/**
 * The string primitives the core relies on: lower-casing for case-insensitive
 * keys, decimal rendering of integers (the `%d` verb), and the lexicographic
 * order on characters that sorting strings uses, which matches Go's byte
 * order on valid UTF-8.
 */
module Strings {
  import opened Wrappers

  // ---------------------------------------------------------------------------
  // Lower-casing
  // ---------------------------------------------------------------------------

  /** Lower-cases one character; only the ASCII letters A-Z are changed. */
  function ToLowerChar(c: char): char
  {
    if 'A' <= c <= 'Z' then (c as int + 32) as char else c
  }

  /** Lower-cases every character of `s`. */
  function ToLower(s: string): string
  {
    seq(|s|, i requires 0 <= i < |s| => ToLowerChar(s[i]))
  }

  /** Lower-casing twice is lower-casing once. */
  lemma ToLowerIdempotent(s: string)
    ensures ToLower(ToLower(s)) == ToLower(s)
  {
  }

  // ---------------------------------------------------------------------------
  // Decimal rendering and its inverse
  // ---------------------------------------------------------------------------

  predicate IsDigit(c: char)
  {
    '0' <= c <= '9'
  }

  function DigitChar(d: nat): (c: char)
    requires d < 10
    ensures IsDigit(c) && c as int - '0' as int == d
  {
    ('0' as int + d) as char
  }

  function DigitValue(c: char): nat
    requires IsDigit(c)
  {
    c as int - '0' as int
  }

  /** Decimal digits of `n`, most significant first, without padding. */
  function NatToString(n: nat): (s: string)
    ensures |s| >= 1
    ensures forall i :: 0 <= i < |s| ==> IsDigit(s[i])
    ensures s[0] == '0' <==> n == 0
  {
    if n < 10 then [DigitChar(n)] else NatToString(n / 10) + [DigitChar(n % 10)]
  }

  /** Decimal rendering of an integer, with a leading '-' for a negative one. */
  function IntToString(n: int): string
  {
    if n < 0 then "-" + NatToString(-n) else NatToString(n)
  }

  /** Reads a non-empty string of decimal digits; anything else is `None`. */
  function ParseNat(s: string): Option<nat>
  {
    if |s| == 0 || !IsDigit(s[|s| - 1]) then None
    else if |s| == 1 then Some(DigitValue(s[0]))
    else match ParseNat(s[..|s| - 1])
      case None => None
      case Some(v) => Some(10 * v + DigitValue(s[|s| - 1]))
  }

  /** Reads an optionally negative decimal integer. */
  function ParseInt(s: string): Option<int>
  {
    if |s| > 0 && s[0] == '-' then
      match ParseNat(s[1..])
      case None => None
      case Some(v) => Some(-(v as int))
    else
      match ParseNat(s)
      case None => None
      case Some(v) => Some(v)
  }

  lemma {:induction false} ParseNatToString(n: nat)
    ensures ParseNat(NatToString(n)) == Some(n)
    decreases n
  {
    if n >= 10 {
      var s := NatToString(n);
      ParseNatToString(n / 10);
      assert s[..|s| - 1] == NatToString(n / 10);
    }
  }

  /** Every integer is read back from its decimal rendering. */
  lemma IntToStringRoundTrip(n: int)
    ensures ParseInt(IntToString(n)) == Some(n)
  {
    var s := IntToString(n);
    if n < 0 {
      var d := NatToString(-n);
      assert s == "-" + d;
      assert s[0] == '-' && s[1..] == d;
      ParseNatToString(-n);
    } else {
      var d := NatToString(n);
      assert s == d;
      assert IsDigit(d[0]);
      ParseNatToString(n);
    }
  }

  /** A rendered integer never contains a space. */
  lemma IntToStringHasNoSpace(n: int)
    ensures ' ' !in IntToString(n)
  {
  }

  // ---------------------------------------------------------------------------
  // Lexicographic order
  // ---------------------------------------------------------------------------

  /**
   * `a` sorts strictly before `b`: at the first position where they differ
   * `a` has the smaller character, or `a` is a proper prefix of `b`.
   */
  predicate LexLess(a: string, b: string)
    decreases |a|
  {
    |b| > 0 && (|a| == 0 || a[0] < b[0] || (a[0] == b[0] && LexLess(a[1..], b[1..])))
  }

  predicate LexLessEq(a: string, b: string)
  {
    a == b || LexLess(a, b)
  }

  lemma {:induction false} LexIrreflexive(a: string)
    ensures !LexLess(a, a)
    decreases |a|
  {
    if |a| > 0 {
      LexIrreflexive(a[1..]);
    }
  }

  lemma {:induction false} LexTransitive(a: string, b: string, c: string)
    requires LexLess(a, b) && LexLess(b, c)
    ensures LexLess(a, c)
    decreases |a|
  {
    if |a| > 0 && a[0] == b[0] && b[0] == c[0] {
      LexTransitive(a[1..], b[1..], c[1..]);
    }
  }

  lemma {:induction false} LexTotal(a: string, b: string)
    requires a != b
    ensures LexLess(a, b) || LexLess(b, a)
    decreases |a|
  {
    if |a| > 0 && |b| > 0 && a[0] == b[0] {
      assert a[1..] != b[1..] by {
        assert a == [a[0]] + a[1..] && b == [b[0]] + b[1..];
      }
      LexTotal(a[1..], b[1..]);
    }
  }

  /** Neighbours between positions `lo` and `hi` are in order. */
  predicate SortedBetween(s: seq<string>, lo: int, hi: int)
    requires 0 <= lo && hi <= |s|
  {
    forall k :: lo <= k && k + 1 < hi ==> LexLessEq(s[k], s[k + 1])
  }

  /** Neighbours are in order. */
  predicate Sorted(s: seq<string>)
  {
    SortedBetween(s, 0, |s|)
  }

  /** Every earlier element sorts strictly before every later one. */
  predicate StrictlySorted(s: seq<string>)
  {
    forall i, j :: 0 <= i < j < |s| ==> LexLess(s[i], s[j])
  }

  /** Strict order between neighbours extends to all pairs. */
  lemma {:induction false} AdjacentStrictIsStrict(s: seq<string>)
    requires forall k :: 0 <= k && k + 1 < |s| ==> LexLess(s[k], s[k + 1])
    ensures StrictlySorted(s)
    decreases |s|
  {
    if |s| > 1 {
      var t := s[..|s| - 1];
      AdjacentStrictIsStrict(t);
      forall i | 0 <= i < |s| - 1
        ensures LexLess(s[i], s[|s| - 1])
      {
        if i < |s| - 2 {
          assert LexLess(t[i], t[|s| - 2]);
          LexTransitive(s[i], s[|s| - 2], s[|s| - 1]);
        }
      }
    }
  }

  /** A value at two positions occurs at least twice. */
  lemma TwoPositionsTwoOccurrences(s: seq<string>, i: nat, j: nat)
    requires i < j < |s| && s[i] == s[j]
    ensures multiset(s)[s[i]] >= 2
  {
    assert s == s[..j] + [s[j]] + s[j + 1..];
    assert s[..j][i] == s[i];
    assert multiset(s[..j])[s[i]] >= 1;
  }

  /** A sorted sequence without repeated values is strictly sorted. */
  lemma SortedDistinctIsStrict(s: seq<string>)
    requires Sorted(s)
    requires forall x :: multiset(s)[x] <= 1
    ensures StrictlySorted(s)
  {
    forall k | 0 <= k && k + 1 < |s|
      ensures LexLess(s[k], s[k + 1])
    {
      if s[k] == s[k + 1] {
        TwoPositionsTwoOccurrences(s, k, k + 1);
      }
    }
    AdjacentStrictIsStrict(s);
  }

  /** Sorts `a` in place (insertion sort by adjacent swaps). */
  method SortStrings(a: array<string>)
    modifies a
    ensures Sorted(a[..])
    ensures multiset(a[..]) == multiset(old(a[..]))
  {
    var i := 0;
    while i < a.Length
      invariant 0 <= i <= a.Length
      invariant SortedBetween(a[..], 0, i)
      invariant multiset(a[..]) == multiset(old(a[..]))
    {
      Insert(a, i);
      i := i + 1;
    }
  }

  /** Moves `a[i]` left into the sorted prefix `a[..i]`. */
  method Insert(a: array<string>, i: nat)
    requires i < a.Length
    requires SortedBetween(a[..], 0, i)
    modifies a
    ensures SortedBetween(a[..], 0, i + 1)
    ensures multiset(a[..]) == multiset(old(a[..]))
  {
    var j: nat := i;
    while j > 0 && !LexLessEq(a[j - 1], a[j])
      invariant InsertInv(a[..], j, i)
      invariant multiset(a[..]) == multiset(old(a[..]))
    {
      InsertStep(a[..], j, i);
      a[j - 1], a[j] := a[j], a[j - 1];
      j := j - 1;
    }
    InsertDone(a[..], j, i);
  }

  /** The state of `Insert`: `s[..j]` and `s[j..i + 1]` are sorted, and `s[j]` is the element moving left. */
  predicate InsertInv(s: seq<string>, j: nat, i: nat)
  {
    && j <= i < |s|
    && SortedBetween(s, 0, j)
    && SortedBetween(s, j, i + 1)
    && (0 < j < i ==> LexLessEq(s[j - 1], s[j + 1]))
  }

  lemma InsertStep(s: seq<string>, j: nat, i: nat)
    requires InsertInv(s, j, i) && 0 < j && !LexLessEq(s[j - 1], s[j])
    ensures InsertInv(s[j - 1 := s[j]][j := s[j - 1]], j - 1, i)
  {
    LexTotal(s[j - 1], s[j]);
  }

  lemma InsertDone(s: seq<string>, j: nat, i: nat)
    requires InsertInv(s, j, i) && (j == 0 || LexLessEq(s[j - 1], s[j]))
    ensures SortedBetween(s, 0, i + 1)
  {
  }
}
