/**
 * The localization index: an ordered list of (country code, friendly name)
 * entries with two case-insensitive lookup maps built from it, and the
 * index of the entry currently selected in the UI (-1 for none).
 */
module Localization {
  import opened Wrappers
  import opened Strings

  /** The 32-bit integer the selection index is stored in. */
  newtype int32 = x: int | -0x8000_0000 <= x < 0x8000_0000

  datatype SupportedLanguage = SupportedLanguage(countryCode: string, friendlyName: string)

  /** Which half of an entry keys a lookup map; the other half is the value. */
  datatype KeySide = ByCode | ByName

  function KeyOf(e: SupportedLanguage, side: KeySide): string
  {
    match side
    case ByCode => e.countryCode
    case ByName => e.friendlyName
  }

  function ValueOf(e: SupportedLanguage, side: KeySide): string
  {
    match side
    case ByCode => e.friendlyName
    case ByName => e.countryCode
  }

  /**
   * The map the construction loop builds after visiting `entries` in order:
   * each entry stores its value under its lower-cased key, overwriting any
   * earlier entry with the same key.
   */
  function LookupMap(entries: seq<SupportedLanguage>, side: KeySide): map<string, string>
  {
    if |entries| == 0 then map[]
    else
      var last := entries[|entries| - 1];
      LookupMap(entries[..|entries| - 1], side)[ToLower(KeyOf(last, side)) := ValueOf(last, side)]
  }

  /** The index of the last entry whose lower-cased key is `key`, if any. */
  function LastMatch(entries: seq<SupportedLanguage>, side: KeySide, key: string): (r: Option<nat>)
    ensures r.Some? ==> r.value < |entries| && ToLower(KeyOf(entries[r.value], side)) == key
    ensures r.Some? ==> forall j :: r.value < j < |entries| ==> ToLower(KeyOf(entries[j], side)) != key
    ensures r.None? ==> forall j :: 0 <= j < |entries| ==> ToLower(KeyOf(entries[j], side)) != key
  {
    if |entries| == 0 then None
    else if ToLower(KeyOf(entries[|entries| - 1], side)) == key then Some(|entries| - 1)
    else LastMatch(entries[..|entries| - 1], side, key)
  }

  /** What a lookup of `key` should answer: the value of the last matching entry, or "" when none matches. */
  function Resolve(entries: seq<SupportedLanguage>, side: KeySide, key: string): string
  {
    match LastMatch(entries, side, key)
    case None => ""
    case Some(i) => ValueOf(entries[i], side)
  }

  /** The built map holds exactly the lower-cased keys, each with the value of its last entry. */
  lemma {:induction false} LookupMapIsLastWins(entries: seq<SupportedLanguage>, side: KeySide, key: string)
    ensures key in LookupMap(entries, side) <==> LastMatch(entries, side, key).Some?
    ensures key in LookupMap(entries, side) ==> LookupMap(entries, side)[key] == Resolve(entries, side, key)
    decreases |entries|
  {
    if |entries| > 0 {
      LookupMapIsLastWins(entries[..|entries| - 1], side, key);
    }
  }

  /** No two entries have the same key once lower-cased. */
  predicate UniqueKeys(entries: seq<SupportedLanguage>, side: KeySide)
  {
    forall i, j :: 0 <= i < j < |entries| ==> ToLower(KeyOf(entries[i], side)) != ToLower(KeyOf(entries[j], side))
  }

  /** With unique keys, looking up an entry's own key finds that entry. */
  lemma ResolveOwnKey(entries: seq<SupportedLanguage>, side: KeySide, i: nat)
    requires UniqueKeys(entries, side) && i < |entries|
    ensures Resolve(entries, side, ToLower(KeyOf(entries[i], side))) == ValueOf(entries[i], side)
  {
  }

  class SupportedLanguagesCollection {
    const supportedLanguages: seq<SupportedLanguage>
    /** lower-cased country code to friendly name */
    const countryCodeNameMap: map<string, string>
    /** lower-cased friendly name to country code */
    const nameCountryCodeMap: map<string, string>
    var selectedIndex: int32

    /** The two maps are the ones built from the entry list. */
    predicate Valid()
    {
      && countryCodeNameMap == LookupMap(supportedLanguages, ByCode)
      && nameCountryCodeMap == LookupMap(supportedLanguages, ByName)
    }

    constructor (languages: seq<SupportedLanguage>)
      ensures Valid()
      ensures supportedLanguages == languages
      ensures selectedIndex == -1
    {
      var ccnmap: map<string, string> := map[];
      var nccmap: map<string, string> := map[];
      for k := 0 to |languages|
        invariant ccnmap == LookupMap(languages[..k], ByCode)
        invariant nccmap == LookupMap(languages[..k], ByName)
      {
        var lang := languages[k];
        assert languages[..k + 1][..k] == languages[..k];
        ccnmap := ccnmap[ToLower(lang.countryCode) := lang.friendlyName];
        nccmap := nccmap[ToLower(lang.friendlyName) := lang.countryCode];
      }
      assert languages[..|languages|] == languages;
      supportedLanguages := languages;
      selectedIndex := -1;
      countryCodeNameMap := ccnmap;
      nameCountryCodeMap := nccmap;
    }

    /** The UI writes the selection through the index it is handed. */
    method SetSelectedIndex(i: int32)
      modifies this
      ensures selectedIndex == i
    {
      selectedIndex := i;
    }

    /** The code of the last entry whose friendly name equals `lang` ignoring case, or "". */
    function CountryCode(lang: string): (code: string)
      requires Valid()
      ensures code == Resolve(supportedLanguages, ByName, ToLower(lang))
    {
      var key := ToLower(lang);
      LookupMapIsLastWins(supportedLanguages, ByName, key);
      if key in nameCountryCodeMap then nameCountryCodeMap[key] else ""
    }

    /** The friendly name of the last entry whose code equals `countryCode` ignoring case, or "". */
    function Lang(countryCode: string): (name: string)
      requires Valid()
      ensures name == Resolve(supportedLanguages, ByCode, ToLower(countryCode))
    {
      var key := ToLower(countryCode);
      LookupMapIsLastWins(supportedLanguages, ByCode, key);
      if key in countryCodeNameMap then countryCodeNameMap[key] else ""
    }

    /** The friendly names, in entry order. */
    method Langs() returns (langs: seq<string>)
      ensures |langs| == |supportedLanguages|
      ensures forall i :: 0 <= i < |langs| ==> langs[i] == supportedLanguages[i].friendlyName
    {
      var a := new string[|supportedLanguages|];
      for i := 0 to |supportedLanguages|
        invariant forall k :: 0 <= k < i ==> a[k] == supportedLanguages[k].friendlyName
      {
        a[i] := supportedLanguages[i].friendlyName;
      }
      langs := a[..];
    }

    /** The country codes, in entry order. */
    method CountryCodes() returns (ccs: seq<string>)
      ensures |ccs| == |supportedLanguages|
      ensures forall i :: 0 <= i < |ccs| ==> ccs[i] == supportedLanguages[i].countryCode
    {
      var a := new string[|supportedLanguages|];
      for i := 0 to |supportedLanguages|
        invariant forall k :: 0 <= k < i ==> a[k] == supportedLanguages[k].countryCode
      {
        a[i] := supportedLanguages[i].countryCode;
      }
      ccs := a[..];
    }
  }

  /**
   * When codes and names are unique ignoring case, the two lookups are
   * inverse on the table: an entry's name maps to its code and back.
   */
  lemma LookupsRoundTrip(c: SupportedLanguagesCollection, i: nat)
    requires c.Valid() && i < |c.supportedLanguages|
    requires UniqueKeys(c.supportedLanguages, ByCode) && UniqueKeys(c.supportedLanguages, ByName)
    ensures c.CountryCode(c.supportedLanguages[i].friendlyName) == c.supportedLanguages[i].countryCode
    ensures c.Lang(c.supportedLanguages[i].countryCode) == c.supportedLanguages[i].friendlyName
    ensures c.CountryCode(c.Lang(c.supportedLanguages[i].countryCode)) == c.supportedLanguages[i].countryCode
    ensures c.Lang(c.CountryCode(c.supportedLanguages[i].friendlyName)) == c.supportedLanguages[i].friendlyName
  {
  }

  /** The languages the application offers. */
  const SUPPORTED_LANGUAGES: seq<SupportedLanguage> := [
    SupportedLanguage("fr", "Francais"),
    SupportedLanguage("en", "English"),
    SupportedLanguage("es", "Espanol"),
    SupportedLanguage("de", "Deutsch"),
    SupportedLanguage("pt", "Portugues")
  ]

  /** In the application's table codes and names are unique ignoring case. */
  lemma SupportedLanguagesAreUnique()
    ensures UniqueKeys(SUPPORTED_LANGUAGES, ByCode) && UniqueKeys(SUPPORTED_LANGUAGES, ByName)
  {
    SupportedLanguagesLowered();
  }

  /** The lower-cased keys of the application's table. */
  lemma SupportedLanguagesLowered()
    ensures forall i :: 0 <= i < |SUPPORTED_LANGUAGES| ==>
      ToLower(KeyOf(SUPPORTED_LANGUAGES[i], ByCode)) == ["fr", "en", "es", "de", "pt"][i]
    ensures forall i :: 0 <= i < |SUPPORTED_LANGUAGES| ==>
      ToLower(KeyOf(SUPPORTED_LANGUAGES[i], ByName)) == ["francais", "english", "espanol", "deutsch", "portugues"][i]
  {
  }

  /** Codes are looked up ignoring case in the application's table. */
  lemma LangIgnoresCase(c: SupportedLanguagesCollection)
    requires c.Valid() && c.supportedLanguages == SUPPORTED_LANGUAGES
    ensures c.Lang("FR") == "Francais" && c.Lang("fr") == "Francais"
  {
    SupportedLanguagesAreUnique();
    assert ToLower("FR") == "fr" && ToLower("fr") == "fr";
    ResolveOwnKey(SUPPORTED_LANGUAGES, ByCode, 0);
  }

  /** A known friendly name gives its code; an unknown one gives "". */
  lemma CountryCodeLookups(c: SupportedLanguagesCollection)
    requires c.Valid() && c.supportedLanguages == SUPPORTED_LANGUAGES
    ensures c.CountryCode("english") == "en"
    ensures c.CountryCode("klingon") == ""
  {
    SupportedLanguagesAreUnique();
    SupportedLanguagesLowered();
    assert ToLower("english") == "english" && ToLower("klingon") == "klingon";
    ResolveOwnKey(SUPPORTED_LANGUAGES, ByName, 1);
  }
}
