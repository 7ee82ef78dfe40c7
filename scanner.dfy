/**
 * The directional clue scanner: looks up the clue names at each cell of a
 * ray and keeps, for every name, the nearest cell it was found at; plus the
 * accessors of the resulting set.
 */
module Scanner {
  import W = Wrappers
  import opened Strings
  import opened Positions

  /** The identifier of a clue in the game's data tables. */
  type ClueId = int

  /**
   * The game's read-only clue tables: the clues present at each cell, keyed
   * by X and then by Y, and the display name of each clue.
   */
  datatype ClueIndex = ClueIndex(cluesPos: map<int, map<int, seq<ClueId>>>, clueNames: map<ClueId, string>)

  /** The clues stored at cell `p`; none for a cell the table does not list. */
  function CluesAt(index: ClueIndex, p: MapPosition): seq<ClueId>
  {
    if p.x in index.cluesPos && p.y in index.cluesPos[p.x] then index.cluesPos[p.x][p.y] else []
  }

  /** The display name of a clue; "" for an identifier without one. */
  function NameOf(index: ClueIndex, id: ClueId): string
  {
    if id in index.clueNames then index.clueNames[id] else ""
  }

  /** The display names of the clues at `p`, in table order. */
  function ClueNames(index: ClueIndex, p: MapPosition): seq<string>
  {
    var ids := CluesAt(index, p);
    seq(|ids|, k requires 0 <= k < |ids| => NameOf(index, ids[k]))
  }

  /** Collects the names of the clues at `m`. */
  method GetClueNames(index: ClueIndex, m: MapPosition) returns (names: seq<string>)
    ensures |names| == |CluesAt(index, m)|
    ensures forall k :: 0 <= k < |names| ==> names[k] == NameOf(index, CluesAt(index, m)[k])
  {
    if !(m.x in index.cluesPos && m.y in index.cluesPos[m.x]) {
      return [];
    }
    var clues := index.cluesPos[m.x][m.y];
    names := [];
    for i := 0 to |clues|
      invariant |names| == i
      invariant forall k :: 0 <= k < i ==> names[k] == NameOf(index, clues[k])
    {
      var clue := clues[i];
      names := names + [if clue in index.clueNames then index.clueNames[clue] else ""];
    }
  }

  /** A scan result: each clue name with the cell it was first found at. */
  type ClueResultSet = map<string, MapPosition>

  /** The set after recording `names` found at `p`: a name already present keeps its cell. */
  function RecordNames(acc: ClueResultSet, names: seq<string>, p: MapPosition): ClueResultSet
    decreases |names|
  {
    if |names| == 0 then acc
    else
      var m := RecordNames(acc, names[..|names| - 1], p);
      var name := names[|names| - 1];
      if name in m then m else m[name := p]
  }

  /** The set after visiting the cells `ps` in order. */
  function ScanPositions(index: ClueIndex, ps: seq<MapPosition>): ClueResultSet
    decreases |ps|
  {
    if |ps| == 0 then map[]
    else
      var last := ps[|ps| - 1];
      RecordNames(ScanPositions(index, ps[..|ps| - 1]), ClueNames(index, last), last)
  }

  /** The index of the first cell of `ps` carrying a clue named `name`, if any. */
  function FirstHit(index: ClueIndex, ps: seq<MapPosition>, name: string): (r: W.Option<nat>)
    ensures r.Some? ==> r.value < |ps| && name in ClueNames(index, ps[r.value])
    ensures r.Some? ==> forall j :: 0 <= j < r.value ==> name !in ClueNames(index, ps[j])
    ensures r.None? ==> forall j :: 0 <= j < |ps| ==> name !in ClueNames(index, ps[j])
    decreases |ps|
  {
    if |ps| == 0 then W.None
    else
      var r := FirstHit(index, ps[..|ps| - 1], name);
      if r.Some? then r
      else if name in ClueNames(index, ps[|ps| - 1]) then W.Some(|ps| - 1)
      else W.None
  }

  /** Recording adds exactly the new names, at `p`, and leaves earlier entries alone. */
  lemma {:induction false} RecordNamesSpec(acc: ClueResultSet, names: seq<string>, p: MapPosition, name: string)
    ensures name in RecordNames(acc, names, p) <==> name in acc || name in names
    ensures name in acc ==> RecordNames(acc, names, p)[name] == acc[name]
    ensures name !in acc && name in names ==> RecordNames(acc, names, p)[name] == p
    decreases |names|
  {
    if |names| > 0 {
      var init := names[..|names| - 1];
      RecordNamesSpec(acc, init, p, name);
      assert names == init + [names[|names| - 1]];
    }
  }

  /** A scan records a name exactly when some cell carries it, and records the first such cell. */
  lemma {:induction false} ScanFirstHit(index: ClueIndex, ps: seq<MapPosition>, name: string)
    ensures name in ScanPositions(index, ps) <==> FirstHit(index, ps, name).Some?
    ensures name in ScanPositions(index, ps) ==> ScanPositions(index, ps)[name] == ps[FirstHit(index, ps, name).value]
    decreases |ps|
  {
    if |ps| > 0 {
      var init := ps[..|ps| - 1];
      var last := ps[|ps| - 1];
      ScanFirstHit(index, init, name);
      RecordNamesSpec(ScanPositions(index, init), ClueNames(index, last), last, name);
    }
  }

  /** The recorded names are exactly the names found along the cells, each at one of those cells. */
  lemma ScanKeysAndValues(index: ClueIndex, ps: seq<MapPosition>, name: string)
    ensures name in ScanPositions(index, ps) <==> exists k :: 0 <= k < |ps| && name in ClueNames(index, ps[k])
    ensures name in ScanPositions(index, ps) ==> ScanPositions(index, ps)[name] in ps
    ensures name in ScanPositions(index, ps) ==> name in ClueNames(index, ScanPositions(index, ps)[name])
  {
    ScanFirstHit(index, ps, name);
  }

  /** The recorded cell of a name is the first cell of `ps` carrying it. */
  lemma ScanRecordsFirst(index: ClueIndex, ps: seq<MapPosition>, name: string) returns (k: nat)
    requires name in ScanPositions(index, ps)
    ensures k < |ps| && ScanPositions(index, ps)[name] == ps[k]
    ensures name in ClueNames(index, ps[k])
    ensures forall j :: 0 <= j < k ==> name !in ClueNames(index, ps[j])
  {
    ScanFirstHit(index, ps, name);
    k := FirstHit(index, ps, name).value;
  }

  /**
   * Nearest wins: along a ray, the cell recorded for a name carries it, and
   * no cell of the ray that carries it is nearer to the start.
   */
  lemma ScanNearestWins(index: ClueIndex, start: MapPosition, dir: ClueDirection, limit: int, name: string, j: nat)
    requires j < |Ray(start, dir, limit)| && name in ClueNames(index, Ray(start, dir, limit)[j])
    ensures name in ScanPositions(index, Ray(start, dir, limit))
    ensures Distance(start, ScanPositions(index, Ray(start, dir, limit))[name]) <= Distance(start, Ray(start, dir, limit)[j])
  {
    var ray := Ray(start, dir, limit);
    ScanKeysAndValues(index, ray, name);
    var k := ScanRecordsFirst(index, ray, name);
    if k < j {
      RayIncreasing(start, dir, limit, k, j);
    }
  }

  /** Scans `limit` cells from `start` along `dir`, keeping each name's nearest cell. */
  method GetClueResultSet(index: ClueIndex, start: MapPosition, dir: ClueDirection, limit: int) returns (results: ClueResultSet)
    ensures results == ScanPositions(index, Ray(start, dir, limit))
  {
    results := map[];
    var positions := DirectedMapPositions(start, dir, limit);
    for i := 0 to |positions|
      invariant results == ScanPositions(index, positions[..i])
    {
      var position := positions[i];
      var names := GetClueNames(index, position);
      assert names == ClueNames(index, position);
      ghost var before := results;
      for j := 0 to |names|
        invariant results == RecordNames(before, names[..j], position)
      {
        var name := names[j];
        assert names[..j + 1][..j] == names[..j];
        if name !in results {
          results := results[name := position];
        }
      }
      assert names[..|names|] == names;
      assert positions[..i + 1][..i] == positions[..i];
    }
    assert positions[..|positions|] == positions;
  }

  /** The default-depth scan from `m`. */
  method FindNextClue(index: ClueIndex, m: MapPosition, dir: ClueDirection) returns (results: ClueResultSet)
    ensures results == ScanPositions(index, Ray(m, dir, SCAN_DEPTH))
  {
    results := GetClueResultSet(index, m, dir, SCAN_DEPTH);
  }

  /** The recorded names, each once, in lexicographic order. */
  method Pois(crs: ClueResultSet) returns (r: seq<string>)
    ensures multiset(r) == multiset(crs.Keys)
    ensures StrictlySorted(r)
  {
    var a := new string[|crs|];
    var rest := crs.Keys;
    var n := 0;
    while rest != {}
      invariant rest <= crs.Keys
      invariant n + |rest| == |crs| <= a.Length
      invariant multiset(a[..n]) + multiset(rest) == multiset(crs.Keys)
      decreases rest
    {
      var k :| k in rest;
      a[n] := k;
      assert a[..n + 1] == a[..n] + [k];
      assert multiset(rest) == multiset(rest - {k}) + multiset{k};
      n := n + 1;
      rest := rest - {k};
    }
    assert a[..n] == a[..];
    assert multiset(rest) == multiset{};
    SortStrings(a);
    r := a[..];
    assert multiset(r) == multiset(crs.Keys);
    forall x
      ensures multiset(r)[x] <= 1
    {
      assert multiset(crs.Keys)[x] == if x in crs.Keys then 1 else 0;
    }
    SortedDistinctIsStrict(r);
  }

  const NOT_FOUND := "this clue/poi does not exists in result set"

  /** The cell recorded for `p`, or an error when the set has no such name. */
  function Pos(crs: ClueResultSet, p: string): (r: W.Result<MapPosition, string>)
    ensures r.Err? <==> p !in crs
    ensures r.Ok? ==> r.value == crs[p]
  {
    if p in crs then W.Ok(crs[p]) else W.Err(NOT_FOUND)
  }

  /** After a scan, `Pos` fails exactly for the names no visited cell carries, and otherwise gives the first cell carrying it. */
  lemma PosAfterScan(index: ClueIndex, ps: seq<MapPosition>, name: string)
    ensures Pos(ScanPositions(index, ps), name).Err? <==> forall j :: 0 <= j < |ps| ==> name !in ClueNames(index, ps[j])
    ensures FirstHit(index, ps, name).Some? ==> Pos(ScanPositions(index, ps), name) == W.Ok(ps[FirstHit(index, ps, name).value])
  {
    ScanFirstHit(index, ps, name);
  }

  /** Names come back sorted whatever order they were recorded in. */
  lemma PoisExample(crs: ClueResultSet, r: seq<string>)
    requires crs.Keys == {"Bronze Key", "Ancient Urn"}
    requires multiset(r) == multiset(crs.Keys) && StrictlySorted(r)
    ensures r == ["Ancient Urn", "Bronze Key"]
  {
    assert |r| == 2 by {
      assert |multiset(r)| == |r|;
    }
    assert LexLess("Ancient Urn", "Bronze Key");
    assert r[0] in multiset(r) && r[1] in multiset(r);
    assert !LexLess("Bronze Key", "Ancient Urn");
    LexIrreflexive(r[0]);
  }
}
