/**
 * Grid positions, the four cardinal clue directions with the `None` sentinel,
 * the `/travel` command, and the bounded ray of cells a scan walks.
 */
module Positions {
  import W = Wrappers
  import opened Strings

  datatype ClueDirection = Right | Down | Left | Up | None {

    /** The lower-case name shown for the direction. */
    function String(): string
    {
      match this
      case Right => "right"
      case Down => "down"
      case Left => "left"
      case Up => "up"
      case None => "none"
    }

    /** The arrow glyph shown for the direction; the sentinel shows the word "none". */
    function Arrow(): string
    {
      match this
      case Right => "→"
      case Down => "↓"
      case Left => "←"
      case Up => "↑"
      case None => "none"
    }
  }

  /** Directions are numbered 0 to 3 in the order right, down, left, up; every other number behaves as the sentinel. */
  function DirectionFromInt(n: int): ClueDirection
  {
    if n == 0 then Right
    else if n == 1 then Down
    else if n == 2 then Left
    else if n == 3 then Up
    else None
  }

  /** The names tell the directions apart, and the sentinel is the only one without a one-glyph arrow. */
  lemma DirectionLabels(d: ClueDirection, e: ClueDirection)
    ensures d.String() == e.String() ==> d == e
    ensures d.Arrow() == e.Arrow() ==> d == e
    ensures |d.Arrow()| == 1 <==> d != None
  {
  }

  /** Exactly the numbers 0 to 3 name a cardinal direction, and each cardinal direction has one number. */
  lemma DirectionNumbering(n: int)
    ensures DirectionFromInt(n) != None <==> 0 <= n <= 3
    ensures forall m :: 0 <= m <= 3 && 0 <= n <= 3 && DirectionFromInt(m) == DirectionFromInt(n) ==> m == n
  {
  }

  datatype MapPosition = MapPosition(x: int, y: int) {

    /** The game console command that travels to this position. */
    function TravelCommand(): string
    {
      "/travel " + IntToString(x) + " " + IntToString(y)
    }
  }

  const TRAVEL_PREFIX := "/travel "

  /** Index of the first space in `s`, or |s| if there is none. */
  function IndexOfSpace(s: string): (i: nat)
    ensures i <= |s|
    ensures i < |s| ==> s[i] == ' '
    ensures forall k :: 0 <= k < i ==> s[k] != ' '
  {
    if |s| == 0 || s[0] == ' ' then 0 else 1 + IndexOfSpace(s[1..])
  }

  /** A reference reader for `/travel X Y`, used to show that the rendering is unambiguous. */
  function ParseTravelCommand(s: string): W.Option<MapPosition>
  {
    if |s| < |TRAVEL_PREFIX| || s[..|TRAVEL_PREFIX|] != TRAVEL_PREFIX then W.None
    else
      var rest := s[|TRAVEL_PREFIX|..];
      var i := IndexOfSpace(rest);
      if i == |rest| then W.None
      else
        var x, y := ParseInt(rest[..i]), ParseInt(rest[i + 1..]);
        if x.Some? && y.Some? then W.Some(MapPosition(x.value, y.value)) else W.None
  }

  /** Every travel command reads back as the position it was made from. */
  lemma TravelCommandRoundTrip(p: MapPosition)
    ensures ParseTravelCommand(p.TravelCommand()) == W.Some(p)
  {
    var sx, sy := IntToString(p.x), IntToString(p.y);
    var s := p.TravelCommand();
    assert s == TRAVEL_PREFIX + (sx + " " + sy);
    var rest := sx + " " + sy;
    assert s[|TRAVEL_PREFIX|..] == rest;
    IntToStringHasNoSpace(p.x);
    assert IndexOfSpace(rest) == |sx| by {
      assert rest[|sx|] == ' ';
    }
    assert rest[..|sx|] == sx;
    assert rest[|sx| + 1..] == sy;
    IntToStringRoundTrip(p.x);
    IntToStringRoundTrip(p.y);
  }

  lemma TravelCommandExample()
    ensures MapPosition(12, -4).TravelCommand() == "/travel 12 -4"
  {
  }

  /** The cell `i` steps from `start` along `dir`; the sentinel does not move. */
  function Step(start: MapPosition, dir: ClueDirection, i: int): MapPosition
  {
    match dir
    case Right => MapPosition(start.x + i, start.y)
    case Left => MapPosition(start.x - i, start.y)
    case Up => MapPosition(start.x, start.y - i)
    case Down => MapPosition(start.x, start.y + i)
    case None => start
  }

  /** The first `limit` cells along `dir`, nearest first; empty for the sentinel or a limit below 1. */
  function Ray(start: MapPosition, dir: ClueDirection, limit: int): seq<MapPosition>
    decreases limit
  {
    if limit < 1 || dir == None then [] else Ray(start, dir, limit - 1) + [Step(start, dir, limit)]
  }

  function Abs(n: int): nat
  {
    if n < 0 then -n else n
  }

  /** Chebyshev distance between two cells. */
  function Distance(a: MapPosition, b: MapPosition): nat
  {
    var dx, dy := Abs(a.x - b.x), Abs(a.y - b.y);
    if dx < dy then dy else dx
  }

  /** No ray without a direction or without a positive limit. */
  lemma RayEmpty(start: MapPosition, dir: ClueDirection, limit: int)
    ensures Ray(start, dir, limit) == [] <==> limit < 1 || dir == None
  {
  }

  /**
   * A cardinal ray has exactly `limit` cells; cell k is k + 1 steps from the
   * start along one axis, with the other coordinate unchanged.
   */
  lemma {:induction false} RayShape(start: MapPosition, dir: ClueDirection, limit: int, k: nat)
    requires dir != None && k < limit
    ensures |Ray(start, dir, limit)| == limit
    ensures Ray(start, dir, limit)[k] == Step(start, dir, k + 1)
    decreases limit
  {
    if k < limit - 1 {
      RayShape(start, dir, limit - 1, k);
    } else if limit > 1 {
      RayShape(start, dir, limit - 1, 0);
    }
  }

  /** Ray cells lie on the start's row or column, at strictly increasing distance, never at the start. */
  lemma RayCells(start: MapPosition, dir: ClueDirection, limit: int, k: nat)
    requires dir != None && k < limit
    ensures |Ray(start, dir, limit)| == limit
    ensures (dir == Right || dir == Left) ==> Ray(start, dir, limit)[k].y == start.y
    ensures (dir == Up || dir == Down) ==> Ray(start, dir, limit)[k].x == start.x
    ensures dir == Right ==> Ray(start, dir, limit)[k].x == start.x + k + 1
    ensures dir == Left ==> Ray(start, dir, limit)[k].x == start.x - k - 1
    ensures dir == Up ==> Ray(start, dir, limit)[k].y == start.y - k - 1
    ensures dir == Down ==> Ray(start, dir, limit)[k].y == start.y + k + 1
    ensures Distance(start, Ray(start, dir, limit)[k]) == k + 1
    ensures Ray(start, dir, limit)[k] != start
  {
    RayShape(start, dir, limit, k);
  }

  /** Cells further along the ray are further from the start, so no cell repeats. */
  lemma RayIncreasing(start: MapPosition, dir: ClueDirection, limit: int, i: nat, j: nat)
    requires i < j < |Ray(start, dir, limit)|
    ensures Distance(start, Ray(start, dir, limit)[i]) < Distance(start, Ray(start, dir, limit)[j])
    ensures Ray(start, dir, limit)[i] != Ray(start, dir, limit)[j]
  {
    RayEmpty(start, dir, limit);
    RayShape(start, dir, limit, 0);
    RayCells(start, dir, limit, i);
    RayCells(start, dir, limit, j);
  }

  /** The cells of the ray, built by one counted loop per direction. */
  method DirectedMapPositions(start: MapPosition, dir: ClueDirection, limit: int) returns (results: seq<MapPosition>)
    ensures results == Ray(start, dir, limit)
  {
    if limit < 1 {
      return [];
    }
    results := [];
    match dir {
      case Right =>
        for i := 1 to limit + 1
          invariant results == Ray(start, dir, i - 1)
        {
          results := results + [MapPosition(start.x + i, start.y)];
        }
      case Left =>
        for i := 1 to limit + 1
          invariant results == Ray(start, dir, i - 1)
        {
          results := results + [MapPosition(start.x - i, start.y)];
        }
      case Up =>
        for i := 1 to limit + 1
          invariant results == Ray(start, dir, i - 1)
        {
          results := results + [MapPosition(start.x, start.y - i)];
        }
      case Down =>
        for i := 1 to limit + 1
          invariant results == Ray(start, dir, i - 1)
        {
          results := results + [MapPosition(start.x, start.y + i)];
        }
      case None =>
    }
  }

  /** How far a scan looks when the caller does not say. */
  const SCAN_DEPTH := 10

  /** The default-depth ray from `m`. */
  method DirectedMapPositionsSet(m: MapPosition, dir: ClueDirection) returns (results: seq<MapPosition>)
    ensures results == Ray(m, dir, SCAN_DEPTH)
    ensures dir != None ==> |results| == SCAN_DEPTH
  {
    results := DirectedMapPositions(m, dir, SCAN_DEPTH);
    if dir != None {
      RayShape(m, dir, SCAN_DEPTH, 0);
    }
  }
}
