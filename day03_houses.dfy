/**
  Day 3: Santa walks an infinite grid of houses following arrows
  '^', '>', 'v', '<' and delivers to every house he stands on. Part 1 counts
  the houses one Santa visits; in part 2 Santa and Robo-Santa take turns with
  the arrows and the answer counts the houses either of them visits.
 */
module Houses {
  import opened Wrappers

  datatype Direction = North | East | South | West

  /** A house: (x, y), with x growing eastwards and y northwards. */
  type Position = (int, int)

  const ORIGIN: Position := (0, 0)

  /** `Direction::from_str`: one arrow per direction; every other string is rejected. */
  function DirectionFromStr(s: string): (r: Result<Direction, string>)
    ensures r.Ok? <==> |s| == 1 && s[0] in "^>v<"
    ensures r.Ok? ==> DirectionToStr(r.value) == s
  {
    if s == "^" then Ok(North)
    else if s == ">" then Ok(East)
    else if s == "v" then Ok(South)
    else if s == "<" then Ok(West)
    else Err("Invalid direction string")
  }

  function DirectionToStr(d: Direction): string {
    match d
    case North => "^"
    case East => ">"
    case South => "v"
    case West => "<"
  }

  /** Exactly the four arrows decode, each to the direction it draws. */
  lemma DirectionStrings(s: string, d: Direction)
    ensures DirectionFromStr(DirectionToStr(d)) == Ok(d)
    ensures DirectionFromStr(s).Ok? ==> DirectionToStr(DirectionFromStr(s).value) == s
    ensures DirectionFromStr(s).Ok? <==> s in {"^", ">", "v", "<"}
  {
  }

  /** What `parse_input` makes of one character: the one-character string decoded, if it is an arrow. */
  function DecodeChar(c: char): (r: Option<Direction>)
    ensures r.Some? <==> c in "^>v<"
    ensures r.Some? ==> DirectionToStr(r.value) == [c]
  {
    var decoded := DirectionFromStr([c]);
    if decoded.Ok? then Some(decoded.value) else None
  }

  /** `parse_input`: decode every character on its own and keep the ones that are arrows, in order. */
  function ParseDirections(input: string): (ds: seq<Direction>)
    ensures |ds| <= |input|
  {
    if input == [] then []
    else
      var first := DecodeChar(input[0]);
      (if first.Some? then [first.value] else []) + ParseDirections(input[1..])
  }

  function Render(ds: seq<Direction>): string {
    if ds == [] then [] else DirectionToStr(ds[0]) + Render(ds[1..])
  }

  /** Parsing keeps all arrows: a rendered route reads back unchanged. */
  lemma {:induction false} ParseRender(ds: seq<Direction>)
    ensures ParseDirections(Render(ds)) == ds
  {
    if ds != [] {
      ParseRender(ds[1..]);
      var s := Render(ds);
      assert s == DirectionToStr(ds[0]) + Render(ds[1..]);
      assert s[1..] == Render(ds[1..]);
      assert DecodeChar(s[0]) == Some(ds[0]);
    }
  }

  /** Parsing works character by character, so anything between arrows only falls away. */
  lemma {:induction false} ParseConcat(a: string, b: string)
    ensures ParseDirections(a + b) == ParseDirections(a) + ParseDirections(b)
  {
    if a == [] {
      assert a + b == b;
    } else {
      var decoded := DecodeChar(a[0]);
      var first := if decoded.Some? then [decoded.value] else [];
      assert (a + b)[1..] == a[1..] + b;
      assert (a + b)[0] == a[0];
      assert ParseDirections(a + b) == first + ParseDirections(a[1..] + b);
      assert ParseDirections(a) == first + ParseDirections(a[1..]);
      ParseConcat(a[1..], b);
    }
  }

  /** A character that is not an arrow contributes nothing. */
  lemma ParseDropsOthers(c: char)
    ensures ParseDirections([c]) == (if c in "^>v<" then [DecodeChar(c).value] else [])
  {
    assert [c][1..] == [];
  }

  /** One step onto a neighbouring house. */
  function Move(p: Position, d: Direction): (q: Position)
    ensures Distance(p, q) == 1
  {
    match d
    case North => (p.0, p.1 + 1)
    case East => (p.0 + 1, p.1)
    case South => (p.0, p.1 - 1)
    case West => (p.0 - 1, p.1)
  }

  function Abs(x: int): nat {
    if x < 0 then -x else x
  }

  /** The Manhattan distance between two houses. */
  function Distance(p: Position, q: Position): nat {
    Abs(p.0 - q.0) + Abs(p.1 - q.1)
  }

  function Opposite(d: Direction): Direction {
    match d
    case North => South
    case East => West
    case South => North
    case West => East
  }

  lemma MoveBack(p: Position, d: Direction)
    ensures Move(Move(p, d), Opposite(d)) == p
  {
  }

  /** Where a walk from `start` ends. */
  function Walk(start: Position, ds: seq<Direction>): Position {
    if ds == [] then start else Move(Walk(start, ds[..|ds| - 1]), ds[|ds| - 1])
  }

  /** Every house a walk from `start` stands on, the start included. */
  function Visited(start: Position, ds: seq<Direction>): set<Position> {
    if ds == [] then {start} else Visited(start, ds[..|ds| - 1]) + {Walk(start, ds)}
  }

  /** A walk of n steps ends at most n houses away and visits at most n + 1 houses, among them both ends. */
  lemma {:induction false} VisitedBounds(start: Position, ds: seq<Direction>)
    ensures start in Visited(start, ds) && Walk(start, ds) in Visited(start, ds)
    ensures 1 <= |Visited(start, ds)| <= |ds| + 1
    ensures Distance(start, Walk(start, ds)) <= |ds|
  {
    if ds != [] {
      VisitedBounds(start, ds[..|ds| - 1]);
    }
  }

  /** `Santa`: where he stands and the set of houses he has delivered to. */
  class Santa {
    var position: Position
    var visitedHouses: set<Position>

    /** He has always delivered to the house he stands on. */
    ghost predicate Valid()
      reads this
    {
      position in visitedHouses
    }

    constructor ()
      ensures Valid()
      ensures position == ORIGIN && visitedHouses == {ORIGIN}
    {
      position := ORIGIN;
      visitedHouses := {ORIGIN};
    }

    method MoveSleigh(d: Direction)
      modifies this
      ensures Valid()
      ensures position == Move(old(position), d)
      ensures visitedHouses == old(visitedHouses) + {position}
    {
      match d {
        case North => position := (position.0, position.1 + 1);
        case East => position := (position.0 + 1, position.1);
        case South => position := (position.0, position.1 - 1);
        case West => position := (position.0 - 1, position.1);
      }
      visitedHouses := visitedHouses + {position};
    }

    /** The `for direction in ... { santa.move_sleigh(direction) }` loops of the solver. */
    method Follow(route: seq<Direction>)
      requires Valid()
      modifies this
      ensures Valid()
      ensures position == Walk(old(position), route)
      ensures visitedHouses == old(visitedHouses) + Visited(old(position), route)
    {
      var i := 0;
      while i < |route|
        invariant 0 <= i <= |route|
        invariant Valid()
        invariant position == Walk(old(position), route[..i])
        invariant visitedHouses == old(visitedHouses) + Visited(old(position), route[..i])
      {
        assert route[..i + 1][..i] == route[..i];
        MoveSleigh(route[i]);
        i := i + 1;
      }
      assert route[..i] == route;
    }
  }

  /** The arrows at positions start, start + 2, start + 4, ... (`step_by(2)`, after `skip(1)` for Robo-Santa). */
  function EveryOther(ds: seq<Direction>, start: nat): (r: seq<Direction>)
    requires start <= 1
    ensures |r| == (|ds| - start + 1) / 2
    ensures forall k :: 0 <= k < |r| ==> r[k] == ds[start + 2 * k]
  {
    seq((|ds| - start + 1) / 2, k requires 0 <= k < (|ds| - start + 1) / 2 => ds[start + 2 * k])
  }

  /** Part 1: the number of houses one Santa visits. */
  method HousesVisitedAlone(ds: seq<Direction>) returns (count: nat)
    ensures count == |Visited(ORIGIN, ds)|
    ensures 1 <= count <= |ds| + 1
  {
    var santa := new Santa();
    santa.Follow(ds);
    VisitedBounds(ORIGIN, ds);
    assert santa.visitedHouses == Visited(ORIGIN, ds);
    count := |santa.visitedHouses|;
  }

  /** Part 2: Santa takes the even-numbered arrows and Robo-Santa the odd ones; count the houses either visits. */
  method HousesVisitedWithRobot(ds: seq<Direction>) returns (count: nat)
    ensures count == |Visited(ORIGIN, EveryOther(ds, 0)) + Visited(ORIGIN, EveryOther(ds, 1))|
    ensures 1 <= count <= |ds| + 1
  {
    var santa := new Santa();
    var roboSanta := new Santa();
    santa.Follow(EveryOther(ds, 0));
    roboSanta.Follow(EveryOther(ds, 1));
    VisitedBounds(ORIGIN, EveryOther(ds, 0));
    VisitedBounds(ORIGIN, EveryOther(ds, 1));
    assert santa.visitedHouses == Visited(ORIGIN, EveryOther(ds, 0));
    assert roboSanta.visitedHouses == Visited(ORIGIN, EveryOther(ds, 1));
    count := |santa.visitedHouses + roboSanta.visitedHouses|;
    TwoWalksBound(ds);
  }

  /** Both walks start at the same house, so together they visit at most one house per arrow plus the start. */
  lemma TwoWalksBound(ds: seq<Direction>)
    ensures 1 <= |Visited(ORIGIN, EveryOther(ds, 0)) + Visited(ORIGIN, EveryOther(ds, 1))| <= |ds| + 1
  {
    var a, b := Visited(ORIGIN, EveryOther(ds, 0)), Visited(ORIGIN, EveryOther(ds, 1));
    VisitedBounds(ORIGIN, EveryOther(ds, 0));
    VisitedBounds(ORIGIN, EveryOther(ds, 1));
    assert {ORIGIN} <= a * b;
    assert |a + b| + |a * b| == |a| + |b|;
    assert |{ORIGIN}| <= |a * b|;
  }
}
