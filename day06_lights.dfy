/**
  Day 6: a 1000 by 1000 grid of lights, stored row by row in one flat
  vector, receives rectangle instructions "turn on", "turn off" and
  "toggle". Under the first rules a light is on (1) or off (0); under the
  second each light has a brightness that the instructions raise or lower.
 */
module Lights {

  const GRID_SIZE: nat := 1000

  datatype Ruleset = Part1 | Part2

  /** The corners ((x1, y1), (x2, y2)); both ranges are inclusive. */
  datatype Rectangle = Rectangle(x1: nat, y1: nat, x2: nat, y2: nat)

  datatype Instruction = TurnOn(rect: Rectangle) | TurnOff(rect: Rectangle) | Toggle(rect: Rectangle)

  /**
    A rectangle the solver can apply without indexing outside the grid or
    wrapping into the next row: when both ranges are non-empty, both far
    corners lie on the grid.
   */
  predicate FitsGrid(r: Rectangle) {
    r.x1 <= r.x2 && r.y1 <= r.y2 ==> r.x2 < GRID_SIZE && r.y2 < GRID_SIZE
  }

  /** Cell i of the flat vector holds light (i / GRID_SIZE, i % GRID_SIZE). */
  predicate Covers(r: Rectangle, i: nat) {
    r.x1 <= i / GRID_SIZE <= r.x2 && r.y1 <= i % GRID_SIZE <= r.y2
  }

  /** The index `x * GRID_SIZE + y` names light (x, y), so distinct lights never share a cell. */
  lemma CellOf(x: nat, y: nat)
    requires y < GRID_SIZE
    ensures (x * GRID_SIZE + y) / GRID_SIZE == x && (x * GRID_SIZE + y) % GRID_SIZE == y
  {
  }

  /** What one instruction does to one light of its rectangle. */
  function Rule(ruleset: Ruleset, ins: Instruction, v: nat): (r: nat)
    ensures ruleset == Part1 && ins.TurnOn? ==> r == 1
    ensures ruleset == Part1 && ins.TurnOff? ==> r == 0
    ensures ruleset == Part1 && ins.Toggle? ==> r <= 1 && (r == 1 <==> v % 2 == 0)
    ensures ruleset == Part2 && ins.TurnOn? ==> r == v + 1
    ensures ruleset == Part2 && ins.Toggle? ==> r == v + 2
    ensures ruleset == Part2 && ins.TurnOff? ==> r <= v <= r + 1 && (v > 0 ==> r + 1 == v)
  {
    match ruleset
    case Part1 => (
      match ins
      case TurnOn(_) => 1
      case TurnOff(_) => 0
      case Toggle(_) => (v + 1) % 2)
    case Part2 => (
      match ins
      case TurnOn(_) => v + 1
      case TurnOff(_) => if v == 0 then 0 else v - 1
      case Toggle(_) => v + 2)
  }

  /** The grid after one instruction: the rule applied inside the rectangle, every other cell as it was. */
  function Step(ruleset: Ruleset, ins: Instruction, g: seq<nat>): seq<nat> {
    seq(|g|, i requires 0 <= i < |g| => if Covers(ins.rect, i) then Rule(ruleset, ins, g[i]) else g[i])
  }

  /** The grid after a list of instructions, in order. */
  function RunAll(ruleset: Ruleset, instructions: seq<Instruction>, g: seq<nat>): seq<nat> {
    if instructions == [] then g
    else Step(ruleset, instructions[|instructions| - 1], RunAll(ruleset, instructions[..|instructions| - 1], g))
  }

  /** A grid with every light off. */
  function Dark(): seq<nat> {
    seq(GRID_SIZE * GRID_SIZE, _ => 0)
  }

  class LightGrid {
    const ruleset: Ruleset
    const grid: array<nat>

    ghost predicate Valid()
      reads this
    {
      grid.Length == GRID_SIZE * GRID_SIZE
    }

    /** `LightGrid::new`: every light off. */
    constructor (ruleset: Ruleset)
      ensures Valid() && fresh(grid)
      ensures this.ruleset == ruleset
      ensures grid[..] == Dark()
    {
      this.ruleset := ruleset;
      grid := new nat[GRID_SIZE * GRID_SIZE](_ => 0);
    }

    /** `run_instruction`: the nested `for x in x1..=x2`, `for y in y1..=y2` loops over the rectangle. */
    method RunInstruction(ins: Instruction)
      requires Valid() && FitsGrid(ins.rect)
      modifies grid
      ensures grid[..] == Step(ruleset, ins, old(grid[..]))
    {
      var r := ins.rect;
      var x := r.x1;
      while x <= r.x2
        invariant r.x1 <= x && (r.x1 <= r.x2 ==> x <= r.x2 + 1)
        invariant forall i :: 0 <= i < grid.Length ==>
          grid[i] == if Covers(r, i) && i / GRID_SIZE < x then Rule(ruleset, ins, old(grid[i])) else old(grid[i])
      {
        var y := r.y1;
        while y <= r.y2
          invariant r.y1 <= y && (r.y1 <= r.y2 ==> y <= r.y2 + 1)
          invariant forall i :: 0 <= i < grid.Length ==>
            grid[i] == if Covers(r, i) && (i / GRID_SIZE < x || (i / GRID_SIZE == x && i % GRID_SIZE < y))
                       then Rule(ruleset, ins, old(grid[i])) else old(grid[i])
        {
          CellOf(x, y);
          var cell := x * GRID_SIZE + y;
          grid[cell] := Rule(ruleset, ins, grid[cell]);
          y := y + 1;
        }
        x := x + 1;
      }
    }
  }

  /** The number of lights that are exactly 1 (`filter(|&&s| s == 1).count()`). */
  function LitCount(g: seq<nat>): (count: nat)
    ensures count == multiset(g)[1]
  {
    if g == [] then 0
    else
      assert g == g[..|g| - 1] + [g[|g| - 1]];
      LitCount(g[..|g| - 1]) + (if g[|g| - 1] == 1 then 1 else 0)
  }

  /** The sum of all brightnesses (`iter().sum()`). */
  function TotalBrightness(g: seq<nat>): nat {
    if g == [] then 0 else TotalBrightness(g[..|g| - 1]) + g[|g| - 1]
  }

  /** No light is brighter than the total, and every lit light adds at least 1 to it. */
  lemma {:induction false} BrightnessBounds(g: seq<nat>)
    ensures forall i :: 0 <= i < |g| ==> g[i] <= TotalBrightness(g)
    ensures LitCount(g) <= TotalBrightness(g)
  {
    if g != [] {
      BrightnessBounds(g[..|g| - 1]);
    }
  }

  /** The solver's two answers: lights lit under the first rules, total brightness under the second. */
  method Solve(instructions: seq<Instruction>) returns (litCount: nat, totalBrightness: nat)
    requires forall k :: 0 <= k < |instructions| ==> FitsGrid(instructions[k].rect)
    ensures litCount == LitCount(RunAll(Part1, instructions, Dark()))
    ensures totalBrightness == TotalBrightness(RunAll(Part2, instructions, Dark()))
  {
    var lightGrid1 := new LightGrid(Part1);
    var lightGrid2 := new LightGrid(Part2);
    var k := 0;
    while k < |instructions|
      invariant 0 <= k <= |instructions|
      invariant lightGrid1.grid[..] == RunAll(Part1, instructions[..k], Dark())
      modifies lightGrid1.grid
    {
      assert instructions[..k + 1][..k] == instructions[..k];
      lightGrid1.RunInstruction(instructions[k]);
      k := k + 1;
    }
    assert instructions[..k] == instructions;
    litCount := LitCount(lightGrid1.grid[..]);

    k := 0;
    while k < |instructions|
      invariant 0 <= k <= |instructions|
      invariant lightGrid2.grid[..] == RunAll(Part2, instructions[..k], Dark())
      modifies lightGrid2.grid
    {
      assert instructions[..k + 1][..k] == instructions[..k];
      lightGrid2.RunInstruction(instructions[k]);
      k := k + 1;
    }
    assert instructions[..k] == instructions;
    totalBrightness := TotalBrightness(lightGrid2.grid[..]);
  }

  /** Under the first rules every light is 0 or 1. */
  ghost predicate IsBinary(g: seq<nat>) {
    forall i :: 0 <= i < |g| ==> g[i] <= 1
  }

  /** Starting from lights that are all off or on, the first rules keep them so. */
  lemma {:induction false} Part1StaysBinary(instructions: seq<Instruction>, g: seq<nat>)
    requires IsBinary(g)
    ensures IsBinary(RunAll(Part1, instructions, g))
  {
    if instructions != [] {
      Part1StaysBinary(instructions[..|instructions| - 1], g);
    }
  }

  /** On such a grid the lit count is the total brightness. */
  lemma {:induction false} LitCountOfBinary(g: seq<nat>)
    requires IsBinary(g)
    ensures LitCount(g) == TotalBrightness(g)
  {
    if g != [] {
      LitCountOfBinary(g[..|g| - 1]);
    }
  }

  /** Toggling the same rectangle twice under the first rules restores an on/off grid. */
  lemma ToggleTwice(r: Rectangle, g: seq<nat>)
    requires IsBinary(g)
    ensures Step(Part1, Toggle(r), Step(Part1, Toggle(r), g)) == g
  {
    var h := Step(Part1, Toggle(r), Step(Part1, Toggle(r), g));
    forall i | 0 <= i < |g| ensures h[i] == g[i] {
      if Covers(r, i) {
        assert g[i] == 0 || g[i] == 1;
      }
    }
  }

  /** An instruction with an empty range changes nothing. */
  lemma EmptyRectangle(ruleset: Ruleset, ins: Instruction, g: seq<nat>)
    requires ins.rect.x1 > ins.rect.x2 || ins.rect.y1 > ins.rect.y2
    ensures Step(ruleset, ins, g) == g
  {
  }

  /** The number of cells among the first n that a rectangle covers. */
  function CoveredCount(r: Rectangle, n: nat): nat {
    if n == 0 then 0 else CoveredCount(r, n - 1) + (if Covers(r, n - 1) then 1 else 0)
  }

  /**
    Under the second rules "turn on" raises the total brightness by one per
    covered light and "toggle" by two.
   */
  lemma {:induction false} BrightnessRises(ins: Instruction, g: seq<nat>, n: nat)
    requires ins.TurnOn? || ins.Toggle?
    requires n <= |g|
    ensures TotalBrightness(Step(Part2, ins, g)[..n]) ==
      TotalBrightness(g[..n]) + (if ins.TurnOn? then 1 else 2) * CoveredCount(ins.rect, n)
  {
    if n > 0 {
      BrightnessRises(ins, g, n - 1);
      assert Step(Part2, ins, g)[..n][..n - 1] == Step(Part2, ins, g)[..n - 1];
      assert g[..n][..n - 1] == g[..n - 1];
    }
  }

  /** "turn off" under the second rules lowers the total by at most one per covered light. */
  lemma {:induction false} BrightnessFalls(r: Rectangle, g: seq<nat>, n: nat)
    requires n <= |g|
    ensures TotalBrightness(g[..n]) - CoveredCount(r, n) <= TotalBrightness(Step(Part2, TurnOff(r), g)[..n]) <= TotalBrightness(g[..n])
  {
    if n > 0 {
      BrightnessFalls(r, g, n - 1);
      assert Step(Part2, TurnOff(r), g)[..n][..n - 1] == Step(Part2, TurnOff(r), g)[..n - 1];
      assert g[..n][..n - 1] == g[..n - 1];
    }
  }
}
