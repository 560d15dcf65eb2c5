/**
  Day 1: Santa follows a string of parentheses through a building, going up a
  floor on '(' and down on ')'. The solver reports the floor he ends on and
  the 1-based position of the instruction that first brings him to floor -1.
 */
module Floors {

  /** The solver panics on any character other than the two parentheses. */
  predicate IsInstructions(s: string) {
    forall i :: 0 <= i < |s| ==> s[i] == '(' || s[i] == ')'
  }

  /** The floor reached from the ground floor: one up per '(' and one down per ')'. */
  function Floor(s: string): int {
    multiset(s)['('] as int - multiset(s)[')'] as int
  }

  /** Each instruction moves exactly one floor. */
  lemma FloorStep(s: string, k: nat)
    requires IsInstructions(s) && k < |s|
    ensures Floor(s[..k + 1]) == Floor(s[..k]) + (if s[k] == '(' then 1 else -1)
  {
    assert s[..k + 1] == s[..k] + [s[k]];
  }

  /** The position reported for the first basement visit: 1-based, and 0 when it never happens. */
  ghost predicate IsFirstBasementVisit(s: string, pos: nat) {
    && pos <= |s|
    && (pos == 0 <==> forall k :: 1 <= k <= |s| ==> Floor(s[..k]) != -1)
    && (pos > 0 ==> Floor(s[..pos]) == -1 && forall k :: 1 <= k < pos ==> Floor(s[..k]) != -1)
  }

  /** The counting loop of the solver, with the file reading and printing taken away. */
  method CountFloors(input: string) returns (floor: int, firstBasementVisit: nat)
    requires IsInstructions(input)
    ensures floor == Floor(input)
    ensures IsFirstBasementVisit(input, firstBasementVisit)
  {
    floor, firstBasementVisit := 0, 0;
    var i := 0;
    while i < |input|
      invariant 0 <= i <= |input|
      invariant floor == Floor(input[..i])
      invariant firstBasementVisit <= i
      invariant firstBasementVisit == 0 <==> forall k :: 1 <= k <= i ==> Floor(input[..k]) != -1
      invariant firstBasementVisit > 0 ==>
        Floor(input[..firstBasementVisit]) == -1 && forall k :: 1 <= k < firstBasementVisit ==> Floor(input[..k]) != -1
    {
      FloorStep(input, i);
      if input[i] == '(' {
        floor := floor + 1;
      } else {
        floor := floor - 1;
      }
      if floor == -1 && firstBasementVisit == 0 {
        firstBasementVisit := i + 1;
      }
      i := i + 1;
    }
    assert input[..i] == input;
  }

  /**
    Because every step is one floor from the ground floor, Santa cannot get
    below ground without passing floor -1: before the first visit to -1 every
    floor is at least 0.
   */
  lemma {:induction false} NoLowerBeforeBasement(s: string, n: nat)
    requires IsInstructions(s) && n <= |s|
    requires forall k :: 1 <= k <= n ==> Floor(s[..k]) != -1
    ensures Floor(s[..n]) >= 0
  {
    if n > 0 {
      NoLowerBeforeBasement(s, n - 1);
      FloorStep(s, n - 1);
    }
  }

  /** So the reported position is also the first at which Santa is below the ground floor. */
  lemma FirstBasementVisitIsFirstBelowGround(s: string, pos: nat)
    requires IsInstructions(s) && IsFirstBasementVisit(s, pos)
    ensures pos > 0 ==> Floor(s[..pos]) < 0 && forall k :: 0 <= k < pos ==> Floor(s[..k]) >= 0
    ensures pos == 0 ==> forall k :: 0 <= k <= |s| ==> Floor(s[..k]) >= 0
  {
    forall k | 0 <= k <= |s| && (pos == 0 || k < pos)
      ensures Floor(s[..k]) >= 0
    {
      NoLowerBeforeBasement(s, k);
    }
  }
}
