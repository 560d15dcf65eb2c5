/**
  Day 5: Santa sorts strings into naughty and nice. The first rules ask for
  three vowels, a doubled letter and none of four forbidden pairs; the second
  rules ask for a letter pair that appears twice without overlapping and a
  letter that repeats with one letter between.
 */
module NiceStrings {

  /** `is_vowel`: membership in the five vowels. */
  predicate IsVowel(c: char)
  {
    c in ['a', 'e', 'i', 'o', 'u']
  }

  /** How many characters of `s` are vowels (`filter(is_vowel).count()`). */
  function VowelCount(s: string): (n: nat)
    ensures n == multiset(s)['a'] + multiset(s)['e'] + multiset(s)['i'] + multiset(s)['o'] + multiset(s)['u']
  {
    if s == [] then 0
    else
      assert s == [s[0]] + s[1..];
      (if IsVowel(s[0]) then 1 else 0) + VowelCount(s[1..])
  }

  /** `tuple_windows().any(|(c1, c2)| c1 == c2)`: scans the pairs of neighbours from the left. */
  function HasDoubleLetter(s: string): (b: bool)
    ensures b <==> exists i :: 0 <= i < |s| - 1 && s[i] == s[i + 1]
  {
    if |s| < 2 then false
    else if s[0] == s[1] then true
    else
      var b := HasDoubleLetter(s[1..]);
      assert forall i :: 1 <= i < |s| - 1 ==> s[1..][i - 1] == s[i] && s[1..][i] == s[i + 1];
      b
  }

  /** `contains` for a two-character pattern. */
  function ContainsPair(s: string, first: char, second: char): (b: bool)
    ensures b <==> exists i :: 0 <= i < |s| - 1 && s[i] == first && s[i + 1] == second
  {
    if |s| < 2 then false
    else if s[0] == first && s[1] == second then true
    else
      var b := ContainsPair(s[1..], first, second);
      assert forall i :: 1 <= i < |s| - 1 ==> s[1..][i - 1] == s[i] && s[1..][i] == s[i + 1];
      b
  }

  /** The forbidden pairs: "ab", "cd", "pq" and "xy". */
  predicate IsNaughtyPair(c1: char, c2: char) {
    (c1, c2) in {('a', 'b'), ('c', 'd'), ('p', 'q'), ('x', 'y')}
  }

  /** `is_nice_string_1`: the three checks, each returning false early. */
  predicate IsNiceString1(s: string)
    ensures IsNiceString1(s) <==>
      && multiset(s)['a'] + multiset(s)['e'] + multiset(s)['i'] + multiset(s)['o'] + multiset(s)['u'] >= 3
      && (exists i :: 0 <= i < |s| - 1 && s[i] == s[i + 1])
      && (forall i :: 0 <= i < |s| - 1 ==> !IsNaughtyPair(s[i], s[i + 1]))
  {
    && VowelCount(s) >= 3
    && HasDoubleLetter(s)
    && !(ContainsPair(s, 'a', 'b') || ContainsPair(s, 'c', 'd') || ContainsPair(s, 'p', 'q') || ContainsPair(s, 'x', 'y'))
  }

  /** The pair of characters starting at index i. */
  function Pair(s: string, i: nat): (char, char)
    requires i + 1 < |s|
  {
    (s[i], s[i + 1])
  }

  /** Some pair occurs at two indices at least two apart: twice without overlapping. */
  ghost predicate HasRepeatedPair(s: string) {
    exists i, j :: 0 <= i && i + 1 < j && j + 1 < |s| && Pair(s, i) == Pair(s, j)
  }

  /** Such a repeat with its second occurrence starting before index k. */
  ghost predicate RepeatBefore(s: string, k: nat) {
    exists i, j :: 0 <= i && i + 1 < j < k && j + 1 < |s| && Pair(s, i) == Pair(s, j)
  }

  /** Some letter repeats with exactly one letter between. */
  ghost predicate HasSandwich(s: string) {
    exists i :: 0 <= i < |s| - 2 && s[i] == s[i + 2]
  }

  /** `tuple_windows().any(|(c1, _c2, c3)| c1 == c3)`. */
  function HasSandwichLetter(s: string): (b: bool)
    ensures b <==> HasSandwich(s)
  {
    if |s| < 3 then false
    else if s[0] == s[2] then true
    else
      HasSandwichLetter(s[1..])
  }

  /** A pair seen before, first at `pos`: index i completes a repeat exactly when it is more than one past `pos`. */
  lemma RepeatStepSeen(s: string, i: nat, pos: nat)
    requires pos < i && i + 1 < |s| && Pair(s, pos) == Pair(s, i)
    requires forall k :: 0 <= k < pos ==> Pair(s, k) != Pair(s, i)
    ensures RepeatBefore(s, i + 1) <==> RepeatBefore(s, i) || i > pos + 1
  {
    if RepeatBefore(s, i + 1) && !RepeatBefore(s, i) {
      var a, b :| 0 <= a && a + 1 < b < i + 1 && b + 1 < |s| && Pair(s, a) == Pair(s, b);
      assert b == i;
      assert pos <= a;
    }
  }

  /** A pair not seen before cannot complete a repeat at index i. */
  lemma RepeatStepNew(s: string, i: nat)
    requires i + 1 < |s|
    requires forall k :: 0 <= k < i ==> Pair(s, k) != Pair(s, i)
    ensures RepeatBefore(s, i + 1) == RepeatBefore(s, i)
  {
  }

  /** Once every pair has been scanned, the repeats found are all the repeats. */
  lemma RepeatBeforeEnd(s: string, i: nat)
    requires i + 1 >= |s|
    ensures RepeatBefore(s, i) <==> HasRepeatedPair(s)
  {
    if HasRepeatedPair(s) {
      var a, b :| 0 <= a && a + 1 < b && b + 1 < |s| && Pair(s, a) == Pair(s, b);
      assert b < i;
    }
  }

  /**
    The pair map after the pairs before index i: it holds exactly those pairs,
    each under the index where it first occurs.
   */
  ghost predicate FirstIndices(s: string, pairsMap: map<(char, char), nat>, i: nat) {
    && (forall p :: p in pairsMap ==> pairsMap[p] < i && pairsMap[p] + 1 < |s| && Pair(s, pairsMap[p]) == p)
    && (forall p :: p in pairsMap ==> forall k :: 0 <= k < pairsMap[p] ==> Pair(s, k) != p)
    && (forall k :: 0 <= k < i && k + 1 < |s| ==> Pair(s, k) in pairsMap)
  }

  /** A pair met for the first time is recorded under its index. */
  lemma FirstIndicesInsert(s: string, pairsMap: map<(char, char), nat>, i: nat)
    requires i + 1 < |s| && FirstIndices(s, pairsMap, i) && Pair(s, i) !in pairsMap
    ensures forall k :: 0 <= k < i ==> Pair(s, k) != Pair(s, i)
    ensures FirstIndices(s, pairsMap[Pair(s, i) := i], i + 1)
  {
  }

  /** A pair met again leaves the map as it is. */
  lemma FirstIndicesKeep(s: string, pairsMap: map<(char, char), nat>, i: nat)
    requires i + 1 < |s| && FirstIndices(s, pairsMap, i) && Pair(s, i) in pairsMap
    ensures pairsMap[Pair(s, i)] < i && Pair(s, pairsMap[Pair(s, i)]) == Pair(s, i)
    ensures forall k :: 0 <= k < pairsMap[Pair(s, i)] ==> Pair(s, k) != Pair(s, i)
    ensures FirstIndices(s, pairsMap, i + 1)
  {
  }

  /**
    The first check of `is_nice_string_2`: walks the pairs left to right,
    remembering in `pairsMap` where each pair first appeared; a pair seen
    again more than one index later sets the flag. The early `return` skips
    the insertion, so the map keeps first indices.
   */
  method HasRepeatingPairs(s: string) returns (hasRepeatingPairs: bool)
    ensures hasRepeatingPairs <==> HasRepeatedPair(s)
  {
    hasRepeatingPairs := false;
    var pairsMap: map<(char, char), nat> := map[];
    var i := 0;
    while i + 1 < |s|
      invariant i <= |s|
      invariant FirstIndices(s, pairsMap, i)
      invariant hasRepeatingPairs <==> RepeatBefore(s, i)
    {
      var pair := (s[i], s[i + 1]);
      assert pair == Pair(s, i);
      if pair in pairsMap {
        var pos := pairsMap[pair];
        FirstIndicesKeep(s, pairsMap, i);
        RepeatStepSeen(s, i, pos);
        if i > pos + 1 {
          hasRepeatingPairs := true;
        }
      } else {
        FirstIndicesInsert(s, pairsMap, i);
        RepeatStepNew(s, i);
        pairsMap := pairsMap[pair := i];
      }
      i := i + 1;
    }
    RepeatBeforeEnd(s, i);
  }

  /** `is_nice_string_2`: a non-overlapping repeated pair, then a letter repeated around another. */
  method IsNiceString2(s: string) returns (nice: bool)
    ensures nice <==> HasRepeatedPair(s) && HasSandwich(s)
    ensures |s| < 4 ==> !nice
  {
    var hasRepeatingPairs := HasRepeatingPairs(s);
    if !hasRepeatingPairs {
      return false;
    }
    var hasRepeatedLetter := HasSandwichLetter(s);
    if !hasRepeatedLetter {
      return false;
    }
    return true;
  }
}
