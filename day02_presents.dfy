/**
  Day 2: the elves order wrapping paper and ribbon for presents that are
  rectangular boxes given as `LxWxH`. Paper covers the surface plus the area
  of the smallest side; ribbon goes around the smallest perimeter plus a bow
  as long as the volume.
 */
module Presents {
  import opened Wrappers
  import opened Decimal

  datatype Present = Present(length: nat, width: nat, height: nat)

  /** The error `parse_input` reports for a field that is not a number (`io::ErrorKind::InvalidData`). */
  datatype ParseError = InvalidData

  function Min3(a: nat, b: nat, c: nat): (m: nat)
    ensures m <= a && m <= b && m <= c && (m == a || m == b || m == c)
  {
    if a <= b && a <= c then a else if b <= c then b else c
  }

  function Max3(a: nat, b: nat, c: nat): (m: nat)
    ensures m >= a && m >= b && m >= c && (m == a || m == b || m == c)
  {
    if a >= b && a >= c then a else if b >= c then b else c
  }

  /** The areas of the three distinct sides: length by width, length by height, width by height. */
  function Sides(p: Present): (nat, nat, nat) {
    (p.length * p.width, p.length * p.height, p.width * p.height)
  }

  /** Paper for one present: the whole surface plus the area of its smallest side. */
  function Wrapping(p: Present): nat {
    var (lw, lh, wh) := Sides(p);
    2 * lw + 2 * lh + 2 * wh + Min3(lw, lh, wh)
  }

  function Volume(p: Present): nat {
    p.length * p.width * p.height
  }

  /** Ribbon for one present: twice the two smallest dimensions (all three less the largest), plus the volume. */
  function Ribbon(p: Present): nat {
    2 * (p.length + p.width + p.height - Max3(p.length, p.width, p.height)) + Volume(p)
  }

  /** `calculate_wrapping_amount`: keeps the smallest side area in a running minimum. */
  method CalculateWrappingAmount(p: Present) returns (amount: nat)
    ensures amount == Wrapping(p)
  {
    var lengthByWidth := p.length * p.width;
    var minArea := lengthByWidth;
    var lengthByHeight := p.length * p.height;
    if lengthByHeight < minArea {
      minArea := lengthByHeight;
    }
    var widthByHeight := p.width * p.height;
    if widthByHeight < minArea {
      minArea := widthByHeight;
    }
    amount := 2 * lengthByWidth + 2 * lengthByHeight + 2 * widthByHeight + minArea;
    assert minArea == Min3(lengthByWidth, lengthByHeight, widthByHeight);
    WrappingOfSides(p, lengthByWidth, lengthByHeight, widthByHeight);
  }

  lemma WrappingOfSides(p: Present, lw: nat, lh: nat, wh: nat)
    requires lw == p.length * p.width && lh == p.length * p.height && wh == p.width * p.height
    ensures Wrapping(p) == 2 * lw + 2 * lh + 2 * wh + Min3(lw, lh, wh)
  {
    assert Sides(p) == (lw, lh, wh);
  }

  /** The slice `sort` applied to the three dimensions: ascending, and the same values. */
  method SortDimensions(a: array<nat>)
    requires a.Length == 3
    modifies a
    ensures a[0] <= a[1] <= a[2]
    ensures multiset(a[..]) == multiset(old(a[..]))
  {
    CompareExchange(a, 0, 1);
    CompareExchange(a, 1, 2);
    CompareExchange(a, 0, 1);
  }

  /** One compare-exchange step: afterwards a[i] <= a[j], and nothing else moved. */
  method CompareExchange(a: array<nat>, i: nat, j: nat)
    requires i < j < a.Length
    modifies a
    ensures a[i] <= a[j]
    ensures (a[i], a[j]) == (old(a[i]), old(a[j])) || (a[i], a[j]) == (old(a[j]), old(a[i]))
    ensures forall k :: 0 <= k < a.Length && k != i && k != j ==> a[k] == old(a[k])
    ensures multiset(a[..]) == multiset(old(a[..]))
  {
    if a[i] > a[j] {
      a[i], a[j] := a[j], a[i];
    }
  }

  function SeqSum(s: seq<nat>): nat {
    if s == [] then 0 else s[0] + SeqSum(s[1..])
  }

  lemma {:induction false} SeqSumRemove(s: seq<nat>, k: nat)
    requires k < |s|
    ensures SeqSum(s) == s[k] + SeqSum(s[..k] + s[k + 1..])
  {
    if k > 0 {
      SeqSumRemove(s[1..], k - 1);
      assert s[1..][..k - 1] + s[1..][k..] == (s[..k] + s[k + 1..])[1..];
    } else {
      assert s[..k] + s[k + 1..] == s[1..];
    }
  }

  lemma MultisetWithout(t: seq<nat>, k: nat)
    requires k < |t|
    ensures multiset(t) == multiset(t[..k] + t[k + 1..]) + multiset{t[k]}
  {
    assert t == t[..k] + [t[k]] + t[k + 1..];
  }

  lemma MultisetCancel(a: multiset<nat>, b: multiset<nat>, x: nat)
    requires a + multiset{x} == b + multiset{x}
    ensures a == b
  {
    forall y ensures a[y] == b[y] {
      assert (a + multiset{x})[y] == (b + multiset{x})[y];
    }
  }

  /** Reordering values does not change their sum. */
  lemma {:induction false} PermutationPreservesSum(s: seq<nat>, t: seq<nat>)
    requires multiset(s) == multiset(t)
    ensures SeqSum(s) == SeqSum(t)
  {
    if s != [] {
      assert s[0] in multiset(t);
      var k :| 0 <= k < |t| && t[k] == s[0];
      var rest := t[..k] + t[k + 1..];
      MultisetWithout(s, 0);
      MultisetWithout(t, k);
      assert s[..0] + s[1..] == s[1..];
      MultisetCancel(multiset(s[1..]), multiset(rest), s[0]);
      PermutationPreservesSum(s[1..], rest);
      SeqSumRemove(t, k);
    } else {
      assert |t| == |multiset(t)| == 0;
    }
  }

  /** `calculate_ribbon_amount`: sorts the dimensions and takes the two smallest. */
  method CalculateRibbonAmount(p: Present) returns (amount: nat)
    ensures amount == Ribbon(p)
  {
    var dimensions := new nat[3];
    dimensions[0], dimensions[1], dimensions[2] := p.length, p.width, p.height;
    ghost var original := dimensions[..];
    SortDimensions(dimensions);
    var perimeter := dimensions[0] * 2 + dimensions[1] * 2;
    var volume := p.length * p.width * p.height;
    amount := perimeter + volume;
    TwoSmallest(dimensions[..], original);
  }

  lemma SumOfThree(s: seq<nat>)
    requires |s| == 3
    ensures SeqSum(s) == s[0] + s[1] + s[2]
  {
    assert SeqSum(s[2..]) == s[2] by { assert s[2..][1..] == []; }
    assert s[1..][1..] == s[2..];
  }

  /** Sorted, the first two of three dimensions are all three less the largest. */
  lemma TwoSmallest(sorted: seq<nat>, original: seq<nat>)
    requires |sorted| == |original| == 3
    requires sorted[0] <= sorted[1] <= sorted[2]
    requires multiset(sorted) == multiset(original)
    ensures sorted[0] + sorted[1] == original[0] + original[1] + original[2] - Max3(original[0], original[1], original[2])
  {
    PermutationPreservesSum(sorted, original);
    SumOfThree(sorted);
    SumOfThree(original);
    assert sorted[2] in multiset(original);
    assert original[0] in multiset(sorted) && original[1] in multiset(sorted) && original[2] in multiset(sorted);
  }

  /** The six orders in which the three dimensions can be listed. */
  datatype Order = LWH | LHW | WLH | WHL | HLW | HWL

  function Reorder(p: Present, o: Order): Present {
    match o
    case LWH => p
    case LHW => Present(p.length, p.height, p.width)
    case WLH => Present(p.width, p.length, p.height)
    case WHL => Present(p.width, p.height, p.length)
    case HLW => Present(p.height, p.length, p.width)
    case HWL => Present(p.height, p.width, p.length)
  }

  /** `x` lists the same three values as `y`, in some order. */
  predicate IsRearrangement(x: (nat, nat, nat), y: (nat, nat, nat)) {
    || x == y
    || x == (y.0, y.2, y.1)
    || x == (y.1, y.0, y.2)
    || x == (y.1, y.2, y.0)
    || x == (y.2, y.0, y.1)
    || x == (y.2, y.1, y.0)
  }

  /** Turning a box only permutes its side areas and keeps its volume. */
  lemma SidesOfReorder(p: Present, o: Order)
    ensures IsRearrangement(Sides(Reorder(p, o)), Sides(p))
    ensures Volume(Reorder(p, o)) == Volume(p)
  {
    var l, w, h := p.length, p.width, p.height;
    assert w * l == l * w && h * l == l * h && h * w == w * h;
    assert l * w * h == w * l * h == w * h * l == h * w * l == h * l * w == l * h * w;
  }

  /** Neither amount depends on which side is called the length, the width or the height. */
  lemma AmountsIgnoreOrientation(p: Present, o: Order)
    ensures Wrapping(Reorder(p, o)) == Wrapping(p)
    ensures Ribbon(Reorder(p, o)) == Ribbon(p)
  {
    SidesOfReorder(p, o);
  }

  /** Rust's `str::split` on one character: the pieces between the separators, empty ones included. */
  function Split(s: string, sep: char): (fields: seq<string>)
    ensures |fields| >= 1
  {
    if s == [] then [[]]
    else
      var rest := Split(s[1..], sep);
      if s[0] == sep then [[]] + rest else [[s[0]] + rest[0]] + rest[1..]
  }

  /** The separators are exactly what splitting removes: no field contains one. */
  lemma {:induction false} SplitFieldsLackSeparator(s: string, sep: char)
    ensures forall i :: 0 <= i < |Split(s, sep)| ==> sep !in Split(s, sep)[i]
  {
    if s != [] {
      SplitFieldsLackSeparator(s[1..], sep);
    }
  }

  function Join(fields: seq<string>, sep: char): string
    requires |fields| >= 1
  {
    if |fields| == 1 then fields[0] else fields[0] + [sep] + Join(fields[1..], sep)
  }

  /** Splitting loses nothing: joining the pieces again gives back the line. */
  lemma {:induction false} JoinSplit(s: string, sep: char)
    ensures Join(Split(s, sep), sep) == s
  {
    if s != [] {
      var rest := Split(s[1..], sep);
      JoinSplit(s[1..], sep);
      if s[0] != sep {
        var fields := Split(s, sep);
        assert fields[1..] == rest[1..];
        if |rest| > 1 {
          assert Join(rest, sep) == rest[0] + [sep] + Join(rest[1..], sep);
        }
      }
    }
  }

  lemma {:induction false} SplitAfterPiece(a: string, b: string, sep: char)
    requires sep !in a
    ensures Split(a + [sep] + b, sep) == [a] + Split(b, sep)
  {
    if a != [] {
      assert (a + [sep] + b)[1..] == a[1..] + [sep] + b;
      SplitAfterPiece(a[1..], b, sep);
      assert [a[0]] + a[1..] == a;
    }
  }

  lemma {:induction false} SplitWithoutSeparator(a: string, sep: char)
    requires sep !in a
    ensures Split(a, sep) == [a]
  {
    if a != [] {
      SplitWithoutSeparator(a[1..], sep);
      assert [a[0]] + a[1..] == a;
    }
  }

  /** And joining pieces that hold no separator splits back into the same pieces. */
  lemma {:induction false} SplitJoin(fields: seq<string>, sep: char)
    requires |fields| >= 1
    requires forall i :: 0 <= i < |fields| ==> sep !in fields[i]
    ensures Split(Join(fields, sep), sep) == fields
  {
    if |fields| == 1 {
      SplitWithoutSeparator(fields[0], sep);
    } else {
      SplitJoin(fields[1..], sep);
      SplitAfterPiece(fields[0], Join(fields[1..], sep), sep);
    }
  }

  /**
    The solver reads fields 0, 1 and 2 of the line in that order and stops at
    the first one that is not a number, so it indexes a missing field, and
    panics, only when every field before it is a number. This holds for the
    lines on which it does not panic.
   */
  predicate IndexesPresentFields(line: string) {
    var dimensions := Split(line, 'x');
    || |dimensions| >= 3
    || ParseUsize(dimensions[0]).None?
    || (|dimensions| == 2 && ParseUsize(dimensions[1]).None?)
  }

  /**
    One line of `parse_input`: split on 'x', read fields 0, 1 and 2 as
    length, width and height, and give up with `InvalidData` at the first
    field that is not a number; later fields are ignored.
   */
  function ParsePresent(line: string): (r: Result<Present, ParseError>)
    requires IndexesPresentFields(line)
    ensures var dimensions := Split(line, 'x');
      r.Ok? <==> Field(dimensions, 0).Some? && Field(dimensions, 1).Some? && Field(dimensions, 2).Some?
    ensures var dimensions := Split(line, 'x');
      r.Ok? ==> r.value == Present(Field(dimensions, 0).value, Field(dimensions, 1).value, Field(dimensions, 2).value)
  {
    var dimensions := Split(line, 'x');
    var length := ParseUsize(dimensions[0]);
    if length.None? then Err(InvalidData)
    else
      var width := ParseUsize(dimensions[1]);
      if width.None? then Err(InvalidData)
      else
        var height := ParseUsize(dimensions[2]);
        if height.None? then Err(InvalidData)
        else Ok(Present(length.value, width.value, height.value))
  }

  /** Field `k` of the line read as a `usize`, `None` when it is missing or not a number. */
  function Field(dimensions: seq<string>, k: nat): Option<nat> {
    if k < |dimensions| then ParseUsize(dimensions[k]) else None
  }

  /**
    A field among the first three that is present but not a number makes the
    line `InvalidData` and never a panic: a blank line, "abc", "4x" or "4xq".
   */
  lemma BadFieldRejected(line: string, k: nat)
    requires k < 3 && k < |Split(line, 'x')| && ParseUsize(Split(line, 'x')[k]).None?
    ensures IndexesPresentFields(line) && ParsePresent(line) == Err(InvalidData)
  {
    var dimensions := Split(line, 'x');
    if k == 0 {
      assert Field(dimensions, 0).None?;
    } else if k == 1 {
      assert Field(dimensions, 1).None?;
    } else {
      assert Field(dimensions, 2).None?;
    }
  }

  /** The lines the solver panics on are exactly those with fewer than three fields, all of them numbers. */
  lemma PanicsOnlyOnShortNumericLines(line: string)
    ensures var dimensions := Split(line, 'x');
      !IndexesPresentFields(line) <==>
        |dimensions| < 3 && forall k :: 0 <= k < |dimensions| ==> ParseUsize(dimensions[k]).Some?
  {
  }

  /** A blank line is `InvalidData`. */
  lemma BlankLineRejected()
    ensures IndexesPresentFields("") && ParsePresent("") == Err(InvalidData)
  {
    assert Split("", 'x')[0] == "";
    BadFieldRejected("", 0);
  }

  function FormatPresent(p: Present): string {
    Join([NatToDigits(p.length), NatToDigits(p.width), NatToDigits(p.height)], 'x')
  }

  /** Every present whose dimensions fit a `usize` reads back from its `LxWxH` line. */
  lemma ParseFormatPresent(p: Present)
    requires p.length <= USIZE_MAX && p.width <= USIZE_MAX && p.height <= USIZE_MAX
    ensures IndexesPresentFields(FormatPresent(p))
    ensures ParsePresent(FormatPresent(p)) == Ok(p)
  {
    var fields := [NatToDigits(p.length), NatToDigits(p.width), NatToDigits(p.height)];
    assert forall i :: 0 <= i < 3 ==> 'x' !in fields[i];
    SplitJoin(fields, 'x');
    UsizeRoundTrip(p.length);
    UsizeRoundTrip(p.width);
    UsizeRoundTrip(p.height);
  }

  /** The outcome of `ParsePresent` on each line, in order. */
  function ParseLines(lines: seq<string>): (results: seq<Result<Present, ParseError>>)
    requires forall i :: 0 <= i < |lines| ==> IndexesPresentFields(lines[i])
    ensures |results| == |lines|
  {
    seq(|lines|, i requires 0 <= i < |lines| => ParsePresent(lines[i]))
  }

  /** The presents of the lines in order, or `InvalidData` when some line is not a present. */
  function CollectPresents(results: seq<Result<Present, ParseError>>): Result<seq<Present>, ParseError>
    decreases |results|
  {
    if |results| == 0 then Ok([])
    else
      var presents := CollectPresents(results[..|results| - 1]);
      var present := results[|results| - 1];
      if presents.Err? || present.Err? then Err(InvalidData)
      else Ok(presents.value + [present.value])
  }

  /** The input is accepted exactly when every line is a present, and then the list holds each line's present in order. */
  lemma {:induction false} CollectPresentsOk(results: seq<Result<Present, ParseError>>)
    ensures CollectPresents(results).Ok? <==> forall i :: 0 <= i < |results| ==> results[i].Ok?
    ensures CollectPresents(results).Ok? ==>
      |CollectPresents(results).value| == |results| &&
      forall i :: 0 <= i < |results| ==> CollectPresents(results).value[i] == results[i].value
    decreases |results|
  {
    if |results| > 0 {
      var init := results[..|results| - 1];
      CollectPresentsOk(init);
      assert forall i :: 0 <= i < |init| ==> init[i] == results[i];
    }
  }

  /** One bad line makes the whole input `InvalidData`. */
  lemma CollectPresentsErr(results: seq<Result<Present, ParseError>>, i: nat)
    requires i < |results| && results[i].Err?
    ensures CollectPresents(results) == Err(InvalidData)
  {
    CollectPresentsOk(results);
  }

  /** One more line: a present extends the list so far, a bad line makes the whole input `InvalidData`. */
  lemma CollectPresentsStep(results: seq<Result<Present, ParseError>>, i: nat, presents: seq<Present>)
    requires i < |results| && CollectPresents(results[..i]) == Ok(presents)
    ensures results[i].Ok? ==> CollectPresents(results[..i + 1]) == Ok(presents + [results[i].value])
    ensures results[i].Err? ==> CollectPresents(results) == Err(InvalidData)
  {
    assert results[..i + 1][..i] == results[..i];
    if results[i].Err? {
      CollectPresentsErr(results, i);
    }
  }

  /**
    The solver never panics on these lines: it can index the fields of the
    first line, and of each later line as long as every line before it was
    a present. Lines after the first bad one are never read.
   */
  predicate IndexesFieldsUntilError(lines: seq<string>) {
    || lines == []
    || (&& IndexesPresentFields(lines[0])
        && (ParsePresent(lines[0]).Ok? ==> IndexesFieldsUntilError(lines[1..])))
  }

  /** A line the solver reads without panicking and accepts. */
  predicate IsPresentLine(line: string) {
    IndexesPresentFields(line) && ParsePresent(line).Ok?
  }

  /** The same condition stated line by line: every line reached after only presents can be indexed. */
  lemma {:induction false} IndexesFieldsUntilErrorIff(lines: seq<string>)
    ensures IndexesFieldsUntilError(lines) <==>
      forall i :: 0 <= i < |lines| && (forall j :: 0 <= j < i ==> IsPresentLine(lines[j])) ==> IndexesPresentFields(lines[i])
    decreases |lines|
  {
    if lines != [] {
      var rest := lines[1..];
      IndexesFieldsUntilErrorIff(rest);
      assert forall i :: 0 <= i < |rest| ==> rest[i] == lines[i + 1];
      if forall i :: 0 <= i < |lines| && (forall j :: 0 <= j < i ==> IsPresentLine(lines[j])) ==> IndexesPresentFields(lines[i]) {
        assert IndexesPresentFields(lines[0]);
        if ParsePresent(lines[0]).Ok? {
          forall i | 0 <= i < |rest| && (forall j :: 0 <= j < i ==> IsPresentLine(rest[j]))
            ensures IndexesPresentFields(rest[i])
          {
            assert forall j :: 0 <= j < i + 1 ==> IsPresentLine(lines[j]) by {
              forall j | 0 <= j < i + 1 ensures IsPresentLine(lines[j]) {
                if j > 0 {
                  assert IsPresentLine(rest[j - 1]);
                }
              }
            }
          }
        }
      }
      if IndexesFieldsUntilError(lines) {
        forall i | 0 <= i < |lines| && (forall j :: 0 <= j < i ==> IsPresentLine(lines[j]))
          ensures IndexesPresentFields(lines[i])
        {
          if i > 0 {
            assert IsPresentLine(lines[0]);
            assert forall j :: 0 <= j < i - 1 ==> IsPresentLine(rest[j]) by {
              forall j | 0 <= j < i - 1 ensures IsPresentLine(rest[j]) {
                assert IsPresentLine(lines[j + 1]);
              }
            }
          }
        }
      }
    }
  }

  /** `parse_input`'s loop as a fold over the lines: the presents in order, or `InvalidData` at the first bad line. */
  function ParseAll(lines: seq<string>): Result<seq<Present>, ParseError>
    requires IndexesFieldsUntilError(lines)
    decreases |lines|
  {
    if lines == [] then Ok([])
    else
      var first := ParsePresent(lines[0]);
      if first.Err? then Err(InvalidData)
      else Prepend([first.value], ParseAll(lines[1..]))
  }

  /** The presents `before` followed by those of `rest`, or the error of `rest`. */
  function Prepend(before: seq<Present>, rest: Result<seq<Present>, ParseError>): Result<seq<Present>, ParseError> {
    if rest.Err? then rest else Ok(before + rest.value)
  }

  /** The parse is accepted exactly when every line is a present. */
  lemma {:induction false} ParseAllAccepts(lines: seq<string>)
    requires IndexesFieldsUntilError(lines)
    ensures ParseAll(lines).Ok? <==> forall i :: 0 <= i < |lines| ==> IsPresentLine(lines[i])
    decreases |lines|
  {
    if lines != [] && ParsePresent(lines[0]).Ok? {
      var rest := lines[1..];
      ParseAllAccepts(rest);
      if forall i :: 0 <= i < |rest| ==> IsPresentLine(rest[i]) {
        forall i | 0 <= i < |lines| ensures IsPresentLine(lines[i]) {
          if i > 0 {
            assert lines[i] == rest[i - 1];
          }
        }
      } else {
        var i :| 0 <= i < |rest| && !IsPresentLine(rest[i]);
        assert lines[i + 1] == rest[i];
      }
    }
  }

  /** An accepted parse holds each line's present in order. */
  lemma {:induction false} ParseAllValues(lines: seq<string>)
    requires IndexesFieldsUntilError(lines) && ParseAll(lines).Ok?
    ensures |ParseAll(lines).value| == |lines|
    ensures forall i :: 0 <= i < |lines| ==> IsPresentLine(lines[i]) && ParseAll(lines).value[i] == ParsePresent(lines[i]).value
    decreases |lines|
  {
    if lines != [] {
      var rest := lines[1..];
      ParseAllValues(rest);
      var parsed := ParseAll(lines).value;
      assert parsed == [ParsePresent(lines[0]).value] + ParseAll(rest).value;
      forall i | 0 < i < |lines|
        ensures IsPresentLine(lines[i]) && parsed[i] == ParsePresent(lines[i]).value
      {
        assert lines[i] == rest[i - 1];
      }
    }
  }

  /** A rejected parse is always `InvalidData`. */
  lemma {:induction false} ParseAllRejects(lines: seq<string>)
    requires IndexesFieldsUntilError(lines) && ParseAll(lines).Err?
    ensures ParseAll(lines) == Err(InvalidData)
    decreases |lines|
  {
    if ParsePresent(lines[0]).Ok? {
      ParseAllRejects(lines[1..]);
    }
  }

  /** Collecting a first outcome ahead of the rest: a bad first line is `InvalidData`, a present is put in front. */
  lemma {:induction false} CollectPresentsCons(first: Result<Present, ParseError>, results: seq<Result<Present, ParseError>>)
    ensures CollectPresents([first] + results) ==
      if first.Err? then Err(InvalidData) else Prepend([first.value], CollectPresents(results))
    decreases |results|
  {
    var all := [first] + results;
    if results == [] {
      assert all[..0] == [];
      assert CollectPresents(all[..0]) == Ok([]);
      if first.Ok? {
        assert [] + [first.value] == [first.value] + [];
      }
    } else {
      var init := results[..|results| - 1];
      assert all[..|all| - 1] == [first] + init;
      assert all[|all| - 1] == results[|results| - 1];
      CollectPresentsCons(first, init);
      if first.Ok? && CollectPresents(results).Ok? {
        assert [first.value] + CollectPresents(init).value + [results[|results| - 1].value]
            == [first.value] + (CollectPresents(init).value + [results[|results| - 1].value]);
      }
    }
  }

  /** Where the solver can index every line, stopping at the first bad line gives the same result as reading them all. */
  lemma {:induction false} ParseAllCollects(lines: seq<string>)
    requires forall i :: 0 <= i < |lines| ==> IndexesPresentFields(lines[i])
    ensures IndexesFieldsUntilError(lines)
    ensures ParseAll(lines) == CollectPresents(ParseLines(lines))
    decreases |lines|
  {
    if lines != [] {
      var rest := lines[1..];
      assert forall i :: 0 <= i < |rest| ==> rest[i] == lines[i + 1];
      ParseAllCollects(rest);
      assert ParseLines(lines) == [ParsePresent(lines[0])] + ParseLines(rest);
      CollectPresentsCons(ParsePresent(lines[0]), ParseLines(rest));
    }
  }

  /** A bad line ends the parse, whatever follows it: the lines after it are never read, so they cannot panic. */
  lemma BadLineEndsParse(line: string, k: nat, rest: seq<string>)
    requires k < 3 && k < |Split(line, 'x')| && ParseUsize(Split(line, 'x')[k]).None?
    ensures IndexesFieldsUntilError([line] + rest)
    ensures ParseAll([line] + rest) == Err(InvalidData)
  {
    BadFieldRejected(line, k);
    assert ([line] + rest)[0] == line;
  }

  /** "abc" followed by "5": the second line alone would panic, but the parse stops at the first. */
  lemma LineAfterBadLineUnread()
    ensures !IndexesPresentFields("5")
    ensures IndexesFieldsUntilError(["abc", "5"]) && ParseAll(["abc", "5"]) == Err(InvalidData)
  {
    assert "5"[0] == '5' && "5"[1..] == "" && Split("", 'x') == [""];
    assert ['5'] + "" == "5";
    assert Split("5", 'x') == ["5"];
    assert Split("abc", 'x')[0] == "abc";
    assert ["abc", "5"] == ["abc"] + ["5"];
    BadLineEndsParse("abc", 0, ["5"]);
  }

  /** Two prepends in a row are one prepend of both lists. */
  lemma PrependTwice(a: seq<Present>, b: seq<Present>, rest: Result<seq<Present>, ParseError>)
    ensures Prepend(a, Prepend(b, rest)) == Prepend(a + b, rest)
  {
    if rest.Ok? {
      assert a + (b + rest.value) == (a + b) + rest.value;
    }
  }

  /** `parse_input` after the lines are read: the first bad line ends the parse and the lines after it are not read. */
  method ParseInput(lines: seq<string>) returns (r: Result<seq<Present>, ParseError>)
    requires IndexesFieldsUntilError(lines)
    ensures r == ParseAll(lines)
  {
    var presents := [];
    assert lines[0..] == lines;
    assert ParseAll(lines).Ok? ==> [] + ParseAll(lines).value == ParseAll(lines).value;
    for i := 0 to |lines|
      invariant IndexesFieldsUntilError(lines[i..])
      invariant ParseAll(lines) == Prepend(presents, ParseAll(lines[i..]))
    {
      assert lines[i..][0] == lines[i] && lines[i..][1..] == lines[i + 1..];
      var parsed := ParsePresent(lines[i]);
      if parsed.Err? {
        return Err(InvalidData);
      }
      assert ParseAll(lines[i..]) == Prepend([parsed.value], ParseAll(lines[i + 1..]));
      PrependTwice(presents, [parsed.value], ParseAll(lines[i + 1..]));
      presents := presents + [parsed.value];
    }
    assert lines[|lines|..] == [];
    assert presents + [] == presents;
    return Ok(presents);
  }

  function TotalWrapping(presents: seq<Present>): nat {
    if presents == [] then 0 else Wrapping(presents[0]) + TotalWrapping(presents[1..])
  }

  function TotalRibbon(presents: seq<Present>): nat {
    if presents == [] then 0 else Ribbon(presents[0]) + TotalRibbon(presents[1..])
  }

  /** No present's own paper or ribbon exceeds the total for the list. */
  lemma {:induction false} TotalsBound(presents: seq<Present>)
    ensures forall i :: 0 <= i < |presents| ==> Wrapping(presents[i]) <= TotalWrapping(presents)
    ensures forall i :: 0 <= i < |presents| ==> Ribbon(presents[i]) <= TotalRibbon(presents)
  {
    if presents != [] {
      TotalsBound(presents[1..]);
    }
  }

  /** The totals add up list by list: each present contributes its own amount once. */
  lemma {:induction false} TotalsAdd(a: seq<Present>, b: seq<Present>)
    ensures TotalWrapping(a + b) == TotalWrapping(a) + TotalWrapping(b)
    ensures TotalRibbon(a + b) == TotalRibbon(a) + TotalRibbon(b)
  {
    if a != [] {
      TotalsAdd(a[1..], b);
      assert (a + b)[1..] == a[1..] + b;
    } else {
      assert a + b == b;
    }
  }
}
