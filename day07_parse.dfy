/**
  Day 7 input: one gate per line, written `<gate> -> <target>`. A line is
  split into tokens at ASCII whitespace and matched against the six token
  shapes of the puzzle; every line must match one, and a later line for the
  same target replaces an earlier one.
 */
module CircuitParse {
  import opened Wrappers
  import opened Decimal
  import opened Circuit

  datatype ParseError = InvalidInput

  /** `char::is_ascii_whitespace`: space, tab, line feed, form feed and carriage return. */
  predicate IsAsciiWhitespace(c: char) {
    c == ' ' || c == '\t' || c == '\n' || c == '\U{000C}' || c == '\r'
  }

  /** A non-empty run of characters none of which is ASCII whitespace. */
  predicate IsToken(s: string) {
    |s| > 0 && forall i :: 0 <= i < |s| ==> !IsAsciiWhitespace(s[i])
  }

  /** The length of the run of non-whitespace characters that starts `s`. */
  function TokenLength(s: string): (n: nat)
    ensures n <= |s|
    ensures forall i :: 0 <= i < n ==> !IsAsciiWhitespace(s[i])
    ensures n < |s| ==> IsAsciiWhitespace(s[n])
  {
    if |s| == 0 || IsAsciiWhitespace(s[0]) then 0 else 1 + TokenLength(s[1..])
  }

  /** `str::split_ascii_whitespace`: the maximal runs of non-whitespace characters, in order. */
  function SplitAsciiWhitespace(s: string): (tokens: seq<string>)
    ensures forall i :: 0 <= i < |tokens| ==> IsToken(tokens[i])
    decreases |s|
  {
    if |s| == 0 then []
    else if IsAsciiWhitespace(s[0]) then SplitAsciiWhitespace(s[1..])
    else
      var n := TokenLength(s);
      [s[..n]] + SplitAsciiWhitespace(s[n..])
  }

  /** Tokens separated by single spaces. */
  function JoinTokens(tokens: seq<string>): string {
    if |tokens| == 0 then ""
    else if |tokens| == 1 then tokens[0]
    else tokens[0] + " " + JoinTokens(tokens[1..])
  }

  lemma {:induction false} TokenLengthOfToken(t: string, rest: string)
    requires IsToken(t)
    requires |rest| == 0 || IsAsciiWhitespace(rest[0])
    ensures TokenLength(t + rest) == |t|
    decreases |t|
  {
    if |t| > 1 {
      assert (t + rest)[1..] == t[1..] + rest;
      TokenLengthOfToken(t[1..], rest);
    } else {
      assert (t + rest)[1..] == rest;
    }
  }

  /** Splitting tokens joined by single spaces gives the tokens back. */
  lemma {:induction false} SplitJoin(tokens: seq<string>)
    requires forall i :: 0 <= i < |tokens| ==> IsToken(tokens[i])
    ensures SplitAsciiWhitespace(JoinTokens(tokens)) == tokens
    decreases |tokens|
  {
    if |tokens| == 1 {
      var t := tokens[0];
      TokenLengthOfToken(t, "");
      assert t + "" == t;
      assert t[..|t|] == t && t[|t|..] == "";
    } else if |tokens| > 1 {
      var t, rest := tokens[0], JoinTokens(tokens[1..]);
      var s := t + " " + rest;
      assert s == t + (" " + rest);
      TokenLengthOfToken(t, " " + rest);
      assert s[..|t|] == t;
      assert s[|t|..] == " " + rest;
      assert (" " + rest)[1..] == rest;
      SplitJoin(tokens[1..]);
      assert tokens == [t] + tokens[1..];
    }
  }

  /** `Operand::from_str`, which never fails: a token that parses as an `isize` is a number, any other names a wire. */
  function ParseOperand(s: string): (o: Operand)
    ensures o.Number? <==> ParseIsize(s).Some?
    ensures o.Number? ==> forall b: Isize :: ToInt(b) == ParseIsize(s).value ==> o.n == b
    ensures o.Address? ==> o.wire == s
  {
    match ParseIsize(s)
    case Some(n) => FromIntUnique(n); Number(FromInt(n))
    case None => Address(s)
  }

  /** Every spelling of the integer a bit pattern stands for, such as "+5", "007" or "-0", reads as that pattern. */
  lemma NumberSpellings(s: string, b: Isize)
    requires ParseIsize(s) == Some(ToInt(b))
    ensures ParseOperand(s) == Number(b)
  {
  }

  /** The token for an operand: a number in decimal, a wire by its name. */
  function FormatOperand(o: Operand): string {
    match o
    case Number(n) => IntToDecimal(ToInt(n))
    case Address(w) => w
  }

  /** A wire name that `Operand::from_str` would take for a number cannot be read back as a wire. */
  predicate IsWireName(w: Wire) {
    ParseIsize(w).None?
  }

  predicate NamesAreWires(op: Operation) {
    forall o :: o in Operands(op) && o.Address? ==> IsWireName(o.wire)
  }

  /** Parsing the token of an operand gives the operand back. */
  lemma ParseFormatOperand(o: Operand)
    requires o.Address? ==> IsWireName(o.wire)
    ensures ParseOperand(FormatOperand(o)) == o
  {
    if o.Number? {
      BitsIntRoundTrip(o.n);
      IsizeRoundTrip(ToInt(o.n));
    }
  }

  /** Puzzle wire names, lower-case letters, never parse as numbers. */
  lemma LetterNamesAreWires(w: Wire)
    requires |w| > 0 && forall i :: 0 <= i < |w| ==> 'a' <= w[i] <= 'z'
    ensures IsWireName(w) && ParseOperand(w) == Address(w)
  {
  }

  /**
    The body of the `match` in `parse_input`: the six token shapes and the
    gate each one yields, for the token after `->` as target. Any other
    shape is `InvalidInput`.
   */
  function ParseTokens(tokens: seq<string>): (r: Result<(Wire, Operation), ParseError>)
    ensures r.Ok? ==> 3 <= |tokens| <= 5 && tokens[|tokens| - 2] == "->" && r.value.0 == tokens[|tokens| - 1]
    ensures r.Ok? ==> NamesAreWires(r.value.1)
    ensures |tokens| == 4 && tokens[0] != "NOT" ==> r.Err?
    ensures |tokens| == 5 && tokens[1] != "AND" && tokens[1] != "OR" && tokens[1] != "LSHIFT" && tokens[1] != "RSHIFT" ==> r.Err?
  {
    if |tokens| == 3 && tokens[1] == "->" then
      Ok((tokens[2], Assign(ParseOperand(tokens[0]))))
    else if |tokens| == 4 && tokens[0] == "NOT" && tokens[2] == "->" then
      Ok((tokens[3], Not(ParseOperand(tokens[1]))))
    else if |tokens| == 5 && tokens[3] == "->" then
      var a, b := ParseOperand(tokens[0]), ParseOperand(tokens[2]);
      if tokens[1] == "AND" then Ok((tokens[4], And(a, b)))
      else if tokens[1] == "OR" then Ok((tokens[4], Or(a, b)))
      else if tokens[1] == "LSHIFT" then Ok((tokens[4], LShift(a, b)))
      else if tokens[1] == "RSHIFT" then Ok((tokens[4], RShift(a, b)))
      else Err(InvalidInput)
    else
      Err(InvalidInput)
  }

  /** The tokens of a gate line in the puzzle's notation. */
  function FormatTokens(target: Wire, op: Operation): seq<string> {
    match op
    case Assign(a) => [FormatOperand(a), "->", target]
    case Not(a) => ["NOT", FormatOperand(a), "->", target]
    case And(a, b) => [FormatOperand(a), "AND", FormatOperand(b), "->", target]
    case Or(a, b) => [FormatOperand(a), "OR", FormatOperand(b), "->", target]
    case LShift(a, b) => [FormatOperand(a), "LSHIFT", FormatOperand(b), "->", target]
    case RShift(a, b) => [FormatOperand(a), "RSHIFT", FormatOperand(b), "->", target]
  }

  /** What each of the six token shapes parses to. */
  lemma TokenShapes(x: string, y: string, target: Wire)
    ensures ParseTokens([x, "->", target]) == Ok((target, Assign(ParseOperand(x))))
    ensures ParseTokens(["NOT", x, "->", target]) == Ok((target, Not(ParseOperand(x))))
    ensures ParseTokens([x, "AND", y, "->", target]) == Ok((target, And(ParseOperand(x), ParseOperand(y))))
    ensures ParseTokens([x, "OR", y, "->", target]) == Ok((target, Or(ParseOperand(x), ParseOperand(y))))
    ensures ParseTokens([x, "LSHIFT", y, "->", target]) == Ok((target, LShift(ParseOperand(x), ParseOperand(y))))
    ensures ParseTokens([x, "RSHIFT", y, "->", target]) == Ok((target, RShift(ParseOperand(x), ParseOperand(y))))
  {
    assert "OR" != "AND" && "LSHIFT" != "AND" && "RSHIFT" != "AND";
    assert "LSHIFT" != "OR" && "RSHIFT" != "OR";
    assert "RSHIFT"[0] != "LSHIFT"[0];
  }

  /** Every gate whose wire names read back as wires is recovered from its tokens. */
  lemma ParseFormatTokens(target: Wire, op: Operation)
    requires NamesAreWires(op)
    ensures ParseTokens(FormatTokens(target, op)) == Ok((target, op))
  {
    var y: string := "";
    assert Operands(op)[0] == op.a;
    ParseFormatOperand(op.a);
    if !IsUnary(op) {
      assert Operands(op)[1] == op.b;
      ParseFormatOperand(op.b);
      y := FormatOperand(op.b);
    }
    TokenShapes(FormatOperand(op.a), y, target);
  }

  /** Writing out what was parsed and parsing it again gives the same gate. */
  lemma ReparseTokens(tokens: seq<string>)
    requires ParseTokens(tokens).Ok?
    ensures var (target, op) := ParseTokens(tokens).value;
            ParseTokens(FormatTokens(target, op)) == ParseTokens(tokens)
  {
    var (target, op) := ParseTokens(tokens).value;
    ParseFormatTokens(target, op);
  }

  /** One line of the input: a gate line has three to five tokens and its target is a token. */
  function ParseLine(line: string): (r: Result<(Wire, Operation), ParseError>)
    ensures r.Ok? ==> 3 <= |SplitAsciiWhitespace(line)| <= 5 && IsToken(r.value.0)
  {
    ParseTokens(SplitAsciiWhitespace(line))
  }

  /** Whitespace around the tokens does not matter: indenting a line does not change what it parses to. */
  lemma LeadingWhitespaceIgnored(line: string, c: char)
    requires IsAsciiWhitespace(c)
    ensures ParseLine([c] + line) == ParseLine(line)
  {
    assert ([c] + line)[1..] == line;
  }

  function FormatLine(target: Wire, op: Operation): string {
    JoinTokens(FormatTokens(target, op))
  }

  lemma DecimalIsToken(n: int)
    ensures IsToken(IntToDecimal(n))
  {
    var s := IntToDecimal(n);
    if n < 0 {
      assert forall i :: 1 <= i < |s| ==> s[i] == NatToDigits(-n)[i - 1];
    }
  }

  /** Every token of a gate line written in the puzzle's notation is a token. */
  lemma FormatTokensAreTokens(target: Wire, op: Operation)
    requires IsToken(target)
    requires forall o :: o in Operands(op) && o.Address? ==> IsToken(o.wire)
    ensures forall i :: 0 <= i < |FormatTokens(target, op)| ==> IsToken(FormatTokens(target, op)[i])
  {
    forall o | o in Operands(op)
      ensures IsToken(FormatOperand(o))
    {
      if o.Number? {
        DecimalIsToken(ToInt(o.n));
      }
    }
  }

  /** A gate line written in the puzzle's notation reads back as that gate. */
  lemma ParseFormatLine(target: Wire, op: Operation)
    requires IsToken(target) && NamesAreWires(op)
    requires forall o :: o in Operands(op) && o.Address? ==> IsToken(o.wire)
    ensures ParseLine(FormatLine(target, op)) == Ok((target, op))
  {
    FormatTokensAreTokens(target, op);
    SplitJoin(FormatTokens(target, op));
    ParseFormatTokens(target, op);
  }

  /** The outcome of `ParseLine` on each line, in order. */
  function ParseLines(lines: seq<string>): (gates: seq<Result<(Wire, Operation), ParseError>>)
    ensures |gates| == |lines|
  {
    seq(|lines|, i requires 0 <= i < |lines| => ParseLine(lines[i]))
  }

  /** The circuit the parsed lines describe, gate after gate, or `InvalidInput` when some line is not a gate. */
  function BuildCircuit(gates: seq<Result<(Wire, Operation), ParseError>>): Result<Circuit, ParseError>
    decreases |gates|
  {
    if |gates| == 0 then Ok(map[])
    else
      var circuit := BuildCircuit(gates[..|gates| - 1]);
      var gate := gates[|gates| - 1];
      if circuit.Err? || gate.Err? then Err(InvalidInput)
      else Ok(circuit.value[gate.value.0 := gate.value.1])
  }

  /** The input is accepted exactly when every line is a gate. */
  lemma {:induction false} BuildCircuitOk(gates: seq<Result<(Wire, Operation), ParseError>>)
    ensures BuildCircuit(gates).Ok? <==> forall i :: 0 <= i < |gates| ==> gates[i].Ok?
    decreases |gates|
  {
    if |gates| > 0 {
      var init := gates[..|gates| - 1];
      BuildCircuitOk(init);
      assert forall i :: 0 <= i < |init| ==> init[i] == gates[i];
    }
  }

  /** The wires of the circuit are exactly the targets of its lines. */
  lemma {:induction false} BuildCircuitKeys(gates: seq<Result<(Wire, Operation), ParseError>>)
    requires BuildCircuit(gates).Ok?
    ensures forall i :: 0 <= i < |gates| ==> gates[i].Ok? && gates[i].value.0 in BuildCircuit(gates).value
    ensures forall w :: w in BuildCircuit(gates).value ==> exists i :: 0 <= i < |gates| && gates[i].Ok? && gates[i].value.0 == w
    decreases |gates|
  {
    BuildCircuitOk(gates);
    if |gates| > 0 {
      var init := gates[..|gates| - 1];
      assert forall i :: 0 <= i < |init| ==> init[i] == gates[i];
      BuildCircuitKeys(init);
    }
  }

  /** A later line for the same target replaces an earlier one: each wire carries the gate of its last line. */
  lemma {:induction false} BuildCircuitLastWins(gates: seq<Result<(Wire, Operation), ParseError>>, i: nat)
    requires BuildCircuit(gates).Ok? && i < |gates| && gates[i].Ok?
    requires forall j :: i < j < |gates| && gates[j].Ok? ==> gates[j].value.0 != gates[i].value.0
    ensures gates[i].value.0 in BuildCircuit(gates).value
    ensures BuildCircuit(gates).value[gates[i].value.0] == gates[i].value.1
    decreases |gates|
  {
    BuildCircuitKeys(gates);
    if i < |gates| - 1 {
      var init := gates[..|gates| - 1];
      assert forall k :: 0 <= k < |init| ==> init[k] == gates[k];
      BuildCircuitLastWins(init, i);
    }
  }

  /** One more line: a gate extends the circuit built so far, a bad line makes the whole input `InvalidInput`. */
  lemma BuildCircuitStep(gates: seq<Result<(Wire, Operation), ParseError>>, i: nat, circuit: Circuit)
    requires i < |gates| && BuildCircuit(gates[..i]) == Ok(circuit)
    ensures gates[i].Ok? ==> BuildCircuit(gates[..i + 1]) == Ok(circuit[gates[i].value.0 := gates[i].value.1])
    ensures gates[i].Err? ==> BuildCircuit(gates) == Err(InvalidInput)
  {
    assert gates[..i + 1][..i] == gates[..i];
    if gates[i].Err? {
      BuildCircuitOk(gates);
    }
  }

  /** `parse_input` after the lines are read: each line's gate is inserted under its target, and the first bad line ends the parse. */
  method ParseInput(lines: seq<string>) returns (r: Result<Circuit, ParseError>)
    ensures r == BuildCircuit(ParseLines(lines))
  {
    ghost var gates := ParseLines(lines);
    var circuit: Circuit := map[];
    for i := 0 to |lines|
      invariant BuildCircuit(gates[..i]) == Ok(circuit)
    {
      var gate := ParseLine(lines[i]);
      assert gate == gates[i];
      BuildCircuitStep(gates, i, circuit);
      if gate.Err? {
        return Err(InvalidInput);
      }
      circuit := circuit[gate.value.0 := gate.value.1];
    }
    assert gates[..|lines|] == gates;
    return Ok(circuit);
  }
}
