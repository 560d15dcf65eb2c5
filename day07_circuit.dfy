/**
  Day 7: a circuit of named wires, each driven by exactly one gate whose
  inputs are literal numbers or other wires. The solver resolves a wire
  recursively and remembers every value it computes in a lookup table, so
  that a wire feeding many gates is evaluated once.

  Signals are Rust `isize` values on a 64-bit target, kept here as their
  two's-complement bits (`bv64`). No 16-bit masking is applied, no cycle is
  detected and no undefined wire is reported: the solver panics or recurses
  forever in those cases, so the model states their absence as preconditions.
 */
module Circuit {
  import opened Decimal

  /** The bits of an `isize`. */
  type Isize = bv64

  type Wire = string

  datatype Operand = Address(wire: Wire) | Number(n: Isize)

  datatype Operation =
    | Assign(a: Operand)
    | Not(a: Operand)
    | And(a: Operand, b: Operand)
    | Or(a: Operand, b: Operand)
    | LShift(a: Operand, b: Operand)
    | RShift(a: Operand, b: Operand)

  /** The circuit as parsed: each wire to the one gate that drives it. */
  type Circuit = map<Wire, Operation>

  /** The bits of an integer in the `isize` range. */
  function FromInt(n: int): Isize
    requires ISIZE_MIN <= n <= ISIZE_MAX
  {
    if n >= 0 then n as bv64 else (n + 0x1_0000_0000_0000_0000) as bv64
  }

  /** The integer an `isize` bit pattern stands for. */
  function ToInt(b: Isize): int {
    if b as int < 0x8000_0000_0000_0000 then b as int else b as int - 0x1_0000_0000_0000_0000
  }

  /** Every bit pattern denotes an `isize` and is the two's-complement encoding of it. */
  lemma BitsIntRoundTrip(b: Isize)
    ensures ISIZE_MIN <= ToInt(b) <= ISIZE_MAX
    ensures FromInt(ToInt(b)) == b
  {
    ToIntRange(b);
    if b as int < 0x8000_0000_0000_0000 {
      NonNegativeRoundTrip(b);
    } else {
      NegativeRoundTrip(b);
    }
  }

  /** The bits of an integer are the only pattern that stands for it. */
  lemma FromIntUnique(n: int)
    requires ISIZE_MIN <= n <= ISIZE_MAX
    ensures forall b: Isize :: ToInt(b) == n ==> FromInt(n) == b
  {
    forall b: Isize | ToInt(b) == n
      ensures FromInt(n) == b
    {
      BitsIntRoundTrip(b);
    }
  }

  lemma ToIntRange(b: Isize)
    ensures ISIZE_MIN <= ToInt(b) <= ISIZE_MAX
  {
  }

  /** Patterns without the sign bit stand for themselves. */
  lemma NonNegativeRoundTrip(b: Isize)
    requires b as int < 0x8000_0000_0000_0000
    ensures FromInt(ToInt(b)) == b
  {
  }

  /** Patterns with the sign bit stand for their unsigned value less 2^64. */
  lemma NegativeRoundTrip(b: Isize)
    requires b as int >= 0x8000_0000_0000_0000
    ensures FromInt(ToInt(b)) == b
  {
  }

  const SIGN_BIT: Isize := 0x8000_0000_0000_0000

  /** Rust's `>>` on `isize`: the vacated high bits are copies of the sign bit, so the sign is kept. */
  function ShiftRightArithmetic(x: Isize, n: Isize): (r: Isize)
    requires n < 64
    ensures r & SIGN_BIT == x & SIGN_BIT
  {
    if x & 0x8000_0000_0000_0000 == 0 then x >> n else !((!x) >> n)
  }

  /**
    A shift by one halves, rounding towards minus infinity: doubling the
    result gives back `x` with its lowest bit cleared, and the sign is kept.
   */
  lemma ShiftRightHalves(x: Isize)
    ensures ShiftRightArithmetic(x, 1) << 1 == x & 0xFFFF_FFFF_FFFF_FFFE
    ensures ShiftRightArithmetic(x, 1) & SIGN_BIT == x & SIGN_BIT
  {
    if x & SIGN_BIT == 0 {
      HalveFilledWithZero(x, x >> 1);
    } else {
      HalveFilledWithOne(x, !((!x) >> 1));
    }
  }

  lemma HalveFilledWithZero(x: Isize, r: Isize)
    requires r == x >> 1
    ensures r << 1 == x & 0xFFFF_FFFF_FFFF_FFFE
  {
  }

  lemma HalveFilledWithOne(x: Isize, r: Isize)
    requires r == !((!x) >> 1)
    ensures r << 1 == x & 0xFFFF_FFFF_FFFF_FFFE
  {
  }

  /**
    Negative values stay negative and round down: -8 >> 1 is -4, -7 >> 1 is -4,
    -1 >> 1 is -1, -8 >> 2 is -2, -9 >> 2 is -3, -1000 >> 3 is -125, and the
    minimum shifted by 63 is -1.
   */
  lemma ShiftRightExamples()
    ensures ToInt(0xFFFF_FFFF_FFFF_FFF8) == -8 && ToInt(ShiftRightArithmetic(0xFFFF_FFFF_FFFF_FFF8, 1)) == -4
    ensures ToInt(0xFFFF_FFFF_FFFF_FFF9) == -7 && ToInt(ShiftRightArithmetic(0xFFFF_FFFF_FFFF_FFF9, 1)) == -4
    ensures ToInt(0xFFFF_FFFF_FFFF_FFFF) == -1 && ToInt(ShiftRightArithmetic(0xFFFF_FFFF_FFFF_FFFF, 1)) == -1
    ensures ToInt(ShiftRightArithmetic(0xFFFF_FFFF_FFFF_FFF8, 2)) == -2
    ensures ToInt(0xFFFF_FFFF_FFFF_FFF7) == -9 && ToInt(ShiftRightArithmetic(0xFFFF_FFFF_FFFF_FFF7, 2)) == -3
    ensures ToInt(0xFFFF_FFFF_FFFF_FC18) == -1000 && ToInt(ShiftRightArithmetic(0xFFFF_FFFF_FFFF_FC18, 3)) == -125
    ensures ToInt(SIGN_BIT) == ISIZE_MIN && ToInt(ShiftRightArithmetic(SIGN_BIT, 63)) == -1
  {
  }

  predicate IsUnary(op: Operation) {
    op.Assign? || op.Not?
  }

  predicate IsShift(op: Operation) {
    op.LShift? || op.RShift?
  }

  /** The operands of a gate, left to right. */
  function Operands(op: Operation): (s: seq<Operand>)
    ensures |s| == (if IsUnary(op) then 1 else 2) && s[0] == op.a
  {
    if IsUnary(op) then [op.a] else [op.a, op.b]
  }

  /** The gate reads wire `v`. */
  predicate Reads(op: Operation, v: Wire) {
    Address(v) in Operands(op)
  }

  /**
    The gate's operator applied to the values `x` and `y` of its operands
    (`y` is ignored by the unary gates). A shift by 64 or more overflows in
    Rust; `ShiftsInRange` keeps such amounts away from every evaluation, so
    the 0 chosen for them here is never observed.
   */
  function Apply(op: Operation, x: Isize, y: Isize): Isize {
    match op
    case Assign(_) => x
    case Not(_) => !x
    case And(_, _) => x & y
    case Or(_, _) => x | y
    case LShift(_, _) => if y < 64 then x << y else 0
    case RShift(_, _) => if y < 64 then ShiftRightArithmetic(x, y) else 0
  }

  /** `NOT` flips every bit: no bit is set in both the input and the result, and every bit is set in one of them. */
  lemma ApplyNot(a: Operand, x: Isize, y: Isize)
    ensures Apply(Not(a), x, y) & x == 0 && Apply(Not(a), x, y) | x == 0xFFFF_FFFF_FFFF_FFFF
  {
    ComplementBits(x, Apply(Not(a), x, y));
  }

  /** `AND` keeps only bits set in both operands, and the order of the operands does not matter. */
  lemma ApplyAnd(a: Operand, b: Operand, x: Isize, y: Isize)
    ensures var r := Apply(And(a, b), x, y);
      r & x == r && r & y == r && (x & y) & r == x & y && r == Apply(And(a, b), y, x)
  {
    AndBits(x, y, Apply(And(a, b), x, y));
    AndCovers(x, y, Apply(And(a, b), x, y));
  }

  /** `OR` keeps every bit set in either operand and sets no other bit. */
  lemma ApplyOr(a: Operand, b: Operand, x: Isize, y: Isize)
    ensures var r := Apply(Or(a, b), x, y);
      r | x == r && r | y == r && (x | y) | r == x | y
  {
    OrBits(x, y, Apply(Or(a, b), x, y));
    OrCovers(x, y, Apply(Or(a, b), x, y));
  }

  /** The order of the operands of `OR` does not matter. */
  lemma ApplyOrSymmetric(a: Operand, b: Operand, x: Isize, y: Isize)
    ensures Apply(Or(a, b), x, y) == Apply(Or(a, b), y, x)
  {
    OrBits(x, y, Apply(Or(a, b), x, y));
  }

  /** `LSHIFT` by one doubles, wrapping around at 64 bits. */
  lemma ApplyLShift(a: Operand, b: Operand, x: Isize)
    ensures Apply(LShift(a, b), x, 1) == x + x
  {
  }

  /** `RSHIFT` by an amount in range keeps the sign of its first operand. */
  lemma ApplyRShift(a: Operand, b: Operand, x: Isize, y: Isize)
    requires y < 64
    ensures Apply(RShift(a, b), x, y) & SIGN_BIT == x & SIGN_BIT
  {
  }

  lemma ComplementBits(x: Isize, r: Isize)
    requires r == !x
    ensures r & x == 0 && r | x == 0xFFFF_FFFF_FFFF_FFFF
  {
  }

  /** A pattern and itself: `&` and `|` give it back, and it shares no bit with its complement. */
  lemma SelfBits(r: Isize)
    ensures r & r == r && r | r == r && r & !r == 0
  {
  }

  /** Every bit set in both operands is set in the result of `&`. */
  lemma AndCovers(x: Isize, y: Isize, r: Isize)
    requires r == x & y
    ensures (x & y) & r == x & y
  {
    SelfBits(r);
  }

  /** Every bit set in the result of `|` is set in one of the operands. */
  lemma OrCovers(x: Isize, y: Isize, r: Isize)
    requires r == x | y
    ensures (x | y) | r == x | y
  {
    SelfBits(r);
  }

  lemma AndBits(x: Isize, y: Isize, r: Isize)
    requires r == x & y
    ensures r & x == r && r & y == r && r == y & x
  {
  }

  lemma OrBits(x: Isize, y: Isize, r: Isize)
    requires r == x | y
    ensures r | x == r && r | y == r && r == y | x
  {
  }

  /**
    `w` can be resolved: it is defined (the solver's `unwrap` succeeds), and
    so is every wire it reads, with a rank that strictly falls along each
    reference, so no resolution re-enters a wire it is already resolving.
   */
  ghost predicate Resolvable(c: Circuit, rank: map<Wire, nat>, w: Wire)
    decreases if w in rank then rank[w] else 0
  {
    && w in c && w in rank
    && forall v :: Reads(c[w], v) ==> v in rank && rank[v] < rank[w] && Resolvable(c, rank, v)
  }

  /** The reference value of a wire: the gate applied to its operands' values, with no table. */
  function Value(c: Circuit, rank: map<Wire, nat>, w: Wire): Isize
    requires Resolvable(c, rank, w)
    decreases rank[w], 1
  {
    var op := c[w];
    Apply(op, OperandValue(c, rank, w, op.a), if IsUnary(op) then 0 else OperandValue(c, rank, w, op.b))
  }

  /** A literal stands for itself, a wire for its value. */
  function OperandValue(c: Circuit, rank: map<Wire, nat>, reader: Wire, o: Operand): Isize
    requires Resolvable(c, rank, reader)
    requires o in Operands(c[reader])
    decreases rank[reader], 0
  {
    match o
    case Number(n) => n
    case Address(v) => Value(c, rank, v)
  }

  /** Every shift gate reached from `w` shifts by less than 64, so no shift overflows. */
  ghost predicate ShiftsInRange(c: Circuit, rank: map<Wire, nat>, w: Wire)
    requires Resolvable(c, rank, w)
    decreases rank[w]
  {
    && (IsShift(c[w]) ==> OperandValue(c, rank, w, c[w].b) < 64)
    && forall v :: Reads(c[w], v) ==> ShiftsInRange(c, rank, v)
  }

  /** `w` is `v` or reads it, directly or through other wires. */
  ghost predicate DependsOn(c: Circuit, rank: map<Wire, nat>, w: Wire, v: Wire)
    requires Resolvable(c, rank, w)
    decreases rank[w]
  {
    w == v || exists u :: Reads(c[w], u) && DependsOn(c, rank, u, v)
  }

  /** Every entry of a table holds the reference value of its wire. */
  ghost predicate Consistent(c: Circuit, rank: map<Wire, nat>, entries: map<Wire, Isize>) {
    forall w :: w in entries ==> Resolvable(c, rank, w) && entries[w] == Value(c, rank, w)
  }

  /** Every wire with an entry has entries for all the wires its gate reads. */
  ghost predicate Closed(c: Circuit, entries: map<Wire, Isize>) {
    forall w :: w in entries && w in c ==> InputsHaveEntries(c[w], entries)
  }

  /** Every wire the gate reads has an entry. */
  ghost predicate InputsHaveEntries(op: Operation, entries: map<Wire, Isize>) {
    forall v :: Reads(op, v) ==> v in entries
  }


  /** Every wire that `w` depends on has an entry. */
  ghost predicate HoldsDependencies(c: Circuit, rank: map<Wire, nat>, w: Wire, entries: map<Wire, Isize>)
    requires Resolvable(c, rank, w)
  {
    forall v :: DependsOn(c, rank, w, v) ==> v in entries
  }

  /** In a closed table, a wire with an entry has entries for everything it depends on. */
  lemma {:induction false} ClosedHoldsDependencies(c: Circuit, rank: map<Wire, nat>, entries: map<Wire, Isize>, w: Wire)
    requires Resolvable(c, rank, w) && Closed(c, entries) && w in entries
    ensures HoldsDependencies(c, rank, w, entries)
    decreases rank[w]
  {
    forall u | Reads(c[w], u)
      ensures HoldsDependencies(c, rank, u, entries)
    {
      ClosedHoldsDependencies(c, rank, entries, u);
    }
  }

  /** Entries are only added, never changed or removed. */
  ghost predicate Extends(before: map<Wire, Isize>, after: map<Wire, Isize>) {
    before.Keys <= after.Keys && forall w :: w in before ==> after[w] == before[w]
  }

  /** The value of a wire does not depend on which ranking witnesses that it is resolvable. */
  lemma {:induction false} ValueIgnoresRank(c: Circuit, rank1: map<Wire, nat>, rank2: map<Wire, nat>, w: Wire)
    requires Resolvable(c, rank1, w) && Resolvable(c, rank2, w)
    ensures Value(c, rank1, w) == Value(c, rank2, w)
    decreases rank1[w]
  {
    forall o | o in Operands(c[w])
      ensures OperandValue(c, rank1, w, o) == OperandValue(c, rank2, w, o)
    {
      if o.Address? {
        ValueIgnoresRank(c, rank1, rank2, o.wire);
      }
    }
  }

  /** The lookup table the solver fills, passed by mutable reference. */
  class LookupTable {
    var entries: map<Wire, Isize>

    /** `HashMap::new()`. */
    constructor ()
      ensures entries == map[]
    {
      entries := map[];
    }

    /** `values_table.clear()`. */
    method Clear()
      modifies this
      ensures entries == map[]
    {
      entries := map[];
    }
  }

  /**
    `get_final_wire_value`: a hit answers from the table and changes nothing;
    a miss resolves the gate's operands left to right, applies the gate, and
    stores the result under the wire before returning it.
   */
  method GetFinalWireValue(wire: Wire, circuit: Circuit, ghost rank: map<Wire, nat>, table: LookupTable)
    returns (value: Isize)
    requires Resolvable(circuit, rank, wire) && ShiftsInRange(circuit, rank, wire)
    requires Consistent(circuit, rank, table.entries) && Closed(circuit, table.entries)
    modifies table
    ensures value == Value(circuit, rank, wire)
    ensures wire in table.entries && table.entries[wire] == value
    ensures wire in old(table.entries) ==> table.entries == old(table.entries)
    ensures Extends(old(table.entries), table.entries)
    ensures Consistent(circuit, rank, table.entries) && Closed(circuit, table.entries)
    ensures forall w :: w in table.entries && w !in old(table.entries) ==> DependsOn(circuit, rank, wire, w)
    ensures HoldsDependencies(circuit, rank, wire, table.entries)
    decreases rank[wire], 1
  {
    if wire in table.entries {
      ClosedHoldsDependencies(circuit, rank, table.entries, wire);
      return table.entries[wire];
    }
    var op := circuit[wire];
    ghost var before := table.entries;
    var number1 := ResolveOperand(op.a, wire, circuit, rank, table);
    ghost var middle := table.entries;
    var number2: Isize := 0;
    if !IsUnary(op) {
      number2 := ResolveOperand(op.b, wire, circuit, rank, table);
    }
    value := Apply(op, number1, number2);
    assert value == Value(circuit, rank, wire);
    StoreResolved(circuit, rank, wire, before, middle, table.entries);
    table.entries := table.entries[wire := value];
  }

  /**
    Storing a freshly computed wire, given the table before its operands were
    resolved, after the first and after the second: the table only grows, by
    wires the gate depends on, stays consistent and closed, and then holds
    everything the wire depends on.
   */
  lemma StoreResolved(c: Circuit, rank: map<Wire, nat>, wire: Wire,
                      before: map<Wire, Isize>, middle: map<Wire, Isize>, resolved: map<Wire, Isize>)
    requires Resolvable(c, rank, wire)
    requires Extends(before, middle) && Extends(middle, resolved)
    requires Consistent(c, rank, resolved) && Closed(c, resolved)
    requires c[wire].a.Address? ==> c[wire].a.wire in middle
    requires !IsUnary(c[wire]) && c[wire].b.Address? ==> c[wire].b.wire in resolved
    requires forall w :: w in middle && w !in before ==> c[wire].a.Address? && DependsOn(c, rank, c[wire].a.wire, w)
    requires forall w :: w in resolved && w !in middle ==> !IsUnary(c[wire]) && c[wire].b.Address? && DependsOn(c, rank, c[wire].b.wire, w)
    ensures var after := resolved[wire := Value(c, rank, wire)];
      && Extends(before, after) && Consistent(c, rank, after) && Closed(c, after)
      && (forall w :: w in after && w !in before ==> DependsOn(c, rank, wire, w))
      && HoldsDependencies(c, rank, wire, after)
  {
    var op := c[wire];
    forall w | w in resolved && w !in before
      ensures DependsOn(c, rank, wire, w)
    {
      if w in middle {
        assert Reads(op, op.a.wire);
      } else {
        assert Reads(op, op.b.wire);
      }
    }
    ResolvedInputs(op, middle, resolved);
    InsertResolved(c, rank, resolved, wire);
    InsertClosed(c, resolved, wire, Value(c, rank, wire));
    ClosedHoldsDependencies(c, rank, resolved[wire := Value(c, rank, wire)], wire);
  }

  /** Once both operands are resolved, every wire the gate reads has an entry. */
  lemma ResolvedInputs(op: Operation, middle: map<Wire, Isize>, entries: map<Wire, Isize>)
    requires op.a.Address? ==> op.a.wire in middle
    requires middle.Keys <= entries.Keys
    requires !IsUnary(op) && op.b.Address? ==> op.b.wire in entries
    ensures InputsHaveEntries(op, entries)
  {
  }

  /** Storing a wire whose inputs all have entries keeps a table closed. */
  lemma InsertClosed(c: Circuit, entries: map<Wire, Isize>, w: Wire, x: Isize)
    requires Closed(c, entries) && w in c
    requires InputsHaveEntries(c[w], entries)
    ensures Closed(c, entries[w := x])
  {
  }

  /** Storing a wire's reference value keeps a table consistent. */
  lemma InsertResolved(c: Circuit, rank: map<Wire, nat>, entries: map<Wire, Isize>, w: Wire)
    requires Consistent(c, rank, entries) && Resolvable(c, rank, w)
    ensures Consistent(c, rank, entries[w := Value(c, rank, w)])
  {
  }

  /** The operand step of every gate: a number as it stands, a wire through the table. */
  method ResolveOperand(o: Operand, ghost reader: Wire, circuit: Circuit, ghost rank: map<Wire, nat>, table: LookupTable)
    returns (value: Isize)
    requires Resolvable(circuit, rank, reader) && ShiftsInRange(circuit, rank, reader)
    requires o in Operands(circuit[reader])
    requires Consistent(circuit, rank, table.entries) && Closed(circuit, table.entries)
    modifies table
    ensures value == OperandValue(circuit, rank, reader, o)
    ensures Extends(old(table.entries), table.entries)
    ensures Consistent(circuit, rank, table.entries) && Closed(circuit, table.entries)
    ensures o.Address? ==> o.wire in table.entries
    ensures forall w :: w in table.entries && w !in old(table.entries) ==> o.Address? && DependsOn(circuit, rank, o.wire, w)
    decreases rank[reader], 0
  {
    match o {
      case Number(number) =>
        return number;
      case Address(w) =>
        value := GetFinalWireValue(w, circuit, rank, table);
    }
  }

  /** The circuit after wire `b` is made to carry the constant `v`. */
  function Override(c: Circuit, b: Wire, v: Isize): (c': Circuit)
    ensures c'.Keys == c.Keys + {b} && c'[b] == Assign(Number(v))
    ensures forall w :: w in c && w != b ==> c'[w] == c[w]
  {
    c[b := Assign(Number(v))]
  }

  /** Overriding a wire with a constant keeps every resolvable wire resolvable, and the wire now carries the constant. */
  lemma {:induction false} OverrideResolvable(c: Circuit, rank: map<Wire, nat>, b: Wire, v: Isize, w: Wire)
    requires Resolvable(c, rank, w)
    ensures Resolvable(Override(c, b, v), rank, w)
    ensures w == b ==> Value(Override(c, b, v), rank, w) == v
    decreases rank[w]
  {
    if w != b {
      forall u | Reads(c[w], u)
        ensures Resolvable(Override(c, b, v), rank, u)
      {
        OverrideResolvable(c, rank, b, v, u);
      }
    }
  }

  /** A wire that does not read `b`, even indirectly, keeps its value when `b` is overridden. */
  lemma {:induction false} OverrideFrame(c: Circuit, rank: map<Wire, nat>, b: Wire, v: Isize, w: Wire)
    requires Resolvable(c, rank, w) && !DependsOn(c, rank, w, b)
    ensures Resolvable(Override(c, b, v), rank, w)
    ensures Value(Override(c, b, v), rank, w) == Value(c, rank, w)
    decreases rank[w]
  {
    OverrideResolvable(c, rank, b, v, w);
    var c' := Override(c, b, v);
    forall o | o in Operands(c[w])
      ensures OperandValue(c', rank, w, o) == OperandValue(c, rank, w, o)
    {
      if o.Address? {
        OverrideFrame(c, rank, b, v, o.wire);
      }
    }
  }

  /**
    The entries of wires that do not read `b` stay valid after the override;
    only the others go stale, and clearing the whole table discards them.
   */
  lemma KeepIndependentEntries(c: Circuit, rank: map<Wire, nat>, b: Wire, v: Isize, entries: map<Wire, Isize>)
    requires Consistent(c, rank, entries)
    requires forall w :: w in entries ==> !DependsOn(c, rank, w, b)
    ensures Consistent(Override(c, b, v), rank, entries)
  {
    forall w | w in entries
      ensures Resolvable(Override(c, b, v), rank, w) && entries[w] == Value(Override(c, b, v), rank, w)
    {
      OverrideFrame(c, rank, b, v, w);
    }
  }

  /** A table filled before an override can give wrong answers after it: here `a` reads `b`. */
  lemma StaleEntryAfterOverride()
    ensures var c := map["a" := Assign(Address("b")), "b" := Assign(Number(1))];
            var rank := map["a" := 1, "b" := 0];
            var entries := map["a" := 1, "b" := 1];
            Consistent(c, rank, entries) && !Consistent(Override(c, "b", 2), rank, entries)
  {
    var c := map["a" := Assign(Address("b")), "b" := Assign(Number(1))];
    var rank := map["a" := 1, "b" := 0];
    assert Resolvable(c, rank, "a");
    OverrideResolvable(c, rank, "b", 2, "a");
    assert Value(Override(c, "b", 2), rank, "a") == 2;
  }

  /**
    The two answers of the puzzle: the signal on `a`, and the
    signal on `a` again once `b` is overridden with the first answer and the
    table is cleared.
   */
  method Solve(circuit: Circuit, ghost rank: map<Wire, nat>) returns (signalA1: Isize, signalA2: Isize)
    requires "b" in circuit
    requires Resolvable(circuit, rank, "a") && ShiftsInRange(circuit, rank, "a")
    requires (OverrideResolvable(circuit, rank, "b", Value(circuit, rank, "a"), "a");
              ShiftsInRange(Override(circuit, "b", Value(circuit, rank, "a")), rank, "a"))
    ensures signalA1 == Value(circuit, rank, "a")
    ensures signalA2 == Value(Override(circuit, "b", signalA1), rank, "a")
    ensures !DependsOn(circuit, rank, "a", "b") ==> signalA2 == signalA1
  {
    var valuesTable := new LookupTable();
    signalA1 := GetFinalWireValue("a", circuit, rank, valuesTable);
    var circuit' := Override(circuit, "b", signalA1);
    valuesTable.Clear();
    OverrideResolvable(circuit, rank, "b", signalA1, "a");
    signalA2 := GetFinalWireValue("a", circuit', rank, valuesTable);
    if !DependsOn(circuit, rank, "a", "b") {
      OverrideFrame(circuit, rank, "b", signalA1, "a");
    }
  }

  /** Rank 0 for the two literal wires of the sample, 1 for every other wire. */
  function SampleRank(c: Circuit): map<Wire, nat> {
    map w | w in c :: if w == "x" || w == "y" then 0 else 1
  }

  /** The sample circuit of the puzzle statement holds these gates. */
  ghost predicate HasSampleGates(c: Circuit) {
    && "x" in c && c["x"] == Assign(Number(123))
    && "y" in c && c["y"] == Assign(Number(456))
    && "d" in c && c["d"] == And(Address("x"), Address("y"))
    && "e" in c && c["e"] == Or(Address("x"), Address("y"))
    && "f" in c && c["f"] == LShift(Address("x"), Number(2))
    && "g" in c && c["g"] == RShift(Address("y"), Number(2))
    && "h" in c && c["h"] == Not(Address("x"))
    && "i" in c && c["i"] == Not(Address("y"))
  }

  lemma SampleInputs(c: Circuit)
    requires HasSampleGates(c)
    ensures Resolvable(c, SampleRank(c), "x") && Value(c, SampleRank(c), "x") == 123
    ensures Resolvable(c, SampleRank(c), "y") && Value(c, SampleRank(c), "y") == 456
  {
  }

  /** `x AND y` carries 72. */
  lemma SampleAnd(c: Circuit)
    requires HasSampleGates(c)
    ensures var rank := SampleRank(c);
      && Resolvable(c, rank, "d") && Value(c, rank, "d") == 72
  {
    SampleInputs(c);
  }

  /** `x OR y` carries 507. */
  lemma SampleOr(c: Circuit)
    requires HasSampleGates(c)
    ensures var rank := SampleRank(c);
      && Resolvable(c, rank, "e") && Value(c, rank, "e") == 507
  {
    SampleInputs(c);
  }

  /** `x LSHIFT 2` carries 492. */
  lemma SampleLShift(c: Circuit)
    requires HasSampleGates(c)
    ensures var rank := SampleRank(c);
      && Resolvable(c, rank, "f") && Value(c, rank, "f") == 492
  {
    SampleInputs(c);
  }

  /** `y RSHIFT 2` carries 114. */
  lemma SampleRShift(c: Circuit)
    requires HasSampleGates(c)
    ensures var rank := SampleRank(c);
      && Resolvable(c, rank, "g") && Value(c, rank, "g") == 114
  {
    SampleInputs(c);
  }

  /** `NOT` acts on all 64 bits: `NOT x` is -124 and `NOT y` is -457, where a 16-bit reading of the puzzle gives 65412 and 65079. */
  lemma SampleNot(c: Circuit)
    requires HasSampleGates(c)
    ensures var rank := SampleRank(c);
      && Resolvable(c, rank, "h") && ToInt(Value(c, rank, "h")) == -124
      && Resolvable(c, rank, "i") && ToInt(Value(c, rank, "i")) == -457
  {
    SampleInputs(c);
  }

  /** In the sample, `d` and `e` can be resolved without overflow, and `d` depends on both `x` and `y`. */
  lemma SampleDiamond(c: Circuit)
    requires HasSampleGates(c)
    ensures var rank := SampleRank(c);
      && Resolvable(c, rank, "d") && ShiftsInRange(c, rank, "d") && Value(c, rank, "d") == 72
      && Resolvable(c, rank, "e") && ShiftsInRange(c, rank, "e") && Value(c, rank, "e") == 507
      && DependsOn(c, rank, "d", "x") && DependsOn(c, rank, "d", "y")
  {
    var rank := SampleRank(c);
    SampleAnd(c);
    SampleOr(c);
    assert ShiftsInRange(c, rank, "x") && ShiftsInRange(c, rank, "y");
    assert Reads(c["d"], "x") && Reads(c["d"], "y");
    assert DependsOn(c, rank, "x", "x") && DependsOn(c, rank, "y", "y");
  }

  /**
    The diamond of the sample: `d` and `e` both read `x` and `y`. Resolving
    `d` on a fresh table leaves `x` and `y` in it, so resolving `e` next finds
    both inputs in the table instead of evaluating them again.
   */
  method SampleSharedInputs(c: Circuit) returns (d: Isize, e: Isize, inputsCached: bool)
    requires HasSampleGates(c)
    ensures d == 72 && e == 507
    ensures inputsCached
  {
    ghost var rank := SampleRank(c);
    SampleDiamond(c);
    var table := new LookupTable();
    d := GetFinalWireValue("d", c, rank, table);
    inputsCached := "x" in table.entries && "y" in table.entries;
    e := GetFinalWireValue("e", c, rank, table);
  }
}
