/** What the reader of R1CS files accepts: exactly the files whose sections begin with the bytes of the data
    (read_r1cs in constraint_writers/src/r1cs_reader.rs). Where the writer lists each signal of a combination
    once, a file may repeat one, and the last factor counts. */
module R1csAcceptance {
  import opened LinearCombination
  import opened Constraints
  import opened Bytes
  import opened R1csFormat
  import opened R1csFile

  // ---- Numbers

  /** The bytes a number takes in a file; none where the header gives field size zero. */
  function Slot(n: nat, width: nat): seq<byte> {
    if width == 0 then [] else Encode(n, width)
  }

  function Slots(ns: seq<nat>, width: nat): seq<byte> {
    if width == 0 then [] else NumbersBytes(ns, width)
  }

  lemma NumberThere(input: seq<byte>, width: nat)
    requires ParseNumber(input, width).Ok?
    ensures var (n, rest) := ParseNumber(input, width).value; n < Power(width) && input == Slot(n, width) + rest
  {
    hide Encode, Power;
    if width == 0 {
      assert Power(0) == 1 by { NoWidth(); }
    } else {
      EncodeFrom(input[..width]);
    }
  }

  lemma NoWidth()
    ensures Power(0) == 1
  {
  }

  lemma SlotBack(n: nat, width: nat, rest: seq<byte>)
    requires n < Power(width)
    ensures ParseNumber(Slot(n, width) + rest, width) == Ok((n, rest))
  {
    hide Encode, Power;
    if width == 0 {
      NoWidth();
      assert [] + rest == rest && rest[..0] == [] && rest[0..] == rest;
    } else {
      NumberBack(n, width, rest);
    }
  }

  lemma {:induction false} NumbersThere(input: seq<byte>, n: nat, width: nat)
    requires ParseNumbers(input, n, width).Ok?
    ensures var (ns, rest) := ParseNumbers(input, n, width).value;
            |ns| == n && NumbersFit(ns, width) && input == Slots(ns, width) + rest
  {
    hide Encode, ParseNumber, Power;
    if n > 0 {
      NumbersThere(input, n - 1, width);
      var (ns, middle) := ParseNumbers(input, n - 1, width).value;
      NumberThere(middle, width);
      var (x, rest) := ParseNumber(middle, width).value;
      assert (ns + [x])[..n - 1] == ns;
      Assoc(Slots(ns, width), Slot(x, width), rest);
      if width == 0 { assert [] + middle == middle && [] + rest == rest; }
    } else {
      assert Slots([], width) == [] && [] + input == input;
    }
  }

  lemma SlotsBack(ns: seq<nat>, width: nat, rest: seq<byte>)
    requires NumbersFit(ns, width)
    ensures ParseNumbers(Slots(ns, width) + rest, |ns|, width) == Ok((ns, rest))
  {
    hide NumbersBytes, ParseNumbers, Power;
    if width == 0 {
      NoWidth();
      NoSlots(ns, rest);
      assert [] + rest == rest;
    } else {
      NumbersBack(ns, width, rest);
    }
  }

  lemma {:induction false} NoSlots(ns: seq<nat>, rest: seq<byte>)
    requires forall i :: 0 <= i < |ns| ==> ns[i] == 0
    ensures ParseNumbers(rest, |ns|, 0) == Ok((ns, rest))
  {
    if ns != [] {
      var n := |ns| - 1;
      NoSlots(ns[..n], rest);
      assert rest[..0] == [] && rest[0..] == rest && ns[..n] + [0] == ns;
    }
  }

  // ---- Combinations

  datatype Factor = Factor(signal: nat, value: nat)

  ghost predicate FactorsFit(factors: seq<Factor>, fieldSize: nat) {
    forall i :: 0 <= i < |factors| ==> factors[i].signal < Power(4) && factors[i].value < Power(fieldSize)
  }

  function FactorsBytes(factors: seq<Factor>, fieldSize: nat): seq<byte> {
    if factors == [] then [] else
      Encode(factors[0].signal, 4) + Slot(factors[0].value, fieldSize) + FactorsBytes(factors[1..], fieldSize)
  }

  /** The factors put into a map, the last of a signal counting. */
  function Kept(m: LC, factors: seq<Factor>): LC
    decreases |factors|
  {
    if factors == [] then m else Kept(m[factors[0].signal := factors[0].value], factors[1..])
  }

  ghost predicate BlockHolds(bytes: seq<byte>, m: LC, fieldSize: nat) {
    exists factors :: FactorsHeld(bytes, factors, m, fieldSize)
  }

  ghost predicate FactorsHeld(bytes: seq<byte>, factors: seq<Factor>, m: LC, fieldSize: nat) {
    && |factors| < Power(4) && FactorsFit(factors, fieldSize) && m == Kept(map[], factors)
    && bytes == Encode(|factors|, 4) + FactorsBytes(factors, fieldSize)
  }

  lemma {:induction false} FactorsBack(m: LC, factors: seq<Factor>, fieldSize: nat, rest: seq<byte>)
    requires FactorsFit(factors, fieldSize)
    ensures ParseTerms(FactorsBytes(factors, fieldSize) + rest, |factors|, fieldSize, m) == Ok((Kept(m, factors), rest))
    decreases |factors|
  {
    hide Encode, ParseNumber, Power;
    if factors == [] {
      assert FactorsBytes(factors, fieldSize) + rest == rest;
    } else {
      var f, tail := factors[0], FactorsBytes(factors[1..], fieldSize);
      var id, value := Encode(f.signal, 4), Slot(f.value, fieldSize);
      Assoc(id + value, tail, rest);
      Assoc(id, value, tail + rest);
      NumberBack(f.signal, 4, value + (tail + rest));
      SlotBack(f.value, fieldSize, tail + rest);
      FactorsBack(m[f.signal := f.value], factors[1..], fieldSize, rest);
    }
  }

  lemma {:induction false} FactorsThere(input: seq<byte>, count: nat, fieldSize: nat, m: LC)
    returns (factors: seq<Factor>)
    requires ParseTerms(input, count, fieldSize, m).Ok?
    ensures var (all, rest) := ParseTerms(input, count, fieldSize, m).value;
            && |factors| == count && FactorsFit(factors, fieldSize) && all == Kept(m, factors)
            && input == FactorsBytes(factors, fieldSize) + rest
    decreases count
  {
    hide Encode, ParseNumber, Power;
    if count == 0 {
      factors := [];
      assert FactorsBytes([], fieldSize) + input == input;
    } else {
      NumberThere(input, 4);
      var (id, middle) := ParseNumber(input, 4).value;
      NumberThere(middle, fieldSize);
      var (value, rest) := ParseNumber(middle, fieldSize).value;
      var more := FactorsThere(rest, count - 1, fieldSize, m[id := value]);
      factors := [Factor(id, value)] + more;
      assert factors[1..] == more;
      var tail := ParseTerms(rest, count - 1, fieldSize, m[id := value]).value.1;
      Assoc(Encode(id, 4), Slot(value, fieldSize), FactorsBytes(more, fieldSize) + tail);
      Assoc(Encode(id, 4) + Slot(value, fieldSize), FactorsBytes(more, fieldSize), tail);
    }
  }

  lemma {:induction false} KeptFits(m: LC, factors: seq<Factor>, fieldSize: nat)
    requires FactorsFit(factors, fieldSize) && forall k :: k in m ==> k < Power(4) && 0 <= m[k] < Power(fieldSize)
    ensures |Kept(m, factors)| <= |m| + |factors|
    ensures forall k :: k in Kept(m, factors) ==> k < Power(4) && 0 <= Kept(m, factors)[k] < Power(fieldSize)
    decreases |factors|
  {
    hide Power;
    if factors != [] {
      var f := factors[0];
      var next := m[f.signal := f.value];
      assert next.Keys == m.Keys + {f.signal};
      assert |next| == |next.Keys| && |m| == |m.Keys|;
      KeptFits(next, factors[1..], fieldSize);
    }
  }

  /** A block is accepted as a combination exactly when it lists factors that give it. */
  lemma BlockAccepted(input: seq<byte>, m: LC, rest: seq<byte>, fieldSize: nat)
    ensures ParseBlock(input, fieldSize) == Ok((m, rest)) <==>
            exists bytes :: BlockHolds(bytes, m, fieldSize) && input == bytes + rest
    ensures ParseBlock(input, fieldSize) == Ok((m, rest)) ==> LcFits(m, fieldSize)
  {
    hide Encode, ParseNumber, ParseTerms, FactorsFit, FactorsBytes, Kept, Power;
    if ParseBlock(input, fieldSize) == Ok((m, rest)) {
      NumberThere(input, 4);
      var (count, middle) := ParseNumber(input, 4).value;
      var factors := FactorsThere(middle, count, fieldSize, map[]);
      KeptFits(map[], factors, fieldSize);
      var bytes := Encode(count, 4) + FactorsBytes(factors, fieldSize);
      assert FactorsHeld(bytes, factors, m, fieldSize);
      Assoc(Encode(count, 4), FactorsBytes(factors, fieldSize), rest);
    }
    forall bytes | BlockHolds(bytes, m, fieldSize) && input == bytes + rest
      ensures ParseBlock(input, fieldSize) == Ok((m, rest))
    {
      var factors :| FactorsHeld(bytes, factors, m, fieldSize);
      Assoc(Encode(|factors|, 4), FactorsBytes(factors, fieldSize), rest);
      NumberBack(|factors|, 4, FactorsBytes(factors, fieldSize) + rest);
      FactorsBack(map[], factors, fieldSize, rest);
    }
  }

  ghost predicate ConstraintHolds(bytes: seq<byte>, c: Constraint, fieldSize: nat) {
    exists one, two, three :: ThreeHold(bytes, one, two, three, c, fieldSize)
  }

  ghost predicate ThreeHold(bytes: seq<byte>, one: seq<byte>, two: seq<byte>, three: seq<byte>, c: Constraint,
                            fieldSize: nat) {
    && BlockHolds(one, c.a, fieldSize) && BlockHolds(two, c.b, fieldSize) && BlockHolds(three, c.c, fieldSize)
    && bytes == one + two + three
  }

  lemma ConstraintAccepted(input: seq<byte>, c: Constraint, rest: seq<byte>, fieldSize: nat)
    ensures ParseConstraint(input, fieldSize) == Ok((c, rest)) <==>
            exists bytes :: ConstraintHolds(bytes, c, fieldSize) && input == bytes + rest
    ensures ParseConstraint(input, fieldSize) == Ok((c, rest)) ==> ConstraintFits(c, fieldSize)
  {
    hide BlockHolds, ParseBlock, LcFits;
    if ParseConstraint(input, fieldSize) == Ok((c, rest)) {
      var i1 := ParseBlock(input, fieldSize).value.1;
      var i2 := ParseBlock(i1, fieldSize).value.1;
      BlockAccepted(input, c.a, i1, fieldSize);
      BlockAccepted(i1, c.b, i2, fieldSize);
      BlockAccepted(i2, c.c, rest, fieldSize);
      var one :| BlockHolds(one, c.a, fieldSize) && input == one + i1;
      var two :| BlockHolds(two, c.b, fieldSize) && i1 == two + i2;
      var three :| BlockHolds(three, c.c, fieldSize) && i2 == three + rest;
      assert ThreeHold(one + two + three, one, two, three, c, fieldSize);
      Assoc(one, two, three + rest);
      Assoc(one + two, three, rest);
    }
    forall bytes | ConstraintHolds(bytes, c, fieldSize) && input == bytes + rest
      ensures ParseConstraint(input, fieldSize) == Ok((c, rest))
    {
      var one, two, three :| ThreeHold(bytes, one, two, three, c, fieldSize);
      Assoc(one + two, three, rest);
      Assoc(one, two, three + rest);
      BlockAccepted(input, c.a, two + (three + rest), fieldSize);
      BlockAccepted(two + (three + rest), c.b, three + rest, fieldSize);
      BlockAccepted(three + rest, c.c, rest, fieldSize);
    }
  }

  ghost predicate ConstraintsHold(bytes: seq<byte>, cs: seq<Constraint>, fieldSize: nat)
    decreases |cs|
  {
    if cs == [] then bytes == [] else
      exists k :: 0 <= k <= |bytes| && FirstHold(bytes, k, cs, fieldSize)
  }

  ghost predicate FirstHold(bytes: seq<byte>, k: nat, cs: seq<Constraint>, fieldSize: nat)
    requires k <= |bytes| && cs != []
    decreases |cs|, 0
  {
    ConstraintsHold(bytes[..k], cs[..|cs| - 1], fieldSize) && ConstraintHolds(bytes[k..], cs[|cs| - 1], fieldSize)
  }

  lemma {:induction false} ConstraintsParse(bytes: seq<byte>, cs: seq<Constraint>, fieldSize: nat, rest: seq<byte>)
    requires ConstraintsHold(bytes, cs, fieldSize)
    ensures ParseConstraints(bytes + rest, |cs|, fieldSize) == Ok((cs, rest))
    decreases |cs|
  {
    hide ConstraintHolds, ParseConstraint;
    if cs == [] {
      assert bytes + rest == rest;
    } else {
      var n := |cs| - 1;
      var k :| 0 <= k <= |bytes| && FirstHold(bytes, k, cs, fieldSize);
      Assoc(bytes[..k], bytes[k..], rest);
      assert bytes[..k] + bytes[k..] == bytes;
      ConstraintsParse(bytes[..k], cs[..n], fieldSize, bytes[k..] + rest);
      ConstraintAccepted(bytes[k..] + rest, cs[n], rest, fieldSize);
      assert cs[..n] + [cs[n]] == cs;
    }
  }

  lemma {:induction false} ConstraintsThere(input: seq<byte>, n: nat, fieldSize: nat) returns (bytes: seq<byte>)
    requires ParseConstraints(input, n, fieldSize).Ok?
    ensures var (cs, rest) := ParseConstraints(input, n, fieldSize).value;
            && |cs| == n && ConstraintsHold(bytes, cs, fieldSize) && input == bytes + rest
            && forall i :: 0 <= i < |cs| ==> ConstraintFits(cs[i], fieldSize)
    decreases n
  {
    hide ConstraintHolds, ParseConstraint, ConstraintFits;
    if n == 0 {
      bytes := [];
    } else {
      var front := ConstraintsThere(input, n - 1, fieldSize);
      var (cs, middle) := ParseConstraints(input, n - 1, fieldSize).value;
      var (c, rest) := ParseConstraint(middle, fieldSize).value;
      ConstraintAccepted(middle, c, rest, fieldSize);
      var last :| ConstraintHolds(last, c, fieldSize) && middle == last + rest;
      bytes := front + last;
      assert (cs + [c])[..n - 1] == cs && bytes[..|front|] == front && bytes[|front|..] == last;
      assert FirstHold(bytes, |front|, cs + [c], fieldSize);
      Assoc(front, last, rest);
    }
  }

  lemma ConstraintsAccepted(input: seq<byte>, n: nat, cs: seq<Constraint>, rest: seq<byte>, fieldSize: nat)
    ensures ParseConstraints(input, n, fieldSize) == Ok((cs, rest)) <==>
            |cs| == n && exists bytes :: ConstraintsHold(bytes, cs, fieldSize) && input == bytes + rest
    ensures ParseConstraints(input, n, fieldSize) == Ok((cs, rest)) ==>
              forall i :: 0 <= i < |cs| ==> ConstraintFits(cs[i], fieldSize)
  {
    hide ConstraintsHold, ParseConstraints, ConstraintFits;
    if ParseConstraints(input, n, fieldSize) == Ok((cs, rest)) { var bytes := ConstraintsThere(input, n, fieldSize); }
    forall bytes | |cs| == n && ConstraintsHold(bytes, cs, fieldSize) && input == bytes + rest
      ensures ParseConstraints(input, n, fieldSize) == Ok((cs, rest))
    {
      ConstraintsParse(bytes, cs, fieldSize, rest);
    }
  }

  // ---- The other sections

  lemma NumbersAccepted(input: seq<byte>, n: nat, ns: seq<nat>, rest: seq<byte>, width: nat)
    requires width > 0
    ensures ParseNumbers(input, n, width) == Ok((ns, rest)) <==>
            |ns| == n && NumbersFit(ns, width) && input == NumbersBytes(ns, width) + rest
  {
    hide ParseNumbers, NumbersBytes, NumbersFit;
    if ParseNumbers(input, n, width) == Ok((ns, rest)) { NumbersThere(input, n, width); }
    if NumbersFit(ns, width) { NumbersBack(ns, width, rest); }
  }

  /** A header as the reader expects it. */
  function HeaderSlots(h: Header, fieldSize: nat): seq<byte> {
    Encode(fieldSize, 4) + (Slot(h.field, fieldSize) + (NumbersBytes(FourCounts(h), 4) +
      (Encode(h.numberOfLabels, 8) + Encode(h.numberOfConstraints, 4))))
  }

  function FourCounts(h: Header): seq<nat> {
    [h.totalWires, h.publicOutputs, h.publicInputs, h.privateInputs]
  }

  /** Written by the writer, it is the writer's. */
  lemma HeaderWritten(h: Header, fieldSize: nat)
    requires fieldSize > 0
    ensures HeaderSlots(h, fieldSize) == HeaderBytes(h, fieldSize)
  {
    hide Encode, NumbersBytes, HeaderBytes;
    FourNumbers(h.totalWires, h.publicOutputs, h.publicInputs, h.privateInputs);
    HeaderParts(h, fieldSize, NumbersBytes(FourCounts(h), 4), []);
    assert HeaderBytes(h, fieldSize) + [] == HeaderBytes(h, fieldSize);
    assert Encode(h.numberOfConstraints, 4) + [] == Encode(h.numberOfConstraints, 4);
  }

  lemma SplitHeader(h: Header, fieldSize: nat, rest: seq<byte>)
    ensures HeaderSlots(h, fieldSize) + rest ==
            Encode(fieldSize, 4) + (Slot(h.field, fieldSize) + (NumbersBytes(FourCounts(h), 4) +
              (Encode(h.numberOfLabels, 8) + (Encode(h.numberOfConstraints, 4) + rest))))
  {
    hide Encode, Slot, NumbersBytes, FourCounts;
  }

  lemma HeaderAccepted(input: seq<byte>, fieldSize: nat, h: Header, rest: seq<byte>)
    ensures ParseHeader(input) == Ok(((fieldSize, h), rest)) <==>
            HeaderInRange(h, fieldSize) && input == HeaderSlots(h, fieldSize) + rest
  {
    hide HeaderSlots, HeaderInRange, ParseHeader;
    SplitHeader(h, fieldSize, rest);
    if ParseHeader(input) == Ok(((fieldSize, h), rest)) { HeaderThere(input, fieldSize, h, rest); }
    if HeaderInRange(h, fieldSize) { HeaderSlotsBack(h, fieldSize, rest); }
  }

  lemma HeaderThere(input: seq<byte>, fieldSize: nat, h: Header, rest: seq<byte>)
    requires ParseHeader(input) == Ok(((fieldSize, h), rest))
    ensures HeaderInRange(h, fieldSize) && input == HeaderSlots(h, fieldSize) + rest
  {
    hide Encode, ParseNumber, ParseNumbers, NumbersBytes, Power, HeaderSlots;
    NumberThere(input, 4);
    var i0 := ParseNumber(input, 4).value.1;
    NumberThere(i0, fieldSize);
    var i1 := ParseNumber(i0, fieldSize).value.1;
    NumbersThere(i1, 4, 4);
    var (four, i2) := ParseNumbers(i1, 4, 4).value;
    NumberThere(i2, 8);
    NumberThere(ParseNumber(i2, 8).value.1, 4);
    assert four == FourCounts(h);
    SplitHeader(h, fieldSize, rest);
  }

  lemma HeaderSlotsBack(h: Header, fieldSize: nat, rest: seq<byte>)
    requires HeaderInRange(h, fieldSize)
    ensures ParseHeader(HeaderSlots(h, fieldSize) + rest) == Ok(((fieldSize, h), rest))
  {
    hide Encode, ParseNumber, ParseNumbers, NumbersBytes, Power, HeaderSlots;
    SplitHeader(h, fieldSize, rest);
    var labels, count := Encode(h.numberOfLabels, 8), Encode(h.numberOfConstraints, 4);
    var middle := NumbersBytes(FourCounts(h), 4);
    NumberBack(fieldSize, 4, Slot(h.field, fieldSize) + (middle + (labels + (count + rest))));
    SlotBack(h.field, fieldSize, middle + (labels + (count + rest)));
    NumbersBack(FourCounts(h), 4, labels + (count + rest));
    NumberBack(h.numberOfLabels, 8, count + rest);
    NumberBack(h.numberOfConstraints, 4, rest);
  }

  lemma {:induction false} NameThere(input: seq<byte>)
    requires ParseName(input).Ok?
    ensures var (name, rest) := ParseName(input).value;
            (forall i :: 0 <= i < |name| ==> name[i] != 0) && input == name + [0] + rest
  {
    if input[0] == 0 {
      assert input == [] + [0] + input[1..];
    } else {
      NameThere(input[1..]);
      var (name, rest) := ParseName(input[1..]).value;
      assert input == [input[0]] + (name + [0] + rest);
      assert [input[0]] + (name + [0] + rest) == [input[0]] + name + [0] + rest;
    }
  }

  function GateSlots(g: Gate, fieldSize: nat): seq<byte> {
    g.name + [0] + (Encode(|g.parameters|, 4) + Slots(g.parameters, fieldSize))
  }

  function GateListSlots(gs: seq<Gate>, fieldSize: nat): seq<byte> {
    if gs == [] then [] else GateListSlots(gs[..|gs| - 1], fieldSize) + GateSlots(gs[|gs| - 1], fieldSize)
  }

  function GatesSlots(gs: seq<Gate>, fieldSize: nat): seq<byte> {
    Encode(|gs|, 4) + GateListSlots(gs, fieldSize)
  }

  lemma {:induction false} GatesWritten(gs: seq<Gate>, fieldSize: nat)
    requires fieldSize > 0
    ensures GateListSlots(gs, fieldSize) == GateListBytes(gs, fieldSize)
  {
    hide Encode, NumbersBytes;
    if gs != [] {
      var g := gs[|gs| - 1];
      GatesWritten(gs[..|gs| - 1], fieldSize);
      Assoc(g.name + [0], Encode(|g.parameters|, 4), NumbersBytes(g.parameters, fieldSize));
    }
  }

  lemma GateAccepted(input: seq<byte>, fieldSize: nat, g: Gate, rest: seq<byte>)
    ensures ParseGate(input, fieldSize) == Ok((g, rest)) <==>
            GateFits(g, fieldSize) && input == GateSlots(g, fieldSize) + rest
  {
    hide Encode, ParseNumber, ParseName, ParseNumbers, Slots, Power, NumbersFit, Utf8;
    var count, numbers := Encode(|g.parameters|, 4), Slots(g.parameters, fieldSize);
    Assoc(g.name + [0], count + numbers, rest);
    Assoc(count, numbers, rest);
    if ParseGate(input, fieldSize) == Ok((g, rest)) {
      NameThere(input);
      var i0 := ParseName(input).value.1;
      NumberThere(i0, 4);
      var (n, i1) := ParseNumber(i0, 4).value;
      NumbersThere(i1, n, fieldSize);
    }
    if GateFits(g, fieldSize) {
      NameBack(g.name, count + (numbers + rest));
      NumberBack(|g.parameters|, 4, numbers + rest);
      SlotsBack(g.parameters, fieldSize, rest);
    }
  }

  lemma {:induction false} GateListThere(input: seq<byte>, n: nat, fieldSize: nat)
    requires ParseGateList(input, n, fieldSize).Ok?
    ensures var (gs, rest) := ParseGateList(input, n, fieldSize).value;
            && |gs| == n && (forall i :: 0 <= i < |gs| ==> GateFits(gs[i], fieldSize))
            && input == GateListSlots(gs, fieldSize) + rest
  {
    hide ParseGate, GateSlots, GateFits;
    if n > 0 {
      GateListThere(input, n - 1, fieldSize);
      var (gs, middle) := ParseGateList(input, n - 1, fieldSize).value;
      var (g, rest) := ParseGate(middle, fieldSize).value;
      GateAccepted(middle, fieldSize, g, rest);
      assert (gs + [g])[..n - 1] == gs;
      Assoc(GateListSlots(gs, fieldSize), GateSlots(g, fieldSize), rest);
    } else {
      assert GateListSlots([], fieldSize) + input == input;
    }
  }

  lemma {:induction false} GateSlotsBack(gs: seq<Gate>, fieldSize: nat, rest: seq<byte>)
    requires forall i :: 0 <= i < |gs| ==> GateFits(gs[i], fieldSize)
    ensures ParseGateList(GateListSlots(gs, fieldSize) + rest, |gs|, fieldSize) == Ok((gs, rest))
  {
    hide GateSlots, ParseGate, GateFits;
    if gs == [] {
      assert GateListSlots(gs, fieldSize) + rest == rest;
    } else {
      var n := |gs| - 1;
      Assoc(GateListSlots(gs[..n], fieldSize), GateSlots(gs[n], fieldSize), rest);
      GateSlotsBack(gs[..n], fieldSize, GateSlots(gs[n], fieldSize) + rest);
      GateAccepted(GateSlots(gs[n], fieldSize) + rest, fieldSize, gs[n], rest);
      assert gs[..n] + [gs[n]] == gs;
    }
  }

  lemma GatesAccepted(input: seq<byte>, fieldSize: nat, gs: seq<Gate>, rest: seq<byte>)
    ensures ParseGates(input, fieldSize) == Ok((gs, rest)) <==>
            && |gs| < Power(4) && (forall i :: 0 <= i < |gs| ==> GateFits(gs[i], fieldSize))
            && input == GatesSlots(gs, fieldSize) + rest
  {
    hide Encode, ParseNumber, ParseGateList, GateListSlots, GateFits, Power;
    Assoc(Encode(|gs|, 4), GateListSlots(gs, fieldSize), rest);
    if ParseGates(input, fieldSize) == Ok((gs, rest)) {
      NumberThere(input, 4);
      var (n, middle) := ParseNumber(input, 4).value;
      GateListThere(middle, n, fieldSize);
    }
    if |gs| < Power(4) && (forall i :: 0 <= i < |gs| ==> GateFits(gs[i], fieldSize)) {
      NumberBack(|gs|, 4, GateListSlots(gs, fieldSize) + rest);
      GateSlotsBack(gs, fieldSize, rest);
    }
  }

  lemma ApplicationThere(input: seq<byte>)
    requires ParseApplication(input).Ok?
    ensures var (x, rest) := ParseApplication(input).value; ApplicationFits(x) && input == ApplicationBytes(x) + rest
  {
    hide Encode, ParseNumber, ParseNumbers, NumbersBytes, Power, NumbersFit;
    NumberThere(input, 4);
    var (index, i0) := ParseNumber(input, 4).value;
    NumberThere(i0, 4);
    var (n, i1) := ParseNumber(i0, 4).value;
    NumbersThere(i1, n, 8);
    var (signals, rest) := ParseNumbers(i1, n, 8).value;
    Assoc(Encode(index, 4), Encode(n, 4), NumbersBytes(signals, 8) + rest);
    Assoc(Encode(index, 4) + Encode(n, 4), NumbersBytes(signals, 8), rest);
  }

  lemma {:induction false} ApplicationListThere(input: seq<byte>, n: nat)
    requires ParseApplicationList(input, n).Ok?
    ensures var (xs, rest) := ParseApplicationList(input, n).value;
            && |xs| == n && (forall i :: 0 <= i < |xs| ==> ApplicationFits(xs[i]))
            && input == ApplicationListBytes(xs) + rest
  {
    hide ParseApplication, ApplicationBytes, ApplicationFits;
    if n > 0 {
      ApplicationListThere(input, n - 1);
      var (xs, middle) := ParseApplicationList(input, n - 1).value;
      ApplicationThere(middle);
      var (x, rest) := ParseApplication(middle).value;
      assert (xs + [x])[..n - 1] == xs;
      Assoc(ApplicationListBytes(xs), ApplicationBytes(x), rest);
    } else {
      assert ApplicationListBytes([]) + input == input;
    }
  }

  lemma ApplicationsAccepted(input: seq<byte>, xs: seq<Application>, rest: seq<byte>)
    ensures ParseApplications(input) == Ok((xs, rest)) <==>
            && |xs| < Power(4) && (forall i :: 0 <= i < |xs| ==> ApplicationFits(xs[i]))
            && input == ApplicationsBytes(xs) + rest
  {
    hide Encode, ParseNumber, ParseApplicationList, ApplicationListBytes, ApplicationFits, Power;
    if ParseApplications(input) == Ok((xs, rest)) {
      NumberThere(input, 4);
      var (n, middle) := ParseNumber(input, 4).value;
      ApplicationListThere(middle, n);
      Assoc(Encode(n, 4), ApplicationListBytes(xs), rest);
    }
    if |xs| < Power(4) && (forall i :: 0 <= i < |xs| ==> ApplicationFits(xs[i])) { ApplicationsBack(xs, rest); }
  }

  // ---- The file

  /** The section of this kind begins with these bytes. */
  ghost predicate Begins(bytes: seq<byte>, starts: map<nat, nat>, kind: byte, content: seq<byte>) {
    exists tail :: Find(bytes, starts, kind) == Ok(content + tail)
  }

  /** Four sections of fixed layout, and the constraints in one of theirs. */
  ghost predicate SectionsHold(bytes: seq<byte>, starts: map<nat, nat>, data: FileData) {
    && Begins(bytes, starts, 1, HeaderSlots(data.header, data.fieldSize))
    && ConstraintsBegin(bytes, starts, data)
    && Begins(bytes, starts, 3, NumbersBytes(data.signals, 8))
    && (data.gates.Some? <==> data.customGates) && (data.applications.Some? <==> data.customGates)
    && (data.customGates ==>
          && Begins(bytes, starts, 4, GatesSlots(data.gates.value, data.fieldSize))
          && Begins(bytes, starts, 5, ApplicationsBytes(data.applications.value)))
  }

  /** The magic number, the version, a scan that reaches the end, and what stands in the sections. */
  ghost predicate Accepts(bytes: seq<byte>, data: FileData) {
    && ReadPrelude(bytes).Ok?
    && var count := ReadPrelude(bytes).value;
    && Scan(bytes, 12, count, count, map[]).Ok?
    && data.customGates == (count == 5) && HeaderInRange(data.header, data.fieldSize) && BodyFits(data)
    && SectionsHold(bytes, Scan(bytes, 12, count, count, map[]).value, data)
  }

  ghost predicate HeaderParsed(bytes: seq<byte>, starts: map<nat, nat>, data: FileData) {
    && Find(bytes, starts, 1).Ok?
    && exists rest :: ParseHeader(Find(bytes, starts, 1).value) == Ok(((data.fieldSize, data.header), rest))
  }

  ghost predicate ConstraintsParsed(bytes: seq<byte>, starts: map<nat, nat>, data: FileData) {
    && Find(bytes, starts, 2).Ok?
    && exists rest :: ParseConstraints(Find(bytes, starts, 2).value, data.header.numberOfConstraints, data.fieldSize) ==
                      Ok((data.constraints, rest))
  }

  ghost predicate SignalsParsed(bytes: seq<byte>, starts: map<nat, nat>, data: FileData) {
    && Find(bytes, starts, 3).Ok?
    && exists rest :: ParseNumbers(Find(bytes, starts, 3).value, data.header.totalWires, 8) == Ok((data.signals, rest))
  }

  ghost predicate GatesParsed(bytes: seq<byte>, starts: map<nat, nat>, data: FileData) {
    && (data.gates.Some? <==> data.customGates) && (data.applications.Some? <==> data.customGates)
    && (data.customGates ==>
          ReadGates(bytes, starts, data.fieldSize) == Ok((data.gates.value, data.applications.value)))
  }

  lemma SectionsParsed(bytes: seq<byte>, starts: map<nat, nat>, customGates: bool, data: FileData)
    ensures ReadSections(bytes, starts, customGates) == Ok(data) <==>
            && data.customGates == customGates && HeaderParsed(bytes, starts, data) &&
              ConstraintsParsed(bytes, starts, data)
            && SignalsParsed(bytes, starts, data) && GatesParsed(bytes, starts, data)
  {
    hide Find, ParseHeader, ParseConstraints, ParseNumbers, ReadGates;
  }

  lemma HeaderFound(bytes: seq<byte>, starts: map<nat, nat>, data: FileData)
    ensures HeaderInRange(data.header, data.fieldSize) && Begins(bytes, starts, 1,
            HeaderSlots(data.header, data.fieldSize))
            <==> HeaderParsed(bytes, starts, data)
  {
    hide Find, HeaderSlots, HeaderInRange, ParseHeader;
    var found := Find(bytes, starts, 1);
    forall rest | found.Ok?
      ensures ParseHeader(found.value) == Ok(((data.fieldSize, data.header), rest)) <==>
              HeaderInRange(data.header, data.fieldSize) &&
              found.value == HeaderSlots(data.header, data.fieldSize) + rest
    {
      HeaderAccepted(found.value, data.fieldSize, data.header, rest);
    }
  }

  ghost predicate ConstraintsBegin(bytes: seq<byte>, starts: map<nat, nat>, data: FileData) {
    exists cb :: ConstraintsHold(cb, data.constraints, data.fieldSize) && Begins(bytes, starts, 2, cb)
  }

  lemma ConstraintsFound(bytes: seq<byte>, starts: map<nat, nat>, data: FileData)
    ensures data.header.numberOfConstraints == |data.constraints| && ConstraintsBegin(bytes, starts, data)
            <==> ConstraintsParsed(bytes, starts, data)
    ensures ConstraintsParsed(bytes, starts, data) ==>
              forall i :: 0 <= i < |data.constraints| ==> ConstraintFits(data.constraints[i], data.fieldSize)
  {
    hide Find, ConstraintsHold, ConstraintFits, ParseConstraints;
    var found, n, cs := Find(bytes, starts, 2), data.header.numberOfConstraints, data.constraints;
    if ConstraintsParsed(bytes, starts, data) {
      var rest :| ParseConstraints(found.value, n, data.fieldSize) == Ok((cs, rest));
      ConstraintsAccepted(found.value, n, cs, rest, data.fieldSize);
      var cb :| ConstraintsHold(cb, cs, data.fieldSize) && found.value == cb + rest;
      assert Begins(bytes, starts, 2, cb);
    }
    if n == |cs| && ConstraintsBegin(bytes, starts, data) {
      var cb :| ConstraintsHold(cb, cs, data.fieldSize) && Begins(bytes, starts, 2, cb);
      var tail :| found == Ok(cb + tail);
      ConstraintsAccepted(found.value, n, cs, tail, data.fieldSize);
    }
  }

  lemma SignalsFound(bytes: seq<byte>, starts: map<nat, nat>, data: FileData)
    ensures data.header.totalWires == |data.signals| && NumbersFit(data.signals, 8) &&
            Begins(bytes, starts, 3, NumbersBytes(data.signals, 8))
            <==> SignalsParsed(bytes, starts, data)
  {
    hide Find, NumbersBytes, NumbersFit, ParseNumbers;
    var found := Find(bytes, starts, 3);
    forall rest | found.Ok?
      ensures ParseNumbers(found.value, data.header.totalWires, 8) == Ok((data.signals, rest)) <==>
              |data.signals| == data.header.totalWires && NumbersFit(data.signals, 8) &&
                found.value == NumbersBytes(data.signals, 8) + rest
    {
      NumbersAccepted(found.value, data.header.totalWires, data.signals, rest, 8);
    }
  }

  ghost predicate GatesHold(bytes: seq<byte>, starts: map<nat, nat>, gates: seq<Gate>, applications: seq<Application>,
                            fieldSize: nat) {
    && |gates| < Power(4) && (forall i :: 0 <= i < |gates| ==> GateFits(gates[i], fieldSize))
    && |applications| < Power(4) && (forall i :: 0 <= i < |applications| ==> ApplicationFits(applications[i]))
    && Begins(bytes, starts, 4, GatesSlots(gates, fieldSize)) &&
      Begins(bytes, starts, 5, ApplicationsBytes(applications))
  }

  lemma GatesFound(bytes: seq<byte>, starts: map<nat, nat>, gates: seq<Gate>, applications: seq<Application>,
                   fieldSize: nat)
    ensures GatesHold(bytes, starts, gates, applications, fieldSize) <==>
            ReadGates(bytes, starts, fieldSize) == Ok((gates, applications))
  {
    hide Find, GatesSlots, ApplicationsBytes, GateFits, ApplicationFits, ParseGates, ParseApplications, Power;
    var used, applied := Find(bytes, starts, 4), Find(bytes, starts, 5);
    forall rest | used.Ok?
      ensures ParseGates(used.value, fieldSize) == Ok((gates, rest)) <==>
              && |gates| < Power(4) && (forall i :: 0 <= i < |gates| ==> GateFits(gates[i], fieldSize))
              && used.value == GatesSlots(gates, fieldSize) + rest
    {
      GatesAccepted(used.value, fieldSize, gates, rest);
    }
    forall rest | applied.Ok?
      ensures ParseApplications(applied.value) == Ok((applications, rest)) <==>
              && |applications| < Power(4) && (forall i :: 0 <= i < |applications| ==> ApplicationFits(applications[i]))
              && applied.value == ApplicationsBytes(applications) + rest
    {
      ApplicationsAccepted(applied.value, applications, rest);
    }
  }

  lemma SectionsAccepted(bytes: seq<byte>, starts: map<nat, nat>, customGates: bool, data: FileData)
    ensures ReadSections(bytes, starts, customGates) == Ok(data) <==>
            && data.customGates == customGates && HeaderInRange(data.header, data.fieldSize) && BodyFits(data)
            && SectionsHold(bytes, starts, data)
  {
    hide Find, HeaderSlots, NumbersBytes, GatesSlots, ApplicationsBytes, HeaderInRange, NumbersFit, ConstraintFits,
         GateFits,
         ApplicationFits, ConstraintsBegin, Begins, ReadSections, HeaderParsed, ConstraintsParsed, SignalsParsed,
           ReadGates,
         Power;
    SectionsParsed(bytes, starts, customGates, data);
    HeaderFound(bytes, starts, data);
    ConstraintsFound(bytes, starts, data);
    SignalsFound(bytes, starts, data);
    if data.gates.Some? && data.applications.Some? {
      GatesFound(bytes, starts, data.gates.value, data.applications.value, data.fieldSize);
    }
  }

  /** A file is read as the data exactly when its sections hold them. */
  lemma AcceptedExactly(bytes: seq<byte>, data: FileData)
    ensures ReadFile(bytes) == Ok(data) <==> Accepts(bytes, data)
  {
    hide ReadPrelude, Scan, ReadSections, SectionsHold, HeaderInRange, BodyFits;
    if ReadPrelude(bytes).Ok? {
      var count := ReadPrelude(bytes).value;
      var scanned := Scan(bytes, 12, count, count, map[]);
      if scanned.Ok? { SectionsAccepted(bytes, scanned.value, count == 5, data); }
    }
  }
}
