/** The layout of an R1CS file and its parser, as functions of byte strings
    (the block formats of constraint_writers/src/r1cs_writer.rs and r1cs_reader.rs). */
module R1csFormat {
  import opened LinearCombination
  import opened Constraints
  import opened Bytes
  import opened SortedSets

  datatype Header = Header(field: nat, totalWires: nat, publicOutputs: nat, publicInputs: nat, privateInputs: nat,
                           numberOfLabels: nat, numberOfConstraints: nat)

  datatype Gate = Gate(name: seq<byte>, parameters: seq<nat>)

  datatype Application = Application(index: nat, signals: seq<nat>)

  datatype Error =
    | UnexpectedEnd | InvalidSeek | InvalidMagicNumber | InvalidVersion
    | InvalidSectionHeader | InvalidSectionType | SectionNotPresent | InvalidName

  datatype Result<+T> = Ok(value: T) | Err(error: Error) {
    predicate IsFailure() {
      Err?
    }

    function PropagateFailure<U>(): Result<U>
      requires Err?
    {
      Err(error)
    }

    function Extract(): T
      requires Ok?
    {
      value
    }
  }

  /** A parsed value and the input after it. */
  type Parse<T> = Result<(T, seq<byte>)>

  // ---- Layout

  function Magnitude(v: int): nat {
    if v < 0 then -v else v
  }

  /** The factors of a combination in some order of its signals. */
  function TermBytes(m: LC, order: seq<nat>, fieldSize: nat): seq<byte>
    requires forall i :: 0 <= i < |order| ==> order[i] in m
  {
    if order == [] then [] else
      Encode(order[0], 4) + Encode(Magnitude(m[order[0]]), fieldSize) + TermBytes(m, order[1..], fieldSize)
  }

  /** A listing of all signals of a combination, each once. */
  ghost predicate Lists(order: seq<nat>, m: LC) {
    && |order| == |m| && (forall i :: 0 <= i < |order| ==> order[i] in m)
    && (forall i, j :: 0 <= i < j < |order| ==> order[i] != order[j])
  }

  function BlockBytes(m: LC, order: seq<nat>, fieldSize: nat): seq<byte>
    requires forall i :: 0 <= i < |order| ==> order[i] in m
  {
    Encode(|m|, 4) + TermBytes(m, order, fieldSize)
  }

  /** The bytes of a combination for some order of its signals. */
  ghost predicate IsBlock(bytes: seq<byte>, m: LC, fieldSize: nat) {
    exists order :: Lists(order, m) && bytes == BlockBytes(m, order, fieldSize)
  }

  ghost predicate ConstraintBytes(bytes: seq<byte>, c: Constraint, fieldSize: nat) {
    exists one, two, three :: ThreeBlocks(bytes, one, two, three, c, fieldSize)
  }

  ghost predicate ThreeBlocks(bytes: seq<byte>, one: seq<byte>, two: seq<byte>, three: seq<byte>, c: Constraint,
                              fieldSize: nat) {
    && IsBlock(one, c.a, fieldSize) && IsBlock(two, c.b, fieldSize) && IsBlock(three, c.c, fieldSize)
    && bytes == one + two + three
  }

  ghost predicate AllConstraintBytes(bytes: seq<byte>, cs: seq<Constraint>, fieldSize: nat)
    decreases |cs|
  {
    if cs == [] then bytes == [] else
      exists k :: 0 <= k <= |bytes| && FirstConstraintBytes(bytes, k, cs, fieldSize)
  }

  ghost predicate FirstConstraintBytes(bytes: seq<byte>, k: nat, cs: seq<Constraint>, fieldSize: nat)
    requires k <= |bytes| && cs != []
    decreases |cs|, 0
  {
    AllConstraintBytes(bytes[..k], cs[..|cs| - 1], fieldSize) && ConstraintBytes(bytes[k..], cs[|cs| - 1], fieldSize)
  }

  function HeaderBytes(h: Header, fieldSize: nat): seq<byte> {
    Encode(fieldSize, 4) + Encode(h.field, fieldSize) + Encode(h.totalWires, 4) + Encode(h.publicOutputs, 4) +
      Encode(h.publicInputs, 4)
    + Encode(h.privateInputs, 4) + Encode(h.numberOfLabels, 8) + Encode(h.numberOfConstraints, 4)
  }

  /** Numbers of one width, one after the other. */
  function NumbersBytes(ns: seq<nat>, width: nat): seq<byte> {
    if ns == [] then [] else NumbersBytes(ns[..|ns| - 1], width) + Encode(ns[|ns| - 1], width)
  }

  function GateBytes(g: Gate, fieldSize: nat): seq<byte> {
    g.name + [0] + Encode(|g.parameters|, 4) + NumbersBytes(g.parameters, fieldSize)
  }

  function GateListBytes(gs: seq<Gate>, fieldSize: nat): seq<byte> {
    if gs == [] then [] else GateListBytes(gs[..|gs| - 1], fieldSize) + GateBytes(gs[|gs| - 1], fieldSize)
  }

  function GatesBytes(gs: seq<Gate>, fieldSize: nat): seq<byte> {
    Encode(|gs|, 4) + GateListBytes(gs, fieldSize)
  }

  function ApplicationBytes(a: Application): seq<byte> {
    Encode(a.index, 4) + Encode(|a.signals|, 4) + NumbersBytes(a.signals, 8)
  }

  function ApplicationListBytes(xs: seq<Application>): seq<byte> {
    if xs == [] then [] else ApplicationListBytes(xs[..|xs| - 1]) + ApplicationBytes(xs[|xs| - 1])
  }

  function ApplicationsBytes(xs: seq<Application>): seq<byte> {
    Encode(|xs|, 4) + ApplicationListBytes(xs)
  }

  // ---- Parsing

  function Take(input: seq<byte>, n: nat): Parse<seq<byte>> {
    if |input| < n then Err(UnexpectedEnd) else Ok((input[..n], input[n..]))
  }

  function ParseNumber(input: seq<byte>, width: nat): Parse<nat> {
    match Take(input, width)
    case Err(e) => Err(e)
    case Ok((bytes, rest)) => Ok((FromBytes(bytes), rest))
  }

  /** Factors into the map; a repeated signal keeps the last. */
  function ParseTerms(input: seq<byte>, count: nat, fieldSize: nat, m: LC): Parse<LC> {
    if count == 0 then Ok((m, input)) else
      match ParseNumber(input, 4)
      case Err(e) => Err(e)
      case Ok((id, middle)) =>
        match ParseNumber(middle, fieldSize)
        case Err(e) => Err(e)
        case Ok((factor, rest)) => ParseTerms(rest, count - 1, fieldSize, m[id := factor])
  }

  function ParseBlock(input: seq<byte>, fieldSize: nat): Parse<LC> {
    match ParseNumber(input, 4)
    case Err(e) => Err(e)
    case Ok((count, rest)) => ParseTerms(rest, count, fieldSize, map[])
  }

  function ParseConstraint(input: seq<byte>, fieldSize: nat): Parse<Constraint> {
    match ParseBlock(input, fieldSize)
    case Err(e) => Err(e)
    case Ok((a, one)) =>
      match ParseBlock(one, fieldSize)
      case Err(e) => Err(e)
      case Ok((b, two)) =>
        match ParseBlock(two, fieldSize)
        case Err(e) => Err(e)
        case Ok((c, rest)) => Ok((Constraint(a, b, c), rest))
  }

  function ParseConstraints(input: seq<byte>, n: nat, fieldSize: nat): Parse<seq<Constraint>> {
    if n == 0 then Ok(([], input)) else
      match ParseConstraints(input, n - 1, fieldSize)
      case Err(e) => Err(e)
      case Ok((cs, middle)) =>
        match ParseConstraint(middle, fieldSize)
        case Err(e) => Err(e)
        case Ok((c, rest)) => Ok((cs + [c], rest))
  }

  function ParseNumbers(input: seq<byte>, n: nat, width: nat): Parse<seq<nat>> {
    if n == 0 then Ok(([], input)) else
      match ParseNumbers(input, n - 1, width)
      case Err(e) => Err(e)
      case Ok((ns, middle)) =>
        match ParseNumber(middle, width)
        case Err(e) => Err(e)
        case Ok((x, rest)) => Ok((ns + [x], rest))
  }

  /** The header's own field size comes first and gives the width of the field. */
  function ParseHeader(input: seq<byte>): Parse<(nat, Header)> {
    match ParseNumber(input, 4)
    case Err(e) => Err(e)
    case Ok((fieldSize, i0)) =>
      match ParseNumber(i0, fieldSize)
      case Err(e) => Err(e)
      case Ok((field, i1)) =>
        match ParseNumbers(i1, 4, 4)
        case Err(e) => Err(e)
        case Ok((four, i2)) =>
          match ParseNumber(i2, 8)
          case Err(e) => Err(e)
          case Ok((labels, i3)) =>
            match ParseNumber(i3, 4)
            case Err(e) => Err(e)
            case Ok((constraints, rest)) =>
              if |four| != 4 then Err(UnexpectedEnd)
              else Ok(((fieldSize, Header(field, four[0], four[1], four[2], four[3], labels, constraints)), rest))
  }

  /** A name ends at its zero byte. */
  function ParseName(input: seq<byte>): Parse<seq<byte>> {
    if input == [] then Err(UnexpectedEnd)
    else if input[0] == 0 then Ok(([], input[1..]))
    else match ParseName(input[1..])
         case Err(e) => Err(e)
         case Ok((name, rest)) => Ok(([input[0]] + name, rest))
  }

  predicate Continues(b: byte) {
    0x80 <= b < 0xC0
  }

  /** The length of the character at the front, or none: overlong forms, surrogates and what lies beyond
      U+10FFFF are refused (section 3.9 of the Unicode Standard, table 3-7). */
  function CharacterLength(bytes: seq<byte>): (r: nat)
    ensures r <= |bytes|
  {
    if bytes == [] then 0
    else if bytes[0] < 0x80 then 1
    else if |bytes| >= 2 && 0xC2 <= bytes[0] < 0xE0 && Continues(bytes[1]) then 2
    else if |bytes| >= 3 && 0xE0 <= bytes[0] < 0xF0 && Continues(bytes[1]) && Continues(bytes[2])
            && (bytes[0] == 0xE0 ==> bytes[1] >= 0xA0) && (bytes[0] == 0xED ==> bytes[1] < 0xA0) then 3
    else if |bytes| >= 4 && 0xF0 <= bytes[0] < 0xF5 && Continues(bytes[1]) && Continues(bytes[2]) && Continues(bytes[3])
            && (bytes[0] == 0xF0 ==> bytes[1] >= 0x90) && (bytes[0] == 0xF4 ==> bytes[1] < 0x90) then 4
    else 0
  }

  predicate Utf8(bytes: seq<byte>) {
    bytes == [] || (CharacterLength(bytes) > 0 && Utf8(bytes[CharacterLength(bytes)..]))
  }

  /** The source panics on a name that is not UTF-8. */
  function ParseGate(input: seq<byte>, fieldSize: nat): Parse<Gate> {
    match ParseName(input)
    case Err(e) => Err(e)
    case Ok((name, i0)) =>
      if !Utf8(name) then Err(InvalidName) else
        match ParseNumber(i0, 4)
        case Err(e) => Err(e)
        case Ok((n, i1)) =>
          match ParseNumbers(i1, n, fieldSize)
          case Err(e) => Err(e)
          case Ok((parameters, rest)) => Ok((Gate(name, parameters), rest))
  }

  function ParseGateList(input: seq<byte>, n: nat, fieldSize: nat): Parse<seq<Gate>> {
    if n == 0 then Ok(([], input)) else
      match ParseGateList(input, n - 1, fieldSize)
      case Err(e) => Err(e)
      case Ok((gs, middle)) =>
        match ParseGate(middle, fieldSize)
        case Err(e) => Err(e)
        case Ok((g, rest)) => Ok((gs + [g], rest))
  }

  function ParseGates(input: seq<byte>, fieldSize: nat): Parse<seq<Gate>> {
    match ParseNumber(input, 4)
    case Err(e) => Err(e)
    case Ok((n, rest)) => ParseGateList(rest, n, fieldSize)
  }

  function ParseApplication(input: seq<byte>): Parse<Application> {
    match ParseNumber(input, 4)
    case Err(e) => Err(e)
    case Ok((index, i0)) =>
      match ParseNumber(i0, 4)
      case Err(e) => Err(e)
      case Ok((n, i1)) =>
        match ParseNumbers(i1, n, 8)
        case Err(e) => Err(e)
        case Ok((signals, rest)) => Ok((Application(index, signals), rest))
  }

  function ParseApplicationList(input: seq<byte>, n: nat): Parse<seq<Application>> {
    if n == 0 then Ok(([], input)) else
      match ParseApplicationList(input, n - 1)
      case Err(e) => Err(e)
      case Ok((xs, middle)) =>
        match ParseApplication(middle)
        case Err(e) => Err(e)
        case Ok((x, rest)) => Ok((xs + [x], rest))
  }

  function ParseApplications(input: seq<byte>): Parse<seq<Application>> {
    match ParseNumber(input, 4)
    case Err(e) => Err(e)
    case Ok((n, rest)) => ParseApplicationList(rest, n)
  }

  // ---- Lengths

  function TermLength(m: LC, k: nat, fieldSize: nat): nat
    requires k in m
  {
    |Encode(k, 4)| + |Encode(Magnitude(m[k]), fieldSize)|
  }

  ghost function TermsLength(m: LC, keys: set<nat>, fieldSize: nat): nat
    requires keys <= m.Keys
    decreases |keys|
  {
    if keys == {} then 0 else
      var k :| k in keys;
      TermLength(m, k, fieldSize) + TermsLength(m, keys - {k}, fieldSize)
  }

  /** Any term may be counted first. */
  lemma {:induction false} TermsLengthAny(m: LC, keys: set<nat>, k: nat, fieldSize: nat)
    requires k in keys && keys <= m.Keys
    ensures TermsLength(m, keys, fieldSize) == TermLength(m, k, fieldSize) + TermsLength(m, keys - {k}, fieldSize)
    decreases |keys|
  {
    hide TermLength;
    var x :| x in keys &&
             TermsLength(m, keys, fieldSize) == TermLength(m, x, fieldSize) + TermsLength(m, keys - {x}, fieldSize);
    if x != k {
      TermsLengthAny(m, keys - {x}, k, fieldSize);
      TermsLengthAny(m, keys - {k}, x, fieldSize);
      assert keys - {x} - {k} == keys - {k} - {x};
    }
  }

  ghost function BlockLength(m: LC, fieldSize: nat): nat {
    |Encode(|m|, 4)| + TermsLength(m, m.Keys, fieldSize)
  }

  ghost function ConstraintLength(c: Constraint, fieldSize: nat): nat {
    BlockLength(c.a, fieldSize) + BlockLength(c.b, fieldSize) + BlockLength(c.c, fieldSize)
  }

  ghost function ConstraintsLength(cs: seq<Constraint>, fieldSize: nat): nat {
    if cs == [] then 0
    else ConstraintsLength(cs[..|cs| - 1], fieldSize) + ConstraintLength(cs[|cs| - 1], fieldSize)
  }

  // ---- What fits

  ghost predicate LcFits(m: LC, fieldSize: nat) {
    && |m| < Power(4)
    && forall k :: k in m ==> k < Power(4) && 0 <= m[k] < Power(fieldSize)
  }

  ghost predicate ConstraintFits(c: Constraint, fieldSize: nat) {
    LcFits(c.a, fieldSize) && LcFits(c.b, fieldSize) && LcFits(c.c, fieldSize)
  }

  ghost predicate HeaderFits(h: Header, fieldSize: nat) {
    0 < fieldSize && HeaderInRange(h, fieldSize)
  }

  ghost predicate HeaderInRange(h: Header, fieldSize: nat) {
    && fieldSize < Power(4) && h.field < Power(fieldSize) && h.totalWires < Power(4) && h.publicOutputs < Power(4)
    && h.publicInputs < Power(4) && h.privateInputs < Power(4) && h.numberOfLabels < Power(8) &&
      h.numberOfConstraints < Power(4)
  }

  ghost predicate NumbersFit(ns: seq<nat>, width: nat) {
    forall i :: 0 <= i < |ns| ==> ns[i] < Power(width)
  }

  ghost predicate GateFits(g: Gate, fieldSize: nat) {
    && (forall i :: 0 <= i < |g.name| ==> g.name[i] != 0) && Utf8(g.name)
    && |g.parameters| < Power(4) && NumbersFit(g.parameters, fieldSize)
  }

  ghost predicate ApplicationFits(a: Application) {
    a.index < Power(4) && |a.signals| < Power(4) && NumbersFit(a.signals, 8)
  }

  // ---- Round trips of the blocks

  lemma TakeFirst(one: seq<byte>, rest: seq<byte>)
    ensures Take(one + rest, |one|) == Ok((one, rest))
  {
    assert (one + rest)[..|one|] == one && (one + rest)[|one|..] == rest;
  }

  lemma NumberBack(n: nat, width: nat, rest: seq<byte>)
    requires width > 0 && n < Power(width)
    ensures ParseNumber(Encode(n, width) + rest, width) == Ok((n, rest))
  {
    EncodeFits(n, width);
    TakeFirst(Encode(n, width), rest);
  }

  /** The factors still to come, added to the map read so far. */
  function AddTerms(m: LC, order: seq<nat>, acc: LC): LC
    requires forall i :: 0 <= i < |order| ==> order[i] in m
  {
    if order == [] then acc else AddTerms(m, order[1..], acc[order[0] := m[order[0]]])
  }

  lemma Assoc(a: seq<byte>, b: seq<byte>, c: seq<byte>)
    ensures a + b + c == a + (b + c)
  {
  }

  lemma {:induction false} TermsBack(m: LC, order: seq<nat>, fieldSize: nat, acc: LC, rest: seq<byte>)
    requires fieldSize > 0 && LcFits(m, fieldSize) && forall i :: 0 <= i < |order| ==> order[i] in m
    ensures ParseTerms(TermBytes(m, order, fieldSize) + rest, |order|, fieldSize, acc) ==
            Ok((AddTerms(m, order, acc), rest))
  {
    hide Encode, ParseNumber, Power;
    if order == [] {
      assert TermBytes(m, order, fieldSize) + rest == rest;
    } else {
      var k := order[0];
      var id, factor, tail := Encode(k, 4), Encode(Magnitude(m[k]), fieldSize), TermBytes(m, order[1..], fieldSize);
      Assoc(id + factor, tail, rest);
      Assoc(id, factor, tail + rest);
      NumberBack(k, 4, factor + (tail + rest));
      NumberBack(m[k], fieldSize, tail + rest);
      TermsBack(m, order[1..], fieldSize, acc[k := m[k]], rest);
    }
  }

  lemma {:induction false} AddTermsIs(m: LC, order: seq<nat>, acc: LC)
    requires forall i :: 0 <= i < |order| ==> order[i] in m
    ensures AddTerms(m, order, acc).Keys == acc.Keys + Elements(order)
    ensures forall k :: k in AddTerms(m, order, acc) ==>
            AddTerms(m, order, acc)[k] == if k in order then m[k] else acc[k]
    decreases |order|
  {
    if order != [] {
      AddTermsIs(m, order[1..], acc[order[0] := m[order[0]]]);
      assert order == [order[0]] + order[1..];
      assert Elements(order) == {order[0]} + Elements(order[1..]);
    }
  }

  lemma {:induction false} ListedSize(order: seq<nat>)
    requires forall i, j :: 0 <= i < j < |order| ==> order[i] != order[j]
    ensures |Elements(order)| == |order|
  {
    if order != [] {
      var n := |order| - 1;
      ListedSize(order[..n]);
      assert order == order[..n] + [order[n]];
      assert Elements(order) == Elements(order[..n]) + {order[n]};
      assert order[n] !in Elements(order[..n]);
    }
  }

  lemma ListsKeys(order: seq<nat>, m: LC)
    requires Lists(order, m)
    ensures Elements(order) == m.Keys
  {
    ListedSize(order);
    assert Elements(order) <= m.Keys;
    assert |m.Keys| == |m|;
    SameSizeSubset(Elements(order), m.Keys);
  }

  lemma ListsAll(order: seq<nat>, m: LC)
    requires Lists(order, m)
    ensures AddTerms(m, order, map[]) == m
  {
    hide AddTerms;
    AddTermsIs(m, order, map[]);
    ListsKeys(order, m);
    assert AddTerms(m, order, map[]).Keys == m.Keys;
  }

  lemma {:induction false} SameSizeSubset(a: set<nat>, b: set<nat>)
    requires a <= b && |a| == |b|
    ensures a == b
  {
    SubsetSize(b - a, b);
    assert |b - a| == |b| - |a|;
  }

  /** Reading a written block gives the combination back, whatever the order it was written in. */
  lemma BlockBack(m: LC, order: seq<nat>, fieldSize: nat, rest: seq<byte>)
    requires fieldSize > 0 && LcFits(m, fieldSize) && Lists(order, m)
    ensures ParseBlock(BlockBytes(m, order, fieldSize) + rest, fieldSize) == Ok((m, rest))
  {
    hide Encode, ParseNumber, TermBytes, ParseTerms, AddTerms, Power;
    ListsAll(order, m);
    Assoc(Encode(|m|, 4), TermBytes(m, order, fieldSize), rest);
    NumberBack(|m|, 4, TermBytes(m, order, fieldSize) + rest);
    TermsBack(m, order, fieldSize, map[], rest);
  }

  lemma ConstraintBack(bytes: seq<byte>, c: Constraint, fieldSize: nat, rest: seq<byte>)
    requires fieldSize > 0 && ConstraintFits(c, fieldSize) && ConstraintBytes(bytes, c, fieldSize)
    ensures ParseConstraint(bytes + rest, fieldSize) == Ok((c, rest))
  {
    hide IsBlock, ParseBlock, LcFits;
    var one, two, three :| ThreeBlocks(bytes, one, two, three, c, fieldSize);
    Assoc(one + two, three, rest);
    Assoc(one, two, three + rest);
    IsBlockBack(one, c.a, fieldSize, two + (three + rest));
    IsBlockBack(two, c.b, fieldSize, three + rest);
    IsBlockBack(three, c.c, fieldSize, rest);
  }

  lemma IsBlockBack(bytes: seq<byte>, m: LC, fieldSize: nat, rest: seq<byte>)
    requires fieldSize > 0 && LcFits(m, fieldSize) && IsBlock(bytes, m, fieldSize)
    ensures ParseBlock(bytes + rest, fieldSize) == Ok((m, rest))
  {
    hide ParseBlock, BlockBytes, LcFits;
    var order :| Lists(order, m) && bytes == BlockBytes(m, order, fieldSize);
    BlockBack(m, order, fieldSize, rest);
  }

  lemma {:induction false} ConstraintsBack(bytes: seq<byte>, cs: seq<Constraint>, fieldSize: nat, rest: seq<byte>)
    requires fieldSize > 0 && (forall i :: 0 <= i < |cs| ==>
             ConstraintFits(cs[i], fieldSize)) && AllConstraintBytes(bytes, cs, fieldSize)
    ensures ParseConstraints(bytes + rest, |cs|, fieldSize) == Ok((cs, rest))
    decreases |cs|
  {
    hide ConstraintBytes, ParseConstraint, ConstraintFits;
    if cs == [] {
      assert bytes + rest == rest;
    } else {
      var n := |cs| - 1;
      var k :| 0 <= k <= |bytes| && FirstConstraintBytes(bytes, k, cs, fieldSize);
      Assoc(bytes[..k], bytes[k..], rest);
      assert bytes[..k] + bytes[k..] == bytes;
      ConstraintsBack(bytes[..k], cs[..n], fieldSize, bytes[k..] + rest);
      ConstraintBack(bytes[k..], cs[n], fieldSize, rest);
      assert cs[..n] + [cs[n]] == cs;
    }
  }

  lemma {:induction false} NumbersBack(ns: seq<nat>, width: nat, rest: seq<byte>)
    requires width > 0 && NumbersFit(ns, width)
    ensures ParseNumbers(NumbersBytes(ns, width) + rest, |ns|, width) == Ok((ns, rest))
  {
    hide Encode, ParseNumber, Power;
    if ns == [] {
      assert NumbersBytes(ns, width) + rest == rest;
    } else {
      var n := |ns| - 1;
      Assoc(NumbersBytes(ns[..n], width), Encode(ns[n], width), rest);
      NumbersBack(ns[..n], width, Encode(ns[n], width) + rest);
      NumberBack(ns[n], width, rest);
      assert ns[..n] + [ns[n]] == ns;
    }
  }

  lemma {:induction false} NameBack(name: seq<byte>, rest: seq<byte>)
    requires forall i :: 0 <= i < |name| ==> name[i] != 0
    ensures ParseName(name + [0] + rest) == Ok((name, rest))
  {
    if name == [] {
      assert (name + [0] + rest)[1..] == rest;
    } else {
      NameBack(name[1..], rest);
      assert (name + [0] + rest)[1..] == name[1..] + [0] + rest;
      assert [name[0]] + name[1..] == name;
    }
  }

  lemma GateBack(g: Gate, fieldSize: nat, rest: seq<byte>)
    requires fieldSize > 0 && GateFits(g, fieldSize)
    ensures ParseGate(GateBytes(g, fieldSize) + rest, fieldSize) == Ok((g, rest))
  {
    hide Encode, ParseNumber, NumbersBytes, ParseNumbers, ParseName, Power;
    var count, numbers := Encode(|g.parameters|, 4), NumbersBytes(g.parameters, fieldSize);
    Assoc(g.name + [0] + count, numbers, rest);
    Assoc(g.name + [0], count, numbers + rest);
    NameBack(g.name, count + (numbers + rest));
    NumberBack(|g.parameters|, 4, numbers + rest);
    NumbersBack(g.parameters, fieldSize, rest);
  }

  lemma {:induction false} GateListBack(gs: seq<Gate>, fieldSize: nat, rest: seq<byte>)
    requires fieldSize > 0 && forall i :: 0 <= i < |gs| ==> GateFits(gs[i], fieldSize)
    ensures ParseGateList(GateListBytes(gs, fieldSize) + rest, |gs|, fieldSize) == Ok((gs, rest))
  {
    hide GateBytes, ParseGate, GateFits;
    if gs == [] {
      assert GateListBytes(gs, fieldSize) + rest == rest;
    } else {
      var n := |gs| - 1;
      Assoc(GateListBytes(gs[..n], fieldSize), GateBytes(gs[n], fieldSize), rest);
      GateListBack(gs[..n], fieldSize, GateBytes(gs[n], fieldSize) + rest);
      GateBack(gs[n], fieldSize, rest);
      assert gs[..n] + [gs[n]] == gs;
    }
  }

  lemma GatesBack(gs: seq<Gate>, fieldSize: nat, rest: seq<byte>)
    requires fieldSize > 0 && |gs| < Power(4) && forall i :: 0 <= i < |gs| ==> GateFits(gs[i], fieldSize)
    ensures ParseGates(GatesBytes(gs, fieldSize) + rest, fieldSize) == Ok((gs, rest))
  {
    hide Encode, ParseNumber, GateListBytes, ParseGateList, GateFits, Power;
    Assoc(Encode(|gs|, 4), GateListBytes(gs, fieldSize), rest);
    NumberBack(|gs|, 4, GateListBytes(gs, fieldSize) + rest);
    GateListBack(gs, fieldSize, rest);
  }

  lemma ApplicationBack(a: Application, rest: seq<byte>)
    requires ApplicationFits(a)
    ensures ParseApplication(ApplicationBytes(a) + rest) == Ok((a, rest))
  {
    hide Encode, ParseNumber, NumbersBytes, ParseNumbers, Power;
    var index, count, numbers := Encode(a.index, 4), Encode(|a.signals|, 4), NumbersBytes(a.signals, 8);
    Assoc(index + count, numbers, rest);
    Assoc(index, count, numbers + rest);
    NumberBack(a.index, 4, count + (numbers + rest));
    NumberBack(|a.signals|, 4, numbers + rest);
    NumbersBack(a.signals, 8, rest);
  }

  lemma {:induction false} ApplicationListBack(xs: seq<Application>, rest: seq<byte>)
    requires forall i :: 0 <= i < |xs| ==> ApplicationFits(xs[i])
    ensures ParseApplicationList(ApplicationListBytes(xs) + rest, |xs|) == Ok((xs, rest))
  {
    hide ApplicationBytes, ParseApplication, ApplicationFits;
    if xs == [] {
      assert ApplicationListBytes(xs) + rest == rest;
    } else {
      var n := |xs| - 1;
      Assoc(ApplicationListBytes(xs[..n]), ApplicationBytes(xs[n]), rest);
      ApplicationListBack(xs[..n], ApplicationBytes(xs[n]) + rest);
      ApplicationBack(xs[n], rest);
      assert xs[..n] + [xs[n]] == xs;
    }
  }

  lemma ApplicationsBack(xs: seq<Application>, rest: seq<byte>)
    requires |xs| < Power(4) && forall i :: 0 <= i < |xs| ==> ApplicationFits(xs[i])
    ensures ParseApplications(ApplicationsBytes(xs) + rest) == Ok((xs, rest))
  {
    hide Encode, ParseNumber, ApplicationListBytes, ParseApplicationList, ApplicationFits, Power;
    Assoc(Encode(|xs|, 4), ApplicationListBytes(xs), rest);
    NumberBack(|xs|, 4, ApplicationListBytes(xs) + rest);
    ApplicationListBack(xs, rest);
  }

  lemma HeaderBack(h: Header, fieldSize: nat, rest: seq<byte>)
    requires HeaderFits(h, fieldSize)
    ensures ParseHeader(HeaderBytes(h, fieldSize) + rest) == Ok(((fieldSize, h), rest))
  {
    hide Encode, ParseNumber, ParseNumbers, NumbersBytes, Power;
    var four := [h.totalWires, h.publicOutputs, h.publicInputs, h.privateInputs];
    var size, field, middle, labels, count := Encode(fieldSize, 4), Encode(h.field, fieldSize), NumbersBytes(four, 4),
      Encode(h.numberOfLabels, 8), Encode(h.numberOfConstraints, 4);
    FourNumbers(h.totalWires, h.publicOutputs, h.publicInputs, h.privateInputs);
    var tail := middle + (labels + (count + rest));
    HeaderParts(h, fieldSize, middle, rest);
    NumberBack(fieldSize, 4, field + tail);
    NumberBack(h.field, fieldSize, tail);
    NumbersBack(four, 4, labels + (count + rest));
    NumberBack(h.numberOfLabels, 8, count + rest);
    NumberBack(h.numberOfConstraints, 4, rest);
  }

  lemma FourNumbers(a: nat, b: nat, c: nat, d: nat)
    ensures NumbersBytes([a, b, c, d], 4) == Encode(a, 4) + Encode(b, 4) + Encode(c, 4) + Encode(d, 4)
  {
    hide Encode;
    assert [a, b, c, d][..3] == [a, b, c] && [a, b, c][..2] == [a, b] && [a, b][..1] == [a] && [a][..0] == [];
    assert NumbersBytes([a], 4) == [] + Encode(a, 4);
    assert NumbersBytes([a, b], 4) == NumbersBytes([a], 4) + Encode(b, 4);
    assert NumbersBytes([a, b, c], 4) == NumbersBytes([a, b], 4) + Encode(c, 4);
  }

  lemma HeaderParts(h: Header, fieldSize: nat, middle: seq<byte>, rest: seq<byte>)
    requires middle == Encode(h.totalWires, 4) + Encode(h.publicOutputs, 4) + Encode(h.publicInputs, 4) +
             Encode(h.privateInputs, 4)
    ensures HeaderBytes(h, fieldSize) + rest ==
            Encode(fieldSize, 4) + (Encode(h.field, fieldSize) +
              (middle + (Encode(h.numberOfLabels, 8) + (Encode(h.numberOfConstraints, 4) + rest))))
  {
    hide Encode;
  }

  // ---- Every layout has one length

  lemma {:induction false} TermBytesLength(m: LC, order: seq<nat>, fieldSize: nat)
    requires (forall i :: 0 <= i < |order| ==> order[i] in m) && forall i, j :: 0 <= i < j < |order| ==>
             order[i] != order[j]
    ensures Elements(order) <= m.Keys
    ensures |TermBytes(m, order, fieldSize)| == TermsLength(m, Elements(order), fieldSize)
  {
    hide Encode;
    if order != [] {
      var k, rest := order[0], order[1..];
      TermBytesLength(m, rest, fieldSize);
      assert order == [k] + rest;
      assert Elements(order) - {k} == Elements(rest);
      TermsLengthAny(m, Elements(order), k, fieldSize);
    } else {
      assert Elements(order) == {};
    }
  }

  lemma BlockBytesLength(m: LC, bytes: seq<byte>, fieldSize: nat)
    requires IsBlock(bytes, m, fieldSize)
    ensures |bytes| == BlockLength(m, fieldSize)
  {
    hide Encode, TermBytes, TermsLength, Elements;
    var order :| Lists(order, m) && bytes == BlockBytes(m, order, fieldSize);
    ListsKeys(order, m);
    TermBytesLength(m, order, fieldSize);
  }

  lemma ConstraintBytesLength(c: Constraint, bytes: seq<byte>, fieldSize: nat)
    requires ConstraintBytes(bytes, c, fieldSize)
    ensures |bytes| == ConstraintLength(c, fieldSize)
  {
    hide IsBlock, BlockLength;
    var one, two, three :| ThreeBlocks(bytes, one, two, three, c, fieldSize);
    BlockBytesLength(c.a, one, fieldSize);
    BlockBytesLength(c.b, two, fieldSize);
    BlockBytesLength(c.c, three, fieldSize);
  }

  lemma {:induction false} AllConstraintsLength(cs: seq<Constraint>, bytes: seq<byte>, fieldSize: nat)
    requires AllConstraintBytes(bytes, cs, fieldSize)
    ensures |bytes| == ConstraintsLength(cs, fieldSize)
    decreases |cs|
  {
    hide ConstraintBytes, ConstraintLength;
    if cs != [] {
      var k :| 0 <= k <= |bytes| && FirstConstraintBytes(bytes, k, cs, fieldSize);
      AllConstraintsLength(cs[..|cs| - 1], bytes[..k], fieldSize);
      ConstraintBytesLength(cs[|cs| - 1], bytes[k..], fieldSize);
    }
  }

  // ---- The bytes of a prefix are no longer

  lemma {:induction false} NumbersGrow(ns: seq<nat>, n: nat, width: nat)
    requires n <= |ns|
    ensures |NumbersBytes(ns[..n], width)| <= |NumbersBytes(ns, width)|
    decreases |ns|
  {
    hide Encode;
    if n < |ns| {
      NumbersGrow(ns[..|ns| - 1], n, width);
      assert ns[..|ns| - 1][..n] == ns[..n];
    } else {
      assert ns[..n] == ns;
    }
  }

  lemma {:induction false} GatesGrow(gs: seq<Gate>, n: nat, fieldSize: nat)
    requires n <= |gs|
    ensures |GateListBytes(gs[..n], fieldSize)| <= |GateListBytes(gs, fieldSize)|
    decreases |gs|
  {
    hide GateBytes;
    if n < |gs| {
      GatesGrow(gs[..|gs| - 1], n, fieldSize);
      assert gs[..|gs| - 1][..n] == gs[..n];
    } else {
      assert gs[..n] == gs;
    }
  }

  lemma {:induction false} ApplicationsGrow(xs: seq<Application>, n: nat)
    requires n <= |xs|
    ensures |ApplicationListBytes(xs[..n])| <= |ApplicationListBytes(xs)|
    decreases |xs|
  {
    hide ApplicationBytes;
    if n < |xs| {
      ApplicationsGrow(xs[..|xs| - 1], n);
      assert xs[..|xs| - 1][..n] == xs[..n];
    } else {
      assert xs[..n] == xs;
    }
  }

  lemma {:induction false} ConstraintsGrow(cs: seq<Constraint>, n: nat, fieldSize: nat)
    requires n <= |cs|
    ensures ConstraintsLength(cs[..n], fieldSize) <= ConstraintsLength(cs, fieldSize)
    decreases |cs|
  {
    hide ConstraintLength;
    if n < |cs| {
      ConstraintsGrow(cs[..|cs| - 1], n, fieldSize);
      assert cs[..|cs| - 1][..n] == cs[..n];
    } else {
      assert cs[..n] == cs;
    }
  }
}
