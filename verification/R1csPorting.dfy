/** The export of a simplified circuit to an R1CS file (constraint_list/src/r1cs_porting.rs). */
module R1csPorting {
  import opened Field
  import opened Constraints
  import opened NonLinear
  import opened Witness
  import opened Bytes
  import opened R1csFormat
  import opened R1csFile
  import opened R1csWriter
  import opened CustomGates

  // ---- The field size

  function Bits(n: nat): nat {
    if n == 0 then 0 else 1 + Bits(n / 2)
  }

  function FieldSize(field: nat): nat {
    if Bits(field) % 64 == 0 then Bits(field) / 8 else (Bits(field) / 64 + 1) * 8
  }

  function PowerOfTwo(n: nat): nat {
    if n == 0 then 1 else 2 * PowerOfTwo(n - 1)
  }

  lemma {:induction false} BelowPower(n: nat, k: nat)
    requires Bits(n) <= k
    ensures n < PowerOfTwo(k)
  {
    if n > 0 { BelowPower(n / 2, k - 1); }
    else { PowerPositive(k); }
  }

  lemma {:induction false} PowerPositive(k: nat)
    ensures PowerOfTwo(k) > 0
  {
    if k > 0 { PowerPositive(k - 1); }
  }

  lemma {:induction false} PowerBits(w: nat)
    ensures Power(w) == PowerOfTwo(8 * w)
  {
    if w > 0 {
      PowerBits(w - 1);
      var n := 8 * w - 8;
      assert PowerOfTwo(n + 2) == 2 * PowerOfTwo(n + 1) == 4 * PowerOfTwo(n);
      assert PowerOfTwo(n + 4) == 2 * PowerOfTwo(n + 3) == 4 * PowerOfTwo(n + 2);
      assert PowerOfTwo(n + 6) == 2 * PowerOfTwo(n + 5) == 4 * PowerOfTwo(n + 4);
      assert PowerOfTwo(n + 8) == 2 * PowerOfTwo(n + 7) == 4 * PowerOfTwo(n + 6);
    }
  }

  lemma {:induction false} AbovePower(n: nat)
    requires n > 0
    ensures Bits(n) > 0 && PowerOfTwo(Bits(n) - 1) <= n
  {
    if n > 1 { AbovePower(n / 2); }
  }

  lemma {:induction false} PowerGrows(k: nat, m: nat)
    requires k <= m
    ensures PowerOfTwo(k) <= PowerOfTwo(m)
  {
    if k < m { PowerGrows(k, m - 1); }
  }

  lemma RoundUp(bits: nat)
    requires bits > 0
    ensures var size := if bits % 64 == 0 then bits / 8 else (bits / 64 + 1) * 8;
            size > 0 && size % 8 == 0 && bits <= 8 * size && 8 * (size - 8) < bits
  {
    var q, r := bits / 64, bits % 64;
    assert bits == 64 * q + r;
    if r == 0 { assert bits / 8 == 8 * q; }
  }

  lemma Multiples(size: nat, width: nat)
    requires size % 8 == 0 && width % 8 == 0 && width < size
    ensures width <= size - 8
  {
  }

  lemma WidthHolds(n: nat, width: nat)
    requires n > 0
    ensures n < Power(width) <==> Bits(n) <= 8 * width
  {
    hide Bits, PowerOfTwo, Power;
    PowerBits(width);
    AbovePower(n);
    if Bits(n) <= 8 * width { BelowPower(n, 8 * width); } else { PowerGrows(8 * width, Bits(n) - 1); }
  }

  /** The field size is a multiple of eight, and the multiples of eight whose bytes hold the field, and so every
      canonical coefficient, are exactly those from the field size on. */
  lemma FieldFits(field: nat)
    requires field > 0
    ensures FieldSize(field) > 0 && FieldSize(field) % 8 == 0
    ensures forall width: nat :: width % 8 == 0 ==> (field < Power(width) <==> FieldSize(field) <= width)
  {
    AbovePower(field);
    RoundUp(Bits(field));
    var size := FieldSize(field);
    hide PowerOfTwo, Power, Bits, FieldSize;
    forall width: nat | width % 8 == 0
      ensures field < Power(width) <==> size <= width
    {
      WidthHolds(field, width);
      if width < size { Multiples(size, width); }
    }
  }

  // ---- The export

  datatype ConstraintList = ConstraintList(field: nat, encoding: DAGEncoding, noPublicOutputs: nat,
                                           noPublicInputs: nat, noPrivateInputs: nat, noLabels: nat,
                                           constraints: seq<Constraint>, signalMap: SignalMap)

  ghost predicate Exportable(list: ConstraintList) {
    && Injective(list.signalMap) && Numbering(list.signalMap)
    && forall i :: 0 <= i < |list.constraints| ==> Signals(list.constraints[i]) <= list.signalMap.Keys
  }

  /** The constraints over wire numbers. */
  ghost predicate Renumbers(renamed: seq<Constraint>, cs: seq<Constraint>, names: SignalMap)
    requires Injective(names)
  {
    |renamed| == |cs| && forall i :: 0 <= i < |cs| ==> ApplyCorrespondence(cs[i], names) == Some(renamed[i])
  }

  /** The wires in the order of their numbers. */
  ghost predicate InWireOrder(wires: seq<nat>, names: SignalMap) {
    && |wires| == |names|
    && forall i :: 0 <= i < |wires| ==> wires[i] in names && names[wires[i]] == i
  }

  /** What the file is to hold. */
  ghost predicate Ported(data: FileData, list: ConstraintList, customGates: bool)
    requires Injective(list.signalMap) && (customGates ==> WellFormedDag(list.encoding))
  {
    && data.fieldSize == FieldSize(list.field)
    && data.header == Header(list.field, |list.signalMap|, list.noPublicOutputs, list.noPublicInputs,
      list.noPrivateInputs, list.noLabels, |list.constraints|)
    && Renumbers(data.constraints, list.constraints, list.signalMap) && InWireOrder(data.signals, list.signalMap)
    && data.customGates == customGates
    && data.gates == (if customGates then Some(Usages(list.encoding.nodes)) else None)
    && data.applications == if customGates then Some(ApplicationsOf(list.encoding, list.signalMap)) else None
  }

  /** There is always one such file. */
  lemma PortExists(list: ConstraintList, customGates: bool) returns (data: FileData)
    requires Exportable(list) && (customGates ==> WellFormedDag(list.encoding))
    ensures Ported(data, list, customGates)
  {
    hide Injective, Numbering, ApplyCorrespondence, Signals, WellFormedDag, Usages, ApplicationsOf;
    var renamed := RenamedAll(list, |list.constraints|);
    assert list.constraints[..|list.constraints|] == list.constraints;
    var wires := WiresExist(list.signalMap, |list.signalMap|);
    var header := Header(list.field, |list.signalMap|, list.noPublicOutputs, list.noPublicInputs, list.noPrivateInputs,
      list.noLabels, |list.constraints|);
    data := FileData(FieldSize(list.field), header, renamed, wires, customGates,
      if customGates then Some(Usages(list.encoding.nodes)) else None,
      if customGates then Some(ApplicationsOf(list.encoding, list.signalMap)) else None);
  }

  lemma WiresUnique(one: seq<nat>, two: seq<nat>, names: SignalMap)
    requires Injective(names) && InWireOrder(one, names) && InWireOrder(two, names)
    ensures one == two
  {
    forall i | 0 <= i < |one|
      ensures one[i] == two[i]
    {
      assert names[one[i]] == names[two[i]];
    }
  }

  lemma {:induction false} WiresExist(names: SignalMap, n: nat) returns (wires: seq<nat>)
    requires Numbering(names) && n <= |names|
    ensures |wires| == n && forall i :: 0 <= i < n ==> wires[i] in names && names[wires[i]] == i
  {
    if n == 0 {
      wires := [];
    } else {
      wires := WiresExist(names, n - 1);
      assert Taken(names, n - 1);
      var x :| x in names && names[x] == n - 1;
      wires := wires + [x];
    }
  }

  lemma {:induction false} RenamedAll(list: ConstraintList, n: nat) returns (renamed: seq<Constraint>)
    requires Exportable(list) && n <= |list.constraints|
    ensures Renumbers(renamed, list.constraints[..n], list.signalMap)
  {
    hide Injective, Numbering, ApplyCorrespondence, Signals;
    if n == 0 {
      renamed := [];
    } else {
      renamed := RenamedAll(list, n - 1);
      CorrespondenceMeaning(list.constraints[n - 1], list.signalMap, _ => 0, 1);
      renamed := renamed + [ApplyCorrespondence(list.constraints[n - 1], list.signalMap).value];
    }
  }

  /** The constraints section: every stored constraint, over wire numbers. */
  method WriteConstraints(writer: R1csWriter, list: ConstraintList, ghost renamed: seq<Constraint>)
    returns (status: Status, written: nat)
    requires writer.AtEnd() && Exportable(list) && Renumbers(renamed, list.constraints, list.signalMap)
    modifies writer
    ensures status.Success? <==>
            |old(writer.file)| + 12 + ConstraintsLength(renamed, writer.fieldSize) <= writer.capacity
    ensures status.Success? ==> written == |list.constraints|
    ensures status.Success? ==> writer.AtEnd() && AllConstraintBytes(writer.body, renamed, writer.fieldSize)
    ensures status.Success? ==> writer.file == old(writer.file) + SectionBytes(Section(2, writer.body))
  {
    hide Injective, Numbering, ApplyCorrespondence, ConstraintBytes, Signals, SectionBytes, ConstraintLength;
    written := 0;
    :- writer.StartSection(2);
    while written < |list.constraints|
      invariant written <= |list.constraints|
      invariant writer.InSection() && writer.before == old(writer.file) && writer.kind == 2
      invariant AllConstraintBytes(writer.body, renamed[..written], writer.fieldSize)
    {
      assert ApplyCorrespondence(list.constraints[written], list.signalMap) == Some(renamed[written]);
      var c := ApplyCorrespondence(list.constraints[written], list.signalMap).value;
      ghost var body := writer.body;
      Room(renamed, written, body, writer.fieldSize);
      :- writer.WriteConstraint(c);
      OneMore(body, renamed[..written], writer.body[|body|..], c, writer.fieldSize);
      assert body + writer.body[|body|..] == writer.body;
      assert renamed[..written + 1] == renamed[..written] + [c];
      written := written + 1;
    }
    assert renamed[..written] == renamed;
    AllConstraintsLength(renamed, writer.body, writer.fieldSize);
    status := writer.EndSection();
  }

  /** What has been written and the next constraint take no more than all. */
  lemma Room(cs: seq<Constraint>, n: nat, body: seq<byte>, fieldSize: nat)
    requires n < |cs| && AllConstraintBytes(body, cs[..n], fieldSize)
    ensures |body| + ConstraintLength(cs[n], fieldSize) <= ConstraintsLength(cs, fieldSize)
  {
    hide ConstraintLength, AllConstraintBytes;
    AllConstraintsLength(cs[..n], body, fieldSize);
    assert cs[..n + 1][..n] == cs[..n];
    ConstraintsGrow(cs, n + 1, fieldSize);
  }

  lemma OneMore(body: seq<byte>, cs: seq<Constraint>, bytes: seq<byte>, c: Constraint, fieldSize: nat)
    requires AllConstraintBytes(body, cs, fieldSize) && ConstraintBytes(bytes, c, fieldSize)
    ensures AllConstraintBytes(body + bytes, cs + [c], fieldSize)
  {
    var all, more := body + bytes, cs + [c];
    assert all[..|body|] == body && all[|body|..] == bytes && more[..|more| - 1] == cs;
    assert FirstConstraintBytes(all, |body|, more, fieldSize);
  }

  method WriteHeaderSection(writer: R1csWriter, header: Header) returns (status: Status)
    requires writer.AtEnd()
    modifies writer
    ensures status.Success? <==> |old(writer.file)| + 12 + |HeaderBytes(header, writer.fieldSize)| <= writer.capacity
    ensures status.Success? ==>
              writer.AtEnd() && writer.file == old(writer.file) +
                SectionBytes(Section(1, HeaderBytes(header, writer.fieldSize)))
  {
    hide HeaderBytes, SectionBytes;
    :- writer.StartSection(1);
    :- writer.WriteHeader(header);
    assert writer.body == HeaderBytes(header, writer.fieldSize);
    status := writer.EndSection();
  }

  method WriteSignals(writer: R1csWriter, signals: seq<nat>) returns (status: Status)
    requires writer.AtEnd()
    modifies writer
    ensures status.Success? <==> |old(writer.file)| + 12 + |NumbersBytes(signals, 8)| <= writer.capacity
    ensures status.Success? ==>
              writer.AtEnd() && writer.file == old(writer.file) + SectionBytes(Section(3, NumbersBytes(signals, 8)))
  {
    hide NumbersBytes, SectionBytes;
    :- writer.StartSection(3);
    :- writer.WriteNumbers(signals, 8);
    assert writer.body == NumbersBytes(signals, 8);
    status := writer.EndSection();
  }

  method WriteGates(writer: R1csWriter, gates: seq<Gate>) returns (status: Status)
    requires writer.AtEnd()
    modifies writer
    ensures status.Success? <==> |old(writer.file)| + 12 + |GatesBytes(gates, writer.fieldSize)| <= writer.capacity
    ensures status.Success? ==>
              writer.AtEnd() && writer.file == old(writer.file) +
                SectionBytes(Section(4, GatesBytes(gates, writer.fieldSize)))
  {
    hide GatesBytes, SectionBytes;
    :- writer.StartSection(4);
    :- writer.WriteCustomGatesUsages(gates);
    assert writer.body == GatesBytes(gates, writer.fieldSize);
    status := writer.EndSection();
  }

  method WriteApplications(writer: R1csWriter, applications: seq<Application>) returns (status: Status)
    requires writer.AtEnd()
    modifies writer
    ensures status.Success? <==> |old(writer.file)| + 12 + |ApplicationsBytes(applications)| <= writer.capacity
    ensures status.Success? ==>
              writer.AtEnd() && writer.file == old(writer.file) +
                SectionBytes(Section(5, ApplicationsBytes(applications)))
  {
    hide ApplicationsBytes, SectionBytes;
    :- writer.StartSection(5);
    :- writer.WriteCustomGatesApplications(applications);
    assert writer.body == ApplicationsBytes(applications);
    status := writer.EndSection();
  }

  /** The whole file: constraints, header, signals and, when there are custom gates, their two sections. It is
      written exactly when it fits the device. */
  method PortR1cs(list: ConstraintList, customGates: bool, capacity: nat)
    returns (status: Status, bytes: seq<byte>, ghost data: FileData)
    requires Exportable(list) && capacity < SIGNED_LIMIT
    requires customGates ==> GatesExportable(list.encoding, list.signalMap)
    ensures Ported(data, list, customGates)
    ensures status.Success? <==> FileLength(data) <= capacity
    ensures status.Success? ==> Written(bytes, data) && |bytes| <= capacity
    ensures status.Success? && DataFits(data) ==> ReadFile(bytes) == Ok(data)
  {
    hide Numbering, AllConstraintBytes, HeaderBytes, NumbersBytes, GatesBytes, ApplicationsBytes, SectionBytes,
         DataFits, ReadFile, Renumbers, Prelude, FileBytes, Sections, ConstraintsLength, Usages, ApplicationsOf,
         NamesCut, WellFormedDag, FieldSize, AllNumbered, Injective;
    bytes := [];
    data := PortExists(list, customGates);
    var fieldSize := FieldSize(list.field);
    var writer := new R1csWriter(fieldSize, capacity);
    var count: byte := if customGates then 5 else 3;
    PreludeRead(count, []);
    :- writer.InitializeFile(count);
    var written :- WriteConstraints(writer, list, data.constraints);
    ghost var cb := writer.body;
    AllConstraintsLength(data.constraints, cb, fieldSize);
    SectionLength(Section(2, cb), capacity);
    var header := Header(list.field, |list.signalMap|, list.noPublicOutputs, list.noPublicInputs, list.noPrivateInputs,
      list.noLabels, written);
    :- WriteHeaderSection(writer, header);
    SectionLength(Section(1, HeaderBytes(header, fieldSize)), capacity);
    var wires := WitnessOf(list);
    WiresUnique(wires, data.signals, list.signalMap);
    :- WriteSignals(writer, wires);
    SectionLength(Section(3, NumbersBytes(wires, 8)), capacity);
    if customGates {
      var gates, applications := CollectGates(list.encoding, list.signalMap);
      :- WriteGates(writer, gates);
      SectionLength(Section(4, GatesBytes(gates, fieldSize)), capacity);
      :- WriteApplications(writer, applications);
    }
    bytes := writer.file;
    status := Success;
    FileOf(data, cb);
    assert WrittenWith(bytes, data, cb);
    WrittenLength(bytes, data);
    if DataFits(data) { RoundTrip(bytes, data); }
  }

  method WitnessOf(list: ConstraintList) returns (wires: seq<nat>)
    requires Exportable(list)
    ensures InWireOrder(wires, list.signalMap)
  {
    hide Injective;
    var vector := GetWitnessAsVec(list.signalMap);
    wires := vector[..];
  }
}
