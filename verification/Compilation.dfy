/** From a template graph to an R1CS file: mapping, simplification and export in a row
    (dag/src/lib.rs map_to_list and ConstraintExporter, constraint_list/src/lib.rs simplify_constraints). */
module Compilation {
  import opened Field
  import opened LinearCombination
  import opened Constraints
  import opened Elimination
  import opened ConstantEqualities
  import opened NonLinear
  import opened Solutions
  import opened Witness
  import opened EarlyFrames
  import opened IdleSignals
  import opened Simplification
  import opened SmallCircuits
  import opened Dag
  import opened TreeWalk
  import opened MapToList
  import opened CircuitMap
  import opened GraphRuns
  import opened RunInterfaces
  import opened InstancePaths
  import opened Bytes
  import opened R1csFormat
  import opened R1csFile
  import opened R1csWriter
  import opened CustomGates
  import opened GateInstances
  import opened R1csPorting

  /** The constraint list the simplifier hands over. */
  function ListOf(smp: Simplifier, constraints: seq<Constraint>, signalMap: SignalMap): ConstraintList
    requires smp.field > 0
  {
    ConstraintList(smp.field, smp.encoding, smp.noPublicOutputs, smp.noPublicInputs, smp.noPrivateInputs, smp.maxSignal,
      constraints, signalMap)
  }

  lemma WiredExportable(smp: Simplifier, r: Outcome)
    requires smp.field > 0 && Wired(smp, r)
    ensures Exportable(ListOf(smp, r.constraints, r.signalMap))
  {
    hide Triangular, Froms, Private, Signals, Numbering, Injective;
    NumberingIsInjective(r.signalMap);
    forall i | 0 <= i < |r.constraints|
      ensures Signals(r.constraints[i]) <= r.signalMap.Keys
    {
      assert r.constraints[i] in r.constraints;
    }
  }

  /** The wire values are the signal values at the numbers of the signals. */
  ghost predicate Reads(w: Assignment, s: Assignment, names: SignalMap) {
    forall x :: x in names ==> w(names[x]) == s(x)
  }

  /** The exported constraints say of the wires what the stored constraints say of the signals. */
  lemma PortedMeaning(renamed: seq<Constraint>, list: ConstraintList, w: Assignment, s: Assignment, p: int)
    requires Exportable(list) && Renumbers(renamed, list.constraints, list.signalMap) && Reads(w, s, list.signalMap)
    ensures AllSat(renamed, w, p) <==> AllSat(list.constraints, s, p)
  {
    var names := list.signalMap;
    forall i | 0 <= i < |renamed|
      ensures Sat(renamed[i], w, p) <==> Sat(list.constraints[i], s, p)
    {
      hide Injective, Numbering, Sat, ApplyCorrespondence;
      CorrespondenceMeaning(list.constraints[i], names, w, p);
      assert Signals(list.constraints[i]) <= names.Keys;
      SatAgree(list.constraints[i], Through(w, names), s, p);
    }
    hide Sat, Renumbers;
    assert |renamed| == |list.constraints|;
  }

  /** The exported constraints are satisfied by exactly the wire values that some solution of the circuit in
      force gives. */
  lemma FileMeaning(smp: Simplifier, r: Outcome, renamed: seq<Constraint>, w: Assignment)
    requires smp.field > 0 && WellFormedDag(smp.encoding) && Meaning(smp, r) && Wired(smp, r)
    requires Injective(r.signalMap) && Renumbers(renamed, r.constraints, r.signalMap)
    ensures AllSat(renamed, w, smp.field) <==> exists s :: Effective(smp, r.constants, s) && Reads(w, s, r.signalMap)
  {
    var p, list := smp.field, ListOf(smp, r.constraints, r.signalMap);
    WiredExportable(smp, r);
    assert forall s :: Effective(smp, r.constants, s) ==> AllSat(r.constraints, s, p);
    assert |r.constants| == |smp.consEqualities|;
    hide Meaning, Wired, Exportable, Effective, AllSat, Extend, Injective, Renumbers, Renamed;
    forall s: Assignment | Effective(smp, r.constants, s) && Reads(w, s, r.signalMap)
      ensures AllSat(renamed, w, p)
    {
      PortedMeaning(renamed, list, w, s, p);
    }
    if AllSat(renamed, w, p) {
      var s := Through(w, r.signalMap);
      PortedMeaning(renamed, list, w, s, p);
      SolutionsExtend(smp, r, s);
      assert Reads(w, Extend(r.definitions, s), r.signalMap);
    }
  }

  /** And, when the constant equalities agree, of the circuit as it was given. */
  lemma FileOriginal(smp: Simplifier, r: Outcome, renamed: seq<Constraint>, w: Assignment)
    requires Valid(smp) && smp.field > 0 && Meaning(smp, r) && Wired(smp, r) && RenamedInput(smp, r.constants)
    requires Injective(r.signalMap) && Renumbers(renamed, r.constraints, r.signalMap)
    ensures (exists s :: Original(smp, s) && Reads(w, s, r.signalMap)) ==> AllSat(renamed, w, smp.field)
    ensures ConstantsAgree(r.constants, smp.forbidden, smp.field) ==>
              (AllSat(renamed, w, smp.field) ==> exists s :: Original(smp, s) && Reads(w, s, r.signalMap))
  {
    SingleReady(smp);
    FileMeaning(smp, r, renamed, w);
    assert |r.constants| == |smp.consEqualities|;
    forall s: Assignment
      ensures Original(smp, s) ==> Effective(smp, r.constants, s)
      ensures ConstantsAgree(r.constants, smp.forbidden, smp.field) ==>
                (Effective(smp, r.constants, s) ==> Original(smp, s))
    {
      OriginalMeaning(smp, r, s);
    }
    hide Valid, Meaning, Wired, RenamedInput, Injective, Renumbers, Original, Effective, ConstantsAgree, AllSat, Reads;
  }

  // ---- The header

  /** The header counts the private inputs of the circuit as it was given: that is the number left exactly
      when every private input has kept its wire. */
  lemma HeaderInputs(smp: Simplifier, r: Outcome, data: FileData, customGates: bool)
    requires smp.field > 0 && Wired(smp, r) && Injective(r.signalMap)
    requires customGates ==> WellFormedDag(smp.encoding)
    requires Ported(data, ListOf(smp, r.constraints, r.signalMap), customGates)
    ensures data.header.privateInputs >= r.privateInputs
    ensures data.header.privateInputs == r.privateInputs <==>
            Private(smp.noPublicOutputs + smp.noPublicInputs, smp.noPrivateInputs) <= r.signalMap.Keys
  {
    hide Wired, Ported, Private, Injective, WellFormedDag;
    InputsCounted(smp, r, data, customGates);
    PrivateSize(smp.noPublicOutputs + smp.noPublicInputs, smp.noPrivateInputs);
    AllLeft(Private(smp.noPublicOutputs + smp.noPublicInputs, smp.noPrivateInputs), r.signalMap.Keys);
  }

  lemma AllLeft(all: set<nat>, kept: set<nat>)
    ensures |all * kept| <= |all| && (|all * kept| == |all| <==> all <= kept)
  {
    SubsetSize(all * kept, all);
    if |all * kept| == |all| { SameSizeSubset(all * kept, all); }
    assert all <= kept ==> all * kept == all;
  }

  lemma InputsCounted(smp: Simplifier, r: Outcome, data: FileData, customGates: bool)
    requires smp.field > 0 && Wired(smp, r) && Injective(r.signalMap)
    requires customGates ==> WellFormedDag(smp.encoding)
    requires Ported(data, ListOf(smp, r.constraints, r.signalMap), customGates)
    ensures data.header.privateInputs == smp.noPrivateInputs && smp.forbidden <= r.signalMap.Keys
    ensures r.privateInputs == |Private(smp.noPublicOutputs + smp.noPublicInputs,
            smp.noPrivateInputs) * r.signalMap.Keys|
  {
    hide Triangular, Froms, Numbering, Signals, Renumbers, InWireOrder, Injective, Private, WellFormedDag,
         Usages, ApplicationsOf;
  }

  /** It is when all private inputs must stay. */
  lemma ForbiddenInputs(smp: Simplifier, r: Outcome, data: FileData, customGates: bool)
    requires smp.field > 0 && Wired(smp, r) && Injective(r.signalMap)
    requires customGates ==> WellFormedDag(smp.encoding)
    requires Ported(data, ListOf(smp, r.constraints, r.signalMap), customGates)
    requires Private(smp.noPublicOutputs + smp.noPublicInputs, smp.noPrivateInputs) <= smp.forbidden
    ensures data.header.privateInputs == r.privateInputs
  {
    hide Wired, Ported, Injective, Private, WellFormedDag;
    HeaderInputs(smp, r, data, customGates);
    InputsCounted(smp, r, data, customGates);
  }

  /** It is not when a private input is idle: removable, and mentioned by no constraint (or the circuit has
      no products and linear simplification is on). */
  lemma IdleInput(smp: Simplifier, r: Outcome, data: FileData, customGates: bool, x: nat)
    requires smp.field > 0 && WellFormedDag(smp.encoding) && Wired(smp, r) && Lean(smp, r) && Injective(r.signalMap)
    requires Ported(data, ListOf(smp, r.constraints, r.signalMap), customGates)
    requires x in Private(smp.noPublicOutputs + smp.noPublicInputs, smp.noPrivateInputs) && x in Idle(smp)
    ensures data.header.privateInputs > r.privateInputs
  {
    hide Wired, Ported, Private, Injective, WellFormedDag, Idle;
    HeaderInputs(smp, r, data, customGates);
    assert x !in r.signalMap.Keys;
  }

  /** One private input and no constraint: whatever the run, the header says one and none is left. */
  lemma UnusedInput(r: Outcome, data: FileData, customGates: bool)
    requires Valid(OneInput()) && Wired(OneInput(), r) && Lean(OneInput(), r) && Injective(r.signalMap)
    requires Ported(data, ListOf(OneInput(), r.constraints, r.signalMap), customGates)
    ensures data.header.privateInputs == 1 && r.privateInputs == 0
  {
    hide Valid, Wired, Ported, Injective, WellFormedDag, Private, Idle, Flattened, ListOf;
    var smp := OneInput();
    OneInputIdle();
    ValidDag(smp);
    IdleInput(smp, r, data, customGates, 1);
    InputsCounted(smp, r, data, customGates);
  }

  lemma OneInputIdle()
    ensures Valid(OneInput()) && WellFormedDag(OneInput().encoding)
    ensures 1 in Private(0, 1) && 1 in Idle(OneInput())
  {
    hide Valid, WellFormedDag, Flattened;
    OneInputValid();
    NothingFlattened();
  }

  // ---- Everything fits

  /** The sizes the format can hold: labels, constraints and field size in four bytes, and the custom gates. */
  ghost predicate Holdable(smp: Simplifier, r: Outcome, customGates: bool)
    requires smp.field > 0 && (customGates ==> WellFormedDag(smp.encoding))
  {
    && smp.maxSignal < Power(4) && |r.constraints| < Power(4) && FieldSize(smp.field) < Power(4)
    && (customGates ==>
          GatesHoldable(Usages(smp.encoding.nodes), ApplicationsOf(smp.encoding, r.signalMap), FieldSize(smp.field)))
  }

  ghost predicate GatesHoldable(gates: seq<Gate>, applications: seq<Application>, fieldSize: nat) {
    && |gates| < Power(4) && (forall i :: 0 <= i < |gates| ==> GateFits(gates[i], fieldSize))
    && |applications| < Power(4) && forall i :: 0 <= i < |applications| ==> |applications[i].signals| < Power(4)
  }

  /** The indexes and the wire numbers of the applications need no bound of their own. */
  lemma ApplicationsFit(enc: DAGEncoding, names: SignalMap, fieldSize: nat)
    requires GatesExportable(enc, names) && Numbering(names) && 0 < |names| < Power(4)
    requires GatesHoldable(Usages(enc.nodes), ApplicationsOf(enc, names), fieldSize)
    ensures forall i :: 0 <= i < |ApplicationsOf(enc, names)| ==> ApplicationFits(ApplicationsOf(enc, names)[i])
  {
    hide Power, Occurring, Usages, AppliedAt, AllNumbered, NamesCut, GateFits;
    LimitsOrdered();
    var applications := ApplicationsOf(enc, names);
    forall i | 0 <= i < |applications|
      ensures ApplicationFits(applications[i])
    {
      var _ := ApplicationsPoint(enc, names, i);
      AppliedWires(enc, enc.init, 0, names, |names|, AppliedAt(enc, enc.init, 0, names)[i]);
    }
  }

  lemma RenamedFits(m: LC, names: SignalMap, p: int, fieldSize: nat)
    requires Injective(names) && Numbering(names) && 0 in names && Known(m, names) && Clean(m, p) &&
             p < Power(fieldSize) && |names| < Power(4)
    ensures LcFits(Rename(m, names), fieldSize)
  {
    hide Power, Injective;
    var r := Rename(m, names);
    forall j | j in r
      ensures j < |names| && 0 <= r[j] < p
    {
      var k :| k in m && NewName(k, names) == j;
      RenameStep(m, names, k);
    }
    AtMostBelow(r.Keys, |names|);
    assert |r| == |r.Keys|;
  }

  lemma ConstraintsFit(renamed: seq<Constraint>, cs: seq<Constraint>, names: SignalMap, p: int, fieldSize: nat)
    requires Injective(names) && Numbering(names) && 0 in names && Renumbers(renamed, cs, names) && AllClean(cs, p)
    requires p < Power(fieldSize) && |names| < Power(4)
    ensures forall i :: 0 <= i < |renamed| ==> ConstraintFits(renamed[i], fieldSize)
  {
    hide Injective, Numbering, Known, Rename, LcFits, Power, Clean;
    forall i | 0 <= i < |renamed|
      ensures ConstraintFits(renamed[i], fieldSize)
    {
      var c := cs[i];
      assert CleanConstraint(c, p) && ApplyCorrespondence(c, names) == Some(renamed[i]);
      RenamedFits(c.a, names, p, fieldSize);
      RenamedFits(c.b, names, p, fieldSize);
      RenamedFits(c.c, names, p, fieldSize);
    }
  }

  lemma LimitsOrdered()
    ensures Power(4) < Power(8)
  {
    LimitFits();
    assert Power(4) == 256 * Power(3) && Power(3) == 256 * Power(2) && Power(2) == 256 * Power(1);
  }

  lemma WiresFit(smp: Simplifier, r: Outcome)
    requires Wired(smp, r)
    ensures |r.signalMap| <= smp.maxSignal && smp.noPublicOutputs + smp.noPublicInputs < |r.signalMap|
    ensures Numbering(r.signalMap) && 0 in r.signalMap && forall x :: x in r.signalMap ==> x < smp.maxSignal
  {
    hide Triangular, Froms, Private, Signals;
    var publicWires := smp.noPublicOutputs + smp.noPublicInputs;
    AtMostBelow(r.signalMap.Keys, smp.maxSignal);
    assert |r.signalMap| == |r.signalMap.Keys|;
    assert publicWires in r.signalMap && r.signalMap[publicWires] == publicWires;
  }

  lemma HeaderCompiled(smp: Simplifier, r: Outcome, data: FileData, customGates: bool)
    requires Valid(smp) && smp.field > 0 && Wired(smp, r) && (customGates ==> WellFormedDag(smp.encoding))
    requires smp.maxSignal < Power(4) && |r.constraints| < Power(4) && FieldSize(smp.field) < Power(4)
    requires Injective(r.signalMap) && Ported(data, ListOf(smp, r.constraints, r.signalMap), customGates)
    ensures HeaderFits(data.header, data.fieldSize) && NumbersFit(data.signals, 8)
    ensures data.header.numberOfConstraints == |data.constraints| && data.header.totalWires == |data.signals|
  {
    hide Valid, Wired, Power, Injective, Numbering, Renumbers, FieldSize, NumbersFit, InWireOrder, WellFormedDag,
         Usages, ApplicationsOf;
    FieldFits(smp.field);
    LimitsOrdered();
    WiresFit(smp, r);
    InputRanges(smp);
    SameCount(data.constraints, r.constraints, r.signalMap);
    SignalsFit(data.signals, r.signalMap, smp.maxSignal);
  }

  lemma ConstraintsCompiled(smp: Simplifier, r: Outcome, data: FileData, customGates: bool)
    requires smp.field > 0 && Wired(smp, r) && AllClean(r.constraints, smp.field)
    requires smp.maxSignal < Power(4) && (customGates ==> WellFormedDag(smp.encoding))
    requires Injective(r.signalMap) && Ported(data, ListOf(smp, r.constraints, r.signalMap), customGates)
    ensures forall i :: 0 <= i < |data.constraints| ==> ConstraintFits(data.constraints[i], data.fieldSize)
  {
    hide Wired, Power, Injective, Numbering, AllClean, Renumbers, ConstraintFits, FieldSize, InWireOrder,
         WellFormedDag, Usages, ApplicationsOf;
    FieldFits(smp.field);
    WiresFit(smp, r);
    ConstraintsFit(data.constraints, r.constraints, r.signalMap, smp.field, FieldSize(smp.field));
  }

  /** What the simplifier leaves always fits, as soon as the counts do. */
  lemma CompiledFits(smp: Simplifier, r: Outcome, data: FileData, customGates: bool)
    requires Valid(smp) && smp.field > 0 && Wired(smp, r) && AllClean(r.constraints, smp.field)
    requires WellFormedDag(smp.encoding) && Holdable(smp, r, customGates)
    requires customGates ==> GatesExportable(smp.encoding, r.signalMap)
    requires Injective(r.signalMap) && Ported(data, ListOf(smp, r.constraints, r.signalMap), customGates)
    ensures DataFits(data)
  {
    hide Valid, Wired, Power, Injective, Numbering, GateFits, ApplicationFits, ConstraintFits, HeaderFits, AllClean,
         Renumbers, FieldSize, NumbersFit, InWireOrder, WellFormedDag, Usages, ApplicationsOf, GatesExportable;
    HeaderCompiled(smp, r, data, customGates);
    ConstraintsCompiled(smp, r, data, customGates);
    WiresFit(smp, r);
    if customGates { ApplicationsFit(smp.encoding, r.signalMap, FieldSize(smp.field)); }
  }

  lemma SignalsFit(wires: seq<nat>, names: SignalMap, max: nat)
    requires InWireOrder(wires, names) && (forall x :: x in names ==> x < max) && max < Power(8)
    ensures |wires| == |names| && NumbersFit(wires, 8)
  {
    hide Power;
  }

  lemma SameCount(renamed: seq<Constraint>, cs: seq<Constraint>, names: SignalMap)
    requires Injective(names) && Renumbers(renamed, cs, names)
    ensures |renamed| == |cs|
  {
  }

  // ---- The whole way

  /** The constraints of the file, on wires, mean what the circuit's constraints mean, on signals. */
  ghost predicate Compiled(g: Graph, constraints: seq<Constraint>, names: SignalMap, agree: bool, p: int)
    requires GraphOk(g) && g.nodes != []
  {
    forall w :: SatisfiedBy(g, constraints, names, agree, w, p)
  }

  ghost predicate SatisfiedBy(g: Graph, constraints: seq<Constraint>, names: SignalMap, agree: bool, w: Assignment,
                              p: int)
    requires GraphOk(g) && g.nodes != []
  {
    && ((exists s :: CircuitHolds(g, s, p) && Reads(w, s, names)) ==> AllSat(constraints, w, p))
    && (agree ==> AllSat(constraints, w, p) ==> exists s :: CircuitHolds(g, s, p) && Reads(w, s, names))
  }

  lemma CircuitCompiled(g: Graph, smp: Simplifier, r: Outcome, renamed: seq<Constraint>)
    requires GraphOk(g) && g.nodes != [] && Valid(smp) && smp.field > 0 && Meaning(smp, r) &&
             Wired(smp, r) && RenamedInput(smp, r.constants)
    requires forall s :: Original(smp, s) <==> CircuitHolds(g, s, smp.field)
    requires Injective(r.signalMap) && Renumbers(renamed, r.constraints, r.signalMap)
    ensures Compiled(g, renamed, r.signalMap, ConstantsAgree(r.constants, smp.forbidden, smp.field), smp.field)
  {
    hide GraphOk, Valid, WellFormedDag, Meaning, Wired, RenamedInput, Original, AllSat, CircuitHolds, Injective,
         Renumbers, ConstantsAgree, Reads;
    ValidDag(smp);
    var p, agree := smp.field, ConstantsAgree(r.constants, smp.forbidden, smp.field);
    forall w: Assignment
      ensures SatisfiedBy(g, renamed, r.signalMap, agree, w, p)
    {
      FileOriginal(smp, r, renamed, w);
    }
  }

  /** The wires the gates need are among the forbidden ones, hence they are kept. */
  lemma CircuitGates(g: Graph, smp: Simplifier, r: Outcome)
    requires GraphOk(g) && g.nodes != [] && GatesLocal(g) && Wired(smp, r) && smp.encoding == MapToList.Encode(g)
    requires GateWires(g, |g.nodes| - 1, 0) <= smp.forbidden
    ensures GatesExportable(smp.encoding, r.signalMap)
  {
    hide Triangular, Froms, Private, Signals, Numbering, GraphOk, GatesLocal, GateWires, GatesExportable,
         MapToList.Encode;
    GatesExport(g, r.signalMap);
  }

  /** The circuit mapped, simplified and renumbered: the simplifier is told what the main template declares and holds
      every constraint of every instance, and the outcome means what the circuit in force means. */
  ghost predicate Built(g: Graph, flags: Flags, p: int, smp: Simplifier, r: Outcome)
    requires GraphOk(g) && g.nodes != []
  {
    && p > 0 && smp.field == p && Valid(smp) && Told(g, flags, smp) && MustStay(g, smp.forbidden)
    && SharedOut(g, smp, p) && (forall s :: Original(smp, s) <==> CircuitHolds(g, s, p))
    && Meaning(smp, r) && RenamedInput(smp, r.constants) && Wired(smp, r) && Lean(smp, r)
    && Settled(smp, r) && EarlySettled(smp, r) && AllClean(r.constraints, p) && Injective(r.signalMap)
  }

  lemma CircuitBuilt(g: Graph, flags: Flags, p: int, smp: Simplifier, r: Outcome)
    requires GraphOk(g) && g.nodes != [] && p > 0 && smp.field == p && Valid(smp) && Told(g, flags, smp)
    requires MustStay(g, smp.forbidden) && SharedOut(g, smp, p)
    requires WellFormedDag(smp.encoding) && forall s :: Original(smp, s) <==> CircuitHolds(g, s, p)
    requires Meaning(smp, r) && RenamedInput(smp, r.constants) && Wired(smp, r) && Lean(smp, r)
    requires Settled(smp, r) && EarlySettled(smp, r) && AllClean(r.constraints, p)
    ensures Built(g, flags, p, smp, r) && Exportable(ListOf(smp, r.constraints, r.signalMap))
  {
    hide GraphOk, Valid, Told, MustStay, SharedOut, Original, CircuitHolds, Meaning, RenamedInput, Wired, Lean, Settled,
         EarlySettled, AllClean, Injective, Exportable, WellFormedDag;
    WiredExportable(smp, r);
    assert Injective(r.signalMap) by { ExportableInjective(ListOf(smp, r.constraints, r.signalMap)); }
  }

  lemma ExportableInjective(list: ConstraintList)
    requires Exportable(list)
    ensures Injective(list.signalMap)
  {
  }

  /** From the graph to the constraint list. */
  method BuildList(g: Graph, flags: Flags, p: int)
    returns (list: ConstraintList, ghost smp: Simplifier, ghost outcome: Outcome)
    requires GraphOk(g) && OrderedKnown(g) && g.nodes != [] && ReachNamed(g, |g.nodes| - 1) && GraphClean(g, p) &&
             Interface(g.nodes[|g.nodes| - 1]) && Prime(p)
    ensures Built(g, flags, p, smp, outcome) && smp.encoding == MapToList.Encode(g)
    ensures smp.field > 0 && list == ListOf(smp, outcome.constraints, outcome.signalMap) && Exportable(list)
    ensures GatesLocal(g) ==> GatesExportable(list.encoding, list.signalMap)
  {
    hide GraphOk, ReachNamed, GraphClean, Interface, Prime, Valid, Original, CircuitHolds, Meaning, Told, MustStay,
         SharedOut, RenamedInput, Wired, AllClean, Exportable, WellFormedDag, GateWires, GatesLocal, GatesExportable,
         MapToList.Encode, Lean, Settled, EarlySettled, Built;
    PrimePositive(p);
    var simplifier := Map(g, flags, p);
    smp := simplifier;
    ValidDag(smp);
    var storage, signalMap, privateInputs;
    storage, signalMap, privateInputs, outcome := Simplify(simplifier);
    list := ListOf(simplifier, storage.constraints, signalMap);
    CircuitBuilt(g, flags, p, smp, outcome);
    if GatesLocal(g) { CircuitGates(g, smp, outcome); }
  }

  /** The header counts what the main template declares. */
  ghost predicate HeaderOf(g: Graph, h: Header)
    requires g.nodes != []
  {
    var main := g.nodes[|g.nodes| - 1];
    && h.publicOutputs == main.outputsLength && h.publicInputs == main.publicInputsLength
    && h.privateInputs == main.inputsLength - main.publicInputsLength && h.numberOfLabels == main.numberOfSignals + 1
  }

  /** In a graph built by commands these are the numbers of commands issued on the last template. */
  lemma RunHeader(cs: seq<Command>, h: Header)
    requires Run(cs).nodes != [] && HeaderOf(Run(cs), h)
    ensures var b := Block(cs);
            && h.publicOutputs == |Outputs(b)| && h.publicInputs == |Inputs(b, true)|
            && h.privateInputs == |Inputs(b, false)|
  {
    hide Run, Block, Outputs, Inputs;
    RunCounts(cs);
  }

  /** Gates and applications of the file are those of the graph. */
  ghost predicate GatesIn(g: Graph, names: SignalMap, data: FileData)
    requires g.nodes != []
  {
    && data.gates.Some? && data.applications.Some?
    && exists ids, paths :: GatesExported(g, names, data.gates.value, data.applications.value, ids, paths)
  }

  /** The file is written exactly when it fits the device. It holds constraints with the circuit's meaning, for
      every choice made on the way, and is read back as it was written. */
  method Compile(g: Graph, flags: Flags, p: int, customGates: bool, capacity: nat)
    returns (status: Status, bytes: seq<byte>, ghost data: FileData, ghost outcome: Outcome, ghost smp: Simplifier)
    requires GraphOk(g) && OrderedKnown(g) && g.nodes != [] && ReachNamed(g, |g.nodes| - 1) && GraphClean(g, p) &&
             Interface(g.nodes[|g.nodes| - 1]) && Prime(p)
    requires (customGates ==> GatesLocal(g)) && capacity < SIGNED_LIMIT
    ensures p > 0 && smp.field == p && WellFormedDag(smp.encoding) && Injective(outcome.signalMap)
    ensures Built(g, flags, p, smp, outcome)
    ensures Ported(data, ListOf(smp, outcome.constraints, outcome.signalMap), customGates)
    ensures Compiled(g, data.constraints, outcome.signalMap, ConstantsAgree(outcome.constants, smp.forbidden, p), p)
    ensures HeaderOf(g, data.header) && (customGates ==> GatesIn(g, outcome.signalMap, data))
    ensures status.Success? <==> FileLength(data) <= capacity
    ensures status.Success? ==> Written(bytes, data)
    ensures status.Success? && Holdable(smp, outcome, customGates) ==> ReadFile(bytes) == Ok(data)
  {
    hide GraphOk, OrderedKnown, ReachNamed, GraphClean, Interface, Prime, Built, Holdable, Written, DataFits, ReadFile,
         Compiled, ConstantsAgree, Exportable, Injective, Ported, WellFormedDag, GatesLocal, GatesExportable,
         FileLength, MapToList.Encode, HeaderOf, GatesIn;
    var list;
    list, smp, outcome := BuildList(g, flags, p);
    BuiltFacts(g, flags, p, smp, outcome);
    status, bytes, data := PortR1cs(list, customGates, capacity);
    FileFacts(g, flags, p, smp, outcome, data, customGates);
    if status.Success? && Holdable(smp, outcome, customGates) {
      FileFits(g, flags, p, smp, outcome, data, customGates);
    }
  }

  lemma BuiltFacts(g: Graph, flags: Flags, p: int, smp: Simplifier, r: Outcome)
    requires GraphOk(g) && g.nodes != [] && Built(g, flags, p, smp, r)
    ensures p > 0 && smp.field == p && WellFormedDag(smp.encoding) && Injective(r.signalMap)
  {
    hide GraphOk, Valid, Told, MustStay, SharedOut, Original, CircuitHolds, Meaning, RenamedInput, Wired, Lean, Settled,
         EarlySettled, AllClean, Injective, WellFormedDag;
    ValidDag(smp);
  }

  lemma FileFacts(g: Graph, flags: Flags, p: int, smp: Simplifier, r: Outcome, data: FileData, customGates: bool)
    requires GraphOk(g) && OrderedKnown(g) && g.nodes != [] && Built(g, flags, p, smp, r)
    requires smp.encoding == MapToList.Encode(g) && WellFormedDag(smp.encoding) && Injective(r.signalMap)
    requires smp.field == p > 0 && Ported(data, ListOf(smp, r.constraints, r.signalMap), customGates)
    requires customGates ==> GatesExportable(smp.encoding, r.signalMap)
    ensures Compiled(g, data.constraints, r.signalMap, ConstantsAgree(r.constants, smp.forbidden, p), p)
    ensures HeaderOf(g, data.header) && (customGates ==> GatesIn(g, r.signalMap, data))
  {
    hide GraphOk, OrderedKnown, Valid, MustStay, SharedOut, Original, CircuitHolds, Meaning, RenamedInput, Wired, Lean,
         Settled, EarlySettled, AllClean, Injective, WellFormedDag, Compiled, ConstantsAgree, Renumbers, InWireOrder,
         Usages, ApplicationsOf, GatesExportable, GatesExported, MapToList.Encode, FieldSize;
    CircuitCompiled(g, smp, r, data.constraints);
    if customGates { GatesAre(g, r.signalMap); }
  }

  lemma FileFits(g: Graph, flags: Flags, p: int, smp: Simplifier, r: Outcome, data: FileData, customGates: bool)
    requires GraphOk(g) && g.nodes != [] && Built(g, flags, p, smp, r) && WellFormedDag(smp.encoding)
    requires smp.field == p > 0 && Holdable(smp, r, customGates)
    requires customGates ==> GatesExportable(smp.encoding, r.signalMap)
    requires Injective(r.signalMap) && Ported(data, ListOf(smp, r.constraints, r.signalMap), customGates)
    ensures DataFits(data)
  {
    hide GraphOk, Valid, Told, MustStay, SharedOut, Original, CircuitHolds, Meaning, RenamedInput, Wired, Lean, Settled,
         EarlySettled, AllClean, Injective, WellFormedDag, Ported, Holdable, DataFits, GatesExportable;
    CompiledFits(smp, r, data, customGates);
  }

  lemma ValidDag(smp: Simplifier)
    requires Valid(smp)
    ensures WellFormedDag(smp.encoding)
  {
  }
}
