/** The simplifier's input built from a template graph (`map` in dag/src/map_to_constraint_list.rs):
    it is valid, and its solutions are those of all constraints of all instances. */
module CircuitMap {
  import opened Field
  import opened LinearCombination
  import opened Constraints
  import opened Elimination
  import opened Equalities
  import opened ConstantEqualities
  import opened Dag
  import opened TreeWalk
  import opened NonLinear
  import opened Rounds
  import opened EarlyFrames
  import opened MapToList
  import opened InstancePaths

  /** A template's constraints are clean and mention its own signals and its components' only. */
  ghost predicate NodeClean(node: Node, p: int) {
    forall c :: c in node.constraints ==> InstanceOk(c, 0, node.numberOfSignals, p)
  }

  ghost predicate GraphClean(g: Graph, p: int) {
    forall i :: 0 <= i < |g.nodes| ==> NodeClean(g.nodes[i], p)
  }

  ghost predicate InstanceOk(c: Constraint, offset: nat, size: nat, p: int) {
    CleanConstraint(c, p) && forall x :: x in Signals(c) ==> offset < x <= offset + size
  }

  lemma OffsetClean(m: LC, offset: nat, p: int)
    requires Clean(m, p)
    ensures Clean(OffsetLC(m, offset), p)
  {
  }

  lemma OffsetInstance(c: Constraint, offset: nat, size: nat, p: int)
    requires InstanceOk(c, 0, size, p)
    ensures InstanceOk(ApplyOffset(c, offset), offset, size, p)
  {
    hide OffsetLC, Clean, Signals;
    OffsetClean(c.a, offset, p);
    OffsetClean(c.b, offset, p);
    OffsetClean(c.c, offset, p);
    OffsetInterval(c, offset, size);
  }

  lemma OffsetInterval(c: Constraint, offset: nat, size: nat)
    requires forall x :: x in Signals(c) ==> 0 < x <= size
    ensures forall x :: x in Signals(ApplyOffset(c, offset)) ==> offset < x <= offset + size
  {
    hide OffsetLC;
    assert forall k :: k in Keys(c) && k != 0 ==> k in Signals(c);
    OffsetSignals(c.a, offset, size);
    OffsetSignals(c.b, offset, size);
    OffsetSignals(c.c, offset, size);
  }

  lemma OffsetSignals(m: LC, offset: nat, size: nat)
    requires forall k :: k in m && k != 0 ==> 0 < k <= size
    ensures forall x :: x in OffsetLC(m, offset) && x != 0 ==> offset < x <= offset + size
  {
    OffsetFrom(m, offset);
  }

  lemma TreeInstance(node: Node, offset: nat, isRoot: bool, c: Constraint, p: int)
    requires NodeClean(node, p) && (isRoot ==> offset == 0) && c in TreeConstraints(node, offset, isRoot)
    ensures InstanceOk(c, offset, node.numberOfSignals, p)
  {
    if !isRoot {
      var kept := NonEmpty(node.constraints);
      var i :| 0 <= i < |kept| && c == ApplyOffset(kept[i], offset);
      assert kept[i] in kept;
      InNonEmpty(node.constraints, kept[i]);
      OffsetInstance(kept[i], offset, node.numberOfSignals, p);
    }
  }

  /** A component's interval lies in the enclosing template's. */
  lemma IntervalInside(g: Graph, i: nat, j: nat, x: nat)
    requires GraphOk(g) && i < |g.nodes| && j < |g.adjacency[i]| &&
             g.adjacency[i][j].inNumber < x <= g.adjacency[i][j].outNumber
    ensures 1 <= x <= g.nodes[i].numberOfSignals
  {
    GraphSize(g, i);
    InEdgesCount(g.adjacency[i], j, x);
    assert Owners(g.nodes[i], g.adjacency[i], x) >= 1;
  }

  lemma {:induction false} InEdgesCount(edges: seq<Edge>, j: nat, x: nat)
    requires j < |edges| && edges[j].inNumber < x <= edges[j].outNumber
    ensures InEdges(edges, x) >= 1
  {
    if j < |edges| - 1 { InEdgesCount(edges[..|edges| - 1], j, x); }
  }

  /** Every instance's constraints are clean and stay within its interval of identifiers. */
  lemma {:induction false} InstancesOk(g: Graph, i: nat, offset: nat, isRoot: bool, c: Constraint, p: int)
    requires GraphOk(g) && GraphClean(g, p) && i < |g.nodes| && (isRoot ==>
             offset == 0) && c in Instances(g, i, offset, isRoot)
    ensures InstanceOk(c, offset, g.nodes[i].numberOfSignals, p)
    decreases i, 2, 0
  {
    if c in TreeConstraints(g.nodes[i], offset, isRoot) {
      TreeInstance(g.nodes[i], offset, isRoot, c, p);
    } else {
      InstancesBelowOk(g, i, offset, |g.adjacency[i]|, c, p);
    }
  }

  lemma {:induction false} InstancesBelowOk(g: Graph, i: nat, offset: nat, n: nat, c: Constraint, p: int)
    requires GraphOk(g) && GraphClean(g, p) && i < |g.nodes| && n <= |g.adjacency[i]| &&
             c in InstancesBelow(g, i, offset, n)
    ensures InstanceOk(c, offset, g.nodes[i].numberOfSignals, p)
    decreases i, 1, n
  {
    hide GraphOk, GraphClean, InstanceOk, Instances;
    GoesLower(g, i, n - 1);
    if c in InstancesBelow(g, i, offset, n - 1) {
      InstancesBelowOk(g, i, offset, n - 1, c, p);
    } else {
      ComponentOk(g, i, offset, n - 1, c, p);
    }
  }

  lemma {:induction false} ComponentOk(g: Graph, i: nat, offset: nat, j: nat, c: Constraint, p: int)
    requires GraphOk(g) && GraphClean(g, p) && i < |g.nodes| && j < |g.adjacency[i]| && g.adjacency[i][j].goesTo < i
    requires c in Instances(g, g.adjacency[i][j].goesTo, offset + g.adjacency[i][j].inNumber, false)
    ensures InstanceOk(c, offset, g.nodes[i].numberOfSignals, p)
    decreases i, 0, j
  {
    hide GraphOk, GraphClean, CleanConstraint, Signals, Instances, InstancesBelow;
    GraphSize(g, i);
    GoesLower(g, i, j);
    var e := g.adjacency[i][j];
    InstancesOk(g, e.goesTo, offset + e.inNumber, false, c, p);
    forall x | x in Signals(c)
      ensures offset < x <= offset + g.nodes[i].numberOfSignals
    {
      IntervalInside(g, i, j, x - offset);
    }
  }

  // ---- Forbidden wires

  lemma {:induction false} GatesListed(g: Graph, i: nat, offset: nat, x: nat)
    requires GraphOk(g) && i < |g.nodes| && x in GateWires(g, i, offset)
    ensures x in Walk(g, i, offset)
    decreases i, |g.adjacency[i]| + 1
  {
    if x !in Wires(g.nodes[i], offset) { GatesListedBelow(g, i, offset, |g.adjacency[i]|, x); }
  }

  lemma {:induction false} GatesListedBelow(g: Graph, i: nat, offset: nat, n: nat, x: nat)
    requires GraphOk(g) && i < |g.nodes| && n <= |g.adjacency[i]| && x in GateWiresBelow(g, i, offset, n)
    ensures x in WalkEdges(g, i, offset, n)
    decreases i, n
  {
    GoesLower(g, i, n - 1);
    var e := g.adjacency[i][n - 1];
    if x in GateWiresBelow(g, i, offset, n - 1) {
      GatesListedBelow(g, i, offset, n - 1, x);
    } else {
      GatesListed(g, e.goesTo, offset + e.inNumber, x);
    }
  }

  lemma GatesInside(g: Graph, i: nat, x: nat)
    requires GraphOk(g) && i < |g.nodes| && x in GateWires(g, i, 0)
    ensures 1 <= x <= g.nodes[i].numberOfSignals
  {
    GatesListed(g, i, 0, x);
    WalkAtMost(g, i, 0, x);
    assert TreeWalk.Times(Walk(g, i, 0), x) > 0;
  }

  // ---- The interface of the main template

  /** Outputs come first, then public inputs, then private inputs; outputs and public inputs are forbidden. */
  ghost predicate Interface(node: Node) {
    && 0 in node.forbiddenIfMain && (forall x :: x in node.forbiddenIfMain ==> x <= node.numberOfSignals)
    && (forall x :: 1 <= x <= node.outputsLength + node.publicInputsLength ==> x in node.forbiddenIfMain)
    && node.publicInputsLength <= node.inputsLength && node.outputsLength + node.inputsLength <= node.numberOfSignals
  }

  /** Declaring outputs, then public inputs, then everything else gives the interface the simplifier counts on. */
  lemma InterfaceKept(node: Node, name: string)
    requires Interface(node)
    ensures node.numberOfSignals == node.outputsLength && node.inputsLength == 0 ==> Interface(WithOutput(node, name))
    ensures node.publicInputsLength == node.inputsLength ==>
              (node.numberOfSignals == node.outputsLength + node.inputsLength ==>
                Interface(WithInput(node, name, true)))
    ensures Interface(WithInput(node, name, false)) && Interface(WithLocal(node, name))
  {
  }

  // ---- The map

  datatype Flags = Flags(noRounds: nat, flagS: bool, flagOldHeuristics: bool)

  /** The counts of the header are those of the main template, and the flags are passed on. */
  ghost predicate Told(g: Graph, flags: Flags, smp: Simplifier)
    requires g.nodes != []
  {
    var main := g.nodes[|g.nodes| - 1];
    && smp.noPublicOutputs == main.outputsLength && smp.noPublicInputs == main.publicInputsLength
    && smp.noPrivateInputs == main.inputsLength - main.publicInputsLength
    && smp.maxSignal == main.numberOfSignals + 1 && smp.noRounds == flags.noRounds
    && smp.flagS == flags.flagS && smp.flagOldHeuristics == flags.flagOldHeuristics
  }

  /** What must stay: the main template's outputs and public inputs, and the wires of custom gates. */
  ghost predicate MustStay(g: Graph, forbidden: set<nat>)
    requires g.nodes != []
  {
    forall x :: x in forbidden <==>
      x in g.nodes[|g.nodes| - 1].forbiddenIfMain || exists path :: CircuitGateWire(g, path, x)
  }

  /** Every constraint of every instance is in exactly one list, that of its kind, as often as the instances give it. */
  ghost predicate SharedOut(g: Graph, smp: Simplifier, p: int)
    requires GraphOk(g) && g.nodes != [] && p > 0
  {
    && WellFormedDag(smp.encoding) && (forall d :: Shares(g, smp, d))
    && (forall c :: c in smp.consEqualities ==> KindOf(c, p).ConstantEquality?)
    && (forall c :: c in smp.equalities ==> KindOf(c, p).Equality?)
    && (forall c :: c in smp.linear ==> KindOf(c, p).LinearKind?)
    && (forall c :: c in Flattened(smp.encoding) ==> KindOf(c, p).NonLinearKind?)
  }

  ghost predicate Shares(g: Graph, smp: Simplifier, d: Constraint)
    requires GraphOk(g) && g.nodes != [] && WellFormedDag(smp.encoding)
  {
    MapToList.Times(smp.consEqualities, d) + MapToList.Times(smp.equalities, d) + MapToList.Times(smp.linear, d) +
      MapToList.Times(Flattened(smp.encoding), d) == CircuitTotal(g, d)
  }

  method Map(g: Graph, flags: Flags, p: int) returns (smp: Simplifier)
    requires GraphOk(g) && OrderedKnown(g) && g.nodes != [] && ReachNamed(g, |g.nodes| - 1) && GraphClean(g, p) &&
             Interface(g.nodes[|g.nodes| - 1]) && Prime(p)
    ensures Valid(smp) && smp.field == p && smp.encoding == Encode(g) && Told(g, flags, smp)
    ensures MustStay(g, smp.forbidden) && GateWires(g, |g.nodes| - 1, 0) <= smp.forbidden
    ensures SharedOut(g, smp, p) && forall s :: Original(smp, s) <==> CircuitHolds(g, s, p)
  {
    hide GraphOk, ReachNamed, GraphClean, Prime, Instances, Walk, GateWires, Encode, Interface, Extended, Hold,
         SharedOut, MustStay, CircuitHolds;
    PrimePositive(p);
    var main := |g.nodes| - 1;
    var node := g.nodes[main];
    var collected := MapTree(g, main, 0, true, Collected([0], Holder([], [], []), {}, 0), p);
    var encoding := ProduceEncoding(g);
    var h := collected.holder;
    MapIs(g, p);
    WitnessExactly(g);
    InterfaceInputs(node);
    smp := Simplifier(p, encoding, node.publicInputsLength, node.outputsLength,
      node.inputsLength - node.publicInputsLength,
                      node.forbiddenIfMain + collected.forbidden, h.constantEqualities, h.equalities, h.linear,
                      |collected.wires|, flags.noRounds, flags.flagS, flags.flagOldHeuristics);
    MapValid(g, smp, p);
    MapMeaning(g, smp, p);
    MapShares(g, smp, p);
    StayExactly(g, smp.forbidden);
  }

  lemma StayExactly(g: Graph, forbidden: set<nat>)
    requires GraphOk(g) && g.nodes != []
    requires forbidden == g.nodes[|g.nodes| - 1].forbiddenIfMain + GateWires(g, |g.nodes| - 1, 0)
    ensures MustStay(g, forbidden)
  {
    hide GraphOk, GateWires, CircuitGateWire;
    forall x: nat
      ensures x in forbidden <==>
              x in g.nodes[|g.nodes| - 1].forbiddenIfMain || exists path :: CircuitGateWire(g, path, x)
    {
      CircuitGateWires(g, |g.nodes| - 1, x);
    }
  }

  lemma MapShares(g: Graph, smp: Simplifier, p: int)
    requires GraphOk(g) && g.nodes != [] && p > 0 && Lists(g, smp, p)
    ensures SharedOut(g, smp, p)
  {
    hide GraphOk, Encode, OfKind, Instances, Flattened, WellFormedDag, MapToList.Times, PathsFrom, Total, KindOf;
    EncodeWellFormed(g);
    FlattenedIsNonLinear(g, p);
    forall d: Constraint
      ensures Shares(g, smp, d)
    {
      KindsCount(AllConstraints(g), p, d);
      InstancesCounted(g, |g.nodes| - 1, 0, true, d);
    }
    KindsKept(AllConstraints(g), smp.consEqualities, ConstantEquality, p);
    KindsKept(AllConstraints(g), smp.equalities, Equality, p);
    KindsKept(AllConstraints(g), smp.linear, LinearKind, p);
    KindsKept(AllConstraints(g), Flattened(smp.encoding), NonLinearKind, p);
  }

  lemma KindsKept(all: seq<Constraint>, cs: seq<Constraint>, kind: Kind, p: int)
    requires p > 0 && cs == OfKind(all, kind, p)
    ensures forall c :: c in cs ==> KindOf(c, p) == kind
  {
    hide OfKind, KindOf;
    forall c | c in cs
      ensures KindOf(c, p) == kind
    {
      InOfKind(all, kind, p, c);
    }
  }

  lemma InterfaceInputs(node: Node)
    requires Interface(node)
    ensures node.publicInputsLength <= node.inputsLength
  {
  }

  lemma MapIs(g: Graph, p: int)
    requires GraphOk(g) && g.nodes != [] && p > 0
    ensures var main := |g.nodes| - 1;
            var all := AllConstraints(g);
            Mapped(g, main, 0, true, Collected([0], Holder([], [], []), {}, 0), p)
            == Collected([0] + Walk(g, main, 0), Holder(OfKind(all, LinearKind, p), OfKind(all, Equality, p),
              OfKind(all, ConstantEquality, p)),
                         GateWires(g, main, 0), |OfKind(all, NonLinearKind, p)|)
  {
    hide GraphOk, Walk, Instances, GateWires, OfKind;
    assert {} + GateWires(g, |g.nodes| - 1, 0) == GateWires(g, |g.nodes| - 1, 0);
    HoldFromNothing(AllConstraints(g), p);
  }

  /** The simplifier's lists, in the graph's terms. */
  ghost predicate Lists(g: Graph, smp: Simplifier, p: int)
    requires GraphOk(g) && g.nodes != [] && p > 0
  {
    && smp.field == p && smp.encoding == Encode(g)
    && smp.linear == OfKind(AllConstraints(g), LinearKind, p) &&
      smp.equalities == OfKind(AllConstraints(g), Equality, p)
    && smp.consEqualities == OfKind(AllConstraints(g), ConstantEquality, p)
  }

  lemma ListOk(g: Graph, kind: Kind, cs: seq<Constraint>, c: Constraint, p: int)
    requires GraphOk(g) && g.nodes != [] && GraphClean(g, p) && p > 0 && cs == OfKind(AllConstraints(g), kind, p) &&
             c in cs
    ensures CleanConstraint(c, p) && AliveOne(c, {}, g.nodes[|g.nodes| - 1].numberOfSignals + 1) && KindOf(c, p) == kind
  {
    hide KindOf, OfKind;
    InOfKind(AllConstraints(g), kind, p, c);
    InstancesOk(g, |g.nodes| - 1, 0, true, c, p);
  }

  lemma MapValid(g: Graph, smp: Simplifier, p: int)
    requires GraphOk(g) && g.nodes != [] && GraphClean(g, p) && Interface(g.nodes[|g.nodes| - 1]) && Prime(p) &&
             p > 1 && Lists(g, smp, p)
    requires var node := g.nodes[|g.nodes| - 1];
             && smp.forbidden == node.forbiddenIfMain + GateWires(g, |g.nodes| - 1, 0) &&
               smp.maxSignal == node.numberOfSignals + 1
             && smp.noPublicInputs == node.publicInputsLength && smp.noPublicOutputs == node.outputsLength
             && smp.noPrivateInputs == node.inputsLength - node.publicInputsLength
    ensures Valid(smp)
  {
    hide GraphOk, GraphClean, Prime, Encode, OfKind, AllConstraints, GateWires, Flattened, CleanConstraint, AliveOne,
         WellFormedDag, IsEquality, IsConstantEquality;
    var main := |g.nodes| - 1;
    EncodeWellFormed(g);
    FlattenedIsNonLinear(g, p);
    forall x | x in smp.forbidden
      ensures x < smp.maxSignal
    {
      if x !in g.nodes[main].forbiddenIfMain { GatesInside(g, main, x); }
    }
    ListClean(g, ConstantEquality, smp.consEqualities, p);
    ListClean(g, Equality, smp.equalities, p);
    ListClean(g, LinearKind, smp.linear, p);
    ListClean(g, NonLinearKind, Flattened(smp.encoding), p);
    forall i | 0 <= i < |smp.equalities|
      ensures CleanEquality(smp.equalities[i], p)
    {
      assert KindOf(smp.equalities[i], p) == Equality;
    }
    forall i | 0 <= i < |smp.consEqualities|
      ensures IsConstantEquality(smp.consEqualities[i])
    {
      assert KindOf(smp.consEqualities[i], p) == ConstantEquality;
    }
  }

  lemma ListClean(g: Graph, kind: Kind, cs: seq<Constraint>, p: int)
    requires GraphOk(g) && g.nodes != [] && GraphClean(g, p) && p > 0 && cs == OfKind(AllConstraints(g), kind, p)
    ensures forall c :: c in cs ==> CleanConstraint(c, p)
    ensures forall i :: 0 <= i < |cs| ==> KindOf(cs[i], p) == kind
    ensures Alive(cs, {}, g.nodes[|g.nodes| - 1].numberOfSignals + 1)
    ensures kind != NonLinearKind ==> AllLinear(cs, p)
  {
    hide GraphOk, GraphClean, OfKind, AllConstraints, CleanConstraint, AliveOne, KindOf;
    forall c | c in cs
      ensures CleanConstraint(c, p)
    {
      ListOk(g, kind, cs, c, p);
    }
    forall i | 0 <= i < |cs|
      ensures KindOf(cs[i], p) == kind && AliveOne(cs[i], {}, g.nodes[|g.nodes| - 1].numberOfSignals + 1)
      ensures kind != NonLinearKind ==> CleanLinear(cs[i], p)
    {
      assert cs[i] in cs;
      ListOk(g, kind, cs, cs[i], p);
      KindLinear(cs[i], p);
    }
  }

  lemma KindLinear(c: Constraint, p: int)
    requires p > 0 && CleanConstraint(c, p)
    ensures KindOf(c, p) != NonLinearKind ==> CleanLinear(c, p)
  {
  }

  /** Nothing was lost on the way: the lists and the encoding are satisfied exactly where all instances are. */
  lemma MapMeaning(g: Graph, smp: Simplifier, p: int)
    requires GraphOk(g) && g.nodes != [] && p > 0 && Lists(g, smp, p)
    ensures WellFormedDag(smp.encoding) && forall s :: Original(smp, s) <==> CircuitHolds(g, s, p)
  {
    hide GraphOk, Encode, OfKind, AllConstraints, Flattened, WellFormedDag, AllSat, CircuitHolds;
    EncodeWellFormed(g);
    FlattenedIsNonLinear(g, p);
    var all := AllConstraints(g);
    forall s: Assignment
      ensures Original(smp, s) <==> CircuitHolds(g, s, p)
    {
      KindsSat(all, s, p);
      CircuitMeaning(g, s, p);
    }
  }

  lemma KindsSat(cs: seq<Constraint>, s: Assignment, p: int)
    requires p > 0
    ensures AllSat(cs, s, p) <==> AllSat(OfKind(cs, ConstantEquality, p), s, p) && AllSat(OfKind(cs, Equality, p), s, p)
                                  && AllSat(OfKind(cs, LinearKind, p), s, p) &&
                                    AllSat(OfKind(cs, NonLinearKind, p), s, p)
  {
    hide OfKind, KindOf, Sat, AllSat;
    forall kind: Kind, c: Constraint
      ensures c in OfKind(cs, kind, p) <==> c in cs && KindOf(c, p) == kind
    {
      InOfKind(cs, kind, p, c);
    }
    MemberSat(cs, s, p);
    MemberSat(OfKind(cs, ConstantEquality, p), s, p);
    MemberSat(OfKind(cs, Equality, p), s, p);
    MemberSat(OfKind(cs, LinearKind, p), s, p);
    MemberSat(OfKind(cs, NonLinearKind, p), s, p);
    forall c | c in cs
      ensures c in OfKind(cs, ConstantEquality, p) || c in OfKind(cs, Equality, p) || c in OfKind(cs, LinearKind, p) ||
              c in OfKind(cs, NonLinearKind, p)
    {
      match KindOf(c, p) {
        case ConstantEquality =>
        case Equality =>
        case LinearKind =>
        case NonLinearKind =>
      }
    }
  }
}
