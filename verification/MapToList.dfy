/** From the template graph to the simplifier's input: the two traversals share out every constraint
    of every instance exactly once (dag/src/map_to_constraint_list.rs). */
module MapToList {
  import opened LinearCombination
  import opened Constraints
  import opened Equalities
  import opened ConstantEqualities
  import opened Dag
  import opened TreeWalk
  import opened NonLinear

  datatype Kind = ConstantEquality | Equality | LinearKind | NonLinearKind

  /** The order in which the walk tests a constraint. */
  function KindOf(c: Constraint, p: int): Kind
    requires p > 0
  {
    if IsConstantEquality(c) then ConstantEquality
    else if IsEquality(c, p) then Equality
    else if IsLinear(c) then LinearKind
    else NonLinearKind
  }

  function OfKind(cs: seq<Constraint>, kind: Kind, p: int): seq<Constraint>
    requires p > 0
  {
    if cs == [] then []
    else OfKind(cs[..|cs| - 1], kind, p) + if KindOf(cs[|cs| - 1], p) == kind then [cs[|cs| - 1]] else []
  }

  lemma {:induction false} OfKindConcat(one: seq<Constraint>, two: seq<Constraint>, kind: Kind, p: int)
    requires p > 0
    ensures OfKind(one + two, kind, p) == OfKind(one, kind, p) + OfKind(two, kind, p)
  {
    hide KindOf;
    if two == [] {
      assert one + two == one;
    } else {
      var n := |two| - 1;
      assert (one + two)[..|one| + n] == one + two[..n];
      OfKindConcat(one, two[..n], kind, p);
    }
  }

  lemma {:induction false} InOfKind(cs: seq<Constraint>, kind: Kind, p: int, c: Constraint)
    requires p > 0
    ensures c in OfKind(cs, kind, p) <==> c in cs && KindOf(c, p) == kind
  {
    hide KindOf;
    if cs != [] {
      InOfKind(cs[..|cs| - 1], kind, p, c);
      assert cs == cs[..|cs| - 1] + [cs[|cs| - 1]];
    }
  }

  function Times(cs: seq<Constraint>, c: Constraint): nat {
    multiset(cs)[c]
  }

  lemma {:induction false} KindStep(cs: seq<Constraint>, kind: Kind, p: int, c: Constraint)
    requires p > 0 && cs != []
    ensures Times(OfKind(cs, kind, p), c) == Times(OfKind(cs[..|cs| - 1], kind, p), c) + if KindOf(cs[|cs| - 1], p) ==
            kind && cs[|cs| - 1] == c then 1 else 0
    ensures Times(cs, c) == Times(cs[..|cs| - 1], c) + if cs[|cs| - 1] == c then 1 else 0
  {
    hide KindOf;
    assert cs == cs[..|cs| - 1] + [cs[|cs| - 1]];
  }

  lemma {:induction false} KindsCount(cs: seq<Constraint>, p: int, c: Constraint)
    requires p > 0
    ensures Times(OfKind(cs, ConstantEquality, p), c) + Times(OfKind(cs, Equality, p), c)
            + Times(OfKind(cs, LinearKind, p), c) + Times(OfKind(cs, NonLinearKind, p), c) == Times(cs, c)
  {
    if cs != [] {
      KindsCount(cs[..|cs| - 1], p, c);
      KindStep(cs, ConstantEquality, p, c);
      KindStep(cs, Equality, p, c);
      KindStep(cs, LinearKind, p, c);
      KindStep(cs, NonLinearKind, p, c);
      hide KindOf, OfKind, Times;
    }
  }

  /** Sorting by kind keeps every constraint, exactly once. */
  lemma KindsConserve(cs: seq<Constraint>, p: int)
    requires p > 0
    ensures multiset(OfKind(cs, ConstantEquality, p)) + multiset(OfKind(cs, Equality, p))
            + multiset(OfKind(cs, LinearKind, p)) + multiset(OfKind(cs, NonLinearKind, p)) == multiset(cs)
  {
    hide OfKind;
    var all := multiset(OfKind(cs, ConstantEquality, p)) + multiset(OfKind(cs, Equality, p))
               + multiset(OfKind(cs, LinearKind, p)) + multiset(OfKind(cs, NonLinearKind, p));
    forall c: Constraint
      ensures all[c] == multiset(cs)[c]
    {
      KindsCount(cs, p, c);
    }
    SameCounts(all, multiset(cs));
  }

  lemma SameCounts(one: multiset<Constraint>, two: multiset<Constraint>)
    requires forall c :: one[c] == two[c]
    ensures one == two
  {
  }

  // ---- The constraints of an instance

  /** The root keeps its constraints as they are; an inner instance drops empty ones and is offset. */
  function TreeConstraints(node: Node, offset: nat, isRoot: bool): seq<Constraint> {
    if isRoot then node.constraints else Offsets(NonEmpty(node.constraints), offset)
  }

  ghost function Instances(g: Graph, i: nat, offset: nat, isRoot: bool): seq<Constraint>
    requires GraphOk(g) && i < |g.nodes|
    decreases i, |g.adjacency[i]| + 1
  {
    TreeConstraints(g.nodes[i], offset, isRoot) + InstancesBelow(g, i, offset, |g.adjacency[i]|)
  }

  ghost function InstancesBelow(g: Graph, i: nat, offset: nat, n: nat): seq<Constraint>
    requires GraphOk(g) && i < |g.nodes| && n <= |g.adjacency[i]|
    decreases i, n
  {
    if n == 0 then [] else
      var e := g.adjacency[i][n - 1];
      GoesLower(g, i, n - 1);
      InstancesBelow(g, i, offset, n - 1) + Instances(g, e.goesTo, offset + e.inNumber, false)
  }

  // ---- The walk

  datatype Holder = Holder(linear: seq<Constraint>, equalities: seq<Constraint>, constantEqualities: seq<Constraint>)

  /** What the walk adds to the holder for a list of constraints. */
  function Hold(h: Holder, cs: seq<Constraint>, p: int): Holder
    requires p > 0
  {
    Holder(h.linear + OfKind(cs, LinearKind, p), h.equalities + OfKind(cs, Equality, p),
      h.constantEqualities + OfKind(cs, ConstantEquality, p))
  }

  lemma HoldTwice(h: Holder, one: seq<Constraint>, two: seq<Constraint>, p: int)
    requires p > 0
    ensures Hold(Hold(h, one, p), two, p) == Hold(h, one + two, p)
  {
    hide OfKind;
    OfKindConcat(one, two, LinearKind, p);
    OfKindConcat(one, two, Equality, p);
    OfKindConcat(one, two, ConstantEquality, p);
    ThreeAppends(h.linear, OfKind(one, LinearKind, p), OfKind(two, LinearKind, p));
    ThreeAppends(h.equalities, OfKind(one, Equality, p), OfKind(two, Equality, p));
    ThreeAppends(h.constantEqualities, OfKind(one, ConstantEquality, p), OfKind(two, ConstantEquality, p));
  }

  lemma ThreeAppends<T>(a: seq<T>, b: seq<T>, c: seq<T>)
    ensures a + b + c == a + (b + c)
  {
  }

  /** The wires of custom-gate instances, which must stay. */
  ghost function GateWires(g: Graph, i: nat, offset: nat): set<nat>
    requires GraphOk(g) && i < |g.nodes|
    decreases i, |g.adjacency[i]| + 1
  {
    (if g.nodes[i].isCustomGate then set x | x in Wires(g.nodes[i], offset) else {}) + GateWiresBelow(g, i, offset,
      |g.adjacency[i]|)
  }

  ghost function GateWiresBelow(g: Graph, i: nat, offset: nat, n: nat): set<nat>
    requires GraphOk(g) && i < |g.nodes| && n <= |g.adjacency[i]|
    decreases i, n
  {
    if n == 0 then {} else
      var e := g.adjacency[i][n - 1];
      GoesLower(g, i, n - 1);
      GateWiresBelow(g, i, offset, n - 1) + GateWires(g, e.goesTo, offset + e.inNumber)
  }

  method HoldConstraints(cs: seq<Constraint>, h: Holder, p: int) returns (h': Holder, noConstraints: nat)
    requires p > 0
    ensures h' == Hold(h, cs, p) && noConstraints == |OfKind(cs, NonLinearKind, p)|
  {
    h', noConstraints := h, 0;
    for i := 0 to |cs|
      invariant h' == Hold(h, cs[..i], p) && noConstraints == |OfKind(cs[..i], NonLinearKind, p)|
    {
      assert cs[..i + 1][..i] == cs[..i];
      HoldOne(h, cs[..i + 1], p);
      hide IsConstantEquality, IsEquality, IsLinear, OfKind, Hold;
      if IsConstantEquality(cs[i]) {
        h' := h'.(constantEqualities := h'.constantEqualities + [cs[i]]);
      } else if IsEquality(cs[i], p) {
        h' := h'.(equalities := h'.equalities + [cs[i]]);
      } else if IsLinear(cs[i]) {
        h' := h'.(linear := h'.linear + [cs[i]]);
      } else {
        noConstraints := noConstraints + 1;
      }
    }
    assert cs[..|cs|] == cs;
  }

  lemma HoldOne(h: Holder, cs: seq<Constraint>, p: int)
    requires p > 0 && cs != []
    ensures var c, before := cs[|cs| - 1], Hold(h, cs[..|cs| - 1], p);
            Hold(h, cs, p) == match KindOf(c, p)
                              case ConstantEquality => before.(constantEqualities := before.constantEqualities + [c])
                              case Equality => before.(equalities := before.equalities + [c])
                              case LinearKind => before.(linear := before.linear + [c])
                              case NonLinearKind => before
    ensures |OfKind(cs, NonLinearKind, p)| == |OfKind(cs[..|cs| - 1], NonLinearKind, p)| + if KindOf(cs[|cs| - 1],
            p).NonLinearKind? then 1 else 0
  {
    hide KindOf, OfKind;
    OfKindLast(cs, LinearKind, p);
    OfKindLast(cs, Equality, p);
    OfKindLast(cs, ConstantEquality, p);
    OfKindLast(cs, NonLinearKind, p);
  }

  lemma OfKindLast(cs: seq<Constraint>, kind: Kind, p: int)
    requires p > 0 && cs != []
    ensures OfKind(cs, kind, p) ==
            if KindOf(cs[|cs| - 1], p) == kind then OfKind(cs[..|cs| - 1], kind, p) + [cs[|cs| - 1]]
            else OfKind(cs[..|cs| - 1], kind, p)
  {
    hide KindOf;
  }

  /** What the walk collects. */
  datatype Collected = Collected(wires: seq<nat>, holder: Holder, forbidden: set<nat>, noConstraints: nat)

  function Extended(before: Collected, wires: seq<nat>, cs: seq<Constraint>, gates: set<nat>, p: int): Collected
    requires p > 0
  {
    Collected(before.wires + wires, Hold(before.holder, cs, p), before.forbidden + gates,
      before.noConstraints + |OfKind(cs, NonLinearKind, p)|)
  }

  lemma ExtendedTwice(before: Collected, wires: seq<nat>, cs: seq<Constraint>, gates: set<nat>, wires': seq<nat>,
                      cs': seq<Constraint>, gates': set<nat>, p: int)
    requires p > 0
    ensures Extended(Extended(before, wires, cs, gates, p), wires', cs', gates', p) == Extended(before, wires + wires',
            cs + cs', gates + gates', p)
  {
    hide Hold, OfKind;
    HoldTwice(before.holder, cs, cs', p);
    OfKindConcat(cs, cs', NonLinearKind, p);
    assert before.wires + wires + wires' == before.wires + (wires + wires');
    assert before.forbidden + gates + gates' == before.forbidden + (gates + gates');
  }

  ghost function OwnGates(node: Node, offset: nat): set<nat> {
    if node.isCustomGate then set x | x in Wires(node, offset) else {}
  }

  /** One instance's own wires and constraints. */
  method MapNode(node: Node, offset: nat, isRoot: bool, before: Collected, p: int) returns (after: Collected)
    requires p > 0 && NamedOnce(node)
    ensures after == Extended(before, Wires(node, offset), TreeConstraints(node, offset, isRoot),
            OwnGates(node, offset), p)
  {
    hide Hold, OfKind, TreeConstraints, Wires, NamedOnce;
    var signals := CollectSignals(node, offset);
    var forbidden := before.forbidden;
    if node.isCustomGate {
      forbidden := forbidden + set x | x in signals;
    }
    var holder, more := HoldConstraints(TreeConstraints(node, offset, isRoot), before.holder, p);
    after := Collected(before.wires + signals, holder, forbidden, before.noConstraints + more);
  }

  /** What the walk of a subtree collects. */
  ghost function Mapped(g: Graph, i: nat, offset: nat, isRoot: bool, before: Collected, p: int): Collected
    requires GraphOk(g) && i < |g.nodes| && p > 0
  {
    Extended(before, Walk(g, i, offset), Instances(g, i, offset, isRoot), GateWires(g, i, offset), p)
  }

  /** The recursive walk: wires, sorted constraints and forbidden wires of a subtree. */
  method MapTree(g: Graph, i: nat, offset: nat, isRoot: bool, before: Collected, p: int) returns (after: Collected)
    requires GraphOk(g) && i < |g.nodes| && p > 0
    ensures after == Mapped(g, i, offset, isRoot, before, p)
    decreases i
  {
    hide GraphOk, MapState, Mapped, Extended, NamedOnce, Partitioned, Wires, TreeConstraints, OwnGates;
    GraphSize(g, i);
    after := MapNode(g.nodes[i], offset, isRoot, before, p);
    MapStart(g, i, offset, isRoot, before, p);
    for n := 0 to |g.adjacency[i]|
      invariant after == MapState(g, i, offset, isRoot, before, n, p)
    {
      after := MapComponent(g, i, offset, n, after, p);
      MapEdge(g, i, offset, isRoot, n, before, p);
    }
    MapDone(g, i, offset, isRoot, before, p);
  }

  method MapComponent(g: Graph, i: nat, offset: nat, n: nat, before: Collected, p: int) returns (after: Collected)
    requires GraphOk(g) && i < |g.nodes| && n < |g.adjacency[i]| && p > 0
    ensures var e := g.adjacency[i][n]; e.goesTo < i && after == Mapped(g, e.goesTo, offset + e.inNumber, false,
            before, p)
    decreases i, 0
  {
    hide GraphOk, Mapped, NamedOnce, Partitioned;
    GraphSize(g, i);
    GoesLower(g, i, n);
    var e := g.adjacency[i][n];
    after := MapTree(g, e.goesTo, offset + e.inNumber, false, before, p);
  }

  /** After the node itself and its first n components. */
  ghost function MapState(g: Graph, i: nat, offset: nat, isRoot: bool, before: Collected, n: nat, p: int): Collected
    requires GraphOk(g) && i < |g.nodes| && n <= |g.adjacency[i]| && p > 0
  {
    Extended(before, Wires(g.nodes[i], offset) + WalkEdges(g, i, offset, n),
             TreeConstraints(g.nodes[i], offset, isRoot) + InstancesBelow(g, i, offset, n),
             OwnGates(g.nodes[i], offset) + GateWiresBelow(g, i, offset, n), p)
  }

  lemma MapStart(g: Graph, i: nat, offset: nat, isRoot: bool, before: Collected, p: int)
    requires GraphOk(g) && i < |g.nodes| && p > 0
    ensures MapState(g, i, offset, isRoot, before, 0, p)
            == Extended(before, Wires(g.nodes[i], offset), TreeConstraints(g.nodes[i], offset, isRoot),
              OwnGates(g.nodes[i], offset), p)
  {
    hide GraphOk, Wires, TreeConstraints, OwnGates, Extended;
    assert Wires(g.nodes[i], offset) + [] == Wires(g.nodes[i], offset);
    assert TreeConstraints(g.nodes[i], offset, isRoot) + [] == TreeConstraints(g.nodes[i], offset, isRoot);
    assert OwnGates(g.nodes[i], offset) + {} == OwnGates(g.nodes[i], offset);
    assert WalkEdges(g, i, offset, 0) == [] && InstancesBelow(g, i, offset, 0) == [] &&
      GateWiresBelow(g, i, offset, 0) == {};
  }

  lemma MapDone(g: Graph, i: nat, offset: nat, isRoot: bool, before: Collected, p: int)
    requires GraphOk(g) && i < |g.nodes| && p > 0
    ensures MapState(g, i, offset, isRoot, before, |g.adjacency[i]|, p)
            == Mapped(g, i, offset, isRoot, before, p)
  {
    hide GraphOk, Wires, TreeConstraints, Extended, WalkEdges, InstancesBelow, GateWiresBelow;
  }

  lemma MapEdge(g: Graph, i: nat, offset: nat, isRoot: bool, n: nat, before: Collected, p: int)
    requires GraphOk(g) && i < |g.nodes| && n < |g.adjacency[i]| && p > 0 && g.adjacency[i][n].goesTo < i
    ensures var e := g.adjacency[i][n];
            Mapped(g, e.goesTo, offset + e.inNumber, false, MapState(g, i, offset, isRoot, before, n, p), p) ==
              MapState(g, i, offset, isRoot, before, n + 1, p)
  {
    hide GraphOk, Extended, Walk, Instances, GateWires, Wires, TreeConstraints, OwnGates, NamedOnce, Partitioned;
    GraphSize(g, i);
    var e := g.adjacency[i][n];
    var w, c, s := Walk(g, e.goesTo, offset + e.inNumber), Instances(g, e.goesTo, offset + e.inNumber, false),
      GateWires(g, e.goesTo, offset + e.inNumber);
    var wires, cs, gates := Wires(g.nodes[i], offset), TreeConstraints(g.nodes[i], offset, isRoot),
      OwnGates(g.nodes[i], offset);
    var ws, below, ss := WalkEdges(g, i, offset, n), InstancesBelow(g, i, offset, n), GateWiresBelow(g, i, offset, n);
    assert WalkEdges(g, i, offset, n + 1) == ws + w && InstancesBelow(g, i, offset, n + 1) == below + c &&
      GateWiresBelow(g, i, offset, n + 1) == ss + s;
    hide WalkEdges, InstancesBelow, GateWiresBelow;
    ExtendThrough(before, wires, ws, w, cs, below, c, gates, ss, s, p);
  }

  lemma ExtendThrough(before: Collected, wires: seq<nat>, ws: seq<nat>, w: seq<nat>, cs: seq<Constraint>,
                      below: seq<Constraint>, c: seq<Constraint>,
                      gates: set<nat>, ss: set<nat>, s: set<nat>, p: int)
    requires p > 0
    ensures Extended(Extended(before, wires + ws, cs + below, gates + ss, p), w, c, s, p) == Extended(before,
            wires + (ws + w), cs + (below + c), gates + (ss + s), p)
  {
    hide Extended;
    ExtendedTwice(before, wires + ws, cs + below, gates + ss, w, c, s, p);
    Reassociate(wires, ws, w);
    Regroup(cs, below, c);
    assert gates + ss + s == gates + (ss + s);
  }

  lemma Regroup(one: seq<Constraint>, two: seq<Constraint>, three: seq<Constraint>)
    ensures one + two + three == one + (two + three)
  {
  }

  // ---- The encoding the simplifier walks again

  function EncodeNode(node: Node): EncodingNode {
    EncodingNode(Sorted(node.constraints, false), node.isCustomGate, node.templateName, node.parameters,
      OrderedNumbers(node))
  }

  /** The numbers of the ordered signals; the source panics on a name without one (OrderedKnown). */
  function OrderedNumbers(node: Node): (r: seq<nat>)
    ensures |r| == |node.orderedSignals|
  {
    seq(|node.orderedSignals|, i requires 0 <= i < |node.orderedSignals| => NumberOf(node, node.orderedSignals[i]))
  }

  function NumberOf(node: Node, name: string): nat {
    if name in node.correspondence then node.correspondence[name] else 0
  }

  ghost predicate OrderedKnown(g: Graph) {
    forall i, name :: 0 <= i < |g.nodes| && name in g.nodes[i].orderedSignals ==> name in g.nodes[i].correspondence
  }

  function EncodeEdges(edges: seq<Edge>): seq<EncodingEdge> {
    seq(|edges|, j requires 0 <= j < |edges| => EncodingEdge(edges[j].goesTo, edges[j].inNumber))
  }

  function Encode(g: Graph): DAGEncoding
    requires g.nodes != []
  {
    DAGEncoding(|g.nodes| - 1, seq(|g.nodes|, i requires 0 <= i < |g.nodes| => EncodeNode(g.nodes[i])),
                seq(|g.adjacency|, i requires 0 <= i < |g.adjacency| => EncodeEdges(g.adjacency[i])))
  }

  lemma EncodeWellFormed(g: Graph)
    requires GraphOk(g) && g.nodes != []
    ensures WellFormedDag(Encode(g))
  {
    var enc := Encode(g);
    forall i, j | 0 <= i < |enc.adjacency| && 0 <= j < |enc.adjacency[i]|
      ensures enc.adjacency[i][j].goesTo < i
    {
      GoesLower(g, i, j);
    }
  }

  method ProduceEncoding(g: Graph) returns (enc: DAGEncoding)
    requires GraphOk(g) && g.nodes != [] && OrderedKnown(g)
    ensures enc == Encode(g)
  {
    var nodes, adjacency := [], [];
    for i := 0 to |g.nodes|
      invariant |nodes| == i && forall k :: 0 <= k < i ==> nodes[k] == EncodeNode(g.nodes[k])
    {
      hide Sorted;
      var node := g.nodes[i];
      var nonLinear := DropLinear(node.constraints);
      var orderedSignals := NumberSignals(node);
      nodes := nodes + [EncodingNode(nonLinear, node.isCustomGate, node.templateName, node.parameters, orderedSignals)];
    }
    for i := 0 to |g.adjacency|
      invariant |adjacency| == i && forall k :: 0 <= k < i ==> adjacency[k] == EncodeEdges(g.adjacency[k])
    {
      adjacency := adjacency + [EncodeEdges(g.adjacency[i])];
    }
    enc := DAGEncoding(|g.nodes| - 1, nodes, adjacency);
  }

  method NumberSignals(node: Node) returns (r: seq<nat>)
    requires forall name :: name in node.orderedSignals ==> name in node.correspondence
    ensures r == OrderedNumbers(node)
  {
    r := [];
    for i := 0 to |node.orderedSignals|
      invariant |r| == i && forall k :: 0 <= k < i ==> r[k] == NumberOf(node, node.orderedSignals[k])
    {
      r := r + [node.correspondence[node.orderedSignals[i]]];
    }
  }

  method DropLinear(cs: seq<Constraint>) returns (r: seq<Constraint>)
    ensures r == Sorted(cs, false)
  {
    r := [];
    for i := 0 to |cs|
      invariant r == Sorted(cs[..i], false)
    {
      assert cs[..i + 1][..i] == cs[..i];
      if !IsLinear(cs[i]) {
        r := r + [cs[i]];
      }
    }
    assert cs[..|cs|] == cs;
  }

  // ---- The encoding sees exactly the non-linear constraints

  lemma OffsetKeepsLinear(c: Constraint, offset: nat)
    ensures IsLinear(ApplyOffset(c, offset)) <==> IsLinear(c)
  {
    OffsetEmpty(c.a, offset);
    OffsetEmpty(c.b, offset);
  }

  lemma OffsetEmpty(m: LC, offset: nat)
    ensures OffsetLC(m, offset) == map[] <==> m == map[]
  {
    if m != map[] {
      var k :| k in m;
      assert Shifted(k, offset) in OffsetLC(m, offset);
    }
  }

  lemma OffsetZero(c: Constraint)
    ensures ApplyOffset(c, 0) == c
  {
    assert forall k :: Shifted(k, 0) == k;
    OffsetZeroLC(c.a);
    OffsetZeroLC(c.b);
    OffsetZeroLC(c.c);
  }

  lemma OffsetZeroLC(m: LC)
    ensures OffsetLC(m, 0) == m
  {
    hide OffsetLC;
    OffsetHas(m, 0);
    OffsetFrom(m, 0);
    var r := OffsetLC(m, 0);
    assert forall k :: Shifted(k, 0) == k;
    assert r.Keys == m.Keys;
  }

  lemma OffsetHas(m: LC, offset: nat)
    ensures forall k :: k in m ==>
              Shifted(k, offset) in OffsetLC(m, offset) && OffsetLC(m, offset)[Shifted(k, offset)] == m[k]
  {
  }

  lemma OffsetFrom(m: LC, offset: nat)
    ensures forall j :: j in OffsetLC(m, offset) ==> exists k :: k in m && Shifted(k, offset) == j
  {
  }

  lemma NonLinearIs(c: Constraint, p: int)
    requires p > 0
    ensures KindOf(c, p) == NonLinearKind <==> !IsLinear(c)
  {
  }

  /** Dropping empty constraints and offsetting commute with picking the non-linear ones. */
  lemma {:induction false} NonLinearInner(cs: seq<Constraint>, offset: nat, p: int)
    requires p > 0
    ensures OfKind(Offsets(NonEmpty(cs), offset), NonLinearKind, p) == Offsets(Sorted(cs, false), offset)
  {
    if cs == [] {
      assert Offsets([], offset) == [];
    } else {
      var n := |cs| - 1;
      var c := cs[n];
      NonLinearInner(cs[..n], offset, p);
      NonLinearOne(c, offset, p);
      OffsetsSnoc(Sorted(cs[..n], false), c, offset);
      OffsetsSnoc(NonEmpty(cs[..n]), c, offset);
      OfKindConcat(Offsets(NonEmpty(cs[..n]), offset), [ApplyOffset(c, offset)], NonLinearKind, p);
      NonEmptyLast(cs);
      SortedLast(cs);
      hide KindOf, IsLinear, IsEmpty, ApplyOffset, Offsets, OfKind, NonEmpty, Sorted;
    }
  }

  lemma NonEmptyLast(cs: seq<Constraint>)
    requires cs != []
    ensures NonEmpty(cs) == if IsEmpty(cs[|cs| - 1]) then NonEmpty(cs[..|cs| - 1])
            else NonEmpty(cs[..|cs| - 1]) + [cs[|cs| - 1]]
  {
  }

  lemma SortedLast(cs: seq<Constraint>)
    requires cs != []
    ensures Sorted(cs, false) == if IsLinear(cs[|cs| - 1]) then Sorted(cs[..|cs| - 1], false)
            else Sorted(cs[..|cs| - 1], false) + [cs[|cs| - 1]]
  {
  }

  lemma NonLinearOne(c: Constraint, offset: nat, p: int)
    requires p > 0
    ensures IsEmpty(c) ==> IsLinear(c)
    ensures OfKind([ApplyOffset(c, offset)], NonLinearKind, p) == if IsLinear(c) then [] else [ApplyOffset(c, offset)]
  {
    NonLinearIs(ApplyOffset(c, offset), p);
    OffsetKeepsLinear(c, offset);
    OfKindSingle(ApplyOffset(c, offset), p);
  }

  lemma {:induction false} NonLinearRoot(cs: seq<Constraint>, p: int)
    requires p > 0
    ensures OfKind(cs, NonLinearKind, p) == Offsets(Sorted(cs, false), 0)
  {
    if cs == [] {
      assert Offsets([], 0) == [];
    } else {
      var n := |cs| - 1;
      NonLinearRoot(cs[..n], p);
      NonLinearIs(cs[n], p);
      OffsetZero(cs[n]);
      OffsetsSnoc(Sorted(cs[..n], false), cs[n], 0);
      SortedLast(cs);
      hide KindOf, IsLinear, ApplyOffset, Offsets, Sorted;
    }
  }

  lemma NonLinearOf(node: Node, offset: nat, isRoot: bool, p: int)
    requires p > 0 && (isRoot ==> offset == 0)
    ensures OfKind(TreeConstraints(node, offset, isRoot), NonLinearKind, p) == Offsets(EncodeNode(node).nonLinear,
            offset)
  {
    if isRoot { NonLinearRoot(node.constraints, p); } else { NonLinearInner(node.constraints, offset, p); }
  }

  lemma OfKindSingle(c: Constraint, p: int)
    requires p > 0
    ensures OfKind([c], NonLinearKind, p) == if KindOf(c, p) == NonLinearKind then [c] else []
  {
    hide KindOf;
    assert [c][..0] == [];
  }

  lemma OffsetsSnoc(cs: seq<Constraint>, c: Constraint, offset: nat)
    ensures Offsets(cs + [c], offset) == Offsets(cs, offset) + [ApplyOffset(c, offset)]
  {
    hide ApplyOffset;
  }

  ghost predicate Encodes(enc: DAGEncoding, g: Graph) {
    && GraphOk(g) && g.nodes != [] && enc == Encode(g) && WellFormedDag(enc)
  }

  lemma EncodeEncodes(g: Graph)
    requires GraphOk(g) && g.nodes != []
    ensures Encodes(Encode(g), g)
  {
    EncodeWellFormed(g);
  }

  /** What an encoding says at one node. */
  lemma EncodedAt(enc: DAGEncoding, g: Graph, i: nat)
    requires Encodes(enc, g) && i < |g.nodes|
    ensures GraphOk(g) && WellFormedDag(enc) && |g.nodes| == |g.adjacency| == |enc.nodes| == |enc.adjacency|
    ensures |enc.adjacency[i]| == |g.adjacency[i]| && enc.nodes[i] == EncodeNode(g.nodes[i])
    ensures forall j :: 0 <= j < |g.adjacency[i]| ==>
            enc.adjacency[i][j] == EncodingEdge(g.adjacency[i][j].goesTo, g.adjacency[i][j].inNumber)
    ensures forall j :: 0 <= j < |g.adjacency[i]| ==> g.adjacency[i][j].goesTo < i
  {
    GraphSize(g, i);
    forall j | 0 <= j < |g.adjacency[i]|
      ensures g.adjacency[i][j].goesTo < i
    {
      GoesLower(g, i, j);
    }
  }

  /** The second traversal meets exactly the non-linear constraints of the instances, in the same order. */
  lemma {:induction false} FlatIsNonLinear(enc: DAGEncoding, g: Graph, i: nat, offset: nat, isRoot: bool, p: int)
    requires Encodes(enc, g) && i < |g.nodes| && p > 0 && (isRoot ==> offset == 0)
    ensures WellFormedDag(enc) && GraphOk(g) && i < |enc.nodes| &&
            Flat(enc, i, offset) == OfKind(Instances(g, i, offset, isRoot), NonLinearKind, p)
    decreases i, |g.adjacency| + 1
  {
    hide Encodes, GraphOk, OfKind, Offsets, Sorted, WellFormedDag, TreeConstraints, EncodeNode, FlatEdges,
         InstancesBelow;
    EncodedAt(enc, g, i);
    FlatEdgesAreNonLinear(enc, g, i, offset, |g.adjacency[i]|, p);
    NonLinearOf(g.nodes[i], offset, isRoot, p);
    OfKindConcat(TreeConstraints(g.nodes[i], offset, isRoot), InstancesBelow(g, i, offset, |g.adjacency[i]|),
      NonLinearKind, p);
  }

  lemma {:induction false} FlatEdgesAreNonLinear(enc: DAGEncoding, g: Graph, i: nat, offset: nat, n: nat, p: int)
    requires Encodes(enc, g) && GraphOk(g) && i < |g.nodes| && n <= |g.adjacency[i]| && p > 0
    ensures WellFormedDag(enc) && i < |enc.nodes| && n <= |enc.adjacency[i]|
    ensures FlatEdges(enc, i, offset, n) == OfKind(InstancesBelow(g, i, offset, n), NonLinearKind, p)
    decreases i, |g.adjacency|, n
  {
    hide Encodes, GraphOk, OfKind, WellFormedDag, Flat, Instances;
    EncodedAt(enc, g, i);
    if n == 0 {
      NothingOfKind(p);
    } else {
      var e := g.adjacency[i][n - 1];
      FlatEdgesAreNonLinear(enc, g, i, offset, n - 1, p);
      FlatIsNonLinear(enc, g, e.goesTo, offset + e.inNumber, false, p);
      OfKindConcat(InstancesBelow(g, i, offset, n - 1), Instances(g, e.goesTo, offset + e.inNumber, false),
        NonLinearKind, p);
    }
  }

  lemma NothingOfKind(p: int)
    requires p > 0
    ensures OfKind([], NonLinearKind, p) == []
  {
  }

  /** All constraints of all instances. */
  ghost function AllConstraints(g: Graph): seq<Constraint>
    requires GraphOk(g) && g.nodes != []
  {
    Instances(g, |g.nodes| - 1, 0, true)
  }

  lemma FlattenedIsNonLinear(g: Graph, p: int)
    requires GraphOk(g) && g.nodes != [] && p > 0
    ensures WellFormedDag(Encode(g)) && Flattened(Encode(g)) == OfKind(AllConstraints(g), NonLinearKind, p)
  {
    hide GraphOk, Encodes, OfKind, Flat, Instances, WellFormedDag;
    EncodeEncodes(g);
    FlatIsNonLinear(Encode(g), g, |g.nodes| - 1, 0, true, p);
  }

  /** The lists of the first traversal and the constraints of the second are together all constraints
      of all instances: none is lost and none appears twice. */
  lemma TraversalsConserve(g: Graph, p: int)
    requires GraphOk(g) && g.nodes != [] && p > 0
    ensures WellFormedDag(Encode(g))
    ensures var h := Hold(Holder([], [], []), AllConstraints(g), p);
            multiset(h.constantEqualities) + multiset(h.equalities) + multiset(h.linear) +
              multiset(Flattened(Encode(g))) == multiset(AllConstraints(g))
  {
    hide OfKind, Flattened, AllConstraints, GraphOk, WellFormedDag, Encode, Hold;
    FlattenedIsNonLinear(g, p);
    KindsConserve(AllConstraints(g), p);
    HoldFromNothing(AllConstraints(g), p);
  }

  lemma HoldFromNothing(cs: seq<Constraint>, p: int)
    requires p > 0
    ensures Hold(Holder([], [], []), cs, p) == Holder(OfKind(cs, LinearKind, p), OfKind(cs, Equality, p),
            OfKind(cs, ConstantEquality, p))
  {
    hide OfKind;
  }
}
