/** The custom gates of a circuit in the terms of its graph: which templates the file lists, and which wires each
    instance is applied to (constraint_list/src/r1cs_porting.rs). */
module GateInstances {
  import opened Dag
  import opened TreeWalk
  import opened NonLinear
  import opened MapToList
  import opened InstancePaths
  import opened Witness
  import opened Bytes
  import opened R1csFormat
  import opened CustomGates

  // ---- Paths to custom gates

  /** A path that ends at a custom gate and meets none before. */
  predicate GatePath(g: Graph, i: nat, path: seq<nat>)
    decreases |path|
  {
    if i >= |g.nodes| || i >= |g.adjacency| then false
    else if path == [] then g.nodes[i].isCustomGate
    else if g.nodes[i].isCustomGate || path[0] >= |g.adjacency[i]| then false
    else GatePath(g, g.adjacency[i][path[0]].goesTo, path[1..])
  }

  /** The order of the walk: the first edge that differs decides. */
  predicate Before(one: seq<nat>, two: seq<nat>) {
    two != [] && (one == [] || one[0] < two[0] || (one[0] == two[0] && Before(one[1..], two[1..])))
  }

  ghost predicate InWalkOrder(paths: seq<seq<nat>>) {
    forall j, k :: 0 <= j < k < |paths| ==> Before(paths[j], paths[k])
  }

  ghost function GatePaths(g: Graph, i: nat): seq<seq<nat>>
    requires GraphOk(g) && i < |g.nodes|
    decreases i, |g.adjacency[i]| + 1
  {
    if g.nodes[i].isCustomGate then [[]] else GatePathsBelow(g, i, |g.adjacency[i]|)
  }

  ghost function GatePathsBelow(g: Graph, i: nat, n: nat): seq<seq<nat>>
    requires GraphOk(g) && i < |g.nodes| && n <= |g.adjacency[i]|
    decreases i, n
  {
    if n == 0 then [] else
      GoesLower(g, i, n - 1);
      GatePathsBelow(g, i, n - 1) + Prefixed(n - 1, GatePaths(g, g.adjacency[i][n - 1].goesTo))
  }

  lemma PrefixedOrder(j: nat, paths: seq<seq<nat>>)
    requires InWalkOrder(paths)
    ensures InWalkOrder(Prefixed(j, paths))
  {
    var r := Prefixed(j, paths);
    forall k, l | 0 <= k < l < |r|
      ensures Before(r[k], r[l])
    {
      assert r[k][1..] == paths[k] && r[l][1..] == paths[l];
    }
  }

  lemma ConcatOrder(one: seq<seq<nat>>, two: seq<seq<nat>>, n: nat)
    requires InWalkOrder(one) && InWalkOrder(two)
    requires forall path :: path in one ==> path != [] && path[0] < n
    requires forall path :: path in two ==> path != [] && path[0] == n
    ensures InWalkOrder(one + two)
  {
    var all, m := one + two, |one|;
    forall j, k | 0 <= j < k < |all|
      ensures Before(all[j], all[k])
    {
      if j < m <= k {
        assert all[j] == one[j] && all[k] == two[k - m];
        assert one[j] in one && two[k - m] in two;
      }
    }
  }

  /** The paths to custom gates, each once and in the order of the walk. */
  lemma {:induction false} GatePathsListed(g: Graph, i: nat)
    requires GraphOk(g) && i < |g.nodes|
    ensures InWalkOrder(GatePaths(g, i)) && forall path :: path in GatePaths(g, i) <==> GatePath(g, i, path)
    decreases i, |g.adjacency[i]| + 1
  {
    hide GraphOk, GatePathsBelow;
    GraphSize(g, i);
    GatePathsBelowListed(g, i, |g.adjacency[i]|);
  }

  lemma {:induction false} GatePathsBelowListed(g: Graph, i: nat, n: nat)
    requires GraphOk(g) && i < |g.nodes| == |g.adjacency| && n <= |g.adjacency[i]|
    ensures InWalkOrder(GatePathsBelow(g, i, n))
    ensures forall path :: path in GatePathsBelow(g, i, n) <==> path != [] && path[0] < n && GatePath(g,
              g.adjacency[i][path[0]].goesTo, path[1..])
    decreases i, n
  {
    hide GraphOk, GatePaths, GatePath, Before;
    if n > 0 {
      GoesLower(g, i, n - 1);
      var to := g.adjacency[i][n - 1].goesTo;
      GatePathsBelowListed(g, i, n - 1);
      GatePathsListed(g, to);
      PrefixedListed(n - 1, GatePaths(g, to));
      PrefixedOrder(n - 1, GatePaths(g, to));
      ConcatOrder(GatePathsBelow(g, i, n - 1), Prefixed(n - 1, GatePaths(g, to)), n - 1);
    }
  }

  // ---- The applications

  /** The wires of the ordered signals of the instance at the end of the path, in their order. */
  ghost predicate WiredTo(g: Graph, i: nat, offset: nat, path: seq<nat>, names: SignalMap, signals: seq<nat>) {
    match PlaceAt(g, i, path)
    case None => false
    case Some(place) =>
      && place.node < |g.nodes| && |signals| == |g.nodes[place.node].orderedSignals|
      && forall j :: 0 <= j < |signals| ==>
           WireAt(g.nodes[place.node], g.nodes[place.node].orderedSignals[j], offset + place.offset, names, signals[j])
  }

  /** The wire that has the number of the node's signal in the instance at the offset. */
  ghost predicate WireAt(node: Node, name: string, offset: nat, names: SignalMap, wire: nat) {
    && name in node.correspondence && node.correspondence[name] + offset in names
    && names[node.correspondence[name] + offset] == wire
  }

  ghost predicate NamedAt(g: Graph, i: nat, path: seq<nat>, name: seq<byte>) {
    match PlaceAt(g, i, path)
    case None => false
    case Some(place) => place.node < |g.nodes| && g.nodes[place.node].templateName == name
  }

  ghost predicate AppliedTo(g: Graph, i: nat, offset: nat, path: seq<nat>, names: SignalMap, a: Applied) {
    NamedAt(g, i, path, a.name) && WiredTo(g, i, offset, path, names, a.signals)
  }

  lemma AppliedFirst(g: Graph, i: nat, offset: nat, j: nat, path: seq<nat>, names: SignalMap, a: Applied)
    requires i < |g.adjacency| && j < |g.adjacency[i]|
    ensures var e := g.adjacency[i][j];
            AppliedTo(g, i, offset, [j] + path, names, a) <==>
            AppliedTo(g, e.goesTo, offset + e.inNumber, path, names, a)
  {
    hide WireAt;
    assert ([j] + path)[1..] == path;
  }

  lemma AppliedHere(g: Graph, i: nat, offset: nat, names: SignalMap)
    requires i < |g.nodes| && forall name :: name in g.nodes[i].orderedSignals ==> name in g.nodes[i].correspondence
    requires forall x :: x in OrderedNumbers(g.nodes[i]) ==> x + offset in names
    ensures AppliedTo(g, i, offset, [], names, Applied(g.nodes[i].templateName,
              WiresOf(OrderedNumbers(g.nodes[i]), offset, names)))
  {
    var node := g.nodes[i];
    var signals := WiresOf(OrderedNumbers(node), offset, names);
    forall j | 0 <= j < |signals|
      ensures WireAt(node, node.orderedSignals[j], offset, names, signals[j])
    {
      assert node.orderedSignals[j] in node.orderedSignals;
      assert OrderedNumbers(node)[j] in OrderedNumbers(node);
    }
  }

  /** What the walk over the encoding collects are the instances at the ends of those paths, in their order. */
  lemma {:induction false} AppliedExactly(enc: DAGEncoding, g: Graph, i: nat, offset: nat, names: SignalMap)
    requires Encodes(enc, g) && OrderedKnown(g) && GraphOk(g) && WellFormedDag(enc) && i < |g.nodes| == |enc.nodes|
    requires AllNumbered(enc, i, offset, names)
    ensures var applied, paths := AppliedAt(enc, i, offset, names), GatePaths(g, i);
            |applied| == |paths| && forall k :: 0 <= k < |paths| ==>
              AppliedTo(g, i, offset, paths[k], names, applied[k])
    decreases i, |g.adjacency[i]| + 1
  {
    hide Encodes, GraphOk, WellFormedDag, AppliedTo, AppliedBelow, GatePathsBelow, OrderedNumbers, Sorted, WiresOf;
    EncodedAt(enc, g, i);
    if g.nodes[i].isCustomGate {
      AppliedHere(g, i, offset, names);
    } else {
      AppliedBelowExactly(enc, g, i, offset, |g.adjacency[i]|, names);
    }
  }

  lemma NumberedBelow(enc: DAGEncoding, i: nat, offset: nat, j: nat, names: SignalMap)
    requires WellFormedDag(enc) && i < |enc.nodes| && j < |enc.adjacency[i]|
    requires AllNumbered(enc, i, offset, names) && !enc.nodes[i].isCustomGate
    ensures enc.adjacency[i][j].goesTo < i
    ensures AllNumbered(enc, enc.adjacency[i][j].goesTo, offset + enc.adjacency[i][j].offset, names)
  {
  }

  lemma {:induction false} AppliedBelowExactly(enc: DAGEncoding, g: Graph, i: nat, offset: nat, n: nat,
                                               names: SignalMap)
    requires Encodes(enc, g) && OrderedKnown(g) && GraphOk(g) && WellFormedDag(enc) && i < |g.nodes| == |enc.nodes|
    requires |g.adjacency| == |g.nodes| && n <= |g.adjacency[i]| == |enc.adjacency[i]|
    requires AllNumbered(enc, i, offset, names) && !enc.nodes[i].isCustomGate
    ensures var applied, paths := AppliedBelow(enc, i, offset, n, names), GatePathsBelow(g, i, n);
            |applied| == |paths| && forall k :: 0 <= k < |paths| ==>
              AppliedTo(g, i, offset, paths[k], names, applied[k])
    decreases i, n
  {
    hide Encodes, GraphOk, WellFormedDag, AppliedTo, AppliedAt, GatePaths, OrderedKnown, AllNumbered, EncodeNode;
    EncodedAt(enc, g, i);
    if n > 0 {
      var e := g.adjacency[i][n - 1];
      AppliedBelowExactly(enc, g, i, offset, n - 1, names);
      NumberedBelow(enc, i, offset, n - 1, names);
      AppliedExactly(enc, g, e.goesTo, offset + e.inNumber, names);
      var applied, paths := AppliedAt(enc, e.goesTo, offset + e.inNumber, names), GatePaths(g, e.goesTo);
      forall k | 0 <= k < |paths|
        ensures AppliedTo(g, i, offset, Prefixed(n - 1, paths)[k], names, applied[k])
      {
        AppliedFirst(g, i, offset, n - 1, paths[k], names, applied[k]);
      }
    }
  }

  // ---- The gates

  /** The custom gates among the templates, in their order. */
  function GateNodes(nodes: seq<Node>): seq<nat> {
    if nodes == [] then [] else
      GateNodes(nodes[..|nodes| - 1]) + if nodes[|nodes| - 1].isCustomGate then [|nodes| - 1] else []
  }

  ghost predicate Ascends(ids: seq<nat>) {
    forall j, k :: 0 <= j < k < |ids| ==> ids[j] < ids[k]
  }

  lemma {:induction false} GateNodesListed(nodes: seq<Node>)
    ensures Ascends(GateNodes(nodes))
    ensures forall i: nat :: i in GateNodes(nodes) <==> i < |nodes| && nodes[i].isCustomGate
  {
    if nodes != [] {
      var n := |nodes| - 1;
      GateNodesListed(nodes[..n]);
      forall k | 0 <= k < |GateNodes(nodes[..n])|
        ensures GateNodes(nodes[..n])[k] < n
      {
        assert GateNodes(nodes[..n])[k] in GateNodes(nodes[..n]);
      }
    }
  }

  /** The gate of a template: its name without arguments, and its parameters. */
  ghost predicate GateOf(node: Node, gate: Gate) {
    PAREN in node.templateName && gate == Gate(BaseName(node.templateName), node.parameters)
  }

  lemma {:induction false} UsagesExactly(nodes: seq<EncodingNode>, of: seq<Node>)
    requires |nodes| == |of| && NamesCut(nodes) && forall i :: 0 <= i < |nodes| ==> nodes[i] == EncodeNode(of[i])
    ensures var ids := GateNodes(of);
            && |Usages(nodes)| == |Occurring(nodes)| == |ids|
            && (forall k :: 0 <= k < |ids| ==> ids[k] < |of| && GateOf(of[ids[k]], Usages(nodes)[k]))
            && (forall k :: 0 <= k < |ids| ==> Occurring(nodes)[k] == of[ids[k]].templateName)
  {
    hide GateOf, EncodeNode, Usages, Occurring, GateNodes;
    if nodes == [] {
      NoGates();
    } else {
      var n := |nodes| - 1;
      var front, before := nodes[..n], of[..n];
      assert forall i :: 0 <= i < n ==> front[i] == nodes[i] && before[i] == of[i];
      UsagesExactly(front, before);
      UsagesLast(nodes, of);
    }
  }

  lemma NoGates()
    ensures Usages([]) == [] && Occurring([]) == [] && GateNodes([]) == []
  {
  }

  lemma {:induction false} UsagesLast(nodes: seq<EncodingNode>, of: seq<Node>)
    requires |nodes| == |of| > 0 && nodes[|nodes| - 1] == EncodeNode(of[|nodes| - 1]) && NamesCut(nodes)
    ensures var n := |nodes| - 1; of[n].isCustomGate ==>
              PAREN in of[n].templateName && GateOf(of[n], Gate(BaseName(of[n].templateName), of[n].parameters))
    ensures var n := |nodes| - 1;
            var gates := if of[n].isCustomGate then [Gate(BaseName(of[n].templateName), of[n].parameters)] else [];
            Usages(nodes) == Usages(nodes[..n]) + gates
    ensures var n := |nodes| - 1;
            Occurring(nodes) == Occurring(nodes[..n]) + if of[n].isCustomGate then [of[n].templateName] else []
    ensures var n := |nodes| - 1; GateNodes(of) == GateNodes(of[..n]) + if of[n].isCustomGate then [n] else []
  {
    hide BaseName, OrderedNumbers, Sorted;
  }

  // ---- Both together

  /** The index points at the first gate with the full name of the instance's template. */
  ghost predicate PointsAt(g: Graph, main: nat, ids: seq<nat>, path: seq<nat>, index: nat) {
    && index < |ids| && ids[index] < |g.nodes| && NamedAt(g, main, path, g.nodes[ids[index]].templateName)
    && forall l :: 0 <= l < index && ids[l] < |g.nodes| ==> !NamedAt(g, main, path, g.nodes[ids[l]].templateName)
  }

  /** Every template that is a custom gate is listed once and in order, and every instance of one that the walk meets
      is applied, once and in order, to the wires of its own signals. */
  ghost predicate GatesExported(g: Graph, names: SignalMap, gates: seq<Gate>, applications: seq<Application>,
                                ids: seq<nat>, paths: seq<seq<nat>>)
    requires g.nodes != []
  {
    var main := |g.nodes| - 1;
    && Ascends(ids) && (forall i: nat :: i in ids <==> i < |g.nodes| && g.nodes[i].isCustomGate)
    && |gates| == |ids| && (forall k :: 0 <= k < |ids| ==> ids[k] < |g.nodes| && GateOf(g.nodes[ids[k]], gates[k]))
    && InWalkOrder(paths) && (forall path :: path in paths <==> GatePath(g, main, path))
    && |applications| == |paths|
    && (forall k :: 0 <= k < |paths| ==> WiredTo(g, main, 0, paths[k], names, applications[k].signals))
    && (forall k :: 0 <= k < |paths| ==> PointsAt(g, main, ids, paths[k], applications[k].index))
  }

  /** The exporter's lists are those of the graph. */
  lemma GatesAre(g: Graph, names: SignalMap)
    requires GraphOk(g) && g.nodes != [] && OrderedKnown(g) && GatesExportable(MapToList.Encode(g), names)
    ensures var enc := MapToList.Encode(g);
            GatesExported(g, names, Usages(enc.nodes), ApplicationsOf(enc, names), GateNodes(g.nodes),
              GatePaths(g, |g.nodes| - 1))
  {
    hide GraphOk, WellFormedDag, AllNumbered, NamesCut, Usages, Occurring, AppliedAt, GatePaths, GatePath, GateNodes,
         WiredTo, NamedAt, GateOf, EncodeNode, InWalkOrder, Ascends, IndexOf;
    var enc, main := MapToList.Encode(g), |g.nodes| - 1;
    EncodeEncodes(g);
    GatePathsListed(g, main);
    GateNodesListed(g.nodes);
    UsagesExactly(enc.nodes, g.nodes);
    AppliedExactly(enc, g, main, 0, names);
    var applied, paths, ids := AppliedAt(enc, main, 0, names), GatePaths(g, main), GateNodes(g.nodes);
    forall k | 0 <= k < |paths|
      ensures PointsAt(g, main, ids, paths[k], ApplicationsOf(enc, names)[k].index)
    {
      AppliedOccurs(enc, main, 0, names, applied[k]);
      PointsFirst(g, main, ids, paths[k], Occurring(enc.nodes), applied[k].name);
    }
  }

  lemma PointsFirst(g: Graph, main: nat, ids: seq<nat>, path: seq<nat>, order: seq<seq<byte>>, name: seq<byte>)
    requires name in order && |order| == |ids| && NamedAt(g, main, path, name)
    requires forall k :: 0 <= k < |ids| ==> ids[k] < |g.nodes| && order[k] == g.nodes[ids[k]].templateName
    ensures PointsAt(g, main, ids, path, IndexOf(order, name))
  {
  }
}
