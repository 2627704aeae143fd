/** The custom gates of a circuit and their applications, as the exporter collects them
    (constraint_list/src/r1cs_porting.rs). */
module CustomGates {
  import opened NonLinear
  import opened Witness
  import opened Bytes
  import opened R1csFormat
  import opened Dag
  import opened TreeWalk
  import opened MapToList
  import opened SortedSets

  const PAREN: byte := 40

  // ---- The gates used

  /** The name of the template, without the arguments in parentheses behind it. */
  function BaseName(name: seq<byte>): (r: seq<byte>)
    requires PAREN in name
    ensures |r| < |name| && r == name[..|r|] && name[|r|] == PAREN
    ensures forall j :: |r| < j < |name| ==> name[j] != PAREN
  {
    var n := |name| - 1;
    assert name == name[..n] + [name[n]];
    if name[n] == PAREN then name[..n] else BaseName(name[..n])
  }

  /** Pop up to and including the last opening parenthesis. */
  method CutName(name: seq<byte>) returns (r: seq<byte>)
    requires PAREN in name
    ensures r == BaseName(name)
  {
    r := name;
    var popped := 0;
    while popped != PAREN
      invariant popped == PAREN ==> r == BaseName(name)
      invariant popped != PAREN ==> PAREN in r && BaseName(r) == BaseName(name)
      decreases |r|
    {
      var n := |r| - 1;
      assert r == r[..n] + [r[n]];
      popped := r[n];
      r := r[..n];
    }
  }

  ghost predicate NamesCut(nodes: seq<EncodingNode>) {
    forall i :: 0 <= i < |nodes| && nodes[i].isCustomGate ==> PAREN in nodes[i].name
  }

  function Usages(nodes: seq<EncodingNode>): seq<Gate> {
    if nodes == [] then [] else
      var node := nodes[|nodes| - 1];
      var gate := if PAREN in node.name then [Gate(BaseName(node.name), node.parameters)] else [];
      Usages(nodes[..|nodes| - 1]) + if node.isCustomGate then gate else []
  }

  /** The full names, in the order of the usages. */
  function Occurring(nodes: seq<EncodingNode>): seq<seq<byte>> {
    if nodes == [] then [] else
      Occurring(nodes[..|nodes| - 1]) + if nodes[|nodes| - 1].isCustomGate then [nodes[|nodes| - 1].name] else []
  }

  method CollectUsages(nodes: seq<EncodingNode>) returns (usageData: seq<Gate>, occurringOrder: seq<seq<byte>>)
    requires NamesCut(nodes)
    ensures usageData == Usages(nodes) && occurringOrder == Occurring(nodes)
  {
    usageData, occurringOrder := [], [];
    for i := 0 to |nodes|
      invariant usageData == Usages(nodes[..i]) && occurringOrder == Occurring(nodes[..i])
    {
      assert nodes[..i + 1][..i] == nodes[..i];
      if nodes[i].isCustomGate {
        var name := CutName(nodes[i].name);
        occurringOrder := occurringOrder + [nodes[i].name];
        usageData := usageData + [Gate(name, nodes[i].parameters)];
      }
    }
    assert nodes[..|nodes|] == nodes;
  }

  lemma {:induction false} OccurringHas(nodes: seq<EncodingNode>, i: nat)
    requires i < |nodes| && nodes[i].isCustomGate
    ensures nodes[i].name in Occurring(nodes)
  {
    if i < |nodes| - 1 {
      assert nodes[..|nodes| - 1][i] == nodes[i];
      OccurringHas(nodes[..|nodes| - 1], i);
    }
  }

  /** Usages and names are in step: the gate at an index is the one whose full name is there. */
  lemma {:induction false} UsagesInStep(nodes: seq<EncodingNode>, index: nat) returns (i: nat)
    requires NamesCut(nodes) && index < |Occurring(nodes)|
    ensures |Usages(nodes)| == |Occurring(nodes)|
    ensures i < |nodes| && nodes[i].isCustomGate && PAREN in nodes[i].name
    ensures Occurring(nodes)[index] == nodes[i].name
    ensures Usages(nodes)[index] == Gate(BaseName(nodes[i].name), nodes[i].parameters)
  {
    var n := |nodes| - 1;
    var front := nodes[..n];
    SameLength(front);
    assert forall j :: 0 <= j < n ==> front[j] == nodes[j];
    if index < |Occurring(front)| {
      i := UsagesInStep(front, index);
    } else {
      i := n;
    }
  }

  lemma {:induction false} SameLength(nodes: seq<EncodingNode>)
    requires NamesCut(nodes)
    ensures |Usages(nodes)| == |Occurring(nodes)|
  {
    if nodes != [] {
      assert forall j :: 0 <= j < |nodes| - 1 ==> nodes[..|nodes| - 1][j] == nodes[j];
      SameLength(nodes[..|nodes| - 1]);
    }
  }

  // ---- The applications

  datatype Applied = Applied(name: seq<byte>, signals: seq<nat>)

  function WireOf(names: SignalMap, x: nat): nat {
    if x in names then names[x] else 0
  }

  function WiresOf(ordered: seq<nat>, offset: nat, names: SignalMap): (r: seq<nat>)
    ensures |r| == |ordered|
  {
    seq(|ordered|, i requires 0 <= i < |ordered| => WireOf(names, ordered[i] + offset))
  }

  /** The instances of custom gates in the order of the walk, which does not go below a gate. */
  ghost function AppliedAt(enc: DAGEncoding, i: nat, offset: nat, names: SignalMap): seq<Applied>
    requires WellFormedDag(enc) && i < |enc.nodes|
    decreases i, |enc.adjacency[i]| + 1
  {
    if enc.nodes[i].isCustomGate then [Applied(enc.nodes[i].name, WiresOf(enc.nodes[i].orderedSignals, offset, names))]
    else AppliedBelow(enc, i, offset, |enc.adjacency[i]|, names)
  }

  ghost function AppliedBelow(enc: DAGEncoding, i: nat, offset: nat, n: nat, names: SignalMap): seq<Applied>
    requires WellFormedDag(enc) && i < |enc.nodes| && n <= |enc.adjacency[i]|
    decreases i, n
  {
    if n == 0 then [] else
      var e := enc.adjacency[i][n - 1];
      AppliedBelow(enc, i, offset, n - 1, names) + AppliedAt(enc, e.goesTo, offset + e.offset, names)
  }

  /** Every signal of every instance met has a wire; the source panics otherwise. */
  ghost predicate AllNumbered(enc: DAGEncoding, i: nat, offset: nat, names: SignalMap)
    requires WellFormedDag(enc) && i < |enc.nodes|
    decreases i
  {
    if enc.nodes[i].isCustomGate then forall x :: x in enc.nodes[i].orderedSignals ==> x + offset in names
    else forall j :: 0 <= j < |enc.adjacency[i]| ==>
           AllNumbered(enc, enc.adjacency[i][j].goesTo, offset + enc.adjacency[i][j].offset, names)
  }

  method NumberWires(ordered: seq<nat>, offset: nat, names: SignalMap) returns (signals: seq<nat>)
    requires forall x :: x in ordered ==> x + offset in names
    ensures signals == WiresOf(ordered, offset, names)
  {
    signals := [];
    for i := 0 to |ordered|
      invariant |signals| == i && forall k :: 0 <= k < i ==> signals[k] == WireOf(names, ordered[k] + offset)
    {
      assert ordered[i] in ordered;
      signals := signals + [names[ordered[i] + offset]];
    }
  }

  method Iterate(enc: DAGEncoding, iter: EncodingIterator, names: SignalMap, before: seq<Applied>)
    returns (applicationData: seq<Applied>)
    requires Positioned(enc, iter) && AllNumbered(enc, iter.nodeId, iter.offset, names)
    ensures applicationData == before + AppliedAt(enc, iter.nodeId, iter.offset, names)
    decreases iter.nodeId
  {
    hide Offsets;
    var i, node := iter.nodeId, enc.nodes[iter.nodeId];
    if node.isCustomGate {
      var signals := NumberWires(node.orderedSignals, iter.offset, names);
      applicationData := before + [Applied(node.name, signals)];
    } else {
      applicationData := before;
      for j := 0 to |enc.adjacency[i]|
        invariant applicationData == before + AppliedBelow(enc, i, iter.offset, j, names)
      {
        hide AppliedAt;
        var edge := enc.adjacency[i][j];
        assert AllNumbered(enc, edge.goesTo, iter.offset + edge.offset, names);
        var next := Next(enc, iter, edge);
        applicationData := Iterate(enc, next, names, applicationData);
      }
    }
  }

  /** The first place of a name. */
  function FirstIndex(order: seq<seq<byte>>, name: seq<byte>): (r: nat)
    requires name in order
    ensures r < |order| && order[r] == name && forall j :: 0 <= j < r ==> order[j] != name
  {
    if order[0] == name then 0 else
      assert order == [order[0]] + order[1..];
      1 + FirstIndex(order[1..], name)
  }

  function IndexOf(order: seq<seq<byte>>, name: seq<byte>): nat {
    if name in order then FirstIndex(order, name) else 0
  }

  ghost function WithIndexes(order: seq<seq<byte>>, data: seq<Applied>): (r: seq<Application>)
    ensures |r| == |data|
  {
    seq(|data|, i requires 0 <= i < |data| => Application(IndexOf(order, data[i].name), data[i].signals))
  }

  method FindIndexes(order: seq<seq<byte>>, data: seq<Applied>) returns (r: seq<Application>)
    requires forall i :: 0 <= i < |data| ==> data[i].name in order
    ensures r == WithIndexes(order, data)
  {
    r := [];
    for i := 0 to |data|
      invariant |r| == i && forall k :: 0 <= k < i ==>
                r[k] == Application(IndexOf(order, data[k].name), data[k].signals)
    {
      var index := 0;
      while order[index] != data[i].name
        invariant index <= FirstIndex(order, data[i].name)
        decreases FirstIndex(order, data[i].name) - index
      {
        index := index + 1;
      }
      r := r + [Application(index, data[i].signals)];
    }
  }

  /** Every instance met is of a gate in the list. */
  lemma {:induction false} AppliedOccurs(enc: DAGEncoding, i: nat, offset: nat, names: SignalMap, a: Applied)
    requires WellFormedDag(enc) && i < |enc.nodes| && a in AppliedAt(enc, i, offset, names)
    ensures a.name in Occurring(enc.nodes)
    decreases i, |enc.adjacency[i]| + 1
  {
    hide Occurring;
    if enc.nodes[i].isCustomGate {
      OccurringHas(enc.nodes, i);
    } else {
      AppliedBelowOccurs(enc, i, offset, |enc.adjacency[i]|, names, a);
    }
  }

  lemma {:induction false} AppliedBelowOccurs(enc: DAGEncoding, i: nat, offset: nat, n: nat, names: SignalMap,
                                              a: Applied)
    requires WellFormedDag(enc) && i < |enc.nodes| && n <= |enc.adjacency[i]| &&
             a in AppliedBelow(enc, i, offset, n, names)
    ensures a.name in Occurring(enc.nodes)
    decreases i, n
  {
    hide Occurring, AppliedAt;
    var e := enc.adjacency[i][n - 1];
    if a in AppliedBelow(enc, i, offset, n - 1, names) {
      AppliedBelowOccurs(enc, i, offset, n - 1, names, a);
    } else {
      AppliedOccurs(enc, e.goesTo, offset + e.offset, names, a);
    }
  }

  /** Applications speak of wire numbers. */
  lemma {:induction false} AppliedWires(enc: DAGEncoding, i: nat, offset: nat, names: SignalMap, limit: nat, a: Applied)
    requires WellFormedDag(enc) && i < |enc.nodes| && a in AppliedAt(enc, i, offset, names)
    requires limit > 0 && forall x :: x in names ==> names[x] < limit
    ensures forall j :: 0 <= j < |a.signals| ==> a.signals[j] < limit
    decreases i, |enc.adjacency[i]| + 1
  {
    if !enc.nodes[i].isCustomGate {
      AppliedBelowWires(enc, i, offset, |enc.adjacency[i]|, names, limit, a);
    }
  }

  lemma {:induction false} AppliedBelowWires(enc: DAGEncoding, i: nat, offset: nat, n: nat, names: SignalMap,
                                             limit: nat, a: Applied)
    requires WellFormedDag(enc) && i < |enc.nodes| && n <= |enc.adjacency[i]| &&
             a in AppliedBelow(enc, i, offset, n, names)
    requires limit > 0 && forall x :: x in names ==> names[x] < limit
    ensures forall j :: 0 <= j < |a.signals| ==> a.signals[j] < limit
    decreases i, n
  {
    hide AppliedAt;
    var e := enc.adjacency[i][n - 1];
    if a in AppliedBelow(enc, i, offset, n - 1, names) {
      AppliedBelowWires(enc, i, offset, n - 1, names, limit, a);
    } else {
      AppliedWires(enc, e.goesTo, offset + e.offset, names, limit, a);
    }
  }

  // ---- Both lists

  ghost predicate GatesExportable(enc: DAGEncoding, names: SignalMap) {
    WellFormedDag(enc) && NamesCut(enc.nodes) && AllNumbered(enc, enc.init, 0, names)
  }

  ghost function ApplicationsOf(enc: DAGEncoding, names: SignalMap): seq<Application>
    requires WellFormedDag(enc)
  {
    WithIndexes(Occurring(enc.nodes), AppliedAt(enc, enc.init, 0, names))
  }

  method CollectGates(enc: DAGEncoding, names: SignalMap) returns (gates: seq<Gate>, applications: seq<Application>)
    requires GatesExportable(enc, names)
    ensures gates == Usages(enc.nodes) && applications == ApplicationsOf(enc, names)
  {
    hide Occurring, Usages, AppliedAt, AllNumbered, WithIndexes, NamesCut, Offsets;
    var order;
    gates, order := CollectUsages(enc.nodes);
    var iter := NewIterator(enc);
    var data := Iterate(enc, iter, names, []);
    assert data == AppliedAt(enc, enc.init, 0, names);
    forall i | 0 <= i < |data|
      ensures data[i].name in order
    {
      AppliedOccurs(enc, enc.init, 0, names, data[i]);
    }
    applications := FindIndexes(order, data);
  }

  /** Each application points at the gate whose full name is the instance's, the first of that name. */
  lemma ApplicationsPoint(enc: DAGEncoding, names: SignalMap, k: nat) returns (i: nat)
    requires GatesExportable(enc, names) && k < |ApplicationsOf(enc, names)|
    ensures var a, x := ApplicationsOf(enc, names)[k], AppliedAt(enc, enc.init, 0, names)[k];
            && a.signals == x.signals && a.index < |Usages(enc.nodes)|
            && i < |enc.nodes| && enc.nodes[i].isCustomGate && enc.nodes[i].name == x.name && PAREN in x.name
            && Usages(enc.nodes)[a.index] == Gate(BaseName(x.name), enc.nodes[i].parameters)
  {
    hide Occurring, Usages, AppliedAt, AllNumbered, Offsets;
    var x := AppliedAt(enc, enc.init, 0, names)[k];
    AppliedOccurs(enc, enc.init, 0, names, x);
    i := UsagesInStep(enc.nodes, FirstIndex(Occurring(enc.nodes), x.name));
  }

  // ---- No instance meets an unknown signal

  /** The ordered signals of a custom gate are signals of its own. */
  ghost predicate GatesLocal(g: Graph) {
    forall i :: 0 <= i < |g.nodes| && g.nodes[i].isCustomGate ==>
      GateLocal(g.nodes[i]) && PAREN in g.nodes[i].templateName
  }

  ghost predicate GateLocal(node: Node) {
    forall name :: name in node.orderedSignals ==>
      name in node.correspondence && node.correspondence[name] in node.locals
  }

  lemma OrderedListed(node: Node, offset: nat, x: nat)
    requires GateLocal(node) && x in OrderedNumbers(node)
    ensures x + offset in Wires(node, offset)
  {
    var i :| 0 <= i < |node.orderedSignals| && OrderedNumbers(node)[i] == x;
    assert node.orderedSignals[i] in node.orderedSignals;
    assert x in Listed(node);
    var ids := Ascending(Listed(node));
    assert x in ids;
    var j :| 0 <= j < |ids| && ids[j] == x;
    assert Wires(node, offset)[j] == x + offset;
  }

  /** The wires that must stay for the gates are enough to number every instance. */
  lemma {:induction false} GatesNumbered(enc: DAGEncoding, g: Graph, i: nat, offset: nat, names: SignalMap)
    requires Encodes(enc, g) && GatesLocal(g) && i < |g.nodes| && GateWires(g, i, offset) <= names.Keys
    ensures WellFormedDag(enc) && i < |enc.nodes| && AllNumbered(enc, i, offset, names)
    decreases i
  {
    hide Encodes, GraphOk, Wires, OrderedNumbers, Sorted, GateLocal, WellFormedDag, AllNumbered;
    EncodedAt(enc, g, i);
    if g.nodes[i].isCustomGate {
      forall x | x in enc.nodes[i].orderedSignals
        ensures x + offset in names
      {
        OrderedListed(g.nodes[i], offset, x);
      }
      NumberedGate(enc, i, offset, names);
    } else {
      forall j | 0 <= j < |enc.adjacency[i]|
        ensures AllNumbered(enc, enc.adjacency[i][j].goesTo, offset + enc.adjacency[i][j].offset, names)
      {
        GateWiresInside(g, i, offset, j, |g.adjacency[i]|);
        GatesNumbered(enc, g, g.adjacency[i][j].goesTo, offset + g.adjacency[i][j].inNumber, names);
      }
      NumberedInside(enc, i, offset, names);
    }
  }

  lemma NumberedGate(enc: DAGEncoding, i: nat, offset: nat, names: SignalMap)
    requires WellFormedDag(enc) && i < |enc.nodes| && enc.nodes[i].isCustomGate
    requires forall x :: x in enc.nodes[i].orderedSignals ==> x + offset in names
    ensures AllNumbered(enc, i, offset, names)
  {
  }

  lemma NumberedInside(enc: DAGEncoding, i: nat, offset: nat, names: SignalMap)
    requires WellFormedDag(enc) && i < |enc.nodes| && !enc.nodes[i].isCustomGate
    requires forall j :: 0 <= j < |enc.adjacency[i]| ==>
               AllNumbered(enc, enc.adjacency[i][j].goesTo, offset + enc.adjacency[i][j].offset, names)
    ensures AllNumbered(enc, i, offset, names)
  {
  }

  lemma {:induction false} GateWiresInside(g: Graph, i: nat, offset: nat, j: nat, n: nat)
    requires GraphOk(g) && i < |g.nodes| && j < n <= |g.adjacency[i]|
    ensures g.adjacency[i][j].goesTo < i
    ensures GateWires(g, g.adjacency[i][j].goesTo, offset + g.adjacency[i][j].inNumber) <= GateWiresBelow(g, i, offset,
            n)
    decreases n
  {
    hide GateWires, NodeOk;
    GoesLower(g, i, j);
    if j < n - 1 { GateWiresInside(g, i, offset, j, n - 1); }
  }

  lemma GatesExport(g: Graph, names: SignalMap)
    requires GraphOk(g) && g.nodes != [] && GatesLocal(g) && GateWires(g, |g.nodes| - 1, 0) <= names.Keys
    ensures GatesExportable(MapToList.Encode(g), names)
  {
    hide GraphOk, WellFormedDag, AllNumbered, GateWires, Sorted, OrderedNumbers, GateLocal;
    EncodeEncodes(g);
    GatesNumbered(MapToList.Encode(g), g, |g.nodes| - 1, 0, names);
  }
}
