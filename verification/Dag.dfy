/** The template graph and its signal numbering (dag/src/lib.rs). */
module Dag {
  import opened Field
  import opened Constraints
  import opened Bytes

  datatype Edge = Edge(component: string, goesTo: nat, inNumber: nat, outNumber: nat)

  datatype Node = Node(
    numberOfSignals: nat, inputsLength: nat, publicInputsLength: nat, outputsLength: nat,
    correspondence: map<string, nat>, locals: set<nat>, forbiddenIfMain: set<nat>,
    constraints: seq<Constraint>, isCustomGate: bool,
    templateName: seq<byte>, parameters: seq<nat>, orderedSignals: seq<string>)

  datatype Graph = Graph(nodes: seq<Node>, adjacency: seq<seq<Edge>>)

  // ---- What the operations do to the graph

  function NewNode(templateName: seq<byte>, parameters: seq<nat>, isCustomGate: bool): Node {
    Node(0, 0, 0, 0, map[], {}, {0}, [], isCustomGate, templateName, parameters, [])
  }

  function WithNode(g: Graph, templateName: seq<byte>, parameters: seq<nat>, isCustomGate: bool): Graph {
    Graph(g.nodes + [NewNode(templateName, parameters, isCustomGate)], g.adjacency + [[]])
  }

  /** The next identifier becomes a local signal of the node. */
  function WithLocal(node: Node, name: string): Node {
    var id := node.numberOfSignals + 1;
    node.(numberOfSignals := id, correspondence := node.correspondence[name := id], locals := node.locals + {id})
  }

  function WithInput(node: Node, name: string, isPublic: bool): Node {
    var next := WithLocal(node, name).(inputsLength := node.inputsLength + 1);
    if isPublic
    then next.(publicInputsLength := node.publicInputsLength + 1,
      forbiddenIfMain := node.forbiddenIfMain + {next.numberOfSignals})
    else next
  }

  function WithOutput(node: Node, name: string): Node {
    var next := WithLocal(node, name);
    next.(outputsLength := node.outputsLength + 1, forbiddenIfMain := node.forbiddenIfMain + {next.numberOfSignals})
  }

  /** Signals of a custom gate are listed by name, in the order of its interface. */
  function WithOrdered(node: Node, name: string): Node {
    node.(orderedSignals := node.orderedSignals + [name])
  }

  function WithConstraint(node: Node, c: Constraint): Node {
    node.(constraints := node.constraints + [c])
  }

  function Last(g: Graph): Node
    requires g.nodes != []
  {
    g.nodes[|g.nodes| - 1]
  }

  function ReplaceLast(g: Graph, node: Node): Graph
    requires g.nodes != []
  {
    g.(nodes := g.nodes[|g.nodes| - 1 := node])
  }

  /** The names a component's local signals get in the enclosing template. */
  function Qualified(component: string, child: Node, offset: nat, names: set<string>): map<string, nat>
    requires names <= child.correspondence.Keys
  {
    QualifiedInjective(component);
    map name | name in names && child.correspondence[name] in child.locals ::
      QualifiedName(component, name) := child.correspondence[name] + offset
  }

  function QualifiedName(component: string, name: string): string {
    component + "." + name
  }

  /** The edge to an earlier node: its signals take the next interval of identifiers. */
  function WithEdge(g: Graph, to: nat, component: string): Option<Graph>
    requires |g.nodes| == |g.adjacency|
  {
    if to + 1 >= |g.nodes| then None else
      var from := |g.nodes| - 1;
      var node, child := g.nodes[from], g.nodes[to];
      var inNum := node.numberOfSignals;
      var outNum := inNum + child.numberOfSignals;
      var next := node.(numberOfSignals := outNum, correspondence := node.correspondence + Qualified(component, child,
        inNum, child.correspondence.Keys));
      Some(Graph(g.nodes[from := next], g.adjacency[from := g.adjacency[from] + [Edge(component, to, inNum, outNum)]]))
  }

  /** The graph as it is built up, the last node being the one under construction. */
  class DAG {
    var nodes: seq<Node>
    var adjacency: seq<seq<Edge>>

    function View(): Graph
      reads this
    {
      Graph(nodes, adjacency)
    }

    constructor ()
      ensures View() == Graph([], [])
    {
      nodes, adjacency := [], [];
    }

    method AddNode(templateName: seq<byte>, parameters: seq<nat>, isCustomGate: bool) returns (id: nat)
      modifies this
      ensures View() == WithNode(old(View()), templateName, parameters, isCustomGate) && id == |old(nodes)|
    {
      id := |nodes|;
      nodes := nodes + [NewNode(templateName, parameters, isCustomGate)];
      adjacency := adjacency + [[]];
    }

    method AddInput(name: string, isPublic: bool)
      modifies this
      ensures View() == if old(nodes) == [] then old(View())
              else ReplaceLast(old(View()), WithInput(Last(old(View())), name, isPublic))
    {
      if nodes != [] {
        var node := nodes[|nodes| - 1];
        var id := node.numberOfSignals + 1;
        node := node.(publicInputsLength := node.publicInputsLength + if isPublic then 1 else 0);
        node := node.(correspondence := node.correspondence[name := id], locals := node.locals + {id});
        node := node.(numberOfSignals := node.numberOfSignals + 1, inputsLength := node.inputsLength + 1);
        if isPublic {
          node := node.(forbiddenIfMain := node.forbiddenIfMain + {id});
        }
        nodes := nodes[|nodes| - 1 := node];
      }
    }

    method AddOutput(name: string)
      modifies this
      ensures View() == if old(nodes) == [] then old(View())
              else ReplaceLast(old(View()), WithOutput(Last(old(View())), name))
    {
      if nodes != [] {
        var node := nodes[|nodes| - 1];
        var id := node.numberOfSignals + 1;
        node := node.(correspondence := node.correspondence[name := id],
          forbiddenIfMain := node.forbiddenIfMain + {id}, locals := node.locals + {id});
        node := node.(numberOfSignals := node.numberOfSignals + 1, outputsLength := node.outputsLength + 1);
        nodes := nodes[|nodes| - 1 := node];
      }
    }

    method AddIntermediate(name: string)
      modifies this
      ensures View() == if old(nodes) == [] then old(View())
              else ReplaceLast(old(View()), WithLocal(Last(old(View())), name))
    {
      if nodes != [] {
        var node := nodes[|nodes| - 1];
        var id := node.numberOfSignals + 1;
        node := node.(correspondence := node.correspondence[name := id], locals := node.locals + {id});
        node := node.(numberOfSignals := node.numberOfSignals + 1);
        nodes := nodes[|nodes| - 1 := node];
      }
    }

    method AddOrderedSignal(name: string)
      modifies this
      ensures View() == if old(nodes) == [] then old(View())
              else ReplaceLast(old(View()), WithOrdered(Last(old(View())), name))
    {
      if nodes != [] {
        var node := nodes[|nodes| - 1];
        node := node.(orderedSignals := node.orderedSignals + [name]);
        nodes := nodes[|nodes| - 1 := node];
      }
    }

    method AddConstraint(c: Constraint)
      modifies this
      ensures View() == if old(nodes) == [] then old(View())
              else ReplaceLast(old(View()), WithConstraint(Last(old(View())), c))
    {
      if nodes != [] {
        nodes := nodes[|nodes| - 1 := WithConstraint(nodes[|nodes| - 1], c)];
      }
    }

    method AddEdge(to: nat, component: string) returns (ok: bool)
      requires |nodes| == |adjacency|
      modifies this
      ensures ok == WithEdge(old(View()), to, component).Some?
      ensures View() == if ok then WithEdge(old(View()), to, component).value else old(View())
    {
      if to + 1 >= |nodes| { return false; }
      var from := |nodes| - 1;
      var child := nodes[to];
      var inNum := nodes[from].numberOfSignals;
      var outNum := inNum + child.numberOfSignals;
      var with := Edge(component, to, inNum, outNum);
      var correspondence := QualifyNames(nodes[from].correspondence, component, child, inNum);
      nodes := nodes[from := nodes[from].(numberOfSignals := outNum, correspondence := correspondence)];
      adjacency := adjacency[from := adjacency[from] + [with]];
      ok := true;
    }
  }

  /** The child's names, visited in any order. */
  method QualifyNames(before: map<string, nat>, component: string, child: Node, inNum: nat)
    returns (correspondence: map<string, nat>)
    ensures correspondence == before + Qualified(component, child, inNum, child.correspondence.Keys)
  {
    correspondence := before;
    var pending := child.correspondence.Keys;
    assert before + Qualified(component, child, inNum, {}) == before;
    hide Qualified, QualifiedName;
    while pending != {}
      invariant pending <= child.correspondence.Keys
      invariant correspondence == before + Qualified(component, child, inNum, child.correspondence.Keys - pending)
      decreases pending
    {
      var name :| name in pending;
      QualifyStep(before, component, child, inNum, pending, name);
      pending := pending - {name};
      if child.correspondence[name] in child.locals {
        correspondence := correspondence[QualifiedName(component, name) := child.correspondence[name] + inNum];
      }
    }
    assert child.correspondence.Keys - pending == child.correspondence.Keys;
  }

  lemma QualifyStep(before: map<string, nat>, component: string, child: Node, inNum: nat, pending: set<string>,
                    name: string)
    requires pending <= child.correspondence.Keys && name in pending
    ensures var keys := child.correspondence.Keys;
            var now := before + Qualified(component, child, inNum, keys - pending);
            before + Qualified(component, child, inNum, keys - (pending - {name})) ==
            if child.correspondence[name] in child.locals then now[QualifiedName(component,
              name) := child.correspondence[name] + inNum] else now
  {
    hide Qualified, QualifiedName;
    var done := child.correspondence.Keys - pending;
    assert child.correspondence.Keys - (pending - {name}) == done + {name};
    QualifiedNext(component, child, inNum, done, name);
  }

  lemma QualifiedNext(component: string, child: Node, offset: nat, done: set<string>, name: string)
    requires done <= child.correspondence.Keys && name in child.correspondence && name !in done
    ensures Qualified(component, child, offset, done + {name}) ==
            if child.correspondence[name] in child.locals
            then Qualified(component, child, offset, done)[QualifiedName(component,
              name) := child.correspondence[name] + offset]
            else Qualified(component, child, offset, done)
  {
    hide QualifiedName;
    QualifiedInjective(component);
  }

  lemma QualifiedInjective(component: string)
    ensures forall x, y :: QualifiedName(component, x) == QualifiedName(component, y) ==> x == y
  {
    forall x, y | QualifiedName(component, x) == QualifiedName(component, y)
      ensures x == y
    {
      var p := component + ".";
      assert (p + x)[|p|..] == x && (p + y)[|p|..] == y;
    }
  }

  // ---- The numbering

  /** Identifiers a component edge covers. */
  function Within(e: Edge, x: nat): nat {
    if e.inNumber < x <= e.outNumber then 1 else 0
  }

  function InEdges(edges: seq<Edge>, x: nat): nat {
    if edges == [] then 0 else InEdges(edges[..|edges| - 1], x) + Within(edges[|edges| - 1], x)
  }

  /** How many owners an identifier has in a node: the node itself and its components. */
  function Owners(node: Node, edges: seq<Edge>, x: nat): nat {
    (if x in node.locals then 1 else 0) + InEdges(edges, x)
  }

  /** Every identifier of the node has exactly one owner, and nothing else has any. */
  ghost predicate Partitioned(node: Node, edges: seq<Edge>) {
    forall x: nat :: Owners(node, edges, x) == if 1 <= x <= node.numberOfSignals then 1 else 0
  }

  /** Names stand for identifiers given out, and a local identifier has at most one name. */
  ghost predicate NamedOnce(node: Node) {
    && (forall a :: a in node.correspondence ==> 1 <= node.correspondence[a] <= node.numberOfSignals)
    && (forall a, b :: a in node.correspondence && b in node.correspondence && SameLocal(node, a, b) ==> a == b)
  }

  predicate SameLocal(node: Node, a: string, b: string)
    requires a in node.correspondence && b in node.correspondence
  {
    node.correspondence[a] == node.correspondence[b] && node.correspondence[a] in node.locals
  }

  ghost predicate EdgesOk(g: Graph, i: nat)
    requires i < |g.nodes| && |g.nodes| == |g.adjacency|
  {
    forall j :: 0 <= j < |g.adjacency[i]| ==>
      && g.adjacency[i][j].goesTo < i
      && g.adjacency[i][j].outNumber == g.adjacency[i][j].inNumber + g.nodes[g.adjacency[i][j].goesTo].numberOfSignals
  }

  ghost predicate NodeOk(g: Graph, i: nat)
    requires i < |g.nodes| && |g.nodes| == |g.adjacency|
  {
    Partitioned(g.nodes[i], g.adjacency[i]) && NamedOnce(g.nodes[i]) && EdgesOk(g, i)
  }

  ghost predicate GraphOk(g: Graph) {
    |g.nodes| == |g.adjacency| && forall i :: 0 <= i < |g.nodes| ==> NodeOk(g, i)
  }

  /** Every local signal still has a name, so the walk can list it. */
  ghost predicate AllNamed(node: Node) {
    forall id :: id in node.locals ==> exists name :: name in node.correspondence && node.correspondence[name] == id
  }

  lemma EmptyGraphOk()
    ensures GraphOk(Graph([], []))
  {
  }

  lemma AddNodeOk(g: Graph, templateName: seq<byte>, parameters: seq<nat>, isCustomGate: bool)
    requires GraphOk(g)
    ensures GraphOk(WithNode(g, templateName, parameters, isCustomGate))
    ensures AllNamed(NewNode(templateName, parameters, isCustomGate))
  {
    var next, n := WithNode(g, templateName, parameters, isCustomGate), |g.nodes|;
    forall i | 0 <= i <= n
      ensures NodeOk(next, i)
    {
      if i < n {
        assert NodeOk(g, i) && next.nodes[i] == g.nodes[i] && next.adjacency[i] == g.adjacency[i];
      }
    }
  }

  /** Changing the last node touches no edge target. */
  lemma ReplaceLastOk(g: Graph, node: Node)
    requires GraphOk(g) && g.nodes != [] && Partitioned(node, g.adjacency[|g.nodes| - 1]) && NamedOnce(node)
    ensures GraphOk(ReplaceLast(g, node))
  {
    hide Partitioned, NamedOnce;
    var next, n := ReplaceLast(g, node), |g.nodes| - 1;
    forall i | 0 <= i <= n
      ensures NodeOk(next, i)
    {
      assert NodeOk(g, i);
    }
  }

  lemma WithLocalOk(node: Node, edges: seq<Edge>, name: string)
    requires Partitioned(node, edges) && NamedOnce(node)
    ensures Partitioned(WithLocal(node, name), edges) && NamedOnce(WithLocal(node, name))
  {
    var next, id := WithLocal(node, name), node.numberOfSignals + 1;
    assert Owners(node, edges, id) == 0;
    forall x: nat
      ensures Owners(next, edges, x) == if 1 <= x <= next.numberOfSignals then 1 else 0
    {
      assert Owners(node, edges, x) == if 1 <= x <= node.numberOfSignals then 1 else 0;
    }
  }

  /** A component takes exactly the next identifiers. */
  lemma AddEdgeOk(g: Graph, to: nat, component: string)
    requires GraphOk(g) && WithEdge(g, to, component).Some?
    ensures GraphOk(WithEdge(g, to, component).value)
  {
    var next, n := WithEdge(g, to, component).value, |g.nodes| - 1;
    forall i | 0 <= i <= n
      ensures NodeOk(next, i)
    {
      assert NodeOk(g, i);
      if i == n { LastEdgeOk(g, to, component); }
    }
  }

  lemma LastEdgeOk(g: Graph, to: nat, component: string)
    requires GraphOk(g) && WithEdge(g, to, component).Some?
    ensures NodeOk(WithEdge(g, to, component).value, |g.nodes| - 1)
  {
    hide Partitioned, NamedOnce, EdgesOk, Qualified;
    var next, n := WithEdge(g, to, component).value, |g.nodes| - 1;
    var node, child, edges := g.nodes[n], g.nodes[to], g.adjacency[n];
    var size := node.numberOfSignals;
    assert NodeOk(g, n) && NodeOk(g, to);
    var e := Edge(component, to, size, size + child.numberOfSignals);
    assert next.adjacency[n] == edges + [e] && (edges + [e])[..|edges|] == edges;
    OneMoreComponent(node, next.nodes[n], edges, e, child.numberOfSignals);
    MoreNames(node, next.nodes[n], child, component, edges);
    EdgesStay(g, next, n, e);
  }

  lemma OneMoreComponent(node: Node, next: Node, edges: seq<Edge>, e: Edge, size: nat)
    requires Partitioned(node, edges) && e.inNumber == node.numberOfSignals &&
             e.outNumber == node.numberOfSignals + size
    requires next.locals == node.locals && next.numberOfSignals == node.numberOfSignals + size
    ensures Partitioned(next, edges + [e])
  {
    assert (edges + [e])[..|edges|] == edges;
    forall x: nat
      ensures Owners(next, edges + [e], x) == if 1 <= x <= next.numberOfSignals then 1 else 0
    {
      assert Owners(node, edges, x) == if 1 <= x <= node.numberOfSignals then 1 else 0;
    }
  }

  lemma MoreNames(node: Node, next: Node, child: Node, component: string, edges: seq<Edge>)
    requires Partitioned(node, edges) && NamedOnce(node) && NamedOnce(child) && next.locals == node.locals
    requires next.numberOfSignals == node.numberOfSignals + child.numberOfSignals
    requires next.correspondence == node.correspondence + Qualified(component, child, node.numberOfSignals,
             child.correspondence.Keys)
    ensures NamedOnce(next)
  {
    hide Qualified, Partitioned;
    QualifiedRange(component, child, node.numberOfSignals);
    NoLocalAbove(node, edges);
    var more := Qualified(component, child, node.numberOfSignals, child.correspondence.Keys);
    forall a | a in next.correspondence
      ensures 1 <= next.correspondence[a] <= next.numberOfSignals
      ensures a in more ==> next.correspondence[a] !in next.locals
    {
    }
  }

  lemma EdgesStay(g: Graph, next: Graph, n: nat, e: Edge)
    requires |g.nodes| == |g.adjacency| == |next.nodes| == |next.adjacency| && n == |g.nodes| - 1 && EdgesOk(g, n)
    requires next.adjacency[n] == g.adjacency[n] + [e] && next.nodes[..n] == g.nodes[..n]
    requires e.goesTo < n && e.outNumber == e.inNumber + g.nodes[e.goesTo].numberOfSignals
    ensures EdgesOk(next, n)
  {
    assert forall i :: 0 <= i < n ==> next.nodes[i] == next.nodes[..n][i] && g.nodes[i] == g.nodes[..n][i];
    forall j | 0 <= j < |next.adjacency[n]|
      ensures next.adjacency[n][j].goesTo < n
      ensures next.adjacency[n][j].outNumber == next.adjacency[n][j].inNumber +
              next.nodes[next.adjacency[n][j].goesTo].numberOfSignals
    {
      if j < |g.adjacency[n]| { assert next.adjacency[n][j] == g.adjacency[n][j]; }
    }
  }

  lemma QualifiedRange(component: string, child: Node, offset: nat)
    requires NamedOnce(child)
    ensures forall a :: a in Qualified(component, child, offset, child.correspondence.Keys) ==>
              offset + 1 <= Qualified(component, child, offset, child.correspondence.Keys)[a] <= offset +
                child.numberOfSignals
  {
  }

  lemma NoLocalAbove(node: Node, edges: seq<Edge>)
    requires Partitioned(node, edges)
    ensures forall id :: id in node.locals ==> 1 <= id <= node.numberOfSignals
  {
    forall id | id in node.locals
      ensures 1 <= id <= node.numberOfSignals
    {
      assert Owners(node, edges, id) >= 1;
    }
  }

  // ---- Names

  predicate Names(node: Node, name: string, id: nat) {
    name in node.correspondence && node.correspondence[name] == id
  }

  /** A new local signal leaves every local signal named exactly when its name names no other local signal. */
  lemma WithLocalNamed(node: Node, edges: seq<Edge>, name: string)
    requires Partitioned(node, edges) && NamedOnce(node) && AllNamed(node)
    ensures AllNamed(WithLocal(node, name)) <==>
            !(name in node.correspondence && node.correspondence[name] in node.locals)
  {
    var next, id := WithLocal(node, name), node.numberOfSignals + 1;
    NoLocalAbove(node, edges);
    if name in node.correspondence && node.correspondence[name] in node.locals {
      var lost := node.correspondence[name];
      assert forall a :: a in next.correspondence && next.correspondence[a] == lost ==> a == name;
      assert lost in next.locals;
    } else {
      forall x | x in next.locals
        ensures exists a :: a in next.correspondence && next.correspondence[a] == x
      {
        if x == id {
          assert next.correspondence[name] == id;
        } else {
          var a :| a in node.correspondence && node.correspondence[a] == x;
          assert a in next.correspondence && next.correspondence[a] == x;
        }
      }
    }
  }

  /** A component leaves every local signal named exactly when none of its qualified names names one. */
  lemma AddEdgeNamed(g: Graph, to: nat, component: string)
    requires GraphOk(g) && WithEdge(g, to, component).Some? && AllNamed(Last(g))
    ensures AllNamed(Last(WithEdge(g, to, component).value)) <==>
            forall a ::
              a in Qualified(component, g.nodes[to], Last(g).numberOfSignals, g.nodes[to].correspondence.Keys) ==>
                !(a in Last(g).correspondence && Last(g).correspondence[a] in Last(g).locals)
  {
    hide Qualified;
    var node, child, next := Last(g), g.nodes[to], Last(WithEdge(g, to, component).value);
    var more := Qualified(component, child, node.numberOfSignals, child.correspondence.Keys);
    assert NodeOk(g, |g.nodes| - 1) && NodeOk(g, to);
    NoLocalAbove(node, g.adjacency[|g.nodes| - 1]);
    QualifiedRange(component, child, node.numberOfSignals);
    assert next.correspondence == node.correspondence + more && next.locals == node.locals;
    if a :| a in more && a in node.correspondence && node.correspondence[a] in node.locals {
      var lost := node.correspondence[a];
      assert forall b :: b in next.correspondence && next.correspondence[b] == lost ==> b == a;
    } else {
      forall x | x in node.locals
        ensures exists b :: b in next.correspondence && next.correspondence[b] == x
      {
        var b :| b in node.correspondence && node.correspondence[b] == x;
        assert b !in more;
        assert next.correspondence[b] == x;
      }
    }
  }
}
