/** Every graph a run of the add operations builds (dag/src/lib.rs): the numbering holds after any run,
    and the walk lists every identifier exactly when no step reused the name of a local signal. */
module GraphRuns {
  import opened Constraints
  import opened Bytes
  import opened Dag
  import opened TreeWalk

  datatype Command =
    | NewTemplate(template: seq<byte>, parameters: seq<nat>, isCustomGate: bool)
    | Input(name: string, isPublic: bool)
    | Output(name: string)
    | Intermediate(name: string)
    | Ordered(symbol: string)
    | Constrain(constraint: Constraint)
    | Connect(to: nat, component: string)

  /** Operations on the last node do nothing before there is one; a bad edge is refused. */
  function Step(g: Graph, c: Command): Graph
    requires |g.nodes| == |g.adjacency|
  {
    match c
    case NewTemplate(template, parameters, isCustomGate) => WithNode(g, template, parameters, isCustomGate)
    case Connect(to, component) => if WithEdge(g, to, component).Some? then WithEdge(g, to, component).value else g
    case _ => if g.nodes == [] then g else ReplaceLast(g, Changed(Last(g), c))
  }

  function Changed(node: Node, c: Command): Node {
    match c
    case Input(name, isPublic) => WithInput(node, name, isPublic)
    case Output(name) => WithOutput(node, name)
    case Intermediate(name) => WithLocal(node, name)
    case Ordered(signal) => WithOrdered(node, signal)
    case Constrain(constraint) => WithConstraint(node, constraint)
    case _ => node
  }

  function Run(cs: seq<Command>): (g: Graph)
    ensures |g.nodes| == |g.adjacency|
  {
    if cs == [] then Graph([], []) else Step(Run(cs[..|cs| - 1]), cs[|cs| - 1])
  }

  /** The object goes through the same graphs. */
  method RunCommands(cs: seq<Command>) returns (dag: DAG)
    ensures fresh(dag) && dag.View() == Run(cs)
  {
    dag := new DAG();
    for i := 0 to |cs|
      invariant fresh(dag) && dag.View() == Run(cs[..i])
    {
      hide Run, Step;
      RunNext(cs, i);
      Perform(dag, cs[i]);
    }
    assert cs[..|cs|] == cs;
  }

  lemma RunNext(cs: seq<Command>, i: nat)
    requires i < |cs|
    ensures Run(cs[..i + 1]) == Step(Run(cs[..i]), cs[i])
  {
    hide Step;
    assert cs[..i + 1][..i] == cs[..i];
  }

  method Perform(dag: DAG, c: Command)
    requires |dag.View().nodes| == |dag.View().adjacency|
    modifies dag
    ensures dag.View() == Step(old(dag.View()), c)
  {
    match c {
      case NewTemplate(template, parameters, isCustomGate) =>
        var id := dag.AddNode(template, parameters, isCustomGate);
      case Input(name, isPublic) => dag.AddInput(name, isPublic);
      case Output(name) => dag.AddOutput(name);
      case Intermediate(name) => dag.AddIntermediate(name);
      case Ordered(signal) => dag.AddOrderedSignal(signal);
      case Constrain(constraint) => dag.AddConstraint(constraint);
      case Connect(to, component) => var ok := dag.AddEdge(to, component);
    }
  }

  // ---- The numbering

  lemma SameParts(one: Node, two: Node, edges: seq<Edge>)
    requires Partitioned(one, edges) && NamedOnce(one)
    requires two.locals == one.locals && two.numberOfSignals == one.numberOfSignals &&
             two.correspondence == one.correspondence
    ensures Partitioned(two, edges) && NamedOnce(two)
  {
    forall x: nat
      ensures Owners(two, edges, x) == if 1 <= x <= two.numberOfSignals then 1 else 0
    {
      assert Owners(one, edges, x) == if 1 <= x <= one.numberOfSignals then 1 else 0;
    }
  }

  lemma ChangedOk(node: Node, edges: seq<Edge>, c: Command)
    requires Partitioned(node, edges) && NamedOnce(node)
    ensures Partitioned(Changed(node, c), edges) && NamedOnce(Changed(node, c))
  {
    hide Partitioned, NamedOnce;
    if c.Input? || c.Output? || c.Intermediate? {
      WithLocalOk(node, edges, c.name);
      SameParts(WithLocal(node, c.name), Changed(node, c), edges);
    } else {
      SameParts(node, Changed(node, c), edges);
    }
  }

  lemma StepOk(g: Graph, c: Command)
    requires GraphOk(g)
    ensures GraphOk(Step(g, c))
  {
    hide Partitioned, NamedOnce, Changed, WithEdge;
    match c
    case NewTemplate(template, parameters, isCustomGate) => AddNodeOk(g, template, parameters, isCustomGate);
    case Connect(to, component) => if WithEdge(g, to, component).Some? { AddEdgeOk(g, to, component); }
    case _ =>
      if g.nodes != [] {
        var n := |g.nodes| - 1;
        assert NodeOk(g, n);
        ChangedOk(g.nodes[n], g.adjacency[n], c);
        ReplaceLastOk(g, Changed(g.nodes[n], c));
      }
  }

  /** Whatever the run, identifiers are partitioned at every node and edges go to earlier nodes. */
  lemma {:induction false} RunOk(cs: seq<Command>)
    ensures GraphOk(Run(cs))
  {
    hide GraphOk, Step;
    if cs == [] {
      EmptyGraphOk();
    } else {
      RunOk(cs[..|cs| - 1]);
      StepOk(Run(cs[..|cs| - 1]), cs[|cs| - 1]);
    }
  }

  // ---- The names

  /** The step gives no new meaning to a name that stands for a local signal. */
  ghost predicate Fresh(g: Graph, c: Command)
    requires |g.nodes| == |g.adjacency|
  {
    match c
    case NewTemplate(_, _, _) => true
    case Connect(to, component) =>
      WithEdge(g, to, component).Some? ==>
        forall a ::
          a in Qualified(component, g.nodes[to], Last(g).numberOfSignals, g.nodes[to].correspondence.Keys) ==>
            !NamesLocal(Last(g), a)
    case Input(name, _) => g.nodes != [] ==> !NamesLocal(Last(g), name)
    case Output(name) => g.nodes != [] ==> !NamesLocal(Last(g), name)
    case Intermediate(name) => g.nodes != [] ==> !NamesLocal(Last(g), name)
    case _ => true
  }

  ghost predicate NamesLocal(node: Node, name: string) {
    name in node.correspondence && node.correspondence[name] in node.locals
  }

  ghost predicate FreshRun(cs: seq<Command>) {
    forall i :: 0 <= i < |cs| ==> Fresh(Run(cs[..i]), cs[i])
  }

  ghost predicate EveryNamed(g: Graph) {
    forall i :: 0 <= i < |g.nodes| ==> AllNamed(g.nodes[i])
  }

  /** A local signal that has lost its name never gets it back. */
  lemma LostStays(node: Node, next: Node, edges: seq<Edge>)
    requires Partitioned(node, edges) && !AllNamed(node) && node.locals <= next.locals
    requires forall a :: a in next.correspondence && next.correspondence[a] <= node.numberOfSignals ==>
               a in node.correspondence && node.correspondence[a] == next.correspondence[a]
    ensures !AllNamed(next)
  {
    NoLocalAbove(node, edges);
    var id :| id in node.locals && !exists a :: a in node.correspondence && node.correspondence[a] == id;
    assert id in next.locals;
    forall a | a in next.correspondence
      ensures next.correspondence[a] != id
    {
    }
  }

  lemma ChangedNamed(node: Node, edges: seq<Edge>, c: Command)
    requires Partitioned(node, edges) && NamedOnce(node)
    ensures c.Input? || c.Output? || c.Intermediate? ==> (AllNamed(Changed(node, c)) <==>
            AllNamed(node) && !NamesLocal(node, c.name))
    ensures c.Constrain? || c.Ordered? ==> (AllNamed(Changed(node, c)) <==> AllNamed(node))
  {
    if c.Input? || c.Output? || c.Intermediate? {
      if AllNamed(node) {
        WithLocalNamed(node, edges, c.name);
        assert AllNamed(Changed(node, c)) <==> AllNamed(WithLocal(node, c.name));
      } else {
        LostStays(node, Changed(node, c), edges);
      }
    }
  }

  lemma ConnectNamed(g: Graph, to: nat, component: string)
    requires GraphOk(g) && WithEdge(g, to, component).Some?
    ensures AllNamed(Last(WithEdge(g, to, component).value)) <==> AllNamed(Last(g)) && Fresh(g, Connect(to, component))
  {
    hide AllNamed, Qualified, GraphOk;
    if AllNamed(Last(g)) {
      AddEdgeNamed(g, to, component);
    } else {
      ConnectLost(g, to, component);
    }
  }

  lemma ConnectLost(g: Graph, to: nat, component: string)
    requires GraphOk(g) && WithEdge(g, to, component).Some? && !AllNamed(Last(g))
    ensures !AllNamed(Last(WithEdge(g, to, component).value))
  {
    var n := |g.nodes| - 1;
    assert NodeOk(g, n) && NodeOk(g, to);
    QualifiedRange(component, g.nodes[to], Last(g).numberOfSignals);
    hide Qualified, Partitioned, NamedOnce, EdgesOk, AllNamed, GraphOk;
    LostStays(Last(g), Last(WithEdge(g, to, component).value), g.adjacency[n]);
  }

  lemma StepNamed(g: Graph, c: Command)
    requires GraphOk(g)
    ensures EveryNamed(Step(g, c)) <==> EveryNamed(g) && Fresh(g, c)
  {
    hide AllNamed, Qualified, NamesLocal;
    var next, n := Step(g, c), |g.nodes| - 1;
    match c
    case NewTemplate(template, parameters, isCustomGate) =>
      AddNodeOk(g, template, parameters, isCustomGate);
      assert forall i :: 0 <= i < |g.nodes| ==> next.nodes[i] == g.nodes[i];
    case Connect(to, component) =>
      if WithEdge(g, to, component).Some? {
        ConnectNamed(g, to, component);
        OnlyLast(g, next);
      }
    case _ =>
      if g.nodes != [] {
        assert NodeOk(g, n);
        ChangedNamed(g.nodes[n], g.adjacency[n], c);
        OnlyLast(g, next);
      }
  }

  lemma OnlyLast(g: Graph, next: Graph)
    requires g.nodes != [] && |next.nodes| == |g.nodes| && forall i :: 0 <= i < |g.nodes| - 1 ==>
             next.nodes[i] == g.nodes[i]
    ensures EveryNamed(next) <==> AllNamed(Last(next)) && forall i :: 0 <= i < |g.nodes| - 1 ==> AllNamed(g.nodes[i])
    ensures EveryNamed(g) <==> AllNamed(Last(g)) && forall i :: 0 <= i < |g.nodes| - 1 ==> AllNamed(g.nodes[i])
  {
    hide AllNamed;
  }

  /** Every local signal still has its name at the end if and only if every step was fresh. */
  lemma {:induction false} RunNamed(cs: seq<Command>)
    ensures EveryNamed(Run(cs)) <==> FreshRun(cs)
  {
    hide EveryNamed, Fresh, Step, GraphOk;
    if cs == [] {
      NothingNamed();
    } else {
      var n := |cs| - 1;
      RunNamed(cs[..n]);
      RunOk(cs[..n]);
      StepNamed(Run(cs[..n]), cs[n]);
      FreshSnoc(cs);
      hide FreshRun;
    }
  }

  lemma FreshSnoc(cs: seq<Command>)
    requires cs != []
    ensures FreshRun(cs) <==> FreshRun(cs[..|cs| - 1]) && Fresh(Run(cs[..|cs| - 1]), cs[|cs| - 1])
  {
    hide Fresh, Run;
    var n := |cs| - 1;
    assert forall i :: 0 <= i < n ==> cs[..n][..i] == cs[..i] && cs[..n][i] == cs[i];
    if FreshRun(cs) { assert Fresh(Run(cs[..n]), cs[n]); }
  }

  lemma NothingNamed()
    ensures EveryNamed(Run([]))
  {
  }

  lemma {:induction false} AllReached(g: Graph, i: nat)
    requires GraphOk(g) && i < |g.nodes| && EveryNamed(g)
    ensures ReachNamed(g, i)
    decreases i
  {
    hide AllNamed, NodeOk;
    forall j | 0 <= j < |g.adjacency[i]|
      ensures g.adjacency[i][j].goesTo < i && ReachNamed(g, g.adjacency[i][j].goesTo)
    {
      GoesLower(g, i, j);
      AllReached(g, g.adjacency[i][j].goesTo);
    }
  }

  /** After any run of fresh steps the walk from any node lists every identifier of its interval once. */
  lemma FreshRunWalks(cs: seq<Command>, i: nat, offset: nat)
    requires FreshRun(cs) && i < |Run(cs).nodes|
    ensures GraphOk(Run(cs)) && ReachNamed(Run(cs), i) && Complete(Run(cs), i, offset)
  {
    RunOk(cs);
    RunNamed(cs);
    AllReached(Run(cs), i);
    WalkExactly(Run(cs), i, offset);
  }

  /** Two signals of one name: the first is listed no more. */
  lemma RepeatedName()
    ensures var cs := [NewTemplate([], [], false), Intermediate("a"), Intermediate("a")];
            GraphOk(Run(cs)) && |Run(cs).nodes| == 1 && !Complete(Run(cs), 0, 0)
  {
    var cs := [NewTemplate([], [], false), Intermediate("a"), Intermediate("a")];
    var g := Run(cs);
    RunOk(cs);
    RepeatedRun();
    var names := g.nodes[0].correspondence;
    assert 1 in g.nodes[0].locals && !exists name :: name in names && names[name] == 1;
    assert !ReachNamed(g, 0);
    WalkExactly(g, 0, 0);
  }

  lemma RepeatedRun()
    ensures Run([NewTemplate([], [], false), Intermediate("a"), Intermediate("a")]) ==
            Graph([Node(2, 0, 0, 0, map["a" := 2], {1, 2}, {0}, [], false, [], [], [])], [[]])
  {
    var cs := [NewTemplate([], [], false), Intermediate("a"), Intermediate("a")];
    assert cs[..2] == [NewTemplate([], [], false), Intermediate("a")] && cs[..2][..1] == [NewTemplate([], [], false)];
    assert cs[..2][..1][..0] == [];
    assert Run(cs[..2][..1]) == Graph([NewNode([], [], false)], [[]]);
    var one, two := WithLocal(NewNode([], [], false), "a"), WithLocal(WithLocal(NewNode([], [], false), "a"), "a");
    assert one == Node(1, 0, 0, 0, map["a" := 1], {1}, {0}, [], false, [], [], []) by {
      assert one.correspondence == map["a" := 1] && one.locals == {1};
    }
    assert two == Node(2, 0, 0, 0, map["a" := 2], {1, 2}, {0}, [], false, [], [], []) by {
      assert two.correspondence == map["a" := 2] && two.locals == {1, 2};
    }
    assert Step(Run(cs[..2][..1]), Intermediate("a")) == Graph([one], [[]]);
    assert Run(cs[..2]) == Graph([Node(1, 0, 0, 0, map["a" := 1], {1}, {0}, [], false, [], [], [])], [[]]);
  }
}
