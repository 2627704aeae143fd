/** What a run of the add operations leaves in the template under construction, told by its commands
    (dag/src/lib.rs). */
module RunInterfaces {
  import opened Field
  import opened Constraints
  import opened Bytes
  import opened Dag
  import opened TreeWalk
  import opened GraphRuns
  import opened InstancePaths
  import opened CircuitMap

  /** The commands since the last new template. */
  function Block(cs: seq<Command>): seq<Command> {
    if cs == [] || cs[|cs| - 1].NewTemplate? then [] else Block(cs[..|cs| - 1]) + [cs[|cs| - 1]]
  }

  /** The command that began the template. */
  function Opening(cs: seq<Command>): Option<Command> {
    if cs == [] then None
    else if cs[|cs| - 1].NewTemplate? then Some(cs[|cs| - 1])
    else Opening(cs[..|cs| - 1])
  }

  function Outputs(b: seq<Command>): set<nat> {
    set i | 0 <= i < |b| && b[i].Output?
  }

  function Inputs(b: seq<Command>, isPublic: bool): set<nat> {
    set i | 0 <= i < |b| && b[i].Input? && b[i].isPublic == isPublic
  }

  function Constrained(b: seq<Command>): seq<Constraint> {
    if b == [] then []
    else Constrained(b[..|b| - 1]) + if b[|b| - 1].Constrain? then [b[|b| - 1].constraint] else []
  }

  function OrderedNames(b: seq<Command>): seq<string> {
    if b == [] then []
    else OrderedNames(b[..|b| - 1]) + if b[|b| - 1].Ordered? then [b[|b| - 1].symbol] else []
  }

  ghost predicate Tells(cs: seq<Command>, node: Node) {
    var b := Block(cs);
    && Opening(cs) == Some(NewTemplate(node.templateName, node.parameters, node.isCustomGate))
    && node.outputsLength == |Outputs(b)| && node.publicInputsLength == |Inputs(b, true)|
    && node.inputsLength == |Inputs(b, true)| + |Inputs(b, false)|
    && node.constraints == Constrained(b) && node.orderedSignals == OrderedNames(b)
  }

  lemma {:induction false} OutputsSnoc(b: seq<Command>, c: Command)
    ensures |Outputs(b + [c])| == |Outputs(b)| + if c.Output? then 1 else 0
  {
    var next, n := b + [c], |b|;
    assert forall i :: 0 <= i < n ==> next[i] == b[i];
    assert Outputs(next) == Outputs(b) + if c.Output? then {n} else {};
  }

  lemma {:induction false} InputsSnoc(b: seq<Command>, c: Command, isPublic: bool)
    ensures |Inputs(b + [c], isPublic)| == |Inputs(b, isPublic)| + if c.Input? && c.isPublic == isPublic then 1 else 0
  {
    var next, n := b + [c], |b|;
    assert forall i :: 0 <= i < n ==> next[i] == b[i];
    assert Inputs(next, isPublic) == Inputs(b, isPublic) + if c.Input? && c.isPublic == isPublic then {n} else {};
  }

  lemma {:induction false} ListsSnoc(b: seq<Command>, c: Command)
    ensures Constrained(b + [c]) == Constrained(b) + if c.Constrain? then [c.constraint] else []
    ensures OrderedNames(b + [c]) == OrderedNames(b) + if c.Ordered? then [c.symbol] else []
  {
    assert (b + [c])[..|b|] == b;
  }

  /** The template is what the commands say: its counts are numbers of commands, its lists their arguments in order. */
  lemma {:induction false} RunTells(cs: seq<Command>)
    requires Run(cs).nodes != []
    ensures Tells(cs, Last(Run(cs)))
  {
    hide Outputs, Inputs, Constrained, OrderedNames, Qualified;
    var n := |cs| - 1;
    var before, c := cs[..n], cs[n];
    assert Run(cs) == Step(Run(before), c);
    match c {
      case NewTemplate(_, _, _) => NothingTold();
      case _ =>
        RunTells(before);
        OutputsSnoc(Block(before), c);
        InputsSnoc(Block(before), c, true);
        InputsSnoc(Block(before), c, false);
        ListsSnoc(Block(before), c);
        assert Block(cs) == Block(before) + [c];
        StepTells(before, c);
    }
  }

  lemma NothingTold()
    ensures Outputs([]) == {} && Inputs([], true) == {} && Inputs([], false) == {}
    ensures Constrained([]) == [] && OrderedNames([]) == []
  {
  }

  lemma StepTells(before: seq<Command>, c: Command)
    requires Run(before).nodes != [] && !c.NewTemplate?
    ensures Step(Run(before), c).nodes != []
    ensures var was, now := Last(Run(before)), Last(Step(Run(before), c));
            && now.templateName == was.templateName && now.parameters == was.parameters
            && now.isCustomGate == was.isCustomGate
            && now.outputsLength == was.outputsLength + (if c.Output? then 1 else 0)
            && now.inputsLength == was.inputsLength + (if c.Input? then 1 else 0)
            && now.publicInputsLength == was.publicInputsLength + (if c.Input? && c.isPublic then 1 else 0)
            && now.constraints == was.constraints + (if c.Constrain? then [c.constraint] else [])
            && now.orderedSignals == was.orderedSignals + (if c.Ordered? then [c.symbol] else [])
  {
    hide Qualified, Run;
  }

  // ---- The interface

  predicate Declares(c: Command) {
    c.Output? || c.Input? || c.Intermediate? || c.Connect?
  }

  /** Outputs are declared first, then public inputs, then everything else that takes identifiers. */
  predicate InterfaceFirst(b: seq<Command>) {
    && (forall i, j :: 0 <= i < j < |b| && b[j].Output? && Declares(b[i]) ==> b[i].Output?)
    && (forall i, j :: 0 <= i < j < |b| && b[j].Input? && b[j].isPublic && Declares(b[i]) ==> OnInterface(b[i]))
  }

  predicate OnInterface(c: Command) {
    c.Output? || (c.Input? && c.isPublic)
  }

  /** The interface, and as long as nothing else was declared, nothing but the interface. */
  ghost predicate InterfaceSoFar(b: seq<Command>, node: Node) {
    && Interface(node)
    && (forall x: nat :: x in node.forbiddenIfMain <==> x <= node.outputsLength + node.publicInputsLength)
    && ((forall i :: 0 <= i < |b| && Declares(b[i]) ==> b[i].Output?) ==>
          node.numberOfSignals == node.outputsLength && node.inputsLength == 0)
    && ((forall i :: 0 <= i < |b| && Declares(b[i]) ==> OnInterface(b[i])) ==>
          node.publicInputsLength == node.inputsLength &&
            node.numberOfSignals == node.outputsLength + node.inputsLength)
  }

  /** What must stay is then the constant wire, the outputs and the public inputs: the first identifiers. */
  lemma {:induction false} RunInterface(cs: seq<Command>)
    requires Run(cs).nodes != [] && InterfaceFirst(Block(cs))
    ensures InterfaceSoFar(Block(cs), Last(Run(cs)))
  {
    hide Qualified, InterfaceSoFar, InterfaceFirst, Step;
    var n := |cs| - 1;
    var before, c := cs[..n], cs[n];
    assert Run(cs) == Step(Run(before), c);
    match c {
      case NewTemplate(template, parameters, isCustomGate) =>
        FreshInterface(Run(before), template, parameters, isCustomGate);
      case _ =>
        StepStays(Run(before), c);
        assert Block(cs) == Block(before) + [c];
        FrontFirst(Block(before), c);
        RunInterface(before);
        StepInterface(Block(before), Run(before), c);
    }
  }

  lemma FreshInterface(g: Graph, template: seq<byte>, parameters: seq<nat>, isCustomGate: bool)
    requires |g.nodes| == |g.adjacency|
    ensures InterfaceSoFar([], Last(Step(g, NewTemplate(template, parameters, isCustomGate))))
  {
    var node := NewNode(template, parameters, isCustomGate);
    assert Last(Step(g, NewTemplate(template, parameters, isCustomGate))) == node;
  }

  lemma StepStays(g: Graph, c: Command)
    requires |g.nodes| == |g.adjacency| && !c.NewTemplate?
    ensures Step(g, c).nodes != [] ==> g.nodes != []
  {
    hide Qualified, Changed;
  }

  lemma FrontFirst(b: seq<Command>, c: Command)
    requires InterfaceFirst(b + [c])
    ensures InterfaceFirst(b)
  {
    var all := b + [c];
    assert forall i :: 0 <= i < |b| ==> all[i] == b[i];
  }

  lemma StepInterface(b: seq<Command>, g: Graph, c: Command)
    requires |g.nodes| == |g.adjacency| && g.nodes != [] && !c.NewTemplate?
    requires InterfaceFirst(b + [c]) && InterfaceSoFar(b, Last(g))
    ensures Step(g, c).nodes != [] && InterfaceSoFar(b + [c], Last(Step(g, c)))
  {
    hide InterfaceSoFar, InterfaceFirst, Step;
    StepNumbers(g, c);
    InterfaceNext(b, c, Last(g), Last(Step(g, c)));
  }

  /** What a command does to the numbers of a template. */
  ghost predicate Numbered(c: Command, was: Node, now: Node) {
    && now.outputsLength == was.outputsLength + (if c.Output? then 1 else 0)
    && now.inputsLength == was.inputsLength + (if c.Input? then 1 else 0)
    && now.publicInputsLength == was.publicInputsLength + (if c.Input? && c.isPublic then 1 else 0)
    && now.numberOfSignals >= was.numberOfSignals
    && (c.Output? || c.Input? ==> now.numberOfSignals == was.numberOfSignals + 1)
    && (!Declares(c) ==> now.numberOfSignals == was.numberOfSignals)
    && now.forbiddenIfMain == was.forbiddenIfMain + if OnInterface(c) then {was.numberOfSignals + 1} else {}
  }

  lemma StepNumbers(g: Graph, c: Command)
    requires |g.nodes| == |g.adjacency| && g.nodes != [] && !c.NewTemplate?
    ensures Step(g, c).nodes != [] && Numbered(c, Last(g), Last(Step(g, c)))
  {
    hide Qualified;
  }

  lemma InterfaceNext(b: seq<Command>, c: Command, was: Node, now: Node)
    requires InterfaceFirst(b + [c]) && InterfaceSoFar(b, was) && Numbered(c, was, now)
    ensures InterfaceSoFar(b + [c], now)
  {
    var all := b + [c];
    assert all[|b|] == c && forall i :: 0 <= i < |b| ==> all[i] == b[i];
    if c.Output? { assert forall i :: 0 <= i < |b| && Declares(b[i]) ==> b[i].Output?; }
    if OnInterface(c) { assert forall i :: 0 <= i < |b| && Declares(b[i]) ==> OnInterface(b[i]); }
  }

  /** The header of the file counts the commands. */
  lemma RunCounts(cs: seq<Command>)
    requires Run(cs).nodes != []
    ensures var main, b := Last(Run(cs)), Block(cs);
            && main.outputsLength == |Outputs(b)| && main.publicInputsLength == |Inputs(b, true)|
            && main.inputsLength - main.publicInputsLength == |Inputs(b, false)|
  {
    hide Outputs, Inputs, Run, Block;
    RunTells(cs);
  }

  // ---- Names of component signals

  /** A signal of the component is named after both, and stands for the identifier the walk lists for it. */
  lemma ComponentNamed(g: Graph, to: nat, component: string, name: string, offset: nat)
    requires GraphOk(g) && WithEdge(g, to, component).Some?
    requires name in g.nodes[to].correspondence && g.nodes[to].correspondence[name] in g.nodes[to].locals
    ensures var next := WithEdge(g, to, component).value;
            var node, edges := Last(next), next.adjacency[|next.adjacency| - 1];
            && |edges| > 0 && edges[|edges| - 1].goesTo == to && edges[|edges| - 1].component == component
            && component + "." + name in node.correspondence
            && node.correspondence[component + "." + name] == edges[|edges| - 1].inNumber +
                 g.nodes[to].correspondence[name]
            && node.correspondence[component + "." + name] + offset in
                 Wires(g.nodes[to], offset + edges[|edges| - 1].inNumber)
  {
    hide GraphOk, Qualified, Wires, NamedWire, NamedOnce, Partitioned;
    var node, child := Last(g), g.nodes[to];
    GraphSize(g, to);
    QualifiedAt(component, child, node.numberOfSignals, name);
    LocalWire(child, offset + node.numberOfSignals, name);
  }

  lemma QualifiedAt(component: string, child: Node, offset: nat, name: string)
    requires name in child.correspondence && child.correspondence[name] in child.locals
    ensures var more := Qualified(component, child, offset, child.correspondence.Keys);
            component + "." + name in more && more[component + "." + name] == child.correspondence[name] + offset
  {
    QualifiedInjective(component);
    var more := Qualified(component, child, offset, child.correspondence.Keys);
    assert more[QualifiedName(component, name)] == child.correspondence[name] + offset;
  }

  lemma LocalWire(node: Node, offset: nat, name: string)
    requires name in node.correspondence && node.correspondence[name] in node.locals
    ensures node.correspondence[name] + offset in Wires(node, offset)
  {
    hide Wires;
    WiresNamed(node, offset, node.correspondence[name] + offset);
  }
}
