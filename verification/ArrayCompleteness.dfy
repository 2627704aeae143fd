/** Every rectangular array literal laid out parent-first, however deeply nested, is recognised with
    exactly its values. */
module ArrayCompleteness {
  import opened Field
  import opened ArrayStatements
  import opened ArrayLiteral

  /** How a declaration gives its dimensions: written out, whatever the cleaner recorded beside them, or recorded
      alone, as in the declarations the cleaner makes. */
  datatype Form = Written(memory: Option<seq<nat>>) | Recorded

  datatype Tree = Leaf(name: string, form: Form, values: seq<int>) | Node(name: string, form: Form, kids: seq<Tree>)

  ghost predicate Shaped(t: Tree, dims: seq<nat>)
    decreases t
  {
    && dims != [] && 0 < dims[0] < USIZE_LIMIT && Product(dims) < USIZE_LIMIT
    && match t
       case Leaf(_, _, values) => dims == [|values|]
       case Node(_, _, kids) => |dims| > 1 && |kids| == dims[0] && forall i :: 0 <= i < |kids| ==>
         Shaped(kids[i], dims[1..])
  }

  ghost function Flat(t: Tree): seq<int>
    decreases t, 0
  {
    match t
    case Leaf(_, _, values) => values
    case Node(_, _, kids) => FlatKids(t, |kids|)
  }

  ghost function FlatKids(t: Tree, n: nat): seq<int>
    requires t.Node? && n <= |t.kids|
    decreases t, 0, n
  {
    if n == 0 then [] else FlatKids(t, n - 1) + Flat(t.kids[n - 1])
  }

  function Numbers(dims: seq<nat>): seq<Expression> {
    seq(|dims|, i requires 0 <= i < |dims| => Number(dims[i]))
  }

  function Heading(name: string, form: Form, dims: seq<nat>): Statement {
    match form
    case Written(memory) => Declaration(name, memory, Numbers(dims))
    case Recorded => Declaration(name, Some(dims), [])
  }

  function At(i: nat): seq<Access> {
    [ArrayAccess(Number(i))]
  }

  /** The declaration, the children's statements, then the inserts. */
  ghost function Emit(t: Tree, dims: seq<nat>): seq<Statement>
    requires Shaped(t, dims)
    decreases t, 1
  {
    match t
    case Leaf(name, form, values) =>
      [Heading(name, form, dims)] + seq(|values|,
        i requires 0 <= i < |values| => Substitution(name, At(i), AssignVar, Number(values[i])))
    case Node(name, form, kids) =>
      [Heading(name, form, dims)] + EmitKids(t, dims, |kids|) + Inserts(name, kids)
  }

  ghost function EmitKids(t: Tree, dims: seq<nat>, n: nat): seq<Statement>
    requires Shaped(t, dims) && t.Node? && n <= |t.kids|
    decreases t, 0, n
  {
    if n == 0 then [] else EmitKids(t, dims, n - 1) + Emit(t.kids[n - 1], dims[1..])
  }

  function Inserts(name: string, kids: seq<Tree>): seq<Statement> {
    seq(|kids|, i requires 0 <= i < |kids| => Substitution(name, At(i), AssignVar, Variable(kids[i].name, [])))
  }

  ghost function Names(t: Tree): set<string>
    decreases t
  {
    match t
    case Leaf(name, _, _) => {name}
    case Node(name, _, kids) => {name} + (set i, x | 0 <= i < |kids| && x in Names(kids[i]) :: x)
  }

  /** All names in a tree are different. */
  ghost predicate Apart(t: Tree)
    decreases t
  {
    t.Leaf? ||
    ((forall i :: 0 <= i < |t.kids| ==> Apart(t.kids[i]) && t.name !in Names(t.kids[i]))
     && forall i, j :: 0 <= i < j < |t.kids| ==> Names(t.kids[i]) !! Names(t.kids[j]))
  }

  /** No statement assigns to any of the names. */
  ghost predicate Leaves(statements: seq<Statement>, names: set<string>) {
    forall i :: 0 <= i < |statements| ==> statements[i].Substitution? ==> statements[i].target !in names
  }

  lemma NoLeaves(names: set<string>)
    ensures Leaves([], names)
  {
  }

  lemma LeavesConcat(one: seq<Statement>, two: seq<Statement>, names: set<string>)
    requires Leaves(one, names) && Leaves(two, names)
    ensures Leaves(one + two, names)
  {
  }

  /** A tree's statements assign to its own names only. */
  lemma {:induction false} EmitTargets(t: Tree, dims: seq<nat>, names: set<string>)
    requires Shaped(t, dims) && names !! Names(t)
    ensures Leaves(Emit(t, dims), names)
    decreases t, 1
  {
    if t.Node? {
      EmitKidsTargets(t, dims, |t.kids|, names);
      assert Leaves(Inserts(t.name, t.kids), names);
    }
  }

  lemma {:induction false} EmitKidsTargets(t: Tree, dims: seq<nat>, n: nat, names: set<string>)
    requires Shaped(t, dims) && t.Node? && n <= |t.kids| && names !! Names(t)
    ensures Leaves(EmitKids(t, dims, n), names)
    decreases t, 0, n
  {
    if n > 0 {
      EmitKidsTargets(t, dims, n - 1, names);
      assert forall x :: x in Names(t.kids[n - 1]) ==> x in Names(t);
      EmitTargets(t.kids[n - 1], dims[1..], names);
      LeavesConcat(EmitKids(t, dims, n - 1), Emit(t.kids[n - 1], dims[1..]), names);
    }
  }

  // ---- Statements that do not touch a parent start no pass over it

  lemma InsertsNeedTarget(statements: seq<Statement>, parent: string, outer: nat, childDims: seq<nat>,
                          children: seq<Literal>, requireAll: bool)
    requires outer > 0 && (statements == [] || !(statements[0].Substitution? && statements[0].target == parent))
    ensures ConstantValuesFromInserts(statements, parent, outer, childDims, children, requireAll).None?
  {
    if |statements| >= outer {
      assert statements[..outer][..1] == [statements[0]];
      assert [statements[0]][..0] == [];
      assert Selected([statements[0]], parent, childDims, children).None?;
      SelectedStops(statements[..outer], parent, childDims, children, 1);
    }
  }

  /** A pass over a parent ends with an assignment to it. */
  lemma {:induction false} PassNeedsTarget(statements: seq<Statement>, parent: string, outer: nat, childDims: seq<nat>,
                                           children: seq<Literal>, consumed: nat)
    requires consumed <= |statements| && outer > 0 && Leaves(statements, {parent})
    ensures ConstantChildPass(statements, parent, outer, childDims, children, consumed).None?
    decreases |statements| - consumed
  {
    hide NextChild, ChildFirst;
    InsertsNeedTarget(statements[consumed..], parent, outer, childDims, children, false);
    if NextChild(statements[consumed..]).Some? {
      var child := NextChild(statements[consumed..]).value;
      PassNeedsTarget(statements, parent, outer, childDims, children + [child], consumed + child.consumed);
    } else if ChildFirst(statements, children, consumed, false).Some? {
      var child := ChildFirst(statements, children, consumed, false).value;
      PassNeedsTarget(statements, parent, outer, childDims, children + [child], child.consumed);
    }
  }

  // ---- Leaves

  lemma {:induction false} NumbersCollected(dims: seq<nat>)
    requires forall i :: 0 <= i < |dims| ==> dims[i] < USIZE_LIMIT
    ensures Collected(Numbers(dims)) == Some(dims)
  {
    if dims == [] {
      assert Numbers(dims) == [];
    } else {
      NumbersCollected(dims[1..]);
      assert Numbers(dims)[1..] == Numbers(dims[1..]);
      assert [dims[0]] + dims[1..] == dims;
    }
  }

  lemma HeadingConcrete(name: string, form: Form, dims: seq<nat>)
    requires dims != [] && forall i :: 0 <= i < |dims| ==> dims[i] < USIZE_LIMIT
    ensures var head := Heading(name, form, dims);
            && head.Declaration? && head.name == name
            && ConcreteDimensions(head.memory, head.dimensions) == Some(dims)
  {
    NumbersCollected(dims);
    assert |Numbers(dims)| == |dims|;
  }

  lemma {:induction false} ShapedSmall(t: Tree, dims: seq<nat>)
    requires Shaped(t, dims)
    ensures forall i :: 0 <= i < |dims| ==> 0 < dims[i] < USIZE_LIMIT
    decreases t
  {
    if t.Node? {
      ShapedSmall(t.kids[0], dims[1..]);
      assert forall i :: 0 < i < |dims| ==> dims[i] == dims[1..][i - 1];
    }
  }

  lemma SmallRemainder(i: nat, n: nat)
    requires i < n
    ensures i % n == i && i / n == 0
  {
  }

  lemma LeafElement(name: string, n: nat, i: nat, v: int)
    requires i < n < USIZE_LIMIT
    ensures ElementAt(Substitution(name, At(i), AssignVar, Number(v)), name, [n], i) == Some(v)
  {
    SmallRemainder(i, n);
    assert At(i)[..0] == [] && [n][..0] == [];
    assert IndexMatches(At(i)[..0], [n][..0], i / n);
    assert IndexMatches(At(i), [n], i);
  }

  lemma {:induction false} LeafPass(name: string, n: nat, values: seq<int>, m: nat)
    requires m <= |values| <= n && 0 < n < USIZE_LIMIT
    ensures var pass := seq(|values|, i requires 0 <= i < |values| => Substitution(name, At(i), AssignVar,
            Number(values[i])));
            PassValues(pass[..m], name, [n]) == Some(values[..m])
  {
    var pass := seq(|values|, i requires 0 <= i < |values| => Substitution(name, At(i), AssignVar, Number(values[i])));
    if m > 0 {
      LeafPass(name, n, values, m - 1);
      assert pass[..m][..m - 1] == pass[..m - 1];
      LeafElement(name, n, m - 1, values[m - 1]);
      hide ElementAt;
      assert values[..m] == values[..m - 1] + [values[m - 1]];
    }
  }

  lemma NoMorePass(statements: seq<Statement>, name: string, n: nat, values: Option<seq<int>>, consumed: nat)
    requires n > 0 && consumed <= |statements| && Leaves(statements[consumed..], {name})
    ensures DirectPasses(statements, name, n, consumed, values) == (values, consumed)
  {
    if consumed + n <= |statements| {
      var pass := statements[consumed..consumed + n];
      assert pass[0] == statements[consumed..][0];
      assert pass[..1][..0] == [] && pass[..1][0] == pass[0];
      assert PassValues(pass[..1], name, [n]).None?;
      PassStops(pass, name, [n], 1);
    }
  }

  lemma LeafRecognised(t: Tree, dims: seq<nat>, rest: seq<Statement>)
    requires t.Leaf? && Shaped(t, dims) && Leaves(rest, {t.name})
    ensures Direct(Emit(t, dims) + rest) == Some(Literal(t.name, dims, Flat(t), 0, |Emit(t, dims)|))
  {
    hide PassValues, DirectPasses, Heading, ConcreteDimensions;
    var statements, n := Emit(t, dims) + rest, |t.values|;
    var pass := statements[1..1 + n];
    HeadingConcrete(t.name, t.form, dims);
    LeafPass(t.name, n, t.values, n);
    DirectPassesNext(statements, t.name, n, 1, None);
    assert pass == seq(n, i requires 0 <= i < n => Substitution(t.name, At(i), AssignVar, Number(t.values[i])));
    assert pass[..n] == pass && t.values[..n] == t.values;
    assert statements[1 + n..] == rest;
    NoMorePass(statements, t.name, n, Some(t.values), 1 + n);
  }

  // ---- Nodes

  ghost function LiteralOf(t: Tree, dims: seq<nat>): Literal
    requires Shaped(t, dims)
  {
    Literal(t.name, dims, Flat(t), 0, |Emit(t, dims)|)
  }

  ghost function KidLiterals(t: Tree, dims: seq<nat>, n: nat): seq<Literal>
    requires Shaped(t, dims) && t.Node? && n <= |t.kids|
  {
    seq(n, i requires 0 <= i < n => LiteralOf(t.kids[i], dims[1..]))
  }

  lemma {:induction false} PositionOf(children: seq<Literal>, k: nat)
    requires k < |children| && forall i :: 0 <= i < k ==> children[i].name != children[k].name
    ensures Position(children, children[k].name, children[k].dimensions) == Some(k)
  {
    if k > 0 {
      PositionOf(children[1..], k - 1);
      assert children[1..][k - 1] == children[k];
    }
  }

  lemma {:induction false} NamedByItself(t: Tree)
    ensures t.name in Names(t)
  {
  }

  lemma KidsApart(t: Tree, dims: seq<nat>, k: nat)
    requires Shaped(t, dims) && t.Node? && Apart(t) && k < |t.kids|
    ensures forall i :: 0 <= i < k ==> KidLiterals(t, dims, |t.kids|)[i].name != KidLiterals(t, dims, |t.kids|)[k].name
  {
    NamedByItself(t.kids[k]);
    forall i | 0 <= i < k
      ensures t.kids[i].name != t.kids[k].name
    {
      NamedByItself(t.kids[i]);
      assert Names(t.kids[i]) !! Names(t.kids[k]);
    }
  }

  function Range(n: nat): (r: seq<nat>)
    ensures |r| == n && forall i :: 0 <= i < n ==> r[i] == i
  {
    seq(n, i => i)
  }

  lemma {:induction false} SelectInOrder(inserts: seq<Statement>, parent: string, dims: seq<nat>,
                                         children: seq<Literal>, m: nat)
    requires m <= |inserts| && forall i :: 0 <= i < |inserts| ==>
             InsertedChild(inserts[i], parent, i, dims, children) == Some(i)
    ensures Selected(inserts[..m], parent, dims, children) == Some(Range(m))
  {
    hide InsertedChild;
    if m > 0 {
      SelectInOrder(inserts, parent, dims, children, m - 1);
      assert inserts[..m][..m - 1] == inserts[..m - 1];
      assert Range(m) == Range(m - 1) + [m - 1];
    }
  }

  lemma {:induction false} FlattenInOrder(t: Tree, children: seq<Literal>, m: nat)
    requires t.Node? && m <= |t.kids| == |children| && forall i :: 0 <= i < |children| ==>
             children[i].values == Flat(t.kids[i])
    ensures Flattened(Range(m), children) == FlatKids(t, m)
  {
    hide Flat;
    if m > 0 {
      FlattenInOrder(t, children, m - 1);
      assert Range(m)[..m - 1] == Range(m - 1);
    }
  }

  lemma KidsSelected(t: Tree, dims: seq<nat>)
    requires Shaped(t, dims) && t.Node? && Apart(t)
    ensures Selected(Inserts(t.name, t.kids), t.name, dims[1..], KidLiterals(t, dims, |t.kids|)) ==
            Some(Range(|t.kids|))
    ensures Flattened(Range(|t.kids|), KidLiterals(t, dims, |t.kids|)) == FlatKids(t, |t.kids|)
  {
    var inserts, children := Inserts(t.name, t.kids), KidLiterals(t, dims, |t.kids|);
    assert dims[0] == |t.kids| < USIZE_LIMIT;
    forall i | 0 <= i < |inserts|
      ensures InsertedChild(inserts[i], t.name, i, dims[1..], children) == Some(i)
    {
      KidsApart(t, dims, i);
      PositionOf(children, i);
    }
    hide InsertedChild;
    SelectInOrder(inserts, t.name, dims[1..], children, |inserts|);
    assert inserts[..|inserts|] == inserts;
    FlattenInOrder(t, children, |t.kids|);
  }

  lemma {:induction false} FlatSize(t: Tree, dims: seq<nat>)
    requires Shaped(t, dims)
    ensures |Flat(t)| == Product(dims)
    decreases t, 1
  {
    if t.Node? {
      FlatKidsSize(t, dims, |t.kids|);
    } else {
      assert dims[1..] == [];
    }
  }

  lemma {:induction false} FlatKidsSize(t: Tree, dims: seq<nat>, n: nat)
    requires Shaped(t, dims) && t.Node? && n <= |t.kids|
    ensures |FlatKids(t, n)| == n * Product(dims[1..])
    decreases t, 0, n
  {
    if n > 0 {
      FlatKidsSize(t, dims, n - 1);
      FlatSize(t.kids[n - 1], dims[1..]);
      assert (n - 1) * Product(dims[1..]) + Product(dims[1..]) == n * Product(dims[1..]);
    }
  }

  lemma NodeInserts(t: Tree, dims: seq<nat>, rest: seq<Statement>)
    requires Shaped(t, dims) && t.Node? && Apart(t)
    ensures ConstantValuesFromInserts(Inserts(t.name, t.kids) + rest, t.name, dims[0], dims[1..],
            KidLiterals(t, dims, |t.kids|), false) == Some(Flat(t))
  {
    hide Selected, Flattened;
    var n, inserts := |t.kids|, Inserts(t.name, t.kids);
    KidsSelected(t, dims);
    FlatSize(t.kids[0], dims[1..]);
    assert (inserts + rest)[..n] == inserts;
  }

  /** The statements of the kids from the n-th up to the m-th. */
  ghost function KidsFrom(t: Tree, dims: seq<nat>, n: nat, m: nat): seq<Statement>
    requires Shaped(t, dims) && t.Node? && m <= |t.kids|
    decreases m
  {
    if n >= m then [] else KidsFrom(t, dims, n, m - 1) + Emit(t.kids[m - 1], dims[1..])
  }

  lemma {:induction false} KidsSplit(t: Tree, dims: seq<nat>, n: nat, m: nat)
    requires Shaped(t, dims) && t.Node? && n <= m <= |t.kids|
    ensures EmitKids(t, dims, m) == EmitKids(t, dims, n) + KidsFrom(t, dims, n, m)
    decreases m
  {
    hide Emit;
    if n < m { KidsSplit(t, dims, n, m - 1); }
  }

  lemma {:induction false} LaterKids(t: Tree, dims: seq<nat>, n: nat, m: nat)
    requires Shaped(t, dims) && t.Node? && Apart(t) && n < |t.kids| && m <= |t.kids|
    ensures Leaves(KidsFrom(t, dims, n + 1, m), Names(t.kids[n]))
    decreases m
  {
    hide Apart, Shaped, Emit, Names, Leaves;
    NoLeaves(Names(t.kids[n]));
    if n + 1 < m {
      KidNames(t, dims, n);
      KidsShaped(t, dims);
      LaterKids(t, dims, n, m - 1);
      EmitTargets(t.kids[m - 1], dims[1..], Names(t.kids[n]));
      LeavesConcat(KidsFrom(t, dims, n + 1, m - 1), Emit(t.kids[m - 1], dims[1..]), Names(t.kids[n]));
    }
  }

  /** What follows the n-th kid's statements. */
  ghost function After(t: Tree, dims: seq<nat>, n: nat, rest: seq<Statement>): seq<Statement>
    requires Shaped(t, dims) && t.Node?
  {
    KidsFrom(t, dims, n, |t.kids|) + Inserts(t.name, t.kids) + rest
  }

  /** It touches none of the n-th kid's names. */
  lemma AfterLeaves(t: Tree, dims: seq<nat>, n: nat, rest: seq<Statement>)
    requires Shaped(t, dims) && t.Node? && Apart(t) && n < |t.kids| && Leaves(rest, Names(t))
    ensures Leaves(After(t, dims, n + 1, rest), Names(t.kids[n]))
  {
    hide Shaped, Apart, Names, KidsFrom;
    LaterKids(t, dims, n, |t.kids|);
    KidNames(t, dims, n);
    var names, inserts := Names(t.kids[n]), Inserts(t.name, t.kids);
    assert Leaves(inserts, names);
    LeavesConcat(KidsFrom(t, dims, n + 1, |t.kids|), inserts, names);
    LeavesConcat(KidsFrom(t, dims, n + 1, |t.kids|) + inserts, rest, names);
  }

  lemma {:induction false} KidsFromNext(t: Tree, dims: seq<nat>, n: nat, m: nat)
    requires Shaped(t, dims) && t.Node? && n < m <= |t.kids|
    ensures KidsFrom(t, dims, n, m) == Emit(t.kids[n], dims[1..]) + KidsFrom(t, dims, n + 1, m)
    decreases m
  {
    hide Emit;
    if n + 1 < m { KidsFromNext(t, dims, n, m - 1); }
  }

  lemma KidNames(t: Tree, dims: seq<nat>, n: nat)
    requires Shaped(t, dims) && t.Node? && Apart(t) && n < |t.kids|
    ensures Names(t.kids[n]) <= Names(t) && t.name !in Names(t.kids[n])
    ensures forall i :: 0 <= i < |t.kids| && i != n ==> Names(t.kids[i]) !! Names(t.kids[n])
  {
    assert forall i :: 0 <= i < n ==> Names(t.kids[i]) !! Names(t.kids[n]);
    assert forall i :: n < i < |t.kids| ==> Names(t.kids[n]) !! Names(t.kids[i]);
  }

  lemma KidsShaped(t: Tree, dims: seq<nat>)
    requires Shaped(t, dims) && t.Node? && Apart(t)
    ensures |dims| > 1 && dims[0] == |t.kids| > 0 && forall i :: 0 <= i < |t.kids| ==>
            Shaped(t.kids[i], dims[1..]) && Apart(t.kids[i])
  {
  }

  lemma EmitStarts(t: Tree, dims: seq<nat>, rest: seq<Statement>)
    requires Shaped(t, dims)
    ensures var all := Emit(t, dims) + rest; |all| > 0 && all[0] == Heading(t.name, t.form, dims) && all[0].Declaration?
  {
  }

  /** A pass that looks at `statements` has the n first kids in its pool. */
  ghost predicate PassResult(statements: seq<Statement>, t: Tree, dims: seq<nat>, n: nat)
    requires Shaped(t, dims) && t.Node? && n <= |t.kids|
  {
    && |EmitKids(t, dims, n)| <= |statements|
    && ConstantChildPass(statements, t.name, dims[0], dims[1..], KidLiterals(t, dims, n), |EmitKids(t, dims, n)|)
       == Some((Flat(t), |EmitKids(t, dims, |t.kids|)| + |t.kids|))
  }

  lemma {:induction false} PassRecognised(t: Tree, dims: seq<nat>, n: nat, statements: seq<Statement>,
                                          rest: seq<Statement>)
    requires Shaped(t, dims) && t.Node? && Apart(t) && n <= |t.kids| && Leaves(rest, Names(t))
    requires statements == EmitKids(t, dims, n) + After(t, dims, n, rest)
    ensures PassResult(statements, t, dims, n)
    decreases t, 0, |t.kids| - n
  {
    hide Shaped, Apart, Emit, EmitKids, ConstantChildPass, Flat, After, PassResult, Names, NextChild, ParentFirst,
         Leaves;
    if n == |t.kids| {
      PassFinishes(t, dims, statements, rest);
    } else {
      KidsShaped(t, dims);
      AfterLeaves(t, dims, n, rest);
      Recognised(t.kids[n], dims[1..], After(t, dims, n + 1, rest));
      AfterNext(t, dims, n, rest);
      AppendApart(EmitKids(t, dims, n), Emit(t.kids[n], dims[1..]), After(t, dims, n + 1, rest));
      PassRecognised(t, dims, n + 1, statements, rest);
      PassMoves(t, dims, n, statements, rest);
    }
  }

  lemma AppendApart(one: seq<Statement>, two: seq<Statement>, three: seq<Statement>)
    ensures one + (two + three) == one + two + three
  {
  }

  lemma PassFinishes(t: Tree, dims: seq<nat>, statements: seq<Statement>, rest: seq<Statement>)
    requires Shaped(t, dims) && t.Node? && Apart(t) && statements == EmitKids(t, dims, |t.kids|) + After(t, dims,
             |t.kids|, rest)
    ensures PassResult(statements, t, dims, |t.kids|)
  {
    hide Shaped, Apart, Flat, ConstantValuesFromInserts, ConstantChildPass, EmitKids, Inserts, KidLiterals;
    KidsShaped(t, dims);
    NodeInserts(t, dims, rest);
    var consumed := |EmitKids(t, dims, |t.kids|)|;
    assert KidsFrom(t, dims, |t.kids|, |t.kids|) == [];
    assert statements[consumed..] == Inserts(t.name, t.kids) + rest;
    PassEnds(statements, t.name, dims[0], dims[1..], KidLiterals(t, dims, |t.kids|), consumed);
  }

  lemma PassEnds(statements: seq<Statement>, parent: string, outer: nat, childDims: seq<nat>, children: seq<Literal>,
                 consumed: nat)
    requires consumed <= |statements| && outer > 0
    requires ConstantValuesFromInserts(statements[consumed..], parent, outer, childDims, children, false).Some?
    ensures ConstantChildPass(statements, parent, outer, childDims, children, consumed)
            == Some((ConstantValuesFromInserts(statements[consumed..], parent, outer, childDims, children,
              false).value, consumed + outer))
  {
    hide NextChild, ConstantValuesFromInserts, ChildFirst;
  }

  lemma AfterNext(t: Tree, dims: seq<nat>, n: nat, rest: seq<Statement>)
    requires Shaped(t, dims) && t.Node? && n < |t.kids|
    ensures After(t, dims, n, rest) == Emit(t.kids[n], dims[1..]) + After(t, dims, n + 1, rest)
    ensures EmitKids(t, dims, n + 1) == EmitKids(t, dims, n) + Emit(t.kids[n], dims[1..])
  {
    hide Emit, Inserts, KidsFrom;
    KidsFromNext(t, dims, n, |t.kids|);
  }

  lemma LiteralNext(t: Tree, dims: seq<nat>, n: nat)
    requires Shaped(t, dims) && t.Node? && n < |t.kids|
    ensures KidLiterals(t, dims, n + 1) == KidLiterals(t, dims, n) + [LiteralOf(t.kids[n], dims[1..])]
  {
    hide Emit, Flat;
  }

  lemma PassMoves(t: Tree, dims: seq<nat>, n: nat, statements: seq<Statement>, rest: seq<Statement>)
    requires Shaped(t, dims) && t.Node? && Apart(t) && n < |t.kids| &&
             statements == EmitKids(t, dims, n) + After(t, dims, n, rest)
    requires Shaped(t.kids[n], dims[1..]) && NextChild(Emit(t.kids[n], dims[1..]) + After(t, dims, n + 1, rest)) ==
             Some(LiteralOf(t.kids[n], dims[1..]))
    ensures PassResult(statements, t, dims, n + 1) ==> PassResult(statements, t, dims, n)
  {
    hide Shaped, Apart, Emit, EmitKids, ConstantChildPass, Flat, After, NextChild, KidLiterals;
    KidsShaped(t, dims);
    AfterNext(t, dims, n, rest);
    LiteralNext(t, dims, n);
    var kid, after := Emit(t.kids[n], dims[1..]), After(t, dims, n + 1, rest);
    EmitStarts(t.kids[n], dims[1..], after);
    PassOnward(EmitKids(t, dims, n), kid + after, t.name, dims[0], dims[1..], KidLiterals(t, dims, n));
  }

  lemma PassOnward(before: seq<Statement>, tail: seq<Statement>, parent: string, outer: nat, childDims: seq<nat>,
                   children: seq<Literal>)
    requires outer > 0 && tail != [] && tail[0].Declaration? && NextChild(tail).Some?
    ensures var child := NextChild(tail).value;
            ConstantChildPass(before + tail, parent, outer, childDims, children, |before|)
            == ConstantChildPass(before + tail, parent, outer, childDims, children + [child], |before| + child.consumed)
  {
    hide NextChild, ConstantValuesFromInserts, ConstantChildPass;
    assert (before + tail)[|before|..] == tail;
    InsertsNeedTarget(tail, parent, outer, childDims, children, false);
    PassTakes(before + tail, parent, outer, childDims, children, |before|);
  }

  lemma PassTakes(statements: seq<Statement>, parent: string, outer: nat, childDims: seq<nat>, children: seq<Literal>,
                  consumed: nat)
    requires consumed <= |statements| && outer > 0 && NextChild(statements[consumed..]).Some?
    requires ConstantValuesFromInserts(statements[consumed..], parent, outer, childDims, children, false).None?
    ensures var child := NextChild(statements[consumed..]).value;
            ConstantChildPass(statements, parent, outer, childDims, children, consumed)
            == ConstantChildPass(statements, parent, outer, childDims, children + [child], consumed + child.consumed)
  {
    hide NextChild, ConstantValuesFromInserts, ChildFirst;
  }

  /** A tree's statements are recognised as its literal, whatever untouching statements follow. */
  lemma {:induction false} Recognised(t: Tree, dims: seq<nat>, rest: seq<Statement>)
    requires Shaped(t, dims) && Apart(t) && Leaves(rest, Names(t))
    ensures NextChild(Emit(t, dims) + rest) == Some(LiteralOf(t, dims))
    ensures t.Node? ==> ParentFirst(Emit(t, dims) + rest) == Some(LiteralOf(t, dims))
    decreases t, 1
  {
    NamedByItself(t);
    var statements := Emit(t, dims) + rest;
    if t.Leaf? {
      LeafRecognised(t, dims, rest);
    } else {
      NodeRecognised(t, dims, rest);
    }
  }

  lemma {:induction false} NodeRecognised(t: Tree, dims: seq<nat>, rest: seq<Statement>)
    requires Shaped(t, dims) && Apart(t) && Leaves(rest, Names(t)) && t.Node?
    ensures NextChild(Emit(t, dims) + rest) == Some(LiteralOf(t, dims))
    ensures ParentFirst(Emit(t, dims) + rest) == Some(LiteralOf(t, dims))
    decreases t, 0, |t.kids| + 1
  {
    hide Shaped, Apart, Emit, EmitKids, ConstantChildPass, Flat, Inserts, Collected, Numbers, Names, KidLiterals,
         After, Leaves, ParentFirst, NextChild, Heading, ConcreteDimensions;
    var body := NodeParts(t, dims, rest);
    PassRecognised(t, dims, 0, body + rest, rest);
    LeavesName(t, rest);
    OnePass(Heading(t.name, t.form, dims), body, rest, dims, Flat(t));
  }

  lemma LeavesName(t: Tree, rest: seq<Statement>)
    requires Leaves(rest, Names(t))
    ensures Leaves(rest, {t.name})
  {
    NamedByItself(t);
  }

  lemma NodeParts(t: Tree, dims: seq<nat>, rest: seq<Statement>) returns (body: seq<Statement>)
    requires Shaped(t, dims) && t.Node?
    ensures Emit(t, dims) + rest == [Heading(t.name, t.form, dims)] + (body + rest) &&
            |Emit(t, dims)| == 1 + |body|
    ensures body + rest == EmitKids(t, dims, 0) + After(t, dims, 0, rest)
    ensures EmitKids(t, dims, 0) == [] && KidLiterals(t, dims, 0) == [] &&
            |body| == |EmitKids(t, dims, |t.kids|)| + |t.kids|
    ensures |dims| > 1 && dims[0] > 0
    ensures var head := Heading(t.name, t.form, dims);
            head.Declaration? && head.name == t.name && ConcreteDimensions(head.memory, head.dimensions) == Some(dims)
  {
    NodeHeading(t, dims);
    NodeEmitted(t, dims);
    hide Emit, Inserts, Shaped, EmitKids, KidsFrom, Heading, ConcreteDimensions;
    KidsSplit(t, dims, 0, |t.kids|);
    body := EmitKids(t, dims, |t.kids|) + Inserts(t.name, t.kids);
    AppendApart([Heading(t.name, t.form, dims)], body, rest);
    NoneBefore(t, dims);
  }

  lemma NodeHeading(t: Tree, dims: seq<nat>)
    requires Shaped(t, dims) && t.Node?
    ensures |dims| > 1 && dims[0] > 0
    ensures var head := Heading(t.name, t.form, dims);
            head.Declaration? && head.name == t.name && ConcreteDimensions(head.memory, head.dimensions) == Some(dims)
  {
    hide Heading, ConcreteDimensions;
    ShapedSmall(t, dims);
    HeadingConcrete(t.name, t.form, dims);
  }

  lemma NodeEmitted(t: Tree, dims: seq<nat>)
    requires Shaped(t, dims) && t.Node?
    ensures Emit(t, dims) ==
            [Heading(t.name, t.form, dims)] + (EmitKids(t, dims, |t.kids|) + Inserts(t.name, t.kids))
    ensures |Inserts(t.name, t.kids)| == |t.kids|
  {
    hide EmitKids, Heading, Shaped;
  }

  lemma NoneBefore(t: Tree, dims: seq<nat>)
    requires Shaped(t, dims) && t.Node?
    ensures EmitKids(t, dims, 0) == [] && KidLiterals(t, dims, 0) == []
  {
  }

  /** A declaration, one complete pass, and nothing that touches the parent. */
  lemma OnePass(head: Statement, body: seq<Statement>, rest: seq<Statement>, dims: seq<nat>, values: seq<int>)
    requires head.Declaration? && ConcreteDimensions(head.memory, head.dimensions) == Some(dims) && |dims| > 1 &&
             dims[0] > 0
    requires ConstantChildPass(body + rest, head.name, dims[0], dims[1..], [], 0) == Some((values, |body|)) &&
             Leaves(rest, {head.name})
    ensures ParentFirst([head] + (body + rest)) == Some(Literal(head.name, dims, values, 0, 1 + |body|))
    ensures NextChild([head] + (body + rest)) == ParentFirst([head] + (body + rest))
  {
    hide ConstantChildPass, ConcreteDimensions, Leaves, ParentPasses, ParentFirst, NextChild, Direct;
    var statements, end := [head] + (body + rest), 1 + |body|;
    DropHead(head, body, rest);
    PassNeedsTarget(rest, head.name, dims[0], dims[1..], [], 0);
    PassesOnce(statements, head.name, dims[0], dims[1..], 1, |body|, values);
    ParentStarts(statements, dims);
  }

  lemma DropHead(head: Statement, body: seq<Statement>, rest: seq<Statement>)
    ensures var statements := [head] + (body + rest);
            |statements| == 1 + |body| + |rest| && statements[0] == head && statements[1..] == body + rest &&
              statements[1 + |body|..] == rest
  {
  }

  lemma ParentStarts(statements: seq<Statement>, dims: seq<nat>)
    requires statements != [] && statements[0].Declaration? &&
             ConcreteDimensions(statements[0].memory, statements[0].dimensions) == Some(dims)
    requires |dims| > 1 && dims[0] > 0
    ensures NextChild(statements) == ParentFirst(statements)
    ensures var (values, consumed) := ParentPasses(statements, statements[0].name, dims[0], dims[1..], 1, None);
            values.Some? ==>
              ParentFirst(statements) == Some(Literal(statements[0].name, dims, values.value, 0, consumed))
  {
    hide ConcreteDimensions, ParentPasses, DirectPasses;
  }

  lemma PassesOnce(statements: seq<Statement>, parent: string, outer: nat, childDims: seq<nat>, consumed: nat, k: nat,
                   values: seq<int>)
    requires consumed + k <= |statements| && outer > 0
    requires ConstantChildPass(statements[consumed..], parent, outer, childDims, [], 0) == Some((values, k))
    requires ConstantChildPass(statements[consumed + k..], parent, outer, childDims, [], 0).None?
    ensures ParentPasses(statements, parent, outer, childDims, consumed, None) == (Some(values), consumed + k)
  {
    hide ConstantChildPass;
    assert ParentPasses(statements, parent, outer, childDims, consumed + k, Some(values)) == (Some(values),
      consumed + k);
  }

  /** Every rectangular literal, laid out parent-first, is recovered with its dimensions and values. */
  lemma RecognitionComplete(t: Tree, dims: seq<nat>)
    requires Shaped(t, dims) && Apart(t)
    ensures ConcreteArrayLiteral(Emit(t, dims)) == Some(LiteralOf(t, dims))
  {
    var statements := Emit(t, dims);
    assert statements + [] == statements;
    Recognised(t, dims, []);
    if t.Leaf? {
      LeafRecognised(t, dims, []);
      HeadingConcrete(t.name, t.form, dims);
      var literal := LiteralOf(t, dims);
      assert ParentFirst(statements).None?;
      assert statements[0..] == statements && statements[|statements|..] == [];
      assert Chain(statements, [] + [literal], 0 + literal.consumed, None).None?;
    }
  }

  // ---- The form of the first declaration does not matter

  lemma {:induction false} TailDirectPasses(one: seq<Statement>, two: seq<Statement>, name: string, n: nat,
                                            consumed: nat, values: Option<seq<int>>)
    requires |one| == |two| && 1 <= consumed <= |one| && one[1..] == two[1..] && n > 0
    ensures DirectPasses(one, name, n, consumed, values) == DirectPasses(two, name, n, consumed, values)
    decreases |one| - consumed
  {
    hide PassValues;
    if consumed + n <= |one| {
      TailSame(one, two, consumed);
      assert one[consumed..][..n] == one[consumed..consumed + n];
      assert two[consumed..][..n] == two[consumed..consumed + n];
      var pass := PassValues(one[consumed..consumed + n], name, [n]);
      if pass.Some? {
        TailDirectPasses(one, two, name, n, consumed + n, pass);
      }
    }
  }

  lemma TailSame(one: seq<Statement>, two: seq<Statement>, consumed: nat)
    requires |one| == |two| && 1 <= consumed <= |one| && one[1..] == two[1..]
    ensures one[consumed..] == two[consumed..]
  {
    assert one[consumed..] == one[1..][consumed - 1..] && two[consumed..] == two[1..][consumed - 1..];
  }

  lemma {:induction false} TailParentPasses(one: seq<Statement>, two: seq<Statement>, parent: string, outer: nat,
                                            childDims: seq<nat>, consumed: nat, values: Option<seq<int>>)
    requires |one| == |two| && 1 <= consumed <= |one| && one[1..] == two[1..] && outer > 0
    ensures ParentPasses(one, parent, outer, childDims, consumed, values) ==
            ParentPasses(two, parent, outer, childDims, consumed, values)
    decreases |one| - consumed
  {
    hide ConstantChildPass;
    TailSame(one, two, consumed);
    var pass := ConstantChildPass(one[consumed..], parent, outer, childDims, [], 0);
    if pass.Some? {
      TailParentPasses(one, two, parent, outer, childDims, consumed + pass.value.1, Some(pass.value.0));
    }
  }

  lemma TailChildFirst(one: seq<Statement>, two: seq<Statement>, children: seq<Literal>, offset: nat, requireAll: bool)
    requires |one| == |two| > 0 && offset > 0 && one[1..] == two[1..]
    ensures ChildFirst(one, children, offset, requireAll) == ChildFirst(two, children, offset, requireAll)
  {
    hide ConcreteDimensions, ConstantValuesFromInserts;
    if offset < |one| {
      TailSame(one, two, offset);
      TailSame(one, two, offset + 1);
      assert one[offset] == one[offset..][0] && two[offset] == two[offset..][0];
    }
  }

  lemma {:induction false} TailChain(one: seq<Statement>, two: seq<Statement>, children: seq<Literal>, consumed: nat,
                                     last: Option<Literal>)
    requires |one| == |two| && 1 <= consumed <= |one| && one[1..] == two[1..]
    ensures Chain(one, children, consumed, last) == Chain(two, children, consumed, last)
    decreases |one| - consumed
  {
    hide ChildFirst, NextChild;
    TailChildFirst(one, two, children, consumed, true);
    TailSame(one, two, consumed);
    var literal, child := ChildFirst(one, children, consumed, true), NextChild(one[consumed..]);
    if literal.Some? {
      TailChain(one, two, [literal.value], literal.value.consumed, literal);
    } else if child.Some? {
      TailChain(one, two, children + [child.value], consumed + child.value.consumed, last);
    }
  }

  /** Two declarations of one name with the same dimensions are the same to the three matchers. */
  lemma HeadingsAlike(first: Statement, second: Statement, rest: seq<Statement>)
    requires first.Declaration? && second.Declaration? && first.name == second.name
    requires ConcreteDimensions(first.memory, first.dimensions) == ConcreteDimensions(second.memory, second.dimensions)
    ensures Direct([first] + rest) == Direct([second] + rest)
    ensures ParentFirst([first] + rest) == ParentFirst([second] + rest)
  {
    hide ConcreteDimensions, DirectPasses, ParentPasses;
    var one, two, dims := [first] + rest, [second] + rest, ConcreteDimensions(first.memory, first.dimensions);
    assert one[1..] == rest == two[1..];
    if dims.Some? && |dims.value| >= 1 && dims.value[0] > 0 {
      TailDirectPasses(one, two, first.name, dims.value[0], 1, None);
      TailParentPasses(one, two, first.name, dims.value[0], dims.value[1..], 1, None);
    }
  }

  lemma LiteralsAlike(first: Statement, second: Statement, rest: seq<Statement>)
    requires first.Declaration? && second.Declaration? && first.name == second.name
    requires ConcreteDimensions(first.memory, first.dimensions) == ConcreteDimensions(second.memory, second.dimensions)
    ensures ConcreteArrayLiteral([first] + rest) == ConcreteArrayLiteral([second] + rest)
  {
    hide ConcreteDimensions, Direct, ParentFirst, Chain;
    var one, two := [first] + rest, [second] + rest;
    HeadingsAlike(first, second, rest);
    ChainStart(one);
    ChainStart(two);
    var child := NextChild(one);
    assert NextChild(two) == child;
    if child.Some? {
      TailChain(one, two, [child.value], child.value.consumed, None);
    }
  }

  /** Recorded dimensions stand for written ones: whatever follows, the two forms of the first declaration give the
      same literal, or none. */
  lemma RecordedAsWritten(name: string, memory: Option<seq<nat>>, dims: seq<nat>, rest: seq<Statement>)
    requires dims != [] && forall i :: 0 <= i < |dims| ==> dims[i] < USIZE_LIMIT
    ensures ConcreteArrayLiteral([Declaration(name, Some(dims), [])] + rest) ==
            ConcreteArrayLiteral([Declaration(name, memory, Numbers(dims))] + rest)
  {
    hide ConcreteArrayLiteral;
    HeadingConcrete(name, Recorded, dims);
    HeadingConcrete(name, Written(memory), dims);
    LiteralsAlike(Declaration(name, Some(dims), []), Declaration(name, memory, Numbers(dims)), rest);
  }

  /** The chain begins with a literal that starts at the first statement. */
  lemma ChainStart(statements: seq<Statement>)
    ensures Chain(statements, [], 0, None) ==
            match NextChild(statements)
            case None => None
            case Some(child) => Chain(statements, [child], child.consumed, None)
  {
    hide NextChild;
    assert statements[0..] == statements;
    assert ChildFirst(statements, [], 0, true).None?;
    if NextChild(statements).Some? {
      assert [] + [NextChild(statements).value] == [NextChild(statements).value];
    }
  }
}
