/** Array literals whose temporaries come before them (the loop of concrete_array_literal_initializer in
    llzk_backend/src/function.rs): which chains of them are recognised, and as what. */
module ChildFirstChains {
  import opened Field
  import opened ArrayStatements
  import opened ArrayLiteral
  import opened ArraySoundness
  import opened ArrayCompleteness

  /** A temporary laid out parent-first, or a parent declared after the temporaries it selects. */
  datatype Item = Kid(tree: Tree) | Parent(name: string, form: Form, order: seq<nat>)

  /** After some items: the dimensions of what is in the pool, the pool, the statements, the last parent. */
  datatype Progress = Progress(dims: seq<nat>, pool: seq<Literal>, statements: seq<Statement>, last: Option<Literal>)

  /** Every temporary of the pool is selected, in any order and as often as wanted. */
  ghost predicate Uses(order: seq<nat>, pool: seq<Literal>) {
    && pool != [] && (forall i :: 0 <= i < |order| ==> order[i] < |pool|)
    && forall k :: 0 <= k < |pool| ==> k in order
  }

  function InsertsOf(name: string, order: seq<nat>, pool: seq<Literal>): seq<Statement>
    requires forall i :: 0 <= i < |order| ==> order[i] < |pool|
  {
    seq(|order|, i requires 0 <= i < |order| => Substitution(name, At(i), AssignVar, Variable(pool[order[i]].name, [])))
  }

  ghost function Promoted(p: Progress, name: string, order: seq<nat>): Literal
    requires Uses(order, p.pool)
  {
    Literal(name, [|order|] + p.dims, Flattened(order, p.pool), |p.statements|, |p.statements| + |order| + 1)
  }

  ghost function Extended(p: Progress, item: Item): Option<Progress> {
    match item
    case Kid(tree) =>
      if Shaped(tree, p.dims) && Apart(tree)
      then Some(Progress(p.dims, p.pool + [LiteralOf(tree, p.dims)], p.statements + Emit(tree, p.dims), p.last))
      else None
    case Parent(name, form, order) =>
      if Uses(order, p.pool) && |order| < USIZE_LIMIT && |order| * Product(p.dims) < USIZE_LIMIT
      then Some(Progress([|order|] + p.dims, [Promoted(p, name, order)],
                         p.statements + ([Heading(name, form, [|order|] + p.dims)] +
                           InsertsOf(name, order, p.pool)),
                         Some(Promoted(p, name, order))))
      else None
  }

  ghost function After(items: seq<Item>, base: seq<nat>): Option<Progress> {
    if items == [] then Some(Progress(base, [], [], None)) else
      match After(items[..|items| - 1], base)
      case None => None
      case Some(p) => Extended(p, items[|items| - 1])
  }

  ghost function ItemNames(item: Item): set<string> {
    match item
    case Kid(tree) => Names(tree)
    case Parent(name, _, _) => {name}
  }

  ghost predicate Laid(items: seq<Item>, base: seq<nat>) {
    && After(items, base).Some?
    && forall i, j :: 0 <= i < j < |items| ==> ItemNames(items[i]) !! ItemNames(items[j])
  }

  ghost function NamesBefore(items: seq<Item>): set<string> {
    set i, x | 0 <= i < |items| && x in ItemNames(items[i]) :: x
  }

  // ---- What the pool holds

  ghost predicate PoolOk(p: Progress, used: set<string>) {
    && (forall k :: 0 <= k < |p.pool| ==> Member(p.pool[k], p.dims, used))
    && (forall i, k :: 0 <= i < k < |p.pool| ==> p.pool[i].name != p.pool[k].name)
    && (p.pool != [] ==> forall i :: 0 <= i < |p.dims| ==> p.dims[i] < USIZE_LIMIT)
  }

  ghost predicate Member(literal: Literal, dims: seq<nat>, used: set<string>) {
    literal.dimensions == dims && |literal.values| == Product(dims) && literal.name in used
  }

  lemma KidKeeps(p: Progress, tree: Tree, used: set<string>)
    requires PoolOk(p, used) && Extended(p, Kid(tree)).Some? && used !! Names(tree)
    ensures PoolOk(Extended(p, Kid(tree)).value, used + Names(tree))
  {
    hide Product, Flat, Emit, Shaped, Apart, Names;
    NamedByItself(tree);
    FlatSize(tree, p.dims);
    ShapedSmall(tree, p.dims);
  }

  lemma ParentKeeps(p: Progress, name: string, form: Form, order: seq<nat>, used: set<string>)
    requires PoolOk(p, used) && Extended(p, Parent(name, form, order)).Some?
    ensures PoolOk(Extended(p, Parent(name, form, order)).value, used + {name})
  {
    hide Flattened, InsertsOf;
    forall k | 0 <= k < |p.pool|
      ensures Member(p.pool[k], p.dims, used) && |p.pool[k].values| == Product(p.pool[k].dimensions)
    {
    }
    FlattenedSize(order, p.pool, p.dims);
    assert ([|order|] + p.dims)[1..] == p.dims;
  }

  // ---- The prefix that has been read

  lemma {:induction false} PrefixLaid(items: seq<Item>, base: seq<nat>, n: nat)
    requires After(items, base).Some? && n <= |items|
    ensures After(items[..n], base).Some?
    ensures After(items[..n], base).value.statements <= After(items, base).value.statements
    decreases |items|
  {
    hide Extended;
    if n == |items| {
      assert items[..n] == items;
    } else {
      var m := |items| - 1;
      PrefixLaid(items[..m], base, n);
      assert items[..m][..n] == items[..n];
      Grows(After(items[..m], base).value, items[m]);
    }
  }

  lemma Grows(p: Progress, item: Item)
    requires Extended(p, item).Some?
    ensures p.statements <= Extended(p, item).value.statements
  {
    hide Emit, Shaped, Apart;
  }

  lemma NextLaid(items: seq<Item>, base: seq<nat>, n: nat)
    requires After(items, base).Some? && n < |items|
    ensures After(items[..n], base).Some? && After(items[..n + 1], base).Some?
    ensures Extended(After(items[..n], base).value, items[n]) == After(items[..n + 1], base)
  {
    hide Extended;
    PrefixLaid(items, base, n);
    PrefixLaid(items, base, n + 1);
    assert items[..n + 1][..n] == items[..n];
  }

  lemma {:induction false} PoolKept(items: seq<Item>, base: seq<nat>, n: nat)
    requires Laid(items, base) && n <= |items|
    ensures After(items[..n], base).Some? && PoolOk(After(items[..n], base).value, NamesBefore(items[..n]))
  {
    hide Extended, PoolOk, ItemNames;
    if n == 0 {
      EmptyPool(base);
    } else {
      NextLaid(items, base, n - 1);
      PoolKept(items, base, n - 1);
      var p, item := After(items[..n - 1], base).value, items[n - 1];
      NamesNext(items, n - 1);
      match item {
        case Kid(tree) => KidKeeps(p, tree, NamesBefore(items[..n - 1]));
        case Parent(name, form, order) => ParentKeeps(p, name, form, order, NamesBefore(items[..n - 1]));
      }
    }
  }

  lemma EmptyPool(base: seq<nat>)
    ensures After([], base) == Some(Progress(base, [], [], None))
    ensures PoolOk(After([], base).value, NamesBefore([]))
  {
  }

  lemma NamesNext(items: seq<Item>, n: nat)
    requires n < |items| && forall i, j :: 0 <= i < j < |items| ==> ItemNames(items[i]) !! ItemNames(items[j])
    ensures NamesBefore(items[..n]) !! ItemNames(items[n])
    ensures NamesBefore(items[..n + 1]) == NamesBefore(items[..n]) + ItemNames(items[n])
    ensures match items[n] case Kid(tree) => ItemNames(items[n]) == Names(tree)
                           case Parent(name, _, _) => ItemNames(items[n]) == {name}
  {
    hide Names;
  }

  // ---- What follows an item does not assign to its names

  lemma {:induction false} FollowingLeaves(items: seq<Item>, base: seq<nat>, n: nat, names: set<string>)
    requires After(items, base).Some? && n <= |items|
    requires forall m :: n <= m < |items| ==> ItemNames(items[m]) !! names
    ensures After(items[..n], base).Some?
    ensures var from, all := |After(items[..n], base).value.statements|, After(items, base).value.statements;
            from <= |all| && Leaves(all[from..], names)
    decreases |items|
  {
    hide Extended, ItemNames;
    PrefixLaid(items, base, n);
    if n == |items| {
      assert items[..n] == items;
    } else {
      var m := |items| - 1;
      var p := After(items[..m], base).value;
      assert items[..m][..n] == items[..n];
      FollowingLeaves(items[..m], base, n, names);
      ItemTargets(p, items[m], names);
    }
  }

  lemma ItemTargets(p: Progress, item: Item, names: set<string>)
    requires Extended(p, item).Some? && ItemNames(item) !! names
    ensures var all := Extended(p, item).value.statements;
            forall from :: 0 <= from <= |p.statements| && Leaves(p.statements[from..], names) ==>
              Leaves(all[from..], names)
  {
    hide Apart, Shaped, Emit, Names;
    var all := Extended(p, item).value.statements;
    var more := all[|p.statements|..];
    match item {
      case Kid(tree) =>
        EmitTargets(tree, p.dims, names);
        assert more == Emit(tree, p.dims);
      case Parent(name, form, order) =>
        assert name !in names;
    }
    assert Leaves(more, names);
    forall from | 0 <= from <= |p.statements| && Leaves(p.statements[from..], names)
      ensures Leaves(all[from..], names)
    {
      assert all[from..] == p.statements[from..] + more;
    }
  }

  // ---- One item

  lemma FirstInsert(statements: seq<Statement>, parent: string, outer: nat, childDims: seq<nat>,
                    children: seq<Literal>, requireAll: bool)
    requires outer > 0 && (statements == [] || !statements[0].Substitution? || statements[0].rhe.Number?)
    ensures ConstantValuesFromInserts(statements, parent, outer, childDims, children, requireAll).None?
  {
    if |statements| >= outer {
      assert statements[..outer][..1] == [statements[0]];
      assert [statements[0]][..0] == [];
      assert Selected([statements[0]], parent, childDims, children).None?;
      SelectedStops(statements[..outer], parent, childDims, children, 1);
    }
  }

  /** A temporary is never taken for a parent of the pool. */
  lemma KidNoParent(tree: Tree, dims: seq<nat>, before: seq<Statement>, rest: seq<Statement>, pool: seq<Literal>)
    requires Shaped(tree, dims)
    ensures ChildFirst(before + Emit(tree, dims) + rest, pool, |before|, true).None?
  {
    hide Shaped, Emit, Heading, ConcreteDimensions, ConstantValuesFromInserts;
    var all := before + Emit(tree, dims) + rest;
    var tail := Emit(tree, dims) + rest;
    ShapedSmall(tree, dims);
    EmitSecond(tree, dims, rest);
    HeadingConcrete(tree.name, tree.form, dims);
    assert all[|before|..] == tail && all[|before| + 1..] == tail[1..];
    FirstInsert(tail[1..], tree.name, dims[0], dims[1..], pool, true);
  }

  lemma EmitSecond(tree: Tree, dims: seq<nat>, rest: seq<Statement>)
    requires Shaped(tree, dims)
    ensures dims != [] && dims[0] > 0
    ensures var tail := Emit(tree, dims) + rest;
            && tail != [] && tail[0] == Heading(tree.name, tree.form, dims)
            && |tail| > 1 && (!tail[1].Substitution? || tail[1].rhe.Number?)
  {
    if tree.Node? {
      EmitStarts(tree.kids[0], dims[1..], []);
      FirstKid(tree, dims, |tree.kids|);
    }
  }

  lemma {:induction false} FirstKid(tree: Tree, dims: seq<nat>, n: nat)
    requires Shaped(tree, dims) && tree.Node? && 0 < n <= |tree.kids|
    ensures var body := EmitKids(tree, dims, n); body != [] && body[0].Declaration?
  {
    if n > 1 {
      FirstKid(tree, dims, n - 1);
    } else {
      assert EmitKids(tree, dims, 0) == [];
      EmitStarts(tree.kids[0], dims[1..], []);
      assert Emit(tree.kids[0], dims[1..]) + [] == Emit(tree.kids[0], dims[1..]);
    }
  }

  lemma ChainMoves(before: seq<Statement>, tail: seq<Statement>, pool: seq<Literal>, last: Option<Literal>)
    requires ChildFirst(before + tail, pool, |before|, true).None? && NextChild(tail).Some?
    ensures var child := NextChild(tail).value;
            Chain(before + tail, pool, |before|, last) ==
            Chain(before + tail, pool + [child], |before| + child.consumed, last)
  {
    hide ChildFirst, NextChild;
    assert (before + tail)[|before|..] == tail;
  }

  lemma KidTaken(p: Progress, tree: Tree, rest: seq<Statement>)
    requires Extended(p, Kid(tree)).Some? && Leaves(rest, Names(tree))
    ensures var q := Extended(p, Kid(tree)).value;
            var all := q.statements + rest;
            |p.statements| <= |all| && Chain(all, p.pool, |p.statements|, p.last) == Chain(all, q.pool, |q.statements|,
              q.last)
  {
    hide Shaped, Apart, Names, Emit, ChildFirst, NextChild, Leaves, Chain;
    var kid := Emit(tree, p.dims);
    KidNoParent(tree, p.dims, p.statements, rest, p.pool);
    Recognised(tree, p.dims, rest);
    assert p.statements + (kid + rest) == p.statements + kid + rest;
    ChainMoves(p.statements, kid + rest, p.pool, p.last);
  }

  /** A pool that is used up is no larger than the parent. */
  lemma {:induction false} CoverSize(order: seq<nat>, n: nat)
    requires forall k :: 0 <= k < n ==> k in order
    ensures n <= |order|
  {
    if n > 0 {
      assert n - 1 in order;
      var i :| 0 <= i < |order| && order[i] == n - 1;
      var less := order[..i] + order[i + 1..];
      forall k | 0 <= k < n - 1
        ensures k in less
      {
        assert k in order[..i] + [n - 1] + order[i + 1..] by { assert order == order[..i] + [n - 1] + order[i + 1..]; }
      }
      CoverSize(less, n - 1);
    }
  }

  lemma {:induction false} SelectOrder(name: string, order: seq<nat>, pool: seq<Literal>, dims: seq<nat>, m: nat)
    requires m <= |order| < USIZE_LIMIT && forall i :: 0 <= i < |order| ==> order[i] < |pool|
    requires forall k :: 0 <= k < |pool| ==> pool[k].dimensions == dims
    requires forall i, k :: 0 <= i < k < |pool| ==> pool[i].name != pool[k].name
    ensures Selected(InsertsOf(name, order, pool)[..m], name, dims, pool) == Some(order[..m])
  {
    hide InsertedChild, Selected;
    var inserts := InsertsOf(name, order, pool);
    if m == 0 {
      NothingSelected(inserts, name, dims, pool);
    } else {
      SelectOrder(name, order, pool, dims, m - 1);
      SelectedNext(inserts, name, dims, pool, m - 1);
      InsertSelects(name, order, pool, dims, m - 1);
      assert order[..m] == order[..m - 1] + [order[m - 1]];
    }
  }

  lemma InsertSelects(name: string, order: seq<nat>, pool: seq<Literal>, dims: seq<nat>, i: nat)
    requires i < |order| < USIZE_LIMIT && forall j :: 0 <= j < |order| ==> order[j] < |pool|
    requires forall k :: 0 <= k < |pool| ==> pool[k].dimensions == dims
    requires forall j, k :: 0 <= j < k < |pool| ==> pool[j].name != pool[k].name
    ensures InsertedChild(InsertsOf(name, order, pool)[i], name, i, dims, pool) == Some(order[i])
  {
    hide Position;
    PositionOf(pool, order[i]);
  }

  lemma ParentInserts(p: Progress, name: string, form: Form, order: seq<nat>, rest: seq<Statement>, used: set<string>)
    requires PoolOk(p, used) && Extended(p, Parent(name, form, order)).Some?
    ensures ConstantValuesFromInserts(InsertsOf(name, order, p.pool) + rest, name, |order|, p.dims, p.pool, true) ==
            Some(Flattened(order, p.pool))
  {
    hide Selected, Flattened, InsertsOf;
    var inserts := InsertsOf(name, order, p.pool);
    assert Member(p.pool[0], p.dims, used);
    SelectOrder(name, order, p.pool, p.dims, |order|);
    InsertsSize(name, order, p.pool);
    assert order[..|order|] == order && (inserts + rest)[..|order|] == inserts && inserts[..|order|] == inserts;
  }

  lemma InsertsSize(name: string, order: seq<nat>, pool: seq<Literal>)
    requires forall i :: 0 <= i < |order| ==> order[i] < |pool|
    ensures |InsertsOf(name, order, pool)| == |order|
  {
  }

  lemma ParentTaken(p: Progress, name: string, form: Form, order: seq<nat>, rest: seq<Statement>, used: set<string>)
    requires PoolOk(p, used) && Extended(p, Parent(name, form, order)).Some?
    ensures var q := Extended(p, Parent(name, form, order)).value;
            var all := q.statements + rest;
            |p.statements| <= |all| && Chain(all, p.pool, |p.statements|, p.last) == Chain(all, q.pool, |q.statements|,
              q.last)
  {
    hide Selected, Flattened, InsertsOf, ConstantValuesFromInserts, Heading, ConcreteDimensions, NextChild, ChildFirst,
         Chain, Product;
    var dims := [|order|] + p.dims;
    var declaration, inserts := Heading(name, form, dims), InsertsOf(name, order, p.pool);
    var all := p.statements + ([declaration] + inserts) + rest;
    HeadingConcrete(name, form, dims);
    CoverSize(order, |p.pool|);
    ParentInserts(p, name, form, order, rest, used);
    InsertsSize(name, order, p.pool);
    assert dims[0] == |order| && dims[1..] == p.dims;
    ChildFirstIs(p.statements, declaration, inserts + rest, p.pool, dims, Flattened(order, p.pool));
    assert p.statements + ([declaration] + (inserts + rest)) == all;
    ChainPromotes(all, p.pool, |p.statements|, p.last);
  }

  lemma ChildFirstIs(before: seq<Statement>, declaration: Statement, tail: seq<Statement>, pool: seq<Literal>,
                     dims: seq<nat>, values: seq<int>)
    requires declaration.Declaration? && dims != [] && pool != [] && |pool| <= dims[0]
    requires ConcreteDimensions(declaration.memory, declaration.dimensions) == Some(dims)
    requires ConstantValuesFromInserts(tail, declaration.name, dims[0], dims[1..], pool, true) == Some(values)
    ensures ChildFirst(before + ([declaration] + tail), pool, |before|, true) ==
            Some(Literal(declaration.name, dims, values, |before|, |before| + dims[0] + 1))
  {
    hide ConstantValuesFromInserts, ConcreteDimensions;
    var all := before + ([declaration] + tail);
    assert all[|before|] == declaration && all[|before| + 1..] == tail;
  }

  lemma ChainPromotes(all: seq<Statement>, pool: seq<Literal>, consumed: nat, last: Option<Literal>)
    requires consumed <= |all| && ChildFirst(all, pool, consumed, true).Some?
    ensures var literal := ChildFirst(all, pool, consumed, true).value;
            Chain(all, pool, consumed, last) == Chain(all, [literal], literal.consumed, Some(literal))
  {
    hide ChildFirst, NextChild;
  }

  // ---- All items

  lemma {:induction false} ChainFrom(items: seq<Item>, base: seq<nat>, n: nat)
    requires Laid(items, base) && n <= |items|
    ensures After(items[..n], base).Some?
    ensures var p, all := After(items[..n], base).value, After(items, base).value;
            |p.statements| <= |all.statements| && Chain(all.statements, p.pool, |p.statements|, p.last) == all.last
    decreases |items| - n
  {
    hide Extended, PoolOk, ItemNames, NextChild;
    PrefixLaid(items, base, n);
    var all := After(items, base).value.statements;
    if n == |items| {
      assert items[..n] == items && all[|all|..] == [];
      NothingNext();
    } else {
      PrefixLaid(items, base, n + 1);
      NextLaid(items, base, n);
      PoolKept(items, base, n);
      ChainFrom(items, base, n + 1);
      var p, q := After(items[..n], base).value, After(items[..n + 1], base).value;
      var rest := all[|q.statements|..];
      assert all == q.statements + rest;
      match items[n] {
        case Kid(tree) =>
          NamesNext(items, n);
          FollowingLeaves(items, base, n + 1, Names(tree));
          KidTaken(p, tree, rest);
        case Parent(name, form, order) =>
          ParentTaken(p, name, form, order, rest, NamesBefore(items[..n]));
      }
    }
  }

  lemma NothingNext()
    ensures NextChild([]).None?
  {
  }

  lemma {:induction false} FirstIsKid(items: seq<Item>, base: seq<nat>)
    requires Laid(items, base) && items != []
    ensures items[0].Kid? && Shaped(items[0].tree, base) && Apart(items[0].tree)
    ensures After(items[..1], base).Some? && After(items[..1], base).value.statements == Emit(items[0].tree, base)
  {
    NextLaid(items, base, 0);
    assert items[..0] == [];
  }

  /** A chain whose first temporaries are one-dimensional is recognised as its last parent, with all values in
      place. Otherwise (or when no parent follows) the first temporary alone is recognised. */
  lemma ChainRecognised(items: seq<Item>, base: seq<nat>)
    requires Laid(items, base) && items != []
    ensures items[0].Kid? && Shaped(items[0].tree, base)
    ensures var all := After(items, base).value;
            ConcreteArrayLiteral(all.statements) ==
            if |base| == 1 && all.last.Some? then all.last else Some(LiteralOf(items[0].tree, base))
  {
    hide Extended, ItemNames, Emit, Apart, Names, NextChild, Leaves, Direct, ParentFirst, Chain;
    FirstIsKid(items, base);
    NamesFromFirst(items);
    var tree := items[0].tree;
    FollowingLeaves(items, base, 1, Names(tree));
    PrefixLaid(items, base, 1);
    var all := After(items, base).value;
    var rest := all.statements[|Emit(tree, base)|..];
    assert all.statements == Emit(tree, base) + rest;
    if tree.Node? {
      Recognised(tree, base, rest);
      NodeDims(tree, base);
    } else {
      LeafDims(tree, base);
      ChainFrom(items, base, 0);
      assert items[..0] == [];
      NoParentFirst(tree, base, rest);
      LeafLeaves(tree, rest);
      LeafRecognised(tree, base, rest);
    }
  }

  lemma NodeDims(tree: Tree, dims: seq<nat>)
    requires Shaped(tree, dims) && tree.Node?
    ensures |dims| > 1
  {
  }

  lemma LeafDims(tree: Tree, dims: seq<nat>)
    requires Shaped(tree, dims) && tree.Leaf?
    ensures |dims| == 1
  {
  }

  lemma LeafLeaves(tree: Tree, rest: seq<Statement>)
    requires Leaves(rest, Names(tree))
    ensures Leaves(rest, {tree.name})
  {
    NamedByItself(tree);
  }

  lemma NamesFromFirst(items: seq<Item>)
    requires items != [] && items[0].Kid?
    requires forall i, j :: 0 <= i < j < |items| ==> ItemNames(items[i]) !! ItemNames(items[j])
    ensures forall m :: 1 <= m < |items| ==> ItemNames(items[m]) !! Names(items[0].tree)
  {
    hide Names;
    forall m | 1 <= m < |items|
      ensures ItemNames(items[m]) !! Names(items[0].tree)
    {
      assert ItemNames(items[0]) !! ItemNames(items[m]);
    }
  }

  lemma NoParentFirst(tree: Tree, dims: seq<nat>, rest: seq<Statement>)
    requires Shaped(tree, dims) && tree.Leaf?
    ensures ParentFirst(Emit(tree, dims) + rest).None?
  {
    HeadingConcrete(tree.name, tree.form, dims);
  }
}
