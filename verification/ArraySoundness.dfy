/** Running the statements a matcher consumes leaves the named array equal to the values it recovered. */
module ArraySoundness {
  import opened Field
  import opened ArrayStatements
  import opened ArrayLiteral

  function Scalars(values: seq<int>): seq<Value> {
    seq(|values|, i requires 0 <= i < |values| => Scalar(values[i]))
  }

  lemma NestFlat(n: nat, values: seq<int>)
    requires |values| == n
    ensures Product([n]) == n && Nest([n], values) == Array(Scalars(values))
  {
    assert [n][1..] == [] && Product([n][1..]) == 1;
    var items := Nest([n], values).items;
    forall i | 0 <= i < n
      ensures items[i] == Scalar(values[i])
    {
      assert i * 1 == i;
      assert Block(values, 1, i) == [values[i]];
      assert items[i] == Nest([], Block(values, 1, i));
    }
    assert items == Scalars(values);
  }

  // ---- One-dimensional passes

  lemma ElementIndex(statement: Statement, name: string, n: nat, flat: nat)
    requires flat < n && ElementAt(statement, name, [n], flat).Some?
    ensures statement.Substitution? && statement.target == name && statement.op == AssignVar
    ensures Path(statement.access) == Some([flat]) && statement.rhe ==
            Number(ElementAt(statement, name, [n], flat).value)
  {
    assert flat % n == flat && flat / n == 0;
    PathOne(statement.access, flat);
  }

  lemma PathOne(access: seq<Access>, i: nat)
    requires |access| == 1 && access[0] == ArrayAccess(Number(i))
    ensures Path(access) == Some([i])
  {
    assert access[1..] == [] && Path(access[1..]) == Some([]);
    var none: seq<nat> := [];
    assert [i] + none == [i];
  }

  lemma SetElement(items: seq<Value>, i: nat, x: Value)
    requires i < |items|
    ensures SetAt(Array(items), [i], x) == Some(Array(items[i := x]))
  {
    assert [i][1..] == [];
  }

  /** A complete or partial pass overwrites the first elements. */
  lemma {:induction false} PassRun(pass: seq<Statement>, name: string, n: nat, values: seq<int>, items: seq<Value>,
                                   store: Store)
    requires n > 0 && |pass| <= n == |items| && PassValues(pass, name, [n]) == Some(values)
    requires name in store && store[name] == Array(items)
    ensures Run(pass, store) == Some(store[name := Array(Scalars(values) + items[|pass|..])])
  {
    hide Execute, ElementAt;
    if pass == [] {
      assert Scalars(values) + items[0..] == items;
      assert store[name := Array(items)] == store;
    } else {
      var m := |pass| - 1;
      var before := values[..m];
      assert PassValues(pass[..m], name, [n]) == Some(before);
      PassRun(pass[..m], name, n, before, items, store);
      var current := Scalars(before) + items[m..];
      ExecuteElement(pass[m], name, n, m, current, store[name := Array(current)]);
      assert values[m] == ElementAt(pass[m], name, [n], m).value;
      assert current[m := Scalar(values[m])] == Scalars(values) + items[m + 1..];
      SetTwice(store, name, Array(current), Array(current[m := Scalar(values[m])]));
    }
  }

  lemma SetTwice(store: Store, name: string, x: Value, y: Value)
    ensures store[name := x][name := y] == store[name := y]
  {
  }

  lemma ExecuteElement(statement: Statement, name: string, n: nat, m: nat, current: seq<Value>, store: Store)
    requires m < n == |current| && ElementAt(statement, name, [n], m).Some? && name in store &&
             store[name] == Array(current)
    ensures Execute(statement, store) == Some(store[name := Array(current[m := Scalar(ElementAt(statement, name, [n],
            m).value)])])
  {
    hide ElementAt;
    ElementIndex(statement, name, n, m);
    SetElement(current, m, Scalar(ElementAt(statement, name, [n], m).value));
  }

  ghost predicate HasArray(store: Store, name: string, n: nat) {
    name in store && store[name].Array? && |store[name].items| == n
  }

  /** The state after some complete passes over a one-dimensional array. */
  ghost predicate AfterPasses(statements: seq<Statement>, consumed: nat, name: string, n: nat,
                              values: Option<seq<int>>, start: Store, end: Store)
    requires consumed <= |statements|
  {
    && Run(statements[..consumed], start) == Some(end) && HasArray(end, name, n)
    && (values.Some? ==> |values.value| == n && end[name] == Array(Scalars(values.value)))
    && SameElsewhere(start, end, {name})
  }

  lemma {:induction false} DirectPassesRun(statements: seq<Statement>, name: string, n: nat, consumed: nat,
                                           values: Option<seq<int>>, start: Store, end: Store)
    returns (final: Store)
    requires n > 0 && consumed <= |statements| && AfterPasses(statements, consumed, name, n, values, start, end)
    ensures var r := DirectPasses(statements, name, n, consumed, values); AfterPasses(statements, r.1, name, n, r.0,
            start, final)
    decreases |statements| - consumed
  {
    hide AfterPasses, PassValues;
    final := end;
    if consumed + n <= |statements| {
      var more := PassValues(statements[consumed..consumed + n], name, [n]);
      if more.Some? {
        var next := PassStep(statements, name, n, consumed, values, more.value, start, end);
        final := DirectPassesRun(statements, name, n, consumed + n, more, start, next);
      }
    }
  }

  lemma SetElsewhere(before: Store, after: Store, names: set<string>, name: string, value: Value)
    requires SameElsewhere(before, after, names)
    ensures SameElsewhere(before, after[name := value], names + {name})
  {
  }

  /** One more pass rewrites the whole array. */
  lemma PassStep(statements: seq<Statement>, name: string, n: nat, consumed: nat, values: Option<seq<int>>,
                 more: seq<int>, start: Store, end: Store)
    returns (next: Store)
    requires n > 0 && consumed + n <= |statements| && AfterPasses(statements, consumed, name, n, values, start, end)
    requires PassValues(statements[consumed..consumed + n], name, [n]) == Some(more)
    ensures AfterPasses(statements, consumed + n, name, n, Some(more), start, next)
  {
    hide Run, PassValues, SameElsewhere;
    var pass := statements[consumed..consumed + n];
    PassRun(pass, name, n, more, end[name].items, end);
    assert Scalars(more) + end[name].items[n..] == Scalars(more);
    next := end[name := Array(Scalars(more))];
    SetElsewhere(start, end, {name}, name, next[name]);
    assert {name} + {name} == {name};
    RunConcat(statements[..consumed], pass, start);
    assert statements[..consumed] + pass == statements[..consumed + n];
  }

  /** Running a segment from any store leaves the literal's array in place and touches only what the segment declares.
      */
  ghost predicate Leads(segment: seq<Statement>, name: string, dims: seq<nat>, values: seq<int>, store: Store)
    requires |values| == Product(dims)
  {
    && Run(segment, store).Some?
    && name in Run(segment, store).value && Run(segment, store).value[name] == Nest(dims, values)
    && SameElsewhere(store, Run(segment, store).value, Declared(segment))
  }

  ghost predicate Builds(segment: seq<Statement>, literal: Literal) {
    && |literal.values| == Product(literal.dimensions) && literal.name in Declared(segment)
    && literal.declarationOffset < |segment| && segment[literal.declarationOffset].Declaration?
    && segment[literal.declarationOffset].name == literal.name
    && ConcreteDimensions(segment[literal.declarationOffset].memory, segment[literal.declarationOffset].dimensions) ==
      Some(literal.dimensions)
    && forall store :: Leads(segment, literal.name, literal.dimensions, literal.values, store)
  }

  lemma DeclareRun(statements: seq<Statement>, dims: seq<nat>, store: Store)
    requires statements != [] && statements[0].Declaration? &&
             ConcreteDimensions(statements[0].memory, statements[0].dimensions) == Some(dims) && dims != []
    ensures Run(statements[..1], store) == Some(store[statements[0].name := Zero(dims)])
    ensures HasArray(store[statements[0].name := Zero(dims)], statements[0].name, dims[0])
  {
    assert statements[..1] == [statements[0]];
    RunOne(statements[0], store);
  }

  lemma DeclaredFirst(statements: seq<Statement>, n: nat)
    requires 1 <= n <= |statements| && statements[0].Declaration?
    ensures statements[0].name in Declared(statements[..n])
  {
    assert statements[..n][0] == statements[0];
  }

  lemma DirectSound(statements: seq<Statement>)
    requires Direct(statements).Some?
    ensures var literal := Direct(statements).value; Builds(statements[..literal.consumed], literal)
  {
    var literal := Direct(statements).value;
    var name, n := literal.name, literal.dimensions[0];
    var segment := statements[..literal.consumed];
    DeclaredFirst(statements, literal.consumed);
    assert literal.dimensions == [n] && segment[0] == statements[0];
    var any := DirectPassesRun(statements, name, n, 1, None, map[],
      AfterDeclaration(statements, literal.dimensions, map[]));
    NestFlat(n, literal.values);
    forall store: Store
      ensures Leads(segment, name, literal.dimensions, literal.values, store)
    {
      var final := DirectPassesRun(statements, name, n, 1, None, store,
        AfterDeclaration(statements, literal.dimensions, store));
    }
  }

  ghost function AfterDeclaration(statements: seq<Statement>, dims: seq<nat>, store: Store): (r: Store)
    requires statements != [] && statements[0].Declaration? &&
             ConcreteDimensions(statements[0].memory, statements[0].dimensions) == Some(dims) && dims != []
    ensures AfterPasses(statements, 1, statements[0].name, dims[0], None, store, r)
  {
    DeclareRun(statements, dims, store);
    store[statements[0].name := Zero(dims)]
  }

  // ---- Inserts of known children

  ghost predicate Sized(children: seq<Literal>) {
    forall i :: 0 <= i < |children| ==> |children[i].values| == Product(children[i].dimensions)
  }

  ghost predicate Known(children: seq<Literal>, store: Store)
    requires Sized(children)
  {
    forall i :: 0 <= i < |children| ==>
      children[i].name in store && store[children[i].name] == Nest(children[i].dimensions, children[i].values)
  }

  ghost predicate Named(children: seq<Literal>, names: set<string>) {
    forall i :: 0 <= i < |children| ==> children[i].name in names
  }

  lemma OneMoreBlock(n: nat, size: nat)
    ensures n * size + size == (n + 1) * size
  {
  }

  lemma {:induction false} FlattenedSize(chosen: seq<nat>, children: seq<Literal>, dims: seq<nat>)
    requires Sized(children) && forall i :: 0 <= i < |chosen| ==>
             chosen[i] < |children| && children[chosen[i]].dimensions == dims
    ensures |Flattened(chosen, children)| == |chosen| * Product(dims)
  {
    hide Product;
    if chosen != [] {
      var n := |chosen| - 1;
      FlattenedSize(chosen[..n], children, dims);
      OneMoreBlock(n, Product(dims));
      assert |children[chosen[n]].values| == Product(dims);
    }
  }

  /** The i-th block of the flattened values is the i-th chosen child's. */
  lemma {:induction false} FlattenedBlock(chosen: seq<nat>, children: seq<Literal>, dims: seq<nat>, i: nat)
    requires Sized(children) && forall j :: 0 <= j < |chosen| ==>
             chosen[j] < |children| && children[chosen[j]].dimensions == dims
    requires i < |chosen|
    ensures |Flattened(chosen, children)| == |chosen| * Product(dims) &&
            (i + 1) * Product(dims) <= |chosen| * Product(dims)
    ensures Block(Flattened(chosen, children), Product(dims), i) == children[chosen[i]].values
  {
    FlattenedSize(chosen, children, dims);
    var n, size := |chosen| - 1, Product(dims);
    BlockFits(|chosen|, i, size);
    FlattenedSize(chosen[..n], children, dims);
    var front, last := Flattened(chosen[..n], children), children[chosen[n]].values;
    assert Flattened(chosen, children) == front + last;
    if i < n {
      FlattenedBlock(chosen[..n], children, dims, i);
      hide Product, Flattened, Sized;
      BlockPrefix(front, last, size, i);
    } else {
      hide Product, Flattened;
      BlockLast(front, last, size, i);
    }
  }

  lemma BlockPrefix(front: seq<int>, last: seq<int>, size: nat, i: nat)
    requires (i + 1) * size <= |front|
    ensures (i + 1) * size <= |front + last| && Block(front + last, size, i) == Block(front, size, i)
  {
    assert i * size + size == (i + 1) * size;
  }

  lemma BlockLast(front: seq<int>, last: seq<int>, size: nat, i: nat)
    requires |front| == i * size && |last| == size
    ensures (i + 1) * size <= |front + last| && Block(front + last, size, i) == last
  {
    assert i * size + size == (i + 1) * size;
  }

  ghost function Chosen(chosen: seq<nat>, children: seq<Literal>): seq<Value>
    requires Sized(children) && forall i :: 0 <= i < |chosen| ==> chosen[i] < |children|
  {
    seq(|chosen|, i requires 0 <= i < |chosen| => Nest(children[chosen[i]].dimensions, children[chosen[i]].values))
  }

  lemma NestChosen(chosen: seq<nat>, children: seq<Literal>, outer: nat, dims: seq<nat>)
    requires Sized(children) && |chosen| == outer && forall i :: 0 <= i < |chosen| ==>
             chosen[i] < |children| && children[chosen[i]].dimensions == dims
    ensures |Flattened(chosen, children)| == Product([outer] + dims)
    ensures Nest([outer] + dims, Flattened(chosen, children)) == Array(Chosen(chosen, children))
  {
    FlattenedSize(chosen, children, dims);
    assert ([outer] + dims)[1..] == dims;
    var values := Flattened(chosen, children);
    var items := Nest([outer] + dims, values).items;
    forall i | 0 <= i < outer
      ensures items[i] == Chosen(chosen, children)[i]
    {
      BlockFits(outer, i, Product(dims));
      FlattenedBlock(chosen, children, dims, i);
    }
    assert items == Chosen(chosen, children);
  }

  lemma InsertAt(statement: Statement, parent: string, index: nat, dims: seq<nat>, children: seq<Literal>, store: Store)
    requires InsertedChild(statement, parent, index, dims, children).Some? && Sized(children) && Known(children, store)
    ensures statement.Substitution? && statement.target == parent && statement.op == AssignVar &&
            Path(statement.access) == Some([index])
    ensures var child := children[InsertedChild(statement, parent, index, dims, children).value];
            Evaluate(statement.rhe, store) == Some(Nest(child.dimensions, child.values))
  {
    hide Nest;
    PathOne(statement.access, index);
  }

  lemma KnownOther(children: seq<Literal>, store: Store, parent: string, value: Value)
    requires Sized(children) && Known(children, store)
    requires forall i :: 0 <= i < |children| ==> children[i].name != parent
    ensures Known(children, store[parent := value])
  {
    hide Nest;
  }

  /** Ordered inserts put the chosen children in place. */
  lemma {:induction false} InsertsRun(inserts: seq<Statement>, parent: string, dims: seq<nat>, children: seq<Literal>,
                                      chosen: seq<nat>, items: seq<Value>, store: Store)
    requires Sized(children) && Known(children, store) && (forall i :: 0 <= i < |children| ==>
             children[i].name != parent)
    requires Selected(inserts, parent, dims, children) == Some(chosen) && |inserts| <= |items|
    requires parent in store && store[parent] == Array(items)
    ensures Run(inserts, store) == Some(store[parent := Array(Chosen(chosen, children) + items[|inserts|..])])
  {
    hide Nest, Execute, Known, InsertedChild;
    if inserts == [] {
      assert Chosen(chosen, children) + items[0..] == items;
      assert store[parent := Array(items)] == store;
    } else {
      var m := |inserts| - 1;
      var before := chosen[..m];
      assert Selected(inserts[..m], parent, dims, children) == Some(before);
      InsertsRun(inserts[..m], parent, dims, children, before, items, store);
      var current := Chosen(before, children) + items[m..];
      var middle := store[parent := Array(current)];
      KnownOther(children, store, parent, middle[parent]);
      var x := Nest(children[chosen[m]].dimensions, children[chosen[m]].values);
      ExecuteInsert(inserts[m], parent, m, dims, children, current, middle);
      assert current[m := x] == Chosen(chosen, children) + items[m + 1..];
      SetTwice(store, parent, Array(current), Array(current[m := x]));
    }
  }

  lemma ExecuteInsert(statement: Statement, parent: string, m: nat, dims: seq<nat>, children: seq<Literal>,
                      current: seq<Value>, store: Store)
    requires InsertedChild(statement, parent, m, dims, children).Some? && Sized(children) && Known(children, store)
    requires m < |current| && parent in store && store[parent] == Array(current)
    ensures var child := children[InsertedChild(statement, parent, m, dims, children).value];
            Execute(statement, store) == Some(store[parent := Array(current[m := Nest(child.dimensions,
              child.values)])])
  {
    hide InsertedChild, Nest, Evaluate, Path;
    InsertAt(statement, parent, m, dims, children, store);
    var child := children[InsertedChild(statement, parent, m, dims, children).value];
    SetElement(current, m, Nest(child.dimensions, child.values));
  }

  lemma InsertsDeclareNothing(inserts: seq<Statement>, parent: string, dims: seq<nat>, children: seq<Literal>)
    requires Selected(inserts, parent, dims, children).Some?
    ensures Declared(inserts) == {}
  {
    forall i | 0 <= i < |inserts|
      ensures !inserts[i].Declaration?
    {
      SelectedAt(inserts, parent, dims, children, i);
    }
  }

  lemma {:induction false} SelectedAt(inserts: seq<Statement>, parent: string, dims: seq<nat>, children: seq<Literal>,
                                      i: nat)
    requires Selected(inserts, parent, dims, children).Some? && i < |inserts|
    ensures inserts[i].Substitution? && inserts[i].target == parent
  {
    if i < |inserts| - 1 { SelectedAt(inserts[..|inserts| - 1], parent, dims, children, i); }
  }

  /** Complete inserts rebuild the parent from any store that knows the children. */
  lemma ConstantInsertsRun(statements: seq<Statement>, parent: string, outer: nat, dims: seq<nat>,
                           children: seq<Literal>, requireAll: bool, store: Store)
    requires ConstantValuesFromInserts(statements, parent, outer, dims, children, requireAll).Some?
    requires Sized(children) && Known(children, store) && (forall i :: 0 <= i < |children| ==>
             children[i].name != parent)
    requires HasArray(store, parent, outer)
    ensures var values := ConstantValuesFromInserts(statements, parent, outer, dims, children, requireAll).value;
            && |values| == Product([outer] + dims)
            && Run(statements[..outer], store) == Some(store[parent := Nest([outer] + dims, values)])
    ensures Declared(statements[..outer]) == {}
  {
    var inserts := statements[..outer];
    var chosen := Selected(inserts, parent, dims, children).value;
    InsertsRun(inserts, parent, dims, children, chosen, store[parent].items, store);
    NestChosen(chosen, children, outer, dims);
    assert Chosen(chosen, children) + store[parent].items[outer..] == Chosen(chosen, children);
    InsertsDeclareNothing(inserts, parent, dims, children);
  }
}
