/** The literal recovered by the array matchers is what running the consumed statements builds. */
module ArrayRecognition {
  import opened Field
  import opened ArrayStatements
  import opened ArrayLiteral
  import opened ArraySoundness

  lemma DistinctPrefix(statements: seq<Statement>, m: nat, n: nat)
    requires m <= n <= |statements| && Distinct(statements[..n])
    ensures Distinct(statements[..m])
  {
    assert statements[..n] == statements[..m] + statements[m..n];
    DistinctParts(statements[..m], statements[m..n]);
  }

  lemma DistinctMiddle(statements: seq<Statement>, m: nat, k: nat, n: nat)
    requires m + k <= n <= |statements| && Distinct(statements[..n])
    ensures statements[..m] + statements[m..][..k] == statements[..m + k]
    ensures Distinct(statements[m..][..k]) && Declared(statements[..m]) !! Declared(statements[m..][..k])
    ensures Declared(statements[..m + k]) == Declared(statements[..m]) + Declared(statements[m..][..k])
  {
    DistinctPrefix(statements, m + k, n);
    assert statements[..m] + statements[m..][..k] == statements[..m + k];
    DistinctParts(statements[..m], statements[m..][..k]);
    DeclaredConcat(statements[..m], statements[m..][..k]);
  }

  lemma DeclaredPrefix(statements: seq<Statement>, m: nat, n: nat)
    requires m <= n <= |statements|
    ensures Declared(statements[..m]) <= Declared(statements[..n])
  {
    assert statements[..n] == statements[..m] + statements[m..n];
    DeclaredConcat(statements[..m], statements[m..n]);
  }

  // ---- The pool

  /** Running the prefix from any store leaves every pooled array in place. */
  ghost predicate Pool(prefix: seq<Statement>, children: seq<Literal>) {
    Sized(children) && Named(children, Declared(prefix)) && forall store :: PoolRun(prefix, children, store)
  }

  ghost predicate PoolRun(prefix: seq<Statement>, children: seq<Literal>, store: Store)
    requires Sized(children)
  {
    Run(prefix, store).Some? && Known(children, Run(prefix, store).value) &&
      SameElsewhere(store, Run(prefix, store).value, Declared(prefix))
  }

  lemma PoolEmpty()
    ensures Pool([], [])
  {
  }

  lemma KnownElsewhere(children: seq<Literal>, before: Store, after: Store, names: set<string>, changed: set<string>)
    requires Sized(children) && Known(children, before) && Named(children, names) &&
             SameElsewhere(before, after, changed) && names !! changed
    ensures Known(children, after)
  {
    hide Nest;
  }

  lemma KnownMore(children: seq<Literal>, literal: Literal, store: Store)
    requires Sized(children) && Known(children, store) && |literal.values| == Product(literal.dimensions)
    requires literal.name in store && store[literal.name] == Nest(literal.dimensions, literal.values)
    ensures Sized(children + [literal]) && Known(children + [literal], store)
  {
    hide Nest, Product;
  }

  lemma PoolBuilds(prefix: seq<Statement>, children: seq<Literal>, segment: seq<Statement>, literal: Literal)
    requires Pool(prefix, children) && Builds(segment, literal) && Declared(prefix) !! Declared(segment)
    ensures Pool(prefix + segment, children + [literal])
  {
    hide Nest, Product, Declared, Run;
    DeclaredConcat(prefix, segment);
    forall store: Store
      ensures PoolRun(prefix + segment, children + [literal], store)
    {
      assert PoolRun(prefix, children, store);
      var middle := Run(prefix, store).value;
      assert Leads(segment, literal.name, literal.dimensions, literal.values, middle);
      RunConcat(prefix, segment, store);
      KnownElsewhere(children, middle, Run(segment, middle).value, Declared(prefix), Declared(segment));
      KnownMore(children, literal, Run(segment, middle).value);
    }
    assert Sized(children + [literal]);
  }

  // ---- A parent declared after its children

  lemma ChildFirstSplit(statements: seq<Statement>, offset: nat, outer: nat)
    requires offset + outer + 1 <= |statements| && statements[offset].Declaration?
    ensures statements[..offset + outer + 1] == statements[..offset] +
            ([statements[offset]] + statements[offset + 1..][..outer])
  {
  }

  lemma ChildFirstParts(statements: seq<Statement>, children: seq<Literal>, offset: nat, requireAll: bool)
    requires ChildFirst(statements, children, offset, requireAll).Some?
    ensures offset < |statements| && statements[offset].Declaration?
    ensures var literal := ChildFirst(statements, children, offset, requireAll).value;
            && literal.name == statements[offset].name && literal.declarationOffset == offset
            && literal.dimensions != [] && literal.consumed == offset + literal.dimensions[0] + 1 <= |statements|
            && ConcreteDimensions(statements[offset].memory, statements[offset].dimensions) == Some(literal.dimensions)
            && ConstantValuesFromInserts(statements[offset + 1..], literal.name, literal.dimensions[0],
                 literal.dimensions[1..], children, requireAll) == Some(literal.values)
  {
    hide ConcreteDimensions, ConstantValuesFromInserts;
  }

  lemma ChildFirstRun(statements: seq<Statement>, children: seq<Literal>, offset: nat, requireAll: bool, store: Store)
    requires ChildFirst(statements, children, offset, requireAll).Some? && offset <= |statements|
    requires Pool(statements[..offset], children) && statements[offset].name !in Declared(statements[..offset])
    ensures var literal := ChildFirst(statements, children, offset, requireAll).value;
            && |literal.values| == Product(literal.dimensions)
            && Declared(statements[..literal.consumed]) == Declared(statements[..offset]) + {literal.name}
            && Leads(statements[..literal.consumed], literal.name, literal.dimensions, literal.values, store)
            && Known(children, Run(statements[..literal.consumed], store).value)
  {
    hide Pool, Nest, Product, Declared, ConcreteDimensions, ConstantValuesFromInserts, Run, Known, ChildFirst, Leads,
         Sized;
    ChildFirstParts(statements, children, offset, requireAll);
    var literal := ChildFirst(statements, children, offset, requireAll).value;
    ChildFirstSplit(statements, offset, literal.dimensions[0]);
    DeclareInsertRun(statements[..offset], statements[offset], statements[offset + 1..], children, literal.dimensions,
      requireAll, store);
  }

  /** Declaration and inserts, from a store that knows the children. */
  lemma InsertRun(declaration: Statement, inserts: seq<Statement>, children: seq<Literal>, dims: seq<nat>,
                  requireAll: bool, names: set<string>, middle: Store)
    requires declaration.Declaration? && declaration.name !in names && Sized(children) && Known(children, middle) &&
             Named(children, names)
    requires dims != [] && ConcreteDimensions(declaration.memory, declaration.dimensions) == Some(dims)
    requires ConstantValuesFromInserts(inserts, declaration.name, dims[0], dims[1..], children, requireAll).Some?
    ensures var values := ConstantValuesFromInserts(inserts, declaration.name, dims[0], dims[1..], children,
            requireAll).value;
            && |values| == Product(dims) && Declared([declaration] + inserts[..dims[0]]) == {declaration.name}
            && Run([declaration] + inserts[..dims[0]], middle) == Some(middle[declaration.name := Nest(dims, values)])
  {
    var name, outer := declaration.name, dims[0];
    var values := ConstantValuesFromInserts(inserts, name, outer, dims[1..], children, requireAll).value;
    assert [outer] + dims[1..] == dims;
    var declared := middle[name := Zero(dims)];
    assert Execute(declaration, middle) == Some(declared) && HasArray(declared, name, outer);
    OnlyDeclares(declaration);
    hide Nest, Product, Declared, ConcreteDimensions, ConstantValuesFromInserts, Run, Execute, Zero;
    RunOne(declaration, middle);
    KnownElsewhere(children, middle, declared, names, {name});
    ConstantInsertsRun(inserts, name, outer, dims[1..], children, requireAll, declared);
    RunConcat([declaration], inserts[..outer], middle);
    DeclaredConcat([declaration], inserts[..outer]);
    SetTwice(middle, name, Zero(dims), Nest(dims, values));
  }

  /** Prefix, declaration, inserts. */
  lemma DeclareInsertRun(prefix: seq<Statement>, declaration: Statement, inserts: seq<Statement>,
                         children: seq<Literal>, dims: seq<nat>, requireAll: bool, store: Store)
    requires Pool(prefix, children) && declaration.Declaration? && declaration.name !in Declared(prefix)
    requires dims != [] && ConcreteDimensions(declaration.memory, declaration.dimensions) == Some(dims)
    requires ConstantValuesFromInserts(inserts, declaration.name, dims[0], dims[1..], children, requireAll).Some?
    ensures var values := ConstantValuesFromInserts(inserts, declaration.name, dims[0], dims[1..], children,
            requireAll).value;
            var segment := prefix + ([declaration] + inserts[..dims[0]]);
            && |values| == Product(dims) && Declared(segment) == Declared(prefix) + {declaration.name}
            && Leads(segment, declaration.name, dims, values, store) && Known(children, Run(segment, store).value)
  {
    hide Nest, Product, Declared, ConcreteDimensions, ConstantValuesFromInserts, Run;
    var name, tail := declaration.name, [declaration] + inserts[..dims[0]];
    assert PoolRun(prefix, children, store);
    var middle := Run(prefix, store).value;
    InsertRun(declaration, inserts, children, dims, requireAll, Declared(prefix), middle);
    RunConcat(prefix, tail, store);
    DeclaredConcat(prefix, tail);
    KnownElsewhere(children, middle, Run(tail, middle).value, Declared(prefix), {name});
  }

  lemma OnlyDeclares(declaration: Statement)
    requires declaration.Declaration?
    ensures Declared([declaration]) == {declaration.name}
  {
    assert [declaration][0].Declaration?;
  }

  lemma FreshName(statements: seq<Statement>, offset: nat, n: nat)
    requires offset < n <= |statements| && Distinct(statements[..n]) && statements[offset].Declaration?
    ensures statements[offset].name !in Declared(statements[..offset])
  {
    var prefix := statements[..n];
    forall i | 0 <= i < offset && statements[..offset][i].Declaration?
      ensures statements[..offset][i].name != statements[offset].name
    {
      assert prefix[i] == statements[i] && prefix[offset] == statements[offset];
    }
  }

  lemma ChildFirstSound(statements: seq<Statement>, children: seq<Literal>, offset: nat, requireAll: bool)
    requires offset <= |statements| && ChildFirst(statements, children, offset, requireAll).Some? &&
             Pool(statements[..offset], children)
    requires Distinct(statements[..ChildFirst(statements, children, offset, requireAll).value.consumed])
    ensures var literal := ChildFirst(statements, children, offset, requireAll).value;
            && Builds(statements[..literal.consumed], literal) &&
              Pool(statements[..literal.consumed], children + [literal])
            && Pool(statements[..literal.consumed], [literal])
  {
    hide ChildFirst, Nest, Product, Declared, Run, ConcreteDimensions;
    var literal := ChildFirst(statements, children, offset, requireAll).value;
    var segment := statements[..literal.consumed];
    ChildFirstParts(statements, children, offset, requireAll);
    FreshName(statements, offset, literal.consumed);
    assert segment[offset] == statements[offset];
    ChildFirstRun(statements, children, offset, requireAll, map[]);
    forall store: Store
      ensures Leads(segment, literal.name, literal.dimensions, literal.values, store) &&
              PoolRun(segment, children + [literal], store) && PoolRun(segment, [literal], store)
    {
      ChildFirstRun(statements, children, offset, requireAll, store);
      KnownMore(children, literal, Run(segment, store).value);
      KnownMore([], literal, Run(segment, store).value);
      assert [] + [literal] == [literal];
    }
    assert Sized(children + [literal]) && Sized([literal]);
  }

  // ---- Passes over a parent declared before its children

  ghost predicate PassRuns(segment: seq<Statement>, parent: string, dims: seq<nat>, values: seq<int>, store: Store)
    requires |values| == Product(dims)
  {
    && Run(segment, store).Some? && parent in Run(segment, store).value
    && Run(segment, store).value[parent] == Nest(dims, values)
    && SameElsewhere(store, Run(segment, store).value, Declared(segment) + {parent})
  }

  /** From any store that holds the parent, the pass rebuilds it. */
  ghost predicate PassBuilds(segment: seq<Statement>, parent: string, dims: seq<nat>, values: seq<int>)
    requires dims != []
  {
    && |values| == Product(dims)
    && forall store :: HasArray(store, parent, dims[0]) ==> PassRuns(segment, parent, dims, values, store)
  }

  lemma PassEnds(statements: seq<Statement>, parent: string, outer: nat, childDims: seq<nat>, children: seq<Literal>,
                 consumed: nat)
    requires consumed <= |statements| && ConstantValuesFromInserts(statements[consumed..], parent, outer, childDims,
             children, false).Some?
    requires Pool(statements[..consumed], children) && parent !in Declared(statements[..consumed])
    ensures var values := ConstantValuesFromInserts(statements[consumed..], parent, outer, childDims, children,
            false).value;
            PassBuilds(statements[..consumed + outer], parent, [outer] + childDims, values)
  {
    hide ConstantValuesFromInserts, Nest, Product, Declared, Run;
    var inserts := statements[consumed..];
    var values := ConstantValuesFromInserts(inserts, parent, outer, childDims, children, false).value;
    var dims := [outer] + childDims;
    assert statements[..consumed] + inserts[..outer] == statements[..consumed + outer];
    DeclaredConcat(statements[..consumed], inserts[..outer]);
    var sample: Store := map[parent := Array(seq(outer, _ => Scalar(0)))];
    assert HasArray(sample, parent, outer);
    PassEndsRun(statements, parent, outer, childDims, children, consumed, sample);
    forall store: Store | HasArray(store, parent, outer)
      ensures PassRuns(statements[..consumed + outer], parent, dims, values, store)
    {
      PassEndsRun(statements, parent, outer, childDims, children, consumed, store);
    }
  }

  lemma PassEndsRun(statements: seq<Statement>, parent: string, outer: nat, childDims: seq<nat>,
                    children: seq<Literal>, consumed: nat, store: Store)
    requires consumed <= |statements| && ConstantValuesFromInserts(statements[consumed..], parent, outer, childDims,
             children, false).Some?
    requires Pool(statements[..consumed], children) && parent !in Declared(statements[..consumed]) &&
             HasArray(store, parent, outer)
    ensures var values := ConstantValuesFromInserts(statements[consumed..], parent, outer, childDims, children,
            false).value;
            |values| == Product([outer] + childDims) && PassRuns(statements[..consumed + outer], parent,
              [outer] + childDims, values, store)
  {
    hide ConstantValuesFromInserts, Nest, Product, Declared, Run, Pool, Known, Sized, HasArray, SameElsewhere;
    var prefix, inserts := statements[..consumed], statements[consumed..];
    assert prefix + inserts[..outer] == statements[..consumed + outer];
    PoolMiddle(prefix, children, parent, outer, store);
    var middle := Run(prefix, store).value;
    ConstantInsertsRun(inserts, parent, outer, childDims, children, false, middle);
    RunConcat(prefix, inserts[..outer], store);
    DeclaredConcat(prefix, inserts[..outer]);
    assert Declared(prefix) + {} == Declared(prefix);
    SetElsewhere(store, middle, Declared(prefix), parent, Run(inserts[..outer], middle).value[parent]);
  }

  lemma PoolMiddle(prefix: seq<Statement>, children: seq<Literal>, parent: string, outer: nat, store: Store)
    requires Pool(prefix, children) && parent !in Declared(prefix) && HasArray(store, parent, outer)
    ensures Sized(children) && Run(prefix, store).Some? && Known(children, Run(prefix, store).value)
    ensures HasArray(Run(prefix, store).value, parent, outer)
    ensures SameElsewhere(store, Run(prefix, store).value, Declared(prefix))
    ensures forall i :: 0 <= i < |children| ==> children[i].name != parent
  {
    hide Nest, Product, Declared, Run, Known, Sized;
    assert PoolRun(prefix, children, store);
  }

  /** A successful pass rebuilds the parent. */
  lemma {:induction false} PassSound(statements: seq<Statement>, parent: string, outer: nat, childDims: seq<nat>,
                                     children: seq<Literal>, consumed: nat)
    requires consumed <= |statements| && outer > 0 && ConstantChildPass(statements, parent, outer, childDims, children,
             consumed).Some?
    requires Pool(statements[..consumed], children)
    requires var used := ConstantChildPass(statements, parent, outer, childDims, children, consumed).value.1;
             Distinct(statements[..used]) && parent !in Declared(statements[..used])
    ensures var r := ConstantChildPass(statements, parent, outer, childDims, children, consumed).value;
            PassBuilds(statements[..r.1], parent, [outer] + childDims, r.0)
    decreases |statements| - consumed, 1
  {
    hide Pool, Builds, Distinct, ChildFirst, NextChild, Declared, PassBuilds, ConstantValuesFromInserts;
    var used := ConstantChildPass(statements, parent, outer, childDims, children, consumed).value.1;
    DeclaredPrefix(statements, consumed, used);
    if ConstantValuesFromInserts(statements[consumed..], parent, outer, childDims, children, false).Some? {
      PassEnds(statements, parent, outer, childDims, children, consumed);
    } else if NextChild(statements[consumed..]).Some? {
      var child := NextChild(statements[consumed..]).value;
      DistinctMiddle(statements, consumed, child.consumed, used);
      NextChildSound(statements[consumed..]);
      PoolBuilds(statements[..consumed], children, statements[consumed..][..child.consumed], child);
      PassSound(statements, parent, outer, childDims, children + [child], consumed + child.consumed);
    } else {
      var child := ChildFirst(statements, children, consumed, false).value;
      DistinctPrefix(statements, child.consumed, used);
      ChildFirstSound(statements, children, consumed, false);
      PassSound(statements, parent, outer, childDims, children + [child], child.consumed);
    }
  }

  lemma {:induction false} NextChildSound(statements: seq<Statement>)
    requires NextChild(statements).Some? && Distinct(statements[..NextChild(statements).value.consumed])
    ensures Builds(statements[..NextChild(statements).value.consumed], NextChild(statements).value)
    decreases |statements|, 0, 1
  {
    if Direct(statements).Some? {
      DirectSound(statements);
    } else {
      ParentFirstSound(statements);
    }
  }

  /** The state after some complete passes of a parent-first initializer, whatever the starting store. */
  ghost predicate PassesOk(statements: seq<Statement>, consumed: nat, parent: string, dims: seq<nat>,
                           values: Option<seq<int>>)
    requires consumed <= |statements| && dims != []
  {
    && (values.Some? ==> |values.value| == Product(dims))
    && forall store :: PassesRun(statements[..consumed], parent, dims, values, store)
  }

  ghost predicate PassesRun(segment: seq<Statement>, parent: string, dims: seq<nat>, values: Option<seq<int>>,
                            store: Store)
    requires dims != [] && (values.Some? ==> |values.value| == Product(dims))
  {
    && Run(segment, store).Some? && HasArray(Run(segment, store).value, parent, dims[0])
    && (values.Some? ==> Run(segment, store).value[parent] == Nest(dims, values.value))
    && SameElsewhere(store, Run(segment, store).value, Declared(segment))
  }

  lemma PassesNext(statements: seq<Statement>, consumed: nat, k: nat, parent: string, dims: seq<nat>,
                   values: Option<seq<int>>, more: seq<int>)
    requires consumed + k <= |statements| && dims != [] && PassesOk(statements, consumed, parent, dims, values)
    requires PassBuilds(statements[consumed..][..k], parent, dims, more) && parent in Declared(statements[..consumed])
    ensures PassesOk(statements, consumed + k, parent, dims, Some(more))
  {
    hide Nest, Product, Declared, Run;
    var one, two := statements[..consumed], statements[consumed..][..k];
    assert one + two == statements[..consumed + k];
    DeclaredConcat(one, two);
    NestIsArray(dims, more);
    forall store: Store
      ensures PassesRun(one + two, parent, dims, Some(more), store)
    {
      assert PassesRun(one, parent, dims, values, store);
      var middle := Run(one, store).value;
      assert PassRuns(two, parent, dims, more, middle);
      RunConcat(one, two, store);
    }
  }

  lemma NestIsArray(dims: seq<nat>, values: seq<int>)
    requires dims != [] && |values| == Product(dims)
    ensures Nest(dims, values).Array? && |Nest(dims, values).items| == dims[0]
  {
  }

  lemma {:induction false} ParentPassesSound(statements: seq<Statement>, parent: string, outer: nat,
                                             childDims: seq<nat>, consumed: nat, values: Option<seq<int>>)
    requires 1 <= consumed <= |statements| && outer > 0 && statements[0].Declaration? && statements[0].name == parent
    requires PassesOk(statements, consumed, parent, [outer] + childDims, values)
    requires Distinct(statements[..ParentPasses(statements, parent, outer, childDims, consumed, values).1])
    ensures var r := ParentPasses(statements, parent, outer, childDims, consumed, values);
            PassesOk(statements, r.1, parent, [outer] + childDims, r.0)
    decreases |statements| - consumed, 2
  {
    hide Pool, PassesOk, Distinct, Declared, PassBuilds, ConstantChildPass;
    var rest := statements[consumed..];
    var pass := ConstantChildPass(rest, parent, outer, childDims, [], 0);
    if pass.Some? {
      var (more, k) := pass.value;
      var end := ParentPasses(statements, parent, outer, childDims, consumed, values).1;
      assert ParentPasses(statements, parent, outer, childDims, consumed, values) == ParentPasses(statements, parent,
        outer, childDims, consumed + k, Some(more));
      DistinctMiddle(statements, consumed, k, end);
      DeclaredFirst(statements, consumed);
      PoolEmpty();
      assert rest[..0] == [];
      PassSound(rest, parent, outer, childDims, [], 0);
      PassesNext(statements, consumed, k, parent, [outer] + childDims, values, more);
      ParentPassesSound(statements, parent, outer, childDims, consumed + k, Some(more));
    }
  }

  lemma PassesStart(statements: seq<Statement>, dims: seq<nat>)
    requires statements != [] && statements[0].Declaration? &&
             ConcreteDimensions(statements[0].memory, statements[0].dimensions) == Some(dims) && dims != []
    ensures PassesOk(statements, 1, statements[0].name, dims, None)
  {
    DeclaredFirst(statements, 1);
    forall store: Store
      ensures PassesRun(statements[..1], statements[0].name, dims, None, store)
    {
      DeclareRun(statements, dims, store);
    }
  }

  /** A parent-first literal is what its statements build, for any nesting. */
  lemma {:induction false} ParentFirstSound(statements: seq<Statement>)
    requires ParentFirst(statements).Some? && Distinct(statements[..ParentFirst(statements).value.consumed])
    ensures Builds(statements[..ParentFirst(statements).value.consumed], ParentFirst(statements).value)
    decreases |statements|, 0, 0
  {
    hide Nest, Product, Declared, Run, ConcreteDimensions, ParentPasses;
    var literal := ParentFirst(statements).value;
    var dims := literal.dimensions;
    var segment := statements[..literal.consumed];
    assert [dims[0]] + dims[1..] == dims;
    PassesStart(statements, dims);
    ParentPassesSound(statements, literal.name, dims[0], dims[1..], 1, None);
    DeclaredFirst(statements, literal.consumed);
    assert segment[0] == statements[0];
    assert PassesOk(statements, literal.consumed, literal.name, dims, Some(literal.values));
    forall store: Store
      ensures Leads(segment, literal.name, dims, literal.values, store)
    {
      assert PassesRun(segment, literal.name, dims, Some(literal.values), store);
    }
  }

  // ---- Chains of child-first literals

  lemma {:induction false} ChainMonotone(statements: seq<Statement>, children: seq<Literal>, consumed: nat,
                                         last: Option<Literal>)
    requires consumed <= |statements| && Chain(statements, children, consumed, last).Some?
    ensures Chain(statements, children, consumed, last) == last ||
            consumed < Chain(statements, children, consumed, last).value.consumed <= |statements|
    decreases |statements| - consumed
  {
    hide ChildFirst, NextChild;
    if ChildFirst(statements, children, consumed, true).Some? {
      var literal := ChildFirst(statements, children, consumed, true).value;
      ChainMonotone(statements, [literal], literal.consumed, Some(literal));
    } else if NextChild(statements[consumed..]).Some? {
      var child := NextChild(statements[consumed..]).value;
      ChainMonotone(statements, children + [child], consumed + child.consumed, last);
    }
  }

  /** What is known of the last literal of a chain. */
  ghost predicate LastOk(statements: seq<Statement>, last: Option<Literal>) {
    last.Some? ==> last.value.consumed <= |statements| && Builds(statements[..last.value.consumed], last.value)
  }

  lemma {:induction false} ChainSound(statements: seq<Statement>, children: seq<Literal>, consumed: nat,
                                      last: Option<Literal>)
    requires consumed <= |statements| && Chain(statements, children, consumed, last).Some? && LastOk(statements, last)
    requires Chain(statements, children, consumed, last).value.consumed <= |statements| ==>
               Distinct(statements[..Chain(statements, children, consumed, last).value.consumed])
    requires consumed <= Chain(statements, children, consumed, last).value.consumed ==>
             Pool(statements[..consumed], children)
    ensures LastOk(statements, Chain(statements, children, consumed, last))
    decreases |statements| - consumed
  {
    hide Pool, Builds, Distinct, ChildFirst, NextChild, Declared;
    ChainMonotone(statements, children, consumed, last);
    var final := Chain(statements, children, consumed, last).value;
    if ChildFirst(statements, children, consumed, true).Some? {
      var literal := ChildFirst(statements, children, consumed, true).value;
      ChainMonotone(statements, [literal], literal.consumed, Some(literal));
      DistinctPrefix(statements, literal.consumed, final.consumed);
      ChildFirstSound(statements, children, consumed, true);
      ChainSound(statements, [literal], literal.consumed, Some(literal));
    } else if NextChild(statements[consumed..]).Some? {
      var child := NextChild(statements[consumed..]).value;
      if consumed + child.consumed <= final.consumed {
        DistinctMiddle(statements, consumed, child.consumed, final.consumed);
        NextChildSound(statements[consumed..]);
        PoolBuilds(statements[..consumed], children, statements[consumed..][..child.consumed], child);
      }
      ChainSound(statements, children + [child], consumed + child.consumed, last);
    }
  }

  /** Whatever literal is recovered, running the consumed statements from any store builds exactly it. */
  lemma RecognitionSound(statements: seq<Statement>)
    requires ConcreteArrayLiteral(statements).Some?
    requires var n := ConcreteArrayLiteral(statements).value.consumed; n <= |statements| ==> Distinct(statements[..n])
    ensures var literal := ConcreteArrayLiteral(statements).value;
            literal.consumed <= |statements| && Builds(statements[..literal.consumed], literal)
  {
    if ParentFirst(statements).Some? {
      ParentFirstSound(statements);
    } else if Chain(statements, [], 0, None).Some? {
      PoolEmpty();
      assert statements[..0] == [];
      ChainMonotone(statements, [], 0, None);
      ChainSound(statements, [], 0, None);
    } else {
      DirectSound(statements);
    }
  }
}
