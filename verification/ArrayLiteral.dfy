/** Recognising a run of statements that initialises a constant array
    (concrete_array_literal_initializer and its helpers in llzk_backend/src/function.rs). */
module ArrayLiteral {
  import opened Field
  import opened ArrayStatements

  datatype Literal = Literal(name: string, dimensions: seq<nat>, values: seq<int>, declarationOffset: nat,
                             consumed: nat)

  // ---- What the matchers compute

  /** The accesses spell the flat index, innermost last. */
  predicate IndexMatches(access: seq<Access>, dims: seq<nat>, expected: nat)
    requires |access| == |dims| && forall i :: 0 <= i < |dims| ==> dims[i] > 0
    decreases |dims|
  {
    if access == [] then expected == 0 else
      var n := |access| - 1;
      && access[n].ArrayAccess? && access[n].index.Number?
      && ToUsize(access[n].index.value) == Some(expected % dims[n])
      && IndexMatches(access[..n], dims[..n], expected / dims[n])
  }

  /** The constant the statement gives to one element. */
  function ElementAt(statement: Statement, name: string, dims: seq<nat>, flat: nat): Option<int>
    requires forall i :: 0 <= i < |dims| ==> dims[i] > 0
  {
    if statement.Substitution? && statement.target == name && statement.op == AssignVar && |statement.access| == |dims|
       && IndexMatches(statement.access, dims, flat) && statement.rhe.Number?
    then Some(statement.rhe.value) else None
  }

  /** A complete initialization pass: every element once, in row-major order. */
  function PassValues(pass: seq<Statement>, name: string, dims: seq<nat>): (r: Option<seq<int>>)
    requires forall i :: 0 <= i < |dims| ==> dims[i] > 0
    ensures r.Some? ==> |r.value| == |pass|
  {
    if pass == [] then Some([]) else
      var n := |pass| - 1;
      match (PassValues(pass[..n], name, dims), ElementAt(pass[n], name, dims, n))
      case (Some(values), Some(v)) => Some(values + [v])
      case _ => None
  }

  /** The last of the complete passes starting at `consumed`, and where they end. */
  function DirectPasses(statements: seq<Statement>, name: string, n: nat, consumed: nat,
                        values: Option<seq<int>>): (r: (Option<seq<int>>, nat))
    requires n > 0 && consumed <= |statements|
    ensures consumed <= r.1 <= |statements|
    decreases |statements| - consumed
  {
    if |statements| < consumed + n then (values, consumed) else
      match PassValues(statements[consumed..consumed + n], name, [n])
      case None => (values, consumed)
      case Some(passValues) => DirectPasses(statements, name, n, consumed + n, Some(passValues))
  }

  function Direct(statements: seq<Statement>): (r: Option<Literal>)
    ensures r.Some? ==> 1 <= r.value.consumed <= |statements|
  {
    if statements == [] || !statements[0].Declaration? then None else
      var name := statements[0].name;
      match ConcreteDimensions(statements[0].memory, statements[0].dimensions)
      case None => None
      case Some(dims) =>
        if |dims| != 1 || dims[0] == 0 then None else
          var (values, consumed) := DirectPasses(statements, name, dims[0], 1, None);
          if values.None? then None else Some(Literal(name, dims, values.value, 0, consumed))
  }

  /** The first pooled literal with a name and dimensions. */
  function Position(children: seq<Literal>, name: string, dims: seq<nat>): (r: Option<nat>)
    ensures r.Some? ==> r.value < |children| && children[r.value].name == name && children[r.value].dimensions == dims
    ensures r.None? ==> forall i :: 0 <= i < |children| ==>
            !(children[i].name == name && children[i].dimensions == dims)
  {
    if children == [] then None
    else if children[0].name == name && children[0].dimensions == dims then Some(0)
    else match Position(children[1..], name, dims)
         case None => None
         case Some(k) => Some(k + 1)
  }

  /** The pooled child an insert `parent[index] = child` selects. */
  function InsertedChild(statement: Statement, parent: string, index: nat, childDims: seq<nat>,
                         children: seq<Literal>): (r: Option<nat>)
    ensures r.Some? ==> r.value < |children| && children[r.value].dimensions == childDims
  {
    if statement.Substitution? && statement.target == parent && statement.op == AssignVar && |statement.access| == 1
       && statement.access[0].ArrayAccess? && statement.access[0].index.Number?
       && statement.rhe.Variable? && ToUsize(statement.access[0].index.value) == Some(index) &&
         statement.rhe.access == []
    then Position(children, statement.rhe.name, childDims) else None
  }

  /** The children selected by ordered inserts. */
  function Selected(inserts: seq<Statement>, parent: string, childDims: seq<nat>,
                    children: seq<Literal>): (r: Option<seq<nat>>)
    ensures r.Some? ==> |r.value| == |inserts| && forall i :: 0 <= i < |r.value| ==>
            r.value[i] < |children| && children[r.value[i]].dimensions == childDims
  {
    if inserts == [] then Some([]) else
      var n := |inserts| - 1;
      match (Selected(inserts[..n], parent, childDims, children),
        InsertedChild(inserts[n], parent, n, childDims, children))
      case (Some(chosen), Some(k)) => Some(chosen + [k])
      case _ => None
  }

  function Flattened(chosen: seq<nat>, children: seq<Literal>): seq<int>
    requires forall i :: 0 <= i < |chosen| ==> chosen[i] < |children|
  {
    if chosen == [] then [] else Flattened(chosen[..|chosen| - 1], children) + children[chosen[|chosen| - 1]].values
  }

  function ConstantValuesFromInserts(statements: seq<Statement>, parent: string, outer: nat, childDims: seq<nat>,
                                     children: seq<Literal>, requireAll: bool): (r: Option<seq<int>>)
    ensures r.Some? ==> outer <= |statements|
  {
    if children == [] || |statements| < outer || outer * |children[0].values| >= USIZE_LIMIT then None else
      match Selected(statements[..outer], parent, childDims, children)
      case None => None
      case Some(chosen) =>
        if requireAll && exists k :: 0 <= k < |children| && k !in chosen then None
        else Some(Flattened(chosen, children))
  }

  function ChildFirst(statements: seq<Statement>, children: seq<Literal>, offset: nat,
                      requireAll: bool): (r: Option<Literal>)
    ensures r.Some? ==> offset < r.value.consumed <= |statements|
  {
    if offset >= |statements| || !statements[offset].Declaration? then None else
      match ConcreteDimensions(statements[offset].memory, statements[offset].dimensions)
      case None => None
      case Some(dims) =>
        if dims == [] || children == [] || (requireAll && |children| > dims[0]) then None else
          match ConstantValuesFromInserts(statements[offset + 1..], statements[offset].name, dims[0], dims[1..],
            children, requireAll)
          case None => None
          case Some(values) => Some(Literal(statements[offset].name, dims, values, offset, offset + dims[0] + 1))
  }

  /** One pass over a parent's children, with the pool collected so far. */
  function ConstantChildPass(statements: seq<Statement>, parent: string, outer: nat, childDims: seq<nat>,
                             children: seq<Literal>, consumed: nat): (r: Option<(seq<int>, nat)>)
    requires consumed <= |statements| && outer > 0
    ensures r.Some? ==> consumed < r.value.1 <= |statements|
    decreases |statements| - consumed, 1
  {
    match ConstantValuesFromInserts(statements[consumed..], parent, outer, childDims, children, false)
    case Some(values) => Some((values, consumed + outer))
    case None =>
      match NextChild(statements[consumed..])
      case Some(child) => ConstantChildPass(statements, parent, outer, childDims, children + [child],
        consumed + child.consumed)
      case None =>
        match ChildFirst(statements, children, consumed, false)
        case Some(child) => ConstantChildPass(statements, parent, outer, childDims, children + [child], child.consumed)
        case None => None
  }

  /** A literal that starts here: one-dimensional, or a parent before its children. */
  function NextChild(statements: seq<Statement>): (r: Option<Literal>)
    ensures r.Some? ==> 1 <= r.value.consumed <= |statements|
    decreases |statements|, 0, 1
  {
    if Direct(statements).Some? then Direct(statements) else ParentFirst(statements)
  }

  function ParentPasses(statements: seq<Statement>, parent: string, outer: nat, childDims: seq<nat>, consumed: nat,
                        values: Option<seq<int>>): (r: (Option<seq<int>>, nat))
    requires consumed <= |statements| && outer > 0
    ensures consumed <= r.1 <= |statements|
    decreases |statements| - consumed, 2
  {
    match ConstantChildPass(statements[consumed..], parent, outer, childDims, [], 0)
    case None => (values, consumed)
    case Some((passValues, passConsumed)) =>
      ParentPasses(statements, parent, outer, childDims, consumed + passConsumed, Some(passValues))
  }

  function ParentFirst(statements: seq<Statement>): (r: Option<Literal>)
    ensures r.Some? ==> 1 <= r.value.consumed <= |statements|
    decreases |statements|, 0, 0
  {
    if statements == [] || !statements[0].Declaration? then None else
      var name := statements[0].name;
      match ConcreteDimensions(statements[0].memory, statements[0].dimensions)
      case None => None
      case Some(dims) =>
        if |dims| <= 1 || dims[0] == 0 then None else
          var (values, consumed) := ParentPasses(statements, name, dims[0], dims[1..], 1, None);
          if values.None? then None else Some(Literal(name, dims, values.value, 0, consumed))
  }

  /** The chain of child-first literals, each promoted to be the next one's only child. */
  function Chain(statements: seq<Statement>, children: seq<Literal>, consumed: nat,
                 last: Option<Literal>): Option<Literal>
    requires consumed <= |statements|
    decreases |statements| - consumed
  {
    match ChildFirst(statements, children, consumed, true)
    case Some(literal) => Chain(statements, [literal], literal.consumed, Some(literal))
    case None =>
      match NextChild(statements[consumed..])
      case Some(child) => Chain(statements, children + [child], consumed + child.consumed, last)
      case None => last
  }

  function ConcreteArrayLiteral(statements: seq<Statement>): Option<Literal> {
    match ParentFirst(statements)
    case Some(literal) => Some(literal)
    case None =>
      match Chain(statements, [], 0, None)
      case Some(literal) => Some(literal)
      case None => Direct(statements)
  }

  // ---- The matchers as they run

  lemma DirectPassesNext(statements: seq<Statement>, name: string, n: nat, consumed: nat, values: Option<seq<int>>)
    requires n > 0 && consumed <= |statements|
    ensures DirectPasses(statements, name, n, consumed, values) ==
            if |statements| < consumed + n || PassValues(statements[consumed..consumed + n], name, [n]).None?
            then (values, consumed)
            else DirectPasses(statements, name, n, consumed + n,
              PassValues(statements[consumed..consumed + n], name, [n]))
  {
    hide PassValues;
  }

  method MatchDirect(statements: seq<Statement>) returns (r: Option<Literal>)
    ensures r == Direct(statements)
  {
    hide DirectPasses, PassValues, ConcreteDimensions;
    if statements == [] || !statements[0].Declaration? { return None; }
    var name := statements[0].name;
    var dimensions := ConcreteDimensions(statements[0].memory, statements[0].dimensions);
    if dimensions.None? || |dimensions.value| != 1 || dimensions.value[0] == 0 { return None; }
    var elementCount := dimensions.value[0];
    var consumed, values := 1, None;
    assert dimensions.value == [elementCount];
    while |statements| >= consumed + elementCount
      invariant consumed <= |statements|
      invariant DirectPasses(statements, name, elementCount, consumed, values) == DirectPasses(statements, name,
                elementCount, 1, None)
      decreases |statements| - consumed
    {
      DirectPassesNext(statements, name, elementCount, consumed, values);
      var passValues := MatchPass(statements[consumed..consumed + elementCount], name, [elementCount]);
      if passValues.None? { break; }
      values := passValues;
      consumed := consumed + elementCount;
    }
    DirectPassesNext(statements, name, elementCount, consumed, values);
    if values.None? { return None; }
    return Some(Literal(name, dimensions.value, values.value, 0, consumed));
  }

  method MatchPass(pass: seq<Statement>, name: string, dims: seq<nat>) returns (r: Option<seq<int>>)
    requires forall i :: 0 <= i < |dims| ==> dims[i] > 0
    ensures r == PassValues(pass, name, dims)
  {
    var values := [];
    for flat := 0 to |pass|
      invariant PassValues(pass[..flat], name, dims) == Some(values)
    {
      hide ElementAt;
      assert pass[..flat + 1][..flat] == pass[..flat];
      var v := ElementAt(pass[flat], name, dims, flat);
      if v.None? {
        PassStops(pass, name, dims, flat + 1);
        return None;
      }
      values := values + [v.value];
    }
    assert pass[..|pass|] == pass;
    return Some(values);
  }

  lemma {:induction false} PassStops(pass: seq<Statement>, name: string, dims: seq<nat>, n: nat)
    requires (forall i :: 0 <= i < |dims| ==> dims[i] > 0) && n <= |pass| && PassValues(pass[..n], name, dims).None?
    ensures PassValues(pass, name, dims).None?
    decreases |pass| - n
  {
    hide ElementAt;
    if n == |pass| {
      assert pass[..n] == pass;
    } else {
      assert pass[..n + 1][..n] == pass[..n];
      PassStops(pass, name, dims, n + 1);
    }
  }

  method MatchInserts(statements: seq<Statement>, parent: string, outer: nat, childDims: seq<nat>,
                      children: seq<Literal>, requireAll: bool)
    returns (r: Option<seq<int>>)
    ensures r == ConstantValuesFromInserts(statements, parent, outer, childDims, children, requireAll)
  {
    hide InsertedChild, Selected, Flattened;
    NothingSelected(statements, parent, childDims, children);
    if children == [] || |statements| < outer { return None; }
    if outer * |children[0].values| >= USIZE_LIMIT { return None; }
    var values, used := [], seq(|children|, _ => false);
    ghost var chosen: seq<nat> := [];
    for index := 0 to outer
      invariant Selected(statements[..index], parent, childDims, children) == Some(chosen)
      invariant values == Flattened(chosen, children)
      invariant |used| == |children| && forall k :: 0 <= k < |used| ==> (used[k] <==> k in chosen)
    {
      SelectedNext(statements, parent, childDims, children, index);
      var k := InsertedChild(statements[index], parent, index, childDims, children);
      if k.None? {
        assert statements[..outer][..index + 1] == statements[..index + 1];
        SelectedStops(statements[..outer], parent, childDims, children, index + 1);
        return None;
      }
      FlattenedNext(chosen, k.value, children);
      used := used[k.value := true];
      values := values + children[k.value].values;
      chosen := chosen + [k.value];
    }
    if requireAll && exists k :: 0 <= k < |children| && !used[k] { return None; }
    return Some(values);
  }

  lemma NothingSelected(statements: seq<Statement>, parent: string, childDims: seq<nat>, children: seq<Literal>)
    ensures Selected(statements[..0], parent, childDims, children) == Some([]) && Flattened([], children) == []
  {
  }

  lemma SelectedNext(statements: seq<Statement>, parent: string, childDims: seq<nat>, children: seq<Literal>, n: nat)
    requires n < |statements|
    ensures var before, child := Selected(statements[..n], parent, childDims, children),
            InsertedChild(statements[n], parent, n, childDims, children);
            Selected(statements[..n + 1], parent, childDims, children)
            == if before.Some? && child.Some? then Some(before.value + [child.value]) else None
  {
    hide InsertedChild;
    assert statements[..n + 1][..n] == statements[..n];
  }

  lemma FlattenedNext(chosen: seq<nat>, k: nat, children: seq<Literal>)
    requires k < |children| && forall i :: 0 <= i < |chosen| ==> chosen[i] < |children|
    ensures Flattened(chosen + [k], children) == Flattened(chosen, children) + children[k].values
  {
    assert (chosen + [k])[..|chosen|] == chosen;
  }

  lemma {:induction false} SelectedStops(inserts: seq<Statement>, parent: string, childDims: seq<nat>,
                                         children: seq<Literal>, n: nat)
    requires n <= |inserts| && Selected(inserts[..n], parent, childDims, children).None?
    ensures Selected(inserts, parent, childDims, children).None?
    decreases |inserts| - n
  {
    hide InsertedChild;
    if n == |inserts| {
      assert inserts[..n] == inserts;
    } else {
      assert inserts[..n + 1][..n] == inserts[..n];
      SelectedStops(inserts, parent, childDims, children, n + 1);
    }
  }

  method MatchChildFirst(statements: seq<Statement>, children: seq<Literal>, offset: nat, requireAll: bool)
    returns (r: Option<Literal>)
    ensures r == ChildFirst(statements, children, offset, requireAll)
  {
    if offset >= |statements| || !statements[offset].Declaration? { return None; }
    var name := statements[offset].name;
    var dimensions := ConcreteDimensions(statements[offset].memory, statements[offset].dimensions);
    if dimensions.None? || dimensions.value == [] { return None; }
    var outer, childDims := dimensions.value[0], dimensions.value[1..];
    if children == [] || (requireAll && |children| > outer) { return None; }
    var values := MatchInserts(statements[offset + 1..], name, outer, childDims, children, requireAll);
    if values.None? { return None; }
    return Some(Literal(name, dimensions.value, values.value, offset, offset + outer + 1));
  }

  lemma ChildPassNext(statements: seq<Statement>, parent: string, outer: nat, childDims: seq<nat>,
                      children: seq<Literal>, consumed: nat)
    requires consumed <= |statements| && outer > 0
    ensures var values, child, literal := ConstantValuesFromInserts(statements[consumed..], parent, outer, childDims,
            children, false), NextChild(statements[consumed..]), ChildFirst(statements, children, consumed, false);
            ConstantChildPass(statements, parent, outer, childDims, children, consumed) ==
            if values.Some? then Some((values.value, consumed + outer))
            else if child.Some? then ConstantChildPass(statements, parent, outer, childDims, children + [child.value],
              consumed + child.value.consumed)
            else if literal.Some? then ConstantChildPass(statements, parent, outer, childDims,
              children + [literal.value], literal.value.consumed)
            else None
  {
    hide ConstantValuesFromInserts, NextChild, ChildFirst;
  }

  method MatchChildPass(statements: seq<Statement>, parent: string, outer: nat, childDims: seq<nat>)
    returns (r: Option<(seq<int>, nat)>)
    requires outer > 0
    ensures r == ConstantChildPass(statements, parent, outer, childDims, [], 0)
    decreases |statements|, 1
  {
    hide ConstantChildPass, ConstantValuesFromInserts, ChildFirst, Direct, ParentFirst;
    var children, consumed := [], 0;
    while true
      invariant consumed <= |statements|
      invariant ConstantChildPass(statements, parent, outer, childDims, children, consumed) ==
                ConstantChildPass(statements, parent, outer, childDims, [], 0)
      decreases |statements| - consumed
    {
      ChildPassNext(statements, parent, outer, childDims, children, consumed);
      var values := MatchInserts(statements[consumed..], parent, outer, childDims, children, false);
      if values.Some? { return Some((values.value, consumed + outer)); }
      var child := MatchDirect(statements[consumed..]);
      if child.None? { child := MatchParentFirst(statements[consumed..]); }
      if child.Some? {
        consumed := consumed + child.value.consumed;
        children := children + [child.value];
        continue;
      }
      child := MatchChildFirst(statements, children, consumed, false);
      if child.None? { return None; }
      consumed := child.value.consumed;
      children := children + [child.value];
    }
  }

  lemma ParentPassesNext(statements: seq<Statement>, parent: string, outer: nat, childDims: seq<nat>, consumed: nat,
                         values: Option<seq<int>>)
    requires consumed <= |statements| && outer > 0
    ensures var pass := ConstantChildPass(statements[consumed..], parent, outer, childDims, [], 0);
            ParentPasses(statements, parent, outer, childDims, consumed, values) ==
            if pass.None? then (values, consumed)
            else ParentPasses(statements, parent, outer, childDims, consumed + pass.value.1, Some(pass.value.0))
  {
    hide ConstantChildPass;
  }

  method MatchParentFirst(statements: seq<Statement>) returns (r: Option<Literal>)
    ensures r == ParentFirst(statements)
    decreases |statements|, 0
  {
    hide ParentPasses, ConstantChildPass, ConcreteDimensions;
    if statements == [] || !statements[0].Declaration? { return None; }
    var name := statements[0].name;
    var dimensions := ConcreteDimensions(statements[0].memory, statements[0].dimensions);
    if dimensions.None? || |dimensions.value| <= 1 || dimensions.value[0] == 0 { return None; }
    var outer, childDims := dimensions.value[0], dimensions.value[1..];
    var consumed, values := 1, None;
    while true
      invariant 1 <= consumed <= |statements|
      invariant ParentPasses(statements, name, outer, childDims, consumed, values) == ParentPasses(statements, name,
                outer, childDims, 1, None)
      decreases |statements| - consumed
    {
      ParentPassesNext(statements, name, outer, childDims, consumed, values);
      var pass := MatchChildPass(statements[consumed..], name, outer, childDims);
      if pass.None? { break; }
      values := Some(pass.value.0);
      consumed := consumed + pass.value.1;
    }
    if values.None? { return None; }
    return Some(Literal(name, dimensions.value, values.value, 0, consumed));
  }

  lemma ChainNext(statements: seq<Statement>, children: seq<Literal>, consumed: nat, last: Option<Literal>)
    requires consumed <= |statements|
    ensures var literal, child := ChildFirst(statements, children, consumed, true), NextChild(statements[consumed..]);
            Chain(statements, children, consumed, last) ==
            if literal.Some? then Chain(statements, [literal.value], literal.value.consumed, literal)
            else if child.Some?
            then Chain(statements, children + [child.value], consumed + child.value.consumed, last)
            else last
  {
    hide ChildFirst, NextChild;
  }

  method MatchLiteral(statements: seq<Statement>) returns (r: Option<Literal>)
    ensures r == ConcreteArrayLiteral(statements)
  {
    hide Chain, ChildFirst, Direct, ParentFirst;
    r := MatchParentFirst(statements);
    if r.Some? { return; }
    var children, consumed, last := [], 0, None;
    while true
      invariant consumed <= |statements|
      invariant Chain(statements, children, consumed, last) == Chain(statements, [], 0, None)
      decreases |statements| - consumed
    {
      ChainNext(statements, children, consumed, last);
      var literal := MatchChildFirst(statements, children, consumed, true);
      if literal.Some? {
        consumed := literal.value.consumed;
        last := literal;
        children := [literal.value];
        continue;
      }
      var child := MatchDirect(statements[consumed..]);
      if child.None? { child := MatchParentFirst(statements[consumed..]); }
      if child.None? { break; }
      consumed := consumed + child.value.consumed;
      children := children + [child.value];
    }
    if last.Some? { return last; }
    r := MatchDirect(statements);
  }
}
