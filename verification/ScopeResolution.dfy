/** Lowering succeeds exactly on statements whose names are declared in an open scope (the errors of
    get_named_value and set_named_value in llzk_backend/src/gen_context.rs). */
module ScopeResolution {
  import opened Field
  import opened ScopeStack
  import opened ScopeLowering

  /** The names declared in each open scope, the innermost last. */
  type Declared = seq<set<string>>

  predicate Visible(x: string, names: Declared) {
    exists i :: 0 <= i < |names| && x in names[i]
  }

  predicate Resolved(e: Expression, names: Declared) {
    match e
    case Literal(_) => true
    case Name(x) => Visible(x, names)
    case Infix(_, l, r) => Resolved(l, names) && Resolved(r, names)
  }

  /** Every name read or assigned is declared, at that point, in an open scope. */
  predicate Resolves(s: Statement, names: Declared)
    decreases s, 0
  {
    match s
    case Declaration(_, _) => true
    case Assignment(x, e) => Resolved(e, names) && Visible(x, names)
    case Block(statements) => ResolvesAll(statements, names + [{}])
    case IfThenElse(cond, t, e) =>
      Resolved(cond, names) && Resolves(t, names + [{}]) && (e.Else? ==> Resolves(e.statement, names + [{}]))
  }

  predicate ResolvesAll(ss: seq<Statement>, names: Declared)
    decreases ss, 1
  {
    ss == [] || (ResolvesAll(ss[..|ss| - 1], names) && Resolves(ss[|ss| - 1], DeclaredBy(ss[..|ss| - 1], names)))
  }

  /** Only declarations of the list itself reach past it; blocks and branches close their scopes. */
  function DeclaredBy(ss: seq<Statement>, names: Declared): Declared {
    if ss == [] then names else DeclaredAfter(ss[|ss| - 1], DeclaredBy(ss[..|ss| - 1], names))
  }

  function DeclaredAfter(s: Statement, names: Declared): Declared {
    if s.Declaration? && names != [] then names[|names| - 1 := names[|names| - 1] + {s.name}] else names
  }

  function NamesOf(stack: Stack<Term>): (r: Declared)
    ensures |r| == |stack|
  {
    seq(|stack|, i requires 0 <= i < |stack| => stack[i].locals.Keys)
  }

  lemma VisibleDeclares(stack: Stack<Term>, x: string)
    requires Valid(stack)
    ensures Visible(x, NamesOf(stack)) <==> Declares(stack, x)
    ensures Get(stack, x).Some? <==> Declares(stack, x)
  {
    if Visible(x, NamesOf(stack)) {
      var i :| 0 <= i < |stack| && x in NamesOf(stack)[i];
      assert x in stack[i].locals;
    }
    if Declares(stack, x) {
      var i :| 0 <= i < |stack| && x in stack[i].locals;
      assert x in NamesOf(stack)[i];
      var d := NearestExists(stack, x);
      GetNearest(stack, x, d);
    } else {
      GetUndeclared(stack, x);
    }
  }

  lemma {:induction false} ExpressionResolves(e: Expression, stack: Stack<Term>)
    requires Valid(stack)
    ensures LowerExpression(e, stack).Some? <==> Resolved(e, NamesOf(stack))
  {
    hide Valid, Visible, NamesOf, Get;
    match e
    case Literal(_) =>
    case Name(x) => VisibleDeclares(stack, x);
    case Infix(_, l, r) =>
      ExpressionResolves(l, stack);
      ExpressionResolves(r, stack);
  }

  lemma NamesPushed(stack: Stack<Term>)
    ensures NamesOf(Push(stack)) == NamesOf(stack) + [{}]
  {
    assert Push(stack)[|stack|].locals.Keys == {};
  }

  lemma NamesSet(stack: Stack<Term>, values: map<string, Term>)
    requires stack != [] && SetAll(stack, values).Some?
    ensures NamesOf(SetAll(stack, values).value) == NamesOf(stack)
  {
    var n, next := |stack| - 1, SetAll(stack, values).value;
    assert next[n].locals.Keys == stack[n].locals.Keys;
    assert forall i :: 0 <= i < n ==> next[i] == stack[i];
  }

  /** The overwrites of a statement generated in its own scope name variables declared outside. */
  lemma OverwritesDeclared(s: Statement, stack: Stack<Term>)
    requires Valid(stack) && Scoped(s, stack).Some?
    ensures SetAll(stack, Scoped(s, stack).value).Some?
    ensures forall x :: x in Scoped(s, stack).value ==> Declares(stack, x)
  {
    hide Scoped, Valid;
    var w := World(_ => 0, _ => 0, (_, _, _) => 0);
    ScopedMeaning(s, stack, w);
    SetAllRefines(stack, Scoped(s, stack).value);
  }

  lemma ScopedResolves(s: Statement, stack: Stack<Term>)
    requires Valid(stack)
    ensures Scoped(s, stack).Some? <==> Lower(s, Push(stack)).Some?
  {
    var w := World(_ => 0, _ => 0, (_, _, _) => 0);
    PushMeaning(stack, w);
    if Lower(s, Push(stack)).Some? { LowerMeaning(s, Push(stack), w); }
  }

  /** The results of a conditional always exist: what a branch overwrites has a current value. */
  lemma ResultsExist(stack: Stack<Term>, cond: Term, thenValues: map<string, Term>, elseValues: map<string, Term>)
    requires Valid(stack) && (forall x :: x in thenValues || x in elseValues ==> Declares(stack, x))
    ensures Results(cond, thenValues, elseValues, stack).Some?
    ensures SetAll(stack, Results(cond, thenValues, elseValues, stack).value).Some?
  {
    forall x | x in thenValues.Keys + elseValues.Keys
      ensures Yielded(thenValues, stack, x).Some? && Yielded(elseValues, stack, x).Some?
    {
      VisibleDeclares(stack, x);
    }
    assert Results(cond, thenValues, elseValues, stack).value.Keys == thenValues.Keys + elseValues.Keys;
    hide Yielded, Valid;
    SetAllRefines(stack, Results(cond, thenValues, elseValues, stack).value);
  }

  lemma {:induction false} IfResolves(s: Statement, stack: Stack<Term>)
    requires s.IfThenElse? && Valid(stack)
    ensures Lower(s, stack).Some? <==> Resolves(s, NamesOf(stack))
    ensures Lower(s, stack).Some? ==> NamesOf(Lower(s, stack).value) == NamesOf(stack)
    decreases s, 0, 0
  {
    hide Valid, NamesOf, Scoped, Results, SetAll, Resolved;
    var t, e := s.ifCase, s.elseCase;
    var w := World(_ => 0, _ => 0, (_, _, _) => 0);
    PushMeaning(stack, w);
    NamesPushed(stack);
    ExpressionResolves(s.cond, stack);
    LowerResolves(t, Push(stack));
    ScopedResolves(t, stack);
    if e.Else? {
      LowerResolves(e.statement, Push(stack));
      ScopedResolves(e.statement, stack);
    }
    var elseValues := if e.NoElse? then Some(map[]) else Scoped(e.statement, stack);
    if Scoped(t, stack).Some? && elseValues.Some? && LowerExpression(s.cond, stack).Some? {
      OverwritesDeclared(t, stack);
      if e.Else? { OverwritesDeclared(e.statement, stack); }
      ResultsExist(stack, LowerExpression(s.cond, stack).value, Scoped(t, stack).value, elseValues.value);
      ValidNonEmpty(stack);
      NamesSet(stack, Results(LowerExpression(s.cond, stack).value, Scoped(t, stack).value, elseValues.value,
        stack).value);
    }
  }

  lemma ValidNonEmpty(stack: Stack<Term>)
    requires Valid(stack)
    ensures stack != []
  {
  }

  /** Lowering succeeds exactly when every name is declared, and declares what the statement declares. */
  lemma {:induction false} LowerResolves(s: Statement, stack: Stack<Term>)
    requires Valid(stack)
    ensures Lower(s, stack).Some? <==> Resolves(s, NamesOf(stack))
    ensures Lower(s, stack).Some? ==> NamesOf(Lower(s, stack).value) == DeclaredAfter(s, NamesOf(stack))
    decreases s, 0, 1
  {
    match s {
      case Declaration(x, site) => DeclarationResolves(s, stack);
      case Assignment(x, e) => AssignmentResolves(s, stack);
      case Block(statements) => BlockResolves(s, stack);
      case IfThenElse(_, _, _) => IfResolves(s, stack);
    }
  }

  lemma DeclarationResolves(s: Statement, stack: Stack<Term>)
    requires s.Declaration? && Valid(stack)
    ensures Lower(s, stack).Some? && NamesOf(Lower(s, stack).value) == DeclaredAfter(s, NamesOf(stack))
  {
    var n, next := |stack| - 1, Lower(s, stack).value;
    assert next[n].locals.Keys == stack[n].locals.Keys + {s.name};
    assert forall i :: 0 <= i < n ==> next[i] == stack[i];
  }

  lemma AssignmentResolves(s: Statement, stack: Stack<Term>)
    requires s.Assignment? && Valid(stack)
    ensures Lower(s, stack).Some? <==> Resolves(s, NamesOf(stack))
    ensures Lower(s, stack).Some? ==> NamesOf(Lower(s, stack).value) == NamesOf(stack)
  {
    ExpressionResolves(s.rhe, stack);
    VisibleDeclares(stack, s.name);
    if Lower(s, stack).Some? {
      var t := LowerExpression(s.rhe, stack).value;
      SetIsSetAll(stack, s.name, t);
      NamesSet(stack, map[s.name := t]);
    }
  }

  lemma {:induction false} BlockResolves(s: Statement, stack: Stack<Term>)
    requires s.Block? && Valid(stack)
    ensures Lower(s, stack).Some? <==> Resolves(s, NamesOf(stack))
    ensures Lower(s, stack).Some? ==> NamesOf(Lower(s, stack).value) == NamesOf(stack)
    decreases s, 0, 0
  {
    hide Valid, NamesOf, SetAll;
    var w := World(_ => 0, _ => 0, (_, _, _) => 0);
    PushMeaning(stack, w);
    NamesPushed(stack);
    LowerAllResolves(s.statements, Push(stack));
    if LowerAll(s.statements, Push(stack)).Some? {
      var pushed := LowerAll(s.statements, Push(stack)).value;
      LowerAllMeaning(s.statements, Push(stack), w);
      PoppedMeaning(stack, pushed, w);
      ValidNonEmpty(stack);
      NamesSet(stack, pushed[|stack|].overwrites);
    }
  }

  lemma {:induction false} LowerAllResolves(ss: seq<Statement>, stack: Stack<Term>)
    requires Valid(stack)
    ensures LowerAll(ss, stack).Some? <==> ResolvesAll(ss, NamesOf(stack))
    ensures LowerAll(ss, stack).Some? ==> NamesOf(LowerAll(ss, stack).value) == DeclaredBy(ss, NamesOf(stack))
    decreases ss, 2
  {
    hide Valid, NamesOf, DeclaredAfter;
    if ss != [] {
      var front, last := ss[..|ss| - 1], ss[|ss| - 1];
      LowerAllResolves(front, stack);
      if LowerAll(front, stack).Some? {
        LowerAllMeaning(front, stack, World(_ => 0, _ => 0, (_, _, _) => 0));
        LowerResolves(last, LowerAll(front, stack).value);
      }
    }
  }

  /** A function body is lowered exactly when its names resolve from the parameters on, and then every
      variable has the value interpretation gives it. */
  lemma FunctionResolves(parameters: map<string, Term>, body: seq<Statement>, w: World)
    ensures LowerAll(body, [Frame(parameters, map[])]).Some? <==> ResolvesAll(body, [parameters.Keys])
    ensures ResolvesAll(body, [parameters.Keys]) ==>
              InterpretAll(body, [EvaluateScope(parameters, w)], w) ==
              Some(Meaning(LowerAll(body, [Frame(parameters, map[])]).value, w))
  {
    var stack := [Frame(parameters, map[])];
    assert NamesOf(stack) == [parameters.Keys];
    LowerAllResolves(body, stack);
    if LowerAll(body, stack).Some? { FunctionLowering(parameters, body, w); }
  }
}
