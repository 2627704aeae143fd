/** Lowering scalar, return-free blocks and conditionals through the scope stack gives every visible
    variable the value direct interpretation gives (gen_if_then_else and the block case in
    llzk_backend/src/function.rs, gen_scf_if_with_var_overwrites and add_overwrites in gen_context.rs). */
module ScopeLowering {
  import opened Field
  import opened ScopeStack

  /** The generated value: constants, function inputs, uninitialised values, operations, and the result of an scf.if. */
  datatype Term = Num(value: int) | Input(name: string) | Nondet(site: nat) | Binary(op: nat, left: Term,
                      right: Term) | Ite(cond: Term, yes: Term, no: Term)

  datatype Expression = Literal(value: int) | Name(name: string) | Infix(op: nat, left: Expression, right: Expression)

  datatype Statement =
    | Declaration(name: string, site: nat)
    | Assignment(name: string, rhe: Expression)
    | Block(statements: seq<Statement>)
    | IfThenElse(cond: Expression, ifCase: Statement, elseCase: Otherwise)

  datatype Otherwise = NoElse | Else(statement: Statement)

  // ---- Lowering

  function LowerExpression(e: Expression, stack: Stack<Term>): Option<Term> {
    match e
    case Literal(v) => Some(Num(v))
    case Name(x) => Get(stack, x)
    case Infix(op, l, r) =>
      match (LowerExpression(l, stack), LowerExpression(r, stack))
      case (Some(left), Some(right)) => Some(Binary(op, left, right))
      case _ => None
  }

  /** The value a branch yields for a variable: its overwrite, or the current one. */
  function Yielded(overwrites: map<string, Term>, stack: Stack<Term>, name: string): Option<Term> {
    if name in overwrites then Some(overwrites[name]) else Get(stack, name)
  }

  /** The results of the scf.if: one for each variable either branch overwrites. */
  function Results(cond: Term, thenValues: map<string, Term>, elseValues: map<string, Term>,
                   stack: Stack<Term>): Option<map<string, Term>> {
    var names := thenValues.Keys + elseValues.Keys;
    if forall x :: x in names ==> Yielded(thenValues, stack, x).Some? && Yielded(elseValues, stack, x).Some?
    then Some(map x | x in names :: Ite(cond, Yielded(thenValues, stack, x).value, Yielded(elseValues, stack, x).value))
    else None
  }

  /** The overwrites of a statement generated in a scope of its own. */
  function Scoped(s: Statement, stack: Stack<Term>): Option<map<string, Term>>
    decreases s, 1
  {
    match Lower(s, Push(stack))
    case None => None
    case Some(pushed) => if pushed == [] then None else Some(pushed[|pushed| - 1].overwrites)
  }

  function Lower(s: Statement, stack: Stack<Term>): Option<Stack<Term>>
    decreases s, 0
  {
    match s
    case Declaration(x, site) =>
      if stack == [] then None else if x in stack[|stack| - 1].locals then Some(stack)
        else Declare(stack, x, Nondet(site))
    case Assignment(x, e) =>
      (match LowerExpression(e, stack)
       case None => None
       case Some(t) => Set(stack, x, t))
    case Block(statements) =>
      (match LowerAll(statements, Push(stack))
       case None => None
       case Some(pushed) => if pushed == [] then None else SetAll(pushed[..|pushed| - 1],
         pushed[|pushed| - 1].overwrites))
    case IfThenElse(cond, t, e) =>
      var thenValues := Scoped(t, stack);
      var elseValues := if e.NoElse? then Some(map[]) else Scoped(e.statement, stack);
      match (thenValues, elseValues, LowerExpression(cond, stack))
      case (Some(ts), Some(es), Some(c)) =>
        (match Results(c, ts, es, stack)
         case None => None
         case Some(values) => SetAll(stack, values))
      case _ => None
  }

  function LowerAll(ss: seq<Statement>, stack: Stack<Term>): Option<Stack<Term>>
    decreases ss, 2
  {
    if ss == [] then Some(stack) else
      match LowerAll(ss[..|ss| - 1], stack)
      case None => None
      case Some(middle) => Lower(ss[|ss| - 1], middle)
  }

  // ---- Direct interpretation over a plain nested store

  /** Inputs, uninitialised values and operations are arbitrary. */
  datatype World = World(input: string -> int, nondet: nat -> int, operation: (nat, int, int) -> int)

  function Evaluate(t: Term, w: World): int {
    match t
    case Num(v) => v
    case Input(x) => w.input(x)
    case Nondet(site) => w.nondet(site)
    case Binary(op, l, r) => w.operation(op, Evaluate(l, w), Evaluate(r, w))
    case Ite(c, a, b) => if Evaluate(c, w) != 0 then Evaluate(a, w) else Evaluate(b, w)
  }

  function Lookup(scopes: Scopes<int>, x: string): Option<int> {
    if scopes == [] then None
    else if x in scopes[|scopes| - 1] then Some(scopes[|scopes| - 1][x])
    else Lookup(scopes[..|scopes| - 1], x)
  }

  /** Assign in the innermost scope that declares the name. */
  function Update(scopes: Scopes<int>, x: string, v: int): Option<Scopes<int>> {
    if scopes == [] then None else
      var n := |scopes| - 1;
      if x in scopes[n] then Some(scopes[n := scopes[n][x := v]])
      else match Update(scopes[..n], x, v)
           case None => None
           case Some(outer) => Some(outer + [scopes[n]])
  }

  function Value(e: Expression, scopes: Scopes<int>, w: World): Option<int> {
    match e
    case Literal(v) => Some(v)
    case Name(x) => Lookup(scopes, x)
    case Infix(op, l, r) =>
      match (Value(l, scopes, w), Value(r, scopes, w))
      case (Some(left), Some(right)) => Some(w.operation(op, left, right))
      case _ => None
  }

  function Interpret(s: Statement, scopes: Scopes<int>, w: World): Option<Scopes<int>>
    decreases s, 0
  {
    match s
    case Declaration(x, site) =>
      if scopes == [] then None
      else if x in scopes[|scopes| - 1] then Some(scopes)
      else Some(scopes[|scopes| - 1 := scopes[|scopes| - 1][x := w.nondet(site)]])
    case Assignment(x, e) =>
      (match Value(e, scopes, w)
       case None => None
       case Some(v) => Update(scopes, x, v))
    case Block(statements) => Popped(InterpretAll(statements, scopes + [map[]], w))
    case IfThenElse(cond, t, e) =>
      match Value(cond, scopes, w)
      case None => None
      case Some(c) =>
        if c != 0 then Popped(Interpret(t, scopes + [map[]], w))
        else if e.NoElse? then Some(scopes)
        else Popped(Interpret(e.statement, scopes + [map[]], w))
  }

  function Popped(scopes: Option<Scopes<int>>): Option<Scopes<int>> {
    if scopes.None? || scopes.value == [] then None else Some(scopes.value[..|scopes.value| - 1])
  }

  function InterpretAll(ss: seq<Statement>, scopes: Scopes<int>, w: World): Option<Scopes<int>>
    decreases ss, 2
  {
    if ss == [] then Some(scopes) else
      match InterpretAll(ss[..|ss| - 1], scopes, w)
      case None => None
      case Some(middle) => Interpret(ss[|ss| - 1], middle, w)
  }

  // ---- What the stack stands for

  ghost function EvaluateScope(scope: map<string, Term>, w: World): map<string, int> {
    map x | x in scope :: Evaluate(scope[x], w)
  }

  ghost function Meaning(stack: Stack<Term>, w: World): (r: Scopes<int>)
    ensures |r| == |stack|
  {
    seq(|stack|, i requires 0 <= i < |stack| => EvaluateScope(Abs(stack)[i], w))
  }

  lemma MeaningAt(stack: Stack<Term>, w: World, i: nat, x: string)
    requires i < |stack|
    ensures Meaning(stack, w)[i].Keys == stack[i].locals.Keys
    ensures x in stack[i].locals ==>
            Meaning(stack, w)[i][x] == Evaluate(ValueAt(stack, i, x), w) == Evaluate(Abs(stack)[i][x], w)
  {
  }

  /** Stacks with the same nested store have the same meaning. */
  lemma MeaningOfAbs(one: Stack<Term>, two: Stack<Term>, w: World)
    requires |one| <= |two| && Abs(one) == Abs(two)[..|one|]
    ensures Meaning(one, w) == Meaning(two, w)[..|one|]
  {
    hide Abs;
    forall i | 0 <= i < |one|
      ensures Meaning(one, w)[i] == Meaning(two, w)[i]
    {
      assert Abs(one)[i] == Abs(two)[i];
    }
  }

  lemma {:induction false} LookupAt(scopes: Scopes<int>, x: string, d: nat)
    requires d < |scopes| && x in scopes[d] && forall i :: d < i < |scopes| ==> x !in scopes[i]
    ensures Lookup(scopes, x) == Some(scopes[d][x])
  {
    if d < |scopes| - 1 { LookupAt(scopes[..|scopes| - 1], x, d); }
  }

  lemma {:induction false} UpdateAt(scopes: Scopes<int>, x: string, d: nat, v: int)
    requires d < |scopes| && x in scopes[d] && forall i :: d < i < |scopes| ==> x !in scopes[i]
    ensures Update(scopes, x, v) == Some(scopes[d := scopes[d][x := v]])
  {
    var n := |scopes| - 1;
    if d < n {
      UpdateAt(scopes[..n], x, d, v);
      assert scopes[..n][d := scopes[d][x := v]] + [scopes[n]] == scopes[d := scopes[d][x := v]];
    }
  }

  lemma GetMeaning(stack: Stack<Term>, x: string, w: World)
    requires Valid(stack) && Get(stack, x).Some?
    ensures Lookup(Meaning(stack, w), x) == Some(Evaluate(Get(stack, x).value, w))
  {
    if !Declares(stack, x) { GetUndeclared(stack, x); }
    assert Declares(stack, x);
    var d := NearestExists(stack, x);
    GetNearest(stack, x, d);
    MeaningKeys(stack, w);
    LookupAt(Meaning(stack, w), x, d);
    MeaningAt(stack, w, d, x);
  }

  lemma MeaningKeys(stack: Stack<Term>, w: World)
    ensures forall i :: 0 <= i < |stack| ==> Meaning(stack, w)[i].Keys == stack[i].locals.Keys
  {
  }

  lemma {:induction false} ExpressionMeaning(e: Expression, stack: Stack<Term>, w: World)
    requires Valid(stack) && LowerExpression(e, stack).Some?
    ensures Value(e, Meaning(stack, w), w) == Some(Evaluate(LowerExpression(e, stack).value, w))
  {
    hide Meaning;
    match e {
      case Literal(v) =>
      case Name(x) => GetMeaning(stack, x, w);
      case Infix(op, l, r) =>
        ExpressionMeaning(l, stack, w);
        ExpressionMeaning(r, stack, w);
    }
  }

  lemma SetMeaning(stack: Stack<Term>, x: string, t: Term, w: World)
    requires Valid(stack) && Set(stack, x, t).Some?
    ensures Valid(Set(stack, x, t).value)
    ensures Update(Meaning(stack, w), x, Evaluate(t, w)) == Some(Meaning(Set(stack, x, t).value, w))
  {
    hide Meaning, Set, Updated, Valid, Nearest;
    var d := SetUpdates(stack, x, t);
    MeaningKeys(stack, w);
    NearestMeans(stack, x, d);
    UpdateAt(Meaning(stack, w), x, d, Evaluate(t, w));
    SetMeaningAt(stack, Set(stack, x, t).value, x, t, w, d);
  }

  lemma SetUpdates(stack: Stack<Term>, x: string, t: Term) returns (d: nat)
    requires Valid(stack) && Set(stack, x, t).Some?
    ensures var next := Set(stack, x, t).value;
            Valid(next) && |next| == |stack| && Updated(Abs(stack), Abs(next), map[x := t], stack)
    ensures Nearest(stack, x, d)
  {
    SetIsSetAll(stack, x, t);
    SetAllRefines(stack, map[x := t]);
    SetAllSize(stack, map[x := t]);
    d := NearestExists(stack, x);
  }

  lemma SetMeaningAt(stack: Stack<Term>, next: Stack<Term>, x: string, t: Term, w: World, d: nat)
    requires |next| == |stack| && Nearest(stack, x, d) && Updated(Abs(stack), Abs(next), map[x := t], stack)
    ensures Meaning(next, w) == Meaning(stack, w)[d := Meaning(stack, w)[d][x := Evaluate(t, w)]]
  {
    hide Meaning, Updated, Nearest;
    NearestMeans(stack, x, d);
    forall i | 0 <= i < |stack|
      ensures Meaning(next, w)[i] == if i == d then Meaning(stack, w)[d][x := Evaluate(t, w)] else Meaning(stack, w)[i]
    {
      SetScopeAt(stack, next, x, t, w, d, i);
    }
    assert Meaning(next, w) == Meaning(stack, w)[d := Meaning(stack, w)[d][x := Evaluate(t, w)]];
  }

  lemma SetScopeAt(stack: Stack<Term>, next: Stack<Term>, x: string, t: Term, w: World, d: nat, i: nat)
    requires |next| == |stack| && Nearest(stack, x, d) && d < |stack| && i < |stack| &&
             Updated(Abs(stack), Abs(next), map[x := t], stack)
    ensures Meaning(next, w)[i] == if i == d then Meaning(stack, w)[d][x := Evaluate(t, w)] else Meaning(stack, w)[i]
  {
    hide Meaning, Updated, Nearest;
    UpdatedMeaning(stack, next, map[x := t], w, i);
    NearestUnique(stack, x, d, i);
    NearestMeans(stack, x, d);
    OneChanged(Meaning(stack, w)[i], Meaning(next, w)[i], x, Evaluate(t, w), i == d);
  }

  lemma OneChanged(before: map<string, int>, after: map<string, int>, x: string, v: int, hit: bool)
    requires after.Keys == before.Keys && (hit ==> x in before)
    requires forall y :: y in before ==> after[y] == if y == x && hit then v else before[y]
    ensures after == if hit then before[x := v] else before
  {
  }

  lemma NearestMeans(stack: Stack<Term>, x: string, d: nat)
    requires Nearest(stack, x, d)
    ensures d < |stack| && x in stack[d].locals && forall i :: d < i < |stack| ==> x !in stack[i].locals
  {
  }

  lemma NearestUnique(stack: Stack<Term>, x: string, d: nat, i: nat)
    requires Nearest(stack, x, d) && i < |stack|
    ensures Nearest(stack, x, i) <==> i == d
  {
  }

  /** The meaning of one scope after some values have been set. */
  lemma UpdatedMeaning(stack: Stack<Term>, next: Stack<Term>, values: map<string, Term>, w: World, i: nat)
    requires i < |stack| == |next| && Updated(Abs(stack), Abs(next), values, stack)
    ensures Meaning(next, w)[i].Keys == Meaning(stack, w)[i].Keys == stack[i].locals.Keys
    ensures forall x :: x in stack[i].locals ==>
              Meaning(next, w)[i][x] == if x in values && Nearest(stack, x, i) then Evaluate(values[x], w)
                else Meaning(stack, w)[i][x]
  {
    assert ScopeUpdated(Abs(stack)[i], Abs(next)[i], values, stack, i);
    assert Abs(stack)[i].Keys == stack[i].locals.Keys && Abs(next)[i].Keys == next[i].locals.Keys;
    forall x | x in stack[i].locals
      ensures Meaning(next, w)[i][x] == if x in values && Nearest(stack, x, i) then Evaluate(values[x], w)
              else Meaning(stack, w)[i][x]
    {
      MeaningAt(stack, w, i, x);
      MeaningAt(next, w, i, x);
    }
  }

  lemma DeclareMeaning(stack: Stack<Term>, x: string, t: Term, w: World)
    requires Valid(stack) && Declare(stack, x, t).Some?
    ensures var next, n := Declare(stack, x, t).value, |stack| - 1;
            Valid(next) && Meaning(next, w) == Meaning(stack, w)[n := Meaning(stack, w)[n][x := Evaluate(t, w)]]
  {
    DeclareRefines(stack, x, t);
    var next, n := Declare(stack, x, t).value, |stack| - 1;
    var expected := Meaning(stack, w)[n := Meaning(stack, w)[n][x := Evaluate(t, w)]];
    assert |next| == |stack|;
    hide Abs, Declare, Valid;
    forall i | 0 <= i < |stack|
      ensures Meaning(next, w)[i] == expected[i]
    {
      assert Abs(next)[i] == if i == n then Abs(stack)[n][x := t] else Abs(stack)[i];
      EvaluateInsert(Abs(stack)[i], x, t, w);
    }
    assert Meaning(next, w) == expected;
  }

  lemma EvaluateInsert(scope: map<string, Term>, x: string, t: Term, w: World)
    ensures EvaluateScope(scope[x := t], w) == EvaluateScope(scope, w)[x := Evaluate(t, w)]
  {
  }

  lemma PushMeaning(stack: Stack<Term>, w: World)
    requires Valid(stack)
    ensures Valid(Push(stack)) && Meaning(Push(stack), w) == Meaning(stack, w) + [map[]]
  {
    PushRefines(stack);
    var next := Push(stack);
    assert Abs(stack) == Abs(next)[..|stack|];
    MeaningOfAbs(stack, next, w);
    MeaningKeys(next, w);
    assert Meaning(next, w)[|stack|] == map[];
  }

  lemma ResultKeys(cond: Term, thenValues: map<string, Term>, elseValues: map<string, Term>, stack: Stack<Term>)
    requires Results(cond, thenValues, elseValues, stack).Some?
    ensures Results(cond, thenValues, elseValues, stack).value.Keys == thenValues.Keys + elseValues.Keys
  {
    hide Yielded;
  }

  /** Both branches of an scf.if yield the value the taken branch leaves. */
  lemma ResultsMeaning(stack: Stack<Term>, cond: Term, thenValues: map<string, Term>, elseValues: map<string, Term>,
                       w: World)
    requires Valid(stack) && Results(cond, thenValues, elseValues, stack).Some?
    requires SetAll(stack, thenValues).Some? && SetAll(stack, elseValues).Some?
    ensures var values := Results(cond, thenValues, elseValues, stack).value;
            && SetAll(stack, values).Some? && Valid(SetAll(stack, values).value)
            && Meaning(SetAll(stack, values).value, w)
               == Meaning(SetAll(stack, if Evaluate(cond, w) != 0 then thenValues else elseValues).value, w)
  {
    hide SetAll, Updated, Meaning, Declares, Valid, Results, Abs, Agrees, Evaluate;
    var values := Results(cond, thenValues, elseValues, stack).value;
    var taken := if Evaluate(cond, w) != 0 then thenValues else elseValues;
    ResultKeys(cond, thenValues, elseValues, stack);
    SetAllRefines(stack, thenValues);
    SetAllRefines(stack, elseValues);
    SetAllRefines(stack, values);
    assert forall x :: x in values ==> x in thenValues || x in elseValues;
    var one, two := SetAll(stack, values).value, SetAll(stack, taken).value;
    SetAllSize(stack, values);
    SetAllSize(stack, taken);
    forall i | 0 <= i < |stack|
      ensures Meaning(one, w)[i] == Meaning(two, w)[i]
    {
      forall x | x in stack[i].locals
        ensures Agrees(stack, values, taken, w, i, x)
      {
        ResultValue(stack, cond, thenValues, elseValues, w, i, x);
      }
      SameScope(stack, one, two, values, taken, w, i);
    }
    assert Meaning(one, w) == Meaning(two, w);
  }

  /** A variable ends up with the same value, whichever of two sets of values is set. */
  ghost predicate Agrees(stack: Stack<Term>, values: map<string, Term>, taken: map<string, Term>, w: World, i: nat,
                         x: string)
    requires i < |stack| && x in stack[i].locals
  {
    Nearest(stack, x, i) ==>
      (if x in values then Evaluate(values[x], w) else Evaluate(ValueAt(stack, i, x), w))
      == if x in taken then Evaluate(taken[x], w) else Evaluate(ValueAt(stack, i, x), w)
  }

  lemma SameScope(stack: Stack<Term>, one: Stack<Term>, two: Stack<Term>, values: map<string, Term>, taken: map<string,
                  Term>, w: World, i: nat)
    requires i < |stack| == |one| == |two|
    requires Updated(Abs(stack), Abs(one), values, stack) && Updated(Abs(stack), Abs(two), taken, stack)
    requires forall x :: x in stack[i].locals ==> Agrees(stack, values, taken, w, i, x)
    ensures Meaning(one, w)[i] == Meaning(two, w)[i]
  {
    hide Meaning, Updated, Abs, Nearest, Evaluate, Agrees;
    UpdatedKeys(stack, one, values, w, i);
    UpdatedKeys(stack, two, taken, w, i);
    forall x | x in stack[i].locals
      ensures Meaning(one, w)[i][x] == Meaning(two, w)[i][x]
    {
      SameAt(stack, one, two, values, taken, w, i, x);
    }
  }

  lemma UpdatedKeys(stack: Stack<Term>, next: Stack<Term>, values: map<string, Term>, w: World, i: nat)
    requires i < |stack| == |next| && Updated(Abs(stack), Abs(next), values, stack)
    ensures Meaning(next, w)[i].Keys == stack[i].locals.Keys
  {
    UpdatedMeaning(stack, next, values, w, i);
  }

  lemma SameAt(stack: Stack<Term>, one: Stack<Term>, two: Stack<Term>, values: map<string, Term>, taken: map<string,
               Term>, w: World, i: nat, x: string)
    requires i < |stack| == |one| == |two| && x in stack[i].locals
    requires Updated(Abs(stack), Abs(one), values, stack) && Updated(Abs(stack), Abs(two), taken, stack)
    requires Agrees(stack, values, taken, w, i, x)
    ensures x in Meaning(one, w)[i] && x in Meaning(two, w)[i] && Meaning(one, w)[i][x] == Meaning(two, w)[i][x]
  {
    hide Meaning, Updated, Abs, Nearest, Evaluate;
    MeaningAt(stack, w, i, x);
    UpdatedMeaning(stack, one, values, w, i);
    UpdatedMeaning(stack, two, taken, w, i);
  }

  /** One yielded variable: the taken branch's overwrite or the current value. */
  lemma ResultValue(stack: Stack<Term>, cond: Term, thenValues: map<string, Term>, elseValues: map<string, Term>,
                    w: World, i: nat, x: string)
    requires Valid(stack) && Results(cond, thenValues, elseValues, stack).Some? && i < |stack| && x in stack[i].locals
    ensures Agrees(stack, Results(cond, thenValues, elseValues, stack).value,
            if Evaluate(cond, w) != 0 then thenValues else elseValues, w, i, x)
  {
    var values := Results(cond, thenValues, elseValues, stack).value;
    assert x in values <==> x in thenValues || x in elseValues;
    assert x in values ==>
        values[x] == Ite(cond, Yielded(thenValues, stack, x).value, Yielded(elseValues, stack, x).value);
    hide Valid, Results, Nearest, Get, ValueAt, Evaluate;
    if Nearest(stack, x, i) {
      GetNearest(stack, x, i);
      if x in values { EvaluateIte(cond, Yielded(thenValues, stack, x).value, Yielded(elseValues, stack, x).value, w); }
    }
  }

  lemma EvaluateIte(cond: Term, yes: Term, no: Term, w: World)
    ensures Evaluate(Ite(cond, yes, no), w) == Evaluate(if Evaluate(cond, w) != 0 then yes else no, w)
  {
  }

  lemma SetAllSize(stack: Stack<Term>, values: map<string, Term>)
    requires SetAll(stack, values).Some?
    ensures |SetAll(stack, values).value| == |stack|
  {
  }

  /** Lowering changes the top frame only. */
  ghost predicate TopOnly(before: Stack<Term>, after: Stack<Term>) {
    before != [] && |after| == |before| && after[..|before| - 1] == before[..|before| - 1]
  }

  /** A statement generated in a scope of its own and interpreted in one of its own. */
  lemma {:induction false} ScopedMeaning(s: Statement, stack: Stack<Term>, w: World)
    requires Valid(stack) && Scoped(s, stack).Some?
    ensures SetAll(stack, Scoped(s, stack).value).Some? && Valid(SetAll(stack, Scoped(s, stack).value).value)
    ensures Popped(Interpret(s, Meaning(stack, w) + [map[]], w)) ==
            Some(Meaning(SetAll(stack, Scoped(s, stack).value).value, w))
    decreases s, 1
  {
    PushMeaning(stack, w);
    var pushed := Lower(s, Push(stack)).value;
    LowerMeaning(s, Push(stack), w);
    PoppedMeaning(stack, pushed, w);
  }

  lemma PoppedMeaning(stack: Stack<Term>, pushed: Stack<Term>, w: World)
    requires Valid(stack) && Valid(pushed) && TopOnly(Push(stack), pushed)
    ensures pushed[..|stack|] == stack && |pushed| == |stack| + 1
    ensures SetAll(stack, pushed[|stack|].overwrites).Some?
    ensures var next := SetAll(stack, pushed[|stack|].overwrites).value; Valid(next) && TopOnly(stack, next)
    ensures Popped(Some(Meaning(pushed, w))) == Some(Meaning(SetAll(stack, pushed[|stack|].overwrites).value, w))
  {
    assert Push(stack)[..|stack|] == stack;
    PopMergeRefines(pushed);
    var next := SetAll(stack, pushed[|stack|].overwrites).value;
    assert next[..|stack| - 1] == stack[..|stack| - 1];
    MeaningOfAbs(next, pushed, w);
  }

  /** Lowering refines interpretation, whatever the inputs, the uninitialised values and the operations. */
  lemma {:induction false} LowerMeaning(s: Statement, stack: Stack<Term>, w: World)
    requires Valid(stack) && Lower(s, stack).Some?
    ensures Valid(Lower(s, stack).value) && TopOnly(stack, Lower(s, stack).value)
    ensures Interpret(s, Meaning(stack, w), w) == Some(Meaning(Lower(s, stack).value, w))
    decreases s, 0
  {
    match s {
      case Declaration(x, site) =>
        MeaningKeys(stack, w);
        if x !in stack[|stack| - 1].locals { DeclareMeaning(stack, x, Nondet(site), w); }
      case Assignment(x, e) =>
        ExpressionMeaning(e, stack, w);
        SetMeaning(stack, x, LowerExpression(e, stack).value, w);
      case Block(statements) =>
        PushMeaning(stack, w);
        LowerAllMeaning(statements, Push(stack), w);
        PoppedMeaning(stack, LowerAll(statements, Push(stack)).value, w);
      case IfThenElse(cond, t, e) =>
        IfMeaning(s, stack, w);
    }
  }

  lemma NothingSet(stack: Stack<Term>, w: World)
    requires Valid(stack)
    ensures SetAll(stack, map[]).Some? && Meaning(SetAll(stack, map[]).value, w) == Meaning(stack, w)
  {
    hide SetAll, Updated, Meaning;
    SetAllRefines(stack, map[]);
    var next := SetAll(stack, map[]).value;
    forall i | 0 <= i < |stack|
      ensures Meaning(next, w)[i] == Meaning(stack, w)[i]
    {
      UpdatedMeaning(stack, next, map[], w, i);
    }
  }

  lemma {:induction false} IfMeaning(s: Statement, stack: Stack<Term>, w: World)
    requires s.IfThenElse? && Valid(stack) && Lower(s, stack).Some?
    ensures Valid(Lower(s, stack).value) && TopOnly(stack, Lower(s, stack).value)
    ensures Interpret(s, Meaning(stack, w), w) == Some(Meaning(Lower(s, stack).value, w))
    decreases s, 0, 0
  {
    hide Meaning, Scoped, LowerExpression, Value, Results;
    var t, e := s.ifCase, s.elseCase;
    var thenValues := Scoped(t, stack).value;
    var elseValues: map<string, Term> := if e.NoElse? then map[] else Scoped(e.statement, stack).value;
    var c := LowerExpression(s.cond, stack).value;
    ExpressionMeaning(s.cond, stack, w);
    ScopedMeaning(t, stack, w);
    if e.Else? { ScopedMeaning(e.statement, stack, w); } else { NothingSet(stack, w); }
    ResultsMeaning(stack, c, thenValues, elseValues, w);
    var next := Lower(s, stack).value;
    assert next[..|stack| - 1] == stack[..|stack| - 1];
  }

  lemma {:induction false} LowerAllMeaning(ss: seq<Statement>, stack: Stack<Term>, w: World)
    requires Valid(stack) && LowerAll(ss, stack).Some?
    ensures Valid(LowerAll(ss, stack).value) && TopOnly(stack, LowerAll(ss, stack).value)
    ensures InterpretAll(ss, Meaning(stack, w), w) == Some(Meaning(LowerAll(ss, stack).value, w))
    decreases ss, 2
  {
    hide Meaning;
    if ss != [] {
      var middle := LowerAll(ss[..|ss| - 1], stack).value;
      LowerAllMeaning(ss[..|ss| - 1], stack, w);
      LowerMeaning(ss[|ss| - 1], middle, w);
    }
  }

  /** The function-level statement: from parameters bound to inputs, every variable of the root scope
      ends with the term whose value interpretation computes. */
  lemma FunctionLowering(parameters: map<string, Term>, body: seq<Statement>, w: World)
    requires LowerAll(body, [Frame(parameters, map[])]).Some?
    ensures InterpretAll(body, [EvaluateScope(parameters, w)], w)
            == Some(Meaning(LowerAll(body, [Frame(parameters, map[])]).value, w))
  {
    var stack := [Frame(parameters, map[])];
    assert Abs(stack)[0] == parameters;
    assert Meaning(stack, w) == [EvaluateScope(parameters, w)];
    assert Valid(stack);
    LowerAllMeaning(body, stack, w);
  }
}
