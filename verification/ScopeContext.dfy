/** The scope stack as the generator updates it in place (BlockContextStack and NestedBlockInfo in
    llzk_backend/src/gen_context.rs, gen_if_then_else in function.rs). */
module ScopeContext {
  import opened Field
  import opened ScopeStack
  import opened ScopeLowering

  class BlockContextStack<T> {
    var root: Frame<T>
    var otherBlocks: seq<Frame<T>>

    function Frames(): (r: Stack<T>)
      reads this
      ensures |r| == |otherBlocks| + 1
    {
      [root] + otherBlocks
    }

    constructor FromFunction(parameters: map<string, T>)
      ensures Frames() == [Frame(parameters, map[])] && ScopeStack.Valid(Frames())
    {
      root, otherBlocks := Frame(parameters, map[]), [];
    }

    function Top(): (r: Frame<T>)
      reads this
      ensures r == Frames()[|Frames()| - 1]
    {
      if otherBlocks == [] then root else otherBlocks[|otherBlocks| - 1]
    }

    method ReplaceTop(f: Frame<T>)
      modifies this
      ensures Frames() == old(Frames())[..|old(Frames())| - 1] + [f]
    {
      if otherBlocks == [] {
        root := f;
      } else {
        otherBlocks := otherBlocks[..|otherBlocks| - 1] + [f];
      }
    }

    /** From the top of the stack down to the root. */
    method GetNamedValue(name: string) returns (r: Option<T>)
      ensures r == Get(Frames(), name)
    {
      var i := |otherBlocks|;
      assert Frames()[..|Frames()|] == Frames();
      while i > 0
        invariant 0 <= i <= |otherBlocks|
        invariant Get(Frames(), name) == Get(Frames()[..i + 1], name)
      {
        assert Frames()[..i + 1][..i] == Frames()[..i] && Frames()[..i + 1][i] == otherBlocks[i - 1];
        if GetIn(otherBlocks[i - 1], name).Some? { return GetIn(otherBlocks[i - 1], name); }
        i := i - 1;
      }
      assert Frames()[..1] == [root] && [root][..0] == [];
      return GetIn(root, name);
    }

    method SetNamedValue(name: string, value: T) returns (ok: bool)
      modifies this
      ensures ok == Set(old(Frames()), name, value).Some?
      ensures Frames() == if ok then Set(old(Frames()), name, value).value else old(Frames())
    {
      RootAndOthers(root, otherBlocks, name);
      if name !in root.locals && !exists i :: 0 <= i < |otherBlocks| && name in otherBlocks[i].locals { return false; }
      ReplaceTop(InsertIn(Top(), name, value));
      return true;
    }

    /** A declaration of a name already present is the caller's error. */
    method DeclareEnsureNotPresent(name: string, value: T) returns (ok: bool)
      modifies this
      ensures ok == Declare(old(Frames()), name, value).Some?
      ensures Frames() == if ok then Declare(old(Frames()), name, value).value else old(Frames())
    {
      if name in Top().locals { return false; }
      ReplaceTop(Top().(locals := Top().locals[name := value]));
      return true;
    }

    method Push()
      modifies this
      ensures Frames() == ScopeStack.Push(old(Frames()))
    {
      otherBlocks := otherBlocks + [Frame(map[], map[])];
    }

    method Pop() returns (overwrites: map<string, T>)
      requires otherBlocks != []
      modifies this
      ensures Frames() == old(Frames())[..|old(Frames())| - 1] &&
              overwrites == old(Frames())[|old(Frames())| - 1].overwrites
    {
      overwrites := otherBlocks[|otherBlocks| - 1].overwrites;
      otherBlocks := otherBlocks[..|otherBlocks| - 1];
    }

    /** The names are visited in an arbitrary order. */
    method SetNamedValues(values: map<string, T>) returns (ok: bool)
      modifies this
      ensures ok == SetAll(old(Frames()), values).Some?
      ensures ok ==> Frames() == SetAll(old(Frames()), values).value
    {
      ghost var start := Frames();
      var pending := values.Keys;
      SetNothing(start);
      assert values - pending == map[];
      while pending != {}
        invariant pending <= values.Keys && SetAll(start, values - pending) == Some(Frames())
        decreases pending
      {
        var name :| name in pending;
        ghost var before := Frames();
        SetOneMore(start, values, pending, name, before);
        ok := SetNamedValue(name, values[name]);
        if !ok { return; }
        pending := pending - {name};
      }
      assert values - pending == values;
      ok := true;
    }

    /** Scope of its own, overwrites merged into the enclosing scope. */
    method PopAndMerge() returns (ok: bool)
      requires otherBlocks != [] && ScopeStack.Valid(Frames())
      modifies this
      ensures ok && ScopeStack.Valid(Frames()) && Abs(Frames()) == Abs(old(Frames()))[..|old(Frames())| - 1]
      ensures Some(Frames()) == SetAll(old(Frames())[..|old(Frames())| - 1],
              old(Frames())[|old(Frames())| - 1].overwrites)
    {
      PopMergeRefines(Frames());
      var overwrites := Pop();
      ok := SetNamedValues(overwrites);
    }

    /** Set the value in the frame that declares the name. */
    method SetNamedValueAtDeclaration(name: string, value: T) returns (ok: bool)
      modifies this
      ensures ok == Declares(old(Frames()), name)
      ensures !ok ==> Frames() == old(Frames())
      ensures forall d :: 0 <= d < |old(Frames())| && Nearest(old(Frames()), name, d) ==>
              Frames() == AtDeclaration(old(Frames()), name, d, value)
    {
      ghost var start := Frames();
      var i := |otherBlocks|;
      while i > 0
        invariant 0 <= i <= |otherBlocks| && Frames() == start
        invariant forall m :: i < m < |start| ==> name !in start[m].locals
      {
        assert start[i] == otherBlocks[i - 1];
        if name in otherBlocks[i - 1].locals {
          otherBlocks := otherBlocks[i - 1 := InsertIn(otherBlocks[i - 1], name, value)];
          assert Frames() == start[i := InsertIn(start[i], name, value)];
          return true;
        }
        i := i - 1;
      }
      if name in root.locals {
        root := InsertIn(root, name, value);
        assert Frames() == start[0 := InsertIn(start[0], name, value)];
        return true;
      }
      return false;
    }
  }

  lemma RootAndOthers<T>(root: Frame<T>, others: seq<Frame<T>>, name: string)
    ensures Declares([root] + others, name) <==>
            name in root.locals || exists i :: 0 <= i < |others| && name in others[i].locals
  {
    var all := [root] + others;
    if Declares(all, name) {
      var i :| 0 <= i < |all| && name in all[i].locals;
      if i > 0 { assert others[i - 1] == all[i]; }
    }
    if name in root.locals { assert all[0] == root; }
    if i :| 0 <= i < |others| && name in others[i].locals { assert all[i + 1] == others[i]; }
  }

  lemma SetNothing<T>(stack: Stack<T>)
    ensures SetAll(stack, map[]) == Some(stack)
  {
    if stack != [] {
      var f := stack[|stack| - 1];
      assert InsertAll(f, map[]).locals == f.locals && InsertAll(f, map[]).overwrites == f.overwrites;
      assert stack[..|stack| - 1] + [f] == stack;
    }
  }

  /** Setting one more of the pending names, whichever it is. */
  lemma SetOneMore<T>(start: Stack<T>, values: map<string, T>, pending: set<string>, name: string, now: Stack<T>)
    requires start != [] && name in pending && pending <= values.Keys && SetAll(start, values - pending) == Some(now)
    ensures Set(now, name, values[name]).Some? ==>
            SetAll(start, values - (pending - {name})) == Some(Set(now, name, values[name]).value)
    ensures Set(now, name, values[name]).None? ==> SetAll(start, values).None?
  {
    var n, less, more := |start| - 1, values - pending, values - (pending - {name});
    SameDeclares(start, now, InsertAll(start[n], less));
    if Declares(start, name) {
      assert more.Keys == less.Keys + {name};
      InsertOneMore(start[n], less, more, name);
      assert now[..n] == start[..n];
    }
    hide InsertAll, InsertIn, Declares;
  }

  lemma InsertOneMore<T>(f: Frame<T>, less: map<string, T>, more: map<string, T>, name: string)
    requires more.Keys == less.Keys + {name} && forall x :: x in less && x != name ==> more[x] == less[x]
    ensures InsertIn(InsertAll(f, less), name, more[name]) == InsertAll(f, more)
  {
    hide InsertIn, InsertAll;
    InsertLocals(f, less, more, name);
    InsertOverwrites(f, less, more, name);
  }

  lemma InsertLocals<T>(f: Frame<T>, less: map<string, T>, more: map<string, T>, name: string)
    requires more.Keys == less.Keys + {name} && forall x :: x in less && x != name ==> more[x] == less[x]
    ensures InsertIn(InsertAll(f, less), name, more[name]).locals == InsertAll(f, more).locals
  {
  }

  lemma InsertOverwrites<T>(f: Frame<T>, less: map<string, T>, more: map<string, T>, name: string)
    requires more.Keys == less.Keys + {name} && forall x :: x in less && x != name ==> more[x] == less[x]
    ensures InsertIn(InsertAll(f, less), name, more[name]).overwrites == InsertAll(f, more).overwrites
  {
    var one, two := InsertIn(InsertAll(f, less), name, more[name]).overwrites, InsertAll(f, more).overwrites;
    forall k
      ensures k in one <==> k in two
      ensures k in one && k in two ==> one[k] == two[k]
    {
    }
  }

  lemma SameDeclares<T>(start: Stack<T>, now: Stack<T>, top: Frame<T>)
    requires start != [] && now == start[..|start| - 1] + [top] && top.locals.Keys == start[|start| - 1].locals.Keys
    ensures forall x :: Declares(now, x) <==> Declares(start, x)
  {
    forall i, x | 0 <= i < |start|
      ensures x in now[i].locals <==> x in start[i].locals
    {
      if i < |start| - 1 { assert now[i] == start[i]; }
    }
  }

  // ---- Setting a value at its declaration

  function AtDeclaration<T>(stack: Stack<T>, name: string, d: nat, value: T): Stack<T>
    requires d < |stack|
  {
    stack[d := InsertIn(stack[d], name, value)]
  }

  ghost predicate Overwritten<T>(stack: Stack<T>, name: string, d: nat) {
    exists j :: d < j < |stack| && name in stack[j].overwrites
  }

  /** A value set at its declaration is read back exactly when no enclosed frame has overwritten the
      variable, or the value read before was already that one. */
  lemma AtDeclarationReadBack<T>(stack: Stack<T>, name: string, d: nat, value: T)
    requires Valid(stack) && Nearest(stack, name, d)
    ensures Get(AtDeclaration(stack, name, d, value), name) == Some(value) <==>
            !Overwritten(stack, name, d) || Get(stack, name) == Some(value)
  {
    AtDeclarationGet(stack, name, d, value);
  }

  /** x = 1 at its declaration, x = 2 inside: setting 3 at the declaration still reads 2. */
  lemma OverwriteWins()
    ensures var stack := [Frame(map["x" := 1], map[]), Frame(map[], map["x" := 2])];
            Valid(stack) && Nearest(stack, "x", 0) && Get(AtDeclaration(stack, "x", 0, 3), "x") == Some(2)
  {
    var stack := [Frame(map["x" := 1], map[]), Frame(map[], map["x" := 2])];
    var next := AtDeclaration(stack, "x", 0, 3);
    assert next[1] == stack[1];
    assert stack[..1] == [stack[0]];
    assert Declares(stack[..1], "x") by { assert "x" in stack[..1][0].locals; }
  }

  lemma OverwrittenBelow<T>(stack: Stack<T>, name: string, d: nat)
    requires d < |stack| - 1 && name !in stack[|stack| - 1].overwrites
    ensures Overwritten(stack[..|stack| - 1], name, d) <==> Overwritten(stack, name, d)
  {
    var front := stack[..|stack| - 1];
    assert forall j :: 0 <= j < |front| ==> front[j] == stack[j];
  }

  lemma {:induction false} AtDeclarationGet<T>(stack: Stack<T>, name: string, d: nat, value: T)
    requires Nearest(stack, name, d)
    ensures Get(AtDeclaration(stack, name, d, value), name) == if Overwritten(stack, name, d) then Get(stack, name)
            else Some(value)
  {
    var next, n := AtDeclaration(stack, name, d, value), |stack| - 1;
    if d < n {
      var front := stack[..n];
      NearestTop(stack, d, name);
      SameClear(stack, front, d, n, name);
      assert next[n] == stack[n] && next[..n] == AtDeclaration(front, name, d, value);
      if name in stack[n].overwrites {
        assert Overwritten(stack, name, d);
      } else {
        AtDeclarationGet(front, name, d, value);
        OverwrittenBelow(stack, name, d);
        hide Overwritten, Nearest, AtDeclaration;
      }
    }
  }

  // ---- Generating code

  method GenExpression(fc: BlockContextStack<Term>, e: Expression) returns (r: Option<Term>)
    ensures r == LowerExpression(e, fc.Frames())
    decreases e
  {
    match e
    case Literal(v) => r := Some(Num(v));
    case Name(x) => r := fc.GetNamedValue(x);
    case Infix(op, l, right) =>
      var left := GenExpression(fc, l);
      var other := GenExpression(fc, right);
      r := if left.Some? && other.Some? then Some(Binary(op, left.value, other.value)) else None;
  }

  /** Two completed sides joined name by name are the results. */
  lemma ResultsOf(stack: Stack<Term>, cond: Term, thenValues: map<string, Term>, elseValues: map<string, Term>,
                  one: map<string, Term>, two: map<string, Term>, r: map<string, Term>)
    requires one.Keys == two.Keys == r.Keys == thenValues.Keys + elseValues.Keys
    requires forall x :: x in one ==> Some(one[x]) == Yielded(thenValues, stack, x)
    requires forall x :: x in two ==> Some(two[x]) == Yielded(elseValues, stack, x)
    requires forall x :: x in r ==> r[x] == Ite(cond, one[x], two[x])
    ensures Results(cond, thenValues, elseValues, stack) == Some(r)
  {
    hide Yielded;
    assert Results(cond, thenValues, elseValues, stack).Some?;
    assert Results(cond, thenValues, elseValues, stack).value == r;
  }

  /** The overwrites of both branches, completed from the current scope, as results of one conditional. */
  method GenResults(fc: BlockContextStack<Term>, cond: Term, thenValues: map<string, Term>, elseValues: map<string,
                    Term>) returns (r: Option<map<string, Term>>)
    ensures r == Results(cond, thenValues, elseValues, fc.Frames())
  {
    hide Yielded;
    var completed := AddOverwrites(fc, thenValues, elseValues.Keys);
    if completed.None? { return None; }
    var other := AddOverwrites(fc, elseValues, thenValues.Keys);
    if other.None? { return None; }
    r := Some(map x | x in completed.value && x in other.value :: Ite(cond, completed.value[x], other.value[x]));
    ResultsOf(fc.Frames(), cond, thenValues, elseValues, completed.value, other.value, r.value);
    hide Results;
  }

  /** Missing names take the value of the current scope. */
  method AddOverwrites(fc: BlockContextStack<Term>, varOverwrites: map<string, Term>, names: set<string>)
    returns (r: Option<map<string, Term>>)
    ensures r.Some? <==> forall x :: x in names ==> Yielded(varOverwrites, fc.Frames(), x).Some?
    ensures r.Some? ==> r.value.Keys == varOverwrites.Keys + names
    ensures r.Some? ==> forall x :: x in r.value ==> Some(r.value[x]) == Yielded(varOverwrites, fc.Frames(), x)
  {
    var all := varOverwrites;
    var pending := names;
    while pending != {}
      invariant pending <= names && all.Keys == varOverwrites.Keys + (names - pending)
      invariant forall x :: x in all ==> Some(all[x]) == Yielded(varOverwrites, fc.Frames(), x)
      decreases pending
    {
      var name :| name in pending;
      pending := pending - {name};
      if name !in all {
        var value := fc.GetNamedValue(name);
        if value.None? { return None; }
        all := all[name := value.value];
      }
    }
    assert names - pending == names;
    return Some(all);
  }

  method GenStatement(fc: BlockContextStack<Term>, s: Statement) returns (ok: bool)
    requires ScopeStack.Valid(fc.Frames())
    modifies fc
    ensures ok == Lower(s, old(fc.Frames())).Some?
    ensures ok ==>
              fc.Frames() == Lower(s, old(fc.Frames())).value && ScopeStack.Valid(fc.Frames()) &&
                TopOnly(old(fc.Frames()), fc.Frames())
    decreases s, 0
  {
    hide LowerAll, Scoped, Results, LowerExpression, Set, Declare, SetAll, Declares, Abs, ScopeStack.Valid;
    ghost var start := fc.Frames();
    ghost var w := SomeWorld();
    if Lower(s, start).Some? { LowerMeaning(s, start, w); }
    match s
    case Declaration(x, site) =>
      if x in fc.Top().locals { return true; }
      ok := fc.DeclareEnsureNotPresent(x, Nondet(site));
    case Assignment(x, e) =>
      var value := GenExpression(fc, e);
      if value.None? { return false; }
      ok := fc.SetNamedValue(x, value.value);
    case Block(statements) =>
      PushMeaning(start, w);
      fc.Push();
      ok := GenSequence(fc, statements);
      if !ok { return; }
      PoppedMeaning(start, fc.Frames(), w);
      ok := fc.PopAndMerge();
    case IfThenElse(cond, t, e) =>
      ok := GenIfThenElse(fc, s);
  }

  ghost function SomeWorld(): World {
    World(x => 0, n => 0, (o, a, b) => 0)
  }

  /** A statement in a pushed scope; its overwrites are kept, its own variables dropped. */
  method GenScoped(fc: BlockContextStack<Term>, s: Statement) returns (overwrites: Option<map<string, Term>>)
    requires ScopeStack.Valid(fc.Frames())
    modifies fc
    ensures overwrites == Scoped(s, old(fc.Frames()))
    ensures overwrites.Some? ==> fc.Frames() == old(fc.Frames())
    decreases s, 2
  {
    ghost var start := fc.Frames();
    PushMeaning(start, SomeWorld());
    fc.Push();
    var ok := GenStatement(fc, s);
    if !ok { return None; }
    PoppedMeaning(start, fc.Frames(), SomeWorld());
    var values := fc.Pop();
    return Some(values);
  }

  method GenIfThenElse(fc: BlockContextStack<Term>, s: Statement) returns (ok: bool)
    requires ScopeStack.Valid(fc.Frames()) && s.IfThenElse?
    modifies fc
    ensures ok == Lower(s, old(fc.Frames())).Some?
    ensures ok ==> fc.Frames() == Lower(s, old(fc.Frames())).value
    decreases s, 0, 0
  {
    var thenValues := GenScoped(fc, s.ifCase);
    if thenValues.None? { return false; }
    var elseValues: Option<map<string, Term>> := Some(map[]);
    if s.elseCase.Else? {
      elseValues := GenScoped(fc, s.elseCase.statement);
      if elseValues.None? { return false; }
    }
    var condition := GenExpression(fc, s.cond);
    if condition.None? { return false; }
    var values := GenResults(fc, condition.value, thenValues.value, elseValues.value);
    if values.None? { return false; }
    ok := fc.SetNamedValues(values.value);
  }

  method GenSequence(fc: BlockContextStack<Term>, ss: seq<Statement>) returns (ok: bool)
    requires ScopeStack.Valid(fc.Frames())
    modifies fc
    ensures ok == LowerAll(ss, old(fc.Frames())).Some?
    ensures ok ==>
              fc.Frames() == LowerAll(ss, old(fc.Frames())).value && ScopeStack.Valid(fc.Frames()) &&
                TopOnly(old(fc.Frames()), fc.Frames())
    decreases ss, 3
  {
    ghost var start := fc.Frames();
    for i := 0 to |ss|
      invariant LowerAll(ss[..i], start) == Some(fc.Frames()) && ScopeStack.Valid(fc.Frames()) &&
                TopOnly(start, fc.Frames())
    {
      assert ss[..i + 1][..i] == ss[..i];
      ok := GenStatement(fc, ss[i]);
      if !ok {
        LowerStops(ss, start, i + 1);
        return;
      }
    }
    assert ss[..|ss|] == ss;
    ok := true;
  }

  lemma {:induction false} LowerStops(ss: seq<Statement>, stack: Stack<Term>, n: nat)
    requires n <= |ss| && LowerAll(ss[..n], stack).None?
    ensures LowerAll(ss, stack).None?
    decreases |ss| - n
  {
    if n == |ss| {
      assert ss[..n] == ss;
    } else {
      assert ss[..n + 1][..n] == ss[..n];
      LowerStops(ss, stack, n + 1);
    }
  }
}
