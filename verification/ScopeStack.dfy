/** The stack of scopes that tracks the current value of each source variable while code is generated
    (BlockContext and BlockContextStack in llzk_backend/src/gen_context.rs), and the plain nested
    store it refines. */
module ScopeStack {
  import opened Field

  /** One frame: values of variables declared here, and new values of variables declared outside. */
  datatype Frame<T> = Frame(locals: map<string, T>, overwrites: map<string, T>)

  type Stack<T> = seq<Frame<T>>

  /** The nested store: a scope per frame, the outermost first. */
  type Scopes<T> = seq<map<string, T>>

  // ---- The operations on frames

  function GetIn<T>(f: Frame<T>, name: string): Option<T> {
    if name in f.locals then Some(f.locals[name])
    else if name in f.overwrites then Some(f.overwrites[name])
    else None
  }

  function InsertIn<T>(f: Frame<T>, name: string, value: T): Frame<T> {
    if name in f.locals then f.(locals := f.locals[name := value]) else f.(overwrites := f.overwrites[name := value])
  }

  predicate Declares<T>(stack: Stack<T>, name: string) {
    exists i :: 0 <= i < |stack| && name in stack[i].locals
  }

  function Get<T>(stack: Stack<T>, name: string): Option<T> {
    if stack == [] then None
    else if GetIn(stack[|stack| - 1], name).Some? then GetIn(stack[|stack| - 1], name)
    else Get(stack[..|stack| - 1], name)
  }

  function Set<T>(stack: Stack<T>, name: string, value: T): Option<Stack<T>> {
    if !Declares(stack, name) then None
    else Some(stack[..|stack| - 1] + [InsertIn(stack[|stack| - 1], name, value)])
  }

  function Declare<T>(stack: Stack<T>, name: string, value: T): Option<Stack<T>> {
    if stack == [] || name in stack[|stack| - 1].locals then None
    else var top := stack[|stack| - 1]; Some(stack[..|stack| - 1] + [top.(locals := top.locals[name := value])])
  }

  function Push<T>(stack: Stack<T>): Stack<T> {
    stack + [Frame(map[], map[])]
  }

  /** A frame with several values set. */
  function InsertAll<T>(f: Frame<T>, values: map<string, T>): Frame<T> {
    Frame(map k | k in f.locals :: if k in values then values[k] else f.locals[k],
          map k | k in f.overwrites.Keys + (values.Keys - f.locals.Keys) :: if k in values &&
            k !in f.locals then values[k] else f.overwrites[k])
  }

  function SetAll<T>(stack: Stack<T>, values: map<string, T>): Option<Stack<T>> {
    if exists k :: k in values && !Declares(stack, k) then None
    else if stack == [] then Some(stack)
    else Some(stack[..|stack| - 1] + [InsertAll(stack[|stack| - 1], values)])
  }

  // ---- The nested store

  /** The innermost scope, below n, that declares a name. */
  ghost predicate Nearest<T>(stack: Stack<T>, name: string, d: nat) {
    d < |stack| && name in stack[d].locals && Clear(stack, d, |stack|, name)
  }

  /** No scope strictly between two declares the name. */
  ghost predicate Clear<T>(stack: Stack<T>, i: nat, n: nat, name: string)
    requires n <= |stack|
  {
    forall m :: i < m < n ==> name !in stack[m].locals
  }

  /** The current value of the variable declared in scope i: the topmost overwrite not cut off by a
      re-declaration in between. */
  ghost function ValueAt<T>(stack: Stack<T>, i: nat, name: string): T
    requires i < |stack| && name in stack[i].locals
  {
    var n := |stack| - 1;
    if i == n then stack[i].locals[name]
    else if name in stack[n].overwrites && Clear(stack, i, n, name) then stack[n].overwrites[name]
    else ValueAt(stack[..n], i, name)
  }

  ghost function Abs<T>(stack: Stack<T>): (r: Scopes<T>)
    ensures |r| == |stack|
  {
    seq(|stack|, i requires 0 <= i < |stack| => map name | name in stack[i].locals :: ValueAt(stack, i, name))
  }

  /** Every overwritten name is declared in an enclosing scope. */
  ghost predicate Valid<T>(stack: Stack<T>) {
    stack != [] && forall j, name :: 0 <= j < |stack| && name in stack[j].overwrites ==> Declares(stack[..j], name)
  }

  lemma {:induction false} NearestExists<T>(stack: Stack<T>, name: string) returns (d: nat)
    requires Declares(stack, name)
    ensures Nearest(stack, name, d)
  {
    d := |stack| - 1;
    if name !in stack[d].locals {
      var i :| 0 <= i < |stack| && name in stack[i].locals;
      assert stack[..|stack| - 1][i] == stack[i];
      d := NearestExists(stack[..|stack| - 1], name);
    }
  }

  lemma ValidFront<T>(stack: Stack<T>)
    requires Valid(stack) && |stack| > 1
    ensures Valid(stack[..|stack| - 1])
  {
    var front := stack[..|stack| - 1];
    forall j, name | 0 <= j < |front| && name in front[j].overwrites
      ensures Declares(front[..j], name)
    {
      assert front[..j] == stack[..j];
    }
  }

  lemma SameClear<T>(one: Stack<T>, two: Stack<T>, i: nat, n: nat, name: string)
    requires n <= |one| && n <= |two| && one[..n] == two[..n]
    ensures Clear(one, i, n, name) <==> Clear(two, i, n, name)
  {
    assert forall m :: 0 <= m < n ==> one[m] == one[..n][m] && two[m] == two[..n][m];
  }

  lemma NearestTop<T>(stack: Stack<T>, i: nat, name: string)
    requires i < |stack| - 1 && name in stack[i].locals
    ensures Nearest(stack, name, i) <==> Clear(stack, i, |stack| - 1, name) && name !in stack[|stack| - 1].locals
  {
  }

  lemma DeclaresFront<T>(stack: Stack<T>, name: string)
    requires stack != [] && Declares(stack[..|stack| - 1], name)
    ensures Declares(stack, name)
  {
    var i :| 0 <= i < |stack| - 1 && name in stack[..|stack| - 1][i].locals;
    assert name in stack[i].locals;
  }

  /** Reading through the stack is reading the innermost declaring scope. */
  lemma {:induction false} GetNearest<T>(stack: Stack<T>, name: string, d: nat)
    requires Valid(stack) && Nearest(stack, name, d)
    ensures Get(stack, name) == Some(ValueAt(stack, d, name)) && Abs(stack)[d][name] == ValueAt(stack, d, name)
  {
    var n := |stack| - 1;
    if d < n {
      var front := stack[..n];
      NearestTop(stack, d, name);
      SameClear(stack, front, d, n, name);
      assert front[d] == stack[d] && Nearest(front, name, d);
      if name !in stack[n].overwrites {
        ValidFront(stack);
        hide Valid, Clear, Nearest;
        GetNearest(front, name, d);
      }
    }
  }

  lemma {:induction false} GetUndeclared<T>(stack: Stack<T>, name: string)
    requires Valid(stack) && !Declares(stack, name)
    ensures Get(stack, name).None?
  {
    var n := |stack| - 1;
    if Declares(stack[..n], name) { DeclaresFront(stack, name); }
    assert name !in stack[n].locals && name !in stack[n].overwrites;
    if n == 0 {
      assert stack[..0] == [];
    } else {
      ValidFront(stack);
      GetUndeclared(stack[..n], name);
    }
  }

  lemma PushRefines<T>(stack: Stack<T>)
    requires Valid(stack)
    ensures Valid(Push(stack)) && Abs(Push(stack)) == Abs(stack) + [map[]]
  {
    var next, n := Push(stack), |stack|;
    assert next[..n] == stack;
    forall j, name | 0 <= j < |next| && name in next[j].overwrites
      ensures Declares(next[..j], name)
    {
      assert next[..j] == stack[..j];
    }
    forall i | 0 <= i < n
      ensures Abs(next)[i] == Abs(stack)[i]
    {
      assert next[i] == stack[i];
    }
  }

  /** A change of the top frame's values leaves the lower frames' validity alone. */
  lemma TopChanged<T>(stack: Stack<T>, top: Frame<T>)
    requires Valid(stack) && top.locals.Keys >= stack[|stack| - 1].locals.Keys
    requires forall name :: name in top.overwrites ==> Declares(stack[..|stack| - 1], name)
    ensures Valid(stack[..|stack| - 1] + [top])
  {
    var n := |stack| - 1;
    var next := stack[..n] + [top];
    forall j, name | 0 <= j < |next| && name in next[j].overwrites
      ensures Declares(next[..j], name)
    {
      assert next[..j] == stack[..j];
    }
  }

  /** What a set of values does to the nested store: each name in its innermost declaring scope. */
  ghost predicate Updated<T>(before: Scopes<T>, after: Scopes<T>, values: map<string, T>, stack: Stack<T>)
    requires |before| == |stack|
  {
    && |after| == |before|
    && forall i :: 0 <= i < |before| ==> ScopeUpdated(before[i], after[i], values, stack, i)
  }

  ghost predicate ScopeUpdated<T>(before: map<string, T>, after: map<string, T>, values: map<string, T>,
                                  stack: Stack<T>, i: nat) {
    && after.Keys == before.Keys
    && forall name :: name in before ==>
      after[name] == if name in values && Nearest(stack, name, i) then values[name] else before[name]
  }

  /** Setting values in the top frame updates the nested store, for any number of names at once. */
  lemma SetAllRefines<T>(stack: Stack<T>, values: map<string, T>)
    requires Valid(stack)
    ensures SetAll(stack, values).Some? <==> forall k :: k in values ==> Declares(stack, k)
    ensures SetAll(stack, values).Some? ==>
              Valid(SetAll(stack, values).value) && Updated(Abs(stack), Abs(SetAll(stack, values).value), values, stack)
  {
    if SetAll(stack, values).Some? {
      var n := |stack| - 1;
      var top := stack[n];
      var next := SetAll(stack, values).value;
      forall name | name in next[n].overwrites
        ensures Declares(stack[..n], name)
      {
        if name !in top.overwrites {
          assert name in values && name !in top.locals;
          var i :| 0 <= i < |stack| && name in stack[i].locals;
          assert stack[..n][i] == stack[i];
        }
      }
      TopChanged(stack, next[n]);
      forall i | 0 <= i < |stack|
        ensures ScopeUpdated(Abs(stack)[i], Abs(next)[i], values, stack, i)
      {
        forall name | name in stack[i].locals
          ensures name in next[i].locals
          ensures ValueAt(next, i, name) == if name in values &&
                  Nearest(stack, name, i) then values[name] else ValueAt(stack, i, name)
        {
          SetValueAt(stack, values, i, name);
        }
      }
    }
  }

  lemma SetValueAt<T>(stack: Stack<T>, values: map<string, T>, i: nat, name: string)
    requires Valid(stack) && SetAll(stack, values).Some? && i < |stack| && name in stack[i].locals
    ensures var next := SetAll(stack, values).value;
            && |next| == |stack| && name in next[i].locals && next[i].locals.Keys == stack[i].locals.Keys
            && ValueAt(next, i, name) == if name in values &&
              Nearest(stack, name, i) then values[name] else ValueAt(stack, i, name)
  {
    hide InsertAll, Declares;
    var n, next := |stack| - 1, SetAll(stack, values).value;
    InsertAllFacts(stack[n], values, name);
    assert next == stack[..n] + [InsertAll(stack[n], values)] && next[..n] == stack[..n];
    if i < n {
      assert next[i] == stack[i];
      SameClear(stack, next, i, n, name);
      NearestTop(stack, i, name);
      hide Clear, Nearest;
    }
  }

  lemma InsertAllFacts<T>(f: Frame<T>, values: map<string, T>, name: string)
    ensures InsertAll(f, values).locals.Keys == f.locals.Keys
    ensures name in f.locals ==>
              InsertAll(f, values).locals[name] == if name in values then values[name] else f.locals[name]
    ensures name in f.locals ==> (name in InsertAll(f, values).overwrites <==> name in f.overwrites)
    ensures name in f.locals && name in f.overwrites ==> InsertAll(f, values).overwrites[name] == f.overwrites[name]
    ensures name !in f.locals ==> (name in InsertAll(f, values).overwrites <==> name in f.overwrites || name in values)
    ensures name !in f.locals && name in InsertAll(f, values).overwrites ==>
              InsertAll(f, values).overwrites[name] == if name in values then values[name] else f.overwrites[name]
  {
  }

  /** Setting one value is the one-name case. */
  lemma SetIsSetAll<T>(stack: Stack<T>, name: string, value: T)
    ensures Set(stack, name, value) == SetAll(stack, map[name := value])
  {
    if Declares(stack, name) {
      var f, values := stack[|stack| - 1], map[name := value];
      assert InsertAll(f, values).locals == InsertIn(f, name, value).locals;
      assert InsertAll(f, values).overwrites == InsertIn(f, name, value).overwrites;
    }
  }

  lemma DeclareRefines<T>(stack: Stack<T>, name: string, value: T)
    requires Valid(stack)
    ensures Declare(stack, name, value).Some? <==> name !in Abs(stack)[|stack| - 1]
    ensures Declare(stack, name, value).Some? ==>
              && Valid(Declare(stack, name, value).value)
              && Abs(Declare(stack, name, value).value) ==
                Abs(stack)[|stack| - 1 := Abs(stack)[|stack| - 1][name := value]]
  {
    if Declare(stack, name, value).Some? {
      var n, next := |stack| - 1, Declare(stack, name, value).value;
      assert next[..n] == stack[..n];
      TopChanged(stack, next[n]);
      var expected := Abs(stack)[n := Abs(stack)[n][name := value]];
      forall i | 0 <= i < |stack|
        ensures Abs(next)[i] == expected[i]
      {
        if i < n {
          assert next[i] == stack[i];
          forall x | x in stack[i].locals
            ensures ValueAt(next, i, x) == ValueAt(stack, i, x)
          {
            SameClear(stack, next, i, n, x);
          }
          assert Abs(next)[i] == Abs(stack)[i];
        }
      }
    }
  }

  /** Popping a frame and setting its overwrites below is dropping the innermost scope. */
  lemma PopMergeRefines<T>(stack: Stack<T>)
    requires Valid(stack) && |stack| > 1
    ensures SetAll(stack[..|stack| - 1], stack[|stack| - 1].overwrites).Some?
    ensures var next := SetAll(stack[..|stack| - 1], stack[|stack| - 1].overwrites).value;
            Valid(next) && Abs(next) == Abs(stack)[..|stack| - 1]
  {
    hide SetAll, ValueAt, Nearest, Declares;
    var n := |stack| - 1;
    var front, values := stack[..n], stack[n].overwrites;
    ValidFront(stack);
    SetAllRefines(front, values);
    assert SetAll(front, values).Some? by { assert forall k :: k in values ==> Declares(front, k); }
    var next := SetAll(front, values).value;
    forall i | 0 <= i < n
      ensures Abs(next)[i] == Abs(stack)[i]
    {
      assert ScopeUpdated(Abs(front)[i], Abs(next)[i], values, front, i);
      assert Abs(front)[i].Keys == stack[i].locals.Keys;
      forall name | name in stack[i].locals
        ensures Abs(next)[i][name] == Abs(stack)[i][name]
      {
        assert name in Abs(front)[i];
        PopValueAt(stack, i, name);
      }
    }
    assert Abs(next) == Abs(stack)[..n];
  }

  lemma PopValueAt<T>(stack: Stack<T>, i: nat, name: string)
    requires i < |stack| - 1 && name in stack[i].locals
    ensures var n := |stack| - 1;
            ValueAt(stack, i, name) == if name in stack[n].overwrites &&
              Nearest(stack[..n], name, i) then stack[n].overwrites[name] else ValueAt(stack[..n], i, name)
  {
    SameClear(stack, stack[..|stack| - 1], i, |stack| - 1, name);
  }
}
