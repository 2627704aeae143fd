/** What one step of Gaussian elimination means: clearing a signal out of a linear constraint,
    merging two definitions of one signal, and normalising a definition. */
module Elimination {
  import opened Field
  import opened LinearCombination
  import opened Algebra
  import opened Constraints

  /** coef * from = to, the not-normalized form in which substitutions are collected. */
  datatype Entry = Entry(coef: int, sub: Substitution)

  type Holder = map<nat, Entry>

  ghost predicate EntryHolds(e: Entry, s: Assignment, p: int) {
    Cong(e.coef * Val(s, e.sub.from), Dot(e.sub.to, s), p)
  }

  ghost predicate EntryOk(e: Entry, from: nat, p: int) {
    && e.sub.from == from && from !in e.sub.to
    && 0 < e.coef < p && Canonical(e.sub.to, p) && 0 in e.sub.to
  }

  ghost predicate HolderHolds(h: Holder, s: Assignment, p: int) {
    forall k :: k in h ==> EntryHolds(h[k], s, p)
  }

  ghost predicate AllSat(cs: seq<Constraint>, s: Assignment, p: int) {
    forall i :: 0 <= i < |cs| ==> Sat(cs[i], s, p)
  }

  ghost predicate AllHold(subs: seq<Substitution>, s: Assignment, p: int) {
    forall i :: 0 <= i < |subs| ==> Holds(subs[i], s, p)
  }

  ghost predicate CleanLinear(c: Constraint, p: int) {
    IsLinear(c) && Clean(c.c, p)
  }

  lemma LinearSat(c: Constraint, s: Assignment, p: int)
    requires IsLinear(c)
    ensures Sat(c, s, p) <==> Cong(Dot(c.c, s), 0, p)
  {
    hide Cong, Dot;
    DotEmpty(s);
    var d := Dot(c.c, s);
    CongRefl(0, p);
    if Cong(d, 0, p) { CongAdd(0, 0, d, 0, p); }
    if Cong(-d, 0, p) { CongAdd(0, 0, -d, 0, p); }
  }

  /** Solve a linear constraint for one of its signals, keeping the coefficient on the left. */
  function ClearNotNormalized(m: LC, key: nat, p: int): (e: Entry)
    requires p > 0 && key in m && key != 0
    ensures e.sub.from == key && key !in e.sub.to && 0 in e.sub.to
    ensures e.sub.to.Keys == m.Keys - {key} + {0}
  {
    Entry(M.Mul(m[key], -1, p), Substitution(key, Init(m - {key})))
  }

  lemma ClearOk(m: LC, key: nat, p: int)
    requires p > 0 && key in m && key != 0 && Clean(m, p)
    ensures EntryOk(ClearNotNormalized(m, key, p), key, p)
  {
    hide M.Mul;
    NegateNonzero(m[key], p);
  }

  lemma NegateNonzero(v: int, p: int)
    requires 0 < v < p
    ensures M.Mul(v, -1, p) != 0
  {
    hide Cong, M.Mul;
    var coef := M.Mul(v, -1, p);
    assert Cong(coef, v * -1, p);
    CongSym(coef, v * -1, p);
    CongRefl(0, p);
    CanonicalZero(v, p);
    if coef == 0 {
      assert v * -1 == -v;
      CongAdd(0, 0, -v, 0, p);
    }
  }

  /** The solved form says exactly what the constraint said. */
  lemma ClearMeaning(m: LC, key: nat, s: Assignment, p: int)
    requires p > 0 && key in m && key != 0
    ensures EntryHolds(ClearNotNormalized(m, key, p), s, p) <==> Cong(Dot(m, s), 0, p)
  {
    hide Cong, Dot;
    var coef, rest, v := M.Mul(m[key], -1, p), m - {key}, Val(s, key);
    DotStep(m, s, key);
    DotInit(rest, s);
    assert Dot(m, s) == m[key] * v + Dot(rest, s);
    SolveFor(coef, m[key], v, Dot(rest, s), p);
  }

  lemma SolveFor(coef: int, m: int, v: int, rest: int, p: int)
    requires Cong(coef, m * -1, p)
    ensures Cong(coef * v, rest, p) <==> Cong(m * v + rest, 0, p)
  {
    hide Cong;
    CongRefl(v, p);
    CongRefl(rest, p);
    CongRefl(0, p);
    CongMul(coef, m * -1, v, v, p);
    assert (m * -1) * v == -(m * v);
    CongSame(coef * v, -(m * v), rest, rest, p);
    CongDiff(-(m * v), rest, p);
    var t := m * v + rest;
    assert -(m * v) - rest == -t;
    if Cong(t, 0, p) { CongAdd(0, 0, t, 0, p); }
    if Cong(-t, 0, p) { CongAdd(0, 0, -t, 0, p); }
  }

  /** Eliminate a signal defined twice: cross-multiplied difference of the two right-hand sides. */
  function Merge(left: Entry, right: Entry, p: int): (r: Constraint)
    requires p > 0
  {
    var newLeft := Mul(Number(right.coef), IntoExpr(left.sub.to), p);
    var newRight := Mul(Number(left.coef), IntoExpr(right.sub.to), p);
    var merge := ToConstraint(Sub(newLeft, newRight, p), p);
    if merge.Some? then RemoveZeros(merge.value) else EMPTY
  }

  /** Keys of an expression of degree at most one. */
  function ExprKeys(e: Expr): set<nat> {
    match e
    case Number(_) => {0}
    case Signal(k) => {k}
    case Linear(m) => m.Keys
    case _ => {}
  }

  lemma MergeForm(left: Entry, right: Entry, p: int)
    requires p > 0 && 0 in left.sub.to && 0 in right.sub.to
    ensures CleanLinear(Merge(left, right, p), p)
    ensures Merge(left, right, p).c.Keys <= left.sub.to.Keys + right.sub.to.Keys
  {
    var l, r := IntoExpr(left.sub.to), IntoExpr(right.sub.to);
    OnlyZero(left.sub.to);
    OnlyZero(right.sub.to);
    var newLeft := Mul(Number(right.coef), l, p);
    var newRight := Mul(Number(left.coef), r, p);
    var minus := Mul(Number(-1), newRight, p);
    assert newLeft.Number? || newLeft.Linear?;
    assert minus.Number? || minus.Linear?;
    SumKeys(newLeft, minus, p);
    var e := Add(newLeft, minus, p);
    hide Add, Mul, Negated;
    NegatedForm(e, p);
  }

  lemma OnlyZero(m: LC)
    requires 0 in m
    ensures IntoExpr(m).Number? || IntoExpr(m).Linear?
    ensures ExprKeys(IntoExpr(m)) <= m.Keys
  {
    if |m| == 1 { SingletonKey(m, OnlyKey(m), 0); }
  }

  lemma SumKeys(x: Expr, y: Expr, p: int)
    requires p > 0 && (x.Number? || x.Linear?) && (y.Number? || y.Linear?) && WellFormed(x) && WellFormed(y)
    ensures Add(x, y, p).Number? || Add(x, y, p).Linear?
    ensures ExprKeys(Add(x, y, p)) <= ExprKeys(x) + ExprKeys(y)
  {
  }

  lemma NegatedForm(e: Expr, p: int)
    requires p > 0 && (e.Number? || e.Linear?)
    ensures ToConstraint(e, p).Some?
    ensures CleanLinear(RemoveZeros(ToConstraint(e, p).value), p)
    ensures RemoveZeros(ToConstraint(e, p).value).c.Keys <= ExprKeys(e)
  {
    assert DropZeros(ZERO) == map[];
  }

  /** Given the stored definition, the merged constraint says exactly what the new definition says. */
  lemma MergeMeaning(left: Entry, right: Entry, s: Assignment, p: int)
    requires Prime(p) && 0 in left.sub.to && 0 in right.sub.to
    requires left.sub.from == right.sub.from && 0 < right.coef < p
    requires EntryHolds(right, s, p)
    ensures Sat(Merge(left, right, p), s, p) <==> EntryHolds(left, s, p)
  {
    hide Cong, Prime, Merge, Sat, EntryHolds, Gap;
    PrimePositive(p);
    MergeSat(left, right, s, p);
    GapMeaning(left, right, s, p);
  }

  /** What the merged constraint says is zero. */
  ghost function Gap(left: Entry, right: Entry, s: Assignment): int {
    right.coef * Dot(left.sub.to, s) - left.coef * Dot(right.sub.to, s)
  }

  lemma GapMeaning(left: Entry, right: Entry, s: Assignment, p: int)
    requires Prime(p) && left.sub.from == right.sub.from && 0 < right.coef < p && EntryHolds(right, s, p)
    ensures Cong(Gap(left, right, s), 0, p) <==> EntryHolds(left, s, p)
  {
    hide Cong, Dot, Prime, Val;
    CrossMultiply(left.coef, right.coef, Val(s, left.sub.from), Dot(left.sub.to, s), Dot(right.sub.to, s), p);
  }

  lemma MergeSat(left: Entry, right: Entry, s: Assignment, p: int)
    requires p > 1 && 0 in left.sub.to && 0 in right.sub.to
    ensures Sat(Merge(left, right, p), s, p) <==>
            Cong(Gap(left, right, s), 0, p)
  {
    hide Cong, Gap, Mul, Sub, IntoExpr, Eval, ToConstraint, RemoveZeros, Sat;
    var e := Difference(left, right, p);
    DifferenceMeaning(left, right, s, p);
    ToConstraintMeaning(e, s, p);
    RemoveZerosMeaning(ToConstraint(e, p).value, s, p);
    CongRefl(0, p);
    CongSame(Eval(e, s), Gap(left, right, s), 0, 0, p);
  }

  /** The cross-multiplied right-hand sides subtracted from each other. */
  function Difference(left: Entry, right: Entry, p: int): Expr
    requires p > 0
  {
    Sub(Mul(Number(right.coef), IntoExpr(left.sub.to), p), Mul(Number(left.coef), IntoExpr(right.sub.to), p), p)
  }

  lemma DifferenceMeaning(left: Entry, right: Entry, s: Assignment, p: int)
    requires p > 1 && 0 in left.sub.to && 0 in right.sub.to
    ensures var e := Difference(left, right, p);
            && WellFormed(e) && ToConstraint(e, p).Some?
            && Cong(Eval(e, s), Gap(left, right, s), p)
  {
    hide Cong, Dot, Mul, Sub, IntoExpr, Eval, ToConstraint;
    var l, r := IntoExpr(left.sub.to), IntoExpr(right.sub.to);
    var x, y := Dot(left.sub.to, s), Dot(right.sub.to, s);
    IntoExprMeaning(left.sub.to, s);
    IntoExprMeaning(right.sub.to, s);
    var newLeft, newRight := Mul(Number(right.coef), l, p), Mul(Number(left.coef), r, p);
    DegreeOfScaled(right.coef, l, p);
    DegreeOfScaled(left.coef, r, p);
    MulMeaning(Number(right.coef), l, s, p);
    MulMeaning(Number(left.coef), r, s, p);
    SubMeaning(newLeft, newRight, s, p);
    var e := Sub(newLeft, newRight, p);
    EvalNumber(Number(right.coef), s);
    EvalNumber(Number(left.coef), s);
    assert ToConstraint(e, p).Some?;
    CongAdd(Eval(newLeft, s), right.coef * x, Eval(newRight, s), left.coef * y, p);
    CongTrans(Eval(e, s), Eval(newLeft, s) - Eval(newRight, s), right.coef * x - left.coef * y, p);
  }

  lemma DegreeOfScaled(v: int, e: Expr, p: int)
    requires p > 0 && WellFormed(e) && Degree(e) <= 1
    ensures Degree(Mul(Number(v), e, p)) <= 1
  {
  }

  lemma RemoveZerosMeaning(c: Constraint, s: Assignment, p: int)
    ensures Sat(RemoveZeros(c), s, p) <==> Sat(c, s, p)
  {
    hide Cong, Dot;
    DotDropZeros(c.a, s);
    DotDropZeros(c.b, s);
    DotDropZeros(c.c, s);
  }

  lemma CrossMultiply(left: int, right: int, v: int, x: int, y: int, p: int)
    requires Prime(p) && 0 < right < p && Cong(right * v, y, p)
    ensures Cong(right * x - left * y, 0, p) <==> Cong(left * v, x, p)
  {
    hide Cong;
    CongRefl(left, p);
    CongRefl(right * x, p);
    CongRefl(0, p);
    CongMul(left, left, right * v, y, p);
    CongAdd(right * x, right * x, left * (right * v), left * y, p);
    CongSame(right * x - left * (right * v), right * x - left * y, 0, 0, p);
    assert right * x - left * (right * v) == right * (x - left * v);
    CanonicalZero(right, p);
    NoZeroDivisors(right, x - left * v, p);
    CongDiff(x, left * v, p);
    if Cong(x, left * v, p) { CongSym(x, left * v, p); }
    if Cong(left * v, x, p) { CongSym(left * v, x, p); }
  }

  /** Dividing a definition by its coefficient does not change its meaning. */
  lemma NormalizeMeaning(e: Entry, inverse: int, s: Assignment, p: int)
    requires Prime(p) && M.Inverse(inverse, e.coef, p)
    ensures Holds(Substitution(e.sub.from, Scale(e.sub.to, inverse, p)), s, p) <==> EntryHolds(e, s, p)
  {
    hide Cong, Dot, Scale;
    var v, x := Val(s, e.sub.from), Dot(e.sub.to, s);
    DotScale(e.sub.to, s, inverse, p);
    DivideBoth(e.coef, inverse, v, x, p);
    CongRefl(v, p);
    CongSame(v, v, Dot(Scale(e.sub.to, inverse, p), s), inverse * x, p);
  }

  lemma DivideBoth(coef: int, inverse: int, v: int, x: int, p: int)
    requires Cong(inverse * coef, 1, p)
    ensures Cong(v, inverse * x, p) <==> Cong(coef * v, x, p)
  {
    hide Cong;
    CongRefl(v, p);
    CongRefl(x, p);
    CongRefl(coef, p);
    CongRefl(inverse, p);
    CongMul(inverse * coef, 1, v, v, p);
    CongMul(inverse * coef, 1, x, x, p);
    assert (inverse * coef) * v == inverse * (coef * v);
    assert (inverse * coef) * x == coef * (inverse * x);
    if Cong(v, inverse * x, p) {
      CongMul(coef, coef, v, inverse * x, p);
      CongTrans(coef * v, coef * (inverse * x), x, p);
    }
    if Cong(coef * v, x, p) {
      CongMul(inverse, inverse, coef * v, x, p);
      CongSym(inverse * (coef * v), v, p);
      CongTrans(v, inverse * (coef * v), inverse * x, p);
    }
  }

  /** The normalized solution of a linear constraint for one of its signals (clear_signal). */
  function ClearNormalized(m: LC, key: nat, p: int): (r: Option<Substitution>)
    requires p >= 2 && key in m && key != 0
  {
    var e := ClearNotNormalized(m, key, p);
    match M.Div(1, e.coef, p)
    case None => None
    case Some(inverse) => Some(Substitution(key, DropZeros(Scale(e.sub.to, inverse, p))))
  }

  lemma ClearNormalizedMeaning(m: LC, key: nat, s: Assignment, p: int)
    requires Prime(p) && key in m && key != 0 && Clean(m, p)
    ensures ClearNormalized(m, key, p).Some?
    ensures Holds(ClearNormalized(m, key, p).value, s, p) <==> Cong(Dot(m, s), 0, p)
  {
    hide Cong, Dot, Scale;
    ClearOk(m, key, p);
    ClearMeaning(m, key, s, p);
    var e := ClearNotNormalized(m, key, p);
    CanonicalZero(e.coef, p);
    var inverse := M.Div(1, e.coef, p).value;
    NormalizeMeaning(e, inverse, s, p);
    DotDropZeros(Scale(e.sub.to, inverse, p), s);
  }
}
