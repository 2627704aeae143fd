/** Substitutions and rank-1 constraints A*B - C = 0 (the second half of algebra.rs). */
module Constraints {
  import opened Field
  import opened LinearCombination
  import opened Algebra

  datatype Constraint = Constraint(a: LC, b: LC, c: LC)

  datatype Substitution = Substitution(from: nat, to: LC)

  const EMPTY: Constraint := Constraint(map[], map[], map[])

  ghost function Residual(c: Constraint, s: Assignment): int {
    Dot(c.a, s) * Dot(c.b, s) - Dot(c.c, s)
  }

  ghost predicate Sat(c: Constraint, s: Assignment, p: int) {
    Cong(Residual(c, s), 0, p)
  }

  ghost predicate Holds(sub: Substitution, s: Assignment, p: int) {
    Cong(Val(s, sub.from), Dot(sub.to, s), p)
  }

  predicate IsEmpty(c: Constraint) {
    c.a == map[] && c.b == map[] && c.c == map[]
  }

  /** The constraints that say something, in their order. */
  function NonEmpty(cs: seq<Constraint>): seq<Constraint> {
    if cs == [] then []
    else NonEmpty(cs[..|cs| - 1]) + if IsEmpty(cs[|cs| - 1]) then [] else [cs[|cs| - 1]]
  }

  lemma {:induction false} InNonEmpty(cs: seq<Constraint>, c: Constraint)
    ensures c in NonEmpty(cs) <==> c in cs && !IsEmpty(c)
  {
    if cs != [] {
      var n := |cs| - 1;
      InNonEmpty(cs[..n], c);
      assert cs == cs[..n] + [cs[n]];
    }
  }

  predicate IsLinear(c: Constraint) {
    c.a == map[] && c.b == map[]
  }

  function Keys(c: Constraint): set<nat> {
    c.a.Keys + c.b.Keys + c.c.Keys
  }

  function Signals(c: Constraint): set<nat> {
    Keys(c) - {0}
  }

  ghost predicate Clean(m: LC, p: int) {
    Canonical(m, p) && ZeroFree(m)
  }

  ghost predicate CleanConstraint(c: Constraint, p: int) {
    Clean(c.a, p) && Clean(c.b, p) && Clean(c.c, p)
  }

  // ---- Conversions between maps, expressions and constraints

  lemma SingletonKey(m: LC, k: nat, l: nat)
    requires |m| == 1 && k in m && l in m
    ensures k == l
  {
    if k != l {
      assert {k, l} <= m.Keys;
      SubsetSize({k, l}, m.Keys);
    }
  }

  lemma {:induction false} SubsetSize<T>(a: set<T>, b: set<T>)
    requires a <= b
    ensures |a| <= |b|
    decreases b
  {
    if b != {} {
      var x :| x in b;
      SubsetSize(a - {x}, b - {x});
    }
  }

  function OnlyKey(m: LC): (k: nat)
    requires |m| == 1
    ensures m.Keys == {k}
  {
    assert |m.Keys| == 1;
    assert forall k, l :: k in m && l in m ==> k == l by {
      forall k, l | k in m && l in m ensures k == l { SingletonKey(m, k, l); }
    }
    var k :| k in m;
    k
  }

  lemma SingletonMap(m: LC, k: nat)
    requires m.Keys == {k}
    ensures m == map[k := m[k]] && forall l :: l in m ==> l == k
  {
    assert forall l :: l in m <==> l in m.Keys;
  }

  lemma DotSingle(k: nat, v: int, s: Assignment)
    ensures Dot(map[k := v], s) == v * Val(s, k)
  {
    DotStep(map[k := v], s, k);
    assert map[k := v] - {k} == map[];
    DotEmpty(s);
  }

  /** The smallest expression form for a map; used by `decompose` and `hashmap_into_arith`. */
  function IntoExpr(m: LC): (e: Expr)
    ensures WellFormed(e) && Degree(e) <= 1
  {
    if |m| == 1 && 0 in m then
      Number(m[0])
    else if |m| == 1 && m[OnlyKey(m)] == 1 then
      Signal(OnlyKey(m))
    else
      Linear(Init(m))
  }

  lemma IntoExprMeaning(m: LC, s: Assignment)
    ensures Eval(IntoExpr(m), s) == Dot(m, s)
  {
    hide Dot, Init;
    if |m| == 1 {
      var k := OnlyKey(m);
      SingletonMap(m, k);
      DotSingle(k, m[k], s);
      assert 0 in m ==> k == 0;
    }
    DotInit(m, s);
  }

  /** A substitution's right-hand side from an expression; None when the signal would define itself
      or the expression is not linear. */
  function NewSubstitution(from: nat, to: Expr): (r: Option<Substitution>)
    ensures r.Some? <==> to.Number? || to.Signal? || (to.Linear? && from !in to.coefficients)
    ensures r.Some? ==> r.value.from == from
  {
    match to
    case Number(v) => Some(Substitution(from, map[0 := v]))
    case Signal(k) => Some(Substitution(from, map[k := 1]))
    case Linear(m) => if from in m then None else Some(Substitution(from, m))
    case _ => None
  }

  lemma NewSubstitutionMeaning(from: nat, to: Expr, s: Assignment, p: int)
    requires NewSubstitution(from, to).Some?
    ensures Holds(NewSubstitution(from, to).value, s, p) <==> Cong(Val(s, from), Eval(to, s), p)
  {
    hide Cong;
    if to.Number? { DotSingle(0, to.value, s); }
    if to.Signal? { DotSingle(to.symbol, 1, s); }
  }

  function Negated(m: LC, p: int): LC
    requires p > 0
  {
    Scale(m, -1, p)
  }

  /** The constraint "expression = 0"; None for a non-quadratic expression. */
  function ToConstraint(e: Expr, p: int): (r: Option<Constraint>)
    requires p > 0
    ensures r.Some? <==> !e.NonQuadratic?
  {
    match e
    case NonQuadratic => None
    case Quadratic(a, b, c) => Some(Constraint(a, b, Negated(c, p)))
    case Number(v) => Some(Constraint(ZERO, ZERO, Negated(ZERO[0 := v], p)))
    case Signal(k) => Some(Constraint(ZERO, ZERO, Negated(ZERO[k := 1], p)))
    case Linear(m) => Some(Constraint(ZERO, ZERO, Negated(m, p)))
  }

  lemma NegatedMeaning(m: LC, s: Assignment, p: int)
    requires p > 0
    ensures Cong(-Dot(Negated(m, p), s), Dot(m, s), p)
  {
    hide Cong, Dot;
    DotScale(m, s, -1, p);
    CongRefl(0, p);
    CongAdd(0, 0, Dot(Negated(m, p), s), -1 * Dot(m, s), p);
  }

  lemma ZeroInsert(k: nat, v: int, s: Assignment)
    ensures Dot(ZERO[k := v], s) == v * Val(s, k)
  {
    DotInsert(ZERO, s, k, v);
    DotZero(s);
    DotEmpty(s);
    if k == 0 { assert ZERO - {0} == map[]; } else { DotAbsent(ZERO, s, k); }
  }

  /** The constraint holds exactly where the expression vanishes. */
  lemma ToConstraintMeaning(e: Expr, s: Assignment, p: int)
    requires p > 0 && !e.NonQuadratic?
    ensures Cong(Residual(ToConstraint(e, p).value, s), Eval(e, s), p)
    ensures Sat(ToConstraint(e, p).value, s, p) <==> Cong(Eval(e, s), 0, p)
  {
    hide Cong, Dot, Negated;
    DotZero(s);
    match e {
      case Quadratic(a, b, c) =>
        NegatedMeaning(c, s, p);
        CongRefl(Dot(a, s) * Dot(b, s), p);
        CongAdd(Dot(a, s) * Dot(b, s), Dot(a, s) * Dot(b, s), -Dot(Negated(c, p), s), Dot(c, s), p);
      case Number(v) => ZeroInsert(0, v, s); NegatedMeaning(ZERO[0 := v], s, p);
      case Signal(k) => ZeroInsert(k, 1, s); NegatedMeaning(ZERO[k := 1], s, p);
      case Linear(m) => NegatedMeaning(m, s, p);
    }
    CongRefl(0, p);
    CongSame(Residual(ToConstraint(e, p).value, s), Eval(e, s), 0, 0, p);
  }

  // ---- Transformations of constraints

  function Apply(c: Constraint, sub: Substitution, p: int): (r: Constraint)
    requires p > 0
  {
    Constraint(Subst(c.a, sub.from, sub.to, p), Subst(c.b, sub.from, sub.to, p), Subst(c.c, sub.from, sub.to, p))
  }

  lemma ResidualCong(c: Constraint, d: Constraint, s: Assignment, p: int)
    requires Cong(Dot(c.a, s), Dot(d.a, s), p) && Cong(Dot(c.b, s), Dot(d.b, s), p) && Cong(Dot(c.c, s), Dot(d.c, s), p)
    ensures Cong(Residual(c, s), Residual(d, s), p)
  {
    hide Cong, Dot;
    CongMul(Dot(c.a, s), Dot(d.a, s), Dot(c.b, s), Dot(d.b, s), p);
    CongAdd(Dot(c.a, s) * Dot(c.b, s), Dot(d.a, s) * Dot(d.b, s), Dot(c.c, s), Dot(d.c, s), p);
  }

  lemma SatCong(c: Constraint, d: Constraint, s: Assignment, p: int)
    requires Cong(Residual(c, s), Residual(d, s), p)
    ensures Sat(c, s, p) <==> Sat(d, s, p)
  {
    hide Cong;
    CongRefl(0, p);
    CongSame(Residual(c, s), Residual(d, s), 0, 0, p);
  }

  /** Where the substitution holds, applying it does not change whether a constraint holds. */
  lemma ApplyMeaning(c: Constraint, sub: Substitution, s: Assignment, p: int)
    requires p > 0 && Holds(sub, s, p)
    ensures Sat(Apply(c, sub, p), s, p) <==> Sat(c, s, p)
  {
    hide Cong, Dot, Subst;
    DotSubst(c.a, s, sub.from, sub.to, p);
    DotSubst(c.b, s, sub.from, sub.to, p);
    DotSubst(c.c, s, sub.from, sub.to, p);
    ResidualCong(Apply(c, sub, p), c, s, p);
    SatCong(Apply(c, sub, p), c, s, p);
  }

  function RemoveZeros(c: Constraint): Constraint {
    Constraint(DropZeros(c.a), DropZeros(c.b), DropZeros(c.c))
  }

  predicate IsConstant(m: LC) {
    m.Keys == {0}
  }

  /** constant * b moved to the linear side. */
  function Reduced(constant: int, b: LC, c: LC, p: int): LC
    requires p > 0
  {
    DropZeros(AddAll(Scale(Scale(Init(b), constant, p), -1, p), Init(c), p))
  }

  /** Drop zeros and turn a product with a vanishing or constant factor into a linear constraint. */
  function Fix(c: Constraint, p: int): (r: Constraint)
    requires p > 0
  {
    var d := RemoveZeros(c);
    if d.a == map[] || d.b == map[] then Constraint(map[], map[], d.c)
    else if IsConstant(d.a) then Constraint(map[], map[], Reduced(d.a[0], d.b, d.c, p))
    else if IsConstant(d.b) then Constraint(map[], map[], Reduced(d.b[0], d.a, d.c, p))
    else d
  }

  lemma ReducedMeaning(constant: int, b: LC, c: LC, s: Assignment, p: int)
    requires p > 0
    ensures Cong(-Dot(Reduced(constant, b, c, p), s), constant * Dot(b, s) - Dot(c, s), p)
  {
    hide Cong, Dot, Scale, AddAll;
    var once := Scale(Init(b), constant, p);
    var twice := Scale(once, -1, p);
    var sum := AddAll(twice, Init(c), p);
    DotDropZeros(sum, s);
    DotAddAll(twice, Init(c), s, p);
    DotInit(c, s);
    DotInit(b, s);
    DotScale(once, s, -1, p);
    DotScale(Init(b), s, constant, p);
    NegateThrough(Dot(sum, s), Dot(c, s), Dot(twice, s), Dot(once, s), constant * Dot(b, s), p);
  }

  lemma NegateThrough(sum: int, c: int, twice: int, once: int, b: int, p: int)
    requires Cong(sum, c + twice, p) && Cong(twice, -1 * once, p) && Cong(once, b, p)
    ensures Cong(-sum, b - c, p)
  {
    hide Cong;
    CongRefl(c, p);
    CongRefl(0, p);
    CongAdd(0, 0, once, b, p);
    CongTrans(twice, -once, -b, p);
    CongAdd(c, c, twice, -b, p);
    CongTrans(sum, c + twice, c - b, p);
    CongAdd(0, 0, sum, c - b, p);
  }

  /** Fixing keeps the residual A*B - C of every assignment. */
  lemma FixMeaning(c: Constraint, s: Assignment, p: int)
    requires p > 0
    ensures Cong(Residual(Fix(c, p), s), Residual(c, s), p)
    ensures Sat(Fix(c, p), s, p) <==> Sat(c, s, p)
  {
    hide Cong, Dot, Reduced;
    var d := RemoveZeros(c);
    DotDropZeros(c.a, s);
    DotDropZeros(c.b, s);
    DotDropZeros(c.c, s);
    DotEmpty(s);
    if d.a == map[] || d.b == map[] {
      CongRefl(-Dot(c.c, s), p);
    } else if IsConstant(d.a) {
      ConstantDot(d.a, s);
      ReducedMeaning(d.a[0], d.b, d.c, s, p);
    } else if IsConstant(d.b) {
      ConstantDot(d.b, s);
      ReducedMeaning(d.b[0], d.a, d.c, s, p);
    } else {
      CongRefl(Residual(c, s), p);
    }
    SatCong(Fix(c, p), c, s, p);
  }

  lemma ConstantDot(m: LC, s: Assignment)
    requires IsConstant(m)
    ensures Dot(m, s) == m[0]
  {
    DotStep(m, s, 0);
    assert m - {0} == map[];
    DotEmpty(s);
  }

  lemma ReducedForm(constant: int, b: LC, c: LC, p: int)
    requires p > 0
    ensures Reduced(constant, b, c, p).Keys <= b.Keys + c.Keys + {0}
    ensures ZeroFree(Reduced(constant, b, c, p))
    ensures Canonical(c, p) ==> Canonical(Reduced(constant, b, c, p), p)
  {
    hide Scale, AddAll;
  }

  /** A fixed constraint is zero-free, mentions nothing new, and is a product of two
      non-constant factors or linear. */
  lemma FixForm(c: Constraint, p: int)
    requires p > 0
    ensures Keys(Fix(c, p)) <= Keys(c) + {0} && Signals(Fix(c, p)) <= Signals(c)
    ensures ZeroFree(Fix(c, p).a) && ZeroFree(Fix(c, p).b) && ZeroFree(Fix(c, p).c)
    ensures Canonical(c.a, p) && Canonical(c.b, p) && Canonical(c.c, p) ==> CleanConstraint(Fix(c, p), p)
    ensures IsLinear(Fix(c, p)) || !(IsConstant(Fix(c, p).a) || IsConstant(Fix(c, p).b) || Fix(c, p).a == map[] ||
            Fix(c, p).b == map[])
  {
    hide Reduced, DropZeros, ZeroFree, Canonical;
    var d := RemoveZeros(c);
    DropForm(c.a, p);
    DropForm(c.b, p);
    DropForm(c.c, p);
    EmptyForm(p);
    if d.a == map[] || d.b == map[] {
    } else if IsConstant(d.a) {
      ReducedForm(d.a[0], d.b, d.c, p);
    } else if IsConstant(d.b) {
      ReducedForm(d.b[0], d.a, d.c, p);
    }
  }

  lemma DropForm(m: LC, p: int)
    ensures ZeroFree(DropZeros(m)) && (Canonical(m, p) ==> Canonical(DropZeros(m), p))
  {
    hide DropZeros;
  }

  lemma EmptyForm(p: int)
    ensures ZeroFree(map[]) && Canonical(map[], p)
  {
  }

  /** Fixing is idempotent: a constraint rewritten twice by the same frame is rewritten once. */
  lemma FixIdempotent(c: Constraint, p: int)
    requires p > 0
    ensures Fix(Fix(c, p), p) == Fix(c, p)
  {
    hide Reduced;
    FixForm(c, p);
    var f := Fix(c, p);
    assert DropZeros(f.a) == f.a && DropZeros(f.b) == f.b && DropZeros(f.c) == f.c;
  }
}
