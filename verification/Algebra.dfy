/** Arithmetic expressions, substitutions and rank-1 constraints (algebra.rs). */
module Algebra {
  import opened Field
  import opened LinearCombination

  datatype Expr =
    | Number(value: int)
    | Signal(symbol: nat)
    | Linear(coefficients: LC)
    | Quadratic(a: LC, b: LC, c: LC)
    | NonQuadratic

  /** The source's standing invariant: maps inside an expression mention the constant wire. */
  ghost predicate WellFormed(e: Expr) {
    match e
    case Linear(m) => 0 in m
    case Quadratic(a, b, c) => 0 in a && 0 in b && 0 in c
    case _ => true
  }

  ghost function Eval(e: Expr, s: Assignment): int
    requires !e.NonQuadratic?
  {
    match e
    case Number(v) => v
    case Signal(k) => Val(s, k)
    case Linear(m) => Dot(m, s)
    case Quadratic(a, b, c) => Dot(a, s) * Dot(b, s) + Dot(c, s)
  }

  /** Polynomial degree bound of each form; above two there is no representation. */
  function Degree(e: Expr): nat {
    match e
    case Number(_) => 0
    case Signal(_) => 1
    case Linear(_) => 1
    case Quadratic(_, _, _) => 2
    case NonQuadratic => 3
  }

  const ZERO: LC := map[0 := 0]

  /** A signal or a linear form as a map c1*s1 + ... + C. */
  function Lift(e: Expr, p: int): (r: LC)
    requires p > 0 && Degree(e) == 1
    ensures WellFormed(e) ==> 0 in r
  {
    if e.Signal? then AddSymbol(ZERO, e.symbol, 1, p) else e.coefficients
  }

  function AddInto(e: Expr, m: LC, p: int): (r: LC)
    requires p > 0 && Degree(e) <= 1
    ensures r.Keys >= m.Keys
  {
    match e
    case Number(v) => AddSymbol(m, 0, v, p)
    case Signal(k) => AddSymbol(m, k, 1, p)
    case Linear(extra) => AddAll(extra, m, p)
  }

  /** Sum of two expressions, form by form. */
  function Add(left: Expr, right: Expr, p: int): (r: Expr)
    requires p > 0 && WellFormed(left) && WellFormed(right)
    ensures WellFormed(r)
  {
    match (left, right)
    case (NonQuadratic, _) => NonQuadratic
    case (_, NonQuadratic) => NonQuadratic
    case (Quadratic(_, _, _), Quadratic(_, _, _)) => NonQuadratic
    case (Number(v), Number(w)) => Number(M.Add(v, w, p))
    case (Quadratic(a, b, c), _) => Quadratic(a, b, AddInto(right, c, p))
    case (_, Quadratic(a, b, c)) => Quadratic(a, b, AddInto(left, c, p))
    case (_, Linear(m)) => Linear(AddInto(left, m, p))
    case (Linear(m), _) => Linear(AddInto(right, m, p))
    case (Number(v), Signal(k)) => Linear(AddSymbol(AddSymbol(ZERO, 0, v, p), k, 1, p))
    case (Signal(k), Number(v)) => Linear(AddSymbol(AddSymbol(ZERO, 0, v, p), k, 1, p))
    case (Signal(k), Signal(l)) => Linear(AddSymbol(AddSymbol(ZERO, k, 1, p), l, 1, p))
  }

  function ScaleBy(v: int, e: Expr, p: int): (r: Expr)
    requires p > 0 && WellFormed(e)
    ensures WellFormed(r)
  {
    match e
    case Number(w) => Number(M.Mul(v, w, p))
    case Signal(k) => Linear(AddSymbol(ZERO, k, v, p))
    case Linear(m) => Linear(Scale(m, v, p))
    case Quadratic(a, b, c) => Quadratic(Scale(a, v, p), b, Scale(c, v, p))
    case NonQuadratic => NonQuadratic
  }

  /** Product of two expressions, form by form. */
  function Mul(left: Expr, right: Expr, p: int): (r: Expr)
    requires p > 0 && WellFormed(left) && WellFormed(right)
    ensures WellFormed(r)
  {
    match (left, right)
    case (NonQuadratic, _) => NonQuadratic
    case (_, NonQuadratic) => NonQuadratic
    case (Number(v), _) => ScaleBy(v, right, p)
    case (_, Number(v)) => ScaleBy(v, left, p)
    case (Quadratic(_, _, _), _) => NonQuadratic
    case (_, Quadratic(_, _, _)) => NonQuadratic
    case (Signal(_), Linear(_)) => Quadratic(Lift(right, p), Lift(left, p), ZERO)
    case (_, _) => Quadratic(Lift(left, p), Lift(right, p), ZERO)
  }

  function Sub(left: Expr, right: Expr, p: int): (r: Expr)
    requires p > 0 && WellFormed(left) && WellFormed(right)
    ensures WellFormed(r)
  {
    Add(left, Mul(Number(-1), right, p), p)
  }

  /** Quotient by a number; None is the division-by-zero error, other divisors have no representation. */
  function Div(left: Expr, right: Expr, p: int): (r: Option<Expr>)
    requires p >= 2 && WellFormed(left) && WellFormed(right)
    ensures r.Some? ==> WellFormed(r.value)
  {
    match (left, right)
    case (Number(v), Number(w)) =>
      (match M.Div(v, w, p)
       case None => None
       case Some(q) => Some(Number(q)))
    case (Signal(_), Number(w)) => Quotient(Linear(Lift(left, p)), w, p)
    case (Linear(_), Number(w)) => Quotient(left, w, p)
    case (Quadratic(_, _, _), Number(w)) => Quotient(left, w, p)
    case _ => Some(NonQuadratic)
  }

  function Quotient(e: Expr, w: int, p: int): (r: Option<Expr>)
    requires p >= 2 && WellFormed(e)
    ensures r.Some? ==> WellFormed(r.value)
  {
    match M.Div(1, w, p)
    case None => None
    case Some(i) => Some(ScaleBy(i, e, p))
  }

  lemma DotZero(s: Assignment)
    ensures Dot(ZERO, s) == 0
  {
    DotStep(ZERO, s, 0);
    assert ZERO - {0} == map[];
  }

  lemma DotOne(s: Assignment, k: nat, v: int, p: int)
    requires p > 0
    ensures Cong(Dot(AddSymbol(ZERO, k, v, p), s), v * Val(s, k), p)
  {
    hide Cong;
    DotAddSymbol(ZERO, s, k, v, p);
    DotZero(s);
  }

  lemma AddIntoMeaning(e: Expr, m: LC, s: Assignment, p: int)
    requires p > 0 && Degree(e) <= 1
    ensures Cong(Dot(AddInto(e, m, p), s), Dot(m, s) + Eval(e, s), p)
  {
    hide Cong, Dot;
    match e
    case Number(v) => DotAddSymbol(m, s, 0, v, p);
    case Signal(k) => DotAddSymbol(m, s, k, 1, p);
    case Linear(extra) => DotAddAll(extra, m, s, p);
  }

  lemma AddTwo(s: Assignment, k: nat, v: int, l: nat, w: int, p: int)
    requires p > 0
    ensures Cong(Dot(AddSymbol(AddSymbol(ZERO, k, v, p), l, w, p), s), v * Val(s, k) + w * Val(s, l), p)
  {
    hide Cong, Dot;
    var m := AddSymbol(ZERO, k, v, p);
    DotOne(s, k, v, p);
    DotAddSymbol(m, s, l, w, p);
    CongRefl(w * Val(s, l), p);
    CongAdd(Dot(m, s), v * Val(s, k), w * Val(s, l), w * Val(s, l), p);
    CongTrans(Dot(AddSymbol(m, l, w, p), s), Dot(m, s) + w * Val(s, l), v * Val(s, k) + w * Val(s, l), p);
  }

  /** Addition is exact, and fails only where no quadratic form can exist. */
  lemma AddMeaning(left: Expr, right: Expr, s: Assignment, p: int)
    requires p > 0 && WellFormed(left) && WellFormed(right)
    ensures Add(left, right, p).NonQuadratic? <==>
            left.NonQuadratic? || right.NonQuadratic? || (left.Quadratic? && right.Quadratic?)
    ensures !Add(left, right, p).NonQuadratic? ==>
              Cong(Eval(Add(left, right, p), s), Eval(left, s) + Eval(right, s), p)
  {
    hide Cong, Dot;
    if left.NonQuadratic? || right.NonQuadratic? || (left.Quadratic? && right.Quadratic?) {
    } else if left.Quadratic? {
      AddQuadratic(left, right, s, p);
    } else if right.Quadratic? {
      AddQuadratic(right, left, s, p);
    } else {
      AddFlat(left, right, s, p);
    }
  }

  /** Numbers, signals and linear expressions. */
  lemma AddFlat(left: Expr, right: Expr, s: Assignment, p: int)
    requires p > 0 && WellFormed(left) && WellFormed(right)
    requires !left.NonQuadratic? && !right.NonQuadratic? && !left.Quadratic? && !right.Quadratic?
    ensures !Add(left, right, p).NonQuadratic? && Cong(Eval(Add(left, right, p), s), Eval(left, s) + Eval(right, s), p)
  {
    hide Cong, Dot;
    if right.Linear? {
      AddIntoMeaning(left, right.coefficients, s, p);
    } else if left.Linear? {
      AddIntoMeaning(right, left.coefficients, s, p);
    } else if left.Signal? && right.Signal? {
      AddTwo(s, left.symbol, 1, right.symbol, 1, p);
    } else if left.Number? && right.Signal? {
      AddTwo(s, 0, left.value, right.symbol, 1, p);
    } else if left.Signal? {
      AddTwo(s, 0, right.value, left.symbol, 1, p);
    }
  }

  lemma AddQuadratic(q: Expr, e: Expr, s: Assignment, p: int)
    requires p > 0 && q.Quadratic? && Degree(e) <= 1
    ensures Cong(Eval(Quadratic(q.a, q.b, AddInto(e, q.c, p)), s), Eval(q, s) + Eval(e, s), p)
  {
    hide Cong, Dot, AddInto;
    var ab := Dot(q.a, s) * Dot(q.b, s);
    AddIntoMeaning(e, q.c, s, p);
    CongRefl(ab, p);
    CongAdd(ab, ab, Dot(AddInto(e, q.c, p), s), Dot(q.c, s) + Eval(e, s), p);
  }

  lemma ScaleByMeaning(v: int, e: Expr, s: Assignment, p: int)
    requires p > 0 && WellFormed(e) && !e.NonQuadratic?
    ensures Cong(Eval(ScaleBy(v, e, p), s), v * Eval(e, s), p)
  {
    hide Cong, Dot;
    match e
    case Number(w) =>
    case Signal(k) => DotOne(s, k, v, p);
    case Linear(m) => DotScale(m, s, v, p);
    case Quadratic(a, b, c) =>
      DotScale(a, s, v, p);
      DotScale(c, s, v, p);
      ScaledProduct(Dot(Scale(a, v, p), s), Dot(a, s), Dot(b, s), Dot(Scale(c, v, p), s), Dot(c, s), v, p);
  }

  lemma ScaledProduct(x': int, x: int, y: int, z': int, z: int, v: int, p: int)
    requires Cong(x', v * x, p) && Cong(z', v * z, p)
    ensures Cong(x' * y + z', v * (x * y + z), p)
  {
    hide Cong;
    CongRefl(y, p);
    CongMul(x', v * x, y, y, p);
    CongAdd(x' * y, (v * x) * y, z', v * z, p);
    assert (v * x) * y + v * z == v * (x * y + z);
  }

  lemma LiftMeaning(e: Expr, s: Assignment, p: int)
    requires p > 0 && Degree(e) == 1
    ensures Cong(Dot(Lift(e, p), s), Eval(e, s), p)
  {
    hide Cong, Dot;
    if e.Signal? { DotOne(s, e.symbol, 1, p); } else { CongRefl(Eval(e, s), p); }
  }

  lemma MulLifted(left: Expr, right: Expr, s: Assignment, p: int)
    requires p > 0 && Degree(left) == 1 && Degree(right) == 1
    ensures Cong(Eval(Quadratic(Lift(left, p), Lift(right, p), ZERO), s), Eval(left, s) * Eval(right, s), p)
  {
    hide Cong, Dot, Lift;
    DotZero(s);
    LiftMeaning(left, s, p);
    LiftMeaning(right, s, p);
    CongMul(Dot(Lift(left, p), s), Eval(left, s), Dot(Lift(right, p), s), Eval(right, s), p);
  }

  /** Multiplication is exact, and fails exactly when the degree would exceed two. */
  lemma MulMeaning(left: Expr, right: Expr, s: Assignment, p: int)
    requires p > 0 && WellFormed(left) && WellFormed(right)
    ensures Mul(left, right, p).NonQuadratic? <==> Degree(left) + Degree(right) > 2
    ensures Degree(left) + Degree(right) <= 2 ==>
              Cong(Eval(Mul(left, right, p), s), Eval(left, s) * Eval(right, s), p)
  {
    hide Cong, Eval, Lift, ScaleBy;
    ScaleByForm(left, right, p);
    if Degree(left) + Degree(right) <= 2 {
      if left.Number? {
        EvalNumber(left, s);
        ScaleByMeaning(left.value, right, s, p);
      } else if right.Number? {
        EvalNumber(right, s);
        ScaleByMeaning(right.value, left, s, p);
      } else if left.Signal? && right.Linear? {
        MulLifted(right, left, s, p);
      } else {
        MulLifted(left, right, s, p);
      }
    }
  }

  lemma EvalNumber(e: Expr, s: Assignment)
    requires e.Number?
    ensures Eval(e, s) == e.value
  {
  }

  lemma ScaleByForm(left: Expr, right: Expr, p: int)
    requires p > 0 && WellFormed(left) && WellFormed(right)
    ensures forall v :: ScaleBy(v, left, p).NonQuadratic? <==> left.NonQuadratic?
    ensures forall v :: ScaleBy(v, right, p).NonQuadratic? <==> right.NonQuadratic?
  {
  }

  /** Subtraction is exact, and fails only where no quadratic form can exist. */
  lemma SubMeaning(left: Expr, right: Expr, s: Assignment, p: int)
    requires p > 0 && WellFormed(left) && WellFormed(right)
    ensures Sub(left, right, p).NonQuadratic? <==>
            left.NonQuadratic? || right.NonQuadratic? || (left.Quadratic? && right.Quadratic?)
    ensures !Sub(left, right, p).NonQuadratic? ==>
              Cong(Eval(Sub(left, right, p), s), Eval(left, s) - Eval(right, s), p)
  {
    hide Cong, Dot, Add, Mul, AddInto;
    var minus := Mul(Number(-1), right, p);
    MinusForm(right, p);
    AddMeaning(left, minus, s, p);
    if !Sub(left, right, p).NonQuadratic? {
      MulMeaning(Number(-1), right, s, p);
      hide Eval;
      CongRefl(Eval(left, s), p);
      assert -1 * Eval(right, s) == -Eval(right, s);
      EvalNumber(Number(-1), s);
      CongAdd(Eval(left, s), Eval(left, s), Eval(minus, s), -Eval(right, s), p);
      CongTrans(Eval(Sub(left, right, p), s), Eval(left, s) + Eval(minus, s), Eval(left, s) - Eval(right, s), p);
    }
  }

  lemma MinusForm(right: Expr, p: int)
    requires p > 0 && WellFormed(right)
    ensures Mul(Number(-1), right, p).NonQuadratic? <==> right.NonQuadratic?
    ensures Mul(Number(-1), right, p).Quadratic? <==> right.Quadratic?
  {
  }

  /** A quotient by a number times that number is the dividend; it errs exactly on a zero divisor, and has no
      representation exactly when the divisor is not a number or the dividend has none. */
  lemma DivMeaning(left: Expr, right: Expr, s: Assignment, p: int)
    requires Prime(p) && WellFormed(left) && WellFormed(right)
    ensures Div(left, right, p).None? <==> !left.NonQuadratic? && right.Number? && Cong(right.value, 0, p)
    ensures Div(left, right, p) == Some(NonQuadratic) <==> left.NonQuadratic? || !right.Number?
    ensures Div(left, right, p).Some? && Div(left, right, p).value != NonQuadratic ==>
              Cong(Eval(Div(left, right, p).value, s) * Eval(right, s), Eval(left, s), p)
  {
    hide Cong, Dot;
    if !left.NonQuadratic? && right.Number? && !Cong(right.value, 0, p) && !left.Number? {
      var e := if left.Signal? then Linear(Lift(left, p)) else left;
      var i := M.Div(1, right.value, p).value;
      assert Cong(Eval(e, s), Eval(left, s), p) by {
        if left.Signal? { LiftMeaning(left, s, p); } else { CongRefl(Eval(e, s), p); }
      }
      ScaleByForm(e, e, p);
      QuotientMeaning(i, e, right.value, Eval(left, s), s, p);
    }
  }

  lemma QuotientMeaning(i: int, e: Expr, w: int, v: int, s: Assignment, p: int)
    requires p > 0 && WellFormed(e) && !e.NonQuadratic? && Cong(i * w, 1, p) && Cong(Eval(e, s), v, p)
    ensures Cong(Eval(ScaleBy(i, e, p), s) * w, v, p)
  {
    hide Cong, Eval, ScaleBy;
    ScaleByForm(e, e, p);
    ScaleByMeaning(i, e, s, p);
    var q, x := Eval(ScaleBy(i, e, p), s), Eval(e, s);
    CongRefl(w, p);
    CongMul(q, i * x, w, w, p);
    CongMul(x, v, i * w, 1, p);
    assert (i * x) * w == x * (i * w);
    CongTrans(q * w, x * (i * w), v * 1, p);
  }
}
