/** The prime-field operations on big integers (modular_arithmetic.rs). */
module ModularArithmetic {
  import opened Field

  /** Remainder truncated toward zero, as the big-integer library computes it. */
  function TruncRem(a: int, b: int): (r: int)
    requires b > 0
    ensures -b < r < b && (a >= 0 ==> r >= 0) && (a <= 0 ==> r <= 0)
    ensures r % b == a % b
  {
    RemTwice(a, b);
    RemTwice(-a, b);
    NegatedRem(a, b);
    if a >= 0 then a % b else -((-a) % b)
  }

  lemma RemTwice(a: int, b: int)
    requires b > 0
    ensures 0 <= a % b < b && (a % b) % b == a % b
  {
    SameRem(a % b, a, b, a / b);
  }

  lemma NegatedRem(a: int, b: int)
    requires b > 0
    ensures (-((-a) % b)) % b == a % b
  {
    var r := (-a) % b;
    var q := (-a) / b;
    assert -a == b * q + r;
    SameRem(-r, a, b, -q);
  }

  lemma SameRem(x: int, y: int, b: int, k: int)
    requires b > 0 && y - x == b * k
    ensures x % b == y % b
  {
    var qx, qy := x / b, y / b;
    assert x == b * qx + x % b && y == b * qy + y % b;
    assert y % b - x % b == b * k + b * qx - b * qy == b * (k + qx - qy);
    MultipleBound(k + qx - qy, b);
    assert (k + qx - qy) * b == b * (k + qx - qy);
  }

  /** The source adds the modulus to a truncated remainder and reduces again:
      the result is the Euclidean remainder, for negative arguments too. */
  function Modulus(a: int, b: int): (r: int)
    requires b > 0
    ensures r == a % b
  {
    var t := TruncRem(a, b);
    SameRem(t, t + b, b, 1);
    TruncRem(t + b, b)
  }

  function Add(left: int, right: int, p: int): (r: int)
    requires p > 0
    ensures 0 <= r < p && Cong(r, left + right, p)
  {
    hide Cong;
    CongMod(left + right, p);
    Modulus(left + right, p)
  }

  function Mul(left: int, right: int, p: int): (r: int)
    requires p > 0
    ensures 0 <= r < p && Cong(r, left * right, p)
  {
    hide Cong;
    CongMod(left * right, p);
    Modulus(left * right, p)
  }

  function Sub(left: int, right: int, p: int): (r: int)
    requires p > 0
    ensures 0 <= r < p && Cong(r, left - right, p)
  {
    hide Cong;
    CongMod(left - right, p);
    Modulus(left - right, p)
  }

  /** Division; None is the division-by-zero error. */
  function Div(left: int, right: int, p: int): (r: Option<int>)
    requires p >= 2
    ensures r.Some? ==> 0 <= r.value < p && Cong(r.value * right, left, p)
    ensures Prime(p) ==> (r.Some? <==> !Cong(right, 0, p))
  {
    match ModInverse(right, p)
    case None => None
    case Some(i) =>
      assert Cong(Mul(left, i, p) * right, left, p) by { DivSound(left, right, i, p); }
      Some(Mul(left, i, p))
  }

  lemma DivSound(left: int, right: int, i: int, p: int)
    requires p >= 2 && Cong(right * i, 1, p)
    ensures Cong(Mul(left, i, p) * right, left, p)
  {
    CongRefl(right, p);
    CongRefl(left, p);
    CongMul(Mul(left, i, p), left * i, right, right, p);
    CongMul(left, left, right * i, 1, p);
    assert left * (right * i) == (left * i) * right;
    CongTrans(Mul(left, i, p) * right, (left * i) * right, left * 1, p);
  }

  /** The product of a run of values, unreduced. */
  ghost function Product(values: seq<int>): int {
    if values == [] then 1 else Product(values[..|values| - 1]) * values[|values| - 1]
  }

  lemma {:induction false} ProductNonzero(values: seq<int>, p: int)
    requires Prime(p) && forall i :: 0 <= i < |values| ==> !Cong(values[i], 0, p)
    ensures !Cong(Product(values), 0, p)
  {
    if values == [] {
      CanonicalZero(1, p);
    } else {
      ProductNonzero(values[..|values| - 1], p);
      NonzeroProduct(Product(values[..|values| - 1]), values[|values| - 1], p);
    }
  }

  ghost predicate Inverse(x: int, y: int, p: int) {
    Cong(x * y, 1, p)
  }

  /** partials[i] is the product of the first i values, each step one multiplication. */
  ghost predicate Partial(partials: seq<int>, values: seq<int>, i: nat, p: int)
    requires i < |partials| && i <= |values|
  {
    && Cong(partials[i], Product(values[..i]), p)
    && (i > 0 ==> Cong(partials[i], partials[i - 1] * values[i - 1], p))
  }

  lemma NextPartial(partials: seq<int>, values: seq<int>, i: nat, p: int)
    requires p > 0 && i + 1 < |partials| && i < |values| && Partial(partials, values, i, p)
    requires partials[i + 1] == Mul(partials[i], values[i], p)
    ensures Partial(partials, values, i + 1, p)
  {
    hide Cong;
    assert values[..i + 1][..i] == values[..i];
    CongRefl(values[i], p);
    CongMul(partials[i], Product(values[..i]), values[i], values[i], p);
    CongTrans(partials[i + 1], partials[i] * values[i], Product(values[..i]) * values[i], p);
  }

  lemma LastPartial(partials: seq<int>, values: seq<int>, p: int)
    requires Prime(p) && |partials| == |values| + 1 && Partial(partials, values, |values|, p)
    requires forall i :: 0 <= i < |values| ==> !Cong(values[i], 0, p)
    ensures !Cong(partials[|values|], 0, p)
  {
    hide Cong;
    assert values[..|values|] == values;
    ProductNonzero(values, p);
    CongRefl(0, p);
    CongSame(partials[|values|], Product(values), 0, 0, p);
  }

  lemma MulIs(a: int, b: int, p: int)
    requires p > 0
    ensures Cong(Mul(a, b, p), a * b, p)
  {
  }

  lemma TripleProduct(a: int, b: int, c: int)
    ensures (a * b) * c == b * (a * c) == (b * c) * a
  {
  }

  /** An inverse of partials[i+1] yields the inverse of values[i] and an inverse of partials[i]. */
  lemma InverseStep(partial: int, value: int, next: int, inverse: int, p: int)
    requires p > 0 && Cong(next, partial * value, p) && Inverse(inverse, next, p)
    ensures Inverse(Mul(partial, inverse, p), value, p)
    ensures Inverse(Mul(inverse, value, p), partial, p)
  {
    hide Cong, Mul;
    CongRefl(inverse, p);
    CongRefl(value, p);
    CongRefl(partial, p);
    MulIs(partial, inverse, p);
    MulIs(inverse, value, p);
    CongMul(inverse, inverse, next, partial * value, p);
    CongSym(inverse * next, inverse * (partial * value), p);
    CongTrans(inverse * (partial * value), inverse * next, 1, p);
    CongMul(Mul(partial, inverse, p), partial * inverse, value, value, p);
    CongMul(Mul(inverse, value, p), inverse * value, partial, partial, p);
    TripleProduct(partial, inverse, value);
    CongTrans(Mul(partial, inverse, p) * value, (partial * inverse) * value, 1, p);
    CongTrans(Mul(inverse, value, p) * partial, (inverse * value) * partial, 1, p);
  }

  /** Batch inversion with one modular inverse. The result has one extra trailing zero, as in the source. */
  method MultiInv(values: seq<int>, p: int) returns (outputs: seq<int>)
    requires Prime(p) && forall i :: 0 <= i < |values| ==> !Cong(values[i], 0, p)
    ensures |outputs| == |values| + 1 && outputs[|values|] == 0
    ensures forall i :: 0 <= i < |values| ==> 0 <= outputs[i] < p && Inverse(outputs[i], values[i], p)
  {
    hide Cong, Inverse;
    assert p >= 2;
    var partials := [1];
    CongRefl(1, p);
    for i := 0 to |values|
      invariant |partials| == i + 1
      invariant forall j :: 0 <= j <= i ==> Partial(partials, values, j, p)
    {
      hide Partial;
      ghost var previous := partials;
      partials := partials + [Mul(partials[|partials| - 1], values[i], p)];
      forall j | 0 <= j <= i
        ensures Partial(partials, values, j, p)
      {
        SamePartial(previous, partials, values, j, p);
      }
      NextPartial(partials, values, i, p);
    }
    LastPartial(partials, values, p);
    var inverse := Div(1, partials[|partials| - 1], p).value;
    FromDiv(partials[|partials| - 1], p);
    outputs := seq(|partials|, _ => 0);
    var i := |values|;
    while i > 0
      invariant 0 <= i <= |values| && |outputs| == |values| + 1 && outputs[|values|] == 0
      invariant Inverse(inverse, partials[i], p)
      invariant forall j :: i <= j < |values| ==> 0 <= outputs[j] < p && Inverse(outputs[j], values[j], p)
    {
      assert Partial(partials, values, i, p);
      InverseStep(partials[i - 1], values[i - 1], partials[i], inverse, p);
      outputs := outputs[i - 1 := Mul(partials[i - 1], inverse, p)];
      inverse := Mul(inverse, values[i - 1], p);
      i := i - 1;
    }
  }

  lemma SamePartial(shorter: seq<int>, longer: seq<int>, values: seq<int>, i: nat, p: int)
    requires shorter <= longer && i < |shorter| && i <= |values| && Partial(shorter, values, i, p)
    ensures Partial(longer, values, i, p)
  {
    hide Cong;
    assert longer[i] == shorter[i];
    if i > 0 { assert longer[i - 1] == shorter[i - 1]; }
  }

  lemma FromDiv(x: int, p: int)
    requires Prime(p) && !Cong(x, 0, p)
    ensures Div(1, x, p).Some? && Inverse(Div(1, x, p).value, x, p)
  {
  }
}
