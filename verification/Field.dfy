/** Arithmetic modulo a prime, the ground every other module stands on.
    Congruence is stated with an explicit multiple so that proofs can name it. */
module Field {

  ghost predicate Multiple(x: int, y: int, p: int, k: int) {
    x - y == k * p
  }

  /** x and y are the same field element. */
  ghost predicate Cong(x: int, y: int, p: int) {
    exists k :: Multiple(x, y, p, k)
  }

  ghost predicate Prime(p: int) {
    p >= 2 && forall d :: 2 <= d < p ==> p % d != 0
  }

  lemma CongBy(x: int, y: int, p: int, k: int)
    requires x - y == k * p
    ensures Cong(x, y, p)
  {
    assert Multiple(x, y, p, k);
  }

  lemma CongRefl(x: int, p: int)
    ensures Cong(x, x, p)
  {
    CongBy(x, x, p, 0);
  }

  lemma CongSym(x: int, y: int, p: int)
    requires Cong(x, y, p)
    ensures Cong(y, x, p)
  {
    var k :| Multiple(x, y, p, k);
    CongBy(y, x, p, -k);
  }

  lemma CongTrans(x: int, y: int, z: int, p: int)
    requires Cong(x, y, p) && Cong(y, z, p)
    ensures Cong(x, z, p)
  {
    var j :| Multiple(x, y, p, j);
    var k :| Multiple(y, z, p, k);
    assert x - z == (j + k) * p;
    CongBy(x, z, p, j + k);
  }

  lemma CongAdd(x: int, x': int, y: int, y': int, p: int)
    requires Cong(x, x', p) && Cong(y, y', p)
    ensures Cong(x + y, x' + y', p)
    ensures Cong(x - y, x' - y', p)
  {
    var j :| Multiple(x, x', p, j);
    var k :| Multiple(y, y', p, k);
    assert (x + y) - (x' + y') == (j + k) * p;
    assert (x - y) - (x' - y') == (j - k) * p;
    CongBy(x + y, x' + y', p, j + k);
    CongBy(x - y, x' - y', p, j - k);
  }

  lemma CongMul(x: int, x': int, y: int, y': int, p: int)
    requires Cong(x, x', p) && Cong(y, y', p)
    ensures Cong(x * y, x' * y', p)
  {
    var j :| Multiple(x, x', p, j);
    var k :| Multiple(y, y', p, k);
    calc {
      x * y - x' * y';
      (x - x') * y + x' * (y - y');
      (j * p) * y + x' * (k * p);
      (j * y) * p + (x' * k) * p;
      (j * y + x' * k) * p;
    }
    CongBy(x * y, x' * y', p, j * y + x' * k);
  }

  lemma CongMod(x: int, p: int)
    requires p > 0
    ensures Cong(x % p, x, p) && Cong(x, x % p, p)
  {
    assert x == (x / p) * p + x % p;
    CongBy(x, x % p, p, x / p);
    CongSym(x, x % p, p);
  }

  /** Two congruences with the same sides up to congruence are the same statement. */
  lemma CongSame(x: int, x': int, y: int, y': int, p: int)
    requires Cong(x, x', p) && Cong(y, y', p)
    ensures Cong(x, y, p) <==> Cong(x', y', p)
  {
    CongSym(x, x', p);
    CongSym(y, y', p);
    if Cong(x, y, p) {
      CongTrans(x', x, y, p);
      CongTrans(x', y, y', p);
    }
    if Cong(x', y', p) {
      CongTrans(x, x', y', p);
      CongTrans(x, y', y, p);
    }
  }

  /** x = y exactly when x - y vanishes. */
  lemma CongDiff(x: int, y: int, p: int)
    ensures Cong(x, y, p) <==> Cong(x - y, 0, p)
  {
    assert (x - y) - 0 == x - y;
    if Cong(x, y, p) {
      var k :| Multiple(x, y, p, k);
      CongBy(x - y, 0, p, k);
    }
    if Cong(x - y, 0, p) {
      var k :| Multiple(x - y, 0, p, k);
      CongBy(x, y, p, k);
    }
  }

  lemma MultipleBound(k: int, p: int)
    requires p > 0
    ensures k >= 1 ==> k * p >= p
    ensures k <= -1 ==> k * p <= -p
  {
  }

  /** A canonical representative is zero in the field only if it is the number zero. */
  lemma CanonicalZero(x: int, p: int)
    requires 0 <= x < p
    ensures Cong(x, 0, p) <==> x == 0
  {
    if Cong(x, 0, p) {
      var k :| Multiple(x, 0, p, k);
      MultipleBound(k, p);
    } else if x == 0 {
      CongRefl(0, p);
    }
  }

  /** Extended Euclid: a Bezout combination that divides both arguments. */
  function ExtendedGcd(a: nat, b: nat): (r: (nat, int, int))
    requires a > 0 || b > 0
    ensures r.0 > 0 && a * r.1 + b * r.2 == r.0
    ensures a % r.0 == 0 && b % r.0 == 0
    decreases b
  {
    if b == 0 then
      (a, 1, 0)
    else
      var (g, x, y) := ExtendedGcd(b, a % b);
      assert a * y + b * (x - (a / b) * y) == g by { BezoutStep(a, b, g, x, y); }
      assert a % g == 0 by { DivisorStep(a, b, g); }
      (g, y, x - (a / b) * y)
  }

  lemma BezoutStep(a: nat, b: nat, g: nat, x: int, y: int)
    requires b > 0 && b * x + (a % b) * y == g
    ensures a * y + b * (x - (a / b) * y) == g
  {
    var q := a / b;
    assert a == b * q + a % b;
    calc {
      a * y + b * (x - q * y);
      { assert b * (x - q * y) == b * x - b * (q * y); }
      a * y + b * x - b * (q * y);
      { assert a * y == (b * q + a % b) * y == (b * q) * y + (a % b) * y; }
      (b * q) * y + (a % b) * y + b * x - b * (q * y);
      { assert (b * q) * y == b * (q * y); }
      g;
    }
  }

  lemma DivisorStep(a: nat, b: nat, g: nat)
    requires b > 0 && g > 0 && b % g == 0 && (a % b) % g == 0
    ensures a % g == 0
  {
    var q, m, n := a / b, b / g, (a % b) / g;
    assert a == (g * m) * q + g * n == g * (m * q + n);
    MultipleRem(m * q + n, g);
  }

  lemma MultipleRem(k: int, g: nat)
    requires g > 0
    ensures (g * k) % g == 0
  {
    var x := g * k;
    var q, r := x / g, x % g;
    assert x == g * q + r && 0 <= r < g;
    assert r == g * (k - q);
    MultipleBound(k - q, g);
  }

  /** The inverse the big-integer library computes: absent when the greatest common divisor is not one. */
  function ModInverse(a: int, p: int): (r: Option<int>)
    requires p >= 2
    ensures r.Some? ==> 0 <= r.value < p && Cong(a * r.value, 1, p)
    ensures Prime(p) ==> (r.Some? <==> !Cong(a, 0, p))
  {
    var m := a % p;
    var (g, x, _) := ExtendedGcd(m, p);
    if g == 1 then
      assert Cong(a * (x % p), 1, p) by { InverseFromBezout(a, p); }
      assert Prime(p) ==> !Cong(a, 0, p) by { if Prime(p) { InvertibleNonzero(a, x % p, p); } }
      Some(x % p)
    else
      assert Prime(p) ==> Cong(a, 0, p) by { if Prime(p) { CommonFactor(a, p); } }
      None
  }

  datatype Option<+T> = None | Some(value: T)

  lemma InverseFromBezout(a: int, p: int)
    requires p >= 2 && ExtendedGcd(a % p, p).0 == 1
    ensures Cong(a * (ExtendedGcd(a % p, p).1 % p), 1, p)
  {
    var m := a % p;
    var (g, x, y) := ExtendedGcd(m, p);
    assert m * x - 1 == (-y) * p;
    CongBy(m * x, 1, p, -y);
    CongMod(a, p);
    CongMod(x, p);
    CongMul(a, m, x % p, x, p);
    CongTrans(a * (x % p), m * x, 1, p);
  }

  lemma InvertibleNonzero(a: int, b: int, p: int)
    requires p >= 2 && Cong(a * b, 1, p)
    ensures !Cong(a, 0, p)
  {
    if Cong(a, 0, p) {
      CongRefl(b, p);
      CongMul(a, 0, b, b, p);
      CongSym(a * b, 0, p);
      CongTrans(0, a * b, 1, p);
      CongSym(0, 1, p);
      CanonicalZero(1, p);
    }
  }

  lemma DivisorBound(n: nat, d: nat)
    requires n > 0 && d > 0 && n % d == 0
    ensures d <= n
  {
    assert n == (n / d) * d;
    MultipleBound(n / d, d);
  }

  lemma CommonFactor(a: int, p: int)
    requires Prime(p) && ExtendedGcd(a % p, p).0 != 1
    ensures Cong(a, 0, p)
  {
    var m := a % p;
    var g := ExtendedGcd(m, p).0;
    DivisorBound(p, g);
    assert g == p;
    if m > 0 {
      DivisorBound(m, g);
    }
    CongMod(a, p);
  }

  lemma PrimePositive(p: int)
    requires Prime(p)
    ensures p >= 2
  {
  }

  /** No zero divisors: cancelling a nonzero factor keeps a vanishing product vanishing. */
  lemma NoZeroDivisors(a: int, b: int, p: int)
    requires Prime(p) && !Cong(a, 0, p)
    ensures Cong(a * b, 0, p) <==> Cong(b, 0, p)
  {
    var i := ModInverse(a, p).value;
    CongRefl(a, p);
    CongRefl(i, p);
    CongRefl(b, p);
    if Cong(b, 0, p) {
      CongMul(a, a, b, 0, p);
    }
    if Cong(a * b, 0, p) {
      CongMul(i, i, a * b, 0, p);
      CongMul(a * i, 1, b, b, p);
      assert i * (a * b) == (a * i) * b;
      CongSym((a * i) * b, 1 * b, p);
      CongTrans(b, (a * i) * b, 0, p);
    }
  }

  lemma NonzeroProduct(a: int, b: int, p: int)
    requires Prime(p) && !Cong(a, 0, p) && !Cong(b, 0, p)
    ensures !Cong(a * b, 0, p)
  {
    NoZeroDivisors(a, b, p);
  }
}
