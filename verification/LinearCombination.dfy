/** Linear combinations of signals (the hash maps of algebra.rs) and their value under an assignment.
    Signal 0 is the constant wire. */
module LinearCombination {
  import opened Field
  import M = ModularArithmetic

  type LC = map<nat, int>
  type Assignment = nat -> int

  /** The constant wire carries one, whatever the assignment says. */
  function Val(s: Assignment, k: nat): int {
    if k == 0 then 1 else s(k)
  }

  function Term(s: Assignment, k: nat, v: int): int {
    v * Val(s, k)
  }

  /** The value of a combination, a finite sum; the order of summation is irrelevant (DotStep). */
  ghost function Dot(m: LC, s: Assignment): int
    decreases m.Keys
  {
    if m == map[] then 0 else
      var k :| k in m;
      assert k !in (m - {k}).Keys;
      Term(s, k, m[k]) + Dot(m - {k}, s)
  }

  lemma {:induction false} DotStep(m: LC, s: Assignment, k: nat)
    requires k in m
    ensures Dot(m, s) == Term(s, k, m[k]) + Dot(m - {k}, s)
    decreases m.Keys
  {
    hide Term;
    var j :| j in m && Dot(m, s) == Term(s, j, m[j]) + Dot(m - {j}, s);
    if j != k {
      assert j !in (m - {j}).Keys && k !in (m - {k}).Keys;
      DotStep(m - {j}, s, k);
      DotStep(m - {k}, s, j);
      assert m - {j} - {k} == m - {k} - {j};
    }
  }

  lemma DotEmpty(s: Assignment)
    ensures Dot(map[], s) == 0
  {
  }

  lemma Distribute(c: int, x: int, y: int)
    ensures c * (x + y) == c * x + c * y
  {
  }

  lemma DotInsert(m: LC, s: Assignment, k: nat, v: int)
    ensures Dot(m[k := v], s) == Term(s, k, v) + Dot(m - {k}, s)
  {
    hide Term;
    DotStep(m[k := v], s, k);
    assert m[k := v] - {k} == m - {k};
  }

  lemma DotAbsent(m: LC, s: Assignment, k: nat)
    requires k !in m
    ensures Dot(m - {k}, s) == Dot(m, s)
  {
    assert m - {k} == m;
  }

  /** Two assignments that agree on the signals of a combination give it the same value. */
  lemma {:induction false} DotAgree(m: LC, s: Assignment, t: Assignment)
    requires forall k :: k in m && k != 0 ==> s(k) == t(k)
    ensures Dot(m, s) == Dot(m, t)
    decreases m.Keys
  {
    if m != map[] {
      var k :| k in m;
      assert k !in (m - {k}).Keys;
      DotStep(m, s, k);
      DotStep(m, t, k);
      DotAgree(m - {k}, s, t);
    }
  }

  ghost predicate Canonical(m: LC, p: int) {
    forall k :: k in m ==> 0 <= m[k] < p
  }

  ghost predicate ZeroFree(m: LC) {
    forall k :: k in m ==> m[k] != 0
  }

  /** Every combination inside an expression mentions the constant wire. */
  function Init(m: LC): (r: LC)
    ensures 0 in r && r.Keys == m.Keys + {0}
    ensures forall k :: k in m ==> r[k] == m[k]
    ensures 0 !in m ==> r[0] == 0
  {
    if 0 in m then m else m[0 := 0]
  }

  function At(m: LC, k: nat): int {
    if k in m then m[k] else 0
  }

  function Scale(m: LC, c: int, p: int): (r: LC)
    requires p > 0
    ensures r.Keys == m.Keys && Canonical(r, p)
  {
    map k | k in m :: M.Mul(m[k], c, p)
  }

  function AddSymbol(m: LC, k: nat, v: int, p: int): (r: LC)
    requires p > 0
    ensures r.Keys == m.Keys + {k}
    ensures Canonical(m, p) ==> Canonical(r, p)
  {
    m[k := M.Add(At(m, k), v, p)]
  }

  function AddAll(extra: LC, base: LC, p: int): (r: LC)
    requires p > 0
    ensures r.Keys == base.Keys + extra.Keys
    ensures Canonical(base, p) ==> Canonical(r, p)
  {
    map k | k in base.Keys + extra.Keys :: if k in extra then M.Add(At(base, k), extra[k], p) else base[k]
  }

  function DropZeros(m: LC): (r: LC)
    ensures r.Keys <= m.Keys && ZeroFree(r)
    ensures forall k :: k in m && m[k] != 0 ==> k in r
    ensures forall k :: k in r ==> r[k] == m[k]
  {
    map k | k in m && m[k] != 0 :: m[k]
  }

  /** Replace one signal of a combination by another combination. */
  function Subst(m: LC, from: nat, to: LC, p: int): (r: LC)
    requires p > 0
    ensures forall k :: k in r <==>
            if from in Init(m) then (k in Init(m) && k != from) || k in Init(to) else k in Init(m)
    ensures Canonical(m, p) ==> Canonical(r, p)
  {
    var change := Init(m);
    if from in change then AddAll(Scale(Init(to), change[from], p), change - {from}, p) else change
  }

  lemma DotInit(m: LC, s: Assignment)
    ensures Dot(Init(m), s) == Dot(m, s)
  {
    if 0 !in m {
      DotInsert(m, s, 0, 0);
      DotAbsent(m, s, 0);
    }
  }

  lemma TermScale(s: Assignment, k: nat, v: int, c: int, p: int)
    requires p > 0
    ensures Cong(Term(s, k, M.Mul(v, c, p)), c * Term(s, k, v), p)
  {
    hide Cong;
    CongRefl(Val(s, k), p);
    CongMul(M.Mul(v, c, p), v * c, Val(s, k), Val(s, k), p);
    assert (v * c) * Val(s, k) == c * (v * Val(s, k));
  }

  lemma TermAdd(s: Assignment, k: nat, v: int, w: int, p: int)
    requires p > 0
    ensures Cong(Term(s, k, M.Add(v, w, p)), Term(s, k, v) + Term(s, k, w), p)
  {
    hide Cong;
    CongRefl(Val(s, k), p);
    CongMul(M.Add(v, w, p), v + w, Val(s, k), Val(s, k), p);
    assert (v + w) * Val(s, k) == v * Val(s, k) + w * Val(s, k);
  }

  lemma {:induction false} DotScale(m: LC, s: Assignment, c: int, p: int)
    requires p > 0
    ensures Cong(Dot(Scale(m, c, p), s), c * Dot(m, s), p)
    decreases m.Keys
  {
    hide Cong, Term, Dot, M.Mul;
    if m == map[] {
      DotEmpty(s);
      assert Scale(m, c, p) == map[];
      CongRefl(0, p);
    } else {
      var k :| k in m;
      assert k !in (m - {k}).Keys;
      var r := Scale(m, c, p);
      assert r - {k} == Scale(m - {k}, c, p);
      DotStep(m, s, k);
      DotStep(r, s, k);
      Distribute(c, Term(s, k, m[k]), Dot(m - {k}, s));
      DotScale(m - {k}, s, c, p);
      TermScale(s, k, m[k], c, p);
      CongAdd(Term(s, k, r[k]), c * Term(s, k, m[k]), Dot(r - {k}, s), c * Dot(m - {k}, s), p);
    }
  }

  lemma DotAddSymbol(m: LC, s: Assignment, k: nat, v: int, p: int)
    requires p > 0
    ensures Cong(Dot(AddSymbol(m, k, v, p), s), Dot(m, s) + Term(s, k, v), p)
  {
    hide Cong;
    var w := M.Add(At(m, k), v, p);
    DotInsert(m, s, k, w);
    if k in m {
      DotStep(m, s, k);
    } else {
      DotAbsent(m, s, k);
    }
    TermAdd(s, k, At(m, k), v, p);
    CongRefl(Dot(m - {k}, s), p);
    CongAdd(Term(s, k, w), Term(s, k, At(m, k)) + Term(s, k, v), Dot(m - {k}, s), Dot(m - {k}, s), p);
  }

  lemma AddNothing(base: LC, p: int)
    requires p > 0
    ensures AddAll(map[], base, p) == base
  {
  }

  lemma AddOneMore(extra: LC, base: LC, k: nat, p: int)
    requires p > 0 && k in extra
    ensures AddAll(extra, base, p) == AddSymbol(AddAll(extra - {k}, base, p), k, extra[k], p)
  {
    hide M.Add;
  }

  lemma {:induction false} DotAddAll(extra: LC, base: LC, s: Assignment, p: int)
    requires p > 0
    ensures Cong(Dot(AddAll(extra, base, p), s), Dot(base, s) + Dot(extra, s), p)
    decreases extra.Keys
  {
    hide Cong, Term, Dot, AddAll, AddSymbol;
    if extra == map[] {
      DotEmpty(s);
      AddNothing(base, p);
      CongRefl(Dot(base, s), p);
    } else {
      var k :| k in extra;
      var less := extra - {k};
      assert k !in less.Keys;
      var r := AddAll(less, base, p);
      AddOneMore(extra, base, k, p);
      DotAddAll(less, base, s, p);
      DotAddSymbol(r, s, k, extra[k], p);
      DotStep(extra, s, k);
      CongRefl(Term(s, k, extra[k]), p);
      CongAdd(Dot(r, s), Dot(base, s) + Dot(less, s), Term(s, k, extra[k]), Term(s, k, extra[k]), p);
      CongTrans(Dot(AddAll(extra, base, p), s), Dot(r, s) + Term(s, k, extra[k]), Dot(base, s) + Dot(extra, s), p);
    }
  }

  lemma {:induction false} DotDropZeros(m: LC, s: Assignment)
    ensures Dot(DropZeros(m), s) == Dot(m, s)
    decreases m.Keys
  {
    if m != map[] {
      var k :| k in m;
      assert k !in (m - {k}).Keys;
      DotStep(m, s, k);
      DotDropZeros(m - {k}, s);
      if m[k] == 0 {
        assert DropZeros(m) == DropZeros(m - {k});
      } else {
        assert DropZeros(m) - {k} == DropZeros(m - {k});
        DotStep(DropZeros(m), s, k);
      }
    }
  }

  /** Substituting `to` for `from` changes nothing under an assignment where they are equal. */
  lemma DotSubst(m: LC, s: Assignment, from: nat, to: LC, p: int)
    requires p > 0 && Cong(Val(s, from), Dot(to, s), p)
    ensures Cong(Dot(Subst(m, from, to, p), s), Dot(m, s), p)
  {
    hide Cong, Dot, M.Mul, M.Add, Scale, AddAll;
    var change := Init(m);
    DotInit(m, s);
    if from in change {
      var v := change[from];
      assert Term(s, from, v) == v * Val(s, from);
      hide Term;
      var extra := Scale(Init(to), v, p);
      var rest := change - {from};
      DotStep(change, s, from);
      DotAddAll(extra, rest, s, p);
      DotInit(to, s);
      DotScale(Init(to), s, v, p);
      CongRefl(v, p);
      CongSym(Val(s, from), Dot(to, s), p);
      CongMul(v, v, Dot(to, s), Val(s, from), p);
      CongTrans(Dot(extra, s), v * Dot(to, s), v * Val(s, from), p);
      CongRefl(Dot(rest, s), p);
      CongAdd(Dot(rest, s), Dot(rest, s), Dot(extra, s), v * Val(s, from), p);
      CongTrans(Dot(Subst(m, from, to, p), s), Dot(rest, s) + Dot(extra, s), Dot(rest, s) + v * Val(s, from), p);
    } else {
      CongRefl(Dot(m, s), p);
    }
  }
}
