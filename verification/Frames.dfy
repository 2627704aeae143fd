/** Frames of encoded substitutions and their application to constraints
    (build_encoded_fast_substitutions and fast_encoded_* in simplification_utils.rs). */
module Frames {
  import opened Field
  import opened LinearCombination
  import opened Algebra
  import opened Constraints
  import opened Elimination
  import opened SortedSets

  type Encoded = map<nat, Expr>

  /** The right-hand side an expression denotes once it is made a substitution again. */
  function To(e: Expr): LC {
    match e
    case Number(v) => map[0 := v]
    case Signal(k) => map[k := 1]
    case Linear(m) => m
    case _ => map[]
  }

  ghost predicate EncodedHolds(enc: Encoded, s: Assignment, p: int) {
    forall k :: k in enc ==> Holds(Substitution(k, To(enc[k])), s, p)
  }

  /** What build_encoded_fast_substitutions computes: a later entry for a signal replaces an earlier one. */
  function EncodedOf(subs: seq<Substitution>): Encoded {
    if subs == [] then map[]
    else EncodedOf(subs[..|subs| - 1])[subs[|subs| - 1].from := IntoExpr(subs[|subs| - 1].to)]
  }

  method BuildEncodedFastSubstitutions(fastSub: seq<Substitution>) returns (encoded: Encoded)
    ensures encoded == EncodedOf(fastSub)
  {
    encoded := map[];
    for i := 0 to |fastSub|
      invariant encoded == EncodedOf(fastSub[..i])
    {
      assert fastSub[..i + 1][..i] == fastSub[..i];
      encoded := encoded[fastSub[i].from := IntoExpr(fastSub[i].to)];
    }
    assert fastSub[..|fastSub|] == fastSub;
  }

  lemma IntoExprTo(m: LC, from: nat, s: Assignment, p: int)
    ensures Holds(Substitution(from, To(IntoExpr(m))), s, p) <==> Holds(Substitution(from, m), s, p)
    ensures To(IntoExpr(m)).Keys <= m.Keys + {0}
    ensures Canonical(m, p) && p > 1 ==> Canonical(To(IntoExpr(m)), p)
  {
    hide Dot, Cong;
    DotInit(m, s);
    if |m| == 1 {
      var k := OnlyKey(m);
      assert m == map[k := m[k]];
    }
  }

  /** The last definition of each signal is the one kept. */
  ghost predicate LastOf(subs: seq<Substitution>, k: nat, i: nat) {
    i < |subs| && subs[i].from == k && forall j :: i < j < |subs| ==> subs[j].from != k
  }

  lemma {:induction false} EncodedKeys(subs: seq<Substitution>, k: nat)
    ensures k in EncodedOf(subs) <==> exists i :: 0 <= i < |subs| && subs[i].from == k
  {
    hide IntoExpr;
    if subs != [] {
      var n := |subs| - 1;
      EncodedKeys(subs[..n], k);
      if i :| 0 <= i < n && subs[i].from == k {
        assert subs[..n][i].from == k;
      }
    }
  }

  lemma {:induction false} EncodedEntry(subs: seq<Substitution>, k: nat) returns (i: nat)
    requires k in EncodedOf(subs)
    ensures LastOf(subs, k, i) && EncodedOf(subs)[k] == IntoExpr(subs[i].to)
  {
    hide IntoExpr;
    i := |subs| - 1;
    if subs[i].from != k {
      var n := i;
      i := EncodedEntry(subs[..n], k);
      assert subs[..n][i] == subs[i];
      forall j | i < j < |subs|
        ensures subs[j].from != k
      {
        if j < n { assert subs[..n][j] == subs[j]; }
      }
    }
  }

  ghost predicate DistinctFroms(subs: seq<Substitution>) {
    forall i, j :: 0 <= i < j < |subs| ==> subs[i].from != subs[j].from
  }

  /** The map never claims more than the list. */
  lemma EncodedSound(subs: seq<Substitution>, s: Assignment, p: int)
    requires AllHold(subs, s, p)
    ensures EncodedHolds(EncodedOf(subs), s, p)
  {
    hide Holds, IntoExpr, To;
    var enc := EncodedOf(subs);
    forall k | k in enc
      ensures Holds(Substitution(k, To(enc[k])), s, p)
    {
      var i := EncodedEntry(subs, k);
      IntoExprTo(subs[i].to, k, s, p);
      assert subs[i] == Substitution(k, subs[i].to);
    }
  }

  /** When no signal is defined twice, the map says what the list says. */
  lemma EncodedMeaning(subs: seq<Substitution>, s: Assignment, p: int)
    requires DistinctFroms(subs)
    ensures EncodedHolds(EncodedOf(subs), s, p) <==> AllHold(subs, s, p)
  {
    hide Holds, IntoExpr, To;
    var enc := EncodedOf(subs);
    if AllHold(subs, s, p) { EncodedSound(subs, s, p); }
    if EncodedHolds(enc, s, p) {
      forall i | 0 <= i < |subs|
        ensures Holds(subs[i], s, p)
      {
        var k := subs[i].from;
        EncodedKeys(subs, k);
        var j := EncodedEntry(subs, k);
        assert j == i;
        IntoExprTo(subs[i].to, k, s, p);
        assert subs[i] == Substitution(k, subs[i].to);
      }
    }
  }

  // ---- Applying a frame

  /** Right-hand sides mention no signal the frame defines; the constant wire is never defined. */
  ghost predicate NonOverlapping(enc: Encoded) {
    0 !in enc && forall k :: k in enc ==> To(enc[k]).Keys !! enc.Keys && NewSubstitution(k, enc[k]).Some?
  }

  /** Substitute the signals of `pending`, least first. */
  function SubstAll(m: LC, enc: Encoded, pending: set<nat>, p: int): LC
    requires p > 0 && pending <= enc.Keys
    decreases pending
  {
    if pending == {} then m else
      var k := Least(pending);
      SubstAll(Subst(m, k, To(enc[k]), p), enc, pending - {k}, p)
  }

  lemma AddSwap(b: int, u: int, v: int, p: int)
    requires p > 0
    ensures M.Add(M.Add(b, u, p), v, p) == M.Add(M.Add(b, v, p), u, p)
  {
    hide Cong, M.Add;
    var x, y := M.Add(M.Add(b, u, p), v, p), M.Add(M.Add(b, v, p), u, p);
    assert Cong(x, M.Add(b, u, p) + v, p) && Cong(y, M.Add(b, v, p) + u, p);
    assert Cong(M.Add(b, u, p), b + u, p) && Cong(M.Add(b, v, p), b + v, p);
    assert 0 <= x < p && 0 <= y < p;
    CongRefl(u, p);
    CongRefl(v, p);
    CongAdd(M.Add(b, u, p), b + u, v, v, p);
    CongAdd(M.Add(b, v, p), b + v, u, u, p);
    CongTrans(x, M.Add(b, u, p) + v, b + u + v, p);
    CongTrans(y, M.Add(b, v, p) + u, b + u + v, p);
    CongSym(y, b + u + v, p);
    CongTrans(x, b + u + v, y, p);
    CanonicalEqual(x, y, p);
  }

  lemma CanonicalEqual(x: int, y: int, p: int)
    requires 0 <= x < p && 0 <= y < p && Cong(x, y, p)
    ensures x == y
  {
    var k :| Multiple(x, y, p, k);
    MultipleBound(k, p);
  }

  /** The value a substitution leaves at signal k. */
  function Left(m: LC, x: nat, to: LC, k: nat, p: int): int
    requires p > 0 && x in m
  {
    if k in to then M.Add(if k == x then 0 else At(m, k), M.Mul(to[k], m[x], p), p) else At(m, k)
  }

  lemma SubstAt(m: LC, x: nat, to: LC, k: nat, p: int)
    requires p > 0 && x in Init(m) && k in Subst(m, x, to, p)
    ensures Subst(m, x, to, p)[k] == Left(Init(m), x, Init(to), k, p)
  {
    hide M.Add, M.Mul;
  }

  lemma SubstNothing(m: LC, x: nat, to: LC, p: int)
    requires p > 0 && x !in Init(m)
    ensures Subst(m, x, to, p) == Init(m)
  {
  }

  lemma SubstInit(m: LC, x: nat, to: LC, p: int)
    requires p > 0
    ensures Subst(Init(m), x, to, p) == Subst(m, x, to, p)
  {
  }

  lemma SubstClosed(m: LC, x: nat, to: LC, p: int)
    requires p > 0
    ensures Init(Subst(m, x, to, p)) == Subst(m, x, to, p)
  {
    hide Subst;
  }

  /** Two substitutions that do not mention each other's signals commute. */
  lemma SubstCommute(m: LC, x: nat, tx: LC, y: nat, ty: LC, p: int)
    requires p > 0 && x != 0 && y != 0 && x != y
    requires x !in tx && y !in tx && x !in ty && y !in ty
    ensures Subst(Subst(m, x, tx, p), y, ty, p) == Subst(Subst(m, y, ty, p), x, tx, p)
  {
    hide Subst, Init;
    var mx, my := Subst(m, x, tx, p), Subst(m, y, ty, p);
    SubstClosed(m, x, tx, p);
    SubstClosed(m, y, ty, p);
    SubstInit(m, x, tx, p);
    SubstInit(m, y, ty, p);
    if x !in Init(m) {
      SubstNothing(m, x, tx, p);
      SubstNothing(my, x, tx, p);
    } else if y !in Init(m) {
      SubstNothing(m, y, ty, p);
      SubstNothing(mx, y, ty, p);
    } else {
      BothCommute(m, x, tx, y, ty, p);
    }
  }

  /** The value after substituting first x and then y. */
  function LeftTwice(m: LC, x: nat, tx: LC, y: nat, ty: LC, k: nat, p: int): int
    requires p > 0 && x in m && y in m
  {
    var base := if k == x || k == y then 0 else At(m, k);
    var once := if k in tx then M.Add(base, M.Mul(tx[k], m[x], p), p) else base;
    if k in ty then M.Add(once, M.Mul(ty[k], m[y], p), p) else once
  }

  lemma LeftTwiceSwap(m: LC, x: nat, tx: LC, y: nat, ty: LC, k: nat, p: int)
    requires p > 0 && x in m && y in m
    ensures LeftTwice(m, x, tx, y, ty, k, p) == LeftTwice(m, y, ty, x, tx, k, p)
  {
    hide M.Add, M.Mul;
    if k in tx && k in ty {
      AddSwap(if k == x || k == y then 0 else At(m, k), M.Mul(tx[k], m[x], p), M.Mul(ty[k], m[y], p), p);
    }
  }

  lemma TwoSteps(m: LC, x: nat, tx: LC, y: nat, ty: LC, k: nat, p: int)
    requires p > 0 && x != 0 && y != 0 && x != y && x in Init(m) && y in Init(m)
    requires x !in tx && y !in tx && x !in ty && y !in ty && k in Subst(Subst(m, x, tx, p), y, ty, p)
    ensures Subst(Subst(m, x, tx, p), y, ty, p)[k] == LeftTwice(Init(m), x, Init(tx), y, Init(ty), k, p)
  {
    hide Subst, Init, M.Add, M.Mul;
    var mx := Subst(m, x, tx, p);
    SubstClosed(m, x, tx, p);
    SubstAt(m, x, tx, y, p);
    SubstAt(mx, y, ty, k, p);
    if k in mx { SubstAt(m, x, tx, k, p); }
  }

  lemma TwoKeySets(m: LC, x: nat, tx: LC, y: nat, ty: LC, p: int)
    requires p > 0 && x != 0 && y != 0 && x != y && x in Init(m) && y in Init(m)
    requires x !in tx && y !in tx && x !in ty && y !in ty
    ensures forall k :: k in Subst(Subst(m, x, tx, p), y, ty, p) <==>
              (k in Init(m) && k != x && k != y) || k in Init(tx) || k in Init(ty)
  {
    hide Subst, Init;
    SubstClosed(m, x, tx, p);
  }

  lemma SameMap(one: LC, two: LC)
    requires forall k :: k in one <==> k in two
    requires forall k :: k in one && k in two ==> one[k] == two[k]
    ensures one == two
  {
  }

  lemma BothCommute(m: LC, x: nat, tx: LC, y: nat, ty: LC, p: int)
    requires p > 0 && x != 0 && y != 0 && x != y && x in Init(m) && y in Init(m)
    requires x !in tx && y !in tx && x !in ty && y !in ty
    ensures Subst(Subst(m, x, tx, p), y, ty, p) == Subst(Subst(m, y, ty, p), x, tx, p)
  {
    hide Subst, LeftTwice, Init;
    TwoKeySets(m, x, tx, y, ty, p);
    TwoKeySets(m, y, ty, x, tx, p);
    var one, two := Subst(Subst(m, x, tx, p), y, ty, p), Subst(Subst(m, y, ty, p), x, tx, p);
    forall k | k in one && k in two
      ensures one[k] == two[k]
    {
      TwoSteps(m, x, tx, y, ty, k, p);
      TwoSteps(m, y, ty, x, tx, k, p);
      LeftTwiceSwap(Init(m), x, Init(tx), y, Init(ty), k, p);
    }
    SameMap(one, two);
  }

  /** Any signal may be substituted first. */
  lemma {:induction false} AnyFirst(m: LC, enc: Encoded, pending: set<nat>, k: nat, p: int)
    requires p > 0 && NonOverlapping(enc) && pending <= enc.Keys && k in pending
    ensures SubstAll(m, enc, pending, p) == SubstAll(Subst(m, k, To(enc[k]), p), enc, pending - {k}, p)
    decreases pending
  {
    hide Subst, To;
    var l := Least(pending);
    if l != k {
      var less := pending - {l};
      AnyFirst(Subst(m, l, To(enc[l]), p), enc, less, k, p);
      SubstCommute(m, l, To(enc[l]), k, To(enc[k]), p);
      AnyFirst(Subst(m, k, To(enc[k]), p), enc, pending - {k}, l, p);
      assert pending - {k} - {l} == less - {k};
    }
  }

  function ApplyPending(c: Constraint, enc: Encoded, pending: set<nat>, p: int): Constraint
    requires p > 0 && pending <= enc.Keys
  {
    Constraint(SubstAll(c.a, enc, pending, p), SubstAll(c.b, enc, pending, p), SubstAll(c.c, enc, pending, p))
  }

  /** The frame applied to a constraint: every signal of the constraint it defines is replaced. */
  function ApplyFrame(c: Constraint, enc: Encoded, p: int): Constraint
    requires p > 0
  {
    ApplyPending(c, enc, Signals(c) * enc.Keys, p)
  }

  lemma NothingPending(c: Constraint, enc: Encoded, p: int)
    requires p > 0
    ensures ApplyPending(c, enc, {}, p) == c
  {
  }

  /** The signals are visited in an arbitrary order; the result does not depend on it. */
  method FastEncodedConstraintSubstitution(c: Constraint, enc: Encoded, p: int) returns (r: Constraint, applied: bool)
    requires p > 0 && NonOverlapping(enc)
    ensures r == ApplyFrame(c, enc, p)
    ensures applied <==> !(Signals(c) !! enc.Keys)
  {
    hide Subst, SubstAll, To, NewSubstitution, NonOverlapping, Signals;
    r, applied := c, false;
    var signals := Signals(c);
    ghost var pending := signals * enc.Keys;
    while signals != {}
      invariant signals <= Signals(c) && pending == signals * enc.Keys
      invariant ApplyPending(r, enc, pending, p) == ApplyFrame(c, enc, p)
      invariant applied <==> !((Signals(c) - signals) !! enc.Keys)
      decreases signals
    {
      var signal :| signal in signals;
      signals := signals - {signal};
      if signal in enc {
        FrameEntry(enc, signal);
        var sub := NewSubstitution(signal, enc[signal]).value;
        AnyFirst(r.a, enc, pending, signal, p);
        AnyFirst(r.b, enc, pending, signal, p);
        AnyFirst(r.c, enc, pending, signal, p);
        r := Apply(r, sub, p);
        applied := true;
        assert pending - {signal} == signals * enc.Keys;
      } else {
        assert pending == signals * enc.Keys;
      }
      pending := signals * enc.Keys;
    }
    assert pending == {};
    NothingPending(r, enc, p);
  }

  lemma FrameEntry(enc: Encoded, k: nat)
    requires NonOverlapping(enc) && k in enc
    ensures k != 0 && k !in To(enc[k])
    ensures NewSubstitution(k, enc[k]) == Some(Substitution(k, To(enc[k])))
  {
  }

  // ---- What applying a frame means

  lemma {:induction false} SubstAllMeaning(m: LC, enc: Encoded, pending: set<nat>, s: Assignment, p: int)
    requires p > 0 && pending <= enc.Keys && EncodedHolds(enc, s, p)
    ensures Cong(Dot(SubstAll(m, enc, pending, p), s), Dot(m, s), p)
    decreases pending
  {
    hide Cong, Dot, Subst, To;
    if pending == {} {
      CongRefl(Dot(m, s), p);
    } else {
      var k := Least(pending);
      var next := Subst(m, k, To(enc[k]), p);
      assert Holds(Substitution(k, To(enc[k])), s, p);
      DotSubst(m, s, k, To(enc[k]), p);
      SubstAllMeaning(next, enc, pending - {k}, s, p);
      CongTrans(Dot(SubstAll(m, enc, pending, p), s), Dot(next, s), Dot(m, s), p);
    }
  }

  /** Where the frame holds, applying it does not change whether a constraint holds. */
  lemma FrameMeaning(c: Constraint, enc: Encoded, s: Assignment, p: int)
    requires p > 0 && EncodedHolds(enc, s, p)
    ensures Sat(ApplyFrame(c, enc, p), s, p) <==> Sat(c, s, p)
  {
    hide Cong, Dot, SubstAll, EncodedHolds;
    var pending := Signals(c) * enc.Keys;
    SubstAllMeaning(c.a, enc, pending, s, p);
    SubstAllMeaning(c.b, enc, pending, s, p);
    SubstAllMeaning(c.c, enc, pending, s, p);
    ResidualCong(ApplyFrame(c, enc, p), c, s, p);
    SatCong(ApplyFrame(c, enc, p), c, s, p);
  }

  /** The signals right-hand sides mention. */
  ghost function RhsKeys(enc: Encoded): set<nat> {
    set k, j | k in enc && j in To(enc[k]) :: j
  }

  ghost predicate CanonicalFrame(enc: Encoded, p: int) {
    forall k :: k in enc ==> Canonical(To(enc[k]), p)
  }

  lemma {:induction false} SubstAllKeys(m: LC, enc: Encoded, pending: set<nat>, p: int)
    requires p > 0 && NonOverlapping(enc) && pending <= enc.Keys && m.Keys * enc.Keys <= pending
    ensures SubstAll(m, enc, pending, p).Keys !! enc.Keys
    ensures SubstAll(m, enc, pending, p).Keys <= m.Keys + {0} + RhsKeys(enc)
    ensures Canonical(m, p) ==> Canonical(SubstAll(m, enc, pending, p), p)
    decreases pending
  {
    hide To;
    if pending == {} {
      assert forall k :: k in m.Keys && k in enc.Keys ==> k in m.Keys * enc.Keys;
    } else {
      var k := Least(pending);
      var next := Subst(m, k, To(enc[k]), p);
      hide Subst;
      forall j | j in next.Keys * enc.Keys
        ensures j in pending - {k}
      {
      }
      SubstAllKeys(next, enc, pending - {k}, p);
      assert forall j :: j in To(enc[k]) ==> j in RhsKeys(enc);
    }
  }

  /** Applying a frame removes every signal it defines and adds only right-hand side signals. */
  lemma FrameKeys(c: Constraint, enc: Encoded, p: int)
    requires p > 0 && NonOverlapping(enc)
    ensures Keys(ApplyFrame(c, enc, p)) !! enc.Keys
    ensures Keys(ApplyFrame(c, enc, p)) <= Keys(c) + {0} + RhsKeys(enc)
    ensures Canonical(c.a, p) && Canonical(c.b, p) && Canonical(c.c, p) ==>
              Canonical(ApplyFrame(c, enc, p).a, p) && Canonical(ApplyFrame(c, enc, p).b, p) &&
                Canonical(ApplyFrame(c, enc, p).c, p)
  {
    hide SubstAll, RhsKeys, NonOverlapping, To;
    assert 0 !in enc by { ZeroUndefined(enc); }
    var pending := Signals(c) * enc.Keys;
    SubstAllKeys(c.a, enc, pending, p);
    SubstAllKeys(c.b, enc, pending, p);
    SubstAllKeys(c.c, enc, pending, p);
  }

  lemma ZeroUndefined(enc: Encoded)
    requires NonOverlapping(enc)
    ensures 0 !in enc
  {
  }

  lemma {:induction false} SubstAllAgree(m: LC, enc: Encoded, less: Encoded, pending: set<nat>, p: int)
    requires p > 0 && pending <= enc.Keys && pending <= less.Keys && forall k :: k in pending ==> less[k] == enc[k]
    ensures SubstAll(m, enc, pending, p) == SubstAll(m, less, pending, p)
    decreases pending
  {
    hide Subst, To;
    if pending != {} {
      var k := Least(pending);
      SubstAllAgree(Subst(m, k, To(enc[k]), p), enc, less, pending - {k}, p);
    }
  }

  /** Dropping the entries a constraint does not mention does not change the result. */
  lemma FramePruned(c: Constraint, enc: Encoded, less: Encoded, p: int)
    requires p > 0 && less.Keys <= enc.Keys && forall k :: k in less ==> less[k] == enc[k]
    requires Signals(c) * enc.Keys <= less.Keys
    ensures ApplyFrame(c, enc, p) == ApplyFrame(c, less, p)
  {
    hide SubstAll;
    var pending := Signals(c) * enc.Keys;
    assert pending == Signals(c) * less.Keys;
    SubstAllAgree(c.a, enc, less, pending, p);
    SubstAllAgree(c.b, enc, less, pending, p);
    SubstAllAgree(c.c, enc, less, pending, p);
  }
}
