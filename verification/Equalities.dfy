/** Eliminating signal = signal constraints (eq_simplification in constraint_simplification.rs). */
module Equalities {
  import opened Field
  import opened LinearCombination
  import opened Algebra
  import opened Constraints
  import opened Elimination
  import opened SortedSets
  import opened Clusters
  import opened ClusterFacts

  /** k*x - k*y = 0 for two signals x and y. */
  predicate IsEquality(c: Constraint, p: int)
    requires p > 0
  {
    && c.a == map[] && c.b == map[] && 0 !in c.c && |c.c| == 2
    && forall x, y :: x in c.c && y in c.c && x != y ==> c.c[x] == M.Mul(-1, c.c[y], p)
  }

  ghost predicate CleanEquality(c: Constraint, p: int) {
    p > 0 && CleanLinear(c, p) && IsEquality(c, p)
  }

  ghost predicate SameValue(x: nat, y: nat, s: Assignment, p: int) {
    Cong(Val(s, x), Val(s, y), p)
  }

  lemma TwoKeys(m: LC) returns (x: nat, y: nat)
    requires |m| == 2
    ensures x < y && m.Keys == {x, y}
  {
    x := Least(m.Keys);
    var rest := m.Keys - {x};
    assert |rest| == 1;
    y := Least(rest);
    assert |rest - {y}| == 0;
    assert rest == {y} && m.Keys == {x} + rest;
  }

  /** An equality constraint holds exactly when its two signals have the same value. */
  lemma EqualityMeaning(c: Constraint, x: nat, y: nat, s: Assignment, p: int)
    requires Prime(p) && CleanEquality(c, p) && x in c.c && y in c.c && x != y
    ensures Sat(c, s, p) <==> SameValue(x, y, s, p)
  {
    hide Dot, Cong, Sat;
    var a, b := TwoKeys(c.c);
    assert c.c - {x} - {y} == map[];
    DotStep(c.c, s, x);
    DotStep(c.c - {x}, s, y);
    DotEmpty(s);
    LinearSat(c, s, p);
    assert Dot(c.c, s) == c.c[x] * Val(s, x) + c.c[y] * Val(s, y);
    CanonicalZero(c.c[y], p);
    OppositeTerms(c.c[x], c.c[y], Val(s, x), Val(s, y), p);
  }

  lemma OppositeTerms(u: int, v: int, x: int, y: int, p: int)
    requires Prime(p) && Cong(u, -1 * v, p) && !Cong(v, 0, p)
    ensures Cong(u * x + v * y, 0, p) <==> Cong(x, y, p)
  {
    hide Cong;
    CongRefl(x, p);
    CongRefl(v * y, p);
    CongRefl(0, p);
    CongMul(u, -1 * v, x, x, p);
    CongAdd(u * x, (-1 * v) * x, v * y, v * y, p);
    assert (-1 * v) * x + v * y == v * (y - x);
    CongSame(u * x + v * y, v * (y - x), 0, 0, p);
    NoZeroDivisors(v, y - x, p);
    CongDiff(y, x, p);
    if Cong(x, y, p) { CongSym(x, y, p); }
    if Cong(y, x, p) { CongSym(y, x, p); }
  }

  /** The signal every other signal of a component is replaced by. */
  function Representative(S: set<nat>, forbidden: set<nat>): (r: nat)
    requires S != {}
    ensures r in S && (S * forbidden != {} ==> r in forbidden)
  {
    if S * forbidden != {} then Least(S * forbidden) else Least(S)
  }

  ghost predicate AllEqual(S: set<nat>, rep: nat, s: Assignment, p: int) {
    forall x :: x in S ==> SameValue(x, rep, s, p)
  }

  /** A connected set of equalities says that all its signals have one value. */
  lemma ConnectedAllEqual(cs: seq<Constraint>, rep: nat, s: Assignment, p: int)
    requires Prime(p) && Connected(cs) && (forall c :: c in cs ==> CleanEquality(c, p)) && rep in Sig(cs)
    ensures AllSat(cs, s, p) <==> AllEqual(Sig(cs), rep, s, p)
  {
    hide Sat, CleanEquality, SameValue, Prime;
    if AllSat(cs, s, p) {
      var T := set x | x in Sig(cs) && SameValue(x, rep, s, p);
      SameReflexive(rep, s, p);
      forall c | c in cs
        ensures Signals(c) !! T || Signals(c) <= T
      {
        SidesTogether(c, rep, s, p);
        InSig(cs, c);
      }
      assert rep in Sig(cs) * T;
      assert Closed(cs, T);
      assert Sig(cs) <= T;
    }
    if AllEqual(Sig(cs), rep, s, p) {
      forall i | 0 <= i < |cs|
        ensures Sat(cs[i], s, p)
      {
        InSig(cs, cs[i]);
        BothSame(cs[i], rep, s, p);
      }
    }
  }

  lemma SameReflexive(x: nat, s: Assignment, p: int)
    ensures SameValue(x, x, s, p)
  {
    CongRefl(Val(s, x), p);
  }

  lemma SidesTogether(c: Constraint, rep: nat, s: Assignment, p: int)
    requires Prime(p) && CleanEquality(c, p) && Sat(c, s, p)
    ensures (forall x :: x in Signals(c) ==> SameValue(x, rep, s, p)) || forall x :: x in Signals(c) ==>
            !SameValue(x, rep, s, p)
  {
    hide Sat, Cong;
    var x, y := TwoKeys(c.c);
    EqualityMeaning(c, x, y, s, p);
    CongRefl(Val(s, rep), p);
    CongSame(Val(s, x), Val(s, y), Val(s, rep), Val(s, rep), p);
  }

  lemma BothSame(c: Constraint, rep: nat, s: Assignment, p: int)
    requires Prime(p) && CleanEquality(c, p) && forall x :: x in Signals(c) ==> SameValue(x, rep, s, p)
    ensures Sat(c, s, p)
  {
    hide Sat, Cong;
    var x, y := TwoKeys(c.c);
    EqualityMeaning(c, x, y, s, p);
    assert x in Signals(c) && y in Signals(c);
    CongSym(Val(s, y), Val(s, rep), p);
    CongTrans(Val(s, x), Val(s, rep), Val(s, y), p);
  }

  lemma RenamingMeaning(x: nat, y: nat, s: Assignment, p: int)
    ensures Holds(Substitution(x, map[y := 1]), s, p) <==> SameValue(x, y, s, p)
  {
    DotSingle(y, 1, s);
  }

  // ---- One cluster

  /** The renamings of a component: every other signal that may go becomes the representative. */
  ghost predicate Renames(subs: seq<Substitution>, S: set<nat>, forbidden: set<nat>)
    requires S != {}
  {
    && (forall i :: 0 <= i < |subs| ==> subs[i].from in S - forbidden - {Representative(S, forbidden)})
    && (forall i :: 0 <= i < |subs| ==> subs[i].to == map[Representative(S, forbidden) := 1])
    && (forall i, j :: 0 <= i < j < |subs| ==> subs[i].from != subs[j].from)
    && (forall x :: x in S - forbidden - {Representative(S, forbidden)} ==>
      exists i :: 0 <= i < |subs| && subs[i].from == x)
  }

  /** The constraints kept: they identify the signals that must stay. */
  ghost predicate Keeps(cons: seq<Constraint>, S: set<nat>, forbidden: set<nat>, p: int)
    requires S != {}
  {
    && (forall i :: 0 <= i < |cons| ==> IsLinear(cons[i]) || (cons[i].a == ZERO && cons[i].b == ZERO))
    && (forall i :: 0 <= i < |cons| ==> Keys(cons[i]) <= (S * forbidden) + {0} && Canonical(cons[i].c, p))
    && forall s :: AllSat(cons, s, p) <==> AllEqual(S * forbidden, Representative(S, forbidden), s, p)
  }

  /** Renamings and kept constraints together say that the whole component has one value. */
  lemma ComponentMeaning(subs: seq<Substitution>, cons: seq<Constraint>, S: set<nat>, forbidden: set<nat>,
                         s: Assignment, p: int)
    requires S != {} && Renames(subs, S, forbidden) && Keeps(cons, S, forbidden, p)
    ensures AllHold(subs, s, p) && AllSat(cons, s, p) <==> AllEqual(S, Representative(S, forbidden), s, p)
  {
    hide Sat, Holds, SameValue, Representative;
    var rep := Representative(S, forbidden);
    SameReflexive(rep, s, p);
    if AllHold(subs, s, p) && AllSat(cons, s, p) {
      forall x | x in S
        ensures SameValue(x, rep, s, p)
      {
        if x !in forbidden && x != rep {
          assert x in S - forbidden - {rep};
          var i :| 0 <= i < |subs| && subs[i].from == x;
          RenamingMeaning(x, rep, s, p);
          assert subs[i] == Substitution(x, map[rep := 1]);
        }
      }
    }
    if AllEqual(S, rep, s, p) {
      forall i | 0 <= i < |subs|
        ensures Holds(subs[i], s, p)
      {
        RenamingMeaning(subs[i].from, rep, s, p);
        assert subs[i] == Substitution(subs[i].from, map[rep := 1]);
      }
    }
  }

  /** left - right = 0 as the source builds it for two signals that must both stay. */
  function KeptEquality(left: nat, right: nat, p: int): Constraint
    requires p > 0
  {
    ToConstraint(Sub(Signal(left), Signal(right), p), p).value
  }

  lemma KeptEqualityMeaning(left: nat, right: nat, s: Assignment, p: int)
    requires p > 0
    ensures Sat(KeptEquality(left, right, p), s, p) <==> SameValue(left, right, s, p)
  {
    hide Cong, Dot, Sub, Sat;
    SubMeaning(Signal(left), Signal(right), s, p);
    var e := Sub(Signal(left), Signal(right), p);
    ToConstraintMeaning(e, s, p);
    CongRefl(0, p);
    CongSame(Eval(e, s), Val(s, left) - Val(s, right), 0, 0, p);
    CongDiff(Val(s, left), Val(s, right), p);
  }

  lemma KeptEqualityForm(left: nat, right: nat, p: int)
    requires p > 0
    ensures var c := KeptEquality(left, right, p);
            c.a == ZERO && c.b == ZERO && c.c.Keys <= {0, left, right} && Canonical(c.c, p)
  {
    var minus := Mul(Number(-1), Signal(right), p);
    assert minus.Linear? && minus.coefficients.Keys == {0, right};
    var e := Add(Signal(left), minus, p);
    assert e.Linear? && e.coefficients.Keys == {0, left, right};
  }

  function SignalsOrdered(c: Constraint): seq<nat> {
    Ascending(Signals(c))
  }

  /** A cluster of one equality. */
  method SingleEquality(constraint: Constraint, forbidden: set<nat>, p: int)
    returns (subs: seq<Substitution>, cons: seq<Constraint>)
    requires Prime(p) && CleanEquality(constraint, p)
    ensures Signals(constraint) != {} && Renames(subs, Signals(constraint), forbidden) &&
            Keeps(cons, Signals(constraint), forbidden, p)
  {
    hide Prime, CleanEquality, Signals, SignalsOrdered, Ascending;
    subs, cons := [], [];
    var signals := SignalsOrdered(constraint);
    ghost var S := Signals(constraint);
    OrderedPair(constraint, p);
    var s0, s1 := signals[0], signals[1];
    RepresentativeOfPair(s0, s1, forbidden);
    if s0 in forbidden && s1 in forbidden {
      cons := [constraint];
      BothStay(constraint, s0, s1, forbidden, p);
    } else if s0 in forbidden {
      subs := [Substitution(s1, map[s0 := 1])];
      OneStays(s0, s1, s0, forbidden, p);
    } else if s1 in forbidden {
      subs := [Substitution(s0, map[s1 := 1])];
      OneStays(s0, s1, s1, forbidden, p);
    } else {
      var (l, r) := if s0 > s1 then (s0, s1) else (s1, s0);
      subs := [Substitution(l, map[r := 1])];
      OneStays(s0, s1, s0, forbidden, p);
    }
  }

  lemma OrderedPair(c: Constraint, p: int)
    requires CleanEquality(c, p)
    ensures |SignalsOrdered(c)| == 2
    ensures SignalsOrdered(c)[0] < SignalsOrdered(c)[1] && Signals(c) == {SignalsOrdered(c)[0], SignalsOrdered(c)[1]}
    ensures SignalsOrdered(c)[0] in c.c && SignalsOrdered(c)[1] in c.c
  {
    hide Signals, CleanEquality, Ascending;
    var x, y := EqualityPair(c, p);
    var r := SignalsOrdered(c);
    assert r[0] in Signals(c) && r[1] in Signals(c);
  }

  lemma EqualityPair(c: Constraint, p: int) returns (x: nat, y: nat)
    requires CleanEquality(c, p)
    ensures x < y && Signals(c) == {x, y} && x in c.c && y in c.c
  {
    hide Clean;
    x, y := TwoKeys(c.c);
    assert Signals(c) == {x, y};
  }

  lemma RepresentativeOfPair(x: nat, y: nat, forbidden: set<nat>)
    requires x < y
    ensures Representative({x, y}, forbidden) == if y in forbidden && x !in forbidden then y else x
  {
    var stay := {x, y} * forbidden;
    assert x in forbidden ==> x in stay;
    assert y in forbidden ==> y in stay;
    assert x in {x, y};
  }

  lemma PairMeaning(c: Constraint, x: nat, y: nat, s: Assignment, p: int)
    requires Prime(p) && CleanEquality(c, p) && x < y && x in c.c && y in c.c
    ensures AllSat([c], s, p) <==> AllEqual({x, y}, x, s, p)
  {
    hide Sat, SameValue, CleanEquality, Prime;
    EqualityMeaning(c, x, y, s, p);
    SameReflexive(x, s, p);
    SameSymmetric(x, y, s, p);
    assert [c][0] == c;
  }

  lemma BothStay(c: Constraint, x: nat, y: nat, forbidden: set<nat>, p: int)
    requires Prime(p) && CleanEquality(c, p) && x < y && Signals(c) == {x, y} && x in c.c && y in c.c
    requires x in forbidden && y in forbidden
    ensures Keeps([c], {x, y}, forbidden, p) && Renames([], {x, y}, forbidden)
  {
    hide Representative, AllSat, AllEqual, Prime, CleanEquality, Signals, Keys, Canonical, Keeps, Renames;
    RepresentativeOfPair(x, y, forbidden);
    EqualityForm(c, p);
    PairKept(c, {x, y}, forbidden, p);
    forall s: Assignment
      ensures AllSat([c], s, p) <==> AllEqual({x, y}, x, s, p)
    {
      PairMeaning(c, x, y, s, p);
    }
  }

  /** One equality over signals that all stay. */
  lemma PairKept(c: Constraint, S: set<nat>, forbidden: set<nat>, p: int)
    requires S != {} && S <= forbidden && IsLinear(c) && Canonical(c.c, p) && Keys(c) <= S + {0}
    ensures Renames([], S, forbidden)
    ensures (forall s :: AllSat([c], s, p) <==> AllEqual(S, Representative(S, forbidden), s, p)) ==>
              Keeps([c], S, forbidden, p)
  {
    hide AllSat, AllEqual, Representative, Keys, Canonical, IsLinear;
    assert S * forbidden == S && S - forbidden == {};
  }

  lemma EqualityForm(c: Constraint, p: int)
    requires CleanEquality(c, p)
    ensures IsLinear(c) && Canonical(c.c, p) && Keys(c) <= Signals(c) + {0}
  {
  }

  lemma SameSymmetric(x: nat, y: nat, s: Assignment, p: int)
    ensures SameValue(x, y, s, p) <==> SameValue(y, x, s, p)
  {
    hide Cong;
    if SameValue(x, y, s, p) { CongSym(Val(s, x), Val(s, y), p); }
    if SameValue(y, x, s, p) { CongSym(Val(s, y), Val(s, x), p); }
  }

  lemma OneStays(x: nat, y: nat, rep: nat, forbidden: set<nat>, p: int)
    requires x < y && rep == Representative({x, y}, forbidden) && !(x in forbidden && y in forbidden)
    ensures Keeps([], {x, y}, forbidden, p)
    ensures Renames([Substitution(if rep == x then y else x, map[rep := 1])], {x, y}, forbidden)
  {
    hide Sat, SameValue, Representative;
    RepresentativeOfPair(x, y, forbidden);
    var other := if rep == x then y else x;
    assert {x, y} - forbidden - {rep} == {other};
    assert forall z :: z in {x, y} * forbidden ==> z == rep;
    forall s: Assignment
      ensures AllSat([], s, p) <==> AllEqual({x, y} * forbidden, rep, s, p)
    {
      SameReflexive(rep, s, p);
    }
    assert [Substitution(other, map[rep := 1])][0].from == other;
  }

  /** The signals S split by whether they must stay, with the least of each side. */
  ghost predicate Split(S: set<nat>, forbidden: set<nat>, remains: set<nat>, minRemains: Option<nat>, remove: set<nat>,
                        minRemove: Option<nat>) {
    && remains == S * forbidden && remove == S - forbidden
    && IsMin(minRemains, remains) && IsMin(minRemove, remove)
  }

  function MinWith(m: Option<nat>, signal: nat): Option<nat> {
    Some(if m.None? then signal else Min(m.value, signal))
  }

  lemma SplitStay(S: set<nat>, forbidden: set<nat>, remains: set<nat>, minRemains: Option<nat>, remove: set<nat>,
                  minRemove: Option<nat>, x: nat)
    requires Split(S, forbidden, remains, minRemains, remove, minRemove) && x in forbidden
    ensures Split(S + {x}, forbidden, remains + {x}, MinWith(minRemains, x), remove, minRemove)
  {
  }

  lemma SplitGo(S: set<nat>, forbidden: set<nat>, remains: set<nat>, minRemains: Option<nat>, remove: set<nat>,
                minRemove: Option<nat>, x: nat)
    requires Split(S, forbidden, remains, minRemains, remove, minRemove) && x !in forbidden
    ensures Split(S + {x}, forbidden, remains, minRemains, remove + {x}, MinWith(minRemove, x))
  {
  }

  /** Visit the signals of every constraint of a cluster. */
  method SplitSignals(constraints: seq<Constraint>, forbidden: set<nat>)
    returns (remains: set<nat>, minRemains: Option<nat>, remove: set<nat>, minRemove: Option<nat>)
    ensures Split(Sig(constraints), forbidden, remains, minRemains, remove, minRemove)
  {
    remains, minRemains, remove, minRemove := {}, None, {}, None;
    ghost var S: set<nat> := {};
    for i := 0 to |constraints|
      invariant S == Sig(constraints[..i])
      invariant Split(S, forbidden, remains, minRemains, remove, minRemove)
    {
      SigNext(constraints, i);
      hide Sig, Signals, Split, Least;
      var pending := Signals(constraints[i]);
      ghost var goal := S + pending;
      while pending != {}
        invariant S + pending == goal
        invariant Split(S, forbidden, remains, minRemains, remove, minRemove)
        decreases pending
      {
        var signal := Least(pending);
        if signal in forbidden {
          SplitStay(S, forbidden, remains, minRemains, remove, minRemove, signal);
          remains, minRemains := remains + {signal}, MinWith(minRemains, signal);
        } else {
          SplitGo(S, forbidden, remains, minRemains, remove, minRemove, signal);
          remove, minRemove := remove + {signal}, MinWith(minRemove, signal);
        }
        pending, S := pending - {signal}, S + {signal};
      }
    }
    assert constraints[..|constraints|] == constraints;
  }

  function Min(a: nat, b: nat): nat {
    if a < b then a else b
  }

  ghost predicate IsMin(m: Option<nat>, s: set<nat>) {
    (m.None? <==> s == {}) && (m.Some? ==> m.value in s && forall x :: x in s ==> m.value <= x)
  }

  lemma SigNext(cs: seq<Constraint>, i: nat)
    requires i < |cs|
    ensures Sig(cs[..i + 1]) == Sig(cs[..i]) + Signals(cs[i])
  {
    assert cs[..i + 1] == cs[..i] + [cs[i]];
    SigConcat(cs[..i], [cs[i]]);
    SigSingle(cs[i]);
  }

  lemma SplitChosen(S: set<nat>, forbidden: set<nat>, remains: set<nat>, minRemains: Option<nat>, remove: set<nat>,
                    minRemove: Option<nat>)
    requires Split(S, forbidden, remains, minRemains, remove, minRemove) && S != {}
    ensures minRemains.Some? || minRemove.Some?
    ensures var rep := if minRemains.Some? then minRemains.value else minRemove.value;
            && rep == Representative(S, forbidden)
            && S * forbidden - {rep} == (if minRemains.Some? then remains - {rep} else remains)
            && S - forbidden - {rep} == (if minRemains.Some? then remove else remove - {rep})
  {
    hide Least;
    if S * forbidden == {} {
      forall x | x in S ensures x in S - forbidden { assert x in forbidden ==> x in S * forbidden; }
      assert S - forbidden == S;
    }
  }

  /** A cluster of several equalities. The hash set of removed signals is visited in any order. */
  method SeveralEqualities(cluster: Cluster, forbidden: set<nat>, p: int)
    returns (subs: seq<Substitution>, cons: seq<Constraint>)
    requires p > 0 && Sig(cluster.constraints) != {}
    ensures Renames(subs, Sig(cluster.constraints), forbidden) && Keeps(cons, Sig(cluster.constraints), forbidden, p)
  {
    hide Split, Least, Representative, Sig;
    ghost var S := Sig(cluster.constraints);
    subs, cons := [], [];
    var remains, minRemains, remove, minRemove := SplitSignals(cluster.constraints, forbidden);
    SplitChosen(S, forbidden, remains, minRemains, remove, minRemove);
    var rhSignal;
    if minRemains.Some? {
      rhSignal := minRemains.value;
      remains := remains - {rhSignal};
    } else {
      rhSignal := minRemove.value;
      remove := remove - {rhSignal};
    }
    KeepNothing(rhSignal, p);
    ghost var kept: set<nat> := {};
    while remains != {}
      invariant kept + remains == S * forbidden - {rhSignal}
      invariant Identify(cons, kept, rhSignal, p)
      decreases remains
    {
      var signal := Next(remains);
      KeepNext(cons, kept, rhSignal, signal, p);
      cons := cons + [KeptEquality(signal, rhSignal, p)];
      remains, kept := remains - {signal}, kept + {signal};
    }
    KeepAll(cons, kept, S, forbidden, p);
    while remove != {}
      invariant remove <= S - forbidden - {rhSignal}
      invariant RenamesBut(subs, S - forbidden - {rhSignal}, remove, rhSignal)
      decreases remove
    {
      var signal :| signal in remove;
      RenameNext(subs, S - forbidden - {rhSignal}, remove, rhSignal, signal);
      subs := subs + [Substitution(signal, map[rhSignal := 1])];
      remove := remove - {signal};
    }
  }

  /** The remaining set is ordered: its least element comes first. */
  function Next(s: set<nat>): (k: nat)
    requires s != {}
    ensures k in s
  {
    Least(s)
  }

  ghost predicate Identify(cons: seq<Constraint>, kept: set<nat>, rep: nat, p: int) {
    && (forall i :: 0 <= i < |cons| ==> cons[i].a == ZERO && cons[i].b == ZERO && Canonical(cons[i].c, p))
    && (forall i :: 0 <= i < |cons| ==> cons[i].c.Keys <= kept + {0, rep})
    && (kept == {} ==> cons == [])
    && forall s :: AllSat(cons, s, p) <==> AllEqual(kept, rep, s, p)
  }

  lemma KeepNothing(rep: nat, p: int)
    ensures Identify([], {}, rep, p)
  {
  }

  lemma KeepNext(cons: seq<Constraint>, kept: set<nat>, rep: nat, x: nat, p: int)
    requires p > 0 && Identify(cons, kept, rep, p)
    ensures Identify(cons + [KeptEquality(x, rep, p)], kept + {x}, rep, p)
  {
    hide KeptEquality, Sat, SameValue, AllSat;
    KeptEqualityForm(x, rep, p);
    var c := KeptEquality(x, rep, p);
    var next := cons + [c];
    forall s: Assignment
      ensures AllSat(next, s, p) <==> AllEqual(kept + {x}, rep, s, p)
    {
      SatAppend(cons, c, s, p);
      KeptEqualityMeaning(x, rep, s, p);
      EqualInsert(kept, rep, x, s, p);
    }
  }

  lemma EqualInsert(kept: set<nat>, rep: nat, x: nat, s: Assignment, p: int)
    ensures AllEqual(kept + {x}, rep, s, p) <==> AllEqual(kept, rep, s, p) && SameValue(x, rep, s, p)
  {
    hide SameValue;
    if AllEqual(kept + {x}, rep, s, p) {
      assert x in kept + {x} && forall y :: y in kept ==> y in kept + {x};
    }
  }

  lemma SatAppend(cs: seq<Constraint>, c: Constraint, s: Assignment, p: int)
    ensures AllSat(cs + [c], s, p) <==> AllSat(cs, s, p) && Sat(c, s, p)
  {
    hide Sat;
    var all := cs + [c];
    if AllSat(all, s, p) {
      assert all[|cs|] == c;
      assert forall i :: 0 <= i < |cs| ==> all[i] == cs[i];
    }
  }

  lemma KeepAll(cons: seq<Constraint>, kept: set<nat>, S: set<nat>, forbidden: set<nat>, p: int)
    requires S != {} && kept == S * forbidden - {Representative(S, forbidden)} &&
             Identify(cons, kept, Representative(S, forbidden), p)
    ensures Keeps(cons, S, forbidden, p)
  {
    hide Sat, SameValue;
    var rep := Representative(S, forbidden);
    if cons != [] {
      assert kept != {};
      assert S * forbidden != {};
    }
    forall s: Assignment
      ensures AllSat(cons, s, p) <==> AllEqual(S * forbidden, rep, s, p)
    {
      SameReflexive(rep, s, p);
    }
  }

  /** The renamings built so far; those of `remove` are still to come. */
  ghost predicate RenamesBut(subs: seq<Substitution>, all: set<nat>, remove: set<nat>, rep: nat) {
    && (forall i :: 0 <= i < |subs| ==> subs[i].from in all && subs[i].from !in remove && subs[i].to == map[rep := 1])
    && (forall i, j :: 0 <= i < j < |subs| ==> subs[i].from != subs[j].from)
    && (forall x :: x in all && x !in remove ==> exists i :: 0 <= i < |subs| && subs[i].from == x)
  }

  lemma RenameNext(subs: seq<Substitution>, all: set<nat>, remove: set<nat>, rep: nat, x: nat)
    requires RenamesBut(subs, all, remove, rep) && x in remove && remove <= all
    ensures RenamesBut(subs + [Substitution(x, map[rep := 1])], all, remove - {x}, rep)
  {
    var next := subs + [Substitution(x, map[rep := 1])];
    assert next[|subs|].from == x;
    forall y | y in all && y !in remove - {x}
      ensures exists i :: 0 <= i < |next| && next[i].from == y
    {
      if y != x {
        var i :| 0 <= i < |subs| && subs[i].from == y;
        assert next[i].from == y;
      }
    }
  }

  /** All equalities of a component replaced by renamings to one representative; what must stay is
      kept as constraints. */
  method EqClusterSimplification(cluster: Cluster, forbidden: set<nat>, p: int)
    returns (subs: seq<Substitution>, cons: seq<Constraint>)
    requires Prime(p) && Connected(cluster.constraints) && forall c :: c in cluster.constraints ==> CleanEquality(c, p)
    ensures Sig(cluster.constraints) != {}
    ensures Renames(subs, Sig(cluster.constraints), forbidden) && Keeps(cons, Sig(cluster.constraints), forbidden, p)
    ensures forall s :: AllHold(subs, s, p) && AllSat(cons, s, p) <==> AllSat(cluster.constraints, s, p)
  {
    hide Prime, CleanEquality, Renames, Keeps, Connected;
    ghost var S := Sig(cluster.constraints);
    EqualityHasSignals(cluster.constraints, p);
    PrimeAbove(p);
    if |cluster.constraints| == 1 {
      subs, cons := SingleEquality(cluster.constraints[0], forbidden, p);
      OnlyConstraint(cluster.constraints);
    } else {
      subs, cons := SeveralEqualities(cluster, forbidden, p);
    }
    forall s: Assignment
      ensures AllHold(subs, s, p) && AllSat(cons, s, p) <==> AllSat(cluster.constraints, s, p)
    {
      ComponentMeaning(subs, cons, S, forbidden, s, p);
      ConnectedAllEqual(cluster.constraints, Representative(S, forbidden), s, p);
    }
  }

  lemma PrimeAbove(p: int)
    requires Prime(p)
    ensures p > 1
  {
  }

  lemma OnlyConstraint(cs: seq<Constraint>)
    requires |cs| == 1
    ensures Sig(cs) == Signals(cs[0])
  {
    assert cs == [cs[0]];
    SigSingle(cs[0]);
  }

  lemma EqualityHasSignals(cs: seq<Constraint>, p: int)
    requires Connected(cs) && forall c :: c in cs ==> CleanEquality(c, p)
    ensures Sig(cs) != {} && cs[0] in cs
  {
    assert cs[0] in cs;
    OrderedPair(cs[0], p);
    InSig(cs, cs[0]);
  }
}
