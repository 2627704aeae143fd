/** What the wires of a simplified circuit determine, and what they leave open
    (rebuild_witness with remove_unused in constraint_simplification.rs). */
module Determinacy {
  import opened Field
  import opened LinearCombination
  import opened Constraints
  import opened Elimination
  import opened Frames
  import opened ConstantEqualities
  import opened NonLinear
  import opened Solutions
  import opened Witness
  import opened Rounds
  import opened EarlyFrames
  import opened IdleSignals
  import opened Simplification
  import opened SmallCircuits

  ghost predicate SameOn(s: Assignment, t: Assignment, xs: set<nat>, p: int) {
    forall x :: x in xs ==> Cong(s(x), t(x), p)
  }

  ghost predicate SameBelow(s: Assignment, t: Assignment, bound: nat, p: int) {
    forall x: nat :: x < bound ==> Cong(s(x), t(x), p)
  }

  /** Two solutions that agree on the wires agree on all signals. */
  ghost predicate Determined(smp: Simplifier, r: Outcome)
    requires WellFormedDag(smp.encoding) && |r.constants| == |smp.consEqualities|
  {
    forall s, t :: Effective(smp, r.constants, s) && Effective(smp, r.constants, t) ==> Fixed(smp, r, s, t)
  }

  ghost predicate Fixed(smp: Simplifier, r: Outcome, s: Assignment, t: Assignment) {
    SameOn(s, t, r.signalMap.Keys, smp.field) ==> SameBelow(s, t, smp.maxSignal, smp.field)
  }

  /** Every signal kept its wire or was defined away; none was dropped as unused. */
  ghost predicate NoneDropped(smp: Simplifier, r: Outcome) {
    forall x: nat :: x < smp.maxSignal ==> x in r.signalMap || x in Froms(r.definitions)
  }

  /** Constraints look at the signals below the bound only. */
  lemma SatBelow(cs: seq<Constraint>, s: Assignment, t: Assignment, bound: nat, p: int)
    requires Alive(cs, {}, bound) && forall x: nat :: x < bound ==> s(x) == t(x)
    ensures forall i :: 0 <= i < |cs| ==> (Sat(cs[i], s, p) <==> Sat(cs[i], t, p))
  {
    hide Sat, Signals;
    forall i | 0 <= i < |cs|
      ensures Sat(cs[i], s, p) <==> Sat(cs[i], t, p)
    {
      assert AliveOne(cs[i], {}, bound);
      SatAgree(cs[i], s, t, p);
    }
  }

  lemma EffectiveBelow(smp: Simplifier, constants: seq<Constraint>, s: Assignment, t: Assignment)
    requires Valid(smp) && |constants| == |smp.consEqualities| && forall x: nat :: x < smp.maxSignal ==> s(x) == t(x)
    ensures WellFormedDag(smp.encoding) && (Effective(smp, constants, s) <==> Effective(smp, constants, t))
  {
    assert WellFormedDag(smp.encoding) && Alive(smp.equalities, {}, smp.maxSignal) &&
           Alive(smp.consEqualities, {}, smp.maxSignal) && Alive(smp.linear, {}, smp.maxSignal) &&
           Alive(Flattened(smp.encoding), {}, smp.maxSignal);
    hide Valid, Alive, Sat, InForce, WellFormedDag, Flattened;
    SatBelow(smp.equalities, s, t, smp.maxSignal, smp.field);
    SatBelow(smp.consEqualities, s, t, smp.maxSignal, smp.field);
    SatBelow(smp.linear, s, t, smp.maxSignal, smp.field);
    SatBelow(Flattened(smp.encoding), s, t, smp.maxSignal, smp.field);
  }

  /** A dropped signal may take another value, and every wire keeps its own. */
  lemma DroppedFree(smp: Simplifier, r: Outcome, s: Assignment, x: nat) returns (t: Assignment)
    requires Valid(smp) && WellFormedDag(smp.encoding) && Meaning(smp, r) && Wired(smp, r) &&
             Effective(smp, r.constants, s)
    requires x !in r.signalMap && x !in Froms(r.definitions)
    ensures Effective(smp, r.constants, t) && !Cong(s(x), t(x), smp.field)
    ensures forall k :: k in r.signalMap ==> t(k) == s(k)
  {
    hide Valid, Meaning, Wired, Effective, WellFormedDag, Triangular, Froms, Signals, AllSat, Extend, Prime, AllHold,
         Flattened, Cong;
    var p, w := smp.field, With(s, x, s(x) + 1);
    SingleReady(smp);
    WiredFacts(smp, r);
    MeaningAt(smp, r, s);
    UnusedSat(r.constraints, s, x, s(x) + 1, p);
    SolutionsExtend(smp, r, w);
    ExtendHolds(r.definitions, w, p);
    t := Extend(r.definitions, w);
    NextDiffers(s(x), p);
  }

  lemma MeaningAt(smp: Simplifier, r: Outcome, s: Assignment)
    requires WellFormedDag(smp.encoding) && Meaning(smp, r)
    ensures |r.constants| == |smp.consEqualities|
    ensures Effective(smp, r.constants, s) <==>
            AllSat(r.constraints, s, smp.field) && AllHold(r.definitions, s, smp.field)
  {
    hide Effective, AllSat, AllHold, Flattened, WellFormedDag;
  }

  lemma WiredFacts(smp: Simplifier, r: Outcome)
    requires Wired(smp, r)
    ensures Triangular(r.definitions) && r.signalMap.Keys !! Froms(r.definitions)
    ensures forall c :: c in r.constraints ==> Signals(c) <= r.signalMap.Keys
  {
  }

  lemma UnusedSat(cs: seq<Constraint>, s: Assignment, x: nat, v: int, p: int)
    requires AllSat(cs, s, p) && forall c :: c in cs ==> x !in Signals(c)
    ensures AllSat(cs, With(s, x, v), p)
  {
    hide Sat, Signals;
    forall i | 0 <= i < |cs|
      ensures Sat(cs[i], With(s, x, v), p)
    {
      assert cs[i] in cs;
      SatAgree(cs[i], s, With(s, x, v), p);
    }
  }

  lemma NextDiffers(v: int, p: int)
    requires p > 1
    ensures !Cong(v, v + 1, p)
  {
  }

  /** Where nothing was dropped, equal wires mean equal signals. */
  lemma NoneDroppedDetermined(smp: Simplifier, r: Outcome, s: Assignment, t: Assignment)
    requires Valid(smp) && WellFormedDag(smp.encoding) && Meaning(smp, r) && Wired(smp, r) && NoneDropped(smp, r)
    requires Effective(smp, r.constants, s) && Effective(smp, r.constants, t) &&
             SameOn(s, t, r.signalMap.Keys, smp.field)
    ensures SameBelow(s, t, smp.maxSignal, smp.field)
  {
    hide Valid, Meaning, Wired, Effective, WellFormedDag, Triangular, Extend, Cong, AllHold, AllSat, Froms, Flattened;
    var p, defs := smp.field, r.definitions;
    var u: Assignment := (k: nat) => if k < smp.maxSignal then t(k) else s(k);
    MeaningAt(smp, r, s);
    EffectiveBelow(smp, r.constants, t, u);
    MeaningAt(smp, r, u);
    WiredFacts(smp, r);
    forall k: nat
      ensures Cong(s(k), s(k), p)
    {
      CongRefl(s(k), p);
    }
    ExtendUnique(defs, s, s, p);
    ExtendUnique(defs, s, u, p);
    var e := Extend(defs, s);
    forall x: nat | x < smp.maxSignal
      ensures Cong(s(x), t(x), p)
    {
      CongSym(e(x), s(x), p);
      CongTrans(s(x), e(x), u(x), p);
    }
  }

  /** The wires determine all signals exactly when no signal was dropped as unused (or there is no solution). */
  lemma DeterminedExactly(smp: Simplifier, r: Outcome)
    requires Valid(smp) && WellFormedDag(smp.encoding) && Meaning(smp, r) && Wired(smp, r)
    ensures Determined(smp, r) <==> NoneDropped(smp, r) || forall s :: !Effective(smp, r.constants, s)
  {
    hide Valid, Wired, Effective, WellFormedDag, SameOn, SameBelow, Froms;
    if NoneDropped(smp, r) {
      forall s, t | Effective(smp, r.constants, s) && Effective(smp, r.constants, t)
        ensures Fixed(smp, r, s, t)
      {
        if SameOn(s, t, r.signalMap.Keys, smp.field) { NoneDroppedDetermined(smp, r, s, t); }
      }
    } else if s: Assignment :| Effective(smp, r.constants, s) {
      var x: nat :| x < smp.maxSignal && x !in r.signalMap && x !in Froms(r.definitions);
      DroppedDiffers(smp, r, s, x);
    }
  }

  lemma DroppedDiffers(smp: Simplifier, r: Outcome, s: Assignment, x: nat)
    requires Valid(smp) && WellFormedDag(smp.encoding) && Meaning(smp, r) && Wired(smp, r) &&
             Effective(smp, r.constants, s)
    requires x < smp.maxSignal && x !in r.signalMap && x !in Froms(r.definitions)
    ensures !Determined(smp, r)
  {
    hide Valid, Meaning, Wired, Effective, WellFormedDag, Froms, Cong;
    var t := DroppedFree(smp, r, s, x);
    forall k | k in r.signalMap
      ensures Cong(s(k), t(k), smp.field)
    {
      CongRefl(s(k), smp.field);
    }
    assert SameOn(s, t, r.signalMap.Keys, smp.field) && !SameBelow(s, t, smp.maxSignal, smp.field);
    assert !Fixed(smp, r, s, t);
  }

  /** A condition on the circuit alone: a removable signal that no constraint mentions stays open. */
  lemma UnmentionedFree(smp: Simplifier, r: Outcome, s: Assignment)
    requires Valid(smp) && WellFormedDag(smp.encoding) && Meaning(smp, r) && Wired(smp, r) && Lean(smp, r)
    requires Unmentioned(smp) != {} && Effective(smp, r.constants, s)
    ensures !Determined(smp, r)
  {
    IdleApart(smp);
    var x :| x in Unmentioned(smp);
    assert x < smp.maxSignal;
    hide Valid, Meaning, Wired, Effective, WellFormedDag, Froms, Unmentioned, Idle;
    DroppedDiffers(smp, r, s, x);
  }

  // ---- A defined signal that no wire determines

  lemma LinkedEffective(s: Assignment)
    ensures WellFormedDag(Linked().encoding)
    ensures Effective(Linked(), [], s) <==> Cong(s(1), 2 * s(2) + 1, 7)
  {
    hide Linking, Sat, WellFormedDag, Flattened;
    NothingFlattened();
    LinkingMeaning(s);
    var smp := Linked();
    assert Effective(smp, [], s) <==> Sat(smp.linear[0], s, 7);
  }

  lemma LinkedWires(r: Outcome)
    requires Valid(Linked()) && Wired(Linked(), r) && Lean(Linked(), r)
    ensures r.signalMap.Keys == {0}
  {
    hide Valid, WellFormedDag, Flattened, Triangular, Froms, Numbering, Signals, Unmentioned;
    LinkedValid();
    NothingFlattened();
    assert forall x: nat :: 0 < x < 3 ==> x in Idle(Linked());
  }

  /** One of the two signals is defined by the other, which is dropped: both are left open. */
  lemma LinkedFree(r: Outcome) returns (s: Assignment, t: Assignment)
    requires Valid(Linked()) && Meaning(Linked(), r) && Wired(Linked(), r) && Lean(Linked(), r)
    ensures r.signalMap.Keys == {0} && (1 in Froms(r.definitions) || 2 in Froms(r.definitions))
    ensures Effective(Linked(), r.constants, s) && Effective(Linked(), r.constants, t) && s(0) == t(0)
    ensures !Cong(s(1), t(1), 7) && !Cong(s(2), t(2), 7)
  {
    hide Valid, Meaning, Wired, Lean, Effective, WellFormedDag, Flattened, Froms, Cong;
    LinkedValid();
    LinkedWires(r);
    s := (k: nat) => if k == 1 then 1 else 0;
    t := (k: nat) => if k == 1 then 3 else if k == 2 then 1 else 0;
    LinkedEffective(s);
    LinkedEffective(t);
    MeaningAt(Linked(), r, s);
    CongRefl(1, 7);
    CongRefl(3, 7);
    CanonicalApart();
    if 1 !in Froms(r.definitions) && 2 !in Froms(r.definitions) { LinkedDefines(r, s); }
  }

  lemma CanonicalApart()
    ensures !Cong(1, 3, 7) && !Cong(0, 1, 7)
  {
    if Cong(1, 3, 7) { CanonicalEqual(1, 3, 7); }
    if Cong(0, 1, 7) { CanonicalEqual(0, 1, 7); }
  }

  lemma LinkedDefines(r: Outcome, s: Assignment)
    requires Valid(Linked()) && Meaning(Linked(), r) && Wired(Linked(), r) && r.signalMap.Keys == {0}
    requires WellFormedDag(Linked().encoding) && Effective(Linked(), r.constants, s)
    ensures 1 in Froms(r.definitions) || 2 in Froms(r.definitions)
  {
    hide Valid, Meaning, Wired, Effective, WellFormedDag, Triangular, Froms, Extend, AllSat, AllHold, Flattened, Cong,
         Signals;
    var smp := Linked();
    var w: Assignment := (k: nat) => 0;
    var e := Extend(r.definitions, w);
    MeaningAt(smp, r, s);
    WiredFacts(smp, r);
    NoSignals(r.constraints, s, w, 7);
    SolutionsExtend(smp, r, w);
    ExtendHolds(r.definitions, w, 7);
    LinkedEffective(e);
    if 1 !in Froms(r.definitions) && 2 !in Froms(r.definitions) {
      assert e(1) == 0 && e(2) == 0;
      CanonicalApart();
    }
  }

  lemma NoSignals(cs: seq<Constraint>, s: Assignment, t: Assignment, p: int)
    requires AllSat(cs, s, p) && forall c :: c in cs ==> Signals(c) <= {0}
    ensures AllSat(cs, t, p)
  {
    hide Sat;
    forall i | 0 <= i < |cs|
      ensures Sat(cs[i], t, p)
    {
      assert cs[i] in cs && Signals(cs[i]) == {};
      SatAgree(cs[i], s, t, p);
    }
  }
}
