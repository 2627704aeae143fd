/** The third frame and the simplification of the non-linear constraints
    (the middle of `simplification` in constraint_simplification.rs). */
module LateFrames {
  import opened Field
  import opened LinearCombination
  import opened Constraints
  import opened Elimination
  import opened Frames
  import opened SimplificationUtils
  import opened FullSimplification
  import opened EqSimplification
  import opened LinearSimplification
  import opened Storage
  import opened NonLinear
  import opened FrameChain
  import opened FrameLists
  import opened Solutions
  import opened Rounds
  import opened EarlyFrames

  /** Constant constraints on their way to the store. */
  ghost predicate LconstOk(cs: seq<Constraint>, deleted: set<nat>, bound: nat, p: int) {
    Alive(cs, deleted, bound) && forall i :: 0 <= i < |cs| ==> LinearForm(cs[i], p)
  }

  ghost predicate LinearOk(full: Encoded, linear: seq<Constraint>, forbidden: set<nat>, p: int) {
    ScopedFrame(full, Mentioned(linear), p) && full.Keys <= Mentioned(linear) && full.Keys !! forbidden
  }

  // ---- The third frame

  method LinearStep(smp: Simplifier, linear: seq<Constraint>, lconst: seq<Constraint>, deleted: set<nat>,
                    relevant: set<nat>)
    returns (substitutions: Encoded, lconst': seq<Constraint>, deleted': set<nat>, ghost full: Encoded)
    requires Valid(smp) && smp.field > 0 && 0 !in deleted && deleted !! smp.forbidden
    requires AllLinear(linear, smp.field) && Alive(linear, deleted, smp.maxSignal) &&
             AllKept(lconst, smp.forbidden, smp.field)
    ensures LinearOk(full, linear, smp.forbidden, smp.field) && substitutions == Pruned(full, relevant)
    ensures deleted' == deleted + full.Keys && LconstOk(lconst', deleted', smp.maxSignal, smp.field)
    ensures if smp.flagS then lconst' == lconst + linear else AllKept(lconst', smp.forbidden, smp.field)
    ensures SameSolutions(full, lconst', linear + lconst, smp.field)
    ensures smp.flagS ==> full == map[]
  {
    hide Valid, Prime, LinearOk, LconstOk, AllLinear, Alive, AllKept, AllSat, AllHold, EncodedHolds, SolvedForm,
         Leftover, Mentioned, EncodedOf, NonOverlapping, CleanLinear, Signals, SameSolutions;
    LinearReady(smp, linear, deleted);
    if !smp.flagS {
      var subs, cons := LinearSimplify(linear, smp.forbidden, smp.maxSignal, smp.field, smp.flagOldHeuristics);
      deleted' := Remove(subs, deleted);
      var onlyRelevant := OnlyRelevant(subs, relevant);
      substitutions := BuildEncodedFastSubstitutions(onlyRelevant);
      full := EncodedOf(subs);
      LinearFacts(smp, linear, lconst, deleted, relevant, subs, cons);
      lconst' := ApplyFrameToAll(lconst + cons, substitutions, smp.field);
      LinearStepMeaning(linear, lconst, subs, cons, smp.field);
    } else {
      lconst', substitutions, full, deleted' := lconst + linear, map[], map[], deleted;
      NoLinearFrame(smp, linear, lconst, deleted);
      assert deleted' == deleted + full.Keys;
    }
  }

  lemma LinearReady(smp: Simplifier, linear: seq<Constraint>, deleted: set<nat>)
    requires Valid(smp) && AllLinear(linear, smp.field) && Alive(linear, deleted, smp.maxSignal)
    ensures Prime(smp.field) && smp.field > 1 && 0 in smp.forbidden
    ensures forall i :: 0 <= i < |linear| ==> CleanLinear(linear[i], smp.field)
    ensures forall i, x :: 0 <= i < |linear| && x in Signals(linear[i]) ==> x < smp.maxSignal
  {
    hide Valid, CleanLinear, Signals, Prime;
    SingleReady(smp);
    forall i, x | 0 <= i < |linear| && x in Signals(linear[i])
      ensures x < smp.maxSignal
    {
      assert AliveOne(linear[i], deleted, smp.maxSignal);
    }
  }

  lemma KeptAlive(cs: seq<Constraint>, smp: Simplifier, deleted: set<nat>)
    requires Valid(smp) && AllKept(cs, smp.forbidden, smp.field) && deleted !! smp.forbidden
    ensures LconstOk(cs, deleted, smp.maxSignal, smp.field)
  {
    assert 0 in smp.forbidden && forall x :: x in smp.forbidden ==> x < smp.maxSignal;
    hide Valid;
    forall i | 0 <= i < |cs|
      ensures AliveOne(cs[i], deleted, smp.maxSignal) && LinearForm(cs[i], smp.field)
    {
      assert KeptForm(cs[i], smp.forbidden, smp.field);
    }
  }

  lemma LinearFacts(smp: Simplifier, linear: seq<Constraint>, lconst: seq<Constraint>, deleted: set<nat>,
                    relevant: set<nat>,
                    subs: seq<Substitution>, cons: seq<Constraint>)
    requires Valid(smp) && smp.field > 0 && 0 !in deleted && deleted !! smp.forbidden
    requires AllKept(lconst, smp.forbidden, smp.field)
    requires SolvedForm(subs, smp.forbidden, Mentioned(linear), smp.field) &&
             Leftover(cons, smp.forbidden, Mentioned(linear), smp.field)
    ensures var full, less := EncodedOf(subs), EncodedOf(OnlyRelevant(subs, relevant));
            && LinearOk(full, linear, smp.forbidden, smp.field) && less == Pruned(full, relevant) &&
              NonOverlapping(less)
            && Froms(subs) == full.Keys && FrameAll(lconst + cons, less, smp.field) == lconst + cons
    ensures AllKept(lconst + cons, smp.forbidden, smp.field)
    ensures LconstOk(lconst + cons, deleted + EncodedOf(subs).Keys, smp.maxSignal, smp.field)
    ensures DistinctFroms(subs)
  {
    SingleReady(smp);
    var full, less := EncodedOf(subs), EncodedOf(OnlyRelevant(subs, relevant));
    assert 0 in Mentioned(linear);
    hide Valid, Mentioned, Prime, EncodedOf, LconstOk;
    SolvedFrame(subs, smp.forbidden, Mentioned(linear), smp.field);
    OnlyRelevantEncoded(subs, relevant);
    PrunedNonOverlapping(full, relevant);
    FromsKeys(subs);
    hide SolvedForm, ScopedFrame, NonOverlapping;
    LeftoverKept(cons, smp.forbidden, Mentioned(linear), smp.field);
    hide Leftover;
    KeptConcat(lconst, cons, smp.forbidden, smp.field);
    hide AllKept;
    KeptUntouched(lconst + cons, less, smp.forbidden, smp.field);
    KeptAlive(lconst + cons, smp, deleted + full.Keys);
  }

  lemma PrunedNonOverlapping(enc: Encoded, relevant: set<nat>)
    requires NonOverlapping(enc)
    ensures NonOverlapping(Pruned(enc, relevant))
  {
  }

  lemma FromsKeys(subs: seq<Substitution>)
    ensures Froms(subs) == EncodedOf(subs).Keys
  {
    hide EncodedOf;
    forall k
      ensures k in Froms(subs) <==> k in EncodedOf(subs)
    {
      EncodedKeys(subs, k);
    }
  }

  lemma LinearStepMeaning(linear: seq<Constraint>, lconst: seq<Constraint>, subs: seq<Substitution>,
                          cons: seq<Constraint>, p: int)
    requires DistinctFroms(subs) && forall s :: AllHold(subs, s, p) && AllSat(cons, s, p) <==> AllSat(linear, s, p)
    ensures SameSolutions(EncodedOf(subs), lconst + cons, linear + lconst, p)
  {
    hide AllHold, AllSat, EncodedHolds, EncodedOf, DistinctFroms;
    forall s: Assignment
      ensures EncodedHolds(EncodedOf(subs), s, p) && AllSat(lconst + cons, s, p) <==> AllSat(linear + lconst, s, p)
    {
      EncodedMeaning(subs, s, p);
      ConcatSat(linear, lconst, s, p);
      ConcatSat(lconst, cons, s, p);
    }
  }

  lemma NoLinearFrame(smp: Simplifier, linear: seq<Constraint>, lconst: seq<Constraint>, deleted: set<nat>)
    requires Valid(smp) && 0 !in deleted && deleted !! smp.forbidden
    requires AllLinear(linear, smp.field) && Alive(linear, deleted, smp.maxSignal) &&
             AllKept(lconst, smp.forbidden, smp.field)
    ensures LinearOk(map[], linear, smp.forbidden, smp.field) &&
            LconstOk(lconst + linear, deleted, smp.maxSignal, smp.field)
    ensures forall relevant :: Pruned(map[], relevant) == map[]
    ensures SameSolutions(map[], lconst + linear, linear + lconst, smp.field)
  {
    hide Valid, Mentioned, AllKept, AliveOne, AllSat;
    KeptAlive(lconst, smp, deleted);
    assert RhsKeys(map[]) == {};
    forall s: Assignment
      ensures AllSat(lconst + linear, s, smp.field) <==> AllSat(linear + lconst, s, smp.field)
    {
      ConcatSat(linear, lconst, s, smp.field);
      ConcatSat(lconst, linear, s, smp.field);
    }
  }

  // ---- The non-linear constraints

  ghost predicate ObtainedOk(now: seq<Constraint>, linear: seq<Constraint>, deleted: set<nat>, bound: nat, p: int) {
    && AllStored(now, p) && NonLinearOrEmpty(now) && Alive(now, deleted, bound)
    && AllLinear(linear, p) && Alive(linear, deleted, bound)
  }

  ghost predicate ReducedOk(r: Constraint, deleted: set<nat>, bound: nat, p: int) {
    Stored(r, p) && AliveOne(r, deleted, bound)
  }

  lemma ReduceForm(cs: seq<Constraint>, c: Constraint, single: Encoded, cons: Encoded, linear: Encoded,
                   scope: set<nat>, idle: set<nat>, bound: nat, p: int)
    requires Chain(single, cons, linear, scope, p) && c in cs && CleanConstraint(c, p) && AliveOne(c, idle, bound)
    requires forall x :: x in scope && x != 0 ==> x < bound && x !in idle
    requires RenamesApart(single, idle, bound)
    ensures ReducedOk(Reduce(c, PrunedChain(cs, single, cons, linear), p),
            idle + (single.Keys + cons.Keys + linear.Keys), bound, p)
  {
    var d := Framed(c, [single, cons, linear], p);
    PrunedSame(cs, c, single, cons, linear, scope, p);
    ChainCanonical(c, single, cons, linear, scope, p);
    assert p > 1;
    hide Framed, PrunedChain, Chain;
    FixForm(d, p);
    FixIdempotent(d, p);
    hide Fix, Signals;
    forall x | x in Signals(Fix(d, p))
      ensures x !in single && x !in cons && x !in linear && x < bound && x !in idle
    {
      ReducedSignal(c, single, cons, linear, scope, idle, bound, p, x);
    }
  }

  lemma ReducedSignal(c: Constraint, single: Encoded, cons: Encoded, linear: Encoded, scope: set<nat>,
                      idle: set<nat>, bound: nat, p: int, x: nat)
    requires Chain(single, cons, linear, scope, p) && AliveOne(c, idle, bound) &&
             x in Signals(Framed(c, [single, cons, linear], p))
    requires forall y :: y in scope && y != 0 ==> y < bound && y !in idle
    requires RenamesApart(single, idle, bound)
    ensures x !in single && x !in cons && x !in linear && x < bound && x !in idle
  {
    ChainKeys(c, single, cons, linear, scope, p, x);
    SignalNonZero(Framed(c, [single, cons, linear], p), x);
    hide Framed, Chain, Signals;
    if x !in scope {
      var y :| y in Signals(c) && x == Unwrapped(single, y);
      assert y < bound && y !in idle;
    }
  }

  lemma SignalNonZero(c: Constraint, x: nat)
    requires x in Signals(c)
    ensures x != 0
  {
  }

  lemma ReduceSat(cs: seq<Constraint>, c: Constraint, single: Encoded, cons: Encoded, linear: Encoded,
                       scope: set<nat>, s: Assignment, p: int)
    requires Chain(single, cons, linear, scope, p) && c in cs
    requires EncodedHolds(single, s, p) && EncodedHolds(cons, s, p) && EncodedHolds(linear, s, p)
    ensures Sat(Reduce(c, PrunedChain(cs, single, cons, linear), p), s, p) <==> Sat(c, s, p)
  {
    hide Framed, PrunedChain, Sat, Fix, EncodedHolds;
    PrunedSame(cs, c, single, cons, linear, scope, p);
    ChainMeaning(c, single, cons, linear, s, p);
    FixMeaning(Framed(c, [single, cons, linear], p), s, p);
  }

  lemma WalkedMeaning(cs: seq<Constraint>, now: seq<Constraint>, withLinear: seq<Constraint>, single: Encoded,
                      cons: Encoded, linear: Encoded,
                      scope: set<nat>, s: Assignment, p: int)
    requires Chain(single, cons, linear, scope, p) && Walked(now, [], withLinear, cs,
             PrunedChain(cs, single, cons, linear), p)
    requires EncodedHolds(single, s, p) && EncodedHolds(cons, s, p) && EncodedHolds(linear, s, p)
    ensures AllSat(now, s, p) && AllSat(withLinear, s, p) <==> AllSat(cs, s, p)
  {
    var frames := PrunedChain(cs, single, cons, linear);
    var all := ReduceAll(cs, frames, p);
    hide Sat, Reduce, EncodedHolds, Sorted, PrunedChain, Chain;
    assert now == Sorted(all, false) && withLinear == Sorted(all, true);
    SortedMeaning(all, s, p);
    forall i | 0 <= i < |cs|
      ensures Sat(all[i], s, p) <==> Sat(cs[i], s, p)
    {
      ReduceSat(cs, cs[i], single, cons, linear, scope, s, p);
    }
  }

  lemma WalkedForm(cs: seq<Constraint>, now: seq<Constraint>, withLinear: seq<Constraint>, single: Encoded,
                   cons: Encoded, linear: Encoded,
                   scope: set<nat>, idle: set<nat>, bound: nat, p: int)
    requires Chain(single, cons, linear, scope, p) && Walked(now, [], withLinear, cs,
             PrunedChain(cs, single, cons, linear), p)
    requires Alive(cs, idle, bound) && forall c :: c in cs ==> CleanConstraint(c, p)
    requires forall x :: x in scope && x != 0 ==> x < bound && x !in idle
    requires RenamesApart(single, idle, bound)
    ensures ObtainedOk(now, withLinear, idle + (single.Keys + cons.Keys + linear.Keys), bound, p)
  {
    var frames, deleted := PrunedChain(cs, single, cons, linear), idle + (single.Keys + cons.Keys + linear.Keys);
    var all := ReduceAll(cs, frames, p);
    hide Reduce, Sorted, PrunedChain, Chain, CleanConstraint, AliveOne, Stored, IsLinear;
    assert now == Sorted(all, false) && withLinear == Sorted(all, true);
    forall r | r in all
      ensures Stored(r, p) && AliveOne(r, deleted, bound)
    {
      var i :| 0 <= i < |all| && all[i] == r;
      ReduceForm(cs, cs[i], single, cons, linear, scope, idle, bound, p);
    }
    forall i | 0 <= i < |now|
      ensures Stored(now[i], p) && AliveOne(now[i], deleted, bound) && !IsLinear(now[i])
    {
      assert now[i] in now;
      InSorted(all, false, now[i]);
    }
    forall i | 0 <= i < |withLinear|
      ensures CleanLinear(withLinear[i], p) && AliveOne(withLinear[i], deleted, bound)
    {
      assert withLinear[i] in withLinear;
      InSorted(all, true, withLinear[i]);
      StoredLinear(withLinear[i], p);
    }
  }

  /** The same without idle signals. */
  lemma WalkedBelow(cs: seq<Constraint>, now: seq<Constraint>, withLinear: seq<Constraint>, single: Encoded,
                    cons: Encoded, linear: Encoded, scope: set<nat>, bound: nat, p: int)
    requires Chain(single, cons, linear, scope, p) && Walked(now, [], withLinear, cs,
             PrunedChain(cs, single, cons, linear), p)
    requires Alive(cs, {}, bound) && (forall c :: c in cs ==> CleanConstraint(c, p)) && RenamesApart(single, {}, bound)
    requires forall x :: x in scope && x != 0 ==> x < bound
    ensures ObtainedOk(now, withLinear, single.Keys + cons.Keys + linear.Keys, bound, p)
  {
    hide Chain, Walked, PrunedChain, Alive, CleanConstraint, RenamesApart, ObtainedOk;
    WalkedForm(cs, now, withLinear, single, cons, linear, scope, {}, bound, p);
    assert {} + (single.Keys + cons.Keys + linear.Keys) == single.Keys + cons.Keys + linear.Keys;
  }

  lemma StoredLinear(c: Constraint, p: int)
    requires Stored(c, p) && IsLinear(c)
    ensures CleanLinear(c, p)
  {
  }

  method ObtainNonLinear(smp: Simplifier, frames: seq<Encoded>)
    returns (storage: ConstraintStorage, withLinear: seq<Constraint>)
    requires Valid(smp) && smp.field > 0 && forall i :: 0 <= i < |frames| ==> NonOverlapping(frames[i])
    ensures fresh(storage) && Walked(storage.constraints, [], withLinear, Flattened(smp.encoding), frames, smp.field)
  {
    var iter := NewIterator(smp.encoding);
    storage := new ConstraintStorage();
    withLinear := ObtainAndSimplifyNonLinear(smp.encoding, iter, storage, frames, smp.field);
  }
}
