/** The whole simplification of a circuit's constraints (`simplification` in constraint_simplification.rs):
    what it returns means what its input meant, and mentions surviving signals only. */
module Simplification {
  import opened Field
  import opened LinearCombination
  import opened Constraints
  import opened Elimination
  import opened Frames
  import opened FullSimplification
  import opened EqSimplification
  import opened ConstantEqualities
  import opened Storage
  import opened NonLinear
  import opened FrameChain
  import opened FrameLists
  import opened Solutions
  import opened Rounds
  import opened Witness
  import opened EarlyFrames
  import opened LateFrames
  import opened IdleSignals

  // ---- Meaning, from the input to the store

  /** Where the equalities hold, a constant equality and its renamed form say the same. */
  ghost predicate Renamed(smp: Simplifier, constants: seq<Constraint>) {
    && |constants| == |smp.consEqualities|
    && forall s, i :: 0 <= i < |constants| ==> SameWhere(smp, constants, s, i)
  }

  ghost predicate SameWhere(smp: Simplifier, constants: seq<Constraint>, s: Assignment, i: nat)
    requires i < |constants| == |smp.consEqualities|
  {
    AllSat(smp.equalities, s, smp.field) ==> (Sat(constants[i], s, smp.field) <==>
      Sat(smp.consEqualities[i], s, smp.field))
  }

  /** The circuit the simplifier works on: of the constant equalities that fix one removable signal, up to
      renaming, only the last. */
  ghost predicate Effective(smp: Simplifier, constants: seq<Constraint>, s: Assignment)
    requires WellFormedDag(smp.encoding) && |constants| == |smp.consEqualities|
  {
    && AllSat(smp.equalities, s, smp.field)
    && (forall i :: 0 <= i < |constants| && InForce(constants, smp.forbidden, i) ==>
         Sat(smp.consEqualities[i], s, smp.field))
    && AllSat(smp.linear, s, smp.field) && AllSat(Flattened(smp.encoding), s, smp.field)
  }

  lemma EffectiveRenamed(smp: Simplifier, constants: seq<Constraint>, s: Assignment)
    requires WellFormedDag(smp.encoding) && Renamed(smp, constants)
    ensures Effective(smp, constants, s) <==>
            AllSat(smp.equalities, s, smp.field) && ForceSat(constants, smp.forbidden, s, smp.field) &&
            AllSat(smp.linear, s, smp.field) && AllSat(Flattened(smp.encoding), s, smp.field)
    ensures Original(smp, s) <==>
            AllSat(smp.equalities, s, smp.field) && AllSat(constants, s, smp.field) &&
            AllSat(smp.linear, s, smp.field) && AllSat(Flattened(smp.encoding), s, smp.field)
  {
    hide Sat, InForce;
    if AllSat(smp.equalities, s, smp.field) {
      forall i | 0 <= i < |constants|
        ensures Sat(constants[i], s, smp.field) <==> Sat(smp.consEqualities[i], s, smp.field)
      {
        assert SameWhere(smp, constants, s, i);
      }
    }
  }

  /** Definitions, store, linear and constant constraints say exactly what that circuit says. */
  ghost predicate Faithful(smp: Simplifier, constants: seq<Constraint>, defs: seq<Substitution>,
                           stored: seq<Constraint>, linear: seq<Constraint>, lconst: seq<Constraint>)
    requires WellFormedDag(smp.encoding)
  {
    && Renamed(smp, constants)
    && forall s :: Effective(smp, constants, s) <==> Reached(smp, defs, stored, linear, lconst, s)
  }

  ghost predicate Reached(smp: Simplifier, defs: seq<Substitution>, stored: seq<Constraint>, linear: seq<Constraint>,
                          lconst: seq<Constraint>, s: Assignment) {
    AllHold(defs, s, smp.field) && AllSat(stored, s, smp.field) && AllSat(linear, s, smp.field) &&
      AllSat(lconst, s, smp.field)
  }

  ghost function ThreeDefs(single: Encoded, cons: Encoded, linear: Encoded): seq<Substitution> {
    FrameDefs(single) + FrameDefs(cons) + FrameDefs(linear)
  }

  lemma ThreeDefsMeaning(single: Encoded, cons: Encoded, linear: Encoded, s: Assignment, p: int)
    ensures AllHold(ThreeDefs(single, cons, linear), s, p) <==>
            EncodedHolds(single, s, p) && EncodedHolds(cons, s, p) && EncodedHolds(linear, s, p)
  {
    hide FrameDefs, AllHold, EncodedHolds;
    FrameDefsMeaning(single, s, p);
    FrameDefsMeaning(cons, s, p);
    FrameDefsMeaning(linear, s, p);
    AppendHold(FrameDefs(single), FrameDefs(cons), s, p);
    AppendHold(FrameDefs(single) + FrameDefs(cons), FrameDefs(linear), s, p);
  }

  lemma AppendFrame(defs: seq<Substitution>, enc: Encoded)
    requires Triangular(defs) && NonOverlapping(enc) && RhsKeys(enc) !! Froms(defs) && enc.Keys !! Froms(defs)
    ensures Triangular(defs + FrameDefs(enc)) && Froms(defs + FrameDefs(enc)) == Froms(defs) + enc.Keys
  {
    hide Triangular, Froms, FrameDefs, RhsKeys, NonOverlapping;
    FrameTriangular(enc);
    TriangularAppend(defs, FrameDefs(enc));
  }

  lemma ThreeDefsForm(single: Encoded, cons: Encoded, linear: Encoded, scope: set<nat>, forbidden: set<nat>, p: int)
    requires Chain(single, cons, linear, scope, p)
    requires single.Keys !! forbidden && cons.Keys !! forbidden && linear.Keys !! forbidden
    ensures Triangular(ThreeDefs(single, cons, linear)) && Froms(ThreeDefs(single, cons, linear)) == single.Keys +
            cons.Keys + linear.Keys
    ensures Froms(ThreeDefs(single, cons, linear)) !! forbidden
  {
    hide Chain, NonOverlapping, Triangular, Froms, FrameDefs, RhsKeys;
    ChainApart(single, cons, linear, scope, p);
    FrameTriangular(single);
    TwoFrames(FrameDefs(single), single.Keys, cons, linear);
  }

  lemma TwoFrames(defs: seq<Substitution>, defined: set<nat>, two: Encoded, three: Encoded)
    requires Triangular(defs) && Froms(defs) == defined && NonOverlapping(two) && NonOverlapping(three)
    requires RhsKeys(two) !! defined && two.Keys !! defined
    requires RhsKeys(three) !! defined && three.Keys !! defined && RhsKeys(three) !! two.Keys && three.Keys !! two.Keys
    ensures Triangular(defs + FrameDefs(two) + FrameDefs(three))
    ensures Froms(defs + FrameDefs(two) + FrameDefs(three)) == defined + two.Keys + three.Keys
  {
    hide NonOverlapping, Triangular, Froms, FrameDefs, RhsKeys;
    AppendFrame(defs, two);
    AppendFrame(defs + FrameDefs(two), three);
  }

  lemma ChainApart(single: Encoded, cons: Encoded, linear: Encoded, scope: set<nat>, p: int)
    requires Chain(single, cons, linear, scope, p)
    ensures single.Keys !! cons.Keys && linear.Keys !! single.Keys && linear.Keys !! cons.Keys
    ensures RhsKeys(cons) !! single.Keys && RhsKeys(linear) !! single.Keys && RhsKeys(linear) !! cons.Keys
    ensures NonOverlapping(single) && NonOverlapping(cons) && NonOverlapping(linear)
  {
    assert 0 !in single && 0 !in cons;
    RenameIsFrame(single, p);
    ConstantIsFrame(cons, p);
    hide RenameFrame, ConstantFrame, NonOverlapping, RhsKeys;
  }

  /** After the three frames: everything the stages said, put together. */
  lemma FramesFaithful(smp: Simplifier, single: Encoded, eqCons: seq<Constraint>, constants: seq<Constraint>,
                       linear1: seq<Constraint>,
                       cons: Encoded, conCons: seq<Constraint>, linear2: seq<Constraint>, full: Encoded,
                         lconst: seq<Constraint>,
                       stored: seq<Constraint>, withLinear: seq<Constraint>, scope: set<nat>)
    requires WellFormedDag(smp.encoding) && smp.field > 0 && Chain(single, cons, full, scope, smp.field)
    requires linear1 == FrameAll(smp.linear, single, smp.field) &&
             constants == FrameAll(smp.consEqualities, single, smp.field)
    requires linear2 == FrameAll(linear1, cons, smp.field)
    requires SameSolutions(single, eqCons, smp.equalities, smp.field) &&
             ForcedSolutions(cons, conCons, constants, smp.forbidden, smp.field)
    requires SameSolutions(full, lconst, linear2 + (eqCons + conCons), smp.field)
    requires Walked(stored, [], withLinear, Flattened(smp.encoding),
             PrunedChain(Flattened(smp.encoding), single, cons, full), smp.field)
    ensures Faithful(smp, constants, ThreeDefs(single, cons, full), stored, withLinear, lconst)
  {
    FramesRenamed(smp, single, eqCons, constants);
    hide EncodedHolds, AllSat, AllHold, Walked, Chain, FrameAll, ThreeDefs, PrunedChain, Renamed, ForceSat, Effective,
         Original;
    var p, flat := smp.field, Flattened(smp.encoding);
    forall s: Assignment
      ensures Effective(smp, constants, s) <==>
              Reached(smp, ThreeDefs(single, cons, full), stored, withLinear, lconst, s)
    {
      EffectiveRenamed(smp, constants, s);
      ThreeDefsMeaning(single, cons, full, s, p);
      ConcatSat(eqCons, conCons, s, p);
      ConcatSat(linear2, eqCons + conCons, s, p);
      if EncodedHolds(single, s, p) {
        FrameAllMeaning(smp.linear, single, s, p);
        if EncodedHolds(cons, s, p) {
          FrameAllMeaning(linear1, cons, s, p);
          if EncodedHolds(full, s, p) {
            WalkedMeaning(flat, stored, withLinear, single, cons, full, scope, s, p);
          }
        }
      }
    }
  }

  lemma FramesRenamed(smp: Simplifier, single: Encoded, eqCons: seq<Constraint>, constants: seq<Constraint>)
    requires smp.field > 0 && constants == FrameAll(smp.consEqualities, single, smp.field)
    requires SameSolutions(single, eqCons, smp.equalities, smp.field)
    ensures Renamed(smp, constants)
  {
    hide EncodedHolds, AllSat, FrameOne, Sat;
    forall s: Assignment, i | 0 <= i < |constants|
      ensures SameWhere(smp, constants, s, i)
    {
      if AllSat(smp.equalities, s, smp.field) { FrameOneMeaning(smp.consEqualities[i], single, s, smp.field); }
    }
  }

  lemma RoundsFaithful(smp: Simplifier, constants: seq<Constraint>, defs: seq<Substitution>, stored: seq<Constraint>,
                       linear: seq<Constraint>, lconst: seq<Constraint>,
                       stored': seq<Constraint>, linear': seq<Constraint>, lconst': seq<Constraint>,
                         more: seq<Substitution>)
    requires WellFormedDag(smp.encoding) && Faithful(smp, constants, defs, stored, linear, lconst)
    requires Equivalent(stored, linear, lconst, stored', linear', lconst', more, smp.field)
    ensures Faithful(smp, constants, defs + more, stored', linear', lconst')
  {
    hide AllSat, AllHold, Effective, Renamed;
    forall s: Assignment
      ensures Reached(smp, defs + more, stored', linear', lconst', s) <==> Reached(smp, defs, stored, linear, lconst, s)
    {
      AppendHold(defs, more, s, smp.field);
    }
    hide Reached;
  }

  // ---- Adding what is left to the store

  /** Every signal of the store is a key of the index. */
  ghost predicate Indexing(index: SignalToConstraints, cs: seq<Constraint>) {
    forall i :: 0 <= i < |cs| ==> Signals(cs[i]) <= index.Keys
  }

  lemma CoversIndexing(index: SignalToConstraints, cs: seq<Constraint>)
    requires Covers(index, cs)
    ensures Indexing(index, cs)
  {
    hide Signals;
  }

  method AddIndexed(storage: ConstraintStorage, index: SignalToConstraints, cs: seq<Constraint>)
    returns (index': SignalToConstraints)
    requires Indexing(index, storage.constraints)
    modifies storage
    ensures storage.constraints == old(storage.constraints) + cs && Indexing(index', storage.constraints)
    ensures forall x :: x in index' ==> x in index || exists i :: 0 <= i < |cs| && x in Signals(cs[i])
  {
    index' := index;
    for i := 0 to |cs|
      invariant storage.constraints == old(storage.constraints) + cs[..i] && Indexing(index', storage.constraints)
      invariant forall x :: x in index' ==> x in index || exists j :: 0 <= j < i && x in Signals(cs[j])
    {
      hide Signals;
      var signals := Signals(cs[i]);
      var id := storage.AddConstraint(cs[i]);
      ghost var before := index';
      index' := AddToIndex(index', signals, id);
      assert index'.Keys == before.Keys + signals;
    }
  }

  function FixAll(cs: seq<Constraint>, p: int): seq<Constraint>
    requires p > 0
  {
    seq(|cs|, i requires 0 <= i < |cs| => Fix(cs[i], p))
  }

  method FixConstants(cs: seq<Constraint>, p: int) returns (r: seq<Constraint>)
    requires p > 0
    ensures r == FixAll(cs, p)
  {
    hide Fix;
    r := [];
    for i := 0 to |cs|
      invariant |r| == i && forall j :: 0 <= j < i ==> r[j] == Fix(cs[j], p)
    {
      r := r + [Fix(cs[i], p)];
    }
  }

  lemma FixAllMeaning(cs: seq<Constraint>, s: Assignment, p: int)
    requires p > 0
    ensures AllSat(FixAll(cs, p), s, p) <==> AllSat(cs, s, p)
  {
    hide Sat, Fix;
    var r := FixAll(cs, p);
    forall i | 0 <= i < |cs|
      ensures Sat(r[i], s, p) <==> Sat(cs[i], s, p)
    {
      FixMeaning(cs[i], s, p);
    }
  }

  lemma FixAllForm(cs: seq<Constraint>, deleted: set<nat>, bound: nat, p: int)
    requires p > 0 && LconstOk(cs, deleted, bound, p)
    ensures AllLinear(FixAll(cs, p), p) && Alive(FixAll(cs, p), deleted, bound)
  {
    var r := FixAll(cs, p);
    forall i | 0 <= i < |cs|
      ensures CleanLinear(r[i], p) && AliveOne(r[i], deleted, bound)
    {
      assert AliveOne(cs[i], deleted, bound) && LinearForm(cs[i], p);
      FixLinear(cs[i], p);
      FixForm(cs[i], p);
    }
  }

  /** The final store: what the rounds left, the leftover linear constraints and the constant ones, without the empty
      ones. */
  ghost predicate Finished(final: seq<Constraint>, stored: seq<Constraint>, linear: seq<Constraint>,
                           lconst: seq<Constraint>, p: int)
    requires p > 0
  {
    final == WithoutEmpty(stored + linear + FixAll(lconst, p))
  }

  lemma WithoutEmptySat(cs: seq<Constraint>, s: Assignment, p: int)
    ensures AllSat(WithoutEmpty(cs), s, p) <==> AllSat(cs, s, p)
  {
    var kept := WithoutEmpty(cs);
    DotEmpty(s);
    CongRefl(0, p);
    assert forall c :: IsEmpty(c) ==> c == EMPTY;
    assert Sat(EMPTY, s, p);
    hide Sat, WithoutEmpty, IsEmpty;
    forall c
      ensures c in kept <==> c in cs && !IsEmpty(c)
    {
      InWithoutEmpty(cs, c);
    }
    MemberSat(cs, s, p);
    MemberSat(kept, s, p);
  }

  lemma FinishedMeaning(final: seq<Constraint>, stored: seq<Constraint>, linear: seq<Constraint>,
                        lconst: seq<Constraint>, s: Assignment, p: int)
    requires p > 0 && Finished(final, stored, linear, lconst, p)
    ensures AllSat(final, s, p) <==> AllSat(stored, s, p) && AllSat(linear, s, p) && AllSat(lconst, s, p)
  {
    hide AllSat, FixAll, WithoutEmpty;
    WithoutEmptySat(stored + linear + FixAll(lconst, p), s, p);
    ConcatSat(stored + linear, FixAll(lconst, p), s, p);
    ConcatSat(stored, linear, s, p);
    FixAllMeaning(lconst, s, p);
  }

  lemma FinishedAlive(final: seq<Constraint>, stored: seq<Constraint>, linear: seq<Constraint>, lconst: seq<Constraint>,
                      index: SignalToConstraints, deleted: set<nat>, bound: nat, p: int)
    requires p > 0 && Finished(final, stored, linear, lconst, p) && Indexing(index, stored + linear + FixAll(lconst, p))
    requires Alive(stored, deleted, bound) && Alive(linear, deleted, bound) && LconstOk(lconst, deleted, bound, p)
    ensures Alive(final, deleted, bound) && Indexing(index, final)
    ensures forall c :: c in final ==> !IsEmpty(c)
  {
    hide FixAll, LconstOk, WithoutEmpty, IsEmpty, AliveOne, Signals;
    FixAllForm(lconst, deleted, bound, p);
    var fixed := FixAll(lconst, p);
    var all := stored + linear + fixed;
    forall i | 0 <= i < |final|
      ensures AliveOne(final[i], deleted, bound) && Signals(final[i]) <= index.Keys
    {
      var j := FinishedFrom(final, stored, linear, fixed, i);
      assert AliveOne(all[j], deleted, bound);
    }
    forall c | c in final ensures !IsEmpty(c) { InWithoutEmpty(all, c); }
  }

  /** Every constraint of the final store comes from one of the three lists. */
  lemma FinishedFrom(final: seq<Constraint>, stored: seq<Constraint>, linear: seq<Constraint>, fixed: seq<Constraint>,
                     i: nat) returns (j: nat)
    requires i < |final| && final == WithoutEmpty(stored + linear + fixed)
    ensures j < |stored| + |linear| + |fixed| && final[i] == (stored + linear + fixed)[j]
    ensures (stored + linear + fixed)[j] ==
            if j < |stored| then stored[j]
            else if j < |stored| + |linear| then linear[j - |stored|] else fixed[j - |stored| - |linear|]
  {
    hide WithoutEmpty, IsEmpty;
    var all := stored + linear + fixed;
    assert final[i] in final;
    InWithoutEmpty(all, final[i]);
    j :| 0 <= j < |all| && all[j] == final[i];
  }

  /** Every coefficient is canonical and nonzero. */
  ghost predicate AllClean(cs: seq<Constraint>, p: int) {
    forall i :: 0 <= i < |cs| ==> CleanConstraint(cs[i], p)
  }

  lemma LinearClean(cs: seq<Constraint>, p: int)
    requires AllLinear(cs, p)
    ensures AllClean(cs, p)
  {
  }

  lemma FinishedClean(final: seq<Constraint>, stored: seq<Constraint>, linear: seq<Constraint>,
                      lconst: seq<Constraint>, deleted: set<nat>, bound: nat, p: int)
    requires p > 0 && Finished(final, stored, linear, lconst, p) && AllClean(stored, p) && AllClean(linear, p) &&
             LconstOk(lconst, deleted, bound, p)
    ensures AllClean(final, p)
  {
    hide FixAll, LconstOk, WithoutEmpty, IsEmpty, CleanConstraint;
    FixAllForm(lconst, deleted, bound, p);
    LinearClean(FixAll(lconst, p), p);
    var fixed := FixAll(lconst, p);
    forall i | 0 <= i < |final|
      ensures CleanConstraint(final[i], p)
    {
      var j := FinishedFrom(final, stored, linear, fixed, i);
    }
  }

  // ---- The method

  /** Frames 1 to 3 and the walk over the non-linear constraints. */
  method ApplyAllFrames(smp: Simplifier)
    returns (storage: ConstraintStorage, withLinear: seq<Constraint>, lconst: seq<Constraint>, deleted: set<nat>,
             ghost renames: Encoded, ghost constants: seq<Constraint>, ghost defs: seq<Substitution>)
    requires Valid(smp)
    ensures fresh(storage) && ObtainedOk(storage.constraints, withLinear, deleted, smp.maxSignal, smp.field)
    ensures LconstOk(lconst, deleted, smp.maxSignal, smp.field) && (!smp.flagS ==>
            AllKept(lconst, smp.forbidden, smp.field))
    ensures Untouched(smp, storage.constraints, withLinear, lconst) && Froms(defs) !! Unmentioned(smp)
    ensures Triangular(defs) && Froms(defs) == deleted && deleted !! smp.forbidden
    ensures IsRenaming(renames, smp.equalities, smp.forbidden) &&
            constants == FrameAll(smp.consEqualities, renames, smp.field)
    ensures Faithful(smp, constants, defs, storage.constraints, withLinear, lconst)
    ensures EarlyDefined(smp, renames, constants, defs) && AllBelow(deleted, smp.maxSignal)
  {
    SingleReady(smp);
    assert WellFormedDag(smp.encoding);
    ghost var flat := Flattened(smp.encoding);
    hide Valid, Prime, SingleOk, IsRenaming, ConstantOk, LinearOk, FrameAll, ConstantsAgree, AllSat, AllKept,
         EncodedHolds, NonOverlapping, AllLinear, Alive, LconstOk, Walked, Chain, PrunedChain, Faithful, ObtainedOk,
           RelevantOf, SameSolutions, ForcedSolutions, Triangular, Froms, ThreeDefs, Mentioned, Unmentioned, Idle,
           Untouched, EarlyDefined;
    var iter := NewIterator(smp.encoding);
    var relevant := BuildRelevantSet(smp.encoding, iter, {}, map[], map[]);
    var single, eqCons, linear1, constants1, deleted1;
    single, eqCons, linear1, constants1, deleted1, renames := SingleFrame(smp, relevant);
    constants := constants1;
    var conCons, cons, linear2, deleted2 := ConstantStep(smp, constants1, linear1, deleted1, renames);
    relevant := BuildRelevantSet(smp.encoding, iter, {}, single, cons);
    FramesReady(smp, renames, cons, eqCons, conCons);
    ghost var full;
    var substitutions;
    substitutions, lconst, deleted, full := LinearStep(smp, linear2, eqCons + conCons, deleted2, relevant);
    ChainReady(smp, renames, cons, full, linear2);
    PrunedAre(flat, single, renames, cons, substitutions, full, Mentioned(linear2), smp.field);
    storage, withLinear := ObtainNonLinear(smp, [single, cons, substitutions]);
    defs := ThreeDefs(renames, cons, full);
    FramesFaithful(smp, renames, eqCons, constants, linear1, cons, conCons, linear2, full, lconst, storage.constraints,
      withLinear, Mentioned(linear2));
    FramesForm(smp, renames, cons, full, linear2, storage.constraints, withLinear);
    FramesDefined(smp, renames, constants, cons, full);
    FramesBelow(smp, renames, constants, cons, full, linear2);
    FramesSpare(smp, renames, cons, full, constants, linear1, linear2);
    FramesUntouched(smp, renames, cons, full, linear2, storage.constraints, withLinear, eqCons + conCons, lconst);
  }

  /** Renamed signals and removable signals with a constant equality are defined, and when linear simplification is
      off nothing else is. */
  ghost predicate EarlyDefined(smp: Simplifier, renames: Encoded, constants: seq<Constraint>,
                               defs: seq<Substitution>) {
    var early := renames.Keys + (Mentioned(constants) - smp.forbidden);
    early <= Froms(defs) && (smp.flagS ==> Froms(defs) == early)
  }

  lemma FramesDefined(smp: Simplifier, renames: Encoded, constants: seq<Constraint>, cons: Encoded, full: Encoded)
    requires Froms(ThreeDefs(renames, cons, full)) == renames.Keys + cons.Keys + full.Keys
    requires cons.Keys == Mentioned(constants) - smp.forbidden && (smp.flagS ==> full == map[])
    ensures EarlyDefined(smp, renames, constants, ThreeDefs(renames, cons, full))
  {
    hide Froms, ThreeDefs, Mentioned;
  }

  lemma FramesBelow(smp: Simplifier, renames: Encoded, constants: seq<Constraint>, cons: Encoded, full: Encoded,
                    linear: seq<Constraint>)
    requires Valid(smp) && smp.field > 0 && SingleOk(renames, smp) &&
             constants == FrameAll(smp.consEqualities, renames, smp.field)
    requires cons.Keys == Mentioned(constants) - smp.forbidden && LinearOk(full, linear, smp.forbidden, smp.field)
    requires Alive(linear, renames.Keys + cons.Keys, smp.maxSignal) && 0 !in renames && 0 !in cons
    ensures AllBelow(renames.Keys + cons.Keys + full.Keys, smp.maxSignal)
  {
    hide Valid, Alive, Mentioned, FrameAll, RenameFrame, ScopedFrame, RenamesApart;
    ConstantFactsReady(smp, renames);
    SingleReady(smp);
    RenamedBelow(smp.consEqualities, renames, smp.maxSignal, smp.field);
    MentionedAlive(constants, renames.Keys, smp.maxSignal);
    MentionedAlive(linear, renames.Keys + cons.Keys, smp.maxSignal);
  }

  /** What the frames leave for the rounds mentions no idle signal. */
  ghost predicate Untouched(smp: Simplifier, stored: seq<Constraint>, linear: seq<Constraint>, lconst: seq<Constraint>)
    requires WellFormedDag(smp.encoding)
  {
    && Alive(stored, Idle(smp), smp.maxSignal) && Alive(linear, Idle(smp), smp.maxSignal)
    && (smp.flagS ==> Alive(lconst, Idle(smp), smp.maxSignal))
  }

  lemma FramesUntouched(smp: Simplifier, single: Encoded, cons: Encoded, full: Encoded, linear: seq<Constraint>,
                        stored: seq<Constraint>, withLinear: seq<Constraint>, kept: seq<Constraint>,
                        lconst: seq<Constraint>)
    requires Valid(smp) && smp.field > 0 && SingleOk(single, smp) && ConstantOk(cons, smp, single) &&
             LinearOk(full, linear, smp.forbidden, smp.field)
    requires Alive(linear, single.Keys + cons.Keys, smp.maxSignal) && WellFormedDag(smp.encoding) &&
             Alive(linear, Unmentioned(smp), smp.maxSignal)
    requires RenamesApart(single, Unmentioned(smp), smp.maxSignal)
    requires Walked(stored, [], withLinear, Flattened(smp.encoding),
             PrunedChain(Flattened(smp.encoding), single, cons, full), smp.field)
    requires AllKept(kept, smp.forbidden, smp.field) && (smp.flagS ==> lconst == kept + linear)
    ensures Untouched(smp, stored, withLinear, lconst)
  {
    hide Valid, WellFormedDag, Unmentioned, Idle, Alive, AllKept, Walked, PrunedChain, SingleOk, ConstantOk, LinearOk;
    IdleApart(smp);
    if !smp.flagS && Flattened(smp.encoding) == [] {
      NothingWalked(stored, withLinear, PrunedChain([], single, cons, full), Idle(smp), smp.maxSignal, smp.field);
    } else {
      WalkSpares(smp, single, cons, full, linear, stored, withLinear);
      KeptAlive(kept, smp, Idle(smp));
      if smp.flagS { ConcatAlive(kept, linear, Idle(smp), smp.maxSignal); }
    }
  }

  lemma NothingWalked(stored: seq<Constraint>, withLinear: seq<Constraint>, frames: seq<Encoded>, idle: set<nat>,
                      bound: nat, p: int)
    requires p > 0 && Walked(stored, [], withLinear, [], frames, p)
    ensures Alive(stored, idle, bound) && Alive(withLinear, idle, bound)
  {
  }

  lemma ConcatAlive(one: seq<Constraint>, two: seq<Constraint>, idle: set<nat>, bound: nat)
    requires Alive(one, idle, bound) && Alive(two, idle, bound)
    ensures Alive(one + two, idle, bound)
  {
    hide AliveOne;
  }

  lemma WalkSpares(smp: Simplifier, single: Encoded, cons: Encoded, full: Encoded, linear: seq<Constraint>,
                   stored: seq<Constraint>, withLinear: seq<Constraint>)
    requires Valid(smp) && smp.field > 0 && SingleOk(single, smp) && ConstantOk(cons, smp, single) &&
             LinearOk(full, linear, smp.forbidden, smp.field)
    requires Alive(linear, single.Keys + cons.Keys, smp.maxSignal) && WellFormedDag(smp.encoding) &&
             Alive(linear, Unmentioned(smp), smp.maxSignal)
    requires RenamesApart(single, Unmentioned(smp), smp.maxSignal)
    requires Walked(stored, [], withLinear, Flattened(smp.encoding),
             PrunedChain(Flattened(smp.encoding), single, cons, full), smp.field)
    ensures Alive(stored, Unmentioned(smp), smp.maxSignal) && Alive(withLinear, Unmentioned(smp), smp.maxSignal)
  {
    ChainReady(smp, single, cons, full, linear);
    UnmentionedAlive(smp);
    IdleApart(smp);
    MentionedAlive(linear, single.Keys + cons.Keys, smp.maxSignal);
    MentionedAlive(linear, Unmentioned(smp), smp.maxSignal);
    assert forall c :: c in Flattened(smp.encoding) ==> CleanConstraint(c, smp.field);
    var scope, deleted := Mentioned(linear), single.Keys + cons.Keys + full.Keys;
    hide Valid, Mentioned, Chain, Walked, PrunedChain, LinearOk, ConstantOk, SingleOk, Alive, CleanConstraint,
         Unmentioned, Idle, AllStored, NonLinearOrEmpty, AllLinear;
    WalkedForm(Flattened(smp.encoding), stored, withLinear, single, cons, full, scope, Unmentioned(smp), smp.maxSignal,
      smp.field);
    FewerAlive(stored, Unmentioned(smp), deleted, smp.maxSignal);
    FewerAlive(withLinear, Unmentioned(smp), deleted, smp.maxSignal);
  }

  lemma FramesReady(smp: Simplifier, single: Encoded, cons: Encoded, eqCons: seq<Constraint>, conCons: seq<Constraint>)
    requires SingleOk(single, smp) && ConstantOk(cons, smp, single)
    requires AllKept(eqCons, smp.forbidden, smp.field) && AllKept(conCons, smp.forbidden, smp.field)
    ensures 0 !in single.Keys + cons.Keys && (single.Keys + cons.Keys) !! smp.forbidden
    ensures AllKept(eqCons + conCons, smp.forbidden, smp.field)
  {
    KeptConcat(eqCons, conCons, smp.forbidden, smp.field);
  }

  lemma ChainReady(smp: Simplifier, single: Encoded, cons: Encoded, full: Encoded, linear: seq<Constraint>)
    requires Valid(smp) && SingleOk(single, smp) && ConstantOk(cons, smp, single) &&
             LinearOk(full, linear, smp.forbidden, smp.field)
    requires Alive(linear, single.Keys + cons.Keys, smp.maxSignal)
    ensures Chain(single, cons, full, Mentioned(linear), smp.field)
  {
    hide Valid, Prime, Mentioned, RenameFrame, ConstantFrame, ScopedFrame, Alive;
    SingleReady(smp);
    assert 0 !in single && 0 !in cons;
    MentionedAlive(linear, single.Keys + cons.Keys, smp.maxSignal);
  }

  lemma PrunedAre(flat: seq<Constraint>, kept: Encoded, single: Encoded, cons: Encoded, last: Encoded, full: Encoded,
                  scope: set<nat>, p: int)
    requires Chain(single, cons, full, scope, p)
    requires kept == Pruned(single, {} + RelevantOf(flat, map[], map[])) &&
             last == Pruned(full, {} + RelevantOf(flat, kept, cons))
    ensures [kept, cons, last] == PrunedChain(flat, single, cons, full)
    ensures forall i :: 0 <= i < 3 ==> NonOverlapping([kept, cons, last][i])
  {
    PrunedRename(single, {} + RelevantOf(flat, map[], map[]));
    RenameIsFrame(kept, 2);
    ChainApart(single, cons, full, scope, p);
    PrunedNonOverlapping(full, {} + RelevantOf(flat, kept, cons));
    hide RelevantOf, NonOverlapping, RenameFrame, Chain;
    assert {} + RelevantOf(flat, map[], map[]) == RelevantOf(flat, map[], map[]);
    assert {} + RelevantOf(flat, kept, cons) == RelevantOf(flat, kept, cons);
  }

  lemma FramesForm(smp: Simplifier, single: Encoded, cons: Encoded, full: Encoded, linear: seq<Constraint>,
                   stored: seq<Constraint>, withLinear: seq<Constraint>)
    requires Valid(smp) && smp.field > 0 && SingleOk(single, smp) && ConstantOk(cons, smp, single) &&
             LinearOk(full, linear, smp.forbidden, smp.field)
    requires Alive(linear, single.Keys + cons.Keys, smp.maxSignal)
    requires Walked(stored, [], withLinear, Flattened(smp.encoding),
             PrunedChain(Flattened(smp.encoding), single, cons, full), smp.field)
    ensures ObtainedOk(stored, withLinear, single.Keys + cons.Keys + full.Keys, smp.maxSignal, smp.field)
    ensures Triangular(ThreeDefs(single, cons, full)) && Froms(ThreeDefs(single, cons, full)) == single.Keys +
            cons.Keys + full.Keys
    ensures (single.Keys + cons.Keys + full.Keys) !! smp.forbidden
  {
    ChainReady(smp, single, cons, full, linear);
    assert 0 !in single && 0 !in cons;
    MentionedAlive(linear, single.Keys + cons.Keys, smp.maxSignal);
    var scope := Mentioned(linear);
    assert single.Keys !! smp.forbidden && cons.Keys !! smp.forbidden && full.Keys !! smp.forbidden;
    assert RenamesApart(single, {}, smp.maxSignal);
    assert forall c :: c in Flattened(smp.encoding) ==> CleanConstraint(c, smp.field);
    assert Alive(Flattened(smp.encoding), {}, smp.maxSignal);
    hide Valid, Mentioned, Chain, Walked, PrunedChain, LinearOk, ConstantOk, SingleOk, Alive, RenameFrame, ThreeDefs,
         Triangular, Froms, ObtainedOk, CleanConstraint, RenamesApart, ScopedFrame;
    ThreeDefsForm(single, cons, full, scope, smp.forbidden, smp.field);
    WalkedBelow(Flattened(smp.encoding), stored, withLinear, single, cons, full, scope, smp.maxSignal, smp.field);
  }

  /** Where the rounds end: nothing mentions a deleted signal, idle signals and the definitions stay apart, everything
      is canonical, and what is stored can go on to the last step. */
  ghost predicate RoundsForm(smp: Simplifier, index: SignalToConstraints, after: RoundState, defs: seq<Substitution>)
    requires smp.field > 0 && WellFormedDag(smp.encoding)
  {
    && Spares(after.stored, index, after.linear, Idle(smp), smp.maxSignal)
    && LconstOk(after.lconst, Idle(smp), smp.maxSignal, smp.field) && Froms(defs) !! Unmentioned(smp)
    && Alive(after.stored, after.deleted, smp.maxSignal) && Alive(after.linear, after.deleted, smp.maxSignal)
    && LconstOk(after.lconst, after.deleted, smp.maxSignal, smp.field) && Indexing(index, after.stored)
    && Triangular(defs) && Froms(defs) == after.deleted && after.deleted !! smp.forbidden
    && AllClean(after.stored, smp.field) && AllClean(after.linear, smp.field)
    && (!smp.flagS ==> RoundsEnd(smp, after.stored, after.linear, after.lconst, after.deleted))
  }

  /** A chain of rounds that stops when no linear constraint is left or the budget is used up. */
  ghost predicate RoundsChain(smp: Simplifier, states: seq<RoundState>, before: RoundState, after: RoundState) {
    && |states| > 0 && RoundRun(states, smp.forbidden, smp.field)
    && states[0] == before && states[|states| - 1] == after
    && |states| - 1 <= Budget(smp) && (after.linear == [] || |states| - 1 == Budget(smp))
  }

  lemma RoundsForward(smp: Simplifier, index: SignalToConstraints, after: RoundState, defs: seq<Substitution>,
                      more: seq<Substitution>)
    requires Valid(smp) && smp.field > 0 && WellFormedDag(smp.encoding)
    requires Triangular(defs) && after.deleted == Froms(defs) + Froms(more)
    requires RoundOk(after.stored, index, after.linear, after.lconst, after.deleted, smp.forbidden, smp.maxSignal,
               smp.field)
    requires NewDefs(more, Froms(defs), smp.forbidden, smp.maxSignal)
    requires Spares(after.stored, index, after.linear, Idle(smp), smp.maxSignal)
    requires Froms(defs) !! Unmentioned(smp) && Froms(more) !! Idle(smp)
    requires after.linear == [] || |Froms(more)| >= Budget(smp)
    ensures RoundsForm(smp, index, after, defs + more)
    ensures AllBelow(Froms(defs), smp.maxSignal) ==> AllBelow(after.deleted, smp.maxSignal)
  {
    hide Valid, RoundOk, LconstOk, Alive, AllClean, Triangular, Froms, Indexing, NewDefs, Unmentioned, Idle, Spares,
         RoundsEnd, AllBelow, Budget;
    RoundsDone(smp, after.stored, index, after.linear, after.lconst, after.deleted, defs, more);
    RoundsSpare(smp, after.stored, index, after.linear, after.lconst, after.deleted, defs, more);
    RoundsEnded(smp, after.stored, index, after.linear, after.lconst, Froms(defs), after.deleted, more);
    NewBelow(more, Froms(defs), smp.forbidden, smp.maxSignal);
  }

  lemma RoundsChained(smp: Simplifier, states: seq<RoundState>, before: RoundState, after: RoundState)
    requires |states| > 0 && RoundRun(states, smp.forbidden, smp.field)
    requires states[0] == before && states[|states| - 1] == after
    requires |states| - 1 <= Budget(smp) && (after.linear == [] || |states| - 1 == Budget(smp))
    ensures RoundsChain(smp, states, before, after)
  {
  }

  lemma RoundsOff(smp: Simplifier, index: SignalToConstraints, before: RoundState, defs: seq<Substitution>)
    requires Valid(smp) && smp.field > 0 && WellFormedDag(smp.encoding)
    requires smp.flagS && Triangular(defs) && Froms(defs) == before.deleted
    requires ObtainedOk(before.stored, before.linear, before.deleted, smp.maxSignal, smp.field)
    requires LconstOk(before.lconst, before.deleted, smp.maxSignal, smp.field) && Covers(index, before.stored)
    requires Untouched(smp, before.stored, before.linear, before.lconst) && Froms(defs) !! Unmentioned(smp)
    requires Spares(before.stored, index, before.linear, Idle(smp), smp.maxSignal)
    requires before.deleted !! smp.forbidden
    ensures RoundsForm(smp, index, before, defs) && RoundsChain(smp, [before], before, before)
  {
    hide Valid, ObtainedOk, LconstOk, Alive, AllClean, Triangular, Froms, Indexing, Unmentioned, Idle, Spares,
         RoundsEnd, Untouched, Covers, RoundRun;
    RoundsReady(smp, before.stored, before.linear, before.lconst, before.deleted);
    NoRounds(before.stored, before.linear, before.lconst, before.deleted, smp.forbidden, smp.maxSignal, smp.field);
    UnroundedSpares(smp, before.stored, before.linear, before.lconst, before.deleted);
    CoversIndexing(index, before.stored);
  }

  /** The rounds, unless linear simplification is off. */
  method ApplyRounds(smp: Simplifier, storage: ConstraintStorage, withLinear: seq<Constraint>, lconst: seq<Constraint>,
                     deleted: set<nat>,
                     ghost constants: seq<Constraint>, ghost defs: seq<Substitution>)
    returns (index: SignalToConstraints, linear': seq<Constraint>, lconst': seq<Constraint>, deleted': set<nat>,
      ghost defs': seq<Substitution>, ghost states: seq<RoundState>)
    requires Valid(smp) && ObtainedOk(storage.constraints, withLinear, deleted, smp.maxSignal, smp.field)
    requires LconstOk(lconst, deleted, smp.maxSignal, smp.field) && (!smp.flagS ==>
             AllKept(lconst, smp.forbidden, smp.field))
    requires Triangular(defs) && Froms(defs) == deleted && deleted !! smp.forbidden
    requires Faithful(smp, constants, defs, storage.constraints, withLinear, lconst)
    requires Untouched(smp, storage.constraints, withLinear, lconst) && Froms(defs) !! Unmentioned(smp)
    modifies storage
    ensures smp.field > 0 && WellFormedDag(smp.encoding)
    ensures RoundsForm(smp, index, RoundState(storage.constraints, linear', lconst', deleted'), defs')
    ensures Faithful(smp, constants, defs', storage.constraints, linear', lconst')
    ensures RoundsChain(smp, states, RoundState(old(storage.constraints), withLinear, lconst, deleted),
                        RoundState(storage.constraints, linear', lconst', deleted'))
    ensures defs <= defs' && (smp.flagS ==> defs' == defs)
    ensures AllBelow(deleted, smp.maxSignal) ==> AllBelow(deleted', smp.maxSignal)
  {
    SingleReady(smp);
    assert WellFormedDag(smp.encoding);
    ghost var before := RoundState(storage.constraints, withLinear, lconst, deleted);
    IdleApart(smp);
    hide Valid, Prime, ObtainedOk, RoundOk, LconstOk, AllKept, Triangular, Froms, Faithful, NewDefs, Equivalent,
         Covers, WellFormedDag, Unmentioned, Idle, Untouched, Spares, Signals, RoundRun, AllBelow, RoundsForm,
         RoundsChain, Mentioned;
    index := BuildNonLinearSignalMap(storage);
    BuiltSpares(smp, before.stored, index, withLinear, lconst);
    linear', lconst', deleted', defs' := withLinear, lconst, deleted, defs;
    states := [before];
    if smp.flagS {
      RoundsOff(smp, index, before, defs);
    } else {
      RoundsOk(smp, before.stored, index, withLinear, lconst, deleted);
      var rounds := if smp.noRounds > 0 then smp.noRounds - 1 else 0;
      ghost var more;
      index, linear', lconst', deleted', more, states := RunRounds(storage, index, withLinear, lconst, deleted,
        smp.forbidden, smp.maxSignal, smp.field, smp.flagOldHeuristics, rounds, Idle(smp));
      defs' := defs + more;
      RoundsFaithful(smp, constants, defs, before.stored, withLinear, lconst, storage.constraints, linear', lconst',
        more);
      ghost var after := RoundState(storage.constraints, linear', lconst', deleted');
      RoundsForward(smp, index, after, defs, more);
      RoundsChained(smp, states, before, after);
    }
  }

  ghost predicate AllBelow(signals: set<nat>, bound: nat) {
    forall x :: x in signals ==> x < bound
  }

  lemma NewBelow(subs: seq<Substitution>, deleted: set<nat>, forbidden: set<nat>, bound: nat)
    requires NewDefs(subs, deleted, forbidden, bound)
    ensures AllBelow(deleted, bound) ==> AllBelow(deleted + Froms(subs), bound)
  {
    hide Triangular;
  }

  /** The rounds left when the frames are done: they count as the first. */
  function Budget(smp: Simplifier): nat {
    if smp.flagS || smp.noRounds == 0 then 0 else smp.noRounds - 1
  }

  /** With linear simplification on, a linear constraint on a signal that may go is left only when the budget of
      rounds was used up, each of them defining a signal. */
  ghost predicate RoundsEnd(smp: Simplifier, stored: seq<Constraint>, linear: seq<Constraint>, lconst: seq<Constraint>,
                            deleted: set<nat>) {
    && NonLinearOrEmpty(stored) && AllKept(lconst, smp.forbidden, smp.field)
    && (linear == [] || |deleted| >= Budget(smp))
  }

  lemma RoundsEnded(smp: Simplifier, stored: seq<Constraint>, index: SignalToConstraints, linear: seq<Constraint>,
                    lconst: seq<Constraint>, before: set<nat>, deleted: set<nat>, more: seq<Substitution>)
    requires RoundOk(stored, index, linear, lconst, deleted, smp.forbidden, smp.maxSignal, smp.field)
    requires deleted == before + Froms(more) && (linear == [] || |Froms(more)| >= Budget(smp))
    ensures RoundsEnd(smp, stored, linear, lconst, deleted)
  {
    hide Covers, AllStored, Alive, AllLinear, NonLinearOrEmpty, AllKept, Froms;
    SubsetSize(Froms(more), deleted);
  }

  lemma BuiltSpares(smp: Simplifier, stored: seq<Constraint>, index: SignalToConstraints, linear: seq<Constraint>,
                    lconst: seq<Constraint>)
    requires WellFormedDag(smp.encoding) && Untouched(smp, stored, linear, lconst) && 0 !in Idle(smp)
    requires forall x :: x in index ==> exists i :: 0 <= i < |stored| && x in Signals(stored[i])
    ensures Spares(stored, index, linear, Idle(smp), smp.maxSignal)
  {
    hide Signals, Idle;
    forall x | x in index
      ensures x !in Idle(smp)
    {
      var i :| 0 <= i < |stored| && x in Signals(stored[i]);
      assert AliveOne(stored[i], Idle(smp), smp.maxSignal);
    }
  }

  lemma RoundsSpare(smp: Simplifier, stored: seq<Constraint>, index: SignalToConstraints, linear: seq<Constraint>,
                    lconst: seq<Constraint>, deleted: set<nat>, defs: seq<Substitution>, more: seq<Substitution>)
    requires Valid(smp) && RoundOk(stored, index, linear, lconst, deleted, smp.forbidden, smp.maxSignal, smp.field)
    requires Triangular(defs) && NewDefs(more, Froms(defs), smp.forbidden, smp.maxSignal)
    requires Froms(defs) !! Unmentioned(smp) && Froms(more) !! Idle(smp)
    ensures LconstOk(lconst, Idle(smp), smp.maxSignal, smp.field) && Froms(defs + more) !! Unmentioned(smp)
  {
    hide Valid, WellFormedDag, Covers, AllStored, Alive, AllLinear, NonLinearOrEmpty, AllKept, Triangular, Froms,
         LconstOk, Idle, Unmentioned;
    IdleApart(smp);
    KeptAlive(lconst, smp, Idle(smp));
    TriangularAppend(defs, more);
  }

  lemma UnroundedSpares(smp: Simplifier, stored: seq<Constraint>, linear: seq<Constraint>, lconst: seq<Constraint>,
                        deleted: set<nat>)
    requires Valid(smp) && smp.flagS && Untouched(smp, stored, linear, lconst) &&
             LconstOk(lconst, deleted, smp.maxSignal, smp.field)
    ensures LconstOk(lconst, Idle(smp), smp.maxSignal, smp.field)
  {
    hide Valid, Alive, Idle, LinearForm;
  }

  lemma RoundsReady(smp: Simplifier, stored: seq<Constraint>, linear: seq<Constraint>, lconst: seq<Constraint>,
                    deleted: set<nat>)
    requires ObtainedOk(stored, linear, deleted, smp.maxSignal, smp.field)
    ensures Alive(stored, deleted, smp.maxSignal) && Alive(linear, deleted, smp.maxSignal)
    ensures AllClean(stored, smp.field) && AllClean(linear, smp.field)
  {
    hide Alive, AllLinear, CleanConstraint;
    LinearClean(linear, smp.field);
  }

  lemma RoundsOk(smp: Simplifier, stored: seq<Constraint>, index: SignalToConstraints, linear: seq<Constraint>,
                 lconst: seq<Constraint>, deleted: set<nat>)
    requires Valid(smp) && ObtainedOk(stored, linear, deleted, smp.maxSignal, smp.field) && Covers(index, stored)
    requires AllKept(lconst, smp.forbidden, smp.field) && deleted !! smp.forbidden
    ensures RoundOk(stored, index, linear, lconst, deleted, smp.forbidden, smp.maxSignal, smp.field)
  {
    hide Valid, Covers, AllStored, Alive, AllLinear, NonLinearOrEmpty, AllKept, Prime;
    SingleReady(smp);
  }

  lemma RoundsDone(smp: Simplifier, stored: seq<Constraint>, index: SignalToConstraints, linear: seq<Constraint>,
                   lconst: seq<Constraint>,
                   deleted: set<nat>, defs: seq<Substitution>, more: seq<Substitution>)
    requires Valid(smp) && RoundOk(stored, index, linear, lconst, deleted, smp.forbidden, smp.maxSignal, smp.field)
    requires Triangular(defs) && NewDefs(more, Froms(defs), smp.forbidden, smp.maxSignal) &&
             deleted == Froms(defs) + Froms(more)
    ensures Alive(stored, deleted, smp.maxSignal) && Alive(linear, deleted, smp.maxSignal) && Indexing(index, stored)
    ensures AllClean(stored, smp.field) && AllClean(linear, smp.field)
    ensures LconstOk(lconst, deleted, smp.maxSignal, smp.field) && deleted !! smp.forbidden
    ensures Triangular(defs + more) && Froms(defs + more) == deleted
  {
    LinearClean(linear, smp.field);
    assert AllClean(stored, smp.field);
    hide Valid, Covers, AllStored, Alive, AllLinear, AllClean, NonLinearOrEmpty, AllKept, Triangular, Froms, LconstOk,
         Indexing;
    CoversIndexing(index, stored);
    KeptAlive(lconst, smp, deleted);
    TriangularAppend(defs, more);
  }

  // ---- What the result means

  /** Everything there is to say about a simplified circuit: its constraints, the definitions that lead
      back to the eliminated signals, the numbering of the wires and the private inputs left. */
  datatype Outcome = Outcome(constraints: seq<Constraint>, definitions: seq<Substitution>, constants: seq<Constraint>,
                             signalMap: SignalMap, privateInputs: nat)

  ghost predicate Meaning(smp: Simplifier, r: Outcome)
    requires WellFormedDag(smp.encoding)
  {
    && Renamed(smp, r.constants)
    && forall s :: Effective(smp, r.constants, s) <==>
         AllSat(r.constraints, s, smp.field) && AllHold(r.definitions, s, smp.field)
  }

  /** The constant equalities with equal signals identified, which decide whether anything is lost. */
  ghost predicate RenamedInput(smp: Simplifier, constants: seq<Constraint>)
    requires smp.field > 0
  {
    exists renames :: IsRenaming(renames, smp.equalities, smp.forbidden) &&
      constants == FrameAll(smp.consEqualities, renames, smp.field)
  }

  /** No dangling wire: constraints mention numbered signals only, none of them eliminated, and what
      must stay has a number, the public prefix its own. */
  ghost predicate Wired(smp: Simplifier, r: Outcome) {
    && Triangular(r.definitions) && Froms(r.definitions) !! smp.forbidden && Froms(r.definitions) !! r.signalMap.Keys
    && (forall c :: c in r.constraints ==> !IsEmpty(c) && Signals(c) <= r.signalMap.Keys)
    && Numbering(r.signalMap) && smp.forbidden <= r.signalMap.Keys && (forall x :: x in r.signalMap ==>
      x < smp.maxSignal)
    && (forall x :: 0 <= x <= smp.noPublicOutputs + smp.noPublicInputs ==> x in r.signalMap && r.signalMap[x] == x)
    && r.privateInputs == |Private(smp.noPublicOutputs + smp.noPublicInputs, smp.noPrivateInputs) * r.signalMap.Keys|
  }

  /** Idle signals have no wire, and nothing defines an unmentioned one. */
  ghost predicate Lean(smp: Simplifier, r: Outcome)
    requires WellFormedDag(smp.encoding)
  {
    r.signalMap.Keys !! Idle(smp) && Froms(r.definitions) !! Unmentioned(smp)
  }

  /** Unless rounds ran out, each defining a signal, linear constraints are left on signals that must stay only. */
  ghost predicate Settled(smp: Simplifier, r: Outcome) {
    && AllBelow(Froms(r.definitions), smp.maxSignal)
    && (!smp.flagS && |Froms(r.definitions)| < Budget(smp) ==>
          forall c :: c in r.constraints && IsLinear(c) ==> Signals(c) <= smp.forbidden)
  }

  lemma {:induction false} BelowSize(n: nat)
    ensures |Below(n)| == n
  {
    hide Below;
    if n == 0 {
      BelowNone();
    } else {
      BelowSize(n - 1);
      BelowNext(n - 1);
    }
  }

  lemma AtMostBelow(s: set<nat>, n: nat)
    requires forall x :: x in s ==> x < n
    ensures |s| <= n
  {
    BelowSize(n);
    SubsetSize(s, Below(n));
  }

  /** A budget beyond the number of signals never runs out. */
  lemma ManyRoundsSettle(smp: Simplifier, r: Outcome)
    requires Settled(smp, r) && Wired(smp, r) && 0 in smp.forbidden && !smp.flagS && smp.noRounds > smp.maxSignal
    ensures forall c :: c in r.constraints && IsLinear(c) ==> Signals(c) <= smp.forbidden
  {
    hide Signals, Triangular, Numbering, Froms, Private, IsEmpty;
    var all := Froms(r.definitions) + {0};
    assert |all| == |Froms(r.definitions)| + 1;
    AtMostBelow(all, smp.maxSignal);
  }

  /** Equal signals are identified, and constant signals replaced, as far as they may go. */
  ghost predicate EarlySettled(smp: Simplifier, r: Outcome)
    requires smp.field > 0
  {
    exists renames :: IsRenaming(renames, smp.equalities, smp.forbidden) &&
      r.constants == FrameAll(smp.consEqualities, renames, smp.field) &&
      EarlyDefined(smp, renames, r.constants, r.definitions)
  }

  lemma OutcomeMeaning(smp: Simplifier, constants: seq<Constraint>, defs: seq<Substitution>, stored: seq<Constraint>,
                       linear: seq<Constraint>,
                       lconst: seq<Constraint>, r: Outcome)
    requires WellFormedDag(smp.encoding) && smp.field > 0 && Faithful(smp, constants, defs, stored, linear, lconst)
    requires Finished(r.constraints, stored, linear, lconst, smp.field) && r.definitions == defs &&
             r.constants == constants
    ensures Meaning(smp, r)
  {
    hide Effective, Renamed, AllSat, AllHold, Finished;
    forall s: Assignment
      ensures Reached(smp, defs, stored, linear, lconst, s) <==>
              AllSat(r.constraints, s, smp.field) && AllHold(defs, s, smp.field)
    {
      FinishedMeaning(r.constraints, stored, linear, lconst, s, smp.field);
    }
    hide Reached;
  }

  lemma OutcomeWired(smp: Simplifier, r: Outcome, deleted: set<nat>, gone: set<nat>, index: SignalToConstraints)
    requires Valid(smp) && Triangular(r.definitions) && Froms(r.definitions) == deleted && deleted !! smp.forbidden
    requires Renumbered(r.signalMap, gone, smp.maxSignal, deleted, smp.forbidden, index)
    requires |r.signalMap| == Rank(smp.maxSignal, deleted, smp.forbidden, index)
    requires Alive(r.constraints, deleted, smp.maxSignal) && Indexing(index, r.constraints) && forall c ::
             c in r.constraints ==> !IsEmpty(c)
    requires r.privateInputs == InputsLeft(smp.noPublicOutputs + smp.noPublicInputs, smp.noPrivateInputs, gone)
    ensures Wired(smp, r)
  {
    hide Valid, Triangular, Rank, Froms, Numbering, Private, InputsLeft, IsEmpty, Renumbered, Indexing, Alive, Signals;
    RenumberedNumbering(r.signalMap, gone, smp.maxSignal, deleted, smp.forbidden, index);
    KeptWires(smp, r.signalMap, deleted, gone, index);
    PublicPrefix(smp, r.signalMap, deleted, gone, index);
    AllWired(smp, r, deleted, gone, index);
  }

  lemma AllWired(smp: Simplifier, r: Outcome, deleted: set<nat>, gone: set<nat>, index: SignalToConstraints)
    requires Renumbered(r.signalMap, gone, smp.maxSignal, deleted, smp.forbidden, index)
    requires Alive(r.constraints, deleted, smp.maxSignal) && Indexing(index, r.constraints)
    ensures forall c :: c in r.constraints ==> Signals(c) <= r.signalMap.Keys
  {
    hide Renumbered, Indexing, Alive, Signals;
    forall c | c in r.constraints
      ensures Signals(c) <= r.signalMap.Keys
    {
      WiredOne(smp, r, deleted, gone, index, c);
    }
  }

  lemma KeptWires(smp: Simplifier, m: SignalMap, deleted: set<nat>, gone: set<nat>, index: SignalToConstraints)
    requires Valid(smp) && deleted !! smp.forbidden && Renumbered(m, gone, smp.maxSignal, deleted, smp.forbidden, index)
    ensures smp.forbidden <= m.Keys && deleted !! m.Keys && forall x :: x in m ==> x < smp.maxSignal
    ensures var first, n := smp.noPublicOutputs + smp.noPublicInputs, smp.noPrivateInputs;
            InputsLeft(first, n, gone) == |Private(first, n) * m.Keys|
  {
    hide Valid, Rank;
    InputRanges(smp);
    var private := Private(smp.noPublicOutputs + smp.noPublicInputs, smp.noPrivateInputs);
    assert private - gone == private * m.Keys;
  }

  lemma PublicPrefix(smp: Simplifier, m: SignalMap, deleted: set<nat>, gone: set<nat>, index: SignalToConstraints)
    requires Valid(smp) && deleted !! smp.forbidden && Renumbered(m, gone, smp.maxSignal, deleted, smp.forbidden, index)
    ensures forall x :: 0 <= x <= smp.noPublicOutputs + smp.noPublicInputs ==> x in m && m[x] == x
  {
    hide Valid, Rank;
    InputRanges(smp);
    var publicWires := smp.noPublicOutputs + smp.noPublicInputs;
    forall x: nat | x <= publicWires
      ensures x in m && m[x] == x
    {
      PrefixFixed(publicWires + 1, x, deleted, smp.forbidden, index);
    }
  }

  lemma WiredOne(smp: Simplifier, r: Outcome, deleted: set<nat>, gone: set<nat>, index: SignalToConstraints,
                 c: Constraint)
    requires Renumbered(r.signalMap, gone, smp.maxSignal, deleted, smp.forbidden, index)
    requires Alive(r.constraints, deleted, smp.maxSignal) && Indexing(index, r.constraints) && c in r.constraints
    ensures Signals(c) <= r.signalMap.Keys
  {
    hide Signals, Rank;
    var i :| 0 <= i < |r.constraints| && r.constraints[i] == c;
    assert AliveOne(r.constraints[i], deleted, smp.maxSignal);
  }

  lemma InputRanges(smp: Simplifier)
    requires Valid(smp)
    ensures 0 in smp.forbidden && forall x :: x in smp.forbidden ==> x < smp.maxSignal
    ensures forall x :: 1 <= x <= smp.noPublicOutputs + smp.noPublicInputs ==> x in smp.forbidden
    ensures smp.noPublicOutputs + smp.noPublicInputs + smp.noPrivateInputs < smp.maxSignal
  {
  }

  lemma PublicStay(smp: Simplifier, m: SignalMap, deleted: set<nat>, gone: set<nat>, index: SignalToConstraints)
    requires Valid(smp) && Renumbered(m, gone, smp.maxSignal, deleted, smp.forbidden, index) && deleted !! smp.forbidden
    ensures forall x :: 1 <= x <= smp.noPublicOutputs + smp.noPublicInputs ==> x !in gone
  {
    hide Valid, Rank;
    InputRanges(smp);
  }

  /** The simplifier: its result means what its input meant, for every choice the pools, heuristics
      and hash orders make. */
  method Simplify(smp: Simplifier)
    returns (storage: ConstraintStorage, signalMap: SignalMap, privateInputs: nat, ghost outcome: Outcome)
    requires Valid(smp)
    ensures fresh(storage) && outcome.constraints == storage.constraints && outcome.signalMap == signalMap &&
            outcome.privateInputs == privateInputs
    ensures Meaning(smp, outcome) && RenamedInput(smp, outcome.constants)
    ensures Wired(smp, outcome) && AllClean(outcome.constraints, smp.field) && Lean(smp, outcome)
    ensures Settled(smp, outcome) && EarlySettled(smp, outcome)
  {
    SingleReady(smp);
    assert WellFormedDag(smp.encoding);
    hide Valid, Prime, ObtainedOk, LconstOk, AllKept, Alive, AllClean, Triangular, Froms, Faithful, Indexing,
         IsRenaming, FrameAll, WellFormedDag, Renumbered, Rank, Finished, FixAll, WithoutEmpty, Meaning, Wired,
           Private, IsEmpty, RenamedInput, Spares, Untouched, Unmentioned, Idle, Lean, Settled, EarlyDefined,
         RoundsEnd, RoundsChain;
    ghost var renames, constants, defs;
    var withLinear, lconst, deleted;
    storage, withLinear, lconst, deleted, renames, constants, defs := ApplyAllFrames(smp);
    var index, linear;
    ghost var states, framed := [], defs;
    index, linear, lconst, deleted, defs, states := ApplyRounds(smp, storage, withLinear, lconst, deleted, constants,
      defs);
    EarlyMore(smp, renames, constants, framed, defs);
    signalMap, privateInputs, outcome := Finish(smp, storage, index, linear, lconst, deleted, constants, defs);
    RenamedBy(smp, renames, constants);
  }

  lemma EarlyMore(smp: Simplifier, renames: Encoded, constants: seq<Constraint>, framed: seq<Substitution>,
                  defs: seq<Substitution>)
    requires EarlyDefined(smp, renames, constants, framed) && framed <= defs && (smp.flagS ==> defs == framed)
    ensures EarlyDefined(smp, renames, constants, defs)
  {
    hide Mentioned;
    forall x | x in Froms(framed)
      ensures x in Froms(defs)
    {
      var i :| 0 <= i < |framed| && framed[i].from == x;
      assert defs[i] == framed[i];
    }
  }

  lemma RenamedBy(smp: Simplifier, renames: Encoded, constants: seq<Constraint>)
    requires smp.field > 0 && IsRenaming(renames, smp.equalities, smp.forbidden) &&
             constants == FrameAll(smp.consEqualities, renames, smp.field)
    ensures RenamedInput(smp, constants)
  {
    hide IsRenaming, FrameAll;
  }

  /** What is left joins the store, empty constraints leave it, and the wires are renumbered. */
  method Finish(smp: Simplifier, storage: ConstraintStorage, index: SignalToConstraints, linear: seq<Constraint>,
                lconst: seq<Constraint>, deleted: set<nat>,
                ghost constants: seq<Constraint>, ghost defs: seq<Substitution>)
    returns (signalMap: SignalMap, privateInputs: nat, ghost outcome: Outcome)
    requires Valid(smp) && Alive(storage.constraints, deleted, smp.maxSignal) && Alive(linear, deleted, smp.maxSignal)
    requires LconstOk(lconst, deleted, smp.maxSignal, smp.field) && Indexing(index, storage.constraints)
    requires Triangular(defs) && Froms(defs) == deleted && deleted !! smp.forbidden
    requires Faithful(smp, constants, defs, storage.constraints, linear, lconst)
    requires AllClean(storage.constraints, smp.field) && AllClean(linear, smp.field)
    requires Spares(storage.constraints, index, linear, Idle(smp), smp.maxSignal) && Froms(defs) !! Unmentioned(smp)
    requires LconstOk(lconst, Idle(smp), smp.maxSignal, smp.field)
    requires !smp.flagS ==> RoundsEnd(smp, storage.constraints, linear, lconst, deleted)
    modifies storage
    ensures Lean(smp, outcome) && outcome.definitions == defs
    ensures AllBelow(deleted, smp.maxSignal) ==> Settled(smp, outcome)
    ensures outcome.constraints == storage.constraints && outcome.signalMap == signalMap &&
            outcome.privateInputs == privateInputs && outcome.constants == constants
    ensures Meaning(smp, outcome) && Wired(smp, outcome) && AllClean(outcome.constraints, smp.field)
  {
    SingleReady(smp);
    assert WellFormedDag(smp.encoding);
    hide Valid, Prime, LconstOk, Alive, AllClean, Triangular, Froms, Faithful, Indexing, WellFormedDag, Renumbered,
         Rank, Finished, FixAll, WithoutEmpty, Meaning, Wired, Private, IsEmpty, Spares, Lean, Unmentioned, Idle,
         Signals, Settled, RoundsEnd;
    ghost var stored := storage.constraints;
    var index' := AddIndexed(storage, index, linear);
    var fixed := FixConstants(lconst, smp.field);
    ghost var middle := index';
    index' := AddIndexed(storage, index', fixed);
    FinishedSpares(smp, stored, index, linear, lconst, middle, index');
    var removed := storage.ExtractEmpty();
    FinishedBy(storage.constraints, stored, linear, lconst, smp.field);
    FinishedAlive(storage.constraints, stored, linear, lconst, index', deleted, smp.maxSignal, smp.field);
    FinishedClean(storage.constraints, stored, linear, lconst, deleted, smp.maxSignal, smp.field);
    var gone;
    signalMap, gone, privateInputs := Renumber(smp, deleted, index');
    outcome := Outcome(storage.constraints, defs, constants, signalMap, privateInputs);
    OutcomeMeaning(smp, constants, defs, stored, linear, lconst, outcome);
    OutcomeWired(smp, outcome, deleted, gone, index');
    OutcomeLean(smp, outcome, deleted, gone, index');
    OutcomeSettled(smp, outcome, stored, linear, lconst, deleted);
  }

  lemma OutcomeSettled(smp: Simplifier, r: Outcome, stored: seq<Constraint>, linear: seq<Constraint>,
                       lconst: seq<Constraint>, deleted: set<nat>)
    requires smp.field > 0 && Finished(r.constraints, stored, linear, lconst, smp.field)
    requires Froms(r.definitions) == deleted && (!smp.flagS ==> RoundsEnd(smp, stored, linear, lconst, deleted))
    ensures AllBelow(deleted, smp.maxSignal) ==> Settled(smp, r)
  {
    hide WithoutEmpty, Fix, Froms, KeptForm, Signals;
    if !smp.flagS && |deleted| < Budget(smp) {
      var fixed := FixAll(lconst, smp.field);
      var all := stored + linear + fixed;
      forall c | c in r.constraints && IsLinear(c)
        ensures Signals(c) <= smp.forbidden
      {
        InWithoutEmpty(all, c);
        var i :| 0 <= i < |r.constraints| && r.constraints[i] == c;
        var j := FinishedFrom(r.constraints, stored, linear, fixed, i);
        assert j >= |stored|;
        FixKept(lconst[j - |stored|], smp.forbidden, smp.field);
        KeptSignals(c, smp.forbidden, smp.field);
      }
    }
  }

  lemma KeptSignals(c: Constraint, forbidden: set<nat>, p: int)
    requires KeptForm(c, forbidden, p) && IsLinear(c)
    ensures Signals(c) <= forbidden
  {
  }

  lemma FinishedSpares(smp: Simplifier, stored: seq<Constraint>, index: SignalToConstraints, linear: seq<Constraint>,
                       lconst: seq<Constraint>, middle: SignalToConstraints, index': SignalToConstraints)
    requires smp.field > 0 && WellFormedDag(smp.encoding) && Spares(stored, index, linear, Idle(smp), smp.maxSignal)
    requires LconstOk(lconst, Idle(smp), smp.maxSignal, smp.field)
    requires forall x :: x in middle ==> x in index || exists i :: 0 <= i < |linear| && x in Signals(linear[i])
    requires var fixed := FixAll(lconst, smp.field);
             forall x :: x in index' ==> x in middle || exists i :: 0 <= i < |fixed| && x in Signals(fixed[i])
    ensures index'.Keys !! Idle(smp)
  {
    hide Signals, Idle, WellFormedDag, FixAll, LconstOk, AllLinear;
    FixAllForm(lconst, Idle(smp), smp.maxSignal, smp.field);
    var fixed := FixAll(lconst, smp.field);
    forall x | x in index'
      ensures x !in Idle(smp)
    {
      if x !in middle {
        var i :| 0 <= i < |fixed| && x in Signals(fixed[i]);
        assert AliveOne(fixed[i], Idle(smp), smp.maxSignal);
      } else if x !in index {
        var i :| 0 <= i < |linear| && x in Signals(linear[i]);
        assert AliveOne(linear[i], Idle(smp), smp.maxSignal);
      }
    }
  }

  lemma OutcomeLean(smp: Simplifier, r: Outcome, deleted: set<nat>, gone: set<nat>, index: SignalToConstraints)
    requires Valid(smp) && Froms(r.definitions) !! Unmentioned(smp) && index.Keys !! Idle(smp)
    requires Renumbered(r.signalMap, gone, smp.maxSignal, deleted, smp.forbidden, index)
    ensures Lean(smp, r)
  {
    hide Valid, WellFormedDag, Froms, Unmentioned, Idle, Rank;
    IdleApart(smp);
  }

  method Renumber(smp: Simplifier, deleted: set<nat>, index: SignalToConstraints)
    returns (signalMap: SignalMap, gone: set<nat>, privateInputs: nat)
    requires Valid(smp) && deleted !! smp.forbidden
    ensures Renumbered(signalMap, gone, smp.maxSignal, deleted, smp.forbidden, index)
    ensures |signalMap| == Rank(smp.maxSignal, deleted, smp.forbidden, index)
    ensures privateInputs == InputsLeft(smp.noPublicOutputs + smp.noPublicInputs, smp.noPrivateInputs, gone)
  {
    hide Valid, Renumbered, Rank, InputsLeft;
    signalMap, gone := RebuildWitness(smp.maxSignal, deleted, smp.forbidden, index);
    PublicStay(smp, signalMap, deleted, gone, index);
    privateInputs := CountPrivateInputs(gone, smp.noPublicOutputs, smp.noPublicInputs, smp.noPrivateInputs);
  }

  lemma FinishedBy(final: seq<Constraint>, stored: seq<Constraint>, linear: seq<Constraint>, lconst: seq<Constraint>,
                   p: int)
    requires p > 0 && final == WithoutEmpty(stored + linear + FixAll(lconst, p))
    ensures Finished(final, stored, linear, lconst, p)
  {
  }

  // ---- Consequences

  /** Against the circuit as it was given: no solution is lost, and none is added when the constant
      equalities agree. */
  lemma OriginalMeaning(smp: Simplifier, r: Outcome, s: Assignment)
    requires Valid(smp) && smp.field > 0 && Meaning(smp, r) && RenamedInput(smp, r.constants)
    ensures Original(smp, s) ==> Effective(smp, r.constants, s) && AllSat(r.constants, s, smp.field)
    ensures ConstantsAgree(r.constants, smp.forbidden, smp.field) ==>
              (Effective(smp, r.constants, s) <==> Original(smp, s))
  {
    var p := smp.field;
    SingleReady(smp);
    RenamedInputConstant(smp, r.constants);
    EffectiveRenamed(smp, r.constants, s);
    assert Original(smp, s) ==> Effective(smp, r.constants, s);
    hide Valid, Original, Effective, AllConstant, ConstantsAgree, AllSat, ForceSat, RenamedInput, Prime;
    if ConstantsAgree(r.constants, smp.forbidden, p) { AgreeingForce(r.constants, smp.forbidden, s, p); }
  }

  /** Every solution of the stored constraints extends to a solution of the circuit in force that changes no
      wire, in exactly one way once the signals without a definition are fixed. */
  lemma SolutionsExtend(smp: Simplifier, r: Outcome, s: Assignment)
    requires WellFormedDag(smp.encoding) && Meaning(smp, r) && Wired(smp, r) && AllSat(r.constraints, s, smp.field)
    ensures Effective(smp, r.constants, Extend(r.definitions, s))
    ensures forall k :: k in r.signalMap ==> Extend(r.definitions, s)(k) == s(k)
    ensures forall t :: Effective(smp, r.constants, t) && SameOutside(s, t, Froms(r.definitions), smp.field) ==>
            SameOutside(Extend(r.definitions, s), t, {}, smp.field)
  {
    var defs, p := r.definitions, smp.field;
    var e := Extend(defs, s);
    assert forall k :: k in r.signalMap ==> k !in Froms(defs);
    assert forall c :: c in r.constraints ==> Signals(c) !! Froms(defs);
    assert Triangular(defs);
    hide Wired, Effective, Renamed, AllHold, Extend, Froms, Triangular, SameOutside, Signals, Sat;
    ExtendHolds(defs, s, p);
    forall i | 0 <= i < |r.constraints|
      ensures Sat(r.constraints[i], e, p)
    {
      assert r.constraints[i] in r.constraints;
      SatOutside(r.constraints[i], s, e, Froms(defs), p);
    }
    forall t | Effective(smp, r.constants, t) && SameOutside(s, t, Froms(defs), p)
      ensures SameOutside(e, t, {}, p)
    {
      ExtendUnique(defs, s, t, p);
    }
  }

  /** The circuit is unsatisfiable when constant equalities disagree. */
  lemma DisagreementUnsatisfiable(smp: Simplifier, constants: seq<Constraint>, s: Assignment)
    requires Valid(smp) && smp.field > 0 && Renamed(smp, constants) && RenamedInput(smp, constants) && Original(smp, s)
    ensures ConstantsAgree(constants, smp.forbidden, smp.field)
  {
    var p, defs := smp.field, Definitions(constants, smp.forbidden, smp.field);
    SingleReady(smp);
    RenamedInputConstant(smp, constants);
    EffectiveRenamed(smp, constants, s);
    hide Valid, Renamed, RenamedInput, Original, Effective, Prime, AllConstant, AllSat, ConstantsAgree, Definitions,
         ConstantDefinition, Holds;
    ConstantsMeaning(constants, smp.forbidden, s, p);
    AgreeInput(constants, smp.forbidden, p);
    SatisfiedAgree(constants, smp.forbidden, defs, s, p);
  }

  lemma SatisfiedAgree(cs: seq<Constraint>, forbidden: set<nat>, defs: seq<Substitution>, s: Assignment, p: int)
    requires Prime(p) && AllConstant(cs, p) && defs == Definitions(cs, forbidden, p) && AllHold(defs, s, p)
    ensures Agree(defs)
  {
    assert p > 1;
    hide Prime, AllConstant, Definitions, ConstantDefinition, Holds;
    forall i, j | 0 <= i < |defs| && 0 <= j < |defs| && defs[i].from == defs[j].from
      ensures defs[i].to == defs[j].to
    {
      assert defs[i] in defs && defs[j] in defs;
      DefinitionsForm(cs, forbidden, defs[i], p);
      DefinitionsForm(cs, forbidden, defs[j], p);
      ForcedSame(defs[i], defs[j], s, p);
    }
  }

  /** The exact condition, on the input alone, under which the simplified circuit means what the circuit
      meant: the constant equalities agree, or those in force leave the circuit without a solution. */
  lemma EquivalentExactly(smp: Simplifier, r: Outcome)
    requires Valid(smp) && smp.field > 0 && Meaning(smp, r) && RenamedInput(smp, r.constants)
    ensures (forall s :: Original(smp, s) <==>
              AllSat(r.constraints, s, smp.field) && AllHold(r.definitions, s, smp.field)) <==>
            ConstantsAgree(r.constants, smp.forbidden, smp.field) || forall s :: !Effective(smp, r.constants, s)
  {
    SingleReady(smp);
    assert Renamed(smp, r.constants) && |r.constants| == |smp.consEqualities| && WellFormedDag(smp.encoding);
    hide Valid, Original, Effective, Renamed, ConstantsAgree, AllSat, AllHold, RenamedInput, WellFormedDag;
    forall s: Assignment
      ensures Original(smp, s) ==> Effective(smp, r.constants, s)
      ensures Original(smp, s) ==> ConstantsAgree(r.constants, smp.forbidden, smp.field)
      ensures ConstantsAgree(r.constants, smp.forbidden, smp.field) ==>
                (Effective(smp, r.constants, s) <==> Original(smp, s))
    {
      OriginalMeaning(smp, r, s);
      if Original(smp, s) { DisagreementUnsatisfiable(smp, r.constants, s); }
    }
  }

  lemma RenamedInputConstant(smp: Simplifier, constants: seq<Constraint>)
    requires Valid(smp) && smp.field > 0 && RenamedInput(smp, constants)
    ensures AllConstant(constants, smp.field)
  {
    SingleReady(smp);
    var renames :| IsRenaming(renames, smp.equalities, smp.forbidden) &&
      constants == FrameAll(smp.consEqualities, renames, smp.field);
    RenamingFrame(renames, smp);
    ConstantReady(smp, renames);
  }
}
