/** The input of the simplifier and its first two frames: signal = signal and signal = constant
    (the first half of `simplification` in constraint_simplification.rs). */
module EarlyFrames {
  import opened Field
  import opened LinearCombination
  import opened Constraints
  import opened Elimination
  import opened Equalities
  import opened Frames
  import opened FullSimplification
  import opened EqSimplification
  import opened ConstantEqualities
  import opened NonLinear
  import opened FrameChain
  import opened FrameLists
  import opened Rounds

  datatype Simplifier = Simplifier(
    field: int, encoding: DAGEncoding,
    noPublicInputs: nat, noPublicOutputs: nat, noPrivateInputs: nat,
    forbidden: set<nat>, consEqualities: seq<Constraint>, equalities: seq<Constraint>, linear: seq<Constraint>,
    maxSignal: nat, noRounds: nat, flagS: bool, flagOldHeuristics: bool)

  /** What the mapping from the template graph hands over: clean constraints sorted by kind, over the
      labels below maxSignal; the constant wire, the outputs and the public inputs must stay. */
  ghost predicate Valid(smp: Simplifier) {
    && Prime(smp.field) && WellFormedDag(smp.encoding) && 0 in smp.forbidden
    && (forall x :: x in smp.forbidden ==> x < smp.maxSignal)
    && (forall x :: 1 <= x <= smp.noPublicOutputs + smp.noPublicInputs ==> x in smp.forbidden)
    && smp.noPublicOutputs + smp.noPublicInputs + smp.noPrivateInputs < smp.maxSignal
    && (forall i :: 0 <= i < |smp.equalities| ==> CleanEquality(smp.equalities[i], smp.field))
    && AllLinear(smp.consEqualities, smp.field)
    && (forall i :: 0 <= i < |smp.consEqualities| ==> IsConstantEquality(smp.consEqualities[i]))
    && AllLinear(smp.linear, smp.field)
    && (forall c :: c in Flattened(smp.encoding) ==> CleanConstraint(c, smp.field))
    && Alive(smp.equalities, {}, smp.maxSignal) && Alive(smp.consEqualities, {}, smp.maxSignal)
    && Alive(smp.linear, {}, smp.maxSignal) && Alive(Flattened(smp.encoding), {}, smp.maxSignal)
  }

  /** The circuit before simplification. */
  ghost predicate Original(smp: Simplifier, s: Assignment)
    requires WellFormedDag(smp.encoding)
  {
    && AllSat(smp.equalities, s, smp.field) && AllSat(smp.consEqualities, s, smp.field)
    && AllSat(smp.linear, s, smp.field) && AllSat(Flattened(smp.encoding), s, smp.field)
  }

  // ---- The first frame

  ghost predicate SingleOk(full: Encoded, smp: Simplifier) {
    && RenameFrame(full) && full.Keys !! smp.forbidden
    && forall k :: k in full ==> k < smp.maxSignal && full[k].Signal? && full[k].symbol < smp.maxSignal
  }

  /** The renaming the equalities determine: one per component and forbidden set (RenamingUnique). */
  ghost predicate IsRenaming(enc: Encoded, equalities: seq<Constraint>, forbidden: set<nat>) {
    exists clusters, subs :: Clusters.Components(clusters, equalities) &&
      RenamesOf(subs, clusters, Indices(clusters), forbidden) && enc == EncodedOf(subs)
  }

  lemma RenamingUnique(one: Encoded, two: Encoded, equalities: seq<Constraint>, forbidden: set<nat>)
    requires IsRenaming(one, equalities, forbidden) && IsRenaming(two, equalities, forbidden)
    ensures one == two
  {
    hide Clusters.Components, RenamesOf, EncodedOf;
    var clusters1, subs1 :| Clusters.Components(clusters1, equalities) &&
      RenamesOf(subs1, clusters1, Indices(clusters1), forbidden) && one == EncodedOf(subs1);
    var clusters2, subs2 :| Clusters.Components(clusters2, equalities) &&
      RenamesOf(subs2, clusters2, Indices(clusters2), forbidden) && two == EncodedOf(subs2);
    SameRenamings(subs1, clusters1, subs2, clusters2, equalities, forbidden);
  }

  /** A frame and the constraints kept beside it say what some constraints said. */
  ghost predicate SameSolutions(enc: Encoded, kept: seq<Constraint>, cs: seq<Constraint>, p: int) {
    forall s :: EncodedHolds(enc, s, p) && AllSat(kept, s, p) <==> AllSat(cs, s, p)
  }

  /** A frame and the constraints kept beside it say what the constant equalities in force said. */
  ghost predicate ForcedSolutions(enc: Encoded, kept: seq<Constraint>, cs: seq<Constraint>, forbidden: set<nat>, p: int)
  {
    forall s :: EncodedHolds(enc, s, p) && AllSat(kept, s, p) <==> ForceSat(cs, forbidden, s, p)
  }

  method SingleFrame(smp: Simplifier, relevant: set<nat>)
    returns (kept: Encoded, cons: seq<Constraint>, linear: seq<Constraint>, constants: seq<Constraint>,
      deleted: set<nat>, ghost full: Encoded)
    requires Valid(smp)
    ensures IsRenaming(full, smp.equalities, smp.forbidden)
    ensures smp.field > 0 && SingleOk(full, smp) && kept == Pruned(full, relevant) && deleted == full.Keys
    ensures linear == FrameAll(smp.linear, full, smp.field) &&
            constants == FrameAll(smp.consEqualities, full, smp.field)
    ensures AllKept(cons, smp.forbidden, smp.field)
    ensures SameSolutions(full, cons, smp.equalities, smp.field)
  {
    hide Valid, Prime, CleanEquality, SingleOk, IsRenaming, RenameFrame, AllSat, AllHold, AllKept, EncodedHolds,
         RenamesOf, NonOverlapping, Signals;
    SingleReady(smp);
    var subs;
    ghost var clusters;
    subs, cons, clusters := EqSimplify(smp.equalities, smp.forbidden, smp.maxSignal, smp.field);
    var substitutions := BuildEncodedFastSubstitutions(subs);
    full := substitutions;
    SingleFacts(smp, subs, clusters);
    linear := ApplyFrameToAll(smp.linear, substitutions, smp.field);
    constants := ApplyFrameToAll(smp.consEqualities, substitutions, smp.field);
    deleted := substitutions.Keys;
    kept := RemoveNotRelevant(substitutions, relevant);
    forall s: Assignment
      ensures EncodedHolds(full, s, smp.field) && AllSat(cons, s, smp.field) <==> AllSat(smp.equalities, s, smp.field)
    {
      EncodedMeaning(subs, s, smp.field);
    }
  }

  lemma SingleReady(smp: Simplifier)
    requires Valid(smp)
    ensures Prime(smp.field) && smp.field > 1 && 0 in smp.forbidden
    ensures forall i :: 0 <= i < |smp.equalities| ==> CleanEquality(smp.equalities[i], smp.field)
    ensures forall i, x :: 0 <= i < |smp.equalities| && x in Signals(smp.equalities[i]) ==> x < smp.maxSignal
  {
    hide CleanEquality, Signals, WellFormedDag;
    forall i, x | 0 <= i < |smp.equalities| && x in Signals(smp.equalities[i])
      ensures x < smp.maxSignal
    {
      assert AliveOne(smp.equalities[i], {}, smp.maxSignal);
    }
  }

  lemma SingleFacts(smp: Simplifier, subs: seq<Substitution>, clusters: seq<Clusters.Cluster>)
    requires Valid(smp) && Clusters.Components(clusters, smp.equalities) &&
             RenamesOf(subs, clusters, Indices(clusters), smp.forbidden)
    ensures IsRenaming(EncodedOf(subs), smp.equalities, smp.forbidden)
    ensures SingleOk(EncodedOf(subs), smp) && NonOverlapping(EncodedOf(subs)) && DistinctFroms(subs)
  {
    hide Clusters.Components, RenamesOf, EncodedOf, CleanEquality, WellFormedDag, Prime, Mentioned, NonOverlapping,
         Alive;
    var enc := EncodedOf(subs);
    assert smp.field > 1 by { SingleReady(smp); }
    RenamesFrame(subs, clusters, smp.equalities, smp.forbidden);
    RenameIsFrame(enc, smp.field);
    MentionedAlive(smp.equalities, {}, smp.maxSignal);
    forall k | k in enc
      ensures k < smp.maxSignal && enc[k].Signal? && enc[k].symbol < smp.maxSignal
    {
      assert k != 0 && enc[k].symbol != 0;
    }
  }

  lemma RenamingFrame(enc: Encoded, smp: Simplifier)
    requires Valid(smp) && IsRenaming(enc, smp.equalities, smp.forbidden)
    ensures SingleOk(enc, smp)
  {
    hide Clusters.Components, RenamesOf, EncodedOf, Valid, SingleOk;
    var clusters, subs :| Clusters.Components(clusters, smp.equalities) &&
      RenamesOf(subs, clusters, Indices(clusters), smp.forbidden) && enc == EncodedOf(subs);
    SingleFacts(smp, subs, clusters);
  }

  // ---- The second frame

  ghost predicate ConstantOk(enc: Encoded, smp: Simplifier, single: Encoded) {
    ConstantFrame(enc, smp.field) && enc.Keys !! smp.forbidden && enc.Keys !! single.Keys
  }

  method ConstantStep(smp: Simplifier, constants: seq<Constraint>, linear: seq<Constraint>, deleted: set<nat>,
                      ghost single: Encoded)
    returns (cons: seq<Constraint>, substitutions: Encoded, linear': seq<Constraint>, deleted': set<nat>)
    requires Valid(smp) && smp.field > 0 && SingleOk(single, smp) && deleted == single.Keys
    requires linear == FrameAll(smp.linear, single, smp.field) &&
             constants == FrameAll(smp.consEqualities, single, smp.field)
    ensures ConstantOk(substitutions, smp, single) && deleted' == single.Keys + substitutions.Keys
    ensures substitutions.Keys == Mentioned(constants) - smp.forbidden
    ensures linear' == FrameAll(linear, substitutions, smp.field)
    ensures AllKept(cons, smp.forbidden, smp.field)
    ensures AllLinear(linear', smp.field) && Alive(linear', deleted', smp.maxSignal)
    ensures ForcedSolutions(substitutions, cons, constants, smp.forbidden, smp.field)
  {
    hide Valid, Prime, AllConstant, SingleOk, ConstantOk, FrameAll, ConstantsAgree, AllSat, AllHold, AllKept,
         EncodedHolds, NonOverlapping, Alive, AllLinear, Definitions, Kept, SameSolutions, ForcedSolutions, Mentioned;
    ConstantReady(smp, single);
    var subs;
    subs, cons := ConstantEqSimplification(constants, smp.forbidden, smp.field);
    substitutions := BuildEncodedFastSubstitutions(subs);
    ConstantFacts(smp, constants, single, linear, substitutions);
    linear' := ApplyFrameToAll(linear, substitutions, smp.field);
    deleted' := deleted + substitutions.Keys;
    ConstantStepMeaning(constants, smp.forbidden, smp.field);
  }

  lemma ConstantReady(smp: Simplifier, single: Encoded)
    requires Valid(smp) && smp.field > 0 && SingleOk(single, smp)
    ensures Prime(smp.field) && AllConstant(FrameAll(smp.consEqualities, single, smp.field), smp.field)
  {
    hide CleanConstant, CleanLinear, IsConstantEquality, CleanEquality, WellFormedDag, Prime, RenameFrame, FrameAll;
    SingleReady(smp);
    assert RenameFrame(single) && AllLinear(smp.consEqualities, smp.field);
    forall i | 0 <= i < |smp.consEqualities|
      ensures CleanConstant(smp.consEqualities[i], smp.field)
    {
      ConstantEqualityClean(smp.consEqualities[i], smp.field);
    }
    RenamedConstants(smp.consEqualities, single, smp.field);
  }

  lemma ConstantFacts(smp: Simplifier, constants: seq<Constraint>, single: Encoded, linear: seq<Constraint>,
                      enc: Encoded)
    requires Valid(smp) && smp.field > 0 && SingleOk(single, smp)
    requires linear == FrameAll(smp.linear, single, smp.field) &&
             constants == FrameAll(smp.consEqualities, single, smp.field)
    requires enc == EncodedOf(Definitions(constants, smp.forbidden, smp.field))
    ensures ConstantOk(enc, smp, single) && enc.Keys == Mentioned(constants) - smp.forbidden && NonOverlapping(enc) &&
            AllKept(Kept(constants, smp.forbidden), smp.forbidden, smp.field)
    ensures AllLinear(FrameAll(linear, enc, smp.field), smp.field) &&
            Alive(FrameAll(linear, enc, smp.field), single.Keys + enc.Keys, smp.maxSignal)
  {
    hide Valid, SingleOk, Prime, CleanEquality, AllConstant, AllLinear, Alive, RenameFrame, FrameAll, Definitions,
         Kept, EncodedOf, ConstantFrame, NonOverlapping, CanonicalFrame, AllKept, Mentioned, RenamesApart;
    ConstantFactsReady(smp, single);
    ConstantReady(smp, single);
    var p := smp.field;
    ConstantsFrame(constants, smp.forbidden, p);
    ConstantsDefined(constants, smp.forbidden, p);
    ConstantIsFrame(enc, p);
    KeptIsKept(constants, smp.forbidden, p);
    RenameIsFrame(single, p);
    RenamedBelow(smp.consEqualities, single, smp.maxSignal, p);
    RenamedBelow(smp.linear, single, smp.maxSignal, p);
    LinearFramed(smp.linear, single, p);
    LinearFramed(linear, enc, p);
    ConstantAlive(linear, enc, single.Keys, smp.maxSignal, p);
    ConstantsApart(constants, single, enc, smp.maxSignal);
  }

  lemma ConstantFactsReady(smp: Simplifier, single: Encoded)
    requires Valid(smp) && smp.field > 0 && SingleOk(single, smp)
    ensures var p := smp.field;
            RenameFrame(single) && AllLinear(smp.linear, p) && AllLinear(smp.consEqualities, p)
            && Alive(smp.linear, {}, smp.maxSignal) && Alive(smp.consEqualities, {}, smp.maxSignal)
            && RenamesApart(single, {}, smp.maxSignal) && p > 1 && 0 in smp.forbidden && 0 !in single
  {
    hide Prime;
    SingleReady(smp);
  }

  lemma ConstantsApart(constants: seq<Constraint>, single: Encoded, enc: Encoded, bound: nat)
    requires Alive(constants, single.Keys, bound) && enc.Keys <= Mentioned(constants) && 0 !in enc && 0 !in single
    ensures enc.Keys !! single.Keys
  {
    hide Mentioned;
    MentionedAlive(constants, single.Keys, bound);
  }

  lemma LinearFramed(cs: seq<Constraint>, enc: Encoded, p: int)
    requires p > 0 && NonOverlapping(enc) && CanonicalFrame(enc, p) && AllLinear(cs, p)
    ensures AllLinear(FrameAll(cs, enc, p), p)
  {
    FrameAllForm(cs, enc, p);
  }

  lemma KeptIsKept(cs: seq<Constraint>, forbidden: set<nat>, p: int)
    requires AllConstant(cs, p)
    ensures AllKept(Kept(cs, forbidden), forbidden, p)
  {
    hide FixedSignal, Kept;
    var kept := Kept(cs, forbidden);
    forall i | 0 <= i < |kept|
      ensures KeptForm(kept[i], forbidden, p)
    {
      assert kept[i] in kept;
      InKept(cs, forbidden, kept[i]);
      var j :| 0 <= j < |cs| && cs[j] == kept[i];
      OneSignal(cs[j], p);
    }
  }

  lemma ConstantStepMeaning(constants: seq<Constraint>, forbidden: set<nat>, p: int)
    requires Prime(p) && AllConstant(constants, p)
    ensures ForcedSolutions(EncodedOf(Definitions(constants, forbidden, p)), Kept(constants, forbidden), constants,
              forbidden, p)
  {
    hide Prime, AllConstant, EncodedOf, Definitions, Kept, AllSat, EncodedHolds, ForceSat;
    var frame, kept := EncodedOf(Definitions(constants, forbidden, p)), Kept(constants, forbidden);
    forall s: Assignment
      ensures EncodedHolds(frame, s, p) && AllSat(kept, s, p) <==> ForceSat(constants, forbidden, s, p)
    {
      ForceMeaning(constants, forbidden, s, p);
    }
  }
}
