/** Signals the simplifier drops without eliminating them: what no constraint mentions loses its wire
    (rebuild_witness with remove_unused in constraint_simplification.rs). */
module IdleSignals {
  import opened Field
  import opened Constraints
  import opened Frames
  import opened FullSimplification
  import opened NonLinear
  import opened FrameChain
  import opened FrameLists
  import opened Rounds
  import opened EarlyFrames
  import opened LateFrames

  ghost predicate InCircuit(smp: Simplifier, x: nat)
    requires WellFormedDag(smp.encoding)
  {
    x in Mentioned(smp.equalities) || x in Mentioned(smp.consEqualities) || x in Mentioned(smp.linear) ||
    x in Mentioned(Flattened(smp.encoding))
  }

  /** The signals that need not stay and that no constraint of the circuit mentions. */
  ghost function Unmentioned(smp: Simplifier): set<nat>
    requires WellFormedDag(smp.encoding)
  {
    set x | 0 <= x < smp.maxSignal && x !in smp.forbidden && !InCircuit(smp, x)
  }

  /** Those, and all removable signals when linear simplification is on and no constraint is a product. */
  ghost function Idle(smp: Simplifier): set<nat>
    requires WellFormedDag(smp.encoding)
  {
    set x | 0 <= x < smp.maxSignal && x !in smp.forbidden &&
      ((!smp.flagS && Flattened(smp.encoding) == []) || !InCircuit(smp, x))
  }

  lemma IdleApart(smp: Simplifier)
    requires Valid(smp)
    ensures WellFormedDag(smp.encoding) && Unmentioned(smp) <= Idle(smp)
    ensures Idle(smp) !! smp.forbidden && 0 !in Idle(smp)
    ensures smp.flagS || Flattened(smp.encoding) != [] ==> Idle(smp) == Unmentioned(smp)
  {
    hide InCircuit, WellFormedDag;
  }

  lemma UnmentionedAlive(smp: Simplifier)
    requires Valid(smp)
    ensures WellFormedDag(smp.encoding)
    ensures Alive(smp.equalities, Unmentioned(smp), smp.maxSignal)
    ensures Alive(smp.consEqualities, Unmentioned(smp), smp.maxSignal)
    ensures Alive(smp.linear, Unmentioned(smp), smp.maxSignal)
    ensures Alive(Flattened(smp.encoding), Unmentioned(smp), smp.maxSignal)
  {
    assert WellFormedDag(smp.encoding) && Alive(smp.equalities, {}, smp.maxSignal) &&
           Alive(smp.consEqualities, {}, smp.maxSignal) && Alive(smp.linear, {}, smp.maxSignal) &&
           Alive(Flattened(smp.encoding), {}, smp.maxSignal);
    hide Valid, Alive, Mentioned, WellFormedDag;
    MissedAlive(smp.equalities, Unmentioned(smp), smp.maxSignal);
    MissedAlive(smp.consEqualities, Unmentioned(smp), smp.maxSignal);
    MissedAlive(smp.linear, Unmentioned(smp), smp.maxSignal);
    MissedAlive(Flattened(smp.encoding), Unmentioned(smp), smp.maxSignal);
  }

  lemma MissedAlive(cs: seq<Constraint>, idle: set<nat>, bound: nat)
    requires Alive(cs, {}, bound) && Mentioned(cs) !! idle
    ensures Alive(cs, idle, bound)
  {
    forall i | 0 <= i < |cs|
      ensures AliveOne(cs[i], idle, bound)
    {
      assert AliveOne(cs[i], {}, bound);
      assert forall x :: x in Signals(cs[i]) ==> cs[i] in cs && x in Keys(cs[i]) && x in Mentioned(cs);
    }
  }

  /** No frame defines or brings in an unmentioned signal. */
  lemma FramesSpare(smp: Simplifier, single: Encoded, cons: Encoded, full: Encoded, constants: seq<Constraint>,
                    linear1: seq<Constraint>, linear: seq<Constraint>)
    requires Valid(smp) && smp.field > 0 && IsRenaming(single, smp.equalities, smp.forbidden) && SingleOk(single, smp)
    requires linear1 == FrameAll(smp.linear, single, smp.field) &&
             constants == FrameAll(smp.consEqualities, single, smp.field)
    requires ConstantOk(cons, smp, single) && cons.Keys <= Mentioned(constants)
    requires linear == FrameAll(linear1, cons, smp.field) && LinearOk(full, linear, smp.forbidden, smp.field)
    ensures WellFormedDag(smp.encoding)
    ensures RenamesApart(single, Unmentioned(smp), smp.maxSignal)
    ensures (single.Keys + cons.Keys + full.Keys) !! Unmentioned(smp)
    ensures Alive(linear, Unmentioned(smp), smp.maxSignal)
  {
    var p, idle := smp.field, Unmentioned(smp);
    SingleReady(smp);
    IdleApart(smp);
    UnmentionedAlive(smp);
    RenamingSpares(smp, single, idle);
    assert AllLinear(smp.linear, p) && AllLinear(smp.consEqualities, p) && 0 !in idle;
    assert RenameFrame(single) && ConstantFrame(cons, p);
    hide Valid, IsRenaming, Unmentioned, Idle, Prime, WellFormedDag, AllLinear, Alive, RenameFrame, ConstantFrame,
         FrameAll, Mentioned, ScopedFrame;
    RenamedAlive(smp.consEqualities, single, idle, smp.maxSignal, p);
    RenamedAlive(smp.linear, single, idle, smp.maxSignal, p);
    FewerAlive(constants, idle, single.Keys, smp.maxSignal);
    FewerAlive(linear1, idle, single.Keys, smp.maxSignal);
    RenameIsFrame(single, p);
    LinearFramed(smp.linear, single, p);
    ConstantAlive(linear1, cons, idle, smp.maxSignal, p);
    FewerAlive(linear, idle, cons.Keys, smp.maxSignal);
    MentionedAlive(constants, idle, smp.maxSignal);
    MentionedAlive(linear, idle, smp.maxSignal);
  }

  lemma RenamingSpares(smp: Simplifier, single: Encoded, idle: set<nat>)
    requires Valid(smp) && IsRenaming(single, smp.equalities, smp.forbidden) && SingleOk(single, smp)
    requires Alive(smp.equalities, idle, smp.maxSignal) && 0 !in idle
    ensures single.Keys !! idle
    ensures RenamesApart(single, idle, smp.maxSignal)
  {
    hide Clusters.Components, EqSimplification.RenamesOf, EncodedOf, Mentioned, WellFormedDag;
    var clusters, subs :| Clusters.Components(clusters, smp.equalities) &&
      EqSimplification.RenamesOf(subs, clusters, EqSimplification.Indices(clusters), smp.forbidden) &&
      single == EncodedOf(subs);
    RenamesFrame(subs, clusters, smp.equalities, smp.forbidden);
    MentionedAlive(smp.equalities, idle, smp.maxSignal);
  }
}
