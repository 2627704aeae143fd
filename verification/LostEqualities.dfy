/** A circuit whose constant equalities disagree, from the input to the simplified constraints
    (build_encoded_fast_substitutions as used by `simplification` in constraint_simplification.rs). */
module LostEqualities {
  import opened Field
  import opened LinearCombination
  import opened Constraints
  import opened Elimination
  import opened Frames
  import opened EqSimplification
  import opened ConstantEqualities
  import opened NonLinear
  import opened FrameLists
  import opened EarlyFrames
  import opened Simplification
  import opened SmallCircuits

  /** Signal 1 is the constant v, modulo 7. */
  function Fixing(v: int): Constraint {
    Constraint(map[], map[], map[0 := 7 - v, 1 := 1])
  }

  /** One template with x = 1 and x = 2 and no other constraint. */
  function Contradiction(): Simplifier {
    Simplifier(7, OneTemplate(), 0, 0, 0, {0}, [Fixing(1), Fixing(2)], [], [], 2, 1, false, false)
  }

  lemma FixingForm(v: int)
    requires 0 < v < 7
    ensures CleanLinear(Fixing(v), 7) && IsConstantEquality(Fixing(v)) && Signals(Fixing(v)) == {1}
    ensures FixedSignal(Fixing(v)) == 1
  {
    var c := Fixing(v);
    assert c.c.Keys == {0, 1};
    assert Signals(c) == {1};
  }

  lemma FixingMeaning(v: int, s: Assignment)
    requires 0 < v < 7
    ensures Sat(Fixing(v), s, 7) <==> Cong(s(1), v, 7)
  {
    var m := Fixing(v).c;
    DotStep(m, s, 0);
    DotStep(m - {0}, s, 1);
    assert m - {0} - {1} == map[];
    DotEmpty(s);
    assert Dot(m, s) == 7 - v + s(1);
    assert Residual(Fixing(v), s) == v - 7 - s(1);
    if Cong(Residual(Fixing(v), s), 0, 7) {
      var k :| Multiple(Residual(Fixing(v), s), 0, 7, k);
      CongBy(s(1), v, 7, -k - 1);
    }
    if Cong(s(1), v, 7) {
      var k :| Multiple(s(1), v, 7, k);
      CongBy(Residual(Fixing(v), s), 0, 7, -k - 1);
    }
  }

  lemma ContradictionValid()
    ensures Valid(Contradiction()) && Flattened(Contradiction().encoding) == []
  {
    hide Prime, WellFormedDag, Flattened, Fixing, Signals, CleanLinear, IsConstantEquality, CleanConstraint;
    SevenIsPrime();
    NothingFlattened();
    FixingForm(1);
    FixingForm(2);
  }

  /** The circuit has no solution. */
  lemma ContradictionUnsatisfiable(s: Assignment)
    ensures Valid(Contradiction()) && !Original(Contradiction(), s)
  {
    hide Valid, Fixing, Cong, Sat;
    ContradictionValid();
    FixingMeaning(1, s);
    FixingMeaning(2, s);
    var smp := Contradiction();
    if Original(smp, s) {
      assert Sat(smp.consEqualities[0], s, 7) && Sat(smp.consEqualities[1], s, 7);
      CongSym(s(1), 1, 7);
      CongTrans(1, s(1), 2, 7);
      CanonicalEqual(1, 2, 7);
    }
  }

  lemma NothingRenamed(renames: Encoded)
    requires IsRenaming(renames, [], {0})
    ensures renames == map[]
  {
    assert Clusters.Components([], []);
    assert RenamesOf([], [], Indices([]), {0}) && EncodedOf([]) == map[];
    assert IsRenaming(map[], [], {0});
    RenamingUnique(renames, map[], [], {0});
  }

  lemma ContradictionConstants(constants: seq<Constraint>)
    requires RenamedInput(Contradiction(), constants)
    ensures constants == [Fixing(1), Fixing(2)]
  {
    hide IsRenaming, Fix, ApplyFrame;
    var smp := Contradiction();
    var renames :| IsRenaming(renames, smp.equalities, smp.forbidden) &&
      constants == FrameAll(smp.consEqualities, renames, smp.field);
    NothingRenamed(renames);
    assert forall c :: FrameOne(c, map[], 7) == c;
  }

  /** Only the last of the two is in force, and x = 2 satisfies it. */
  lemma ContradictionEffective()
    ensures WellFormedDag(Contradiction().encoding)
    ensures Effective(Contradiction(), [Fixing(1), Fixing(2)], (k: nat) => 2)
  {
    hide Fixing, Sat, FixedSignal, Signals, CleanLinear, WellFormedDag, Flattened, IsConstantEquality, InForce;
    var cs, s: Assignment := [Fixing(1), Fixing(2)], (k: nat) => 2;
    NothingFlattened();
    SecondInForce();
    FixingMeaning(2, s);
    CongRefl(2, 7);
    assert forall i :: 0 <= i < |cs| && InForce(cs, {0}, i) ==> i == 1;
  }

  lemma SecondInForce()
    ensures !InForce([Fixing(1), Fixing(2)], {0}, 0)
  {
    hide Fixing, FixedSignal, Signals, CleanLinear, IsConstantEquality;
    var cs := [Fixing(1), Fixing(2)];
    FixingForm(1);
    FixingForm(2);
    assert FixedSignal(cs[1]) == FixedSignal(cs[0]);
  }

  /** Its simplification always has one: whatever the orders and the heuristic, x = 2 is accepted. */
  lemma ContradictionAccepted(r: Outcome)
    requires Valid(Contradiction()) && Meaning(Contradiction(), r) && RenamedInput(Contradiction(), r.constants)
    ensures AllSat(r.constraints, (k: nat) => 2, 7) && AllHold(r.definitions, (k: nat) => 2, 7)
  {
    hide Valid, Fixing, Effective, AllSat, AllHold, RenamedInput, Renamed, WellFormedDag;
    ContradictionConstants(r.constants);
    ContradictionEffective();
  }
}
