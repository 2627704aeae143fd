/** Circuits of one template, small enough to follow through the whole simplifier by hand. */
module SmallCircuits {
  import opened Field
  import opened LinearCombination
  import opened Constraints
  import opened Elimination
  import opened NonLinear
  import opened EarlyFrames

  /** A circuit without products. */
  function OneTemplate(): DAGEncoding {
    DAGEncoding(0, [EncodingNode([], false, [], [], [])], [[]])
  }

  lemma NothingFlattened()
    ensures WellFormedDag(OneTemplate()) && Flattened(OneTemplate()) == []
  {
    var enc := OneTemplate();
    assert FlatEdges(enc, 0, 0, 0) == [];
    assert Offsets([], 0) == [];
  }

  lemma SevenIsPrime()
    ensures Prime(7)
  {
    assert 7 % 2 == 1 && 7 % 3 == 1 && 7 % 4 == 3 && 7 % 5 == 2 && 7 % 6 == 1;
  }

  /** x = 2y + 1 modulo 7, with x and y removable. */
  function Linking(): Constraint {
    Constraint(map[], map[], map[0 := 6, 1 := 1, 2 := 5])
  }

  function Linked(): Simplifier {
    Simplifier(7, OneTemplate(), 0, 0, 0, {0}, [], [], [Linking()], 3, 1, false, false)
  }

  lemma LinkingForm()
    ensures CleanLinear(Linking(), 7) && Signals(Linking()) == {1, 2}
  {
    assert Linking().c.Keys == {0, 1, 2};
  }

  lemma LinkingResidual(s: Assignment)
    ensures Residual(Linking(), s) == -(6 + s(1) + 5 * s(2))
  {
    hide Dot;
    var m := Linking().c;
    DotStep(m, s, 0);
    DotStep(m - {0}, s, 1);
    DotStep(m - {0} - {1}, s, 2);
    assert m - {0} - {1} - {2} == map[];
    DotEmpty(s);
  }

  lemma LinkingMeaning(s: Assignment)
    ensures Sat(Linking(), s, 7) <==> Cong(s(1), 2 * s(2) + 1, 7)
  {
    hide Linking, Residual;
    LinkingResidual(s);
    if Sat(Linking(), s, 7) {
      var k :| Multiple(Residual(Linking(), s), 0, 7, k);
      CongBy(s(1), 2 * s(2) + 1, 7, -k - s(2) - 1);
    }
    if Cong(s(1), 2 * s(2) + 1, 7) {
      var k :| Multiple(s(1), 2 * s(2) + 1, 7, k);
      CongBy(Residual(Linking(), s), 0, 7, -k - s(2) - 1);
    }
  }

  lemma LinkedValid()
    ensures Valid(Linked()) && Flattened(Linked().encoding) == []
  {
    hide Prime, WellFormedDag, Flattened, Linking, Signals, CleanLinear, CleanConstraint;
    SevenIsPrime();
    NothingFlattened();
    LinkingForm();
  }

  /** One private input and no constraint. */
  function OneInput(): Simplifier {
    Simplifier(7, OneTemplate(), 0, 0, 1, {0}, [], [], [], 2, 1, false, false)
  }

  lemma OneInputValid()
    ensures Valid(OneInput()) && Flattened(OneInput().encoding) == []
  {
    hide Prime, WellFormedDag, Flattened, Signals, CleanLinear, CleanConstraint;
    SevenIsPrime();
    NothingFlattened();
  }
}
