/** The second frame: signal = constant (constant_eq_simplification in constraint_simplification.rs). */
module ConstantEqualities {
  import opened Field
  import opened LinearCombination
  import opened Constraints
  import opened Elimination
  import opened SortedSets
  import opened Frames

  /** One signal and a constant, the form signal_equals_constant recognises. */
  predicate IsConstantEquality(c: Constraint) {
    && c.a == map[] && c.b == map[]
    && ((0 in c.c && |c.c| == 2) || (0 !in c.c && |c.c| == 1))
  }

  ghost predicate CleanConstant(c: Constraint, p: int) {
    CleanLinear(c, p) && |Signals(c)| == 1
  }

  lemma ConstantEqualityClean(c: Constraint, p: int)
    requires CleanLinear(c, p) && IsConstantEquality(c)
    ensures CleanConstant(c, p)
  {
    assert Signals(c) == c.c.Keys - {0};
  }

  /** The signal the constraint fixes: the last of its signals in order. */
  function FixedSignal(c: Constraint): (x: nat)
    ensures Signals(c) != {} ==> x in Signals(c)
  {
    if Signals(c) == {} then 0 else
      var ordered := Ascending(Signals(c));
      assert Least(Signals(c)) in ordered;
      ordered[|ordered| - 1]
  }

  lemma OneSignal(c: Constraint, p: int)
    requires CleanConstant(c, p)
    ensures Signals(c) == {FixedSignal(c)} && FixedSignal(c) in c.c && FixedSignal(c) != 0
    ensures c.c.Keys <= {0, FixedSignal(c)}
  {
    var x := FixedSignal(c);
    assert |Signals(c)| == 1;
    assert |Signals(c) - {x}| == 0;
    assert Signals(c) == {x};
    forall k | k in c.c && k != 0 ensures k == x { assert k in Signals(c); }
  }

  /** The definition a constant equality yields. */
  function Definition(c: Constraint, p: int): Option<Substitution> {
    if p >= 2 && FixedSignal(c) in c.c && FixedSignal(c) != 0 then ClearNormalized(c.c, FixedSignal(c), p) else None
  }

  lemma DefinitionMeaning(c: Constraint, p: int)
    requires Prime(p) && CleanConstant(c, p)
    ensures Signals(c) != {} && FixedSignal(c) != 0 && FixedSignal(c) in Signals(c)
    ensures Definition(c, p).Some?
    ensures var d := Definition(c, p).value; d.from == FixedSignal(c) && d.to.Keys <= {0} && Clean(d.to, p)
    ensures forall s :: Holds(Definition(c, p).value, s, p) <==> Sat(c, s, p)
  {
    hide Cong, Dot, ClearNormalized, FixedSignal, Signals, Sat, Holds;
    OneSignal(c, p);
    var x := FixedSignal(c);
    ClearedForm(c.c, x, p);
    forall s: Assignment
      ensures Holds(Definition(c, p).value, s, p) <==> Sat(c, s, p)
    {
      ClearNormalizedMeaning(c.c, x, s, p);
      LinearSat(c, s, p);
    }
  }

  lemma ClearedForm(m: LC, x: nat, p: int)
    requires Prime(p) && x in m && x != 0 && Clean(m, p) && m.Keys <= {0, x}
    ensures ClearNormalized(m, x, p).Some?
    ensures var d := ClearNormalized(m, x, p).value; d.from == x && d.to.Keys <= {0} && Clean(d.to, p)
  {
    hide Cong, Dot, Scale;
    var any: Assignment := (k: nat) => 0;
    ClearNormalizedMeaning(m, x, any, p);
  }

  /** Definitions of the signals that may go, in the order of the constraints. */
  function Definitions(cs: seq<Constraint>, forbidden: set<nat>, p: int): seq<Substitution> {
    if cs == [] then [] else
      var c := cs[|cs| - 1];
      Definitions(cs[..|cs| - 1], forbidden, p) +
      if FixedSignal(c) in forbidden || Definition(c, p).None? then [] else [Definition(c, p).value]
  }

  /** The constraints on signals that must stay. */
  function Kept(cs: seq<Constraint>, forbidden: set<nat>): seq<Constraint> {
    if cs == [] then [] else
      var c := cs[|cs| - 1];
      Kept(cs[..|cs| - 1], forbidden) + if FixedSignal(c) in forbidden then [c] else []
  }

  method ConstantEqSimplification(constraints: seq<Constraint>, forbidden: set<nat>, p: int)
    returns (subs: seq<Substitution>, cons: seq<Constraint>)
    requires Prime(p) && AllConstant(constraints, p)
    ensures subs == Definitions(constraints, forbidden, p) && cons == Kept(constraints, forbidden)
  {
    hide Prime, Definition, Signals, FixedSignal, CleanConstant, Ascending;
    subs, cons := [], [];
    for i := 0 to |constraints|
      invariant subs == Definitions(constraints[..i], forbidden, p) && cons == Kept(constraints[..i], forbidden)
    {
      assert constraints[..i + 1][..i] == constraints[..i];
      var constraint := constraints[i];
      DefinitionMeaning(constraint, p);
      LastSignal(constraint);
      var signals := Ascending(Signals(constraint));
      var signal := signals[|signals| - 1];
      if signal in forbidden {
        cons := cons + [constraint];
      } else {
        var sub := Definition(constraint, p).value;
        subs := subs + [sub];
      }
    }
    assert constraints[..|constraints|] == constraints;
  }

  lemma LastSignal(c: Constraint)
    requires Signals(c) != {}
    ensures var ordered := Ascending(Signals(c)); |ordered| > 0 && ordered[|ordered| - 1] == FixedSignal(c)
  {
  }

  lemma SatSnoc(cs: seq<Constraint>, c: Constraint, s: Assignment, p: int)
    ensures AllSat(cs + [c], s, p) <==> AllSat(cs, s, p) && Sat(c, s, p)
  {
    hide Sat;
    var all := cs + [c];
    if AllSat(all, s, p) {
      assert all[|cs|] == c;
      assert forall i :: 0 <= i < |cs| ==> all[i] == cs[i];
    }
  }

  lemma HoldSnoc(subs: seq<Substitution>, d: Substitution, s: Assignment, p: int)
    ensures AllHold(subs + [d], s, p) <==> AllHold(subs, s, p) && Holds(d, s, p)
  {
    hide Holds;
    var all := subs + [d];
    if AllHold(all, s, p) {
      assert all[|subs|] == d;
      assert forall i :: 0 <= i < |subs| ==> all[i] == subs[i];
    }
  }

  ghost predicate AllConstant(cs: seq<Constraint>, p: int) {
    forall i :: 0 <= i < |cs| ==> CleanConstant(cs[i], p)
  }

  /** Definitions and kept constraints together say what the constant equalities said. */
  lemma {:induction false} ConstantsMeaning(cs: seq<Constraint>, forbidden: set<nat>, s: Assignment, p: int)
    requires Prime(p) && AllConstant(cs, p)
    ensures AllHold(Definitions(cs, forbidden, p), s, p) && AllSat(Kept(cs, forbidden), s, p) <==> AllSat(cs, s, p)
  {
    hide Prime, CleanConstant, Definition, Sat, Holds, Signals, FixedSignal, AllHold, AllSat;
    if cs == [] {
      assert AllHold([], s, p) && AllSat([], s, p) by { NothingHolds(s, p); }
    } else {
      var n := |cs| - 1;
      ConstantsMeaning(cs[..n], forbidden, s, p);
      DefinitionMeaning(cs[n], p);
      assert cs == cs[..n] + [cs[n]];
      SatSnoc(cs[..n], cs[n], s, p);
      SatSnoc(Kept(cs[..n], forbidden), cs[n], s, p);
      HoldSnoc(Definitions(cs[..n], forbidden, p), Definition(cs[n], p).value, s, p);
      var d := Definition(cs[n], p).value;
      if FixedSignal(cs[n]) in forbidden {
        assert Definitions(cs, forbidden, p) == Definitions(cs[..n], forbidden, p);
        assert Kept(cs, forbidden) == Kept(cs[..n], forbidden) + [cs[n]];
      } else {
        assert Definitions(cs, forbidden, p) == Definitions(cs[..n], forbidden, p) + [d];
        assert Kept(cs, forbidden) == Kept(cs[..n], forbidden);
      }
    }
  }

  lemma NothingHolds(s: Assignment, p: int)
    ensures AllHold([], s, p) && AllSat([], s, p)
  {
  }

  /** Constant definitions: canonical, zero-free, mentioning no signal. */
  ghost predicate ConstantDefinition(d: Substitution, p: int) {
    d.from != 0 && d.to.Keys <= {0} && Clean(d.to, p)
  }

  ghost predicate Defines(c: Constraint, forbidden: set<nat>, d: Substitution, p: int) {
    FixedSignal(c) !in forbidden && Definition(c, p) == Some(d)
  }

  lemma {:induction false} InDefinitions(cs: seq<Constraint>, forbidden: set<nat>, d: Substitution, p: int)
    ensures d in Definitions(cs, forbidden, p) <==> exists i :: 0 <= i < |cs| && Defines(cs[i], forbidden, d, p)
  {
    hide Definition, FixedSignal;
    if cs != [] {
      var n := |cs| - 1;
      var before := cs[..n];
      InDefinitions(before, forbidden, d, p);
      assert Defines(cs[n], forbidden, d, p) ==> d in Definitions(cs, forbidden, p);
      hide Defines;
      assert forall i :: 0 <= i < n ==> before[i] == cs[i];
    }
  }

  lemma DefinitionsForm(cs: seq<Constraint>, forbidden: set<nat>, d: Substitution, p: int)
    requires Prime(p) && AllConstant(cs, p) && d in Definitions(cs, forbidden, p)
    ensures ConstantDefinition(d, p) && d.from !in forbidden
    ensures exists i :: 0 <= i < |cs| && d.from in Signals(cs[i])
  {
    hide Definition, FixedSignal, Definitions, Signals, CleanConstant;
    InDefinitions(cs, forbidden, d, p);
    var i :| 0 <= i < |cs| && Defines(cs[i], forbidden, d, p);
    DefinitionMeaning(cs[i], p);
  }

  // ---- The encoded map keeps only the last definition of a signal

  ghost predicate Agree(subs: seq<Substitution>) {
    forall i, j :: 0 <= i < |subs| && 0 <= j < |subs| && subs[i].from == subs[j].from ==> subs[i].to == subs[j].to
  }

  lemma ConstantValue(m: LC, s: Assignment)
    requires m.Keys <= {0}
    ensures Dot(m, s) == At(m, 0)
  {
    if 0 in m {
      assert m == map[0 := m[0]];
      DotSingle(0, m[0], s);
    } else {
      assert m == map[];
      DotEmpty(s);
    }
  }

  lemma SameConstant(m: LC, n: LC, p: int)
    requires m.Keys <= {0} && n.Keys <= {0} && Clean(m, p) && Clean(n, p) && Cong(At(m, 0), At(n, 0), p) && p > 0
    ensures m == n
  {
    CanonicalEqual(At(m, 0), At(n, 0), p);
  }

  /** The assignment that gives every defined signal its constant satisfies the encoded map. */
  lemma ConstantsSatisfiable(subs: seq<Substitution>, p: int) returns (s: Assignment)
    requires p > 1 && forall d :: d in subs ==> ConstantDefinition(d, p)
    ensures EncodedHolds(EncodedOf(subs), s, p)
  {
    var enc := EncodedOf(subs);
    s := (k: nat) => if k in enc then At(To(enc[k]), 0) else 0;
    forall k | k in enc
      ensures Holds(Substitution(k, To(enc[k])), s, p)
    {
      var i := EncodedEntry(subs, k);
      assert subs[i] in subs;
      IntoExprTo(subs[i].to, k, s, p);
      ConstantValue(To(enc[k]), s);
      CongRefl(At(To(enc[k]), 0), p);
    }
  }

  /** The encoded map means the same as the list of constant definitions if and only if all
      definitions of one signal agree: with a disagreement the map is satisfiable, the list is not. */
  lemma EncodedConstantsExact(subs: seq<Substitution>, p: int)
    requires p > 1 && forall d :: d in subs ==> ConstantDefinition(d, p)
    ensures Agree(subs) <==> forall s :: EncodedHolds(EncodedOf(subs), s, p) <==> AllHold(subs, s, p)
  {
    if Agree(subs) {
      hide ConstantDefinition, Holds, IntoExpr, To;
      forall s: Assignment
        ensures EncodedHolds(EncodedOf(subs), s, p) <==> AllHold(subs, s, p)
      {
        AgreeingMeaning(subs, s, p);
      }
    }
    if forall s :: EncodedHolds(EncodedOf(subs), s, p) <==> AllHold(subs, s, p) {
      var s := ConstantsSatisfiable(subs, p);
      forall i, j | 0 <= i < |subs| && 0 <= j < |subs| && subs[i].from == subs[j].from
        ensures subs[i].to == subs[j].to
      {
        assert subs[i] in subs && subs[j] in subs;
        assert Holds(subs[i], s, p) && Holds(subs[j], s, p);
        ForcedSame(subs[i], subs[j], s, p);
      }
    }
  }

  lemma ForcedSame(d: Substitution, e: Substitution, s: Assignment, p: int)
    requires p > 1 && ConstantDefinition(d, p) && ConstantDefinition(e, p) && d.from == e.from
    requires Holds(d, s, p) && Holds(e, s, p)
    ensures d.to == e.to
  {
    hide Cong, Dot;
    ConstantValue(d.to, s);
    ConstantValue(e.to, s);
    CongSym(Val(s, d.from), Dot(d.to, s), p);
    CongTrans(Dot(d.to, s), Val(s, d.from), Dot(e.to, s), p);
    SameConstant(d.to, e.to, p);
  }

  lemma AgreeingMeaning(subs: seq<Substitution>, s: Assignment, p: int)
    requires Agree(subs)
    ensures EncodedHolds(EncodedOf(subs), s, p) <==> AllHold(subs, s, p)
  {
    hide Holds, IntoExpr, To;
    var enc := EncodedOf(subs);
    if AllHold(subs, s, p) { EncodedSound(subs, s, p); }
    if EncodedHolds(enc, s, p) {
      forall i | 0 <= i < |subs|
        ensures Holds(subs[i], s, p)
      {
        var k := subs[i].from;
        EncodedKeys(subs, k);
        var j := EncodedEntry(subs, k);
        IntoExprTo(subs[j].to, k, s, p);
        assert subs[i] == Substitution(k, subs[j].to);
      }
    }
  }

  /** The condition on the input: constraints that fix one removable signal fix it to one constant. */
  ghost predicate ConstantsAgree(cs: seq<Constraint>, forbidden: set<nat>, p: int) {
    forall i, j ::
      0 <= i < |cs| && 0 <= j < |cs| && FixedSignal(cs[i]) == FixedSignal(cs[j]) && FixedSignal(cs[i]) !in forbidden ==>
        Definition(cs[i], p) == Definition(cs[j], p)
  }

  lemma AgreeInput(cs: seq<Constraint>, forbidden: set<nat>, p: int)
    requires Prime(p) && AllConstant(cs, p)
    ensures Agree(Definitions(cs, forbidden, p)) <==> ConstantsAgree(cs, forbidden, p)
  {
    hide Prime, Definition, Signals, ConstantDefinition, Definitions, FixedSignal, CleanConstant;
    var subs := Definitions(cs, forbidden, p);
    if ConstantsAgree(cs, forbidden, p) {
      forall i, j | 0 <= i < |subs| && 0 <= j < |subs| && subs[i].from == subs[j].from
        ensures subs[i].to == subs[j].to
      {
        InDefinitions(cs, forbidden, subs[i], p);
        InDefinitions(cs, forbidden, subs[j], p);
        var k :| 0 <= k < |cs| && Defines(cs[k], forbidden, subs[i], p);
        var l :| 0 <= l < |cs| && Defines(cs[l], forbidden, subs[j], p);
        DefinitionMeaning(cs[k], p);
        DefinitionMeaning(cs[l], p);
      }
    }
    if Agree(subs) {
      forall k, l | 0 <= k < |cs| && 0 <= l < |cs| && FixedSignal(cs[k]) == FixedSignal(cs[l]) &&
        FixedSignal(cs[k]) !in forbidden
        ensures Definition(cs[k], p) == Definition(cs[l], p)
      {
        DefinitionMeaning(cs[k], p);
        DefinitionMeaning(cs[l], p);
        var d, e := Definition(cs[k], p).value, Definition(cs[l], p).value;
        assert Defines(cs[k], forbidden, d, p) && Defines(cs[l], forbidden, e, p);
        InDefinitions(cs, forbidden, d, p);
        InDefinitions(cs, forbidden, e, p);
      }
    }
  }

  /** The frame built from constant equalities loses nothing exactly when they agree. */
  lemma ConstantFrameExact(cs: seq<Constraint>, forbidden: set<nat>, p: int)
    requires Prime(p) && AllConstant(cs, p)
    ensures ConstantsAgree(cs, forbidden, p) <==>
            forall s :: EncodedHolds(EncodedOf(Definitions(cs, forbidden, p)), s, p) <==>
              AllHold(Definitions(cs, forbidden, p), s, p)
  {
    var subs := Definitions(cs, forbidden, p);
    forall d | d in subs
      ensures ConstantDefinition(d, p)
    {
      DefinitionsForm(cs, forbidden, d, p);
    }
    AgreeInput(cs, forbidden, p);
    EncodedConstantsExact(subs, p);
  }

  // ---- What the frame says without any agreement: the last constant equality on each removable signal

  /** The constraint stays in force: its signal must stay, or no later constraint fixes the same one. */
  ghost predicate InForce(cs: seq<Constraint>, forbidden: set<nat>, i: nat)
    requires i < |cs|
  {
    FixedSignal(cs[i]) in forbidden || LastKept(cs, i)
  }

  ghost predicate LastKept(cs: seq<Constraint>, i: nat)
    requires i < |cs|
  {
    forall j :: i < j < |cs| ==> FixedSignal(cs[j]) != FixedSignal(cs[i])
  }

  ghost predicate ForceSat(cs: seq<Constraint>, forbidden: set<nat>, s: Assignment, p: int) {
    forall i :: 0 <= i < |cs| && InForce(cs, forbidden, i) ==> Sat(cs[i], s, p)
  }

  lemma {:induction false} InKept(cs: seq<Constraint>, forbidden: set<nat>, c: Constraint)
    ensures c in Kept(cs, forbidden) <==> c in cs && FixedSignal(c) in forbidden
  {
    hide FixedSignal;
    if cs != [] {
      InKept(cs[..|cs| - 1], forbidden, c);
      assert cs == cs[..|cs| - 1] + [cs[|cs| - 1]];
    }
  }

  lemma KeptSat(cs: seq<Constraint>, forbidden: set<nat>, s: Assignment, p: int)
    ensures AllSat(Kept(cs, forbidden), s, p) <==>
            forall i :: 0 <= i < |cs| && FixedSignal(cs[i]) in forbidden ==> Sat(cs[i], s, p)
  {
    hide Kept, FixedSignal, Sat;
    var kept := Kept(cs, forbidden);
    if AllSat(kept, s, p) {
      forall i | 0 <= i < |cs| && FixedSignal(cs[i]) in forbidden
        ensures Sat(cs[i], s, p)
      {
        InKept(cs, forbidden, cs[i]);
        var j :| 0 <= j < |kept| && kept[j] == cs[i];
      }
    }
    if forall i :: 0 <= i < |cs| && FixedSignal(cs[i]) in forbidden ==> Sat(cs[i], s, p) {
      forall j | 0 <= j < |kept|
        ensures Sat(kept[j], s, p)
      {
        InKept(cs, forbidden, kept[j]);
        var i :| 0 <= i < |cs| && cs[i] == kept[j];
      }
    }
  }

  /** The entries of a frame for signals outside a set. */
  ghost predicate HoldsOutside(enc: Encoded, gone: set<nat>, s: Assignment, p: int) {
    forall k :: k in enc && k !in gone ==> Holds(Substitution(k, To(enc[k])), s, p)
  }

  ghost predicate LastSat(cs: seq<Constraint>, forbidden: set<nat>, gone: set<nat>, s: Assignment, p: int) {
    forall i :: 0 <= i < |cs| && Removable(cs, forbidden + gone, i) ==> Sat(cs[i], s, p)
  }

  ghost predicate Removable(cs: seq<Constraint>, staying: set<nat>, i: nat)
    requires i < |cs|
  {
    FixedSignal(cs[i]) !in staying && LastKept(cs, i)
  }

  /** Read from the back, the map keeps for each signal the constraint met first. */
  lemma {:induction false} LastEntries(cs: seq<Constraint>, forbidden: set<nat>, gone: set<nat>, s: Assignment, p: int)
    requires Prime(p) && AllConstant(cs, p)
    ensures HoldsOutside(EncodedOf(Definitions(cs, forbidden, p)), gone, s, p) <==> LastSat(cs, forbidden, gone, s, p)
    decreases |cs|
  {
    hide Prime, CleanConstant, Definition, Sat, FixedSignal, HoldsOutside, LastSat, EncodedOf, IntoExpr;
    if cs == [] {
      NoEntries(forbidden, gone, s, p);
    } else {
      var n := |cs| - 1;
      var front, x := cs[..n], FixedSignal(cs[n]);
      DefinitionMeaning(cs[n], p);
      var d := Definition(cs[n], p).value;
      var subs := Definitions(front, forbidden, p);
      if x in forbidden {
        LastEntries(front, forbidden, gone, s, p);
        LastSkip(cs, forbidden, gone, s, p);
        assert Definitions(cs, forbidden, p) == subs;
      } else {
        assert Definitions(cs, forbidden, p) == subs + [d];
        LastEntries(front, forbidden, gone + {x}, s, p);
        LastEntries(front, forbidden, gone, s, p);
        EncodedSnoc(subs, d, gone, s, p);
        if x in gone { LastSkip(cs, forbidden, gone, s, p); } else { LastTaken(cs, forbidden, gone, s, p); }
      }
    }
  }

  lemma NoEntries(forbidden: set<nat>, gone: set<nat>, s: Assignment, p: int)
    ensures HoldsOutside(EncodedOf(Definitions([], forbidden, p)), gone, s, p) && LastSat([], forbidden, gone, s, p)
  {
  }

  lemma EncodedSnoc(subs: seq<Substitution>, d: Substitution, gone: set<nat>, s: Assignment, p: int)
    ensures d.from in gone ==>
              (HoldsOutside(EncodedOf(subs + [d]), gone, s, p) <==> HoldsOutside(EncodedOf(subs), gone, s, p))
    ensures d.from !in gone ==>
              (HoldsOutside(EncodedOf(subs + [d]), gone, s, p) <==>
               HoldsOutside(EncodedOf(subs), gone + {d.from}, s, p) && Holds(d, s, p))
  {
    assert (subs + [d])[..|subs|] == subs;
    var enc, next := EncodedOf(subs), EncodedOf(subs + [d]);
    assert next == enc[d.from := IntoExpr(d.to)];
    IntoExprTo(d.to, d.from, s, p);
    assert d == Substitution(d.from, d.to);
    hide EncodedOf, IntoExpr, To, Holds;
    if HoldsOutside(next, gone, s, p) && d.from !in gone {
      assert Holds(Substitution(d.from, To(next[d.from])), s, p);
    }
    assert forall k :: k in enc && k != d.from ==> next[k] == enc[k];
  }

  lemma LastSkip(cs: seq<Constraint>, forbidden: set<nat>, gone: set<nat>, s: Assignment, p: int)
    requires cs != [] && FixedSignal(cs[|cs| - 1]) in forbidden + gone
    ensures LastSat(cs, forbidden, gone, s, p) <==> LastSat(cs[..|cs| - 1], forbidden, gone, s, p)
  {
    hide Sat, Removable, FixedSignal;
    var n := |cs| - 1;
    var front, all := cs[..n], forbidden + gone;
    forall i | 0 <= i <= n
      ensures Removable(cs, all, i) <==> i < n && Removable(front, all, i)
    {
      SkippedAt(cs, all, i);
    }
    if LastSat(front, forbidden, gone, s, p) {
      forall i | 0 <= i < |cs| && Removable(cs, all, i)
        ensures Sat(cs[i], s, p)
      {
        assert front[i] == cs[i];
      }
    }
    if LastSat(cs, forbidden, gone, s, p) {
      forall i | 0 <= i < n && Removable(front, all, i)
        ensures Sat(front[i], s, p)
      {
        assert front[i] == cs[i];
      }
    }
  }

  lemma SkippedAt(cs: seq<Constraint>, all: set<nat>, i: nat)
    requires i < |cs| && FixedSignal(cs[|cs| - 1]) in all
    ensures Removable(cs, all, i) <==> i < |cs| - 1 && Removable(cs[..|cs| - 1], all, i)
  {
    hide FixedSignal;
    if i < |cs| - 1 { LastFront(cs, i); }
  }

  lemma LastTaken(cs: seq<Constraint>, forbidden: set<nat>, gone: set<nat>, s: Assignment, p: int)
    requires cs != [] && FixedSignal(cs[|cs| - 1]) !in forbidden + gone
    ensures LastSat(cs, forbidden, gone, s, p) <==>
            LastSat(cs[..|cs| - 1], forbidden, gone + {FixedSignal(cs[|cs| - 1])}, s, p) && Sat(cs[|cs| - 1], s, p)
  {
    hide Sat, Removable, FixedSignal;
    var n := |cs| - 1;
    var front, all, less := cs[..n], forbidden + gone, forbidden + (gone + {FixedSignal(cs[n])});
    forall i | 0 <= i <= n
      ensures Removable(cs, all, i) <==> i == n || Removable(front, less, i)
    {
      TakenAt(cs, all, less, i);
    }
    if LastSat(front, forbidden, gone + {FixedSignal(cs[n])}, s, p) && Sat(cs[n], s, p) {
      forall i | 0 <= i < |cs| && Removable(cs, all, i)
        ensures Sat(cs[i], s, p)
      {
        if i < n { assert front[i] == cs[i]; }
      }
    }
    if LastSat(cs, forbidden, gone, s, p) {
      forall i | 0 <= i < n && Removable(front, less, i)
        ensures Sat(front[i], s, p)
      {
        assert front[i] == cs[i];
      }
    }
  }

  lemma TakenAt(cs: seq<Constraint>, all: set<nat>, less: set<nat>, i: nat)
    requires i < |cs| && less == all + {FixedSignal(cs[|cs| - 1])} && FixedSignal(cs[|cs| - 1]) !in all
    ensures Removable(cs, all, i) <==> i == |cs| - 1 || Removable(cs[..|cs| - 1], less, i)
  {
    hide FixedSignal;
    if i < |cs| - 1 { LastFront(cs, i); }
  }

  lemma LastFront(cs: seq<Constraint>, i: nat)
    requires i < |cs| - 1
    ensures LastKept(cs, i) <==> LastKept(cs[..|cs| - 1], i) && FixedSignal(cs[|cs| - 1]) != FixedSignal(cs[i])
  {
    hide FixedSignal;
    assert forall j :: 0 <= j < |cs| - 1 ==> cs[..|cs| - 1][j] == cs[j];
  }

  /** The frame and the kept constraints always say exactly what the constraints in force say. */
  lemma ForceMeaning(cs: seq<Constraint>, forbidden: set<nat>, s: Assignment, p: int)
    requires Prime(p) && AllConstant(cs, p)
    ensures EncodedHolds(EncodedOf(Definitions(cs, forbidden, p)), s, p) && AllSat(Kept(cs, forbidden), s, p) <==>
            ForceSat(cs, forbidden, s, p)
  {
    hide Prime, AllConstant, FixedSignal, Sat, EncodedOf, Definitions, Kept, AllSat, EncodedHolds, ForceSat,
         HoldsOutside, LastSat;
    LastEntries(cs, forbidden, {}, s, p);
    KeptSat(cs, forbidden, s, p);
    NothingGone(EncodedOf(Definitions(cs, forbidden, p)), s, p);
    LastForce(cs, forbidden, s, p);
  }

  lemma NothingGone(enc: Encoded, s: Assignment, p: int)
    ensures HoldsOutside(enc, {}, s, p) <==> EncodedHolds(enc, s, p)
  {
    hide Holds, To;
  }

  lemma LastForce(cs: seq<Constraint>, forbidden: set<nat>, s: Assignment, p: int)
    ensures ForceSat(cs, forbidden, s, p) <==>
            LastSat(cs, forbidden, {}, s, p) &&
            forall i :: 0 <= i < |cs| && FixedSignal(cs[i]) in forbidden ==> Sat(cs[i], s, p)
  {
    hide Sat, FixedSignal;
    assert forbidden + {} == forbidden;
  }

  /** All constraints are in force when those on one removable signal agree. */
  lemma AgreeingForce(cs: seq<Constraint>, forbidden: set<nat>, s: Assignment, p: int)
    requires Prime(p) && AllConstant(cs, p) && ConstantsAgree(cs, forbidden, p)
    ensures ForceSat(cs, forbidden, s, p) <==> AllSat(cs, s, p)
  {
    hide Prime, AllConstant, ConstantsAgree, EncodedOf, Definitions, Kept, AllSat, AllHold, ForceSat, EncodedHolds;
    AgreeInput(cs, forbidden, p);
    ForceMeaning(cs, forbidden, s, p);
    ConstantsMeaning(cs, forbidden, s, p);
    AgreeingMeaning(Definitions(cs, forbidden, p), s, p);
  }

  /** x = 1 and x = 2 modulo 7: the map keeps x = 2 and accepts an assignment the constraints refuse. */
  lemma DisagreementLost()
    ensures var one, two := Substitution(1, map[0 := 1]), Substitution(1, map[0 := 2]);
            && EncodedHolds(EncodedOf([one, two]), (k: nat) => 2, 7)
            && !AllHold([one, two], (k: nat) => 2, 7)
  {
    var one, two := Substitution(1, map[0 := 1]), Substitution(1, map[0 := 2]);
    var s: Assignment := (k: nat) => 2;
    assert [one, two][..1] == [one] && [one][..0] == [];
    assert EncodedOf([one]) == map[1 := IntoExpr(one.to)];
    assert EncodedOf([one, two]) == EncodedOf([one])[1 := IntoExpr(two.to)];
    IntoExprTo(two.to, 1, s, 7);
    ConstantValue(two.to, s);
    ConstantValue(one.to, s);
    CongRefl(2, 7);
    CanonicalZero(1, 7);
    CongDiff(2, 1, 7);
    assert [one, two][0] == one;
  }
}
