/** A frame applied to a list of linear constraints (the loops over `linear`, `cons_equalities` and
    `lconst` of `simplification` in constraint_simplification.rs). */
module FrameLists {
  import opened Field
  import opened LinearCombination
  import opened Algebra
  import opened Constraints
  import opened Elimination
  import opened Frames
  import opened EqSimplification
  import opened ConstantEqualities
  import opened NonLinear
  import opened FrameChain
  import opened Rounds

  /** Substitute, and fix the constraint only if something was substituted. */
  function FrameOne(c: Constraint, enc: Encoded, p: int): Constraint
    requires p > 0
  {
    if Signals(c) !! enc.Keys then c else Fix(ApplyFrame(c, enc, p), p)
  }

  function FrameAll(cs: seq<Constraint>, enc: Encoded, p: int): seq<Constraint>
    requires p > 0
  {
    seq(|cs|, i requires 0 <= i < |cs| => FrameOne(cs[i], enc, p))
  }

  method ApplyFrameToAll(cs: seq<Constraint>, enc: Encoded, p: int) returns (r: seq<Constraint>)
    requires p > 0 && NonOverlapping(enc)
    ensures r == FrameAll(cs, enc, p)
  {
    r := [];
    for i := 0 to |cs|
      invariant |r| == i && forall j :: 0 <= j < i ==> r[j] == FrameOne(cs[j], enc, p)
    {
      hide NonOverlapping, FrameOne;
      var c := ApplyFrameToOne(cs[i], enc, p);
      r := r + [c];
    }
  }

  method ApplyFrameToOne(c: Constraint, enc: Encoded, p: int) returns (r: Constraint)
    requires p > 0 && NonOverlapping(enc)
    ensures r == FrameOne(c, enc, p)
  {
    hide NonOverlapping, ApplyFrame, Fix, Signals;
    var applied;
    r, applied := FastEncodedConstraintSubstitution(c, enc, p);
    if applied {
      r := Fix(r, p);
    } else {
      r := c;
    }
  }

  // ---- Linear constraints stay linear

  lemma {:induction false} SubstAllZero(m: LC, enc: Encoded, pending: set<nat>, p: int)
    requires p > 0 && pending <= enc.Keys && 0 !in enc && (m == map[] || m == ZERO)
    ensures SubstAll(m, enc, pending, p) == map[] || SubstAll(m, enc, pending, p) == ZERO
    decreases pending
  {
    hide To;
    if pending != {} {
      var k := SortedSets.Least(pending);
      SubstNothing(m, k, To(enc[k]), p);
      SubstAllZero(Subst(m, k, To(enc[k]), p), enc, pending - {k}, p);
    }
  }

  /** A linear constraint whose product side may have been initialised to zero. */
  ghost predicate LinearForm(c: Constraint, p: int) {
    (c.a == map[] || c.a == ZERO) && (c.b == map[] || c.b == ZERO) && Canonical(c.c, p)
  }

  lemma FrameOneForm(c: Constraint, enc: Encoded, p: int)
    requires p > 0 && NonOverlapping(enc) && CanonicalFrame(enc, p) && LinearForm(c, p)
    ensures LinearForm(FrameOne(c, enc, p), p)
    ensures CleanLinear(c, p) ==> CleanLinear(FrameOne(c, enc, p), p)
    ensures Signals(FrameOne(c, enc, p)) !! enc.Keys
    ensures FrameOne(c, enc, p) == c || Signals(FrameOne(c, enc, p)) <= Signals(ApplyFrame(c, enc, p))
  {
    if !(Signals(c) !! enc.Keys) {
      var d := ApplyFrame(c, enc, p);
      assert 0 !in enc;
      SubstAllZero(c.a, enc, Signals(c) * enc.Keys, p);
      SubstAllZero(c.b, enc, Signals(c) * enc.Keys, p);
      SubstAllCanonical(c.c, enc, Signals(c) * enc.Keys, p);
      FixLinear(d, p);
      hide NonOverlapping, CanonicalFrame;
      FrameKeys(c, enc, p);
      hide ApplyFrame, Fix;
      FixForm(d, p);
    }
  }

  lemma {:induction false} SubstAllCanonical(m: LC, enc: Encoded, pending: set<nat>, p: int)
    requires p > 0 && pending <= enc.Keys && Canonical(m, p)
    ensures Canonical(SubstAll(m, enc, pending, p), p)
    decreases pending
  {
    hide To;
    if pending != {} {
      var k := SortedSets.Least(pending);
      SubstAllCanonical(Subst(m, k, To(enc[k]), p), enc, pending - {k}, p);
    }
  }

  lemma FixLinear(d: Constraint, p: int)
    requires p > 0 && LinearForm(d, p)
    ensures CleanLinear(Fix(d, p), p) && Fix(d, p).c == DropZeros(d.c)
  {
    assert DropZeros(ZERO) == map[] && DropZeros(map[]) == map[];
  }

  lemma FrameAllForm(cs: seq<Constraint>, enc: Encoded, p: int)
    requires p > 0 && NonOverlapping(enc) && CanonicalFrame(enc, p) && AllLinear(cs, p)
    ensures AllLinear(FrameAll(cs, enc, p), p)
    ensures forall i :: 0 <= i < |cs| ==> Signals(FrameAll(cs, enc, p)[i]) !! enc.Keys
  {
    hide NonOverlapping, CanonicalFrame, FrameOne, Signals;
    forall i | 0 <= i < |cs|
      ensures CleanLinear(FrameOne(cs[i], enc, p), p) && Signals(FrameOne(cs[i], enc, p)) !! enc.Keys
    {
      FrameOneForm(cs[i], enc, p);
    }
  }

  lemma FrameOneMeaning(c: Constraint, enc: Encoded, s: Assignment, p: int)
    requires p > 0 && EncodedHolds(enc, s, p)
    ensures Sat(FrameOne(c, enc, p), s, p) <==> Sat(c, s, p)
  {
    hide Sat, EncodedHolds, ApplyFrame, Fix;
    FrameMeaning(c, enc, s, p);
    FixMeaning(ApplyFrame(c, enc, p), s, p);
  }

  lemma FrameAllMeaning(cs: seq<Constraint>, enc: Encoded, s: Assignment, p: int)
    requires p > 0 && EncodedHolds(enc, s, p)
    ensures AllSat(FrameAll(cs, enc, p), s, p) <==> AllSat(cs, s, p)
  {
    hide Sat, EncodedHolds, FrameOne;
    var r := FrameAll(cs, enc, p);
    forall i | 0 <= i < |cs|
      ensures Sat(r[i], s, p) <==> Sat(cs[i], s, p)
    {
      FrameOneMeaning(cs[i], enc, s, p);
    }
  }

  // ---- Renaming

  lemma RenamedOne(c: Constraint, enc: Encoded, p: int, x: nat) returns (y: nat)
    requires p > 1 && RenameFrame(enc) && LinearForm(c, p) && x in Signals(FrameOne(c, enc, p))
    ensures y in Signals(c) && x == Unwrapped(enc, y) && x !in enc
  {
    hide ApplyFrame, NonOverlapping, CanonicalFrame, LinearForm, Signals;
    RenameIsFrame(enc, p);
    FrameOneForm(c, enc, p);
    if Signals(c) !! enc.Keys {
      y := x;
    } else {
      hide FrameOne;
      y := RenamedSignals(c, enc, p, x);
    }
  }

  lemma RenamesTo(enc: Encoded, x: nat)
    requires RenameFrame(enc) && x in enc
    ensures enc[x].Signal? && enc[x].symbol != 0 && enc[x].symbol !in enc
  {
  }

  lemma OneMember(s: set<nat>, r: nat)
    requires r in s && forall z :: z in s ==> z == r
    ensures |s| == 1
  {
    assert s == {r};
  }

  /** A renamed constant equality is a constant equality on the renamed signal. */
  lemma RenamedConstant(c: Constraint, enc: Encoded, p: int)
    requires p > 1 && RenameFrame(enc) && CleanConstant(c, p)
    ensures CleanConstant(FrameOne(c, enc, p), p)
  {
    hide FixedSignal, NonOverlapping, CanonicalFrame, RenameFrame, FrameOne;
    OneSignal(c, p);
    var x, d := FixedSignal(c), FrameOne(c, enc, p);
    RenameIsFrame(enc, p);
    assert CleanLinear(d, p) by { RenamedClean(c, enc, p); }
    if x in enc {
      RenamesTo(enc, x);
      RenamedCoefficient(c, enc, p, x);
      hide Signals, CleanLinear;
      forall z | z in Signals(d)
        ensures z == enc[x].symbol
      {
        RenamedOnly(c, enc, p, x, z);
      }
      OneMember(Signals(d), enc[x].symbol);
    } else {
      NotRenamed(c, enc, x, p);
    }
  }

  lemma RenamedClean(c: Constraint, enc: Encoded, p: int)
    requires p > 1 && RenameFrame(enc) && CleanLinear(c, p)
    ensures CleanLinear(FrameOne(c, enc, p), p)
  {
    RenameIsFrame(enc, p);
    FrameOneForm(c, enc, p);
  }

  lemma RenamedOnly(c: Constraint, enc: Encoded, p: int, x: nat, z: nat)
    requires p > 1 && RenameFrame(enc) && CleanLinear(c, p) && Signals(c) == {x} && x in enc && enc[x].Signal? &&
             z in Signals(FrameOne(c, enc, p))
    ensures z == enc[x].symbol
  {
    hide FrameOne, RenameFrame;
    var y := RenamedOne(c, enc, p, z);
    assert y in {x};
  }

  lemma NotRenamed(c: Constraint, enc: Encoded, x: nat, p: int)
    requires p > 0 && Signals(c) == {x} && x !in enc
    ensures FrameOne(c, enc, p) == c
  {
  }

  lemma RenamedCoefficient(c: Constraint, enc: Encoded, p: int, x: nat)
    requires p > 1 && RenameFrame(enc) && CleanConstant(c, p) && x in enc && enc[x].Signal? && Signals(c) == {x} &&
             x in c.c && c.c.Keys <= {0, x}
    ensures enc[x].symbol in Signals(FrameOne(c, enc, p))
  {
    var r := enc[x].symbol;
    assert Signals(c) * enc.Keys == {x};
    OnlyLeast(x);
    assert {x} - {x} == {};
    var d := ApplyFrame(c, enc, p);
    assert d.c == Subst(c.c, x, map[r := 1], p) by {
      assert SubstAll(c.c, enc, {x}, p) == SubstAll(Subst(c.c, x, To(enc[x]), p), enc, {}, p);
    }
    RenamedValue(c.c, x, r, p);
    assert LinearForm(d, p) by { RenamedLinear(c, enc, p); }
    FixLinear(d, p);
    hide ApplyFrame, Fix, Subst, RenameFrame;
    assert r in d.c && d.c[r] != 0 && r != 0;
  }

  lemma OnlyLeast(x: nat)
    ensures SortedSets.Least({x}) == x
  {
  }

  lemma RenamedLinear(c: Constraint, enc: Encoded, p: int)
    requires p > 1 && RenameFrame(enc) && CleanLinear(c, p)
    ensures LinearForm(ApplyFrame(c, enc, p), p)
  {
    var pending := Signals(c) * enc.Keys;
    SubstAllZero(c.a, enc, pending, p);
    SubstAllZero(c.b, enc, pending, p);
    SubstAllCanonical(c.c, enc, pending, p);
  }

  lemma RenamedValue(m: LC, x: nat, r: nat, p: int)
    requires p > 1 && x != 0 && r != 0 && r != x && x in m && m.Keys <= {0, x} && Clean(m, p)
    ensures r in Subst(m, x, map[r := 1], p) && Subst(m, x, map[r := 1], p)[r] == m[x]
  {
    hide Subst, M.Add, M.Mul;
    assert r in Init(map[r := 1]);
    SubstAt(m, x, map[r := 1], r, p);
    OneTimes(m[x], p);
  }

  lemma OneTimes(v: int, p: int)
    requires 0 <= v < p
    ensures M.Add(0, M.Mul(1, v, p), p) == v
  {
    hide Cong, M.Mul, M.Add;
    var once := M.Mul(1, v, p);
    assert 0 <= once < p && Cong(once, 1 * v, p);
    assert 0 <= M.Add(0, once, p) < p && Cong(M.Add(0, once, p), 0 + once, p);
    CanonicalEqual(once, v, p);
    CanonicalEqual(M.Add(0, once, p), once, p);
  }

  lemma RenamedConstants(cs: seq<Constraint>, enc: Encoded, p: int)
    requires p > 1 && RenameFrame(enc) && AllConstant(cs, p)
    ensures AllConstant(FrameAll(cs, enc, p), p)
  {
    hide RenameFrame, CleanConstant, FrameOne;
    forall i | 0 <= i < |cs|
      ensures CleanConstant(FrameOne(cs[i], enc, p), p)
    {
      RenamedConstant(cs[i], enc, p);
    }
  }

  /** Signals are renamed to ones below a bound and outside a set. */
  ghost predicate RenamesApart(enc: Encoded, idle: set<nat>, bound: nat) {
    forall k :: k in enc ==> enc[k].Signal? && enc[k].symbol < bound && enc[k].symbol !in idle
  }

  /** Bounds on the signals of renamed constraints. */
  lemma RenamedAlive(cs: seq<Constraint>, enc: Encoded, idle: set<nat>, bound: nat, p: int)
    requires p > 1 && RenameFrame(enc) && AllLinear(cs, p) && Alive(cs, idle, bound)
    requires RenamesApart(enc, idle, bound)
    ensures Alive(FrameAll(cs, enc, p), idle + enc.Keys, bound)
  {
    hide RenameFrame, FrameOne, Signals;
    var r := FrameAll(cs, enc, p);
    forall i | 0 <= i < |cs|
      ensures AliveOne(r[i], idle + enc.Keys, bound)
    {
      assert AliveOne(cs[i], idle, bound) && CleanLinear(cs[i], p);
      forall x | x in Signals(r[i])
        ensures x !in enc && x !in idle && x < bound
      {
        var y := RenamedOne(cs[i], enc, p, x);
      }
    }
  }

  lemma RenamedBelow(cs: seq<Constraint>, enc: Encoded, bound: nat, p: int)
    requires p > 1 && RenameFrame(enc) && AllLinear(cs, p) && Alive(cs, {}, bound) && RenamesApart(enc, {}, bound)
    ensures Alive(FrameAll(cs, enc, p), enc.Keys, bound)
  {
    hide RenameFrame, AllLinear, Alive, RenamesApart, FrameAll;
    RenamedAlive(cs, enc, {}, bound, p);
    assert {} + enc.Keys == enc.Keys;
  }

  /** Replacing signals by constants adds no signal. */
  lemma ConstantAlive(cs: seq<Constraint>, enc: Encoded, deleted: set<nat>, bound: nat, p: int)
    requires p > 1 && ConstantFrame(enc, p) && AllLinear(cs, p) && Alive(cs, deleted, bound)
    ensures Alive(FrameAll(cs, enc, p), deleted + enc.Keys, bound)
  {
    hide ConstantFrame, FrameOne, Signals, NonOverlapping, CanonicalFrame;
    var r := FrameAll(cs, enc, p);
    ConstantIsFrame(enc, p);
    forall i | 0 <= i < |cs|
      ensures AliveOne(r[i], deleted + enc.Keys, bound)
    {
      assert AliveOne(cs[i], deleted, bound) && CleanLinear(cs[i], p);
      FrameOneForm(cs[i], enc, p);
      forall x | x in Signals(r[i])
        ensures x in Signals(cs[i])
      {
        if r[i] != cs[i] { ConstantSource(cs[i], enc, p, x); }
      }
    }
  }

  lemma ConstantSource(c: Constraint, enc: Encoded, p: int, x: nat)
    requires p > 1 && ConstantFrame(enc, p) && x in Signals(ApplyFrame(c, enc, p))
    ensures x in Signals(c)
  {
    hide NonOverlapping, ApplyFrame, ConstantFrame;
    ConstantIsFrame(enc, p);
    var k := FrameSource(c, enc, p, x);
    ConstantAddsNothing(enc, p, k, x);
  }

  /** Constraints on signals that stay are not touched by a frame. */
  lemma KeptUntouched(cs: seq<Constraint>, enc: Encoded, forbidden: set<nat>, p: int)
    requires p > 0 && AllKept(cs, forbidden, p) && enc.Keys !! forbidden
    ensures FrameAll(cs, enc, p) == cs
  {
    hide Fix, ApplyFrame;
    forall i | 0 <= i < |cs|
      ensures FrameOne(cs[i], enc, p) == cs[i]
    {
      assert KeptForm(cs[i], forbidden, p);
    }
  }
}
