/** Gaussian elimination of a cluster of linear constraints (simplification_utils.rs).
    Two heuristics choose the signal to eliminate; both must return an equivalent solved form. */
module SimplificationUtils {
  import opened Field
  import opened LinearCombination
  import opened Algebra
  import opened Constraints
  import opened Elimination
  import opened SortedSets

  // ---- Invariants shared by both heuristics

  /** Collected definitions are canonical, define only signals that may go, and stay in scope. */
  ghost predicate HolderOk(h: Holder, forbidden: set<nat>, scope: set<nat>, p: int) {
    && 0 in forbidden && 0 in scope
    && forall k :: k in h ==> EntryOk(h[k], k, p) && k !in forbidden && k in scope && h[k].sub.to.Keys <= scope
  }

  /** Constraints that could not be solved for anything. */
  ghost predicate Leftover(cs: seq<Constraint>, forbidden: set<nat>, scope: set<nat>, p: int) {
    forall i :: 0 <= i < |cs| ==> CleanLinear(cs[i], p) && cs[i].c.Keys <= forbidden && cs[i].c.Keys <= scope
  }

  /** No constraint mentions a signal that may be eliminated. */
  ghost predicate NothingTakable(cs: seq<Constraint>, forbidden: set<nat>) {
    forall i :: 0 <= i < |cs| ==> cs[i].c.Keys <= forbidden
  }

  ghost predicate Workable(c: Constraint, scope: set<nat>, p: int) {
    CleanLinear(c, p) && c.c.Keys <= scope
  }

  /** The system "holder and leftover and todo" read as one conjunction. */
  ghost predicate Solves(h: Holder, left: seq<Constraint>, todo: seq<Constraint>, s: Assignment, p: int) {
    HolderHolds(h, s, p) && AllSat(left, s, p) && AllSat(todo, s, p)
  }

  lemma InsertHolds(h: Holder, k: nat, e: Entry, s: Assignment, p: int)
    requires k !in h
    ensures HolderHolds(h[k := e], s, p) <==> HolderHolds(h, s, p) && EntryHolds(e, s, p)
  {
    hide EntryHolds;
    if HolderHolds(h[k := e], s, p) {
      assert h[k := e][k] == e;
      forall j | j in h
        ensures EntryHolds(h[j], s, p)
      {
        assert h[k := e][j] == h[j];
      }
    }
  }

  lemma AppendSat(cs: seq<Constraint>, c: Constraint, s: Assignment, p: int)
    ensures AllSat(cs + [c], s, p) <==> AllSat(cs, s, p) && Sat(c, s, p)
  {
    hide Sat;
    var all := cs + [c];
    if AllSat(all, s, p) {
      assert all[|cs|] == c;
      forall i | 0 <= i < |cs|
        ensures Sat(cs[i], s, p)
      {
        assert all[i] == cs[i];
      }
    }
  }

  lemma EmptySat(s: Assignment, p: int)
    ensures Sat(EMPTY, s, p)
  {
    DotEmpty(s);
    CongRefl(0, p);
  }

  function Max(a: nat, b: nat): nat {
    if a < b then b else a
  }

  ghost function Bound(keys: set<nat>): (b: nat)
    ensures forall k :: k in keys ==> k < b
  {
    if keys == {} then 0 else
      var k :| k in keys;
      var rest := Bound(keys - {k});
      assert keys == (keys - {k}) + {k};
      Max(k + 1, rest)
  }

  /** One round of the elimination loop: the cleared definition is new, so it is stored. */
  lemma StoreStep(h: Holder, work: Constraint, out: nat, scope: set<nat>, forbidden: set<nat>, p: int)
    requires p > 0 && HolderOk(h, forbidden, scope, p) && Workable(work, scope, p)
    requires out in work.c && out !in forbidden && out !in h
    ensures var h' := h[out := ClearNotNormalized(work.c, out, p)];
            && HolderOk(h', forbidden, scope, p)
            && forall s :: HolderHolds(h', s, p) <==> HolderHolds(h, s, p) && Sat(work, s, p)
  {
    hide Sat, EntryHolds, HolderHolds, Dot, Cong, ClearNotNormalized;
    var e := ClearNotNormalized(work.c, out, p);
    ClearOk(work.c, out, p);
    forall s: Assignment
      ensures HolderHolds(h[out := e], s, p) <==> HolderHolds(h, s, p) && Sat(work, s, p)
    {
      InsertHolds(h, out, e, s, p);
      ClearMeaning(work.c, out, s, p);
      LinearSat(work, s, p);
    }
  }

  /** One round of the elimination loop: the signal is already defined, so both definitions merge. */
  lemma MergeStep(h: Holder, work: Constraint, out: nat, scope: set<nat>, forbidden: set<nat>, p: int)
    requires Prime(p) && HolderOk(h, forbidden, scope, p) && Workable(work, scope, p)
    requires out in work.c && out !in forbidden && out in h
    ensures var next := Merge(ClearNotNormalized(work.c, out, p), h[out], p);
            && Workable(next, scope, p)
            && next.c.Keys <= (work.c.Keys - {out}) + h[out].sub.to.Keys
            && forall s :: HolderHolds(h, s, p) ==> (Sat(next, s, p) <==> Sat(work, s, p))
  {
    hide Sat, EntryHolds, Dot, Cong, ClearNotNormalized, Merge;
    var e := ClearNotNormalized(work.c, out, p);
    var next := Merge(e, h[out], p);
    MergeForm(e, h[out], p);
    assert 0 in h[out].sub.to;
    forall s: Assignment | HolderHolds(h, s, p)
      ensures Sat(next, s, p) <==> Sat(work, s, p)
    {
      MergeMeaning(e, h[out], s, p);
      ClearMeaning(work.c, out, s, p);
      LinearSat(work, s, p);
    }
  }

  // ---- The heuristic that eliminates the greatest signal

  class SignalDefinition {
    const forbidden: set<nat>
    var deletedSymbols: set<nat>

    constructor (forbidden: set<nat>)
      ensures this.forbidden == forbidden && deletedSymbols == {}
    {
      this.forbidden := forbidden;
      deletedSymbols := {};
    }

    predicate CanBeTaken(k: nat) {
      k !in forbidden
    }

    method Delete(k: nat)
      modifies this
      ensures deletedSymbols == old(deletedSymbols) + {k}
    {
      deletedSymbols := deletedSymbols + {k};
    }
  }

  /** Every takable signal of a right-hand side is smaller than the signal it defines. */
  ghost predicate Descending(h: Holder, forbidden: set<nat>) {
    forall k, j :: k in h && j in h[k].sub.to && j !in forbidden ==> j < k
  }

  lemma StoreDescending(h: Holder, work: Constraint, out: nat, forbidden: set<nat>, p: int)
    requires p > 0 && Descending(h, forbidden) && out in work.c && out != 0 && 0 in forbidden
    requires forall k :: k in work.c && k !in forbidden ==> k <= out
    ensures Descending(h[out := ClearNotNormalized(work.c, out, p)], forbidden)
  {
    hide ClearNotNormalized;
  }

  lemma MergeDescending(h: Holder, work: Constraint, out: nat, forbidden: set<nat>)
    requires Descending(h, forbidden) && out in h
    requires forall k :: k in work.c && k !in forbidden ==> k <= out
    ensures forall k :: k in (work.c.Keys - {out}) + h[out].sub.to.Keys && k !in forbidden ==> k < out
  {
  }

  /** The greatest signal that may be eliminated, whatever the order in which keys are visited. */
  method TakeSignal3(signals: SignalDefinition, constraint: Constraint) returns (ret: Option<nat>)
    ensures ret.None? ==> constraint.c.Keys <= signals.forbidden
    ensures ret.Some? ==> ret.value in constraint.c && ret.value !in signals.forbidden
    ensures ret.Some? ==> forall k :: k in constraint.c && k !in signals.forbidden ==> k <= ret.value
  {
    ret := None;
    var keys := constraint.c.Keys;
    while keys != {}
      invariant keys <= constraint.c.Keys
      invariant ret.None? ==> constraint.c.Keys - keys <= signals.forbidden
      invariant ret.Some? ==> ret.value in constraint.c && ret.value !in signals.forbidden
      invariant ret.Some? ==> forall k :: k in constraint.c.Keys - keys && k !in signals.forbidden ==> k <= ret.value
      decreases keys
    {
      var k :| k in keys;
      keys := keys - {k};
      if signals.CanBeTaken(k) {
        ret := Some(if ret.None? then k else Max(k, ret.value));
      }
    }
  }

  method TreatConstraint3(signals: SignalDefinition, substitutions: Holder, lconst: seq<Constraint>,
                          start: Constraint, p: int, ghost scope: set<nat>)
    returns (substitutions': Holder, lconst': seq<Constraint>)
    requires Prime(p) && HolderOk(substitutions, signals.forbidden, scope, p)
    requires Descending(substitutions, signals.forbidden)
    requires Leftover(lconst, signals.forbidden, scope, p) && Workable(start, scope, p)
    modifies signals
    ensures HolderOk(substitutions', signals.forbidden, scope, p)
    ensures Descending(substitutions', signals.forbidden)
    ensures Leftover(lconst', signals.forbidden, scope, p)
    ensures forall s :: HolderHolds(substitutions', s, p) && AllSat(lconst', s, p) <==>
                        HolderHolds(substitutions, s, p) && AllSat(lconst, s, p) && Sat(start, s, p)
    ensures substitutions.Keys <= substitutions'.Keys
    ensures substitutions' == map[] ==> start.c.Keys <= signals.forbidden
  {
    PrimePositive(p);
    assert 0 in signals.forbidden;
    hide Sat, HolderHolds, AllSat, Prime, HolderOk, Leftover, Workable, Descending, Merge, ClearNotNormalized;
    var work := start;
    substitutions', lconst' := substitutions, lconst;
    ghost var bound := Bound(work.c.Keys);
    while !IsEmpty(work)
      invariant Workable(work, scope, p) && (substitutions == map[] ==> work == start)
      invariant forall k :: k in work.c && k !in signals.forbidden ==> k < bound
      invariant forall s :: HolderHolds(substitutions, s, p) ==> (Sat(work, s, p) <==> Sat(start, s, p))
      decreases bound
    {
      var out := TakeSignal3(signals, work);
      if out.None? {
        lconst' := lconst + [work];
        LeftoverAppend(lconst, work, signals.forbidden, scope, p);
        forall s { AppendSat(lconst, work, s, p); }
        return;
      }
      signals.Delete(out.value);
      var entry := ClearNotNormalized(work.c, out.value, p);
      if out.value !in substitutions {
        StoreStep(substitutions, work, out.value, scope, signals.forbidden, p);
        StoreDescending(substitutions, work, out.value, signals.forbidden, p);
        substitutions' := substitutions[out.value := entry];
        return;
      }
      MergeStep(substitutions, work, out.value, scope, signals.forbidden, p);
      MergeDescending(substitutions, work, out.value, signals.forbidden);
      work := Merge(entry, substitutions[out.value], p);
      bound := out.value;
    }
    forall s { EmptySat(s, p); }
    assert work == EMPTY;
  }

  lemma LeftoverAppend(lconst: seq<Constraint>, work: Constraint, forbidden: set<nat>, scope: set<nat>, p: int)
    requires Leftover(lconst, forbidden, scope, p) && Workable(work, scope, p) && work.c.Keys <= forbidden
    ensures Leftover(lconst + [work], forbidden, scope, p)
  {
  }

  method SubstitutionProcess3(signals: SignalDefinition, constraints: seq<Constraint>, p: int, ghost scope: set<nat>)
    returns (substitutions: Holder, lconst: seq<Constraint>)
    requires Prime(p) && 0 in signals.forbidden && 0 in scope
    requires forall i :: 0 <= i < |constraints| ==> Workable(constraints[i], scope, p)
    modifies signals
    ensures HolderOk(substitutions, signals.forbidden, scope, p)
    ensures Descending(substitutions, signals.forbidden)
    ensures Leftover(lconst, signals.forbidden, scope, p)
    ensures forall s :: HolderHolds(substitutions, s, p) && AllSat(lconst, s, p) <==> AllSat(constraints, s, p)
    ensures substitutions == map[] ==> NothingTakable(constraints, signals.forbidden)
  {
    hide Sat, Prime, CleanLinear, EntryOk;
    substitutions, lconst := map[], [];
    var rest := constraints;
    while rest != []
      invariant rest <= constraints
      invariant HolderOk(substitutions, signals.forbidden, scope, p)
      invariant Descending(substitutions, signals.forbidden)
      invariant Leftover(lconst, signals.forbidden, scope, p)
      invariant substitutions == map[] ==> NothingTakable(constraints[|rest|..], signals.forbidden)
      invariant forall s :: HolderHolds(substitutions, s, p) && AllSat(lconst, s, p) && AllSat(rest, s, p) <==>
                            AllSat(constraints, s, p)
      decreases |rest|
    {
      hide HolderHolds, AllSat;
      var actual := rest[|rest| - 1];
      var fewer := rest[..|rest| - 1];
      assert rest == fewer + [actual];
      forall s { AppendSat(fewer, actual, s, p); }
      rest := fewer;
      assert constraints[|rest|..] == [actual] + constraints[|rest| + 1..];
      substitutions, lconst := TreatConstraint3(signals, substitutions, lconst, actual, p, scope);
    }
  }

  // ---- Normalisation: every definition divided by its coefficient

  type Solved = map<nat, Substitution>

  ghost predicate SolvedHolds(m: Solved, s: Assignment, p: int) {
    forall k :: k in m ==> Holds(m[k], s, p)
  }

  /** m is h with every definition normalized: same signals, same meaning, no new names. */
  ghost predicate NormalForm(m: Solved, h: Holder, p: int) {
    && m.Keys == h.Keys
    && forall k :: k in h ==> m[k].from == k && m[k].to.Keys == h[k].sub.to.Keys && Canonical(m[k].to, p)
  }

  /** One definition multiplied by the inverse of its coefficient; None would be a failure. */
  function Normalized(e: Entry, from: nat, inverse: int, p: int): Option<Substitution>
    requires p > 0
  {
    NewSubstitution(from, Mul(IntoExpr(e.sub.to), Number(inverse), p))
  }

  lemma NormalizeOne(e: Entry, from: nat, inverse: int, p: int)
    requires Prime(p) && EntryOk(e, from, p) && M.Inverse(inverse, e.coef, p)
    ensures var sub := Normalized(e, from, inverse, p);
            && sub.Some? && sub.value.from == from && sub.value.to.Keys == e.sub.to.Keys && Canonical(sub.value.to, p)
            && forall s :: Holds(sub.value, s, p) <==> EntryHolds(e, s, p)
  {
    var to := e.sub.to;
    OnlyZero(to);
    var expr := Mul(IntoExpr(to), Number(inverse), p);
    var sub := NewSubstitution(from, expr).value;
    assert sub.to == Scale(to, inverse, p) by {
      if |to| == 1 {
        SingletonKey(to, OnlyKey(to), 0);
        assert to.Keys == {0};
        CommutedProduct(to[0], inverse, p);
      }
    }
    hide Holds, EntryHolds, Scale, Mul, IntoExpr, M.Inverse, Cong;
    forall s: Assignment
      ensures Holds(sub, s, p) <==> EntryHolds(e, s, p)
    {
      NormalizeMeaning(e, inverse, s, p);
    }
  }

  lemma CommutedProduct(x: int, y: int, p: int)
    requires p > 0
    ensures M.Mul(x, y, p) == M.Mul(y, x, p)
  {
    assert x * y == y * x;
  }

  /** The inverses of all collected coefficients, in key order, from one batch inversion. */
  method CoefficientInverses(substitutions: Holder, keys: seq<nat>, p: int) returns (inverses: seq<int>)
    requires Prime(p)
    requires forall i :: 0 <= i < |keys| ==> keys[i] in substitutions && 0 < substitutions[keys[i]].coef < p
    ensures |inverses| == |keys| + 1
    ensures forall i :: 0 <= i < |keys| ==> M.Inverse(inverses[i], substitutions[keys[i]].coef, p)
  {
    hide Prime, Cong, M.Inverse;
    var coeffs: seq<int> := [];
    for i := 0 to |keys|
      invariant |coeffs| == i
      invariant forall j :: 0 <= j < i ==> coeffs[j] == substitutions[keys[j]].coef
    {
      coeffs := coeffs + [substitutions[keys[i]].coef];
    }
    forall i | 0 <= i < |coeffs|
      ensures !Cong(coeffs[i], 0, p)
    {
      CanonicalZero(coeffs[i], p);
    }
    inverses := M.MultiInv(coeffs, p);
  }

  /** Batch inversion supplies one inverse per definition, so no definition fails to normalise. */
  method NormalizeSubstitutions(substitutions: Holder, p: int, ghost forbidden: set<nat>, ghost scope: set<nat>)
    returns (tree: Solved)
    requires Prime(p) && HolderOk(substitutions, forbidden, scope, p)
    ensures NormalForm(tree, substitutions, p)
    ensures forall s :: SolvedHolds(tree, s, p) <==> HolderHolds(substitutions, s, p)
  {
    hide Prime, Ascending, StrictlyAscending, NormalPart, NormalForm, HolderHolds, SolvedHolds, Normalized, Visited,
         M.Inverse, Cong;
    var keys := Ascending(substitutions.Keys);
    PrimePositive(p);
    NormalStart(substitutions, keys, p);
    var inverses := CoefficientInverses(substitutions, keys, p);
    tree := map[];
    for i := 0 to |keys|
      invariant NormalPart(tree, substitutions, p)
      invariant Visited(keys, i, tree)
    {
      hide HolderOk;
      var signal := keys[i];
      var entry := substitutions[signal];
      HolderEntry(substitutions, signal, forbidden, scope, p);
      NormalStep(tree, substitutions, signal, inverses[i], p);
      var sub := Normalized(entry, signal, inverses[i], p);
      VisitNext(keys, i, tree, sub.value);
      tree := tree[signal := sub.value];
    }
    VisitedAll(keys, substitutions, tree);
    WholeNormal(tree, substitutions, p);
  }

  ghost predicate Visited(keys: seq<nat>, i: nat, seen: Solved)
    requires i <= |keys|
  {
    forall j :: 0 <= j < i ==> keys[j] in seen
  }

  lemma VisitNext(keys: seq<nat>, i: nat, seen: Solved, sub: Substitution)
    requires i < |keys| && Visited(keys, i, seen)
    ensures Visited(keys, i + 1, seen[keys[i] := sub])
  {
  }

  lemma VisitedAll(keys: seq<nat>, h: Holder, seen: Solved)
    requires (forall k :: k in h ==> k in keys) && Visited(keys, |keys|, seen)
    ensures h.Keys <= seen.Keys
  {
  }

  /** The definitions normalized so far. */
  ghost predicate NormalPart(m: Solved, h: Holder, p: int) {
    && m.Keys <= h.Keys
    && (forall k :: k in m ==> m[k].from == k && m[k].to.Keys == h[k].sub.to.Keys && Canonical(m[k].to, p))
    && forall k, s :: k in m ==> (Holds(m[k], s, p) <==> EntryHolds(h[k], s, p))
  }

  lemma NormalStart(h: Holder, keys: seq<nat>, p: int)
    ensures NormalPart(map[], h, p) && Visited(keys, 0, map[])
  {
  }

  lemma NormalStep(m: Solved, h: Holder, k: nat, inverse: int, p: int)
    requires Prime(p) && NormalPart(m, h, p) && k in h
    requires EntryOk(h[k], k, p) && M.Inverse(inverse, h[k].coef, p)
    ensures Normalized(h[k], k, inverse, p).Some?
    ensures NormalPart(m[k := Normalized(h[k], k, inverse, p).value], h, p)
  {
    hide Holds, EntryHolds, Prime, Normalized, M.Inverse;
    NormalizeOne(h[k], k, inverse, p);
  }

  lemma WholeNormal(m: Solved, h: Holder, p: int)
    requires NormalPart(m, h, p) && h.Keys <= m.Keys
    ensures NormalForm(m, h, p)
    ensures forall s :: SolvedHolds(m, s, p) <==> HolderHolds(h, s, p)
  {
    hide Holds, EntryHolds;
  }

  lemma HolderEntry(h: Holder, k: nat, forbidden: set<nat>, scope: set<nat>, p: int)
    requires HolderOk(h, forbidden, scope, p) && k in h
    ensures EntryOk(h[k], k, p)
  {
  }

  // ---- Removing overlap: no right-hand side may mention a left-hand signal

  /** Right-hand sides avoid `defined` and stay in scope. */
  ghost predicate Flat(m: Solved, defined: set<nat>, scope: set<nat>, p: int) {
    forall k :: k in m ==> m[k].from == k && m[k].to.Keys !! defined && m[k].to.Keys <= scope && Canonical(m[k].to, p)
  }

  /** The definitions in `part` only. */
  ghost predicate PartHolds(m: Solved, part: set<nat>, s: Assignment, p: int)
    requires part <= m.Keys
  {
    forall k :: k in part ==> Holds(m[k], s, p)
  }

  /** Definitions mention smaller signals only, and signals that must stay. */
  ghost predicate SolvedDownward(m: Solved, forbidden: set<nat>) {
    forall k, j :: k in m && j in m[k].to && j !in forbidden ==> j < k
  }

  /** A signal of the right-hand side, or of the definition of one. */
  ghost predicate FromKnown(noOverlap: Solved, sub: Substitution, j: nat) {
    j == 0 || j in sub.to || exists k :: k in sub.to && k in noOverlap && j in noOverlap[k].to
  }

  /** Expand every already flat signal in one right-hand side, in whatever order they are met. */
  method ApplyKnown(noOverlap: Solved, sub: Substitution, p: int, ghost defined: set<nat>, ghost scope: set<nat>)
    returns (r: Substitution)
    requires p > 0 && Flat(noOverlap, defined, scope, p) && noOverlap.Keys <= defined
    requires 0 in scope && 0 !in defined && sub.to.Keys <= scope && Canonical(sub.to, p)
    requires sub.to.Keys * defined <= noOverlap.Keys
    ensures r.from == sub.from && r.to.Keys !! defined && r.to.Keys <= scope && Canonical(r.to, p)
    ensures forall j :: j in r.to ==> FromKnown(noOverlap, sub, j)
    ensures forall s :: SolvedHolds(noOverlap, s, p) ==> (Holds(r, s, p) <==> Holds(sub, s, p))
  {
    hide Holds, Subst;
    r := sub;
    var pending := sub.to.Keys * noOverlap.Keys;
    while pending != {}
      invariant pending <= noOverlap.Keys && r.to.Keys * defined <= pending
      invariant r.from == sub.from && r.to.Keys <= scope && Canonical(r.to, p)
      invariant pending <= sub.to.Keys && forall j :: j in r.to ==> FromKnown(noOverlap, sub, j)
      invariant forall s :: SolvedHolds(noOverlap, s, p) ==> (Holds(r, s, p) <==> Holds(sub, s, p))
      decreases pending
    {
      var k :| k in pending;
      pending := pending - {k};
      var change := noOverlap[k];
      var next := Substitution(r.from, Subst(r.to, change.from, change.to, p));
      forall s: Assignment | SolvedHolds(noOverlap, s, p)
        ensures Holds(next, s, p) <==> Holds(r, s, p)
      {
        SubstitutedHolds(r, change, s, p);
      }
      r := next;
    }
    assert forall k :: k in r.to.Keys && k in defined ==> k in r.to.Keys * defined;
  }

  lemma SubstitutedHolds(sub: Substitution, change: Substitution, s: Assignment, p: int)
    requires p > 0 && Holds(change, s, p)
    ensures Holds(Substitution(sub.from, Subst(sub.to, change.from, change.to, p)), s, p) <==> Holds(sub, s, p)
  {
    hide Cong, Dot, Subst;
    DotSubst(sub.to, s, change.from, change.to, p);
    CongRefl(Val(s, sub.from), p);
    CongSame(Val(s, sub.from), Val(s, sub.from), Dot(Subst(sub.to, change.from, change.to, p), s), Dot(sub.to, s), p);
  }

  lemma FlattenStep(flat: Solved, next: Solved, all: Solved, k: nat, sub: Substitution, p: int)
    requires next == flat[k := sub] && k in all && k !in flat && flat.Keys <= all.Keys
    requires forall s :: SolvedHolds(flat, s, p) <==> PartHolds(all, flat.Keys, s, p)
    requires forall s :: SolvedHolds(flat, s, p) ==> (Holds(sub, s, p) <==> Holds(all[k], s, p))
    ensures next.Keys == flat.Keys + {k}
    ensures forall s :: SolvedHolds(next, s, p) <==> PartHolds(all, next.Keys, s, p)
  {
    hide Holds;
    assert next.Keys == flat.Keys + {k};
    forall s: Assignment
      ensures SolvedHolds(next, s, p) <==> PartHolds(all, flat.Keys + {k}, s, p)
    {
      if SolvedHolds(next, s, p) {
        assert next[k] == sub;
        forall j | j in flat ensures Holds(flat[j], s, p) { assert next[j] == flat[j]; }
        assert SolvedHolds(flat, s, p);
      }
      if PartHolds(all, flat.Keys + {k}, s, p) {
        assert PartHolds(all, flat.Keys, s, p);
        forall j | j in next ensures Holds(next[j], s, p) { if j != k { assert next[j] == flat[j]; } }
      }
    }
  }

  /** Greatest-signal order: definitions are flattened in ascending order of the signal defined. */
  method CreateNonoverlappingSubstitutions(possibleOverlap: Solved, p: int, ghost forbidden: set<nat>,
                                           ghost scope: set<nat>)
    returns (noOverlap: Solved)
    requires p > 0 && 0 in scope && 0 in forbidden && possibleOverlap.Keys !! forbidden
    requires Flat(possibleOverlap, {}, scope, p)
    requires SolvedDownward(possibleOverlap, forbidden)
    ensures noOverlap.Keys == possibleOverlap.Keys && Flat(noOverlap, noOverlap.Keys, scope, p)
    ensures SolvedDownward(noOverlap, forbidden)
    ensures forall s :: SolvedHolds(noOverlap, s, p) <==> SolvedHolds(possibleOverlap, s, p)
  {
    hide Holds;
    noOverlap := map[];
    ghost var defined := possibleOverlap.Keys;
    var pending := possibleOverlap.Keys;
    while pending != {}
      invariant pending <= defined && noOverlap.Keys == defined - pending
      invariant Flat(noOverlap, defined, scope, p)
      invariant SolvedDownward(noOverlap, forbidden)
      invariant forall s :: SolvedHolds(noOverlap, s, p) <==> PartHolds(possibleOverlap, noOverlap.Keys, s, p)
      decreases pending
    {
      var k := Least(pending);
      assert possibleOverlap[k].to.Keys * defined <= noOverlap.Keys;
      hide SolvedHolds, PartHolds;
      var sub := ApplyKnown(noOverlap, possibleOverlap[k], p, defined, scope);
      FlattenStep(noOverlap, noOverlap[k := sub], possibleOverlap, k, sub, p);
      noOverlap := noOverlap[k := sub];
      pending := pending - {k};
    }
  }
}
