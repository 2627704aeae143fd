/** The rounds that solve linear constraints uncovered among the non-linear ones
    (the loop of `simplification` in constraint_simplification.rs). */
module Rounds {
  import opened Field
  import opened LinearCombination
  import opened Algebra
  import opened Constraints
  import opened Elimination
  import opened Frames
  import opened SimplificationUtils
  import opened FullSimplification
  import opened LinearSimplification
  import opened EqSimplification
  import opened Storage
  import opened Solutions

  /** No constraint mentions a deleted signal or one beyond the last label. */
  ghost predicate Alive(cs: seq<Constraint>, deleted: set<nat>, bound: nat) {
    forall i :: 0 <= i < |cs| ==> AliveOne(cs[i], deleted, bound)
  }

  ghost predicate AliveOne(c: Constraint, deleted: set<nat>, bound: nat) {
    forall x :: x in Signals(c) ==> x !in deleted && x < bound
  }

  ghost predicate AllLinear(cs: seq<Constraint>, p: int) {
    forall i :: 0 <= i < |cs| ==> CleanLinear(cs[i], p)
  }

  /** What every round starts from and keeps. */
  ghost predicate RoundOk(stored: seq<Constraint>, index: SignalToConstraints, linear: seq<Constraint>,
                          lconst: seq<Constraint>,
                          deleted: set<nat>, forbidden: set<nat>, bound: nat, p: int)
  {
    && p > 0 && 0 in forbidden && forbidden !! deleted
    && AllStored(stored, p) && Covers(index, stored) && NonLinearOrEmpty(stored) && Alive(stored, deleted, bound)
    && AllLinear(linear, p) && Alive(linear, deleted, bound)
    && AllKept(lconst, forbidden, p)
  }

  /** Definitions of live removable signals, mentioning live signals only. */
  ghost predicate NewDefs(subs: seq<Substitution>, deleted: set<nat>, forbidden: set<nat>, bound: nat) {
    && Triangular(subs) && Froms(subs) !! forbidden && Froms(subs) !! deleted
    && (forall i :: 0 <= i < |subs| ==> subs[i].from < bound)
    && (forall i :: 0 <= i < |subs| ==> subs[i].to.Keys !! deleted)
  }

  /** Signals that store, index and linear constraints have nothing to do with. */
  ghost predicate Spares(stored: seq<Constraint>, index: SignalToConstraints, linear: seq<Constraint>, idle: set<nat>,
                         bound: nat) {
    0 !in idle && index.Keys !! idle && Alive(stored, idle, bound) && Alive(linear, idle, bound)
  }

  ghost predicate Equivalent(stored: seq<Constraint>, linear: seq<Constraint>, lconst: seq<Constraint>,
                             stored': seq<Constraint>, linear': seq<Constraint>, lconst': seq<Constraint>,
                               subs: seq<Substitution>, p: int)
  {
    forall s :: AllSat(stored, s, p) && AllSat(linear, s, p) && AllSat(lconst, s, p) <==>
                AllSat(stored', s, p) && AllSat(linear', s, p) && AllSat(lconst', s, p) && AllHold(subs, s, p)
  }

  // ---- Constant constraints

  function ApplySeq(c: Constraint, subs: seq<Substitution>, p: int): Constraint
    requires p > 0
  {
    if subs == [] then c else Apply(ApplySeq(c, subs[..|subs| - 1], p), subs[|subs| - 1], p)
  }

  lemma {:induction false} ApplySeqMeaning(c: Constraint, subs: seq<Substitution>, s: Assignment, p: int)
    requires p > 0 && AllHold(subs, s, p)
    ensures Sat(ApplySeq(c, subs, p), s, p) <==> Sat(c, s, p)
  {
    hide Sat, Holds, Apply;
    if subs != [] {
      var n := |subs| - 1;
      ApplySeqMeaning(c, subs[..n], s, p);
      ApplyMeaning(ApplySeq(c, subs[..n], p), subs[n], s, p);
    }
  }

  lemma ApplyKept(c: Constraint, sub: Substitution, forbidden: set<nat>, p: int)
    requires p > 0 && KeptForm(c, forbidden, p) && sub.from !in forbidden && sub.from != 0
    ensures KeptForm(Apply(c, sub, p), forbidden, p)
  {
    SubstNothing(c.a, sub.from, sub.to, p);
    SubstNothing(c.b, sub.from, sub.to, p);
    SubstNothing(c.c, sub.from, sub.to, p);
  }

  lemma {:induction false} ApplySeqKept(c: Constraint, subs: seq<Substitution>, forbidden: set<nat>, p: int)
    requires p > 0 && KeptForm(c, forbidden, p) && Froms(subs) !! forbidden && 0 in forbidden
    ensures KeptForm(ApplySeq(c, subs, p), forbidden, p)
  {
    hide Apply, KeptForm;
    if subs != [] {
      var n := |subs| - 1;
      assert forall i :: 0 <= i < n ==> subs[..n][i] == subs[i];
      assert forall i :: 0 <= i < |subs| ==> subs[i].from in Froms(subs);
      ApplySeqKept(c, subs[..n], forbidden, p);
      ApplyKept(ApplySeq(c, subs[..n], p), subs[n], forbidden, p);
    }
  }

  lemma FixKept(c: Constraint, forbidden: set<nat>, p: int)
    requires p > 0 && KeptForm(c, forbidden, p)
    ensures KeptForm(Fix(c, p), forbidden, p) && IsLinear(Fix(c, p)) && CleanLinear(Fix(c, p), p)
  {
    assert DropZeros(ZERO) == map[];
    assert DropZeros(map[]) == map[];
  }

  /** What a round does to one of the constant constraints. */
  function RoundConst(c: Constraint, subs: seq<Substitution>, p: int): Constraint
    requires p > 0
  {
    Fix(ApplySeq(c, subs, p), p)
  }

  function RoundConsts(cs: seq<Constraint>, subs: seq<Substitution>, p: int): seq<Constraint>
    requires p > 0
  {
    seq(|cs|, i requires 0 <= i < |cs| => RoundConst(cs[i], subs, p))
  }

  method ApplySubstitutions(c: Constraint, subs: seq<Substitution>, p: int) returns (r: Constraint)
    requires p > 0
    ensures r == ApplySeq(c, subs, p)
  {
    r := c;
    for j := 0 to |subs|
      invariant r == ApplySeq(c, subs[..j], p)
    {
      hide Apply;
      assert subs[..j + 1][..j] == subs[..j];
      r := Apply(r, subs[j], p);
    }
    assert subs[..|subs|] == subs;
  }

  method ApplyToConstants(lconst: seq<Constraint>, subs: seq<Substitution>, p: int) returns (r: seq<Constraint>)
    requires p > 0
    ensures r == RoundConsts(lconst, subs, p)
  {
    hide Fix, ApplySeq;
    r := [];
    for i := 0 to |lconst|
      invariant |r| == i && forall j :: 0 <= j < i ==> r[j] == RoundConst(lconst[j], subs, p)
    {
      var c := ApplySubstitutions(lconst[i], subs, p);
      r := r + [Fix(c, p)];
    }
  }

  lemma RoundConstsKept(cs: seq<Constraint>, subs: seq<Substitution>, forbidden: set<nat>, p: int)
    requires p > 0 && AllKept(cs, forbidden, p) && Froms(subs) !! forbidden && 0 in forbidden
    ensures AllKept(RoundConsts(cs, subs, p), forbidden, p)
  {
    hide KeptForm, Fix, ApplySeq, Froms;
    forall i | 0 <= i < |cs|
      ensures KeptForm(RoundConst(cs[i], subs, p), forbidden, p)
    {
      ApplySeqKept(cs[i], subs, forbidden, p);
      FixKept(ApplySeq(cs[i], subs, p), forbidden, p);
    }
  }

  lemma RoundConstsMeaning(cs: seq<Constraint>, subs: seq<Substitution>, s: Assignment, p: int)
    requires p > 0 && AllHold(subs, s, p)
    ensures AllSat(RoundConsts(cs, subs, p), s, p) <==> AllSat(cs, s, p)
  {
    hide Sat, Fix, ApplySeq, AllHold;
    var r := RoundConsts(cs, subs, p);
    forall i | 0 <= i < |cs|
      ensures Sat(r[i], s, p) <==> Sat(cs[i], s, p)
    {
      ApplySeqMeaning(cs[i], subs, s, p);
      FixMeaning(ApplySeq(cs[i], subs, p), s, p);
    }
  }

  // ---- Signals of the rewritten store

  ghost predicate LiveRhs(sub: Substitution, deleted: set<nat>, bound: nat) {
    forall x :: x in sub.to && x != 0 ==> x !in deleted && x < bound
  }

  /** Substitutions of one round: none mentions a signal another one defines. */
  ghost predicate Separate(subs: seq<Substitution>, deleted: set<nat>, bound: nat, p: int) {
    && (forall j :: 0 <= j < |subs| ==> Applicable(subs[j], p) && LiveRhs(subs[j], deleted, bound))
    && (forall j, k :: 0 <= j < |subs| && 0 <= k < |subs| ==> subs[j].from !in subs[k].to)
  }

  lemma {:induction false} RewriteSeqSignals(cs: seq<Constraint>, subs: seq<Substitution>, n: nat, i: nat,
                                             deleted: set<nat>, bound: nat, p: int)
    requires p > 0 && n <= |subs| && i < |cs| && AllStored(cs, p) && Alive(cs, deleted, bound)
    requires Separate(subs, deleted, bound, p)
    ensures i < |RewriteSeq(cs, subs[..n], p)|
    ensures var c := RewriteSeq(cs, subs[..n], p)[i];
            && AliveOne(c, deleted, bound)
            && (forall j :: 0 <= j < n ==> subs[j].from !in Signals(c))
  {
    hide Rewrite, Applicable, Stored, Signals, LiveRhs, AliveOne;
    if n == 0 {
      assert subs[..0] == [];
    } else {
      RewriteSeqSignals(cs, subs, n - 1, i, deleted, bound, p);
      assert subs[..n][..n - 1] == subs[..n - 1];
      RewriteSeqForm(cs, subs[..n - 1], p);
      var before := RewriteSeq(cs, subs[..n - 1], p);
      RewriteForm(before[i], subs[n - 1], p);
      assert RewriteSeq(cs, subs[..n], p)[i] == Rewrite(before[i], subs[n - 1], p);
      RewrittenSignals(before[i], Rewrite(before[i], subs[n - 1], p), subs[n - 1], deleted, bound, p);
    }
  }

  lemma RewrittenSignals(c: Constraint, r: Constraint, sub: Substitution, deleted: set<nat>, bound: nat, p: int)
    requires Signals(r) <= Signals(c) + sub.to.Keys && sub.from !in Keys(r)
    requires AliveOne(c, deleted, bound) && LiveRhs(sub, deleted, bound)
    ensures AliveOne(r, deleted, bound)
    ensures forall x :: x in Signals(r) ==> x != sub.from && (x in Signals(c) || x in sub.to)
  {
  }

  lemma ExtractedAlive(now: seq<Constraint>, linear: seq<Constraint>, final: seq<Constraint>, deleted: set<nat>,
                       bound: nat, p: int)
    requires Extracted(now, linear, final) && Alive(final, deleted, bound) && AllStored(final, p) && p > 0
    ensures Alive(now, deleted, bound) && Alive(linear, deleted, bound) && AllLinear(linear, p)
  {
    assert Signals(EMPTY) == {};
    EmptyStored(p);
    hide IsLinear, Fix;
    forall i | 0 <= i < |linear|
      ensures CleanLinear(linear[i], p)
      ensures AliveOne(linear[i], deleted, bound)
    {
      assert linear[i] in linear;
      if linear[i] != EMPTY {
        var j :| 0 <= j < |final| && final[j] == linear[i];
      } else {
        assert IsLinear(EMPTY);
      }
    }
  }

  lemma RoundSolved(linear: seq<Constraint>, subs: seq<Substitution>, cons: seq<Constraint>, deleted: set<nat>,
                    forbidden: set<nat>, bound: nat, p: int)
    requires SolvedForm(subs, forbidden, Mentioned(linear), p) && Leftover(cons, forbidden, Mentioned(linear), p)
    requires 0 in forbidden && Alive(linear, deleted, bound) && 0 !in deleted
    ensures NewDefs(subs, deleted, forbidden, bound) && AllKept(cons, forbidden, p)
    ensures Separate(subs, deleted, bound, p)
  {
    hide Mentioned, Alive, Triangular, CleanLinear, AllKept, Leftover;
    SolvedTriangular(subs, forbidden, Mentioned(linear), p);
    MentionedAlive(linear, deleted, bound);
    LeftoverKept(cons, forbidden, Mentioned(linear), p);
    assert forall j :: 0 <= j < |subs| ==> subs[j].from in Mentioned(linear);
    assert Froms(subs) !! deleted;
    forall i | 0 <= i < |subs|
      ensures subs[i].to.Keys !! deleted
    {
      assert forall x :: x in subs[i].to.Keys ==> x in Mentioned(linear);
    }
  }

  lemma MentionedAlive(linear: seq<Constraint>, deleted: set<nat>, bound: nat)
    requires Alive(linear, deleted, bound) && 0 !in deleted
    ensures forall x :: x in Mentioned(linear) ==> x !in deleted && (x != 0 ==> x < bound)
  {
    forall x | x in Mentioned(linear) && x != 0
      ensures x !in deleted && x < bound
    {
      var c :| c in linear && x in Keys(c);
      var i :| 0 <= i < |linear| && linear[i] == c;
      assert AliveOne(linear[i], deleted, bound) && x in Signals(linear[i]);
    }
  }

  lemma LeftoverKept(cons: seq<Constraint>, forbidden: set<nat>, scope: set<nat>, p: int)
    requires Leftover(cons, forbidden, scope, p)
    ensures AllKept(cons, forbidden, p)
  {
  }

  lemma KeptConcat(one: seq<Constraint>, two: seq<Constraint>, forbidden: set<nat>, p: int)
    requires AllKept(one, forbidden, p) && AllKept(two, forbidden, p)
    ensures AllKept(one + two, forbidden, p)
  {
    hide KeptForm;
  }

  lemma StoreMeaning(stored: seq<Constraint>, now: seq<Constraint>, uncovered: seq<Constraint>,
                     subs: seq<Substitution>, s: Assignment, p: int)
    requires p > 0 && Extracted(now, uncovered, RewriteSeq(stored, subs, p)) && AllHold(subs, s, p)
    ensures AllSat(now, s, p) && AllSat(uncovered, s, p) <==> AllSat(stored, s, p)
  {
    hide Extracted, AllHold, AllSat, RewriteSeq;
    RewriteSeqMeaning(stored, subs, s, p);
    ExtractedMeaning(now, uncovered, RewriteSeq(stored, subs, p), s, p);
  }

  lemma RoundMeaning(stored: seq<Constraint>, linear: seq<Constraint>, lconst: seq<Constraint>,
                     subs: seq<Substitution>, cons: seq<Constraint>,
                     now: seq<Constraint>, uncovered: seq<Constraint>, p: int)
    requires p > 0 && Extracted(now, uncovered, RewriteSeq(stored, subs, p))
    requires forall s :: AllHold(subs, s, p) && AllSat(cons, s, p) <==> AllSat(linear, s, p)
    ensures Equivalent(stored, linear, lconst, now, uncovered, RoundConsts(lconst + cons, subs, p), subs, p)
  {
    hide Extracted, AllHold, AllSat, RewriteSeq, RoundConsts;
    forall s: Assignment
      ensures AllSat(stored, s, p) && AllSat(linear, s, p) && AllSat(lconst, s, p) <==>
              AllSat(now, s, p) && AllSat(uncovered, s, p) && AllSat(RoundConsts(lconst + cons, subs, p), s, p) &&
                AllHold(subs, s, p)
    {
      ConcatSat(lconst, cons, s, p);
      if AllHold(subs, s, p) {
        StoreMeaning(stored, now, uncovered, subs, s, p);
        RoundConstsMeaning(lconst + cons, subs, s, p);
      }
    }
  }

  lemma RewrittenAlive(stored: seq<Constraint>, subs: seq<Substitution>, deleted: set<nat>, bound: nat, p: int)
    requires p > 0 && AllStored(stored, p) && Alive(stored, deleted, bound)
    requires Separate(subs, deleted, bound, p)
    ensures AllStored(RewriteSeq(stored, subs, p), p) && Alive(RewriteSeq(stored, subs, p), deleted + Froms(subs),
            bound)
  {
    hide Signals, Applicable, Stored, RewriteSeq, LiveRhs;
    assert forall j :: 0 <= j < |subs| ==> Applicable(subs[j], p);
    RewriteSeqForm(stored, subs, p);
    assert subs[..|subs|] == subs;
    forall i | 0 <= i < |stored|
      ensures AliveOne(RewriteSeq(stored, subs, p)[i], deleted + Froms(subs), bound)
    {
      RewriteSeqSignals(stored, subs, |subs|, i, deleted, bound, p);
    }
  }

  /** What the rounds work on. */
  datatype RoundState = RoundState(stored: seq<Constraint>, linear: seq<Constraint>, lconst: seq<Constraint>,
                                   deleted: set<nat>)

  /** One round, for some solution of the linear constraints: the store rewritten, what has become linear taken out,
      the constants rewritten, the defined signals deleted. Only a round without removable signals defines nothing,
      and it uncovers nothing. */
  ghost predicate RoundBy(before: RoundState, after: RoundState, subs: seq<Substitution>, cons: seq<Constraint>,
                          forbidden: set<nat>, p: int) {
    && p > 0 && (forall s :: AllHold(subs, s, p) && AllSat(cons, s, p) <==> AllSat(before.linear, s, p))
    && SolvedForm(subs, forbidden, Mentioned(before.linear), p)
    && Leftover(cons, forbidden, Mentioned(before.linear), p)
    && (subs == [] ==> NothingTakable(before.linear, forbidden) && after.linear == [])
    && Extracted(after.stored, after.linear, RewriteSeq(before.stored, subs, p))
    && after.lconst == RoundConsts(before.lconst + cons, subs, p) && after.deleted == before.deleted + Froms(subs)
  }

  ghost predicate RoundTo(before: RoundState, after: RoundState, forbidden: set<nat>, p: int) {
    exists subs, cons :: RoundBy(before, after, subs, cons, forbidden, p)
  }

  /** The states before, between and after the rounds: every round but the last left linear constraints. */
  ghost predicate RoundRun(states: seq<RoundState>, forbidden: set<nat>, p: int) {
    && states != []
    && (forall i :: 0 <= i < |states| - 1 ==> states[i].linear != [])
    && (forall i :: 0 <= i < |states| - 1 ==> RoundTo(states[i], states[i + 1], forbidden, p))
  }

  lemma RoundRunNext(states: seq<RoundState>, next: RoundState, forbidden: set<nat>, p: int)
    requires RoundRun(states, forbidden, p) && states[|states| - 1].linear != []
    requires RoundTo(states[|states| - 1], next, forbidden, p)
    ensures RoundRun(states + [next], forbidden, p)
  {
    hide RoundTo;
  }

  /** One round: solve the linear constraints, substitute in the store and in the constant constraints. */
  method Round(storage: ConstraintStorage, index: SignalToConstraints, linear: seq<Constraint>, lconst: seq<Constraint>,
               deleted: set<nat>, forbidden: set<nat>, bound: nat, p: int, useOldHeuristics: bool,
               ghost idle: set<nat>)
    returns (index': SignalToConstraints, linear': seq<Constraint>, lconst': seq<Constraint>, deleted': set<nat>,
      ghost subs: seq<Substitution>)
    requires Prime(p) && RoundOk(storage.constraints, index, linear, lconst, deleted, forbidden, bound, p)
    requires Spares(storage.constraints, index, linear, idle, bound)
    modifies storage
    ensures Spares(storage.constraints, index', linear', idle, bound) && Froms(subs) !! idle
    ensures deleted' == deleted + Froms(subs) && NewDefs(subs, deleted, forbidden, bound)
    ensures RoundOk(storage.constraints, index', linear', lconst', deleted', forbidden, bound, p)
    ensures Equivalent(old(storage.constraints), linear, lconst, storage.constraints, linear', lconst', subs, p)
    ensures RoundTo(RoundState(old(storage.constraints), linear, lconst, deleted),
                    RoundState(storage.constraints, linear', lconst', deleted'), forbidden, p)
    ensures subs == [] ==> NothingTakable(linear, forbidden) && linear' == []
  {
    hide RoundOk, Prime, AllLinear, Signals, AllStored, Covers, NonLinearOrEmpty, AllSat, AllHold, SolvedForm,
         Leftover, Mentioned, NewDefs, AllKept, Applicable, Equivalent, Extracted, Spares, ListsOnly, NothingTakable,
         Clusters.Components, Tackled;
    ghost var start := storage.constraints;
    RoundLinear(start, index, linear, lconst, deleted, forbidden, bound, p);
    var substitutions, constants := LinearSimplify(linear, forbidden, bound, p, useOldHeuristics);
    subs := substitutions;
    RoundSolved(linear, substitutions, constants, deleted, forbidden, bound, p);
    deleted' := Remove(substitutions, deleted);
    lconst' := ApplyToConstants(lconst + constants, substitutions, p);
    index', linear' := ApplySubstitutionToMap(storage, index, substitutions, p);
    RoundMeaning(start, linear, lconst, subs, constants, storage.constraints, linear', p);
    RoundKeeps(start, index, linear, lconst, subs, constants, storage.constraints, index', linear', deleted, forbidden,
      bound, p);
    RoundSpares(start, index, linear, subs, constants, storage.constraints, index', linear', forbidden, idle, bound, p);
    assert RoundBy(RoundState(start, linear, lconst, deleted),
                   RoundState(storage.constraints, linear', lconst', deleted'), subs, constants, forbidden, p);
  }

  lemma RoundSpares(start: seq<Constraint>, index: SignalToConstraints, linear: seq<Constraint>,
                    subs: seq<Substitution>, cons: seq<Constraint>, now: seq<Constraint>, index': SignalToConstraints,
                    uncovered: seq<Constraint>, forbidden: set<nat>, idle: set<nat>, bound: nat, p: int)
    requires p > 0 && Spares(start, index, linear, idle, bound) && AllStored(start, p) && 0 in forbidden
    requires SolvedForm(subs, forbidden, Mentioned(linear), p) && Leftover(cons, forbidden, Mentioned(linear), p)
    requires Extracted(now, uncovered, RewriteSeq(start, subs, p)) && ListsOnly(index', index, subs, |subs|)
    ensures Spares(now, index', uncovered, idle, bound) && Froms(subs) !! idle
  {
    hide Mentioned, SolvedForm, Leftover, Extracted, RewriteSeq, AllStored, Alive, AllKept, Separate, Triangular;
    RoundSolved(linear, subs, cons, idle, forbidden, bound, p);
    RewrittenAlive(start, subs, idle, bound, p);
    ExtractedAlive(now, uncovered, RewriteSeq(start, subs, p), idle + Froms(subs), bound, p);
    FewerAlive(now, idle, Froms(subs), bound);
    FewerAlive(uncovered, idle, Froms(subs), bound);
    forall x | x in index'
      ensures x !in idle
    {
      if x !in index {
        var j :| 0 <= j < |subs| && x in subs[j].to;
        assert subs[j].to.Keys !! idle;
      }
    }
  }

  lemma FewerAlive(cs: seq<Constraint>, one: set<nat>, two: set<nat>, bound: nat)
    requires Alive(cs, one + two, bound)
    ensures Alive(cs, one, bound) && Alive(cs, two, bound)
  {
    hide Signals;
    forall i | 0 <= i < |cs|
      ensures AliveOne(cs[i], one, bound) && AliveOne(cs[i], two, bound)
    {
      assert AliveOne(cs[i], one + two, bound);
    }
  }

  lemma RoundLinear(stored: seq<Constraint>, index: SignalToConstraints, linear: seq<Constraint>,
                    lconst: seq<Constraint>,
                    deleted: set<nat>, forbidden: set<nat>, bound: nat, p: int)
    requires RoundOk(stored, index, linear, lconst, deleted, forbidden, bound, p)
    ensures forall i :: 0 <= i < |linear| ==> CleanLinear(linear[i], p)
    ensures forall i, x :: 0 <= i < |linear| && x in Signals(linear[i]) ==> x < bound
    ensures p > 0 && 0 in forbidden && 0 !in deleted && AllStored(stored, p) && Covers(index, stored) &&
            NonLinearOrEmpty(stored)
    ensures Alive(linear, deleted, bound)
  {
    hide Signals, CleanLinear;
    forall i, x | 0 <= i < |linear| && x in Signals(linear[i])
      ensures x < bound
    {
      assert AliveOne(linear[i], deleted, bound);
    }
  }

  lemma RoundKeeps(start: seq<Constraint>, index: SignalToConstraints, linear: seq<Constraint>,
                   lconst: seq<Constraint>, subs: seq<Substitution>, cons: seq<Constraint>,
                   now: seq<Constraint>, index': SignalToConstraints, uncovered: seq<Constraint>, deleted: set<nat>,
                     forbidden: set<nat>, bound: nat, p: int)
    requires RoundOk(start, index, linear, lconst, deleted, forbidden, bound, p) &&
             NewDefs(subs, deleted, forbidden, bound)
    requires AllKept(cons, forbidden, p) && Extracted(now, uncovered, RewriteSeq(start, subs, p))
    requires Covers(index', now) && AllStored(now, p)
    requires Separate(subs, deleted, bound, p)
    ensures RoundOk(now, index', uncovered, RoundConsts(lconst + cons, subs, p), deleted + Froms(subs), forbidden,
            bound, p)
  {
    hide Stored, Covers, Alive, AllLinear, NonLinearOrEmpty, AllKept, Applicable, Extracted, RewriteSeq, RoundConsts,
         Triangular, Froms;
    var final := RewriteSeq(start, subs, p);
    RewrittenAlive(start, subs, deleted, bound, p);
    ExtractedAlive(now, uncovered, final, deleted + Froms(subs), bound, p);
    ExtractedMeaning(now, uncovered, final, (k: nat) => 0, p);
    KeptConcat(lconst, cons, forbidden, p);
    RoundConstsKept(lconst + cons, subs, forbidden, p);
  }

  /** The defined signals join the deleted ones. */
  method Remove(subs: seq<Substitution>, deleted: set<nat>) returns (deleted': set<nat>)
    ensures deleted' == deleted + Froms(subs)
  {
    deleted' := deleted;
    for i := 0 to |subs|
      invariant deleted' == deleted + set j | 0 <= j < i :: subs[j].from
    {
      deleted' := deleted' + {subs[i].from};
    }
  }

  lemma EquivalentTwice(stored: seq<Constraint>, linear: seq<Constraint>, lconst: seq<Constraint>,
                        middle: seq<Constraint>, linear1: seq<Constraint>,
                        lconst1: seq<Constraint>, now: seq<Constraint>, linear2: seq<Constraint>,
                          lconst2: seq<Constraint>,
                        subs: seq<Substitution>, more: seq<Substitution>, p: int)
    requires Equivalent(stored, linear, lconst, middle, linear1, lconst1, subs, p)
    requires Equivalent(middle, linear1, lconst1, now, linear2, lconst2, more, p)
    ensures Equivalent(stored, linear, lconst, now, linear2, lconst2, subs + more, p)
  {
    hide AllSat, AllHold;
    forall s: Assignment
      ensures AllHold(subs + more, s, p) <==> AllHold(subs, s, p) && AllHold(more, s, p)
    {
      AppendHold(subs, more, s, p);
    }
  }

  lemma NewDefsTwice(one: seq<Substitution>, two: seq<Substitution>, deleted: set<nat>, forbidden: set<nat>, bound: nat)
    requires NewDefs(one, deleted, forbidden, bound) && NewDefs(two, deleted + Froms(one), forbidden, bound)
    ensures NewDefs(one + two, deleted, forbidden, bound) && Froms(one + two) == Froms(one) + Froms(two)
  {
    hide Triangular, Froms;
    TriangularAppend(one, two);
  }

  /** Rounds go on while they uncover linear constraints and the budget lasts. Linear constraints are left only when
      every round of the budget was run, and then every round has defined a signal. */
  method RunRounds(storage: ConstraintStorage, index: SignalToConstraints, linear: seq<Constraint>,
                   lconst: seq<Constraint>,
                   deleted: set<nat>, forbidden: set<nat>, bound: nat, p: int, useOldHeuristics: bool, noRounds: nat,
                   ghost idle: set<nat>)
    returns (index': SignalToConstraints, linear': seq<Constraint>, lconst': seq<Constraint>, deleted': set<nat>,
      ghost subs: seq<Substitution>, ghost states: seq<RoundState>)
    requires Prime(p) && RoundOk(storage.constraints, index, linear, lconst, deleted, forbidden, bound, p)
    requires Spares(storage.constraints, index, linear, idle, bound)
    modifies storage
    ensures Spares(storage.constraints, index', linear', idle, bound) && Froms(subs) !! idle
    ensures deleted' == deleted + Froms(subs) && NewDefs(subs, deleted, forbidden, bound)
    ensures RoundOk(storage.constraints, index', linear', lconst', deleted', forbidden, bound, p)
    ensures Equivalent(old(storage.constraints), linear, lconst, storage.constraints, linear', lconst', subs, p)
    ensures |states| > 0 && RoundRun(states, forbidden, p)
    ensures states[0] == RoundState(old(storage.constraints), linear, lconst, deleted)
    ensures states[|states| - 1] == RoundState(storage.constraints, linear', lconst', deleted')
    ensures |states| - 1 <= noRounds && (linear' == [] || |states| - 1 == noRounds)
    ensures linear' == [] || |Froms(subs)| >= noRounds
  {
    hide Prime, RoundOk, NewDefs, Equivalent, Froms, Spares, RoundRun, RoundTo, NothingTakable;
    ghost var start := storage.constraints;
    index', linear', lconst', deleted', subs := index, linear, lconst, deleted, [];
    NoRounds(start, linear, lconst, deleted, forbidden, bound, p);
    states := [RoundState(start, linear, lconst, deleted)];
    var rounds := noRounds;
    var applyRound := rounds > 0 && linear' != [];
    while applyRound
      invariant applyRound <==> linear' != [] && rounds > 0
      invariant deleted' == deleted + Froms(subs) && NewDefs(subs, deleted, forbidden, bound)
      invariant RoundOk(storage.constraints, index', linear', lconst', deleted', forbidden, bound, p)
      invariant Spares(storage.constraints, index', linear', idle, bound) && Froms(subs) !! idle
      invariant Equivalent(start, linear, lconst, storage.constraints, linear', lconst', subs, p)
      invariant |states| > 0 && RoundRun(states, forbidden, p)
      invariant states[0] == RoundState(start, linear, lconst, deleted)
      invariant 0 <= rounds <= noRounds && |states| - 1 == noRounds - rounds
      invariant states[|states| - 1] == RoundState(storage.constraints, linear', lconst', deleted')
      invariant linear' == [] || |Froms(subs)| >= noRounds - rounds
      decreases rounds
    {
      ghost var middle, linear1, lconst1 := storage.constraints, linear', lconst';
      ghost var more;
      index', linear', lconst', deleted', more := Round(storage, index', linear', lconst', deleted', forbidden, bound,
        p, useOldHeuristics, idle);
      EquivalentTwice(start, linear, lconst, middle, linear1, lconst1, storage.constraints, linear', lconst', subs,
        more, p);
      NewDefsTwice(subs, more, deleted, forbidden, bound);
      MoreDefined(subs, more, deleted, forbidden, bound);
      ghost var next := RoundState(storage.constraints, linear', lconst', deleted');
      RoundRunNext(states, next, forbidden, p);
      subs, states := subs + more, states + [next];
      rounds := rounds - 1;
      applyRound := linear' != [] && rounds > 0;
    }
  }

  lemma NoRounds(start: seq<Constraint>, linear: seq<Constraint>, lconst: seq<Constraint>, deleted: set<nat>,
                 forbidden: set<nat>, bound: nat, p: int)
    ensures NewDefs([], deleted, forbidden, bound) && Froms([]) == {}
    ensures Equivalent(start, linear, lconst, start, linear, lconst, [], p)
    ensures RoundRun([RoundState(start, linear, lconst, deleted)], forbidden, p)
  {
  }

  lemma MoreDefined(one: seq<Substitution>, two: seq<Substitution>, deleted: set<nat>, forbidden: set<nat>, bound: nat)
    requires NewDefs(one, deleted, forbidden, bound) && NewDefs(two, deleted + Froms(one), forbidden, bound)
    ensures two != [] ==> |Froms(one + two)| >= |Froms(one)| + 1
  {
    NewDefsTwice(one, two, deleted, forbidden, bound);
    hide Triangular;
    assert |Froms(one) + Froms(two)| == |Froms(one)| + |Froms(two)|;
    if two != [] {
      assert two[0].from in Froms(two);
      assert Froms(two) != {};
    }
  }
}
