/** Solving one cluster of linear constraints (full_simplification in simplification_utils.rs). */
module FullSimplification {
  import opened Field
  import opened LinearCombination
  import opened Constraints
  import opened Elimination
  import opened SimplificationUtils
  import opened LessOccurrences
  import opened SortedSets

  datatype Config = Config(field: int, constraints: seq<Constraint>, forbidden: set<nat>, numSignals: nat,
                           useOldHeuristics: bool)

  datatype Simplified = Simplified(constraints: seq<Constraint>, substitutions: seq<Substitution>, removed: seq<nat>)

  const MIN := 350
  const MAX := 1000000

  /** The last eliminated signal is flattened first: everything it mentions is final. */
  method CreateNonoverlappingSubstitutions4(possibleOverlap: Solved, signals: SignalDefinition4, p: int,
                                            ghost h: Holder, ghost scope: set<nat>)
    returns (noOverlap: Solved)
    requires p > 0 && HolderOk(h, signals.forbidden, scope, p) &&
             InOrder(h, signals.orderSignals, signals.deletedSymbols)
    requires NormalForm(possibleOverlap, h, p)
    ensures noOverlap.Keys == possibleOverlap.Keys && Flat(noOverlap, noOverlap.Keys, scope, p)
    ensures forall s :: SolvedHolds(noOverlap, s, p) <==> SolvedHolds(possibleOverlap, s, p)
  {
    hide Holds, SolvedHolds, PartHolds, HolderOk, InOrder, NormalForm, Flat;
    FlatStart(h, possibleOverlap, signals.orderSignals, signals.deletedSymbols, scope, p);
    noOverlap := map[];
    ghost var defined := h.Keys;
    ghost var known: set<nat> := {};
    var left := possibleOverlap;
    var rest := signals.orderSignals;
    while rest != []
      invariant noOverlap.Keys == known <= defined
      invariant forall k :: k in defined && k !in known ==> k in left && left[k] == possibleOverlap[k]
      invariant Ordered(h, rest, known)
      invariant forall k :: k in defined ==> k in known || k in rest
      invariant Flat(noOverlap, defined, scope, p)
      invariant forall s :: SolvedHolds(noOverlap, s, p) <==> PartHolds(possibleOverlap, noOverlap.Keys, s, p)
      decreases |rest|
    {
      var k := rest[0];
      var substitution := left[k];
      HolderEntry(h, k, signals.forbidden, scope, p);
      FlatReady(h, possibleOverlap, k, signals.forbidden, scope, known, p);
      var sub := ApplyKnown(noOverlap, substitution, p, defined, scope);
      FlattenStep(noOverlap, noOverlap[k := sub], possibleOverlap, k, sub, p);
      FlatInsert(noOverlap, k, sub, defined, scope, p);
      left := left - {k};
      noOverlap := noOverlap[k := sub];
      known := known + {k};
      rest := rest[1..];
    }
    assert noOverlap.Keys == defined;
  }

  /** Nothing is flat at first, and everything is in the end. */
  lemma FlatStart(h: Holder, m: Solved, order: seq<nat>, deleted: set<nat>, scope: set<nat>, p: int)
    requires NormalForm(m, h, p) && InOrder(h, order, deleted)
    ensures m.Keys == h.Keys && Ordered(h, order, {}) && (forall k :: k in h <==> k in order)
    ensures Flat(map[], h.Keys, scope, p) && forall s :: SolvedHolds(map[], s, p) && PartHolds(m, {}, s, p)
    ensures forall s :: PartHolds(m, m.Keys, s, p) <==> SolvedHolds(m, s, p)
  {
  }

  lemma FlatReady(h: Holder, m: Solved, k: nat, forbidden: set<nat>, scope: set<nat>, known: set<nat>, p: int)
    requires HolderOk(h, forbidden, scope, p) && NormalForm(m, h, p) && k in h
    requires h[k].sub.to.Keys * h.Keys <= known
    ensures 0 in scope && 0 !in h.Keys && m[k].from == k
    ensures m[k].to.Keys <= scope && Canonical(m[k].to, p) && m[k].to.Keys * h.Keys <= known
  {
  }

  lemma FlatInsert(m: Solved, k: nat, sub: Substitution, defined: set<nat>, scope: set<nat>, p: int)
    requires Flat(m, defined, scope, p) && sub.from == k
    requires sub.to.Keys !! defined && sub.to.Keys <= scope && Canonical(sub.to, p)
    ensures Flat(m[k := sub], defined, scope, p)
  {
  }

  /** The signals a cluster mentions, with the constant wire. */
  ghost function Mentioned(cs: seq<Constraint>): set<nat> {
    (set c, k | c in cs && k in Keys(c) :: k) + {0}
  }

  /** A solved form: each signal defined once, definable, and mentioned by no right-hand side. */
  ghost predicate SolvedForm(subs: seq<Substitution>, forbidden: set<nat>, scope: set<nat>, p: int) {
    && (forall i :: 0 <= i < |subs| ==> subs[i].from !in forbidden && subs[i].from in scope)
    && (forall i :: 0 <= i < |subs| ==> subs[i].to.Keys <= scope && Canonical(subs[i].to, p))
    && (forall i, j :: 0 <= i < j < |subs| ==> subs[i].from != subs[j].from)
    && (forall i, j :: 0 <= i < |subs| && 0 <= j < |subs| ==> subs[j].from !in subs[i].to)
  }

  lemma SignalsInScope(cs: seq<Constraint>, p: int)
    requires forall i :: 0 <= i < |cs| ==> CleanLinear(cs[i], p)
    ensures forall i :: 0 <= i < |cs| ==> Workable(cs[i], Mentioned(cs), p)
    ensures forall forbidden :: 0 in forbidden ==> Mentioned(cs) - forbidden <= Takable(cs, forbidden)
  {
    forall i, k | 0 <= i < |cs| && k in cs[i].c
      ensures k in Mentioned(cs)
    {
      assert cs[i] in cs && k in Keys(cs[i]);
    }
  }

  /** Collect the solved map as a list, in whatever order the hash map yields it. */
  method ListOf(nonOverlapping: Solved, p: int, ghost forbidden: set<nat>, ghost scope: set<nat>)
    returns (substitutions: seq<Substitution>, removed: seq<nat>)
    requires Flat(nonOverlapping, nonOverlapping.Keys, scope, p)
    requires nonOverlapping.Keys <= scope && nonOverlapping.Keys !! forbidden
    ensures |removed| == |substitutions| && forall i :: 0 <= i < |removed| ==> removed[i] == substitutions[i].from
    ensures SolvedForm(substitutions, forbidden, scope, p)
    ensures forall k :: k in nonOverlapping <==> k in removed
    ensures forall s :: AllHold(substitutions, s, p) <==> SolvedHolds(nonOverlapping, s, p)
    ensures forall i :: 0 <= i < |removed| ==>
              removed[i] in nonOverlapping && substitutions[i] == nonOverlapping[removed[i]]
  {
    hide Holds;
    substitutions, removed := [], [];
    var pending := nonOverlapping.Keys;
    while pending != {}
      invariant pending <= nonOverlapping.Keys
      invariant Listed(nonOverlapping, pending, substitutions, removed)
      decreases pending
    {
      var k :| k in pending;
      hide Flat;
      ListNext(nonOverlapping, pending, substitutions, removed, k);
      pending := pending - {k};
      removed := removed + [k];
      substitutions := substitutions + [nonOverlapping[k]];
    }
    ListedSolved(nonOverlapping, substitutions, removed, forbidden, scope, p);
  }

  ghost predicate Listed(m: Solved, pending: set<nat>, subs: seq<Substitution>, removed: seq<nat>) {
    && |removed| == |subs|
    && (forall i :: 0 <= i < |removed| ==> removed[i] in m && removed[i] !in pending && subs[i] == m[removed[i]])
    && (forall i, j :: 0 <= i < j < |removed| ==> removed[i] != removed[j])
    && (forall k :: k in m ==> k in pending || k in removed)
  }

  lemma ListNext(m: Solved, pending: set<nat>, subs: seq<Substitution>, removed: seq<nat>, k: nat)
    requires Listed(m, pending, subs, removed) && k in pending && k in m
    ensures Listed(m, pending - {k}, subs + [m[k]], removed + [k])
  {
    assert (removed + [k])[|removed|] == k;
    assert forall j :: j in removed ==> j in removed + [k];
  }

  lemma ListedSolved(m: Solved, subs: seq<Substitution>, removed: seq<nat>, forbidden: set<nat>, scope: set<nat>,
                     p: int)
    requires Listed(m, {}, subs, removed) && Flat(m, m.Keys, scope, p)
    requires m.Keys <= scope && m.Keys !! forbidden
    ensures forall i :: 0 <= i < |removed| ==> removed[i] == subs[i].from && removed[i] in m && subs[i] == m[removed[i]]
    ensures SolvedForm(subs, forbidden, scope, p)
    ensures forall s :: AllHold(subs, s, p) <==> SolvedHolds(m, s, p)
  {
    hide Holds;
    forall s: Assignment
      ensures AllHold(subs, s, p) <==> SolvedHolds(m, s, p)
    {
      if AllHold(subs, s, p) {
        forall k | k in m
          ensures Holds(m[k], s, p)
        {
          var i :| 0 <= i < |removed| && removed[i] == k;
          assert subs[i] == m[k];
        }
      }
    }
  }

  /** The heuristic by occurrences runs on clusters of middle size, unless the old one is asked for. */
  predicate FewestFirst(config: Config) {
    MIN <= |config.constraints| < MAX && !config.useOldHeuristics
  }

  /** Definitions mention smaller signals only, and signals that must stay. */
  ghost predicate Downward(subs: seq<Substitution>, forbidden: set<nat>) {
    forall i, j :: 0 <= i < |subs| && j in subs[i].to && j !in forbidden ==> j < subs[i].from
  }

  /** Both heuristics return a solved form equivalent to the cluster; what could not be solved
      mentions only signals that must stay. */
  method FullSimplification(config: Config) returns (r: Simplified)
    requires Prime(config.field) && 0 in config.forbidden
    requires forall i :: 0 <= i < |config.constraints| ==> CleanLinear(config.constraints[i], config.field)
    ensures SolvedForm(r.substitutions, config.forbidden, Mentioned(config.constraints), config.field)
    ensures Leftover(r.constraints, config.forbidden, Mentioned(config.constraints), config.field)
    ensures |r.removed| == |r.substitutions|
    ensures forall i :: 0 <= i < |r.removed| ==> r.removed[i] == r.substitutions[i].from
    ensures forall s :: AllSat(r.constraints, s, config.field) && AllHold(r.substitutions, s, config.field) <==>
                        AllSat(config.constraints, s, config.field)
    ensures r.substitutions == [] ==> NothingTakable(config.constraints, config.forbidden)
    ensures FewestFirst(config) ==> OnceDefined(config.constraints, config.forbidden, Elements(r.removed))
    ensures !FewestFirst(config) ==> Downward(r.substitutions, config.forbidden)
  {
    var p := config.field;
    PrimePositive(p);
    var applyLessOccurrences := FewestFirst(config);
    SignalsInScope(config.constraints, p);
    ghost var scope := Mentioned(config.constraints);
    assert 0 in scope;
    hide Sat, Holds, Prime, HolderHolds, AllSat, AllHold, SolvedHolds, HolderOk, Leftover, SolvedForm, Takable;
    hide CleanLinear, Workable, Mentioned, InOrder, NormalForm, Descending, Flat, NothingTakable, OnceDefined, Downward,
         SolvedDownward, Elements, FewestFirst;
    var holder: Holder, constraints: seq<Constraint>, nonOverlapping: Solved;
    if applyLessOccurrences {
      var signals := new SignalDefinition4(config.forbidden);
      holder, constraints := SubstitutionProcess4(signals, config.constraints, p, scope);
      var normalized := NormalizeSubstitutions(holder, p, config.forbidden, scope);
      nonOverlapping := CreateNonoverlappingSubstitutions4(normalized, signals, p, holder, scope);
      NormalDomain(normalized, holder, config.forbidden, scope, p);
    } else {
      var signals := new SignalDefinition(config.forbidden);
      holder, constraints := SubstitutionProcess3(signals, config.constraints, p, scope);
      var normalized := NormalizeSubstitutions(holder, p, config.forbidden, scope);
      NormalDomain(normalized, holder, config.forbidden, scope, p);
      NormalDescending(normalized, holder, config.forbidden, scope, p);
      nonOverlapping := CreateNonoverlappingSubstitutions(normalized, p, config.forbidden, scope);
    }
    var substitutions, removed := ListOf(nonOverlapping, p, config.forbidden, scope);
    ResultForm(config, holder.Keys, nonOverlapping, substitutions, removed);
    r := Simplified(constraints, substitutions, removed);
  }

  lemma ResultForm(config: Config, defined: set<nat>, m: Solved, subs: seq<Substitution>, removed: seq<nat>)
    requires m.Keys == defined && |removed| == |subs| && forall k :: k in m <==> k in removed
    requires forall i :: 0 <= i < |removed| ==>
             removed[i] in m && subs[i] == m[removed[i]] && removed[i] == subs[i].from
    requires defined == {} ==> NothingTakable(config.constraints, config.forbidden)
    requires FewestFirst(config) ==> OnceDefined(config.constraints, config.forbidden, defined)
    requires !FewestFirst(config) ==> SolvedDownward(m, config.forbidden)
    ensures subs == [] ==> NothingTakable(config.constraints, config.forbidden)
    ensures FewestFirst(config) ==> OnceDefined(config.constraints, config.forbidden, Elements(removed))
    ensures !FewestFirst(config) ==> Downward(subs, config.forbidden)
  {
    hide NothingTakable, OnceDefined, FewestFirst;
    assert Elements(removed) == defined;
  }

  lemma NormalDomain(m: Solved, h: Holder, forbidden: set<nat>, scope: set<nat>, p: int)
    requires HolderOk(h, forbidden, scope, p) && NormalForm(m, h, p)
    ensures m.Keys == h.Keys && m.Keys <= scope && m.Keys !! forbidden
  {
  }

  lemma NormalDescending(m: Solved, h: Holder, forbidden: set<nat>, scope: set<nat>, p: int)
    requires HolderOk(h, forbidden, scope, p) && NormalForm(m, h, p) && Descending(h, forbidden)
    ensures Flat(m, {}, scope, p)
    ensures SolvedDownward(m, forbidden)
  {
  }
}
