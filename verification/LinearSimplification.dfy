/** The third frame: every cluster of linear constraints is solved by a pool worker
    (linear_simplification in constraint_simplification.rs). */
module LinearSimplification {
  import opened Field
  import opened LinearCombination
  import opened Constraints
  import opened Elimination
  import opened Clusters
  import opened ClusterFacts
  import opened SimplificationUtils
  import opened FullSimplification
  import opened EqSimplification

  /** The signals of the clusters received so far. */
  ghost function SigsOf(clusters: seq<Cluster>, done: set<nat>): set<nat> {
    (set i, x | i in done && i < |clusters| && x in Sig(clusters[i].constraints) :: x) + {0}
  }

  ghost predicate Gathering(subs: seq<Substitution>, cons: seq<Constraint>, clusters: seq<Cluster>, done: set<nat>,
                            forbidden: set<nat>, p: int)
  {
    && SolvedForm(subs, forbidden, SigsOf(clusters, done), p)
    && Leftover(cons, forbidden, SigsOf(clusters, done), p)
    && forall s :: AllHold(subs, s, p) && AllSat(cons, s, p) <==> DoneClusters(clusters, done, s, p)
  }

  lemma SolvedApart(one: seq<Substitution>, two: seq<Substitution>, forbidden: set<nat>, scope1: set<nat>,
                    scope2: set<nat>, all: set<nat>, p: int)
    requires SolvedForm(one, forbidden, scope1, p) && SolvedForm(two, forbidden, scope2, p) && 0 in forbidden
    requires scope1 * scope2 <= {0} && all == scope1 + scope2
    ensures SolvedForm(one + two, forbidden, all, p)
  {
    var subs := one + two;
    var n := |one|;
    assert forall i :: 0 <= i < n ==> subs[i] == one[i];
    assert forall i :: 0 <= i < |two| ==> subs[n + i] == two[i];
    forall i | 0 <= i < |subs|
      ensures subs[i].from !in forbidden && subs[i].from in all && subs[i].to.Keys <= all && Canonical(subs[i].to, p)
      ensures i < n ==> subs[i].from in scope1 && subs[i].to.Keys <= scope1
      ensures i >= n ==> subs[i].from in scope2 && subs[i].to.Keys <= scope2
    {
      if i >= n { assert subs[i] == two[i - n]; }
    }
    forall i, j | 0 <= i < |subs| && 0 <= j < |subs|
      ensures subs[j].from !in subs[i].to
      ensures i < j ==> subs[i].from != subs[j].from
    {
      if i < n && j < n {
        assert one[j].from !in one[i].to;
      } else if i >= n && j >= n {
        assert subs[i] == two[i - n] && subs[j] == two[j - n];
        assert two[j - n].from !in two[i - n].to;
      } else {
        assert subs[j].from != 0;
        assert subs[j].from !in scope1 * scope2;
      }
    }
  }

  lemma LeftoverConcat(one: seq<Constraint>, two: seq<Constraint>, forbidden: set<nat>, scope1: set<nat>,
                       scope2: set<nat>, all: set<nat>, p: int)
    requires Leftover(one, forbidden, scope1, p) && Leftover(two, forbidden, scope2, p) && scope1 <= all &&
             scope2 <= all
    ensures Leftover(one + two, forbidden, all, p)
  {
  }

  lemma ScopesApart(clusters: seq<Cluster>, linear: seq<Constraint>, done: set<nat>, id: nat)
    requires Components(clusters, linear) && id < |clusters| && id !in done
    ensures Mentioned(clusters[id].constraints) == Sig(clusters[id].constraints) + {0}
    ensures SigsOf(clusters, done) * Mentioned(clusters[id].constraints) <= {0}
    ensures SigsOf(clusters, done + {id}) == SigsOf(clusters, done) + Mentioned(clusters[id].constraints)
  {
    hide Components, Sig, Mentioned;
    var cs := clusters[id].constraints;
    MentionedSig(cs);
    forall x | x in SigsOf(clusters, done) * Mentioned(cs)
      ensures x in {0}
    {
      if x != 0 {
        var i: nat :| i in done && i < |clusters| && x in Sig(clusters[i].constraints);
        SharedSignal(clusters, linear, i, id, x);
      }
    }
    SigsOfNext(clusters, done, id);
  }

  lemma SigsOfNext(clusters: seq<Cluster>, done: set<nat>, id: nat)
    requires id < |clusters|
    ensures SigsOf(clusters, done + {id}) == SigsOf(clusters, done) + (Sig(clusters[id].constraints) + {0})
  {
    hide Sig;
  }

  lemma MentionedSig(cs: seq<Constraint>)
    ensures Mentioned(cs) == Sig(cs) + {0}
  {
    forall x | x in Mentioned(cs) && x != 0
      ensures x in Sig(cs)
    {
      var c :| c in cs && x in Keys(c);
      assert x in Signals(c);
    }
    forall x | x in Sig(cs)
      ensures x in Mentioned(cs)
    {
      var c :| c in cs && x in Signals(c);
      assert x in Keys(c);
    }
  }

  lemma GatherNext(subs: seq<Substitution>, cons: seq<Constraint>, clusters: seq<Cluster>, linear: seq<Constraint>,
                   done: set<nat>,
                   id: nat, result: Simplified, forbidden: set<nat>, p: int)
    requires Components(clusters, linear) && Gathering(subs, cons, clusters, done, forbidden, p) && 0 in forbidden
    requires id < |clusters| && id !in done
    requires SolvedForm(result.substitutions, forbidden, Mentioned(clusters[id].constraints), p)
    requires Leftover(result.constraints, forbidden, Mentioned(clusters[id].constraints), p)
    requires forall s :: AllSat(result.constraints, s, p) && AllHold(result.substitutions, s, p) <==>
             AllSat(clusters[id].constraints, s, p)
    ensures Gathering(subs + result.substitutions, cons + result.constraints, clusters, done + {id}, forbidden, p)
  {
    hide Components, SolvedForm, Leftover, Mentioned, SigsOf, AllHold, AllSat, DoneClusters;
    ScopesApart(clusters, linear, done, id);
    var old', new', all := SigsOf(clusters, done), Mentioned(clusters[id].constraints), SigsOf(clusters, done + {id});
    SolvedApart(subs, result.substitutions, forbidden, old', new', all, p);
    LeftoverConcat(cons, result.constraints, forbidden, old', new', all, p);
    forall s: Assignment
      ensures AllHold(subs + result.substitutions, s, p) && AllSat(cons + result.constraints, s, p) <==>
              DoneClusters(clusters, done + {id}, s, p)
    {
      AppendHold(subs, result.substitutions, s, p);
      ConcatSat(cons, result.constraints, s, p);
      DoneClustersInsert(clusters, done, id, s, p);
    }
  }

  lemma GatherNothing(clusters: seq<Cluster>, forbidden: set<nat>, p: int)
    ensures Gathering([], [], clusters, {}, forbidden, p)
  {
  }

  lemma GatheredAll(subs: seq<Substitution>, cons: seq<Constraint>, clusters: seq<Cluster>, linear: seq<Constraint>,
                    forbidden: set<nat>, p: int)
    requires Components(clusters, linear) && Gathering(subs, cons, clusters, Below(|clusters|), forbidden, p)
    ensures SolvedForm(subs, forbidden, Mentioned(linear), p) && Leftover(cons, forbidden, Mentioned(linear), p)
    ensures forall s :: AllHold(subs, s, p) && AllSat(cons, s, p) <==> AllSat(linear, s, p)
  {
    hide Components, Mentioned, SigsOf, AllHold, AllSat, SolvedForm, Leftover;
    ScopeMentioned(clusters, linear);
    Widen(subs, cons, forbidden, SigsOf(clusters, Below(|clusters|)), Mentioned(linear), p);
    forall s: Assignment
      ensures AllHold(subs, s, p) && AllSat(cons, s, p) <==> AllSat(linear, s, p)
    {
      ClustersSat(clusters, linear, s, p);
      assert DoneClusters(clusters, Below(|clusters|), s, p) <==> forall i :: 0 <= i < |clusters| ==>
        AllSat(clusters[i].constraints, s, p);
    }
  }

  lemma ScopeMentioned(clusters: seq<Cluster>, linear: seq<Constraint>)
    requires Components(clusters, linear)
    ensures SigsOf(clusters, Below(|clusters|)) <= Mentioned(linear)
  {
    hide Components, SigsOf;
    forall x | x in SigsOf(clusters, Below(|clusters|))
      ensures x in Mentioned(linear)
    {
      if x != 0 { SignalMentioned(clusters, linear, x); }
    }
  }

  lemma SignalMentioned(clusters: seq<Cluster>, linear: seq<Constraint>, x: nat)
    requires Components(clusters, linear) && x in SigsOf(clusters, Below(|clusters|)) && x != 0
    ensures x in Mentioned(linear)
  {
    hide Components;
    var i: nat :| i < |clusters| && x in Sig(clusters[i].constraints);
    var c :| c in clusters[i].constraints && x in Signals(c);
    ClusterMember(clusters, linear, i);
    assert c in linear && x in Keys(c);
  }

  lemma Widen(subs: seq<Substitution>, cons: seq<Constraint>, forbidden: set<nat>, scope: set<nat>, wide: set<nat>,
              p: int)
    requires SolvedForm(subs, forbidden, scope, p) && Leftover(cons, forbidden, scope, p) && scope <= wide
    ensures SolvedForm(subs, forbidden, wide, p) && Leftover(cons, forbidden, wide, p)
  {
  }

  lemma ClusterLinear(clusters: seq<Cluster>, linear: seq<Constraint>, id: nat, p: int)
    requires Components(clusters, linear) && id < |clusters| && forall i :: 0 <= i < |linear| ==>
             CleanLinear(linear[i], p)
    ensures forall i :: 0 <= i < |clusters[id].constraints| ==> CleanLinear(clusters[id].constraints[i], p)
  {
    hide Components, CleanLinear, Connected;
    ClusterMember(clusters, linear, id);
    forall i | 0 <= i < |clusters[id].constraints|
      ensures CleanLinear(clusters[id].constraints[i], p)
    {
      assert clusters[id].constraints[i] in clusters[id].constraints;
      var j :| 0 <= j < |linear| && linear[j] == clusters[id].constraints[i];
    }
  }

  /** Every cluster is solved by some worker; results arrive in any order. */
  method LinearSimplify(linear: seq<Constraint>, forbidden: set<nat>, noLabels: nat, p: int, useOldHeuristics: bool)
    returns (substitutions: seq<Substitution>, cons: seq<Constraint>)
    requires Prime(p) && 0 in forbidden
    requires forall i :: 0 <= i < |linear| ==> CleanLinear(linear[i], p)
    requires forall i, x :: 0 <= i < |linear| && x in Signals(linear[i]) ==> x < noLabels
    ensures SolvedForm(substitutions, forbidden, Mentioned(linear), p)
    ensures Leftover(cons, forbidden, Mentioned(linear), p)
    ensures forall s :: AllHold(substitutions, s, p) && AllSat(cons, s, p) <==> AllSat(linear, s, p)
    ensures substitutions == [] ==> NothingTakable(linear, forbidden)
    ensures exists clusters :: Components(clusters, linear) && Tackled(clusters, Below(|clusters|), substitutions,
              forbidden)
  {
    hide Components, Gathering, SolvedForm, Leftover, Mentioned, SigsOf, AllHold, AllSat, Prime, CleanLinear, Sig,
         Connected, Below, NothingTakable, TackledOne;
    var clusters := BuildClusters(linear, noLabels);
    substitutions, cons := [], [];
    GatherNothing(clusters, forbidden, p);
    var pool := Pool(|clusters|);
    ghost var done: set<nat> := {};
    while pool != {}
      invariant pool <= Below(|clusters|) && done == Below(|clusters|) - pool
      invariant Gathering(substitutions, cons, clusters, done, forbidden, p)
      invariant Tackled(clusters, done, substitutions, forbidden)
      decreases pool
    {
      var id :| id in pool;
      ClusterLinear(clusters, linear, id, p);
      var config := Config(p, clusters[id].constraints, forbidden, ToNat(clusters[id].numSignals), useOldHeuristics);
      var result := FullSimplification.FullSimplification(config);
      GatherNext(substitutions, cons, clusters, linear, done, id, result, forbidden, p);
      TackledNext(clusters, done, substitutions, id, result.substitutions, forbidden, p);
      cons := cons + result.constraints;
      substitutions := substitutions + result.substitutions;
      pool, done := pool - {id}, done + {id};
    }
    assert done == Below(|clusters|);
    GatheredAll(substitutions, cons, clusters, linear, forbidden, p);
    if substitutions == [] { TackledNothing(clusters, linear, forbidden); }
  }

  /** Every cluster received has a signal defined, unless it mentions none that may be eliminated. */
  ghost predicate Tackled(clusters: seq<Cluster>, done: set<nat>, subs: seq<Substitution>, forbidden: set<nat>) {
    forall i :: i in done && i < |clusters| ==> TackledOne(clusters[i].constraints, subs, forbidden)
  }

  ghost predicate TackledOne(cs: seq<Constraint>, subs: seq<Substitution>, forbidden: set<nat>) {
    NothingTakable(cs, forbidden) || exists j :: 0 <= j < |subs| && subs[j].from in Sig(cs)
  }

  lemma TackledNext(clusters: seq<Cluster>, done: set<nat>, subs: seq<Substitution>, id: nat,
                    more: seq<Substitution>, forbidden: set<nat>, p: int)
    requires Tackled(clusters, done, subs, forbidden) && id < |clusters| && 0 in forbidden
    requires SolvedForm(more, forbidden, Mentioned(clusters[id].constraints), p)
    requires more == [] ==> NothingTakable(clusters[id].constraints, forbidden)
    ensures Tackled(clusters, done + {id}, subs + more, forbidden)
  {
    hide NothingTakable, Sig, Mentioned;
    var all := subs + more;
    forall i | i in done && i < |clusters|
      ensures TackledOne(clusters[i].constraints, all, forbidden)
    {
      if !NothingTakable(clusters[i].constraints, forbidden) {
        var j :| 0 <= j < |subs| && subs[j].from in Sig(clusters[i].constraints);
        assert all[j] == subs[j];
      }
    }
    MentionedSig(clusters[id].constraints);
    if more != [] { assert all[|subs|] == more[0]; }
  }

  lemma TackledNothing(clusters: seq<Cluster>, linear: seq<Constraint>, forbidden: set<nat>)
    requires Components(clusters, linear) && Tackled(clusters, Below(|clusters|), [], forbidden)
    ensures NothingTakable(linear, forbidden)
  {
    hide Components, Sig;
    forall i | 0 <= i < |linear|
      ensures linear[i].c.Keys <= forbidden
    {
      InSomeCluster(clusters, linear, linear[i]);
      if !IsEmpty(linear[i]) {
        var k :| 0 <= k < |clusters| && linear[i] in clusters[k].constraints;
        assert TackledOne(clusters[k].constraints, [], forbidden);
      }
    }
  }

  /** The jobs handed to the pool. */
  function Pool(n: nat): (r: set<nat>)
    ensures r == Below(n)
  {
    if n == 0 then {} else Pool(n - 1) + {n - 1}
  }

  function ToNat(n: int): nat {
    if n < 0 then 0 else n
  }
}
