/** Consequences of cutting a system into connected components. */
module ClusterFacts {
  import opened Field
  import opened LinearCombination
  import opened Constraints
  import opened Elimination
  import opened Clusters

  lemma {:induction false} InGathered(clusters: seq<Cluster>, c: Constraint)
    ensures c in Gathered(clusters) <==> exists i :: 0 <= i < |clusters| && c in clusters[i].constraints
  {
    if clusters != [] {
      var n := |clusters| - 1;
      InGathered(clusters[..n], c);
      assert Gathered(clusters) == Gathered(clusters[..n]) + multiset(clusters[n].constraints);
      hide Gathered;
      assert forall i :: 0 <= i < n ==> clusters[..n][i] == clusters[i];
    }
  }

  /** A constraint is in some cluster exactly when it is a non-empty constraint of the system. */
  lemma InSomeCluster(clusters: seq<Cluster>, linear: seq<Constraint>, c: Constraint)
    requires Components(clusters, linear)
    ensures (exists i :: 0 <= i < |clusters| && c in clusters[i].constraints) <==> c in linear && !IsEmpty(c)
  {
    hide Exact;
    InGathered(clusters, c);
    InNonEmpty(linear, c);
    assert c in NonEmpty(linear) <==> c in multiset(NonEmpty(linear));
  }

  lemma ClusterMember(clusters: seq<Cluster>, linear: seq<Constraint>, i: nat)
    requires Components(clusters, linear) && i < |clusters|
    ensures forall c :: c in clusters[i].constraints ==> c in linear && !IsEmpty(c)
    ensures Connected(clusters[i].constraints)
  {
    forall c | c in clusters[i].constraints
      ensures c in linear && !IsEmpty(c)
    {
      InSomeCluster(clusters, linear, c);
    }
    assert Exact(clusters[i]);
  }

  /** The system holds exactly when every cluster holds. */
  lemma ClustersSat(clusters: seq<Cluster>, linear: seq<Constraint>, s: Assignment, p: int)
    requires Components(clusters, linear)
    ensures AllSat(linear, s, p) <==> forall i :: 0 <= i < |clusters| ==> AllSat(clusters[i].constraints, s, p)
  {
    hide Sat, Components;
    if AllSat(linear, s, p) {
      forall i, j | 0 <= i < |clusters| && 0 <= j < |clusters[i].constraints|
        ensures Sat(clusters[i].constraints[j], s, p)
      {
        InSomeCluster(clusters, linear, clusters[i].constraints[j]);
      }
    }
    if forall i :: 0 <= i < |clusters| ==> AllSat(clusters[i].constraints, s, p) {
      forall j | 0 <= j < |linear|
        ensures Sat(linear[j], s, p)
      {
        InSomeCluster(clusters, linear, linear[j]);
        if IsEmpty(linear[j]) {
          EmptyHolds(s, p);
        } else {
          var i :| 0 <= i < |clusters| && linear[j] in clusters[i].constraints;
        }
      }
    }
  }

  lemma EmptyHolds(s: Assignment, p: int)
    ensures forall c :: IsEmpty(c) ==> Sat(c, s, p)
  {
    DotEmpty(s);
    CongRefl(0, p);
  }

  lemma InSig(cs: seq<Constraint>, c: Constraint)
    requires c in cs
    ensures Signals(c) <= Sig(cs)
  {
  }

  /** The components are unique: clusters of two groupings of one system that share a signal have
      the same signals, in whatever order constraints and signals were visited. */
  lemma SameComponent(one: seq<Cluster>, two: seq<Cluster>, linear: seq<Constraint>, i: nat, j: nat, x: nat)
    requires Components(one, linear) && Components(two, linear) && i < |one| && j < |two|
    requires x in Sig(one[i].constraints) && x in Sig(two[j].constraints)
    ensures Sig(one[i].constraints) == Sig(two[j].constraints)
  {
    WithinComponent(one, two, linear, i, j, x);
    WithinComponent(two, one, linear, j, i, x);
  }

  lemma WithinComponent(one: seq<Cluster>, two: seq<Cluster>, linear: seq<Constraint>, i: nat, j: nat, x: nat)
    requires Components(one, linear) && Components(two, linear) && i < |one| && j < |two|
    requires x in Sig(one[i].constraints) && x in Sig(two[j].constraints)
    ensures Sig(one[i].constraints) <= Sig(two[j].constraints)
  {
    var T := Sig(two[j].constraints);
    ClusterMember(one, linear, i);
    assert Closed(one[i].constraints, T) by {
      hide Connected, Exact;
      forall c | c in one[i].constraints
        ensures Signals(c) !! T || Signals(c) <= T
      {
        InSomeCluster(two, linear, c);
        var k :| 0 <= k < |two| && c in two[k].constraints;
        InSig(two[k].constraints, c);
        if k < j {
          assert Sig(two[k].constraints) !! Sig(two[j].constraints);
        } else if j < k {
          assert Sig(two[j].constraints) !! Sig(two[k].constraints);
        }
      }
    }
    assert x in Sig(one[i].constraints) * T;
  }

  /** The component of a signal is found in every grouping. */
  lemma ComponentExists(one: seq<Cluster>, two: seq<Cluster>, linear: seq<Constraint>, i: nat, x: nat) returns (j: nat)
    requires Components(one, linear) && Components(two, linear) && i < |one| && x in Sig(one[i].constraints)
    ensures j < |two| && Sig(two[j].constraints) == Sig(one[i].constraints)
  {
    hide Components;
    var c :| c in one[i].constraints && x in Signals(c);
    ClusterMember(one, linear, i);
    InSomeCluster(two, linear, c);
    j :| 0 <= j < |two| && c in two[j].constraints;
    InSig(two[j].constraints, c);
    SameComponent(one, two, linear, i, j, x);
  }

  lemma SharedSignal(clusters: seq<Cluster>, linear: seq<Constraint>, i: nat, j: nat, x: nat)
    requires Components(clusters, linear) && i < |clusters| && j < |clusters|
    requires x in Sig(clusters[i].constraints) && x in Sig(clusters[j].constraints)
    ensures i == j
  {
    hide Components, Sig;
    if i < j {
      Apart(clusters, linear, i, j);
    } else if j < i {
      Apart(clusters, linear, j, i);
    }
  }

  lemma Apart(clusters: seq<Cluster>, linear: seq<Constraint>, i: nat, j: nat)
    requires Components(clusters, linear) && i < j < |clusters|
    ensures Sig(clusters[i].constraints) !! Sig(clusters[j].constraints)
  {
  }
}
