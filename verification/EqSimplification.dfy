/** The first frame: signal = signal, cluster by cluster through a worker pool
    (eq_simplification in constraint_simplification.rs). */
module EqSimplification {
  import opened Field
  import opened LinearCombination
  import opened Algebra
  import opened Constraints
  import opened Elimination
  import opened Clusters
  import opened ClusterFacts
  import opened Equalities
  import opened Frames

  /** x is replaced by r because of cluster i. */
  ghost predicate RenamedIn(clusters: seq<Cluster>, forbidden: set<nat>, i: nat, x: nat, r: nat) {
    && i < |clusters| && Sig(clusters[i].constraints) != {}
    && r == Representative(Sig(clusters[i].constraints), forbidden)
    && x in Sig(clusters[i].constraints) && x !in forbidden && x != r
  }

  ghost predicate HasSource(sub: Substitution, clusters: seq<Cluster>, done: set<nat>, forbidden: set<nat>) {
    exists i: nat, r: nat :: i in done && RenamedIn(clusters, forbidden, i, sub.from, r) && sub.to == map[r := 1]
  }

  ghost predicate HasRenaming(subs: seq<Substitution>, x: nat) {
    exists k :: 0 <= k < |subs| && subs[k].from == x
  }

  /** The renamings of the clusters in `done`: exactly the non-representatives that may go, each once. */
  ghost predicate RenamesOf(subs: seq<Substitution>, clusters: seq<Cluster>, done: set<nat>, forbidden: set<nat>) {
    && (forall k :: 0 <= k < |subs| ==> HasSource(subs[k], clusters, done, forbidden))
    && DistinctFroms(subs)
    && (forall i, x, r :: i in done && RenamedIn(clusters, forbidden, i, x, r) ==> HasRenaming(subs, x))
  }

  /** Kept constraints are linear over signals that must stay. */
  ghost predicate KeptForm(c: Constraint, forbidden: set<nat>, p: int) {
    && (IsLinear(c) || (c.a == ZERO && c.b == ZERO))
    && Keys(c) <= forbidden + {0} && Canonical(c.c, p)
  }

  ghost predicate AllKept(cs: seq<Constraint>, forbidden: set<nat>, p: int) {
    forall i :: 0 <= i < |cs| ==> KeptForm(cs[i], forbidden, p)
  }

  ghost predicate DoneSat(aux: seq<seq<Constraint>>, done: set<nat>, s: Assignment, p: int) {
    forall i :: i in done && i < |aux| ==> AllSat(aux[i], s, p)
  }

  ghost predicate DoneClusters(clusters: seq<Cluster>, done: set<nat>, s: Assignment, p: int) {
    forall i :: i in done && i < |clusters| ==> AllSat(clusters[i].constraints, s, p)
  }

  /** What holds after the clusters in `done` have been received, in whatever order. */
  ghost predicate Received(subs: seq<Substitution>, aux: seq<seq<Constraint>>, clusters: seq<Cluster>, done: set<nat>,
                           forbidden: set<nat>, p: int)
  {
    && |aux| == |clusters|
    && RenamesOf(subs, clusters, done, forbidden)
    && (forall i :: 0 <= i < |aux| ==> AllKept(aux[i], forbidden, p))
    && (forall i :: 0 <= i < |aux| && i !in done ==> aux[i] == [])
    && forall s :: AllHold(subs, s, p) && DoneSat(aux, done, s, p) <==> DoneClusters(clusters, done, s, p)
  }

  lemma AppendHold(one: seq<Substitution>, two: seq<Substitution>, s: Assignment, p: int)
    ensures AllHold(one + two, s, p) <==> AllHold(one, s, p) && AllHold(two, s, p)
  {
    hide Holds;
    var all := one + two;
    if AllHold(all, s, p) {
      forall i | 0 <= i < |one| ensures Holds(one[i], s, p) { assert all[i] == one[i]; }
      forall i | 0 <= i < |two| ensures Holds(two[i], s, p) { assert all[|one| + i] == two[i]; }
    }
  }

  lemma RenamedApart(clusters: seq<Cluster>, linear: seq<Constraint>, forbidden: set<nat>, i: nat, j: nat, x: nat,
                     r: nat, q: nat)
    requires Components(clusters, linear) && RenamedIn(clusters, forbidden, i, x, r) &&
             RenamedIn(clusters, forbidden, j, x, q)
    ensures i == j && r == q
  {
    hide Components, Sig;
    SharedSignal(clusters, linear, i, j, x);
  }

  lemma RenamesAppend(subs: seq<Substitution>, part: seq<Substitution>, clusters: seq<Cluster>, linear: seq<Constraint>,
                      done: set<nat>, id: nat, forbidden: set<nat>)
    requires Components(clusters, linear) && id < |clusters| && id !in done && Sig(clusters[id].constraints) != {}
    requires RenamesOf(subs, clusters, done, forbidden) && Renames(part, Sig(clusters[id].constraints), forbidden)
    ensures RenamesOf(subs + part, clusters, done + {id}, forbidden)
  {
    hide Components, Representative, Sig;
    var rep := Representative(Sig(clusters[id].constraints), forbidden);
    forall k | 0 <= k < |part|
      ensures RenamedIn(clusters, forbidden, id, part[k].from, rep) && part[k].to == map[rep := 1]
    {
    }
    forall k, l | 0 <= k < |subs| && 0 <= l < |part|
      ensures subs[k].from != part[l].from
    {
      assert HasSource(subs[k], clusters, done, forbidden);
      var i: nat, r: nat :| i in done && RenamedIn(clusters, forbidden, i, subs[k].from, r);
      if subs[k].from == part[l].from { RenamedApart(clusters, linear, forbidden, i, id, part[l].from, r, rep); }
    }
    forall x, r | RenamedIn(clusters, forbidden, id, x, r)
      ensures HasRenaming(part, x)
    {
      assert x in Sig(clusters[id].constraints) - forbidden - {rep};
    }
    hide RenamedIn;
    AppendRenames(subs, part, clusters, done, id, forbidden, rep);
  }

  lemma AppendRenames(subs: seq<Substitution>, part: seq<Substitution>, clusters: seq<Cluster>,
                      done: set<nat>, id: nat, forbidden: set<nat>, rep: nat)
    requires RenamesOf(subs, clusters, done, forbidden) && DistinctFroms(part)
    requires forall k :: 0 <= k < |part| ==>
             RenamedIn(clusters, forbidden, id, part[k].from, rep) && part[k].to == map[rep := 1]
    requires forall k, l :: 0 <= k < |subs| && 0 <= l < |part| ==> subs[k].from != part[l].from
    requires forall x, r :: RenamedIn(clusters, forbidden, id, x, r) ==> HasRenaming(part, x)
    ensures RenamesOf(subs + part, clusters, done + {id}, forbidden)
  {
    hide RenamedIn;
    var all := subs + part;
    assert forall k :: 0 <= k < |subs| ==> all[k] == subs[k];
    assert forall k :: 0 <= k < |part| ==> all[|subs| + k] == part[k];
    forall k | 0 <= k < |all|
      ensures HasSource(all[k], clusters, done + {id}, forbidden)
    {
      if k < |subs| {
        SourceStays(subs[k], clusters, done, id, forbidden);
      } else {
        assert all[k] == part[k - |subs|];
        assert RenamedIn(clusters, forbidden, id, all[k].from, rep);
      }
    }
    hide HasSource;
    forall k, l | 0 <= k < l < |all|
      ensures all[k].from != all[l].from
    {
      if k >= |subs| { assert all[k] == part[k - |subs|]; }
      if l >= |subs| { assert all[l] == part[l - |subs|]; }
    }
    forall i, x, r | i in done + {id} && RenamedIn(clusters, forbidden, i, x, r)
      ensures HasRenaming(all, x)
    {
      if i in done {
        var k :| 0 <= k < |subs| && subs[k].from == x;
        assert all[k].from == x;
      } else {
        var k :| 0 <= k < |part| && part[k].from == x;
        assert all[|subs| + k].from == x;
      }
    }
  }

  lemma SourceStays(sub: Substitution, clusters: seq<Cluster>, done: set<nat>, id: nat, forbidden: set<nat>)
    requires HasSource(sub, clusters, done, forbidden)
    ensures HasSource(sub, clusters, done + {id}, forbidden)
  {
    hide RenamedIn;
  }

  lemma KeepsForm(cons: seq<Constraint>, S: set<nat>, forbidden: set<nat>, p: int)
    requires S != {} && Keeps(cons, S, forbidden, p)
    ensures AllKept(cons, forbidden, p)
  {
    hide Sat, SameValue, Representative;
  }

  lemma ReceiveNext(subs: seq<Substitution>, aux: seq<seq<Constraint>>, clusters: seq<Cluster>, linear: seq<Constraint>,
                    done: set<nat>, forbidden: set<nat>, id: nat, part: seq<Substitution>, cons: seq<Constraint>,
                      p: int)
    requires Components(clusters, linear) && Received(subs, aux, clusters, done, forbidden, p) && id < |clusters| &&
             id !in done
    requires Sig(clusters[id].constraints) != {}
    requires Renames(part, Sig(clusters[id].constraints), forbidden) &&
             Keeps(cons, Sig(clusters[id].constraints), forbidden, p)
    requires forall s :: AllHold(part, s, p) && AllSat(cons, s, p) <==> AllSat(clusters[id].constraints, s, p)
    ensures Received(subs + part, aux[id := cons], clusters, done + {id}, forbidden, p)
  {
    hide Components, RenamesOf, Renames, Keeps, AllHold, AllSat, AllKept, DoneSat, DoneClusters;
    RenamesAppend(subs, part, clusters, linear, done, id, forbidden);
    KeepsForm(cons, Sig(clusters[id].constraints), forbidden, p);
    var next := aux[id := cons];
    forall s: Assignment
      ensures AllHold(subs + part, s, p) && DoneSat(next, done + {id}, s, p) <==>
              DoneClusters(clusters, done + {id}, s, p)
    {
      AppendHold(subs, part, s, p);
      DoneSatInsert(aux, done, id, cons, s, p);
      DoneClustersInsert(clusters, done, id, s, p);
    }
  }

  lemma DoneSatInsert(aux: seq<seq<Constraint>>, done: set<nat>, id: nat, cons: seq<Constraint>, s: Assignment, p: int)
    requires id < |aux| && id !in done
    ensures DoneSat(aux[id := cons], done + {id}, s, p) <==> DoneSat(aux, done, s, p) && AllSat(cons, s, p)
  {
    hide AllSat;
    var next := aux[id := cons];
    assert next[id] == cons;
    assert forall i :: i in done && i < |aux| ==> next[i] == aux[i];
  }

  lemma DoneClustersInsert(clusters: seq<Cluster>, done: set<nat>, id: nat, s: Assignment, p: int)
    requires id < |clusters|
    ensures DoneClusters(clusters, done + {id}, s, p) <==>
            DoneClusters(clusters, done, s, p) && AllSat(clusters[id].constraints, s, p)
  {
    hide AllSat;
  }

  function Flatten(aux: seq<seq<Constraint>>): seq<Constraint> {
    if aux == [] then [] else Flatten(aux[..|aux| - 1]) + aux[|aux| - 1]
  }

  lemma {:induction false} FlattenSat(aux: seq<seq<Constraint>>, s: Assignment, p: int)
    ensures AllSat(Flatten(aux), s, p) <==> forall i :: 0 <= i < |aux| ==> AllSat(aux[i], s, p)
  {
    hide AllSat;
    if aux == [] {
      assert AllSat([], s, p) by { NothingSat(s, p); }
    } else {
      var n := |aux| - 1;
      FlattenSat(aux[..n], s, p);
      ConcatSat(Flatten(aux[..n]), aux[n], s, p);
      assert forall i :: 0 <= i < n ==> aux[..n][i] == aux[i];
    }
  }

  lemma NothingSat(s: Assignment, p: int)
    ensures AllSat([], s, p)
  {
  }

  lemma ConcatSat(one: seq<Constraint>, two: seq<Constraint>, s: Assignment, p: int)
    ensures AllSat(one + two, s, p) <==> AllSat(one, s, p) && AllSat(two, s, p)
  {
    hide Sat;
    var all := one + two;
    if AllSat(all, s, p) {
      forall i | 0 <= i < |one| ensures Sat(one[i], s, p) { assert all[i] == one[i]; }
      forall i | 0 <= i < |two| ensures Sat(two[i], s, p) { assert all[|one| + i] == two[i]; }
    }
  }

  lemma {:induction false} FlattenKept(aux: seq<seq<Constraint>>, forbidden: set<nat>, p: int)
    requires forall i :: 0 <= i < |aux| ==> AllKept(aux[i], forbidden, p)
    ensures AllKept(Flatten(aux), forbidden, p)
  {
    hide KeptForm;
    if aux != [] {
      var n := |aux| - 1;
      FlattenKept(aux[..n], forbidden, p);
    }
  }

  /** Clusters of one equality are handled at once, the others by a pool whose workers finish in any
      order. The result is equivalent to the equalities, and its renamings depend only on the
      components, never on the order (see SameRenamings). */
  method EqSimplify(equalities: seq<Constraint>, forbidden: set<nat>, noVars: nat, p: int)
    returns (substitutions: seq<Substitution>, constraints: seq<Constraint>, ghost clusters: seq<Cluster>)
    requires Prime(p)
    requires forall i :: 0 <= i < |equalities| ==> CleanEquality(equalities[i], p)
    requires forall i, x :: 0 <= i < |equalities| && x in Signals(equalities[i]) ==> x < noVars
    ensures Components(clusters, equalities) && RenamesOf(substitutions, clusters, Indices(clusters), forbidden)
    ensures AllKept(constraints, forbidden, p)
    ensures forall s :: AllHold(substitutions, s, p) && AllSat(constraints, s, p) <==> AllSat(equalities, s, p)
  {
    hide Components, CleanEquality, Connected, Prime, AllHold, AllSat, Sig, RenamesOf, AllKept, Received, Below;
    var built := BuildClusters(equalities, noVars);
    clusters := built;
    var aux: seq<seq<Constraint>> := seq(|built|, _ => []);
    ReceivedNothing(aux, built, forbidden, p);
    var pool: set<nat>;
    substitutions, aux, pool := SingleClusters(built, equalities, aux, forbidden, p);
    ghost var done := Below(|built|) - pool;
    while pool != {}
      invariant pool <= Below(|built|) && done == Below(|built|) - pool && |aux| == |built|
      invariant Received(substitutions, aux, built, done, forbidden, p)
      decreases pool
    {
      var id :| id in pool;
      substitutions, aux := Receive(substitutions, aux, built, equalities, done, forbidden, id, p);
      pool, done := pool - {id}, done + {id};
    }
    assert done == Below(|built|);
    constraints := Flatten(aux);
    AllReceived(substitutions, aux, built, equalities, forbidden, p);
  }

  /** Solve the clusters of one equality and leave the others to the pool. */
  method SingleClusters(clusters: seq<Cluster>, ghost equalities: seq<Constraint>, start: seq<seq<Constraint>>,
                        forbidden: set<nat>, p: int)
    returns (substitutions: seq<Substitution>, aux: seq<seq<Constraint>>, pool: set<nat>)
    requires Prime(p) && Components(clusters, equalities) && Received([], start, clusters, {}, forbidden, p)
    requires forall i :: 0 <= i < |equalities| ==> CleanEquality(equalities[i], p)
    ensures pool <= Below(|clusters|) && |aux| == |clusters|
    ensures Received(substitutions, aux, clusters, Below(|clusters|) - pool, forbidden, p)
  {
    assert |start| == |clusters|;
    hide Components, CleanEquality, Connected, Prime, AllHold, AllSat, Sig, RenamesOf, AllKept, Received;
    substitutions, aux, pool := [], start, {};
    ghost var done: set<nat> := {};
    BelowNone();
    for id := 0 to |clusters|
      invariant pool <= Below(id) && done == Below(id) - pool && |aux| == |clusters|
      invariant Received(substitutions, aux, clusters, done, forbidden, p)
    {
      hide Below;
      BelowNext(id);
      if |clusters[id].constraints| == 1 {
        substitutions, aux := Receive(substitutions, aux, clusters, equalities, done, forbidden, id, p);
        done := done + {id};
      } else {
        pool := pool + {id};
      }
    }
  }

  /** Solve one cluster and append its result. */
  method Receive(subs: seq<Substitution>, aux: seq<seq<Constraint>>, clusters: seq<Cluster>,
                 ghost equalities: seq<Constraint>,
                 ghost done: set<nat>, forbidden: set<nat>, id: nat, p: int)
    returns (subs': seq<Substitution>, aux': seq<seq<Constraint>>)
    requires Prime(p) && Components(clusters, equalities) && Received(subs, aux, clusters, done, forbidden, p)
    requires forall i :: 0 <= i < |equalities| ==> CleanEquality(equalities[i], p)
    requires id < |clusters| && id !in done && |aux| == |clusters|
    ensures Received(subs', aux', clusters, done + {id}, forbidden, p) && |aux'| == |clusters|
  {
    hide Components, Received, CleanEquality, Connected, Renames, Keeps, Prime, AllHold, AllSat, Sig;
    ClusterMember(clusters, equalities, id);
    var part, cons := EqClusterSimplification(clusters[id], forbidden, p);
    ReceiveNext(subs, aux, clusters, equalities, done, forbidden, id, part, cons, p);
    subs', aux' := subs + part, aux[id := cons];
  }

  ghost function Below(n: nat): (r: set<nat>)
    ensures forall i :: i in r <==> 0 <= i < n
  {
    if n == 0 then {} else Below(n - 1) + {n - 1}
  }

  lemma BelowNone()
    ensures Below(0) == {}
  {
  }

  lemma BelowNext(n: nat)
    ensures Below(n + 1) == Below(n) + {n} && n !in Below(n)
  {
  }

  ghost function Indices(clusters: seq<Cluster>): set<nat> {
    Below(|clusters|)
  }

  lemma ReceivedNothing(aux: seq<seq<Constraint>>, clusters: seq<Cluster>, forbidden: set<nat>, p: int)
    requires |aux| == |clusters| && forall i :: 0 <= i < |aux| ==> aux[i] == []
    ensures Received([], aux, clusters, {}, forbidden, p)
  {
  }

  lemma AllReceived(subs: seq<Substitution>, aux: seq<seq<Constraint>>, clusters: seq<Cluster>,
                    equalities: seq<Constraint>,
                    forbidden: set<nat>, p: int)
    requires Components(clusters, equalities) && Received(subs, aux, clusters, Below(|clusters|), forbidden, p)
    ensures RenamesOf(subs, clusters, Indices(clusters), forbidden) && AllKept(Flatten(aux), forbidden, p)
    ensures forall s :: AllHold(subs, s, p) && AllSat(Flatten(aux), s, p) <==> AllSat(equalities, s, p)
  {
    hide Components, RenamesOf, AllHold, AllSat, AllKept;
    FlattenKept(aux, forbidden, p);
    forall s: Assignment
      ensures AllHold(subs, s, p) && AllSat(Flatten(aux), s, p) <==> AllSat(equalities, s, p)
    {
      FlattenSat(aux, s, p);
      ClustersSat(clusters, equalities, s, p);
      assert DoneSat(aux, Below(|clusters|), s, p) <==> forall i :: 0 <= i < |aux| ==> AllSat(aux[i], s, p);
      assert DoneClusters(clusters, Below(|clusters|), s, p) <==> forall i :: 0 <= i < |clusters| ==>
        AllSat(clusters[i].constraints, s, p);
    }
  }

  // ---- The result does not depend on the order

  lemma RenameEntry(subs: seq<Substitution>, clusters: seq<Cluster>, forbidden: set<nat>, x: nat, i: nat, r: nat)
    requires RenamesOf(subs, clusters, Indices(clusters), forbidden) && RenamedIn(clusters, forbidden, i, x, r)
    requires exists linear :: Components(clusters, linear)
    ensures x in EncodedOf(subs) && EncodedOf(subs)[x] == IntoExpr(map[r := 1])
  {
    hide Components, IntoExpr;
    var linear :| Components(clusters, linear);
    assert i in Indices(clusters);
    EncodedKeys(subs, x);
    var k := EncodedEntry(subs, x);
    assert HasSource(subs[k], clusters, Indices(clusters), forbidden);
    var j: nat, q: nat :| RenamedIn(clusters, forbidden, j, subs[k].from, q) && subs[k].to == map[q := 1];
    RenamedApart(clusters, linear, forbidden, i, j, x, r, q);
  }

  lemma EntryRenamed(subs: seq<Substitution>, clusters: seq<Cluster>, forbidden: set<nat>, x: nat)
    returns (i: nat, r: nat)
    requires RenamesOf(subs, clusters, Indices(clusters), forbidden) && x in EncodedOf(subs)
    ensures RenamedIn(clusters, forbidden, i, x, r)
  {
    hide IntoExpr;
    var k := EncodedEntry(subs, x);
    assert HasSource(subs[k], clusters, Indices(clusters), forbidden);
    i, r :| RenamedIn(clusters, forbidden, i, subs[k].from, r);
  }

  /** Two runs on the same equalities, however their workers, hash sets and unions were scheduled,
      encode the same renamings. */
  lemma SameRenamings(subs1: seq<Substitution>, clusters1: seq<Cluster>, subs2: seq<Substitution>,
                      clusters2: seq<Cluster>,
                      equalities: seq<Constraint>, forbidden: set<nat>)
    requires Components(clusters1, equalities) && RenamesOf(subs1, clusters1, Indices(clusters1), forbidden)
    requires Components(clusters2, equalities) && RenamesOf(subs2, clusters2, Indices(clusters2), forbidden)
    ensures EncodedOf(subs1) == EncodedOf(subs2)
  {
    hide Components, RenamesOf, EncodedOf, IntoExpr;
    var one, two := EncodedOf(subs1), EncodedOf(subs2);
    forall x | x in one
      ensures x in two && two[x] == one[x]
    {
      SameEntry(subs1, clusters1, subs2, clusters2, equalities, forbidden, x);
    }
    forall x | x in two
      ensures x in one
    {
      SameEntry(subs2, clusters2, subs1, clusters1, equalities, forbidden, x);
    }
  }

  lemma SameEntry(subs1: seq<Substitution>, clusters1: seq<Cluster>, subs2: seq<Substitution>, clusters2: seq<Cluster>,
                  equalities: seq<Constraint>, forbidden: set<nat>, x: nat)
    requires Components(clusters1, equalities) && RenamesOf(subs1, clusters1, Indices(clusters1), forbidden)
    requires Components(clusters2, equalities) && RenamesOf(subs2, clusters2, Indices(clusters2), forbidden)
    requires x in EncodedOf(subs1)
    ensures x in EncodedOf(subs2) && EncodedOf(subs2)[x] == EncodedOf(subs1)[x]
  {
    hide Components, RenamesOf, EncodedOf, IntoExpr, Representative;
    var i, r := EntryRenamed(subs1, clusters1, forbidden, x);
    var j := ComponentExists(clusters1, clusters2, equalities, i, x);
    assert RenamedIn(clusters2, forbidden, j, x, r);
    RenameEntry(subs1, clusters1, forbidden, x, i, r);
    RenameEntry(subs2, clusters2, forbidden, x, j, r);
  }
}
