/** Grouping linear constraints into connected clusters with union-find
    (build_clusters in constraint_simplification.rs). */
module Clusters {
  import opened Field
  import opened Constraints

  datatype Cluster = Cluster(constraints: seq<Constraint>, numSignals: int) {
    static function New(constraint: Constraint, numSignals: int): Cluster {
      Cluster([constraint], numSignals)
    }

    static function Merge(c0: Cluster, c1: Cluster): Cluster {
      Cluster(c0.constraints + c1.constraints, c0.numSignals + c1.numSignals - 1)
    }
  }

  const DEFAULT: Cluster := Cluster([], 0)

  type Arena = seq<Option<Cluster>>

  // ---- Union-find paths

  /** Parents never point below their own index; a root points at itself. */
  ghost predicate Forest(path: seq<nat>) {
    forall i :: 0 <= i < |path| ==> i <= path[i] < |path|
  }

  ghost function Root(path: seq<nat>, i: nat): (r: nat)
    requires Forest(path) && i < |path|
    ensures i <= r < |path| && path[r] == r
    decreases |path| - i
  {
    if path[i] == i then i else Root(path, path[i])
  }

  /** Pointing an index directly at its root changes no root. */
  lemma {:induction false} RedirectRoot(path: seq<nat>, j: nat, i: nat)
    requires Forest(path) && i < |path| && j < |path|
    ensures Forest(path[j := Root(path, j)]) && Root(path[j := Root(path, j)], i) == Root(path, i)
    decreases |path| - i
  {
    var next := path[j := Root(path, j)];
    if i == j {
      var r := Root(path, j);
      assert Root(next, r) == r;
    } else if path[i] != i {
      RedirectRoot(path, j, path[i]);
    }
  }

  /** Hanging one root under a later one moves exactly its own tree. */
  lemma {:induction false} LinkRoot(path: seq<nat>, r: nat, d: nat, i: nat)
    requires Forest(path) && i < |path| && r <= d < |path| && path[r] == r && path[d] == d
    ensures Forest(path[r := d])
    ensures Root(path[r := d], i) == if Root(path, i) == r then d else Root(path, i)
    decreases |path| - i
  {
    var next := path[r := d];
    assert Root(next, d) == d;
    if i != r && path[i] != i {
      LinkRoot(path, r, d, path[i]);
    }
  }

  lemma {:induction false} AppendRoot(path: seq<nat>, i: nat)
    requires Forest(path) && i <= |path|
    ensures Forest(path + [|path|])
    ensures Root(path + [|path|], i) == if i == |path| then i else Root(path, i)
    decreases |path| - i
  {
    if i < |path| && path[i] != i {
      AppendRoot(path, path[i]);
    }
  }

  /** Find with path compression: returns the root and changes no root. */
  method ShrinkJumpsAndFind(path: seq<nat>, org: nat) returns (path': seq<nat>, current: nat)
    requires Forest(path) && org < |path|
    ensures |path'| == |path| && Forest(path') && current == Root(path, org)
    ensures forall i :: 0 <= i < |path| ==> Root(path', i) == Root(path, i)
  {
    path', current := path, org;
    var jumps: seq<nat> := [];
    while current != path[current]
      invariant current < |path| && Root(path, current) == Root(path, org)
      invariant forall j :: 0 <= j < |jumps| ==> jumps[j] < |path| && Root(path, jumps[j]) == Root(path, org)
      decreases |path| - current
    {
      jumps := jumps + [current];
      current := path[current];
    }
    while jumps != []
      invariant |path'| == |path| && Forest(path')
      invariant forall i :: 0 <= i < |path| ==> Root(path', i) == Root(path, i)
      invariant forall j :: 0 <= j < |jumps| ==> jumps[j] < |path| && Root(path, jumps[j]) == current
      decreases |jumps|
    {
      var redirect := jumps[|jumps| - 1];
      jumps := jumps[..|jumps| - 1];
      forall i | 0 <= i < |path| { RedirectRoot(path', redirect, i); }
      path' := path'[redirect := current];
    }
  }

  // ---- Merging in the arena

  /** The arena holds a cluster exactly at the roots. */
  ghost predicate Linked(arena: Arena, path: seq<nat>) {
    && |arena| == |path| && Forest(path)
    && forall i :: 0 <= i < |arena| ==> (arena[i].Some? <==> path[i] == i)
  }

  /** The arena after merging the cluster at root r into the one at root d. */
  ghost function Merged(arena: Arena, r: nat, d: nat): Arena
    requires r < |arena| && d < |arena| && arena[r].Some? && arena[d].Some?
  {
    if r == d then arena[d := Some(Cluster.Merge(arena[d].value, DEFAULT))]
    else arena[r := None][d := Some(Cluster.Merge(arena[d].value, arena[r].value))]
  }

  lemma RootIsRoot(path: seq<nat>, r: nat)
    requires Forest(path) && r < |path|
    ensures Root(path, r) == r <==> path[r] == r
  {
  }

  method ArenaMerge(arena: Arena, path: seq<nat>, src: nat, dest: nat) returns (arena': Arena, path': seq<nat>)
    requires Linked(arena, path) && src < |path| && dest < |path| && Root(path, dest) == |path| - 1
    ensures arena' == Merged(arena, Root(path, src), Root(path, dest))
    ensures |path'| == |path| && Forest(path')
    ensures forall i :: 0 <= i < |path| ==>
              Root(path', i) == if Root(path, i) == Root(path, src) then Root(path, dest) else Root(path, i)
  {
    var path1, currentDest := ShrinkJumpsAndFind(path, dest);
    var path2, currentSrc := ShrinkJumpsAndFind(path1, src);
    RootIsRoot(path, currentDest);
    RootIsRoot(path, currentSrc);
    RootIsRoot(path2, currentDest);
    RootIsRoot(path2, currentSrc);
    arena' := arena;
    var c0 := if arena'[currentDest].Some? then arena'[currentDest].value else DEFAULT;
    arena' := arena'[currentDest := None];
    var c1 := if arena'[currentSrc].Some? then arena'[currentSrc].value else DEFAULT;
    arena' := arena'[currentSrc := None];
    var merged := Cluster.Merge(c0, c1);
    arena' := arena'[currentDest := Some(merged)];
    forall i | 0 <= i < |path| { LinkRoot(path2, currentSrc, currentDest, i); }
    path' := path2[currentSrc := currentDest];
    assert arena' == Merged(arena, currentSrc, currentDest);
  }

  // ---- What a cluster is

  ghost function Sig(cs: seq<Constraint>): set<nat> {
    set c, k | c in cs && k in Signals(c) :: k
  }

  /** No constraint is split by T. */
  ghost predicate Closed(cs: seq<Constraint>, T: set<nat>) {
    forall c :: c in cs ==> Signals(c) !! T || Signals(c) <= T
  }

  /** Connected under "shares a signal": a set of signals that splits no constraint and meets the
      cluster contains all of it. A constraint without signals is a cluster of its own. */
  ghost predicate Connected(cs: seq<Constraint>) {
    && |cs| >= 1
    && (|cs| > 1 ==> forall c :: c in cs ==> Signals(c) != {})
    && forall T :: Closed(cs, T) && !(Sig(cs) !! T) ==> Sig(cs) <= T
  }

  ghost predicate Exact(c: Cluster) {
    Connected(c.constraints) && c.numSignals == |Sig(c.constraints)|
  }

  lemma SigSingle(c: Constraint)
    ensures Sig([c]) == Signals(c) && Connected([c])
  {
    assert forall d :: d in [c] <==> d == c;
    assert c in [c];
  }

  lemma SigConcat(a: seq<Constraint>, b: seq<Constraint>)
    ensures Sig(a + b) == Sig(a) + Sig(b)
  {
    assert forall c :: c in a + b <==> c in a || c in b;
  }

  lemma ConnectedConcat(a: seq<Constraint>, b: seq<Constraint>, x: nat)
    requires Connected(a) && Connected(b) && x in Sig(a) && x in Sig(b)
    ensures Connected(a + b)
  {
    SigConcat(a, b);
    assert forall c :: c in a + b <==> c in a || c in b;
    SomeSignal(a, x);
    SomeSignal(b, x);
    forall T | Closed(a + b, T) && !(Sig(a + b) !! T)
      ensures Sig(a + b) <= T
    {
      assert Closed(a, T) && Closed(b, T);
      var k :| k in Sig(a + b) && k in T;
      if k in Sig(a) {
        assert k in Sig(a) * T;
        assert x in Sig(b) * T;
      } else {
        assert k in Sig(b) * T;
        assert x in Sig(a) * T;
      }
    }
  }

  lemma SomeSignal(a: seq<Constraint>, x: nat)
    requires Connected(a) && x in Sig(a)
    ensures forall c :: c in a ==> Signals(c) != {}
  {
    if |a| == 1 {
      assert forall c :: c in a ==> c == a[0];
    }
  }

  // ---- Conservation of constraints

  ghost function Bag(o: Option<Cluster>): multiset<Constraint> {
    if o.Some? then multiset(o.value.constraints) else multiset{}
  }

  ghost function Contents(arena: Arena): multiset<Constraint> {
    if arena == [] then multiset{} else Contents(arena[..|arena| - 1]) + Bag(arena[|arena| - 1])
  }

  lemma ContentsLast(arena: Arena)
    requires |arena| > 0
    ensures Contents(arena) == Contents(arena[..|arena| - 1]) + Bag(arena[|arena| - 1])
  {
  }

  lemma {:induction false} ContentsUpdate(arena: Arena, i: nat, o: Option<Cluster>)
    requires i < |arena|
    ensures Contents(arena[i := o]) + Bag(arena[i]) == Contents(arena) + Bag(o)
  {
    hide Bag, Contents;
    var n := |arena| - 1;
    var next := arena[i := o];
    ContentsLast(arena);
    ContentsLast(next);
    if i == n {
      assert next[..n] == arena[..n];
    } else {
      assert next[..n] == arena[..n][i := o];
      ContentsUpdate(arena[..n], i, o);
      Rearrange(Contents(next[..n]), Bag(arena[i]), Contents(arena[..n]), Bag(o), Bag(arena[n]));
    }
  }

  lemma Rearrange(a: multiset<Constraint>, b: multiset<Constraint>, c: multiset<Constraint>, d: multiset<Constraint>,
                  e: multiset<Constraint>)
    requires a + b == c + d
    ensures (a + e) + b == (c + e) + d
  {
    assert (a + e) + b == (a + b) + e;
    assert (c + e) + d == (c + d) + e;
  }

  lemma ContentsMerged(arena: Arena, r: nat, d: nat)
    requires r < |arena| && d < |arena| && arena[r].Some? && arena[d].Some?
    ensures Contents(Merged(arena, r, d)) == Contents(arena)
  {
    hide Contents, Bag;
    if r == d {
      BagMerged(arena[d].value, DEFAULT);
      ContentsUpdate(arena, d, Some(Cluster.Merge(arena[d].value, DEFAULT)));
      Cancel(Contents(Merged(arena, r, d)), Contents(arena), Bag(arena[d]), multiset{}, Contents(arena));
    } else {
      BagMerged(arena[d].value, arena[r].value);
      ContentsUpdate(arena, r, None);
      ContentsUpdate(arena[r := None], d, Some(Cluster.Merge(arena[d].value, arena[r].value)));
      Cancel(Contents(Merged(arena, r, d)), Contents(arena[r := None]), Bag(arena[d]), Bag(arena[r]), Contents(arena));
    }
  }

  lemma Cancel(x: multiset<Constraint>, y: multiset<Constraint>, b: multiset<Constraint>, c: multiset<Constraint>,
               z: multiset<Constraint>)
    requires x + b == y + (b + c) && y + c == z + multiset{}
    ensures x == z
  {
    assert y + (b + c) == (y + c) + b;
    assert x == (x + b) - b;
    assert z == (z + b) - b;
  }

  lemma BagMerged(c0: Cluster, c1: Cluster)
    ensures Bag(Some(Cluster.Merge(c0, c1))) == Bag(Some(c0)) + Bag(Some(c1))
    ensures Bag(Some(DEFAULT)) == multiset{} && Bag(None) == multiset{}
  {
  }

  // ---- The invariant between constraints

  ghost function SigOf(o: Option<Cluster>): set<nat> {
    if o.Some? then Sig(o.value.constraints) else {}
  }

  /** Signals already met are found through the index; the others are in no cluster. */
  ghost predicate Indexed(arena: Arena, path: seq<nat>, index: seq<nat>, none: nat) {
    && Linked(arena, path) && |arena| <= none
    && (forall x :: 0 <= x < |index| && index[x] < none ==>
      index[x] < |path| && x in SigOf(arena[Root(path, index[x])]))
    && (forall x, i :: 0 <= x < |index| && index[x] >= none && 0 <= i < |arena| ==> x !in SigOf(arena[i]))
  }

  ghost predicate Apart(arena: Arena) {
    forall i, j :: 0 <= i < j < |arena| ==> SigOf(arena[i]) !! SigOf(arena[j])
  }

  ghost predicate ExactAt(o: Option<Cluster>) {
    o.Some? ==> Exact(o.value)
  }

  ghost predicate AllExact(arena: Arena) {
    forall i :: 0 <= i < |arena| ==> ExactAt(arena[i])
  }

  // ---- The invariant while one constraint is being linked
  // The newest cluster, the last, holds a constraint with signals S; those in P have been linked so
  // far, and M are the signals of the clusters absorbed by doing so.

  ghost predicate Shaped(arena: Arena, path: seq<nat>, none: nat) {
    Linked(arena, path) && 0 < |arena| <= none && path[|arena| - 1] == |arena| - 1
  }

  ghost predicate Newest(o: Option<Cluster>, S: set<nat>, P: set<nat>, M: set<nat>) {
    && o.Some? && P <= S && Connected(o.value.constraints) && SigOf(o) == S + M
    && o.value.numSignals == |S| + |M| - |P * M|
  }

  ghost predicate Older(arena: Arena, P: set<nat>, M: set<nat>) {
    && (forall i :: 0 <= i < |arena| - 1 ==> ExactAt(arena[i]))
    && (forall i :: 0 <= i < |arena| - 1 ==> SigOf(arena[i]) !! M && SigOf(arena[i]) !! P)
    && (forall i, j :: 0 <= i < j < |arena| - 1 ==> SigOf(arena[i]) !! SigOf(arena[j]))
  }

  /** Where signal x is, given the index entry v. */
  ghost predicate Located(arena: Arena, path: seq<nat>, v: nat, none: nat, P: set<nat>, M: set<nat>, x: nat)
    requires Shaped(arena, path, none)
  {
    if x in P then v == |arena| - 1
    else if v < none then
      v < |path| && if Root(path, v) == |arena| - 1 then x in M else x in SigOf(arena[Root(path, v)])
    else
      x !in M && forall i :: 0 <= i < |arena| - 1 ==> x !in SigOf(arena[i])
  }

  ghost predicate Linking(arena: Arena, path: seq<nat>, index: seq<nat>, none: nat, S: set<nat>, P: set<nat>,
                          M: set<nat>) {
    && Shaped(arena, path, none)
    && Newest(arena[|arena| - 1], S, P, M)
    && Older(arena, P, M)
    && (forall x :: 0 <= x < |index| ==> Located(arena, path, index[x], none, P, M, x))
  }

  lemma BeginConstraint(arena: Arena, path: seq<nat>, index: seq<nat>, none: nat, c: Constraint)
    requires Indexed(arena, path, index, none) && Apart(arena) && AllExact(arena) && |arena| < none
    ensures Linking(arena + [Some(Cluster.New(c, |Signals(c)|))], path + [|path|], index, none, Signals(c), {}, {})
    ensures Contents(arena + [Some(Cluster.New(c, |Signals(c)|))]) == Contents(arena) + multiset{c}
  {
    hide SigOf, ExactAt, Newest, Bag, Contents;
    var last := Some(Cluster.New(c, |Signals(c)|));
    var next := arena + [last];
    var d := |arena|;
    NewestSingle(c);
    AppendRoot(path, d);
    BeginOlder(arena, last);
    forall x | 0 <= x < |index|
      ensures Located(next, path + [d], index[x], none, {}, {}, x)
    {
      BeginLocated(arena, path, index, none, last, x);
    }
    assert next[..d] == arena;
    ContentsLast(next);
  }

  lemma BeginOlder(arena: Arena, last: Option<Cluster>)
    requires Apart(arena) && AllExact(arena)
    ensures Older(arena + [last], {}, {})
  {
    hide SigOf, ExactAt;
  }

  lemma BeginLocated(arena: Arena, path: seq<nat>, index: seq<nat>, none: nat, last: Option<Cluster>, x: nat)
    requires Indexed(arena, path, index, none) && |arena| < none && x < |index|
    requires Shaped(arena + [last], path + [|arena|], none)
    ensures Located(arena + [last], path + [|arena|], index[x], none, {}, {}, x)
  {
    hide SigOf;
    if index[x] < none { AppendRoot(path, index[x]); }
  }

  lemma NewestSingle(c: Constraint)
    ensures Newest(Some(Cluster.New(c, |Signals(c)|)), Signals(c), {}, {})
    ensures Bag(Some(Cluster.New(c, |Signals(c)|))) == multiset{c}
  {
    hide Connected, Sig, Signals;
    SigSingle(c);
    var none: set<nat> := {};
    assert |none * none| == 0;
  }

  lemma LinkUnseen(arena: Arena, path: seq<nat>, index: seq<nat>, none: nat, S: set<nat>, P: set<nat>, M: set<nat>,
                   x: nat)
    requires Linking(arena, path, index, none, S, P, M)
    requires x in S && x !in P && x < |index| && index[x] >= none
    ensures Linking(arena, path, index[x := |arena| - 1], none, S, P + {x}, M)
  {
    hide SigOf, ExactAt, Connected, Linked;
    assert Located(arena, path, index[x], none, P, M, x);
    assert (P + {x}) * M == P * M;
  }

  lemma SameRoots(path: seq<nat>, path': seq<nat>, r: nat, d: nat)
    requires Forest(path) && |path'| == |path| && Forest(path') && r < |path| && path[r] == r && d < |path| &&
             path[d] == d
    requires forall i :: 0 <= i < |path| ==> Root(path', i) == if Root(path, i) == r then d else Root(path, i)
    ensures forall i :: 0 <= i < |path| ==> (path'[i] == i <==> path[i] == i && (i != r || r == d))
  {
    forall i | 0 <= i < |path|
      ensures path'[i] == i <==> path[i] == i && (i != r || r == d)
    {
      RootIsRoot(path, i);
      RootIsRoot(path', i);
    }
  }

  /** Signals stay located when the cluster at r moves into the newest one. */
  lemma StillLocated(arena: Arena, next: Arena, path: seq<nat>, path': seq<nat>, index: seq<nat>, none: nat,
                     P: set<nat>, M: set<nat>, M': set<nat>, r: nat, x: nat)
    requires Shaped(arena, path, none) && Shaped(next, path', none) && |next| == |arena| && r < |arena|
    requires forall i :: 0 <= i < |path| ==> Root(path', i) == if Root(path, i) == r then |arena| - 1 else Root(path, i)
    requires forall i :: 0 <= i < |arena| - 1 && i != r ==> next[i] == arena[i]
    requires r != |arena| - 1 ==> M' == M + SigOf(arena[r]) && SigOf(next[r]) == {}
    requires r == |arena| - 1 ==> M' == M
    requires forall y :: 0 <= y < |index| ==> Located(arena, path, index[y], none, P, M, y)
    requires x < |index|
    ensures var index' := index[x := |arena| - 1]; forall y :: 0 <= y < |index'| ==>
            Located(next, path', index'[y], none, P + {x}, M', y)
  {
    hide SigOf;
    var index' := index[x := |arena| - 1];
    forall y | 0 <= y < |index'|
      ensures Located(next, path', index'[y], none, P + {x}, M', y)
    {
      assert Located(arena, path, index[y], none, P, M, y);
    }
  }

  lemma LinkSame(arena: Arena, path: seq<nat>, path': seq<nat>, index: seq<nat>, none: nat, S: set<nat>, P: set<nat>,
                 M: set<nat>, x: nat)
    requires Linking(arena, path, index, none, S, P, M)
    requires x in S && x !in P && x < |index| && index[x] < none && Root(path, index[x]) == |arena| - 1
    requires |path'| == |path| && Forest(path') && forall i :: 0 <= i < |path| ==> Root(path', i) == Root(path, i)
    ensures Linking(Merged(arena, |arena| - 1, |arena| - 1), path', index[x := |arena| - 1], none, S, P + {x}, M)
  {
    hide SigOf, ExactAt, Newest, Located;
    var d := |arena| - 1;
    var next := Merged(arena, d, d);
    AbsorbedAlready(arena, path, index, none, P, M, x);
    NewestAgain(arena[d], S, P, M, x);
    SameRoots(path, path', d, d);
    assert forall i :: 0 <= i < d ==> next[i] == arena[i];
    OlderSame(arena, next, path, index, none, S, P, M, x);
    StillLocated(arena, next, path, path', index, none, P, M, M, d, x);
  }

  lemma AbsorbedAlready(arena: Arena, path: seq<nat>, index: seq<nat>, none: nat, P: set<nat>, M: set<nat>, x: nat)
    requires Shaped(arena, path, none) && x < |index| && Located(arena, path, index[x], none, P, M, x)
    requires x !in P && index[x] < none
    ensures index[x] < |path|
    ensures if Root(path, index[x]) == |arena| - 1 then x in M else x in SigOf(arena[Root(path, index[x])])
  {
    hide SigOf;
  }

  lemma NewestAgain(o: Option<Cluster>, S: set<nat>, P: set<nat>, M: set<nat>, x: nat)
    requires Newest(o, S, P, M) && x in S && x !in P && x in M
    ensures o.Some? && Newest(Some(Cluster.Merge(o.value, DEFAULT)), S, P + {x}, M)
  {
    assert (P + {x}) * M == P * M + {x};
    assert o.value.constraints + [] == o.value.constraints;
  }

  lemma OlderSame(arena: Arena, next: Arena, path: seq<nat>, index: seq<nat>, none: nat, S: set<nat>, P: set<nat>,
                  M: set<nat>, x: nat)
    requires Older(arena, P, M) && |next| == |arena| && x in M
    requires forall i :: 0 <= i < |arena| - 1 ==> next[i] == arena[i]
    ensures Older(next, P + {x}, M)
  {
    hide SigOf, ExactAt;
  }

  lemma LinkMerge(arena: Arena, path: seq<nat>, path': seq<nat>, index: seq<nat>, none: nat, S: set<nat>, P: set<nat>,
                  M: set<nat>, x: nat, r: nat)
    requires Linking(arena, path, index, none, S, P, M)
    requires x in S && x !in P && x < |index| && index[x] < none && r == Root(path, index[x]) && r != |arena| - 1
    requires |path'| == |path| && Forest(path')
    requires forall i :: 0 <= i < |path| ==> Root(path', i) == if Root(path, i) == r then |arena| - 1 else Root(path, i)
    ensures Linking(Merged(arena, r, |arena| - 1), path', index[x := |arena| - 1], none, S, P + {x},
            M + SigOf(arena[r]))
  {
    hide SigOf, ExactAt, Newest, Located, Older;
    var d := |arena| - 1;
    var next := Merged(arena, r, d);
    AbsorbedAlready(arena, path, index, none, P, M, x);
    OlderAt(arena, P, M, r);
    NewestMerged(arena[d], arena[r], S, P, M, x);
    SameRoots(path, path', r, d);
    assert next[d] == Some(Cluster.Merge(arena[d].value, arena[r].value)) && next[r] == None;
    assert forall i :: 0 <= i < d && i != r ==> next[i] == arena[i];
    NothingLeft();
    OlderMerged(arena, next, P, M, r, x);
    StillLocated(arena, next, path, path', index, none, P, M, M + SigOf(arena[r]), r, x);
  }

  lemma OlderAt(arena: Arena, P: set<nat>, M: set<nat>, r: nat)
    requires Older(arena, P, M) && r < |arena| - 1
    ensures ExactAt(arena[r]) && SigOf(arena[r]) !! M && SigOf(arena[r]) !! P
  {
  }

  lemma NothingLeft()
    ensures SigOf(None) == {} && ExactAt(None)
  {
  }

  lemma OlderMerged(arena: Arena, next: Arena, P: set<nat>, M: set<nat>, r: nat, x: nat)
    requires Older(arena, P, M) && |next| == |arena| && r < |arena| - 1 && x in SigOf(arena[r])
    requires forall i :: 0 <= i < |arena| - 1 && i != r ==> next[i] == arena[i]
    requires SigOf(next[r]) == {} && ExactAt(next[r])
    ensures Older(next, P + {x}, M + SigOf(arena[r]))
  {
    hide SigOf, ExactAt;
    forall i | 0 <= i < |next| - 1
      ensures SigOf(next[i]) !! (M + SigOf(arena[r])) && SigOf(next[i]) !! (P + {x})
    {
      if i < r { assert SigOf(arena[i]) !! SigOf(arena[r]); }
      if r < i { assert SigOf(arena[r]) !! SigOf(arena[i]); }
    }
  }

  lemma NewestMerged(newest: Option<Cluster>, older: Option<Cluster>, S: set<nat>, P: set<nat>, M: set<nat>, x: nat)
    requires Newest(newest, S, P, M) && older.Some? && ExactAt(older)
    requires x in S && x !in P && x in SigOf(older) && SigOf(older) !! M && SigOf(older) !! P
    ensures Newest(Some(Cluster.Merge(newest.value, older.value)), S, P + {x}, M + SigOf(older))
  {
    hide Connected, Sig;
    SigConcat(newest.value.constraints, older.value.constraints);
    ConnectedConcat(newest.value.constraints, older.value.constraints, x);
    MergedCount(S, P, M, SigOf(older), x);
  }

  lemma MergedCount(S: set<nat>, P: set<nat>, M: set<nat>, R: set<nat>, x: nat)
    requires R !! M && R !! P && x in R && x !in P
    ensures |M + R| == |M| + |R|
    ensures |(P + {x}) * (M + R)| == |P * M| + 1
  {
    assert (P + {x}) * (M + R) == P * M + {x};
  }

  lemma EndConstraint(arena: Arena, path: seq<nat>, index: seq<nat>, none: nat, S: set<nat>, M: set<nat>)
    requires Linking(arena, path, index, none, S, S, M)
    ensures Indexed(arena, path, index, none) && Apart(arena) && AllExact(arena)
  {
    var d := |arena| - 1;
    UnionSize(S, M);
    assert ExactAt(arena[d]);
    assert SigOf(arena[d]) == S + M;
    hide SigOf, ExactAt, Newest;
    forall x | 0 <= x < |index| && index[x] < none
      ensures index[x] < |path| && x in SigOf(arena[Root(path, index[x])])
    {
      assert Located(arena, path, index[x], none, S, M, x);
    }
    forall x, i | 0 <= x < |index| && index[x] >= none && 0 <= i < |arena|
      ensures x !in SigOf(arena[i])
    {
      assert Located(arena, path, index[x], none, S, M, x);
    }
  }

  lemma UnionSize(S: set<nat>, M: set<nat>)
    ensures |S + M| == |S| + |M| - |S * M|
  {
  }

  // ---- The method

  /** The signals of a constraint in some order; each is linked to the newest cluster. */
  method LinkSignals(arena: Arena, path: seq<nat>, index: seq<nat>, none: nat, signals: set<nat>)
    returns (arena': Arena, path': seq<nat>, index': seq<nat>)
    requires Linking(arena, path, index, none, signals, {}, {})
    requires forall x :: x in signals ==> x < |index|
    ensures |arena'| == |arena| && |index'| == |index|
    ensures Indexed(arena', path', index', none) && Apart(arena') && AllExact(arena')
    ensures Contents(arena') == Contents(arena)
  {
    hide Connected, Exact, Contents, Merged, Indexed, Apart, AllExact, Linking, Linked;
    arena', path', index' := arena, path, index;
    var dest := |arena| - 1;
    var pending := signals;
    ghost var P: set<nat>, M: set<nat> := {}, {};
    while pending != {}
      invariant pending !! P && pending + P == signals
      invariant |arena'| == |arena| && |index'| == |index|
      invariant Linking(arena', path', index', none, signals, P, M)
      invariant Contents(arena') == Contents(arena)
      decreases pending
    {
      var signal :| signal in pending;
      arena', path', index', M := LinkOne(arena', path', index', none, signals, P, M, signal);
      pending, P := pending - {signal}, P + {signal};
    }
    assert P == signals;
    EndConstraint(arena', path', index', none, signals, M);
  }

  /** One signal: if it was met before, its cluster is merged into the newest one. */
  method LinkOne(arena: Arena, path: seq<nat>, index: seq<nat>, none: nat, ghost S: set<nat>, ghost P: set<nat>,
                 ghost M: set<nat>, signal: nat)
    returns (arena': Arena, path': seq<nat>, index': seq<nat>, ghost M': set<nat>)
    requires Linking(arena, path, index, none, S, P, M)
    requires signal in S && signal !in P && signal < |index|
    ensures |arena'| == |arena| && |index'| == |index|
    ensures Linking(arena', path', index', none, S, P + {signal}, M')
    ensures Contents(arena') == Contents(arena)
  {
    hide Linking, Contents, Merged;
    LinkingFacts(arena, path, index, none, S, P, M, signal);
    arena', path', M' := arena, path, M;
    var dest := |arena| - 1;
    var prev := index[signal];
    if prev < none {
      ghost var r := Root(path, prev);
      ContentsMerged(arena, r, dest);
      MergedLength(arena, r, dest);
      arena', path' := ArenaMerge(arena, path, prev, dest);
      if r == dest {
        LinkSame(arena, path, path', index, none, S, P, M, signal);
      } else {
        LinkMerge(arena, path, path', index, none, S, P, M, signal, r);
        M' := M + SigOf(arena[r]);
      }
    } else {
      LinkUnseen(arena, path, index, none, S, P, M, signal);
    }
    index' := index[signal := dest];
  }

  lemma MergedLength(arena: Arena, r: nat, d: nat)
    requires r < |arena| && d < |arena| && arena[r].Some? && arena[d].Some?
    ensures |Merged(arena, r, d)| == |arena|
  {
  }

  lemma LinkingFacts(arena: Arena, path: seq<nat>, index: seq<nat>, none: nat, S: set<nat>, P: set<nat>, M: set<nat>,
                     x: nat)
    requires Linking(arena, path, index, none, S, P, M) && x < |index| && x !in P
    ensures Linked(arena, path) && 0 < |arena| && Root(path, |arena| - 1) == |arena| - 1 && arena[|arena| - 1].Some?
    ensures index[x] < none ==> index[x] < |path| && arena[Root(path, index[x])].Some?
  {
    hide SigOf, ExactAt;
    assert Located(arena, path, index[x], none, P, M, x);
    assert Root(path, |arena| - 1) == |arena| - 1;
  }

  /** What build_clusters promises: the non-empty constraints, each once, in the connected
      components of "shares a signal", each with its exact number of signals. */
  ghost predicate Components(clusters: seq<Cluster>, linear: seq<Constraint>) {
    && Gathered(clusters) == multiset(NonEmpty(linear))
    && (forall i :: 0 <= i < |clusters| ==> Exact(clusters[i]))
    && (forall i, j :: 0 <= i < j < |clusters| ==> Sig(clusters[i].constraints) !! Sig(clusters[j].constraints))
  }

  ghost function Gathered(clusters: seq<Cluster>): multiset<Constraint> {
    if clusters == [] then multiset{}
    else Gathered(clusters[..|clusters| - 1]) + multiset(clusters[|clusters| - 1].constraints)
  }

  /** A constraint starts a cluster of its own and takes in every cluster it shares a signal with. */
  method LinkConstraint(arena: Arena, path: seq<nat>, index: seq<nat>, none: nat, constraint: Constraint)
    returns (arena': Arena, path': seq<nat>, index': seq<nat>)
    requires Indexed(arena, path, index, none) && Apart(arena) && AllExact(arena) && |arena| < none
    requires forall x :: x in Signals(constraint) ==> x < |index|
    ensures |arena'| == |arena| + 1 && |index'| == |index|
    ensures Indexed(arena', path', index', none) && Apart(arena') && AllExact(arena')
    ensures Contents(arena') == Contents(arena) + multiset{constraint}
  {
    hide Connected, Exact, Linking, Indexed, Apart, AllExact, Contents, Signals, Sig;
    var signals := Signals(constraint);
    BeginConstraint(arena, path, index, none, constraint);
    arena', path', index' := LinkSignals(arena + [Some(Cluster.New(constraint, |signals|))], path + [|path|], index,
      none, signals);
  }

  /** The arena holds the constraints linked so far. */
  ghost predicate Built(arena: Arena, path: seq<nat>, index: seq<nat>, none: nat, linked: seq<Constraint>) {
    && Indexed(arena, path, index, none) && Apart(arena) && AllExact(arena)
    && Contents(arena) == multiset(NonEmpty(linked))
  }

  method BuildClusters(linear: seq<Constraint>, noVars: nat) returns (clusters: seq<Cluster>)
    requires forall i, x :: 0 <= i < |linear| && x in Signals(linear[i]) ==> x < noVars
    ensures Components(clusters, linear)
  {
    hide Indexed, Apart, AllExact, Contents, NonEmpty, Components, Gathered, IsEmpty, Signals, Sig, Exact, Built;
    var noLinear := |linear|;
    var arena: Arena := [];
    var path: seq<nat> := [];
    var index: seq<nat> := seq(noVars, _ => noLinear);
    NothingBuilt(index, noLinear, linear);
    for i := 0 to |linear|
      invariant |index| == noVars && |arena| <= i && Built(arena, path, index, noLinear, linear[..i])
    {
      var constraint := linear[i];
      if !IsEmpty(constraint) {
        ghost var before := arena;
        BuiltFacts(arena, path, index, noLinear, linear[..i]);
        arena, path, index := LinkConstraint(arena, path, index, noLinear, constraint);
        BuiltNext(before, arena, path, index, noLinear, linear, i);
      } else {
        BuiltSkip(arena, path, index, noLinear, linear, i);
      }
    }
    assert linear[..|linear|] == linear;
    BuiltFacts(arena, path, index, noLinear, linear);
    clusters := Collect(arena);
    ComponentsIntro(clusters, linear);
  }

  lemma BuiltFacts(arena: Arena, path: seq<nat>, index: seq<nat>, none: nat, linked: seq<Constraint>)
    requires Built(arena, path, index, none, linked)
    ensures Indexed(arena, path, index, none) && Apart(arena) && AllExact(arena) &&
            Contents(arena) == multiset(NonEmpty(linked))
  {
  }

  lemma NothingBuilt(index: seq<nat>, none: nat, linear: seq<Constraint>)
    requires forall x :: 0 <= x < |index| ==> index[x] == none
    ensures Built([], [], index, none, linear[..0])
  {
    NothingLinked(index, none);
    assert linear[..0] == [];
  }

  lemma BuiltNext(before: Arena, arena: Arena, path: seq<nat>, index: seq<nat>, none: nat, linear: seq<Constraint>,
                  i: nat)
    requires i < |linear| && !IsEmpty(linear[i]) && Contents(before) == multiset(NonEmpty(linear[..i]))
    requires Indexed(arena, path, index, none) && Apart(arena) && AllExact(arena) &&
             Contents(arena) == Contents(before) + multiset{linear[i]}
    ensures Built(arena, path, index, none, linear[..i + 1])
  {
    hide Indexed, Apart, AllExact, Contents, NonEmpty;
    NonEmptyNext(linear, i);
  }

  lemma BuiltSkip(arena: Arena, path: seq<nat>, index: seq<nat>, none: nat, linear: seq<Constraint>, i: nat)
    requires i < |linear| && IsEmpty(linear[i]) && Built(arena, path, index, none, linear[..i])
    ensures Built(arena, path, index, none, linear[..i + 1])
  {
    hide Indexed, Apart, AllExact, Contents, NonEmpty;
    NonEmptyNext(linear, i);
  }

  lemma NothingLinked(index: seq<nat>, none: nat)
    requires forall x :: 0 <= x < |index| ==> index[x] == none
    ensures Indexed([], [], index, none) && Apart([]) && AllExact([])
    ensures Contents([]) == multiset(NonEmpty([]))
  {
  }

  lemma ComponentsIntro(clusters: seq<Cluster>, linear: seq<Constraint>)
    requires Gathered(clusters) == multiset(NonEmpty(linear))
    requires forall i :: 0 <= i < |clusters| ==> Exact(clusters[i])
    requires forall i, j :: 0 <= i < j < |clusters| ==> Sig(clusters[i].constraints) !! Sig(clusters[j].constraints)
    ensures Components(clusters, linear)
  {
  }

  lemma NonEmptyNext(linear: seq<Constraint>, i: nat)
    requires i < |linear|
    ensures multiset(NonEmpty(linear[..i + 1])) ==
            multiset(NonEmpty(linear[..i])) + if IsEmpty(linear[i]) then multiset{} else multiset{linear[i]}
  {
    assert linear[..i + 1][..i] == linear[..i];
  }

  /** `origin` says which arena slot each collected cluster came from. */
  ghost predicate From(clusters: seq<Cluster>, origin: seq<nat>, arena: Arena, i: nat)
    requires i <= |arena|
  {
    && |origin| == |clusters|
    && (forall j :: 0 <= j < |clusters| ==> origin[j] < i && arena[origin[j]] == Some(clusters[j]))
    && (forall j, k :: 0 <= j < k < |origin| ==> origin[j] < origin[k])
  }

  lemma FromNext(clusters: seq<Cluster>, origin: seq<nat>, arena: Arena, i: nat)
    requires i < |arena| && From(clusters, origin, arena, i) && arena[i].Some?
    ensures From(clusters + [arena[i].value], origin + [i], arena, i + 1)
  {
  }

  lemma FromSkip(clusters: seq<Cluster>, origin: seq<nat>, arena: Arena, i: nat)
    requires i < |arena| && From(clusters, origin, arena, i)
    ensures From(clusters, origin, arena, i + 1)
  {
  }

  lemma FromApart(clusters: seq<Cluster>, origin: seq<nat>, arena: Arena)
    requires From(clusters, origin, arena, |arena|) && Apart(arena) && AllExact(arena)
    ensures forall i :: 0 <= i < |clusters| ==> Exact(clusters[i])
    ensures forall i, j :: 0 <= i < j < |clusters| ==> Sig(clusters[i].constraints) !! Sig(clusters[j].constraints)
  {
    hide Exact, Sig;
    forall i | 0 <= i < |clusters|
      ensures Exact(clusters[i])
    {
      assert ExactAt(arena[origin[i]]);
    }
    forall i, j | 0 <= i < j < |clusters|
      ensures Sig(clusters[i].constraints) !! Sig(clusters[j].constraints)
    {
      assert SigOf(arena[origin[i]]) !! SigOf(arena[origin[j]]);
    }
  }

  lemma GatheredNext(clusters: seq<Cluster>, c: Cluster)
    ensures Gathered(clusters + [c]) == Gathered(clusters) + multiset(c.constraints)
  {
    assert (clusters + [c])[..|clusters|] == clusters;
  }

  lemma ContentsNext(arena: Arena, i: nat)
    requires i < |arena|
    ensures Contents(arena[..i + 1]) == Contents(arena[..i]) + Bag(arena[i])
  {
    assert arena[..i + 1][..i] == arena[..i];
  }

  lemma CollectStart(arena: Arena)
    ensures Gathered([]) == Contents(arena[..0]) && From([], [], arena, 0)
  {
  }

  method Collect(arena: Arena) returns (clusters: seq<Cluster>)
    requires Apart(arena) && AllExact(arena)
    ensures Gathered(clusters) == Contents(arena)
    ensures forall i :: 0 <= i < |clusters| ==> Exact(clusters[i])
    ensures forall i, j :: 0 <= i < j < |clusters| ==> Sig(clusters[i].constraints) !! Sig(clusters[j].constraints)
  {
    hide Apart, AllExact, Contents, Gathered, From, Exact, Sig;
    clusters := [];
    ghost var origin: seq<nat> := [];
    CollectStart(arena);
    for i := 0 to |arena|
      invariant Gathered(clusters) == Contents(arena[..i]) && From(clusters, origin, arena, i)
    {
      ContentsNext(arena, i);
      FromSkip(clusters, origin, arena, i);
      if arena[i].Some? && |arena[i].value.constraints| != 0 {
        GatheredNext(clusters, arena[i].value);
        FromNext(clusters, origin, arena, i);
        clusters, origin := clusters + [arena[i].value], origin + [i];
      }
    }
    assert arena[..|arena|] == arena;
    FromApart(clusters, origin, arena);
  }
}
