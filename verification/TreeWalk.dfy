/** The walk over the template graph that lists every wire (Tree in dag/src/lib.rs, dag/src/witness_producer.rs). */
module TreeWalk {
  import opened SortedSets
  import opened Dag

  /** The local identifiers a walk finds, by their names. */
  function Listed(node: Node): (r: set<nat>)
    ensures forall id :: id in r <==>
            id in node.locals && exists name :: name in node.correspondence && node.correspondence[name] == id
  {
    set name | name in node.correspondence && node.correspondence[name] in node.locals :: node.correspondence[name]
  }

  lemma ListedAll(node: Node)
    ensures AllNamed(node) <==> Listed(node) == node.locals
  {
  }

  /** A node's local wires, shifted to the instance's place. */
  function Wires(node: Node, offset: nat): seq<nat> {
    Shift(Ascending(Listed(node)), offset)
  }

  function Shift(ids: seq<nat>, offset: nat): seq<nat> {
    seq(|ids|, i requires 0 <= i < |ids| => ids[i] + offset)
  }

  ghost function Walk(g: Graph, i: nat, offset: nat): seq<nat>
    requires GraphOk(g) && i < |g.nodes|
    decreases i, |g.adjacency[i]| + 1
  {
    Wires(g.nodes[i], offset) + WalkEdges(g, i, offset, |g.adjacency[i]|)
  }

  ghost function WalkEdges(g: Graph, i: nat, offset: nat, n: nat): seq<nat>
    requires GraphOk(g) && i < |g.nodes| && n <= |g.adjacency[i]|
    decreases i, n
  {
    if n == 0 then [] else
      var e := g.adjacency[i][n - 1];
      GoesLower(g, i, n - 1);
      WalkEdges(g, i, offset, n - 1) + Walk(g, e.goesTo, offset + e.inNumber)
  }

  lemma GoesLower(g: Graph, i: nat, j: nat)
    requires GraphOk(g) && i < |g.nodes| && j < |g.adjacency[i]|
    ensures g.adjacency[i][j].goesTo < i
    ensures g.adjacency[i][j].outNumber == g.adjacency[i][j].inNumber +
            g.nodes[g.adjacency[i][j].goesTo].numberOfSignals
  {
    assert NodeOk(g, i);
  }

  // ---- The methods

  /** Push the local identifiers in whatever order the names come, then sort. */
  method CollectSignals(node: Node, offset: nat) returns (signals: seq<nat>)
    requires NamedOnce(node)
    ensures signals == Wires(node, offset)
  {
    hide Collected, NamedOnce, Listed;
    var pushed: seq<nat> := [];
    var pending := node.correspondence.Keys;
    CollectedNone(node);
    while pending != {}
      invariant pending <= node.correspondence.Keys && Collected(node, pending, pushed)
      decreases pending
    {
      var name :| name in pending;
      CollectOne(node, pending, pushed, name);
      pending := pending - {name};
      var id := node.correspondence[name];
      if id in node.locals {
        pushed := pushed + [id];
      }
    }
    CollectedAll(node, pending, pushed);
    var sorted := Ascending(Elements(pushed));
    signals := Shift(sorted, offset);
  }

  lemma CollectedAll(node: Node, pending: set<string>, pushed: seq<nat>)
    requires pending == {} && Collected(node, pending, pushed)
    ensures Elements(pushed) == Listed(node)
  {
    forall id | id in Listed(node)
      ensures id in pushed
    {
      var name :| name in node.correspondence && node.correspondence[name] == id;
      assert Pushed(node, name, id);
    }
  }

  lemma CollectedNone(node: Node)
    ensures Collected(node, node.correspondence.Keys, [])
  {
  }

  /** The identifiers pushed so far: those of the visited names, each once. */
  ghost predicate Collected(node: Node, pending: set<string>, pushed: seq<nat>) {
    && NoRepeat(pushed)
    && forall id :: id in pushed <==>
      exists name :: name in node.correspondence && name !in pending && Pushed(node, name, id)
  }

  ghost predicate Pushed(node: Node, name: string, id: nat)
    requires name in node.correspondence
  {
    node.correspondence[name] == id && id in node.locals
  }

  lemma CollectOne(node: Node, pending: set<string>, pushed: seq<nat>, name: string)
    requires NamedOnce(node) && pending <= node.correspondence.Keys && name in pending &&
             Collected(node, pending, pushed)
    ensures var id := node.correspondence[name];
            Collected(node, pending - {name}, if id in node.locals then pushed + [id] else pushed)
  {
    var id := node.correspondence[name];
    var next := if id in node.locals then pushed + [id] else pushed;
    if id in node.locals && id in pushed {
      var other :| other in node.correspondence && other !in pending && Pushed(node, other, id);
      assert SameLocal(node, other, name);
    }
    forall x | x in next
      ensures exists a :: a in node.correspondence && a !in pending - {name} && Pushed(node, a, x)
    {
      if x == id && id in node.locals {
        assert Pushed(node, name, id);
      } else {
        var a :| a in node.correspondence && a !in pending && Pushed(node, a, x);
        assert a !in pending - {name};
      }
    }
    forall x, a | a in node.correspondence && a !in pending - {name} && Pushed(node, a, x)
      ensures x in next
    {
    }
  }

  ghost predicate NoRepeat(s: seq<nat>) {
    forall i, j :: 0 <= i < j < |s| ==> s[i] != s[j]
  }

  method ProduceTreeWitness(g: Graph, i: nat, offset: nat, start: seq<nat>) returns (wires: seq<nat>)
    requires GraphOk(g) && i < |g.nodes|
    ensures wires == start + Walk(g, i, offset)
    decreases i
  {
    hide GraphOk, Wires, NamedOnce;
    GraphSize(g, i);
    var signals := CollectSignals(g.nodes[i], offset);
    wires := start + signals;
    for n := 0 to |g.adjacency[i]|
      invariant wires == start + signals + WalkEdges(g, i, offset, n)
    {
      GoesLower(g, i, n);
      var e := g.adjacency[i][n];
      ghost var before := WalkEdges(g, i, offset, n);
      wires := ProduceTreeWitness(g, e.goesTo, offset + e.inNumber, wires);
      hide Walk;
      Reassociate(start + signals, before, Walk(g, e.goesTo, offset + e.inNumber));
    }
    Reassociate(start, signals, WalkEdges(g, i, offset, |g.adjacency[i]|));
  }

  lemma Reassociate(one: seq<nat>, two: seq<nat>, three: seq<nat>)
    ensures one + two + three == one + (two + three)
  {
  }

  lemma GraphSize(g: Graph, i: nat)
    requires GraphOk(g) && i < |g.nodes|
    ensures |g.nodes| == |g.adjacency| && NamedOnce(g.nodes[i]) && Partitioned(g.nodes[i], g.adjacency[i])
  {
    assert NodeOk(g, i);
  }

  method ProduceWitness(g: Graph) returns (wires: seq<nat>)
    requires GraphOk(g) && g.nodes != []
    ensures wires == [0] + Walk(g, |g.nodes| - 1, 0)
  {
    wires := ProduceTreeWitness(g, |g.nodes| - 1, 0, [0]);
  }

  // ---- Every wire exactly once

  function Times(s: seq<nat>, x: nat): nat {
    multiset(s)[x]
  }

  lemma TimesConcat(one: seq<nat>, two: seq<nat>, x: nat)
    ensures Times(one + two, x) == Times(one, x) + Times(two, x)
  {
  }

  lemma TimesNone(x: nat)
    ensures Times([], x) == 0
  {
  }

  lemma {:induction false} TimesAscending(s: seq<nat>, x: nat)
    requires StrictlyAscending(s)
    ensures Times(s, x) == if x in s then 1 else 0
  {
    if s != [] {
      var n := |s| - 1;
      TimesAscending(s[..n], x);
      assert s == s[..n] + [s[n]];
    }
  }

  lemma SignalsOnce(node: Node, offset: nat, x: nat)
    ensures Times(Wires(node, offset), x) == if x >= offset && x - offset in Listed(node) then 1 else 0
  {
    hide Listed, Ascending, Times;
    var ids, shifted := Ascending(Listed(node)), Wires(node, offset);
    TimesAscending(shifted, x);
    if x >= offset && x - offset in Listed(node) {
      assert x - offset in ids;
      var i :| 0 <= i < |ids| && ids[i] == x - offset;
      assert shifted[i] == x;
    }
    if x in shifted {
      var i :| 0 <= i < |shifted| && shifted[i] == x;
      assert ids[i] in ids;
    }
  }

  /** The interval of an instance's identifiers. */
  function Inside(offset: nat, size: nat, x: nat): nat {
    if offset < x <= offset + size then 1 else 0
  }

  function Before(edges: seq<Edge>, n: nat, offset: nat, x: nat): nat
    requires n <= |edges|
  {
    if x > offset then InEdges(edges[..n], x - offset) else 0
  }

  lemma BeforeNext(edges: seq<Edge>, n: nat, offset: nat, x: nat)
    requires n < |edges| && edges[n].inNumber <= edges[n].outNumber
    ensures Before(edges, n + 1, offset, x) == Before(edges, n, offset, x) + Inside(offset + edges[n].inNumber,
            edges[n].outNumber - edges[n].inNumber, x)
  {
    assert edges[..n + 1][..n] == edges[..n];
  }

  lemma OwnersAt(g: Graph, i: nat, x: nat)
    requires GraphOk(g) && i < |g.nodes|
    ensures NodeOk(g, i)
    ensures Owners(g.nodes[i], g.adjacency[i], x) == if 1 <= x <= g.nodes[i].numberOfSignals then 1 else 0
  {
    hide Owners, NamedOnce, EdgesOk;
    assert NodeOk(g, i);
  }

  /** No wire is listed twice or outside the instance's interval. */
  lemma {:induction false} WalkAtMost(g: Graph, i: nat, offset: nat, x: nat)
    requires GraphOk(g) && i < |g.nodes|
    ensures Times(Walk(g, i, offset), x) <= Inside(offset, g.nodes[i].numberOfSignals, x)
    decreases i, |g.adjacency[i]| + 1
  {
    hide GraphOk, Times;
    GraphSize(g, i);
    var edges := g.adjacency[i];
    OwnersAt(g, i, if x > offset then x - offset else 0);
    WalkEdgesAtMost(g, i, offset, |edges|, x);
    SignalsOnce(g.nodes[i], offset, x);
    TimesConcat(Wires(g.nodes[i], offset), WalkEdges(g, i, offset, |edges|), x);
    assert edges[..|edges|] == edges;
  }

  lemma {:induction false} WalkEdgesAtMost(g: Graph, i: nat, offset: nat, n: nat, x: nat)
    requires GraphOk(g) && i < |g.nodes| && n <= |g.adjacency[i]|
    ensures Times(WalkEdges(g, i, offset, n), x) <= Before(g.adjacency[i], n, offset, x)
    decreases i, n
  {
    hide GraphOk, Walk, Times, Before, Inside, Partitioned, NamedOnce;
    TimesNone(x);
    if n > 0 {
      GraphSize(g, i);
      GoesLower(g, i, n - 1);
      var e := g.adjacency[i][n - 1];
      WalkEdgesAtMost(g, i, offset, n - 1, x);
      WalkAtMost(g, e.goesTo, offset + e.inNumber, x);
      BeforeNext(g.adjacency[i], n - 1, offset, x);
      TimesConcat(WalkEdges(g, i, offset, n - 1), Walk(g, e.goesTo, offset + e.inNumber), x);
    }
  }

  /** The node and everything below it kept a name for every local signal. */
  ghost predicate ReachNamed(g: Graph, i: nat)
    requires GraphOk(g) && i < |g.nodes|
    decreases i
  {
    AllNamed(g.nodes[i]) && forall j :: 0 <= j < |g.adjacency[i]| ==>
      (GoesLower(g, i, j); ReachNamed(g, g.adjacency[i][j].goesTo))
  }

  /** The walk lists every identifier of its interval. */
  ghost predicate Complete(g: Graph, i: nat, offset: nat)
    requires GraphOk(g) && i < |g.nodes|
  {
    forall x: nat :: Times(Walk(g, i, offset), x) == Inside(offset, g.nodes[i].numberOfSignals, x)
  }

  lemma {:induction false} NamedComplete(g: Graph, i: nat, offset: nat)
    requires GraphOk(g) && i < |g.nodes| && ReachNamed(g, i)
    ensures Complete(g, i, offset)
    decreases i, |g.adjacency[i]| + 1
  {
    var edges := g.adjacency[i];
    ListedAll(g.nodes[i]);
    assert edges[..|edges|] == edges;
    assert NodeOk(g, i);
    forall x: nat
      ensures Times(Walk(g, i, offset), x) == Inside(offset, g.nodes[i].numberOfSignals, x)
    {
      NamedEdgesComplete(g, i, offset, |edges|, x);
      SignalsOnce(g.nodes[i], offset, x);
      TimesConcat(Wires(g.nodes[i], offset), WalkEdges(g, i, offset, |edges|), x);
      if x > offset {
        assert Owners(g.nodes[i], edges, x - offset) == if 1 <= x - offset <= g.nodes[i].numberOfSignals then 1 else 0;
      } else {
        assert Owners(g.nodes[i], edges, 0) == 0;
      }
    }
  }

  lemma {:induction false} NamedEdgesComplete(g: Graph, i: nat, offset: nat, n: nat, x: nat)
    requires GraphOk(g) && i < |g.nodes| && n <= |g.adjacency[i]| && ReachNamed(g, i)
    ensures Times(WalkEdges(g, i, offset, n), x) == Before(g.adjacency[i], n, offset, x)
    decreases i, n
  {
    if n > 0 {
      var e := g.adjacency[i][n - 1];
      GoesLower(g, i, n - 1);
      assert ReachNamed(g, e.goesTo);
      hide GraphOk, ReachNamed, Walk, Times, Before, Inside;
      NamedEdgesComplete(g, i, offset, n - 1, x);
      NamedComplete(g, e.goesTo, offset + e.inNumber);
      BeforeNext(g.adjacency[i], n - 1, offset, x);
      TimesConcat(WalkEdges(g, i, offset, n - 1), Walk(g, e.goesTo, offset + e.inNumber), x);
      assert Times(Walk(g, e.goesTo, offset + e.inNumber), x) == Inside(offset + e.inNumber,
        g.nodes[e.goesTo].numberOfSignals, x);
    }
  }

  /** A complete sum of parts, each within its bound, makes every part complete. */
  lemma {:induction false} EdgeComplete(g: Graph, i: nat, offset: nat, n: nat, j: nat, x: nat)
    requires GraphOk(g) && i < |g.nodes| && j < n <= |g.adjacency[i]|
    requires Times(WalkEdges(g, i, offset, n), x) == Before(g.adjacency[i], n, offset, x)
    ensures var e := g.adjacency[i][j];
            e.goesTo < i && Times(Walk(g, e.goesTo, offset + e.inNumber), x) == Inside(offset + e.inNumber,
              g.nodes[e.goesTo].numberOfSignals, x)
    decreases n
  {
    hide GraphOk, Walk, Times, Before, Inside, Partitioned, NamedOnce;
    GraphSize(g, i);
    GoesLower(g, i, n - 1);
    GoesLower(g, i, j);
    var e := g.adjacency[i][n - 1];
    WalkEdgesAtMost(g, i, offset, n - 1, x);
    WalkAtMost(g, e.goesTo, offset + e.inNumber, x);
    BeforeNext(g.adjacency[i], n - 1, offset, x);
    TimesConcat(WalkEdges(g, i, offset, n - 1), Walk(g, e.goesTo, offset + e.inNumber), x);
    if j < n - 1 { EdgeComplete(g, i, offset, n - 1, j, x); }
  }

  lemma {:induction false} CompleteNamed(g: Graph, i: nat, offset: nat)
    requires GraphOk(g) && i < |g.nodes| && Complete(g, i, offset)
    ensures ReachNamed(g, i)
    decreases i
  {
    CompleteHere(g, i, offset);
    forall j | 0 <= j < |g.adjacency[i]|
      ensures g.adjacency[i][j].goesTo < i && ReachNamed(g, g.adjacency[i][j].goesTo)
    {
      GoesLower(g, i, j);
      CompleteBelow(g, i, offset, j);
      CompleteNamed(g, g.adjacency[i][j].goesTo, offset + g.adjacency[i][j].inNumber);
    }
  }

  lemma CompleteHere(g: Graph, i: nat, offset: nat)
    requires GraphOk(g) && i < |g.nodes| && Complete(g, i, offset)
    ensures AllNamed(g.nodes[i])
  {
    hide GraphOk, Complete, Listed, Partitioned, NamedOnce, AllNamed;
    GraphSize(g, i);
    var node := g.nodes[i];
    forall id | id in node.locals
      ensures id in Listed(node)
    {
      CompleteListed(g, i, offset, id);
    }
    ListedCovers(node);
  }

  lemma CompleteListed(g: Graph, i: nat, offset: nat, id: nat)
    requires GraphOk(g) && i < |g.nodes| && Complete(g, i, offset) && id in g.nodes[i].locals
    ensures id in Listed(g.nodes[i])
  {
    hide GraphOk, Complete, Listed, Times, Before, WalkEdges;
    CompleteParts(g, i, offset, offset + id);
  }

  lemma ListedCovers(node: Node)
    requires forall id :: id in node.locals ==> id in Listed(node)
    ensures AllNamed(node)
  {
  }

  lemma CompleteBelow(g: Graph, i: nat, offset: nat, j: nat)
    requires GraphOk(g) && i < |g.nodes| && Complete(g, i, offset) && j < |g.adjacency[i]|
    ensures var e := g.adjacency[i][j]; e.goesTo < i && Complete(g, e.goesTo, offset + e.inNumber)
  {
    hide GraphOk, Walk, WalkEdges, Times, Before, Inside, Listed;
    GraphSize(g, i);
    GoesLower(g, i, j);
    var e := g.adjacency[i][j];
    var child, inner := e.goesTo, offset + e.inNumber;
    forall x: nat
      ensures Times(Walk(g, child, inner), x) == Inside(inner, g.nodes[child].numberOfSignals, x)
    {
      CompleteAt(g, i, offset, j, x);
    }
  }

  lemma CompleteAt(g: Graph, i: nat, offset: nat, j: nat, x: nat)
    requires GraphOk(g) && i < |g.nodes| && Complete(g, i, offset) && j < |g.adjacency[i]|
    ensures var e := g.adjacency[i][j];
            e.goesTo < i && Times(Walk(g, e.goesTo, offset + e.inNumber), x) ==
                            Inside(offset + e.inNumber, g.nodes[e.goesTo].numberOfSignals, x)
  {
    hide GraphOk, Walk, WalkEdges, Times, Before, Inside, Listed, Complete;
    GraphSize(g, i);
    GoesLower(g, i, j);
    CompleteParts(g, i, offset, x);
    EdgeComplete(g, i, offset, |g.adjacency[i]|, j, x);
  }

  /** In a complete walk both parts are complete. */
  lemma CompleteParts(g: Graph, i: nat, offset: nat, x: nat)
    requires GraphOk(g) && i < |g.nodes| && Complete(g, i, offset)
    ensures Times(WalkEdges(g, i, offset, |g.adjacency[i]|), x) == Before(g.adjacency[i], |g.adjacency[i]|, offset, x)
    ensures x >= offset && x - offset in g.nodes[i].locals ==> x - offset in Listed(g.nodes[i])
  {
    var edges, node := g.adjacency[i], g.nodes[i];
    assert edges[..|edges|] == edges;
    assert NodeOk(g, i);
    WalkEdgesAtMost(g, i, offset, |edges|, x);
    SignalsOnce(node, offset, x);
    TimesConcat(Wires(node, offset), WalkEdges(g, i, offset, |edges|), x);
    assert Times(Walk(g, i, offset), x) == Inside(offset, node.numberOfSignals, x);
    if x > offset {
      assert Owners(node, edges, x - offset) == if 1 <= x - offset <= node.numberOfSignals then 1 else 0;
    } else {
      assert Owners(node, edges, 0) == 0;
    }
  }

  /** The walk from a node lists each identifier of its interval exactly once if and only if no local
      signal at or below it has lost its name to another one. */
  lemma WalkExactly(g: Graph, i: nat, offset: nat)
    requires GraphOk(g) && i < |g.nodes|
    ensures Complete(g, i, offset) <==> ReachNamed(g, i)
  {
    if ReachNamed(g, i) { NamedComplete(g, i, offset); }
    if Complete(g, i, offset) { CompleteNamed(g, i, offset); }
  }

  lemma {:induction false} SizeOfInterval(s: seq<nat>, offset: nat, size: nat)
    requires forall x: nat :: Times(s, x) == Inside(offset, size, x)
    ensures |s| == size
  {
    if size == 0 {
      forall x: nat
        ensures multiset(s)[x] == 0
      {
        assert Times(s, x) == Inside(offset, size, x);
      }
      assert |multiset(s)| == |s| && multiset(s) == multiset{};
    } else {
      var top := offset + size;
      assert Times(s, top) == 1;
      assert top in multiset(s);
      var k :| 0 <= k < |s| && s[k] == top;
      var rest := s[..k] + s[k + 1..];
      assert s == s[..k] + [top] + s[k + 1..];
      forall x: nat
        ensures Times(rest, x) == Inside(offset, size - 1, x)
      {
        assert Times(s, x) == Inside(offset, size, x);
        assert multiset(s) == multiset(rest) + multiset([top]);
      }
      SizeOfInterval(rest, offset, size - 1);
    }
  }

  /** Together with the constant wire the main walk lists 0 to number_of_signals once each. */
  lemma WitnessExactly(g: Graph)
    requires GraphOk(g) && g.nodes != [] && ReachNamed(g, |g.nodes| - 1)
    ensures var wires, n := [0] + Walk(g, |g.nodes| - 1, 0), g.nodes[|g.nodes| - 1].numberOfSignals;
            |wires| == n + 1 && forall x: nat :: Times(wires, x) == if x <= n then 1 else 0
  {
    var main := |g.nodes| - 1;
    NamedComplete(g, main, 0);
    SizeOfInterval(Walk(g, main, 0), 0, g.nodes[main].numberOfSignals);
    forall x: nat
      ensures Times([0] + Walk(g, main, 0), x) == if x <= g.nodes[main].numberOfSignals then 1 else 0
    {
      TimesConcat([0], Walk(g, main, 0), x);
      assert Times(Walk(g, main, 0), x) == Inside(0, g.nodes[main].numberOfSignals, x);
    }
  }
}
