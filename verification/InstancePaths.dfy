/** The instances of a circuit told by the edges alone: a path of edges from the main template leads to a template and
    an offset (Tree::go_to_subtree in dag/src/lib.rs). What the traversals collect is what these instances hold. */
module InstancePaths {
  import opened Field
  import opened LinearCombination
  import opened Constraints
  import opened Elimination
  import opened ClusterFacts
  import opened EqSimplification
  import opened Solutions
  import opened Dag
  import opened TreeWalk
  import opened NonLinear
  import opened MapToList
  import opened SortedSets

  // ---- Paths

  /** A template and what is added to its identifiers. */
  datatype Place = Place(node: nat, offset: nat)

  /** Where a path of edge positions leads from a template, if there are such edges; offsets add up. */
  function PlaceAt(g: Graph, i: nat, path: seq<nat>): Option<Place>
    decreases |path|
  {
    if path == [] then Some(Place(i, 0))
    else if i >= |g.adjacency| || path[0] >= |g.adjacency[i]| then None
    else
      var e := g.adjacency[i][path[0]];
      match PlaceAt(g, e.goesTo, path[1..])
      case None => None
      case Some(place) => Some(Place(place.node, e.inNumber + place.offset))
  }

  lemma {:induction false} PlaceOk(g: Graph, i: nat, path: seq<nat>)
    requires GraphOk(g) && i < |g.nodes| && PlaceAt(g, i, path).Some?
    ensures PlaceAt(g, i, path).value.node <= i
    decreases |path|
  {
    hide GraphOk;
    if path != [] {
      GraphSize(g, i);
      GoesLower(g, i, path[0]);
      PlaceOk(g, g.adjacency[i][path[0]].goesTo, path[1..]);
    }
  }

  // ---- What the instances say

  /** The signals of an instance under their own identifiers. */
  ghost function View(s: Assignment, offset: nat): Assignment {
    (x: nat) => if x == 0 then s(0) else s(x + offset)
  }

  /** Every constraint of the template holds of the instance's signals. */
  ghost predicate NodeHolds(node: Node, offset: nat, s: Assignment, p: int) {
    forall c :: c in node.constraints ==> Sat(c, View(s, offset), p)
  }

  ghost predicate HoldsAt(g: Graph, i: nat, offset: nat, path: seq<nat>, s: Assignment, p: int) {
    match PlaceAt(g, i, path)
    case None => true
    case Some(place) => place.node < |g.nodes| ==> NodeHolds(g.nodes[place.node], offset + place.offset, s, p)
  }

  /** Every instance below the main template holds. */
  ghost predicate CircuitHolds(g: Graph, s: Assignment, p: int)
    requires g.nodes != []
  {
    forall path :: InstanceHolds(g, path, s, p)
  }

  ghost predicate InstanceHolds(g: Graph, path: seq<nat>, s: Assignment, p: int)
    requires g.nodes != []
  {
    HoldsAt(g, |g.nodes| - 1, 0, path, s, p)
  }

  ghost predicate HoldsBelow(g: Graph, i: nat, offset: nat, j: nat, path: seq<nat>, s: Assignment, p: int)
    requires i < |g.adjacency| && j < |g.adjacency[i]|
  {
    HoldsAt(g, g.adjacency[i][j].goesTo, offset + g.adjacency[i][j].inNumber, path, s, p)
  }

  lemma HoldsFirst(g: Graph, i: nat, offset: nat, j: nat, path: seq<nat>, s: Assignment, p: int)
    requires i < |g.adjacency| && j < |g.adjacency[i]|
    ensures HoldsAt(g, i, offset, [j] + path, s, p) <==> HoldsBelow(g, i, offset, j, path, s, p)
  {
    hide NodeHolds;
    assert ([j] + path)[1..] == path;
  }

  lemma OffsetView(c: Constraint, s: Assignment, offset: nat, p: int)
    ensures Sat(ApplyOffset(c, offset), s, p) <==> Sat(c, View(s, offset), p)
  {
    hide Sat, ApplyOffset;
    OffsetMeaning(c, s, offset, p);
    forall x | x in Signals(c)
      ensures Seen(s, offset)(x) == View(s, offset)(x)
    {
      assert x != 0 && Shifted(x, offset) == x + offset;
      assert View(s, offset)(x) == s(x + offset);
      assert Seen(s, offset)(x) == s(Shifted(x, offset));
    }
    SatAgree(c, Seen(s, offset), View(s, offset), p);
  }

  lemma TreeHolds(node: Node, offset: nat, isRoot: bool, s: Assignment, p: int)
    requires isRoot ==> offset == 0
    ensures AllSat(TreeConstraints(node, offset, isRoot), s, p) <==> NodeHolds(node, offset, s, p)
  {
    hide Sat, ApplyOffset, View, IsEmpty;
    var kept := NonEmpty(node.constraints);
    MemberSat(TreeConstraints(node, offset, isRoot), s, p);
    forall c: Constraint
      ensures Sat(ApplyOffset(c, offset), s, p) <==> Sat(c, View(s, offset), p)
      ensures c in kept <==> c in node.constraints && !IsEmpty(c)
      ensures isRoot ==> ApplyOffset(c, offset) == c
    {
      OffsetView(c, s, offset, p);
      InNonEmpty(node.constraints, c);
      if isRoot { OffsetZero(c); }
    }
    EmptyHolds(View(s, offset), p);
    if !isRoot && NodeHolds(node, offset, s, p) {
      forall i | 0 <= i < |kept|
        ensures Sat(Offsets(kept, offset)[i], s, p)
      {
        assert kept[i] in kept;
      }
    }
    if !isRoot && AllSat(Offsets(kept, offset), s, p) {
      forall c | c in node.constraints
        ensures Sat(c, View(s, offset), p)
      {
        if !IsEmpty(c) {
          var i :| 0 <= i < |kept| && kept[i] == c;
          assert Sat(Offsets(kept, offset)[i], s, p);
        }
      }
    }
  }

  /** The collected constraints hold exactly when every instance holds, instances being told by their paths. */
  lemma {:induction false} InstancesHold(g: Graph, i: nat, offset: nat, isRoot: bool, s: Assignment, p: int)
    requires GraphOk(g) && i < |g.nodes| && (isRoot ==> offset == 0)
    ensures AllSat(Instances(g, i, offset, isRoot), s, p) <==> forall path :: HoldsAt(g, i, offset, path, s, p)
    decreases i, |g.adjacency[i]| + 1
  {
    hide GraphOk, AllSat, TreeConstraints, NodeHolds, InstancesBelow, HoldsBelow, HoldsAt;
    GraphSize(g, i);
    var below := InstancesBelow(g, i, offset, |g.adjacency[i]|);
    ConcatSat(TreeConstraints(g.nodes[i], offset, isRoot), below, s, p);
    TreeHolds(g.nodes[i], offset, isRoot, s, p);
    InstancesBelowHold(g, i, offset, |g.adjacency[i]|, s, p);
    HoldsHere(g, i, offset, s, p);
    if forall path :: HoldsAt(g, i, offset, path, s, p) {
      forall j, path | 0 <= j < |g.adjacency[i]|
        ensures HoldsBelow(g, i, offset, j, path, s, p)
      {
        HoldsFirst(g, i, offset, j, path, s, p);
      }
    }
    if AllSat(below, s, p) && NodeHolds(g.nodes[i], offset, s, p) {
      forall path: seq<nat>
        ensures HoldsAt(g, i, offset, path, s, p)
      {
        HoldsSplit(g, i, offset, path, s, p);
      }
    }
  }

  lemma HoldsHere(g: Graph, i: nat, offset: nat, s: Assignment, p: int)
    requires i < |g.nodes|
    ensures HoldsAt(g, i, offset, [], s, p) <==> NodeHolds(g.nodes[i], offset, s, p)
  {
    hide NodeHolds;
  }

  lemma HoldsSplit(g: Graph, i: nat, offset: nat, path: seq<nat>, s: Assignment, p: int)
    requires i < |g.nodes| == |g.adjacency| && NodeHolds(g.nodes[i], offset, s, p)
    requires forall j, rest :: 0 <= j < |g.adjacency[i]| ==> HoldsBelow(g, i, offset, j, rest, s, p)
    ensures HoldsAt(g, i, offset, path, s, p)
  {
    hide NodeHolds;
    if path != [] && path[0] < |g.adjacency[i]| {
      assert HoldsBelow(g, i, offset, path[0], path[1..], s, p);
      HoldsFirst(g, i, offset, path[0], path[1..], s, p);
      assert [path[0]] + path[1..] == path;
    }
  }

  lemma {:induction false} InstancesBelowHold(g: Graph, i: nat, offset: nat, n: nat, s: Assignment, p: int)
    requires GraphOk(g) && |g.nodes| == |g.adjacency| && i < |g.nodes| && n <= |g.adjacency[i]|
    ensures AllSat(InstancesBelow(g, i, offset, n), s, p) <==>
            forall j, path :: 0 <= j < n ==> HoldsBelow(g, i, offset, j, path, s, p)
    decreases i, n
  {
    hide GraphOk, AllSat, Instances, HoldsAt;
    if n == 0 {
      NothingHolds(s, p);
    } else {
      GoesLower(g, i, n - 1);
      var e := g.adjacency[i][n - 1];
      InstancesBelowHold(g, i, offset, n - 1, s, p);
      InstancesHold(g, e.goesTo, offset + e.inNumber, false, s, p);
      ConcatSat(InstancesBelow(g, i, offset, n - 1), Instances(g, e.goesTo, offset + e.inNumber, false), s, p);
      BelowHere(g, i, offset, n - 1, e.goesTo, offset + e.inNumber, s, p);
    }
  }

  lemma BelowHere(g: Graph, i: nat, offset: nat, j: nat, to: nat, at: nat, s: Assignment, p: int)
    requires i < |g.adjacency| && j < |g.adjacency[i]|
    requires to == g.adjacency[i][j].goesTo && at == offset + g.adjacency[i][j].inNumber
    ensures (forall path :: HoldsBelow(g, i, offset, j, path, s, p)) <==> forall path :: HoldsAt(g, to, at, path, s, p)
  {
    hide HoldsAt;
    if forall path :: HoldsBelow(g, i, offset, j, path, s, p) {
      forall path: seq<nat>
        ensures HoldsAt(g, to, at, path, s, p)
      {
        assert HoldsBelow(g, i, offset, j, path, s, p);
      }
    }
  }

  lemma FromMain(g: Graph, main: nat, s: Assignment, p: int)
    requires |g.nodes| == main + 1
    ensures CircuitHolds(g, s, p) <==> forall path :: HoldsAt(g, main, 0, path, s, p)
  {
    hide HoldsAt;
    if CircuitHolds(g, s, p) {
      forall path: seq<nat>
        ensures HoldsAt(g, main, 0, path, s, p)
      {
        assert InstanceHolds(g, path, s, p);
      }
    }
  }

  lemma CircuitMeaning(g: Graph, s: Assignment, p: int)
    requires GraphOk(g) && g.nodes != []
    ensures AllSat(AllConstraints(g), s, p) <==> CircuitHolds(g, s, p)
  {
    hide GraphOk, AllSat, Instances, HoldsAt;
    InstancesHold(g, |g.nodes| - 1, 0, true, s, p);
    FromMain(g, |g.nodes| - 1, s, p);
  }

  lemma NothingHolds(s: Assignment, p: int)
    ensures AllSat([], s, p)
  {
  }

  // ---- How often

  function Prefixed(j: nat, paths: seq<seq<nat>>): (r: seq<seq<nat>>)
    ensures |r| == |paths| && forall k :: 0 <= k < |r| ==> r[k] == [j] + paths[k]
  {
    seq(|paths|, k requires 0 <= k < |paths| => [j] + paths[k])
  }

  /** All paths from a template. */
  ghost function PathsFrom(g: Graph, i: nat): seq<seq<nat>>
    requires GraphOk(g) && i < |g.nodes|
    decreases i, |g.adjacency[i]| + 1
  {
    [[]] + PathsBelow(g, i, |g.adjacency[i]|)
  }

  ghost function PathsBelow(g: Graph, i: nat, n: nat): seq<seq<nat>>
    requires GraphOk(g) && i < |g.nodes| && n <= |g.adjacency[i]|
    decreases i, n
  {
    if n == 0 then [] else
      GoesLower(g, i, n - 1);
      PathsBelow(g, i, n - 1) + Prefixed(n - 1, PathsFrom(g, g.adjacency[i][n - 1].goesTo))
  }

  ghost predicate Distinct(paths: seq<seq<nat>>) {
    forall j, k :: 0 <= j < k < |paths| ==> paths[j] != paths[k]
  }

  /** Every path that leads somewhere is listed, once. */
  lemma {:induction false} PathsListed(g: Graph, i: nat)
    requires GraphOk(g) && i < |g.nodes|
    ensures Distinct(PathsFrom(g, i)) && forall path :: path in PathsFrom(g, i) <==> PlaceAt(g, i, path).Some?
    decreases i, |g.adjacency[i]| + 1
  {
    hide GraphOk, PathsBelow, PlaceAt;
    GraphSize(g, i);
    var n := |g.adjacency[i]|;
    PathsBelowListed(g, i, n);
    forall path: seq<nat>
      ensures path in PathsFrom(g, i) <==> PlaceAt(g, i, path).Some?
    {
      PlaceFirst(g, i, path);
      assert path in PathsFrom(g, i) <==> path == [] || path in PathsBelow(g, i, n);
    }
    ConcatDistinct([[]], PathsBelow(g, i, n));
  }

  lemma PlaceFirst(g: Graph, i: nat, path: seq<nat>)
    requires i < |g.adjacency|
    ensures path == [] ==> PlaceAt(g, i, path) == Some(Place(i, 0))
    ensures path != [] && path[0] >= |g.adjacency[i]| ==> PlaceAt(g, i, path).None?
    ensures path != [] && path[0] < |g.adjacency[i]| ==>
              (PlaceAt(g, i, path).Some? <==> PlaceAt(g, g.adjacency[i][path[0]].goesTo, path[1..]).Some?)
  {
  }

  lemma ConcatDistinct(one: seq<seq<nat>>, two: seq<seq<nat>>)
    requires Distinct(one) && Distinct(two) && forall x :: x in one ==> x !in two
    ensures Distinct(one + two)
  {
    var all, n := one + two, |one|;
    forall j, k | 0 <= j < k < |all|
      ensures all[j] != all[k]
    {
      if j < n <= k {
        assert all[j] == one[j] && all[k] == two[k - n];
        assert one[j] in one && two[k - n] in two;
      }
    }
  }

  lemma {:induction false} PathsBelowListed(g: Graph, i: nat, n: nat)
    requires GraphOk(g) && i < |g.nodes| == |g.adjacency| && n <= |g.adjacency[i]|
    ensures Distinct(PathsBelow(g, i, n))
    ensures forall path :: path in PathsBelow(g, i, n) <==> path != [] && path[0] < n && PlaceAt(g, i, path).Some?
    decreases i, n
  {
    hide GraphOk, PathsFrom, PlaceAt;
    if n > 0 {
      GoesLower(g, i, n - 1);
      var to := g.adjacency[i][n - 1].goesTo;
      PathsBelowListed(g, i, n - 1);
      PathsListed(g, to);
      PrefixedListed(n - 1, PathsFrom(g, to));
      forall path: seq<nat>
        ensures path in PathsBelow(g, i, n) <==> path != [] && path[0] < n && PlaceAt(g, i, path).Some?
      {
        PlaceFirst(g, i, path);
      }
      ConcatDistinct(PathsBelow(g, i, n - 1), Prefixed(n - 1, PathsFrom(g, to)));
    }
  }

  lemma PrefixedListed(j: nat, paths: seq<seq<nat>>)
    ensures forall path :: path in Prefixed(j, paths) <==> path != [] && path[0] == j && path[1..] in paths
    ensures Distinct(paths) ==> Distinct(Prefixed(j, paths))
  {
    var r := Prefixed(j, paths);
    forall path: seq<nat>
      ensures path in r <==> path != [] && path[0] == j && path[1..] in paths
    {
      if path in r {
        var k :| 0 <= k < |r| && r[k] == path;
        assert ([j] + paths[k])[1..] == paths[k];
      }
      if path != [] && path[0] == j && path[1..] in paths {
        var k :| 0 <= k < |paths| && paths[k] == path[1..];
        assert r[k] == [path[0]] + path[1..] == path;
      }
    }
    if Distinct(paths) {
      forall k, l | 0 <= k < l < |r|
        ensures r[k] != r[l]
      {
        assert ([j] + paths[k])[1..] == paths[k] && ([j] + paths[l])[1..] == paths[l];
      }
    }
  }

  /** Where a template's constraints, offset, give d; empty ones are handed over for the main template only. */
  function Positions(cs: seq<Constraint>, all: bool, offset: nat, d: Constraint): set<nat> {
    set j | 0 <= j < |cs| && (all || !IsEmpty(cs[j])) && ApplyOffset(cs[j], offset) == d
  }

  /** How often the instance at the end of a path gives d. */
  function Occurs(g: Graph, i: nat, offset: nat, isRoot: bool, path: seq<nat>, d: Constraint): nat {
    match PlaceAt(g, i, path)
    case None => 0
    case Some(place) =>
      if place.node >= |g.nodes| then 0
      else |Positions(g.nodes[place.node].constraints, isRoot && path == [], offset + place.offset, d)|
  }

  function Total(g: Graph, i: nat, offset: nat, isRoot: bool, paths: seq<seq<nat>>, d: Constraint): nat {
    if paths == [] then 0
    else Total(g, i, offset, isRoot, paths[..|paths| - 1], d) + Occurs(g, i, offset, isRoot, paths[|paths| - 1], d)
  }

  lemma {:induction false} TotalConcat(g: Graph, i: nat, offset: nat, isRoot: bool, one: seq<seq<nat>>,
                                       two: seq<seq<nat>>, d: Constraint)
    ensures Total(g, i, offset, isRoot, one + two, d) ==
            Total(g, i, offset, isRoot, one, d) + Total(g, i, offset, isRoot, two, d)
  {
    hide Occurs;
    if two == [] {
      assert one + two == one;
    } else {
      var n := |two| - 1;
      assert (one + two)[..|one| + n] == one + two[..n];
      TotalConcat(g, i, offset, isRoot, one, two[..n], d);
    }
  }

  lemma {:induction false} TotalPrefixed(g: Graph, i: nat, offset: nat, isRoot: bool, j: nat, paths: seq<seq<nat>>,
                                         d: Constraint)
    requires i < |g.adjacency| && j < |g.adjacency[i]|
    ensures var e := g.adjacency[i][j];
            Total(g, i, offset, isRoot, Prefixed(j, paths), d) ==
            Total(g, e.goesTo, offset + e.inNumber, false, paths, d)
  {
    hide Occurs;
    if paths != [] {
      var n := |paths| - 1;
      assert Prefixed(j, paths)[..n] == Prefixed(j, paths[..n]);
      TotalPrefixed(g, i, offset, isRoot, j, paths[..n], d);
      OccursFirst(g, i, offset, isRoot, j, paths[n], d);
    }
  }

  lemma OccursFirst(g: Graph, i: nat, offset: nat, isRoot: bool, j: nat, path: seq<nat>, d: Constraint)
    requires i < |g.adjacency| && j < |g.adjacency[i]|
    ensures var e := g.adjacency[i][j];
            Occurs(g, i, offset, isRoot, [j] + path, d) == Occurs(g, e.goesTo, offset + e.inNumber, false, path, d)
  {
    hide Positions;
    assert ([j] + path)[1..] == path;
  }

  lemma {:induction false} OffsetsCounted(cs: seq<Constraint>, offset: nat, d: Constraint)
    ensures MapToList.Times(Offsets(NonEmpty(cs), offset), d) == |Positions(cs, false, offset, d)|
  {
    hide ApplyOffset, IsEmpty;
    if cs != [] {
      var n := |cs| - 1;
      OffsetsCounted(cs[..n], offset, d);
      PositionsSnoc(cs, false, offset, d);
      NonEmptyLast(cs);
      OffsetsSnoc(NonEmpty(cs[..n]), cs[n], offset);
    }
  }

  lemma {:induction false} RootCounted(cs: seq<Constraint>, d: Constraint)
    ensures MapToList.Times(cs, d) == |Positions(cs, true, 0, d)|
  {
    hide ApplyOffset, IsEmpty;
    if cs != [] {
      var n := |cs| - 1;
      RootCounted(cs[..n], d);
      PositionsSnoc(cs, true, 0, d);
      OffsetZero(cs[n]);
      assert cs == cs[..n] + [cs[n]];
    }
  }

  lemma PositionsSnoc(cs: seq<Constraint>, all: bool, offset: nat, d: Constraint)
    requires cs != []
    ensures var n := |cs| - 1;
            |Positions(cs, all, offset, d)| == |Positions(cs[..n], all, offset, d)| +
              if (all || !IsEmpty(cs[n])) && ApplyOffset(cs[n], offset) == d then 1 else 0
  {
    hide ApplyOffset, IsEmpty;
    var n := |cs| - 1;
    var before := Positions(cs[..n], all, offset, d);
    assert Positions(cs, all, offset, d) ==
      before + if (all || !IsEmpty(cs[n])) && ApplyOffset(cs[n], offset) == d then {n} else {};
  }

  lemma TreeCounted(node: Node, offset: nat, isRoot: bool, d: Constraint)
    requires isRoot ==> offset == 0
    ensures MapToList.Times(TreeConstraints(node, offset, isRoot), d) ==
            |Positions(node.constraints, isRoot, offset, d)|
  {
    hide ApplyOffset, NonEmpty, Positions, Offsets;
    if isRoot { RootCounted(node.constraints, d); } else { OffsetsCounted(node.constraints, offset, d); }
  }

  /** A constraint is collected as often as the instances give it, over all paths. */
  lemma {:induction false} InstancesCounted(g: Graph, i: nat, offset: nat, isRoot: bool, d: Constraint)
    requires GraphOk(g) && i < |g.nodes| && (isRoot ==> offset == 0)
    ensures MapToList.Times(Instances(g, i, offset, isRoot), d) ==
            Total(g, i, offset, isRoot, PathsFrom(g, i), d)
    decreases i, |g.adjacency[i]| + 1
  {
    hide GraphOk, TreeConstraints, Positions, InstancesBelow, PathsBelow, Total, Occurs, MapToList.Times;
    GraphSize(g, i);
    var n := |g.adjacency[i]|;
    TimesConcat(TreeConstraints(g.nodes[i], offset, isRoot), InstancesBelow(g, i, offset, n), d);
    TreeCounted(g.nodes[i], offset, isRoot, d);
    InstancesBelowCounted(g, i, offset, isRoot, n, d);
    TotalConcat(g, i, offset, isRoot, [[]], PathsBelow(g, i, n), d);
    TotalHere(g, i, offset, isRoot, d);
  }

  /** How often the instances of the circuit give d, over all paths from the main template. */
  ghost function CircuitTotal(g: Graph, d: Constraint): nat
    requires GraphOk(g) && g.nodes != []
  {
    Total(g, |g.nodes| - 1, 0, true, PathsFrom(g, |g.nodes| - 1), d)
  }

  lemma TimesConcat(one: seq<Constraint>, two: seq<Constraint>, d: Constraint)
    ensures MapToList.Times(one + two, d) == MapToList.Times(one, d) + MapToList.Times(two, d)
  {
  }

  lemma NothingCounted(g: Graph, i: nat, offset: nat, isRoot: bool, d: Constraint)
    ensures MapToList.Times([], d) == 0 == Total(g, i, offset, isRoot, [], d)
  {
  }

  lemma TotalHere(g: Graph, i: nat, offset: nat, isRoot: bool, d: Constraint)
    requires i < |g.nodes|
    ensures Total(g, i, offset, isRoot, [[]], d) == |Positions(g.nodes[i].constraints, isRoot, offset, d)|
  {
    hide Positions;
    var root: seq<seq<nat>> := [[]];
    assert root[..0] == [];
  }

  lemma {:induction false} InstancesBelowCounted(g: Graph, i: nat, offset: nat, isRoot: bool, n: nat, d: Constraint)
    requires GraphOk(g) && i < |g.nodes| == |g.adjacency| && n <= |g.adjacency[i]|
    ensures MapToList.Times(InstancesBelow(g, i, offset, n), d) ==
            Total(g, i, offset, isRoot, PathsBelow(g, i, n), d)
    decreases i, n
  {
    hide GraphOk, Instances, PathsFrom, Occurs, MapToList.Times, Total, Prefixed;
    if n == 0 {
      NothingCounted(g, i, offset, isRoot, d);
    } else {
      GoesLower(g, i, n - 1);
      var e := g.adjacency[i][n - 1];
      TimesConcat(InstancesBelow(g, i, offset, n - 1), Instances(g, e.goesTo, offset + e.inNumber, false), d);
      InstancesBelowCounted(g, i, offset, isRoot, n - 1, d);
      InstancesCounted(g, e.goesTo, offset + e.inNumber, false, d);
      TotalConcat(g, i, offset, isRoot, PathsBelow(g, i, n - 1), Prefixed(n - 1, PathsFrom(g, e.goesTo)), d);
      TotalPrefixed(g, i, offset, isRoot, n - 1, PathsFrom(g, e.goesTo), d);
    }
  }

  // ---- The wires of custom gates

  /** x is the wire of a named local signal of the custom gate at the end of the path. */
  ghost predicate GateWireAt(g: Graph, i: nat, offset: nat, path: seq<nat>, x: nat) {
    match PlaceAt(g, i, path)
    case None => false
    case Some(place) =>
      && place.node < |g.nodes| && g.nodes[place.node].isCustomGate
      && NamedWire(g.nodes[place.node], offset + place.offset, x)
  }

  ghost predicate NamedWire(node: Node, offset: nat, x: nat) {
    exists name :: name in node.correspondence && node.correspondence[name] in node.locals &&
      x == node.correspondence[name] + offset
  }

  lemma WiresNamed(node: Node, offset: nat, x: nat)
    ensures x in Wires(node, offset) <==> NamedWire(node, offset, x)
  {
    var ids := Ascending(Listed(node));
    if x in Wires(node, offset) {
      var j :| 0 <= j < |ids| && x == ids[j] + offset;
      assert ids[j] in ids && ids[j] in Listed(node);
    }
    if NamedWire(node, offset, x) {
      var name :| name in node.correspondence && node.correspondence[name] in node.locals &&
        x == node.correspondence[name] + offset;
      assert node.correspondence[name] in Listed(node);
      assert node.correspondence[name] in ids;
      var j :| 0 <= j < |ids| && ids[j] == node.correspondence[name];
      assert Wires(node, offset)[j] == x;
    }
  }

  lemma GateWireFirst(g: Graph, i: nat, offset: nat, path: seq<nat>, x: nat)
    requires i < |g.nodes| == |g.adjacency|
    ensures path == [] ==>
              (GateWireAt(g, i, offset, path, x) <==> g.nodes[i].isCustomGate && NamedWire(g.nodes[i], offset, x))
    ensures path != [] && path[0] >= |g.adjacency[i]| ==> !GateWireAt(g, i, offset, path, x)
    ensures path != [] && path[0] < |g.adjacency[i]| ==>
              var e := g.adjacency[i][path[0]];
              (GateWireAt(g, i, offset, path, x) <==>
                GateWireAt(g, e.goesTo, offset + e.inNumber, path[1..], x))
  {
    hide NamedWire;
  }

  /** The wires that must stay for custom gates are those of the instances of custom gates. */
  lemma {:induction false} GateWiresExactly(g: Graph, i: nat, offset: nat, x: nat)
    requires GraphOk(g) && i < |g.nodes|
    ensures x in GateWires(g, i, offset) <==> exists path :: GateWireAt(g, i, offset, path, x)
    decreases i, |g.adjacency[i]| + 1
  {
    hide GraphOk, Wires, NamedWire, GateWireAt, GateWiresBelow;
    GraphSize(g, i);
    WiresNamed(g.nodes[i], offset, x);
    GateWireFirst(g, i, offset, [], x);
    GateWiresBelowExactly(g, i, offset, |g.adjacency[i]|, x);
    if path :| GateWireAt(g, i, offset, path, x) {
      GateWireFirst(g, i, offset, path, x);
      if path != [] { assert GateWireAt(g, i, offset, path, x) && path[0] < |g.adjacency[i]|; }
    }
  }

  ghost predicate CircuitGateWire(g: Graph, path: seq<nat>, x: nat)
    requires g.nodes != []
  {
    GateWireAt(g, |g.nodes| - 1, 0, path, x)
  }

  lemma CircuitGateWires(g: Graph, main: nat, x: nat)
    requires GraphOk(g) && |g.nodes| == main + 1
    ensures x in GateWires(g, main, 0) <==> exists path :: CircuitGateWire(g, path, x)
  {
    hide GraphOk, GateWires, GateWireAt;
    GateWiresExactly(g, main, 0, x);
    if path :| GateWireAt(g, main, 0, path, x) { assert CircuitGateWire(g, path, x); }
  }

  lemma {:induction false} GateWiresBelowExactly(g: Graph, i: nat, offset: nat, n: nat, x: nat)
    requires GraphOk(g) && i < |g.nodes| == |g.adjacency| && n <= |g.adjacency[i]|
    ensures x in GateWiresBelow(g, i, offset, n) <==>
            exists path :: path != [] && path[0] < n && GateWireAt(g, i, offset, path, x)
    decreases i, n
  {
    hide GraphOk, GateWires, GateWireAt;
    if n > 0 {
      GoesLower(g, i, n - 1);
      var e := g.adjacency[i][n - 1];
      GateWiresBelowExactly(g, i, offset, n - 1, x);
      GateWiresExactly(g, e.goesTo, offset + e.inNumber, x);
      var at := offset + e.inNumber;
      if rest :| GateWireAt(g, e.goesTo, at, rest, x) {
        var path := [n - 1] + rest;
        assert path[1..] == rest;
        GateWireFirst(g, i, offset, path, x);
      }
      if path :| path != [] && path[0] == n - 1 && GateWireAt(g, i, offset, path, x) {
        GateWireFirst(g, i, offset, path, x);
      }
    }
  }
}
