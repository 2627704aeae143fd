/** The encoded template graph, its walk and the relevant signals (constraint_list/src/lib.rs,
    state_utils.rs, non_linear_utils.rs and build_relevant_set in constraint_simplification.rs). */
module NonLinear {
  import opened Field
  import opened LinearCombination
  import opened Constraints
  import opened Elimination
  import opened Frames
  import opened Storage
  import opened Bytes

  datatype EncodingNode = EncodingNode(nonLinear: seq<Constraint>, isCustomGate: bool, name: seq<byte>,
                                       parameters: seq<nat>, orderedSignals: seq<nat>)

  datatype EncodingEdge = EncodingEdge(goesTo: nat, offset: nat)

  datatype DAGEncoding = DAGEncoding(init: nat, nodes: seq<EncodingNode>, adjacency: seq<seq<EncodingEdge>>)

  /** Edges go to lower nodes, which is what bounds every walk. */
  ghost predicate WellFormedDag(enc: DAGEncoding) {
    && |enc.nodes| == |enc.adjacency| && enc.init < |enc.nodes|
    && forall i, j :: 0 <= i < |enc.adjacency| && 0 <= j < |enc.adjacency[i]| ==> enc.adjacency[i][j].goesTo < i
  }

  // ---- Offsets

  function Shifted(k: nat, offset: nat): nat {
    if k == 0 then 0 else k + offset
  }

  function OffsetLC(m: LC, offset: nat): LC {
    map k | k in m :: Shifted(k, offset) := m[k]
  }

  function ApplyOffset(c: Constraint, offset: nat): Constraint {
    Constraint(OffsetLC(c.a, offset), OffsetLC(c.b, offset), OffsetLC(c.c, offset))
  }

  /** The signals of an instance, seen from its template. */
  ghost function Seen(s: Assignment, offset: nat): Assignment {
    (k: nat) => s(Shifted(k, offset))
  }

  lemma {:induction false} DotOffset(m: LC, s: Assignment, offset: nat)
    ensures Dot(OffsetLC(m, offset), s) == Dot(m, Seen(s, offset))
    decreases m.Keys
  {
    if m == map[] {
      assert OffsetLC(m, offset) == map[];
    } else {
      hide Dot, OffsetLC;
      var k :| k in m;
      assert k !in (m - {k}).Keys;
      OffsetStep(m, offset, k);
      DotStep(m, Seen(s, offset), k);
      DotStep(OffsetLC(m, offset), s, Shifted(k, offset));
      DotOffset(m - {k}, s, offset);
    }
  }

  lemma OffsetStep(m: LC, offset: nat, k: nat)
    requires k in m
    ensures var r, i := OffsetLC(m, offset), Shifted(k, offset);
            i in r && r[i] == m[k] && r - {i} == OffsetLC(m - {k}, offset)
  {
    var r, i := OffsetLC(m, offset), Shifted(k, offset);
    assert r[Shifted(k, offset)] == m[k];
  }

  /** An instance's constraint holds exactly when its template's constraint holds of the instance's signals. */
  lemma OffsetMeaning(c: Constraint, s: Assignment, offset: nat, p: int)
    ensures Sat(ApplyOffset(c, offset), s, p) <==> Sat(c, Seen(s, offset), p)
  {
    hide Dot, Cong, OffsetLC;
    DotOffset(c.a, s, offset);
    DotOffset(c.b, s, offset);
    DotOffset(c.c, s, offset);
  }

  function Offsets(cs: seq<Constraint>, offset: nat): seq<Constraint> {
    seq(|cs|, i requires 0 <= i < |cs| => ApplyOffset(cs[i], offset))
  }

  // ---- The flattened circuit

  /** The non-linear constraints of every instance below a node, in the order of the walk. */
  ghost function Flat(enc: DAGEncoding, node: nat, offset: nat): seq<Constraint>
    requires WellFormedDag(enc) && node < |enc.nodes|
    decreases node, |enc.adjacency[node]| + 1
  {
    Offsets(enc.nodes[node].nonLinear, offset) + FlatEdges(enc, node, offset, |enc.adjacency[node]|)
  }

  ghost function FlatEdges(enc: DAGEncoding, node: nat, offset: nat, n: nat): seq<Constraint>
    requires WellFormedDag(enc) && node < |enc.nodes| && n <= |enc.adjacency[node]|
    decreases node, n
  {
    if n == 0 then [] else
      var edge := enc.adjacency[node][n - 1];
      FlatEdges(enc, node, offset, n - 1) + Flat(enc, edge.goesTo, offset + edge.offset)
  }

  ghost function Flattened(enc: DAGEncoding): seq<Constraint>
    requires WellFormedDag(enc)
  {
    Flat(enc, enc.init, 0)
  }

  datatype EncodingIterator = EncodingIterator(nodeId: nat, offset: nat, nonLinear: seq<Constraint>)

  method BuildEncodingIterator(enc: DAGEncoding, nodeId: nat, offset: nat) returns (iter: EncodingIterator)
    requires nodeId < |enc.nodes|
    ensures iter == EncodingIterator(nodeId, offset, Offsets(enc.nodes[nodeId].nonLinear, offset))
  {
    var nonLinear := [];
    var constraints := enc.nodes[nodeId].nonLinear;
    for i := 0 to |constraints|
      invariant nonLinear == Offsets(constraints[..i], offset)
    {
      hide ApplyOffset;
      nonLinear := nonLinear + [ApplyOffset(constraints[i], offset)];
    }
    assert constraints[..|constraints|] == constraints;
    iter := EncodingIterator(nodeId, offset, nonLinear);
  }

  method NewIterator(enc: DAGEncoding) returns (iter: EncodingIterator)
    requires WellFormedDag(enc)
    ensures iter == EncodingIterator(enc.init, 0, Offsets(enc.nodes[enc.init].nonLinear, 0))
  {
    iter := BuildEncodingIterator(enc, enc.init, 0);
  }

  method Next(enc: DAGEncoding, iter: EncodingIterator, edge: EncodingEdge) returns (next: EncodingIterator)
    requires edge.goesTo < |enc.nodes|
    ensures next == EncodingIterator(edge.goesTo, iter.offset + edge.offset,
            Offsets(enc.nodes[edge.goesTo].nonLinear, iter.offset + edge.offset))
  {
    hide Offsets;
    next := BuildEncodingIterator(enc, edge.goesTo, iter.offset + edge.offset);
  }

  ghost predicate Positioned(enc: DAGEncoding, iter: EncodingIterator) {
    && WellFormedDag(enc) && iter.nodeId < |enc.nodes|
    && iter.nonLinear == Offsets(enc.nodes[iter.nodeId].nonLinear, iter.offset)
  }

  // ---- Simplifying the walk's constraints frame by frame

  function Framed(c: Constraint, frames: seq<Encoded>, p: int): Constraint
    requires p > 0
  {
    if frames == [] then c else ApplyFrame(Framed(c, frames[..|frames| - 1], p), frames[|frames| - 1], p)
  }

  function Reduce(c: Constraint, frames: seq<Encoded>, p: int): Constraint
    requires p > 0
  {
    Fix(Framed(c, frames, p), p)
  }

  function ReduceAll(cs: seq<Constraint>, frames: seq<Encoded>, p: int): seq<Constraint>
    requires p > 0
  {
    seq(|cs|, i requires 0 <= i < |cs| => Reduce(cs[i], frames, p))
  }

  /** The constraints of one kind, in order. */
  function Sorted(cs: seq<Constraint>, linear: bool): seq<Constraint> {
    if cs == [] then []
    else Sorted(cs[..|cs| - 1], linear) + if IsLinear(cs[|cs| - 1]) == linear then [cs[|cs| - 1]] else []
  }

  lemma SortedSnoc(cs: seq<Constraint>, c: Constraint, linear: bool)
    ensures Sorted(cs + [c], linear) == Sorted(cs, linear) + if IsLinear(c) == linear then [c] else []
  {
    hide IsLinear;
    assert (cs + [c])[..|cs|] == cs;
  }

  lemma {:induction false} SortedConcat(one: seq<Constraint>, two: seq<Constraint>, linear: bool)
    ensures Sorted(one + two, linear) == Sorted(one, linear) + Sorted(two, linear)
  {
    hide IsLinear;
    if two == [] {
      assert one + two == one;
    } else {
      var n := |two| - 1;
      assert (one + two)[..|one| + n] == one + two[..n];
      SortedConcat(one, two[..n], linear);
    }
  }

  lemma {:induction false} InSorted(cs: seq<Constraint>, linear: bool, c: Constraint)
    ensures c in Sorted(cs, linear) <==> c in cs && IsLinear(c) == linear
  {
    hide IsLinear;
    if cs != [] {
      InSorted(cs[..|cs| - 1], linear, c);
      assert cs == cs[..|cs| - 1] + [cs[|cs| - 1]];
    }
  }

  /** Sorting by kind loses and duplicates nothing. */
  lemma {:induction false} SortedConserves(cs: seq<Constraint>)
    ensures multiset(Sorted(cs, true)) + multiset(Sorted(cs, false)) == multiset(cs)
  {
    hide IsLinear, Sorted;
    SortedNone();
    if cs != [] {
      var front, last := cs[..|cs| - 1], cs[|cs| - 1];
      SortedConserves(front);
      SortedLast(cs, true);
      SortedLast(cs, false);
      assert cs == front + [last];
    }
  }

  lemma SortedNone()
    ensures Sorted([], true) == [] && Sorted([], false) == []
  {
  }

  lemma SortedLast(cs: seq<Constraint>, linear: bool)
    requires cs != []
    ensures Sorted(cs, linear) ==
            Sorted(cs[..|cs| - 1], linear) + if IsLinear(cs[|cs| - 1]) == linear then [cs[|cs| - 1]] else []
  {
    hide IsLinear;
  }

  lemma SortedMeaning(cs: seq<Constraint>, s: Assignment, p: int)
    ensures AllSat(Sorted(cs, true), s, p) && AllSat(Sorted(cs, false), s, p) <==> AllSat(cs, s, p)
  {
    hide Sat, IsLinear, Sorted;
    forall c | c in cs
      ensures c in Sorted(cs, true) || c in Sorted(cs, false)
    {
      InSorted(cs, true, c);
      InSorted(cs, false, c);
    }
    forall linear, c | c in Sorted(cs, linear)
      ensures c in cs
    {
      InSorted(cs, linear, c);
    }
    MemberSat(cs, s, p);
    MemberSat(Sorted(cs, true), s, p);
    MemberSat(Sorted(cs, false), s, p);
  }

  lemma MemberSat(cs: seq<Constraint>, s: Assignment, p: int)
    ensures AllSat(cs, s, p) <==> forall c :: c in cs ==> Sat(c, s, p)
  {
    hide Sat;
    if forall c :: c in cs ==> Sat(c, s, p) {
      forall i | 0 <= i < |cs| ensures Sat(cs[i], s, p) { assert cs[i] in cs; }
    }
  }

  lemma ReduceConcat(one: seq<Constraint>, two: seq<Constraint>, frames: seq<Encoded>, p: int, linear: bool)
    requires p > 0
    ensures Sorted(ReduceAll(one + two, frames, p), linear) == Sorted(ReduceAll(one, frames, p), linear) +
            Sorted(ReduceAll(two, frames, p), linear)
  {
    hide Reduce, Sorted;
    assert ReduceAll(one + two, frames, p) == ReduceAll(one, frames, p) + ReduceAll(two, frames, p);
    SortedConcat(ReduceAll(one, frames, p), ReduceAll(two, frames, p), linear);
  }

  /** What the walk leaves: the simplified constraints that are still non-linear, and the linear ones. */
  ghost function Obtained(cs: seq<Constraint>, frames: seq<Encoded>, p: int, linear: bool): seq<Constraint>
    requires p > 0
  {
    Sorted(ReduceAll(cs, frames, p), linear)
  }

  method ApplyFrames(c: Constraint, frames: seq<Encoded>, p: int) returns (r: Constraint)
    requires p > 0 && forall i :: 0 <= i < |frames| ==> NonOverlapping(frames[i])
    ensures r == Framed(c, frames, p)
  {
    r := c;
    for i := 0 to |frames|
      invariant r == Framed(c, frames[..i], p)
    {
      hide NonOverlapping, ApplyFrame;
      assert frames[..i + 1][..i] == frames[..i];
      var applied;
      r, applied := FastEncodedConstraintSubstitution(r, frames[i], p);
    }
    assert frames[..|frames|] == frames;
  }

  lemma NothingObtained(frames: seq<Encoded>, p: int)
    requires p > 0
    ensures Obtained([], frames, p, true) == [] && Obtained([], frames, p, false) == []
  {
  }

  lemma ObtainedConcat(one: seq<Constraint>, two: seq<Constraint>, frames: seq<Encoded>, p: int, linear: bool)
    requires p > 0
    ensures Obtained(one + two, frames, p, linear) == Obtained(one, frames, p, linear) + Obtained(two, frames, p,
            linear)
  {
    ReduceConcat(one, two, frames, p, linear);
  }

  lemma ObtainedSnoc(cs: seq<Constraint>, c: Constraint, frames: seq<Encoded>, p: int, linear: bool)
    requires p > 0
    ensures Obtained(cs + [c], frames, p, linear) ==
            Obtained(cs, frames, p, linear) + if IsLinear(Reduce(c, frames, p)) == linear then [Reduce(c, frames, p)]
              else []
  {
    hide Reduce, Sorted, IsLinear;
    assert ReduceAll(cs + [c], frames, p) == ReduceAll(cs, frames, p) + [Reduce(c, frames, p)];
    SortedSnoc(ReduceAll(cs, frames, p), Reduce(c, frames, p), linear);
  }

  /** Some constraints have been simplified into the store and the list of linear ones. */
  ghost predicate Walked(now: seq<Constraint>, start: seq<Constraint>, linear: seq<Constraint>, cs: seq<Constraint>,
                         frames: seq<Encoded>, p: int)
    requires p > 0
  {
    linear == Obtained(cs, frames, p, true) && now == start + Obtained(cs, frames, p, false)
  }

  lemma WalkedNothing(start: seq<Constraint>, frames: seq<Encoded>, p: int)
    requires p > 0
    ensures Walked(start, start, [], [], frames, p)
  {
    NothingObtained(frames, p);
  }

  lemma WalkedOne(now: seq<Constraint>, start: seq<Constraint>, linear: seq<Constraint>, cs: seq<Constraint>, n: nat,
                  frames: seq<Encoded>, p: int)
    requires p > 0 && n < |cs| && Walked(now, start, linear, cs[..n], frames, p)
    ensures var r := Reduce(cs[n], frames, p);
            if IsLinear(r) then Walked(now, start, linear + [r], cs[..n + 1], frames, p)
            else Walked(now + [r], start, linear, cs[..n + 1], frames, p)
  {
    hide Obtained, Reduce, IsLinear;
    assert cs[..n + 1] == cs[..n] + [cs[n]];
    ObtainedSnoc(cs[..n], cs[n], frames, p, true);
    ObtainedSnoc(cs[..n], cs[n], frames, p, false);
  }

  lemma WalkedMore(now: seq<Constraint>, middle: seq<Constraint>, start: seq<Constraint>, linear: seq<Constraint>,
                   more: seq<Constraint>,
                   one: seq<Constraint>, two: seq<Constraint>, frames: seq<Encoded>, p: int)
    requires p > 0 && Walked(middle, start, linear, one, frames, p) && Walked(now, middle, more, two, frames, p)
    ensures Walked(now, start, linear + more, one + two, frames, p)
  {
    hide Obtained;
    ObtainedConcat(one, two, frames, p, true);
    ObtainedConcat(one, two, frames, p, false);
  }

  /** The node's own constraints. */
  method SimplifyNode(constraints: seq<Constraint>, storage: ConstraintStorage, frames: seq<Encoded>, p: int)
    returns (linear: seq<Constraint>)
    requires p > 0 && forall i :: 0 <= i < |frames| ==> NonOverlapping(frames[i])
    modifies storage
    ensures Walked(storage.constraints, old(storage.constraints), linear, constraints, frames, p)
  {
    hide NonOverlapping, Framed, Fix, IsLinear, Walked;
    ghost var start := storage.constraints;
    linear := [];
    WalkedNothing(start, frames, p);
    assert constraints[..0] == [];
    for i := 0 to |constraints|
      invariant Walked(storage.constraints, start, linear, constraints[..i], frames, p)
    {
      var constraint := ApplyFrames(constraints[i], frames, p);
      constraint := Fix(constraint, p);
      WalkedOne(storage.constraints, start, linear, constraints, i, frames, p);
      if IsLinear(constraint) {
        linear := linear + [constraint];
      } else {
        var id := storage.AddConstraint(constraint);
      }
    }
    assert constraints[..|constraints|] == constraints;
  }

  /** The walk simplifies exactly the flattened circuit, each constraint once and in order. */
  method ObtainAndSimplifyNonLinear(enc: DAGEncoding, iter: EncodingIterator, storage: ConstraintStorage,
                                    frames: seq<Encoded>, p: int)
    returns (linear: seq<Constraint>)
    requires p > 0 && Positioned(enc, iter) && forall i :: 0 <= i < |frames| ==> NonOverlapping(frames[i])
    modifies storage
    ensures Walked(storage.constraints, old(storage.constraints), linear, Flat(enc, iter.nodeId, iter.offset), frames,
            p)
    decreases iter.nodeId
  {
    hide Offsets, NonOverlapping, Walked;
    ghost var start := storage.constraints;
    linear := SimplifyNode(iter.nonLinear, storage, frames, p);
    ghost var local := iter.nonLinear;
    var edges := enc.adjacency[iter.nodeId];
    FlatParts(enc, iter);
    for n := 0 to |edges|
      invariant Walked(storage.constraints, start, linear, local + FlatEdges(enc, iter.nodeId, iter.offset, n), frames,
                p)
    {
      ghost var middle := storage.constraints;
      var next := Next(enc, iter, edges[n]);
      var linearInNext := ObtainAndSimplifyNonLinear(enc, next, storage, frames, p);
      ghost var below, more := FlatEdges(enc, iter.nodeId, iter.offset, n),
        Flat(enc, edges[n].goesTo, iter.offset + edges[n].offset);
      WalkedMore(storage.constraints, middle, start, linear, linearInNext, local + below, more, frames, p);
      assert local + FlatEdges(enc, iter.nodeId, iter.offset, n + 1) == (local + below) + more;
      linear := linear + linearInNext;
    }
  }

  // ---- Relevant signals

  function Unwrapped(renames: Encoded, x: nat): nat {
    if x in renames && renames[x].Signal? then renames[x].symbol else x
  }

  /** The signals left in a list of constraints once renamed, except the deleted ones. */
  ghost function RelevantOf(cs: seq<Constraint>, renames: Encoded, deletes: Encoded): set<nat> {
    set c, x | c in cs && x in Signals(c) && Unwrapped(renames, x) !in deletes :: Unwrapped(renames, x)
  }

  lemma RelevantConcat(one: seq<Constraint>, two: seq<Constraint>, renames: Encoded, deletes: Encoded)
    ensures RelevantOf(one + two, renames, deletes) == RelevantOf(one, renames, deletes) + RelevantOf(two, renames,
            deletes)
  {
    hide Signals, Unwrapped;
    assert forall c :: c in one + two <==> c in one || c in two;
  }

  ghost function RelevantIn(signals: set<nat>, renames: Encoded, deletes: Encoded): set<nat> {
    set x | x in signals && Unwrapped(renames, x) !in deletes :: Unwrapped(renames, x)
  }

  lemma RelevantSnoc(cs: seq<Constraint>, c: Constraint, renames: Encoded, deletes: Encoded)
    ensures RelevantOf(cs + [c], renames, deletes) == RelevantOf(cs, renames, deletes) + RelevantIn(Signals(c),
            renames, deletes)
  {
    hide Signals, Unwrapped;
    RelevantConcat(cs, [c], renames, deletes);
    assert forall d :: d in [c] <==> d == c;
  }

  method RelevantSignals(c: Constraint, relevant: set<nat>, renames: Encoded, deletes: Encoded)
    returns (relevant': set<nat>)
    ensures relevant' == relevant + RelevantIn(Signals(c), renames, deletes)
  {
    relevant' := relevant;
    var signals := Signals(c);
    while signals != {}
      invariant signals <= Signals(c) && relevant' == relevant + RelevantIn(Signals(c) - signals, renames, deletes)
      decreases signals
    {
      var x :| x in signals;
      hide Signals;
      ghost var before := Signals(c) - signals;
      signals := signals - {x};
      RelevantNext(before, x, renames, deletes);
      assert Signals(c) - signals == before + {x};
      var signal := Unwrapped(renames, x);
      if signal !in deletes {
        relevant' := relevant' + {signal};
      }
    }
  }

  lemma RelevantNext(seen: set<nat>, x: nat, renames: Encoded, deletes: Encoded)
    ensures RelevantIn(seen + {x}, renames, deletes) ==
            RelevantIn(seen, renames, deletes) + if Unwrapped(renames, x) in deletes then {}
              else {Unwrapped(renames, x)}
  {
    hide Unwrapped;
  }

  lemma NothingRelevant(renames: Encoded, deletes: Encoded)
    ensures RelevantOf([], renames, deletes) == {}
  {
  }

  method BuildRelevantSet(enc: DAGEncoding, iter: EncodingIterator, relevant: set<nat>, renames: Encoded,
                          deletes: Encoded)
    returns (relevant': set<nat>)
    requires Positioned(enc, iter)
    ensures relevant' == relevant + RelevantOf(Flat(enc, iter.nodeId, iter.offset), renames, deletes)
    decreases iter.nodeId
  {
    hide Offsets, Signals, Unwrapped, RelevantOf, RelevantIn, Flat, FlatEdges;
    NothingRelevant(renames, deletes);
    relevant' := relevant;
    for i := 0 to |iter.nonLinear|
      invariant relevant' == relevant + RelevantOf(iter.nonLinear[..i], renames, deletes)
    {
      assert iter.nonLinear[..i + 1] == iter.nonLinear[..i] + [iter.nonLinear[i]];
      RelevantSnoc(iter.nonLinear[..i], iter.nonLinear[i], renames, deletes);
      relevant' := RelevantSignals(iter.nonLinear[i], relevant', renames, deletes);
    }
    ghost var local := iter.nonLinear;
    assert iter.nonLinear[..|local|] == local;
    var edges := enc.adjacency[iter.nodeId];
    FlatParts(enc, iter);
    for n := 0 to |edges|
      invariant relevant' == relevant + RelevantOf(local + FlatEdges(enc, iter.nodeId, iter.offset, n), renames,
                deletes)
    {
      var next := Next(enc, iter, edges[n]);
      relevant' := BuildRelevantSet(enc, next, relevant', renames, deletes);
      RelevantEdge(enc, iter.nodeId, iter.offset, n, local, renames, deletes);
    }
  }

  lemma FlatParts(enc: DAGEncoding, iter: EncodingIterator)
    requires Positioned(enc, iter)
    ensures iter.nonLinear + FlatEdges(enc, iter.nodeId, iter.offset, 0) == iter.nonLinear
    ensures Flat(enc, iter.nodeId, iter.offset) ==
            iter.nonLinear + FlatEdges(enc, iter.nodeId, iter.offset, |enc.adjacency[iter.nodeId]|)
  {
    hide Offsets;
  }

  lemma RelevantEdge(enc: DAGEncoding, node: nat, offset: nat, n: nat, local: seq<Constraint>, renames: Encoded,
                     deletes: Encoded)
    requires WellFormedDag(enc) && node < |enc.nodes| && n < |enc.adjacency[node]|
    ensures var edge := enc.adjacency[node][n];
            && edge.goesTo < |enc.nodes|
            && RelevantOf(local + FlatEdges(enc, node, offset, n + 1), renames, deletes) ==
               RelevantOf(local + FlatEdges(enc, node, offset, n), renames, deletes) +
                 RelevantOf(Flat(enc, edge.goesTo, offset + edge.offset), renames, deletes)
  {
    hide RelevantOf, Flat;
    var edge := enc.adjacency[node][n];
    var below, more := FlatEdges(enc, node, offset, n), Flat(enc, edge.goesTo, offset + edge.offset);
    assert local + FlatEdges(enc, node, offset, n + 1) == (local + below) + more;
    RelevantConcat(local + below, more, renames, deletes);
  }

  function Pruned(substitutions: Encoded, relevant: set<nat>): Encoded {
    map k | k in substitutions && k in relevant :: substitutions[k]
  }

  method RemoveNotRelevant(substitutions: Encoded, relevant: set<nat>) returns (r: Encoded)
    ensures r == Pruned(substitutions, relevant)
  {
    r := substitutions;
    var signals := substitutions.Keys;
    while signals != {}
      invariant signals <= substitutions.Keys
      invariant r.Keys == signals + (set k | k in substitutions && k in relevant)
      invariant forall k :: k in r ==> k in substitutions && r[k] == substitutions[k]
      decreases signals
    {
      var signal :| signal in signals;
      signals := signals - {signal};
      if signal !in relevant {
        r := r - {signal};
      }
    }
  }
}
