/** Renumbering the surviving signals (rebuild_witness in constraint_simplification.rs,
    get_witness_as_vec in constraint_list/src/lib.rs, apply_raw_correspondence in algebra.rs). */
module Witness {
  import opened Field
  import opened LinearCombination
  import opened Constraints
  import opened Storage

  type SignalMap = map<nat, nat>

  /** A signal survives if it was not eliminated and is either forbidden or used by some constraint. */
  predicate Survives(x: nat, deleted: set<nat>, forbidden: set<nat>, index: SignalToConstraints) {
    x !in deleted && (x in forbidden || x in index)
  }

  /** How many survivors precede a signal. */
  function Rank(x: nat, deleted: set<nat>, forbidden: set<nat>, index: SignalToConstraints): (r: nat)
    ensures r <= x
  {
    if x == 0 then 0 else
      Rank(x - 1, deleted, forbidden, index) + if Survives(x - 1, deleted, forbidden, index) then 1 else 0
  }

  /** The queue of free positions: all those from the survivor count up to the current signal. */
  ghost predicate Interval(free: seq<nat>, low: nat, high: nat) {
    low <= high && |free| == high - low && forall i :: 0 <= i < |free| ==> free[i] == low + i
  }

  /** Signal x has been renumbered as its rank among the survivors, or deleted. */
  ghost predicate Renumbered(signalMap: SignalMap, deleted': set<nat>, n: nat, deleted: set<nat>, forbidden: set<nat>,
                             index: SignalToConstraints) {
    && (forall x: nat :: x in signalMap <==> x < n && Survives(x, deleted, forbidden, index))
    && (forall x :: x in signalMap ==> signalMap[x] == Rank(x, deleted, forbidden, index))
    && (forall x: nat :: x in deleted' <==> x in deleted || (x < n && !Survives(x, deleted, forbidden, index)))
  }

  lemma RenumberKept(m: SignalMap, gone: set<nat>, n: nat, deleted: set<nat>, forbidden: set<nat>,
                     index: SignalToConstraints)
    requires Renumbered(m, gone, n, deleted, forbidden, index) && Survives(n, deleted, forbidden, index)
    ensures var next := m[n := Rank(n, deleted, forbidden, index)];
            && Renumbered(next, gone, n + 1, deleted, forbidden, index) && |next| == |m| + 1
            && Rank(n + 1, deleted, forbidden, index) == Rank(n, deleted, forbidden, index) + 1
  {
    hide Survives, Rank;
    RankNext(n, deleted, forbidden, index);
    assert n !in m;
    var next := m[n := Rank(n, deleted, forbidden, index)];
    assert next.Keys == m.Keys + {n} && |next| == |next.Keys| && |m| == |m.Keys|;
  }

  lemma RankNext(n: nat, deleted: set<nat>, forbidden: set<nat>, index: SignalToConstraints)
    requires Survives(n, deleted, forbidden, index)
    ensures Rank(n + 1, deleted, forbidden, index) == Rank(n, deleted, forbidden, index) + 1
  {
    hide Survives;
  }

  lemma RenumberGone(m: SignalMap, gone: set<nat>, n: nat, deleted: set<nat>, forbidden: set<nat>,
                     index: SignalToConstraints)
    requires Renumbered(m, gone, n, deleted, forbidden, index) && !Survives(n, deleted, forbidden, index)
    ensures Renumbered(m, gone + {n}, n + 1, deleted, forbidden, index)
    ensures n in deleted ==> Renumbered(m, gone, n + 1, deleted, forbidden, index)
    ensures Rank(n + 1, deleted, forbidden, index) == Rank(n, deleted, forbidden, index)
  {
    hide Survives;
  }

  lemma NotYet(m: SignalMap, gone: set<nat>, n: nat, deleted: set<nat>, forbidden: set<nat>, index: SignalToConstraints)
    requires Renumbered(m, gone, n, deleted, forbidden, index)
    ensures n in gone <==> n in deleted
  {
  }

  lemma RenumberNone(deleted: set<nat>, forbidden: set<nat>, index: SignalToConstraints)
    ensures Renumbered(map[], deleted, 0, deleted, forbidden, index) && Rank(0, deleted, forbidden, index) == 0 &&
            Interval([], 0, 0)
  {
  }

  lemma IntervalPush(free: seq<nat>, low: nat, high: nat)
    requires Interval(free, low, high)
    ensures Interval(free + [high], low, high + 1)
    ensures free != [] ==> free[0] == low && Interval(free[1..] + [high], low + 1, high + 1)
    ensures free == [] ==> low == high && Interval(free, low + 1, high + 1)
  {
  }

  method RebuildWitness(maxSignal: nat, deleted: set<nat>, forbidden: set<nat>, index: SignalToConstraints)
    returns (signalMap: SignalMap, deleted': set<nat>)
    ensures Renumbered(signalMap, deleted', maxSignal, deleted, forbidden, index)
    ensures |signalMap| == Rank(maxSignal, deleted, forbidden, index)
  {
    hide Renumbered, Rank, Interval;
    signalMap, deleted' := map[], deleted;
    var free: seq<nat> := [];
    RenumberNone(deleted, forbidden, index);
    for signal := 0 to maxSignal
      invariant Renumbered(signalMap, deleted', signal, deleted, forbidden, index)
      invariant |signalMap| == Rank(signal, deleted, forbidden, index)
      invariant Interval(free, Rank(signal, deleted, forbidden, index), signal)
    {
      ghost var rank := Rank(signal, deleted, forbidden, index);
      IntervalPush(free, rank, signal);
      NotYet(signalMap, deleted', signal, deleted, forbidden, index);
      if Survives(signal, deleted, forbidden, index) {
        RenumberKept(signalMap, deleted', signal, deleted, forbidden, index);
      } else {
        RenumberGone(signalMap, deleted', signal, deleted, forbidden, index);
      }
      if signal in deleted' {
        free := free + [signal];
      } else if signal !in forbidden && signal !in index {
        deleted' := deleted' + {signal};
        free := free + [signal];
      } else if free != [] {
        signalMap := signalMap[signal := free[0]];
        free := free[1..] + [signal];
      } else {
        signalMap := signalMap[signal := signal];
      }
    }
  }

  // ---- The ranks are an increasing bijection

  lemma {:induction false} RankMonotone(x: nat, y: nat, deleted: set<nat>, forbidden: set<nat>,
                                        index: SignalToConstraints)
    requires x < y && Survives(x, deleted, forbidden, index)
    ensures Rank(x, deleted, forbidden, index) < Rank(y, deleted, forbidden, index)
    decreases y
  {
    if x < y - 1 { RankMonotone(x, y - 1, deleted, forbidden, index); }
  }

  lemma {:induction false} RankOnto(position: nat, max: nat, deleted: set<nat>, forbidden: set<nat>,
                                    index: SignalToConstraints) returns (x: nat)
    requires position < Rank(max, deleted, forbidden, index)
    ensures x < max && Survives(x, deleted, forbidden, index) && Rank(x, deleted, forbidden, index) == position
    decreases max
  {
    if Rank(max - 1, deleted, forbidden, index) > position {
      x := RankOnto(position, max - 1, deleted, forbidden, index);
    } else {
      x := max - 1;
    }
  }

  /** A prefix of forbidden signals that no step eliminated keeps its numbers. */
  lemma {:induction false} PrefixFixed(n: nat, x: nat, deleted: set<nat>, forbidden: set<nat>,
                                       index: SignalToConstraints)
    requires x <= n && forall k :: 0 <= k < n ==> k in forbidden && k !in deleted
    ensures Rank(x, deleted, forbidden, index) == x
    decreases x
  {
    if x > 0 { PrefixFixed(n, x - 1, deleted, forbidden, index); }
  }

  /** An increasing bijection from the surviving signals onto 0..n. */
  ghost predicate Numbering(m: SignalMap) {
    && (forall x, y :: x in m && y in m && x < y ==> m[x] < m[y])
    && (forall x :: x in m ==> m[x] < |m|)
    && (forall i: nat :: i < |m| ==> Taken(m, i))
  }

  ghost predicate Taken(m: SignalMap, i: nat) {
    exists x :: x in m && m[x] == i
  }

  lemma RenumberedNumbering(m: SignalMap, deleted': set<nat>, max: nat, deleted: set<nat>, forbidden: set<nat>,
                            index: SignalToConstraints)
    requires Renumbered(m, deleted', max, deleted, forbidden, index) && |m| == Rank(max, deleted, forbidden, index)
    ensures Numbering(m)
  {
    hide Rank, Survives;
    forall x, y | x in m && y in m && x < y
      ensures m[x] < m[y]
    {
      RankMonotone(x, y, deleted, forbidden, index);
    }
    forall x | x in m
      ensures m[x] < |m|
    {
      RankMonotone(x, max, deleted, forbidden, index);
    }
    forall i: nat | i < |m|
      ensures Taken(m, i)
    {
      var x := RankOnto(i, max, deleted, forbidden, index);
    }
  }

  /** The inverse of the map as a vector: position i holds the signal numbered i. */
  method GetWitnessAsVec(signalMap: SignalMap) returns (wires: array<nat>)
    requires Numbering(signalMap)
    ensures wires.Length == |signalMap|
    ensures forall x :: x in signalMap ==> wires[signalMap[x]] == x
    ensures forall i :: 0 <= i < wires.Length ==> wires[i] in signalMap && signalMap[wires[i]] == i
  {
    wires := new nat[|signalMap|](i => 0);
    var pending := signalMap.Keys;
    while pending != {}
      invariant pending <= signalMap.Keys
      invariant forall x :: x in signalMap && x !in pending ==> wires[signalMap[x]] == x
      decreases pending
    {
      var key :| key in pending;
      pending := pending - {key};
      NumberingInjective(signalMap, key);
      wires[signalMap[key]] := key;
    }
    forall i | 0 <= i < wires.Length
      ensures wires[i] in signalMap && signalMap[wires[i]] == i
    {
      assert Taken(signalMap, i);
    }
  }

  lemma NumberingInjective(m: SignalMap, x: nat)
    requires Numbering(m) && x in m
    ensures forall y :: y in m && m[y] == m[x] ==> y == x
  {
    assert forall y :: y in m && y < x ==> m[y] < m[x];
  }

  // ---- Renaming constraints

  /** Different signals have different names, and only the constant wire is called zero. */
  ghost predicate Injective(names: SignalMap) {
    && (forall x, y :: x in names && y in names && names[x] == names[y] ==> x == y)
    && (forall x :: x in names ==> (names[x] == 0 <==> x == 0))
  }

  lemma NumberingIsInjective(names: SignalMap)
    requires Numbering(names) && 0 in names && names[0] == 0
    ensures Injective(names)
  {
    forall x, y | x in names && y in names && names[x] == names[y]
      ensures x == y
    {
      NumberingInjective(names, x);
    }
  }

  predicate Known(m: LC, names: SignalMap) {
    forall k :: k in m && k != 0 ==> k in names
  }

  function NewName(k: nat, names: SignalMap): nat
    requires k != 0 ==> k in names
  {
    if k == 0 then 0 else names[k]
  }

  function Rename(m: LC, names: SignalMap): LC
    requires Injective(names) && Known(m, names)
  {
    map k | k in m :: NewName(k, names) := m[k]
  }

  /** None where the source panics on an unknown signal. */
  function ApplyCorrespondence(c: Constraint, names: SignalMap): Option<Constraint>
    requires Injective(names)
  {
    if Known(c.a, names) && Known(c.b, names) && Known(c.c, names)
    then Some(Constraint(Rename(c.a, names), Rename(c.b, names), Rename(c.c, names)))
    else None
  }

  /** A witness over the new numbers, read through the map. */
  ghost function Through(w: Assignment, names: SignalMap): Assignment {
    (k: nat) => if k in names then w(names[k]) else 0
  }

  lemma RenamedAt(m: LC, names: SignalMap, k: nat)
    requires Injective(names) && Known(m, names) && k in m
    ensures NewName(k, names) in Rename(m, names) && Rename(m, names)[NewName(k, names)] == m[k]
    ensures forall l :: l in m && NewName(l, names) == NewName(k, names) ==> l == k
  {
  }

  lemma RenamedFrom(m: LC, names: SignalMap, i: nat) returns (k: nat)
    requires Injective(names) && Known(m, names) && i in Rename(m, names)
    ensures k in m && NewName(k, names) == i
  {
    k :| k in m && NewName(k, names) == i;
  }

  lemma RenamedWithout(m: LC, names: SignalMap, k: nat, i: nat)
    requires Injective(names) && Known(m, names) && Known(m - {k}, names) && k in m
    ensures i in Rename(m - {k}, names) <==> i in Rename(m, names) && i != NewName(k, names)
    ensures i in Rename(m - {k}, names) ==> Rename(m - {k}, names)[i] == Rename(m, names)[i]
  {
    hide Rename, Injective;
    RenamedAt(m, names, k);
    if i in Rename(m, names) && i != NewName(k, names) {
      var l := RenamedFrom(m, names, i);
      RenamedAt(m - {k}, names, l);
    }
    if i in Rename(m - {k}, names) {
      var l := RenamedFrom(m - {k}, names, i);
      RenamedAt(m, names, l);
      RenamedAt(m - {k}, names, l);
    }
  }

  lemma RenameStep(m: LC, names: SignalMap, k: nat)
    requires Injective(names) && Known(m, names) && k in m
    ensures NewName(k, names) in Rename(m, names) && Rename(m, names)[NewName(k, names)] == m[k]
    ensures Known(m - {k}, names) && Rename(m, names) - {NewName(k, names)} == Rename(m - {k}, names)
  {
    assert Known(m - {k}, names);
    hide Rename, Injective, Known;
    RenamedAt(m, names, k);
    var without, rest := Rename(m, names) - {NewName(k, names)}, Rename(m - {k}, names);
    forall i: nat
      ensures i in without <==> i in rest
      ensures i in rest ==> without[i] == rest[i]
    {
      RenamedWithout(m, names, k, i);
    }
    assert without.Keys == rest.Keys;
  }

  lemma {:induction false} DotRename(m: LC, names: SignalMap, w: Assignment)
    requires Injective(names) && Known(m, names)
    ensures Dot(Rename(m, names), w) == Dot(m, Through(w, names))
    decreases m.Keys
  {
    if m == map[] {
      assert Rename(m, names) == map[];
    } else {
      var k :| k in m;
      assert k !in (m - {k}).Keys;
      hide Dot, Rename, Known, Injective;
      RenameStep(m, names, k);
      DotStep(m, Through(w, names), k);
      DotStep(Rename(m, names), w, NewName(k, names));
      DotRename(m - {k}, names, w);
    }
  }

  /** Renaming succeeds exactly on constraints over known signals, and then keeps satisfaction. */
  lemma CorrespondenceMeaning(c: Constraint, names: SignalMap, w: Assignment, p: int)
    requires Injective(names)
    ensures ApplyCorrespondence(c, names).Some? <==> Signals(c) <= names.Keys
    ensures ApplyCorrespondence(c, names).Some? ==>
              (Sat(ApplyCorrespondence(c, names).value, w, p) <==> Sat(c, Through(w, names), p))
  {
    hide Dot, Cong, Rename, Known, Through;
    KnownSignals(c, names);
    if Signals(c) <= names.Keys {
      DotRename(c.a, names, w);
      DotRename(c.b, names, w);
      DotRename(c.c, names, w);
    }
  }

  lemma KnownSignals(c: Constraint, names: SignalMap)
    ensures Known(c.a, names) && Known(c.b, names) && Known(c.c, names) <==> Signals(c) <= names.Keys
  {
    assert forall k :: k in Signals(c) <==> k != 0 && (k in c.a || k in c.b || k in c.c);
  }

  // ---- Private inputs

  /** The private inputs left: no deleted signal is subtracted that is not a private input. */
  method CountPrivateInputs(deleted: set<nat>, noPublicOutputs: nat, noPublicInputs: nat, noPrivateInputs: nat)
    returns (left: nat)
    requires forall x :: 1 <= x <= noPublicOutputs + noPublicInputs ==> x !in deleted
    ensures left == InputsLeft(noPublicOutputs + noPublicInputs, noPrivateInputs, deleted)
  {
    hide InputsLeft, Private, Counted;
    var deletedInputs := CountDeleted(deleted, noPublicOutputs, noPublicInputs, noPrivateInputs);
    PrivateLeft(noPublicOutputs + noPublicInputs, noPrivateInputs, deleted, {});
    left := noPrivateInputs - deletedInputs;
  }

  method CountDeleted(deleted: set<nat>, noPublicOutputs: nat, noPublicInputs: nat, noPrivateInputs: nat)
    returns (deletedInputs: nat)
    requires forall x :: 1 <= x <= noPublicOutputs + noPublicInputs ==> x !in deleted
    ensures deletedInputs == Counted(Private(noPublicOutputs + noPublicInputs, noPrivateInputs), deleted, {})
  {
    hide Private, Counted;
    var maxValueInput := noPublicOutputs + noPublicInputs + noPrivateInputs;
    ghost var private := Private(noPublicOutputs + noPublicInputs, noPrivateInputs);
    deletedInputs := 0;
    var pending := deleted;
    CountNone(private, deleted);
    while pending != {}
      invariant pending <= deleted && deletedInputs == Counted(private, deleted, pending)
      decreases pending
    {
      var signal :| signal in pending;
      CountNext(private, deleted, pending, signal);
      assert signal in private <==> noPublicOutputs + noPublicInputs < signal <= maxValueInput;
      pending := pending - {signal};
      if noPublicOutputs + 1 <= signal <= maxValueInput {
        deletedInputs := deletedInputs + 1;
      }
    }
  }

  lemma PrivateLeft(first: nat, n: nat, deleted: set<nat>, pending: set<nat>)
    requires pending == {}
    ensures n == Counted(Private(first, n), deleted, pending) + InputsLeft(first, n, deleted)
  {
    assert deleted - pending == deleted;
    PrivateSize(first, n);
    Partition(Private(first, n), deleted);
  }

  ghost function Counted(private: set<nat>, deleted: set<nat>, pending: set<nat>): nat {
    |private * (deleted - pending)|
  }

  lemma CountNone(private: set<nat>, deleted: set<nat>)
    ensures Counted(private, deleted, deleted) == 0
  {
    assert private * (deleted - deleted) == {};
  }

  lemma CountNext(private: set<nat>, deleted: set<nat>, pending: set<nat>, x: nat)
    requires x in pending && pending <= deleted
    ensures Counted(private, deleted, pending - {x}) == Counted(private, deleted, pending) + if x in private then 1
            else 0
  {
    var before := private * (deleted - pending);
    assert private * (deleted - (pending - {x})) == if x in private then before + {x} else before;
    assert x !in before;
  }

  ghost function Private(first: nat, n: nat): (r: set<nat>)
    ensures forall x :: x in r <==> first < x <= first + n
  {
    if n == 0 then {} else Private(first, n - 1) + {first + n}
  }

  /** How many private inputs are left. */
  ghost function InputsLeft(first: nat, n: nat, deleted: set<nat>): nat {
    |Private(first, n) - deleted|
  }

  lemma {:induction false} PrivateSize(first: nat, n: nat)
    ensures |Private(first, n)| == n
  {
    if n > 0 {
      var before := Private(first, n - 1);
      PrivateSize(first, n - 1);
      assert Private(first, n) == before + {first + n};
      hide Private;
      assert first + n !in before;
    }
  }

  lemma Partition(a: set<nat>, b: set<nat>)
    ensures |a| == |a * b| + |a - b|
  {
    assert a == a * b + (a - b) && (a * b) !! (a - b);
  }
}
