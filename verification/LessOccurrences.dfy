/** The heuristic that eliminates the signal with fewest occurrences first
    (simplification_utils.rs, the functions numbered 4). */
module LessOccurrences {
  import opened Field
  import opened LinearCombination
  import opened Constraints
  import opened Elimination
  import opened SimplificationUtils
  import opened SortedSets

  class SignalDefinition4 {
    const forbidden: set<nat>
    var deletedSymbols: set<nat>
    var orderSignals: seq<nat>  // the last eliminated is the first in the list

    constructor (forbidden: set<nat>)
      ensures this.forbidden == forbidden && deletedSymbols == {} && orderSignals == []
    {
      this.forbidden := forbidden;
      deletedSymbols, orderSignals := {}, [];
    }

    predicate CanBeTaken(k: nat) {
      k !in forbidden
    }

    predicate IsDeleted(k: nat)
      reads this
    {
      k in deletedSymbols
    }

    method Delete(k: nat)
      modifies this
      ensures deletedSymbols == old(deletedSymbols) + {k} && orderSignals == [k] + old(orderSignals)
    {
      deletedSymbols := deletedSymbols + {k};
      orderSignals := [k] + orderSignals;
    }
  }

  // ---- Occurrence counters

  /** The number of constraints that mention k. */
  ghost function Count(cs: seq<Constraint>, k: nat): nat {
    if cs == [] then 0 else Count(cs[..|cs| - 1], k) + if k in cs[|cs| - 1].c then 1 else 0
  }

  lemma CountAppend(cs: seq<Constraint>, c: Constraint, k: nat)
    ensures Count(cs + [c], k) == Count(cs, k) + if k in c.c then 1 else 0
  {
    assert (cs + [c])[..|cs|] == cs;
  }

  lemma {:induction false} CountReplace(cs: seq<Constraint>, i: nat, k: nat)
    requires i < |cs|
    ensures Count(cs[i := EMPTY], k) == Count(cs, k) - if k in cs[i].c then 1 else 0
    ensures k in cs[i].c ==> Count(cs, k) >= 1
  {
    var n := |cs| - 1;
    if i == n {
      assert cs[i := EMPTY][..n] == cs[..n];
    } else {
      assert cs[i := EMPTY][..n] == cs[..n][i := EMPTY];
      CountReplace(cs[..n], i, k);
    }
  }

  lemma {:induction false} CountWitness(cs: seq<Constraint>, k: nat) returns (i: nat)
    requires Count(cs, k) > 0
    ensures i < |cs| && k in cs[i].c
  {
    i := |cs| - 1;
    if k !in cs[i].c {
      var n := i;
      i := CountWitness(cs[..n], k);
      assert cs[..n][i] == cs[i];
    }
  }

  lemma CountPositive(cs: seq<Constraint>, k: nat)
    ensures Count(cs, k) > 0 <==> exists i :: 0 <= i < |cs| && k in cs[i].c
  {
    if Count(cs, k) > 0 {
      var i := CountWitness(cs, k);
    }
    forall i | 0 <= i < |cs| && k in cs[i].c
      ensures Count(cs, k) > 0
    {
      CountReplace(cs, i, k);
    }
  }

  /** A signal counted once is in one constraint only. */
  lemma CountOnce(cs: seq<Constraint>, k: nat, i: nat, j: nat)
    requires i < |cs| && j < |cs| && k in cs[i].c && k in cs[j].c && Count(cs, k) == 1
    ensures i == j
  {
    if i != j {
      CountReplace(cs, i, k);
      assert k in cs[i := EMPTY][j].c;
      CountPositive(cs[i := EMPTY], k);
    }
  }

  /** Every tracked signal's counter is the number of unprocessed constraints that mention it. */
  ghost predicate Counted(occurrences: map<nat, nat>, cs: seq<Constraint>, tracked: set<nat>) {
    occurrences.Keys == tracked && forall k :: k in tracked ==> occurrences[k] == Count(cs, k)
  }

  class SignalsInformation {
    var signalToOccurrences: map<nat, nat>

    constructor (signalToOccurrences: map<nat, nat>)
      ensures this.signalToOccurrences == signalToOccurrences
    {
      this.signalToOccurrences := signalToOccurrences;
    }

    /** Forget one constraint; no counter may already be at zero. */
    method RemoveConstraint(constraint: Constraint, signals: SignalDefinition4)
      requires forall k :: k in constraint.c && k !in signals.forbidden && k in signalToOccurrences ==>
               signalToOccurrences[k] > 0
      modifies this
      ensures signalToOccurrences == Decremented(old(signalToOccurrences), constraint.c.Keys - signals.forbidden)
    {
      ghost var before := signalToOccurrences;
      var pending := constraint.c.Keys;
      ghost var done: set<nat> := {};
      while pending != {}
        invariant pending !! done && pending + done == constraint.c.Keys
        invariant signalToOccurrences.Keys == before.Keys
        invariant forall k :: k in before ==>
                    signalToOccurrences[k] == if k in done && k !in signals.forbidden then before[k] - 1 else before[k]
        decreases pending
      {
        var k :| k in pending;
        pending, done := pending - {k}, done + {k};
        if signals.CanBeTaken(k) {
          if k in signalToOccurrences {
            signalToOccurrences := signalToOccurrences[k := signalToOccurrences[k] - 1];
          }
        }
      }
    }

    method RemoveSignal(signal: nat)
      modifies this
      ensures signalToOccurrences == old(signalToOccurrences) - {signal}
    {
      signalToOccurrences := signalToOccurrences - {signal};
    }
  }

  ghost function Decremented(occurrences: map<nat, nat>, gone: set<nat>): map<nat, int> {
    map k | k in occurrences :: if k in gone then occurrences[k] - 1 else occurrences[k]
  }

  /** The takable signals a sequence of constraints mentions. */
  ghost function Takable(cs: seq<Constraint>, forbidden: set<nat>): set<nat> {
    set c, k | c in cs && k in c.c && k !in forbidden :: k
  }

  ghost function Bumped(occurrences: map<nat, nat>, seen: set<nat>): map<nat, nat> {
    map k | k in occurrences.Keys + seen ::
      (if k in occurrences then occurrences[k] else 0) + (if k in seen then 1 else 0)
  }

  lemma BumpedNothing(occurrences: map<nat, nat>, seen: set<nat>)
    requires seen == {}
    ensures Bumped(occurrences, seen) == occurrences
  {
  }

  lemma BumpedNext(occurrences: map<nat, nat>, seen: set<nat>, k: nat)
    requires k !in seen
    ensures var before := Bumped(occurrences, seen);
            Bumped(occurrences, seen + {k}) == before[k := if k in before then before[k] + 1 else 1]
    ensures Bumped(occurrences, seen + {}) == Bumped(occurrences, seen)
  {
    assert seen + {} == seen;
  }

  lemma TakenNext(done: set<nat>, forbidden: set<nat>, k: nat)
    ensures done + {k} - forbidden == (done - forbidden) + (if k in forbidden then {} else {k})
  {
  }

  /** Count one constraint's takable signals, remembering where a signal was first met. */
  method CountConstraint(occurrences: map<nat, nat>, rep: map<nat, nat>, constraint: Constraint, pos: nat,
                         signals: SignalDefinition4)
    returns (occurrences': map<nat, nat>, rep': map<nat, nat>)
    requires rep.Keys == occurrences.Keys
    ensures occurrences' == Bumped(occurrences, constraint.c.Keys - signals.forbidden)
    ensures rep'.Keys == occurrences'.Keys
    ensures forall k :: k in rep' ==> rep'[k] == if k in rep then rep[k] else pos
  {
    occurrences', rep' := occurrences, rep;
    var pending := constraint.c.Keys;
    ghost var done: set<nat> := {};
    BumpedNothing(occurrences, done - signals.forbidden);
    hide Bumped;
    while pending != {}
      invariant pending !! done && pending + done == constraint.c.Keys
      invariant occurrences' == Bumped(occurrences, done - signals.forbidden)
      invariant rep'.Keys == occurrences'.Keys
      invariant forall k :: k in rep' ==> rep'[k] == if k in rep then rep[k] else pos
      decreases pending
    {
      var k :| k in pending;
      BumpedNext(occurrences, done - signals.forbidden, k);
      TakenNext(done, signals.forbidden, k);
      pending, done := pending - {k}, done + {k};
      if signals.CanBeTaken(k) {
        if k in occurrences' {
          occurrences' := occurrences'[k := occurrences'[k] + 1];
        } else {
          occurrences' := occurrences'[k := 1];
          rep' := rep'[k := pos];
        }
      }
    }
    assert done == constraint.c.Keys;
  }

  ghost predicate CountedUpTo(occurrences: map<nat, nat>, cs: seq<Constraint>, pos: nat, forbidden: set<nat>)
    requires pos <= |cs|
  {
    Counted(occurrences, cs[..pos], Takable(cs[..pos], forbidden))
  }

  lemma CountedNext(occurrences: map<nat, nat>, all: seq<Constraint>, pos: nat, forbidden: set<nat>)
    requires pos < |all| && CountedUpTo(occurrences, all, pos, forbidden)
    ensures CountedUpTo(Bumped(occurrences, all[pos].c.Keys - forbidden), all, pos + 1, forbidden)
  {
    hide Takable, Count;
    var cs, c := all[..pos], all[pos];
    assert all[..pos + 1] == cs + [c];
    TakableNext(cs, c, forbidden);
    forall k | k in Takable(cs + [c], forbidden)
      ensures Bumped(occurrences, c.c.Keys - forbidden)[k] == Count(cs + [c], k)
    {
      CountAppend(cs, c, k);
      if k !in occurrences { UnknownUncounted(cs, k, forbidden); }
    }
  }

  lemma TakableNext(cs: seq<Constraint>, c: Constraint, forbidden: set<nat>)
    ensures Takable(cs + [c], forbidden) == Takable(cs, forbidden) + (c.c.Keys - forbidden)
    ensures Takable(cs + [c], forbidden) !! forbidden
  {
    assert forall d :: d in cs + [c] <==> d in cs || d == c;
  }

  /** Count the occurrences of every takable signal, and find the constraint of those that occur once. */
  method CountOccurrences(constraints: seq<Constraint>, signals: SignalDefinition4)
    returns (occurrences: map<nat, nat>, uniques: map<nat, nat>)
    ensures Counted(occurrences, constraints, Takable(constraints, signals.forbidden))
    ensures forall k :: k in uniques <==> k in occurrences && occurrences[k] == 1
    ensures forall k :: k in uniques ==> uniques[k] < |constraints| && k in constraints[uniques[k]].c
  {
    occurrences := map[];
    var rep: map<nat, nat> := map[];
    for pos := 0 to |constraints|
      invariant rep.Keys == occurrences.Keys
      invariant CountedUpTo(occurrences, constraints, pos, signals.forbidden)
      invariant forall k :: k in rep ==> rep[k] < pos && k in constraints[rep[k]].c
    {
      hide CountedUpTo;
      CountedNext(occurrences, constraints, pos, signals.forbidden);
      occurrences, rep := CountConstraint(occurrences, rep, constraints[pos], pos, signals);
    }
    assert constraints[..|constraints|] == constraints;
    uniques := map k | k in occurrences && occurrences[k] == 1 :: rep[k];
  }

  lemma UnknownUncounted(cs: seq<Constraint>, k: nat, forbidden: set<nat>)
    requires k !in Takable(cs, forbidden) && k !in forbidden
    ensures Count(cs, k) == 0
  {
    CountPositive(cs, k);
  }

  // ---- Elimination order and the termination measure

  /** Read from the latest deletion back: a stored right-hand side mentions, among all defined
      signals, only those deleted later than its own. `known` holds those seen so far. */
  ghost predicate Ordered(h: Holder, order: seq<nat>, known: set<nat>) {
    order == [] ||
    (&& order[0] in h && order[0] !in known
     && h[order[0]].sub.to.Keys * h.Keys <= known
     && Ordered(h, order[1..], known + {order[0]}))
  }

  /** Deletion bookkeeping: the definitions are exactly the deleted signals, in deletion order. */
  ghost predicate InOrder(h: Holder, order: seq<nat>, deleted: set<nat>) {
    && h.Keys == deleted
    && (forall k :: k in order <==> k in deleted)
    && Ordered(h, order, {})
  }

  lemma {:induction false} OrderedFresh(h: Holder, order: seq<nat>, known: set<nat>)
    requires Ordered(h, order, known)
    ensures forall k :: k in order ==> k !in known && k in h
  {
    if order != [] {
      OrderedFresh(h, order[1..], known + {order[0]});
      assert forall k :: k in order ==> k == order[0] || k in order[1..];
    }
  }

  lemma {:induction false} OrderedExtend(h: Holder, order: seq<nat>, known: set<nat>, k: nat, e: Entry)
    requires Ordered(h, order, known) && k !in h
    ensures Ordered(h[k := e], order, known + {k})
  {
    if order != [] {
      OrderedExtend(h, order[1..], known + {order[0]}, k, e);
      assert known + {order[0]} + {k} == known + {k} + {order[0]};
    }
  }

  /** Storing a definition that mentions no deleted signal keeps the order. */
  lemma OrderedPush(h: Holder, order: seq<nat>, deleted: set<nat>, k: nat, e: Entry)
    requires InOrder(h, order, deleted) && k !in deleted
    requires e.sub.to.Keys !! deleted && k !in e.sub.to
    ensures InOrder(h[k := e], [k] + order, deleted + {k})
  {
    OrderedExtend(h, order, {}, k, e);
    assert {} + {k} == {k};
    assert ([k] + order)[1..] == order;
    assert e.sub.to.Keys * h[k := e].Keys <= {};
  }

  /** The deleted signals among `keys` read as a binary number, the earliest deletion as top bit. */
  ghost function Weight(order: seq<nat>, keys: set<nat>): nat {
    if order == [] then 0 else (if order[0] in keys then 1 else 0) + 2 * Weight(order[1..], keys)
  }

  lemma {:induction false} WeightMonotone(order: seq<nat>, keys: set<nat>, more: set<nat>)
    requires forall k :: k in order && k in keys ==> k in more
    ensures Weight(order, keys) <= Weight(order, more)
  {
    if order != [] {
      assert forall k :: k in order[1..] ==> k in order;
      WeightMonotone(order[1..], keys, more);
    }
  }

  /** Merging over a deleted signal trades its bit for later, lower ones: the number decreases. */
  lemma {:induction false} WeightDrops(h: Holder, order: seq<nat>, known: set<nat>, out: nat, keys: set<nat>,
                                       next: set<nat>)
    requires Ordered(h, order, known) && out in order && out in keys && out in h && out !in h[out].sub.to
    requires next <= (keys - {out}) + h[out].sub.to.Keys
    ensures Weight(order, next) < Weight(order, keys)
  {
    OrderedFresh(h, order, known);
    if order[0] == out {
      forall k | k in order[1..] && k in next
        ensures k in keys
      {
        OrderedFresh(h, order[1..], known + {order[0]});
      }
      WeightMonotone(order[1..], next, keys);
    } else {
      WeightDrops(h, order[1..], known + {order[0]}, out, keys, next);
    }
  }

  // ---- Choosing and eliminating

  /** A takable signal of the constraint: a deleted one if there is any, otherwise one with the
      fewest occurrences, the greatest among those. Keys are visited in an arbitrary order. */
  method TakeSignal4(signals: SignalDefinition4, info: SignalsInformation, constraint: Constraint)
    returns (ret: Option<nat>)
    requires forall k :: k in constraint.c && k !in signals.forbidden && k !in signals.deletedSymbols ==>
             k in info.signalToOccurrences
    ensures ret.None? ==> constraint.c.Keys <= signals.forbidden
    ensures ret.Some? ==> ret.value in constraint.c && ret.value !in signals.forbidden
    ensures ret.Some? && ret.value !in signals.deletedSymbols ==> Preferred(ret.value, constraint, signals, info)
  {
    ret := None;
    var occurrencesRet: Option<nat> := None;
    var pending := constraint.c.Keys;
    ghost var done: set<nat> := {};
    while pending != {}
      invariant pending !! done && pending + done == constraint.c.Keys
      invariant ret.None? ==> done <= signals.forbidden
      invariant ret.None? <==> occurrencesRet.None?
      invariant ret.Some? ==>
                  ret.value in done && ret.value !in signals.forbidden && ret.value !in signals.deletedSymbols
      invariant ret.Some? ==> occurrencesRet.value == info.signalToOccurrences[ret.value]
      invariant forall k :: k in done && k !in signals.forbidden ==> k !in signals.deletedSymbols
      invariant ret.Some? ==> forall k :: k in done && k !in signals.forbidden ==>
                Better(ret.value, k, info.signalToOccurrences)
      decreases pending
    {
      var k :| k in pending;
      pending, done := pending - {k}, done + {k};
      if signals.CanBeTaken(k) {
        if signals.IsDeleted(k) {
          ret := Some(k);
          return;
        }
        var newOccurrences := info.signalToOccurrences[k];
        if occurrencesRet.None? {
          ret, occurrencesRet := Some(k), Some(newOccurrences);
        } else if newOccurrences < occurrencesRet.value {
          ret, occurrencesRet := Some(k), Some(newOccurrences);
        } else if newOccurrences == occurrencesRet.value && ret.value < k {
          ret := Some(k);
        }
      }
    }
  }

  /** k is at least as good a choice as j: fewer occurrences, or as many and not smaller. */
  ghost predicate Better(k: nat, j: nat, occurrences: map<nat, nat>) {
    && k in occurrences && j in occurrences
    && (occurrences[k] < occurrences[j] || (occurrences[k] == occurrences[j] && j <= k))
  }

  ghost predicate Preferred(k: nat, constraint: Constraint, signals: SignalDefinition4, info: SignalsInformation)
    reads signals, info
  {
    && (forall j :: j in constraint.c && j !in signals.forbidden ==> j !in signals.deletedSymbols)
    && (forall j :: j in constraint.c && j !in signals.forbidden ==> Better(k, j, info.signalToOccurrences))
  }

  /** Everything the elimination keeps between constraints. */
  ghost predicate State(signals: SignalDefinition4, info: SignalsInformation, h: Holder, left: seq<Constraint>,
                        todo: seq<Constraint>, scope: set<nat>, p: int)
    reads signals, info
  {
    StateOf(signals.forbidden, signals.orderSignals, signals.deletedSymbols, info.signalToOccurrences, h, left, todo,
      scope, p)
  }

  ghost predicate StateOf(forbidden: set<nat>, order: seq<nat>, deleted: set<nat>, occurrences: map<nat, nat>,
                          h: Holder, left: seq<Constraint>, todo: seq<Constraint>, scope: set<nat>, p: int) {
    && HolderOk(h, forbidden, scope, p) && InOrder(h, order, deleted) && Leftover(left, forbidden, scope, p)
    && (forall i :: 0 <= i < |todo| ==> Workable(todo[i], scope, p))
    && Counted(occurrences, todo, scope - forbidden - deleted)
  }

  /** A constraint merged with the definition of one of its deleted signals. */
  lemma StateMerged(forbidden: set<nat>, order: seq<nat>, deleted: set<nat>, h: Holder, scope: set<nat>,
                    work: Constraint, out: nat, p: int)
    requires Prime(p) && HolderOk(h, forbidden, scope, p) && InOrder(h, order, deleted) && Workable(work, scope, p)
    requires out in work.c && out !in forbidden && out in h
    ensures p > 1 && var next := Merge(ClearNotNormalized(work.c, out, p), h[out], p);
            && Workable(next, scope, p) && Weight(order, next.c.Keys) < Weight(order, work.c.Keys)
            && forall s :: HolderHolds(h, s, p) ==> (Sat(next, s, p) <==> Sat(work, s, p))
  {
    hide Sat, HolderHolds, HolderOk, ClearNotNormalized, Merge, InOrder, Workable, Weight;
    PrimePositive(p);
    MergeStep(h, work, out, scope, forbidden, p);
    var next := Merge(ClearNotNormalized(work.c, out, p), h[out], p);
    MergeWeight(h, order, deleted, forbidden, scope, out, work.c.Keys, next.c.Keys, p);
  }

  /** A constraint without deleted signals stored as the definition of one of its signals. */
  lemma StateStored(forbidden: set<nat>, order: seq<nat>, deleted: set<nat>, occurrences: map<nat, nat>, h: Holder,
                    left: seq<Constraint>, todo: seq<Constraint>, scope: set<nat>, work: Constraint, out: nat, p: int)
    requires p > 1 && StateOf(forbidden, order, deleted, occurrences, h, left, todo, scope, p)
    requires Workable(work, scope, p) && out in work.c && out !in forbidden && out !in deleted
    requires forall k :: k in work.c && k !in forbidden ==> k !in deleted
    ensures var h' := h[out := ClearNotNormalized(work.c, out, p)];
            && StateOf(forbidden, [out] + order, deleted + {out}, occurrences - {out}, h', left, todo, scope, p)
            && forall s :: HolderHolds(h', s, p) <==> HolderHolds(h, s, p) && Sat(work, s, p)
  {
    hide Sat, HolderHolds, HolderOk, Leftover, ClearNotNormalized, InOrder, Workable, Counted;
    StoreBounds(h, order, deleted, forbidden, scope, p);
    assert out != 0;
    StoreStep(h, work, out, scope, forbidden, p);
    StoreOrder(h, order, deleted, forbidden, work.c, out, p);
    CountedWithout(occurrences, todo, scope - forbidden - deleted, out);
    assert scope - forbidden - deleted - {out} == scope - forbidden - (deleted + {out});
  }

  lemma StoreBounds(h: Holder, order: seq<nat>, deleted: set<nat>, forbidden: set<nat>, scope: set<nat>, p: int)
    requires HolderOk(h, forbidden, scope, p) && InOrder(h, order, deleted)
    ensures 0 in forbidden && deleted !! forbidden && h.Keys == deleted
  {
    assert forall k :: k in deleted ==> k in h;
  }

  /** Eliminating a deleted signal from `work`: the merged constraint weighs less. */
  lemma MergeWeight(h: Holder, order: seq<nat>, deleted: set<nat>, forbidden: set<nat>, scope: set<nat>,
                    out: nat, work: set<nat>, next: set<nat>, p: int)
    requires HolderOk(h, forbidden, scope, p) && InOrder(h, order, deleted) && out in h && out in work
    requires next <= (work - {out}) + h[out].sub.to.Keys
    ensures Weight(order, next) < Weight(order, work)
  {
    HolderEntry(h, out, forbidden, scope, p);
    WeightDrops(h, order, {}, out, work, next);
  }

  /** A freshly eliminated signal meets the conditions under which the order is kept. */
  lemma StoreOrder(h: Holder, order: seq<nat>, deleted: set<nat>, forbidden: set<nat>, work: LC, out: nat, p: int)
    requires p > 0 && InOrder(h, order, deleted) && out in work && out !in deleted && out != 0
    requires 0 in forbidden && deleted !! forbidden
    requires forall k :: k in work && k !in forbidden ==> k !in deleted
    ensures InOrder(h[out := ClearNotNormalized(work, out, p)], [out] + order, deleted + {out})
  {
    var e := ClearNotNormalized(work, out, p);
    assert e.sub.to.Keys !! deleted;
    OrderedPush(h, order, deleted, out, e);
  }

  lemma CountedWithout(occurrences: map<nat, nat>, cs: seq<Constraint>, tracked: set<nat>, k: nat)
    requires Counted(occurrences, cs, tracked)
    ensures Counted(occurrences - {k}, cs, tracked - {k})
  {
  }

  method TreatConstraint4(signals: SignalDefinition4, substitutions: Holder, lconst: seq<Constraint>, start: Constraint,
                          info: SignalsInformation, p: int, ghost todo: seq<Constraint>, ghost scope: set<nat>)
    returns (substitutions': Holder, lconst': seq<Constraint>)
    requires Prime(p) && State(signals, info, substitutions, lconst, todo, scope, p) && Workable(start, scope, p)
    modifies signals, info
    ensures State(signals, info, substitutions', lconst', todo, scope, p)
    ensures forall s :: HolderHolds(substitutions', s, p) && AllSat(lconst', s, p) <==>
                        HolderHolds(substitutions, s, p) && AllSat(lconst, s, p) && Sat(start, s, p)
    ensures substitutions.Keys <= substitutions'.Keys
    ensures substitutions' == map[] ==> start.c.Keys <= signals.forbidden
  {
    hide Sat, HolderHolds, AllSat, Prime, HolderOk, Leftover, Merge, ClearNotNormalized, InOrder, CleanLinear, Weight,
         Workable, Counted, StateOf, Better;
    PrimePositive(p);
    var work := start;
    substitutions', lconst' := substitutions, lconst;
    while !IsEmpty(work)
      invariant Workable(work, scope, p) && (substitutions == map[] ==> work == start)
      invariant State(signals, info, substitutions, lconst, todo, scope, p)
      invariant forall s :: HolderHolds(substitutions, s, p) ==> (Sat(work, s, p) <==> Sat(start, s, p))
      decreases Weight(signals.orderSignals, work.c.Keys)
    {
      StateFacts(signals, info, substitutions, lconst, todo, scope, work, p);
      var out := TakeSignal4(signals, info, work);
      if out.None? {
        lconst' := lconst + [work];
        LeftState(signals, info, substitutions, lconst, todo, scope, work, p);
        forall s { AppendSat(lconst, work, s, p); }
        return;
      }
      var entry := ClearNotNormalized(work.c, out.value, p);
      if out.value !in substitutions {
        StateStored(signals.forbidden, signals.orderSignals, signals.deletedSymbols, info.signalToOccurrences,
          substitutions, lconst, todo, scope, work, out.value, p);
        signals.Delete(out.value);
        info.RemoveSignal(out.value);
        substitutions' := substitutions[out.value := entry];
        return;
      }
      StateMerged(signals.forbidden, signals.orderSignals, signals.deletedSymbols, substitutions, scope, work,
        out.value, p);
      work := Merge(entry, substitutions[out.value], p);
    }
    forall s { EmptySat(s, p); }
    assert work == EMPTY;
  }

  lemma StateFacts(signals: SignalDefinition4, info: SignalsInformation, h: Holder, left: seq<Constraint>,
                   todo: seq<Constraint>, scope: set<nat>, work: Constraint, p: int)
    requires State(signals, info, h, left, todo, scope, p) && Workable(work, scope, p)
    ensures forall k :: k in work.c && k !in signals.forbidden && k !in signals.deletedSymbols ==>
            k in info.signalToOccurrences
    ensures 0 in signals.forbidden && signals.deletedSymbols !! signals.forbidden
    ensures h.Keys == signals.deletedSymbols
    ensures HolderOk(h, signals.forbidden, scope, p) && InOrder(h, signals.orderSignals, signals.deletedSymbols)
  {
    assert forall k :: k in signals.deletedSymbols ==> k in h;
  }

  lemma StateIntro(signals: SignalDefinition4, info: SignalsInformation, h: Holder, left: seq<Constraint>,
                   todo: seq<Constraint>, scope: set<nat>, p: int)
    requires HolderOk(h, signals.forbidden, scope, p) && InOrder(h, signals.orderSignals, signals.deletedSymbols)
    requires Leftover(left, signals.forbidden, scope, p) && (forall i :: 0 <= i < |todo| ==>
             Workable(todo[i], scope, p))
    requires Counted(info.signalToOccurrences, todo, scope - signals.forbidden - signals.deletedSymbols)
    ensures State(signals, info, h, left, todo, scope, p)
  {
  }

  lemma LeftState(signals: SignalDefinition4, info: SignalsInformation, h: Holder, left: seq<Constraint>,
                  todo: seq<Constraint>, scope: set<nat>, work: Constraint, p: int)
    requires State(signals, info, h, left, todo, scope, p)
    requires Workable(work, scope, p) && work.c.Keys <= signals.forbidden
    ensures State(signals, info, h, left + [work], todo, scope, p)
  {
    LeftoverAppend(left, work, signals.forbidden, scope, p);
  }

  // ---- The whole process

  /** What phase one knows of a signal that occurs once: its constraint is still there and holds the
      only occurrence, or the constraint was used for another signal. */
  ghost predicate UniqueAt(uniques: map<nat, nat>, pending: set<nat>, vec: seq<Constraint>, deleted: set<nat>) {
    && pending <= uniques.Keys
    && (forall k :: k in pending ==> k !in deleted && uniques[k] < |vec|)
    && (forall k :: k in pending ==> IsEmpty(vec[uniques[k]]) || k in vec[uniques[k]].c)
    && (forall k, j :: k in pending && 0 <= j < |vec| && j != uniques[k] ==> k !in vec[j].c)
    && (forall k, j :: k in deleted && 0 <= j < |vec| ==> k !in vec[j].c)
  }

  method TreatUniqueConstraint4(signals: SignalDefinition4, substitutions: Holder, work: Constraint,
                                info: SignalsInformation, signal: nat, p: int, ghost lconst: seq<Constraint>,
                                ghost todo: seq<Constraint>, ghost scope: set<nat>)
    returns (substitutions': Holder)
    requires Prime(p) && State(signals, info, substitutions, lconst, todo, scope, p) && Workable(work, scope, p)
    requires signal in work.c && signal !in signals.forbidden && signal !in signals.deletedSymbols
    requires forall k :: k in work.c ==> k !in signals.deletedSymbols
    modifies signals, info
    ensures State(signals, info, substitutions', lconst, todo, scope, p)
    ensures signals.deletedSymbols == old(signals.deletedSymbols) + {signal}
    ensures substitutions'.Keys == substitutions.Keys + {signal}
    ensures forall s :: HolderHolds(substitutions', s, p) <==> HolderHolds(substitutions, s, p) && Sat(work, s, p)
  {
    hide Sat, HolderHolds, AllSat, Prime, HolderOk, Leftover, ClearNotNormalized, InOrder, CleanLinear, Workable,
         Counted, StateOf;
    PrimePositive(p);
    StateStored(signals.forbidden, signals.orderSignals, signals.deletedSymbols, info.signalToOccurrences,
      substitutions, lconst, todo, scope, work, signal, p);
    substitutions' := substitutions[signal := ClearNotNormalized(work.c, signal, p)];
    info.RemoveSignal(signal);
    signals.Delete(signal);
  }

  lemma ReplaceSat(cs: seq<Constraint>, i: nat, s: Assignment, p: int)
    requires i < |cs|
    ensures AllSat(cs, s, p) <==> AllSat(cs[i := EMPTY], s, p) && Sat(cs[i], s, p)
  {
    hide Sat;
    EmptySat(s, p);
    var next := cs[i := EMPTY];
    if AllSat(next, s, p) && Sat(cs[i], s, p) {
      forall j | 0 <= j < |cs| ensures Sat(cs[j], s, p) { if j != i { assert next[j] == cs[j]; } }
    }
  }

  /** Taking one constraint out and decrementing keeps every counter exact. */
  lemma TakeOut(signals: SignalDefinition4, info: SignalsInformation, h: Holder, left: seq<Constraint>,
                todo: seq<Constraint>, scope: set<nat>, i: nat, p: int)
    requires State(signals, info, h, left, todo, scope, p) && i < |todo|
    ensures forall k :: k in todo[i].c && k !in signals.forbidden && k in info.signalToOccurrences ==>
            info.signalToOccurrences[k] > 0
    ensures Counted(Decremented(info.signalToOccurrences, todo[i].c.Keys - signals.forbidden), todo[i := EMPTY],
                    scope - signals.forbidden - signals.deletedSymbols)
    ensures var next := todo[i := EMPTY]; forall j :: 0 <= j < |next| ==> Workable(next[j], scope, p)
  {
    forall k | k in scope - signals.forbidden - signals.deletedSymbols
      ensures Count(todo[i := EMPTY], k) == Count(todo, k) - if k in todo[i].c then 1 else 0
      ensures k in todo[i].c ==> Count(todo, k) >= 1
    {
      CountReplace(todo, i, k);
    }
  }

  lemma CountedDropLast(occurrences: map<nat, nat>, cs: seq<Constraint>, tracked: set<nat>)
    requires |cs| > 0 && Counted(occurrences, cs[|cs| - 1 := EMPTY], tracked)
    ensures Counted(occurrences, cs[..|cs| - 1], tracked)
  {
    var n := |cs| - 1;
    assert cs[n := EMPTY] == cs[..n] + [EMPTY];
    forall k | k in tracked { CountAppend(cs[..n], EMPTY, k); }
  }

  /** The constraint has been used to define one of the signals that occur in it alone. */
  ghost predicate UsedAt(uniques: map<nat, nat>, defined: set<nat>, i: nat) {
    exists j :: j in defined && j in uniques && uniques[j] == i
  }

  ghost predicate OnceUsed(uniques: map<nat, nat>, done: set<nat>, defined: set<nat>)
    requires done <= uniques.Keys
  {
    forall k :: k in done ==> UsedAt(uniques, defined, uniques[k])
  }

  ghost predicate Used(uniques: map<nat, nat>, constraints: seq<Constraint>, vec: seq<Constraint>, defined: set<nat>) {
    && |vec| == |constraints|
    && forall i :: 0 <= i < |vec| ==> vec[i] == constraints[i] || UsedAt(uniques, defined, i)
  }

  lemma UsedMore(uniques: map<nat, nat>, defined: set<nat>, more: set<nat>)
    requires defined <= more
    ensures forall i :: UsedAt(uniques, defined, i) ==> UsedAt(uniques, more, i)
  {
  }

  lemma UsedNext(uniques: map<nat, nat>, constraints: seq<Constraint>, vec: seq<Constraint>, defined: set<nat>,
                 signal: nat)
    requires Used(uniques, constraints, vec, defined) && signal in uniques && uniques[signal] < |vec|
    ensures Used(uniques, constraints, vec[uniques[signal] := EMPTY], defined + {signal})
    ensures UsedAt(uniques, defined + {signal}, uniques[signal])
    ensures forall i :: UsedAt(uniques, defined, i) ==> UsedAt(uniques, defined + {signal}, i)
  {
    UsedMore(uniques, defined, defined + {signal});
    assert UsedAt(uniques, defined + {signal}, uniques[signal]);
  }

  /** A constraint that is gone was used. */
  lemma UsedFor(uniques: map<nat, nat>, constraints: seq<Constraint>, vec: seq<Constraint>, defined: set<nat>,
                signal: nat)
    requires Used(uniques, constraints, vec, defined) && signal in uniques && uniques[signal] < |constraints|
    requires signal in constraints[uniques[signal]].c && IsEmpty(vec[uniques[signal]])
    ensures UsedAt(uniques, defined, uniques[signal])
  {
  }

  /** The loop over the signals that occur once: those no longer pending had their constraints used. */
  ghost predicate OnceProgress(uniques: map<nat, nat>, pending: set<nat>, constraints: seq<Constraint>,
                               vec: seq<Constraint>, defined: set<nat>) {
    && pending <= uniques.Keys && (forall k :: k in uniques ==>
         uniques[k] < |constraints| && k in constraints[uniques[k]].c)
    && OnceUsed(uniques, uniques.Keys - pending, defined) && Used(uniques, constraints, vec, defined)
  }

  lemma OnceStart(uniques: map<nat, nat>, constraints: seq<Constraint>, defined: set<nat>)
    requires forall k :: k in uniques ==> uniques[k] < |constraints| && k in constraints[uniques[k]].c
    ensures OnceProgress(uniques, uniques.Keys, constraints, constraints, defined)
  {
  }

  lemma OnceNext(uniques: map<nat, nat>, pending: set<nat>, constraints: seq<Constraint>, vec: seq<Constraint>,
                 defined: set<nat>, signal: nat)
    requires OnceProgress(uniques, pending, constraints, vec, defined) && signal in pending
    requires uniques[signal] < |vec|
    ensures OnceProgress(uniques, pending - {signal}, constraints, vec[uniques[signal] := EMPTY], defined + {signal})
    ensures IsEmpty(vec[uniques[signal]]) ==> OnceProgress(uniques, pending - {signal}, constraints, vec, defined)
  {
    hide UsedAt, IsEmpty;
    UsedNext(uniques, constraints, vec, defined, signal);
    if IsEmpty(vec[uniques[signal]]) { UsedFor(uniques, constraints, vec, defined, signal); }
    assert uniques.Keys - (pending - {signal}) == (uniques.Keys - pending) + {signal};
  }

  lemma OnceDone(uniques: map<nat, nat>, constraints: seq<Constraint>, vec: seq<Constraint>, defined: set<nat>)
    requires OnceProgress(uniques, {}, constraints, vec, defined)
    ensures OnceUsed(uniques, uniques.Keys, defined) && (defined == {} ==> vec == constraints)
  {
    assert uniques.Keys - {} == uniques.Keys;
  }

  /** Phase one: every signal that occurs once is eliminated with the constraint that holds it. */
  method EliminateUniques(signals: SignalDefinition4, info: SignalsInformation, uniques: map<nat, nat>,
                          constraints: seq<Constraint>, p: int, ghost scope: set<nat>)
    returns (substitutions: Holder, vec: seq<Constraint>)
    requires Prime(p) && State(signals, info, map[], [], constraints, scope, p)
    requires UniqueAt(uniques, uniques.Keys, constraints, signals.deletedSymbols) && uniques.Keys !! signals.forbidden
    requires forall k :: k in uniques ==> uniques[k] < |constraints| && k in constraints[uniques[k]].c
    modifies signals, info
    ensures State(signals, info, substitutions, [], vec, scope, p)
    ensures forall s :: Solves(substitutions, [], vec, s, p) <==> AllSat(constraints, s, p)
    ensures OnceUsed(uniques, uniques.Keys, substitutions.Keys) && (substitutions == map[] ==> vec == constraints)
  {
    hide Sat, HolderHolds, AllSat, Prime, HolderOk, Leftover, InOrder, CleanLinear, Workable, Counted, State,
         UniqueAt, OnceUsed, OnceProgress;
    substitutions, vec := map[], constraints;
    OnceStart(uniques, constraints, substitutions.Keys);
    var pending := uniques.Keys;
    forall s { StartSat(constraints, s, p); }
    while pending != {}
      invariant State(signals, info, substitutions, [], vec, scope, p)
      invariant UniqueAt(uniques, pending, vec, signals.deletedSymbols)
      invariant pending !! signals.forbidden
      invariant OnceProgress(uniques, pending, constraints, vec, substitutions.Keys)
      invariant forall s :: Solves(substitutions, [], vec, s, p) <==> AllSat(constraints, s, p)
      decreases pending
    {
      var signal := Least(pending);
      UniqueFacts(uniques, pending, vec, signals.deletedSymbols, signal);
      var index := uniques[signal];
      OnceNext(uniques, pending, constraints, vec, substitutions.Keys, signal);
      if !IsEmpty(vec[index]) {
        var actual := vec[index];
        ghost var before, h := vec, substitutions;
        UniqueNext(uniques, pending, vec, signals.deletedSymbols, signal);
        TakeOut(signals, info, substitutions, [], vec, scope, index, p);
        StateWork(signals, info, substitutions, [], vec, scope, index, p);
        vec := vec[index := EMPTY];
        info.RemoveConstraint(actual, signals);
        StateIntro(signals, info, substitutions, [], vec, scope, p);
        substitutions := TreatUniqueConstraint4(signals, substitutions, actual, info, signal, p, [], vec, scope);
        forall s
          ensures Solves(substitutions, [], vec, s, p) <==> Solves(h, [], before, s, p)
        {
          ReplaceSat(before, index, s, p);
        }
      }
      pending := pending - {signal};
    }
    OnceDone(uniques, constraints, vec, substitutions.Keys);
  }

  /** Phase two: the remaining constraints one by one from the back. */
  method EliminateRest(signals: SignalDefinition4, info: SignalsInformation, start: Holder,
                       constraints: seq<Constraint>, p: int, ghost scope: set<nat>)
    returns (substitutions: Holder, lconst: seq<Constraint>)
    requires Prime(p) && State(signals, info, start, [], constraints, scope, p)
    modifies signals, info
    ensures State(signals, info, substitutions, lconst, [], scope, p)
    ensures forall s :: HolderHolds(substitutions, s, p) && AllSat(lconst, s, p) <==>
            Solves(start, [], constraints, s, p)
    ensures start.Keys <= substitutions.Keys
    ensures substitutions == map[] ==> NothingTakable(constraints, signals.forbidden)
  {
    hide Sat, HolderHolds, AllSat, Prime, HolderOk, Leftover, InOrder, CleanLinear, Workable, Counted, State;
    substitutions, lconst := start, [];
    var vec := constraints;
    while vec != []
      invariant State(signals, info, substitutions, lconst, vec, scope, p)
      invariant forall s :: Solves(substitutions, lconst, vec, s, p) <==> Solves(start, [], constraints, s, p)
      invariant start.Keys <= substitutions.Keys && vec <= constraints
      invariant substitutions == map[] ==> NothingTakable(constraints[|vec|..], signals.forbidden)
      decreases |vec|
    {
      var last := |vec| - 1;
      var actual := vec[last];
      ghost var before, h, l := vec, substitutions, lconst;
      TakeOut(signals, info, substitutions, lconst, vec, scope, last, p);
      StateWork(signals, info, substitutions, lconst, vec, scope, last, p);
      info.RemoveConstraint(actual, signals);
      CountedDropLast(info.signalToOccurrences, vec, scope - signals.forbidden - signals.deletedSymbols);
      vec := vec[..last];
      StateIntro(signals, info, substitutions, lconst, vec, scope, p);
      substitutions, lconst := TreatConstraint4(signals, substitutions, lconst, actual, info, p, vec, scope);
      assert before == vec + [actual];
      assert constraints[last..] == [actual] + constraints[last + 1..];
      forall s
        ensures Solves(substitutions, lconst, vec, s, p) <==> Solves(h, l, before, s, p)
      {
        AppendSat(vec, actual, s, p);
      }
    }
    forall s { NoneLeft(s, p); }
  }

  /** First the signals that occur once, then constraint by constraint from the back. */
  method SubstitutionProcess4(signals: SignalDefinition4, constraints: seq<Constraint>, p: int, ghost scope: set<nat>)
    returns (substitutions: Holder, lconst: seq<Constraint>)
    requires Prime(p) && 0 in signals.forbidden && 0 in scope && signals.deletedSymbols == {} &&
             signals.orderSignals == []
    requires forall i :: 0 <= i < |constraints| ==> Workable(constraints[i], scope, p)
    requires scope - signals.forbidden <= Takable(constraints, signals.forbidden)
    modifies signals
    ensures HolderOk(substitutions, signals.forbidden, scope, p)
    ensures InOrder(substitutions, signals.orderSignals, signals.deletedSymbols)
    ensures Leftover(lconst, signals.forbidden, scope, p)
    ensures forall s :: HolderHolds(substitutions, s, p) && AllSat(lconst, s, p) <==> AllSat(constraints, s, p)
    ensures substitutions == map[] ==> NothingTakable(constraints, signals.forbidden)
    ensures OnceDefined(constraints, signals.forbidden, substitutions.Keys)
  {
    hide Sat, HolderHolds, AllSat, Prime, HolderOk, Leftover, InOrder, CleanLinear, Workable, Counted, State, UniqueAt,
         Takable, Solves, OnceUsed, NothingTakable;
    var occurrences, uniques := CountOccurrences(constraints, signals);
    var info := new SignalsInformation(occurrences);
    StartState(signals, info, constraints, scope, p);
    StartUnique(occurrences, uniques, constraints, signals.forbidden);
    var found, vec := EliminateUniques(signals, info, uniques, constraints, p, scope);
    substitutions, lconst := EliminateRest(signals, info, found, vec, p, scope);
    StateParts(signals, info, substitutions, lconst, [], scope, p);
    OnceUsedDefined(occurrences, uniques, constraints, signals.forbidden, found.Keys, substitutions.Keys);
  }

  /** Every constraint with signals that occur nowhere else defines one of them. */
  ghost predicate OnceDefined(cs: seq<Constraint>, forbidden: set<nat>, defined: set<nat>) {
    forall i, k :: 0 <= i < |cs| && k in cs[i].c && k !in forbidden && Count(cs, k) == 1 ==>
      DefinedOnce(cs, forbidden, defined, i)
  }

  ghost predicate DefinedOnce(cs: seq<Constraint>, forbidden: set<nat>, defined: set<nat>, i: nat)
    requires i < |cs|
  {
    exists j :: j in cs[i].c && j in defined && j !in forbidden && Count(cs, j) == 1
  }

  lemma OnceUsedDefined(occurrences: map<nat, nat>, uniques: map<nat, nat>, cs: seq<Constraint>, forbidden: set<nat>,
                        found: set<nat>, defined: set<nat>)
    requires Counted(occurrences, cs, Takable(cs, forbidden)) && found <= defined
    requires forall k :: k in uniques <==> k in occurrences && occurrences[k] == 1
    requires forall k :: k in uniques ==> uniques[k] < |cs| && k in cs[uniques[k]].c
    requires OnceUsed(uniques, uniques.Keys, found)
    ensures OnceDefined(cs, forbidden, defined)
  {
    forall i, k | 0 <= i < |cs| && k in cs[i].c && k !in forbidden && Count(cs, k) == 1
      ensures DefinedOnce(cs, forbidden, defined, i)
    {
      assert cs[i] in cs;
      assert k in Takable(cs, forbidden) && k in uniques;
      CountOnce(cs, k, i, uniques[k]);
      var j :| j in found && j in uniques && uniques[j] == uniques[k];
    }
  }

  lemma NoneLeft(s: Assignment, p: int)
    ensures AllSat([], s, p)
  {
  }

  lemma StateParts(signals: SignalDefinition4, info: SignalsInformation, h: Holder, left: seq<Constraint>,
                   todo: seq<Constraint>, scope: set<nat>, p: int)
    requires State(signals, info, h, left, todo, scope, p)
    ensures HolderOk(h, signals.forbidden, scope, p) && InOrder(h, signals.orderSignals, signals.deletedSymbols)
    ensures Leftover(left, signals.forbidden, scope, p)
  {
  }

  lemma StateWork(signals: SignalDefinition4, info: SignalsInformation, h: Holder, left: seq<Constraint>,
                  todo: seq<Constraint>, scope: set<nat>, i: nat, p: int)
    requires State(signals, info, h, left, todo, scope, p) && i < |todo|
    ensures HolderOk(h, signals.forbidden, scope, p) && InOrder(h, signals.orderSignals, signals.deletedSymbols)
    ensures Leftover(left, signals.forbidden, scope, p) && Workable(todo[i], scope, p)
    ensures var before := todo[..i]; forall j :: 0 <= j < |before| ==> Workable(before[j], scope, p)
  {
  }

  lemma StartState(signals: SignalDefinition4, info: SignalsInformation, constraints: seq<Constraint>, scope: set<nat>,
                   p: int)
    requires 0 in signals.forbidden && 0 in scope && signals.deletedSymbols == {} && signals.orderSignals == []
    requires forall i :: 0 <= i < |constraints| ==> Workable(constraints[i], scope, p)
    requires Counted(info.signalToOccurrences, constraints, Takable(constraints, signals.forbidden))
    requires scope - signals.forbidden <= Takable(constraints, signals.forbidden)
    ensures State(signals, info, map[], [], constraints, scope, p)
  {
    forall k | k in Takable(constraints, signals.forbidden)
      ensures k in scope
    {
      var c :| c in constraints && k in c.c;
      assert Workable(c, scope, p);
    }
    assert scope - signals.forbidden - {} == Takable(constraints, signals.forbidden);
  }

  lemma StartSat(constraints: seq<Constraint>, s: Assignment, p: int)
    ensures Solves(map[], [], constraints, s, p) <==> AllSat(constraints, s, p)
  {
  }

  lemma StartUnique(occurrences: map<nat, nat>, uniques: map<nat, nat>, constraints: seq<Constraint>,
                    forbidden: set<nat>)
    requires Counted(occurrences, constraints, Takable(constraints, forbidden))
    requires forall k :: k in uniques <==> k in occurrences && occurrences[k] == 1
    requires forall k :: k in uniques ==> uniques[k] < |constraints| && k in constraints[uniques[k]].c
    ensures UniqueAt(uniques, uniques.Keys, constraints, {}) && uniques.Keys !! forbidden
  {
    forall k, j | k in uniques && 0 <= j < |constraints| && k in constraints[j].c
      ensures j == uniques[k]
    {
      CountOnce(constraints, k, uniques[k], j);
    }
  }

  lemma UniqueFacts(uniques: map<nat, nat>, pending: set<nat>, vec: seq<Constraint>, deleted: set<nat>, signal: nat)
    requires UniqueAt(uniques, pending, vec, deleted) && signal in pending
    ensures signal in uniques && uniques[signal] < |vec| && signal !in deleted
    ensures !IsEmpty(vec[uniques[signal]]) ==> signal in vec[uniques[signal]].c
    ensures forall k :: k in vec[uniques[signal]].c ==> k !in deleted
    ensures IsEmpty(vec[uniques[signal]]) ==> UniqueAt(uniques, pending - {signal}, vec, deleted)
  {
  }

  lemma UniqueNext(uniques: map<nat, nat>, pending: set<nat>, vec: seq<Constraint>, deleted: set<nat>, signal: nat)
    requires UniqueAt(uniques, pending, vec, deleted) && signal in pending && !IsEmpty(vec[uniques[signal]])
    ensures UniqueAt(uniques, pending - {signal}, vec[uniques[signal] := EMPTY], deleted + {signal})
  {
  }
}
