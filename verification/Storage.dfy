/** The constraint store and its signal-to-constraint index
    (constraint_storage/mod.rs and apply_substitution_to_map in constraint_simplification.rs). */
module Storage {
  import opened Field
  import opened LinearCombination
  import opened Algebra
  import opened Constraints
  import opened Elimination

  class ConstraintStorage {
    var constraints: seq<Constraint>

    constructor ()
      ensures constraints == []
    {
      constraints := [];
    }

    method AddConstraint(constraint: Constraint) returns (id: nat)
      modifies this
      ensures id == |old(constraints)| && constraints == old(constraints) + [constraint]
    {
      id := |constraints|;
      constraints := constraints + [constraint];
    }

    function ReadConstraint(id: nat): Option<Constraint>
      reads this
    {
      if id < |constraints| then Some(constraints[id]) else None
    }

    method Replace(id: nat, constraint: Constraint)
      modifies this
      ensures constraints == if id < |old(constraints)| then old(constraints)[id := constraint] else old(constraints)
    {
      if id < |constraints| {
        constraints := constraints[id := constraint];
      }
    }

    /** Remove the empty constraints, keeping the order of the others. */
    method ExtractEmpty() returns (removed: seq<Constraint>)
      modifies this
      ensures constraints == WithoutEmpty(old(constraints))
      ensures forall c :: c in removed ==> IsEmpty(c)
    {
      var before := constraints;
      constraints, removed := [], [];
      for i := 0 to |before|
        invariant constraints == WithoutEmpty(before[..i])
        invariant forall c :: c in removed ==> IsEmpty(c)
      {
        assert before[..i + 1][..i] == before[..i];
        if IsEmpty(before[i]) {
          removed := removed + [before[i]];
        } else {
          constraints := constraints + [before[i]];
        }
      }
      assert before[..|before|] == before;
    }
  }

  function WithoutEmpty(cs: seq<Constraint>): seq<Constraint> {
    if cs == [] then []
    else WithoutEmpty(cs[..|cs| - 1]) + if IsEmpty(cs[|cs| - 1]) then [] else [cs[|cs| - 1]]
  }

  lemma {:induction false} InWithoutEmpty(cs: seq<Constraint>, c: Constraint)
    ensures c in WithoutEmpty(cs) <==> c in cs && !IsEmpty(c)
  {
    if cs != [] {
      InWithoutEmpty(cs[..|cs| - 1], c);
      assert cs == cs[..|cs| - 1] + [cs[|cs| - 1]];
    }
  }

  // ---- Stored constraints and what a substitution does to them

  /** The form every stored constraint has: canonical, zero-free, irreducible. */
  ghost predicate Stored(c: Constraint, p: int) {
    p > 0 && CleanConstraint(c, p) && Fix(c, p) == c
  }

  ghost predicate AllStored(cs: seq<Constraint>, p: int) {
    forall i :: 0 <= i < |cs| ==> Stored(cs[i], p)
  }

  /** What can be applied to the store: a canonical right-hand side not mentioning the signal. */
  ghost predicate Applicable(sub: Substitution, p: int) {
    sub.from != 0 && sub.from !in sub.to && Canonical(sub.to, p)
  }

  function Rewrite(c: Constraint, sub: Substitution, p: int): Constraint
    requires p > 0
  {
    Fix(Apply(c, sub, p), p)
  }

  lemma RewriteForm(c: Constraint, sub: Substitution, p: int)
    requires p > 0 && Stored(c, p) && Applicable(sub, p)
    ensures Stored(Rewrite(c, sub, p), p)
    ensures sub.from !in Keys(Rewrite(c, sub, p))
    ensures Signals(Rewrite(c, sub, p)) <= Signals(c) + sub.to.Keys
    ensures IsLinear(c) ==> IsLinear(Rewrite(c, sub, p))
  {
    hide Apply, Fix;
    var d := Apply(c, sub, p);
    ApplyForm(c, sub, p);
    FixForm(d, p);
    FixIdempotent(d, p);
    if IsLinear(c) { FixedZeros(d, p); }
  }

  lemma ApplyForm(c: Constraint, sub: Substitution, p: int)
    requires p > 0 && CleanConstraint(c, p) && Applicable(sub, p)
    ensures var d := Apply(c, sub, p);
            && sub.from !in Keys(d) && Keys(d) <= Keys(c) + sub.to.Keys + {0}
            && Canonical(d.a, p) && Canonical(d.b, p) && Canonical(d.c, p)
            && (IsLinear(c) ==> d.a == ZERO && d.b == ZERO)
  {
    hide Scale, AddAll;
  }

  lemma FixedZeros(d: Constraint, p: int)
    requires p > 0 && d.a == ZERO && d.b == ZERO
    ensures IsLinear(Fix(d, p))
  {
    assert DropZeros(ZERO) == map[];
  }

  lemma DropInit(m: LC)
    requires ZeroFree(m)
    ensures DropZeros(Init(m)) == m
  {
  }

  /** A stored constraint that does not mention the signal is left as it is. */
  lemma RewriteUntouched(c: Constraint, sub: Substitution, p: int)
    requires Stored(c, p) && sub.from != 0 && sub.from !in Keys(c)
    ensures Rewrite(c, sub, p) == c
  {
    hide Fix, Apply, DropZeros, Init, ZeroFree, Stored;
    StoredFree(c, p);
    ApplyUntouched(c, sub, p);
    DropInit(c.a);
    DropInit(c.b);
    DropInit(c.c);
    FixByZeros(Apply(c, sub, p), c, p);
  }

  lemma StoredFree(c: Constraint, p: int)
    requires Stored(c, p)
    ensures p > 0 && ZeroFree(c.a) && ZeroFree(c.b) && ZeroFree(c.c) && RemoveZeros(c) == c && Fix(c, p) == c
  {
    hide Fix;
    assert DropZeros(c.a) == c.a && DropZeros(c.b) == c.b && DropZeros(c.c) == c.c;
  }

  lemma ApplyUntouched(c: Constraint, sub: Substitution, p: int)
    requires p > 0 && sub.from != 0 && sub.from !in Keys(c)
    ensures Apply(c, sub, p) == Constraint(Init(c.a), Init(c.b), Init(c.c))
  {
    hide AddAll, Scale;
  }

  lemma FixByZeros(c: Constraint, d: Constraint, p: int)
    requires p > 0 && RemoveZeros(c) == RemoveZeros(d)
    ensures Fix(c, p) == Fix(d, p)
  {
  }

  /** Rewriting twice is rewriting once, so a repeated index entry does no harm. */
  lemma RewriteTwice(c: Constraint, sub: Substitution, p: int)
    requires p > 0 && Stored(c, p) && Applicable(sub, p)
    ensures Rewrite(Rewrite(c, sub, p), sub, p) == Rewrite(c, sub, p)
  {
    hide Rewrite, Stored;
    RewriteForm(c, sub, p);
    assert p > 0;
    RewriteUntouched(Rewrite(c, sub, p), sub, p);
  }

  lemma RewriteMeaning(c: Constraint, sub: Substitution, s: Assignment, p: int)
    requires p > 0 && Holds(sub, s, p)
    ensures Sat(Rewrite(c, sub, p), s, p) <==> Sat(c, s, p)
  {
    hide Sat, Holds, Fix, Apply;
    ApplyMeaning(c, sub, s, p);
    FixMeaning(Apply(c, sub, p), s, p);
  }

  /** The whole store rewritten, which is what touching only indexed constraints must amount to. */
  ghost function RewriteAll(cs: seq<Constraint>, sub: Substitution, p: int): seq<Constraint>
    requires p > 0
  {
    seq(|cs|, i requires 0 <= i < |cs| => Rewrite(cs[i], sub, p))
  }

  ghost function RewriteSeq(cs: seq<Constraint>, subs: seq<Substitution>, p: int): seq<Constraint>
    requires p > 0
  {
    if subs == [] then cs else RewriteAll(RewriteSeq(cs, subs[..|subs| - 1], p), subs[|subs| - 1], p)
  }

  // ---- The index

  type SignalToConstraints = map<nat, seq<nat>>

  /** Every occurrence of a signal in the store is in the signal's list; lists hold valid ids. */
  ghost predicate Covers(index: SignalToConstraints, cs: seq<Constraint>) {
    && (forall i, x :: 0 <= i < |cs| && x in Signals(cs[i]) ==> x in index && i in index[x])
    && (forall x, i :: x in index && i in index[x] ==> i < |cs|)
  }

  function Listed(index: SignalToConstraints, x: nat, id: nat): SignalToConstraints {
    if x in index then index[x := index[x] + [id]] else index[x := [id]]
  }

  /** The second index is the first with an id added to the lists of some signals. */
  ghost predicate Indexed(index: SignalToConstraints, signals: set<nat>, id: nat, index': SignalToConstraints) {
    && index'.Keys == index.Keys + signals
    && (forall x, i :: x in index ==> (i in index[x] ==> i in index'[x]))
    && (forall x :: x in signals ==> id in index'[x])
    && (forall x, i :: x in index' && i in index'[x] ==> i == id || (x in index && i in index[x]))
  }

  /** Add one constraint id to the lists of some signals, visited in any order. */
  method AddToIndex(index: SignalToConstraints, signals: set<nat>, id: nat) returns (index': SignalToConstraints)
    ensures Indexed(index, signals, id, index')
  {
    index' := index;
    var pending := signals;
    while pending != {}
      invariant pending <= signals && Indexed(index, signals - pending, id, index')
      decreases pending
    {
      var signal :| signal in pending;
      index' := Listed(index', signal, id);
      pending := pending - {signal};
    }
  }

  lemma IndexedKeys(index: SignalToConstraints, signals: set<nat>, id: nat, index': SignalToConstraints)
    requires Indexed(index, signals, id, index')
    ensures index'.Keys == index.Keys + signals
  {
  }

  method BuildNonLinearSignalMap(nonLinear: ConstraintStorage) returns (index: SignalToConstraints)
    ensures Covers(index, nonLinear.constraints)
    ensures forall x :: x in index ==>
              exists i :: 0 <= i < |nonLinear.constraints| && x in Signals(nonLinear.constraints[i])
  {
    index := map[];
    for id := 0 to |nonLinear.constraints|
      invariant Covers(index, nonLinear.constraints[..id])
      invariant forall x :: x in index ==> exists i :: 0 <= i < id && x in Signals(nonLinear.constraints[i])
    {
      hide Signals;
      var constraint := nonLinear.ReadConstraint(id).value;
      ghost var before := index;
      index := AddToIndex(index, Signals(constraint), id);
      assert nonLinear.constraints[..id + 1] == nonLinear.constraints[..id] + [constraint];
      CoversAppend(before, index, nonLinear.constraints[..id], constraint);
    }
    assert nonLinear.constraints[..|nonLinear.constraints|] == nonLinear.constraints;
  }

  lemma CoversAppend(index: SignalToConstraints, index': SignalToConstraints, cs: seq<Constraint>, c: Constraint)
    requires Covers(index, cs) && Indexed(index, Signals(c), |cs|, index')
    ensures Covers(index', cs + [c])
  {
    hide Signals;
    var all := cs + [c];
    forall i, x | 0 <= i < |all| && x in Signals(all[i])
      ensures x in index' && i in index'[x]
    {
      if i < |cs| { assert all[i] == cs[i]; }
    }
  }

  // ---- Rewriting the store through the index

  /** The store with the listed constraints rewritten. */
  ghost predicate RewrittenAt(now: seq<Constraint>, before: seq<Constraint>, ids: seq<nat>, n: nat, sub: Substitution,
                              p: int)
    requires n <= |ids| && p > 0
  {
    && |now| == |before|
    && forall i :: 0 <= i < |before| ==> now[i] == if i in ids[..n] then Rewrite(before[i], sub, p) else before[i]
  }

  lemma RewrittenNext(now: seq<Constraint>, before: seq<Constraint>, ids: seq<nat>, n: nat, sub: Substitution, p: int)
    requires n < |ids| && p > 0 && RewrittenAt(now, before, ids, n, sub, p) && ids[n] < |before|
    requires AllStored(before, p) && Applicable(sub, p)
    ensures RewrittenAt(now[ids[n] := Rewrite(now[ids[n]], sub, p)], before, ids, n + 1, sub, p)
  {
    hide Rewrite, Stored, Applicable;
    var id := ids[n];
    RewriteTwice(before[id], sub, p);
    assert ids[..n + 1] == ids[..n] + [id];
  }

  lemma RewrittenCovered(now: seq<Constraint>, before: seq<Constraint>, index: SignalToConstraints, sub: Substitution,
                         p: int)
    requires p > 0 && AllStored(before, p) && Applicable(sub, p) && Covers(index, before)
    requires RewrittenAt(now, before, if sub.from in index then index[sub.from] else [],
             if sub.from in index then |index[sub.from]| else 0, sub, p)
    ensures now == RewriteAll(before, sub, p)
  {
    hide Rewrite, Stored;
    var ids := if sub.from in index then index[sub.from] else [];
    assert ids[..|ids|] == ids;
    forall i | 0 <= i < |before|
      ensures now[i] == Rewrite(before[i], sub, p)
    {
      if i !in ids {
        assert sub.from !in Signals(before[i]);
        RewriteUntouched(before[i], sub, p);
      }
    }
  }

  /** Cover the store while it is being rewritten: lists may also hold ids already rewritten. */
  lemma CoversRewritten(index: SignalToConstraints, index': SignalToConstraints, cs: seq<Constraint>, id: nat,
                        c: Constraint, signals: set<nat>)
    requires Covers(index, cs) && id < |cs| && Indexed(index, signals, id, index')
    requires Signals(c) <= Signals(cs[id]) + signals
    ensures Covers(index', cs[id := c])
  {
    hide Signals;
  }

  /** The state of the loop over the constraints listed for one substitution. */
  ghost predicate Processing(now: seq<Constraint>, before: seq<Constraint>, ids: seq<nat>, n: nat,
                             index: SignalToConstraints, linear: seq<nat>, sub: Substitution, p: int)
    requires n <= |ids| && p > 0
  {
    && RewrittenAt(now, before, ids, n, sub, p) && Covers(index, now) && AllStored(now, p)
    && AllStored(before, p) && Applicable(sub, p) && (forall m :: 0 <= m < |ids| ==> ids[m] < |before|)
    && Found(now, ids, n, linear)
  }

  /** The list holds exactly the rewritten constraints that have become linear. */
  ghost predicate Found(now: seq<Constraint>, ids: seq<nat>, n: nat, linear: seq<nat>)
    requires n <= |ids|
  {
    && (forall i :: i in linear ==> i < |now| && IsLinear(now[i]))
    && (forall m :: 0 <= m < n && ids[m] < |now| && IsLinear(now[ids[m]]) ==> ids[m] in linear)
  }

  lemma FoundNext(now: seq<Constraint>, ids: seq<nat>, n: nat, linear: seq<nat>, c: Constraint)
    requires n < |ids| && ids[n] < |now| && Found(now, ids, n, linear) && (IsLinear(now[ids[n]]) ==> IsLinear(c))
    ensures Found(now[ids[n] := c], ids, n + 1, if IsLinear(c) then linear + [ids[n]] else linear)
  {
    hide IsLinear;
  }

  lemma ProcessingStart(cs: seq<Constraint>, ids: seq<nat>, index: SignalToConstraints, sub: Substitution, p: int)
    requires p > 0 && AllStored(cs, p) && Applicable(sub, p) && Covers(index, cs) && forall i :: i in ids ==> i < |cs|
    ensures Processing(cs, cs, ids, 0, index, [], sub, p)
  {
    hide Covers, Stored, Applicable;
    assert ids[..0] == [];
    forall m | 0 <= m < |ids|
      ensures ids[m] < |cs|
    {
      assert ids[m] in ids;
    }
  }

  lemma ProcessingAt(now: seq<Constraint>, before: seq<Constraint>, ids: seq<nat>, n: nat,
                     index: SignalToConstraints, linear: seq<nat>, sub: Substitution, p: int)
    requires n < |ids| && p > 0 && Processing(now, before, ids, n, index, linear, sub, p)
    ensures ids[n] < |now|
  {
    hide Covers, Stored, Applicable, Rewrite;
  }

  lemma ProcessingNext(now: seq<Constraint>, before: seq<Constraint>, ids: seq<nat>, n: nat,
                       index: SignalToConstraints, index': SignalToConstraints, linear: seq<nat>, sub: Substitution,
                         p: int)
    requires n < |ids| && p > 0 && Processing(now, before, ids, n, index, linear, sub, p)
    requires Indexed(index, sub.to.Keys, ids[n], index')
    ensures ids[n] < |now|
    ensures var c := Rewrite(now[ids[n]], sub, p);
            Processing(now[ids[n] := c], before, ids, n + 1, index', if IsLinear(c) then linear + [ids[n]] else linear,
              sub, p)
  {
    hide Covers, RewrittenAt, Rewrite, Stored, Applicable, Signals, IsLinear, Indexed, Found;
    ProcessingAt(now, before, ids, n, index, linear, sub, p);
    var id := ids[n];
    RewriteForm(now[id], sub, p);
    RewrittenNext(now, before, ids, n, sub, p);
    CoversRewritten(index, index', now, id, Rewrite(now[id], sub, p), sub.to.Keys);
    FoundNext(now, ids, n, linear, Rewrite(now[id], sub, p));
  }

  /** One substitution: the constraints listed for its signal are rewritten, their new signals
      indexed, and those that have become linear reported. */
  method ConstraintProcessing(storage: ConstraintStorage, index: SignalToConstraints, cIds: seq<nat>,
                              substitution: Substitution, p: int)
    returns (index': SignalToConstraints, linear: seq<nat>)
    requires p > 0 && AllStored(storage.constraints, p) && Applicable(substitution, p) &&
             Covers(index, storage.constraints)
    requires forall i :: i in cIds ==> i < |storage.constraints|
    modifies storage
    ensures RewrittenAt(storage.constraints, old(storage.constraints), cIds, |cIds|, substitution, p)
    ensures Covers(index', storage.constraints) && AllStored(storage.constraints, p)
    ensures index'.Keys <= index.Keys + substitution.to.Keys
    ensures forall i :: i in linear ==> i < |storage.constraints| && IsLinear(storage.constraints[i])
    ensures forall m :: 0 <= m < |cIds| && cIds[m] < |storage.constraints| && IsLinear(storage.constraints[cIds[m]]) ==>
              cIds[m] in linear
  {
    hide Covers, RewrittenAt, Rewrite, Stored, AllStored, Applicable, Signals, IsLinear, Indexed;
    ProcessingStart(storage.constraints, cIds, index, substitution, p);
    ghost var before := storage.constraints;
    index', linear := index, [];
    for n := 0 to |cIds|
      invariant Processing(storage.constraints, before, cIds, n, index', linear, substitution, p)
      invariant index'.Keys <= index.Keys + substitution.to.Keys
    {
      hide Processing;
      var cId := cIds[n];
      ProcessingAt(storage.constraints, before, cIds, n, index', linear, substitution, p);
      var rewritten := Rewrite(storage.ReadConstraint(cId).value, substitution, p);
      ghost var wasIndex, wasLinear := index', linear;
      if IsLinear(rewritten) {
        linear := linear + [cId];
      }
      index' := AddToIndex(index', substitution.to.Keys, cId);
      IndexedKeys(wasIndex, substitution.to.Keys, cId, index');
      ProcessingNext(storage.constraints, before, cIds, n, wasIndex, index', wasLinear, substitution, p);
      storage.Replace(cId, rewritten);
    }
  }

  ghost predicate NonLinearOrEmpty(cs: seq<Constraint>) {
    forall i :: 0 <= i < |cs| ==> IsLinear(cs[i]) ==> IsEmpty(cs[i])
  }

  lemma {:induction false} RewriteSeqForm(cs: seq<Constraint>, subs: seq<Substitution>, p: int)
    requires p > 0 && AllStored(cs, p) && forall i :: 0 <= i < |subs| ==> Applicable(subs[i], p)
    ensures |RewriteSeq(cs, subs, p)| == |cs| && AllStored(RewriteSeq(cs, subs, p), p)
  {
    hide Rewrite, Applicable, Stored;
    if subs != [] {
      var before := RewriteSeq(cs, subs[..|subs| - 1], p);
      RewriteSeqForm(cs, subs[..|subs| - 1], p);
      forall i | 0 <= i < |before|
        ensures Stored(Rewrite(before[i], subs[|subs| - 1], p), p)
      {
        RewriteForm(before[i], subs[|subs| - 1], p);
      }
    }
  }

  lemma {:induction false} RewriteSeqMeaning(cs: seq<Constraint>, subs: seq<Substitution>, s: Assignment, p: int)
    requires p > 0 && AllHold(subs, s, p)
    ensures |RewriteSeq(cs, subs, p)| == |cs|
    ensures AllSat(RewriteSeq(cs, subs, p), s, p) <==> AllSat(cs, s, p)
  {
    hide Rewrite, Sat, Holds;
    if subs != [] {
      var n := |subs| - 1;
      var before := RewriteSeq(cs, subs[..n], p);
      RewriteSeqMeaning(cs, subs[..n], s, p);
      forall i | 0 <= i < |before|
        ensures Sat(RewriteAll(before, subs[n], p)[i], s, p) <==> Sat(before[i], s, p)
      {
        RewriteMeaning(before[i], subs[n], s, p);
      }
    }
  }

  /** The state of the loop over substitutions. */
  ghost predicate Rewriting(now: seq<Constraint>, start: seq<Constraint>, subs: seq<Substitution>, n: nat,
                            index: SignalToConstraints, linearId: seq<nat>, p: int)
    requires n <= |subs| && p > 0
  {
    && now == RewriteSeq(start, subs[..n], p) && AllStored(now, p) && Covers(index, now)
    && (forall i :: i in linearId ==> i < |now| && IsLinear(now[i]))
    && (forall i :: 0 <= i < |now| && IsLinear(now[i]) ==> i in linearId || IsEmpty(now[i]))
  }

  lemma RewritingStart(cs: seq<Constraint>, subs: seq<Substitution>, index: SignalToConstraints, p: int)
    requires p > 0 && AllStored(cs, p) && Covers(index, cs) && NonLinearOrEmpty(cs)
    ensures Rewriting(cs, cs, subs, 0, index, [], p) && ListsOnly(index, index, subs, 0)
  {
    assert subs[..0] == [];
  }

  function Ids(index: SignalToConstraints, x: nat): seq<nat> {
    if x in index then index[x] else []
  }

  lemma RewritingNext(was: seq<Constraint>, now: seq<Constraint>, start: seq<Constraint>, subs: seq<Substitution>,
                      n: nat,
                      index: SignalToConstraints, index': SignalToConstraints, linearId: seq<nat>, more: seq<nat>,
                        p: int)
    requires n < |subs| && p > 0 && Rewriting(was, start, subs, n, index, linearId, p) && Applicable(subs[n], p)
    requires var ids := Ids(index, subs[n].from); RewrittenAt(now, was, ids, |ids|, subs[n], p)
    requires Covers(index', now) && AllStored(now, p)
    requires forall i :: i in more ==> i < |now| && IsLinear(now[i])
    requires var ids := Ids(index, subs[n].from);
             forall m :: 0 <= m < |ids| && ids[m] < |now| && IsLinear(now[ids[m]]) ==> ids[m] in more
    ensures Rewriting(now, start, subs, n + 1, index', linearId + more, p)
  {
    hide Rewrite, Stored, Covers, Applicable, IsLinear, IsEmpty;
    RewrittenCovered(now, was, index, subs[n], p);
    assert subs[..n + 1][..n] == subs[..n];
    StaysLinear(was, subs[n], p);
    forall i | 0 <= i < |now| && IsLinear(now[i]) && !IsEmpty(now[i])
      ensures i in linearId + more
    {
      if i !in Ids(index, subs[n].from) {
        UntouchedLinear(was, now, Ids(index, subs[n].from), i, subs[n], p);
      }
    }
  }

  lemma StaysLinear(was: seq<Constraint>, sub: Substitution, p: int)
    requires p > 0 && AllStored(was, p) && Applicable(sub, p)
    ensures |RewriteAll(was, sub, p)| == |was|
    ensures forall i :: 0 <= i < |was| && IsLinear(was[i]) ==> IsLinear(RewriteAll(was, sub, p)[i])
  {
    hide Rewrite, Stored, Applicable, IsLinear;
    forall i | 0 <= i < |was| && IsLinear(was[i])
      ensures IsLinear(RewriteAll(was, sub, p)[i])
    {
      RewriteForm(was[i], sub, p);
    }
  }

  lemma UntouchedLinear(was: seq<Constraint>, now: seq<Constraint>, ids: seq<nat>, i: nat, sub: Substitution, p: int)
    requires p > 0 && RewrittenAt(now, was, ids, |ids|, sub, p) && i < |was| && i !in ids
    ensures now[i] == was[i]
  {
    hide Rewrite;
    assert ids[..|ids|] == ids;
  }

  /** The index gained right-hand side signals only. */
  ghost predicate ListsOnly(index': SignalToConstraints, index: SignalToConstraints, subs: seq<Substitution>, n: nat)
    requires n <= |subs|
  {
    forall x :: x in index' ==> x in index || exists j :: 0 <= j < n && x in subs[j].to
  }

  lemma ListsNext(now: SignalToConstraints, was: SignalToConstraints, index: SignalToConstraints,
                  subs: seq<Substitution>, n: nat)
    requires n < |subs| && ListsOnly(was, index, subs, n) && now.Keys <= was.Keys + subs[n].to.Keys
    ensures ListsOnly(now, index, subs, n + 1)
  {
    forall x | x in now && x !in index
      ensures exists j :: 0 <= j < n + 1 && x in subs[j].to
    {
      if x !in subs[n].to {
        assert x in was.Keys;
        var j :| 0 <= j < n && x in subs[j].to;
      }
    }
  }

  /** Apply a list of substitutions to the store through the index; the constraints that became
      linear leave the store. The result is that of rewriting every constraint. */
  method ApplySubstitutionToMap(storage: ConstraintStorage, index: SignalToConstraints,
                                substitutions: seq<Substitution>, p: int)
    returns (index': SignalToConstraints, linear: seq<Constraint>)
    requires p > 0 && AllStored(storage.constraints, p) && Covers(index, storage.constraints) &&
             NonLinearOrEmpty(storage.constraints)
    requires forall i :: 0 <= i < |substitutions| ==> Applicable(substitutions[i], p)
    modifies storage
    ensures Extracted(storage.constraints, linear, RewriteSeq(old(storage.constraints), substitutions, p))
    ensures Covers(index', storage.constraints) && AllStored(storage.constraints, p)
    ensures ListsOnly(index', index, substitutions, |substitutions|)
    ensures substitutions == [] ==> linear == []
  {
    hide Covers, Applicable, AllStored, RewriteSeq, NonLinearOrEmpty, Rewriting, RewrittenAt, Ids, ListsOnly, Leaving,
         Extracted, IsLinear;
    ghost var start := storage.constraints;
    index' := index;
    var linearId: seq<nat> := [];
    RewritingStart(start, substitutions, index, p);
    for n := 0 to |substitutions|
      invariant Rewriting(storage.constraints, start, substitutions, n, index', linearId, p)
      invariant ListsOnly(index', index, substitutions, n) && (n == 0 ==> linearId == [])
    {
      var substitution := substitutions[n];
      var cIds := Ids(index', substitution.from);
      ghost var was, wasIndex := storage.constraints, index';
      RewritingFacts(was, start, substitutions, n, index', linearId, p);
      IdsValid(index', substitution.from, storage.constraints);
      var newLinear;
      index', newLinear := ConstraintProcessing(storage, index', cIds, substitution, p);
      RewritingNext(was, storage.constraints, start, substitutions, n, wasIndex, index', linearId, newLinear, p);
      ListsNext(index', wasIndex, index, substitutions, n);
      linearId := linearId + newLinear;
    }
    ghost var final := storage.constraints;
    LeavingStart(final, start, substitutions, index', linearId, p);
    linear := [];
    for n := 0 to |linearId|
      invariant Leaving(storage.constraints, linear, final, linearId, n) && |linear| == n
    {
      var cId := linearId[n];
      LeavingNext(storage.constraints, linear, final, linearId, n);
      linear := linear + [storage.ReadConstraint(cId).value];
      storage.Replace(cId, EMPTY);
    }
    LeavingEnd(storage.constraints, linear, final, start, substitutions, index', linearId, p);
  }

  lemma IdsValid(index: SignalToConstraints, x: nat, cs: seq<Constraint>)
    requires Covers(index, cs)
    ensures forall i :: i in Ids(index, x) ==> i < |cs|
  {
  }

  /** Emptying the constraints that became linear, one id at a time; a repeated id finds it empty. */
  ghost predicate Leaving(now: seq<Constraint>, linear: seq<Constraint>, final: seq<Constraint>, ids: seq<nat>, n: nat)
    requires n <= |ids|
  {
    && |now| == |final|
    && (forall i :: i in ids ==> i < |final| && IsLinear(final[i]))
    && (forall i :: 0 <= i < |final| ==> now[i] == if i in ids[..n] then EMPTY else final[i])
    && (forall c :: c in linear ==> c == EMPTY || (c in final && IsLinear(c)))
    && (forall i :: i in ids[..n] && i < |final| ==> final[i] in linear)
  }

  lemma RewritingFacts(now: seq<Constraint>, start: seq<Constraint>, subs: seq<Substitution>, n: nat,
                       index: SignalToConstraints, linearId: seq<nat>, p: int)
    requires n <= |subs| && p > 0 && Rewriting(now, start, subs, n, index, linearId, p)
    ensures AllStored(now, p) && Covers(index, now)
  {
  }

  lemma LeavingStart(final: seq<Constraint>, start: seq<Constraint>, subs: seq<Substitution>,
                     index: SignalToConstraints, linearId: seq<nat>, p: int)
    requires p > 0 && Rewriting(final, start, subs, |subs|, index, linearId, p)
    ensures Leaving(final, [], final, linearId, 0)
  {
    hide Covers, AllStored, RewriteSeq, IsLinear;
  }

  /** When every listed constraint has left, what is left and what has left say what the rewritten store said. */
  lemma LeavingEnd(now: seq<Constraint>, linear: seq<Constraint>, final: seq<Constraint>, start: seq<Constraint>,
                   subs: seq<Substitution>, index: SignalToConstraints, linearId: seq<nat>, p: int)
    requires p > 0 && Rewriting(final, start, subs, |subs|, index, linearId, p)
    requires Leaving(now, linear, final, linearId, |linearId|)
    ensures Extracted(now, linear, RewriteSeq(start, subs, p)) && Covers(index, now) && AllStored(now, p)
  {
    hide Covers, AllStored, RewriteSeq, IsLinear, Leaving, Extracted, IsEmpty;
    assert subs[..|subs|] == subs;
    LeavingDone(now, linear, final, linearId, index, p);
  }

  lemma LeavingNext(now: seq<Constraint>, linear: seq<Constraint>, final: seq<Constraint>, ids: seq<nat>, n: nat)
    requires n < |ids| && Leaving(now, linear, final, ids, n)
    ensures ids[n] < |now| && Leaving(now[ids[n] := EMPTY], linear + [now[ids[n]]], final, ids, n + 1)
  {
    hide IsLinear;
    var id := ids[n];
    assert ids[..n + 1] == ids[..n] + [id];
    assert id in ids;
    forall i | i in ids[..n + 1] && i < |final|
      ensures final[i] in linear + [now[id]]
    {
      if i !in ids[..n] { assert (linear + [now[id]])[|linear|] == final[i]; }
    }
  }

  /** The store after extraction: linear constraints left as empty, the rest as rewritten. */
  ghost predicate Extracted(now: seq<Constraint>, linear: seq<Constraint>, final: seq<Constraint>) {
    && |now| == |final|
    && (forall i :: 0 <= i < |final| ==> now[i] == if IsLinear(final[i]) then EMPTY else final[i])
    && (forall c :: c in linear ==> c == EMPTY || (c in final && IsLinear(c)))
    && (forall i :: 0 <= i < |final| && IsLinear(final[i]) && !IsEmpty(final[i]) ==> final[i] in linear)
  }

  lemma EmptyStored(p: int)
    requires p > 0
    ensures Stored(EMPTY, p)
  {
    assert DropZeros(map[]) == map[];
  }

  lemma LeavingDone(now: seq<Constraint>, linear: seq<Constraint>, final: seq<Constraint>, ids: seq<nat>,
                    index: SignalToConstraints, p: int)
    requires Leaving(now, linear, final, ids, |ids|) && p > 0 && AllStored(final, p) && Covers(index, final)
    requires forall i :: 0 <= i < |final| && IsLinear(final[i]) ==> i in ids || IsEmpty(final[i])
    ensures Extracted(now, linear, final) && Covers(index, now) && AllStored(now, p)
  {
    hide Stored;
    assert ids[..|ids|] == ids;
    EmptyStored(p);
    assert forall c :: IsEmpty(c) ==> c == EMPTY;
  }

  /** Extraction loses nothing: store and extracted constraints together say what the rewritten store said. */
  lemma ExtractedMeaning(now: seq<Constraint>, linear: seq<Constraint>, final: seq<Constraint>, s: Assignment, p: int)
    requires Extracted(now, linear, final)
    ensures AllSat(now, s, p) && AllSat(linear, s, p) <==> AllSat(final, s, p)
    ensures NonLinearOrEmpty(now)
  {
    DotEmpty(s);
    CongRefl(0, p);
    assert Sat(EMPTY, s, p);
    assert forall c :: IsEmpty(c) ==> c == EMPTY;
    hide Sat;
    if AllSat(final, s, p) {
      forall i | 0 <= i < |linear|
        ensures Sat(linear[i], s, p)
      {
        assert linear[i] in linear;
      }
    }
    if AllSat(now, s, p) && AllSat(linear, s, p) {
      forall i | 0 <= i < |final|
        ensures Sat(final[i], s, p)
      {
        if !IsLinear(final[i]) { assert now[i] == final[i]; }
      }
    }
  }
}
