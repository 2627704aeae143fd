/** What the three frames do one after the other, and why frames pruned to the relevant signals
    do the same (the frame handling of `simplification` in constraint_simplification.rs). */
module FrameChain {
  import opened Field
  import opened LinearCombination
  import opened Algebra
  import opened Constraints
  import opened Clusters
  import opened ClusterFacts
  import opened Equalities
  import opened Frames
  import opened EqSimplification
  import opened ConstantEqualities
  import opened FullSimplification
  import opened NonLinear

  // ---- The kinds of frame

  /** Signals renamed to signals that are not themselves renamed. */
  ghost predicate RenameFrame(enc: Encoded) {
    0 !in enc && forall k :: k in enc ==> enc[k].Signal? && enc[k].symbol != 0 && enc[k].symbol !in enc
  }

  ghost predicate ConstantFrame(enc: Encoded, p: int) {
    0 !in enc && forall k :: k in enc ==>
      To(enc[k]).Keys <= {0} && Canonical(To(enc[k]), p) && NewSubstitution(k, enc[k]).Some?
  }

  /** A frame whose right-hand sides stay within a scope. */
  ghost predicate ScopedFrame(enc: Encoded, scope: set<nat>, p: int) {
    NonOverlapping(enc) && CanonicalFrame(enc, p) && RhsKeys(enc) <= scope
  }

  lemma RenameIsFrame(enc: Encoded, p: int)
    requires RenameFrame(enc) && p > 1
    ensures NonOverlapping(enc) && CanonicalFrame(enc, p)
  {
  }

  lemma ConstantIsFrame(enc: Encoded, p: int)
    requires ConstantFrame(enc, p)
    ensures NonOverlapping(enc) && CanonicalFrame(enc, p) && RhsKeys(enc) <= {0}
  {
  }

  lemma RenamesFrame(subs: seq<Substitution>, clusters: seq<Cluster>, linear: seq<Constraint>, forbidden: set<nat>)
    requires Components(clusters, linear) && RenamesOf(subs, clusters, Indices(clusters), forbidden) && 0 in forbidden
    ensures RenameFrame(EncodedOf(subs)) && EncodedOf(subs).Keys !! forbidden && DistinctFroms(subs)
    ensures forall k :: k in EncodedOf(subs) ==>
            k in Mentioned(linear) && EncodedOf(subs)[k].symbol in Mentioned(linear)
  {
    hide Components, EncodedOf, RenamesOf, Mentioned;
    var enc := EncodedOf(subs);
    forall k | k in enc
      ensures k !in forbidden && enc[k].Signal? && enc[k].symbol != 0 && enc[k].symbol !in enc
      ensures k in Mentioned(linear) && enc[k].symbol in Mentioned(linear)
    {
      RenameFacts(subs, clusters, linear, forbidden, k);
    }
    assert DistinctFroms(subs) by { RenamesDistinct(subs, clusters, forbidden); }
  }

  lemma RenamesDistinct(subs: seq<Substitution>, clusters: seq<Cluster>, forbidden: set<nat>)
    requires RenamesOf(subs, clusters, Indices(clusters), forbidden)
    ensures DistinctFroms(subs)
  {
  }

  lemma RenameFacts(subs: seq<Substitution>, clusters: seq<Cluster>, linear: seq<Constraint>, forbidden: set<nat>,
                    k: nat)
    requires Components(clusters, linear) && RenamesOf(subs, clusters, Indices(clusters), forbidden) && 0 in forbidden
    requires k in EncodedOf(subs)
    ensures var e := EncodedOf(subs)[k];
            k !in forbidden && e.Signal? && e.symbol != 0 && e.symbol !in EncodedOf(subs) && k in Mentioned(linear) &&
              e.symbol in Mentioned(linear)
  {
    hide Components, EncodedOf, RenamesOf, IntoExpr, Mentioned, Representative;
    var i, r := EntryRenamed(subs, clusters, forbidden, k);
    RenameEntry(subs, clusters, forbidden, k, i, r);
    RepresentativeIn(Sig(clusters[i].constraints), forbidden);
    SigMentioned(clusters, linear, i, k);
    SigMentioned(clusters, linear, i, r);
    SignalOf(r);
    if r in EncodedOf(subs) {
      var j, q := EntryRenamed(subs, clusters, forbidden, r);
      hide Sig;
      SharedSignal(clusters, linear, i, j, r);
    }
  }

  lemma SignalOf(r: nat)
    requires r != 0
    ensures IntoExpr(map[r := 1]) == Signal(r)
  {
    assert |map[r := 1]| == 1;
    var k := OnlyKey(map[r := 1]);
    assert k in map[r := 1];
  }

  lemma RepresentativeIn(sig: set<nat>, forbidden: set<nat>)
    requires sig != {}
    ensures Representative(sig, forbidden) in sig
  {
  }

  lemma SigMentioned(clusters: seq<Cluster>, linear: seq<Constraint>, i: nat, x: nat)
    requires Components(clusters, linear) && i < |clusters| && x in Sig(clusters[i].constraints)
    ensures x in Mentioned(linear) && x != 0
  {
    hide Components;
    var c :| c in clusters[i].constraints && x in Signals(c);
    ClusterMember(clusters, linear, i);
    assert c in linear && x in Keys(c);
  }

  lemma ConstantsFrame(cs: seq<Constraint>, forbidden: set<nat>, p: int)
    requires Prime(p) && AllConstant(cs, p)
    ensures var enc := EncodedOf(Definitions(cs, forbidden, p));
            ConstantFrame(enc, p) && enc.Keys !! forbidden && enc.Keys <= Mentioned(cs)
  {
    hide Definitions, EncodedOf, IntoExpr, To, CleanConstant, Mentioned, NewSubstitution;
    var subs := Definitions(cs, forbidden, p);
    var enc := EncodedOf(subs);
    forall k | k in enc
      ensures k != 0 && To(enc[k]).Keys <= {0} && Canonical(To(enc[k]), p) && NewSubstitution(k, enc[k]).Some?
      ensures k !in forbidden && k in Mentioned(cs)
    {
      var i := EncodedEntry(subs, k);
      assert subs[i] in subs;
      DefinitionsForm(cs, forbidden, subs[i], p);
      var j :| 0 <= j < |cs| && k in Signals(cs[j]);
      InMentioned(cs, j, k);
      IntoExprTo(subs[i].to, k, (n: nat) => 0, p);
      DefinesOther(k, subs[i].to);
    }
  }

  lemma {:induction false} EncodedHas(subs: seq<Substitution>, i: nat)
    requires i < |subs|
    ensures subs[i].from in EncodedOf(subs)
  {
    hide IntoExpr;
    if i < |subs| - 1 { EncodedHas(subs[..|subs| - 1], i); }
  }

  /** Every removable signal with a constant equality is in the frame. */
  lemma ConstantsDefined(cs: seq<Constraint>, forbidden: set<nat>, p: int)
    requires Prime(p) && AllConstant(cs, p) && 0 in forbidden
    ensures EncodedOf(Definitions(cs, forbidden, p)).Keys == Mentioned(cs) - forbidden
  {
    hide Definitions, EncodedOf, CleanConstant, Mentioned, Definition, FixedSignal, Signals;
    ConstantsFrame(cs, forbidden, p);
    var subs := Definitions(cs, forbidden, p);
    forall x | x in Mentioned(cs) && x !in forbidden
      ensures x in EncodedOf(subs)
    {
      var i := MentionedBy(cs, x);
      DefinitionMeaning(cs[i], p);
      OneSignal(cs[i], p);
      var d := Definition(cs[i], p).value;
      assert Defines(cs[i], forbidden, d, p);
      InDefinitions(cs, forbidden, d, p);
      var j :| 0 <= j < |subs| && subs[j] == d;
      EncodedHas(subs, j);
    }
  }

  lemma MentionedBy(cs: seq<Constraint>, x: nat) returns (i: nat)
    requires x in Mentioned(cs) && x != 0
    ensures i < |cs| && x in Signals(cs[i])
  {
    var c :| c in cs && x in Keys(c);
    i :| 0 <= i < |cs| && cs[i] == c;
  }

  lemma InMentioned(cs: seq<Constraint>, i: nat, x: nat)
    requires i < |cs| && x in Keys(cs[i])
    ensures x in Mentioned(cs)
  {
    assert cs[i] in cs;
  }

  /** The map form of a definition can be made a definition again. */
  lemma DefinesOther(k: nat, m: LC)
    requires k !in m && k != 0
    ensures NewSubstitution(k, IntoExpr(m)).Some?
  {
  }

  lemma SolvedFrame(subs: seq<Substitution>, forbidden: set<nat>, scope: set<nat>, p: int)
    requires SolvedForm(subs, forbidden, scope, p) && 0 in forbidden && 0 in scope && p > 1
    ensures ScopedFrame(EncodedOf(subs), scope, p)
    ensures EncodedOf(subs).Keys !! forbidden && EncodedOf(subs).Keys <= scope && DistinctFroms(subs)
  {
    hide EncodedOf, IntoExpr, To, NewSubstitution;
    var enc := EncodedOf(subs);
    forall k | k in enc
      ensures k !in forbidden && k in scope
      ensures To(enc[k]).Keys <= scope && To(enc[k]).Keys !! enc.Keys
      ensures Canonical(To(enc[k]), p) && NewSubstitution(k, enc[k]).Some?
    {
      var i := EncodedEntry(subs, k);
      assert subs[i].from !in subs[i].to;
      IntoExprTo(subs[i].to, k, (n: nat) => 0, p);
      DefinesOther(k, subs[i].to);
      forall j | j in To(enc[k])
        ensures j !in enc
      {
        EncodedKeys(subs, j);
      }
    }
  }

  /** The definitions of relevant signals, in order. */
  function OnlyRelevant(subs: seq<Substitution>, relevant: set<nat>): (r: seq<Substitution>)
    ensures forall d :: d in r ==> d in subs
  {
    if subs == [] then []
    else OnlyRelevant(subs[..|subs| - 1], relevant) + if subs[|subs| - 1].from in relevant then [subs[|subs| - 1]]
      else []
  }

  lemma EncodedLast(subs: seq<Substitution>, d: Substitution)
    ensures EncodedOf(subs + [d]) == EncodedOf(subs)[d.from := IntoExpr(d.to)]
  {
    hide IntoExpr;
    assert (subs + [d])[..|subs|] == subs;
  }

  lemma OnlyRelevantLast(subs: seq<Substitution>, relevant: set<nat>)
    requires subs != []
    ensures var before, d := OnlyRelevant(subs[..|subs| - 1], relevant), subs[|subs| - 1];
            OnlyRelevant(subs, relevant) == if d.from in relevant then before + [d] else before
  {
  }

  lemma PrunedLast(enc: Encoded, k: nat, e: Expr, relevant: set<nat>)
    ensures Pruned(enc[k := e], relevant) ==
            if k in relevant then Pruned(enc, relevant)[k := e] else Pruned(enc, relevant)
  {
  }

  /** Pruning the list of definitions is pruning their map. */
  lemma {:induction false} OnlyRelevantEncoded(subs: seq<Substitution>, relevant: set<nat>)
    ensures EncodedOf(OnlyRelevant(subs, relevant)) == Pruned(EncodedOf(subs), relevant)
  {
    hide IntoExpr;
    if subs != [] {
      var n := |subs| - 1;
      OnlyRelevantEncoded(subs[..n], relevant);
      OnlyRelevantLast(subs, relevant);
      hide OnlyRelevant, EncodedOf, Pruned;
      EncodedLast(OnlyRelevant(subs[..n], relevant), subs[n]);
      EncodedLast(subs[..n], subs[n]);
      assert subs == subs[..n] + [subs[n]];
      PrunedLast(EncodedOf(subs[..n]), subs[n].from, IntoExpr(subs[n].to), relevant);
    }
  }

  // ---- One frame applied

  /** Where each signal of the result comes from. */
  lemma FrameSource(c: Constraint, enc: Encoded, p: int, x: nat) returns (k: nat)
    requires p > 0 && NonOverlapping(enc) && x in Keys(ApplyFrame(c, enc, p)) && x != 0
    ensures x !in enc
    ensures x in Keys(c) || (k in Signals(c) && k in enc && x in To(enc[k]))
  {
    var less := Pruned(enc, Signals(c));
    assert NonOverlapping(less);
    hide ApplyFrame, NonOverlapping, To, Keys;
    FramePruned(c, enc, less, p);
    FrameKeys(c, enc, p);
    FrameKeys(c, less, p);
    k := 0;
    if x !in Keys(c) {
      assert x in RhsKeys(less);
      k :| k in less && x in To(less[k]);
    }
  }

  lemma PrunedRename(enc: Encoded, relevant: set<nat>)
    requires RenameFrame(enc)
    ensures RenameFrame(Pruned(enc, relevant))
  {
  }

  /** Renaming leaves exactly renamed signals. */
  lemma RenamedSignals(c: Constraint, enc: Encoded, p: int, x: nat) returns (y: nat)
    requires p > 1 && RenameFrame(enc) && x in Signals(ApplyFrame(c, enc, p))
    ensures y in Signals(c) && x == Unwrapped(enc, y) && x !in enc
  {
    hide ApplyFrame, NonOverlapping;
    RenameIsFrame(enc, p);
    var k := FrameSource(c, enc, p, x);
    y := if x in Keys(c) then x else k;
  }

  // ---- The chain

  /** The three frames as they are applied to the flattened constraints. */
  ghost predicate Chain(single: Encoded, cons: Encoded, linear: Encoded, scope: set<nat>, p: int) {
    && p > 1 && RenameFrame(single) && ConstantFrame(cons, p) && ScopedFrame(linear, scope, p)
    && single.Keys !! cons.Keys && scope !! single.Keys && scope !! cons.Keys && linear.Keys <= scope
  }

  /** The three frames after pruning. */
  ghost function PrunedChain(cs: seq<Constraint>, single: Encoded, cons: Encoded, linear: Encoded): seq<Encoded> {
    var kept := Pruned(single, RelevantOf(cs, map[], map[]));
    [kept, cons, Pruned(linear, RelevantOf(cs, kept, cons))]
  }

  lemma ThreeFrames(c: Constraint, one: Encoded, two: Encoded, three: Encoded, p: int)
    requires p > 0
    ensures Framed(c, [one, two, three], p) == ApplyFrame(ApplyFrame(ApplyFrame(c, one, p), two, p), three, p)
  {
    hide ApplyFrame;
    assert [one, two, three][..2] == [one, two] && [one, two][..1] == [one] && [one][..0] == [];
    assert Framed(c, [one], p) == ApplyFrame(Framed(c, [], p), one, p);
    assert Framed(c, [one, two], p) == ApplyFrame(Framed(c, [one], p), two, p);
  }

  /** Pruning to the relevant signals changes the result of no flattened constraint. */
  lemma PrunedSame(cs: seq<Constraint>, c: Constraint, single: Encoded, cons: Encoded, linear: Encoded,
                   scope: set<nat>, p: int)
    requires Chain(single, cons, linear, scope, p) && c in cs
    ensures Framed(c, PrunedChain(cs, single, cons, linear), p) == Framed(c, [single, cons, linear], p)
  {
    hide ApplyFrame, ScopedFrame, NonOverlapping, RenameFrame, ConstantFrame;
    var first := RelevantOf(cs, map[], map[]);
    var kept := Pruned(single, first);
    var second := RelevantOf(cs, kept, cons);
    var last := Pruned(linear, second);
    PrunedRename(single, first);
    ConstantIsFrame(cons, p);
    assert Signals(c) <= first by { RelevantPlain(cs, c); }
    FramePruned(c, single, kept, p);
    var renamed := ApplyFrame(c, kept, p);
    var constants := ApplyFrame(renamed, cons, p);
    forall x | x in Signals(constants)
      ensures x in second
    {
      var k := FrameSource(renamed, cons, p, x);
      assert x in Signals(renamed) by { ConstantAddsNothing(cons, p, k, x); }
      var y := RenamedSignals(c, kept, p, x);
      RelevantHas(cs, c, kept, cons, y);
    }
    FramePruned(constants, linear, last, p);
    ThreeFrames(c, kept, cons, last, p);
    ThreeFrames(c, single, cons, linear, p);
  }

  lemma ConstantAddsNothing(cons: Encoded, p: int, k: nat, x: nat)
    requires ConstantFrame(cons, p) && x != 0
    ensures !(k in cons && x in To(cons[k]))
  {
  }

  lemma RelevantPlain(cs: seq<Constraint>, c: Constraint)
    requires c in cs
    ensures Signals(c) <= RelevantOf(cs, map[], map[])
  {
    forall x | x in Signals(c)
      ensures x in RelevantOf(cs, map[], map[])
    {
      RelevantHas(cs, c, map[], map[], x);
    }
  }

  lemma RelevantHas(cs: seq<Constraint>, c: Constraint, renames: Encoded, deletes: Encoded, x: nat)
    requires c in cs && x in Signals(c) && Unwrapped(renames, x) !in deletes
    ensures Unwrapped(renames, x) in RelevantOf(cs, renames, deletes)
  {
    hide Signals, Unwrapped;
  }

  /** After the chain no signal any frame defines is left, and every signal left was there,
      is a renaming target, or is in the scope of the linear frame. */
  lemma ChainKeys(c: Constraint, single: Encoded, cons: Encoded, linear: Encoded, scope: set<nat>, p: int, x: nat)
    requires Chain(single, cons, linear, scope, p) && x in Signals(Framed(c, [single, cons, linear], p))
    ensures x !in single && x !in cons && x !in linear
    ensures x in scope || exists y :: y in Signals(c) && x == Unwrapped(single, y)
  {
    ThreeFrames(c, single, cons, linear, p);
    ConstantIsFrame(cons, p);
    assert NonOverlapping(linear) && RhsKeys(linear) <= scope;
    hide ApplyFrame, ScopedFrame, NonOverlapping, RenameFrame, ConstantFrame, To, Unwrapped;
    var renamed := ApplyFrame(c, single, p);
    var constants := ApplyFrame(renamed, cons, p);
    var k := FrameSource(constants, linear, p, x);
    if x in Keys(constants) {
      var l := FrameSource(renamed, cons, p, x);
      assert x in Signals(renamed) by { ConstantAddsNothing(cons, p, l, x); }
      var y := RenamedSignals(c, single, p, x);
    } else {
      assert x in RhsKeys(linear);
    }
  }

  lemma ChainCanonical(c: Constraint, single: Encoded, cons: Encoded, linear: Encoded, scope: set<nat>, p: int)
    requires Chain(single, cons, linear, scope, p) && CleanConstraint(c, p)
    ensures var d := Framed(c, [single, cons, linear], p); Canonical(d.a, p) && Canonical(d.b, p) && Canonical(d.c, p)
  {
    ThreeFrames(c, single, cons, linear, p);
    RenameIsFrame(single, p);
    ConstantIsFrame(cons, p);
    assert NonOverlapping(linear) && CanonicalFrame(linear, p);
    hide ApplyFrame, ScopedFrame, NonOverlapping, RenameFrame, ConstantFrame, To;
    FrameStaysCanonical(c, single, p);
    FrameStaysCanonical(ApplyFrame(c, single, p), cons, p);
    FrameStaysCanonical(ApplyFrame(ApplyFrame(c, single, p), cons, p), linear, p);
  }

  lemma FrameStaysCanonical(c: Constraint, enc: Encoded, p: int)
    requires p > 0 && NonOverlapping(enc) && CanonicalFrame(enc, p) && Canonical(c.a, p) && Canonical(c.b, p) &&
             Canonical(c.c, p)
    ensures var d := ApplyFrame(c, enc, p); Canonical(d.a, p) && Canonical(d.b, p) && Canonical(d.c, p)
  {
    FrameKeys(c, enc, p);
  }

  lemma ChainMeaning(c: Constraint, single: Encoded, cons: Encoded, linear: Encoded, s: Assignment, p: int)
    requires p > 0 && EncodedHolds(single, s, p) && EncodedHolds(cons, s, p) && EncodedHolds(linear, s, p)
    ensures Sat(Framed(c, [single, cons, linear], p), s, p) <==> Sat(c, s, p)
  {
    hide ApplyFrame, EncodedHolds, Sat;
    ThreeFrames(c, single, cons, linear, p);
    FrameMeaning(c, single, s, p);
    FrameMeaning(ApplyFrame(c, single, p), cons, s, p);
    FrameMeaning(ApplyFrame(ApplyFrame(c, single, p), cons, p), linear, s, p);
  }
}
