/** Lists of definitions in which a signal is never mentioned once it has been defined away,
    and the unique extension of an assignment to the signals they define. */
module Solutions {
  import opened Field
  import opened LinearCombination
  import opened Constraints
  import opened Elimination
  import opened SortedSets
  import opened Frames
  import opened FullSimplification

  ghost function Froms(defs: seq<Substitution>): (r: set<nat>) {
    set i | 0 <= i < |defs| :: defs[i].from
  }

  /** Each signal is defined once, and no definition mentions a signal defined earlier or by itself. */
  ghost predicate Triangular(defs: seq<Substitution>) {
    && (forall i :: 0 <= i < |defs| ==> defs[i].from != 0)
    && (forall i, j :: 0 <= i < j < |defs| ==> defs[i].from != defs[j].from)
    && (forall i, j :: 0 <= i <= j < |defs| ==> defs[i].from !in defs[j].to)
  }

  lemma TriangularAppend(one: seq<Substitution>, two: seq<Substitution>)
    requires Triangular(one) && Triangular(two) && Froms(one) !! Froms(two)
    requires forall j :: 0 <= j < |two| ==> two[j].to.Keys !! Froms(one)
    ensures Triangular(one + two) && Froms(one + two) == Froms(one) + Froms(two)
  {
    var all := one + two;
    assert forall i :: 0 <= i < |one| ==> all[i] == one[i] && one[i].from in Froms(one);
    assert forall j :: 0 <= j < |two| ==> all[|one| + j] == two[j] && two[j].from in Froms(two);
    forall i, j | 0 <= i <= j < |all|
      ensures all[i].from !in all[j].to && (i < j ==> all[i].from != all[j].from)
    {
      if i >= |one| {
        assert all[i] == two[i - |one|] && all[j] == two[j - |one|];
      } else if j >= |one| {
        assert all[j] == two[j - |one|];
      }
    }
    forall x | x in Froms(all) ensures x in Froms(one) + Froms(two) {
      var i :| 0 <= i < |all| && all[i].from == x;
      if i >= |one| { assert all[i] == two[i - |one|]; }
    }
  }

  lemma TriangularFront(defs: seq<Substitution>)
    requires Triangular(defs) && defs != []
    ensures Triangular(defs[..|defs| - 1])
    ensures var d := defs[|defs| - 1];
            d.from !in Froms(defs[..|defs| - 1]) && Froms(defs) == Froms(defs[..|defs| - 1]) + {d.from} &&
              d.to.Keys !! Froms(defs)
  {
    var n := |defs| - 1;
    assert forall i :: 0 <= i < n ==> defs[..n][i] == defs[i];
    forall x | x in Froms(defs) ensures x in Froms(defs[..n]) + {defs[n].from} {
      var i :| 0 <= i < |defs| && defs[i].from == x;
      if i < n { assert defs[..n][i].from == x; }
    }
  }

  lemma SolvedTriangular(subs: seq<Substitution>, forbidden: set<nat>, scope: set<nat>, p: int)
    requires SolvedForm(subs, forbidden, scope, p) && 0 in forbidden
    ensures Triangular(subs) && Froms(subs) <= scope && Froms(subs) !! forbidden
  {
  }

  /** The entries of a frame as a list. */
  ghost function FrameDefs(enc: Encoded): seq<Substitution> {
    var keys := Ascending(enc.Keys);
    seq(|keys|, i requires 0 <= i < |keys| => Substitution(keys[i], if keys[i] in enc then To(enc[keys[i]]) else map[]))
  }

  lemma FrameDefsAt(enc: Encoded)
    ensures forall i :: 0 <= i < |FrameDefs(enc)| ==>
              FrameDefs(enc)[i].from in enc && FrameDefs(enc)[i].to == To(enc[FrameDefs(enc)[i].from])
    ensures forall i, j :: 0 <= i < j < |FrameDefs(enc)| ==> FrameDefs(enc)[i].from < FrameDefs(enc)[j].from
    ensures Froms(FrameDefs(enc)) == enc.Keys
  {
    hide To, Ascending;
    var keys, defs := Ascending(enc.Keys), FrameDefs(enc);
    assert |defs| == |keys|;
    forall i | 0 <= i < |defs|
      ensures defs[i].from == keys[i] && defs[i].from in enc && defs[i].to == To(enc[defs[i].from])
    {
      assert keys[i] in keys;
    }
    forall k | k in enc
      ensures k in Froms(defs)
    {
      assert k in keys;
      var i :| 0 <= i < |keys| && keys[i] == k;
      assert defs[i].from == k;
    }
  }

  lemma FrameTriangular(enc: Encoded)
    requires NonOverlapping(enc)
    ensures Triangular(FrameDefs(enc)) && Froms(FrameDefs(enc)) == enc.Keys
    ensures forall i :: 0 <= i < |FrameDefs(enc)| ==> FrameDefs(enc)[i].to.Keys <= RhsKeys(enc)
  {
    hide FrameDefs, To;
    FrameDefsAt(enc);
  }

  lemma FrameDefsMeaning(enc: Encoded, s: Assignment, p: int)
    ensures AllHold(FrameDefs(enc), s, p) <==> EncodedHolds(enc, s, p)
  {
    hide FrameDefs, To, Holds;
    var defs := FrameDefs(enc);
    FrameDefsAt(enc);
    if AllHold(defs, s, p) {
      forall k | k in enc
        ensures Holds(Substitution(k, To(enc[k])), s, p)
      {
        assert k in Froms(defs);
        var i :| 0 <= i < |defs| && defs[i].from == k;
        assert defs[i] == Substitution(k, To(enc[k]));
      }
    }
    if EncodedHolds(enc, s, p) {
      forall i | 0 <= i < |defs|
        ensures Holds(defs[i], s, p)
      {
        assert defs[i] == Substitution(defs[i].from, To(enc[defs[i].from]));
      }
    }
  }

  // ---- Extending an assignment to the defined signals

  ghost function With(s: Assignment, k: nat, v: int): Assignment {
    (j: nat) => if j == k then v else s(j)
  }

  /** The last definition mentions only kept signals, so it is computed first. */
  ghost function Extend(defs: seq<Substitution>, s: Assignment): Assignment {
    if defs == [] then s else
      var d := defs[|defs| - 1];
      Extend(defs[..|defs| - 1], With(s, d.from, Dot(d.to, s)))
  }

  /** Every assignment of the kept signals extends to one satisfying all definitions. */
  lemma {:induction false} ExtendHolds(defs: seq<Substitution>, s: Assignment, p: int)
    requires Triangular(defs)
    ensures AllHold(defs, Extend(defs, s), p)
    ensures forall k :: k !in Froms(defs) ==> Extend(defs, s)(k) == s(k)
  {
    if defs != [] {
      var n := |defs| - 1;
      var d := defs[n];
      var t := Extend(defs, s);
      TriangularFront(defs);
      hide Triangular, Froms, Dot, Cong;
      ExtendHolds(defs[..n], With(s, d.from, Dot(d.to, s)), p);
      DotAgree(d.to, t, s);
      assert Holds(d, t, p) by { DefinedExactly(d, s, t, p, defs); }
      hide Holds;
      forall i | 0 <= i < |defs|
        ensures Holds(defs[i], t, p)
      {
        if i < n { assert defs[i] == defs[..n][i]; }
      }
    }
  }

  lemma DefinedExactly(d: Substitution, s: Assignment, t: Assignment, p: int, defs: seq<Substitution>)
    requires Triangular(defs) && defs != [] && d == defs[|defs| - 1] && t(d.from) == Dot(d.to, s) &&
             Dot(d.to, t) == Dot(d.to, s)
    ensures Holds(d, t, p)
  {
    CongRefl(Dot(d.to, s), p);
  }

  ghost predicate SameOutside(s: Assignment, t: Assignment, defined: set<nat>, p: int) {
    forall k :: k !in defined ==> Cong(s(k), t(k), p)
  }

  lemma {:induction false} DotSame(m: LC, s: Assignment, t: Assignment, defined: set<nat>, p: int)
    requires SameOutside(s, t, defined, p) && m.Keys !! defined
    ensures Cong(Dot(m, s), Dot(m, t), p)
    decreases m.Keys
  {
    hide Cong;
    if m == map[] {
      CongRefl(0, p);
    } else {
      var k :| k in m;
      assert k !in (m - {k}).Keys && (m - {k}).Keys <= m.Keys;
      DotStep(m, s, k);
      DotStep(m, t, k);
      DotSame(m - {k}, s, t, defined, p);
      CongRefl(m[k], p);
      CongRefl(Val(s, k), p);
      CongMul(m[k], m[k], Val(s, k), Val(t, k), p);
      CongAdd(Term(s, k, m[k]), Term(t, k, m[k]), Dot(m - {k}, s), Dot(m - {k}, t), p);
    }
  }

  /** The extension is the only one, up to the field's congruence. */
  lemma {:induction false} ExtendUnique(defs: seq<Substitution>, s: Assignment, t: Assignment, p: int)
    requires Triangular(defs) && AllHold(defs, t, p) && SameOutside(s, t, Froms(defs), p)
    ensures SameOutside(Extend(defs, s), t, {}, p)
  {
    if defs == [] {
      assert Froms(defs) == {};
    } else {
      var n := |defs| - 1;
      var d := defs[n];
      var s1 := With(s, d.from, Dot(d.to, s));
      TriangularFront(defs);
      assert d.from != 0 && Holds(d, t, p);
      hide Triangular, Froms, Dot, Cong;
      DotSame(d.to, s, t, Froms(defs), p);
      CongSym(t(d.from), Dot(d.to, t), p);
      CongTrans(Dot(d.to, s), Dot(d.to, t), t(d.from), p);
      assert SameOutside(s1, t, Froms(defs[..n]), p);
      HoldFront(defs, t, p);
      ExtendUnique(defs[..n], s1, t, p);
    }
  }

  lemma HoldFront(defs: seq<Substitution>, s: Assignment, p: int)
    requires AllHold(defs, s, p) && defs != []
    ensures AllHold(defs[..|defs| - 1], s, p)
  {
    hide Holds;
  }

  lemma SatAgree(c: Constraint, s: Assignment, t: Assignment, p: int)
    requires forall x :: x in Signals(c) ==> s(x) == t(x)
    ensures Sat(c, s, p) <==> Sat(c, t, p)
  {
    hide Cong, Dot;
    assert forall k :: (k in c.a || k in c.b || k in c.c) && k != 0 ==> k in Signals(c);
    DotAgree(c.a, s, t);
    DotAgree(c.b, s, t);
    DotAgree(c.c, s, t);
  }

  /** Constraints that mention only kept signals do not see the extension. */
  lemma SatOutside(c: Constraint, s: Assignment, t: Assignment, defined: set<nat>, p: int)
    requires Signals(c) !! defined && forall k :: k !in defined ==> s(k) == t(k)
    ensures Sat(c, s, p) <==> Sat(c, t, p)
  {
    hide Cong, Dot;
    assert forall k :: (k in c.a || k in c.b || k in c.c) && k != 0 ==> k in Signals(c);
    DotAgree(c.a, s, t);
    DotAgree(c.b, s, t);
    DotAgree(c.c, s, t);
  }
}
