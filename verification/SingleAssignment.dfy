/** No run that raises no error assigns a signal twice, and the recorded states mean what they say. */
module SingleAssignment {
  import opened Field
  import opened SignalAssignment

  predicate Follows(v: Valuation, c: Conditions) {
    forall i :: 0 <= i < |c| ==> v(c[i].id) == c[i].taken
  }

  /** How many of the recorded assignments a valuation performs. */
  function Count(history: seq<Conditions>, v: Valuation): nat {
    if history == [] then 0 else Count(history[..|history| - 1], v) + if Follows(v, history[|history| - 1]) then 1
      else 0
  }

  lemma {:induction false} CountConcat(one: seq<Conditions>, two: seq<Conditions>, v: Valuation)
    ensures Count(one + two, v) == Count(one, v) + Count(two, v)
  {
    hide Follows;
    if two == [] {
      assert one + two == one;
    } else {
      var n := |two| - 1;
      assert (one + two)[..|one| + n] == one + two[..n];
      CountConcat(one, two[..n], v);
    }
  }

  lemma CountSnoc(history: seq<Conditions>, c: Conditions, v: Valuation)
    ensures Count(history + [c], v) == Count(history, v) + if Follows(v, c) then 1 else 0
  {
    hide Follows;
    assert (history + [c])[..|history|] == history;
  }

  // ---- The assignments of a run, each with the conditions it happened under

  ghost function Paths(s: Statement, x: nat, now: Conditions, k: nat): seq<Conditions>
    decreases s, 0
  {
    match s
    case Assign(cells) => if x in cells then [now] else []
    case Unknown(t, e) =>
      PathsAll(t, x, now + [Branch(k, true)], k + 1)
      + (if e.Else? then PathsAll(e.statements, x, now + [Branch(k, false)], k + 1 + WidthAll(t)) else [])
    case Decided(value, t, e) =>
      if value then PathsAll(t, x, now, k) else if e.Else? then PathsAll(e.statements, x, now, k) else []
  }

  ghost function PathsAll(ss: seq<Statement>, x: nat, now: Conditions, k: nat): seq<Conditions>
    decreases ss, 1
  {
    if ss == [] then [] else
      var front := ss[..|ss| - 1];
      PathsAll(front, x, now, k) + Paths(ss[|ss| - 1], x, now, k + WidthAll(front))
  }

  lemma FollowsPush(v: Valuation, now: Conditions, b: Branch)
    ensures Follows(v, now + [b]) <==> Follows(v, now) && v(b.id) == b.taken
  {
    if Follows(v, now + [b]) {
      assert (now + [b])[|now|] == b;
      assert forall i :: 0 <= i < |now| ==> (now + [b])[i] == now[i];
    }
  }

  /** The recorded assignments a valuation performs are those of the run that follows it. */
  lemma {:induction false} PathsAreTimes(s: Statement, x: nat, now: Conditions, k: nat, v: Valuation)
    ensures Count(Paths(s, x, now, k), v) == if Follows(v, now) then Times(s, x, v, k) else 0
    decreases s, 0
  {
    match s {
      case Assign(cells) =>
        CountSnoc([], now, v);
        assert [] + [now] == [now];
      case Unknown(t, e) =>
        PathsAllAreTimes(t, x, now + [Branch(k, true)], k + 1, v);
        FollowsPush(v, now, Branch(k, true));
        FollowsPush(v, now, Branch(k, false));
        if e.Else? {
          PathsAllAreTimes(e.statements, x, now + [Branch(k, false)], k + 1 + WidthAll(t), v);
          CountConcat(PathsAll(t, x, now + [Branch(k, true)], k + 1),
            PathsAll(e.statements, x, now + [Branch(k, false)], k + 1 + WidthAll(t)), v);
        } else {
          assert PathsAll(t, x, now + [Branch(k, true)], k + 1) + [] == PathsAll(t, x, now + [Branch(k, true)], k + 1);
        }
      case Decided(value, t, e) =>
        if value {
          PathsAllAreTimes(t, x, now, k, v);
        } else if e.Else? {
          PathsAllAreTimes(e.statements, x, now, k, v);
        }
    }
  }

  lemma CountNothing(v: Valuation)
    ensures Count([], v) == 0
  {
  }

  lemma {:induction false} PathsAllAreTimes(ss: seq<Statement>, x: nat, now: Conditions, k: nat, v: Valuation)
    ensures Count(PathsAll(ss, x, now, k), v) == if Follows(v, now) then TimesAll(ss, x, v, k) else 0
    decreases ss, 1
  {
    hide Paths, Times, Count, Follows, WidthAll;
    if ss == [] {
      CountNothing(v);
    } else {
      var front, last := ss[..|ss| - 1], ss[|ss| - 1];
      PathsAllAreTimes(front, x, now, k, v);
      PathsAreTimes(last, x, now, k + WidthAll(front), v);
      CountConcat(PathsAll(front, x, now, k), Paths(last, x, now, k + WidthAll(front)), v);
    }
  }

  // ---- The invariant of a run

  /** The valuation left the recorded path at a condition whose else-branch the path took. */
  ghost predicate LeftEarlier(v: Valuation, c: Conditions) {
    exists j :: 0 <= j < |c| && LeftAt(v, c, j)
  }

  ghost predicate LeftAt(v: Valuation, c: Conditions, j: nat)
    requires j < |c|
  {
    Follows(v, c[..j]) && !c[j].taken && v(c[j].id)
  }

  /** A then-branch runs before its else-branch: where the recorded path and the current one part at
      one condition, the recorded path is in the then-branch. */
  ghost predicate Earlier(recorded: Conditions, now: Conditions) {
    forall i :: 0 <= i < |recorded| && i < |now| && PartAt(recorded, now, i) && recorded[i].id == now[i].id ==>
      recorded[i].taken
  }

  ghost predicate PartAt(recorded: Conditions, now: Conditions, i: nat)
    requires i < |recorded| && i < |now|
  {
    recorded[..i] == now[..i] && recorded[i] != now[i]
  }

  /** Conditions are numbered as they are met, so deeper ones have larger numbers. */
  ghost predicate Increasing(c: Conditions) {
    forall i, j :: 0 <= i < j < |c| ==> c[i].id < c[j].id
  }

  /** Where the current path enters another condition than the recorded path did, it does so after it. */
  ghost predicate Before(recorded: Conditions, now: Conditions) {
    forall i :: 0 <= i < |recorded| && i < |now| && PartAt(recorded, now, i) && recorded[i].id != now[i].id ==>
      Fresh(recorded, now[i].id)
  }

  ghost predicate Fresh(c: Conditions, k: nat) {
    forall i :: 0 <= i < |c| ==> c[i].id < k
  }

  /** What a recorded path says about the assignments so far, for one valuation. */
  ghost predicate Explains(c: Conditions, history: seq<Conditions>, v: Valuation) {
    && Count(history, v) <= 1
    && (Follows(v, c) ==> Count(history, v) == 1)
    && (Count(history, v) >= 1 ==> Follows(v, c) || LeftEarlier(v, c))
  }

  ghost predicate Inv(state: AssignmentState, now: Conditions, k: nat, history: seq<Conditions>) {
    && Fresh(now, k) && Increasing(now)
    && match state
       case NoAssigned => history == []
       case Assigned => forall v :: Once(history, v)
       case MightAssigned(c) =>
         && c != [] && Fresh(c, k) && Increasing(c) && Earlier(c, now) && Before(c, now)
         && forall v :: Explains(c, history, v)
  }

  ghost predicate Once(history: seq<Conditions>, v: Valuation) {
    Count(history, v) == 1
  }

  /** A valuation on the current path has performed none of the recorded assignments. */
  lemma NotYetAssigned(recorded: Conditions, now: Conditions, i: nat, history: seq<Conditions>, v: Valuation)
    requires i < |recorded| && i < |now| && recorded[..i] == now[..i] && recorded[i].id == now[i].id &&
             recorded[i] != now[i] && recorded[i].taken
    requires Explains(recorded, history, v) && Follows(v, now)
    ensures Count(history, v) == 0
  {
    assert v(now[i].id) == now[i].taken;
    assert !Follows(v, recorded);
    forall j | 0 <= j < |recorded|
      ensures !LeftAt(v, recorded, j)
    {
      if j < i {
        assert recorded[..i][j] == now[..i][j];
      } else if j > i {
        assert recorded[..j][i] == recorded[i];
      }
    }
  }

  /** One path after both branches of the last condition. */
  lemma MergeExplains(recorded: Conditions, now: Conditions, history: seq<Conditions>, v: Valuation)
    requires |recorded| == |now| > 1
    requires var i := |now| - 1;
             recorded[..i] == now[..i] && recorded[i].id == now[i].id && recorded[i] != now[i] && recorded[i].taken
    requires Explains(recorded, history, v)
    ensures Explains(now[..|now| - 1], history + [now], v)
  {
    var i := |now| - 1;
    var c := now[..i];
    CountSnoc(history, now, v);
    FollowsPush(v, c, now[i]);
    FollowsPush(v, c, recorded[i]);
    assert now == c + [now[i]] && recorded == c + [recorded[i]];
    if Follows(v, now) { NotYetAssigned(recorded, now, i, history, v); }
    if LeftEarlier(v, recorded) {
      var j :| 0 <= j < |recorded| && LeftAt(v, recorded, j);
      if j < i {
        assert recorded[..j] == c[..j] && LeftAt(v, c, j);
      }
    }
  }

  /** One path after both branches of the only condition: assigned on every valuation. */
  lemma MergeTotal(recorded: Conditions, now: Conditions, history: seq<Conditions>, v: Valuation)
    requires |recorded| == |now| == 1 && recorded[0].id == now[0].id && recorded[0] != now[0] && recorded[0].taken
    requires Explains(recorded, history, v)
    ensures Once(history + [now], v)
  {
    CountSnoc(history, now, v);
    if Follows(v, now) {
      NotYetAssigned(recorded, now, 0, history, v);
    } else {
      assert Follows(v, recorded);
    }
  }

  /** The newer path replaces the older one; the older one's valuations left the newer path earlier. */
  lemma ReplaceExplains(recorded: Conditions, now: Conditions, i: nat, history: seq<Conditions>, v: Valuation)
    requires i < |recorded| && i < |now| && recorded[..i] == now[..i] && recorded[i].id == now[i].id &&
             recorded[i] != now[i] && recorded[i].taken
    requires Explains(recorded, history, v)
    ensures Explains(now, history + [now], v)
  {
    CountSnoc(history, now, v);
    if Follows(v, now) {
      NotYetAssigned(recorded, now, i, history, v);
    } else if Count(history, v) >= 1 {
      if Follows(v, recorded) {
        FollowsPrefix(v, recorded, i);
        assert LeftAt(v, now, i);
      } else {
        var j :| 0 <= j < |recorded| && LeftAt(v, recorded, j);
        if j < i {
          assert recorded[..i][j] == now[..i][j] && recorded[..j] == recorded[..i][..j] && now[..j] == now[..i][..j];
          assert LeftAt(v, now, j);
        } else if j > i {
          FollowsPrefix(v, recorded[..j], i);
          assert recorded[..j][..i] == recorded[..i] && recorded[..j][i] == recorded[i];
          assert LeftAt(v, now, i);
        }
      }
    }
  }

  lemma FollowsPrefix(v: Valuation, c: Conditions, i: nat)
    requires Follows(v, c) && i < |c|
    ensures Follows(v, c[..i]) && v(c[i].id) == c[i].taken
  {
  }

  lemma FirstExplains(now: Conditions, v: Valuation)
    ensures Explains(now, [now], v)
  {
    CountSnoc([], now, v);
    assert [] + [now] == [now];
  }

  /** Every assignment that raises no error keeps the invariant. */
  lemma AssignKeeps(state: AssignmentState, now: Conditions, k: nat, history: seq<Conditions>)
    requires Inv(state, now, k, history) && AssignCell(state, now).Some?
    ensures Inv(AssignCell(state, now).value, now, k, history + [now])
  {
    if state.NoAssigned? {
      assert history + [now] == [now];
      forall v: Valuation
        ensures Explains(now, [now], v) && (now == [] ==> Once([now], v))
      {
        FirstExplains(now, v);
      }
    } else if state.MightAssigned? {
      var recorded := state.conditions;
      var i := FirstDifference(recorded, now, 0);
      assert recorded[..i] == now[..i];
      assert recorded[i].taken;
      var next := AssignCell(state, now).value;
      hide Explains, Once;
      if next.Assigned? {
        forall v: Valuation
          ensures Once(history + [now], v)
        {
          MergeTotal(recorded, now, history, v);
        }
      } else {
        forall v: Valuation
          ensures Explains(next.conditions, history + [now], v)
        {
          assert Explains(recorded, history, v);
          if i == |recorded| - 1 && |recorded| == |now| {
            MergeExplains(recorded, now, history, v);
          } else {
            ReplaceExplains(recorded, now, i, history, v);
          }
        }
      }
    }
  }

  // ---- Pushing, flipping and popping conditions

  lemma PushKeeps(state: AssignmentState, now: Conditions, k: nat, history: seq<Conditions>)
    requires Inv(state, now, k, history)
    ensures Inv(state, now + [Branch(k, true)], k + 1, history)
  {
    if state.MightAssigned? {
      var c, next := state.conditions, now + [Branch(k, true)];
      forall i | 0 <= i < |c| && i < |next| && PartAt(c, next, i)
        ensures c[i].id == next[i].id ==> c[i].taken
        ensures c[i].id != next[i].id ==> Fresh(c, next[i].id)
      {
        if i < |now| { assert next[..i] == now[..i] && PartAt(c, now, i); }
      }
    }
  }

  lemma FlipKeeps(state: AssignmentState, now: Conditions, id: nat, k: nat, history: seq<Conditions>)
    requires Inv(state, now + [Branch(id, true)], k, history)
    ensures Inv(state, now + [Branch(id, false)], k, history)
  {
    var before, next := now + [Branch(id, true)], now + [Branch(id, false)];
    assert before[|now|] == Branch(id, true);
    assert forall i :: 0 <= i < |next| ==> next[i].id == before[i].id;
    if state.MightAssigned? {
      var c := state.conditions;
      forall i | 0 <= i < |c| && i < |next| && PartAt(c, next, i)
        ensures c[i].id == next[i].id ==> c[i].taken
        ensures c[i].id != next[i].id ==> Fresh(c, next[i].id)
      {
        assert next[..i] == before[..i];
        if c[i] != before[i] { assert PartAt(c, before, i); }
      }
    }
  }

  lemma PopKeeps(state: AssignmentState, now: Conditions, b: Branch, k: nat, history: seq<Conditions>)
    requires Inv(state, now + [b], k, history)
    ensures Inv(state, now, k, history)
  {
    var before := now + [b];
    assert forall i :: 0 <= i < |now| ==> before[i] == now[i] && before[..i] == now[..i];
    if state.MightAssigned? {
      var c := state.conditions;
      assert forall i :: 0 <= i < |c| && i < |now| && PartAt(c, now, i) ==> PartAt(c, before, i);
    }
  }

  // ---- Whole runs

  lemma {:induction false} AssignCellsAt(cells: seq<AssignmentState>, targets: seq<nat>, now: Conditions, x: nat)
    requires (forall i :: 0 <= i < |targets| ==> targets[i] < |cells|) && x < |cells|
    requires (forall i, j :: 0 <= i < j < |targets| ==>
             targets[i] != targets[j]) && AssignCells(cells, targets, now).Some?
    ensures if x in targets then AssignCell(cells[x], now) == Some(AssignCells(cells, targets, now).value[x])
            else AssignCells(cells, targets, now).value[x] == cells[x]
  {
    hide AssignCell;
    if targets != [] {
      AssignCellsAt(cells, targets[..|targets| - 1], now, x);
      assert targets == targets[..|targets| - 1] + [targets[|targets| - 1]];
    }
  }

  lemma {:induction false} ExecuteKeeps(s: Statement, now: Conditions, m: Machine, x: nat, history: seq<Conditions>)
    requires Fits(s, |m.cells|) && x < |m.cells| && Execute(s, now, m).Some? && Inv(m.cells[x], now, m.counter, history)
    ensures var r := Execute(s, now, m).value;
            r.counter == m.counter + Width(s) && Inv(r.cells[x], now, r.counter, history + Paths(s, x, now, m.counter))
    decreases s, 0
  {
    hide Inv, AssignCell, AssignCells;
    match s {
      case Assign(cells) =>
        AssignCellsAt(m.cells, cells, now, x);
        assert history + [] == history;
        if x in cells { AssignKeeps(m.cells[x], now, m.counter, history); }
      case Unknown(t, e) =>
        UnknownKeeps(s, now, m, x, history);
      case Decided(value, t, e) =>
        assert history + [] == history;
        if value {
          ExecuteAllKeeps(t, now, m, x, history);
        } else if e.Else? {
          ExecuteAllKeeps(e.statements, now, m, x, history);
        }
    }
  }

  /** One unknown conditional, taken apart. */
  lemma UnknownParts(s: Statement, now: Conditions, m: Machine, x: nat)
    requires s.Unknown? && Fits(s, |m.cells|)
    ensures AllFit(s.thenBranch, |m.cells|) && (s.elseBranch.Else? ==> AllFit(s.elseBranch.statements, |m.cells|))
    ensures var t, e, k, size := s.thenBranch, s.elseBranch, m.counter, WidthAll(s.thenBranch);
            var run := ExecuteAll(t, now + [Branch(k, true)], Machine(k + 1, m.cells));
            && Width(s) == 1 + size + (if e.Else? then WidthAll(e.statements) else 0)
            && Paths(s, x, now, k) == PathsAll(t, x, now + [Branch(k, true)], k + 1)
                 + (if e.Else? then PathsAll(e.statements, x, now + [Branch(k, false)], k + 1 + size) else [])
            && Execute(s, now, m) == if run.None? || e.NoElse? then run
               else ExecuteAll(e.statements, now + [Branch(k, false)], run.value)
  {
    hide AllFit, WidthAll, PathsAll, ExecuteAll;
  }

  lemma {:induction false} UnknownKeeps(s: Statement, now: Conditions, m: Machine, x: nat, history: seq<Conditions>)
    requires s.Unknown? && Fits(s, |m.cells|) && x < |m.cells| && Execute(s, now, m).Some? &&
             Inv(m.cells[x], now, m.counter, history)
    ensures var r := Execute(s, now, m).value;
            r.counter == m.counter + Width(s) && Inv(r.cells[x], now, r.counter, history + Paths(s, x, now, m.counter))
    decreases s, 0, 0
  {
    hide Inv, Fits, AllFit, Execute, ExecuteAll, Width, WidthAll, Paths, PathsAll;
    var t, e, k := s.thenBranch, s.elseBranch, m.counter;
    var taken, other := now + [Branch(k, true)], now + [Branch(k, false)];
    UnknownParts(s, now, m, x);
    PushKeeps(m.cells[x], now, k, history);
    ExecuteAllKeeps(t, taken, Machine(k + 1, m.cells), x, history);
    var middle := ExecuteAll(t, taken, Machine(k + 1, m.cells)).value;
    var first := PathsAll(t, x, taken, k + 1);
    if e.Else? {
      FlipKeeps(middle.cells[x], now, k, middle.counter, history + first);
      ExecuteAllKeeps(e.statements, other, middle, x, history + first);
      var final := ExecuteAll(e.statements, other, middle).value;
      PopKeeps(final.cells[x], now, Branch(k, false), final.counter,
        history + first + PathsAll(e.statements, x, other, middle.counter));
      assert history + first + PathsAll(e.statements, x, other, middle.counter) == history + Paths(s, x, now, k);
    } else {
      PopKeeps(middle.cells[x], now, Branch(k, true), middle.counter, history + first);
      assert history + first == history + Paths(s, x, now, k);
    }
  }

  lemma {:induction false} ExecuteAllKeeps(ss: seq<Statement>, now: Conditions, m: Machine, x: nat,
                                           history: seq<Conditions>)
    requires AllFit(ss, |m.cells|) && x < |m.cells| && ExecuteAll(ss, now, m).Some? &&
             Inv(m.cells[x], now, m.counter, history)
    ensures var r := ExecuteAll(ss, now, m).value;
            r.counter == m.counter + WidthAll(ss) && Inv(r.cells[x], now, r.counter,
              history + PathsAll(ss, x, now, m.counter))
    decreases ss, 1
  {
    hide Inv;
    if ss == [] {
      assert history + [] == history;
    } else {
      var front, last := ss[..|ss| - 1], ss[|ss| - 1];
      ExecuteAllKeeps(front, now, m, x, history);
      var middle := ExecuteAll(front, now, m).value;
      var before := history + PathsAll(front, x, now, m.counter);
      ExecuteKeeps(last, now, middle, x, before);
      assert before + Paths(last, x, now, middle.counter) == history + PathsAll(ss, x, now, m.counter);
    }
  }

  function Unassigned(size: nat): Machine {
    Machine(0, seq(size, _ => NoAssigned))
  }

  /** A run without errors assigns no signal twice, whatever the unknown conditions turn out to be;
      NoAssigned means never, Assigned means always, MightAssigned(c) means whenever c holds. */
  lemma SingleAssignmentHolds(program: seq<Statement>, size: nat, x: nat, v: Valuation)
    requires AllFit(program, size) && x < size && ExecuteAll(program, [], Unassigned(size)).Some?
    ensures TimesAll(program, x, v, 0) <= 1
    ensures match ExecuteAll(program, [], Unassigned(size)).value.cells[x]
            case NoAssigned => TimesAll(program, x, v, 0) == 0
            case Assigned => TimesAll(program, x, v, 0) == 1
            case MightAssigned(c) => c != [] && (Follows(v, c) ==> TimesAll(program, x, v, 0) == 1)
  {
    ExecuteAllKeeps(program, [], Unassigned(size), x, []);
    PathsAllAreTimes(program, x, [], 0, v);
    var history := PathsAll(program, x, [], 0);
    assert [] + history == history;
    var state := ExecuteAll(program, [], Unassigned(size)).value.cells[x];
    if state.Assigned? { assert Once(history, v); }
    if state.MightAssigned? { assert Explains(state.conditions, history, v); }
  }

  // ---- No false alarm

  ghost predicate TakenIn(c: Conditions, k: nat) {
    exists i :: 0 <= i < |c| && c[i].id == k && c[i].taken
  }

  ghost function Both(one: Conditions, two: Conditions): Valuation {
    (k: nat) => TakenIn(one, k) || TakenIn(two, k)
  }

  ghost predicate Compatible(one: Conditions, two: Conditions) {
    forall i, j :: 0 <= i < |one| && 0 <= j < |two| && one[i].id == two[j].id ==> one[i].taken == two[j].taken
  }

  /** Two compatible paths have a valuation on both. */
  lemma FollowsBoth(one: Conditions, two: Conditions)
    requires Increasing(one) && Increasing(two) && Compatible(one, two)
    ensures Follows(Both(one, two), one) && Follows(Both(one, two), two)
  {
    var v := Both(one, two);
    forall i | 0 <= i < |one| ensures v(one[i].id) == one[i].taken {}
    forall j | 0 <= j < |two| ensures v(two[j].id) == two[j].taken {}
  }

  /** An assignment is refused only when some valuation is on the current path and has assigned before. */
  lemma RefusedRightly(state: AssignmentState, now: Conditions, k: nat, history: seq<Conditions>) returns (v: Valuation)
    requires Inv(state, now, k, history) && AssignCell(state, now).None?
    ensures Count(history + [now], v) >= 2
  {
    if state.Assigned? {
      v := Both(now, now);
      FollowsBoth(now, now);
      assert Once(history, v);
    } else {
      var recorded := state.conditions;
      v := Both(recorded, now);
      RefusedCompatible(recorded, now, k);
      FollowsBoth(recorded, now);
      assert Explains(recorded, history, v);
    }
    CountSnoc(history, now, v);
  }

  lemma RefusedCompatible(recorded: Conditions, now: Conditions, k: nat)
    requires Increasing(recorded) && Increasing(now) && Before(recorded, now)
    requires AssignCell(MightAssigned(recorded), now).None?
    ensures Compatible(recorded, now)
  {
    var d := FirstDifference(recorded, now, 0);
    assert recorded[..d] == now[..d];
    if d < |recorded| && d < |now| { assert PartAt(recorded, now, d); }
    forall i, j | 0 <= i < |recorded| && 0 <= j < |now| && recorded[i].id == now[j].id
      ensures recorded[i].taken == now[j].taken
    {
      if i < d { assert recorded[i] == now[i]; }
      if j < d { assert recorded[j] == now[j]; }
    }
  }

  lemma {:induction false} RefusedCell(cells: seq<AssignmentState>, targets: seq<nat>, now: Conditions) returns (x: nat)
    requires (forall i :: 0 <= i < |targets| ==> targets[i] < |cells|)
    requires (forall i, j :: 0 <= i < j < |targets| ==> targets[i] != targets[j])
    requires AssignCells(cells, targets, now).None?
    ensures x in targets && AssignCell(cells[x], now).None?
  {
    hide AssignCell;
    var n := |targets| - 1;
    assert targets == targets[..n] + [targets[n]];
    if AssignCells(cells, targets[..n], now).None? {
      x := RefusedCell(cells, targets[..n], now);
    } else {
      x := targets[n];
      AssignCellsAt(cells, targets[..n], now, x);
    }
  }

  /** The invariant for every cell, with a history for each. */
  ghost predicate AllInv(m: Machine, now: Conditions, histories: nat -> seq<Conditions>) {
    forall x :: 0 <= x < |m.cells| ==> Inv(m.cells[x], now, m.counter, histories(x))
  }

  lemma {:induction false} ExecuteRefused(s: Statement, now: Conditions, m: Machine, histories: nat -> seq<Conditions>)
    returns (x: nat, v: Valuation)
    requires Fits(s, |m.cells|) && AllInv(m, now, histories) && Execute(s, now, m).None?
    ensures x < |m.cells| && Count(histories(x) + Paths(s, x, now, m.counter), v) >= 2
    decreases s, 0
  {
    hide Inv, AssignCell, AssignCells;
    match s {
      case Assign(cells) =>
        x := RefusedCell(m.cells, cells, now);
        v := RefusedRightly(m.cells[x], now, m.counter, histories(x));
      case Unknown(t, e) =>
        x, v := UnknownRefused(s, now, m, histories);
      case Decided(value, t, e) =>
        if value {
          x, v := ExecuteAllRefused(t, now, m, histories);
        } else {
          x, v := ExecuteAllRefused(e.statements, now, m, histories);
        }
    }
  }

  lemma {:induction false} UnknownRefused(s: Statement, now: Conditions, m: Machine, histories: nat -> seq<Conditions>)
    returns (x: nat, v: Valuation)
    requires s.Unknown? && Fits(s, |m.cells|) && AllInv(m, now, histories) && Execute(s, now, m).None?
    ensures x < |m.cells| && Count(histories(x) + Paths(s, x, now, m.counter), v) >= 2
    decreases s, 0, 0
  {
    hide Inv, Count, Fits, AllFit, Execute, ExecuteAll, Width, WidthAll, Paths, PathsAll;
    var t, e, k := s.thenBranch, s.elseBranch, m.counter;
    var taken, other := now + [Branch(k, true)], now + [Branch(k, false)];
    var start := Machine(k + 1, m.cells);
    UnknownParts(s, now, m, 0);
    forall y | 0 <= y < |m.cells| ensures Inv(m.cells[y], taken, k + 1, histories(y)) {
      PushKeeps(m.cells[y], now, k, histories(y));
    }
    if ExecuteAll(t, taken, start).None? {
      x, v := ExecuteAllRefused(t, taken, start, histories);
      UnknownParts(s, now, m, x);
      var first := PathsAll(t, x, taken, k + 1);
      var rest := if e.Else? then PathsAll(e.statements, x, other, k + 1 + WidthAll(t)) else [];
      assert histories(x) + Paths(s, x, now, k) == histories(x) + first + rest;
      CountConcat(histories(x) + first, rest, v);
    } else {
      var middle := ExecuteAll(t, taken, start).value;
      var later := (y: nat) => histories(y) + PathsAll(t, y, taken, k + 1);
      forall y | 0 <= y < |m.cells|
        ensures Inv(middle.cells[y], other, middle.counter, later(y)) && middle.counter == k + 1 + WidthAll(t)
      {
        ExecuteAllKeeps(t, taken, start, y, histories(y));
        FlipKeeps(middle.cells[y], now, k, middle.counter, later(y));
      }
      x, v := ExecuteAllRefused(e.statements, other, middle, later);
      UnknownParts(s, now, m, x);
      assert later(x) + PathsAll(e.statements, x, other, middle.counter) == histories(x) + Paths(s, x, now, k);
    }
  }

  lemma {:induction false} ExecuteAllRefused(ss: seq<Statement>, now: Conditions, m: Machine,
                                             histories: nat -> seq<Conditions>)
    returns (x: nat, v: Valuation)
    requires AllFit(ss, |m.cells|) && AllInv(m, now, histories) && ExecuteAll(ss, now, m).None?
    ensures x < |m.cells| && Count(histories(x) + PathsAll(ss, x, now, m.counter), v) >= 2
    decreases ss, 1
  {
    hide Inv, Count;
    var front, last := ss[..|ss| - 1], ss[|ss| - 1];
    if ExecuteAll(front, now, m).None? {
      x, v := ExecuteAllRefused(front, now, m, histories);
      var first, rest := PathsAll(front, x, now, m.counter), Paths(last, x, now, m.counter + WidthAll(front));
      assert histories(x) + PathsAll(ss, x, now, m.counter) == histories(x) + first + rest;
      CountConcat(histories(x) + first, rest, v);
    } else {
      var middle := ExecuteAll(front, now, m).value;
      var later := (y: nat) => histories(y) + PathsAll(front, y, now, m.counter);
      forall y | 0 <= y < |m.cells|
        ensures Inv(middle.cells[y], now, middle.counter, later(y)) && middle.counter == m.counter + WidthAll(front)
      {
        ExecuteAllKeeps(front, now, m, y, histories(y));
      }
      x, v := ExecuteRefused(last, now, middle, later);
      assert later(x) + Paths(last, x, now, middle.counter) == histories(x) + PathsAll(ss, x, now, m.counter);
    }
  }

  /** A run raises an error if and only if some valuation of the unknown conditions assigns some signal twice. */
  lemma ErrorsExactly(program: seq<Statement>, size: nat)
    requires AllFit(program, size)
    ensures ExecuteAll(program, [], Unassigned(size)).None? <==>
            exists x: nat, v: Valuation :: x < size && TimesAll(program, x, v, 0) >= 2
  {
    var start := Unassigned(size);
    if ExecuteAll(program, [], start).None? {
      var histories := (y: nat) => [];
      var x, v := ExecuteAllRefused(program, [], start, histories);
      PathsAllAreTimes(program, x, [], 0, v);
      assert histories(x) + PathsAll(program, x, [], 0) == PathsAll(program, x, [], 0);
    } else {
      forall x: nat, v: Valuation | x < size
        ensures TimesAll(program, x, v, 0) < 2
      {
        SingleAssignmentHolds(program, size, x, v);
      }
    }
  }
}
