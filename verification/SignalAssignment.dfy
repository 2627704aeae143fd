/** Signals are assigned at most once under unknown conditions (perform_signal_assignment in
    constraint_generation/src/assignment_utils.rs, execute_conditional_statement in execute.rs). */
module SignalAssignment {
  import opened Field

  /** One unknown condition and the branch taken. */
  datatype Branch = Branch(id: nat, taken: bool)

  type Conditions = seq<Branch>

  datatype AssignmentState = NoAssigned | Assigned | MightAssigned(conditions: Conditions)

  /** Loop-free statements. An unknown condition executes both branches, a decided one only the taken one. */
  datatype Statement =
    | Assign(cells: seq<nat>)
    | Unknown(thenBranch: seq<Statement>, elseBranch: Otherwise)
    | Decided(value: bool, thenBranch: seq<Statement>, elseBranch: Otherwise)

  datatype Otherwise = NoElse | Else(statements: seq<Statement>)

  // ---- One assignment to one cell

  /** The first index, from `i` on, at which two condition lists of one common length bound differ. */
  function FirstDifference(old': Conditions, now: Conditions, i: nat): (r: nat)
    requires i <= |old'| && i <= |now|
    ensures i <= r <= |old'| && r <= |now|
    ensures forall j :: i <= j < r ==> old'[j] == now[j]
    ensures r < |old'| && r < |now| ==> old'[r] != now[r]
    decreases |old'| - i
  {
    if i < |old'| && i < |now| && old'[i] == now[i] then FirstDifference(old', now, i + 1) else i
  }

  /** The state after an assignment under `now`; None is the multiple-assignments error. */
  function AssignCell(state: AssignmentState, now: Conditions): Option<AssignmentState> {
    match state
    case NoAssigned => Some(if now == [] then Assigned else MightAssigned(now))
    case Assigned => None
    case MightAssigned(before) =>
      var i := FirstDifference(before, now, 0);
      if now == [] || i == |before| || i == |now| then None
      else if before[i].id != now[i].id then None
      else if i == |before| - 1 && |before| == |now| then
        Some(if |now| == 1 then Assigned else MightAssigned(now[..i]))
      else Some(MightAssigned(now))
  }

  /** The comparison loop of the source. */
  method CompareConditions(condOld: Conditions, condNew: Conditions)
    returns (isSubset: bool, eqUntilLast: bool, differentBranches: bool)
    ensures var i := FirstDifference(condOld, condNew, 0);
            && isSubset == (i == |condOld| || i == |condNew|)
            && differentBranches == (!isSubset && condOld[i].id == condNew[i].id)
            && eqUntilLast == (differentBranches && i == |condOld| - 1 && |condOld| == |condNew|)
  {
    isSubset, eqUntilLast, differentBranches := true, false, false;
    var min := if |condOld| < |condNew| then |condOld| else |condNew|;
    for i := 0 to min
      invariant FirstDifference(condOld, condNew, i) == FirstDifference(condOld, condNew, 0)
      invariant isSubset && !eqUntilLast && !differentBranches
    {
      if condOld[i] != condNew[i] {
        isSubset := false;
        if condOld[i].id == condNew[i].id {
          differentBranches := true;
          if i == min - 1 && |condOld| == |condNew| {
            eqUntilLast := true;
          }
        }
        break;
      }
    }
  }

  /** One cell as the source updates it: the loop's three flags decide. */
  method UpdateCell(state: AssignmentState, now: Conditions) returns (r: Option<AssignmentState>)
    ensures r == AssignCell(state, now)
  {
    match state
    case NoAssigned =>
      r := Some(if now == [] then Assigned else MightAssigned(now));
    case Assigned =>
      r := None;
    case MightAssigned(before) =>
      if now == [] { return None; }
      var isSubset, eqUntilLast, differentBranches := CompareConditions(before, now);
      if isSubset {
        r := None;
      } else if eqUntilLast {
        r := Some(if |now| == 1 then Assigned else MightAssigned(now[..|now| - 1]));
      } else if differentBranches {
        r := Some(MightAssigned(now));
      } else {
        r := None;
      }
  }

  /** All cells of a slice, in order; an error stops at the first offending cell. */
  function AssignCells(cells: seq<AssignmentState>, targets: seq<nat>,
                       now: Conditions): (r: Option<seq<AssignmentState>>)
    requires forall i :: 0 <= i < |targets| ==> targets[i] < |cells|
    ensures r.Some? ==> |r.value| == |cells|
  {
    if targets == [] then Some(cells) else
      var n := |targets| - 1;
      match AssignCells(cells, targets[..n], now)
      case None => None
      case Some(middle) =>
        match AssignCell(middle[targets[n]], now)
        case None => None
        case Some(state) => Some(middle[targets[n] := state])
  }

  // ---- Running statements

  ghost predicate Fits(s: Statement, size: nat)
    decreases s, 0
  {
    match s
    case Assign(cells) => (forall i :: 0 <= i < |cells| ==> cells[i] < size) && forall i, j :: 0 <= i < j < |cells| ==>
      cells[i] != cells[j]
    case Unknown(t, e) => AllFit(t, size) && (e.Else? ==> AllFit(e.statements, size))
    case Decided(_, t, e) => AllFit(t, size) && (e.Else? ==> AllFit(e.statements, size))
  }

  ghost predicate AllFit(ss: seq<Statement>, size: nat)
    decreases ss, 1
  {
    forall i :: 0 <= i < |ss| ==> Fits(ss[i], size)
  }

  datatype Machine = Machine(counter: nat, cells: seq<AssignmentState>)

  function Execute(s: Statement, now: Conditions, m: Machine): (r: Option<Machine>)
    requires Fits(s, |m.cells|)
    ensures r.Some? ==> |r.value.cells| == |m.cells|
    decreases s, 0
  {
    match s
    case Assign(cells) =>
      (match AssignCells(m.cells, cells, now)
       case None => None
       case Some(next) => Some(Machine(m.counter, next)))
    case Unknown(t, e) =>
      var id := m.counter;
      (match ExecuteAll(t, now + [Branch(id, true)], Machine(id + 1, m.cells))
       case None => None
       case Some(middle) => if e.NoElse? then Some(middle) else ExecuteAll(e.statements, now + [Branch(id, false)],
         middle))
    case Decided(value, t, e) =>
      if value then ExecuteAll(t, now, m) else if e.NoElse? then Some(m) else ExecuteAll(e.statements, now, m)
  }

  function ExecuteAll(ss: seq<Statement>, now: Conditions, m: Machine): (r: Option<Machine>)
    requires AllFit(ss, |m.cells|)
    ensures r.Some? ==> |r.value.cells| == |m.cells|
    decreases ss, 1
  {
    if ss == [] then Some(m) else
      match ExecuteAll(ss[..|ss| - 1], now, m)
      case None => None
      case Some(middle) => Execute(ss[|ss| - 1], now, middle)
  }

  /** The part of the runtime that signal assignment uses: pushed, flipped and popped in place. */
  class Runtime {
    var conditionsState: Conditions
    var unknownCounter: nat
    const cells: array<AssignmentState>

    constructor (size: nat)
      ensures conditionsState == [] && unknownCounter == 0 && fresh(cells)
      ensures cells.Length == size && forall i :: 0 <= i < size ==> cells[i] == NoAssigned
    {
      conditionsState, unknownCounter := [], 0;
      cells := new AssignmentState[size](i => NoAssigned);
    }

    method PerformSignalAssignment(targets: seq<nat>) returns (ok: bool)
      requires forall i :: 0 <= i < |targets| ==> targets[i] < cells.Length
      modifies cells
      ensures ok == AssignCells(old(cells[..]), targets, conditionsState).Some?
      ensures ok ==> cells[..] == AssignCells(old(cells[..]), targets, conditionsState).value
    {
      ghost var start := cells[..];
      for i := 0 to |targets|
        invariant AssignCells(start, targets[..i], conditionsState) == Some(cells[..])
      {
        assert targets[..i + 1][..i] == targets[..i];
        var state := UpdateCell(cells[targets[i]], conditionsState);
        if state.None? {
          AssignStops(start, targets, conditionsState, i + 1);
          return false;
        }
        cells[targets[i]] := state.value;
      }
      assert targets[..|targets|] == targets;
      return true;
    }

    method ExecuteStatement(s: Statement) returns (ok: bool)
      requires Fits(s, cells.Length)
      modifies this`conditionsState, this`unknownCounter, cells
      ensures ok == Execute(s, old(conditionsState), Machine(old(unknownCounter), old(cells[..]))).Some?
      ensures ok ==> conditionsState == old(conditionsState)
      ensures ok ==>
                Machine(unknownCounter, cells[..]) == Execute(s, old(conditionsState),
                  Machine(old(unknownCounter), old(cells[..]))).value
      decreases s, 0
    {
      match s
      case Assign(targets) =>
        ok := PerformSignalAssignment(targets);
      case Decided(value, t, e) =>
        if value {
          ok := ExecuteSequence(t);
        } else if e.NoElse? {
          ok := true;
        } else {
          ok := ExecuteSequence(e.statements);
        }
      case Unknown(t, e) =>
        ghost var now, id := conditionsState, unknownCounter;
        conditionsState := conditionsState + [Branch(unknownCounter, true)];
        unknownCounter := unknownCounter + 1;
        ok := ExecuteSequence(t);
        if !ok { return; }
        if e.Else? {
          var index := |conditionsState| - 1;
          conditionsState := conditionsState[index := conditionsState[index].(taken := false)];
          assert conditionsState == now + [Branch(id, false)];
          ok := ExecuteSequence(e.statements);
          if !ok { return; }
        }
        conditionsState := conditionsState[..|conditionsState| - 1];
    }

    method ExecuteSequence(ss: seq<Statement>) returns (ok: bool)
      requires AllFit(ss, cells.Length)
      modifies this`conditionsState, this`unknownCounter, cells
      ensures ok == ExecuteAll(ss, old(conditionsState), Machine(old(unknownCounter), old(cells[..]))).Some?
      ensures ok ==> conditionsState == old(conditionsState)
      ensures ok ==>
                Machine(unknownCounter, cells[..]) == ExecuteAll(ss, old(conditionsState),
                  Machine(old(unknownCounter), old(cells[..]))).value
      decreases ss, 1
    {
      ghost var now, start := conditionsState, Machine(unknownCounter, cells[..]);
      for i := 0 to |ss|
        invariant conditionsState == now
        invariant ExecuteAll(ss[..i], now, start) == Some(Machine(unknownCounter, cells[..]))
      {
        assert ss[..i + 1][..i] == ss[..i];
        ok := ExecuteStatement(ss[i]);
        if !ok {
          ExecuteStops(ss, now, start, i + 1);
          return;
        }
      }
      assert ss[..|ss|] == ss;
      ok := true;
    }
  }

  lemma {:induction false} AssignStops(cells: seq<AssignmentState>, targets: seq<nat>, now: Conditions, n: nat)
    requires (forall i :: 0 <= i < |targets| ==>
             targets[i] < |cells|) && n <= |targets| && AssignCells(cells, targets[..n], now).None?
    ensures AssignCells(cells, targets, now).None?
    decreases |targets| - n
  {
    if n == |targets| {
      assert targets[..n] == targets;
    } else {
      assert targets[..n + 1][..n] == targets[..n];
      AssignStops(cells, targets, now, n + 1);
    }
  }

  lemma {:induction false} ExecuteStops(ss: seq<Statement>, now: Conditions, m: Machine, n: nat)
    requires AllFit(ss, |m.cells|) && n <= |ss| && ExecuteAll(ss[..n], now, m).None?
    ensures ExecuteAll(ss, now, m).None?
    decreases |ss| - n
  {
    if n == |ss| {
      assert ss[..n] == ss;
    } else {
      assert ss[..n + 1][..n] == ss[..n];
      ExecuteStops(ss, now, m, n + 1);
    }
  }

  // ---- What really happens under a valuation of the unknown conditions

  type Valuation = nat -> bool

  function Hits(cells: seq<nat>, x: nat): nat {
    if x in cells then 1 else 0
  }

  /** The identifiers a statement consumes. */
  function Width(s: Statement): nat
    decreases s, 0
  {
    match s
    case Assign(_) => 0
    case Unknown(t, e) => 1 + WidthAll(t) + (if e.Else? then WidthAll(e.statements) else 0)
    case Decided(value, t, e) => if value then WidthAll(t) else if e.Else? then WidthAll(e.statements) else 0
  }

  function WidthAll(ss: seq<Statement>): nat
    decreases ss, 1
  {
    if ss == [] then 0 else WidthAll(ss[..|ss| - 1]) + Width(ss[|ss| - 1])
  }

  /** How often a run that follows the valuation assigns cell x; conditions are numbered from k in program order. */
  function Times(s: Statement, x: nat, v: Valuation, k: nat): nat
    decreases s, 0
  {
    match s
    case Assign(cells) => Hits(cells, x)
    case Unknown(t, e) =>
      if v(k) then TimesAll(t, x, v, k + 1) else if e.Else? then TimesAll(e.statements, x, v, k + 1 + WidthAll(t))
        else 0
    case Decided(value, t, e) =>
      if value then TimesAll(t, x, v, k) else if e.Else? then TimesAll(e.statements, x, v, k) else 0
  }

  function TimesAll(ss: seq<Statement>, x: nat, v: Valuation, k: nat): nat
    decreases ss, 1
  {
    if ss == [] then 0 else
      var front := ss[..|ss| - 1];
      TimesAll(front, x, v, k) + Times(ss[|ss| - 1], x, v, k + WidthAll(front))
  }
}
