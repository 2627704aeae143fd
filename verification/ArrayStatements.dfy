/** The statements the array-literal matchers look at, and what running them does to a store of arrays. */
module ArrayStatements {
  import opened Field

  datatype Expression = Number(value: int) | Variable(name: string, access: seq<Access>) | OtherExpression

  datatype Access = ArrayAccess(index: Expression) | ComponentAccess

  datatype AssignOp = AssignVar | AssignSignal | AssignConstraintSignal

  /** `memory` holds the concrete dimensions the cleaner recorded, if any. */
  datatype Statement =
    | Declaration(name: string, memory: Option<seq<nat>>, dimensions: seq<Expression>)
    | Substitution(target: string, access: seq<Access>, op: AssignOp, rhe: Expression)
    | OtherStatement

  datatype Value = Scalar(number: int) | Array(items: seq<Value>)

  type Store = map<string, Value>

  const USIZE_LIMIT := 0x1_0000_0000_0000_0000

  function ToUsize(v: int): Option<nat> {
    if 0 <= v < USIZE_LIMIT then Some(v) else None
  }

  function ToDimension(e: Expression): Option<nat> {
    if e.Number? then ToUsize(e.value) else None
  }

  function Collected(dimensions: seq<Expression>): Option<seq<nat>> {
    if dimensions == [] then Some([]) else
      match (ToDimension(dimensions[0]), Collected(dimensions[1..]))
      case (Some(d), Some(rest)) => Some([d] + rest)
      case _ => None
  }

  function ConcreteDimensions(memory: Option<seq<nat>>, dimensions: seq<Expression>): Option<seq<nat>> {
    if dimensions == [] then memory else Collected(dimensions)
  }

  // ---- Array values

  function Product(dims: seq<nat>): nat {
    if dims == [] then 1 else dims[0] * Product(dims[1..])
  }

  /** The i-th of the blocks of a given size. */
  function Block<T>(values: seq<T>, size: nat, i: nat): (r: seq<T>)
    requires (i + 1) * size <= |values|
    ensures |r| == size
  {
    assert i * size + size == (i + 1) * size;
    values[i * size..i * size + size]
  }

  /** The nested array with the given dimensions and row-major elements. */
  function Nest(dims: seq<nat>, values: seq<int>): Value
    requires |values| == Product(dims)
    decreases |dims|
  {
    if dims == [] then Scalar(values[0]) else
      var size := Product(dims[1..]);
      Array(seq(dims[0], i requires 0 <= i < dims[0] => (BlockFits(dims[0], i, size); Nest(dims[1..],
        Block(values, size, i)))))
  }

  lemma BlockFits(n: nat, i: nat, size: nat)
    requires i < n
    ensures (i + 1) * size <= n * size
  {
    var more := n - (i + 1);
    assert n * size == (i + 1) * size + more * size;
  }

  function Zero(dims: seq<nat>): Value {
    if dims == [] then Scalar(0) else Array(seq(dims[0], _ => Zero(dims[1..])))
  }

  // ---- Running statements

  function Path(access: seq<Access>): Option<seq<nat>> {
    if access == [] then Some([]) else
      match (access[0], Path(access[1..]))
      case (ArrayAccess(Number(v)), Some(rest)) => if v >= 0 then Some([v] + rest) else None
      case _ => None
  }

  function SetAt(v: Value, path: seq<nat>, x: Value): Option<Value> {
    if path == [] then Some(x) else
      match v
      case Scalar(_) => None
      case Array(items) =>
        if path[0] >= |items| then None else
          match SetAt(items[path[0]], path[1..], x)
          case None => None
          case Some(item) => Some(Array(items[path[0] := item]))
  }

  function Evaluate(e: Expression, store: Store): Option<Value> {
    match e
    case Number(v) => Some(Scalar(v))
    case Variable(name, access) => if access == [] && name in store then Some(store[name]) else None
    case OtherExpression => None
  }

  /** A declaration makes an all-zero array; an assignment replaces one element or sub-array.
      None for statements outside this fragment and for assignments that go wrong. */
  function Execute(statement: Statement, store: Store): Option<Store> {
    match statement
    case Declaration(name, memory, dimensions) =>
      (match ConcreteDimensions(memory, dimensions)
       case None => None
       case Some(dims) => Some(store[name := Zero(dims)]))
    case Substitution(target, access, op, rhe) =>
      if op != AssignVar || target !in store then None else
        (match (Path(access), Evaluate(rhe, store))
         case (Some(path), Some(x)) =>
           (match SetAt(store[target], path, x)
            case None => None
            case Some(v) => Some(store[target := v]))
         case _ => None)
    case OtherStatement => None
  }

  function Run(statements: seq<Statement>, store: Store): Option<Store> {
    if statements == [] then Some(store) else
      match Run(statements[..|statements| - 1], store)
      case None => None
      case Some(middle) => Execute(statements[|statements| - 1], middle)
  }

  lemma {:induction false} RunConcat(one: seq<Statement>, two: seq<Statement>, store: Store)
    ensures Run(one + two, store) == if Run(one, store).None? then None else Run(two, Run(one, store).value)
  {
    hide Execute;
    if two == [] {
      assert one + two == one;
    } else {
      var n := |two| - 1;
      assert (one + two)[..|one| + n] == one + two[..n];
      RunConcat(one, two[..n], store);
    }
  }

  lemma RunOne(statement: Statement, store: Store)
    ensures Run([statement], store) == Execute(statement, store)
  {
    hide Execute;
    assert [statement][..0] == [];
  }

  // ---- Declared names

  function Declared(statements: seq<Statement>): set<string> {
    set i | 0 <= i < |statements| && statements[i].Declaration? :: statements[i].name
  }

  /** No name is declared twice. */
  ghost predicate Distinct(statements: seq<Statement>) {
    forall i, j :: 0 <= i < j < |statements| && statements[i].Declaration? && statements[j].Declaration? ==>
      statements[i].name != statements[j].name
  }

  lemma DistinctParts(one: seq<Statement>, two: seq<Statement>)
    requires Distinct(one + two)
    ensures Distinct(one) && Distinct(two) && Declared(one) !! Declared(two)
  {
    var all := one + two;
    assert forall i :: 0 <= i < |one| ==> all[i] == one[i];
    assert forall i :: 0 <= i < |two| ==> all[|one| + i] == two[i];
    forall i, j | 0 <= i < j < |one| && one[i].Declaration? && one[j].Declaration? ensures one[i].name != one[j].name {
      assert all[i].name != all[j].name;
    }
    forall i, j | 0 <= i < j < |two| && two[i].Declaration? && two[j].Declaration? ensures two[i].name != two[j].name {
      assert all[|one| + i].name != all[|one| + j].name;
    }
    forall i, j | 0 <= i < |one| && 0 <= j < |two| && one[i].Declaration? &&
      two[j].Declaration? ensures one[i].name != two[j].name {
      assert all[i].name != all[|one| + j].name;
    }
  }

  lemma DeclaredConcat(one: seq<Statement>, two: seq<Statement>)
    ensures Declared(one + two) == Declared(one) + Declared(two)
  {
    var all := one + two;
    assert forall i :: 0 <= i < |one| ==> all[i] == one[i];
    assert forall i :: 0 <= i < |two| ==> all[|one| + i] == two[i];
    forall x | x in Declared(all) ensures x in Declared(one) + Declared(two) {
      var i :| 0 <= i < |all| && all[i].Declaration? && all[i].name == x;
      if i >= |one| { assert all[i] == two[i - |one|]; }
    }
  }

  /** The names outside a set have the same value in two stores. */
  ghost predicate SameElsewhere(before: Store, after: Store, changed: set<string>) {
    forall n :: n !in changed ==> (n in before <==> n in after) && (n in before ==> before[n] == after[n])
  }
}
