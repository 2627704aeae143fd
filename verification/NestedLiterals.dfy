/** Array literal expressions, their flattening and its inverse (literal_array_dimensions_and_values in
    llzk_backend/src/gen_context.rs, build_nested in llzk_backend/src/template_ext.rs). */
module NestedLiterals {
  import opened Field
  import A = ArrayStatements

  datatype Expression = Number(value: int) | ArrayInLine(elements: seq<Expression>) | UniformArray(element: Expression,
                               dimension: Expression) | OtherExpression

  type Flat = (seq<nat>, seq<int>)

  /** The dimensions and row-major elements of a rectangular constant literal. */
  function Flatten(e: Expression): Option<Flat>
    decreases e, 0
  {
    match e
    case Number(v) => Some(([], [v]))
    case ArrayInLine(elements) => if elements == [] then None else
      (match FlattenRows(e, |elements|)
       case None => None
       case Some((dims, values)) => Some(([|elements|] + dims, values)))
    case UniformArray(element, dimension) =>
      (match Flatten(element)
       case None => None
       case Some((dims, values)) =>
         if !dimension.Number? || A.ToUsize(dimension.value).None? || dimension.value == 0 ||
           |values| * dimension.value >= A.USIZE_LIMIT then None
         else Some(([dimension.value] + dims, Repeat(values, dimension.value))))
    case OtherExpression => None
  }

  /** The first n elements, all of one shape. */
  function FlattenRows(e: Expression, n: nat): Option<Flat>
    requires e.ArrayInLine? && 0 < n <= |e.elements|
    decreases e, 0, n
  {
    if n == 1 then Flatten(e.elements[0]) else
      match (FlattenRows(e, n - 1), Flatten(e.elements[n - 1]))
      case (Some((dims, values)), Some((more, row))) => if more == dims then Some((dims, values + row)) else None
      case _ => None
  }

  function Repeat(values: seq<int>, n: nat): seq<int> {
    if n == 0 then [] else Repeat(values, n - 1) + values
  }

  /** Nested expressions from row-major values, and the offset after the last one used. */
  function BuildNested(flat: seq<int>, offset: nat, dims: seq<nat>): Option<(Expression, nat)>
    decreases |dims|, 0
  {
    if dims == [] then
      if offset >= |flat| then None else Some((Number(flat[offset]), offset + 1))
    else
      match BuildRows(flat, offset, dims, dims[0])
      case None => None
      case Some((elements, end)) => Some((ArrayInLine(elements), end))
  }

  function BuildRows(flat: seq<int>, offset: nat, dims: seq<nat>, n: nat): (r: Option<(seq<Expression>, nat)>)
    requires dims != []
    ensures r.Some? ==> |r.value.0| == n
    decreases |dims|, 0, n
  {
    if n == 0 then Some(([], offset)) else
      match BuildRows(flat, offset, dims, n - 1)
      case None => None
      case Some((elements, middle)) =>
        match BuildNested(flat, middle, dims[1..])
        case None => None
        case Some((e, end)) => Some((elements + [e], end))
  }

  // ---- The value a literal stands for

  ghost function Denote(e: Expression): Option<A.Value>
    decreases e
  {
    match e
    case Number(v) => Some(A.Scalar(v))
    case ArrayInLine(elements) =>
      if forall i :: 0 <= i < |elements| ==> Denote(elements[i]).Some?
      then Some(A.Array(seq(|elements|, i requires 0 <= i < |elements| => Denote(elements[i]).value))) else None
    case UniformArray(element, dimension) =>
      if dimension.Number? && dimension.value >= 0 && Denote(element).Some?
      then Some(A.Array(seq(dimension.value, _ => Denote(element).value))) else None
    case OtherExpression => None
  }

  /** The first n rows of a nested array, each of the remaining dimensions. */
  ghost predicate Rows(items: seq<A.Value>, dims: seq<nat>, values: seq<int>) {
    && |values| == |items| * A.Product(dims)
    && forall i :: 0 <= i < |items| ==> RowAt(items, dims, values, i)
  }

  ghost predicate RowAt(items: seq<A.Value>, dims: seq<nat>, values: seq<int>, i: nat)
    requires i < |items| && |values| == |items| * A.Product(dims)
  {
    A.BlockFits(|items|, i, A.Product(dims));
    items[i] == A.Nest(dims, A.Block(values, A.Product(dims), i))
  }

  lemma RowsNest(items: seq<A.Value>, dims: seq<nat>, values: seq<int>)
    requires Rows(items, dims, values)
    ensures |values| == A.Product([|items|] + dims) && A.Nest([|items|] + dims, values) == A.Array(items)
  {
    var all := [|items|] + dims;
    assert all[1..] == dims;
    var nested := A.Nest(all, values).items;
    forall i | 0 <= i < |items|
      ensures nested[i] == items[i]
    {
      assert RowAt(items, dims, values, i);
    }
    assert nested == items;
  }

  lemma RowsSnoc(items: seq<A.Value>, dims: seq<nat>, values: seq<int>, row: seq<int>)
    requires Rows(items, dims, values) && |row| == A.Product(dims)
    ensures Rows(items + [A.Nest(dims, row)], dims, values + row)
  {
    hide A.Product, A.Nest, A.Block, Rows, RowAt;
    var all, both := items + [A.Nest(dims, row)], values + row;
    RowsSize(items, dims, values, row);
    forall i | 0 <= i < |all|
      ensures RowAt(all, dims, both, i)
    {
      if i < |items| { RowStays(items, dims, values, row, i); } else { LastRow(items, dims, values, row); }
    }
    RowsAre(all, dims, both);
  }

  lemma RowsAre(items: seq<A.Value>, dims: seq<nat>, values: seq<int>)
    requires |values| == |items| * A.Product(dims) && forall i :: 0 <= i < |items| ==> RowAt(items, dims, values, i)
    ensures Rows(items, dims, values)
  {
  }

  lemma RowsSize(items: seq<A.Value>, dims: seq<nat>, values: seq<int>, row: seq<int>)
    requires Rows(items, dims, values) && |row| == A.Product(dims)
    ensures |values + row| == (|items| + 1) * A.Product(dims)
  {
    hide A.Product, RowAt;
  }

  lemma RowStays(items: seq<A.Value>, dims: seq<nat>, values: seq<int>, row: seq<int>, i: nat)
    requires Rows(items, dims, values) && |row| == A.Product(dims) && i < |items|
    ensures |values + row| == (|items| + 1) * A.Product(dims)
    ensures RowAt(items + [A.Nest(dims, row)], dims, values + row, i)
  {
    hide A.Product, A.Nest, A.Block;
    assert RowAt(items, dims, values, i);
    A.BlockFits(|items|, i, A.Product(dims));
    A.BlockFits(|items| + 1, i, A.Product(dims));
    FrontBlock(values, row, A.Product(dims), i);
  }

  lemma LastRow(items: seq<A.Value>, dims: seq<nat>, values: seq<int>, row: seq<int>)
    requires Rows(items, dims, values) && |row| == A.Product(dims)
    ensures |values + row| == (|items| + 1) * A.Product(dims)
    ensures RowAt(items + [A.Nest(dims, row)], dims, values + row, |items|)
  {
    hide A.Product, A.Nest, A.Block;
    A.BlockFits(|items| + 1, |items|, A.Product(dims));
    LastBlock(values, row, A.Product(dims), |items|);
  }

  lemma FrontBlock(values: seq<int>, row: seq<int>, size: nat, i: nat)
    requires (i + 1) * size <= |values|
    ensures (i + 1) * size <= |values + row| && A.Block(values + row, size, i) == A.Block(values, size, i)
  {
    assert i * size + size == (i + 1) * size;
  }

  lemma LastBlock(values: seq<int>, row: seq<int>, size: nat, n: nat)
    requires |values| == n * size && |row| == size
    ensures (n + 1) * size <= |values + row| && A.Block(values + row, size, n) == row
  {
    assert n * size + size == (n + 1) * size;
  }

  lemma RowsNothing(dims: seq<nat>)
    ensures Rows([], dims, [])
  {
  }

  lemma {:induction false} RepeatRows(dims: seq<nat>, values: seq<int>, n: nat)
    requires |values| == A.Product(dims)
    ensures Rows(seq(n, _ => A.Nest(dims, values)), dims, Repeat(values, n))
  {
    if n == 0 {
      RowsNothing(dims);
      assert seq(0, _ => A.Nest(dims, values)) == [];
    } else {
      RepeatRows(dims, values, n - 1);
      RowsSnoc(seq(n - 1, _ => A.Nest(dims, values)), dims, Repeat(values, n - 1), values);
      assert seq(n, _ => A.Nest(dims, values)) == seq(n - 1, _ => A.Nest(dims, values)) + [A.Nest(dims, values)];
    }
  }

  /** Flattening a literal keeps its value: nesting the flat values gives it back. */
  lemma {:induction false} FlattenDenotes(e: Expression)
    requires Flatten(e).Some?
    ensures var (dims, values) := Flatten(e).value;
            |values| == A.Product(dims) && Denote(e) == Some(A.Nest(dims, values))
    decreases e, 0
  {
    match e {
      case Number(v) =>
      case ArrayInLine(elements) =>
        var (dims, values) := FlattenRows(e, |elements|).value;
        var items := FlattenRowsDenote(e, |elements|);
        RowsNest(items, dims, values);
        assert items == seq(|elements|, i requires 0 <= i < |elements| => Denote(elements[i]).value);
      case UniformArray(element, dimension) =>
        FlattenDenotes(element);
        var (dims, values) := Flatten(element).value;
        RepeatRows(dims, values, dimension.value);
        RowsNest(seq(dimension.value, _ => A.Nest(dims, values)), dims, Repeat(values, dimension.value));
      case OtherExpression =>
    }
  }

  lemma {:induction false} FlattenRowsDenote(e: Expression, n: nat) returns (items: seq<A.Value>)
    requires e.ArrayInLine? && 0 < n <= |e.elements| && FlattenRows(e, n).Some?
    ensures var (dims, values) := FlattenRows(e, n).value; Rows(items, dims, values)
    ensures |items| == n && forall i :: 0 <= i < n ==> Denote(e.elements[i]) == Some(items[i])
    decreases e, 0, n
  {
    FlattenDenotes(e.elements[n - 1]);
    var (dims, row) := Flatten(e.elements[n - 1]).value;
    if n == 1 {
      RowsNothing(dims);
      RowsSnoc([], dims, [], row);
      items := [A.Nest(dims, row)];
      assert [] + items == items && [] + row == row;
    } else {
      var before := FlattenRowsDenote(e, n - 1);
      RowsSnoc(before, dims, FlattenRows(e, n - 1).value.1, row);
      items := before + [A.Nest(dims, row)];
    }
  }

  // ---- Building is the inverse of flattening

  /** Building uses exactly one row-major block; it fails exactly when the values run out. */
  lemma {:induction false} BuildConsumes(flat: seq<int>, offset: nat, dims: seq<nat>)
    requires offset <= |flat|
    ensures BuildNested(flat, offset, dims).Some? <==> offset + A.Product(dims) <= |flat|
    ensures BuildNested(flat, offset, dims).Some? ==>
            BuildNested(flat, offset, dims).value.1 == offset + A.Product(dims)
    decreases |dims|, 0
  {
    if dims != [] { BuildRowsConsumes(flat, offset, dims, dims[0]); }
  }

  lemma {:induction false} BuildRowsConsumes(flat: seq<int>, offset: nat, dims: seq<nat>, n: nat)
    requires dims != [] && offset <= |flat|
    ensures BuildRows(flat, offset, dims, n).Some? <==> offset + n * A.Product(dims[1..]) <= |flat|
    ensures BuildRows(flat, offset, dims, n).Some? ==>
            BuildRows(flat, offset, dims, n).value.1 == offset + n * A.Product(dims[1..])
    decreases |dims|, 0, n
  {
    if n > 0 {
      var size := A.Product(dims[1..]);
      BuildRowsConsumes(flat, offset, dims, n - 1);
      assert (n - 1) * size + size == n * size;
      if BuildRows(flat, offset, dims, n - 1).Some? {
        BuildConsumes(flat, offset + (n - 1) * size, dims[1..]);
      }
    }
  }

  /** Flattening what was built gives back the dimensions and the block of values. */
  lemma {:induction false} BuildFlatten(flat: seq<int>, offset: nat, dims: seq<nat>)
    requires offset + A.Product(dims) <= |flat| && forall i :: 0 <= i < |dims| ==> dims[i] > 0
    ensures BuildNested(flat, offset, dims).Some?
    ensures Flatten(BuildNested(flat, offset, dims).value.0) == Some((dims, flat[offset..offset + A.Product(dims)]))
    decreases |dims|, 0
  {
    BuildConsumes(flat, offset, dims);
    if dims == [] {
      assert flat[offset..offset + 1] == [flat[offset]];
    } else {
      var elements := BuildRows(flat, offset, dims, dims[0]).value.0;
      BuildRowsFlatten(flat, offset, dims, dims[0]);
      assert elements[..dims[0]] == elements;
      assert [dims[0]] + dims[1..] == dims;
    }
  }

  lemma {:induction false} BuildRowsFlatten(flat: seq<int>, offset: nat, dims: seq<nat>, n: nat)
    requires dims != [] && 0 < n && offset + n * A.Product(dims[1..]) <= |flat| && forall i :: 0 <= i < |dims| ==>
             dims[i] > 0
    ensures BuildRows(flat, offset, dims, n).Some?
    ensures FlattenRows(ArrayInLine(BuildRows(flat, offset, dims, n).value.0), n) ==
            Some((dims[1..], flat[offset..offset + n * A.Product(dims[1..])]))
    decreases |dims|, 0, n
  {
    hide A.Product, Flatten, BuildNested;
    var size := A.Product(dims[1..]);
    MulNext(n, size);
    BuildRowsConsumes(flat, offset, dims, n);
    BuildRowsConsumes(flat, offset, dims, n - 1);
    var start := offset + (n - 1) * size;
    assert start + size == offset + n * size;
    BuildFlatten(flat, start, dims[1..]);
    var elements := BuildRows(flat, offset, dims, n).value.0;
    if n > 1 {
      BuildRowsFlatten(flat, offset, dims, n - 1);
      FlattenPrefix(elements, BuildRows(flat, offset, dims, n - 1).value.0, n - 1);
      SliceJoin(flat, offset, start, start + size);
    }
  }

  lemma MulNext(n: nat, size: nat)
    requires n > 0
    ensures (n - 1) * size + size == n * size && (n - 1) * size >= 0
  {
  }

  lemma SliceJoin(flat: seq<int>, a: nat, b: nat, c: nat)
    requires a <= b <= c <= |flat|
    ensures flat[a..b] + flat[b..c] == flat[a..c]
  {
  }

  lemma {:induction false} FlattenPrefix(elements: seq<Expression>, before: seq<Expression>, n: nat)
    requires 0 < n <= |before| && before <= elements
    ensures FlattenRows(ArrayInLine(elements), n) == FlattenRows(ArrayInLine(before), n)
  {
    if n > 1 { FlattenPrefix(elements, before, n - 1); }
  }
}
