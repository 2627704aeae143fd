/** Writing an R1CS file section by section, each section's size patched in once it is known
    (constraint_writers/src/r1cs_writer.rs). Each operation fails exactly when its bytes do not fit the device. */
module R1csWriter {
  import opened LinearCombination
  import opened Constraints
  import opened Bytes
  import opened R1csFormat
  import opened R1csFile

  const PLACE_HOLDER: seq<byte> := [3, 3, 3, 3, 3, 3, 3, 3]

  // ---- Blocks

  lemma {:induction false} TermsAppend(m: LC, order: seq<nat>, k: nat, fieldSize: nat)
    requires k in m && forall i :: 0 <= i < |order| ==> order[i] in m
    ensures TermBytes(m, order + [k], fieldSize) == TermBytes(m, order, fieldSize) +
            (Encode(k, 4) + Encode(Magnitude(m[k]), fieldSize))
  {
    hide Encode, Magnitude;
    if order == [] {
      assert order + [k] == [k];
      assert TermBytes(m, [k][1..], fieldSize) == [];
    } else {
      TermsAppend(m, order[1..], k, fieldSize);
      assert (order + [k])[1..] == order[1..] + [k];
      var head, tail := Encode(order[0], 4) + Encode(Magnitude(m[order[0]]), fieldSize),
        TermBytes(m, order[1..], fieldSize);
      Assoc(head, tail, Encode(k, 4) + Encode(Magnitude(m[k]), fieldSize));
    }
  }

  /** A combination's block, its signals in an arbitrary order, and the bytes counted on the way. */
  method LinearCombinationBlock(m: LC, fieldSize: nat) returns (block: seq<byte>, size: nat)
    ensures IsBlock(block, m, fieldSize) && size == |block|
  {
    hide Encode, Magnitude, TermBytes;
    var stream, bytes := AsBytes(|m|, 4);
    block, size := stream, bytes;
    var left := m.Keys;
    ghost var order: seq<nat> := [];
    EmptyTerms(m, fieldSize);
    assert block + [] == block;
    while left != {}
      invariant left <= m.Keys && |order| + |left| == |m.Keys|
      invariant forall i :: 0 <= i < |order| ==> order[i] in m && order[i] !in left
      invariant forall i, j :: 0 <= i < j < |order| ==> order[i] != order[j]
      invariant block == BlockBytes(m, order, fieldSize) && size == |block|
      decreases |left|
    {
      var id :| id in left;
      left := left - {id};
      TermsAppend(m, order, id, fieldSize);
      order := order + [id];
      stream, bytes := AsBytes(id, 4);
      block, size := block + stream, size + bytes;
      stream, bytes := AsBytes(Magnitude(m[id]), fieldSize);
      block, size := block + stream, size + bytes;
    }
    assert |m.Keys| == |m|;
    assert Lists(order, m);
  }

  lemma EmptyTerms(m: LC, fieldSize: nat)
    ensures TermBytes(m, [], fieldSize) == []
  {
  }

  lemma BlocksJoined(one: seq<byte>, two: seq<byte>, three: seq<byte>, c: Constraint, fieldSize: nat)
    requires IsBlock(one, c.a, fieldSize) && IsBlock(two, c.b, fieldSize) && IsBlock(three, c.c, fieldSize)
    ensures ConstraintBytes(one + two + three, c, fieldSize)
  {
    hide IsBlock;
    assert ThreeBlocks(one + two + three, one, two, three, c, fieldSize);
  }

  lemma Appended(start: seq<byte>, bytes: seq<byte>)
    ensures start <= start + bytes && (start + bytes)[|start|..] == bytes
  {
  }

  // ---- The file

  /** A section with its size patched in over the placeholder. */
  lemma Patched(before: seq<byte>, kind: byte, body: seq<byte>)
    requires |body| < SIGNED_LIMIT
    ensures var file, at, patch := before + TypeBytes(kind) + PLACE_HOLDER + body, |before| + 4, Encode(|body|, 8);
            && |patch| == 8 && |file| == at + 8 + |body|
            && file[..at] + patch + (if at + 8 < |file| then file[at + 8..] else []) == before +
              SectionBytes(Section(kind, body))
  {
    hide Encode, Power;
    LimitFits();
    EncodeFits(|body|, 8);
    var front, patch := before + TypeBytes(kind), Encode(|body|, 8);
    var file := front + PLACE_HOLDER + body;
    assert file[..|front|] == front;
    assert if |front| + 8 < |file| then file[|front| + 8..] == body else body == [];
    assert before + (TypeBytes(kind) + patch + body) == front + patch + body;
  }

  /** The outcome of an operation on the file; a failure ends the export. */
  datatype Status = Success | Failure {
    predicate IsFailure() {
      Failure?
    }

    function PropagateFailure(): Status {
      this
    }
  }

  /** The file and its cursor, with the section being written. A write fails when the file would outgrow
      the device. The ghost fields name what came before the section and what it holds so far. */
  class R1csWriter {
    const fieldSize: nat
    const capacity: nat
    var file: seq<byte>
    var position: nat
    var goBack: nat
    var size: nat
    ghost var before: seq<byte>
    ghost var kind: byte
    ghost var body: seq<byte>

    ghost predicate AtEnd()
      reads this
    {
      position == |file| <= capacity < SIGNED_LIMIT
    }

    /** The bytes counted are the bytes of the section, and its size is still a placeholder. */
    ghost predicate InSection()
      reads this
    {
      && AtEnd()
      && file == before + TypeBytes(kind) + PLACE_HOLDER + body
      && goBack == |before| + 4 && size == |body|
    }

    /** Nothing changed but the bytes added to the section. */
    twostate predicate Wrote(bytes: seq<byte>)
      reads this
    {
      InSection() && before == old(before) && kind == old(kind) && body == old(body) + bytes &&
        |file| == |old(file)| + |bytes|
    }

    constructor (fieldSize: nat, capacity: nat)
      requires capacity < SIGNED_LIMIT
      ensures AtEnd() && file == [] && this.fieldSize == fieldSize && this.capacity == capacity
    {
      this.fieldSize, this.capacity := fieldSize, capacity;
      file := [];
      position, goBack, size := 0, 0, 0;
    }

    method InitializeFile(numSections: byte) returns (status: Status)
      requires AtEnd() && file == []
      modifies `file, `position
      ensures status.Success? <==> |Prelude(numSections)| <= capacity
      ensures status.Success? ==> AtEnd() && file == Prelude(numSections)
    {
      var sections: seq<byte> := [numSections, 0, 0, 0];
      :- Write(MAGIC);
      :- Write(VERSION);
      :- Write(sections);
      status := Success;
    }

    /** Write over what is at the cursor and move past it. */
    method Write(bytes: seq<byte>) returns (status: Status)
      requires position <= |file| <= capacity
      modifies `file, `position
      ensures status.Success? <==> old(position) + |bytes| <= capacity
      ensures status.Success? ==> position == old(position) + |bytes| && |file| <= capacity
      ensures status.Success? ==>
                file == old(file)[..old(position)] + bytes +
                  (if position < |old(file)| then old(file)[position..] else [])
    {
      var end := position + |bytes|;
      if end > capacity {
        return Failure;
      }
      file := file[..position] + bytes + (if end < |file| then file[end..] else []);
      position := end;
      status := Success;
    }

    /** Write and count. */
    method Append(bytes: seq<byte>, count: nat) returns (status: Status)
      requires InSection() && count == |bytes|
      modifies `file, `position, `size, `body
      ensures status.Success? <==> |old(file)| + |bytes| <= capacity
      ensures status.Success? ==> Wrote(bytes)
    {
      size := size + count;
      body := body + bytes;
      status := Write(bytes);
    }

    method StartSection(sectionKind: byte) returns (status: Status)
      requires AtEnd()
      modifies this
      ensures status.Success? <==> |old(file)| + 12 <= capacity
      ensures status.Success? ==> InSection() && before == old(file) && kind == sectionKind && body == []
    {
      before, kind, body := file, sectionKind, [];
      :- Write(TypeBytes(sectionKind));
      goBack, size := position, 0;
      :- Write(PLACE_HOLDER);
      status := Success;
    }

    /** Patch the section's size in, and go back to the end. */
    method EndSection() returns (status: Status)
      requires InSection()
      modifies `file, `position
      ensures status.Success? && AtEnd() && file == before + SectionBytes(Section(kind, body))
    {
      hide Encode, SectionBytes;
      Patched(before, kind, body);
      var end := position;
      position := goBack;
      var stream, _ := AsBytes(size, 8);
      :- Write(stream);
      position := end;
      status := Success;
    }

    method WriteNumber(n: nat, width: nat) returns (status: Status)
      requires InSection()
      modifies `file, `position, `size, `body
      ensures status.Success? <==> |old(file)| + |Encode(n, width)| <= capacity
      ensures status.Success? ==> Wrote(Encode(n, width))
    {
      hide Encode;
      var stream, bytes := AsBytes(n, width);
      status := Append(stream, bytes);
    }

    method WriteNumbers(ns: seq<nat>, width: nat) returns (status: Status)
      requires InSection()
      modifies `file, `position, `size, `body
      ensures status.Success? <==> |old(file)| + |NumbersBytes(ns, width)| <= capacity
      ensures status.Success? ==> Wrote(NumbersBytes(ns, width))
    {
      hide Encode;
      var n := 0;
      while n < |ns|
        invariant n <= |ns| && Wrote(NumbersBytes(ns[..n], width))
      {
        assert ns[..n + 1][..n] == ns[..n];
        NumbersGrow(ns, n + 1, width);
        :- WriteNumber(ns[n], width);
        n := n + 1;
      }
      assert ns[..n] == ns;
      status := Success;
    }

    method WriteConstraint(c: Constraint) returns (status: Status)
      requires InSection()
      modifies `file, `position, `size, `body
      ensures status.Success? <==> |old(file)| + ConstraintLength(c, fieldSize) <= capacity
      ensures status.Success? ==>
                old(body) <= body && Wrote(body[|old(body)|..]) && ConstraintBytes(body[|old(body)|..], c, fieldSize)
    {
      hide IsBlock, InSection, ConstraintBytes;
      var blockA, sizeA := LinearCombinationBlock(c.a, fieldSize);
      var blockB, sizeB := LinearCombinationBlock(c.b, fieldSize);
      var blockC, sizeC := LinearCombinationBlock(c.c, fieldSize);
      ghost var bytes := blockA + blockB + blockC;
      BlocksJoined(blockA, blockB, blockC, c, fieldSize);
      ConstraintBytesLength(c, bytes, fieldSize);
      ghost var start := body;
      :- Append(blockA, sizeA);
      :- Append(blockB, sizeB);
      Assoc(start, blockA, blockB);
      :- Append(blockC, sizeC);
      Assoc(start, blockA + blockB, blockC);
      Appended(start, bytes);
      status := Success;
    }

    method WriteHeader(h: Header) returns (status: Status)
      requires InSection()
      modifies `file, `position, `size, `body
      ensures status.Success? <==> |old(file)| + |HeaderBytes(h, fieldSize)| <= capacity
      ensures status.Success? ==> Wrote(HeaderBytes(h, fieldSize))
    {
      hide Encode, InSection;
      ghost var start, done := body, Encode(fieldSize, 4);
      :- WriteNumber(fieldSize, 4);
      :- WriteNumber(h.field, fieldSize);
      Assoc(start, done, Encode(h.field, fieldSize));
      done := done + Encode(h.field, fieldSize);
      :- WriteNumber(h.totalWires, 4);
      Assoc(start, done, Encode(h.totalWires, 4));
      done := done + Encode(h.totalWires, 4);
      :- WriteNumber(h.publicOutputs, 4);
      Assoc(start, done, Encode(h.publicOutputs, 4));
      done := done + Encode(h.publicOutputs, 4);
      :- WriteNumber(h.publicInputs, 4);
      Assoc(start, done, Encode(h.publicInputs, 4));
      done := done + Encode(h.publicInputs, 4);
      :- WriteNumber(h.privateInputs, 4);
      Assoc(start, done, Encode(h.privateInputs, 4));
      done := done + Encode(h.privateInputs, 4);
      :- WriteNumber(h.numberOfLabels, 8);
      Assoc(start, done, Encode(h.numberOfLabels, 8));
      done := done + Encode(h.numberOfLabels, 8);
      :- WriteNumber(h.numberOfConstraints, 4);
      Assoc(start, done, Encode(h.numberOfConstraints, 4));
      status := Success;
    }

    /** A gate's name, its zero byte and its parameters. */
    method WriteGate(g: Gate) returns (status: Status)
      requires InSection()
      modifies `file, `position, `size, `body
      ensures status.Success? <==> |old(file)| + |GateBytes(g, fieldSize)| <= capacity
      ensures status.Success? ==> Wrote(GateBytes(g, fieldSize))
    {
      hide Encode, InSection, NumbersBytes;
      :- Append(g.name, |g.name|);
      :- Append([0], 1);
      :- WriteNumber(|g.parameters|, 4);
      :- WriteNumbers(g.parameters, fieldSize);
      status := Success;
    }

    method WriteCustomGatesUsages(gs: seq<Gate>) returns (status: Status)
      requires InSection()
      modifies `file, `position, `size, `body
      ensures status.Success? <==> |old(file)| + |GatesBytes(gs, fieldSize)| <= capacity
      ensures status.Success? ==> Wrote(GatesBytes(gs, fieldSize))
    {
      hide Encode, InSection, GateBytes;
      :- WriteNumber(|gs|, 4);
      var n := 0;
      while n < |gs|
        invariant n <= |gs| && |file| <= capacity && Wrote(Encode(|gs|, 4) + GateListBytes(gs[..n], fieldSize))
      {
        assert gs[..n + 1][..n] == gs[..n];
        GatesGrow(gs, n + 1, fieldSize);
        :- WriteGate(gs[n]);
        n := n + 1;
      }
      assert gs[..n] == gs;
      status := Success;
    }

    method WriteApplication(x: Application) returns (status: Status)
      requires InSection()
      modifies `file, `position, `size, `body
      ensures status.Success? <==> |old(file)| + |ApplicationBytes(x)| <= capacity
      ensures status.Success? ==> Wrote(ApplicationBytes(x))
    {
      hide Encode, InSection, NumbersBytes;
      :- WriteNumber(x.index, 4);
      :- WriteNumber(|x.signals|, 4);
      :- WriteNumbers(x.signals, 8);
      status := Success;
    }

    method WriteCustomGatesApplications(xs: seq<Application>) returns (status: Status)
      requires InSection()
      modifies `file, `position, `size, `body
      ensures status.Success? <==> |old(file)| + |ApplicationsBytes(xs)| <= capacity
      ensures status.Success? ==> Wrote(ApplicationsBytes(xs))
    {
      hide Encode, InSection, ApplicationBytes;
      :- WriteNumber(|xs|, 4);
      var n := 0;
      while n < |xs|
        invariant n <= |xs| && |file| <= capacity && Wrote(Encode(|xs|, 4) + ApplicationListBytes(xs[..n]))
      {
        assert xs[..n + 1][..n] == xs[..n];
        ApplicationsGrow(xs, n + 1);
        :- WriteApplication(xs[n]);
        n := n + 1;
      }
      assert xs[..n] == xs;
      status := Success;
    }
  }
}
