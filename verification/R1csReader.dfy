/** Reading an R1CS file through a moving cursor (constraint_writers/src/r1cs_reader.rs): every method
    gives what the parser of the same block gives on the input from the cursor on. */
module R1csReader {
  import opened Field
  import opened LinearCombination
  import opened Constraints
  import opened Bytes
  import opened R1csFormat
  import opened R1csFile

  // ---- An error in an element is an error of the list

  lemma {:induction false} NumbersStop(input: seq<byte>, i: nat, n: nat, width: nat)
    requires i <= n && ParseNumbers(input, i, width).Err?
    ensures ParseNumbers(input, n, width) == ParseNumbers(input, i, width)
    decreases n
  {
    hide ParseNumber;
    if i < n { NumbersStop(input, i, n - 1, width); }
  }

  lemma {:induction false} ConstraintsStop(input: seq<byte>, i: nat, n: nat, fieldSize: nat)
    requires i <= n && ParseConstraints(input, i, fieldSize).Err?
    ensures ParseConstraints(input, n, fieldSize) == ParseConstraints(input, i, fieldSize)
    decreases n
  {
    hide ParseConstraint;
    if i < n { ConstraintsStop(input, i, n - 1, fieldSize); }
  }

  lemma {:induction false} GatesStop(input: seq<byte>, i: nat, n: nat, fieldSize: nat)
    requires i <= n && ParseGateList(input, i, fieldSize).Err?
    ensures ParseGateList(input, n, fieldSize) == ParseGateList(input, i, fieldSize)
    decreases n
  {
    hide ParseGate;
    if i < n { GatesStop(input, i, n - 1, fieldSize); }
  }

  lemma {:induction false} ApplicationsStop(input: seq<byte>, i: nat, n: nat)
    requires i <= n && ParseApplicationList(input, i).Err?
    ensures ParseApplicationList(input, n) == ParseApplicationList(input, i)
    decreases n
  {
    hide ParseApplication;
    if i < n { ApplicationsStop(input, i, n - 1); }
  }

  /** Section starts that leave room for the section's type and size. */
  ghost predicate InFile(starts: map<nat, nat>, bytes: seq<byte>) {
    forall k :: k in starts ==> starts[k] + 12 <= |bytes|
  }

  /** A name read so far, put before the rest of it. */
  function NameFrom(front: seq<byte>, tail: Parse<seq<byte>>): Parse<seq<byte>> {
    match tail
    case Err(e) => Err(e)
    case Ok((name, rest)) => Ok((front + name, rest))
  }

  class R1csReader {
    const file: seq<byte>
    var position: nat

    /** The input from the cursor on; nothing past the end. */
    ghost function Rest(): seq<byte>
      reads this
    {
      if position <= |file| then file[position..] else []
    }

    /** The result and the cursor are what the parser says. */
    ghost predicate Follows<T>(r: Result<T>, parse: Parse<T>)
      reads this
    {
      match parse
      case Err(e) => r == Err(e)
      case Ok((v, rest)) => r == Ok(v) && Rest() == rest
    }

    constructor (file: seq<byte>)
      ensures this.file == file && position == 0
    {
      this.file := file;
      position := 0;
    }

    method ReadExact(n: nat) returns (r: Result<seq<byte>>)
      modifies this
      ensures Follows(r, Take(old(Rest()), n))
      ensures r.Ok? ==> position == old(position) + n && (position <= |file| || n == 0)
    {
      if n == 0 {
        return Ok([]);
      }
      if position + n > |file| {
        return Err(UnexpectedEnd);
      }
      assert Rest()[..n] == file[position..position + n] && Rest()[n..] == file[position + n..];
      r := Ok(file[position..position + n]);
      position := position + n;
    }

    method ReadBigint(size: nat) returns (r: Result<nat>)
      modifies this
      ensures Follows(r, ParseNumber(old(Rest()), size))
      ensures r.Ok? ==> position == old(position) + size
    {
      hide FromBytes;
      var buffer :- ReadExact(size);
      r := Ok(FromBytes(buffer));
    }

    method ReadNumbers(n: nat, width: nat) returns (r: Result<seq<nat>>)
      modifies this
      ensures Follows(r, ParseNumbers(old(Rest()), n, width))
    {
      hide ParseNumber;
      ghost var start := Rest();
      var ns: seq<nat> := [];
      for i := 0 to n
        invariant ParseNumbers(start, i, width) == Ok((ns, Rest()))
      {
        var value := ReadBigint(width);
        if value.Err? {
          assert ParseNumbers(start, i + 1, width) == Err(value.error);
          NumbersStop(start, i + 1, n, width);
          return Err(value.error);
        }
        ns := ns + [value.value];
      }
      r := Ok(ns);
    }

    /** A block of a combination; a repeated signal keeps the last factor. */
    method ReadLinearCombinationBlock(fieldSize: nat) returns (r: Result<LC>)
      modifies this
      ensures Follows(r, ParseBlock(old(Rest()), fieldSize))
    {
      hide ParseNumber;
      var nonZeroFactors :- ReadBigint(4);
      ghost var start := Rest();
      var linearCombination: LC := map[];
      for i := 0 to nonZeroFactors
        invariant ParseTerms(start, nonZeroFactors, fieldSize, map[]) == ParseTerms(Rest(), nonZeroFactors - i,
                  fieldSize, linearCombination)
      {
        var id :- ReadBigint(4);
        var factor :- ReadBigint(fieldSize);
        linearCombination := linearCombination[id := factor];
      }
      r := Ok(linearCombination);
    }

    method ReadConstraint(fieldSize: nat) returns (r: Result<Constraint>)
      modifies this
      ensures Follows(r, ParseConstraint(old(Rest()), fieldSize))
    {
      hide ParseBlock;
      var a :- ReadLinearCombinationBlock(fieldSize);
      var b :- ReadLinearCombinationBlock(fieldSize);
      var c :- ReadLinearCombinationBlock(fieldSize);
      r := Ok(Constraint(a, b, c));
    }

    method ReadConstraints(n: nat, fieldSize: nat) returns (r: Result<seq<Constraint>>)
      modifies this
      ensures Follows(r, ParseConstraints(old(Rest()), n, fieldSize))
    {
      hide ParseConstraint;
      ghost var start := Rest();
      var cs: seq<Constraint> := [];
      while |cs| < n
        invariant |cs| <= n && ParseConstraints(start, |cs|, fieldSize) == Ok((cs, Rest()))
      {
        var c := ReadConstraint(fieldSize);
        if c.Err? {
          assert ParseConstraints(start, |cs| + 1, fieldSize) == Err(c.error);
          ConstraintsStop(start, |cs| + 1, n, fieldSize);
          return Err(c.error);
        }
        cs := cs + [c.value];
      }
      r := Ok(cs);
    }

    method ReadHeader() returns (r: Result<(nat, Header)>)
      modifies this
      ensures Follows(r, ParseHeader(old(Rest())))
    {
      hide ParseNumber;
      var fieldSize :- ReadBigint(4);
      var field :- ReadBigint(fieldSize);
      ghost var start := Rest();
      FourParsed(start);
      var totalWires :- ReadBigint(4);
      var publicOutputs :- ReadBigint(4);
      var publicInputs :- ReadBigint(4);
      var privateInputs :- ReadBigint(4);
      assert [] + [totalWires] + [publicOutputs] + [publicInputs] + [privateInputs] == [totalWires, publicOutputs,
        publicInputs, privateInputs];
      assert ParseNumbers(start, 4, 4) == Ok(([totalWires, publicOutputs, publicInputs, privateInputs], Rest()));
      var numberOfLabels :- ReadBigint(8);
      var numberOfConstraints :- ReadBigint(4);
      r := Ok((fieldSize, Header(field, totalWires, publicOutputs, publicInputs, privateInputs, numberOfLabels,
        numberOfConstraints)));
    }

    method ReadName() returns (r: Result<seq<byte>>)
      modifies this
      ensures Follows(r, ParseName(old(Rest())))
    {
      ghost var start := Rest();
      var name: seq<byte> := [];
      NothingBefore(ParseName(start));
      while true
        invariant ParseName(start) == NameFrom(name, ParseName(Rest()))
        decreases |Rest()|
      {
        ghost var rest := Rest();
        var buffer :- ReadExact(1);
        assert rest[..1] == [rest[0]];
        if buffer[0] == 0 {
          assert name + [] == name;
          break;
        }
        OneLetter(name, buffer[0], Rest(), rest);
        name := name + [buffer[0]];
      }
      r := Ok(name);
    }

    method ReadCustomGatesUsages(fieldSize: nat) returns (r: Result<seq<Gate>>)
      modifies this
      ensures Follows(r, ParseGates(old(Rest()), fieldSize))
    {
      hide ParseNumber, ParseGate;
      var n :- ReadBigint(4);
      ghost var start := Rest();
      var gates: seq<Gate> := [];
      for i := 0 to n
        invariant ParseGateList(start, i, fieldSize) == Ok((gates, Rest()))
      {
        var gate := ReadGate(fieldSize);
        if gate.Err? {
          assert ParseGateList(start, i + 1, fieldSize) == Err(gate.error);
          GatesStop(start, i + 1, n, fieldSize);
          return Err(gate.error);
        }
        gates := gates + [gate.value];
      }
      r := Ok(gates);
    }

    method ReadGate(fieldSize: nat) returns (r: Result<Gate>)
      modifies this
      ensures Follows(r, ParseGate(old(Rest()), fieldSize))
    {
      hide ParseNumber, ParseNumbers, ParseName;
      var name :- ReadName();
      if !Utf8(name) { return Err(InvalidName); }
      var n :- ReadBigint(4);
      var parameters :- ReadNumbers(n, fieldSize);
      r := Ok(Gate(name, parameters));
    }

    method ReadCustomGatesApplications() returns (r: Result<seq<Application>>)
      modifies this
      ensures Follows(r, ParseApplications(old(Rest())))
    {
      hide ParseNumber, ParseApplication;
      var n :- ReadBigint(4);
      ghost var start := Rest();
      var applications: seq<Application> := [];
      for i := 0 to n
        invariant ParseApplicationList(start, i) == Ok((applications, Rest()))
      {
        var application := ReadApplication();
        if application.Err? {
          assert ParseApplicationList(start, i + 1) == Err(application.error);
          ApplicationsStop(start, i + 1, n);
          return Err(application.error);
        }
        applications := applications + [application.value];
      }
      r := Ok(applications);
    }

    method ReadApplication() returns (r: Result<Application>)
      modifies this
      ensures Follows(r, ParseApplication(old(Rest())))
    {
      hide ParseNumber, ParseNumbers;
      var index :- ReadBigint(4);
      var n :- ReadBigint(4);
      var signals :- ReadNumbers(n, 8);
      r := Ok(Application(index, signals));
    }

    // ---- Sections

    /** Go to a section, check its type and step over its size. */
    method StartSection(starts: map<nat, nat>, kind: byte) returns (r: Result<nat>)
      requires InFile(starts, file)
      modifies this
      ensures match Find(file, starts, kind)
              case Err(e) => r == Err(e)
              case Ok(input) => r.Ok? && Rest() == input && r.value + 8 <= |file|
    {
      if kind !in starts {
        return Err(SectionNotPresent);
      }
      position := starts[kind];
      var header :- ReadExact(4);
      if header != TypeBytes(kind) {
        return Err(InvalidSectionHeader);
      }
      r := Ok(position);
      position := position + 8;
    }

    /** Read the size of the section that was read, and come back. */
    method EndSection(goBack: nat) returns (size: nat)
      requires goBack + 8 <= |file|
      modifies this
      ensures size == FromBytes(file[goBack..goBack + 8]) && position == old(position)
    {
      hide FromBytes;
      var back := position;
      position := goBack;
      assert Rest()[..8] == file[goBack..goBack + 8];
      var read := ReadBigint(8);
      size := read.value;
      position := back;
    }

    method ReadInitialization() returns (r: Result<nat>)
      requires position == 0
      modifies this
      ensures r == ReadPrelude(file) && (r.Ok? ==> position == 12)
    {
      var magic :- ReadExact(4);
      if magic != MAGIC {
        return Err(InvalidMagicNumber);
      }
      var version :- ReadExact(4);
      if version != VERSION {
        return Err(InvalidVersion);
      }
      var buffer :- ReadExact(4);
      r := Ok(buffer[0]);
    }

    /** Follow the sizes from section to section. */
    method ScanSections(nSections: nat) returns (r: Result<map<nat, nat>>)
      requires position == 12
      modifies this
      ensures r == Scan(file, 12, nSections, nSections, map[])
      ensures r.Ok? ==> InFile(r.value, file)
    {
      hide FromBytes;
      var currentOffset := 0;
      var starts: map<nat, nat> := map[];
      for i := 0 to nSections
        invariant Scan(file, 12, nSections, nSections, map[]) == Scan(file, position + currentOffset, nSections - i,
                  nSections, starts)
        invariant InFile(starts, file)
      {
        if position + currentOffset < 0 {
          return Err(InvalidSeek);
        }
        position := position + currentOffset;
        var newOffset := position;
        if position <= |file| { SectionHead(file, position); }
        var buffer :- ReadExact(4);
        var sectionSize :- ReadBigint(8);
        if !(1 <= buffer[0] <= nSections) {
          return Err(InvalidSectionType);
        }
        starts := starts[buffer[0] := newOffset];
        currentOffset := Signed(sectionSize);
      }
      r := Ok(starts);
    }

    method ReadGateSections(starts: map<nat, nat>, fieldSize: nat) returns (r: Result<(seq<Gate>, seq<Application>)>)
      requires InFile(starts, file)
      modifies this
      ensures r == ReadGates(file, starts, fieldSize)
    {
      hide Find, ParseGates, ParseApplications, InFile;
      var goBack :- StartSection(starts, 4);
      var gates :- ReadCustomGatesUsages(fieldSize);
      var size := EndSection(goBack);
      goBack :- StartSection(starts, 5);
      var applications :- ReadCustomGatesApplications();
      size := EndSection(goBack);
      r := Ok((gates, applications));
    }

    /** The header comes first, wherever it is in the file. */
    method ReadAllSections(starts: map<nat, nat>, customGates: bool) returns (r: Result<FileData>)
      requires InFile(starts, file)
      modifies this
      ensures r == ReadSections(file, starts, customGates)
    {
      hide Find, ParseHeader, ParseConstraints, ParseNumbers, ReadGates, InFile;
      var goBack :- StartSection(starts, 1);
      var headerData :- ReadHeader();
      var size := EndSection(goBack);
      var (fieldSize, header) := headerData;
      goBack :- StartSection(starts, 2);
      var constraints :- ReadConstraints(header.numberOfConstraints, fieldSize);
      size := EndSection(goBack);
      goBack :- StartSection(starts, 3);
      var signals :- ReadNumbers(header.totalWires, 8);
      size := EndSection(goBack);
      if !customGates {
        return Ok(FileData(fieldSize, header, constraints, signals, false, None, None));
      }
      var both :- ReadGateSections(starts, fieldSize);
      r := Ok(FileData(fieldSize, header, constraints, signals, true, Some(both.0), Some(both.1)));
    }
  }

  lemma FourParsed(input: seq<byte>)
    ensures ParseNumbers(input, 4, 4) ==
            match ParseNumber(input, 4)
            case Err(e) => Err(e)
            case Ok((a, i1)) =>
              match ParseNumber(i1, 4)
              case Err(e) => Err(e)
              case Ok((b, i2)) =>
                match ParseNumber(i2, 4)
                case Err(e) => Err(e)
                case Ok((c, i3)) =>
                  match ParseNumber(i3, 4)
                  case Err(e) => Err(e)
                  case Ok((d, rest)) => Ok(([] + [a] + [b] + [c] + [d], rest))
  {
    hide ParseNumber;
    assert ParseNumbers(input, 0, 4) == Ok(([], input));
    NumbersStep(input, 0, 4);
    NumbersStep(input, 1, 4);
    NumbersStep(input, 2, 4);
    NumbersStep(input, 3, 4);
  }

  lemma NumbersStep(input: seq<byte>, n: nat, width: nat)
    ensures ParseNumbers(input, n, width).Err? ==> ParseNumbers(input, n + 1, width) == ParseNumbers(input, n, width)
    ensures ParseNumbers(input, n, width).Ok? ==>
              var (ns, middle) := ParseNumbers(input, n, width).value;
              ParseNumbers(input, n + 1, width) ==
              match ParseNumber(middle, width)
              case Err(e) => Err(e)
              case Ok((x, rest)) => Ok((ns + [x], rest))
  {
    hide ParseNumber;
  }

  lemma NothingBefore(tail: Parse<seq<byte>>)
    ensures NameFrom([], tail) == tail
  {
    if tail.Ok? { assert [] + tail.value.0 == tail.value.0; }
  }

  lemma SectionHead(bytes: seq<byte>, position: nat)
    requires position <= |bytes|
    ensures var rest := bytes[position..];
            && (|rest| >= 4 ==> rest[..4][0] == bytes[position])
            && (|rest| >= 12 ==> rest[4..][..8] == bytes[position + 4..position + 12])
  {
  }

  lemma OneLetter(name: seq<byte>, b: byte, tail: seq<byte>, input: seq<byte>)
    requires input != [] && b == input[0] != 0 && tail == input[1..]
    ensures NameFrom(name, ParseName(input)) == NameFrom(name + [b], ParseName(tail))
  {
    match ParseName(tail)
    case Err(_) =>
    case Ok((rest, _)) => assert name + ([b] + rest) == name + [b] + rest;
  }

  /** Reading a file is parsing it. */
  method ReadR1cs(bytes: seq<byte>) returns (r: Result<FileData>)
    ensures r == ReadFile(bytes)
  {
    hide Scan, ReadSections, ReadPrelude, InFile;
    var reader := new R1csReader(bytes);
    var nSections :- reader.ReadInitialization();
    var starts :- reader.ScanSections(nSections);
    r := reader.ReadAllSections(starts, nSections == 5);
  }
}
