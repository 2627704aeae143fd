/** Whole R1CS files: the section scan and the round trip (read_r1cs, read_initialization and
    read_sections in constraint_writers/src/r1cs_reader.rs; the section order of
    constraint_list/src/r1cs_porting.rs). */
module R1csFile {
  import opened Field
  import opened Constraints
  import opened Bytes
  import opened R1csFormat

  const MAGIC: seq<byte> := [114, 49, 99, 115]
  const VERSION: seq<byte> := [1, 0, 0, 0]
  const SIGNED_LIMIT: nat := 0x8000_0000_0000_0000

  datatype FileData = FileData(fieldSize: nat, header: Header, constraints: seq<Constraint>, signals: seq<nat>,
                               customGates: bool,
                               gates: Option<seq<Gate>>, applications: Option<seq<Application>>)

  // ---- Sections

  datatype Section = Section(kind: byte, body: seq<byte>)

  function TypeBytes(kind: byte): seq<byte> {
    [kind, 0, 0, 0]
  }

  function SectionBytes(s: Section): seq<byte> {
    TypeBytes(s.kind) + Encode(|s.body|, 8) + s.body
  }

  function SectionsBytes(sections: seq<Section>): seq<byte> {
    if sections == [] then [] else SectionBytes(sections[0]) + SectionsBytes(sections[1..])
  }

  function Prelude(count: byte): seq<byte> {
    MAGIC + VERSION + [count, 0, 0, 0]
  }

  function FileBytes(count: byte, sections: seq<Section>): seq<byte> {
    Prelude(count) + SectionsBytes(sections)
  }

  /** Seeking takes a signed 64-bit distance: a size from half the range up moves backwards. */
  function Signed(size: nat): int {
    if size < SIGNED_LIMIT then size else size - 2 * SIGNED_LIMIT
  }

  /** Where the sections start, following their sizes; a repeated type keeps the last. */
  function Scan(bytes: seq<byte>, position: int, left: nat, count: nat, starts: map<nat, nat>): Result<map<nat, nat>>
    decreases left
  {
    if left == 0 then Ok(starts)
    else if position < 0 then Err(InvalidSeek)
    else if |bytes| < position + 12 then Err(UnexpectedEnd)
    else
      var kind, size := bytes[position], FromBytes(bytes[position + 4..position + 12]);
      if 1 <= kind <= count then Scan(bytes, position + 12 + Signed(size), left - 1, count, starts[kind := position])
        else Err(InvalidSectionType)
  }

  ghost predicate SectionFits(s: Section, count: nat) {
    1 <= s.kind <= count && |s.body| < SIGNED_LIMIT
  }

  lemma LimitFits()
    ensures Power(8) == 2 * SIGNED_LIMIT
  {
    assert Power(1) == 256 && Power(2) == 256 * 256 && Power(3) == 256 * 256 * 256;
    assert Power(4) == 0x1_0000_0000 && Power(5) == 256 * Power(4);
    assert Power(6) == 256 * Power(5) && Power(7) == 256 * Power(6);
  }

  ghost function StartsOf(sections: seq<Section>, position: nat, starts: map<nat, nat>): map<nat, nat> {
    if sections == [] then starts
    else StartsOf(sections[1..], position + 12 + |sections[0].body|, starts[sections[0].kind := position])
  }

  lemma SectionParts(s: Section)
    requires |s.body| < SIGNED_LIMIT
    ensures |SectionBytes(s)| == 12 + |s.body| && SectionBytes(s)[..4] == TypeBytes(s.kind)
    ensures FromBytes(SectionBytes(s)[4..12]) == |s.body| && SectionBytes(s)[12..] == s.body
  {
    LimitFits();
    EncodeFits(|s.body|, 8);
    assert SectionBytes(s)[4..12] == Encode(|s.body|, 8);
  }

  /** The scan finds every section of a well-formed file, in whatever order they come. */
  lemma {:induction false} ScanFinds(bytes: seq<byte>, before: seq<byte>, sections: seq<Section>, count: nat,
                                     starts: map<nat, nat>)
    requires bytes == before + SectionsBytes(sections) && forall i :: 0 <= i < |sections| ==>
             SectionFits(sections[i], count)
    ensures Scan(bytes, |before|, |sections|, count, starts) == Ok(StartsOf(sections, |before|, starts))
    decreases |sections|
  {
    hide Scan, SectionBytes, SectionsBytes, Encode;
    if sections == [] {
      ScanDone(bytes, |before|, count, starts);
    } else {
      var s := sections[0];
      var first, rest := SectionBytes(s), SectionsBytes(sections[1..]);
      SectionParts(s);
      SectionsFirst(sections);
      Assoc(before, first, rest);
      ScanStep(bytes, before, s, rest, |sections|, count, starts);
      ScanFinds(bytes, before + first, sections[1..], count, starts[s.kind := |before|]);
    }
  }

  lemma SectionsFirst(sections: seq<Section>)
    requires sections != []
    ensures SectionsBytes(sections) == SectionBytes(sections[0]) + SectionsBytes(sections[1..])
  {
    hide SectionBytes;
  }

  lemma ScanDone(bytes: seq<byte>, position: int, count: nat, starts: map<nat, nat>)
    ensures Scan(bytes, position, 0, count, starts) == Ok(starts)
  {
  }

  lemma ScanStep(bytes: seq<byte>, before: seq<byte>, s: Section, rest: seq<byte>, left: nat, count: nat,
                 starts: map<nat, nat>)
    requires bytes == before + SectionBytes(s) + rest && SectionFits(s, count) && left > 0
    ensures Scan(bytes, |before|, left, count, starts) ==
            Scan(bytes, |before + SectionBytes(s)|, left - 1, count, starts[s.kind := |before|])
  {
    hide SectionBytes, Encode;
    SectionParts(s);
    HeadOfSection(bytes, before, SectionBytes(s), rest);
  }

  lemma HeadOfSection(bytes: seq<byte>, before: seq<byte>, first: seq<byte>, rest: seq<byte>)
    requires bytes == before + first + rest && |first| >= 12
    ensures |bytes| >= |before| + 12 && bytes[|before|] == first[..4][0] &&
            bytes[|before| + 4..|before| + 12] == first[4..12]
  {
  }

  ghost predicate DistinctKinds(sections: seq<Section>) {
    forall i, j :: 0 <= i < j < |sections| ==> sections[i].kind != sections[j].kind
  }

  lemma {:induction false} StartsOther(sections: seq<Section>, position: nat, starts: map<nat, nat>, kind: nat)
    requires forall i :: 0 <= i < |sections| ==> sections[i].kind != kind
    ensures kind in StartsOf(sections, position, starts) <==> kind in starts
    ensures kind in starts ==> StartsOf(sections, position, starts)[kind] == starts[kind]
    decreases |sections|
  {
    if sections != [] { StartsOther(sections[1..], position + 12 + |sections[0].body|,
      starts[sections[0].kind := position], kind); }
  }

  /** The bytes found at a section's start are the section. */
  lemma {:induction false} SectionAt(bytes: seq<byte>, before: seq<byte>, sections: seq<Section>, j: nat,
                                     starts: map<nat, nat>) returns (tail: seq<byte>)
    requires bytes == before + SectionsBytes(sections) && DistinctKinds(sections) && j < |sections|
    requires forall i :: 0 <= i < |sections| ==> |sections[i].body| < SIGNED_LIMIT
    ensures var found := StartsOf(sections, |before|, starts);
            sections[j].kind in found && found[sections[j].kind] <= |bytes| &&
              bytes[found[sections[j].kind]..] == SectionBytes(sections[j]) + tail
    decreases |sections|
  {
    var s := sections[0];
    var first, rest := SectionBytes(s), SectionsBytes(sections[1..]);
    SectionParts(s);
    assert bytes == before + first + rest;
    if j == 0 {
      StartsOther(sections[1..], |before| + 12 + |s.body|, starts[s.kind := |before|], s.kind);
      tail := rest;
      DropFront(before, first, rest);
    } else {
      hide SectionBytes, SectionsBytes;
      tail := SectionAt(bytes, before + first, sections[1..], j - 1, starts[s.kind := |before|]);
    }
  }

  lemma DropFront(before: seq<byte>, first: seq<byte>, rest: seq<byte>)
    ensures (before + first + rest)[|before|..] == first + rest
  {
  }

  // ---- Reading a file

  /** Check the type of a section and step over its size. */
  function OpenSection(input: seq<byte>, kind: byte): Result<seq<byte>> {
    match Take(input, 4)
    case Err(e) => Err(e)
    case Ok((bytes, rest)) =>
      if bytes != TypeBytes(kind) then Err(InvalidSectionHeader)
      else Ok(if |rest| < 8 then [] else rest[8..])
  }

  function Find(bytes: seq<byte>, starts: map<nat, nat>, kind: byte): Result<seq<byte>> {
    if kind !in starts then Err(SectionNotPresent)
    else if starts[kind] > |bytes| then Err(UnexpectedEnd)
    else OpenSection(bytes[starts[kind]..], kind)
  }

  function ReadPrelude(bytes: seq<byte>): Result<nat> {
    if |bytes| < 4 then Err(UnexpectedEnd)
    else if bytes[..4] != MAGIC then Err(InvalidMagicNumber)
    else if |bytes| < 8 then Err(UnexpectedEnd)
    else if bytes[4..8] != VERSION then Err(InvalidVersion)
    else if |bytes| < 12 then Err(UnexpectedEnd)
    else Ok(bytes[8])
  }

  function ReadGates(bytes: seq<byte>, starts: map<nat, nat>, fieldSize: nat): Result<(seq<Gate>, seq<Application>)> {
    match Find(bytes, starts, 4)
    case Err(e) => Err(e)
    case Ok(used) =>
      match ParseGates(used, fieldSize)
      case Err(e) => Err(e)
      case Ok((gates, _)) =>
        match Find(bytes, starts, 5)
        case Err(e) => Err(e)
        case Ok(applied) =>
          match ParseApplications(applied)
          case Err(e) => Err(e)
          case Ok((applications, _)) => Ok((gates, applications))
  }

  /** Header first, whatever its place: it gives the field size and the counts. */
  function ReadSections(bytes: seq<byte>, starts: map<nat, nat>, customGates: bool): Result<FileData> {
    match Find(bytes, starts, 1)
    case Err(e) => Err(e)
    case Ok(headerInput) =>
      match ParseHeader(headerInput)
      case Err(e) => Err(e)
      case Ok(((fieldSize, header), _)) =>
        match Find(bytes, starts, 2)
        case Err(e) => Err(e)
        case Ok(constraintInput) =>
          match ParseConstraints(constraintInput, header.numberOfConstraints, fieldSize)
          case Err(e) => Err(e)
          case Ok((constraints, _)) =>
            match Find(bytes, starts, 3)
            case Err(e) => Err(e)
            case Ok(signalInput) =>
              match ParseNumbers(signalInput, header.totalWires, 8)
              case Err(e) => Err(e)
              case Ok((signals, _)) =>
                if !customGates then Ok(FileData(fieldSize, header, constraints, signals, false, None, None)) else
                  match ReadGates(bytes, starts, fieldSize)
                  case Err(e) => Err(e)
                  case Ok((gates, applications)) => Ok(FileData(fieldSize, header, constraints, signals, true,
                    Some(gates), Some(applications)))
  }

  function ReadFile(bytes: seq<byte>): Result<FileData> {
    match ReadPrelude(bytes)
    case Err(e) => Err(e)
    case Ok(count) =>
      match Scan(bytes, 12, count, count, map[])
      case Err(e) => Err(e)
      case Ok(starts) => ReadSections(bytes, starts, count == 5)
  }

  // ---- The round trip

  /** The sections in the order the circuit's exporter writes them. */
  function Sections(data: FileData, constraintBytes: seq<byte>): seq<Section>
    requires data.customGates ==> data.gates.Some? && data.applications.Some?
  {
    [Section(2, constraintBytes), Section(1, HeaderBytes(data.header, data.fieldSize)),
      Section(3, NumbersBytes(data.signals, 8))]
    + if data.customGates then [Section(4, GatesBytes(data.gates.value, data.fieldSize)),
      Section(5, ApplicationsBytes(data.applications.value))] else []
  }

  function Count(data: FileData): byte {
    if data.customGates then 5 else 3
  }

  /** The file holds the data: one layout for each order of the signals in each combination. */
  ghost predicate Written(bytes: seq<byte>, data: FileData) {
    && (data.customGates <==> data.gates.Some?) && (data.customGates <==> data.applications.Some?)
    && exists cb :: WrittenWith(bytes, data, cb)
  }

  ghost predicate WrittenWith(bytes: seq<byte>, data: FileData, cb: seq<byte>)
    requires data.customGates ==> data.gates.Some? && data.applications.Some?
  {
    AllConstraintBytes(cb, data.constraints, data.fieldSize) && bytes == FileBytes(Count(data), Sections(data, cb)) &&
      |bytes| < SIGNED_LIMIT
  }

  /** Every number fits its width and the header's counts are right. */
  ghost predicate DataFits(data: FileData) {
    HeaderFits(data.header, data.fieldSize) && BodyFits(data)
  }

  ghost predicate BodyFits(data: FileData) {
    && data.header.numberOfConstraints == |data.constraints| && data.header.totalWires == |data.signals|
    && (forall i :: 0 <= i < |data.constraints| ==> ConstraintFits(data.constraints[i], data.fieldSize))
    && NumbersFit(data.signals, 8)
    && (data.gates.Some? ==> |data.gates.value| < Power(4) && forall i :: 0 <= i < |data.gates.value| ==>
      GateFits(data.gates.value[i], data.fieldSize))
    && (data.applications.Some? ==>
      |data.applications.value| < Power(4) && forall i :: 0 <= i < |data.applications.value| ==>
        ApplicationFits(data.applications.value[i]))
  }

  lemma {:induction false} BodySmaller(sections: seq<Section>, i: nat)
    requires i < |sections|
    ensures |sections[i].body| <= |SectionsBytes(sections)|
  {
    if i > 0 { BodySmaller(sections[1..], i - 1); }
  }

  lemma FindSection(bytes: seq<byte>, count: byte, sections: seq<Section>, j: nat) returns (tail: seq<byte>)
    requires bytes == FileBytes(count, sections) && |bytes| < SIGNED_LIMIT && DistinctKinds(sections) && j < |sections|
    ensures Find(bytes, StartsOf(sections, 12, map[]), sections[j].kind) == Ok(sections[j].body + tail)
  {
    hide SectionBytes, SectionsBytes, OpenSection, StartsOf;
    forall i | 0 <= i < |sections|
      ensures |sections[i].body| < SIGNED_LIMIT
    {
      BodySmaller(sections, i);
    }
    tail := SectionAt(bytes, Prelude(count), sections, j, map[]);
    SectionParts(sections[j]);
    OpenWritten(sections[j], tail);
  }

  lemma OpenWritten(s: Section, tail: seq<byte>)
    requires |s.body| < SIGNED_LIMIT
    ensures OpenSection(SectionBytes(s) + tail, s.kind) == Ok(s.body + tail)
  {
    hide SectionBytes;
    SectionParts(s);
    var input, all := SectionBytes(s) + tail, SectionBytes(s);
    assert input[..4] == all[..4];
    assert input[4..][8..] == all[12..] + tail;
  }

  lemma PreludeRead(count: byte, rest: seq<byte>)
    ensures ReadPrelude(Prelude(count) + rest) == Ok(count) && |Prelude(count)| == 12
  {
    var bytes := Prelude(count) + rest;
    assert bytes[..4] == MAGIC && bytes[4..8] == VERSION;
  }

  /** Reading back what was written gives the data, for every order the writer may choose. */
  lemma RoundTrip(bytes: seq<byte>, data: FileData)
    requires Written(bytes, data) && DataFits(data)
    ensures ReadFile(bytes) == Ok(data)
  {
    hide ReadSections, Scan, StartsOf, SectionsBytes, Sections, DataFits, ReadPrelude, Prelude, DistinctKinds,
         AllConstraintBytes;
    var cb :| WrittenWith(bytes, data, cb);
    var sections, count := Sections(data, cb), Count(data);
    KindsOfSections(data, cb);
    var starts := StartsOf(sections, 12, map[]);
    PreludeRead(count, SectionsBytes(sections));
    forall i | 0 <= i < |sections|
      ensures SectionFits(sections[i], count)
    {
      BodySmaller(sections, i);
    }
    ScanFinds(bytes, Prelude(count), sections, count, map[]);
    SectionsRead(bytes, data, cb);
  }

  lemma KindsOfSections(data: FileData, cb: seq<byte>)
    requires data.customGates ==> data.gates.Some? && data.applications.Some?
    ensures DistinctKinds(Sections(data, cb)) && |Sections(data, cb)| == Count(data)
    ensures forall i :: 0 <= i < |Sections(data, cb)| ==> 1 <= Sections(data, cb)[i].kind <= Count(data)
  {
    hide HeaderBytes, NumbersBytes, GatesBytes, ApplicationsBytes;
  }

  lemma SectionsRead(bytes: seq<byte>, data: FileData, cb: seq<byte>)
    requires (data.customGates <==> data.gates.Some?) && (data.customGates <==> data.applications.Some?)
    requires WrittenWith(bytes, data, cb) && DataFits(data)
    ensures ReadSections(bytes, StartsOf(Sections(data, cb), 12, map[]), data.customGates) == Ok(data)
  {
    hide Find, StartsOf, FileBytes, HeaderBytes, NumbersBytes, GatesBytes, ApplicationsBytes, ParseHeader,
         ParseConstraints, ParseNumbers, ConstraintFits, GateFits, ApplicationFits, Power, ReadGates;
    var sections := Sections(data, cb);
    KindsOfSections(data, cb);
    var headerTail := FindSection(bytes, Count(data), sections, 1);
    var constraintTail := FindSection(bytes, Count(data), sections, 0);
    var signalTail := FindSection(bytes, Count(data), sections, 2);
    HeaderBack(data.header, data.fieldSize, headerTail);
    ConstraintsBack(cb, data.constraints, data.fieldSize, constraintTail);
    NumbersBack(data.signals, 8, signalTail);
    if data.customGates { GatesRead(bytes, data, cb); }
  }

  lemma GatesRead(bytes: seq<byte>, data: FileData, cb: seq<byte>)
    requires data.customGates && data.gates.Some? && data.applications.Some? && WrittenWith(bytes, data, cb) &&
             DataFits(data)
    ensures ReadGates(bytes, StartsOf(Sections(data, cb), 12, map[]), data.fieldSize) ==
            Ok((data.gates.value, data.applications.value))
  {
    hide Find, StartsOf, FileBytes, HeaderBytes, NumbersBytes, GatesBytes, ApplicationsBytes, ParseGates,
         ParseApplications, GateFits, ApplicationFits, Power;
    var sections := Sections(data, cb);
    KindsOfSections(data, cb);
    var usedTail := FindSection(bytes, Count(data), sections, 3);
    var appliedTail := FindSection(bytes, Count(data), sections, 4);
    GatesBack(data.gates.value, data.fieldSize, usedTail);
    ApplicationsBack(data.applications.value, appliedTail);
  }

  // ---- Its length

  /** The sections one after the other are the file. */
  lemma FileOf(data: FileData, cb: seq<byte>)
    requires data.customGates ==> data.gates.Some? && data.applications.Some?
    ensures var file := Prelude(Count(data)) + SectionBytes(Section(2, cb)) +
            SectionBytes(Section(1, HeaderBytes(data.header, data.fieldSize)))
                        + SectionBytes(Section(3, NumbersBytes(data.signals, 8)));
            FileBytes(Count(data), Sections(data, cb)) ==
            if !data.customGates then file
            else file + SectionBytes(Section(4, GatesBytes(data.gates.value, data.fieldSize)))
                 + SectionBytes(Section(5, ApplicationsBytes(data.applications.value)))
  {
    hide SectionBytes, HeaderBytes, NumbersBytes, GatesBytes, ApplicationsBytes, Prelude;
    var sections := Sections(data, cb);
    assert sections[1..][1..] == sections[2..] && sections[2..][1..] == sections[3..];
    if data.customGates {
      assert sections[3..][1..] == sections[4..] && sections[4..][1..] == [];
      assert SectionsBytes(sections[4..]) == SectionBytes(sections[4]) + [];
      assert SectionsBytes(sections[3..]) == SectionBytes(sections[3]) + SectionsBytes(sections[4..]);
    } else {
      assert sections[3..] == [];
    }
    assert SectionsBytes(sections[2..]) == SectionBytes(sections[2]) + SectionsBytes(sections[3..]);
    assert SectionsBytes(sections[1..]) == SectionBytes(sections[1]) + SectionsBytes(sections[2..]);
  }

  /** The length of the file, the same for every layout of the data. */
  ghost function FileLength(data: FileData): nat
    requires data.customGates ==> data.gates.Some? && data.applications.Some?
  {
    12 + 12 + ConstraintsLength(data.constraints, data.fieldSize)
    + 12 + |HeaderBytes(data.header, data.fieldSize)| + 12 + |NumbersBytes(data.signals, 8)| + GateSectionsLength(data)
  }

  ghost function GateSectionsLength(data: FileData): nat
    requires data.customGates ==> data.gates.Some? && data.applications.Some?
  {
    if !data.customGates then 0
    else 12 + |GatesBytes(data.gates.value, data.fieldSize)| + 12 + |ApplicationsBytes(data.applications.value)|
  }

  lemma WrittenLength(bytes: seq<byte>, data: FileData)
    requires Written(bytes, data)
    ensures |bytes| == FileLength(data)
  {
    hide HeaderBytes, NumbersBytes, GatesBytes, ApplicationsBytes, ConstraintsLength, AllConstraintBytes, Sections,
         FileBytes, SectionBytes;
    var cb :| WrittenWith(bytes, data, cb);
    FileOf(data, cb);
    AllConstraintsLength(data.constraints, cb, data.fieldSize);
    SectionLength(Section(2, cb), |bytes|);
    SectionLength(Section(1, HeaderBytes(data.header, data.fieldSize)), |bytes|);
    SectionLength(Section(3, NumbersBytes(data.signals, 8)), |bytes|);
    if data.customGates {
      SectionLength(Section(4, GatesBytes(data.gates.value, data.fieldSize)), |bytes|);
      SectionLength(Section(5, ApplicationsBytes(data.applications.value)), |bytes|);
    }
  }

  lemma SectionLength(s: Section, limit: nat)
    requires |SectionBytes(s)| <= limit < SIGNED_LIMIT
    ensures |SectionBytes(s)| == 12 + |s.body|
  {
    hide Encode;
    assert |s.body| <= |SectionBytes(s)|;
    SectionParts(s);
  }
}
