/** Inspection of a RISC-V ELF executable in loader/elf_loader.c: what it accepts and what it reports. */
module ElfSpec {
  type Byte = b: int | 0 <= b < 256

  datatype Error =
    | Truncated | UnsupportedFormat | UnsupportedRelocation | InvalidSegment | InvalidEntry | ImageTooLarge
    | NoExecutableMemory | PrepareFailed

  datatype Result<T> = Ok(value: T) | Failed(error: Error)

  const HEADER_SIZE: nat := 52
  const PROGRAM_SIZE: nat := 32
  const SECTION_SIZE: nat := 40
  const TYPE_EXECUTABLE: nat := 2
  const MACHINE_RISCV: nat := 243
  const PROGRAM_LOAD: nat := 1
  const PROGRAM_DYNAMIC: nat := 2
  const SECTION_NOTE: nat := 7
  const SECTION_RELA: nat := 4
  const SECTION_REL: nat := 9
  const RELA_SIZE: nat := 12
  const NOTE_HEADER: nat := 12
  const NOTE_TYPE: nat := 1
  const NOTE_DESCRIPTOR: nat := 32
  const MAX_IMAGE: nat := 0x10_0000
  const UINT32_MAX: nat := 0xFFFF_FFFF
  const ABI_VERSION: nat := 3
  const METADATA_VERSION: nat := 1
  const MIN_HEAP: nat := 0x4_0000
  const MAX_HEAP: nat := 0x100_0000
  const MIN_STACK: nat := 0x4000
  const MAX_STACK: nat := 0x4_0000
  const DEFAULT_HEAP: nat := 0x4_0000
  const DEFAULT_STACK: nat := 0x4000
  const CAPABILITY_CONSOLE: nat := 1

  function U16(data: seq<Byte>, at: nat): (r: nat)
    requires at + 2 <= |data|
    ensures r <= 0xFFFF
  {
    (data[at] as int) + (data[at + 1] as int) * 0x100
  }

  function U32(data: seq<Byte>, at: nat): (r: nat)
    requires at + 4 <= |data|
    ensures r <= UINT32_MAX
  {
    (data[at] as int) + (data[at + 1] as int) * 0x100 + (data[at + 2] as int) * 0x1_0000
    + (data[at + 3] as int) * 0x100_0000
  }

  /** range_valid, written as the source does without a sum that could overflow. */
  predicate RangeValid(offset: nat, length: nat, total: nat) {
    offset <= total && length <= total - offset
  }

  /** table_valid; a table of 16-bit counts never overflows a size. */
  predicate TableValid(offset: nat, count: nat, entrySize: nat, total: nat) {
    count == 0 || (entrySize != 0 && RangeValid(offset, count * entrySize, total))
  }

  // ----- Sections -----

  datatype Section = Section(kind: nat, offset: nat, size: nat, entrySize: nat)

  predicate HasHeader(data: seq<Byte>) {
    |data| >= HEADER_SIZE
  }

  function SectionCount(data: seq<Byte>): nat
    requires HasHeader(data)
  {
    U16(data, 48)
  }

  /** Every section header lies in the file. */
  predicate SectionsFit(data: seq<Byte>)
    requires HasHeader(data)
  {
    SectionCount(data) > 0 ==> U32(data, 32) + SectionCount(data) * SECTION_SIZE <= |data|
  }

  function SectionAt(data: seq<Byte>, i: nat): Section
    requires HasHeader(data) && SectionsFit(data) && i < SectionCount(data)
  {
    var at := U32(data, 32) + i * SECTION_SIZE;
    Section(U32(data, at + 4), U32(data, at + 16), U32(data, at + 20), U32(data, at + 36))
  }

  function CheckSection(s: Section, size: nat): Result<()> {
    if s.kind == SECTION_REL && s.size > 0 then Failed(UnsupportedRelocation)
    else if s.kind == SECTION_RELA
         && (s.entrySize != RELA_SIZE || s.size % RELA_SIZE != 0 || !RangeValid(s.offset, s.size, size))
    then Failed(Truncated)
    else Ok(())
  }

  function CheckSections(data: seq<Byte>, n: nat): Result<()>
    requires HasHeader(data) && SectionsFit(data) && n <= SectionCount(data)
  {
    if n == 0 then Ok(())
    else
      var before := CheckSections(data, n - 1);
      if before.Failed? then before else CheckSection(SectionAt(data, n - 1), |data|)
  }

  function InspectSections(data: seq<Byte>): Result<()>
    requires HasHeader(data)
  {
    if !TableValid(U32(data, 32), SectionCount(data), U16(data, 46), |data|)
       || (SectionCount(data) > 0 && U16(data, 46) != SECTION_SIZE)
    then Failed(Truncated)
    else CheckSections(data, SectionCount(data))
  }

  // ----- Notes -----

  datatype Metadata = Metadata(abi: nat, heap: nat, stack: nat, capabilities: nat, present: bool)

  const DEFAULTS := Metadata(ABI_VERSION, DEFAULT_HEAP, DEFAULT_STACK, CAPABILITY_CONSOLE, false)

  function AlignFour(n: nat): (r: nat)
    ensures n <= r < n + 4 && r % 4 == 0
  {
    (n + 3) / 4 * 4
  }

  /** "TABOS" and its terminator. */
  predicate IsTabOs(data: seq<Byte>, at: nat, size: nat)
    requires size == 6 ==> at + 6 <= |data|
  {
    size == 6 && data[at..at + 6] == [84, 65, 66, 79, 83, 0]
  }

  function ReadDescriptor(data: seq<Byte>, at: nat): Result<Metadata>
    requires at + NOTE_DESCRIPTOR <= |data|
  {
    var heap, stack, capabilities := U32(data, at + 12), U32(data, at + 16), U32(data, at + 20);
    if U32(data, at) != METADATA_VERSION || U32(data, at + 4) != NOTE_DESCRIPTOR || U32(data, at + 8) != ABI_VERSION
       || U32(data, at + 24) != 0 || U32(data, at + 28) != 0
       || heap < MIN_HEAP || heap > MAX_HEAP || heap % 4096 != 0
       || stack < MIN_STACK || stack > MAX_STACK || stack % 16 != 0 || capabilities > CAPABILITY_CONSOLE
    then Failed(UnsupportedFormat)
    else Ok(Metadata(U32(data, at + 8), heap, stack, capabilities, true))
  }

  /** The payload of a note, or None when it does not fit what is left of its section.  `sizes` is the number
      of values of the machine's size type: a note that overflows it does not fit either. */
  function Payload(nameSize: nat, descSize: nat, left: int, sizes: nat): (r: int)
    requires sizes > UINT32_MAX && nameSize <= UINT32_MAX && descSize <= UINT32_MAX && left <= UINT32_MAX - NOTE_HEADER
    ensures -1 <= r
    ensures var both := AlignFour(nameSize) + AlignFour(descSize); r == if both <= left then both else -1
  {
    if nameSize > sizes - 1 - 3 || descSize > sizes - 1 - 3 then -1
    else
      var name := AlignFour(nameSize);
      var sum := name + AlignFour(descSize);
      var payload := if sum >= sizes then sum - sizes else sum;
      if payload < name || payload > left then -1 else payload
  }

  /** The notes of a section from `cursor` on. */
  function WalkNotes(data: seq<Byte>, start: nat, size: nat, cursor: nat, so: Metadata, sizes: nat): Result<Metadata>
    requires start + size <= |data| && size <= UINT32_MAX < sizes
    decreases size - cursor
  {
    if cursor >= size then Ok(so)
    else if size - cursor < NOTE_HEADER then Failed(Truncated)
    else
      var note := start + cursor;
      var nameSize, descSize := U32(data, note), U32(data, note + 4);
      var payload := Payload(nameSize, descSize, size - cursor - NOTE_HEADER, sizes);
      if payload == -1 then Failed(Truncated)
      else
        var next := ReadNote(data, note, so, nameSize, descSize);
        if next.Failed? then next
        else WalkNotes(data, start, size, cursor + NOTE_HEADER + payload, next.value, sizes)
  }

  function ReadNote(data: seq<Byte>, note: nat, so: Metadata, nameSize: nat, descSize: nat): Result<Metadata>
    requires note + NOTE_HEADER + AlignFour(nameSize) + AlignFour(descSize) <= |data|
  {
    if !IsTabOs(data, note + NOTE_HEADER, nameSize) then Ok(so)
    else if so.present || U32(data, note + 8) != NOTE_TYPE || descSize != NOTE_DESCRIPTOR then Failed(UnsupportedFormat)
    else ReadDescriptor(data, note + NOTE_HEADER + AlignFour(nameSize))
  }

  function WalkSection(data: seq<Byte>, s: Section, so: Metadata, sizes: nat): Result<Metadata>
    requires UINT32_MAX < sizes && s.size <= UINT32_MAX
  {
    if s.kind != SECTION_NOTE then Ok(so)
    else if !RangeValid(s.offset, s.size, |data|) then Failed(Truncated)
    else WalkNotes(data, s.offset, s.size, 0, so, sizes)
  }

  function InspectMetadata(data: seq<Byte>, n: nat, sizes: nat): Result<Metadata>
    requires HasHeader(data) && SectionsFit(data) && n <= SectionCount(data) && UINT32_MAX < sizes
  {
    if n == 0 then Ok(DEFAULTS)
    else
      var before := InspectMetadata(data, n - 1, sizes);
      if before.Failed? then before else WalkSection(data, SectionAt(data, n - 1), before.value, sizes)
  }

  // ----- Segments -----

  datatype Segment = Segment(
    kind: nat, offset: nat, address: nat, fileSize: nat, memorySize: nat, flags: nat, alignment: nat)

  function ProgramCount(data: seq<Byte>): nat
    requires HasHeader(data)
  {
    U16(data, 44)
  }

  predicate ProgramsFit(data: seq<Byte>)
    requires HasHeader(data)
  {
    U32(data, 28) + ProgramCount(data) * PROGRAM_SIZE <= |data|
  }

  function SegmentAt(data: seq<Byte>, i: nat): (s: Segment)
    requires HasHeader(data) && ProgramsFit(data) && i < ProgramCount(data)
    ensures s.address <= UINT32_MAX && s.memorySize <= UINT32_MAX
  {
    var at := U32(data, 28) + i * PROGRAM_SIZE;
    Segment(U32(data, at), U32(data, at + 4), U32(data, at + 8), U32(data, at + 16), U32(data, at + 20),
            U32(data, at + 24), U32(data, at + 28))
  }

  /** What clearing the lowest set bit tests. */
  predicate PowerOfTwo(n: nat) {
    if n <= 1 then n == 1 else n % 2 == 0 && PowerOfTwo(n / 2)
  }

  /** A loadable segment the source takes. */
  predicate ValidSegment(s: Segment, size: nat) {
    && s.fileSize <= s.memorySize && RangeValid(s.offset, s.fileSize, size) && s.memorySize > 0
    && s.address + s.memorySize <= UINT32_MAX
    && (s.alignment > 1 ==> PowerOfTwo(s.alignment) && s.offset % s.alignment == s.address % s.alignment)
  }

  predicate Executable(s: Segment) {
    s.flags % 2 == 1
  }

  /** Addresses a segment takes up. */
  predicate Within(s: Segment, address: int) {
    s.address <= address < s.address + s.memorySize
  }

  datatype Bounds = Bounds(minimum: nat, maximum: nat, entered: bool, count: nat)

  function Widen(b: Bounds, s: Segment, entry: nat): Bounds {
    Bounds(if s.address < b.minimum then s.address else b.minimum,
           if s.address + s.memorySize > b.maximum then s.address + s.memorySize else b.maximum,
           b.entered || (Executable(s) && Within(s, entry)), b.count + 1)
  }

  function WalkSegments(data: seq<Byte>, n: nat): Result<Bounds>
    requires HasHeader(data) && ProgramsFit(data) && n <= ProgramCount(data)
  {
    if n == 0 then Ok(Bounds(UINT32_MAX, 0, false, 0))
    else
      var before := WalkSegments(data, n - 1);
      var s := SegmentAt(data, n - 1);
      if before.Failed? then before
      else if s.kind == PROGRAM_DYNAMIC then Failed(UnsupportedRelocation)
      else if s.kind != PROGRAM_LOAD then before
      else if !ValidSegment(s, |data|) then Failed(InvalidSegment)
      else Ok(Widen(before.value, s, U32(data, 24)))
  }

  // ----- The whole inspection -----

  datatype Info = Info(entry: nat, minimum: nat, maximum: nat, imageSize: nat, segments: nat, metadata: Metadata)

  predicate Identified(data: seq<Byte>)
    requires HasHeader(data)
  {
    && data[..7] == [0x7F, 69, 76, 70, 1, 1, 1]
    && U16(data, 16) == TYPE_EXECUTABLE && U16(data, 18) == MACHINE_RISCV && U32(data, 20) == 1
    && U16(data, 40) == HEADER_SIZE
  }

  predicate ProgramsOk(data: seq<Byte>)
    requires HasHeader(data)
  {
    ProgramCount(data) != 0 && U16(data, 42) == PROGRAM_SIZE
    && TableValid(U32(data, 28), ProgramCount(data), U16(data, 42), |data|)
  }

  function Conclude(data: seq<Byte>, b: Bounds, m: Metadata): Result<Info>
    requires HasHeader(data)
  {
    if b.count == 0 || b.minimum == UINT32_MAX || b.maximum <= b.minimum then Failed(InvalidSegment)
    else if !b.entered then Failed(InvalidEntry)
    else if b.maximum - b.minimum > MAX_IMAGE then Failed(ImageTooLarge)
    else Ok(Info(U32(data, 24), b.minimum, b.maximum, b.maximum - b.minimum, b.count, m))
  }

  function Inspect(data: seq<Byte>, sizes: nat): Result<Info>
    requires UINT32_MAX < sizes
  {
    if !HasHeader(data) then Failed(Truncated)
    else if !Identified(data) then Failed(UnsupportedFormat)
    else if !ProgramsOk(data) then Failed(Truncated)
    else
      var sections := InspectSections(data);
      if sections.Failed? then Failed(sections.error)
      else
        var metadata := InspectMetadata(data, SectionCount(data), sizes);
        if metadata.Failed? then Failed(metadata.error)
        else
          var bounds := WalkSegments(data, ProgramCount(data));
          if bounds.Failed? then Failed(bounds.error) else Conclude(data, bounds.value, metadata.value)
  }

  // ----- The image -----

  /** The byte of the image at an address: that of the last of the first `n` segments whose file part covers
      it, or zero. */
  function ImageByte(data: seq<Byte>, n: nat, address: nat): Byte
    requires HasHeader(data) && ProgramsFit(data) && n <= ProgramCount(data)
    requires WalkSegments(data, n).Ok?
  {
    if n == 0 then 0
    else
      var s := SegmentAt(data, n - 1);
      if s.kind == PROGRAM_LOAD && s.address <= address < s.address + s.fileSize
      then data[s.offset + (address - s.address)]
      else ImageByte(data, n - 1, address)
  }

  // ----- What a successful inspection promises -----

  lemma {:induction false} SegmentsWithin(data: seq<Byte>, n: nat, i: nat)
    requires HasHeader(data) && ProgramsFit(data) && i < n <= ProgramCount(data) && WalkSegments(data, n).Ok?
    requires SegmentAt(data, i).kind == PROGRAM_LOAD
    ensures var s := SegmentAt(data, i);
            var b := WalkSegments(data, n).value;
            && ValidSegment(s, |data|) && b.minimum <= s.address && s.address + s.memorySize <= b.maximum
            && (Executable(s) && Within(s, U32(data, 24)) ==> b.entered)
  {
    if i < n - 1 {
      SegmentsWithin(data, n - 1, i);
    }
  }

  lemma {:induction false} BoundsReached(data: seq<Byte>, n: nat) returns (low: nat, high: nat)
    requires HasHeader(data) && ProgramsFit(data) && n <= ProgramCount(data) && WalkSegments(data, n).Ok?
    requires WalkSegments(data, n).value.count > 0
    ensures low < n && high < n
    ensures SegmentAt(data, low).kind == PROGRAM_LOAD
         && SegmentAt(data, low).address == WalkSegments(data, n).value.minimum
    ensures SegmentAt(data, high).kind == PROGRAM_LOAD
         && SegmentAt(data, high).address + SegmentAt(data, high).memorySize == WalkSegments(data, n).value.maximum
  {
    var s := SegmentAt(data, n - 1);
    var before := WalkSegments(data, n - 1).value;
    if before.count > 0 {
      low, high := BoundsReached(data, n - 1);
    } else {
      NothingYet(data, n - 1);
    }
    if s.kind == PROGRAM_LOAD {
      if before.count == 0 || s.address < before.minimum {
        low := n - 1;
      }
      if before.count == 0 || s.address + s.memorySize > before.maximum {
        high := n - 1;
      }
    }
  }

  lemma {:induction false} NothingYet(data: seq<Byte>, n: nat)
    requires HasHeader(data) && ProgramsFit(data) && n <= ProgramCount(data) && WalkSegments(data, n).Ok?
    ensures WalkSegments(data, n).value.count == 0 ==> WalkSegments(data, n).value == Bounds(UINT32_MAX, 0, false, 0)
  {
    if n > 0 {
      NothingYet(data, n - 1);
    }
  }

  lemma {:induction false} EntryInSegment(data: seq<Byte>, n: nat) returns (i: nat)
    requires HasHeader(data) && ProgramsFit(data) && n <= ProgramCount(data) && WalkSegments(data, n).Ok?
    requires WalkSegments(data, n).value.entered
    ensures i < n && SegmentAt(data, i).kind == PROGRAM_LOAD && Executable(SegmentAt(data, i))
    ensures Within(SegmentAt(data, i), U32(data, 24))
  {
    if WalkSegments(data, n - 1).value.entered {
      i := EntryInSegment(data, n - 1);
    } else {
      i := n - 1;
    }
  }

  /** The walk over the segments succeeds exactly when none is dynamic and every loadable one is valid. */
  lemma {:induction false} WalkAccepts(data: seq<Byte>, n: nat)
    requires HasHeader(data) && ProgramsFit(data) && n <= ProgramCount(data)
    ensures WalkSegments(data, n).Ok? <==>
              forall i :: 0 <= i < n ==>
                var s := SegmentAt(data, i);
                s.kind != PROGRAM_DYNAMIC && (s.kind == PROGRAM_LOAD ==> ValidSegment(s, |data|))
  {
    if n > 0 {
      WalkAccepts(data, n - 1);
    }
  }

  lemma InspectedFits(data: seq<Byte>, sizes: nat)
    requires UINT32_MAX < sizes && Inspect(data, sizes).Ok?
    ensures HasHeader(data) && ProgramsFit(data) && WalkSegments(data, ProgramCount(data)).Ok?
    ensures var i := Inspect(data, sizes).value;
            var b := WalkSegments(data, ProgramCount(data)).value;
            && i.entry == U32(data, 24) && i.minimum == b.minimum && i.maximum == b.maximum && i.segments == b.count
            && b.count > 0 && b.entered && i.imageSize == b.maximum - b.minimum && 0 < i.imageSize <= MAX_IMAGE
  {
  }

  /** After a successful inspection every loadable segment lies inside minimum..maximum, its file part inside
      the file, and these bounds are reached. */
  lemma InspectBounds(data: seq<Byte>, sizes: nat, k: nat) returns (low: nat, high: nat)
    requires UINT32_MAX < sizes && Inspect(data, sizes).Ok? && k < ProgramCount(data)
    requires ProgramsFit(data) && SegmentAt(data, k).kind == PROGRAM_LOAD
    ensures var i := Inspect(data, sizes).value;
            var s := SegmentAt(data, k);
            && i.minimum <= s.address && s.address + s.memorySize <= i.maximum
            && s.fileSize <= s.memorySize && s.offset + s.fileSize <= |data|
    ensures low < ProgramCount(data) && high < ProgramCount(data)
         && SegmentAt(data, low).address == Inspect(data, sizes).value.minimum
         && SegmentAt(data, high).address + SegmentAt(data, high).memorySize == Inspect(data, sizes).value.maximum
  {
    InspectedFits(data, sizes);
    SegmentsWithin(data, ProgramCount(data), k);
    low, high := BoundsReached(data, ProgramCount(data));
  }

  /** The entry point lies in an executable segment, and so in the image. */
  lemma InspectEntry(data: seq<Byte>, sizes: nat) returns (k: nat)
    requires UINT32_MAX < sizes && Inspect(data, sizes).Ok?
    ensures HasHeader(data) && ProgramsFit(data) && k < ProgramCount(data)
    ensures SegmentAt(data, k).kind == PROGRAM_LOAD && Executable(SegmentAt(data, k))
    ensures var i := Inspect(data, sizes).value; Within(SegmentAt(data, k), i.entry) && i.minimum <= i.entry < i.maximum
  {
    InspectedFits(data, sizes);
    k := EntryInSegment(data, ProgramCount(data));
    SegmentsWithin(data, ProgramCount(data), k);
  }

  /** What the machine's size type can hold makes no difference to an inspection. */
  lemma {:induction false} NotesSizeless(data: seq<Byte>, start: nat, size: nat, cursor: nat, so: Metadata, a: nat,
                                         b: nat)
    requires start + size <= |data| && size <= UINT32_MAX < a && UINT32_MAX < b
    ensures WalkNotes(data, start, size, cursor, so, a) == WalkNotes(data, start, size, cursor, so, b)
    decreases size - cursor
  {
    if cursor < size && size - cursor >= NOTE_HEADER {
      var note := start + cursor;
      var nameSize, descSize := U32(data, note), U32(data, note + 4);
      var payload := Payload(nameSize, descSize, size - cursor - NOTE_HEADER, a);
      assert payload == Payload(nameSize, descSize, size - cursor - NOTE_HEADER, b);
      if payload >= 0 {
        var next := ReadNote(data, note, so, nameSize, descSize);
        if next.Ok? {
          NotesSizeless(data, start, size, cursor + NOTE_HEADER + payload, next.value, a, b);
        }
      }
    }
  }

  /** Limits on what an application may ask for. */
  predicate Bounded(m: Metadata) {
    && m.abi == ABI_VERSION && m.capabilities <= CAPABILITY_CONSOLE
    && MIN_HEAP <= m.heap <= MAX_HEAP && m.heap % 4096 == 0
    && MIN_STACK <= m.stack <= MAX_STACK && m.stack % 16 == 0
    && (!m.present ==> m == DEFAULTS)
  }

  lemma NoteBounded(data: seq<Byte>, note: nat, so: Metadata, nameSize: nat, descSize: nat)
    requires note + NOTE_HEADER + AlignFour(nameSize) + AlignFour(descSize) <= |data| && Bounded(so)
    ensures var next := ReadNote(data, note, so, nameSize, descSize);
            next.Ok? ==> Bounded(next.value) && (so.present ==> next.value == so)
  {
  }

  lemma {:induction false} NotesBounded(data: seq<Byte>, start: nat, size: nat, cursor: nat, so: Metadata, sizes: nat)
    requires start + size <= |data| && size <= UINT32_MAX < sizes && Bounded(so)
    ensures WalkNotes(data, start, size, cursor, so, sizes).Ok? ==>
              var m := WalkNotes(data, start, size, cursor, so, sizes).value;
              Bounded(m) && (so.present ==> m == so)
    decreases size - cursor
  {
    if cursor < size && size - cursor >= NOTE_HEADER {
      var note := start + cursor;
      var nameSize, descSize := U32(data, note), U32(data, note + 4);
      var payload := Payload(nameSize, descSize, size - cursor - NOTE_HEADER, sizes);
      if payload >= 0 {
        NoteBounded(data, note, so, nameSize, descSize);
        var next := ReadNote(data, note, so, nameSize, descSize);
        if next.Ok? {
          NotesBounded(data, start, size, cursor + NOTE_HEADER + payload, next.value, sizes);
        }
      }
    }
  }

  lemma {:induction false} SectionsBounded(data: seq<Byte>, n: nat, sizes: nat)
    requires HasHeader(data) && SectionsFit(data) && n <= SectionCount(data) && UINT32_MAX < sizes
    ensures InspectMetadata(data, n, sizes).Ok? ==> Bounded(InspectMetadata(data, n, sizes).value)
  {
    if n > 0 {
      SectionsBounded(data, n - 1, sizes);
      if InspectMetadata(data, n - 1, sizes).Ok? {
        var s := SectionAt(data, n - 1);
        if s.kind == SECTION_NOTE && RangeValid(s.offset, s.size, |data|) {
          NotesBounded(data, s.offset, s.size, 0, InspectMetadata(data, n - 1, sizes).value, sizes);
        }
      }
    }
  }

  /** What an accepted executable asks for is inside the limits; without a note it is the default. */
  lemma InspectRequests(data: seq<Byte>, sizes: nat)
    requires UINT32_MAX < sizes && Inspect(data, sizes).Ok?
    ensures Bounded(Inspect(data, sizes).value.metadata)
  {
    SectionsBounded(data, SectionCount(data), sizes);
  }

  // ----- What the image holds -----

  /** No two loadable segments share an address. */
  ghost predicate Apart(data: seq<Byte>, n: nat)
    requires HasHeader(data) && ProgramsFit(data) && n <= ProgramCount(data)
  {
    forall i, j ::
      0 <= i < j < n && SegmentAt(data, i).kind == PROGRAM_LOAD && SegmentAt(data, j).kind == PROGRAM_LOAD ==>
      SegmentAt(data, i).address + SegmentAt(data, i).memorySize <= SegmentAt(data, j).address
      || SegmentAt(data, j).address + SegmentAt(data, j).memorySize <= SegmentAt(data, i).address
  }

  /** The file part of a loadable segment covers the address. */
  predicate Covers(s: Segment, address: int) {
    s.kind == PROGRAM_LOAD && s.address <= address < s.address + s.fileSize
  }

  /** Segments may overlap: a byte of the image is the file byte of the covering segment of largest index. */
  lemma {:induction false} LastCovering(data: seq<Byte>, n: nat, k: nat, address: nat)
    requires HasHeader(data) && ProgramsFit(data) && k < n <= ProgramCount(data) && WalkSegments(data, n).Ok?
    requires Covers(SegmentAt(data, k), address)
    requires forall j :: k < j < n ==> !Covers(SegmentAt(data, j), address)
    ensures var s := SegmentAt(data, k);
            && s.offset + s.fileSize <= |data|
            && ImageByte(data, n, address) == data[s.offset + (address - s.address)]
  {
    if k < n - 1 {
      assert !Covers(SegmentAt(data, n - 1), address);
      LastCovering(data, n - 1, k, address);
    }
  }

  /** And zero where none covers it. */
  lemma {:induction false} NoneCovering(data: seq<Byte>, n: nat, address: nat)
    requires HasHeader(data) && ProgramsFit(data) && n <= ProgramCount(data) && WalkSegments(data, n).Ok?
    requires forall j :: 0 <= j < n ==> !Covers(SegmentAt(data, j), address)
    ensures ImageByte(data, n, address) == 0
  {
    if n > 0 {
      assert !Covers(SegmentAt(data, n - 1), address);
      NoneCovering(data, n - 1, address);
    }
  }

  /** When segments do not overlap, each one's memory starts with its file bytes and goes on with zeros. */
  lemma SegmentLaidOut(data: seq<Byte>, n: nat, i: nat, address: nat)
    requires HasHeader(data) && ProgramsFit(data) && i < n <= ProgramCount(data) && WalkSegments(data, n).Ok?
    requires Apart(data, n) && SegmentAt(data, i).kind == PROGRAM_LOAD && Within(SegmentAt(data, i), address)
    ensures var s := SegmentAt(data, i);
            && s.offset + s.fileSize <= |data|
            && ImageByte(data, n, address) ==
                 if address - s.address < s.fileSize then data[s.offset + (address - s.address)] else 0
  {
    SegmentsWithin(data, n, i);
    forall j | 0 <= j < n && j != i ensures !Covers(SegmentAt(data, j), address) {
      if SegmentAt(data, j).kind == PROGRAM_LOAD {
        SegmentsWithin(data, n, j);
      }
    }
    if Covers(SegmentAt(data, i), address) {
      LastCovering(data, n, i, address);
    } else {
      NoneCovering(data, n, address);
    }
  }
}
