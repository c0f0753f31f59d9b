/** Inspecting and loading an executable in loader/elf_loader.c. */
module Elf {
  import opened ElfSpec

  method CheckAllSections(data: seq<Byte>) returns (r: Result<()>)
    requires HasHeader(data)
    ensures r == InspectSections(data)
  {
    var offset, entrySize, count := U32(data, 32), U16(data, 46), U16(data, 48);
    if !TableValid(offset, count, entrySize, |data|) || (count > 0 && entrySize != SECTION_SIZE) {
      return Failed(Truncated);
    }
    r := Ok(());
    for index := 0 to count
      invariant r == CheckSections(data, index) && r.Ok?
    {
      var section := SectionAt(data, index);
      if section.kind == SECTION_REL && section.size > 0 {
        return AllFail(data, index + 1, count, Failed(UnsupportedRelocation));
      }
      if section.kind == SECTION_RELA
         && (section.entrySize != RELA_SIZE || section.size % section.entrySize != 0
             || !RangeValid(section.offset, section.size, |data|)) {
        return AllFail(data, index + 1, count, Failed(Truncated));
      }
    }
  }

  /** A failed section fails the table. */
  function AllFail(data: seq<Byte>, n: nat, count: nat, r: Result<()>): (all: Result<()>)
    requires HasHeader(data) && SectionsFit(data) && n <= count == SectionCount(data)
    requires r.Failed? && CheckSections(data, n) == r
    ensures all == r == CheckSections(data, count)
    decreases count - n
  {
    if n == count then r else AllFail(data, n + 1, count, r)
  }

  method WalkNotesOf(data: seq<Byte>, start: nat, size: nat, so: Metadata, sizes: nat) returns (r: Result<Metadata>)
    requires start + size <= |data| && size <= UINT32_MAX < sizes
    ensures r == WalkNotes(data, start, size, 0, so, sizes)
  {
    var cursor, found := 0, so;
    while cursor < size
      invariant 0 <= cursor <= size
      invariant WalkNotes(data, start, size, 0, so, sizes) == WalkNotes(data, start, size, cursor, found, sizes)
    {
      if size - cursor < NOTE_HEADER {
        return Failed(Truncated);
      }
      var note := start + cursor;
      var nameSize, descSize := U32(data, note), U32(data, note + 4);
      var payload := Payload(nameSize, descSize, size - cursor - NOTE_HEADER, sizes);
      if payload == -1 {
        return Failed(Truncated);
      }
      var next := ReadNote(data, note, found, nameSize, descSize);
      if next.Failed? {
        return next;
      }
      found := next.value;
      cursor := cursor + NOTE_HEADER + payload;
    }
    return Ok(found);
  }

  method ReadMetadata(data: seq<Byte>, sizes: nat) returns (r: Result<Metadata>)
    requires HasHeader(data) && SectionsFit(data) && UINT32_MAX < sizes
    ensures r == InspectMetadata(data, SectionCount(data), sizes)
  {
    var count := SectionCount(data);
    r := Ok(DEFAULTS);
    for index := 0 to count
      invariant r == InspectMetadata(data, index, sizes)
    {
      if r.Ok? {
        var section := SectionAt(data, index);
        if section.kind == SECTION_NOTE {
          if !RangeValid(section.offset, section.size, |data|) {
            r := Failed(Truncated);
          } else {
            r := WalkNotesOf(data, section.offset, section.size, r.value, sizes);
          }
        }
      }
    }
  }

  method MeasureSegments(data: seq<Byte>) returns (r: Result<Bounds>)
    requires HasHeader(data) && ProgramsFit(data)
    ensures r == WalkSegments(data, ProgramCount(data))
  {
    var b := Bounds(UINT32_MAX, 0, false, 0);
    var entry, count := U32(data, 24), ProgramCount(data);
    for index := 0 to count
      invariant WalkSegments(data, index) == Ok(b)
    {
      var s := SegmentAt(data, index);
      if s.kind == PROGRAM_DYNAMIC {
        return AllFailed(data, index + 1, Failed(UnsupportedRelocation));
      }
      if s.kind == PROGRAM_LOAD {
        if !ValidSegment(s, |data|) {
          return AllFailed(data, index + 1, Failed(InvalidSegment));
        }
        var end := s.address + s.memorySize;
        if s.address < b.minimum {
          b := b.(minimum := s.address);
        }
        if end > b.maximum {
          b := b.(maximum := end);
        }
        if s.flags % 2 == 1 && s.address <= entry < end {
          b := b.(entered := true);
        }
        b := b.(count := b.count + 1);
      }
    }
    return Ok(b);
  }

  /** A failed segment fails the table. */
  function AllFailed(data: seq<Byte>, n: nat, r: Result<Bounds>): (all: Result<Bounds>)
    requires HasHeader(data) && ProgramsFit(data) && n <= ProgramCount(data)
    requires r.Failed? && WalkSegments(data, n) == r
    ensures all == r == WalkSegments(data, ProgramCount(data))
    decreases ProgramCount(data) - n
  {
    if n == ProgramCount(data) then r else AllFailed(data, n + 1, r)
  }

  /** loader_elf_inspect. */
  method InspectFile(data: seq<Byte>, sizes: nat) returns (r: Result<Info>)
    requires UINT32_MAX < sizes
    ensures r == Inspect(data, sizes)
  {
    if |data| < HEADER_SIZE {
      return Failed(Truncated);
    }
    if !Identified(data) {
      return Failed(UnsupportedFormat);
    }
    if !ProgramsOk(data) {
      return Failed(Truncated);
    }
    var sections := CheckAllSections(data);
    if sections.Failed? {
      return Failed(sections.error);
    }
    var metadata := ReadMetadata(data, sizes);
    if metadata.Failed? {
      return Failed(metadata.error);
    }
    var bounds := MeasureSegments(data);
    if bounds.Failed? {
      return Failed(bounds.error);
    }
    return Conclude(data, bounds.value, metadata.value);
  }

  /** memcpy of a segment's file part into the image. */
  method CopySegment(memory: array<Byte>, at: nat, data: seq<Byte>, from: nat, count: nat)
    requires at + count <= memory.Length && from + count <= |data|
    modifies memory
    ensures forall i :: 0 <= i < memory.Length ==>
              memory[i] == if at <= i < at + count then data[from + (i - at)] else old(memory[i])
  {
    for k := 0 to count
      invariant forall i :: 0 <= i < memory.Length ==>
                  memory[i] == if at <= i < at + k then data[from + (i - at)] else old(memory[i])
    {
      memory[at + k] := data[from + k];
    }
  }

  method ZeroFill(memory: array<Byte>)
    modifies memory
    ensures forall i :: 0 <= i < memory.Length ==> memory[i] == 0
  {
    for i := 0 to memory.Length
      invariant forall j :: 0 <= j < i ==> memory[j] == 0
    {
      memory[i] := 0;
    }
  }

  /** One turn of the copy loop. */
  method PlaceSegment(data: seq<Byte>, index: nat, minimum: nat, memory: array<Byte>)
    requires HasHeader(data) && ProgramsFit(data) && index < ProgramCount(data)
    requires WalkSegments(data, index).Ok? && WalkSegments(data, index + 1).Ok?
    requires var s := SegmentAt(data, index);
             s.kind == PROGRAM_LOAD ==> minimum <= s.address && s.address + s.fileSize <= minimum + memory.Length
    modifies memory
    requires forall i :: 0 <= i < memory.Length ==> memory[i] == ImageByte(data, index, minimum + i)
    ensures forall i :: 0 <= i < memory.Length ==> memory[i] == ImageByte(data, index + 1, minimum + i)
  {
    var s := SegmentAt(data, index);
    if s.kind == PROGRAM_LOAD {
      CopySegment(memory, s.address - minimum, data, s.offset, s.fileSize);
    }
  }

  /** The copy loop of loader_elf_load: every byte of the image is that of the last segment covering it, or
      zero. */
  method FillImage(data: seq<Byte>, minimum: nat, memory: array<Byte>)
    requires HasHeader(data) && ProgramsFit(data) && WalkSegments(data, ProgramCount(data)).Ok?
    requires var b := WalkSegments(data, ProgramCount(data)).value;
             minimum == b.minimum && memory.Length == b.maximum - b.minimum
    modifies memory
    ensures forall i :: 0 <= i < memory.Length ==> memory[i] == ImageByte(data, ProgramCount(data), minimum + i)
  {
    ZeroFill(memory);
    CopySegments(data, minimum, memory);
  }

  method CopySegments(data: seq<Byte>, minimum: nat, memory: array<Byte>)
    requires HasHeader(data) && ProgramsFit(data) && WalkSegments(data, ProgramCount(data)).Ok?
    requires var b := WalkSegments(data, ProgramCount(data)).value;
             minimum == b.minimum && memory.Length == b.maximum - b.minimum
    requires forall i :: 0 <= i < memory.Length ==> memory[i] == 0
    modifies memory
    ensures forall i :: 0 <= i < memory.Length ==> memory[i] == ImageByte(data, ProgramCount(data), minimum + i)
  {
    var count := ProgramCount(data);
    PrefixOk(data, 0, count);
    for index := 0 to count
      invariant WalkSegments(data, index).Ok?
      invariant forall i :: 0 <= i < memory.Length ==> memory[i] == ImageByte(data, index, minimum + i)
    {
      PrefixOk(data, index + 1, count);
      if SegmentAt(data, index).kind == PROGRAM_LOAD {
        SegmentsWithin(data, count, index);
      }
      PlaceSegment(data, index, minimum, memory);
    }
  }

  /** If the walk over all segments succeeds, so does that over the first few. */
  lemma {:induction false} PrefixOk(data: seq<Byte>, n: nat, count: nat)
    requires HasHeader(data) && ProgramsFit(data) && n <= count <= ProgramCount(data) && WalkSegments(data, count).Ok?
    ensures WalkSegments(data, n).Ok?
    decreases count - n
  {
    if n < count {
      PrefixOk(data, n, count - 1);
    }
  }
}
