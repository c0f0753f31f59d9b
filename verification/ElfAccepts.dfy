/** Which files loader/elf_loader.c takes, said of their bytes: header, tables, notes and relocations. */
module ElfAccepts {
  import opened ElfRelocate
  import opened ElfRelocation
  import opened ElfSpec
  import opened ElfWords

  // ----- The header and the tables -----

  /** A 32-bit little-endian executable for RISC-V. */
  predicate IsRiscvExecutable(data: seq<Byte>) {
    && |data| >= 52
    && data[0] == 0x7F && data[1] == 'E' as int && data[2] == 'L' as int && data[3] == 'F' as int
    && data[4] == 1 && data[5] == 1 && data[6] == 1
    && U16(data, 16) == 2 && U16(data, 18) == 243 && U32(data, 20) == 1 && U16(data, 40) == 52
  }

  /** Its program headers, at least one, and its section headers, if any, lie in the file. */
  predicate HasTables(data: seq<Byte>)
    requires |data| >= 52
  {
    && U16(data, 44) > 0 && U16(data, 42) == 32 && U32(data, 28) + 32 * U16(data, 44) <= |data|
    && (U16(data, 48) > 0 ==> U16(data, 46) == 40 && U32(data, 32) + 40 * U16(data, 48) <= |data|)
  }

  /** A section the loader can live with: no REL entries, and RELA entries of 12 bytes that lie in the file. */
  predicate SectionFine(data: seq<Byte>, i: nat)
    requires |data| >= 52 && HasTables(data) && i < U16(data, 48)
  {
    var kind, offset, size, entry := U32(data, HeaderAt(data, i) + 4), U32(data, HeaderAt(data, i) + 16),
                                     U32(data, HeaderAt(data, i) + 20), U32(data, HeaderAt(data, i) + 36);
    (kind == 9 ==> size == 0) && (kind == 4 ==> entry == 12 && size % 12 == 0 && offset + size <= |data|)
  }

  /** A program header that asks for nothing the loader cannot do. */
  predicate ProgramFine(data: seq<Byte>, i: nat)
    requires |data| >= 52 && HasTables(data) && i < U16(data, 44)
  {
    var at := ProgramAt(data, i);
    var offset, address, inFile, inMemory, alignment :=
      U32(data, at + 4), U32(data, at + 8), U32(data, at + 16), U32(data, at + 20), U32(data, at + 28);
    && U32(data, at) != 2
    && (U32(data, at) == 1 ==>
          && inFile <= inMemory && inMemory > 0 && offset + inFile <= |data| && address + inMemory <= 0xFFFF_FFFF
          && (alignment > 1 ==> PowerOfTwo(alignment) && offset % alignment == address % alignment))
  }

  /** A loadable segment. */
  predicate IsLoad(data: seq<Byte>, i: nat)
    requires |data| >= 52 && HasTables(data)
  {
    i < U16(data, 44) && U32(data, ProgramAt(data, i)) == 1
  }

  /** The entry point lies in it, and it may be executed. */
  predicate HoldsEntry(data: seq<Byte>, i: nat)
    requires |data| >= 52 && HasTables(data)
  {
    && IsLoad(data, i) && U32(data, ProgramAt(data, i) + 24) % 2 == 1
    && U32(data, ProgramAt(data, i) + 8) <= U32(data, 24)
       < U32(data, ProgramAt(data, i) + 8) + U32(data, ProgramAt(data, i) + 20)
  }

  /** No two loadable segments span more than a megabyte. */
  ghost predicate SpanFine(data: seq<Byte>)
    requires |data| >= 52 && HasTables(data)
  {
    forall i, j :: IsLoad(data, i) && IsLoad(data, j) ==>
      U32(data, ProgramAt(data, j) + 8) + U32(data, ProgramAt(data, j) + 20)
      <= U32(data, ProgramAt(data, i) + 8) + 0x10_0000
  }

  lemma TablesAre(data: seq<Byte>)
    requires |data| >= 52
    ensures HasTables(data)
       <==> ProgramsOk(data) && TableValid(U32(data, 32), SectionCount(data), U16(data, 46), |data|)
            && (SectionCount(data) > 0 ==> U16(data, 46) == SECTION_SIZE)
    ensures HasTables(data) ==> SectionsFit(data) && ProgramsFit(data)
  {
  }

  lemma IdentifiedIs(data: seq<Byte>)
    requires |data| >= 52
    ensures Identified(data) <==> IsRiscvExecutable(data)
  {
    assert data[..7] == [data[0], data[1], data[2], data[3], data[4], data[5], data[6]];
  }

  lemma SectionFineIs(data: seq<Byte>, i: nat)
    requires |data| >= 52 && HasTables(data) && i < U16(data, 48) && SectionsFit(data)
    ensures CheckSection(SectionAt(data, i), |data|).Ok? <==> SectionFine(data, i)
  {
    SectionFields(data, i);
  }

  lemma {:induction false} SectionsFine(data: seq<Byte>, n: nat)
    requires |data| >= 52 && HasTables(data) && SectionsFit(data) && n <= U16(data, 48)
    ensures CheckSections(data, n).Ok? <==> forall i :: 0 <= i < n ==> SectionFine(data, i)
  {
    if n > 0 {
      SectionsFine(data, n - 1);
      SectionFineIs(data, n - 1);
    }
  }

  lemma ProgramFineIs(data: seq<Byte>, i: nat)
    requires |data| >= 52 && HasTables(data) && i < U16(data, 44) && ProgramsFit(data)
    ensures var s := SegmentAt(data, i);
            s.kind != PROGRAM_DYNAMIC && (s.kind == PROGRAM_LOAD ==> ValidSegment(s, |data|)) <==> ProgramFine(data, i)
  {
  }

  lemma ProgramsFine(data: seq<Byte>)
    requires |data| >= 52 && HasTables(data) && ProgramsFit(data)
    ensures WalkSegments(data, ProgramCount(data)).Ok? <==> forall i :: 0 <= i < U16(data, 44) ==> ProgramFine(data, i)
  {
    WalkAccepts(data, ProgramCount(data));
    forall i | 0 <= i < U16(data, 44)
      ensures var s := SegmentAt(data, i);
              (s.kind != PROGRAM_DYNAMIC && (s.kind == PROGRAM_LOAD ==> ValidSegment(s, |data|)))
              == ProgramFine(data, i)
    {
      ProgramFineIs(data, i);
    }
  }

  /** The bounds found say whether there is a segment with the entry. */
  lemma EntrySays(data: seq<Byte>)
    requires |data| >= 52 && HasTables(data) && ProgramsFit(data) && WalkSegments(data, ProgramCount(data)).Ok?
    ensures var b := WalkSegments(data, ProgramCount(data)).value;
            && (b.entered <==> exists i :: HoldsEntry(data, i))
            && (b.entered ==> 0 < b.count && b.minimum < b.maximum && b.minimum != UINT32_MAX)
  {
    var n := ProgramCount(data);
    if WalkSegments(data, n).value.entered {
      var i := EntryInSegment(data, n);
      assert HoldsEntry(data, i);
      SegmentsWithin(data, n, i);
      Counted(data, n);
    }
    if i :| HoldsEntry(data, i) {
      SegmentsWithin(data, n, i);
    }
  }

  /** And how far they are apart. */
  lemma BoundsSay(data: seq<Byte>)
    requires |data| >= 52 && HasTables(data) && ProgramsFit(data) && WalkSegments(data, ProgramCount(data)).Ok?
    ensures var b := WalkSegments(data, ProgramCount(data)).value;
            && (b.entered <==> exists i :: HoldsEntry(data, i))
            && (b.entered ==> 0 < b.count && b.minimum < b.maximum && b.minimum != UINT32_MAX)
            && (b.entered ==> (b.maximum - b.minimum <= MAX_IMAGE <==> SpanFine(data)))
  {
    var b := WalkSegments(data, ProgramCount(data)).value;
    EntrySays(data);
    if b.entered {
      if b.maximum - b.minimum <= MAX_IMAGE {
        SmallSpans(data);
      } else if SpanFine(data) {
        SpanIsSmall(data);
      }
    }
  }

  lemma {:induction false} Counted(data: seq<Byte>, n: nat)
    requires HasHeader(data) && ProgramsFit(data) && n <= ProgramCount(data) && WalkSegments(data, n).Ok?
    ensures WalkSegments(data, n).value.entered ==> WalkSegments(data, n).value.count > 0
  {
    if n > 0 {
      Counted(data, n - 1);
    }
  }

  lemma SpansWithin(data: seq<Byte>, i: nat, j: nat)
    requires |data| >= 52 && HasTables(data) && ProgramsFit(data) && WalkSegments(data, ProgramCount(data)).Ok?
    requires IsLoad(data, i) && IsLoad(data, j)
    ensures var b := WalkSegments(data, ProgramCount(data)).value;
            && b.minimum <= U32(data, ProgramAt(data, i) + 8)
            && U32(data, ProgramAt(data, j) + 8) + U32(data, ProgramAt(data, j) + 20) <= b.maximum
  {
    SegmentsWithin(data, ProgramCount(data), i);
    SegmentsWithin(data, ProgramCount(data), j);
  }

  lemma SmallSpans(data: seq<Byte>)
    requires |data| >= 52 && HasTables(data) && ProgramsFit(data) && WalkSegments(data, ProgramCount(data)).Ok?
    requires var b := WalkSegments(data, ProgramCount(data)).value; b.maximum - b.minimum <= MAX_IMAGE
    ensures SpanFine(data)
  {
    forall i, j | IsLoad(data, i) && IsLoad(data, j)
      ensures U32(data, ProgramAt(data, j) + 8) + U32(data, ProgramAt(data, j) + 20)
              <= U32(data, ProgramAt(data, i) + 8) + 0x10_0000
    {
      SpansWithin(data, i, j);
    }
  }

  lemma SpanIsSmall(data: seq<Byte>)
    requires |data| >= 52 && HasTables(data) && ProgramsFit(data) && WalkSegments(data, ProgramCount(data)).Ok?
    requires WalkSegments(data, ProgramCount(data)).value.count > 0 && SpanFine(data)
    ensures var b := WalkSegments(data, ProgramCount(data)).value; b.maximum - b.minimum <= MAX_IMAGE
  {
    var low, high := BoundsReached(data, ProgramCount(data));
    assert IsLoad(data, low) && IsLoad(data, high);
  }

  /** A file is taken exactly when each of its parts is; the notes are gone into by themselves. */
  lemma PartsTaken(data: seq<Byte>, sizes: nat)
    requires UINT32_MAX < sizes
    ensures Inspect(data, sizes).Ok?
       <==> && IsRiscvExecutable(data) && HasTables(data) && SectionsFit(data)
            && (forall i :: 0 <= i < U16(data, 48) ==> SectionFine(data, i))
            && InspectMetadata(data, U16(data, 48), sizes).Ok?
            && (forall i :: 0 <= i < U16(data, 44) ==> ProgramFine(data, i))
            && (exists i :: HoldsEntry(data, i)) && SpanFine(data)
  {
    if |data| >= 52 {
      IdentifiedIs(data);
      TablesAre(data);
      if HasTables(data) {
        SectionsFine(data, U16(data, 48));
        ProgramsFine(data);
        if WalkSegments(data, ProgramCount(data)).Ok? {
          BoundsSay(data);
        }
      }
    }
  }

  /** And why a file is refused whose parts are fine by themselves. */
  lemma RefusedAsWhole(data: seq<Byte>, sizes: nat)
    requires UINT32_MAX < sizes && IsRiscvExecutable(data) && HasTables(data) && SectionsFit(data)
    requires forall i :: 0 <= i < U16(data, 48) ==> SectionFine(data, i)
    requires InspectMetadata(data, U16(data, 48), sizes).Ok?
    requires forall i :: 0 <= i < U16(data, 44) ==> ProgramFine(data, i)
    requires exists i :: IsLoad(data, i)
    ensures (forall i :: !HoldsEntry(data, i)) ==> Inspect(data, sizes) == Failed(InvalidEntry)
    ensures (exists i :: HoldsEntry(data, i)) && !SpanFine(data) ==> Inspect(data, sizes) == Failed(ImageTooLarge)
  {
    IdentifiedIs(data);
    TablesAre(data);
    SectionsFine(data, U16(data, 48));
    ProgramsFine(data);
    BoundsSay(data);
    var i :| IsLoad(data, i);
    SegmentsWithin(data, ProgramCount(data), i);
    SomeCounted(data, ProgramCount(data), i);
  }

  lemma {:induction false} SomeCounted(data: seq<Byte>, n: nat, i: nat)
    requires HasHeader(data) && ProgramsFit(data) && i < n <= ProgramCount(data) && WalkSegments(data, n).Ok?
    requires SegmentAt(data, i).kind == PROGRAM_LOAD
    ensures WalkSegments(data, n).value.count > 0
  {
    if i < n - 1 {
      SomeCounted(data, n - 1, i);
    }
  }

  // ----- The notes -----

  /** The bytes up to the next multiple of four. */
  function Rounded(n: nat): nat {
    if n % 4 == 0 then n else n + (4 - n % 4)
  }

  /** In the chain of notes from `cursor` on, one stands at `at`. */
  predicate NoteAt(data: seq<Byte>, start: nat, size: nat, cursor: nat, at: nat)
    requires start + size <= |data|
    decreases size - cursor
  {
    && cursor + 12 <= size
    && (cursor == at
        || NoteAt(data, start, size,
                  cursor + 12 + Rounded(U32(data, start + cursor)) + Rounded(U32(data, start + cursor + 4)), at))
  }

  /** A note of the system: the name is six bytes, TABOS and its terminator. */
  predicate OfTabOs(data: seq<Byte>, note: nat) {
    && note + 18 <= |data| && U32(data, note) == 6
    && data[note + 12] == 'T' as int && data[note + 13] == 'A' as int && data[note + 14] == 'B' as int
    && data[note + 15] == 'O' as int && data[note + 16] == 'S' as int && data[note + 17] == 0
  }

  /** What such a note asks for, when it is well formed. */
  predicate Describes(data: seq<Byte>, note: nat, m: Metadata) {
    && note + 52 <= |data| && U32(data, note + 4) == 32 && U32(data, note + 8) == 1
    && U32(data, note + 20) == 1 && U32(data, note + 24) == 32 && U32(data, note + 28) == 3
    && U32(data, note + 44) == 0 && U32(data, note + 48) == 0
    && m == Metadata(3, U32(data, note + 32), U32(data, note + 36), U32(data, note + 40), true)
    && 0x4_0000 <= m.heap <= 0x100_0000 && m.heap % 4096 == 0
    && 0x4000 <= m.stack <= 0x4_0000 && m.stack % 16 == 0 && m.capabilities <= 1
  }

  lemma RoundedIs(n: nat)
    ensures Rounded(n) == AlignFour(n)
  {
  }

  lemma NoteRead(data: seq<Byte>, note: nat, so: Metadata, nameSize: nat, descSize: nat)
    requires note + NOTE_HEADER + AlignFour(nameSize) + AlignFour(descSize) <= |data|
    requires nameSize == U32(data, note) && descSize == U32(data, note + 4)
    requires ReadNote(data, note, so, nameSize, descSize).Ok?
    ensures var m := ReadNote(data, note, so, nameSize, descSize).value;
            if OfTabOs(data, note) then !so.present && Describes(data, note, m) else m == so
  {
    if nameSize == 6 {
      assert data[note + 12..note + 18]
          == [data[note + 12], data[note + 13], data[note + 14], data[note + 15], data[note + 16], data[note + 17]];
    }
  }

  /** No note of the system stands in the chain. */
  ghost predicate NoneFrom(data: seq<Byte>, start: nat, size: nat, cursor: nat)
    requires start + size <= |data|
  {
    forall at :: NoteAt(data, start, size, cursor, at) ==> !OfTabOs(data, start + at)
  }

  /** What a walk over notes that succeeds makes of the metadata: what the one note of the system says, if any. */
  ghost predicate WalkSays(data: seq<Byte>, start: nat, size: nat, cursor: nat, so: Metadata, m: Metadata)
    requires start + size <= |data|
  {
    && (NoneFrom(data, start, size, cursor) ==> m == so)
    && (forall at :: NoteAt(data, start, size, cursor, at) && OfTabOs(data, start + at) ==>
          !so.present && Describes(data, start + at, m))
    && (forall at, other :: NoteAt(data, start, size, cursor, at) && OfTabOs(data, start + at)
                            && NoteAt(data, start, size, cursor, other) && OfTabOs(data, start + other) ==>
          other == at)
  }

  /** One note of a walk that succeeds. */
  lemma NoteStep(data: seq<Byte>, start: nat, size: nat, cursor: nat, so: Metadata, sizes: nat)
    returns (after: nat, next: Metadata)
    requires start + size <= |data| && size <= UINT32_MAX < sizes && cursor < size
    requires WalkNotes(data, start, size, cursor, so, sizes).Ok?
    ensures cursor + 12 <= size
    ensures after == cursor + 12 + Rounded(U32(data, start + cursor)) + Rounded(U32(data, start + cursor + 4))
    ensures WalkNotes(data, start, size, cursor, so, sizes) == WalkNotes(data, start, size, after, next, sizes)
    ensures if OfTabOs(data, start + cursor) then !so.present && Describes(data, start + cursor, next) else next == so
  {
    var note := start + cursor;
    var nameSize, descSize := U32(data, note), U32(data, note + 4);
    RoundedIs(nameSize);
    RoundedIs(descSize);
    after := cursor + NOTE_HEADER + Payload(nameSize, descSize, size - cursor - NOTE_HEADER, sizes);
    next := ReadNote(data, note, so, nameSize, descSize).value;
    NoteRead(data, note, so, nameSize, descSize);
  }

  lemma WalkOver(data: seq<Byte>, start: nat, size: nat, cursor: nat, so: Metadata, sizes: nat)
    requires start + size <= |data| && size <= UINT32_MAX < sizes && cursor >= size
    ensures WalkNotes(data, start, size, cursor, so, sizes) == Ok(so)
    ensures WalkSays(data, start, size, cursor, so, so)
  {
  }

  lemma {:induction false} WalkedNotes(data: seq<Byte>, start: nat, size: nat, cursor: nat, so: Metadata, sizes: nat)
    requires start + size <= |data| && size <= UINT32_MAX < sizes
    requires WalkNotes(data, start, size, cursor, so, sizes).Ok?
    ensures WalkSays(data, start, size, cursor, so, WalkNotes(data, start, size, cursor, so, sizes).value)
    decreases size - cursor
  {
    if cursor >= size {
      WalkOver(data, start, size, cursor, so, sizes);
    } else {
      var after, next := NoteStep(data, start, size, cursor, so, sizes);
      WalkedNotes(data, start, size, after, next, sizes);
      OneMoreNote(data, start, size, cursor, after, so, next, WalkNotes(data, start, size, after, next, sizes).value);
    }
  }

  lemma OneMoreNote(data: seq<Byte>, start: nat, size: nat, cursor: nat, after: nat, so: Metadata, next: Metadata,
                    m: Metadata)
    requires start + size <= |data| && cursor + 12 <= size
    requires after == cursor + 12 + Rounded(U32(data, start + cursor)) + Rounded(U32(data, start + cursor + 4))
    requires if OfTabOs(data, start + cursor) then !so.present && Describes(data, start + cursor, next) else next == so
    requires WalkSays(data, start, size, after, next, m)
    ensures WalkSays(data, start, size, cursor, so, m)
  {
    assert NoteAt(data, start, size, cursor, cursor);
    assert forall at :: NoteAt(data, start, size, after, at) ==> NoteAt(data, start, size, cursor, at);
    if OfTabOs(data, start + cursor) {
      assert next.present;
      assert NoneFrom(data, start, size, after);
    }
  }

  // ----- The notes of all sections -----

  /** A note of the system in section i. */
  predicate SystemNote(data: seq<Byte>, i: nat, at: nat)
    requires |data| >= 52 && HasTables(data) && i < U16(data, 48)
  {
    var start, size := U32(data, HeaderAt(data, i) + 16), U32(data, HeaderAt(data, i) + 20);
    && U32(data, HeaderAt(data, i) + 4) == 7 && start + size <= |data|
    && NoteAt(data, start, size, 0, at) && OfTabOs(data, start + at)
  }

  /** No note of the system in the first sections. */
  ghost predicate NoneBefore(data: seq<Byte>, n: nat)
    requires |data| >= 52 && HasTables(data) && n <= U16(data, 48)
  {
    forall i, at :: 0 <= i < n ==> !SystemNote(data, i, at)
  }

  /** The one note of the system in the first sections, and the metadata it asks for. */
  ghost predicate OnlyNote(data: seq<Byte>, n: nat, i: nat, at: nat, m: Metadata)
    requires |data| >= 52 && HasTables(data) && n <= U16(data, 48)
  {
    && i < n && SystemNote(data, i, at) && Describes(data, U32(data, HeaderAt(data, i) + 16) + at, m)
    && forall j, other :: 0 <= j < n && SystemNote(data, j, other) ==> j == i && other == at
  }

  /** What the metadata are after the first sections: what the only note of the system says, or the defaults. */
  ghost predicate NotesSay(data: seq<Byte>, n: nat, m: Metadata)
    requires |data| >= 52 && HasTables(data) && n <= U16(data, 48)
  {
    if NoneBefore(data, n) then m == Metadata(3, 0x4_0000, 0x4000, 1, false)
    else exists i, at :: OnlyNote(data, n, i, at, m)
  }

  ghost predicate NoneIn(data: seq<Byte>, i: nat)
    requires |data| >= 52 && HasTables(data) && i < U16(data, 48)
  {
    forall at :: !SystemNote(data, i, at)
  }

  ghost predicate OnlyIn(data: seq<Byte>, i: nat, at: nat, m: Metadata)
    requires |data| >= 52 && HasTables(data) && i < U16(data, 48)
  {
    && SystemNote(data, i, at) && Describes(data, U32(data, HeaderAt(data, i) + 16) + at, m)
    && forall other :: SystemNote(data, i, other) ==> other == at
  }

  /** One section more: either it has the only note of the system or the metadata stay. */
  ghost predicate SectionSays(data: seq<Byte>, i: nat, so: Metadata, m: Metadata)
    requires |data| >= 52 && HasTables(data) && i < U16(data, 48)
  {
    if NoneIn(data, i) then m == so else !so.present && exists at :: OnlyIn(data, i, at, m)
  }

  lemma WalkedSection(data: seq<Byte>, i: nat, so: Metadata, sizes: nat)
    requires |data| >= 52 && HasTables(data) && SectionsFit(data) && i < U16(data, 48) && UINT32_MAX < sizes
    requires WalkSection(data, SectionAt(data, i), so, sizes).Ok?
    ensures SectionSays(data, i, so, WalkSection(data, SectionAt(data, i), so, sizes).value)
  {
    SectionFields(data, i);
    var s := SectionAt(data, i);
    if s.kind == SECTION_NOTE {
      WalkedNotes(data, s.offset, s.size, 0, so, sizes);
      SaysOfSection(data, i, s, so, WalkSection(data, s, so, sizes).value);
    }
  }

  lemma SaysOfSection(data: seq<Byte>, i: nat, s: Section, so: Metadata, m: Metadata)
    requires |data| >= 52 && HasTables(data) && i < U16(data, 48)
    requires s.offset == U32(data, HeaderAt(data, i) + 16) && s.size == U32(data, HeaderAt(data, i) + 20)
    requires s.kind == U32(data, HeaderAt(data, i) + 4) == 7 && s.offset + s.size <= |data|
    requires WalkSays(data, s.offset, s.size, 0, so, m)
    ensures SectionSays(data, i, so, m)
  {
    forall at | NoteAt(data, s.offset, s.size, 0, at) && OfTabOs(data, s.offset + at) ensures SystemNote(data, i, at) {
    }
    if at :| SystemNote(data, i, at) {
      assert OnlyIn(data, i, at, m);
    }
  }

  lemma NoneStays(data: seq<Byte>, n: nat, so: Metadata)
    requires |data| >= 52 && HasTables(data) && n < U16(data, 48) && NotesSay(data, n, so) && NoneIn(data, n)
    ensures NotesSay(data, n + 1, so)
  {
    if !NoneBefore(data, n) {
      var i, at :| OnlyNote(data, n, i, at, so);
      assert OnlyNote(data, n + 1, i, at, so);
    }
  }

  lemma OneComes(data: seq<Byte>, n: nat, at: nat, m: Metadata)
    requires |data| >= 52 && HasTables(data) && n < U16(data, 48) && NoneBefore(data, n) && OnlyIn(data, n, at, m)
    ensures NotesSay(data, n + 1, m)
  {
    assert OnlyNote(data, n + 1, n, at, m);
  }

  lemma PresentIsNone(data: seq<Byte>, n: nat, so: Metadata)
    requires |data| >= 52 && HasTables(data) && n <= U16(data, 48) && NotesSay(data, n, so) && !so.present
    ensures NoneBefore(data, n)
  {
  }

  lemma OneMoreSection(data: seq<Byte>, n: nat, so: Metadata, m: Metadata)
    requires |data| >= 52 && HasTables(data) && n < U16(data, 48)
    requires NotesSay(data, n, so) && SectionSays(data, n, so, m)
    ensures NotesSay(data, n + 1, m)
  {
    if NoneIn(data, n) {
      NoneStays(data, n, so);
    } else {
      var at :| OnlyIn(data, n, at, m);
      PresentIsNone(data, n, so);
      OneComes(data, n, at, m);
    }
  }

  lemma NoSectionSays(data: seq<Byte>, sizes: nat)
    requires |data| >= 52 && HasTables(data) && SectionsFit(data) && UINT32_MAX < sizes
    ensures InspectMetadata(data, 0, sizes).Ok? && NotesSay(data, 0, InspectMetadata(data, 0, sizes).value)
  {
  }

  lemma LastSection(data: seq<Byte>, n: nat, sizes: nat) returns (so: Metadata)
    requires |data| >= 52 && HasTables(data) && SectionsFit(data) && n < U16(data, 48) && UINT32_MAX < sizes
    requires InspectMetadata(data, n + 1, sizes).Ok?
    ensures InspectMetadata(data, n, sizes) == Ok(so)
    ensures SectionSays(data, n, so, InspectMetadata(data, n + 1, sizes).value)
  {
    so := InspectMetadata(data, n, sizes).value;
    WalkedSection(data, n, so, sizes);
  }

  lemma {:induction false} NotesAre(data: seq<Byte>, n: nat, sizes: nat)
    requires |data| >= 52 && HasTables(data) && SectionsFit(data) && n <= U16(data, 48) && UINT32_MAX < sizes
    requires InspectMetadata(data, n, sizes).Ok?
    ensures NotesSay(data, n, InspectMetadata(data, n, sizes).value)
    decreases n
  {
    if n == 0 {
      NoSectionSays(data, sizes);
    } else {
      var so := LastSection(data, n - 1, sizes);
      NotesAre(data, n - 1, sizes);
      OneMoreSection(data, n - 1, so, InspectMetadata(data, n, sizes).value);
    }
  }

  lemma MetadataOf(data: seq<Byte>, sizes: nat)
    requires UINT32_MAX < sizes && Inspect(data, sizes).Ok?
    ensures HasHeader(data) && SectionsFit(data) && InspectSections(data).Ok?
    ensures InspectMetadata(data, SectionCount(data), sizes) == Ok(Inspect(data, sizes).value.metadata)
  {
  }

  /** What a file that is taken asks for is what its only note of the system says, or, without one, the defaults. */
  lemma AskedByNote(data: seq<Byte>, sizes: nat)
    requires UINT32_MAX < sizes && Inspect(data, sizes).Ok?
    ensures |data| >= 52 && HasTables(data) && NotesSay(data, U16(data, 48), Inspect(data, sizes).value.metadata)
  {
    PartsTaken(data, sizes);
    MetadataOf(data, sizes);
    NotesAre(data, U16(data, 48), sizes);
  }

  // ----- The relocations -----

  /** The symbol table of a relocating section: entries of 16 bytes, some, in the file. */
  predicate SymbolsFine(data: seq<Byte>, i: nat)
    requires |data| >= 52 && HasTables(data) && i < U16(data, 48)
  {
    var link := U32(data, HeaderAt(data, i) + 24);
    && link < U16(data, 48) && U32(data, HeaderAt(data, link) + 4) == 2 && U32(data, HeaderAt(data, link) + 36) == 16
    && U32(data, HeaderAt(data, link) + 20) > 0 && U32(data, HeaderAt(data, link) + 20) % 16 == 0
    && U32(data, HeaderAt(data, link) + 16) + U32(data, HeaderAt(data, link) + 20) <= |data|
  }

  /** An entry the loader can do: of a kind relative to the place, or of one of the four absolute kinds, for a word
      inside the image and a symbol of the table that is defined. */
  predicate EntryFine(data: seq<Byte>, i: nat, n: nat, minimum: nat, maximum: nat)
    requires |data| >= 52 && HasTables(data) && SectionsFit(data) && i < U16(data, 48) && HasEntry(data, i, n)
    requires SymbolsFine(data, i)
  {
    var link, at := U32(data, HeaderAt(data, i) + 24), SymbolAt(data, i, n);
    StaysAsIs(KindOf(data, i, n)) ||
    (&& KindOf(data, i, n) in [1, 26, 27, 28]
     && minimum <= TargetOf(data, i, n) && TargetOf(data, i, n) + 4 <= maximum
     && at + 16 <= U32(data, HeaderAt(data, link) + 16) + U32(data, HeaderAt(data, link) + 20)
     && U16(data, at + 14) != 0 && (U16(data, at + 14) < U16(data, 48) || U16(data, at + 14) == 0xFFF1))
  }

  /** A section of RELA entries that can be gone through. */
  ghost predicate RelocationFine(data: seq<Byte>, i: nat, minimum: nat, maximum: nat)
    requires |data| >= 52 && HasTables(data) && SectionsFit(data) && i < U16(data, 48)
  {
    U32(data, HeaderAt(data, i) + 4) == 4 ==>
      && U32(data, HeaderAt(data, i) + 28) < U16(data, 48)
      && (Relocates(data, i) ==>
            SymbolsFine(data, i) && EntriesFine(data, i, minimum, maximum))
  }

  ghost predicate EntriesFine(data: seq<Byte>, i: nat, minimum: nat, maximum: nat)
    requires |data| >= 52 && HasTables(data) && SectionsFit(data) && i < U16(data, 48) && SymbolsFine(data, i)
  {
    forall n :: HasEntry(data, i, n) ==> EntryFine(data, i, n, minimum, maximum)
  }

  lemma SymbolIndex(index: nat, size: nat)
    requires size % 16 == 0
    ensures index >= size / 16 <==> 16 * index + 16 > size
  {
  }

  /** Entry n of a section is taken. */
  predicate EntryOk(data: seq<Byte>, s: Section, n: nat, symbols: Section, f: Frame)
    requires HasHeader(data) && s.offset + s.size <= |data| && symbols.offset + symbols.size <= |data| && f.sizes > 4
  {
    (n + 1) * RELA_SIZE <= s.size && EntryPatch(data, s.offset + n * RELA_SIZE, symbols, f).Ok?
  }

  lemma PatchTaken(data: seq<Byte>, i: nat, n: nat, at: nat, symbols: Section, f: Frame)
    requires |data| >= 52 && HasTables(data) && SectionsFit(data) && i < U16(data, 48) && HasEntry(data, i, n)
    requires SymbolsFine(data, i) && symbols == SectionAt(data, U32(data, HeaderAt(data, i) + 24)) && Placed(f)
    requires at == EntryAt(data, i, n) && at + RELA_SIZE <= |data|
    ensures symbols.offset + symbols.size <= |data|
    ensures EntryPatch(data, at, symbols, f).Ok? <==> EntryFine(data, i, n, f.minimum, f.maximum)
  {
    SectionFields(data, U32(data, HeaderAt(data, i) + 24));
    SymbolIndex(U32(data, EntryAt(data, i, n) + 4) / 0x100, symbols.size);
  }

  lemma EntryTaken(data: seq<Byte>, i: nat, n: nat, s: Section, symbols: Section, f: Frame)
    requires |data| >= 52 && HasTables(data) && SectionsFit(data) && i < U16(data, 48) && HasEntry(data, i, n)
    requires SymbolsFine(data, i) && symbols == SectionAt(data, U32(data, HeaderAt(data, i) + 24)) && Placed(f)
    requires s == SectionAt(data, i) && s.offset + s.size <= |data| && symbols.offset + symbols.size <= |data|
    ensures EntryOk(data, s, n, symbols, f) <==> EntryFine(data, i, n, f.minimum, f.maximum)
  {
    SectionFields(data, i);
    PatchTaken(data, i, n, s.offset + n * RELA_SIZE, symbols, f);
  }

  lemma JoinOk(a: Result<seq<Patch>>, b: Result<seq<Patch>>)
    ensures Join(a, b).Ok? <==> a.Ok? && b.Ok?
  {
  }

  lemma LastEntryTaken(data: seq<Byte>, s: Section, n: nat, symbols: Section, f: Frame)
    requires HasHeader(data) && s.offset + s.size <= |data| && (n + 1) * RELA_SIZE <= s.size
    requires symbols.offset + symbols.size <= |data| && f.sizes > 4
    ensures EntryPatches(data, s, n + 1, symbols, f).Ok?
       <==> EntryPatches(data, s, n, symbols, f).Ok? && EntryOk(data, s, n, symbols, f)
  {
    NextEntry(data, s, n, symbols, f);
    JoinOk(EntryPatches(data, s, n, symbols, f), EntryPatch(data, s.offset + n * RELA_SIZE, symbols, f));
  }

  lemma NoEntryTaken(data: seq<Byte>, s: Section, symbols: Section, f: Frame)
    requires HasHeader(data) && s.offset + s.size <= |data|
    requires symbols.offset + symbols.size <= |data| && f.sizes > 4
    ensures EntryPatches(data, s, 0, symbols, f).Ok?
  {
  }

  ghost predicate EntriesOk(data: seq<Byte>, s: Section, count: nat, symbols: Section, f: Frame)
    requires HasHeader(data) && s.offset + s.size <= |data| && symbols.offset + symbols.size <= |data| && f.sizes > 4
  {
    forall n :: 0 <= n < count ==> EntryOk(data, s, n, symbols, f)
  }

  ghost predicate EntriesAgree(data: seq<Byte>, s: Section, count: nat, symbols: Section, f: Frame)
    requires HasHeader(data) && s.offset + s.size <= |data| && count * RELA_SIZE <= s.size
    requires symbols.offset + symbols.size <= |data| && f.sizes > 4
  {
    EntryPatches(data, s, count, symbols, f).Ok? <==> EntriesOk(data, s, count, symbols, f)
  }

  lemma EntriesAgreeMore(data: seq<Byte>, s: Section, n: nat, symbols: Section, f: Frame)
    requires HasHeader(data) && s.offset + s.size <= |data| && (n + 1) * RELA_SIZE <= s.size
    requires symbols.offset + symbols.size <= |data| && f.sizes > 4 && EntriesAgree(data, s, n, symbols, f)
    ensures EntriesAgree(data, s, n + 1, symbols, f)
  {
    LastEntryTaken(data, s, n, symbols, f);
  }

  lemma {:induction false} EntriesTaken(data: seq<Byte>, s: Section, count: nat, symbols: Section, f: Frame)
    requires HasHeader(data) && s.offset + s.size <= |data| && count * RELA_SIZE <= s.size
    requires symbols.offset + symbols.size <= |data| && f.sizes > 4
    ensures EntriesAgree(data, s, count, symbols, f)
    decreases count
  {
    if count == 0 {
      NoEntryTaken(data, s, symbols, f);
    } else {
      EntriesTaken(data, s, count - 1, symbols, f);
      EntriesAgreeMore(data, s, count - 1, symbols, f);
    }
  }

  lemma SymbolsTaken(data: seq<Byte>, i: nat)
    requires |data| >= 52 && HasTables(data) && SectionsFit(data) && i < U16(data, 48)
    ensures SymbolsOf(data, i).1 <==> Relocates(data, i)
    ensures Relocates(data, i) ==> (SymbolsOf(data, i).0.Ok? <==> SymbolsFine(data, i))
    ensures Relocates(data, i) && SymbolsFine(data, i) ==>
              SymbolsOf(data, i).0.value == [SectionAt(data, U32(data, HeaderAt(data, i) + 24))]
    ensures !Relocates(data, i) ==>
              (SymbolsOf(data, i).0.Ok? <==>
                 (U32(data, HeaderAt(data, i) + 4) == 4 ==> U32(data, HeaderAt(data, i) + 28) < U16(data, 48)))
              && (SymbolsOf(data, i).0.Ok? ==> |SymbolsOf(data, i).0.value| == 0)
  {
    SectionFields(data, i);
    if U32(data, HeaderAt(data, i) + 28) < SectionCount(data) {
      SectionFields(data, U32(data, HeaderAt(data, i) + 28));
    }
    if U32(data, HeaderAt(data, i) + 24) < SectionCount(data) {
      SectionFields(data, U32(data, HeaderAt(data, i) + 24));
    }
  }

  lemma CountsEntries(data: seq<Byte>, i: nat, n: nat, s: Section)
    requires |data| >= 52 && HasTables(data) && SectionsFit(data) && Relocates(data, i) && s == SectionAt(data, i)
    requires s.size % 12 == 0 && s.offset + s.size <= |data|
    ensures n < s.size / RELA_SIZE <==> HasEntry(data, i, n)
  {
    SectionFields(data, i);
  }

  lemma AllEntriesTaken(data: seq<Byte>, i: nat, s: Section, symbols: Section, f: Frame)
    requires |data| >= 52 && HasTables(data) && SectionsFit(data) && i < U16(data, 48) && Relocates(data, i)
    requires SymbolsFine(data, i) && symbols == SectionAt(data, U32(data, HeaderAt(data, i) + 24)) && Placed(f)
    requires s == SectionAt(data, i) && s.offset + s.size <= |data| && symbols.offset + symbols.size <= |data|
    requires s.size % 12 == 0
    ensures EntriesOk(data, s, s.size / RELA_SIZE, symbols, f) <==> EntriesFine(data, i, f.minimum, f.maximum)
  {
    forall n: nat | HasEntry(data, i, n)
      ensures n < s.size / RELA_SIZE && (EntryOk(data, s, n, symbols, f) == EntryFine(data, i, n, f.minimum, f.maximum))
    {
      CountsEntries(data, i, n, s);
      EntryTaken(data, i, n, s, symbols, f);
    }
    forall n: nat | n < s.size / RELA_SIZE ensures HasEntry(data, i, n) {
      CountsEntries(data, i, n, s);
    }
  }

  lemma RelocatingTaken(data: seq<Byte>, i: nat, f: Frame)
    requires |data| >= 52 && HasTables(data) && SectionsFit(data) && i < U16(data, 48) && SectionFine(data, i)
    requires Relocates(data, i) && SymbolsFine(data, i) && Placed(f)
    ensures CheckSection(SectionAt(data, i), |data|).Ok?
    ensures SectionPatches(data, i, f).0.Ok? <==> EntriesFine(data, i, f.minimum, f.maximum)
  {
    SectionFineIs(data, i);
    SectionFields(data, i);
    SymbolsTaken(data, i);
    SectionFields(data, U32(data, HeaderAt(data, i) + 24));
    var s, symbols := SectionAt(data, i), SectionAt(data, U32(data, HeaderAt(data, i) + 24));
    EntriesTaken(data, s, s.size / RELA_SIZE, symbols, f);
    AllEntriesTaken(data, i, s, symbols, f);
  }

  lemma SectionTaken(data: seq<Byte>, i: nat, f: Frame)
    requires |data| >= 52 && HasTables(data) && SectionsFit(data) && i < U16(data, 48) && SectionFine(data, i)
    requires Placed(f)
    ensures CheckSection(SectionAt(data, i), |data|).Ok?
    ensures SectionPatches(data, i, f).0.Ok? <==> RelocationFine(data, i, f.minimum, f.maximum)
    ensures SectionPatches(data, i, f).1 <==> Relocates(data, i)
  {
    SectionFineIs(data, i);
    SymbolsTaken(data, i);
    if Relocates(data, i) && SymbolsFine(data, i) {
      RelocatingTaken(data, i, f);
    }
  }

  ghost predicate RelocationsFine(data: seq<Byte>, n: nat, minimum: nat, maximum: nat)
    requires |data| >= 52 && HasTables(data) && SectionsFit(data) && n <= U16(data, 48)
  {
    forall i :: 0 <= i < n ==> RelocationFine(data, i, minimum, maximum)
  }

  predicate SomeRelocates(data: seq<Byte>, n: nat)
    requires |data| >= 52 && HasTables(data) && SectionsFit(data) && n <= U16(data, 48)
  {
    exists i :: 0 <= i < n && Relocates(data, i)
  }

  lemma LastSectionTaken(data: seq<Byte>, n: nat, f: Frame)
    requires |data| >= 52 && HasTables(data) && SectionsFit(data) && n < U16(data, 48) && Placed(f)
    requires SectionFine(data, n) && CheckSections(data, n).Ok? && CheckSections(data, n + 1).Ok?
    ensures AllPatches(data, n + 1, f).0.Ok?
       <==> AllPatches(data, n, f).0.Ok? && RelocationFine(data, n, f.minimum, f.maximum)
    ensures AllPatches(data, n + 1, f).1 <==> AllPatches(data, n, f).1 || Relocates(data, n)
  {
    SectionTaken(data, n, f);
    NextSection(data, n, f);
    JoinOk(AllPatches(data, n, f).0, SectionPatches(data, n, f).0);
  }

  lemma NoSectionTaken(data: seq<Byte>, f: Frame)
    requires |data| >= 52 && HasTables(data) && SectionsFit(data) && Placed(f)
    ensures CheckSections(data, 0).Ok? && AllPatches(data, 0, f).0.Ok? && !AllPatches(data, 0, f).1
  {
  }

  /** The patches of the first sections are planned exactly when their relocations are fine. */
  ghost predicate Agree(data: seq<Byte>, n: nat, f: Frame)
    requires |data| >= 52 && HasTables(data) && SectionsFit(data) && n <= U16(data, 48) && Placed(f)
    requires CheckSections(data, n).Ok?
  {
    && (AllPatches(data, n, f).0.Ok? <==> RelocationsFine(data, n, f.minimum, f.maximum))
    && (AllPatches(data, n, f).1 <==> SomeRelocates(data, n))
  }

  lemma AgreeMore(data: seq<Byte>, n: nat, f: Frame)
    requires |data| >= 52 && HasTables(data) && SectionsFit(data) && n < U16(data, 48) && Placed(f)
    requires SectionFine(data, n) && CheckSections(data, n).Ok? && CheckSections(data, n + 1).Ok? && Agree(data, n, f)
    ensures Agree(data, n + 1, f)
  {
    LastSectionTaken(data, n, f);
  }

  lemma {:induction false} SectionsTaken(data: seq<Byte>, n: nat, f: Frame)
    requires |data| >= 52 && HasTables(data) && SectionsFit(data) && n <= U16(data, 48) && Placed(f)
    requires forall i :: 0 <= i < U16(data, 48) ==> SectionFine(data, i)
    ensures CheckSections(data, n).Ok? && Agree(data, n, f)
    decreases n
  {
    SectionsFine(data, n);
    if n == 0 {
      NoSectionTaken(data, f);
    } else {
      SectionsTaken(data, n - 1, f);
      AgreeMore(data, n - 1, f);
    }
  }

  /** An image that is moved is relocated exactly when a loaded section has relocations and all relocations are fine;
      one that is not moved always is. */
  lemma RelocatedExactly(data: seq<Byte>, f: Frame)
    requires |data| >= 52 && HasTables(data) && SectionsFit(data) && Placed(f)
    requires forall i :: 0 <= i < U16(data, 48) ==> SectionFine(data, i)
    ensures InspectSections(data).Ok?
    ensures Plan(data, f).Ok?
       <==> f.bias == 0 || (SomeRelocates(data, U16(data, 48))
                            && RelocationsFine(data, U16(data, 48), f.minimum, f.maximum))
  {
    TablesAre(data);
    SectionsFine(data, U16(data, 48));
    SectionsTaken(data, U16(data, 48), f);
  }
}
