/** Which notes loader/elf_loader.c takes: they fill their section, and at most one of them is the system's own. */
module ElfNotes {
  import opened ElfAccepts
  import opened ElfSpec
  import opened ElfWords

  /** Where the next note is. */
  function NextNote(data: seq<Byte>, start: nat, cursor: nat): nat
    requires start + cursor + 8 <= |data|
  {
    cursor + 12 + Rounded(U32(data, start + cursor)) + Rounded(U32(data, start + cursor + 4))
  }

  /** The notes from `cursor` on fill what is left of the section. */
  predicate Fills(data: seq<Byte>, start: nat, size: nat, cursor: nat)
    requires start + size <= |data|
    decreases size - cursor
  {
    cursor >= size
    || (cursor + 12 <= size && NextNote(data, start, cursor) <= size
        && Fills(data, start, size, NextNote(data, start, cursor)))
  }

  /** A note of the system that asks for something it may have. */
  predicate Asks(data: seq<Byte>, note: nat) {
    note + 52 <= |data|
    && Describes(data, note, Metadata(3, U32(data, note + 32), U32(data, note + 36), U32(data, note + 40), true))
  }

  /** A note of the system stands at `at`. */
  predicate Stands(data: seq<Byte>, start: nat, size: nat, cursor: nat, at: nat)
    requires start + size <= |data|
  {
    NoteAt(data, start, size, cursor, at) && OfTabOs(data, start + at)
  }

  /** The notes from `cursor` on can be taken, when one of the system may have been seen before. */
  ghost predicate Takes(data: seq<Byte>, start: nat, size: nat, cursor: nat, seen: bool)
    requires start + size <= |data|
  {
    && Fills(data, start, size, cursor)
    && (forall at :: Stands(data, start, size, cursor, at) ==> !seen && Asks(data, start + at))
    && (forall at, other :: Stands(data, start, size, cursor, at) && Stands(data, start, size, cursor, other) ==>
          other == at)
  }

  lemma NoteTaken(data: seq<Byte>, note: nat, so: Metadata, nameSize: nat, descSize: nat)
    requires note + NOTE_HEADER + AlignFour(nameSize) + AlignFour(descSize) <= |data|
    requires nameSize == U32(data, note) && descSize == U32(data, note + 4)
    ensures ReadNote(data, note, so, nameSize, descSize).Ok?
       <==> (OfTabOs(data, note) ==> !so.present && Asks(data, note))
    ensures ReadNote(data, note, so, nameSize, descSize).Ok? ==>
              ReadNote(data, note, so, nameSize, descSize).value.present == (so.present || OfTabOs(data, note))
  {
    if nameSize == 6 {
      assert data[note + 12..note + 18]
          == [data[note + 12], data[note + 13], data[note + 14], data[note + 15], data[note + 16], data[note + 17]];
    }
  }

  lemma {:induction false} Onwards(data: seq<Byte>, start: nat, size: nat, cursor: nat, at: nat)
    requires start + size <= |data| && NoteAt(data, start, size, cursor, at)
    ensures at >= cursor
    decreases size - cursor
  {
    if at != cursor {
      Onwards(data, start, size, NextNote(data, start, cursor), at);
    }
  }

  lemma StandsHereOrLater(data: seq<Byte>, start: nat, size: nat, cursor: nat, at: nat)
    requires start + size <= |data| && cursor + 12 <= size
    ensures var after := NextNote(data, start, cursor);
            && (Stands(data, start, size, cursor, at)
                <==> (at == cursor && OfTabOs(data, start + cursor)) || Stands(data, start, size, after, at))
            && (Stands(data, start, size, after, at) ==> at != cursor)
  {
    if NoteAt(data, start, size, NextNote(data, start, cursor), at) {
      Onwards(data, start, size, NextNote(data, start, cursor), at);
    }
  }

  /** One note more. */
  lemma TakesMore(data: seq<Byte>, start: nat, size: nat, cursor: nat, seen: bool)
    requires start + size <= |data| && cursor + 12 <= size && NextNote(data, start, cursor) <= size
    ensures Takes(data, start, size, cursor, seen)
       <==> && (OfTabOs(data, start + cursor) ==> !seen && Asks(data, start + cursor))
            && Takes(data, start, size, NextNote(data, start, cursor), seen || OfTabOs(data, start + cursor))
  {
    var after := NextNote(data, start, cursor);
    forall at: nat
      ensures Stands(data, start, size, cursor, at)
         <==> (at == cursor && OfTabOs(data, start + cursor)) || Stands(data, start, size, after, at)
      ensures Stands(data, start, size, after, at) ==> at != cursor
    {
      StandsHereOrLater(data, start, size, cursor, at);
    }
    if OfTabOs(data, start + cursor) {
      assert Stands(data, start, size, cursor, cursor);
    }
  }

  lemma TakesNone(data: seq<Byte>, start: nat, size: nat, cursor: nat, seen: bool)
    requires start + size <= |data| && cursor >= size
    ensures Takes(data, start, size, cursor, seen)
  {
  }

  /** One note of a walk, and what the metadata are after it. */
  lemma StepTaken(data: seq<Byte>, start: nat, size: nat, cursor: nat, so: Metadata, sizes: nat)
    returns (next: Metadata)
    requires start + size <= |data| && size <= UINT32_MAX < sizes && cursor < size
    ensures cursor + 12 > size || NextNote(data, start, cursor) > size ==>
              WalkNotes(data, start, size, cursor, so, sizes).Failed?
    ensures cursor + 12 <= size && NextNote(data, start, cursor) <= size ==>
              if OfTabOs(data, start + cursor) ==> !so.present && Asks(data, start + cursor) then
                && next.present == (so.present || OfTabOs(data, start + cursor))
                && WalkNotes(data, start, size, cursor, so, sizes)
                   == WalkNotes(data, start, size, NextNote(data, start, cursor), next, sizes)
              else WalkNotes(data, start, size, cursor, so, sizes).Failed?
  {
    next := so;
    if cursor + 12 <= size {
      var note := start + cursor;
      var nameSize, descSize := U32(data, note), U32(data, note + 4);
      RoundedIs(nameSize);
      RoundedIs(descSize);
      if NextNote(data, start, cursor) <= size {
        NoteTaken(data, note, so, nameSize, descSize);
        var read := ReadNote(data, note, so, nameSize, descSize);
        next := if read.Ok? then read.value else so;
      }
    }
  }

  /** A section's notes are taken exactly when they fill it and at most one, well formed, is the system's own. */
  lemma {:induction false} NotesTaken(data: seq<Byte>, start: nat, size: nat, cursor: nat, so: Metadata, sizes: nat)
    requires start + size <= |data| && size <= UINT32_MAX < sizes
    ensures WalkNotes(data, start, size, cursor, so, sizes).Ok? <==> Takes(data, start, size, cursor, so.present)
    decreases size - cursor
  {
    if cursor >= size {
      TakesNone(data, start, size, cursor, so.present);
    } else {
      var next := StepTaken(data, start, size, cursor, so, sizes);
      if cursor + 12 <= size && NextNote(data, start, cursor) <= size {
        TakesMore(data, start, size, cursor, so.present);
        if OfTabOs(data, start + cursor) ==> !so.present && Asks(data, start + cursor) {
          NotesTaken(data, start, size, NextNote(data, start, cursor), next, sizes);
        }
      }
    }
  }

  // ----- All sections -----

  /** The notes of a section fill it, and those of the system in it ask for what they may have. */
  ghost predicate SectionNotesFine(data: seq<Byte>, i: nat)
    requires |data| >= 52 && HasTables(data) && i < U16(data, 48)
  {
    var start, size := U32(data, HeaderAt(data, i) + 16), U32(data, HeaderAt(data, i) + 20);
    U32(data, HeaderAt(data, i) + 4) == 7 ==>
      && start + size <= |data| && Fills(data, start, size, 0)
      && forall at :: SystemNote(data, i, at) ==> Asks(data, start + at)
  }

  ghost predicate OneIn(data: seq<Byte>, i: nat)
    requires |data| >= 52 && HasTables(data) && i < U16(data, 48)
  {
    forall at, other :: SystemNote(data, i, at) && SystemNote(data, i, other) ==> other == at
  }

  /** At most one note in the first sections is the system's own. */
  ghost predicate OneBefore(data: seq<Byte>, n: nat)
    requires |data| >= 52 && HasTables(data) && n <= U16(data, 48)
  {
    forall i, j, at, other :: 0 <= i < n && 0 <= j < n && SystemNote(data, i, at) && SystemNote(data, j, other) ==>
      j == i && other == at
  }

  ghost predicate NotesFine(data: seq<Byte>, n: nat)
    requires |data| >= 52 && HasTables(data) && n <= U16(data, 48)
  {
    (forall i :: 0 <= i < n ==> SectionNotesFine(data, i)) && OneBefore(data, n)
  }

  lemma SectionNotesTaken(data: seq<Byte>, i: nat, so: Metadata, sizes: nat)
    requires |data| >= 52 && HasTables(data) && SectionsFit(data) && i < U16(data, 48) && UINT32_MAX < sizes
    ensures WalkSection(data, SectionAt(data, i), so, sizes).Ok?
       <==> SectionNotesFine(data, i) && OneIn(data, i) && (so.present ==> NoneIn(data, i))
  {
    SectionFields(data, i);
    var s := SectionAt(data, i);
    if s.kind == SECTION_NOTE && RangeValid(s.offset, s.size, |data|) {
      NotesTaken(data, s.offset, s.size, 0, so, sizes);
      TakesIs(data, i, s, so.present);
    }
  }

  lemma TakesIs(data: seq<Byte>, i: nat, s: Section, seen: bool)
    requires |data| >= 52 && HasTables(data) && i < U16(data, 48)
    requires s.offset == U32(data, HeaderAt(data, i) + 16) && s.size == U32(data, HeaderAt(data, i) + 20)
    requires s.kind == U32(data, HeaderAt(data, i) + 4) == 7 && s.offset + s.size <= |data|
    ensures Takes(data, s.offset, s.size, 0, seen)
       <==> SectionNotesFine(data, i) && OneIn(data, i) && (seen ==> NoneIn(data, i))
  {
    forall at: nat ensures SystemNote(data, i, at) <==> Stands(data, s.offset, s.size, 0, at) {
    }
  }

  lemma NotesFineMore(data: seq<Byte>, n: nat)
    requires |data| >= 52 && HasTables(data) && n < U16(data, 48)
    ensures NotesFine(data, n + 1)
       <==> && NotesFine(data, n) && SectionNotesFine(data, n) && OneIn(data, n)
            && (NoneBefore(data, n) || NoneIn(data, n))
  {
    if OneBefore(data, n + 1) && !NoneBefore(data, n) {
      var i, at :| 0 <= i < n && SystemNote(data, i, at);
      assert NoneIn(data, n);
    }
  }

  lemma SeenIs(data: seq<Byte>, n: nat, so: Metadata)
    requires |data| >= 52 && HasTables(data) && n <= U16(data, 48) && NotesSay(data, n, so)
    ensures so.present <==> !NoneBefore(data, n)
  {
    if !NoneBefore(data, n) {
      var i, at :| OnlyNote(data, n, i, at, so);
    }
  }

  lemma LastTaken(data: seq<Byte>, n: nat, sizes: nat)
    requires |data| >= 52 && HasTables(data) && SectionsFit(data) && n < U16(data, 48) && UINT32_MAX < sizes
    requires InspectMetadata(data, n, sizes).Ok? <==> NotesFine(data, n)
    ensures InspectMetadata(data, n + 1, sizes).Ok? <==> NotesFine(data, n + 1)
  {
    NotesFineMore(data, n);
    if InspectMetadata(data, n, sizes).Ok? {
      var so := InspectMetadata(data, n, sizes).value;
      NotesAre(data, n, sizes);
      SeenIs(data, n, so);
      SectionNotesTaken(data, n, so, sizes);
    }
  }

  lemma {:induction false} AllNotesTaken(data: seq<Byte>, n: nat, sizes: nat)
    requires |data| >= 52 && HasTables(data) && SectionsFit(data) && n <= U16(data, 48) && UINT32_MAX < sizes
    ensures InspectMetadata(data, n, sizes).Ok? <==> NotesFine(data, n)
    decreases n
  {
    if n > 0 {
      AllNotesTaken(data, n - 1, sizes);
      LastTaken(data, n - 1, sizes);
    }
  }

  // ----- The whole file -----

  /** A file is taken exactly when it is an executable for the machine, its tables lie in it, its sections, its notes
      and its program headers are fine, the entry point lies in an executable segment, and the image is small enough. */
  lemma TakenExactly(data: seq<Byte>, sizes: nat)
    requires UINT32_MAX < sizes
    ensures Inspect(data, sizes).Ok?
       <==> && IsRiscvExecutable(data) && HasTables(data)
            && (forall i :: 0 <= i < U16(data, 48) ==> SectionFine(data, i))
            && NotesFine(data, U16(data, 48))
            && (forall i :: 0 <= i < U16(data, 44) ==> ProgramFine(data, i))
            && (exists i :: HoldsEntry(data, i)) && SpanFine(data)
  {
    PartsTaken(data, sizes);
    if |data| >= 52 && HasTables(data) {
      TablesAre(data);
      AllNotesTaken(data, U16(data, 48), sizes);
    }
  }
}
