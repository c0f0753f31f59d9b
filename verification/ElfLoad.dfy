/** Loading a file in loader/elf_loader.c: inspection, the copied image, and relocation together. */
module ElfLoad {
  import opened ElfRelocate
  import opened ElfRelocation
  import opened ElfSpec
  import Elf

  // ----- What is loaded -----

  /** What of an inspection relocation goes by; `bias` is where the image lies less where it was linked. */
  function FrameOf(info: Info, bias: nat, sizes: nat): Frame {
    Frame(bias, info.minimum, info.maximum, sizes)
  }

  /** The image as the segments leave it. */
  function Copied(data: seq<Byte>, minimum: nat, size: nat): (image: seq<Byte>)
    requires HasHeader(data) && ProgramsFit(data) && WalkSegments(data, ProgramCount(data)).Ok?
    ensures |image| == size
    ensures forall i :: 0 <= i < size ==> image[i] == ImageByte(data, ProgramCount(data), minimum + i)
  {
    seq<Byte>(size, i requires 0 <= i < size => ImageByte(data, ProgramCount(data), minimum + i))
  }

  lemma CopiedIs(data: seq<Byte>, minimum: nat, memory: array<Byte>)
    requires HasHeader(data) && ProgramsFit(data) && WalkSegments(data, ProgramCount(data)).Ok?
    requires forall i :: 0 <= i < memory.Length ==> memory[i] == ImageByte(data, ProgramCount(data), minimum + i)
    ensures memory[..] == Copied(data, minimum, memory.Length)
  {
  }

  /** The patches of a load. */
  function LoadPlan(data: seq<Byte>, sizes: nat, bias: nat): Result<seq<Patch>>
    requires UINT32_MAX < sizes && Inspect(data, sizes).Ok?
  {
    Plan(data, FrameOf(Inspect(data, sizes).value, bias, sizes))
  }

  lemma InspectedFrame(data: seq<Byte>, sizes: nat, bias: nat)
    requires UINT32_MAX < sizes && Inspect(data, sizes).Ok?
    ensures HasHeader(data) && InspectSections(data).Ok?
    ensures var f := FrameOf(Inspect(data, sizes).value, bias, sizes);
            && f.minimum < f.maximum < WORD && f.maximum - f.minimum == Inspect(data, sizes).value.imageSize
  {
    InspectedFits(data, sizes);
    var low, high := BoundsReached(data, ProgramCount(data));
    SegmentsWithin(data, ProgramCount(data), high);
  }

  /** Patches have a word inside the image exactly when the image ends at or above address 4, where the
      source's test of a target does not wrap, or there are none. */
  lemma PlanFitsExactly(data: seq<Byte>, sizes: nat, bias: nat)
    requires UINT32_MAX < sizes && Inspect(data, sizes).Ok? && LoadPlan(data, sizes, bias).Ok?
    ensures var info := Inspect(data, sizes).value;
            AllFit(LoadPlan(data, sizes, bias).value, info.minimum, info.imageSize)
            <==> info.maximum >= 4 || LoadPlan(data, sizes, bias).value == []
  {
    InspectedFrame(data, sizes, bias);
    var info := Inspect(data, sizes).value;
    var patches := LoadPlan(data, sizes, bias).value;
    if info.maximum >= 4 {
      PlanFits(data, FrameOf(info, bias, sizes));
    } else if patches != [] {
      assert !Fits(patches[0], info.minimum, info.imageSize);
    }
  }

  predicate Untouched(patches: seq<Patch>, address: int) {
    forall k :: 0 <= k < |patches| ==> !ElfRelocate.Covers(patches[k], address)
  }

  predicate Disjoint(patches: seq<Patch>) {
    forall i, j :: 0 <= i < j < |patches| ==> Apart4(patches[i], patches[j])
  }

  // ----- Every patch writes a word -----

  predicate AllWords(patches: seq<Patch>) {
    forall k :: 0 <= k < |patches| ==> patches[k].value < WORD
  }

  lemma JoinWords(a: Result<seq<Patch>>, b: Result<seq<Patch>>)
    requires a.Ok? ==> AllWords(a.value)
    requires b.Ok? ==> AllWords(b.value)
    ensures Join(a, b).Ok? ==> AllWords(Join(a, b).value)
  {
  }

  lemma {:induction false} EntryValues(data: seq<Byte>, s: Section, n: nat, symbols: Section, f: Frame)
    requires HasHeader(data) && s.offset + s.size <= |data| && n * RELA_SIZE <= s.size
    requires symbols.offset + symbols.size <= |data| && f.sizes > 4
    ensures EntryPatches(data, s, n, symbols, f).Ok? ==> AllWords(EntryPatches(data, s, n, symbols, f).value)
  {
    if n > 0 {
      EntryValues(data, s, n - 1, symbols, f);
    }
  }

  lemma SectionValues(data: seq<Byte>, i: nat, f: Frame)
    requires HasHeader(data) && SectionsFit(data) && i < SectionCount(data) && f.sizes > 4
    requires CheckSection(SectionAt(data, i), |data|).Ok?
    ensures SectionPatches(data, i, f).0.Ok? ==> AllWords(SectionPatches(data, i, f).0.value)
  {
    var s, symbols := SectionAt(data, i), SymbolsOf(data, i).0;
    if symbols.Ok? && symbols.value != [] {
      EntryValues(data, s, s.size / RELA_SIZE, symbols.value[0], f);
    }
  }

  lemma {:induction false} AllValues(data: seq<Byte>, n: nat, f: Frame)
    requires HasHeader(data) && SectionsFit(data) && n <= SectionCount(data) && f.sizes > 4
    requires CheckSections(data, n).Ok?
    ensures AllPatches(data, n, f).0.Ok? ==> AllWords(AllPatches(data, n, f).0.value)
  {
    if n > 0 {
      SectionChecked(data, n, n - 1);
      AllValues(data, n - 1, f);
      SectionValues(data, n - 1, f);
      NextSection(data, n - 1, f);
      JoinWords(AllPatches(data, n - 1, f).0, SectionPatches(data, n - 1, f).0);
    }
  }

  lemma PlanValues(data: seq<Byte>, f: Frame)
    requires HasHeader(data) && InspectSections(data).Ok? && f.sizes > 4
    ensures Plan(data, f).Ok? ==> AllWords(Plan(data, f).value)
  {
    AllValues(data, SectionCount(data), f);
  }

  // ----- The bytes of a loaded image -----

  /** `image` is `was` where no patch touches it; when the patched words do not overlap, each is its own patch
      of the word that was there. */
  ghost predicate LoadedFrom(was: seq<Byte>, image: seq<Byte>, minimum: nat, patches: seq<Patch>) {
    && |image| == |was| && AllFit(patches, minimum, |was|)
    && (forall i :: 0 <= i < |image| && Untouched(patches, minimum + i) ==> image[i] == was[i])
    && (Disjoint(patches) ==>
          forall k :: 0 <= k < |patches| ==>
            U32(image, patches[k].address - minimum)
            == PatchedWord(patches[k].kind, U32(was, patches[k].address - minimum), patches[k].value))
  }

  lemma PatchedIsLoadedFrom(was: seq<Byte>, image: seq<Byte>, minimum: nat, patches: seq<Patch>)
    requires Patched(was, image, minimum, patches) && AllWords(patches)
    ensures LoadedFrom(was, image, minimum, patches)
  {
    forall i | 0 <= i < |image| && Untouched(patches, minimum + i) ensures image[i] == was[i] {
      UncoveredStays(was, minimum, patches, i);
    }
    if Disjoint(patches) {
      forall k | 0 <= k < |patches|
        ensures U32(image, patches[k].address - minimum)
             == PatchedWord(patches[k].kind, U32(was, patches[k].address - minimum), patches[k].value)
      {
        EachWordPatched(was, minimum, patches, k);
      }
    }
  }

  // ----- Loading -----

  /** What the platform answers: whether there is memory, whether it can be prepared and finalized, and the
      bias between where the image lies and where it was linked. */
  datatype Platform = Platform(allocates: bool, prepares: bool, bias: nat, finalizes: bool)

  /** Every word that is patched lies in the image: the image ends where the source's test of a target does not
      wrap, or nothing is patched before the load succeeds or is refused. */
  predicate PatchesInside(data: seq<Byte>, sizes: nat, bias: nat)
    requires UINT32_MAX < sizes && Inspect(data, sizes).Ok?
  {
    var info := Inspect(data, sizes).value;
    info.maximum >= 4 || NothingPatched(data, FrameOf(info, bias, sizes))
  }

  /** In particular nothing is patched when the load plans no patch. */
  lemma NoPatchesInside(data: seq<Byte>, sizes: nat, bias: nat)
    requires UINT32_MAX < sizes && Inspect(data, sizes).Ok? && LoadPlan(data, sizes, bias) == Ok([])
    ensures PatchesInside(data, sizes, bias)
  {
    EmptyPlanQuiet(data, FrameOf(Inspect(data, sizes).value, bias, sizes));
  }

  /** `image` is the copied image with the planned words patched and nothing else. */
  ghost predicate Loaded(data: seq<Byte>, info: Info, image: seq<Byte>, plan: seq<Patch>) {
    && HasHeader(data) && ProgramsFit(data) && WalkSegments(data, ProgramCount(data)).Ok?
    && var copied := Copied(data, info.minimum, info.imageSize);
       Patched(copied, image, info.minimum, plan) && LoadedFrom(copied, image, info.minimum, plan)
  }

  lemma RelocatedIsLoaded(data: seq<Byte>, f: Frame, info: Info, image: seq<Byte>)
    requires HasHeader(data) && InspectSections(data).Ok? && f.sizes > 4 && f.minimum == info.minimum
    requires ProgramsFit(data) && WalkSegments(data, ProgramCount(data)).Ok? && Plan(data, f).Ok?
    requires Patched(Copied(data, info.minimum, info.imageSize), image, info.minimum, Plan(data, f).value)
    ensures Loaded(data, info, image, Plan(data, f).value)
  {
    PlanValues(data, f);
    PatchedIsLoadedFrom(Copied(data, info.minimum, info.imageSize), image, info.minimum, Plan(data, f).value);
  }

  /** loader_elf_load, up to the entry point that follows from the inspection: a loaded image has the bytes of
      its segments, with the words of its relocations patched and nothing else. */
  method Load(data: seq<Byte>, sizes: nat, platform: Platform) returns (r: Result<array<Byte>>)
    requires UINT32_MAX < sizes
    requires Inspect(data, sizes).Ok? ==> PatchesInside(data, sizes, platform.bias)
    ensures Inspect(data, sizes).Failed? ==> r == Failed(Inspect(data, sizes).error)
    ensures Inspect(data, sizes).Ok? ==>
              var info, plan := Inspect(data, sizes).value, LoadPlan(data, sizes, platform.bias);
              if !platform.allocates then r == Failed(NoExecutableMemory)
              else if !platform.prepares then r == Failed(PrepareFailed)
              else if plan.Failed? then r == Failed(plan.error)
              else if !platform.finalizes then r == Failed(PrepareFailed)
              else r.Ok? && fresh(r.value) && Loaded(data, info, r.value[..], plan.value)
  {
    var inspected := Elf.InspectFile(data, sizes);
    if inspected.Failed? {
      return Failed(inspected.error);
    }
    if !platform.allocates {
      return Failed(NoExecutableMemory);
    }
    r := LoadInspected(data, sizes, inspected.value, platform);
  }

  /** The image as the segments leave it, in fresh memory. */
  method CopyImage(data: seq<Byte>, minimum: nat, size: nat) returns (memory: array<Byte>)
    requires HasHeader(data) && ProgramsFit(data) && WalkSegments(data, ProgramCount(data)).Ok?
    requires var b := WalkSegments(data, ProgramCount(data)).value;
             minimum == b.minimum && size == b.maximum - b.minimum
    ensures fresh(memory) && memory[..] == Copied(data, minimum, size)
  {
    memory := new Byte[size];
    Elf.FillImage(data, minimum, memory);
    CopiedIs(data, minimum, memory);
  }

  method LoadInspected(data: seq<Byte>, sizes: nat, info: Info, platform: Platform) returns (r: Result<array<Byte>>)
    requires UINT32_MAX < sizes && Inspect(data, sizes) == Ok(info) && PatchesInside(data, sizes, platform.bias)
    ensures var plan := LoadPlan(data, sizes, platform.bias);
            if !platform.prepares then r == Failed(PrepareFailed)
            else if plan.Failed? then r == Failed(plan.error)
            else if !platform.finalizes then r == Failed(PrepareFailed)
            else r.Ok? && fresh(r.value) && Loaded(data, info, r.value[..], plan.value)
  {
    InspectedFits(data, sizes);
    var memory := CopyImage(data, info.minimum, info.imageSize);
    if !platform.prepares {
      return Failed(PrepareFailed);
    }
    ghost var f := FrameOf(info, platform.bias, sizes);
    InspectedFrame(data, sizes, platform.bias);
    var relocated := Relocate(data, FrameOf(info, platform.bias, sizes), memory);
    if relocated.Failed? {
      return Failed(relocated.error);
    }
    if !platform.finalizes {
      return Failed(PrepareFailed);
    }
    RelocatedIsLoaded(data, f, info, memory[..]);
    return Ok(memory);
  }

  // ----- A file whose patch lies outside its image -----

  /** The words of a file with one byte of memory at address 0, a table of three sections, and one relocation
      of the word at address 0. */
  function TinyWord(i: nat): (w: nat)
    ensures w < WORD
  {
    if i < 13 then HeaderWord(i)
    else if i < 21 then if i == 13 || i == 18 || i == 19 then 1 else 0
    else if i < 51 then TableWord(i)
    else if i == 52 then 1
    else if i == 57 then 0x1_0000
    else 0
  }

  function HeaderWord(i: nat): (w: nat)
    ensures w < WORD
  {
    if i == 0 then 0x464C_457F
    else if i == 1 then 0x1_0101
    else if i == 4 then 0xF3_0002
    else if i == 5 then 1
    else if i == 7 then 52
    else if i == 8 then 84
    else if i == 10 then 0x20_0034
    else if i == 11 then 0x28_0001
    else if i == 12 then 3
    else 0
  }

  function TableWord(i: nat): (w: nat)
    ensures w < WORD
  {
    if i == 22 then 1
    else if i == 23 || i == 37 || i == 42 then 2
    else if i == 32 then 4
    else if i == 35 then 204
    else if i == 36 || i == 40 then 12
    else if i == 45 then 216
    else if i == 46 || i == 50 then 16
    else 0
  }

  function TinyFile(): (data: seq<Byte>)
    ensures |data| == 232 && forall k :: 0 <= k < 232 ==> data[k] == ByteOf(TinyWord(k / 4), k % 4)
  {
    seq(232, k requires 0 <= k < 232 => ByteOf(TinyWord(k / 4), k % 4))
  }

  lemma BytesMake(d: seq<Byte>, at: nat, w: nat)
    requires at + 4 <= |d| && w < WORD && forall k :: 0 <= k < 4 ==> d[at + k] == ByteOf(w, k)
    ensures U32(d, at) == w && U16(d, at) == w % 0x1_0000 && U16(d, at + 2) == w / 0x1_0000
  {
    WordBytes(w);
    assert d[at + 0] == ByteOf(w, 0) && d[at + 1] == ByteOf(w, 1) && d[at + 2] == ByteOf(w, 2);
    assert d[at + 3] == ByteOf(w, 3);
    assert w % 0x1_0000 == w % 0x100 + w / 0x100 % 0x100 * 0x100;
  }

  lemma WordAt(d: seq<Byte>, word: nat -> nat, i: nat)
    requires |d| == 232 && i < 58 && word(i) < WORD
    requires forall k :: 0 <= k < 232 ==> d[k] == ByteOf(word(k / 4), k % 4)
    ensures U32(d, 4 * i) == word(i)
    ensures U16(d, 4 * i) == word(i) % 0x1_0000 && U16(d, 4 * i + 2) == word(i) / 0x1_0000
  {
    forall k | 0 <= k < 4 ensures d[4 * i + k] == ByteOf(word(i), k) {
      assert (4 * i + k) / 4 == i && (4 * i + k) % 4 == k;
    }
    BytesMake(d, 4 * i, word(i));
  }

  // The fields of such a file.

  predicate TinyHead(d: seq<Byte>) {
    && |d| == 232 && d[..7] == [0x7F, 69, 76, 70, 1, 1, 1]
    && U16(d, 16) == TYPE_EXECUTABLE && U16(d, 18) == MACHINE_RISCV && U32(d, 20) == 1 && U32(d, 24) == 0
    && U32(d, 28) == 52 && U32(d, 32) == 84 && U16(d, 40) == HEADER_SIZE && U16(d, 42) == PROGRAM_SIZE
    && U16(d, 44) == 1 && U16(d, 46) == SECTION_SIZE && U16(d, 48) == 3
  }

  predicate TinyProgram(d: seq<Byte>) {
    && |d| == 232 && U32(d, 52) == PROGRAM_LOAD && U32(d, 56) == 0 && U32(d, 60) == 0 && U32(d, 68) == 0
    && U32(d, 72) == 1 && U32(d, 76) == 1 && U32(d, 80) == 0
  }

  /** The section whose header is at `at`. */
  predicate TinySection(d: seq<Byte>, at: nat, s: Section, links: Links) {
    && at + SECTION_SIZE <= |d|
    && U32(d, at + 4) == s.kind && U32(d, at + 16) == s.offset && U32(d, at + 20) == s.size
    && U32(d, at + 36) == s.entrySize
    && U32(d, at + 8) == links.flags && U32(d, at + 24) == links.symbols && U32(d, at + 28) == links.target
  }

  const PLAIN := Section(1, 0, 0, 0)
  const RELOCATIONS := Section(SECTION_RELA, 204, 12, 12)
  const SYMBOLS := Section(SECTION_SYMBOLS, 216, 16, 16)

  predicate TinyTable(d: seq<Byte>) {
    && TinySection(d, 84, PLAIN, Links(2, 0, 0)) && TinySection(d, 124, RELOCATIONS, Links(0, 2, 0))
    && TinySection(d, 164, SYMBOLS, Links(0, 0, 0))
  }

  predicate TinyEntry(d: seq<Byte>) {
    |d| == 232 && U32(d, 204) == 0 && U32(d, 208) == 1 && U32(d, 212) == 0 && U32(d, 220) == 0 && U16(d, 230) == 1
  }

  lemma TinyMagic()
    ensures TinyFile()[..7] == [0x7F, 69, 76, 70, 1, 1, 1]
  {
    var d := TinyFile();
    assert d[0] == ByteOf(TinyWord(0), 0) == 0x7F && d[1] == ByteOf(TinyWord(0), 1) == 69;
    assert d[2] == ByteOf(TinyWord(0), 2) == 76 && d[3] == ByteOf(TinyWord(0), 3) == 70;
    assert d[4] == ByteOf(TinyWord(1), 0) == 1 && d[5] == ByteOf(TinyWord(1), 1) == 1;
    assert d[6] == ByteOf(TinyWord(1), 2) == 1;
  }

  /** The word at an offset, of a file that is only known by its words. */
  ghost predicate Holds(d: seq<Byte>, word: nat -> nat) {
    |d| == 232 &&
    forall i: nat {:trigger word(i)} :: i < 58 ==>
      U32(d, 4 * i) == word(i) && U16(d, 4 * i) == word(i) % 0x1_0000 && U16(d, 4 * i + 2) == word(i) / 0x1_0000
  }

  lemma TinyHolds()
    ensures Holds(TinyFile(), TinyWord)
  {
    forall i: nat | i < 58
      ensures U32(TinyFile(), 4 * i) == TinyWord(i) && U16(TinyFile(), 4 * i) == TinyWord(i) % 0x1_0000
           && U16(TinyFile(), 4 * i + 2) == TinyWord(i) / 0x1_0000
    {
      WordAt(TinyFile(), TinyWord, i);
    }
  }

  lemma HeadHolds(d: seq<Byte>, word: nat -> nat)
    requires Holds(d, word) && d[..7] == [0x7F, 69, 76, 70, 1, 1, 1]
    requires HeadWords(word)
    ensures TinyHead(d)
  {
  }

  lemma ProgramHolds(d: seq<Byte>, word: nat -> nat)
    requires Holds(d, word) && ProgramWords(word)
    ensures TinyProgram(d)
  {
  }

  lemma SectionHolds(d: seq<Byte>, word: nat -> nat, i: nat, s: Section, links: Links)
    requires Holds(d, word) && i + 10 <= 58 && WordsOf(word, i, s, links)
    ensures TinySection(d, 4 * i, s, links)
  {
  }

  lemma EntryHolds(d: seq<Byte>, word: nat -> nat)
    requires Holds(d, word) && EntryWords(word)
    ensures TinyEntry(d)
  {
  }

  // The words of the fields.

  predicate HeadWords(word: nat -> nat) {
    && word(4) == 0xF3_0002 && word(5) == 1 && word(6) == 0 && word(7) == 52 && word(8) == 84
    && word(10) == 0x20_0034 && word(11) == 0x28_0001 && word(12) == 3
  }

  predicate ProgramWords(word: nat -> nat) {
    word(13) == 1 && word(14) == 0 && word(15) == 0 && word(17) == 0 && word(18) == 1 && word(19) == 1 && word(20) == 0
  }

  predicate EntryWords(word: nat -> nat) {
    word(51) == 0 && word(52) == 1 && word(53) == 0 && word(55) == 0 && word(57) == 0x1_0000
  }

  predicate TinyWords(word: nat -> nat) {
    && HeadWords(word) && ProgramWords(word) && EntryWords(word)
    && WordsOf(word, 21, PLAIN, Links(2, 0, 0)) && WordsOf(word, 31, RELOCATIONS, Links(0, 2, 0))
    && WordsOf(word, 41, SYMBOLS, Links(0, 0, 0))
  }

  predicate WordsOf(word: nat -> nat, i: nat, s: Section, links: Links) {
    && word(i + 1) == s.kind && word(i + 4) == s.offset && word(i + 5) == s.size && word(i + 9) == s.entrySize
    && word(i + 2) == links.flags && word(i + 6) == links.symbols && word(i + 7) == links.target
  }

  lemma FieldsHold(d: seq<Byte>, word: nat -> nat)
    requires Holds(d, word) && TinyWords(word) && d[..7] == [0x7F, 69, 76, 70, 1, 1, 1]
    ensures TinyHead(d) && TinyProgram(d) && TinyTable(d) && TinyEntry(d)
  {
    HeadHolds(d, word);
    ProgramHolds(d, word);
    SectionHolds(d, word, 21, PLAIN, Links(2, 0, 0));
    SectionHolds(d, word, 31, RELOCATIONS, Links(0, 2, 0));
    SectionHolds(d, word, 41, SYMBOLS, Links(0, 0, 0));
    EntryHolds(d, word);
  }

  lemma TinyTableWords()
    ensures WordsOf(TinyWord, 21, PLAIN, Links(2, 0, 0)) && WordsOf(TinyWord, 31, RELOCATIONS, Links(0, 2, 0))
    ensures WordsOf(TinyWord, 41, SYMBOLS, Links(0, 0, 0))
  {
  }

  lemma TinyWordsHold()
    ensures TinyWords(TinyWord)
  {
    TinyTableWords();
    assert HeadWords(TinyWord) && ProgramWords(TinyWord) && EntryWords(TinyWord);
  }

  lemma TinyFields()
    ensures var d := TinyFile(); TinyHead(d) && TinyProgram(d) && TinyTable(d) && TinyEntry(d)
  {
    TinyHolds();
    TinyMagic();
    TinyWordsHold();
    FieldsHold(TinyFile(), TinyWord);
  }

  // What the loader makes of those fields.

  lemma TinyBounds(d: seq<Byte>)
    requires TinyHead(d) && TinyProgram(d)
    ensures ProgramsFit(d) && ProgramCount(d) == 1 && WalkSegments(d, 1) == Ok(Bounds(0, 1, true, 1))
  {
    var s := Segment(PROGRAM_LOAD, 0, 0, 0, 1, 1, 0);
    assert SegmentAt(d, 0) == s;
    assert ValidSegment(s, |d|);
    assert WalkSegments(d, 0) == Ok(Bounds(UINT32_MAX, 0, false, 0));
  }

  lemma SectionIs(d: seq<Byte>, i: nat, s: Section, links: Links)
    requires TinyHead(d) && i < 3 && TinySection(d, 84 + i * 40, s, links)
    ensures SectionsFit(d) && SectionCount(d) == 3 && SectionAt(d, i) == s && LinksAt(d, i) == links
  {
  }

  lemma TinySections(d: seq<Byte>, sizes: nat)
    requires TinyHead(d) && TinyTable(d) && UINT32_MAX < sizes
    ensures SectionsFit(d) && SectionCount(d) == 3
    ensures CheckSections(d, 0).Ok? && CheckSections(d, 1).Ok? && CheckSections(d, 2).Ok?
    ensures CheckSections(d, 3) == Ok(())
    ensures InspectMetadata(d, 3, sizes) == Ok(DEFAULTS)
    ensures SectionAt(d, 0) == PLAIN && SectionAt(d, 1) == RELOCATIONS && SectionAt(d, 2) == SYMBOLS
    ensures LinksAt(d, 0) == Links(2, 0, 0) && LinksAt(d, 1) == Links(0, 2, 0)
  {
    SectionIs(d, 0, PLAIN, Links(2, 0, 0));
    SectionIs(d, 1, RELOCATIONS, Links(0, 2, 0));
    SectionIs(d, 2, SYMBOLS, Links(0, 0, 0));
    NextChecked(d, 0, PLAIN, sizes);
    NextChecked(d, 1, RELOCATIONS, sizes);
    NextChecked(d, 2, SYMBOLS, sizes);
  }

  lemma NextChecked(d: seq<Byte>, n: nat, s: Section, sizes: nat)
    requires HasHeader(d) && SectionsFit(d) && n < SectionCount(d) && SectionAt(d, n) == s && UINT32_MAX < sizes
    requires s.kind != SECTION_NOTE && CheckSection(s, |d|) == Ok(())
    ensures CheckSections(d, n).Ok? ==> CheckSections(d, n + 1) == Ok(())
    ensures InspectMetadata(d, n + 1, sizes) == InspectMetadata(d, n, sizes)
  {
  }

  lemma TinyInspection(d: seq<Byte>, sizes: nat)
    requires TinyHead(d) && TinyProgram(d) && TinyTable(d) && UINT32_MAX < sizes
    ensures Inspect(d, sizes) == Ok(Info(0, 0, 1, 1, 1, DEFAULTS))
  {
    TinyBounds(d);
    TinySections(d, sizes);
  }

  lemma TinyPatch(d: seq<Byte>, f: Frame)
    requires TinyHead(d) && TinyEntry(d) && f.bias > 0 && f.minimum == 0 && f.maximum == 1 && f.sizes >= WORD
    ensures EntryPatch(d, 204, SYMBOLS, f) == Ok([Patch(0, TYPE_WORD, Value(f.bias, 0, 0))])
  {
  }

  lemma TinyRelocation(d: seq<Byte>, f: Frame)
    requires TinyHead(d) && TinyTable(d) && TinyEntry(d)
    requires f.bias > 0 && f.minimum == 0 && f.maximum == 1 && f.sizes >= WORD
    ensures SectionsFit(d) && SectionCount(d) == 3 && CheckSection(SectionAt(d, 1), |d|).Ok?
    ensures SectionPatches(d, 1, f) == (Ok([Patch(0, TYPE_WORD, Value(f.bias, 0, 0))]), true)
  {
    TinySections(d, f.sizes);
    TinyPatch(d, f);
    OnlyEntry(d, RELOCATIONS, SYMBOLS, f, [Patch(0, TYPE_WORD, Value(f.bias, 0, 0))]);
  }

  lemma OnlyEntry(d: seq<Byte>, s: Section, symbols: Section, f: Frame, patches: seq<Patch>)
    requires HasHeader(d) && s.offset + s.size <= |d| && s.size == RELA_SIZE
    requires symbols.offset + symbols.size <= |d| && f.sizes > 4
    requires EntryPatch(d, s.offset, symbols, f) == Ok(patches)
    ensures EntryPatches(d, s, s.size / RELA_SIZE, symbols, f) == Ok(patches)
  {
    assert EntryPatches(d, s, 0, symbols, f) == Ok([]);
    NextEntry(d, s, 0, symbols, f);
    assert [] + patches == patches;
  }

  lemma TinyPatches(d: seq<Byte>, f: Frame)
    requires TinyHead(d) && TinyTable(d) && TinyEntry(d)
    requires f.bias > 0 && f.minimum == 0 && f.maximum == 1 && f.sizes >= WORD
    ensures SectionsFit(d) && SectionCount(d) == 3 && CheckSections(d, 3).Ok?
    ensures AllPatches(d, 3, f) == (Ok([Patch(0, TYPE_WORD, Value(f.bias, 0, 0))]), true)
  {
    TinySections(d, f.sizes);
    TinyRelocation(d, f);
    OnlySection(d, f, [Patch(0, TYPE_WORD, Value(f.bias, 0, 0))]);
  }

  lemma OnlySection(d: seq<Byte>, f: Frame, patches: seq<Patch>)
    requires HasHeader(d) && SectionsFit(d) && SectionCount(d) == 3 && f.sizes > 4
    requires CheckSections(d, 0).Ok? && CheckSections(d, 1).Ok? && CheckSections(d, 2).Ok? && CheckSections(d, 3).Ok?
    requires CheckSection(SectionAt(d, 0), |d|).Ok? && SectionPatches(d, 0, f) == (Ok([]), false)
    requires CheckSection(SectionAt(d, 1), |d|).Ok? && SectionPatches(d, 1, f) == (Ok(patches), true)
    requires CheckSection(SectionAt(d, 2), |d|).Ok? && SectionPatches(d, 2, f) == (Ok([]), false)
    ensures AllPatches(d, 3, f) == (Ok(patches), true)
  {
    assert AllPatches(d, 0, f) == (Ok([]), false);
    NextSection(d, 0, f);
    NextSection(d, 1, f);
    NextSection(d, 2, f);
    assert [] + [] + patches + [] == patches;
  }

  /** A file that inspection accepts and relocation patches outside its one byte of memory: unless the image
      ends at or above address 4, a load has no meaning. */
  lemma TinyFilePatchesOutside(sizes: nat, bias: nat)
    requires UINT32_MAX < sizes && bias > 0
    ensures Inspect(TinyFile(), sizes).Ok? && LoadPlan(TinyFile(), sizes, bias).Ok?
    ensures var info := Inspect(TinyFile(), sizes).value;
            info.maximum < 4 && !AllFit(LoadPlan(TinyFile(), sizes, bias).value, info.minimum, info.imageSize)
  {
    TinyFields();
    OutsideWhenTiny(TinyFile(), sizes, bias);
  }

  lemma OutsideWhenTiny(d: seq<Byte>, sizes: nat, bias: nat)
    requires TinyHead(d) && TinyProgram(d) && TinyTable(d) && TinyEntry(d) && UINT32_MAX < sizes && bias > 0
    ensures Inspect(d, sizes).Ok? && LoadPlan(d, sizes, bias).Ok?
    ensures var info := Inspect(d, sizes).value;
            info.maximum < 4 && !AllFit(LoadPlan(d, sizes, bias).value, info.minimum, info.imageSize)
  {
    TinyInspection(d, sizes);
    TinyPatches(d, FrameOf(Info(0, 0, 1, 1, 1, DEFAULTS), bias, sizes));
    PlanFitsExactly(d, sizes, bias);
  }
}
