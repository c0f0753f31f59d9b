/** Relocating a loaded image in loader/elf_loader.c: which words are patched, with what, and nothing else. */
module ElfRelocate {
  import opened ElfSpec
  import opened ElfRelocation

  const SECTION_SYMBOLS: nat := 2
  const SYMBOL_SIZE: nat := 16
  const SYMBOL_UNDEFINED: nat := 0
  const SYMBOL_ABSOLUTE: nat := 0xFFF1
  const TYPE_WORD: nat := 1
  const TYPE_HI20: nat := 26
  const TYPE_LO12_I: nat := 27
  const TYPE_LO12_S: nat := 28

  /** Relocations relative to the instruction itself need no change. */
  predicate Relative(kind: nat) {
    kind == 0 || (16 <= kind <= 19) || (23 <= kind <= 25) || kind == 51
  }

  predicate Absolute(kind: nat) {
    kind == TYPE_WORD || kind == TYPE_HI20 || kind == TYPE_LO12_I || kind == TYPE_LO12_S
  }

  /** The parts of a section header that relocation reads besides those of an inspection. */
  datatype Links = Links(flags: nat, symbols: nat, target: nat)

  function LinksAt(data: seq<Byte>, i: nat): Links
    requires HasHeader(data) && SectionsFit(data) && i < SectionCount(data)
  {
    var at := U32(data, 32) + i * SECTION_SIZE;
    Links(U32(data, at + 8), U32(data, at + 24), U32(data, at + 28))
  }

  predicate Allocated(flags: nat) {
    flags / 2 % 2 == 1
  }

  /** A word to be patched. */
  datatype Patch = Patch(address: nat, kind: nat, value: nat)

  /** What an image is relocated by, and where it lies. */
  datatype Frame = Frame(bias: nat, minimum: nat, maximum: nat, sizes: nat)

  predicate Framed(f: Frame) {
    f.minimum < f.maximum < WORD <= f.sizes
  }

  /** An image that ends where the source's test of a target does not wrap. */
  predicate Placed(f: Frame) {
    Framed(f) && f.maximum >= 4
  }

  function SignedWord(n: nat): int {
    if n < 0x8000_0000 then n else n - WORD
  }

  // ----- One entry -----

  /** The patch an entry asks for, none, or a refusal. */
  function EntryPatch(data: seq<Byte>, at: nat, symbols: Section, f: Frame): Result<seq<Patch>>
    requires HasHeader(data) && at + RELA_SIZE <= |data| && symbols.offset + symbols.size <= |data| && f.sizes > 4
  {
    var target, info := U32(data, at), U32(data, at + 4);
    var kind, index := info % 0x100, info / 0x100;
    if Relative(kind) then Ok([])
    else if !Absolute(kind) || !Accepted(target, f.minimum, f.maximum, f.sizes) || index >= symbols.size / SYMBOL_SIZE
    then Failed(UnsupportedRelocation)
    else SymbolPatch(data, symbols.offset + index * SYMBOL_SIZE, target, kind, SignedWord(U32(data, at + 8)), f)
  }

  function SymbolPatch(data: seq<Byte>, symbol: nat, target: nat, kind: nat, addend: int, f: Frame): Result<seq<Patch>>
    requires HasHeader(data) && symbol + SYMBOL_SIZE <= |data|
  {
    var section := U16(data, symbol + 14);
    if section == SYMBOL_UNDEFINED || (section >= SectionCount(data) && section != SYMBOL_ABSOLUTE)
    then Failed(UnsupportedRelocation)
    else
      var bias := if section == SYMBOL_ABSOLUTE then 0 else f.bias;
      Ok([Patch(target, kind, Value(bias, U32(data, symbol + 4), addend))])
  }

  function Join(a: Result<seq<Patch>>, b: Result<seq<Patch>>): Result<seq<Patch>> {
    if a.Failed? then a else if b.Failed? then b else Ok(a.value + b.value)
  }

  /** The patches of the first `n` entries of a relocation section. */
  function EntryPatches(data: seq<Byte>, s: Section, n: nat, symbols: Section, f: Frame): Result<seq<Patch>>
    requires HasHeader(data) && s.offset + s.size <= |data| && n * RELA_SIZE <= s.size
    requires symbols.offset + symbols.size <= |data| && f.sizes > 4
  {
    if n == 0 then Ok([])
    else
      Join(EntryPatches(data, s, n - 1, symbols, f),
           EntryPatch(data, s.offset + (n - 1) * RELA_SIZE, symbols, f))
  }

  // ----- Sections -----

  /** The symbol table a section is relocated by, none when it is passed over, or a refusal; and whether the
      section counts as one with relocations. */
  function SymbolsOf(data: seq<Byte>, i: nat): (r: (Result<seq<Section>>, bool))
    requires HasHeader(data) && SectionsFit(data) && i < SectionCount(data)
    ensures r.0.Ok? && r.0.value != [] ==>
              SectionAt(data, i).kind == SECTION_RELA && r.0.value[0].offset + r.0.value[0].size <= |data|
  {
    var s, links := SectionAt(data, i), LinksAt(data, i);
    if s.kind != SECTION_RELA then (Ok([]), false)
    else if links.target >= SectionCount(data) then (Failed(UnsupportedRelocation), false)
    else if !Allocated(LinksAt(data, links.target).flags) then (Ok([]), false)
    else if links.symbols >= SectionCount(data) then (Failed(UnsupportedRelocation), true)
    else
      var symbols := SectionAt(data, links.symbols);
      if symbols.kind != SECTION_SYMBOLS || symbols.entrySize != SYMBOL_SIZE then (Failed(UnsupportedRelocation), true)
      else if symbols.size == 0 || symbols.size % SYMBOL_SIZE != 0 || !RangeValid(symbols.offset, symbols.size, |data|)
      then (Failed(Truncated), true)
      else (Ok([symbols]), true)
  }

  /** The patches of a section, and whether it counts as one with relocations. */
  function SectionPatches(data: seq<Byte>, i: nat, f: Frame): (Result<seq<Patch>>, bool)
    requires HasHeader(data) && SectionsFit(data) && i < SectionCount(data) && f.sizes > 4
    requires CheckSection(SectionAt(data, i), |data|).Ok?
  {
    var s, (symbols, counts) := SectionAt(data, i), SymbolsOf(data, i);
    if symbols.Failed? then (Failed(symbols.error), counts)
    else if symbols.value == [] then (Ok([]), counts)
    else (EntryPatches(data, s, s.size / RELA_SIZE, symbols.value[0], f), counts)
  }

  lemma {:induction false} SectionChecked(data: seq<Byte>, n: nat, i: nat)
    requires HasHeader(data) && SectionsFit(data) && i < n <= SectionCount(data) && CheckSections(data, n).Ok?
    ensures CheckSection(SectionAt(data, i), |data|).Ok?
  {
    if i < n - 1 {
      SectionChecked(data, n - 1, i);
    }
  }

  /** The patches of the first `n` sections, and whether any section counted. */
  function AllPatches(data: seq<Byte>, n: nat, f: Frame): (Result<seq<Patch>>, bool)
    requires HasHeader(data) && SectionsFit(data) && n <= SectionCount(data) && f.sizes > 4
    requires CheckSections(data, n).Ok?
  {
    if n == 0 then (Ok([]), false)
    else
      SectionChecked(data, n, n - 1);
      var before, next := AllPatches(data, n - 1, f), SectionPatches(data, n - 1, f);
      (Join(before.0, next.0), before.1 || next.1)
  }

  /** apply_relocations: nothing to do without a bias; otherwise some section must have relocations. */
  function Plan(data: seq<Byte>, f: Frame): Result<seq<Patch>>
    requires HasHeader(data) && InspectSections(data).Ok? && f.sizes > 4
  {
    var all := AllPatches(data, SectionCount(data), f);
    if f.bias == 0 then Ok([])
    else if all.0.Ok? && !all.1 then Failed(UnsupportedRelocation)
    else all.0
  }

  // ----- Patching an image -----

  function ByteOf(word: nat, k: nat): Byte {
    if k == 0 then word % 0x100
    else if k == 1 then word / 0x100 % 0x100
    else if k == 2 then word / 0x1_0000 % 0x100
    else word / 0x100_0000 % 0x100
  }

  function PutWord(image: seq<Byte>, at: nat, word: nat): (r: seq<Byte>)
    requires at + 4 <= |image|
    ensures |r| == |image|
  {
    image[at := ByteOf(word, 0)][at + 1 := ByteOf(word, 1)][at + 2 := ByteOf(word, 2)][at + 3 := ByteOf(word, 3)]
  }

  /** What a patch makes of the word there was. */
  function PatchedWord(kind: nat, was: nat, value: nat): nat {
    if kind == TYPE_HI20 then Hi20(was, value)
    else if kind == TYPE_LO12_I then Lo12I(was, value)
    else if kind == TYPE_LO12_S then Lo12S(was, value)
    else value
  }

  /** The word of a patch lies in the image. */
  predicate Fits(p: Patch, minimum: nat, size: nat) {
    minimum <= p.address && p.address + 4 <= minimum + size
  }

  predicate AllFit(patches: seq<Patch>, minimum: nat, size: nat) {
    forall k :: 0 <= k < |patches| ==> Fits(patches[k], minimum, size)
  }

  function PatchOne(image: seq<Byte>, minimum: nat, p: Patch): (r: seq<Byte>)
    requires Fits(p, minimum, |image|)
    ensures |r| == |image|
  {
    PutWord(image, p.address - minimum, PatchedWord(p.kind, U32(image, p.address - minimum), p.value))
  }

  function PatchAll(image: seq<Byte>, minimum: nat, patches: seq<Patch>): (r: seq<Byte>)
    requires AllFit(patches, minimum, |image|)
    ensures |r| == |image|
  {
    if patches == [] then image
    else PatchOne(PatchAll(image, minimum, patches[..|patches| - 1]), minimum, patches[|patches| - 1])
  }

  lemma NextEntry(data: seq<Byte>, s: Section, n: nat, symbols: Section, f: Frame)
    requires HasHeader(data) && s.offset + s.size <= |data| && (n + 1) * RELA_SIZE <= s.size
    requires symbols.offset + symbols.size <= |data| && f.sizes > 4
    ensures EntryPatches(data, s, n + 1, symbols, f)
         == Join(EntryPatches(data, s, n, symbols, f), EntryPatch(data, s.offset + n * RELA_SIZE, symbols, f))
  {
  }

  lemma NextSection(data: seq<Byte>, n: nat, f: Frame)
    requires HasHeader(data) && SectionsFit(data) && n < SectionCount(data) && f.sizes > 4
    requires CheckSections(data, n).Ok? && CheckSections(data, n + 1).Ok?
    requires CheckSection(SectionAt(data, n), |data|).Ok?
    ensures var before, next := AllPatches(data, n, f), SectionPatches(data, n, f);
            AllPatches(data, n + 1, f) == (Join(before.0, next.0), before.1 || next.1)
  {
  }

  lemma JoinFits(a: Result<seq<Patch>>, b: Result<seq<Patch>>, minimum: nat, size: nat)
    requires a.Ok? ==> AllFit(a.value, minimum, size)
    requires b.Ok? ==> AllFit(b.value, minimum, size)
    ensures Join(a, b).Ok? ==> AllFit(Join(a, b).value, minimum, size)
  {
  }

  predicate Empty(patches: Result<seq<Patch>>) {
    patches.Ok? && |patches.value| == 0
  }

  lemma JoinEmpty(a: Result<seq<Patch>>, b: Result<seq<Patch>>)
    requires Empty(Join(a, b))
    ensures Empty(a) && Empty(b)
  {
  }

  // ----- Every patch lies in the image -----

  lemma {:induction false} EntriesFit(data: seq<Byte>, s: Section, n: nat, symbols: Section, f: Frame)
    requires HasHeader(data) && s.offset + s.size <= |data| && n * RELA_SIZE <= s.size
    requires symbols.offset + symbols.size <= |data| && Placed(f)
    ensures EntryPatches(data, s, n, symbols, f).Ok? ==>
              AllFit(EntryPatches(data, s, n, symbols, f).value, f.minimum, f.maximum - f.minimum)
  {
    if n > 0 {
      EntriesFit(data, s, n - 1, symbols, f);
      EntryFits(data, s.offset + (n - 1) * RELA_SIZE, symbols, f);
    }
  }

  lemma EntryFits(data: seq<Byte>, at: nat, symbols: Section, f: Frame)
    requires HasHeader(data) && at + RELA_SIZE <= |data| && symbols.offset + symbols.size <= |data| && Placed(f)
    ensures EntryPatch(data, at, symbols, f).Ok? ==>
              AllFit(EntryPatch(data, at, symbols, f).value, f.minimum, f.maximum - f.minimum)
  {
    AcceptedIsInside(f.minimum, f.maximum, f.sizes);
  }

  lemma {:induction false} PatchesFit(data: seq<Byte>, n: nat, f: Frame)
    requires HasHeader(data) && SectionsFit(data) && n <= SectionCount(data) && CheckSections(data, n).Ok? && Placed(f)
    ensures AllPatches(data, n, f).0.Ok? ==> AllFit(AllPatches(data, n, f).0.value, f.minimum, f.maximum - f.minimum)
  {
    if n > 0 {
      SectionChecked(data, n, n - 1);
      PatchesFit(data, n - 1, f);
      SectionFits(data, n - 1, f);
      NextSection(data, n - 1, f);
      JoinFits(AllPatches(data, n - 1, f).0, SectionPatches(data, n - 1, f).0, f.minimum, f.maximum - f.minimum);
    }
  }

  lemma SectionFits(data: seq<Byte>, i: nat, f: Frame)
    requires HasHeader(data) && SectionsFit(data) && i < SectionCount(data) && Placed(f)
    requires CheckSection(SectionAt(data, i), |data|).Ok?
    ensures SectionPatches(data, i, f).0.Ok? ==>
              AllFit(SectionPatches(data, i, f).0.value, f.minimum, f.maximum - f.minimum)
  {
    var s, symbols := SectionAt(data, i), SymbolsOf(data, i).0;
    if symbols.Ok? && symbols.value != [] {
      EntriesFit(data, s, s.size / RELA_SIZE, symbols.value[0], f);
    }
  }

  /** Every word a relocation patches lies inside the image. */
  lemma PlanFits(data: seq<Byte>, f: Frame)
    requires HasHeader(data) && InspectSections(data).Ok? && Placed(f)
    ensures Plan(data, f).Ok? ==> AllFit(Plan(data, f).value, f.minimum, f.maximum - f.minimum)
  {
    PatchesFit(data, SectionCount(data), f);
  }

  // ----- What is patched at all -----

  predicate Quiet(patches: Result<seq<Patch>>) {
    patches.Failed? || Empty(patches)
  }

  /** No entry that is reached patches a word; an entry is reached when no earlier one is refused. */
  predicate EntriesQuiet(data: seq<Byte>, s: Section, n: nat, symbols: Section, f: Frame)
    requires HasHeader(data) && s.offset + s.size <= |data| && n * RELA_SIZE <= s.size
    requires symbols.offset + symbols.size <= |data| && f.sizes > 4
  {
    forall k :: 0 <= k < n && EntryPatches(data, s, k, symbols, f).Ok? ==>
      Quiet(EntryPatch(data, s.offset + k * RELA_SIZE, symbols, f))
  }

  predicate SectionQuiet(data: seq<Byte>, i: nat, f: Frame)
    requires HasHeader(data) && SectionsFit(data) && i < SectionCount(data) && f.sizes > 4
    requires CheckSection(SectionAt(data, i), |data|).Ok?
  {
    var s, symbols := SectionAt(data, i), SymbolsOf(data, i).0;
    symbols.Ok? && symbols.value != [] ==> EntriesQuiet(data, s, s.size / RELA_SIZE, symbols.value[0], f)
  }

  /** No word is patched before the file is relocated or refused. */
  predicate NothingPatched(data: seq<Byte>, f: Frame)
    requires HasHeader(data) && InspectSections(data).Ok? && f.sizes > 4
  {
    f.bias == 0
    || forall n ::
         0 <= n < SectionCount(data) && CheckSections(data, n).Ok? && CheckSection(SectionAt(data, n), |data|).Ok? ==>
           AllPatches(data, n, f).0.Ok? ==> SectionQuiet(data, n, f)
  }

  lemma {:induction false} NoPatchAt(data: seq<Byte>, s: Section, n: nat, symbols: Section, f: Frame, k: nat)
    requires HasHeader(data) && s.offset + s.size <= |data| && n * RELA_SIZE <= s.size && k < n
    requires symbols.offset + symbols.size <= |data| && f.sizes > 4
    requires Empty(EntryPatches(data, s, n, symbols, f))
    ensures Empty(EntryPatch(data, s.offset + k * RELA_SIZE, symbols, f))
  {
    NextEntry(data, s, n - 1, symbols, f);
    JoinEmpty(EntryPatches(data, s, n - 1, symbols, f), EntryPatch(data, s.offset + (n - 1) * RELA_SIZE, symbols, f));
    if k < n - 1 {
      NoPatchAt(data, s, n - 1, symbols, f, k);
    }
  }

  lemma NoPatchesQuiet(data: seq<Byte>, s: Section, n: nat, symbols: Section, f: Frame)
    requires HasHeader(data) && s.offset + s.size <= |data| && n * RELA_SIZE <= s.size
    requires symbols.offset + symbols.size <= |data| && f.sizes > 4
    requires Empty(EntryPatches(data, s, n, symbols, f))
    ensures EntriesQuiet(data, s, n, symbols, f)
  {
    forall k | 0 <= k < n ensures Empty(EntryPatch(data, s.offset + k * RELA_SIZE, symbols, f)) {
      NoPatchAt(data, s, n, symbols, f, k);
    }
  }

  lemma EmptySectionQuiet(data: seq<Byte>, i: nat, f: Frame)
    requires HasHeader(data) && SectionsFit(data) && i < SectionCount(data) && f.sizes > 4
    requires CheckSection(SectionAt(data, i), |data|).Ok? && Empty(SectionPatches(data, i, f).0)
    ensures SectionQuiet(data, i, f)
  {
    var s, symbols := SectionAt(data, i), SymbolsOf(data, i).0;
    if symbols.Ok? && symbols.value != [] {
      NoPatchesQuiet(data, s, s.size / RELA_SIZE, symbols.value[0], f);
    }
  }

  lemma LastSectionEmpty(data: seq<Byte>, n: nat, f: Frame)
    requires HasHeader(data) && SectionsFit(data) && n < SectionCount(data) && f.sizes > 4
    requires CheckSections(data, n + 1).Ok? && Empty(AllPatches(data, n + 1, f).0)
    ensures CheckSections(data, n).Ok? && Empty(AllPatches(data, n, f).0)
    ensures CheckSection(SectionAt(data, n), |data|).Ok? && Empty(SectionPatches(data, n, f).0)
  {
    SectionChecked(data, n + 1, n);
    NextSection(data, n, f);
    JoinEmpty(AllPatches(data, n, f).0, SectionPatches(data, n, f).0);
  }

  lemma {:induction false} NoPatchesBefore(data: seq<Byte>, n: nat, count: nat, f: Frame)
    requires HasHeader(data) && SectionsFit(data) && n <= count <= SectionCount(data) && f.sizes > 4
    requires CheckSections(data, count).Ok? && Empty(AllPatches(data, count, f).0)
    ensures CheckSections(data, n).Ok? && Empty(AllPatches(data, n, f).0)
    decreases count
  {
    if n < count {
      LastSectionEmpty(data, count - 1, f);
      NoPatchesBefore(data, n, count - 1, f);
    }
  }

  /** A plan without patches patches nothing. */
  lemma EmptyPlanQuiet(data: seq<Byte>, f: Frame)
    requires HasHeader(data) && InspectSections(data).Ok? && f.sizes > 4 && Plan(data, f) == Ok([])
    ensures NothingPatched(data, f)
  {
    if f.bias != 0 {
      forall n | 0 <= n < SectionCount(data) && CheckSection(SectionAt(data, n), |data|).Ok?
        ensures SectionQuiet(data, n, f)
      {
        NoPatchesBefore(data, n + 1, SectionCount(data), f);
        LastSectionEmpty(data, n, f);
        EmptySectionQuiet(data, n, f);
      }
    }
  }

  // ----- What patching changes -----

  predicate Covers(p: Patch, address: int) {
    p.address <= address < p.address + 4
  }

  /** A byte that no patch covers stays as it was loaded. */
  lemma {:induction false} UncoveredStays(image: seq<Byte>, minimum: nat, patches: seq<Patch>, i: nat)
    requires AllFit(patches, minimum, |image|) && i < |image|
    requires forall k :: 0 <= k < |patches| ==> !Covers(patches[k], minimum + i)
    ensures PatchAll(image, minimum, patches)[i] == image[i]
    decreases |patches|
  {
    if patches != [] {
      var n := |patches| - 1;
      UncoveredStays(image, minimum, patches[..n], i);
      assert !Covers(patches[n], minimum + i);
    }
  }

  lemma WordBytes(word: nat)
    requires word < WORD
    ensures ByteOf(word, 0) + ByteOf(word, 1) * 0x100 + ByteOf(word, 2) * 0x1_0000 + ByteOf(word, 3) * 0x100_0000
         == word
  {
    var q, r, s := word / 0x100, word / 0x1_0000, word / 0x100_0000;
    assert r == q / 0x100 && s == r / 0x100 && s < 0x100;
    assert word == word % 0x100 + q * 0x100 && q == q % 0x100 + r * 0x100 && r == r % 0x100 + s * 0x100;
  }

  lemma PutWordReads(image: seq<Byte>, at: nat, word: nat)
    requires at + 4 <= |image| && word < WORD
    ensures U32(PutWord(image, at, word), at) == word
  {
    WordBytes(word);
  }

  predicate Apart4(p: Patch, q: Patch) {
    p.address + 4 <= q.address || q.address + 4 <= p.address
  }

  lemma WordKept(image: seq<Byte>, minimum: nat, p: Patch, at: nat)
    requires Fits(p, minimum, |image|) && at + 4 <= |image|
    requires p.address + 4 <= minimum + at || minimum + at + 4 <= p.address
    ensures U32(PatchOne(image, minimum, p), at) == U32(image, at)
  {
  }

  lemma PatchedIsWord(kind: nat, was: nat, value: nat)
    requires value < WORD
    ensures PatchedWord(kind, was, value) < WORD
  {
    FieldsStay(was, value);
  }

  /** When the patched words do not overlap, each one ends up as its own patch of the word loaded there. */
  lemma {:induction false} EachWordPatched(image: seq<Byte>, minimum: nat, patches: seq<Patch>, k: nat)
    requires AllFit(patches, minimum, |image|) && k < |patches| && patches[k].value < WORD
    requires forall i, j :: 0 <= i < j < |patches| ==> Apart4(patches[i], patches[j])
    ensures var at := patches[k].address - minimum;
            U32(PatchAll(image, minimum, patches), at)
            == PatchedWord(patches[k].kind, U32(image, at), patches[k].value)
    decreases |patches|
  {
    var before, p := patches[..|patches| - 1], patches[|patches| - 1];
    if k < |before| {
      EachWordPatched(image, minimum, before, k);
      assert Apart4(patches[k], p);
      WordKept(PatchAll(image, minimum, before), minimum, p, before[k].address - minimum);
    } else {
      LastWordPatched(image, minimum, before, p);
    }
  }

  lemma LastWordPatched(image: seq<Byte>, minimum: nat, patches: seq<Patch>, p: Patch)
    requires AllFit(patches, minimum, |image|) && Fits(p, minimum, |image|) && p.value < WORD
    requires forall j :: 0 <= j < |patches| ==> Apart4(patches[j], p)
    ensures var at := p.address - minimum;
            U32(PatchOne(PatchAll(image, minimum, patches), minimum, p), at)
            == PatchedWord(p.kind, U32(image, at), p.value)
  {
    WordUntouched(image, minimum, patches, p.address - minimum);
    OwnWordPatched(PatchAll(image, minimum, patches), minimum, p);
  }

  lemma OwnWordPatched(image: seq<Byte>, minimum: nat, p: Patch)
    requires Fits(p, minimum, |image|) && p.value < WORD
    ensures var at := p.address - minimum;
            U32(PatchOne(image, minimum, p), at) == PatchedWord(p.kind, U32(image, at), p.value)
  {
    var at := p.address - minimum;
    PatchedIsWord(p.kind, U32(image, at), p.value);
    PutWordReads(image, at, PatchedWord(p.kind, U32(image, at), p.value));
  }

  lemma {:induction false} WordUntouched(image: seq<Byte>, minimum: nat, patches: seq<Patch>, at: nat)
    requires AllFit(patches, minimum, |image|) && at + 4 <= |image|
    requires forall k :: 0 <= k < |patches| ==>
               patches[k].address + 4 <= minimum + at || minimum + at + 4 <= patches[k].address
    ensures U32(PatchAll(image, minimum, patches), at) == U32(image, at)
    decreases |patches|
  {
    if patches != [] {
      var n := |patches| - 1;
      WordUntouched(image, minimum, patches[..n], at);
      WordKept(PatchAll(image, minimum, patches[..n]), minimum, patches[n], at);
    }
  }

  // ----- In the image's memory -----

  lemma {:induction false} PatchAppend(image: seq<Byte>, minimum: nat, a: seq<Patch>, b: seq<Patch>)
    requires AllFit(a, minimum, |image|) && AllFit(b, minimum, |image|)
    ensures PatchAll(image, minimum, a + b) == PatchAll(PatchAll(image, minimum, a), minimum, b)
    decreases |b|
  {
    if b == [] {
      assert a + b == a;
    } else {
      var n := |b| - 1;
      assert (a + b)[..|a + b| - 1] == a + b[..n];
      PatchAppend(image, minimum, a, b[..n]);
    }
  }

  /** write_u32. */
  method WriteWord(memory: array<Byte>, at: nat, word: nat)
    requires at + 4 <= memory.Length
    modifies memory
    ensures memory[..] == PutWord(old(memory[..]), at, word)
  {
    memory[at] := ByteOf(word, 0);
    memory[at + 1] := ByteOf(word, 1);
    memory[at + 2] := ByteOf(word, 2);
    memory[at + 3] := ByteOf(word, 3);
  }

  method PatchWord(memory: array<Byte>, minimum: nat, p: Patch)
    requires Fits(p, minimum, memory.Length)
    modifies memory
    ensures memory[..] == PatchOne(old(memory[..]), minimum, p)
  {
    var target := p.address - minimum;
    var instruction := U32(memory[..], target);
    if p.kind == TYPE_WORD {
      WriteWord(memory, target, p.value);
    } else if p.kind == TYPE_HI20 {
      WriteWord(memory, target, Hi20(instruction, p.value));
    } else if p.kind == TYPE_LO12_I {
      WriteWord(memory, target, Lo12I(instruction, p.value));
    } else if p.kind == TYPE_LO12_S {
      WriteWord(memory, target, Lo12S(instruction, p.value));
    } else {
      WriteWord(memory, target, p.value);
    }
  }

  /** What one entry does to the image. */
  method RelocateEntry(data: seq<Byte>, at: nat, symbols: Section, f: Frame, memory: array<Byte>)
    returns (r: Result<()>)
    requires HasHeader(data) && at + RELA_SIZE <= |data| && symbols.offset + symbols.size <= |data|
    requires Framed(f) && (Placed(f) || Quiet(EntryPatch(data, at, symbols, f)))
    requires memory.Length == f.maximum - f.minimum
    modifies memory
    ensures var patch := EntryPatch(data, at, symbols, f);
            if patch.Failed? then r == Failed(patch.error)
            else r == Ok(()) && Patched(old(memory[..]), memory[..], f.minimum, patch.value)
  {
    var patch := EntryPatch(data, at, symbols, f);
    if patch.Failed? {
      return Failed(patch.error);
    }
    if patch.value != [] {
      EntryFits(data, at, symbols, f);
      assert patch.value == [patch.value[0]] && patch.value[..0] == [];
      PatchWord(memory, f.minimum, patch.value[0]);
    }
    return Ok(());
  }

  /** The image holds what the patches make of it. */
  ghost predicate Patched(was: seq<Byte>, now: seq<Byte>, minimum: nat, patches: seq<Patch>) {
    AllFit(patches, minimum, |was|) && now == PatchAll(was, minimum, patches)
  }

  lemma PatchedMore(was: seq<Byte>, mid: seq<Byte>, now: seq<Byte>, minimum: nat, a: seq<Patch>, b: seq<Patch>)
    requires Patched(was, mid, minimum, a) && Patched(mid, now, minimum, b)
    ensures Patched(was, now, minimum, a + b)
  {
    PatchAppend(was, minimum, a, b);
  }

  /** One more entry of a relocation section. */
  method RelocateNext(data: seq<Byte>, s: Section, n: nat, symbols: Section, f: Frame, memory: array<Byte>,
                      ghost was: seq<Byte>)
    returns (r: Result<()>)
    requires HasHeader(data) && s.offset + s.size <= |data| && symbols.offset + symbols.size <= |data|
    requires Framed(f) && memory.Length == f.maximum - f.minimum && (n + 1) * RELA_SIZE <= s.size
    requires Placed(f) || Quiet(EntryPatch(data, s.offset + n * RELA_SIZE, symbols, f))
    requires EntryPatches(data, s, n, symbols, f).Ok?
    requires Patched(was, memory[..], f.minimum, EntryPatches(data, s, n, symbols, f).value)
    modifies memory
    ensures var all := EntryPatches(data, s, n + 1, symbols, f);
            if all.Failed? then r == Failed(all.error)
            else r == Ok(()) && Patched(was, memory[..], f.minimum, all.value)
  {
    ghost var mid := memory[..];
    NextEntry(data, s, n, symbols, f);
    r := RelocateEntry(data, s.offset + n * RELA_SIZE, symbols, f, memory);
    if r.Ok? {
      PatchedMore(was, mid, memory[..], f.minimum, EntryPatches(data, s, n, symbols, f).value,
                  EntryPatch(data, s.offset + n * RELA_SIZE, symbols, f).value);
    }
  }

  /** The entries of one relocation section. */
  method RelocateEntries(data: seq<Byte>, s: Section, symbols: Section, f: Frame, memory: array<Byte>)
    returns (r: Result<()>)
    requires HasHeader(data) && s.offset + s.size <= |data| && symbols.offset + symbols.size <= |data|
    requires Framed(f) && (Placed(f) || EntriesQuiet(data, s, s.size / RELA_SIZE, symbols, f))
    requires memory.Length == f.maximum - f.minimum
    modifies memory
    ensures var all := EntryPatches(data, s, s.size / RELA_SIZE, symbols, f);
            if all.Failed? then r == Failed(all.error)
            else r == Ok(()) && Patched(old(memory[..]), memory[..], f.minimum, all.value)
  {
    var count := s.size / RELA_SIZE;
    ghost var was := memory[..];
    for n := 0 to count
      invariant EntryPatches(data, s, n, symbols, f).Ok?
      invariant Patched(was, memory[..], f.minimum, EntryPatches(data, s, n, symbols, f).value)
    {
      r := RelocateNext(data, s, n, symbols, f, memory, was);
      if r.Failed? {
        FailedEntry(data, s, n + 1, count, symbols, f);
        return r;
      }
    }
    return Ok(());
  }

  /** One refused entry refuses the section. */
  lemma {:induction false} FailedEntry(data: seq<Byte>, s: Section, n: nat, count: nat, symbols: Section, f: Frame)
    requires HasHeader(data) && s.offset + s.size <= |data| && n <= count && count * RELA_SIZE <= s.size
    requires symbols.offset + symbols.size <= |data| && f.sizes > 4 && EntryPatches(data, s, n, symbols, f).Failed?
    ensures EntryPatches(data, s, count, symbols, f) == EntryPatches(data, s, n, symbols, f)
  {
    if n < count {
      FailedEntry(data, s, n, count - 1, symbols, f);
    }
  }

  /** One section of the table. */
  method RelocateSection(data: seq<Byte>, i: nat, f: Frame, memory: array<Byte>) returns (r: Result<()>, found: bool)
    requires HasHeader(data) && SectionsFit(data) && i < SectionCount(data) && Framed(f)
    requires CheckSection(SectionAt(data, i), |data|).Ok? && (Placed(f) || SectionQuiet(data, i, f))
    requires memory.Length == f.maximum - f.minimum
    modifies memory
    ensures var all := SectionPatches(data, i, f);
            && found == all.1
            && if all.0.Failed? then r == Failed(all.0.error)
               else r == Ok(()) && Patched(old(memory[..]), memory[..], f.minimum, all.0.value)
  {
    var s, links := SectionAt(data, i), LinksAt(data, i);
    if s.kind != SECTION_RELA {
      return Ok(()), false;
    }
    if links.target >= SectionCount(data) {
      return Failed(UnsupportedRelocation), false;
    }
    if !Allocated(LinksAt(data, links.target).flags) {
      return Ok(()), false;
    }
    found := true;
    if links.symbols >= SectionCount(data) {
      return Failed(UnsupportedRelocation), true;
    }
    var symbols := SectionAt(data, links.symbols);
    if symbols.kind != SECTION_SYMBOLS || symbols.entrySize != SYMBOL_SIZE {
      return Failed(UnsupportedRelocation), true;
    }
    if symbols.size == 0 || symbols.size % SYMBOL_SIZE != 0 || !RangeValid(symbols.offset, symbols.size, |data|) {
      return Failed(Truncated), true;
    }
    r := RelocateEntries(data, s, symbols, f, memory);
  }

  /** One more section of the table. */
  method RelocateNextSection(data: seq<Byte>, n: nat, f: Frame, memory: array<Byte>, ghost was: seq<Byte>)
    returns (r: Result<()>, counted: bool)
    requires HasHeader(data) && SectionsFit(data) && n < SectionCount(data) && Framed(f)
    requires CheckSections(data, n).Ok? && CheckSections(data, n + 1).Ok? && AllPatches(data, n, f).0.Ok?
    requires f.bias != 0 && InspectSections(data).Ok? && (Placed(f) || NothingPatched(data, f))
    requires memory.Length == f.maximum - f.minimum
    requires Patched(was, memory[..], f.minimum, AllPatches(data, n, f).0.value)
    modifies memory
    ensures var all := AllPatches(data, n + 1, f);
            && all.1 == (AllPatches(data, n, f).1 || counted)
            && if all.0.Failed? then r == Failed(all.0.error)
               else r == Ok(()) && Patched(was, memory[..], f.minimum, all.0.value)
  {
    SectionChecked(data, n + 1, n);
    NextSection(data, n, f);
    ghost var mid := memory[..];
    r, counted := RelocateSection(data, n, f, memory);
    if r.Ok? {
      PatchedMore(was, mid, memory[..], f.minimum, AllPatches(data, n, f).0.value, SectionPatches(data, n, f).0.value);
    }
  }

  /** apply_relocations: the image with every planned patch applied in order, or the refusal. */
  method Relocate(data: seq<Byte>, f: Frame, memory: array<Byte>) returns (r: Result<()>)
    requires HasHeader(data) && InspectSections(data).Ok? && Framed(f) && (Placed(f) || NothingPatched(data, f))
    requires memory.Length == f.maximum - f.minimum
    modifies memory
    ensures var plan := Plan(data, f);
            if plan.Failed? then r == Failed(plan.error)
            else r == Ok(()) && Patched(old(memory[..]), memory[..], f.minimum, plan.value)
  {
    if f.bias == 0 {
      return Ok(());
    }
    var found := false;
    var count := SectionCount(data);
    PrefixChecked(data, 0, count);
    ghost var was := memory[..];
    for n := 0 to count
      invariant CheckSections(data, n).Ok? && AllPatches(data, n, f).0.Ok? && found == AllPatches(data, n, f).1
      invariant Patched(was, memory[..], f.minimum, AllPatches(data, n, f).0.value)
    {
      PrefixChecked(data, n + 1, count);
      var section, counted := RelocateNextSection(data, n, f, memory, was);
      found := found || counted;
      if section.Failed? {
        FailedSection(data, n + 1, count, f);
        return section;
      }
    }
    return if found then Ok(()) else Failed(UnsupportedRelocation);
  }

  lemma {:induction false} PrefixChecked(data: seq<Byte>, n: nat, count: nat)
    requires HasHeader(data) && SectionsFit(data) && n <= count <= SectionCount(data) && CheckSections(data, count).Ok?
    ensures CheckSections(data, n).Ok?
    decreases count - n
  {
    if n < count {
      PrefixChecked(data, n, count - 1);
    }
  }

  /** One refused section refuses the whole table. */
  lemma {:induction false} FailedSection(data: seq<Byte>, n: nat, count: nat, f: Frame)
    requires HasHeader(data) && SectionsFit(data) && n <= count <= SectionCount(data) && CheckSections(data, count).Ok?
    requires CheckSections(data, n).Ok? && f.sizes > 4 && AllPatches(data, n, f).0.Failed?
    ensures AllPatches(data, count, f).0 == AllPatches(data, n, f).0
    decreases count - n
  {
    if n < count {
      PrefixChecked(data, count - 1, count);
      FailedSection(data, n, count - 1, f);
    }
  }
}
