/** What the words of a loaded image hold after loader/elf_loader.c has relocated it, read off the bytes of the file. */
module ElfWords {
  import opened ElfLoad
  import opened ElfRelocate
  import opened ElfRelocation
  import opened ElfSpec

  // ----- The fields of a relocation, as the file has them -----

  /** Where the header of section i is. */
  function HeaderAt(data: seq<Byte>, i: nat): nat
    requires HasHeader(data)
  {
    U32(data, 32) + 40 * i
  }

  /** Section i relocates a section that is loaded. */
  predicate Relocates(data: seq<Byte>, i: nat)
    requires HasHeader(data) && SectionsFit(data)
  {
    && i < U16(data, 48) && U32(data, HeaderAt(data, i) + 4) == 4
    && var target := U32(data, HeaderAt(data, i) + 28);
       target < U16(data, 48) && U32(data, HeaderAt(data, target) + 8) / 2 % 2 == 1
  }

  /** It has an n-th entry, inside the file. */
  predicate HasEntry(data: seq<Byte>, i: nat, n: nat)
    requires HasHeader(data) && SectionsFit(data)
  {
    && Relocates(data, i) && 12 * (n + 1) <= U32(data, HeaderAt(data, i) + 20)
    && EntryAt(data, i, n) + 12 <= |data|
  }

  function EntryAt(data: seq<Byte>, i: nat, n: nat): nat
    requires HasHeader(data) && SectionsFit(data) && Relocates(data, i)
  {
    U32(data, HeaderAt(data, i) + 16) + 12 * n
  }

  function TargetOf(data: seq<Byte>, i: nat, n: nat): nat
    requires HasHeader(data) && SectionsFit(data) && HasEntry(data, i, n)
  {
    U32(data, EntryAt(data, i, n))
  }

  function KindOf(data: seq<Byte>, i: nat, n: nat): nat
    requires HasHeader(data) && SectionsFit(data) && HasEntry(data, i, n)
  {
    U32(data, EntryAt(data, i, n) + 4) % 0x100
  }

  /** Where the symbol an entry names is. */
  function SymbolAt(data: seq<Byte>, i: nat, n: nat): nat
    requires HasHeader(data) && SectionsFit(data) && HasEntry(data, i, n)
    requires U32(data, HeaderAt(data, i) + 24) < U16(data, 48)
  {
    var link, index := U32(data, HeaderAt(data, i) + 24), U32(data, EntryAt(data, i, n) + 4) / 0x100;
    U32(data, HeaderAt(data, link) + 16) + 16 * index
  }

  predicate HasSymbol(data: seq<Byte>, i: nat, n: nat)
    requires HasHeader(data) && SectionsFit(data) && HasEntry(data, i, n)
  {
    U32(data, HeaderAt(data, i) + 24) < U16(data, 48) && SymbolAt(data, i, n) + 16 <= |data|
  }

  /** What an entry refers to: the value of its symbol, moved with the image unless it is absolute, and the signed
      addend. */
  function Referred(data: seq<Byte>, i: nat, n: nat, bias: nat): int
    requires HasHeader(data) && SectionsFit(data) && HasEntry(data, i, n) && HasSymbol(data, i, n)
  {
    var addend := U32(data, EntryAt(data, i, n) + 8);
    U32(data, SymbolAt(data, i, n) + 4)
    + (if addend < 0x8000_0000 then addend else addend - 0x1_0000_0000)
    + (if U16(data, SymbolAt(data, i, n) + 14) == 0xFFF1 then 0 else bias)
  }

  /** The kinds that are relative to the place itself. */
  predicate StaysAsIs(kind: nat) {
    kind in [0, 16, 17, 18, 19, 23, 24, 25, 51]
  }

  // ----- Every entry has its patch -----

  lemma {:induction false} SectionInPlan(data: seq<Byte>, i: nat, count: nat, f: Frame)
    requires HasHeader(data) && SectionsFit(data) && i < count <= SectionCount(data) && f.sizes > 4
    requires CheckSections(data, count).Ok? && AllPatches(data, count, f).0.Ok?
    ensures CheckSection(SectionAt(data, i), |data|).Ok? && SectionPatches(data, i, f).0.Ok?
    ensures forall p :: p in SectionPatches(data, i, f).0.value ==> p in AllPatches(data, count, f).0.value
    decreases count
  {
    SectionChecked(data, count, count - 1);
    NextSection(data, count - 1, f);
    if i < count - 1 {
      SectionInPlan(data, i, count - 1, f);
    }
  }

  lemma {:induction false} EntryInSection(data: seq<Byte>, s: Section, n: nat, count: nat, symbols: Section, f: Frame)
    requires HasHeader(data) && s.offset + s.size <= |data| && n < count && count * RELA_SIZE <= s.size
    requires symbols.offset + symbols.size <= |data| && f.sizes > 4 && EntryPatches(data, s, count, symbols, f).Ok?
    ensures EntryPatch(data, s.offset + n * RELA_SIZE, symbols, f).Ok?
    ensures forall p :: p in EntryPatch(data, s.offset + n * RELA_SIZE, symbols, f).value ==>
              p in EntryPatches(data, s, count, symbols, f).value
    decreases count
  {
    NextEntry(data, s, count - 1, symbols, f);
    if n < count - 1 {
      EntryInSection(data, s, n, count - 1, symbols, f);
    }
  }

  /** Equal as 32-bit words. */
  predicate SameWord(a: int, b: int) {
    (a - b) % 0x1_0000_0000 == 0
  }

  lemma RemainderIsSame(x: int)
    ensures SameWord(x % WORD, x)
  {
    assert x % WORD - x == -(x / WORD) * WORD;
  }

  lemma SameTwice(a: int, b: int, c: int)
    requires SameWord(a, b) && SameWord(b, c)
    ensures SameWord(a, c)
  {
    assert a - c == (a - b) + (b - c);
  }

  lemma SectionFields(data: seq<Byte>, i: nat)
    requires HasHeader(data) && SectionsFit(data) && i < SectionCount(data)
    ensures HeaderAt(data, i) + 40 <= |data|
    ensures SectionAt(data, i) == Section(U32(data, HeaderAt(data, i) + 4), U32(data, HeaderAt(data, i) + 16),
                                          U32(data, HeaderAt(data, i) + 20), U32(data, HeaderAt(data, i) + 36))
    ensures LinksAt(data, i) == Links(U32(data, HeaderAt(data, i) + 8), U32(data, HeaderAt(data, i) + 24),
                                      U32(data, HeaderAt(data, i) + 28))
  {
  }

  /** The symbols of a section whose relocations are taken. */
  lemma SymbolsFound(data: seq<Byte>, i: nat)
    requires HasHeader(data) && SectionsFit(data) && Relocates(data, i) && SymbolsOf(data, i).0.Ok?
    ensures var link := U32(data, HeaderAt(data, i) + 24);
            link < SectionCount(data) && SymbolsOf(data, i).0.value == [SectionAt(data, link)]
  {
    SectionFields(data, i);
    SectionFields(data, U32(data, HeaderAt(data, i) + 28));
  }

  /** The patch of an entry that is not refused, from the fields of the entry and its symbol. */
  predicate PatchFor(data: seq<Byte>, i: nat, n: nat, bias: nat, p: Patch)
    requires HasHeader(data) && SectionsFit(data) && HasEntry(data, i, n)
  {
    && p.address == TargetOf(data, i, n) && p.kind == KindOf(data, i, n) && p.value < WORD
    && HasSymbol(data, i, n) && SameWord(p.value, Referred(data, i, n, bias))
  }

  lemma ValueIs(bias: nat, symbol: nat, addend: int)
    ensures SameWord(Value(bias, symbol, addend), symbol + addend + bias)
  {
    RemainderIsSame(bias + symbol + addend);
  }

  lemma EntryMeans(data: seq<Byte>, i: nat, n: nat, symbols: Section, f: Frame)
    requires HasHeader(data) && SectionsFit(data) && HasEntry(data, i, n) && f.sizes > 4
    requires symbols.offset + symbols.size <= |data| && U32(data, HeaderAt(data, i) + 24) < SectionCount(data)
    requires symbols.offset == U32(data, HeaderAt(data, U32(data, HeaderAt(data, i) + 24)) + 16)
    requires EntryPatch(data, EntryAt(data, i, n), symbols, f).Ok?
    ensures var patch := EntryPatch(data, EntryAt(data, i, n), symbols, f).value;
            if StaysAsIs(KindOf(data, i, n)) then patch == []
            else KindOf(data, i, n) in [1, 26, 27, 28] && |patch| == 1 && PatchFor(data, i, n, f.bias, patch[0])
  {
    var at := EntryAt(data, i, n);
    if !StaysAsIs(KindOf(data, i, n)) {
      var index := U32(data, at + 4) / 0x100;
      assert SymbolAt(data, i, n) == symbols.offset + index * SYMBOL_SIZE;
      var absolute := U16(data, SymbolAt(data, i, n) + 14) == 0xFFF1;
      ValueIs(if absolute then 0 else f.bias, U32(data, SymbolAt(data, i, n) + 4), SignedWord(U32(data, at + 8)));
    }
  }

  /** What a load makes of an entry of a section it relocates: the kinds it knows, and the patch among the planned
      ones. */
  lemma EntryInPlan(data: seq<Byte>, f: Frame, i: nat, n: nat) returns (k: nat)
    requires HasHeader(data) && InspectSections(data).Ok? && f.sizes > 4 && f.bias != 0 && Plan(data, f).Ok?
    requires HasEntry(data, i, n)
    ensures StaysAsIs(KindOf(data, i, n)) || KindOf(data, i, n) in [1, 26, 27, 28]
    ensures !StaysAsIs(KindOf(data, i, n)) ==>
              k < |Plan(data, f).value| && PatchFor(data, i, n, f.bias, Plan(data, f).value[k])
  {
    k := 0;
    SectionInPlan(data, i, SectionCount(data), f);
    SectionFields(data, i);
    SymbolsFound(data, i);
    var s, symbols := SectionAt(data, i), SectionAt(data, U32(data, HeaderAt(data, i) + 24));
    SectionFields(data, U32(data, HeaderAt(data, i) + 24));
    EntryInSection(data, s, n, s.size / RELA_SIZE, symbols, f);
    EntryMeans(data, i, n, symbols, f);
    if !StaysAsIs(KindOf(data, i, n)) {
      var p := EntryPatch(data, EntryAt(data, i, n), symbols, f).value[0];
      assert p in EntryPatches(data, s, s.size / RELA_SIZE, symbols, f).value;
      assert p in Plan(data, f).value;
      k :| 0 <= k < |Plan(data, f).value| && Plan(data, f).value[k] == p;
    }
  }

  // ----- The words -----

  /** What a load that succeeds leaves of a file. */
  ghost predicate IsLoaded(data: seq<Byte>, sizes: nat, bias: nat, image: seq<Byte>) {
    && UINT32_MAX < sizes && Inspect(data, sizes).Ok? && LoadPlan(data, sizes, bias).Ok?
    && Loaded(data, Inspect(data, sizes).value, image, LoadPlan(data, sizes, bias).value)
  }

  /** A loaded image, moved from where it was linked, whose patched words do not overlap. */
  ghost predicate Moved(data: seq<Byte>, sizes: nat, bias: nat, image: seq<Byte>) {
    IsLoaded(data, sizes, bias, image) && bias != 0 && Disjoint(LoadPlan(data, sizes, bias).value)
  }

  /** The word of the image at an address. */
  predicate HoldsWord(image: seq<Byte>, minimum: nat, address: nat, word: nat) {
    minimum <= address && address + 4 <= minimum + |image| && U32(image, address - minimum) == word
  }

  /** The word of a patch is held, patched from another. */
  ghost predicate PatchHeld(image: seq<Byte>, minimum: nat, p: Patch, was: nat) {
    HoldsWord(image, minimum, p.address, PatchedWord(p.kind, was, p.value))
  }

  lemma LoadedFromHolds(was: seq<Byte>, image: seq<Byte>, minimum: nat, patches: seq<Patch>, k: nat) returns (word: nat)
    requires LoadedFrom(was, image, minimum, patches) && Disjoint(patches) && k < |patches|
    ensures PatchHeld(image, minimum, patches[k], word)
  {
    assert Fits(patches[k], minimum, |was|);
    word := U32(was, patches[k].address - minimum);
  }

  lemma MovedFrom(data: seq<Byte>, sizes: nat, bias: nat, image: seq<Byte>) returns (copied: seq<Byte>)
    requires Moved(data, sizes, bias, image)
    ensures LoadedFrom(copied, image, Inspect(data, sizes).value.minimum, LoadPlan(data, sizes, bias).value)
  {
    copied := Copied(data, Inspect(data, sizes).value.minimum, Inspect(data, sizes).value.imageSize);
  }

  lemma PatchedWordHeld(data: seq<Byte>, sizes: nat, bias: nat, image: seq<Byte>, k: nat) returns (was: nat)
    requires Moved(data, sizes, bias, image) && k < |LoadPlan(data, sizes, bias).value|
    ensures PatchHeld(image, Inspect(data, sizes).value.minimum, LoadPlan(data, sizes, bias).value[k], was)
  {
    var copied := MovedFrom(data, sizes, bias, image);
    was := LoadedFromHolds(copied, image, Inspect(data, sizes).value.minimum, LoadPlan(data, sizes, bias).value, k);
  }

  /** In a loaded image each entry of a relocated section has changed its word by its kind, for the address it refers
      to; no entry is of a kind the loader does not know. */
  lemma EntryHeld(data: seq<Byte>, sizes: nat, bias: nat, image: seq<Byte>, i: nat, n: nat)
    returns (was: nat, value: nat)
    requires Moved(data, sizes, bias, image) && HasHeader(data) && SectionsFit(data) && HasEntry(data, i, n)
    ensures StaysAsIs(KindOf(data, i, n)) || KindOf(data, i, n) in [1, 26, 27, 28]
    ensures !StaysAsIs(KindOf(data, i, n)) ==>
              && HasSymbol(data, i, n) && value < WORD && SameWord(value, Referred(data, i, n, bias))
              && HoldsWord(image, Inspect(data, sizes).value.minimum, TargetOf(data, i, n),
                           PatchedWord(KindOf(data, i, n), was, value))
  {
    InspectedFrame(data, sizes, bias);
    was, value := 0, 0;
    var f := FrameOf(Inspect(data, sizes).value, bias, sizes);
    var k := EntryInPlan(data, f, i, n);
    if !StaysAsIs(KindOf(data, i, n)) {
      was := PatchedWordHeld(data, sizes, bias, image, k);
      value := Plan(data, f).value[k].value;
    }
  }

  /** The word a R_RISCV_32 entry names holds the address it refers to. */
  lemma AddressIsHeld(data: seq<Byte>, sizes: nat, bias: nat, image: seq<Byte>, i: nat, n: nat) returns (word: nat)
    requires Moved(data, sizes, bias, image) && HasHeader(data) && SectionsFit(data) && HasEntry(data, i, n)
    requires KindOf(data, i, n) == 1
    ensures HoldsWord(image, Inspect(data, sizes).value.minimum, TargetOf(data, i, n), word)
    ensures HasSymbol(data, i, n) && SameWord(word, Referred(data, i, n, bias))
  {
    var was: nat;
    was, word := EntryHeld(data, sizes, bias, image, i, n);
  }

  lemma SameWords(a: nat, b: nat, c: int)
    requires a < WORD && b < WORD && SameWord(a, c) && SameWord(b, c)
    ensures a == b
  {
  }

  /** A LUI and an instruction with the lower part, relocated to the same address, add up to it. */
  lemma PairIsHeld(data: seq<Byte>, sizes: nat, bias: nat, image: seq<Byte>, i: nat, n: nat, j: nat, m: nat)
    returns (upper: nat, lower: nat)
    requires Moved(data, sizes, bias, image) && HasHeader(data) && SectionsFit(data)
    requires HasEntry(data, i, n) && HasSymbol(data, i, n) && KindOf(data, i, n) == 26
    requires HasEntry(data, j, m) && HasSymbol(data, j, m) && KindOf(data, j, m) in [27, 28]
    requires SameWord(Referred(data, i, n, bias), Referred(data, j, m, bias))
    ensures HoldsWord(image, Inspect(data, sizes).value.minimum, TargetOf(data, i, n), upper)
    ensures HoldsWord(image, Inspect(data, sizes).value.minimum, TargetOf(data, j, m), lower)
    ensures SameWord(Sum(KindOf(data, j, m), upper, lower), Referred(data, i, n, bias))
  {
    var was, value := EntryHeld(data, sizes, bias, image, i, n);
    var was', value' := EntryHeld(data, sizes, bias, image, j, m);
    SameTwice(value, Referred(data, i, n, bias), Referred(data, j, m, bias));
    SameWords(value, value', Referred(data, j, m, bias));
    upper, lower := PatchedWord(26, was, value), PatchedWord(KindOf(data, j, m), was', value);
    PairAdds(KindOf(data, j, m), was, was', value, Referred(data, i, n, bias));
  }

  /** What a processor adds up from the upper and the lower word. */
  function Sum(kind: nat, upper: nat, lower: nat): int {
    UpperPart(upper) + if kind == 27 then ImmediateI(lower) else ImmediateS(lower)
  }

  lemma PairAdds(kind: nat, was: nat, was': nat, value: nat, referred: int)
    requires (kind == 27 || kind == 28) && value < WORD && SameWord(value, referred)
    ensures SameWord(Sum(kind, PatchedWord(26, was, value), PatchedWord(kind, was', value)), referred)
  {
    var upper, lower := PatchedWord(26, was, value), PatchedWord(kind, was', value);
    assert Sum(kind, upper, lower) % WORD == value by {
      if kind == 27 {
        PairI(was, was', value);
      } else {
        PairS(was, was', value);
      }
    }
    SumIsValue(Sum(kind, upper, lower), value, referred);
  }

  lemma SumIsValue(sum: int, value: nat, referred: int)
    requires sum % WORD == value && SameWord(value, referred)
    ensures SameWord(sum, referred)
  {
    assert sum - value == sum / WORD * WORD;
    assert sum - referred == (sum - value) + (value - referred);
  }

  // ----- No other word changes -----

  /** The section and the number of the entry a patch comes from. */
  ghost predicate FromEntry(data: seq<Byte>, bias: nat, p: Patch, i: nat, n: nat)
    requires HasHeader(data) && SectionsFit(data)
  {
    HasEntry(data, i, n) && !StaysAsIs(KindOf(data, i, n)) && PatchFor(data, i, n, bias, p)
  }

  predicate Has(patches: Result<seq<Patch>>, p: Patch) {
    patches.Ok? && p in patches.value
  }

  lemma JoinHas(a: Result<seq<Patch>>, b: Result<seq<Patch>>, p: Patch)
    requires Has(Join(a, b), p)
    ensures Has(a, p) || Has(b, p)
    ensures a.Ok? && b.Ok?
  {
  }

  /** Where a patch of the first sections comes from, by the last of them. */
  lemma LastSectionHas(data: seq<Byte>, n: nat, f: Frame, p: Patch)
    requires HasHeader(data) && SectionsFit(data) && n < SectionCount(data) && f.sizes > 4
    requires CheckSections(data, n + 1).Ok? && Has(AllPatches(data, n + 1, f).0, p)
    ensures CheckSections(data, n).Ok? && CheckSection(SectionAt(data, n), |data|).Ok?
    ensures Has(SectionPatches(data, n, f).0, p) || (n > 0 && Has(AllPatches(data, n, f).0, p))
  {
    NoSectionHasNothing(data, f, p);
    SectionChecked(data, n + 1, n);
    NextSection(data, n, f);
    JoinHas(AllPatches(data, n, f).0, SectionPatches(data, n, f).0, p);
  }

  lemma {:induction false} SectionOfPatch(data: seq<Byte>, count: nat, f: Frame, p: Patch) returns (i: nat)
    requires HasHeader(data) && SectionsFit(data) && 0 < count <= SectionCount(data) && f.sizes > 4
    requires CheckSections(data, count).Ok? && Has(AllPatches(data, count, f).0, p)
    ensures i < count && CheckSection(SectionAt(data, i), |data|).Ok? && Has(SectionPatches(data, i, f).0, p)
    decreases count
  {
    i := count - 1;
    LastSectionHas(data, i, f, p);
    if !Has(SectionPatches(data, i, f).0, p) {
      i := SectionOfPatch(data, i, f, p);
    }
  }

  lemma NoSectionHasNothing(data: seq<Byte>, f: Frame, p: Patch)
    requires HasHeader(data) && SectionsFit(data) && f.sizes > 4
    ensures CheckSections(data, 0).Ok? && !Has(AllPatches(data, 0, f).0, p)
  {
  }

  lemma {:induction false} EntryOfPatch(data: seq<Byte>, s: Section, count: nat, symbols: Section, f: Frame, p: Patch)
    returns (n: nat)
    requires HasHeader(data) && s.offset + s.size <= |data| && 0 < count && count * RELA_SIZE <= s.size
    requires symbols.offset + symbols.size <= |data| && f.sizes > 4
    requires Has(EntryPatches(data, s, count, symbols, f), p)
    ensures n < count && Has(EntryPatch(data, s.offset + n * RELA_SIZE, symbols, f), p)
    decreases count
  {
    n := count - 1;
    LastEntryHas(data, s, n, symbols, f, p);
    if !Has(EntryPatch(data, s.offset + n * RELA_SIZE, symbols, f), p) {
      NoEntryHasNothing(data, s, symbols, f, p);
      n := EntryOfPatch(data, s, n, symbols, f, p);
    }
  }

  lemma LastEntryHas(data: seq<Byte>, s: Section, n: nat, symbols: Section, f: Frame, p: Patch)
    requires HasHeader(data) && s.offset + s.size <= |data| && (n + 1) * RELA_SIZE <= s.size
    requires symbols.offset + symbols.size <= |data| && f.sizes > 4
    requires Has(EntryPatches(data, s, n + 1, symbols, f), p)
    ensures Has(EntryPatches(data, s, n, symbols, f), p)
         || Has(EntryPatch(data, s.offset + n * RELA_SIZE, symbols, f), p)
  {
    NextEntry(data, s, n, symbols, f);
    JoinHas(EntryPatches(data, s, n, symbols, f), EntryPatch(data, s.offset + n * RELA_SIZE, symbols, f), p);
  }

  lemma NoEntryHasNothing(data: seq<Byte>, s: Section, symbols: Section, f: Frame, p: Patch)
    requires HasHeader(data) && s.offset + s.size <= |data|
    requires symbols.offset + symbols.size <= |data| && f.sizes > 4
    ensures !Has(EntryPatches(data, s, 0, symbols, f), p)
  {
  }

  /** A section with patches is one that relocates a loaded section. */
  lemma PatchesMeanRelocates(data: seq<Byte>, i: nat, f: Frame, p: Patch)
    requires HasHeader(data) && SectionsFit(data) && i < SectionCount(data) && f.sizes > 4
    requires CheckSection(SectionAt(data, i), |data|).Ok? && Has(SectionPatches(data, i, f).0, p)
    ensures Relocates(data, i) && SymbolsOf(data, i).0.Ok?
  {
    SectionFields(data, i);
    if U32(data, HeaderAt(data, i) + 28) < SectionCount(data) {
      SectionFields(data, U32(data, HeaderAt(data, i) + 28));
    }
  }

  /** Every planned patch is that of an entry. */
  lemma PatchHasEntry(data: seq<Byte>, f: Frame, p: Patch) returns (i: nat, n: nat)
    requires HasHeader(data) && InspectSections(data).Ok? && f.sizes > 4 && Has(Plan(data, f), p)
    ensures FromEntry(data, f.bias, p, i, n)
  {
    NoSectionHasNothing(data, f, p);
    i := SectionOfPatch(data, SectionCount(data), f, p);
    PatchesMeanRelocates(data, i, f, p);
    SectionFields(data, i);
    SymbolsFound(data, i);
    var s, symbols := SectionAt(data, i), SectionAt(data, U32(data, HeaderAt(data, i) + 24));
    SectionFields(data, U32(data, HeaderAt(data, i) + 24));
    NoEntryHasNothing(data, s, symbols, f, p);
    n := EntryOfPatch(data, s, s.size / RELA_SIZE, symbols, f, p);
    EntryMeans(data, i, n, symbols, f);
  }

  /** No entry of the file changes the byte at that address. */
  ghost predicate NotNamed(data: seq<Byte>, address: nat)
    requires HasHeader(data) && SectionsFit(data)
  {
    forall i, n :: HasEntry(data, i, n) && !StaysAsIs(KindOf(data, i, n)) ==>
      !(TargetOf(data, i, n) <= address < TargetOf(data, i, n) + 4)
  }

  /** A byte of a loaded image that no entry names is what the segments left there. */
  lemma OtherBytesStay(data: seq<Byte>, sizes: nat, bias: nat, image: seq<Byte>, a: nat, minimum: nat, byte: Byte)
    requires IsLoaded(data, sizes, bias, image) && minimum == Inspect(data, sizes).value.minimum
    requires minimum <= a < minimum + |image| && SectionsFit(data) && NotNamed(data, a)
    requires byte == ImageByte(data, ProgramCount(data), a)
    ensures image[a - minimum] == byte
  {
    InspectedFrame(data, sizes, bias);
    var info, patches := Inspect(data, sizes).value, LoadPlan(data, sizes, bias).value;
    forall k | 0 <= k < |patches| ensures !ElfRelocate.Covers(patches[k], a) {
      assert patches[k] in patches;
      var i, n := PatchHasEntry(data, FrameOf(info, bias, sizes), patches[k]);
    }
    assert Untouched(patches, info.minimum + (a - info.minimum));
  }

  // ----- The segments -----

  /** Where program header i is. */
  function ProgramAt(data: seq<Byte>, i: nat): nat
    requires HasHeader(data)
  {
    U32(data, 28) + 32 * i
  }

  /** The k-th byte of a loadable segment is its k-th byte in the file, or zero past its part in the file, wherever no
      entry names it and no other segment shares it. */
  lemma SegmentIsLoaded(data: seq<Byte>, sizes: nat, bias: nat, image: seq<Byte>, i: nat, k: nat)
    requires IsLoaded(data, sizes, bias, image)
    requires SectionsFit(data) && i < U16(data, 44) && Apart(data, ProgramCount(data))
    requires U32(data, ProgramAt(data, i)) == 1 && k < U32(data, ProgramAt(data, i) + 20)
    requires NotNamed(data, U32(data, ProgramAt(data, i) + 8) + k)
    ensures SegmentByte(data, image, Inspect(data, sizes).value.minimum, i, k)
  {
    var s, minimum := SegmentAt(data, i), Inspect(data, sizes).value.minimum;
    HeldByte(data, sizes, bias, image, i, s, s.address + k, minimum);
    ByteOfSegment(data, image, minimum, i, k, s, s.address + k);
  }

  /** A byte as a segment has it at an address. */
  predicate ByteAt(data: seq<Byte>, s: Segment, address: nat, byte: Byte) {
    && s.address <= address && s.offset + s.fileSize <= |data|
    && byte == if address - s.address < s.fileSize then data[s.offset + (address - s.address)] else 0
  }

  /** The image has the byte of a segment at an address. */
  predicate ImageHas(data: seq<Byte>, image: seq<Byte>, minimum: nat, s: Segment, address: nat) {
    minimum <= address < minimum + |image| && ByteAt(data, s, address, image[address - minimum])
  }

  lemma HeldByte(data: seq<Byte>, sizes: nat, bias: nat, image: seq<Byte>, i: nat, s: Segment, address: nat,
                 minimum: nat)
    requires IsLoaded(data, sizes, bias, image) && minimum == Inspect(data, sizes).value.minimum
    requires SectionsFit(data) && i < ProgramCount(data) && Apart(data, ProgramCount(data)) && SegmentAt(data, i) == s
    requires s.kind == PROGRAM_LOAD && Within(s, address) && NotNamed(data, address)
    ensures ImageHas(data, image, minimum, s, address)
  {
    var byte := LoadedByte(data, sizes, bias, image, i, s, address);
    OtherBytesStay(data, sizes, bias, image, address, minimum, byte);
  }

  lemma ByteOfSegment(data: seq<Byte>, image: seq<Byte>, minimum: nat, i: nat, k: nat, s: Segment, address: nat)
    requires HasHeader(data) && ProgramsFit(data) && i < ProgramCount(data) && SegmentAt(data, i) == s
    requires address == s.address + k && ImageHas(data, image, minimum, s, address)
    ensures SegmentByte(data, image, minimum, i, k)
  {
  }

  /** What the image holds of the k-th byte of a segment. */
  predicate SegmentByte(data: seq<Byte>, image: seq<Byte>, minimum: nat, i: nat, k: nat)
    requires HasHeader(data) && ProgramAt(data, i) + 32 <= |data|
  {
    var at, inFile := U32(data, ProgramAt(data, i) + 8) + k - minimum, U32(data, ProgramAt(data, i) + 4) + k;
    && 0 <= at < |image|
    && if k < U32(data, ProgramAt(data, i) + 16) then inFile < |data| && image[at] == data[inFile] else image[at] == 0
  }

  lemma LoadedByte(data: seq<Byte>, sizes: nat, bias: nat, image: seq<Byte>, i: nat, s: Segment, address: nat)
    returns (byte: Byte)
    requires IsLoaded(data, sizes, bias, image)
    requires i < ProgramCount(data) && Apart(data, ProgramCount(data)) && SegmentAt(data, i) == s
    requires s.kind == PROGRAM_LOAD && Within(s, address)
    ensures var minimum := Inspect(data, sizes).value.minimum; minimum <= address < minimum + |image|
    ensures byte == ImageByte(data, ProgramCount(data), address) && ByteAt(data, s, address, byte)
  {
    InspectedFits(data, sizes);
    SegmentsWithin(data, ProgramCount(data), i);
    SegmentLaidOut(data, ProgramCount(data), i, address);
    byte := ImageByte(data, ProgramCount(data), address);
  }

  /** The entry point lies in a loadable segment with the executable flag. */
  lemma EntryIsExecutable(data: seq<Byte>, sizes: nat) returns (i: nat)
    requires UINT32_MAX < sizes && Inspect(data, sizes).Ok?
    ensures HasHeader(data) && ProgramsFit(data) && i < U16(data, 44)
    ensures var at, entry := ProgramAt(data, i), U32(data, 24);
            && Inspect(data, sizes).value.entry == entry
            && U32(data, at) == 1 && U32(data, at + 24) % 2 == 1
            && U32(data, at + 8) <= entry < U32(data, at + 8) + U32(data, at + 20)
  {
    i := InspectEntry(data, sizes);
    InspectedFits(data, sizes);
  }
}
