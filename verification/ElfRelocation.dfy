/** The words loader/elf_loader.c writes when it relocates an image, as numbers below 2^32. */
module ElfRelocation {
  const WORD: nat := 0x1_0000_0000

  /** The address a relocation refers to. */
  function Value(bias: nat, symbol: nat, addend: int): (v: nat)
    ensures v < WORD
  {
    (bias + symbol + addend) % WORD
  }

  // ----- Instructions -----

  /** R_RISCV_HI20: the upper twenty bits of a LUI, rounded for the signed lower part. */
  function Hi20(instruction: nat, value: nat): nat {
    instruction % 0x1000 + (value + 0x800) % WORD / 0x1000 * 0x1000
  }

  /** R_RISCV_LO12_I: the lower twelve bits into bits 20 to 31. */
  function Lo12I(instruction: nat, value: nat): nat {
    instruction % 0x10_0000 + value % 0x1000 * 0x10_0000
  }

  /** R_RISCV_LO12_S: the lower twelve bits into bits 25 to 31 and 7 to 11. */
  function Lo12S(instruction: nat, value: nat): nat {
    instruction % 0x80 + value % 0x20 * 0x80 + instruction / 0x1000 % 0x2000 * 0x1000
    + value / 0x20 % 0x80 * 0x200_0000
  }

  // ----- What a processor reads back -----

  function UpperPart(instruction: nat): nat {
    instruction / 0x1000 * 0x1000
  }

  function Signed12(n: nat): int {
    if n < 0x800 then n else n - 0x1000
  }

  function ImmediateI(instruction: nat): int {
    Signed12(instruction / 0x10_0000)
  }

  function ImmediateS(instruction: nat): int {
    Signed12(instruction / 0x200_0000 * 0x20 + instruction / 0x80 % 0x20)
  }

  lemma SplitWord(value: nat)
    requires value < WORD
    ensures ((value + 0x800) % WORD / 0x1000 * 0x1000 + Signed12(value % 0x1000)) % WORD == value
  {
    var high, low := value / 0x1000, value % 0x1000;
    if low < 0x800 {
      assert (value + 0x800) / 0x1000 == high;
    } else if value + 0x800 < WORD {
      assert (value + 0x800) / 0x1000 == high + 1;
    } else {
      assert high == 0xF_FFFF;
    }
  }

  /** A LUI and an I-type instruction relocated to the same value add up to it. */
  lemma PairI(upper: nat, lower: nat, value: nat)
    requires value < WORD
    ensures (UpperPart(Hi20(upper, value)) + ImmediateI(Lo12I(lower, value))) % WORD == value
  {
    SplitWord(value);
    assert UpperPart(Hi20(upper, value)) == (value + 0x800) % WORD / 0x1000 * 0x1000;
    assert Lo12I(lower, value) / 0x10_0000 == value % 0x1000;
  }

  /** So do a LUI and a store. */
  lemma PairS(upper: nat, lower: nat, value: nat)
    requires value < WORD
    ensures (UpperPart(Hi20(upper, value)) + ImmediateS(Lo12S(lower, value))) % WORD == value
  {
    SplitWord(value);
    assert UpperPart(Hi20(upper, value)) == (value + 0x800) % WORD / 0x1000 * 0x1000;
    StoreFields(lower, value);
    assert value % 0x1000 == value / 0x20 % 0x80 * 0x20 + value % 0x20;
  }

  lemma Digits(a: nat, b: nat, c: nat, d: nat)
    requires a < 0x80 && b < 0x20 && c < 0x2000 && d < 0x80
    ensures var s := a + b * 0x80 + c * 0x1000 + d * 0x200_0000;
            s / 0x200_0000 == d && s / 0x80 % 0x20 == b && s % 0x80 == a && s / 0x1000 % 0x2000 == c && s < WORD
  {
    var s := a + b * 0x80 + c * 0x1000 + d * 0x200_0000;
    assert s / 0x80 == b + c * 0x20 + d * 0x4_0000;
    assert s / 0x1000 == c + d * 0x2000;
  }

  lemma StoreFields(instruction: nat, value: nat)
    ensures var s := Lo12S(instruction, value);
            && s / 0x200_0000 == value / 0x20 % 0x80 && s / 0x80 % 0x20 == value % 0x20
            && s % 0x80 == instruction % 0x80 && s / 0x1000 % 0x2000 == instruction / 0x1000 % 0x2000 && s < WORD
  {
    Digits(instruction % 0x80, value % 0x20, instruction / 0x1000 % 0x2000, value / 0x20 % 0x80);
  }

  lemma UpperStays(instruction: nat, value: nat)
    ensures Hi20(instruction, value) % 0x1000 == instruction % 0x1000 && Hi20(instruction, value) < WORD
  {
    var high := (value + 0x800) % WORD / 0x1000;
    assert high <= 0xF_FFFF;
  }

  lemma LowerStays(instruction: nat, value: nat)
    ensures Lo12I(instruction, value) % 0x10_0000 == instruction % 0x10_0000 && Lo12I(instruction, value) < WORD
  {
    var low := value % 0x1000;
    assert low <= 0xFFF;
  }

  /** Relocating leaves opcodes, registers and function codes alone, and the result is a word again. */
  lemma FieldsStay(instruction: nat, value: nat)
    ensures Hi20(instruction, value) % 0x1000 == instruction % 0x1000 && Hi20(instruction, value) < WORD
    ensures Lo12I(instruction, value) % 0x10_0000 == instruction % 0x10_0000 && Lo12I(instruction, value) < WORD
    ensures Lo12S(instruction, value) % 0x80 == instruction % 0x80 && Lo12S(instruction, value) < WORD
    ensures Lo12S(instruction, value) / 0x1000 % 0x2000 == instruction / 0x1000 % 0x2000
  {
    UpperStays(instruction, value);
    LowerStays(instruction, value);
    StoreFields(instruction, value);
  }

  // ----- Where a word may be written -----

  /** The source's test of a target address; its subtraction wraps at the machine's size type, which has
      `sizes` values. */
  predicate Accepted(target: nat, minimum: nat, maximum: nat, sizes: nat)
    requires sizes > 4
  {
    !(target < minimum || target > (if maximum >= 4 then maximum - 4 else maximum + sizes - 4))
  }

  predicate Inside(target: nat, minimum: nat, maximum: nat) {
    minimum <= target && target + 4 <= maximum
  }

  /** The test accepts exactly the words inside the image, except for an image that ends below address 4. */
  lemma AcceptedIsInside(minimum: nat, maximum: nat, sizes: nat)
    requires sizes >= WORD && minimum < maximum < WORD
    ensures (forall target: nat :: Accepted(target, minimum, maximum, sizes) == Inside(target, minimum, maximum))
       <==> maximum >= 4
  {
    if maximum < 4 {
      assert Accepted(minimum, minimum, maximum, sizes) && !Inside(minimum, minimum, maximum);
    }
  }
}
