/** Instruction-field extraction and sign extension, as the executors of sim.cpp cut an
    instruction word. The source writes every field as `(instr >> lo) & mask`; here each field
    is stated arithmetically, and `FieldsAreMasks` proves the two agree. */
module Decoder {
  import opened Bits

  /** A register number: a 3-bit field. */
  type Reg = r: nat | r < 8

  /** The top three bits select the instruction class. */
  function Opcode(w: Word): (r: nat)
    ensures r < 8
  {
    w / 8192
  }

  /** The function code of a class-000 instruction (bits 0-3). */
  function AluFunc(w: Word): (r: nat)
    ensures r < 16
  {
    w % 16
  }

  /** Bits 10-12: ALU srcA, and the source register of slti, addi and jeq. */
  function RegA(w: Word): Reg {
    (w / 1024) % 8
  }

  /** Bits 7-9: ALU srcB, the destination of slti and addi, the second operand of jeq. */
  function RegB(w: Word): Reg {
    (w / 128) % 8
  }

  /** Bits 4-6: the ALU destination register. */
  function AluDst(w: Word): Reg {
    (w / 16) % 8
  }

  /** Bits 9-11: the lw/sw base-address register, where sim.cpp:153 and :169 take it. */
  function MemBase(w: Word): Reg {
    (w / 512) % 8
  }

  /** Bits 6-8: the lw destination / sw source register, where sim.cpp:154 and :170 take it. */
  function MemReg(w: Word): Reg {
    (w / 64) % 8
  }

  /** Bits 0-6: the raw 7-bit immediate. */
  function Imm7(w: Word): (r: nat)
    ensures r < 128
  {
    w % 128
  }

  /** Bits 0-12: the absolute target of j and jal. */
  function Target(w: Word): (r: nat)
    ensures r < 8192
  {
    w % 8192
  }

  /** The C expression `(w >> shift) & mask`. */
  function ShiftMask(w: Word, shift: nat, mask: nat): (r: nat)
    ensures r <= mask
  {
    BitAnd(ShiftRight(w, shift), mask)
  }

  lemma ShiftMaskIsField(w: Word, lo: nat, width: nat)
    ensures ShiftMask(w, lo, Pow2(width) - 1) == (w / Pow2(lo)) % Pow2(width)
  {
    ShiftRightIsDiv(w, lo);
    AndLowMask(w / Pow2(lo), width);
  }

  /** Each field function is the source's shift-and-mask: `(instr >> 13) & 0x7`, `instr & 0xF`,
      `(instr >> 10) & 0x7`, `(instr >> 7) & 0x7`, `(instr >> 4) & 0x7`, `(instr >> 9) & 0x7`,
      `(instr >> 6) & 0x7`, `instr & 0x7F` and `instr & 0x1FFF`. */
  lemma FieldsAreMasks(w: Word)
    ensures Opcode(w) == ShiftMask(w, 13, 0x7)
    ensures AluFunc(w) == ShiftMask(w, 0, 0xF)
    ensures RegA(w) == ShiftMask(w, 10, 0x7)
    ensures RegB(w) == ShiftMask(w, 7, 0x7)
    ensures AluDst(w) == ShiftMask(w, 4, 0x7)
    ensures MemBase(w) == ShiftMask(w, 9, 0x7)
    ensures MemReg(w) == ShiftMask(w, 6, 0x7)
    ensures Imm7(w) == ShiftMask(w, 0, 0x7F)
    ensures Target(w) == ShiftMask(w, 0, 0x1FFF)
  {
    OuterFieldsAreMasks(w);
    RegisterFieldsAreMasks(w);
  }

  lemma OuterFieldsAreMasks(w: Word)
    ensures Opcode(w) == ShiftMask(w, 13, 0x7)
    ensures AluFunc(w) == ShiftMask(w, 0, 0xF)
    ensures Imm7(w) == ShiftMask(w, 0, 0x7F)
    ensures Target(w) == ShiftMask(w, 0, 0x1FFF)
  {
    Pow2Values();
    ShiftMaskIsField(w, 13, 3);
    ShiftMaskIsField(w, 0, 4);
    ShiftMaskIsField(w, 0, 7);
    ShiftMaskIsField(w, 0, 13);
  }

  lemma RegisterFieldsAreMasks(w: Word)
    ensures RegA(w) == ShiftMask(w, 10, 0x7)
    ensures RegB(w) == ShiftMask(w, 7, 0x7)
    ensures AluDst(w) == ShiftMask(w, 4, 0x7)
    ensures MemBase(w) == ShiftMask(w, 9, 0x7)
    ensures MemReg(w) == ShiftMask(w, 6, 0x7)
  {
    Pow2Values();
    assert Pow2(9) == 512 && Pow2(10) == 1024;
    ShiftMaskIsField(w, 10, 3);
    ShiftMaskIsField(w, 7, 3);
    ShiftMaskIsField(w, 4, 3);
    ShiftMaskIsField(w, 9, 3);
    ShiftMaskIsField(w, 6, 3);
  }

  /** `x & (2^k)` is `2^k` when bit `k` of `x` is set and 0 otherwise. */
  lemma {:induction false} AndSingleBit(x: nat, k: nat)
    ensures BitAnd(x, Pow2(k)) == if BitAt(x, k) then Pow2(k) else 0
  {
    var p := Pow2(k);
    var r := BitAnd(x, p);
    AndHalve(x, p);
    if k == 0 {
      BitAtHalve(x, 0);
      assert r / 2 == 0 by { assert BitAnd(x / 2, 0) == 0; }
      assert r == 2 * (r / 2) + r % 2;
    } else {
      var q := Pow2(k - 1);
      assert p / 2 == q && p % 2 == 0;
      BitAtHalve(x, k - 1);
      AndSingleBit(x / 2, k - 1);
      assert r == 2 * (r / 2) + r % 2;
    }
  }

  /** The source's `if (imm & 0x40) imm |= 0xFF80;` on a 7-bit immediate: bit 6 is copied into
      bits 7-15. */
  function SignExtend7(raw: nat): (r: Word)
    requires raw < 128
    ensures r % 128 == raw
    ensures r / 64 == if raw / 64 == 1 then 0x3FF else 0
  {
    if raw >= 64 then raw + 0xFF80 else raw
  }

  /** `SignExtend7` is exactly the source's test of bit 6 and or with 0xFF80. */
  lemma SignExtendIsOr(raw: nat)
    requires raw < 128
    ensures SignExtend7(raw) == if BitAnd(raw, 0x40) != 0 then BitOr(raw, 0xFF80) else raw
  {
    Pow2Values();
    AndSingleBit(raw, 6);
    assert BitAt(raw, 6) <==> raw >= 64;
    if raw >= 64 {
      OrDisjoint(raw, 0xFF80, 7);
    }
  }

  /** The two's-complement reading of a word. */
  function Signed(w: Word): int {
    if w >= 0x8000 then w - WordSize else w
  }

  /** The sign-extended immediate read as signed lies in [-64, 63]; it is `raw - 128`
      exactly when bit 6 is set, and `raw` otherwise. */
  lemma SignExtendSigned(raw: nat)
    requires raw < 128
    ensures -64 <= Signed(SignExtend7(raw)) <= 63
    ensures Signed(SignExtend7(raw)) == if raw / 64 % 2 == 1 then raw - 128 else raw
    ensures SignExtend7(raw) == (raw - 128) % WordSize <==> raw / 64 % 2 == 1
  {
  }

  /** Adding a multiple of the modulus does not change a remainder. */
  lemma ModAddMultiple(y: int, d: int, k: int)
    requires d > 0
    ensures (y + d * k) % d == y % d
  {
    DivModUnique(y + d * k, d, y / d + k, y % d);
  }

  /** Unsigned arithmetic with the sign-extended immediate is two's-complement arithmetic
      with the signed immediate, both modulo 2^16 and modulo the 8192-word memory. */
  lemma AddSignExtended(x: int, raw: nat)
    requires raw < 128
    ensures (x + SignExtend7(raw)) % WordSize == (x + Signed(SignExtend7(raw))) % WordSize
    ensures (x + SignExtend7(raw)) % 8192 == (x + Signed(SignExtend7(raw))) % 8192
  {
    var s := Signed(SignExtend7(raw));
    if raw >= 64 {
      ModAddMultiple(x + s, WordSize, 1);
      ModAddMultiple(x + s, 8192, 8);
    }
  }

  /** An ALU word is the concatenation opcode | srcA | srcB | dst | function code. */
  lemma AluLayout(w: Word)
    ensures w == Opcode(w) * 8192 + RegA(w) * 1024 + RegB(w) * 128 + AluDst(w) * 16 + AluFunc(w)
  {
    DivDiv(w, 16, 8);
    DivDiv(w, 128, 8);
    DivDiv(w, 1024, 8);
  }

  /** A slti/addi/jeq word is the concatenation opcode | src | dst | 7-bit immediate. */
  lemma ImmLayout(w: Word)
    ensures w == Opcode(w) * 8192 + RegA(w) * 1024 + RegB(w) * 128 + Imm7(w)
  {
    DivDiv(w, 128, 8);
    DivDiv(w, 1024, 8);
  }

  /** A j/jal word is the concatenation opcode | 13-bit target. */
  lemma ControlLayout(w: Word)
    ensures w == Opcode(w) * 8192 + Target(w)
  {
  }

  /** The lw/sw fields as written straddle the slti/addi/jeq fields by one bit: the base field
      is the low two bits of the src field above the high bit of the dst field, and the
      lw/sw register field's low bit is the immediate's sign bit (bit 6). */
  lemma MemFieldsOverlap(w: Word)
    ensures MemBase(w) == 2 * (RegA(w) % 4) + RegB(w) / 4
    ensures MemReg(w) == 2 * (RegB(w) % 4) + Imm7(w) / 64
    ensures MemReg(w) % 2 == 1 <==> Imm7(w) >= 64
  {
    MemBaseStraddles(w);
    MemRegStraddles(w);
  }

  lemma MemBaseStraddles(w: Word)
    ensures MemBase(w) == 2 * (RegA(w) % 4) + RegB(w) / 4
  {
    var u, s, v := w / 128, w / 512, w / 1024;
    DivDiv(w, 128, 4);
    DivDiv(w, 512, 2);
    LowBits(s);
    LowBits(u);
    LowBits(v);
  }

  lemma MemRegStraddles(w: Word)
    ensures MemReg(w) == 2 * (RegB(w) % 4) + Imm7(w) / 64
  {
    var t, u := w / 64, w / 128;
    DivDiv(w, 64, 2);
    LowBits(t);
    LowBits(u);
    ImmSignBit(w);
  }

  /** The low three bits of `x` seen through halving and through `% 4`, `/ 4`. */
  lemma LowBits(x: nat)
    ensures x % 8 == 2 * ((x / 2) % 4) + x % 2
    ensures x % 8 % 4 == x % 4
    ensures (x % 8) / 4 == (x / 4) % 2
  {
    LowBitsHalve(x);
    LowBitsQuarter(x);
  }

  lemma LowBitsHalve(x: nat)
    ensures x % 8 == 2 * ((x / 2) % 4) + x % 2
  {
  }

  lemma LowBitsQuarter(x: nat)
    ensures x % 8 % 4 == x % 4
    ensures (x % 8) / 4 == (x / 4) % 2
  {
  }

  /** Bit 6 of a word is the high bit of its 7-bit immediate. */
  lemma ImmSignBit(w: nat)
    ensures (w % 128) / 64 == (w / 64) % 2
  {
  }
}
