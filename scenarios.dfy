/** Concrete programs and instructions, with the outcome the simulator gives them. */
module Scenarios {
  import opened Bits
  import opened Decoder
  import opened Isa
  import Properties

  /** A program whose word 0 is `0100000000000000` (j 0) halts on the first pass with pc 0
      and every register 0, and stays halted whatever fuel the loop is given. */
  lemma HaltAtZero(fuel: nat)
    requires fuel >= 1
    ensures var r := Run(Initial([0x4000]), fuel);
      r.halted && r.pc == 0 && forall i :: 0 <= i < NumRegs ==> r.regs[i] == 0
  {
    var s := Initial([0x4000]);
    assert Fetch(s) == 0x4000;
    assert Run(s, 1) == s.(halted := true);
    Properties.RunHaltedStays(s, 1, fuel);
  }

  /** `addi $1, $0, 5` at address 0 (`0010000010000101`) followed by `j 1` at address 1
      (`0100000000000001`): after two passes register 1 holds 5, the pc is 1 and the
      machine has halted. */
  lemma AddiThenHalt()
    ensures var r := Run(Initial([0x2085, 0x4001]), 2);
      r.halted && r.pc == 1 && r.regs[1] == 5
      && forall i :: 0 <= i < NumRegs && i != 1 ==> r.regs[i] == 0
  {
    var s := Initial([0x2085, 0x4001]);
    assert Fetch(s) == 0x2085;
    assert Opcode(0x2085) == OpAddi && RegA(0x2085) == 0 && RegB(0x2085) == 1 && Imm7(0x2085) == 5;
    var s1 := Step(s);
    assert s1.regs == s.regs[1 := 5] && s1.pc == 1 && !s1.halted && s1.mem == s.mem;
    assert Fetch(s1) == 0x4001;
    assert Step(s1) == s1.(halted := true);
    assert Run(s, 1) == s1;
  }

  /** `slt $3, $1, $2` (word 1332): with $1 = 3 and $2 = 5 it stores 1; with the values
      swapped it stores 0. */
  lemma SltExample(s: State)
    requires Valid(s) && s.regs[1] == 3 && s.regs[2] == 5
    ensures AluStep(1332, s).regs[3] == 1
    ensures AluStep(1332, s.(regs := s.regs[1 := 5][2 := 3])).regs[3] == 0
  {
    assert AluFunc(1332) == FuncSlt && RegA(1332) == 1 && RegB(1332) == 2 && AluDst(1332) == 3;
  }

  /** `jeq $1, $2, 3` (word 50435) at pc 10 goes to 14 when $1 = $2 and to 11 otherwise;
      with the immediate -2 (word 50558) the taken branch goes back to 9. */
  lemma JeqExample(s: State)
    requires Valid(s) && s.pc == 10
    ensures s.regs[1] == s.regs[2] ==> ImmStep(50435, s).pc == 14 && ImmStep(50558, s).pc == 9
    ensures s.regs[1] != s.regs[2] ==> ImmStep(50435, s).pc == 11 && ImmStep(50558, s).pc == 11
  {
    assert Opcode(50435) == OpJeq && RegA(50435) == 1 && RegB(50435) == 2 && Imm7(50435) == 3;
    assert Opcode(50558) == OpJeq && RegA(50558) == 1 && RegB(50558) == 2 && Imm7(50558) == 126;
    assert SignExtend7(126) == 0xFFFE;
  }

  /** Load/store addresses wrap at 8192: base 8190 plus 2 is address 0, and base 0 plus -1
      (raw immediate 127) is address 8191. */
  lemma AddressWraps()
    ensures EffectiveAddress(8190, SignExtend7(2)) == 0
    ensures EffectiveAddress(0, SignExtend7(127)) == 8191
  {
    assert SignExtend7(127) == 0xFFFF;
    assert Wrap13(0xFFFF) == 0xFFFF % 8192;
  }
}
