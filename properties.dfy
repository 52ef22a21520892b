/** What the executors and the loop of sim.cpp guarantee, proved about the functions of `Isa`. */
module Properties {
  import opened Bits
  import opened Decoder
  import opened Isa

  // ---------------------------------------------------------------- ALU executor (class 000)

  /** add and sub store the sum and difference modulo 2^16 in the register named by bits 4-6;
      every other register keeps its value (register 0 reads 0), memory is untouched and the
      pc advances by one. */
  lemma AluAddSub(instr: Word, s: State)
    requires Valid(s) && (AluFunc(instr) == FuncAdd || AluFunc(instr) == FuncSub)
    ensures var r := AluStep(instr, s);
      var a, b, d := s.regs[RegA(instr)], s.regs[RegB(instr)], AluDst(instr);
      && r.pc == (s.pc + 1) % WordSize && r.mem == s.mem
      && r.regs[0] == 0
      && (forall i :: 0 < i < NumRegs && i != d ==> r.regs[i] == s.regs[i])
      && (d != 0 && AluFunc(instr) == FuncAdd ==> r.regs[d] == (a + b) % WordSize)
      && (d != 0 && AluFunc(instr) == FuncSub ==> r.regs[d] == (a - b) % WordSize)
  {
  }

  /** or and and combine the two source registers bit by bit. */
  lemma AluLogic(instr: Word, s: State)
    requires Valid(s) && (AluFunc(instr) == FuncOr || AluFunc(instr) == FuncAnd)
    ensures var r := AluStep(instr, s);
      var a, b, d := s.regs[RegA(instr)], s.regs[RegB(instr)], AluDst(instr);
      && r.pc == (s.pc + 1) % WordSize && r.mem == s.mem
      && (forall i :: 0 < i < NumRegs && i != d ==> r.regs[i] == s.regs[i])
      && (d != 0 ==> forall k :: 0 <= k < 16 ==>
            (BitAt(r.regs[d], k) <==>
              if AluFunc(instr) == FuncOr then BitAt(a, k) || BitAt(b, k) else BitAt(a, k) && BitAt(b, k)))
  {
  }

  /** slt stores 1 exactly when srcA < srcB as unsigned values, and 0 otherwise. */
  lemma AluSlt(instr: Word, s: State)
    requires Valid(s) && AluFunc(instr) == FuncSlt
    ensures var r := AluStep(instr, s);
      var a, b, d := s.regs[RegA(instr)], s.regs[RegB(instr)], AluDst(instr);
      && r.pc == (s.pc + 1) % WordSize && r.mem == s.mem
      && (forall i :: 0 < i < NumRegs && i != d ==> r.regs[i] == s.regs[i])
      && (d != 0 ==> (r.regs[d] == 1 <==> a < b) && (r.regs[d] == 0 <==> b <= a))
  {
  }

  /** jr: the pc after the executor is the value of the register named by bits 10-12; the
      `- 1` stored before the trailing increment cancels, also for the value 0. No register
      changes other than the clearing of register 0. */
  lemma AluJr(instr: Word, s: State)
    requires Valid(s) && AluFunc(instr) == FuncJr
    ensures var r := AluStep(instr, s);
      r.pc == s.regs[RegA(instr)] && r.regs == s.regs[0 := 0] && r.mem == s.mem
  {
    var a := s.regs[RegA(instr)];
    if a == 0 {
      assert Trunc16(a as int - 1) == 0xFFFF;
    }
  }

  /** A function code outside add, sub, or, and, slt and jr is a no-op that still advances
      the pc by exactly one. */
  lemma AluUndefinedIsNoop(instr: Word, s: State)
    requires Valid(s)
    requires AluFunc(instr) !in {FuncAdd, FuncSub, FuncOr, FuncAnd, FuncSlt, FuncJr}
    ensures var r := AluStep(instr, s);
      r.regs == s.regs[0 := 0] && r.mem == s.mem && r.pc == (s.pc + 1) % WordSize
  {
  }

  // ------------------------------------------------------- immediate executor (five opcodes)

  /** slti compares the source register with the sign-extended immediate, both unsigned: a
      negative immediate acts as a value of at least 0xFFC0, so every register value below
      0xFFC0 compares less. */
  lemma Slti(instr: Word, s: State)
    requires Valid(s) && Opcode(instr) == OpSlti
    ensures var r := ImmStep(instr, s);
      var v, d, imm := s.regs[RegA(instr)], RegB(instr), SignExtend7(Imm7(instr));
      && r.pc == (s.pc + 1) % WordSize && r.mem == s.mem
      && (forall i :: 0 < i < NumRegs && i != d ==> r.regs[i] == s.regs[i])
      && (d != 0 ==> (r.regs[d] == 1 <==> v < imm) && (r.regs[d] == 0 <==> imm <= v))
      && (d != 0 && Imm7(instr) >= 64 && v < 0xFFC0 ==> r.regs[d] == 1)
  {
  }

  /** addi stores the two's-complement sum of the source register and the signed immediate,
      modulo 2^16. */
  lemma Addi(instr: Word, s: State)
    requires Valid(s) && Opcode(instr) == OpAddi
    ensures var r := ImmStep(instr, s);
      var v, d := s.regs[RegA(instr)], RegB(instr);
      var k := Signed(SignExtend7(Imm7(instr)));
      && r.pc == (s.pc + 1) % WordSize && r.mem == s.mem
      && (forall i :: 0 < i < NumRegs && i != d ==> r.regs[i] == s.regs[i])
      && (d != 0 ==> r.regs[d] == (v + k) % WordSize)
  {
    AddSignExtended(s.regs[RegA(instr)], Imm7(instr));
  }

  /** lw reads the word at (base + signed immediate) mod 8192, base from bits 9-11, into the
      register named by bits 6-8; nothing else but the pc changes. The address is always below
      8192, so the range guard of the source always passes. */
  lemma Lw(instr: Word, s: State)
    requires Valid(s) && Opcode(instr) == OpLw
    ensures var r := ImmStep(instr, s);
      var addr := (s.regs[MemBase(instr)] + Signed(SignExtend7(Imm7(instr)))) % MemSize;
      var d := MemReg(instr);
      && EffectiveAddress(s.regs[MemBase(instr)], SignExtend7(Imm7(instr))) == addr
      && r.pc == (s.pc + 1) % WordSize && r.mem == s.mem
      && (forall i :: 0 < i < NumRegs && i != d ==> r.regs[i] == s.regs[i])
      && (d != 0 ==> r.regs[d] == s.mem[addr])
  {
    AddSignExtended(s.regs[MemBase(instr)], Imm7(instr));
  }

  /** sw writes the register named by bits 6-8 to the word at (base + signed immediate)
      mod 8192 and changes no other word and no register. */
  lemma Sw(instr: Word, s: State)
    requires Valid(s) && Opcode(instr) == OpSw
    ensures var r := ImmStep(instr, s);
      var addr := (s.regs[MemBase(instr)] + Signed(SignExtend7(Imm7(instr)))) % MemSize;
      && r.pc == (s.pc + 1) % WordSize
      && r.regs == s.regs[0 := 0]
      && r.mem[addr] == s.regs[MemReg(instr)]
      && (forall j :: 0 <= j < MemSize && j != addr ==> r.mem[j] == s.mem[j])
  {
    AddSignExtended(s.regs[MemBase(instr)], Imm7(instr));
  }

  /** jeq changes no register and no memory; it moves the pc by one plus the signed immediate
      when the two registers are equal, and by one otherwise. */
  lemma Jeq(instr: Word, s: State)
    requires Valid(s) && Opcode(instr) == OpJeq
    ensures var r := ImmStep(instr, s);
      var k := Signed(SignExtend7(Imm7(instr)));
      && r.regs == s.regs[0 := 0] && r.mem == s.mem
      && r.pc == if s.regs[RegA(instr)] == s.regs[RegB(instr)] then (s.pc + 1 + k) % WordSize
                 else (s.pc + 1) % WordSize
  {
    AddSignExtended(s.pc + 1, Imm7(instr));
  }

  // ---------------------------------------------------------------- control executor

  /** j to a target other than the pc jumps there without raising the halt flag; j to the pc
      raises it and leaves the pc alone. */
  lemma Jump(instr: Word, s: State)
    requires Valid(s) && Opcode(instr) == OpJ
    ensures var r := ControlStep(instr, s);
      && r.regs == s.regs[0 := 0] && r.mem == s.mem
      && (Target(instr) != s.pc ==> r.pc == Target(instr) && r.halted == s.halted)
      && (Target(instr) == s.pc ==> r.pc == s.pc && r.halted)
  {
  }

  /** jal saves pc + 1 in register 7 and jumps to the 13-bit target. */
  lemma JumpAndLink(instr: Word, s: State)
    requires Valid(s) && Opcode(instr) == OpJal
    ensures var r := ControlStep(instr, s);
      && r.regs == s.regs[7 := (s.pc + 1) % WordSize][0 := 0]
      && r.pc == instr % 8192 && r.mem == s.mem && r.halted == s.halted
  {
  }

  // ---------------------------------------------------------------- the simulation loop

  /** A pass of the loop halts exactly when the fetched word `memory[pc & 8191]` is a j whose
      target equals the pc; that pass changes nothing else. */
  lemma StepHaltsIff(s: State)
    requires Valid(s) && !s.halted
    ensures var w := s.mem[s.pc % MemSize];
      Step(s).halted <==> w / 8192 == OpJ && w % 8192 == s.pc
    ensures Step(s).halted ==> Step(s) == s.(halted := true)
  {
  }

  /** Because the loop tests for a jump to itself first, the control executor it dispatches to
      never takes its own halt branch. */
  lemma ControlHaltUnreachable(s: State)
    requires Valid(s) && !IsSelfJump(Fetch(s), s.pc)
    requires Opcode(Fetch(s)) == OpJ || Opcode(Fetch(s)) == OpJal
    ensures ControlStep(Fetch(s), s).halted == s.halted
    ensures Step(s) == ControlStep(Fetch(s), s)
  {
  }

  /** Unless the fetched word is a jump to itself, the loop hands class 000 to the ALU
      executor and the five immediate opcodes to the immediate executor, so the lemmas about
      those executors describe the pass. */
  lemma StepDispatch(s: State)
    requires Valid(s) && !IsSelfJump(Fetch(s), s.pc)
    ensures Opcode(Fetch(s)) == OpAlu ==> Step(s) == AluStep(Fetch(s), s)
    ensures Opcode(Fetch(s)) in {OpSlti, OpAddi, OpLw, OpSw, OpJeq} ==> Step(s) == ImmStep(Fetch(s), s)
  {
  }

  /** Outside jumps, branches and jr, each pass advances the pc by exactly one. */
  lemma StepAdvancesPc(s: State)
    requires Valid(s)
    requires Opcode(Fetch(s)) !in {OpJ, OpJal, OpJeq}
    requires Opcode(Fetch(s)) == OpAlu ==> AluFunc(Fetch(s)) != FuncJr
    ensures Step(s).pc == (s.pc + 1) % WordSize
  {
  }

  /** Only sw writes memory, and no pass writes register 0. */
  lemma StepFrame(s: State)
    requires Valid(s) && s.regs[0] == 0
    ensures Step(s).mem != s.mem ==> Opcode(Fetch(s)) == OpSw
    ensures Step(s).regs[0] == 0
  {
  }

  /** Once the loop has halted, more passes change nothing. */
  lemma {:induction false} RunHaltedStays(s: State, m: nat, n: nat)
    requires Valid(s) && m <= n && Run(s, m).halted
    ensures Run(s, n) == Run(s, m)
    decreases n
  {
    if n > m {
      RunHaltedStays(s, m, n - 1);
    }
  }

  /** Register 0 reads 0 after any number of passes from a state where it does. */
  lemma {:induction false} RunKeepsRegisterZero(s: State, n: nat)
    requires Valid(s) && s.regs[0] == 0
    ensures Run(s, n).regs[0] == 0
    decreases n
  {
    if n > 0 {
      RunKeepsRegisterZero(s, n - 1);
      StepFrame(Run(s, n - 1));
    }
  }
}
