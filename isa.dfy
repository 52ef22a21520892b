/** The architectural meaning of one instruction of the simulator in sim.cpp, as pure functions
    over the machine state: one function per executor, the loop body, and a run bounded by fuel.
    The methods of the `Simulator` module are proved to update their arrays exactly as these
    functions say. */
module Isa {
  import opened Bits
  import opened Decoder

  const NumRegs: nat := 8
  const MemSize: nat := 8192

  // Opcode classes (top three bits).
  const OpAlu: nat := 0
  const OpAddi: nat := 1
  const OpJ: nat := 2
  const OpJal: nat := 3
  const OpLw: nat := 4
  const OpSw: nat := 5
  const OpJeq: nat := 6
  const OpSlti: nat := 7

  // Function codes of the class-000 instructions.
  const FuncAdd: nat := 0
  const FuncSub: nat := 1
  const FuncOr: nat := 2
  const FuncAnd: nat := 3
  const FuncSlt: nat := 4
  const FuncJr: nat := 8

  /** Register file, memory, program counter and the loop's halt flag. */
  datatype State = State(regs: seq<Word>, mem: seq<Word>, pc: Word, halted: bool)

  predicate Valid(s: State) {
    |s.regs| == NumRegs && |s.mem| == MemSize
  }

  /** `x & 8191`: the 13-bit memory address the simulator uses for fetch, load and store. */
  function Wrap13(x: nat): (r: nat)
    ensures r < MemSize
    ensures x < MemSize ==> r == x
  {
    x % MemSize
  }

  /** `Wrap13` is the source's mask with 8191. */
  lemma Wrap13IsMask(x: nat)
    ensures Wrap13(x) == BitAnd(x, 8191)
  {
    Pow2Values();
    AndLowMask(x, 13);
  }

  /** `(regs[base] + imm) & 8191`, with `imm` the sign-extended immediate. */
  function EffectiveAddress(base: Word, imm: Word): (r: nat)
    ensures r < MemSize
  {
    Wrap13(base as int + imm)
  }

  /** `pc += 1` on a `uint16_t`. */
  function Next(pc: Word): (r: Word)
    ensures pc < 0xFFFF ==> r == pc + 1
    ensures pc == 0xFFFF ==> r == 0
  {
    Trunc16(pc as int + 1)
  }

  /** `execute_instruction`: add, sub, or, and, slt and jr; any other function code changes
      no register. Register 0 is then cleared and the pc incremented, also after jr, which
      therefore first stores the target minus one. */
  function AluStep(instr: Word, s: State): (r: State)
    requires Valid(s)
    ensures Valid(r) && r.regs[0] == 0 && r.mem == s.mem && r.halted == s.halted
  {
    var f := AluFunc(instr);
    var a, b, d := s.regs[RegA(instr)], s.regs[RegB(instr)], AluDst(instr);
    var regs :=
      if f == FuncAdd then s.regs[d := Trunc16(a as int + b)]
      else if f == FuncSub then s.regs[d := Trunc16(a as int - b)]
      else if f == FuncOr then s.regs[d := WordOr(a, b)]
      else if f == FuncAnd then s.regs[d := WordAnd(a, b)]
      else if f == FuncSlt then s.regs[d := if a < b then 1 else 0]
      else s.regs;
    var pc := if f == FuncJr then Trunc16(a as int - 1) else s.pc;
    s.(regs := regs[0 := 0], pc := Next(pc))
  }

  /** `execute_imm_instruction`: slti, lw, sw, jeq and addi. slti, jeq and addi take their
      registers from bits 10-12 and 7-9; lw and sw from bits 9-11 and 6-8. Any other opcode
      only increments the pc. Register 0 is cleared afterwards. */
  function ImmStep(instr: Word, s: State): (r: State)
    requires Valid(s)
    ensures Valid(r) && r.regs[0] == 0 && r.halted == s.halted
  {
    var op := Opcode(instr);
    var src, dst := RegA(instr), RegB(instr);
    var imm := SignExtend7(Imm7(instr));
    var t :=
      if op == OpSlti then
        s.(regs := s.regs[dst := if s.regs[src] < imm then 1 else 0], pc := Next(s.pc))
      else if op == OpLw then
        var addr := EffectiveAddress(s.regs[MemBase(instr)], imm);
        s.(regs := if addr < MemSize then s.regs[MemReg(instr) := s.mem[addr]] else s.regs,
           pc := Next(s.pc))
      else if op == OpSw then
        var addr := EffectiveAddress(s.regs[MemBase(instr)], imm);
        s.(mem := if addr < MemSize then s.mem[addr := s.regs[MemReg(instr)]] else s.mem,
           pc := Next(s.pc))
      else if op == OpJeq then
        s.(pc := if s.regs[src] == s.regs[dst] then Trunc16(s.pc as int + 1 + imm) else Next(s.pc))
      else if op == OpAddi then
        s.(regs := s.regs[dst := Trunc16(s.regs[src] as int + imm)], pc := Next(s.pc))
      else
        s.(pc := Next(s.pc));
    t.(regs := t.regs[0 := 0])
  }

  /** `execute_control_instruction`: j jumps to the 13-bit target, or raises the halt flag
      when the target is the current pc; jal saves pc + 1 in register 7 and jumps. Register 0
      is cleared afterwards. */
  function ControlStep(instr: Word, s: State): (r: State)
    requires Valid(s)
    ensures Valid(r) && r.regs[0] == 0 && r.mem == s.mem
  {
    var op := Opcode(instr);
    var target := Target(instr);
    var t :=
      if op == OpJ then
        (if target == s.pc then s.(halted := true) else s.(pc := target))
      else if op == OpJal then
        s.(regs := s.regs[7 := Next(s.pc)], pc := target)
      else
        s;
    t.(regs := t.regs[0 := 0])
  }

  /** The word the loop fetches: `memory[pc & 8191]`. */
  function Fetch(s: State): (w: Word)
    requires Valid(s)
    ensures s.pc < MemSize ==> w == s.mem[s.pc]
  {
    s.mem[Wrap13(s.pc)]
  }

  /** The loop's halt test: a j whose 13-bit target equals the current 16-bit pc. The only
      word that passes it is `j pc` itself, so a pc of 8192 or more never does. */
  predicate IsSelfJump(instr: Word, pc: Word)
    ensures IsSelfJump(instr, pc) <==> pc < MemSize && instr == 0x4000 + pc
  {
    Opcode(instr) == OpJ && Target(instr) == pc
  }

  /** One pass of the simulation loop: fetch, halt test, dispatch on the opcode class. */
  function Step(s: State): (r: State)
    requires Valid(s)
    ensures Valid(r)
  {
    var instr := Fetch(s);
    var op := Opcode(instr);
    if IsSelfJump(instr, s.pc) then s.(halted := true)
    else if op == OpAlu then AluStep(instr, s)
    else if op == OpSlti || op == OpAddi || op == OpLw || op == OpSw || op == OpJeq then ImmStep(instr, s)
    else if op == OpJ || op == OpJal then ControlStep(instr, s)
    else s
  }

  /** The loop `while (!isHalt)`, cut off after `fuel` passes: the state after the first
      `fuel - 1` passes, followed by one more pass unless the loop has already stopped. */
  function Run(s: State, fuel: nat): (r: State)
    requires Valid(s)
    ensures Valid(r)
    decreases fuel
  {
    if fuel == 0 then s
    else
      var t := Run(s, fuel - 1);
      if t.halted then t else Step(t)
  }

  /** The state before the loop: registers and pc zero, memory holding the loaded image
      followed by zeros. */
  function Initial(image: seq<Word>): (s: State)
    requires |image| <= MemSize
    ensures Valid(s) && s.pc == 0 && !s.halted
    ensures forall i :: 0 <= i < NumRegs ==> s.regs[i] == 0
    ensures forall i :: 0 <= i < MemSize ==> s.mem[i] == if i < |image| then image[i] else 0
  {
    State(seq(NumRegs, _ => 0), image + seq(MemSize - |image|, _ => 0), 0, false)
  }
}
