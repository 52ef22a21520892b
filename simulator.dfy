/** The simulator's mutable machine: the register file and memory arrays that `main` of sim.cpp
    allocates, the `pc` and `isHalt` variables it passes by reference to the executors, and the
    executors and simulation loop that update them in place. Each method is proved to leave
    the machine in the state the corresponding function of `Isa` computes. */
module Simulator {
  import opened Bits
  import opened Decoder
  import opened Isa
  import Properties

  class Machine {
    var regs: array<Word>
    var memory: array<Word>
    var pc: Word
    var isHalt: bool

    ghost predicate Valid()
      reads this
    {
      regs.Length == NumRegs && memory.Length == MemSize
    }

    /** The machine as an `Isa.State` value. */
    ghost function Abs(): (s: State)
      reads this, regs, memory
      requires Valid()
      ensures Isa.Valid(s)
    {
      State(regs[..], memory[..], pc, isHalt)
    }

    /** Zeroed registers and memory with `image` loaded at address 0, pc 0, not halted. */
    constructor (image: seq<Word>)
      requires |image| <= MemSize
      ensures Valid() && fresh(regs) && fresh(memory)
      ensures Abs() == Initial(image)
    {
      regs := new Word[NumRegs](_ => 0);
      memory := new Word[MemSize](i requires 0 <= i => if i < |image| then image[i] else 0);
      pc := 0;
      isHalt := false;
      new;
      assert memory[..] == Initial(image).mem;
    }

    /** `execute_instruction` (opcode class 000). */
    method ExecuteInstruction(instr: Word)
      requires Valid()
      modifies regs, this`pc
      ensures Valid()
      ensures Abs() == AluStep(instr, old(Abs()))
    {
      var functionCode := AluFunc(instr);
      var regSrcA, regSrcB, regDst := RegA(instr), RegB(instr), AluDst(instr);
      if functionCode == FuncAdd {
        regs[regDst] := Trunc16(regs[regSrcA] as int + regs[regSrcB]);
      } else if functionCode == FuncSub {
        regs[regDst] := Trunc16(regs[regSrcA] as int - regs[regSrcB]);
      } else if functionCode == FuncOr {
        regs[regDst] := WordOr(regs[regSrcA], regs[regSrcB]);
      } else if functionCode == FuncAnd {
        regs[regDst] := WordAnd(regs[regSrcA], regs[regSrcB]);
      } else if functionCode == FuncSlt {
        regs[regDst] := if regs[regSrcA] < regs[regSrcB] then 1 else 0;
      } else if functionCode == FuncJr {
        pc := Trunc16(regs[regSrcA] as int - 1);
      }
      regs[0] := 0;
      pc := Next(pc);
    }

    /** `execute_imm_instruction` (slti, lw, sw, jeq, addi). */
    method ExecuteImmInstruction(instr: Word)
      requires Valid()
      modifies regs, memory, this`pc
      ensures Valid()
      ensures Abs() == ImmStep(instr, old(Abs()))
    {
      var opcode := Opcode(instr);
      var regSrc, regDst := RegA(instr), RegB(instr);
      var imm := SignExtend7(Imm7(instr));
      if opcode == OpSlti {
        regs[regDst] := if regs[regSrc] < imm then 1 else 0;
        pc := Next(pc);
      } else if opcode == OpLw {
        var regAddr, regDst := MemBase(instr), MemReg(instr);
        var loadAddr := EffectiveAddress(regs[regAddr], imm);
        if loadAddr < MemSize {
          regs[regDst] := memory[loadAddr];
        }
        pc := Next(pc);
      } else if opcode == OpSw {
        var regAddr, regSrc := MemBase(instr), MemReg(instr);
        var storeAddr := EffectiveAddress(regs[regAddr], imm);
        if storeAddr < MemSize {
          memory[storeAddr] := regs[regSrc];
        }
        pc := Next(pc);
      } else if opcode == OpJeq {
        if regs[regSrc] == regs[regDst] {
          pc := Trunc16(pc as int + 1 + imm);
        } else {
          pc := Next(pc);
        }
      } else if opcode == OpAddi {
        regs[regDst] := Trunc16(regs[regSrc] as int + imm);
        pc := Next(pc);
      } else {
        pc := Next(pc);
      }
      regs[0] := 0;
    }

    /** `execute_control_instruction` (j, jal). */
    method ExecuteControlInstruction(instr: Word)
      requires Valid()
      modifies regs, this`pc, this`isHalt
      ensures Valid()
      ensures Abs() == ControlStep(instr, old(Abs()))
    {
      var opcode := Opcode(instr);
      var imm := Target(instr);
      if opcode == OpJ {
        if imm == pc {
          isHalt := true;
        } else {
          pc := imm;
        }
      } else if opcode == OpJal {
        regs[7] := Next(pc);
        pc := imm;
      }
      regs[0] := 0;
    }

    /** One pass of the loop in `main`: fetch `memory[pc & 8191]`, stop on a jump to itself,
        otherwise dispatch on the opcode class. */
    method Cycle()
      requires Valid()
      modifies regs, memory, this`pc, this`isHalt
      ensures Valid()
      ensures Abs() == Step(old(Abs()))
    {
      var instr := memory[Wrap13(pc)];
      var imm := Target(instr);
      var opcode := Opcode(instr);
      if opcode == OpJ && imm == pc {
        isHalt := true;
        return;
      }
      if opcode == OpAlu {
        ExecuteInstruction(instr);
      } else if opcode == OpSlti || opcode == OpAddi || opcode == OpLw || opcode == OpSw || opcode == OpJeq {
        ExecuteImmInstruction(instr);
      } else if opcode == OpJ || opcode == OpJal {
        ExecuteControlInstruction(instr);
      }
    }

    /** The loop `while (!isHalt)` of `main`, stopped after at most `fuel` passes; `steps`
        is the number of passes made. */
    method Simulate(fuel: nat) returns (steps: nat)
      requires Valid()
      modifies regs, memory, this`pc, this`isHalt
      ensures Valid()
      ensures steps <= fuel
      ensures Abs() == Run(old(Abs()), fuel)
      ensures Abs() == Run(old(Abs()), steps)
      ensures isHalt || steps == fuel
    {
      ghost var start := Abs();
      steps := 0;
      while !isHalt && steps < fuel
        invariant Valid()
        invariant steps <= fuel
        invariant Abs() == Run(start, steps)
      {
        Cycle();
        steps := steps + 1;
      }
      if isHalt {
        Properties.RunHaltedStays(start, steps, fuel);
      }
    }
  }
}
