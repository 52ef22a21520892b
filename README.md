# E20 simulator core in Dafny

This project models the fetch–decode–execute engine of the E20 simulator `sim.cpp`. E20 is a
16-bit machine with eight 16-bit registers, 8192 words of memory and a 16-bit program
counter. The model covers:

- the ALU executor `execute_instruction`: add, sub, or, and, slt and jr;
- the immediate executor `execute_imm_instruction`: slti, lw, sw, jeq and addi;
- the control executor `execute_control_instruction`: j and jal;
- the simulation loop of `main`, which fetches `memory[pc & 8191]`, stops on a jump to
  itself and otherwise dispatches on the top three bits.

The source works by updating state in place, and the model keeps that form.
`Simulator.Machine` is a class with the `regs` and `memory` arrays and the `pc` and `isHalt`
variables. Its methods are the three executors, one pass of the loop (`Cycle`) and the loop
itself (`Simulate`). Each method is proved to leave the machine in the state that a pure
function of module `Isa` computes from the old state:

| method | function |
|---|---|
| `ExecuteInstruction` | `AluStep` |
| `ExecuteImmInstruction` | `ImmStep` |
| `ExecuteControlInstruction` | `ControlStep` |
| `Cycle` | `Step` |
| `Simulate` | `Run` |

Module `Properties` proves, about those functions, what the source guarantees:

- the wrap-around arithmetic;
- register 0 always reads 0;
- the frame of every instruction, meaning which registers and words it leaves alone;
- jr's net pc;
- the lw/sw address wrap;
- the halt condition of the loop.

The other modules:

- `Bits` gives the meaning of `uint16_t` arithmetic, the C operators and, or and right shift. Words are integers in
  [0, 65536). C's bitwise operators are defined bit by bit and tied to arithmetic by lemmas.
- `Decoder` gives the instruction fields. Each field is defined arithmetically, and
  `FieldsAreMasks` proves it equal to the source's `(instr >> lo) & mask`.
- `Scenarios` checks concrete programs and instructions.

## Model

| member | source | states |
|---|---|---|
| Bits.Trunc16 | sim.cpp:103 | storing an int into a `uint16_t` keeps a value congruent to it modulo 2^16, and an in-range value unchanged |
| Bits.ShiftRight | sim.cpp:90 | C's `>>` on an unsigned value as repeated halving; the result is at most the operand, and `ShiftRightIsDiv` gives its value |
| Bits.BitAnd | sim.cpp:112 | C's `&` on non-negative values, defined bit by bit; the result is at most either operand, and `AndAt` gives every bit |
| Bits.BitOr | sim.cpp:109 | C's or on non-negative values, defined bit by bit; the result lies between the larger operand and the sum, and `OrAt` gives every bit |
| Bits.ShiftRightIsDiv | sim.cpp:90 | `x >> k` on an unsigned value is `x / 2^k` |
| Bits.AndAt | sim.cpp:112 | bit k of `a & b` is set iff bit k is set in both |
| Bits.OrAt | sim.cpp:109 | bit k of the C or of a and b is set iff bit k is set in either |
| Bits.AndLowMask | sim.cpp:160 | `x & (2^k - 1)` is `x mod 2^k`, so `& 8191` is reduction modulo 8192 |
| Bits.OrDisjoint | sim.cpp:143 | or-ing a value below 2^k with a multiple of 2^k is their sum |
| Bits.WordOr | sim.cpp:109 | the C or of two words is a word whose 16 bits are the or of theirs |
| Bits.WordAnd | sim.cpp:112 | the `&` of two words is a word whose 16 bits are the and of theirs |
| Decoder.Opcode | sim.cpp:131 | the opcode class is below 8 |
| Decoder.AluFunc | sim.cpp:88 | the function code is below 16; `FieldsAreMasks` proves it is `instr & 0xF` |
| Decoder.RegA | sim.cpp:90 | the register field of bits 10-12 (ALU srcA, and the source of slti, addi and jeq at sim.cpp:132); `FieldsAreMasks` proves it is `(instr >> 10) & 0x7` |
| Decoder.RegB | sim.cpp:91 | the register field of bits 7-9 (ALU srcB, and the destination of slti and addi at sim.cpp:133); `FieldsAreMasks` proves it is `(instr >> 7) & 0x7` |
| Decoder.AluDst | sim.cpp:92 | the ALU destination field of bits 4-6; `FieldsAreMasks` proves it is `(instr >> 4) & 0x7` |
| Decoder.MemBase | sim.cpp:153 | the lw/sw base register of bits 9-11 (also sim.cpp:169); `FieldsAreMasks` proves it is `(instr >> 9) & 0x7` |
| Decoder.MemReg | sim.cpp:154 | the lw destination and sw source of bits 6-8 (also sim.cpp:170); `FieldsAreMasks` proves it is `(instr >> 6) & 0x7` |
| Decoder.Imm7 | sim.cpp:134 | the raw immediate is below 128 |
| Decoder.Target | sim.cpp:209 | the j/jal target is below 8192 |
| Decoder.ShiftMask | sim.cpp:90 | the C expression `(w >> shift) & mask`; the result never exceeds the mask |
| Decoder.ShiftMaskIsField | sim.cpp:90 | `(w >> lo) & (2^width - 1)` is the width-bit field starting at bit lo |
| Decoder.FieldsAreMasks | sim.cpp:88-209 | every field function of the three executors (sim.cpp:88-92, 131-134, 153-154, 169-171, 208-209) equals the source's shift-and-mask: opcode, function code, the three ALU registers, the lw/sw registers, the immediate and the target |
| Decoder.AndSingleBit | sim.cpp:142 | `x & 2^k` is non-zero exactly when bit k of x is set |
| Decoder.SignExtend7 | sim.cpp:142-144 | the sign extension of the 7-bit immediate with 0xFF80 (also sim.cpp:158 and 173): bits 0-6 are kept and bits 6-15 all equal bit 6; `SignExtendIsOr` proves it is the C expression |
| Decoder.SignExtendIsOr | sim.cpp:142-144 | the sign-extension function is exactly "if bit 6 is set, or with 0xFF80" |
| Decoder.SignExtendSigned | sim.cpp:142-144 | the sign-extended immediate read as signed lies in [-64, 63]; it is raw - 128 (mod 2^16) exactly when bit 6 is set, and raw otherwise |
| Decoder.AddSignExtended | sim.cpp:160 | adding the sign-extended immediate unsigned is adding the signed immediate, both modulo 2^16 and modulo 8192 |
| Decoder.AluLayout | sim.cpp:88-92 | an ALU word is the concatenation opcode, srcA, srcB, dst, function code |
| Decoder.ImmLayout | sim.cpp:131-134 | a slti/addi/jeq word is the concatenation opcode, src, dst, immediate |
| Decoder.ControlLayout | sim.cpp:208-209 | a j/jal word is the concatenation opcode, target |
| Decoder.MemFieldsOverlap | sim.cpp:153-154 | the lw/sw register fields straddle the slti/addi fields by one bit; the lw/sw register field's low bit is the immediate's sign bit |
| Isa.Wrap13 | sim.cpp:285 | `x & 8191` is a memory address, equal to x when x already is one |
| Isa.Wrap13IsMask | sim.cpp:285 | `Wrap13` is the C expression `x & 8191` |
| Isa.EffectiveAddress | sim.cpp:160-161 | the lw/sw address is always below 8192, so the range guard always passes |
| Isa.Next | sim.cpp:126 | `pc += 1` on a `uint16_t`: pc + 1, and 0 after 0xFFFF |
| Isa.AluStep | sim.cpp:87-127 | the ALU executor leaves register 0 at 0, memory and the halt flag untouched |
| Isa.ImmStep | sim.cpp:130-203 | the immediate executor leaves register 0 at 0 and the halt flag untouched |
| Isa.ControlStep | sim.cpp:207-231 | the control executor leaves register 0 at 0 and memory untouched |
| Isa.Fetch | sim.cpp:285 | the word at `pc & 8191`; for a pc below 8192 it is the word at pc |
| Isa.IsSelfJump | sim.cpp:299 | the loop's halt test passes exactly on the word 0x4000 + pc with pc below 8192, that is `j pc` |
| Isa.Step | sim.cpp:284-312 | one pass of the loop keeps 8 registers and 8192 words; its behaviour is stated by the lemmas of `Properties` |
| Isa.Run | sim.cpp:284-312 | the loop bounded by fuel keeps 8 registers and 8192 words |
| Isa.Initial | sim.cpp:269-272 | before the loop: pc 0, not halted, every register 0, memory holding the loaded words and zeros after them |
| Simulator.Machine.constructor | sim.cpp:269-272 | the fresh machine is `Initial(image)` |
| Simulator.Machine.ExecuteInstruction | sim.cpp:87-127 | updates only the register array and the pc, exactly as `AluStep` says |
| Simulator.Machine.ExecuteImmInstruction | sim.cpp:130-203 | updates only the register array, memory and the pc, exactly as `ImmStep` says |
| Simulator.Machine.ExecuteControlInstruction | sim.cpp:207-231 | updates only the register array, the pc and the halt flag, exactly as `ControlStep` says |
| Simulator.Machine.Cycle | sim.cpp:285-309 | one pass of the loop updates the machine exactly as `Step` says |
| Simulator.Machine.Simulate | sim.cpp:284-312 | after at most `fuel` passes the machine is `Run(start, fuel)`; it stops early only on halting |
| Properties.AluAddSub | sim.cpp:102-107 | add and sub store (A + B) mod 2^16 and (A - B) mod 2^16 in the register of bits 4-6; every other register and memory are unchanged; pc + 1 |
| Properties.AluLogic | sim.cpp:108-113 | or and and store the bitwise or / and of the sources; every other register and memory are unchanged; pc + 1 |
| Properties.AluSlt | sim.cpp:114-116 | slt stores 1 iff A < B unsigned and 0 iff B <= A; every other register and memory are unchanged; pc + 1 |
| Properties.AluJr | sim.cpp:117-126 | jr: the final pc is the value of the register of bits 10-12, also when it is 0; no register but register 0 changes |
| Properties.AluUndefinedIsNoop | sim.cpp:120-126 | any other function code changes no register other than clearing register 0, and advances pc by exactly 1 |
| Properties.Slti | sim.cpp:147-150 | slti stores 1 iff the source is below the sign-extended immediate, both unsigned; a negative immediate is at least 0xFFC0, so every register value below 0xFFC0 compares less |
| Properties.Addi | sim.cpp:190-193 | addi stores (src + signed immediate) mod 2^16; nothing else but pc + 1 changes |
| Properties.Lw | sim.cpp:152-166 | lw loads the word at (base + signed immediate) mod 8192 into the register of bits 6-8; no memory and no other register changes; pc + 1 |
| Properties.Sw | sim.cpp:168-181 | sw writes the register of bits 6-8 to (base + signed immediate) mod 8192; every other word and every register are unchanged; pc + 1 |
| Properties.Jeq | sim.cpp:182-189 | jeq changes no register or memory; pc becomes (pc + 1 + signed immediate) mod 2^16 when the registers are equal, pc + 1 otherwise |
| Properties.Jump | sim.cpp:214-220 | j to a target other than pc jumps there and leaves the halt flag; j to pc raises it and leaves pc |
| Properties.JumpAndLink | sim.cpp:221-224 | jal stores pc + 1 in register 7 and jumps to the 13-bit target |
| Properties.StepHaltsIff | sim.cpp:284-302 | a pass halts iff the word at pc mod 8192 has opcode 010 and target equal to pc; that pass changes nothing else |
| Properties.ControlHaltUnreachable | sim.cpp:299-309 | after the loop's self-jump test, the control executor never takes its own halt branch |
| Properties.StepDispatch | sim.cpp:303-306 | unless the fetched word is a jump to itself, a pass on class 000 is the ALU executor and a pass on slti, addi, lw, sw or jeq is the immediate executor |
| Properties.StepAdvancesPc | sim.cpp:303-309 | outside j, jal, jeq and jr every pass advances pc by exactly 1 |
| Properties.StepFrame | sim.cpp:303-309 | only sw changes memory, and no pass leaves register 0 non-zero |
| Properties.RunHaltedStays | sim.cpp:284 | once the loop has halted, further passes change nothing |
| Properties.RunKeepsRegisterZero | sim.cpp:284-312 | register 0 reads 0 after any number of passes |
| Scenarios.HaltAtZero | sim.cpp:299-302 | a program whose word 0 is 0x4000 halts at pc 0 with every register 0 |
| Scenarios.AddiThenHalt | sim.cpp:190-193 | `addi $1, $0, 5` then `j 1` halts at pc 1 with register 1 = 5 and the others 0 |
| Scenarios.SltExample | sim.cpp:114-115 | `slt $3, $1, $2` stores 1 for 3 < 5 and 0 for 5 < 3 |
| Scenarios.JeqExample | sim.cpp:182-187 | jeq with immediates 3 and -2 at pc 10 goes to 14 and 9 when taken, to 11 otherwise |
| Scenarios.AddressWraps | sim.cpp:160 | lw/sw addresses wrap: 8190 + 2 is 0 and 0 + (-1) is 8191 |

## Left out

- `load_machine_code` (sim.cpp:29-52) is not part of this model. It is file reading and text parsing. The loaded image is the parameter `image` of `Isa.Initial` and of the `Machine` constructor.
- `print_state` (sim.cpp:64-84) is not part of this model. It is output formatting only.
- Command-line parsing, usage text and file opening in `main` (sim.cpp:242-281) are not part of this model. They are I/O.
- Termination of the whole run is not modelled. The loop at sim.cpp:284 has no bound, so `Isa.Run` and `Simulator.Machine.Simulate` take a `fuel` bound on the number of passes.
- Isa.Step: its own contract states only that the state stays well formed. Its meaning is proved by `StepHaltsIff`, `ControlHaltUnreachable`, `StepAdvancesPc` and `StepFrame`, and per opcode by the executor lemmas.
- Isa.Run: its own contract states only that the state stays well formed. Its meaning is proved by `RunHaltedStays`, `RunKeepsRegisterZero` and `Simulate`.
- The integer promotion of `uint16_t` operands to `int` is modelled by unbounded integers truncated with `Trunc16` when the value is stored. This gives the same values.
- Some defaults cannot be reached from the loop: the `default` of the immediate executor, the `default` of the control executor and the loop's own fall-through. They are modelled as the source writes them.
