/** The already-decoded instruction the machine consumes. How an instruction is
    encoded, and how its class is extracted from the opcode bits, belong to a
    collaborator outside this model; here both arrive as plain fields. */
module Instruction {
  import opened Words

  /** The operations `execute` dispatches on: immediate load, absolute and
      indexed word loads, absolute and indexed half-word loads; every other
      opcode value is `Unknown`. */
  datatype Opcode = LDI | LDW | LDWI | LDH | LDHI | Unknown(code: nat)

  /** The coarse instruction classes of a BPF-style machine. Only `Jmp` versus
      everything else affects how the frame advances. */
  datatype InstrClass = Ld | Ldx | St | Stx | Alu | Jmp | Ret | Misc

  /** An instruction: its opcode, its class, the branch displacements `jt`
      (taken when the accumulator is zero) and `jf`, and the operand `k`. */
  datatype Instruction = Instruction(opcode: Opcode, instrClass: InstrClass, jt: nat, jf: nat, k: u32)

  /** How far the frame moves after `instr` succeeds, given the accumulator
      value the instruction's action left behind. */
  function Advance(instr: Instruction, acc: u32): (d: nat)
    ensures instr.instrClass != Jmp ==> d == 1
    ensures instr.instrClass == Jmp && acc == 0 ==> d == instr.jt
    ensures instr.instrClass == Jmp && acc != 0 ==> d == instr.jf
  {
    match instr.instrClass
    case Jmp => if acc == 0 then instr.jt else instr.jf
    case _ => 1
  }

  /** The largest distance `instr` can move the frame, whatever the accumulator. */
  function MaxAdvance(instr: Instruction): (d: nat)
    ensures forall acc: u32 :: Advance(instr, acc) <= d
  {
    if instr.instrClass != Jmp then 1
    else if instr.jt < instr.jf then instr.jf
    else instr.jt
  }
}
