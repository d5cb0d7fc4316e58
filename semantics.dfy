/** The machine's behaviour as functions over a register-file value. The class
    in machine.dfy is proved to follow these functions step for step; the
    properties the machine promises are proved here, about them. */
module Semantics {
  import opened Wrappers
  import opened Words
  import opened Instruction

  /** Number of scratch-memory slots. */
  const SCRATCH_MEM_SLOTS: nat := 16

  /** The register file: frame pointer (program counter), accumulator, index
      register and scratch memory. */
  datatype Regs = Regs(frame: u32, accumulator: u32, index: u32, memory: seq<u32>)

  /** A zero-initialised register file. */
  function ZeroRegs(): (r: Regs)
    ensures r.frame == 0 && r.accumulator == 0 && r.index == 0
    ensures |r.memory| == SCRATCH_MEM_SLOTS
    ensures forall i :: 0 <= i < |r.memory| ==> r.memory[i] == 0
  {
    Regs(0, 0, 0, seq(SCRATCH_MEM_SLOTS, _ => 0))
  }

  /** Word load from packet offset `k`: fails when `k` is not inside the packet
      or when fewer than four bytes remain from `k`. */
  function LoadWord(k: u32, pkt: seq<u8>): (r: Option<u32>)
    ensures r.Some? <==> k as int + 4 <= |pkt|
    ensures r.Some? ==> r.value == BeU32(pkt[k], pkt[k as int + 1], pkt[k as int + 2], pkt[k as int + 3])
  {
    if k as int >= |pkt| then None
    else ReadU32Be(pkt[k..])
  }

  /** Half-word load from packet offset `k`: fails when `k` is not inside the
      packet or when fewer than two bytes remain from `k`; the value is
      zero-extended. */
  function LoadHalf(k: u32, pkt: seq<u8>): (r: Option<u32>)
    ensures r.Some? <==> k as int + 2 <= |pkt|
    ensures r.Some? ==> r.value as int < U16_LIMIT
    ensures r.Some? ==> r.value == BeU16(pkt[k], pkt[k as int + 1])
  {
    if k as int >= |pkt| then None
    else ReadU16Be(pkt[k..])
  }

  /** A successful word load yields exactly the word whose big-endian bytes sit
      at `k`, and those bytes are in the packet. */
  lemma LoadWordMeans(k: u32, pkt: seq<u8>, v: u32)
    ensures LoadWord(k, pkt) == Some(v) <==> k as int + 4 <= |pkt| && pkt[k..k as int + 4] == WordBytes(v)
  {
    if k as int + 4 <= |pkt| {
      var b := pkt[k..k as int + 4];
      BeU32RoundTrip(b[0], b[1], b[2], b[3]);
      WordBytesRoundTrip(v);
      assert b == [b[0], b[1], b[2], b[3]];
    }
  }

  /** A successful half-word load yields exactly the half-word whose big-endian
      bytes sit at `k`. */
  lemma LoadHalfMeans(k: u32, pkt: seq<u8>, v: u32)
    ensures LoadHalf(k, pkt) == Some(v) <==>
      k as int + 2 <= |pkt| && v as int < U16_LIMIT && pkt[k..k as int + 2] == HalfBytes(v)
  {
    if k as int + 2 <= |pkt| {
      var b := pkt[k..k as int + 2];
      BeU16RoundTrip(b[0], b[1]);
      if v as int < U16_LIMIT {
        HalfBytesRoundTrip(v);
      }
      assert b == [b[0], b[1]];
    }
  }

  /** Effective offset of an indexed load, `index + k`; an addition that does
      not fit in 32 bits has no offset and the load fails. */
  function IndexedOffset(index: u32, k: u32): (r: Option<u32>)
    ensures r.Some? <==> index as int + k as int < U32_LIMIT
    ensures r.Some? ==> r.value as int == index as int + k as int
  {
    if index as int + k as int < U32_LIMIT then Some((index as int + k as int) as u32) else None
  }

  /** The source's own `idx + k` in a build where u32 addition wraps. */
  function WrappingAdd(index: u32, k: u32): (r: u32)
    ensures index as int + k as int < U32_LIMIT ==> r as int == index as int + k as int
    ensures index as int + k as int >= U32_LIMIT ==> r as int == index as int + k as int - U32_LIMIT
  {
    ((index as int + k as int) % U32_LIMIT) as u32
  }

  /** With wrapping addition an indexed word load whose true offset lies past
      the end of the packet still succeeds, reading from offset 0. */
  lemma WrappedIndexedLoadEscapesBounds()
    ensures var pkt: seq<u8> := [0xDE, 0xAD, 0xBE, 0xEF];
            1 + 0xFFFF_FFFF >= |pkt| && LoadWord(WrappingAdd(1, 0xFFFF_FFFF), pkt) == Some(0xDEAD_BEEF)
  {
  }

  /** Wrapping and checked addition agree whenever the sum fits; when it does
      not, the wrapped offset is smaller than both operands. */
  lemma WrappingAddAgreesWithIndexedOffset(index: u32, k: u32)
    ensures IndexedOffset(index, k).Some? ==> WrappingAdd(index, k) == IndexedOffset(index, k).value
    ensures IndexedOffset(index, k).None? ==> WrappingAdd(index, k) < index && WrappingAdd(index, k) < k
  {
  }

  /** Whenever `index + k` overflows and the wrapped offset lands inside the
      packet, the wrapping word load succeeds although the checked one fails. */
  lemma WrappedIndexedLoadDiffers(index: u32, k: u32, pkt: seq<u8>)
    requires index as int + k as int >= U32_LIMIT
    requires WrappingAdd(index, k) as int + 4 <= |pkt|
    ensures LoadWord(WrappingAdd(index, k), pkt).Some?
    ensures Action(LDWI, k, index, pkt).None?
  {
  }

  /** The action of an opcode: the new accumulator, or None when the action
      fails. `index` is the index register as read before dispatch. */
  function Action(op: Opcode, k: u32, index: u32, pkt: seq<u8>): (r: Option<u32>)
    ensures op == LDI ==> r == Some(k)
    ensures op == LDW ==> r == LoadWord(k, pkt)
    ensures op == LDH ==> r == LoadHalf(k, pkt)
    ensures op.Unknown? ==> r.None?
    ensures var off := index as int + k as int;
      r.None? <==>
        match op
        case LDI => false
        case LDW => k as int + 4 > |pkt|
        case LDH => k as int + 2 > |pkt|
        case LDWI => off >= U32_LIMIT || off + 4 > |pkt|
        case LDHI => off >= U32_LIMIT || off + 2 > |pkt|
        case Unknown(_) => true
    ensures r.Some? && (op == LDH || op == LDHI) ==> r.value as int < U16_LIMIT
  {
    match op
    case LDI => Some(k)
    case LDW => LoadWord(k, pkt)
    case LDWI =>
      (match IndexedOffset(index, k)
       case None => None
       case Some(off) => LoadWord(off, pkt))
    case LDH => LoadHalf(k, pkt)
    case LDHI =>
      (match IndexedOffset(index, k)
       case None => None
       case Some(off) => LoadHalf(off, pkt))
    case Unknown(_) => None
  }

  /** Indexed loads never read outside the packet: a successful indexed load
      reads the bytes at the true (unwrapped) offset `index + k`. */
  lemma IndexedLoadStaysInBounds(op: Opcode, k: u32, index: u32, pkt: seq<u8>)
    requires op == LDWI || op == LDHI
    requires Action(op, k, index, pkt).Some?
    ensures var off := index as int + k as int;
            var v := Action(op, k, index, pkt).value;
            && (op == LDWI ==> off + 4 <= |pkt| && pkt[off..off + 4] == WordBytes(v))
            && (op == LDHI ==> off + 2 <= |pkt| && pkt[off..off + 2] == HalfBytes(v))
  {
    var off := IndexedOffset(index, k).value;
    var v := Action(op, k, index, pkt).value;
    if op == LDWI {
      LoadWordMeans(off, pkt, v);
    } else {
      LoadHalfMeans(off, pkt, v);
    }
  }

  /** The frame never overflows 32 bits when `instr` is executed in `r`. */
  predicate FrameRoom(r: Regs, instr: Instruction)
  {
    r.frame as int + MaxAdvance(instr) < U32_LIMIT
  }

  /** One `execute`: run the opcode's action; on failure return Err with the
      registers untouched; on success store the new accumulator and advance the
      frame by the class rule. No present opcode yields a verdict. */
  function Step(r: Regs, instr: Instruction, pkt: seq<u8>): (out: (Result<Option<u32>>, Regs))
    requires FrameRoom(r, instr)
    ensures out.0 in {Err, Ok(None)}
    ensures out.0.Err? ==> out.1 == r
    ensures out.1.index == r.index && out.1.memory == r.memory
    ensures out.0.Ok? ==> Action(instr.opcode, instr.k, r.index, pkt) == Some(out.1.accumulator)
    ensures out.0.Ok? ==> out.1.frame as int == r.frame as int + Advance(instr, out.1.accumulator)
  {
    match Action(instr.opcode, instr.k, r.index, pkt)
    case None => (Err, r)
    case Some(acc) =>
      (Ok(None), r.(accumulator := acc, frame := (r.frame as int + Advance(instr, acc)) as u32))
  }

  /** A failed step changes nothing; a step fails exactly on an unknown opcode or
      on a load whose bytes are not all inside the packet. */
  lemma StepFailsExactly(r: Regs, instr: Instruction, pkt: seq<u8>)
    requires FrameRoom(r, instr)
    ensures Step(r, instr, pkt).0.Err? ==> Step(r, instr, pkt).1 == r
    ensures var k := instr.k as int; var off := r.index as int + k;
      Step(r, instr, pkt).0.Err? <==>
        match instr.opcode
        case LDI => false
        case LDW => k + 4 > |pkt|
        case LDH => k + 2 > |pkt|
        case LDWI => off >= U32_LIMIT || off + 4 > |pkt|
        case LDHI => off >= U32_LIMIT || off + 2 > |pkt|
        case Unknown(_) => true
  {
  }

  /** An immediate load never fails, whatever the packet, and puts `k` in the
      accumulator. */
  lemma StepLdiNeverFails(r: Regs, instr: Instruction, pkt: seq<u8>)
    requires FrameRoom(r, instr) && instr.opcode == LDI
    ensures Step(r, instr, pkt).0 == Ok(None)
    ensures Step(r, instr, pkt).1.accumulator == instr.k
  {
  }

  /** A successful step changes only the accumulator and the frame; the frame
      moves by one for a non-jump instruction, and for a jump instruction by
      `jt` when the new accumulator is zero and by `jf` otherwise. */
  lemma StepSuccess(r: Regs, instr: Instruction, pkt: seq<u8>)
    requires FrameRoom(r, instr) && Step(r, instr, pkt).0.Ok?
    ensures var r' := Step(r, instr, pkt).1;
      && r'.index == r.index && r'.memory == r.memory
      && (instr.instrClass != Jmp ==> r'.frame as int == r.frame as int + 1)
      && (instr.instrClass == Jmp && r'.accumulator == 0 ==> r'.frame as int == r.frame as int + instr.jt)
      && (instr.instrClass == Jmp && r'.accumulator != 0 ==> r'.frame as int == r.frame as int + instr.jf)
  {
  }

  /** After a successful absolute load the packet bytes at `k` are exactly the
      big-endian bytes of the new accumulator. */
  lemma StepLoadsPacketBytes(r: Regs, instr: Instruction, pkt: seq<u8>)
    requires FrameRoom(r, instr) && Step(r, instr, pkt).0.Ok?
    ensures var k := instr.k as int; var acc := Step(r, instr, pkt).1.accumulator;
            && (instr.opcode == LDW ==> k + 4 <= |pkt| && pkt[k..k + 4] == WordBytes(acc))
            && (instr.opcode == LDH ==> k + 2 <= |pkt| && acc as int < U16_LIMIT && pkt[k..k + 2] == HalfBytes(acc))
  {
    var acc := Step(r, instr, pkt).1.accumulator;
    if instr.opcode == LDW {
      LoadWordMeans(instr.k, pkt, acc);
    } else if instr.opcode == LDH {
      LoadHalfMeans(instr.k, pkt, acc);
    }
  }

  /** With the present opcode set a step never yields a verdict. */
  lemma StepNeverYieldsVerdict(r: Regs, instr: Instruction, pkt: seq<u8>)
    requires FrameRoom(r, instr)
    ensures Step(r, instr, pkt).0 in {Err, Ok(None)}
  {
  }

  /** How a run of the program ends: `Returned` carries what `run_program`
      returns (a verdict or Err); `FetchOutOfBounds` is a fetch at a frame past
      the end of the program; `OutOfFuel` means the step budget ran out first. */
  datatype RunResult = Returned(result: Result<u32>) | FetchOutOfBounds | OutOfFuel

  /** No instruction of `prog`, executed at a frame inside `prog`, can push the
      frame past 32 bits. */
  predicate FitsFrame(prog: seq<Instruction>)
  {
    forall i :: 0 <= i < |prog| ==> |prog| + MaxAdvance(prog[i]) <= U32_LIMIT
  }

  /** The fetch-execute loop from `r`, for at most `fuel` fetches: fetch the
      instruction at the frame, execute it, stop on an error or a verdict,
      otherwise go on from the new registers. */
  function Run(r: Regs, prog: seq<Instruction>, pkt: seq<u8>, fuel: nat): (out: (RunResult, Regs))
    requires FitsFrame(prog)
    ensures out.0 == FetchOutOfBounds ==> out.1.frame as int >= |prog|
    ensures out.0 == Returned(Err) ==>
      out.1.frame as int < |prog| && Step(out.1, prog[out.1.frame], pkt).0 == Err
    decreases fuel
  {
    if fuel == 0 then (OutOfFuel, r)
    else if r.frame as int >= |prog| then (FetchOutOfBounds, r)
    else
      var step := Step(r, prog[r.frame], pkt);
      if step.0.Err? then (Returned(Err), step.1)
      else if step.0.value.Some? then (Returned(Ok(step.0.value.value)), step.1)
      else Run(step.1, prog, pkt, fuel - 1)
  }

  /** The registers after `n` steps from `r` that each fetch inside the program
      and continue without error or verdict; None if one of them does not. */
  function Steps(r: Regs, prog: seq<Instruction>, pkt: seq<u8>, n: nat): Option<Regs>
    requires FitsFrame(prog)
    decreases n
  {
    if n == 0 then Some(r)
    else if r.frame as int >= |prog| then None
    else
      var step := Step(r, prog[r.frame], pkt);
      if step.0 == Ok(None) then Steps(step.1, prog, pkt, n - 1) else None
  }

  /** The first of `n > 0` uneventful steps fetches inside the program and
      continues; the other `n - 1` go on from where it leaves the registers. */
  lemma StepsFirst(r: Regs, prog: seq<Instruction>, pkt: seq<u8>, n: nat) returns (next: Regs)
    requires FitsFrame(prog) && n > 0 && Steps(r, prog, pkt, n).Some?
    ensures r.frame as int < |prog|
    ensures Step(r, prog[r.frame], pkt) == (Ok(None), next)
    ensures Steps(r, prog, pkt, n) == Steps(next, prog, pkt, n - 1)
  {
    next := Step(r, prog[r.frame], pkt).1;
  }

  /** A run whose first step continues goes on from that step's registers with
      one fetch fewer. */
  lemma RunFirst(r: Regs, prog: seq<Instruction>, pkt: seq<u8>, fuel: nat)
    requires FitsFrame(prog) && fuel > 0 && r.frame as int < |prog|
    requires Step(r, prog[r.frame], pkt).0 == Ok(None)
    ensures Run(r, prog, pkt, fuel) == Run(Step(r, prog[r.frame], pkt).1, prog, pkt, fuel - 1)
  {
  }

  /** A run never returns a verdict: it ends with Err, with a fetch past the
      end of the program, or out of fuel. */
  lemma {:induction false} RunNeverReturnsVerdict(r: Regs, prog: seq<Instruction>, pkt: seq<u8>, fuel: nat)
    requires FitsFrame(prog)
    ensures Run(r, prog, pkt, fuel).0 in {Returned(Err), FetchOutOfBounds, OutOfFuel}
    decreases fuel
  {
    if fuel > 0 && r.frame as int < |prog| {
      var step := Step(r, prog[r.frame], pkt);
      if step.0 == Ok(None) {
        assert Run(r, prog, pkt, fuel) == Run(step.1, prog, pkt, fuel - 1);
        RunNeverReturnsVerdict(step.1, prog, pkt, fuel - 1);
      }
    }
  }

  /** A run leaves the index register and scratch memory as they were. */
  lemma {:induction false} RunKeepsIndexAndMemory(r: Regs, prog: seq<Instruction>, pkt: seq<u8>, fuel: nat)
    requires FitsFrame(prog)
    ensures Run(r, prog, pkt, fuel).1.index == r.index
    ensures Run(r, prog, pkt, fuel).1.memory == r.memory
    decreases fuel
  {
    if fuel > 0 && r.frame as int < |prog| {
      var step := Step(r, prog[r.frame], pkt);
      if step.0 == Ok(None) {
        assert Run(r, prog, pkt, fuel) == Run(step.1, prog, pkt, fuel - 1);
        RunKeepsIndexAndMemory(step.1, prog, pkt, fuel - 1);
      }
    }
  }

  /** After `n` uneventful steps the run goes on exactly as a run started from
      the registers those steps reach, with `n` fewer fetches to spend. */
  lemma {:induction false} RunAfterSteps(r: Regs, prog: seq<Instruction>, pkt: seq<u8>, n: nat, fuel: nat)
    requires FitsFrame(prog) && n <= fuel && Steps(r, prog, pkt, n).Some?
    ensures Run(r, prog, pkt, fuel) == Run(Steps(r, prog, pkt, n).value, prog, pkt, fuel - n)
    decreases n
  {
    if n > 0 {
      var next := StepsFirst(r, prog, pkt, n);
      RunFirst(r, prog, pkt, fuel);
      RunAfterSteps(next, prog, pkt, n - 1, fuel - 1);
    }
  }

  /** The run stops at the first step that fails, returning Err in the
      registers that step started from, and at the first fetch past the end of
      the program. */
  lemma RunStopsAtFirstFault(r: Regs, prog: seq<Instruction>, pkt: seq<u8>, n: nat, fuel: nat)
    requires FitsFrame(prog) && n < fuel && Steps(r, prog, pkt, n).Some?
    ensures var s := Steps(r, prog, pkt, n).value;
      && (s.frame as int >= |prog| ==> Run(r, prog, pkt, fuel) == (FetchOutOfBounds, s))
      && (s.frame as int < |prog| && Step(s, prog[s.frame], pkt).0.Err? ==>
            Run(r, prog, pkt, fuel) == (Returned(Err), s))
  {
    var s := Steps(r, prog, pkt, n).value;
    RunAfterSteps(r, prog, pkt, n, fuel);
    if s.frame as int < |prog| {
      StepFailsExactly(s, prog[s.frame], pkt);
    }
  }

  /** Fuel only cuts a run short: a run that ended for any other reason ends the
      same way with more fuel. */
  lemma {:induction false} RunFuelMonotone(r: Regs, prog: seq<Instruction>, pkt: seq<u8>, fuel: nat, more: nat)
    requires FitsFrame(prog) && fuel <= more && Run(r, prog, pkt, fuel).0 != OutOfFuel
    ensures Run(r, prog, pkt, more) == Run(r, prog, pkt, fuel)
    decreases fuel
  {
    if r.frame as int < |prog| {
      var step := Step(r, prog[r.frame], pkt);
      if step.0 == Ok(None) {
        assert Run(r, prog, pkt, fuel) == Run(step.1, prog, pkt, fuel - 1);
        assert Run(r, prog, pkt, more) == Run(step.1, prog, pkt, more - 1);
        RunFuelMonotone(step.1, prog, pkt, fuel - 1, more - 1);
      }
    }
  }
}
