/** The packet-filter register machine as an object whose methods update its
    registers in place. Each method is proved to follow the functions of
    module Semantics, where the machine's promises are proved. */
module Machine {
  import opened Wrappers
  import opened Words
  import opened Instruction
  import opened Semantics

  class PsuedoMachine {
    /** The frame pointer: index of the next instruction to fetch. */
    var frame: u32
    /** The accumulator: destination of every load, tested by jumps. */
    var accumulator: u32
    /** The index register, added to `k` by the indexed loads. */
    var index: u32
    /** Scratch memory. */
    var memory: array<u32>

    ghost predicate Valid()
      reads this
    {
      memory.Length == SCRATCH_MEM_SLOTS
    }

    /** The register file as a value. */
    ghost function State(): Regs
      reads this, memory
    {
      Regs(frame, accumulator, index, memory[..])
    }

    /** A zero-initialised machine. */
    constructor ()
      ensures Valid() && fresh(memory)
      ensures State() == ZeroRegs()
    {
      frame, accumulator, index := 0, 0, 0;
      memory := new u32[SCRATCH_MEM_SLOTS](_ => 0);
    }

    /** Sets every register and every scratch slot back to zero. */
    method Reset()
      requires Valid()
      modifies this`frame, this`accumulator, this`index, memory
      ensures Valid() && memory == old(memory)
      ensures State() == ZeroRegs()
    {
      frame := 0;
      accumulator := 0;
      index := 0;
      forall i | 0 <= i < memory.Length {
        memory[i] := 0;
      }
    }

    /** The value in scratch slot `n`, which must be one of the slots. */
    method Mem(n: nat) returns (v: u32)
      requires Valid() && n < SCRATCH_MEM_SLOTS
      ensures v == State().memory[n]
    {
      v := memory[n];
    }

    /** Test setup: overwrite the frame pointer. */
    method SetFrame(f: u32)
      modifies this`frame
      ensures State() == old(State()).(frame := f)
    {
      frame := f;
    }

    /** Test setup: overwrite the accumulator. */
    method SetAccumulator(acc: u32)
      modifies this`accumulator
      ensures State() == old(State()).(accumulator := acc)
    {
      accumulator := acc;
    }

    /** Test setup: overwrite the index register. */
    method SetIndex(x: u32)
      modifies this`index
      ensures State() == old(State()).(index := x)
    {
      index := x;
    }

    /** Test setup: overwrite scratch slot `idx`, which must be one of the slots. */
    method SetMemory(idx: nat, val: u32)
      requires Valid() && idx < SCRATCH_MEM_SLOTS
      modifies memory
      ensures Valid()
      ensures State() == old(State()).(memory := old(State()).memory[idx := val])
    {
      memory[idx] := val;
    }

    /** Loads the big-endian word at packet offset `k` into the accumulator;
        on failure the accumulator keeps its value. */
    method LdU32(k: u32, pkt: seq<u8>) returns (ret: Result<Option<u32>>)
      modifies this`accumulator
      ensures ret == if LoadWord(k, pkt).Some? then Ok(None) else Err
      ensures accumulator == if LoadWord(k, pkt).Some? then LoadWord(k, pkt).value else old(accumulator)
    {
      if k as int >= |pkt| {
        return Err;
      }
      var read := ReadU32Be(pkt[k..]);
      if read.None? {
        return Err;
      }
      accumulator := read.value;
      ret := Ok(None);
    }

    /** Loads the big-endian half-word at packet offset `k`, zero-extended,
        into the accumulator; on failure the accumulator keeps its value. */
    method LdU16(k: u32, pkt: seq<u8>) returns (ret: Result<Option<u32>>)
      modifies this`accumulator
      ensures ret == if LoadHalf(k, pkt).Some? then Ok(None) else Err
      ensures accumulator == if LoadHalf(k, pkt).Some? then LoadHalf(k, pkt).value else old(accumulator)
    {
      if k as int >= |pkt| {
        return Err;
      }
      var read := ReadU16Be(pkt[k..]);
      if read.None? {
        return Err;
      }
      accumulator := read.value;
      ret := Ok(None);
    }

    /** Executes one instruction: dispatch on the opcode, and after a successful
        action advance the frame by the class rule. */
    method Execute(instr: Instruction, pkt: seq<u8>) returns (ret: Result<Option<u32>>)
      requires Valid() && FrameRoom(State(), instr)
      modifies this`frame, this`accumulator
      ensures Valid()
      ensures (ret, State()) == Step(old(State()), instr, pkt)
      ensures ret.Err? ==> State() == old(State())
      ensures ret in {Err, Ok(None)}
    {
      ghost var before := State();
      var k := instr.k;
      var idx := index;
      match instr.opcode {
        case LDI =>
          accumulator := k;
          ret := Ok(None);
        case LDW =>
          ret := LdU32(k, pkt);
        case LDWI =>
          var off := IndexedOffset(idx, k);
          if off.None? {
            ret := Err;
          } else {
            ret := LdU32(off.value, pkt);
          }
        case LDH =>
          ret := LdU16(k, pkt);
        case LDHI =>
          var off := IndexedOffset(idx, k);
          if off.None? {
            ret := Err;
          } else {
            ret := LdU16(off.value, pkt);
          }
        case Unknown(_) =>
          ret := Err;
      }
      if ret.Err? {
        return;
      }
      frame := (frame as int + Advance(instr, accumulator)) as u32;
      StepFailsExactly(before, instr, pkt);
    }

    /** Runs `prog` from the current registers until a step fails, a step
        yields a verdict, a fetch falls outside the program, or `fuel`
        fetches have been spent. */
    method RunProgram(prog: seq<Instruction>, pkt: seq<u8>, fuel: nat) returns (res: RunResult)
      requires Valid() && FitsFrame(prog)
      modifies this`frame, this`accumulator
      ensures Valid()
      ensures (res, State()) == Run(old(State()), prog, pkt, fuel)
      ensures res in {Returned(Err), FetchOutOfBounds, OutOfFuel}
      ensures index == old(index) && memory[..] == old(memory[..])
    {
      ghost var start := State();
      var left: nat := fuel;
      while left > 0
        invariant Valid()
        invariant left <= fuel
        invariant index == start.index && memory[..] == start.memory
        invariant Run(State(), prog, pkt, left) == Run(start, prog, pkt, fuel)
        decreases left
      {
        if frame as int >= |prog| {
          res := FetchOutOfBounds;
          RunNeverReturnsVerdict(start, prog, pkt, fuel);
          return;
        }
        var r := Execute(prog[frame], pkt);
        if r.Err? {
          res := Returned(Err);
          RunNeverReturnsVerdict(start, prog, pkt, fuel);
          return;
        }
        if r.value.Some? {
          // Here a step that yields a verdict ends the run: a return-class
          // opcode would set res := Returned(Ok(r.value.value)) and return.
          // No present opcode yields a verdict (Execute's last ensures), so
          // this arm cannot be reached.
          assert false;
        }
        left := left - 1;
      }
      res := OutOfFuel;
      RunNeverReturnsVerdict(start, prog, pkt, fuel);
    }
  }
}
