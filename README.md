# Packet-filter register machine, modelled in Dafny

This project models `PsuedoMachine` (the source's spelling), the BPF-style
packet-filter interpreter of `src/vm/machine.rs`. It has a frame pointer
(the program counter), a 32-bit accumulator, an index register and 16
scratch-memory slots. It executes already-decoded instructions against a
packet held as a byte slice. `execute` dispatches on the opcode: `LDI`
(immediate), `LDW`/`LDH` (absolute big-endian word/half-word loads) and
`LDWI`/`LDHI` (the same loads at `index + k`). Any other opcode is an error.
After a successful action the frame advances: by `jt` or `jf` for a
jump-class instruction, depending on whether the accumulator is zero, and by
1 for every other class. `run_program` fetches and executes instructions
until a step fails or yields a verdict.

Layout:

- `wrappers.dfy`: `Option`, and `Result` with a bare `Err` (the source's `Err(())`).
- `words.dfy`: `u8`/`u32` newtypes and big-endian combining and splitting.
  It also has `ReadU32Be`/`ReadU16Be`, which stand for the byte-order cursor reads.
- `instruction.dfy`: the decoded instruction: opcode, class, `jt`, `jf`, `k`.
  It also has the frame-advance rule.
- `semantics.dfy`: the behaviour as functions over a register-file value `Regs`,
  and the lemmas that state what the machine promises. The functions are
  `LoadWord`, `LoadHalf`, `Action`, `Step` (one `execute`) and `Run` (the loop, with fuel).
- `machine.dfy`: class `PsuedoMachine`, whose fields are the registers and whose
  `memory` is a 16-slot array. Its methods update the fields in place.
  `Execute` is proved to match `Step` and `RunProgram` to match `Run`.
  `LdU32`/`LdU16` are proved against `LoadWord`/`LoadHalf`. The constructor and
  `Reset` are proved against `ZeroRegs`. `Mem` and the setters are specified
  directly over the fields. Each method says what it leaves unchanged.
- `examples.dfy`: the repository's unit tests stated as lemmas, plus a client method
  proving that a reset machine equals a fresh one.

Decisions where the model differs from what the code does:

- Indexed offset `index + k`. The code adds in `u32`: a debug build panics on
  overflow and a release build wraps. The model treats an offset that does not
  fit in 32 bits as a failed load (`Err`): the offset must never wrap into the
  packet, because packets and filter programs are untrusted input. The wrapping
  reading is kept as `WrappingAdd`; see Findings.
- The fetch `prog[frame]`. The code indexes the slice, and indexing past its end
  panics. The model checks the fetch and ends the run with the distinct outcome
  `FetchOutOfBounds`, which is never a verdict.
- `frame += …`. No such addition may overflow 32 bits. This is a precondition
  (`FrameRoom` for `Execute`, `FitsFrame` for `RunProgram`), because the widths
  of `jt`/`jf` are not visible.

## Model

| member | source | states |
|---|---|---|
| `Words.BeU16` | src/vm/machine.rs:112-117 | a big-endian half-word, zero-extended to 32 bits, is below 65536 |
| `Words.WordBytesRoundTrip` | src/vm/machine.rs:98-99 | splitting a word into four big-endian bytes and combining them gives the word back |
| `Words.BeU32RoundTrip` | src/vm/machine.rs:98-99 | combining four bytes big-endian and splitting the word gives the same four bytes, most significant first |
| `Words.HalfBytesRoundTrip` | src/vm/machine.rs:112-113 | splitting a half-word into two bytes and combining them gives it back |
| `Words.BeU16RoundTrip` | src/vm/machine.rs:112-113 | combining two bytes and splitting the half-word gives the same two bytes |
| `Words.ReadU32Be` | src/vm/machine.rs:98-102 | the word read fails exactly when fewer than 4 bytes remain; on success it is the big-endian combination of the first four |
| `Words.ReadU32BeMeans` | src/vm/machine.rs:98-102 | the word read yields `v` if and only if at least 4 bytes remain and the first four are `v`'s big-endian bytes |
| `Words.ReadU16Be` | src/vm/machine.rs:112-116 | the half-word read fails exactly when fewer than 2 bytes remain; on success it is the big-endian combination of the first two |
| `Words.ReadU16BeMeans` | src/vm/machine.rs:112-116 | the half-word read yields `v` if and only if at least 2 bytes remain, `v < 65536` and the first two are `v`'s big-endian bytes |
| `Instruction.Advance` | src/vm/machine.rs:144-153 | the frame displacement is 1 for any non-jump class; for the jump class it is `jt` when the accumulator is 0 and `jf` otherwise |
| `Instruction.MaxAdvance` | src/vm/machine.rs:144-153 | bounds every frame displacement the class rule can produce, for any accumulator |
| `Semantics.ZeroRegs` | src/vm/machine.rs:70-77 | frame, accumulator and index are 0, and all 16 memory slots are 0 |
| `Semantics.LoadWord` | src/vm/machine.rs:94-105 | a word load at `k` succeeds exactly when `k + 4 <= |pkt|` (so it fails for `k >= |pkt|` and for fewer than 4 bytes left); the value is `pkt[k..k+4]` read big-endian |
| `Semantics.LoadHalf` | src/vm/machine.rs:108-119 | a half-word load at `k` succeeds exactly when `k + 2 <= |pkt|`; the value is `pkt[k..k+2]` read big-endian, zero-extended below 65536 |
| `Semantics.LoadWordMeans` | src/vm/machine.rs:94-105 | a word load yields `v` if and only if the four bytes at `k` are inside the packet and are `v`'s big-endian bytes |
| `Semantics.LoadHalfMeans` | src/vm/machine.rs:108-119 | a half-word load yields `v` if and only if the two bytes at `k` are inside the packet and are `v`'s big-endian bytes, with `v < 65536` |
| `Semantics.IndexedOffset` | src/vm/machine.rs:136-138 | the effective offset exists exactly when `index + k` fits in 32 bits, and then it equals `index + k` |
| `Semantics.WrappingAdd` | src/vm/machine.rs:136-138 | the source's `idx + k` with 32-bit wrap-around: the plain sum when it fits, otherwise the sum minus 2^32 |
| `Semantics.WrappingAddAgreesWithIndexedOffset` | src/vm/machine.rs:136-138 | when `index + k` fits, the wrapping and checked offsets are equal; when it overflows, the wrapped offset is smaller than both `index` and `k` |
| `Semantics.WrappedIndexedLoadDiffers` | src/vm/machine.rs:136 | for every overflowing `index + k` whose wrapped offset leaves four bytes in the packet, the wrapping word load succeeds while the checked `LDWI` fails |
| `Semantics.WrappedIndexedLoadEscapesBounds` | src/vm/machine.rs:136 | with wrap-around, index 1 and k 0xFFFFFFFF give a true offset past a 4-byte packet, yet the word load succeeds and reads offset 0 |
| `Semantics.Action` | src/vm/machine.rs:130-140 | `LDI` yields `k`; `LDW` and `LDH` yield exactly the word or half-word load at `k` (so the big-endian bytes at `k`); an unknown opcode fails; an action fails exactly when its load's bytes are not all in the packet or, for the indexed loads, when `index + k` overflows; half-word results are below 65536 |
| `Semantics.IndexedLoadStaysInBounds` | src/vm/machine.rs:128-138 | a successful `LDWI`/`LDHI` reads exactly the bytes at the unwrapped offset `index + k`, all of them inside the packet; `index` is the value read before dispatch |
| `Semantics.Step` | src/vm/machine.rs:124-155 | one `execute` returns only `Err` or `Ok(None)`; on `Err` the registers are unchanged; index and memory are never changed; on success the new accumulator is the opcode action's value and the frame moves by the class rule applied to it |
| `Semantics.StepFailsExactly` | src/vm/machine.rs:130-143 | `execute` fails exactly on an unknown opcode, or on a load whose bytes are not all in the packet (the indexed loads also fail on offset overflow); a failed step leaves frame, accumulator, index and memory unchanged |
| `Semantics.StepLdiNeverFails` | src/vm/machine.rs:131-134 | `LDI` succeeds for every packet and sets the accumulator to `k` |
| `Semantics.StepSuccess` | src/vm/machine.rs:141-154 | a successful step leaves index and memory unchanged; the frame moves by 1 for a non-jump class, and for the jump class by `jt` when the new accumulator is 0 and by `jf` otherwise |
| `Semantics.StepLoadsPacketBytes` | src/vm/machine.rs:135-137 | after a successful `LDW` (`LDH`) step, the 4 (2) packet bytes at `k` are inside the packet and are exactly the big-endian bytes of the new accumulator |
| `Semantics.StepNeverYieldsVerdict` | src/vm/machine.rs:130-140 | with the present opcodes, `execute` returns only `Err` or `Ok(None)`, never `Ok(Some(_))` |
| `Semantics.Run` | src/vm/machine.rs:159-171 | a run that ends in a fetch fault ends at a frame past the program; a run that ends in `Err` ends in the registers where the fetched instruction's step failed |
| `Semantics.RunNeverReturnsVerdict` | src/vm/machine.rs:159-171 | a run ends with `Err`, with a fetch past the end of the program, or out of fuel; it never returns a verdict |
| `Semantics.RunKeepsIndexAndMemory` | src/vm/machine.rs:159-171 | a run never changes the index register or scratch memory |
| `Semantics.RunAfterSteps` | src/vm/machine.rs:160-170 | after `n` steps that continue, the loop goes on exactly as a run started from the registers they reach |
| `Semantics.RunStopsAtFirstFault` | src/vm/machine.rs:161-165 | the run returns `Err` at the first failing step, in the registers that step started from, and stops at the first fetch past the end of the program |
| `Semantics.RunFuelMonotone` | src/vm/machine.rs:160-170 | a run that did not run out of fuel ends the same way given more fuel, so fuel only cuts a run short |
| `Machine.PsuedoMachine.constructor` | src/vm/machine.rs:70-77 | a new machine has the zero register file and a fresh 16-slot memory |
| `Machine.PsuedoMachine.Reset` | src/vm/machine.rs:80-85 | after reset the register file is the zero register file, whatever it was before; so reset is idempotent and matches a fresh machine, as the client method `MachineExamples.ResetMatchesFresh` shows by resetting twice and comparing with a new machine |
| `Machine.PsuedoMachine.Mem` | src/vm/machine.rs:88-91 | only a slot below 16 may be read, and the value is that slot |
| `Machine.PsuedoMachine.SetFrame` | src/vm/machine.rs:51-53 | only the frame changes, to the given value |
| `Machine.PsuedoMachine.SetAccumulator` | src/vm/machine.rs:55-57 | only the accumulator changes, to the given value |
| `Machine.PsuedoMachine.SetIndex` | src/vm/machine.rs:59-61 | only the index register changes, to the given value |
| `Machine.PsuedoMachine.SetMemory` | src/vm/machine.rs:63-65 | only slot `idx`, which must be below 16, changes, to the given value |
| `Machine.PsuedoMachine.LdU32` | src/vm/machine.rs:94-105 | returns `Ok(None)` and sets the accumulator to the loaded word when `LoadWord` succeeds; otherwise returns `Err` with the accumulator unchanged; nothing else is modified |
| `Machine.PsuedoMachine.LdU16` | src/vm/machine.rs:108-119 | the same for the zero-extended half-word of `LoadHalf` |
| `Machine.PsuedoMachine.Execute` | src/vm/machine.rs:124-155 | the result and the new registers are those of `Step`; on `Err` nothing changed; the result is never a verdict; only frame and accumulator may change |
| `Machine.PsuedoMachine.RunProgram` | src/vm/machine.rs:159-171 | the outcome and the final registers are those of `Run` from the registers before the call; the outcome is never a verdict; index and memory are unchanged |
| `MachineExamples.ExampleLdi` | src/vm/machine.rs:184-192 | `LDI 0xDEADBEEF` on a zero machine gives `Ok(None)`, accumulator 0xDEADBEEF and frame 1 |
| `MachineExamples.ExampleLdw` | src/vm/machine.rs:194-206 | `LDW 3` over DE AD BE EF at offset 3 gives accumulator 0xDEADBEEF |
| `MachineExamples.ExampleLdh` | src/vm/machine.rs:208-220 | `LDH 3` over the same packet gives accumulator 0xDEAD |
| `MachineExamples.ExampleLdwi` | src/vm/machine.rs:222-235 | with index 1, `LDWI 3` reads offset 4 and gives 0xDEADBEEF |
| `MachineExamples.ExampleLdhi` | src/vm/machine.rs:237-250 | with index 1, `LDHI 3` reads offset 4 and gives 0xDEAD |
| `MachineExamples.ExampleOutOfBounds` | src/vm/machine.rs:94-119 | word and half-word loads at offset 63 of a 64-byte packet fail and leave every register unchanged |
| `MachineExamples.JumpPastEndFaults` | src/vm/machine.rs:144-161 | a one-instruction program whose jump moves the frame past its only instruction ends with an out-of-bounds fetch, not a verdict |

## Left out

- The byte-order cursor (`Cursor`, `ReadBytesExt`) is a library call. `ReadU32Be`/`ReadU16Be` stand for its big-endian reads.
- `run_program_bytes` is `unimplemented!()` in the source, so it has no behaviour to model.
- Instruction encoding, the `class()` bit extraction and the opcode constants are not part of this model. The class is an independent field. With the real encoding the five load opcodes would presumably be load-class, and then the jump rule could not be reached; the model keeps it reachable.
- The `Testing` getters (`frame()`, `accumulator()`, `index()`, `memory()`) are not separate members. The model's fields and `State()` are read directly.
- Non-termination of `run_program` on jump cycles: `RunProgram` and `Run` take a `fuel` bound and end with `OutOfFuel` when it runs out. Programs that loop forever are therefore not modelled beyond the bound.
- Execute: its precondition `FrameRoom` leaves room for the larger of `jt` and `jf`, not only the one taken, because the widths of `jt`/`jf` are not visible. This is stronger than the source needs. The source's overflow of `frame += …` (a panic or a wrap) is not modelled.
- RunProgram: its precondition `FitsFrame` bounds the program length plus each instruction's largest displacement by 2^32, for the same reason.
- `reset` in the source assigns a new zero array value. The model zeroes the same array in place, with the same observable state.
- The test-module scaffolding is not modelled. Its cases are the `MachineExamples` lemmas.

## Findings

| source | as written | input that shows it | evidently intended | confidence | as-written member | corrected member |
|---|---|---|---|---|---|---|
| src/vm/machine.rs:136-138 | `idx + k` is a plain `u32` addition; in a release build it wraps | index 1, k 0xFFFFFFFF, packet DE AD BE EF: the true offset 2^32 lies past the packet, but the wrapped offset 0 reads 0xDEADBEEF | an indexed offset that does not fit in 32 bits is an out-of-bounds read and fails | not executed; a debug build panics here instead of wrapping | `Semantics.WrappedIndexedLoadEscapesBounds` | `Semantics.Action`, `Semantics.IndexedLoadStaysInBounds` |
