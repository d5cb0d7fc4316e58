/** The repository's unit tests, restated as facts about the model, and a
    client of the machine object. */
module MachineExamples {
  import opened Wrappers
  import opened Words
  import opened Instruction
  import opened Semantics
  import opened Machine

  /** A 64-byte zero packet with DE AD BE EF at offsets `at` .. `at + 3`. */
  function TestPacket(at: nat): (pkt: seq<u8>)
    requires at + 4 <= 64
    ensures |pkt| == 64
    ensures pkt[at..at + 4] == [0xDE, 0xAD, 0xBE, 0xEF]
  {
    seq(64, i => if i == at then 0xDE else if i == at + 1 then 0xAD
                 else if i == at + 2 then 0xBE else if i == at + 3 then 0xEF else 0)
  }

  lemma ExampleLdi()
    ensures var s := Step(ZeroRegs(), Instruction(LDI, Ld, 0, 0, 0xDEAD_BEEF), seq(64, _ => 0));
            s.0 == Ok(None) && s.1.accumulator == 0xDEAD_BEEF && s.1.frame == 1
  {
  }

  lemma ExampleLdw()
    ensures var s := Step(ZeroRegs(), Instruction(LDW, Ld, 0, 0, 3), TestPacket(3));
            s.0 == Ok(None) && s.1.accumulator == 0xDEAD_BEEF
  {
    var pkt := TestPacket(3);
    assert pkt[3] == 0xDE && pkt[4] == 0xAD && pkt[5] == 0xBE && pkt[6] == 0xEF;
  }

  lemma ExampleLdh()
    ensures var s := Step(ZeroRegs(), Instruction(LDH, Ld, 0, 0, 3), TestPacket(3));
            s.0 == Ok(None) && s.1.accumulator == 0xDEAD
  {
    var pkt := TestPacket(3);
    assert pkt[3] == 0xDE && pkt[4] == 0xAD;
  }

  lemma ExampleLdwi()
    ensures var s := Step(ZeroRegs().(index := 1), Instruction(LDWI, Ld, 0, 0, 3), TestPacket(4));
            s.0 == Ok(None) && s.1.accumulator == 0xDEAD_BEEF
  {
    var pkt := TestPacket(4);
    assert pkt[4] == 0xDE && pkt[5] == 0xAD && pkt[6] == 0xBE && pkt[7] == 0xEF;
  }

  lemma ExampleLdhi()
    ensures var s := Step(ZeroRegs().(index := 1), Instruction(LDHI, Ld, 0, 0, 3), TestPacket(4));
            s.0 == Ok(None) && s.1.accumulator == 0xDEAD
  {
    var pkt := TestPacket(4);
    assert pkt[4] == 0xDE && pkt[5] == 0xAD;
  }

  /** A load past the end of the packet fails and leaves the registers as they
      were, for every load opcode and every register file. */
  lemma ExampleOutOfBounds(r: Regs)
    requires r.frame as int + 1 < U32_LIMIT
    ensures forall op :: op in {LDW, LDH} ==> Step(r, Instruction(op, Ld, 0, 0, 63), TestPacket(0)) == (Err, r)
  {
  }

  /** A one-instruction program whose jump leaves the program ends in a fetch
      outside the program, not in a verdict. */
  lemma JumpPastEndFaults(pkt: seq<u8>, jt: nat, jf: nat, fuel: nat)
    requires 1 <= jt && 1 <= jf && jt + 1 < U32_LIMIT && jf + 1 < U32_LIMIT && fuel >= 2
    ensures var prog := [Instruction(LDI, Jmp, jt, jf, 0)];
            FitsFrame(prog) && Run(ZeroRegs(), prog, pkt, fuel).0 == FetchOutOfBounds
  {
  }

  /** Resetting a used machine gives the registers of a fresh one, and a
      second reset changes nothing. */
  method ResetMatchesFresh(pkt: seq<u8>)
  {
    var pm := new PsuedoMachine();
    pm.SetIndex(7);
    pm.SetMemory(3, 42);
    var _ := pm.Execute(Instruction(LDI, Ld, 0, 0, 0xDEAD_BEEF), pkt);
    pm.Reset();
    ghost var once := pm.State();
    pm.Reset();
    assert pm.State() == once;
    var other := new PsuedoMachine();
    assert pm.State() == other.State();
  }
}
