/** `BInstruction::getUInstructions` for the instructions that transfer control: `BHalt`, `BGoto`,
    `BTest`, `BCase`, `BApply` and `BReturn`. Each lowering is the label, the work on memory, then the
    register updates and the transfer; each is proved lowered, within its effects, to write each VM
    register it changes once and in the update's order, and to end with its transfer. */
module UControlLowering {
  import opened Words
  import opened TaggedMemory
  import opened Machine
  import opened BCode
  import opened UCode
  import opened Interpreter
  import opened LoweringShape

  /** The effects of code that only updates registers. */
  function Registers(w: set<URegister>): Effects {
    Effects(w, map[], map[])
  }

  // ---------------------------------------------------------------------------------------------
  // BHalt and BGoto

  /** `BHalt::getUInstructions`: the label, then `UHalt`. */
  function HaltPieces(cp: Word): Pieces {
    Lowering(cp, [], [[UHalt(cp)]])
  }

  /** `BHalt` lowers to code that ends in `UHalt` and writes no register, stores nothing and checks no
      tag. */
  lemma HaltLowering(cp: Word)
    ensures var ps := HaltPieces(cp);
            && Lowered(ps, cp) && Performs(ps, Registers({}))
            && ps[|ps| - 1] == [UHalt(cp)]
  {
    SinglesBuilt([[UHalt(cp)]], cp);
    WorkThenUpdate(cp, [], [[UHalt(cp)]], Registers({}), {}, {});
  }

  /** `BGoto::getUInstructions`: the label, then `UGoto` to the destination and the guard after it. */
  function GotoPieces(cp: Word, destination: Word): Pieces {
    Lowering(cp, [], [[UGoto(cp, destination)], [UGuard(cp)]])
  }

  /** `BGoto` lowers to code that ends in a jump to its destination and a guard, and writes no register,
      stores nothing and checks no tag. */
  lemma GotoLowering(cp: Word, destination: Word)
    ensures var ps := GotoPieces(cp, destination);
            && Lowered(ps, cp) && Performs(ps, Registers({}))
            && ps[|ps| - 2..] == [[UGoto(cp, destination)], [UGuard(cp)]]
  {
    var update := [[UGoto(cp, destination)], [UGuard(cp)]];
    SinglesBuilt(update, cp);
    WorkThenUpdate(cp, [], update, Registers({}), {}, {});
  }

  // ---------------------------------------------------------------------------------------------
  // BTest

  /** `BTest`'s work: the top item must be a `Bool`; its value goes to `r0`. */
  function TestWork(cp: Word): Pieces {
    [GetAndCheckTagged(cp, R0, SP(-1, ValPart), Bool)]
  }

  /** `BTest`'s update: pop the tested item, then branch on `r0` and guard. */
  function TestUpdate(cp: Word, destination: Word): Pieces {
    [[Bump(cp, Sub, Sp, 1)], [UBranch(cp, R0, destination)], [UGuard(cp)]]
  }

  /** `BTest::getUInstructions`. */
  function TestPieces(cp: Word, destination: Word): Pieces {
    Lowering(cp, TestWork(cp), TestUpdate(cp, destination))
  }

  /** What `BTest` may do: write `r0` and `sp`, store nothing, and check that the top item is a `Bool`. */
  function TestEffects(): Effects {
    Effects({R0, Sp}, map[], map[SP(-1, TagPart) := (Bool, Bool)])
  }

  lemma TestParts(cp: Word, destination: Word)
    ensures Built(TestWork(cp), cp) && Performs(TestWork(cp), TestEffects().(writes := {R0}))
    ensures ChecksAt(TestWork(cp), SP(-1, TagPart), Bool, Bool, 0, 1) && ReadAt(TestWork(cp), R0, SP(-1, ValPart), 0, 2)
    ensures Built(TestUpdate(cp, destination), cp) && Performs(TestUpdate(cp, destination), Registers({Sp}))
    ensures MovesBy(TestUpdate(cp, destination), Sp, -1)
  {
    SinglesBuilt(TestUpdate(cp, destination), cp);
    assert OnlyAt(TestUpdate(cp, destination), Register(Sp), 0, 0);
  }

  /** `BTest` lowers to code that checks that the top item is a `Bool` and reads its value, pops it,
      leaves `cp`, `fp` and `hp` to the branch, and ends by branching on the value to its destination. */
  lemma TestLowering(cp: Word, destination: Word)
    ensures var ps := TestPieces(cp, destination);
            && Lowered(ps, cp) && Performs(ps, TestEffects())
            && MovesBy(ps, Sp, SpDelta(BTest(cp, destination)))
            && Untouched(ps, Register(Cp)) && Untouched(ps, Register(Fp)) && Untouched(ps, Register(Hp))
            && Checks(ps, SP(-1, TagPart), Bool, Bool) && Reads(ps, R0, SP(-1, ValPart))
            && ps[|ps| - 2..] == [[UBranch(cp, R0, destination)], [UGuard(cp)]]
  {
    var work, update := TestWork(cp), TestUpdate(cp, destination);
    TestParts(cp, destination);
    WorkThenUpdate(cp, work, update, TestEffects(), {R0}, {Sp});
    MovesFromUpdate(cp, work, update, Sp, -1);
    LeftAlone(cp, work, update, TestEffects().(writes := {R0}), Registers({Sp}), Cp);
    LeftAlone(cp, work, update, TestEffects().(writes := {R0}), Registers({Sp}), Fp);
    LeftAlone(cp, work, update, TestEffects().(writes := {R0}), Registers({Sp}), Hp);
    KeptCheck(cp, work, update, SP(-1, TagPart), Bool, Bool, 0, 1);
    KeptRead(cp, work, update, R0, SP(-1, ValPart), 0, 2);
  }

  // ---------------------------------------------------------------------------------------------
  // BCase

  /** `BCase`'s work: the top item must be a `HeapIndex` to an `Inl` or `Inr` header; the injected item
      is copied over it, and `r0` is set to whether the header is `InlHeader`. */
  function CaseWork(cp: Word): Pieces {
    [ GetAndCheckTagged(cp, R2, SP(-1, ValPart), HeapIndex),
      [UTagCheck(cp, ArgLocation(HeapAt(R2, 0, TagPart)), InlHeader, InrHeader)],
      MoveAndCheck(cp, R0, HeapAt(R2, 1, TagPart), SP(-1, TagPart)),
      MoveAndCheck(cp, R0, HeapAt(R2, 1, ValPart), SP(-1, ValPart)),
      GetAndCheck(cp, R0, HeapAt(R2, 0, TagPart)),
      [UOper(cp, Eq, R0, Reg(R0), TagImm(InlHeader))] ]
  }

  /** `BCase`'s update: branch on `r0` and guard. */
  function CaseUpdate(cp: Word, destination: Word): Pieces {
    [[UBranch(cp, R0, destination)], [UGuard(cp)]]
  }

  /** `BCase::getUInstructions`. */
  function CasePieces(cp: Word, destination: Word): Pieces {
    Lowering(cp, CaseWork(cp), CaseUpdate(cp, destination))
  }

  /** What `BCase` may do: write `r0` and `r2`, store the copy through `r0` over the top item, check that
      the top item is a `HeapIndex` and that its header is `InlHeader` or `InrHeader`. */
  function CaseEffects(): Effects {
    Effects({R0, R2},
            map[SP(-1, TagPart) := Reg(R0), SP(-1, ValPart) := Reg(R0)],
            map[SP(-1, TagPart) := (HeapIndex, HeapIndex), HeapAt(R2, 0, TagPart) := (InlHeader, InrHeader)])
  }

  lemma CaseWorkOk(cp: Word)
    ensures Built(CaseWork(cp), cp) && Performs(CaseWork(cp), CaseEffects())
  {
    assert AccessGuarded(CaseWork(cp)[1], 0);
  }

  lemma CaseWorkFacts(cp: Word)
    ensures var work := CaseWork(cp);
            && ChecksAt(work, SP(-1, TagPart), HeapIndex, HeapIndex, 0, 1)
            && ChecksAt(work, HeapAt(R2, 0, TagPart), InlHeader, InrHeader, 1, 0)
            && ReadAt(work, R2, SP(-1, ValPart), 0, 2)
            && CopiesAt(work, cp, HeapAt(R2, 1, TagPart), SP(-1, TagPart), 2)
            && CopiesAt(work, cp, HeapAt(R2, 1, ValPart), SP(-1, ValPart), 3)
  {
  }

  lemma CaseSteps(cp: Word, destination: Word)
    ensures var ps := CasePieces(cp, destination);
            && Lowered(ps, cp) && Performs(ps, CaseEffects())
            && Untouched(ps, Register(Sp)) && Untouched(ps, Register(Cp))
            && Untouched(ps, Register(Fp)) && Untouched(ps, Register(Hp))
            && ps[|ps| - 4..] == [GetAndCheck(cp, R0, HeapAt(R2, 0, TagPart)), [UOper(cp, Eq, R0, Reg(R0), TagImm(InlHeader))],
                                  [UBranch(cp, R0, destination)], [UGuard(cp)]]
  {
    var work, update := CaseWork(cp), CaseUpdate(cp, destination);
    CaseWorkOk(cp);
    SinglesBuilt(update, cp);
    WorkThenUpdate(cp, work, update, CaseEffects(), {R0, R2}, {});
    LeftAlone(cp, work, update, CaseEffects(), Registers({}), Sp);
    LeftAlone(cp, work, update, CaseEffects(), Registers({}), Cp);
    LeftAlone(cp, work, update, CaseEffects(), Registers({}), Fp);
    LeftAlone(cp, work, update, CaseEffects(), Registers({}), Hp);
    LoweringIndex(cp, work, update);
  }

  lemma CaseKeeps(cp: Word, destination: Word)
    ensures var ps := CasePieces(cp, destination);
            && Checks(ps, SP(-1, TagPart), HeapIndex, HeapIndex)
            && Checks(ps, HeapAt(R2, 0, TagPart), InlHeader, InrHeader)
            && Reads(ps, R2, SP(-1, ValPart))
            && Copies(ps, cp, HeapAt(R2, 1, TagPart), SP(-1, TagPart))
            && Copies(ps, cp, HeapAt(R2, 1, ValPart), SP(-1, ValPart))
  {
    var work, update := CaseWork(cp), CaseUpdate(cp, destination);
    CaseWorkFacts(cp);
    KeptCheck(cp, work, update, SP(-1, TagPart), HeapIndex, HeapIndex, 0, 1);
    KeptCheck(cp, work, update, HeapAt(R2, 0, TagPart), InlHeader, InrHeader, 1, 0);
    KeptRead(cp, work, update, R2, SP(-1, ValPart), 0, 2);
    KeptCopy(cp, work, update, HeapAt(R2, 1, TagPart), SP(-1, TagPart), 2);
    KeptCopy(cp, work, update, HeapAt(R2, 1, ValPart), SP(-1, ValPart), 3);
  }

  /** `BCase` lowers to code that checks for a `HeapIndex` on top pointing to an `Inl` or `Inr` header,
      copies the injected item over the top item, leaves every VM register to the branch, and ends by
      reading the header again, comparing it with `InlHeader` and branching on the result to its
      destination. */
  lemma CaseLowering(cp: Word, destination: Word)
    ensures var ps := CasePieces(cp, destination);
            && Lowered(ps, cp) && Performs(ps, CaseEffects())
            && Untouched(ps, Register(Sp)) && Untouched(ps, Register(Cp))
            && Untouched(ps, Register(Fp)) && Untouched(ps, Register(Hp))
            && ps[|ps| - 4..] == [GetAndCheck(cp, R0, HeapAt(R2, 0, TagPart)), [UOper(cp, Eq, R0, Reg(R0), TagImm(InlHeader))],
                                  [UBranch(cp, R0, destination)], [UGuard(cp)]]
            && Checks(ps, SP(-1, TagPart), HeapIndex, HeapIndex)
            && Checks(ps, HeapAt(R2, 0, TagPart), InlHeader, InrHeader)
            && Reads(ps, R2, SP(-1, ValPart))
            && Copies(ps, cp, HeapAt(R2, 1, TagPart), SP(-1, TagPart))
            && Copies(ps, cp, HeapAt(R2, 1, ValPart), SP(-1, ValPart))
  {
    CaseSteps(cp, destination);
    CaseKeeps(cp, destination);
  }

  // ---------------------------------------------------------------------------------------------
  // BApply

  /** `BApply`'s work: the frame pointer and the return address `cp + 1` pushed as two items, the
      closure below them checked to be a `HeapIndex` and the code index in its cell 1 read into `r0`. */
  function ApplyWork(cp: Word): Pieces {
    [ SetAndCheck(cp, SP(0, TagPart), TagImm(FramePointer)),
      SetAndCheck(cp, SP(0, ValPart), Reg(Fp)),
      SetAndCheck(cp, SP(1, TagPart), TagImm(ReturnAddress)),
      [UOper(cp, Add, R0, Reg(Cp), IntImm(1))],
      SetAndCheck(cp, SP(1, ValPart), Reg(R0)),
      GetAndCheckTagged(cp, R2, SP(-1, ValPart), HeapIndex),
      GetAndCheckTagged(cp, R0, HeapAt(R2, 1, ValPart), CodeIndex) ]
  }

  /** `fp := sp`. */
  function ApplyFp(cp: Word): UInstruction {
    UOper(cp, Add, Fp, Reg(Sp), IntImm(0))
  }

  /** `BApply`'s update: the new frame starts at the old `sp`, two slots are pushed, `cp` jumps to the
      code index, then `UApply` and the guard. */
  function ApplyUpdate(cp: Word): Pieces {
    [[ApplyFp(cp)], [Bump(cp, Add, Sp, 2)], [UMove(cp, Cp, Reg(R0))], [UApply(cp)], [UGuard(cp)]]
  }

  /** `BApply::getUInstructions`. */
  function ApplyPieces(cp: Word): Pieces {
    Lowering(cp, ApplyWork(cp), ApplyUpdate(cp))
  }

  /** What `BApply` may do: write `r0`, `r2`, `fp`, `sp` and `cp`, store the frame pointer and the
      return address at `sp`, and check the closure pointer and the code index's tag. */
  function ApplyEffects(): Effects {
    Effects({R0, R2, Fp, Sp, Cp},
            map[SP(0, TagPart) := TagImm(FramePointer), SP(0, ValPart) := Reg(Fp),
                SP(1, TagPart) := TagImm(ReturnAddress), SP(1, ValPart) := Reg(R0)],
            map[SP(-1, TagPart) := (HeapIndex, HeapIndex), HeapAt(R2, 1, TagPart) := (CodeIndex, CodeIndex)])
  }

  lemma ApplyWorkBuilt(cp: Word)
    ensures Built(ApplyWork(cp), cp)
  {
    assert AccessGuarded(ApplyWork(cp)[3], 0);
  }

  lemma ApplyWorkEffects(cp: Word)
    ensures Performs(ApplyWork(cp), ApplyEffects().(writes := {R0, R2}))
  {
  }

  lemma ApplyWorkFacts(cp: Word)
    ensures var work := ApplyWork(cp);
            && StoreAt(work, SP(0, TagPart), TagImm(FramePointer), 0, 1) && StoreAt(work, SP(0, ValPart), Reg(Fp), 1, 1)
            && StoreAt(work, SP(1, TagPart), TagImm(ReturnAddress), 2, 1) && StoreAt(work, SP(1, ValPart), Reg(R0), 4, 1)
            && ChecksAt(work, SP(-1, TagPart), HeapIndex, HeapIndex, 5, 1)
            && ChecksAt(work, HeapAt(R2, 1, TagPart), CodeIndex, CodeIndex, 6, 1)
            && ReadAt(work, R0, HeapAt(R2, 1, ValPart), 6, 2)
  {
  }

  lemma ApplyUpdateOk(cp: Word)
    ensures Built(ApplyUpdate(cp), cp) && Performs(ApplyUpdate(cp), Registers({Fp, Sp, Cp}))
  {
    SinglesBuilt(ApplyUpdate(cp), cp);
  }

  lemma ApplyUpdateWrites(cp: Word)
    ensures SoleWrite(ApplyUpdate(cp), Register(Fp), ApplyFp(cp))
    ensures MovesBy(ApplyUpdate(cp), Sp, 2)
    ensures SoleWrite(ApplyUpdate(cp), Register(Cp), UMove(cp, Cp, Reg(R0)))
  {
    var u := ApplyUpdate(cp);
    assert OnlyAt(u, Register(Fp), 0, 0);
    assert OnlyAt(u, Register(Sp), 1, 0);
    assert OnlyAt(u, Register(Cp), 2, 0);
  }

  lemma ApplyFrame(cp: Word)
    ensures var ps := ApplyPieces(cp);
            && Lowered(ps, cp) && Performs(ps, ApplyEffects())
            && ps[|ps| - 5..] == ApplyUpdate(cp)
  {
    ApplyWorkBuilt(cp);
    ApplyWorkEffects(cp);
    ApplyUpdateOk(cp);
    WorkThenUpdate(cp, ApplyWork(cp), ApplyUpdate(cp), ApplyEffects(), {R0, R2}, {Fp, Sp, Cp});
  }

  lemma ApplyWorkLeaves(cp: Word)
    ensures Untouched(ApplyWork(cp), Register(Sp)) && Untouched(ApplyWork(cp), Register(Hp))
    ensures Untouched(ApplyWork(cp), Register(Cp)) && Untouched(ApplyWork(cp), Register(Fp))
  {
    ApplyWorkEffects(cp);
    ScratchWork(ApplyWork(cp), ApplyEffects().(writes := {R0, R2}));
  }

  lemma ApplyRegistersA(cp: Word)
    ensures var ps := ApplyPieces(cp);
            SoleWrite(ps, Register(Fp), ApplyFp(cp))
            && MovesBy(ps, Sp, SpDelta(BApply(cp)))
  {
    var work, update := ApplyWork(cp), ApplyUpdate(cp);
    ApplyWorkLeaves(cp);
    ApplyUpdateOk(cp);
    ApplyUpdateWrites(cp);
    SoleWriteFromUpdate(cp, work, update, Fp, ApplyFp(cp));
    MovesFromUpdate(cp, work, update, Sp, 2);
  }

  lemma ApplyRegistersB(cp: Word)
    ensures var ps := ApplyPieces(cp);
            SoleWrite(ps, Register(Cp), UMove(cp, Cp, Reg(R0)))
            && Untouched(ps, Register(Hp))
  {
    var work, update := ApplyWork(cp), ApplyUpdate(cp);
    ApplyWorkLeaves(cp);
    ApplyUpdateOk(cp);
    ApplyUpdateWrites(cp);
    ApplyWorkEffects(cp);
    SoleWriteFromUpdate(cp, work, update, Cp, UMove(cp, Cp, Reg(R0)));
    LeftAlone(cp, work, update, ApplyEffects().(writes := {R0, R2}), Registers({Fp, Sp, Cp}), Hp);
  }

  lemma ApplyRegisters(cp: Word)
    ensures var ps := ApplyPieces(cp);
            SoleWrite(ps, Register(Fp), ApplyFp(cp))
            && MovesBy(ps, Sp, SpDelta(BApply(cp)))
            && SoleWrite(ps, Register(Cp), UMove(cp, Cp, Reg(R0)))
            && Untouched(ps, Register(Hp))
  {
    ApplyRegistersA(cp);
    ApplyRegistersB(cp);
  }

  lemma ApplySteps(cp: Word)
    ensures var ps := ApplyPieces(cp);
            && Lowered(ps, cp) && Performs(ps, ApplyEffects())
            && SoleWrite(ps, Register(Fp), ApplyFp(cp))
            && MovesBy(ps, Sp, SpDelta(BApply(cp)))
            && SoleWrite(ps, Register(Cp), UMove(cp, Cp, Reg(R0)))
            && Untouched(ps, Register(Hp))
            && ps[|ps| - 5..] == ApplyUpdate(cp)
  {
    ApplyFrame(cp);
    ApplyRegisters(cp);
  }

  lemma ApplyKeeps(cp: Word)
    ensures var ps := ApplyPieces(cp);
            && Stores(ps, SP(0, TagPart), TagImm(FramePointer)) && Stores(ps, SP(0, ValPart), Reg(Fp))
            && Stores(ps, SP(1, TagPart), TagImm(ReturnAddress)) && Stores(ps, SP(1, ValPart), Reg(R0))
            && Checks(ps, SP(-1, TagPart), HeapIndex, HeapIndex)
            && Checks(ps, HeapAt(R2, 1, TagPart), CodeIndex, CodeIndex)
            && Reads(ps, R0, HeapAt(R2, 1, ValPart))
  {
    var work, update := ApplyWork(cp), ApplyUpdate(cp);
    ApplyWorkFacts(cp);
    KeptStore(cp, work, update, SP(0, TagPart), TagImm(FramePointer), 0, 1);
    KeptStore(cp, work, update, SP(0, ValPart), Reg(Fp), 1, 1);
    KeptStore(cp, work, update, SP(1, TagPart), TagImm(ReturnAddress), 2, 1);
    KeptStore(cp, work, update, SP(1, ValPart), Reg(R0), 4, 1);
    KeptCheck(cp, work, update, SP(-1, TagPart), HeapIndex, HeapIndex, 5, 1);
    KeptCheck(cp, work, update, HeapAt(R2, 1, TagPart), CodeIndex, CodeIndex, 6, 1);
    KeptRead(cp, work, update, R0, HeapAt(R2, 1, ValPart), 6, 2);
  }

  /** The return address is `cp + 1`: `r0` holds it when it is stored, and is only later overwritten by
      the code index that `cp` then jumps to. */
  lemma ApplyReturnAddress(cp: Word)
    ensures var work := ApplyWork(cp);
            && work[3] == [UOper(cp, Add, R0, Reg(Cp), IntImm(1))]
            && StoreAt(work, SP(1, ValPart), Reg(R0), 4, 1)
            && (forall p, j | In(work, p, j) && 3 < p && p < 6 :: !Touches(work[p][j], Register(R0)))
            && ReadAt(work, R0, HeapAt(R2, 1, ValPart), 6, 2)
  {
  }

  /** `BApply` lowers to code that pushes the frame pointer and the return address, checks for a
      closure pointer below them and reads its code index, then sets `fp` to the old `sp` before
      pushing two slots, jumps `cp` to the code index, and ends with `UApply` and a guard; `hp` is
      left alone. */
  lemma ApplyLowering(cp: Word)
    ensures var ps := ApplyPieces(cp);
            && Lowered(ps, cp) && Performs(ps, ApplyEffects())
            && SoleWrite(ps, Register(Fp), ApplyFp(cp))
            && MovesBy(ps, Sp, SpDelta(BApply(cp)))
            && SoleWrite(ps, Register(Cp), UMove(cp, Cp, Reg(R0)))
            && Untouched(ps, Register(Hp))
            && ps[|ps| - 5..] == ApplyUpdate(cp)
            && Stores(ps, SP(0, TagPart), TagImm(FramePointer)) && Stores(ps, SP(0, ValPart), Reg(Fp))
            && Stores(ps, SP(1, TagPart), TagImm(ReturnAddress)) && Stores(ps, SP(1, ValPart), Reg(R0))
            && Checks(ps, SP(-1, TagPart), HeapIndex, HeapIndex)
            && Checks(ps, HeapAt(R2, 1, TagPart), CodeIndex, CodeIndex)
            && Reads(ps, R0, HeapAt(R2, 1, ValPart))
  {
    ApplySteps(cp);
    ApplyKeeps(cp);
  }

  // ---------------------------------------------------------------------------------------------
  // BReturn

  /** `BReturn`'s work: the top item copied below the frame (over the closure), and the saved frame
      pointer and return address checked and read into `r0` and `r1`. */
  function ReturnWork(cp: Word): Pieces {
    [ MoveAndCheck(cp, R0, SP(-1, TagPart), FP(-2, TagPart)),
      MoveAndCheck(cp, R0, SP(-1, ValPart), FP(-2, ValPart)),
      GetAndCheckTagged(cp, R0, FP(0, ValPart), FramePointer),
      GetAndCheckTagged(cp, R1, FP(1, ValPart), ReturnAddress) ]
  }

  /** `sp := fp - 1`. */
  function ReturnSp(cp: Word): UInstruction {
    UOper(cp, Sub, Sp, Reg(Fp), IntImm(1))
  }

  /** `fp := r0`. */
  function ReturnFp(cp: Word): UInstruction {
    UOper(cp, Add, Fp, Reg(R0), IntImm(0))
  }

  /** `BReturn`'s update: `sp` set from the old `fp`, then `fp` restored, `cp` set to the return
      address, then `UReturn` and the guard. */
  function ReturnUpdate(cp: Word): Pieces {
    [[ReturnSp(cp)], [ReturnFp(cp)], [UMove(cp, Cp, Reg(R1))], [UReturn(cp)], [UGuard(cp)]]
  }

  /** `BReturn::getUInstructions`. */
  function ReturnPieces(cp: Word): Pieces {
    Lowering(cp, ReturnWork(cp), ReturnUpdate(cp))
  }

  /** What `BReturn` may do: write `r0`, `r1`, `sp`, `fp` and `cp`, store the copy of the result below
      the frame, check the saved frame pointer and return address. */
  function ReturnEffects(): Effects {
    Effects({R0, R1, Sp, Fp, Cp},
            map[FP(-2, TagPart) := Reg(R0), FP(-2, ValPart) := Reg(R0)],
            map[FP(0, TagPart) := (FramePointer, FramePointer), FP(1, TagPart) := (ReturnAddress, ReturnAddress)])
  }

  lemma ReturnWorkBuilt(cp: Word)
    ensures Built(ReturnWork(cp), cp)
  {
  }

  lemma ReturnWorkEffects(cp: Word)
    ensures Performs(ReturnWork(cp), ReturnEffects().(writes := {R0, R1}))
  {
  }

  lemma ReturnWorkFacts(cp: Word)
    ensures var work := ReturnWork(cp);
            && CopiesAt(work, cp, SP(-1, TagPart), FP(-2, TagPart), 0)
            && CopiesAt(work, cp, SP(-1, ValPart), FP(-2, ValPart), 1)
            && ChecksAt(work, FP(0, TagPart), FramePointer, FramePointer, 2, 1)
            && ChecksAt(work, FP(1, TagPart), ReturnAddress, ReturnAddress, 3, 1)
            && ReadAt(work, R0, FP(0, ValPart), 2, 2)
            && ReadAt(work, R1, FP(1, ValPart), 3, 2)
  {
  }

  lemma ReturnUpdateOk(cp: Word)
    ensures Built(ReturnUpdate(cp), cp) && Performs(ReturnUpdate(cp), Registers({Sp, Fp, Cp}))
  {
    SinglesBuilt(ReturnUpdate(cp), cp);
  }

  lemma ReturnUpdateWrites(cp: Word)
    ensures SoleWrite(ReturnUpdate(cp), Register(Sp), ReturnSp(cp))
    ensures SoleWrite(ReturnUpdate(cp), Register(Fp), ReturnFp(cp))
    ensures SoleWrite(ReturnUpdate(cp), Register(Cp), UMove(cp, Cp, Reg(R1)))
  {
    var u := ReturnUpdate(cp);
    assert OnlyAt(u, Register(Sp), 0, 0);
    assert OnlyAt(u, Register(Fp), 1, 0);
    assert OnlyAt(u, Register(Cp), 2, 0);
  }

  lemma ReturnFrame(cp: Word)
    ensures var ps := ReturnPieces(cp);
            && Lowered(ps, cp) && Performs(ps, ReturnEffects())
            && ps[|ps| - 5..] == ReturnUpdate(cp)
  {
    ReturnWorkBuilt(cp);
    ReturnWorkEffects(cp);
    ReturnUpdateOk(cp);
    WorkThenUpdate(cp, ReturnWork(cp), ReturnUpdate(cp), ReturnEffects(), {R0, R1}, {Sp, Fp, Cp});
  }

  lemma ReturnWorkLeaves(cp: Word)
    ensures Untouched(ReturnWork(cp), Register(Sp)) && Untouched(ReturnWork(cp), Register(Hp))
    ensures Untouched(ReturnWork(cp), Register(Cp)) && Untouched(ReturnWork(cp), Register(Fp))
  {
    ReturnWorkEffects(cp);
    ScratchWork(ReturnWork(cp), ReturnEffects().(writes := {R0, R1}));
  }

  lemma ReturnRegistersA(cp: Word)
    ensures var ps := ReturnPieces(cp);
            SoleWrite(ps, Register(Sp), ReturnSp(cp))
            && SoleWrite(ps, Register(Fp), ReturnFp(cp))
  {
    var work, update := ReturnWork(cp), ReturnUpdate(cp);
    ReturnWorkLeaves(cp);
    ReturnUpdateOk(cp);
    ReturnUpdateWrites(cp);
    SoleWriteFromUpdate(cp, work, update, Sp, ReturnSp(cp));
    SoleWriteFromUpdate(cp, work, update, Fp, ReturnFp(cp));
  }

  lemma ReturnRegistersB(cp: Word)
    ensures var ps := ReturnPieces(cp);
            SoleWrite(ps, Register(Cp), UMove(cp, Cp, Reg(R1)))
            && Untouched(ps, Register(Hp))
  {
    var work, update := ReturnWork(cp), ReturnUpdate(cp);
    ReturnWorkLeaves(cp);
    ReturnUpdateOk(cp);
    ReturnUpdateWrites(cp);
    ReturnWorkEffects(cp);
    SoleWriteFromUpdate(cp, work, update, Cp, UMove(cp, Cp, Reg(R1)));
    LeftAlone(cp, work, update, ReturnEffects().(writes := {R0, R1}), Registers({Sp, Fp, Cp}), Hp);
  }

  lemma ReturnRegisters(cp: Word)
    ensures var ps := ReturnPieces(cp);
            SoleWrite(ps, Register(Sp), ReturnSp(cp))
            && SoleWrite(ps, Register(Fp), ReturnFp(cp))
            && SoleWrite(ps, Register(Cp), UMove(cp, Cp, Reg(R1)))
            && Untouched(ps, Register(Hp))
  {
    ReturnRegistersA(cp);
    ReturnRegistersB(cp);
  }

  lemma ReturnSteps(cp: Word)
    ensures var ps := ReturnPieces(cp);
            && Lowered(ps, cp) && Performs(ps, ReturnEffects())
            && SoleWrite(ps, Register(Sp), ReturnSp(cp))
            && SoleWrite(ps, Register(Fp), ReturnFp(cp))
            && SoleWrite(ps, Register(Cp), UMove(cp, Cp, Reg(R1)))
            && Untouched(ps, Register(Hp))
            && ps[|ps| - 5..] == ReturnUpdate(cp)
  {
    ReturnFrame(cp);
    ReturnRegisters(cp);
  }

  lemma ReturnKeeps(cp: Word)
    ensures var ps := ReturnPieces(cp);
            && Copies(ps, cp, SP(-1, TagPart), FP(-2, TagPart)) && Copies(ps, cp, SP(-1, ValPart), FP(-2, ValPart))
            && Checks(ps, FP(0, TagPart), FramePointer, FramePointer)
            && Checks(ps, FP(1, TagPart), ReturnAddress, ReturnAddress)
            && Reads(ps, R0, FP(0, ValPart)) && Reads(ps, R1, FP(1, ValPart))
  {
    var work, update := ReturnWork(cp), ReturnUpdate(cp);
    ReturnWorkFacts(cp);
    KeptCopy(cp, work, update, SP(-1, TagPart), FP(-2, TagPart), 0);
    KeptCopy(cp, work, update, SP(-1, ValPart), FP(-2, ValPart), 1);
    KeptCheck(cp, work, update, FP(0, TagPart), FramePointer, FramePointer, 2, 1);
    KeptCheck(cp, work, update, FP(1, TagPart), ReturnAddress, ReturnAddress, 3, 1);
    KeptRead(cp, work, update, R0, FP(0, ValPart), 2, 2);
    KeptRead(cp, work, update, R1, FP(1, ValPart), 3, 2);
  }

  /** `BReturn` lowers to code that copies the result below the frame, checks and reads the saved frame
      pointer and return address, then sets `sp` from the old `fp` before restoring `fp`, jumps `cp`
      to the return address, and ends with `UReturn` and a guard; `hp` is left alone. */
  lemma ReturnLowering(cp: Word)
    ensures var ps := ReturnPieces(cp);
            && Lowered(ps, cp) && Performs(ps, ReturnEffects())
            && SoleWrite(ps, Register(Sp), ReturnSp(cp))
            && SoleWrite(ps, Register(Fp), ReturnFp(cp))
            && SoleWrite(ps, Register(Cp), UMove(cp, Cp, Reg(R1)))
            && Untouched(ps, Register(Hp))
            && ps[|ps| - 5..] == ReturnUpdate(cp)
            && Copies(ps, cp, SP(-1, TagPart), FP(-2, TagPart)) && Copies(ps, cp, SP(-1, ValPart), FP(-2, ValPart))
            && Checks(ps, FP(0, TagPart), FramePointer, FramePointer)
            && Checks(ps, FP(1, TagPart), ReturnAddress, ReturnAddress)
            && Reads(ps, R0, FP(0, ValPart)) && Reads(ps, R1, FP(1, ValPart))
  {
    ReturnSteps(cp);
    ReturnKeeps(cp);
  }
}
