/** `BInstruction::getUInstructions` as the virtual call it is: the lowering of each B-instruction
    class, and what holds of all of them together. */
module UInstructions {
  import opened Words
  import opened TaggedMemory
  import opened Machine
  import opened BCode
  import opened UCode
  import opened Interpreter
  import opened LoweringShape
  import opened ULowering
  import opened UControlLowering
  import opened UClosureLowering

  /** The instructions whose lowering C++ defines. A closure whose last captured variable would land
      at heap offset `2 + i` beyond `INT_MAX`, or a lookup at offset `INT_MAX` (whose `offset + 1` is
      computed even for stack lookups), overflows a signed `int`, which is undefined behaviour. */
  predicate LoweringDefined(b: BInstruction) {
    match b
    case BMkClosure(_, _, size) => size < INT_MAX
    case BLookup(_, _, offset) => offset < INT_MAX
    case _ => true
  }

  /** The pieces each class's `getUInstructions` adds to its builder. */
  function UPieces(b: BInstruction): Pieces
    requires LoweringDefined(b)
  {
    match b
    case BUnary(cp, op) => UnaryPieces(cp, op)
    case BOper(cp, op) => OperPieces(cp, op)
    case BMkPair(cp) => MkPairPieces(cp)
    case BFst(cp) => ProjectPieces(cp, 1)
    case BSnd(cp) => ProjectPieces(cp, 2)
    case BMkInl(cp) => InjectPieces(cp, InlHeader)
    case BMkInr(cp) => InjectPieces(cp, InrHeader)
    case BPush(cp, tag, value) => PushPieces(cp, tag, value)
    case BApply(cp) => ApplyPieces(cp)
    case BLookup(cp, location, offset) => LookupPieces(cp, location, offset)
    case BReturn(cp) => ReturnPieces(cp)
    case BMkClosure(cp, location, size) => MkClosurePieces(cp, location, size)
    case BSwap(cp) => SwapPieces(cp)
    case BPop(cp) => PopPieces(cp)
    case BLabel(cp) => SkipPieces(cp)
    case BFunction(cp) => SkipPieces(cp)
    case BDeref(cp) => DerefPieces(cp)
    case BMkRef(cp) => MkRefPieces(cp)
    case BAssign(cp) => AssignPieces(cp)
    case BHalt(cp) => HaltPieces(cp)
    case BGoto(cp, destination) => GotoPieces(cp, destination)
    case BTest(cp, destination) => TestPieces(cp, destination)
    case BCase(cp, destination) => CasePieces(cp, destination)
  }

  lemma StackLoweredA(b: BInstruction)
    requires b.BUnary? || b.BOper? || b.BFst?
    ensures Lowered(UPieces(b), b.cp)
  {
    if b.BUnary? {
      UnarySteps(b.cp, b.unaryOp);
    } else if b.BOper? {
      OperSteps(b.cp, b.binaryOp);
    } else {
      ProjectSteps(b.cp, 1);
    }
  }

  lemma StackLoweredB(b: BInstruction)
    requires b.BSnd? || b.BPush? || b.BSwap?
    ensures Lowered(UPieces(b), b.cp)
  {
    if b.BSnd? {
      ProjectSteps(b.cp, 2);
    } else if b.BPush? {
      PushSteps(b.cp, b.tag, b.value);
    } else {
      SwapSteps(b.cp);
    }
  }

  lemma HeapLoweredA(b: BInstruction)
    requires b.BMkPair? || b.BMkInl? || b.BMkInr?
    ensures Lowered(UPieces(b), b.cp)
  {
    if b.BMkPair? {
      MkPairSteps(b.cp);
    } else if b.BMkInl? {
      InjectSteps(b.cp, InlHeader);
    } else {
      InjectSteps(b.cp, InrHeader);
    }
  }

  lemma HeapLoweredB(b: BInstruction)
    requires LoweringDefined(b) && (b.BMkClosure? || b.BMkRef? || b.BLookup?)
    ensures Lowered(UPieces(b), b.cp)
  {
    if b.BMkClosure? {
      MkClosureSteps(b.cp, b.closureLocation, b.size);
    } else if b.BMkRef? {
      MkRefSteps(b.cp);
    } else {
      LookupSteps(b.cp, b.location, b.offset);
    }
  }

  lemma FrameLoweredA(b: BInstruction)
    requires b.BPop? || b.BLabel? || b.BFunction?
    ensures Lowered(UPieces(b), b.cp)
  {
    if b.BPop? {
      PopLowering(b.cp);
    } else {
      SkipLowering(b.cp);
    }
  }

  lemma FrameLoweredB(b: BInstruction)
    requires b.BDeref? || b.BAssign?
    ensures Lowered(UPieces(b), b.cp)
  {
    if b.BDeref? {
      DerefSteps(b.cp);
    } else {
      AssignSteps(b.cp);
    }
  }

  /** Every lowering of an instruction other than a control transfer is lowered. */
  lemma StraightLowered(b: BInstruction)
    requires LoweringDefined(b) && !b.IsControl()
    ensures Lowered(UPieces(b), b.cp)
  {
    if b.BUnary? || b.BOper? || b.BFst? {
      StackLoweredA(b);
    } else if b.BSnd? || b.BPush? || b.BSwap? {
      StackLoweredB(b);
    } else if b.BMkPair? || b.BMkInl? || b.BMkInr? {
      HeapLoweredA(b);
    } else if b.BMkClosure? || b.BMkRef? || b.BLookup? {
      HeapLoweredB(b);
    } else if b.BPop? || b.BLabel? || b.BFunction? {
      FrameLoweredA(b);
    } else {
      FrameLoweredB(b);
    }
  }

  lemma CallsLowered(b: BInstruction)
    requires b.BApply? || b.BReturn? || b.BHalt?
    ensures Lowered(UPieces(b), b.cp)
  {
    if b.BApply? {
      ApplySteps(b.cp);
    } else if b.BReturn? {
      ReturnSteps(b.cp);
    } else {
      HaltLowering(b.cp);
    }
  }

  lemma JumpsLowered(b: BInstruction)
    requires b.BGoto? || b.BTest? || b.BCase?
    ensures Lowered(UPieces(b), b.cp)
  {
    if b.BGoto? {
      GotoLowering(b.cp, b.destination);
    } else if b.BTest? {
      TestLowering(b.cp, b.destination);
    } else {
      CaseSteps(b.cp, b.destination);
    }
  }

  /** Every lowering of a control transfer is lowered. */
  lemma ControlLowered(b: BInstruction)
    requires b.IsControl()
    ensures Lowered(UPieces(b), b.cp)
  {
    if b.BApply? || b.BReturn? || b.BHalt? {
      CallsLowered(b);
    } else {
      JumpsLowered(b);
    }
  }

  /** Every lowering starts with the instruction's label, and every piece of it guards each memory
      access and carries the instruction's `cp`. */
  lemma AllLowered(b: BInstruction)
    requires LoweringDefined(b)
    ensures Lowered(UPieces(b), b.cp)
  {
    if b.IsControl() {
      ControlLowered(b);
    } else {
      StraightLowered(b);
    }
  }

  /** The instructions that allocate heap cells. */
  predicate Allocates(b: BInstruction) {
    b.BMkPair? || b.BMkInl? || b.BMkInr? || b.BMkRef? || b.BMkClosure?
  }

  lemma PairStepsA(b: BInstruction)
    requires b.BMkPair? || b.BMkInl? || b.BMkInr?
    ensures StepsForward(UPieces(b), b.cp, SpDelta(b), HpDelta(b))
  {
    if b.BMkPair? {
      MkPairSteps(b.cp);
    } else if b.BMkInl? {
      InjectSteps(b.cp, InlHeader);
    } else {
      InjectSteps(b.cp, InrHeader);
    }
  }

  lemma AllocatingSteps(b: BInstruction)
    requires LoweringDefined(b) && Allocates(b)
    requires b.BMkClosure? ==> b.size <= INT_MAX - 2
    ensures StepsForward(UPieces(b), b.cp, SpDelta(b), HpDelta(b))
  {
    if b.BMkPair? || b.BMkInl? || b.BMkInr? {
      PairStepsA(b);
    } else if b.BMkRef? {
      MkRefSteps(b.cp);
    } else {
      ClosureStepsForward(b.cp, b.closureLocation, b.size);
      assert UPieces(b) == MkClosurePieces(b.cp, b.closureLocation, b.size);
    }
  }

  lemma ClosureStepsForward(cp: Word, location: Word, size: Word)
    requires size <= INT_MAX - 2
    ensures StepsForward(MkClosurePieces(cp, location, size), cp, SpDelta(BMkClosure(cp, location, size)), HpDelta(BMkClosure(cp, location, size)))
  {
    ClosureSum(size);
    ClosureStepsBy(cp, location, size, HpDelta(BMkClosure(cp, location, size)));
  }

  lemma ClosureStepsBy(cp: Word, location: Word, size: Word, hp: int)
    requires size < INT_MAX && hp == ToInt(size + 2)
    ensures StepsForward(MkClosurePieces(cp, location, size), cp, SpDelta(BMkClosure(cp, location, size)), hp)
  {
    MkClosureSteps(cp, location, size);
  }

  lemma ClosureSum(size: Word)
    requires size <= INT_MAX - 2
    ensures ToInt(size + 2) == size + 2
  {
    ClosureImmediates(size);
  }

  lemma StackStepsA(b: BInstruction)
    requires b.BUnary? || b.BOper? || b.BFst?
    ensures StepsForward(UPieces(b), b.cp, SpDelta(b), HpDelta(b))
  {
    if b.BUnary? {
      UnarySteps(b.cp, b.unaryOp);
    } else if b.BOper? {
      OperSteps(b.cp, b.binaryOp);
    } else {
      ProjectSteps(b.cp, 1);
    }
  }

  lemma StackStepsB(b: BInstruction)
    requires b.BSnd? || b.BPush? || b.BSwap?
    ensures StepsForward(UPieces(b), b.cp, SpDelta(b), HpDelta(b))
  {
    if b.BSnd? {
      ProjectSteps(b.cp, 2);
    } else if b.BPush? {
      PushSteps(b.cp, b.tag, b.value);
    } else {
      SwapSteps(b.cp);
    }
  }

  lemma StackStepsC(b: BInstruction)
    requires LoweringDefined(b) && (b.BLookup? || b.BPop? || b.BLabel?)
    ensures StepsForward(UPieces(b), b.cp, SpDelta(b), HpDelta(b))
  {
    if b.BLookup? {
      LookupSteps(b.cp, b.location, b.offset);
    } else if b.BPop? {
      PopLowering(b.cp);
    } else {
      SkipLowering(b.cp);
    }
  }

  lemma StackStepsD(b: BInstruction)
    requires b.BFunction? || b.BDeref? || b.BAssign?
    ensures StepsForward(UPieces(b), b.cp, SpDelta(b), HpDelta(b))
  {
    if b.BFunction? {
      SkipLowering(b.cp);
    } else if b.BDeref? {
      DerefSteps(b.cp);
    } else {
      AssignSteps(b.cp);
    }
  }

  lemma StackSteps(b: BInstruction)
    requires LoweringDefined(b) && !Allocates(b) && !b.IsControl()
    ensures StepsForward(UPieces(b), b.cp, SpDelta(b), HpDelta(b))
  {
    if b.BUnary? || b.BOper? || b.BFst? {
      StackStepsA(b);
    } else if b.BSnd? || b.BPush? || b.BSwap? {
      StackStepsB(b);
    } else if b.BLookup? || b.BPop? || b.BLabel? {
      StackStepsC(b);
    } else {
      StackStepsD(b);
    }
  }

  /** Every straight-line instruction's code moves `sp` and `hp` as the interpreter does, leaves `fp`
      alone and ends with `cp += 1`, its only write to `cp`. The closure is excepted when its `hp`
      immediate `size + 2` does not fit in an `int`. */
  lemma StraightSteps(b: BInstruction)
    requires LoweringDefined(b) && !b.IsControl()
    requires b.BMkClosure? ==> b.size <= INT_MAX - 2
    ensures StepsForward(UPieces(b), b.cp, SpDelta(b), HpDelta(b))
  {
    if Allocates(b) {
      AllocatingSteps(b);
    } else {
      StackSteps(b);
    }
  }

  /** `getUInstructions`: the code the builder holds at the end. It starts with `ULabel(cp)`, every
      `UGet` and `USet` in it directly follows the `UMemCheck` of its location (a tagged get with the
      `UTagCheck` in between), and every instruction carries the instruction's `cp`. */
  function GetUInstructions(b: BInstruction): (code: seq<UInstruction>)
    requires LoweringDefined(b)
    ensures |code| > 0 && code[0] == ULabel(b.cp)
    ensures Guarded(code) && AllAt(code, b.cp)
  {
    AllLowered(b);
    FlattenGuarded(UPieces(b), b.cp);
    FlattenFirst(UPieces(b));
    Flatten(UPieces(b))
  }

  /** The code of a straight-line instruction ends with `cp += 1`. */
  lemma StraightEndsWithNextCp(b: BInstruction)
    requires LoweringDefined(b) && !b.IsControl()
    ensures var code := GetUInstructions(b);
            code[|code| - 1] == Bump(b.cp, Add, Cp, 1)
  {
    if b.BMkClosure? {
      MkClosureSteps(b.cp, b.closureLocation, b.size);
    } else {
      StraightSteps(b);
    }
    LastOfFlatten(UPieces(b));
  }

  /** The U-instruction a control transfer hands control over with. */
  function Transfer(b: BInstruction): UInstruction
    requires b.IsControl()
  {
    match b
    case BApply(cp) => UApply(cp)
    case BReturn(cp) => UReturn(cp)
    case BHalt(cp) => UHalt(cp)
    case BGoto(cp, destination) => UGoto(cp, destination)
    case BTest(cp, destination) => UBranch(cp, R0, destination)
    case BCase(cp, destination) => UBranch(cp, R0, destination)
  }

  lemma CallPieces(b: BInstruction)
    requires b.BApply? || b.BReturn? || b.BHalt?
    ensures var ps := UPieces(b);
            && |ps| >= 2 && ps[|ps| - 1] == (if b.BHalt? then [UHalt(b.cp)] else [UGuard(b.cp)])
            && (!b.BHalt? ==> ps[|ps| - 2] == [Transfer(b)])
  {
    if b.BApply? {
      ApplyFrame(b.cp);
    } else if b.BReturn? {
      ReturnFrame(b.cp);
    } else {
      HaltLowering(b.cp);
    }
  }

  lemma JumpPieces(b: BInstruction)
    requires b.BGoto? || b.BTest? || b.BCase?
    ensures var ps := UPieces(b);
            && |ps| >= 2 && ps[|ps| - 1] == (if b.BHalt? then [UHalt(b.cp)] else [UGuard(b.cp)])
            && (!b.BHalt? ==> ps[|ps| - 2] == [Transfer(b)])
  {
    if b.BGoto? {
      GotoLowering(b.cp, b.destination);
    } else if b.BTest? {
      TestLowering(b.cp, b.destination);
    } else {
      CaseSteps(b.cp, b.destination);
    }
  }

  /** The last two pieces of a control transfer's lowering: its transfer, then `UGuard`; `Halt` ends
      with its `UHalt` alone. */
  lemma ControlPieces(b: BInstruction)
    requires b.IsControl()
    ensures var ps := UPieces(b);
            && |ps| >= 2 && ps[|ps| - 1] == (if b.BHalt? then [UHalt(b.cp)] else [UGuard(b.cp)])
            && (!b.BHalt? ==> ps[|ps| - 2] == [Transfer(b)])
  {
    if b.BApply? || b.BReturn? || b.BHalt? {
      CallPieces(b);
    } else {
      JumpPieces(b);
    }
  }

  /** The code of a control transfer ends with its transfer and then `UGuard`, and that of `Halt` with
      `UHalt` and no `cp` update. */
  lemma ControlEnds(b: BInstruction)
    requires b.IsControl()
    ensures var code := GetUInstructions(b);
            && (b.BHalt? ==> code[|code| - 1] == UHalt(b.cp))
            && (!b.BHalt? ==> |code| >= 2 && code[|code| - 2..] == [Transfer(b), UGuard(b.cp)])
  {
    ControlPieces(b);
    if b.BHalt? {
      LastOfFlatten(UPieces(b));
    } else {
      EndsOfFlatten(UPieces(b), Transfer(b), UGuard(b.cp));
    }
  }

  /** Code whose last two pieces are single instructions ends with those two. */
  lemma EndsOfFlatten(ps: Pieces, x: UInstruction, y: UInstruction)
    requires |ps| >= 2 && ps[|ps| - 2] == [x] && ps[|ps| - 1] == [y]
    ensures |Flatten(ps)| >= 2 && Flatten(ps)[|Flatten(ps)| - 2..] == [x, y]
  {
    LastOfFlatten(ps);
    LastOfFlatten(ps[..|ps| - 1]);
    assert ps[..|ps| - 1][..|ps| - 2] == ps[..|ps| - 2];
  }
}
