/** `BInstruction::getUInstructions` for the straight-line instructions: the fixed U-code each of them
    is lowered to. Each lowering is the label, then the work on memory through the scratch registers,
    then the update of `sp`, `hp` and `cp`; each is proved lowered (every access guarded, every
    instruction at the B-instruction's `cp`), within its effects (the registers it writes, and exactly
    what it stores where and which tags it checks) and to step the registers as the interpreter does. */
module ULowering {
  import opened Wrappers
  import opened Words
  import opened TaggedMemory
  import opened Machine
  import opened BCode
  import opened UCode
  import opened Interpreter
  import opened LoweringShape

  // ---------------------------------------------------------------------------------------------
  // BUnary

  /** The operand tag of a unary operator: `Unit` for `Read`, `Bool` for `Not`, `Int` for `Neg`. */
  function UnaryTag(op: UnaryOp): Tag {
    match op case Read => Unit case Not => Bool case Neg => Int
  }

  /** The unary operand tag is the one tag on which the interpreter's `BUnary` does not throw. */
  lemma UnaryTagAgrees(op: UnaryOp, a: Item, input: Int32)
    ensures UnaryValue(op, a, input).Some? <==> a.tag == UnaryTag(op)
  {
    UnaryValueMeaning(op, a, input);
  }

  /** `BUnary`'s work: read the checked operand, apply the operator, store the value (and for `Read`
      the tag `Int`) back on top. */
  function UnaryWork(cp: Word, op: UnaryOp): Pieces {
    if op == Read then
      [ GetAndCheckTagged(cp, R0, SP(-1, ValPart), UnaryTag(op)),
        [UUnary(cp, op, R0, Reg(R0))],
        SetAndCheck(cp, SP(-1, ValPart), Reg(R0)),
        SetAndCheck(cp, SP(-1, TagPart), TagImm(Int)) ]
    else
      [ GetAndCheckTagged(cp, R0, SP(-1, ValPart), UnaryTag(op)),
        [UUnary(cp, op, R0, Reg(R0))],
        SetAndCheck(cp, SP(-1, ValPart), Reg(R0)),
        [] ]
  }

  /** `BUnary::getUInstructions`. */
  function UnaryPieces(cp: Word, op: UnaryOp): Pieces {
    Lowering(cp, UnaryWork(cp, op), NextCp(cp))
  }

  /** What `BUnary`'s code may do: write `r0` and `cp`, store `r0` to the operand's value (and, for
      `Read`, the tag `Int` to its tag), and check the operand's tag for the operator's. */
  function UnaryEffects(op: UnaryOp): Effects {
    Effects({R0, Cp},
            if op == Read then map[SP(-1, ValPart) := Reg(R0), SP(-1, TagPart) := TagImm(Int)]
            else map[SP(-1, ValPart) := Reg(R0)],
            map[SP(-1, TagPart) := (UnaryTag(op), UnaryTag(op))])
  }

  lemma UnaryWorkOk(cp: Word, op: UnaryOp)
    ensures Built(UnaryWork(cp, op), cp) && Performs(UnaryWork(cp, op), UnaryEffects(op).(writes := {R0}))
  {
  }

  lemma UnaryWorkFacts(cp: Word, op: UnaryOp)
    ensures var work := UnaryWork(cp, op);
            && ChecksAt(work, SP(-1, TagPart), UnaryTag(op), UnaryTag(op), 0, 1)
            && StoreAt(work, SP(-1, ValPart), Reg(R0), 2, 1)
  {
  }

  lemma UnarySteps(cp: Word, op: UnaryOp)
    ensures var ps := UnaryPieces(cp, op);
            && Lowered(ps, cp) && Performs(ps, UnaryEffects(op))
            && StepsForward(ps, cp, SpDelta(BUnary(cp, op)), HpDelta(BUnary(cp, op)))
  {
    var work, update := UnaryWork(cp, op), NextCp(cp);
    UnaryWorkOk(cp, op);
    NextCpSteps(cp);
    StraightLowering(cp, work, update, UnaryEffects(op), {R0}, {Cp}, 0, 0);
  }

  lemma UnaryKeeps(cp: Word, op: UnaryOp)
    ensures var ps := UnaryPieces(cp, op);
            && Checks(ps, SP(-1, TagPart), UnaryTag(op), UnaryTag(op))
            && Stores(ps, SP(-1, ValPart), Reg(R0))
            && (op == Read <==> SP(-1, TagPart) in UnaryEffects(op).stores)
  {
    var work, update := UnaryWork(cp, op), NextCp(cp);
    UnaryWorkFacts(cp, op);
    KeptCheck(cp, work, update, SP(-1, TagPart), UnaryTag(op), UnaryTag(op), 0, 1);
    KeptStore(cp, work, update, SP(-1, ValPart), Reg(R0), 2, 1);
  }

  /** `BUnary` lowers to code that checks the operand's tag for the operator's and nothing else, stores
      the result value over it, rewrites its tag (to `Int`) only for `Read`, and steps the registers as
      the interpreter does. */
  lemma UnaryLowering(cp: Word, op: UnaryOp)
    ensures var ps := UnaryPieces(cp, op);
            && Lowered(ps, cp) && Performs(ps, UnaryEffects(op))
            && StepsForward(ps, cp, SpDelta(BUnary(cp, op)), HpDelta(BUnary(cp, op)))
            && Checks(ps, SP(-1, TagPart), UnaryTag(op), UnaryTag(op))
            && Stores(ps, SP(-1, ValPart), Reg(R0))
            && (op == Read <==> SP(-1, TagPart) in UnaryEffects(op).stores)
  {
    UnarySteps(cp, op);
    UnaryKeeps(cp, op);
  }

  // ---------------------------------------------------------------------------------------------
  // BOper

  /** The operand tag of a binary operator: `Bool` for `And` and `Or`, `Int` otherwise. */
  function ArgumentTag(op: BinaryOp): Tag {
    if op == And || op == Or then Bool else Int
  }

  /** The result tag of a binary operator: `Bool` for `Lt` and `Eq`, the operand tag otherwise. */
  function ResultTag(op: BinaryOp): Tag {
    if op == Lt || op == Eq then Bool else ArgumentTag(op)
  }

  /** The U-code's tags are the interpreter's: apart from `Eq`, which takes any two items, `BOper` throws
      unless both operands carry the operand tag (or, for `Div`, when the divisor is zero), and its
      result carries the result tag. */
  lemma OperTagsAgree(op: BinaryOp, a: Item, b: Item)
    requires op == Div ==> DivDefined(a, b)
    ensures op != Eq && OperValue(op, a, b).Some? ==> a.tag == ArgumentTag(op) && b.tag == ArgumentTag(op)
    ensures op != Eq && op != Div && a.tag == ArgumentTag(op) && b.tag == ArgumentTag(op) ==> OperValue(op, a, b).Some?
    ensures op == Eq ==> OperValue(op, a, b).Some?
    ensures OperValue(op, a, b).Some? ==> OperValue(op, a, b).value.tag == ResultTag(op)
  {
    OperValueMeaning(op, a, b);
  }

  /** `BOper`'s work: tag-checked operands in `r0` and `r1` (for `Eq`: their tags unchecked and compared,
      then their values compared and the two results ANDed), the result stored in the lower slot. The
      pieces an `addIf` leaves out are empty. */
  function OperWork(cp: Word, op: BinaryOp): Pieces {
    if op != Eq then
      [ GetAndCheckTagged(cp, R0, SP(-2, ValPart), ArgumentTag(op)),
        GetAndCheckTagged(cp, R1, SP(-1, ValPart), ArgumentTag(op)),
        [], [],
        [UOper(cp, op, R0, Reg(R0), Reg(R1))],
        [], [], [], [],
        SetAndCheck(cp, SP(-2, ValPart), Reg(R0)),
        SetAndCheck(cp, SP(-2, TagPart), TagImm(ResultTag(op))) ]
    else
      [ [], [],
        GetAndCheck(cp, R0, SP(-2, TagPart)),
        GetAndCheck(cp, R1, SP(-1, TagPart)),
        [UOper(cp, op, R0, Reg(R0), Reg(R1))],
        GetAndCheck(cp, R1, SP(-2, ValPart)),
        GetAndCheck(cp, R2, SP(-1, ValPart)),
        [UOper(cp, Eq, R1, Reg(R1), Reg(R2))],
        [UOper(cp, And, R0, Reg(R0), Reg(R1))],
        SetAndCheck(cp, SP(-2, ValPart), Reg(R0)),
        SetAndCheck(cp, SP(-2, TagPart), TagImm(ResultTag(op))) ]
  }

  /** `BOper::getUInstructions`: the work, then pop one operand and go on. */
  function OperPieces(cp: Word, op: BinaryOp): Pieces {
    Lowering(cp, OperWork(cp, op), SpNext(cp, Sub, 1))
  }

  /** The scratch registers `BOper`'s work writes. */
  function OperScratch(op: BinaryOp): set<URegister> {
    if op == Eq then Scratch else {R0, R1}
  }

  /** What `BOper`'s code may do: write the scratch registers it uses, `sp` and `cp`, store `r0` and the
      result tag to the lower operand's slot, and (except for `Eq`) check both operands' tags for the
      operand tag. */
  function OperEffects(op: BinaryOp): Effects {
    Effects(OperScratch(op) + {Sp, Cp},
            map[SP(-2, ValPart) := Reg(R0), SP(-2, TagPart) := TagImm(ResultTag(op))],
            if op == Eq then map[]
            else map[SP(-2, TagPart) := (ArgumentTag(op), ArgumentTag(op)), SP(-1, TagPart) := (ArgumentTag(op), ArgumentTag(op))])
  }

  lemma OperWorkBuilt(cp: Word, op: BinaryOp)
    ensures Built(OperWork(cp, op), cp)
  {
  }

  lemma OperWorkEffects(cp: Word, op: BinaryOp)
    ensures Performs(OperWork(cp, op), OperEffects(op).(writes := OperScratch(op)))
  {
  }

  lemma OperWorkFacts(cp: Word, op: BinaryOp)
    ensures var work := OperWork(cp, op);
            && StoreAt(work, SP(-2, ValPart), Reg(R0), 9, 1)
            && StoreAt(work, SP(-2, TagPart), TagImm(ResultTag(op)), 10, 1)
            && (op != Eq ==> ChecksAt(work, SP(-2, TagPart), ArgumentTag(op), ArgumentTag(op), 0, 1))
            && (op != Eq ==> ChecksAt(work, SP(-1, TagPart), ArgumentTag(op), ArgumentTag(op), 1, 1))
            && (op == Eq ==> ReadAt(work, R0, SP(-2, TagPart), 2, 1))
            && (op == Eq ==> ReadAt(work, R1, SP(-1, TagPart), 3, 1))
            && (op == Eq ==> ReadAt(work, R1, SP(-2, ValPart), 5, 1))
            && (op == Eq ==> ReadAt(work, R2, SP(-1, ValPart), 6, 1))
  {
  }

  lemma OperSteps(cp: Word, op: BinaryOp)
    ensures var ps := OperPieces(cp, op);
            && Lowered(ps, cp) && Performs(ps, OperEffects(op))
            && StepsForward(ps, cp, SpDelta(BOper(cp, op)), HpDelta(BOper(cp, op)))
  {
    var work, update := OperWork(cp, op), SpNext(cp, Sub, 1);
    OperWorkBuilt(cp, op);
    OperWorkEffects(cp, op);
    SpNextSteps(cp, Sub, 1);
    StraightLowering(cp, work, update, OperEffects(op), OperScratch(op), {Sp, Cp}, -1, 0);
  }

  lemma OperKeeps(cp: Word, op: BinaryOp)
    ensures var ps := OperPieces(cp, op);
            && Stores(ps, SP(-2, ValPart), Reg(R0)) && Stores(ps, SP(-2, TagPart), TagImm(ResultTag(op)))
            && (op != Eq ==> Checks(ps, SP(-2, TagPart), ArgumentTag(op), ArgumentTag(op)))
            && (op != Eq ==> Checks(ps, SP(-1, TagPart), ArgumentTag(op), ArgumentTag(op)))
            && (op == Eq ==> Reads(ps, R0, SP(-2, TagPart)) && Reads(ps, R1, SP(-1, TagPart)))
            && (op == Eq ==> Reads(ps, R1, SP(-2, ValPart)) && Reads(ps, R2, SP(-1, ValPart)))
  {
    var work, update := OperWork(cp, op), SpNext(cp, Sub, 1);
    OperWorkFacts(cp, op);
    KeptStore(cp, work, update, SP(-2, ValPart), Reg(R0), 9, 1);
    KeptStore(cp, work, update, SP(-2, TagPart), TagImm(ResultTag(op)), 10, 1);
    if op != Eq {
      KeptCheck(cp, work, update, SP(-2, TagPart), ArgumentTag(op), ArgumentTag(op), 0, 1);
      KeptCheck(cp, work, update, SP(-1, TagPart), ArgumentTag(op), ArgumentTag(op), 1, 1);
    } else {
      KeptRead(cp, work, update, R0, SP(-2, TagPart), 2, 1);
      KeptRead(cp, work, update, R1, SP(-1, TagPart), 3, 1);
      KeptRead(cp, work, update, R1, SP(-2, ValPart), 5, 1);
      KeptRead(cp, work, update, R2, SP(-1, ValPart), 6, 1);
    }
  }

  /** `BOper` lowers to code that, except for `Eq`, checks both operands' tags for the operand tag; for
      `Eq` it reads both tags and both values instead; it stores the result and the result tag in the
      lower slot and nothing else, pops one slot and goes on. */
  lemma OperLowering(cp: Word, op: BinaryOp)
    ensures var ps := OperPieces(cp, op);
            && Lowered(ps, cp) && Performs(ps, OperEffects(op))
            && StepsForward(ps, cp, SpDelta(BOper(cp, op)), HpDelta(BOper(cp, op)))
            && Stores(ps, SP(-2, ValPart), Reg(R0)) && Stores(ps, SP(-2, TagPart), TagImm(ResultTag(op)))
            && (op != Eq ==> Checks(ps, SP(-2, TagPart), ArgumentTag(op), ArgumentTag(op)))
            && (op != Eq ==> Checks(ps, SP(-1, TagPart), ArgumentTag(op), ArgumentTag(op)))
            && (op == Eq ==> Reads(ps, R0, SP(-2, TagPart)) && Reads(ps, R1, SP(-1, TagPart)))
            && (op == Eq ==> Reads(ps, R1, SP(-2, ValPart)) && Reads(ps, R2, SP(-1, ValPart)))
  {
    OperSteps(cp, op);
    OperKeeps(cp, op);
  }

  // ---------------------------------------------------------------------------------------------
  // BMkPair

  /** `BMkPair`'s work: a pair header of size 3 at `hp`, the two top items copied after it, and the
      lower slot overwritten by a `HeapIndex` pointer to `hp`. */
  function MkPairWork(cp: Word): Pieces {
    [ SetAndCheck(cp, HP(0, TagPart), TagImm(PairHeader)),
      SetAndCheck(cp, HP(0, ValPart), IntImm(3)),
      MoveAndCheck(cp, R0, SP(-2, TagPart), HP(1, TagPart)),
      MoveAndCheck(cp, R0, SP(-2, ValPart), HP(1, ValPart)),
      MoveAndCheck(cp, R0, SP(-1, TagPart), HP(2, TagPart)),
      MoveAndCheck(cp, R0, SP(-1, ValPart), HP(2, ValPart)),
      MakeHeapPointer(cp, SP(-2, ValPart), HeapIndex) ]
  }

  /** `BMkPair::getUInstructions`: the work, then three cells allocated, one slot popped, and on. */
  function MkPairPieces(cp: Word): Pieces {
    Lowering(cp, MkPairWork(cp), HpSpNext(cp, 3, 1))
  }

  /** What `BMkPair`'s code may do: write `r0`, `sp`, `hp` and `cp`, store the header and the copies
      through `r0` to the three cells at `hp` and the pointer to the lower slot, and check no tag. */
  function MkPairEffects(): Effects {
    Effects({R0, Sp, Hp, Cp},
            map[HP(0, TagPart) := TagImm(PairHeader), HP(0, ValPart) := IntImm(3),
                HP(1, TagPart) := Reg(R0), HP(1, ValPart) := Reg(R0),
                HP(2, TagPart) := Reg(R0), HP(2, ValPart) := Reg(R0),
                SP(-2, TagPart) := TagImm(HeapIndex), SP(-2, ValPart) := Reg(Hp)],
            map[])
  }

  lemma MkPairWorkBuilt(cp: Word)
    ensures Built(MkPairWork(cp), cp)
  {
  }

  lemma MkPairWorkEffects(cp: Word)
    ensures Performs(MkPairWork(cp), MkPairEffects().(writes := {R0}))
  {
  }

  lemma MkPairWorkFacts(cp: Word)
    ensures var work := MkPairWork(cp);
            && CopiesAt(work, cp, SP(-2, TagPart), HP(1, TagPart), 2)
            && CopiesAt(work, cp, SP(-2, ValPart), HP(1, ValPart), 3)
            && CopiesAt(work, cp, SP(-1, TagPart), HP(2, TagPart), 4)
            && CopiesAt(work, cp, SP(-1, ValPart), HP(2, ValPart), 5)
            && StoreAt(work, HP(0, TagPart), TagImm(PairHeader), 0, 1)
            && StoreAt(work, SP(-2, ValPart), Reg(Hp), 6, 3)
  {
  }

  lemma MkPairSteps(cp: Word)
    ensures var ps := MkPairPieces(cp);
            && Lowered(ps, cp) && Performs(ps, MkPairEffects())
            && StepsForward(ps, cp, SpDelta(BMkPair(cp)), HpDelta(BMkPair(cp)))
  {
    var work, update := MkPairWork(cp), HpSpNext(cp, 3, 1);
    MkPairWorkBuilt(cp);
    MkPairWorkEffects(cp);
    HpSpNextOk(cp, 3, 1);
    HpSpNextSteps(cp, 3, 1);
    StraightLowering(cp, work, update, MkPairEffects(), {R0}, {Sp, Hp, Cp}, -1, 3);
  }

  lemma MkPairKeeps(cp: Word)
    ensures var ps := MkPairPieces(cp);
            && Copies(ps, cp, SP(-2, TagPart), HP(1, TagPart)) && Copies(ps, cp, SP(-2, ValPart), HP(1, ValPart))
            && Copies(ps, cp, SP(-1, TagPart), HP(2, TagPart)) && Copies(ps, cp, SP(-1, ValPart), HP(2, ValPart))
            && Stores(ps, HP(0, TagPart), TagImm(PairHeader)) && Stores(ps, SP(-2, ValPart), Reg(Hp))
  {
    var work, update := MkPairWork(cp), HpSpNext(cp, 3, 1);
    MkPairWorkFacts(cp);
    KeptCopy(cp, work, update, SP(-2, TagPart), HP(1, TagPart), 2);
    KeptCopy(cp, work, update, SP(-2, ValPart), HP(1, ValPart), 3);
    KeptCopy(cp, work, update, SP(-1, TagPart), HP(2, TagPart), 4);
    KeptCopy(cp, work, update, SP(-1, ValPart), HP(2, ValPart), 5);
    KeptStore(cp, work, update, HP(0, TagPart), TagImm(PairHeader), 0, 1);
    KeptStore(cp, work, update, SP(-2, ValPart), Reg(Hp), 6, 3);
  }

  /** `BMkPair` lowers to code that writes the pair header, copies the lower item to the first cell and
      the top item to the second, replaces the lower item by a `HeapIndex` to the header, allocates
      three cells and pops one slot. */
  lemma MkPairLowering(cp: Word)
    ensures var ps := MkPairPieces(cp);
            && Lowered(ps, cp) && Performs(ps, MkPairEffects())
            && StepsForward(ps, cp, SpDelta(BMkPair(cp)), HpDelta(BMkPair(cp)))
            && Copies(ps, cp, SP(-2, TagPart), HP(1, TagPart)) && Copies(ps, cp, SP(-2, ValPart), HP(1, ValPart))
            && Copies(ps, cp, SP(-1, TagPart), HP(2, TagPart)) && Copies(ps, cp, SP(-1, ValPart), HP(2, ValPart))
            && Stores(ps, HP(0, TagPart), TagImm(PairHeader)) && Stores(ps, SP(-2, ValPart), Reg(Hp))
  {
    MkPairSteps(cp);
    MkPairKeeps(cp);
  }

  // ---------------------------------------------------------------------------------------------
  // BFst and BSnd

  /** The work of `BFst` (`n` = 1) and `BSnd` (`n` = 2): the top item must be a `HeapIndex` to a pair
      header; cell `n` after the header is copied over it. */
  function ProjectWork(cp: Word, n: Int32): Pieces {
    [ GetAndCheckTagged(cp, R2, SP(-1, ValPart), HeapIndex),
      GetAndCheckTagged(cp, R0, HeapAt(R2, 0, TagPart), PairHeader),
      MoveAndCheck(cp, R0, HeapAt(R2, n, TagPart), SP(-1, TagPart)),
      MoveAndCheck(cp, R0, HeapAt(R2, n, ValPart), SP(-1, ValPart)) ]
  }

  /** `BFst::getUInstructions` and `BSnd::getUInstructions`. */
  function ProjectPieces(cp: Word, n: Int32): Pieces {
    Lowering(cp, ProjectWork(cp, n), NextCp(cp))
  }

  /** What `BFst` and `BSnd` may do: write `r0`, `r2` and `cp`, store the copy through `r0` over the
      top item, check that the top item is a `HeapIndex` and that the header it points to is a pair's. */
  function ProjectEffects(): Effects {
    Effects({R0, R2, Cp},
            map[SP(-1, TagPart) := Reg(R0), SP(-1, ValPart) := Reg(R0)],
            map[SP(-1, TagPart) := (HeapIndex, HeapIndex), HeapAt(R2, 0, TagPart) := (PairHeader, PairHeader)])
  }

  lemma ProjectWorkOk(cp: Word, n: Int32)
    ensures Built(ProjectWork(cp, n), cp) && Performs(ProjectWork(cp, n), ProjectEffects().(writes := {R0, R2}))
  {
  }

  lemma ProjectWorkFacts(cp: Word, n: Int32)
    requires n == 1 || n == 2
    ensures var work := ProjectWork(cp, n);
            && ChecksAt(work, SP(-1, TagPart), HeapIndex, HeapIndex, 0, 1)
            && ChecksAt(work, HeapAt(R2, 0, TagPart), PairHeader, PairHeader, 1, 1)
            && ReadAt(work, R2, SP(-1, ValPart), 0, 2)
            && CopiesAt(work, cp, HeapAt(R2, n, TagPart), SP(-1, TagPart), 2)
            && CopiesAt(work, cp, HeapAt(R2, n, ValPart), SP(-1, ValPart), 3)
  {
  }

  lemma ProjectSteps(cp: Word, n: Int32)
    requires n == 1 || n == 2
    ensures var ps := ProjectPieces(cp, n);
            var b := if n == 1 then BFst(cp) else BSnd(cp);
            && Lowered(ps, cp) && Performs(ps, ProjectEffects())
            && StepsForward(ps, cp, SpDelta(b), HpDelta(b))
  {
    var work, update := ProjectWork(cp, n), NextCp(cp);
    ProjectWorkOk(cp, n);
    NextCpSteps(cp);
    StraightLowering(cp, work, update, ProjectEffects(), {R0, R2}, {Cp}, 0, 0);
  }

  lemma ProjectKeeps(cp: Word, n: Int32)
    requires n == 1 || n == 2
    ensures var ps := ProjectPieces(cp, n);
            var b := if n == 1 then BFst(cp) else BSnd(cp);
            && Checks(ps, SP(-1, TagPart), HeapIndex, HeapIndex)
            && Checks(ps, HeapAt(R2, 0, TagPart), PairHeader, PairHeader)
            && Reads(ps, R2, SP(-1, ValPart))
            && Copies(ps, cp, HeapAt(R2, n, TagPart), SP(-1, TagPart))
            && Copies(ps, cp, HeapAt(R2, n, ValPart), SP(-1, ValPart))
  {
    var work, update := ProjectWork(cp, n), NextCp(cp);
    ProjectWorkFacts(cp, n);
    KeptCheck(cp, work, update, SP(-1, TagPart), HeapIndex, HeapIndex, 0, 1);
    KeptCheck(cp, work, update, HeapAt(R2, 0, TagPart), PairHeader, PairHeader, 1, 1);
    KeptRead(cp, work, update, R2, SP(-1, ValPart), 0, 2);
    KeptCopy(cp, work, update, HeapAt(R2, n, TagPart), SP(-1, TagPart), 2);
    KeptCopy(cp, work, update, HeapAt(R2, n, ValPart), SP(-1, ValPart), 3);
  }

  /** `BFst` and `BSnd` lower to code that checks for a `HeapIndex` on top pointing to a pair header,
      copies the pair's cell `n` over the top item, and goes on. */
  lemma ProjectLowering(cp: Word, n: Int32)
    requires n == 1 || n == 2
    ensures var ps := ProjectPieces(cp, n);
            var b := if n == 1 then BFst(cp) else BSnd(cp);
            && Lowered(ps, cp) && Performs(ps, ProjectEffects())
            && StepsForward(ps, cp, SpDelta(b), HpDelta(b))
            && Checks(ps, SP(-1, TagPart), HeapIndex, HeapIndex)
            && Checks(ps, HeapAt(R2, 0, TagPart), PairHeader, PairHeader)
            && Reads(ps, R2, SP(-1, ValPart))
            && Copies(ps, cp, HeapAt(R2, n, TagPart), SP(-1, TagPart))
            && Copies(ps, cp, HeapAt(R2, n, ValPart), SP(-1, ValPart))
  {
    ProjectSteps(cp, n);
    ProjectKeeps(cp, n);
  }

  // ---------------------------------------------------------------------------------------------
  // BMkInl and BMkInr

  /** The work of `BMkInl` (`InlHeader`) and `BMkInr` (`InrHeader`): a header of size 2 at `hp`, the top
      item copied after it and replaced by a `HeapIndex` pointer to `hp`. */
  function InjectWork(cp: Word, header: Tag): Pieces {
    [ SetAndCheck(cp, HP(0, TagPart), TagImm(header)),
      SetAndCheck(cp, HP(0, ValPart), IntImm(2)),
      MoveAndCheck(cp, R0, SP(-1, TagPart), HP(1, TagPart)),
      MoveAndCheck(cp, R0, SP(-1, ValPart), HP(1, ValPart)),
      MakeHeapPointer(cp, SP(-1, ValPart), HeapIndex) ]
  }

  /** `BMkInl::getUInstructions` and `BMkInr::getUInstructions`: the work, two cells allocated, and on. */
  function InjectPieces(cp: Word, header: Tag): Pieces {
    Lowering(cp, InjectWork(cp, header), HpNext(cp, 2))
  }

  /** What `BMkInl` and `BMkInr` may do: write `r0`, `hp` and `cp`, store the header and the copy to the
      two cells at `hp` and the pointer over the top item, and check no tag. */
  function InjectEffects(header: Tag): Effects {
    Effects({R0, Hp, Cp},
            map[HP(0, TagPart) := TagImm(header), HP(0, ValPart) := IntImm(2),
                HP(1, TagPart) := Reg(R0), HP(1, ValPart) := Reg(R0),
                SP(-1, TagPart) := TagImm(HeapIndex), SP(-1, ValPart) := Reg(Hp)],
            map[])
  }

  lemma InjectWorkBuilt(cp: Word, header: Tag)
    ensures Built(InjectWork(cp, header), cp)
  {
  }

  lemma InjectWorkEffects(cp: Word, header: Tag)
    ensures Performs(InjectWork(cp, header), InjectEffects(header).(writes := {R0}))
  {
  }

  lemma InjectWorkFacts(cp: Word, header: Tag)
    requires header == InlHeader || header == InrHeader
    ensures var work := InjectWork(cp, header);
            && StoreAt(work, HP(0, TagPart), TagImm(header), 0, 1)
            && StoreAt(work, HP(0, ValPart), IntImm(2), 1, 1)
            && CopiesAt(work, cp, SP(-1, TagPart), HP(1, TagPart), 2)
            && CopiesAt(work, cp, SP(-1, ValPart), HP(1, ValPart), 3)
            && StoreAt(work, SP(-1, TagPart), TagImm(HeapIndex), 4, 1)
            && StoreAt(work, SP(-1, ValPart), Reg(Hp), 4, 3)
  {
  }

  lemma InjectSteps(cp: Word, header: Tag)
    requires header == InlHeader || header == InrHeader
    ensures var ps := InjectPieces(cp, header);
            var b := if header == InlHeader then BMkInl(cp) else BMkInr(cp);
            && Lowered(ps, cp) && Performs(ps, InjectEffects(header))
            && StepsForward(ps, cp, SpDelta(b), HpDelta(b))
  {
    var work, update := InjectWork(cp, header), HpNext(cp, 2);
    InjectWorkBuilt(cp, header);
    InjectWorkEffects(cp, header);
    HpNextSteps(cp, 2);
    StraightLowering(cp, work, update, InjectEffects(header), {R0}, {Hp, Cp}, 0, 2);
  }

  lemma InjectKeeps(cp: Word, header: Tag)
    requires header == InlHeader || header == InrHeader
    ensures var ps := InjectPieces(cp, header);
            var b := if header == InlHeader then BMkInl(cp) else BMkInr(cp);
            && Stores(ps, HP(0, TagPart), TagImm(header)) && Stores(ps, HP(0, ValPart), IntImm(2))
            && Copies(ps, cp, SP(-1, TagPart), HP(1, TagPart)) && Copies(ps, cp, SP(-1, ValPart), HP(1, ValPart))
            && Stores(ps, SP(-1, TagPart), TagImm(HeapIndex)) && Stores(ps, SP(-1, ValPart), Reg(Hp))
  {
    var work, update := InjectWork(cp, header), HpNext(cp, 2);
    InjectWorkFacts(cp, header);
    KeptStore(cp, work, update, HP(0, TagPart), TagImm(header), 0, 1);
    KeptStore(cp, work, update, HP(0, ValPart), IntImm(2), 1, 1);
    KeptCopy(cp, work, update, SP(-1, TagPart), HP(1, TagPart), 2);
    KeptCopy(cp, work, update, SP(-1, ValPart), HP(1, ValPart), 3);
    KeptStore(cp, work, update, SP(-1, TagPart), TagImm(HeapIndex), 4, 1);
    KeptStore(cp, work, update, SP(-1, ValPart), Reg(Hp), 4, 3);
  }

  /** `BMkInl` and `BMkInr` lower to code that writes the header, copies the top item to the cell after
      it, replaces the top item by a `HeapIndex` to the header and allocates two cells. */
  lemma InjectLowering(cp: Word, header: Tag)
    requires header == InlHeader || header == InrHeader
    ensures var ps := InjectPieces(cp, header);
            var b := if header == InlHeader then BMkInl(cp) else BMkInr(cp);
            && Lowered(ps, cp) && Performs(ps, InjectEffects(header))
            && StepsForward(ps, cp, SpDelta(b), HpDelta(b))
            && Stores(ps, HP(0, TagPart), TagImm(header)) && Stores(ps, HP(0, ValPart), IntImm(2))
            && Copies(ps, cp, SP(-1, TagPart), HP(1, TagPart)) && Copies(ps, cp, SP(-1, ValPart), HP(1, ValPart))
            && Stores(ps, SP(-1, TagPart), TagImm(HeapIndex)) && Stores(ps, SP(-1, ValPart), Reg(Hp))
  {
    InjectSteps(cp, header);
    InjectKeeps(cp, header);
  }

  // ---------------------------------------------------------------------------------------------
  // BPush

  /** `BPush`'s work: the item stored in the free slot at `sp`. */
  function PushWork(cp: Word, tag: PushTag, value: Int32): Pieces {
    [ SetAndCheck(cp, SP(0, TagPart), TagImm(tag)),
      SetAndCheck(cp, SP(0, ValPart), IntImm(value)) ]
  }

  /** `BPush::getUInstructions`: the work, one slot pushed, and on. */
  function PushPieces(cp: Word, tag: PushTag, value: Int32): Pieces {
    Lowering(cp, PushWork(cp, tag, value), SpNext(cp, Add, 1))
  }

  /** What `BPush` may do: write `sp` and `cp` and store the item at `sp`. */
  function PushEffects(tag: PushTag, value: Int32): Effects {
    Effects({Sp, Cp}, map[SP(0, TagPart) := TagImm(tag), SP(0, ValPart) := IntImm(value)], map[])
  }

  lemma PushWorkOk(cp: Word, tag: PushTag, value: Int32)
    ensures Built(PushWork(cp, tag, value), cp) && Performs(PushWork(cp, tag, value), PushEffects(tag, value).(writes := {}))
  {
  }

  lemma PushWorkFacts(cp: Word, tag: PushTag, value: Int32)
    ensures var work := PushWork(cp, tag, value);
            && StoreAt(work, SP(0, TagPart), TagImm(tag), 0, 1)
            && StoreAt(work, SP(0, ValPart), IntImm(value), 1, 1)
  {
  }

  lemma PushSteps(cp: Word, tag: PushTag, value: Int32)
    ensures var ps := PushPieces(cp, tag, value);
            && Lowered(ps, cp) && Performs(ps, PushEffects(tag, value))
            && StepsForward(ps, cp, SpDelta(BPush(cp, tag, value)), HpDelta(BPush(cp, tag, value)))
  {
    var work, update := PushWork(cp, tag, value), SpNext(cp, Add, 1);
    PushWorkOk(cp, tag, value);
    SpNextSteps(cp, Add, 1);
    StraightLowering(cp, work, update, PushEffects(tag, value), {}, {Sp, Cp}, 1, 0);
  }

  lemma PushKeeps(cp: Word, tag: PushTag, value: Int32)
    ensures var ps := PushPieces(cp, tag, value);
            && Stores(ps, SP(0, TagPart), TagImm(tag)) && Stores(ps, SP(0, ValPart), IntImm(value))
  {
    var work, update := PushWork(cp, tag, value), SpNext(cp, Add, 1);
    PushWorkFacts(cp, tag, value);
    KeptStore(cp, work, update, SP(0, TagPart), TagImm(tag), 0, 1);
    KeptStore(cp, work, update, SP(0, ValPart), IntImm(value), 1, 1);
  }

  /** `BPush` lowers to code that stores its tag and value at `sp`, uses no scratch register, and
      pushes one slot. */
  lemma PushLowering(cp: Word, tag: PushTag, value: Int32)
    ensures var ps := PushPieces(cp, tag, value);
            && Lowered(ps, cp) && Performs(ps, PushEffects(tag, value))
            && StepsForward(ps, cp, SpDelta(BPush(cp, tag, value)), HpDelta(BPush(cp, tag, value)))
            && Stores(ps, SP(0, TagPart), TagImm(tag)) && Stores(ps, SP(0, ValPart), IntImm(value))
  {
    PushSteps(cp, tag, value);
    PushKeeps(cp, tag, value);
  }

  // ---------------------------------------------------------------------------------------------
  // BLookup

  /** `BLookup`'s work: from the stack, the item at `fp + offset` copied to `sp`; from the heap, the
      item `fp - 1` must be a `HeapIndex` (to the closure) and cell `offset + 1` of it is copied to
      `sp`. The pieces an `addIf` leaves out are empty. */
  function LookupWork(cp: Word, location: Location, offset: Int32): Pieces
    requires offset < INT_MAX
  {
    if location == Heap then
      [ GetAndCheckTagged(cp, R2, FP(-1, ValPart), HeapIndex),
        [], [],
        MoveAndCheck(cp, R0, HeapAt(R2, offset + 1, TagPart), SP(0, TagPart)),
        MoveAndCheck(cp, R0, HeapAt(R2, offset + 1, ValPart), SP(0, ValPart)) ]
    else
      [ [],
        MoveAndCheck(cp, R0, FP(offset, TagPart), SP(0, TagPart)),
        MoveAndCheck(cp, R0, FP(offset, ValPart), SP(0, ValPart)),
        [], [] ]
  }

  /** `BLookup::getUInstructions`: the work, one slot pushed, and on. */
  function LookupPieces(cp: Word, location: Location, offset: Int32): Pieces
    requires offset < INT_MAX
  {
    Lowering(cp, LookupWork(cp, location, offset), SpNext(cp, Add, 1))
  }

  /** The scratch registers `BLookup`'s work writes. */
  function LookupScratch(location: Location): set<URegister> {
    if location == Heap then {R0, R2} else {R0}
  }

  /** What `BLookup` may do: write its scratch registers, `sp` and `cp`, store the copy through `r0` at
      `sp`, and (from the heap) check that the item below the frame is a `HeapIndex`. */
  function LookupEffects(location: Location): Effects {
    Effects(LookupScratch(location) + {Sp, Cp},
            map[SP(0, TagPart) := Reg(R0), SP(0, ValPart) := Reg(R0)],
            if location == Heap then map[FP(-1, TagPart) := (HeapIndex, HeapIndex)] else map[])
  }

  lemma LookupWorkOk(cp: Word, location: Location, offset: Int32)
    requires offset < INT_MAX
    ensures Built(LookupWork(cp, location, offset), cp)
    ensures Performs(LookupWork(cp, location, offset), LookupEffects(location).(writes := LookupScratch(location)))
  {
  }

  lemma LookupWorkFacts(cp: Word, location: Location, offset: Int32)
    requires offset < INT_MAX
    ensures var work := LookupWork(cp, location, offset);
            && (location == Heap ==> ChecksAt(work, FP(-1, TagPart), HeapIndex, HeapIndex, 0, 1))
            && (location == Heap ==> ReadAt(work, R2, FP(-1, ValPart), 0, 2))
            && (location == Heap ==> CopiesAt(work, cp, HeapAt(R2, offset + 1, TagPart), SP(0, TagPart), 3))
            && (location == Heap ==> CopiesAt(work, cp, HeapAt(R2, offset + 1, ValPart), SP(0, ValPart), 4))
            && (location == Stack ==> CopiesAt(work, cp, FP(offset, TagPart), SP(0, TagPart), 1))
            && (location == Stack ==> CopiesAt(work, cp, FP(offset, ValPart), SP(0, ValPart), 2))
  {
  }

  lemma LookupSteps(cp: Word, location: Location, offset: Int32)
    requires offset < INT_MAX
    ensures var ps := LookupPieces(cp, location, offset);
            && Lowered(ps, cp) && Performs(ps, LookupEffects(location))
            && StepsForward(ps, cp, SpDelta(BLookup(cp, location, offset)), HpDelta(BLookup(cp, location, offset)))
  {
    var work, update := LookupWork(cp, location, offset), SpNext(cp, Add, 1);
    LookupWorkOk(cp, location, offset);
    SpNextSteps(cp, Add, 1);
    StraightLowering(cp, work, update, LookupEffects(location), LookupScratch(location), {Sp, Cp}, 1, 0);
  }

  lemma LookupKeeps(cp: Word, location: Location, offset: Int32)
    requires offset < INT_MAX
    ensures var ps := LookupPieces(cp, location, offset);
            && (location == Stack ==> Copies(ps, cp, FP(offset, TagPart), SP(0, TagPart)))
            && (location == Stack ==> Copies(ps, cp, FP(offset, ValPart), SP(0, ValPart)))
            && (location == Heap ==> Checks(ps, FP(-1, TagPart), HeapIndex, HeapIndex) && Reads(ps, R2, FP(-1, ValPart)))
            && (location == Heap ==> Copies(ps, cp, HeapAt(R2, offset + 1, TagPart), SP(0, TagPart)))
            && (location == Heap ==> Copies(ps, cp, HeapAt(R2, offset + 1, ValPart), SP(0, ValPart)))
  {
    var work, update := LookupWork(cp, location, offset), SpNext(cp, Add, 1);
    LookupWorkFacts(cp, location, offset);
    if location == Heap {
      KeptCheck(cp, work, update, FP(-1, TagPart), HeapIndex, HeapIndex, 0, 1);
      KeptRead(cp, work, update, R2, FP(-1, ValPart), 0, 2);
      KeptCopy(cp, work, update, HeapAt(R2, offset + 1, TagPart), SP(0, TagPart), 3);
      KeptCopy(cp, work, update, HeapAt(R2, offset + 1, ValPart), SP(0, ValPart), 4);
    } else {
      KeptCopy(cp, work, update, FP(offset, TagPart), SP(0, TagPart), 1);
      KeptCopy(cp, work, update, FP(offset, ValPart), SP(0, ValPart), 2);
    }
  }

  /** `BLookup` lowers to code that copies the stack item at `fp + offset`, or the closure's cell
      `offset + 1` after checking for the closure pointer below the frame, to `sp`, and pushes one
      slot. */
  lemma LookupLowering(cp: Word, location: Location, offset: Int32)
    requires offset < INT_MAX
    ensures var ps := LookupPieces(cp, location, offset);
            && Lowered(ps, cp) && Performs(ps, LookupEffects(location))
            && StepsForward(ps, cp, SpDelta(BLookup(cp, location, offset)), HpDelta(BLookup(cp, location, offset)))
            && (location == Stack ==> Copies(ps, cp, FP(offset, TagPart), SP(0, TagPart)))
            && (location == Stack ==> Copies(ps, cp, FP(offset, ValPart), SP(0, ValPart)))
            && (location == Heap ==> Checks(ps, FP(-1, TagPart), HeapIndex, HeapIndex) && Reads(ps, R2, FP(-1, ValPart)))
            && (location == Heap ==> Copies(ps, cp, HeapAt(R2, offset + 1, TagPart), SP(0, TagPart)))
            && (location == Heap ==> Copies(ps, cp, HeapAt(R2, offset + 1, ValPart), SP(0, ValPart)))
  {
    LookupSteps(cp, location, offset);
    LookupKeeps(cp, location, offset);
  }

  // ---------------------------------------------------------------------------------------------
  // BSwap

  /** `BSwap`'s work: the two tags exchanged through `r0` and `r1`, then the two values. */
  function SwapWork(cp: Word): Pieces {
    [ GetAndCheck(cp, R0, SP(-2, TagPart)),
      GetAndCheck(cp, R1, SP(-1, TagPart)),
      SetAndCheck(cp, SP(-2, TagPart), Reg(R1)),
      SetAndCheck(cp, SP(-1, TagPart), Reg(R0)),
      GetAndCheck(cp, R0, SP(-2, ValPart)),
      GetAndCheck(cp, R1, SP(-1, ValPart)),
      SetAndCheck(cp, SP(-2, ValPart), Reg(R1)),
      SetAndCheck(cp, SP(-1, ValPart), Reg(R0)) ]
  }

  /** `BSwap::getUInstructions`. */
  function SwapPieces(cp: Word): Pieces {
    Lowering(cp, SwapWork(cp), NextCp(cp))
  }

  /** What `BSwap` may do: write `r0`, `r1` and `cp`, store `r1` (read from the top) to the lower slot
      and `r0` (read from the lower slot) to the top, and check no tag. */
  function SwapEffects(): Effects {
    Effects({R0, R1, Cp},
            map[SP(-2, TagPart) := Reg(R1), SP(-1, TagPart) := Reg(R0),
                SP(-2, ValPart) := Reg(R1), SP(-1, ValPart) := Reg(R0)],
            map[])
  }

  lemma SwapWorkBuilt(cp: Word)
    ensures Built(SwapWork(cp), cp)
  {
  }

  lemma SwapWorkEffects(cp: Word)
    ensures Performs(SwapWork(cp), SwapEffects().(writes := {R0, R1}))
  {
  }

  /** Each half is read into both registers before either is stored: the lower slot into `r0` and the
      top into `r1`, and the four pieces of that half write no register after the two reads, so the
      stores of `r1` below and `r0` on top exchange the two. */
  lemma SwapReadsFirst(cp: Word, h: ItemPart)
    ensures var work := SwapWork(cp);
            var k := if h == TagPart then 0 else 4;
            && ReadAt(work, R0, SP(-2, h), k, 1) && ReadAt(work, R1, SP(-1, h), k + 1, 1)
            && StoreAt(work, SP(-2, h), Reg(R1), k + 2, 1) && StoreAt(work, SP(-1, h), Reg(R0), k + 3, 1)
            && forall p, j | In(work, p, j) && k + 2 <= p < k + 4 :: work[p][j].Writes().None?
  {
  }

  lemma SwapWorkFacts(cp: Word)
    ensures var work := SwapWork(cp);
            && ReadAt(work, R0, SP(-2, TagPart), 0, 1)
            && ReadAt(work, R1, SP(-1, TagPart), 1, 1)
            && ReadAt(work, R0, SP(-2, ValPart), 4, 1)
            && ReadAt(work, R1, SP(-1, ValPart), 5, 1)
  {
  }

  lemma SwapSteps(cp: Word)
    ensures var ps := SwapPieces(cp);
            && Lowered(ps, cp) && Performs(ps, SwapEffects())
            && StepsForward(ps, cp, SpDelta(BSwap(cp)), HpDelta(BSwap(cp)))
  {
    var work, update := SwapWork(cp), NextCp(cp);
    SwapWorkBuilt(cp);
    SwapWorkEffects(cp);
    NextCpSteps(cp);
    StraightLowering(cp, work, update, SwapEffects(), {R0, R1}, {Cp}, 0, 0);
  }

  lemma SwapKeeps(cp: Word)
    ensures var ps := SwapPieces(cp);
            && Reads(ps, R0, SP(-2, TagPart)) && Reads(ps, R1, SP(-1, TagPart))
            && Reads(ps, R0, SP(-2, ValPart)) && Reads(ps, R1, SP(-1, ValPart))
  {
    var work, update := SwapWork(cp), NextCp(cp);
    SwapWorkFacts(cp);
    KeptRead(cp, work, update, R0, SP(-2, TagPart), 0, 1);
    KeptRead(cp, work, update, R1, SP(-1, TagPart), 1, 1);
    KeptRead(cp, work, update, R0, SP(-2, ValPart), 4, 1);
    KeptRead(cp, work, update, R1, SP(-1, ValPart), 5, 1);
  }

  /** `BSwap` lowers to code that exchanges the two top items, tag with tag and value with value. */
  lemma SwapLowering(cp: Word)
    ensures var ps := SwapPieces(cp);
            && Lowered(ps, cp) && Performs(ps, SwapEffects())
            && StepsForward(ps, cp, SpDelta(BSwap(cp)), HpDelta(BSwap(cp)))
            && Reads(ps, R0, SP(-2, TagPart)) && Reads(ps, R1, SP(-1, TagPart))
            && Reads(ps, R0, SP(-2, ValPart)) && Reads(ps, R1, SP(-1, ValPart))
  {
    SwapSteps(cp);
    SwapKeeps(cp);
  }

  // ---------------------------------------------------------------------------------------------
  // BPop, BLabel and BFunction

  /** `BPop::getUInstructions`: no work; one slot popped, and on. */
  function PopPieces(cp: Word): Pieces {
    Lowering(cp, [], SpNext(cp, Sub, 1))
  }

  /** `BLabel::getUInstructions` and `BFunction::getUInstructions`: no work; on. */
  function SkipPieces(cp: Word): Pieces {
    Lowering(cp, [], NextCp(cp))
  }

  /** The effects of code that only updates registers. */
  function RegisterEffects(w: set<URegister>): Effects {
    Effects(w, map[], map[])
  }

  /** `BPop` lowers to code that touches no memory and pops one slot. */
  lemma PopLowering(cp: Word)
    ensures var ps := PopPieces(cp);
            && Lowered(ps, cp) && Performs(ps, RegisterEffects({Sp, Cp}))
            && StepsForward(ps, cp, SpDelta(BPop(cp)), HpDelta(BPop(cp)))
  {
    SpNextSteps(cp, Sub, 1);
    StraightLowering(cp, [], SpNext(cp, Sub, 1), RegisterEffects({Sp, Cp}), {}, {Sp, Cp}, -1, 0);
  }

  /** `BLabel` and `BFunction` lower to code that touches no memory and only goes on. */
  lemma SkipLowering(cp: Word)
    ensures var ps := SkipPieces(cp);
            && Lowered(ps, cp) && Performs(ps, RegisterEffects({Cp}))
            && StepsForward(ps, cp, SpDelta(BLabel(cp)), HpDelta(BLabel(cp)))
            && StepsForward(ps, cp, SpDelta(BFunction(cp)), HpDelta(BFunction(cp)))
  {
    NextCpSteps(cp);
    StraightLowering(cp, [], NextCp(cp), RegisterEffects({Cp}), {}, {Cp}, 0, 0);
  }

  // ---------------------------------------------------------------------------------------------
  // BDeref, BMkRef and BAssign

  /** `BDeref`'s work: the top item must be a `HeapRef`; the cell it points to is copied over it. */
  function DerefWork(cp: Word): Pieces {
    [ GetAndCheckTagged(cp, R2, SP(-1, ValPart), HeapRef),
      MoveAndCheck(cp, R0, HeapAt(R2, 0, TagPart), SP(-1, TagPart)),
      MoveAndCheck(cp, R0, HeapAt(R2, 0, ValPart), SP(-1, ValPart)) ]
  }

  /** `BDeref::getUInstructions`. */
  function DerefPieces(cp: Word): Pieces {
    Lowering(cp, DerefWork(cp), NextCp(cp))
  }

  /** What `BDeref` may do: write `r0`, `r2` and `cp`, store the copy over the top item, and check that
      the top item is a `HeapRef`. */
  function DerefEffects(): Effects {
    Effects({R0, R2, Cp},
            map[SP(-1, TagPart) := Reg(R0), SP(-1, ValPart) := Reg(R0)],
            map[SP(-1, TagPart) := (HeapRef, HeapRef)])
  }

  lemma DerefWorkOk(cp: Word)
    ensures Built(DerefWork(cp), cp) && Performs(DerefWork(cp), DerefEffects().(writes := {R0, R2}))
  {
  }

  lemma DerefWorkFacts(cp: Word)
    ensures var work := DerefWork(cp);
            && ChecksAt(work, SP(-1, TagPart), HeapRef, HeapRef, 0, 1)
            && ReadAt(work, R2, SP(-1, ValPart), 0, 2)
            && CopiesAt(work, cp, HeapAt(R2, 0, TagPart), SP(-1, TagPart), 1)
            && CopiesAt(work, cp, HeapAt(R2, 0, ValPart), SP(-1, ValPart), 2)
  {
  }

  lemma DerefSteps(cp: Word)
    ensures var ps := DerefPieces(cp);
            && Lowered(ps, cp) && Performs(ps, DerefEffects())
            && StepsForward(ps, cp, SpDelta(BDeref(cp)), HpDelta(BDeref(cp)))
  {
    var work, update := DerefWork(cp), NextCp(cp);
    DerefWorkOk(cp);
    NextCpSteps(cp);
    StraightLowering(cp, work, update, DerefEffects(), {R0, R2}, {Cp}, 0, 0);
  }

  lemma DerefKeeps(cp: Word)
    ensures var ps := DerefPieces(cp);
            && Checks(ps, SP(-1, TagPart), HeapRef, HeapRef) && Reads(ps, R2, SP(-1, ValPart))
            && Copies(ps, cp, HeapAt(R2, 0, TagPart), SP(-1, TagPart))
            && Copies(ps, cp, HeapAt(R2, 0, ValPart), SP(-1, ValPart))
  {
    var work, update := DerefWork(cp), NextCp(cp);
    DerefWorkFacts(cp);
    KeptCheck(cp, work, update, SP(-1, TagPart), HeapRef, HeapRef, 0, 1);
    KeptRead(cp, work, update, R2, SP(-1, ValPart), 0, 2);
    KeptCopy(cp, work, update, HeapAt(R2, 0, TagPart), SP(-1, TagPart), 1);
    KeptCopy(cp, work, update, HeapAt(R2, 0, ValPart), SP(-1, ValPart), 2);
  }

  /** `BDeref` lowers to code that checks for a `HeapRef` on top and copies the cell it points to over
      it. */
  lemma DerefLowering(cp: Word)
    ensures var ps := DerefPieces(cp);
            && Lowered(ps, cp) && Performs(ps, DerefEffects())
            && StepsForward(ps, cp, SpDelta(BDeref(cp)), HpDelta(BDeref(cp)))
            && Checks(ps, SP(-1, TagPart), HeapRef, HeapRef) && Reads(ps, R2, SP(-1, ValPart))
            && Copies(ps, cp, HeapAt(R2, 0, TagPart), SP(-1, TagPart))
            && Copies(ps, cp, HeapAt(R2, 0, ValPart), SP(-1, ValPart))
  {
    DerefSteps(cp);
    DerefKeeps(cp);
  }

  /** `BMkRef`'s work: the top item copied to the cell at `hp` and replaced by a `HeapRef` to it. */
  function MkRefWork(cp: Word): Pieces {
    [ MoveAndCheck(cp, R0, SP(-1, TagPart), HP(0, TagPart)),
      MoveAndCheck(cp, R0, SP(-1, ValPart), HP(0, ValPart)),
      MakeHeapPointer(cp, SP(-1, ValPart), HeapRef) ]
  }

  /** `BMkRef::getUInstructions`: the work, one cell allocated, and on. */
  function MkRefPieces(cp: Word): Pieces {
    Lowering(cp, MkRefWork(cp), HpNext(cp, 1))
  }

  /** What `BMkRef` may do: write `r0`, `hp` and `cp`, store the copy at `hp` and the pointer over the
      top item, and check no tag. */
  function MkRefEffects(): Effects {
    Effects({R0, Hp, Cp},
            map[HP(0, TagPart) := Reg(R0), HP(0, ValPart) := Reg(R0),
                SP(-1, TagPart) := TagImm(HeapRef), SP(-1, ValPart) := Reg(Hp)],
            map[])
  }

  lemma MkRefWorkOk(cp: Word)
    ensures Built(MkRefWork(cp), cp) && Performs(MkRefWork(cp), MkRefEffects().(writes := {R0}))
  {
  }

  lemma MkRefWorkFacts(cp: Word)
    ensures var work := MkRefWork(cp);
            && CopiesAt(work, cp, SP(-1, TagPart), HP(0, TagPart), 0)
            && CopiesAt(work, cp, SP(-1, ValPart), HP(0, ValPart), 1)
            && StoreAt(work, SP(-1, TagPart), TagImm(HeapRef), 2, 1)
            && StoreAt(work, SP(-1, ValPart), Reg(Hp), 2, 3)
  {
  }

  lemma MkRefSteps(cp: Word)
    ensures var ps := MkRefPieces(cp);
            && Lowered(ps, cp) && Performs(ps, MkRefEffects())
            && StepsForward(ps, cp, SpDelta(BMkRef(cp)), HpDelta(BMkRef(cp)))
  {
    var work, update := MkRefWork(cp), HpNext(cp, 1);
    MkRefWorkOk(cp);
    HpNextSteps(cp, 1);
    StraightLowering(cp, work, update, MkRefEffects(), {R0}, {Hp, Cp}, 0, 1);
  }

  lemma MkRefKeeps(cp: Word)
    ensures var ps := MkRefPieces(cp);
            && Copies(ps, cp, SP(-1, TagPart), HP(0, TagPart)) && Copies(ps, cp, SP(-1, ValPart), HP(0, ValPart))
            && Stores(ps, SP(-1, TagPart), TagImm(HeapRef)) && Stores(ps, SP(-1, ValPart), Reg(Hp))
  {
    var work, update := MkRefWork(cp), HpNext(cp, 1);
    MkRefWorkFacts(cp);
    KeptCopy(cp, work, update, SP(-1, TagPart), HP(0, TagPart), 0);
    KeptCopy(cp, work, update, SP(-1, ValPart), HP(0, ValPart), 1);
    KeptStore(cp, work, update, SP(-1, TagPart), TagImm(HeapRef), 2, 1);
    KeptStore(cp, work, update, SP(-1, ValPart), Reg(Hp), 2, 3);
  }

  /** `BMkRef` lowers to code that copies the top item to a new cell, replaces it by a `HeapRef` to that
      cell and allocates the cell. */
  lemma MkRefLowering(cp: Word)
    ensures var ps := MkRefPieces(cp);
            && Lowered(ps, cp) && Performs(ps, MkRefEffects())
            && StepsForward(ps, cp, SpDelta(BMkRef(cp)), HpDelta(BMkRef(cp)))
            && Copies(ps, cp, SP(-1, TagPart), HP(0, TagPart)) && Copies(ps, cp, SP(-1, ValPart), HP(0, ValPart))
            && Stores(ps, SP(-1, TagPart), TagImm(HeapRef)) && Stores(ps, SP(-1, ValPart), Reg(Hp))
  {
    MkRefSteps(cp);
    MkRefKeeps(cp);
  }

  /** `BAssign`'s work: the lower item must be a `HeapRef`; the top item is copied to the cell it points
      to, and the lower item becomes `{Unit, 0}`. */
  function AssignWork(cp: Word): Pieces {
    [ GetAndCheckTagged(cp, R2, SP(-2, ValPart), HeapRef),
      MoveAndCheck(cp, R0, SP(-1, TagPart), HeapAt(R2, 0, TagPart)),
      MoveAndCheck(cp, R0, SP(-1, ValPart), HeapAt(R2, 0, ValPart)),
      SetAndCheck(cp, SP(-2, TagPart), TagImm(Unit)),
      SetAndCheck(cp, SP(-2, ValPart), IntImm(0)) ]
  }

  /** `BAssign::getUInstructions`: the work, one slot popped, and on. */
  function AssignPieces(cp: Word): Pieces {
    Lowering(cp, AssignWork(cp), SpNext(cp, Sub, 1))
  }

  /** What `BAssign` may do: write `r0`, `r2`, `sp` and `cp`, store the copy through the reference and
      `{Unit, 0}` to the lower slot, and check that the lower item is a `HeapRef`. */
  function AssignEffects(): Effects {
    Effects({R0, R2, Sp, Cp},
            map[HeapAt(R2, 0, TagPart) := Reg(R0), HeapAt(R2, 0, ValPart) := Reg(R0),
                SP(-2, TagPart) := TagImm(Unit), SP(-2, ValPart) := IntImm(0)],
            map[SP(-2, TagPart) := (HeapRef, HeapRef)])
  }

  lemma AssignWorkBuilt(cp: Word)
    ensures Built(AssignWork(cp), cp)
  {
  }

  lemma AssignWorkEffects(cp: Word)
    ensures Performs(AssignWork(cp), AssignEffects().(writes := {R0, R2}))
  {
  }

  lemma AssignWorkFacts(cp: Word)
    ensures var work := AssignWork(cp);
            && ChecksAt(work, SP(-2, TagPart), HeapRef, HeapRef, 0, 1)
            && ReadAt(work, R2, SP(-2, ValPart), 0, 2)
            && CopiesAt(work, cp, SP(-1, TagPart), HeapAt(R2, 0, TagPart), 1)
            && CopiesAt(work, cp, SP(-1, ValPart), HeapAt(R2, 0, ValPart), 2)
            && StoreAt(work, SP(-2, TagPart), TagImm(Unit), 3, 1)
            && StoreAt(work, SP(-2, ValPart), IntImm(0), 4, 1)
  {
  }

  lemma AssignSteps(cp: Word)
    ensures var ps := AssignPieces(cp);
            && Lowered(ps, cp) && Performs(ps, AssignEffects())
            && StepsForward(ps, cp, SpDelta(BAssign(cp)), HpDelta(BAssign(cp)))
  {
    var work, update := AssignWork(cp), SpNext(cp, Sub, 1);
    AssignWorkBuilt(cp);
    AssignWorkEffects(cp);
    SpNextSteps(cp, Sub, 1);
    StraightLowering(cp, work, update, AssignEffects(), {R0, R2}, {Sp, Cp}, -1, 0);
  }

  lemma AssignKeeps(cp: Word)
    ensures var ps := AssignPieces(cp);
            && Checks(ps, SP(-2, TagPart), HeapRef, HeapRef) && Reads(ps, R2, SP(-2, ValPart))
            && Copies(ps, cp, SP(-1, TagPart), HeapAt(R2, 0, TagPart))
            && Copies(ps, cp, SP(-1, ValPart), HeapAt(R2, 0, ValPart))
            && Stores(ps, SP(-2, TagPart), TagImm(Unit)) && Stores(ps, SP(-2, ValPart), IntImm(0))
  {
    var work, update := AssignWork(cp), SpNext(cp, Sub, 1);
    AssignWorkFacts(cp);
    KeptCheck(cp, work, update, SP(-2, TagPart), HeapRef, HeapRef, 0, 1);
    KeptRead(cp, work, update, R2, SP(-2, ValPart), 0, 2);
    KeptCopy(cp, work, update, SP(-1, TagPart), HeapAt(R2, 0, TagPart), 1);
    KeptCopy(cp, work, update, SP(-1, ValPart), HeapAt(R2, 0, ValPart), 2);
    KeptStore(cp, work, update, SP(-2, TagPart), TagImm(Unit), 3, 1);
    KeptStore(cp, work, update, SP(-2, ValPart), IntImm(0), 4, 1);
  }

  /** `BAssign` lowers to code that checks for a `HeapRef` below the top, copies the top item through
      it, leaves `{Unit, 0}` in its place and pops one slot. */
  lemma AssignLowering(cp: Word)
    ensures var ps := AssignPieces(cp);
            && Lowered(ps, cp) && Performs(ps, AssignEffects())
            && StepsForward(ps, cp, SpDelta(BAssign(cp)), HpDelta(BAssign(cp)))
            && Checks(ps, SP(-2, TagPart), HeapRef, HeapRef) && Reads(ps, R2, SP(-2, ValPart))
            && Copies(ps, cp, SP(-1, TagPart), HeapAt(R2, 0, TagPart))
            && Copies(ps, cp, SP(-1, ValPart), HeapAt(R2, 0, ValPart))
            && Stores(ps, SP(-2, TagPart), TagImm(Unit)) && Stores(ps, SP(-2, ValPart), IntImm(0))
  {
    AssignSteps(cp);
    AssignKeeps(cp);
  }
}
