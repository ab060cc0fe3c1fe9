/** B-code: the byte-code instructions of the VM and their roles in instruction groups. */
module BCode {
  import opened Words
  import opened TaggedMemory
  import opened Machine

  /** `UnaryOp` of `operations.h`. */
  datatype UnaryOp = Not | Neg | Read

  /** `BinaryOp` of `operations.h`. */
  datatype BinaryOp = And | Or | Eq | Lt | Add | Sub | Mul | Div

  /** `BPush::Tag`: the three tags a literal can carry. */
  type PushTag = t: Tag | t == Unit || t == Bool || t == Int witness Unit

  /** One B-instruction; every instruction records the index `cp` it was decoded at. */
  datatype BInstruction =
    | BUnary(cp: Word, unaryOp: UnaryOp)
    | BOper(cp: Word, binaryOp: BinaryOp)
    | BMkPair(cp: Word)
    | BFst(cp: Word)
    | BSnd(cp: Word)
    | BMkInl(cp: Word)
    | BMkInr(cp: Word)
    | BPush(cp: Word, tag: PushTag, value: Int32)
    | BApply(cp: Word)
    | BLookup(cp: Word, location: Location, offset: Int32)
    | BReturn(cp: Word)
    | BMkClosure(cp: Word, closureLocation: Word, size: Word)
    | BSwap(cp: Word)
    | BPop(cp: Word)
    | BLabel(cp: Word)
    | BFunction(cp: Word)
    | BDeref(cp: Word)
    | BMkRef(cp: Word)
    | BAssign(cp: Word)
    | BHalt(cp: Word)
    | BGoto(cp: Word, destination: Word)
    | BTest(cp: Word, destination: Word)
    | BCase(cp: Word, destination: Word)
  {
    /** The instructions that transfer control other than to `cp + 1`. */
    predicate IsControl() {
      BApply? || BReturn? || BHalt? || BGoto? || BTest? || BCase?
    }
  }

  /** `BGroup`: the granularities at which the JIT can compile code. */
  datatype Group = Individual | Block | Function

  /** `BGroupRole<group>::isStart`: which classes derive from `StartOf<group>`. */
  function IsStart(i: BInstruction, g: Group): bool {
    match g
    case Individual => true
    case Block => !i.IsControl()
    case Function => i.BFunction?
  }

  /** `BGroupRole<group>::isEnd`: which classes derive from `EndOf<group>`. */
  function IsEnd(i: BInstruction, g: Group): bool {
    match g
    case Individual => true
    case Block => i.IsControl()
    case Function => i.BReturn? || i.BHalt?
  }

  /** `BGroupRole<group>::isEntry`: no class derives from `EntryOf`. */
  function IsEntry(i: BInstruction, g: Group): bool {
    false
  }

  /** `BGroupRole<group>::isBeforeEntry`: which classes derive from `BeforeEntryOf<group>`. */
  function IsBeforeEntry(i: BInstruction, g: Group): bool {
    g == Function && (i.BApply? || i.BFunction?)
  }

  /** Every instruction both starts and ends its own `Individual` group. */
  lemma IndividualRoles(i: BInstruction)
    ensures IsStart(i, Individual) && IsEnd(i, Individual)
    ensures !IsEntry(i, Individual) && !IsBeforeEntry(i, Individual)
  {
  }

  /** Each instruction is exactly one of start or end of a `Block`:
      ends are the control transfers `Apply`, `Return`, `Halt`, `Goto`, `Test` and `Case`. */
  lemma BlockRoles(i: BInstruction)
    ensures IsStart(i, Block) != IsEnd(i, Block)
    ensures IsEnd(i, Block) <==>
              i.BApply? || i.BReturn? || i.BHalt? || i.BGoto? || i.BTest? || i.BCase?
  {
  }

  /** `Function` roles: only `Function` starts one, `Return` and `Halt` end one, and `Apply` and
      `Function` come before an entry; every end of a function also ends a block. */
  lemma FunctionRoles(i: BInstruction)
    ensures IsStart(i, Function) <==> i.BFunction?
    ensures IsEnd(i, Function) <==> i.BReturn? || i.BHalt?
    ensures IsBeforeEntry(i, Function) <==> i.BApply? || i.BFunction?
    ensures IsEnd(i, Function) ==> IsEnd(i, Block)
    ensures IsStart(i, Function) ==> IsStart(i, Block)
    ensures i.BApply? ==> IsEnd(i, Block) && !IsStart(i, Block)
  {
  }
}
