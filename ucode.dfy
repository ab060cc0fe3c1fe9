/** U-code: the micro-instructions B-instructions are lowered to, their arguments (`UArgument` and its
    subclasses), and the composite builders that put a memory check in front of every access. */
module UCode {
  import opened Wrappers
  import opened Words
  import opened TaggedMemory
  import opened Machine
  import opened BCode

  // ---------------------------------------------------------------------------------------------
  // Arguments

  /** The registers of `VMUArg`: `sp`, `fp`, `cp` and `hp` hold VM state (`URegSP`), `r0`-`r2` are
      scratch registers (`URegGP`). A register is identified by the machine register it names. */
  datatype URegister = Sp | Fp | Cp | Hp | R0 | R1 | R2 {
    predicate IsSpClass() {
      Sp? || Fp? || Cp? || Hp?
    }
  }

  /** `UImmInt`, `UImmTag` and `UImmStatus`. */
  datatype UImmediate = ImmInt(number: Int32) | ImmTag(tag: Tag) | ImmStatus(status: Status)

  /** `getValue`: the `int` an immediate stands for; tags and statuses by their enumerator value. */
  function Value(imm: UImmediate): Int32 {
    match imm
    case ImmInt(i) => i
    case ImmTag(t) => TagCode(t)
    case ImmStatus(s) => StatusCode(s)
  }

  /** `VMUArg::uImm`: immediates of an `int`, of a tag and of a status read back as that value, and two
      tag immediates have the same value only when they are the same tag. */
  lemma ImmediateValues(i: Int32, t: Tag, u: Tag, s: Status)
    ensures Value(ImmInt(i)) == i
    ensures Value(ImmTag(t)) == TagCode(t)
    ensures Value(ImmStatus(s)) == StatusCode(s)
    ensures Value(ImmTag(t)) == Value(ImmTag(u)) <==> t == u
  {
  }

  /** `UOperand`: what an instruction can read without a memory access. */
  datatype UOperand = Imm(imm: UImmediate) | Reg(reg: URegister)

  /** `ULocation`: one half (`ty`) of the item at `offset` from a pointer register. `ULocSP` and `ULocFP`
      use `sp` and `fp` in the stack, `ULocHeap` any register in the heap. */
  datatype ULocation =
    | LocSP(offset: Int32, ty: ItemPart)
    | LocFP(offset: Int32, ty: ItemPart)
    | LocHeap(reg: URegister, offset: Int32, ty: ItemPart)
  {
    /** `getPtr`. */
    function Ptr(): URegister {
      match this
      case LocSP(_, _) => Sp
      case LocFP(_, _) => Fp
      case LocHeap(reg, _, _) => reg
    }

    /** `getMemoryPtr`: the memory the location lives in. */
    function Memory(): Location {
      if LocHeap? then Heap else Stack
    }

    /** `withType`: the same pointer, offset and memory, with the other half of the item. */
    function WithType(t: ItemPart): (l: ULocation)
      ensures l.Ptr() == Ptr() && l.offset == offset && l.Memory() == Memory()
      ensures l.ty == t
      ensures l.(ty := ty) == this
    {
      this.(ty := t)
    }
  }

  /** `UArgument`: an operand or a location (the argument of a `UTagCheck`). */
  datatype UArgument = ArgOperand(operand: UOperand) | ArgLocation(location: ULocation)

  /** `VMUArg::SP`. */
  function SP(offset: Int32, t: ItemPart): ULocation {
    LocSP(offset, t)
  }

  /** `VMUArg::FP`. */
  function FP(offset: Int32, t: ItemPart): ULocation {
    LocFP(offset, t)
  }

  /** `VMUArg::Heap`. */
  function HeapAt(reg: URegister, offset: Int32, t: ItemPart): ULocation {
    LocHeap(reg, offset, t)
  }

  /** `VMUArg::HP`. */
  function HP(offset: Int32, t: ItemPart): ULocation {
    HeapAt(Hp, offset, t)
  }

  /** The factories build locations whose accessors return what they were given: `SP` and `FP` locations
      point with `sp` and `fp` into the stack, `Heap` ones with their register into the heap, and `HP` is
      `Heap` with `hp`. */
  lemma LocationFactories(reg: URegister, offset: Int32, t: ItemPart)
    ensures SP(offset, t).Ptr() == Sp && SP(offset, t).offset == offset && SP(offset, t).ty == t
    ensures SP(offset, t).Memory() == Stack
    ensures FP(offset, t).Ptr() == Fp && FP(offset, t).offset == offset && FP(offset, t).ty == t
    ensures FP(offset, t).Memory() == Stack
    ensures HeapAt(reg, offset, t).Ptr() == reg && HeapAt(reg, offset, t).offset == offset
    ensures HeapAt(reg, offset, t).ty == t && HeapAt(reg, offset, t).Memory() == Heap
    ensures HP(offset, t) == HeapAt(Hp, offset, t) && HP(offset, t).Ptr() == Hp
  {
  }

  // ---------------------------------------------------------------------------------------------
  // Instructions

  /** One U-instruction; each records the `cp` of the B-instruction it was lowered from (the `vm` handle
      every instruction also holds is not modelled). */
  datatype UInstruction =
    | UGet(cp: Word, dst: URegister, loc: ULocation)
    | USet(cp: Word, loc: ULocation, src: UOperand)
    | UMove(cp: Word, dst: URegister, src: UOperand)
    | UUnary(cp: Word, unaryOp: UnaryOp, dst: URegister, src: UOperand)
    | UOper(cp: Word, binaryOp: BinaryOp, dst: URegister, lhs: UOperand, rhs: UOperand)
    | ULabel(cp: Word)
    | UGuard(cp: Word)
    | UMemCheck(cp: Word, loc: ULocation)
    | UTagCheck(cp: Word, arg: UArgument, tagA: Tag, tagB: Tag)
    | UApply(cp: Word)
    | UReturn(cp: Word)
    | UHalt(cp: Word)
    | UGoto(cp: Word, destination: Word)
    | UBranch(cp: Word, cond: URegister, destination: Word)
  {
    /** The register the instruction writes, if any. */
    function Writes(): Option<URegister> {
      if UGet? || UMove? || UUnary? || UOper? then Some(dst) else None
    }
  }

  /** Whether a tag check lets a tag value through: it must be one of its two tags. */
  predicate Admits(tagA: Tag, tagB: Tag, v: int) {
    v == TagCode(tagA) || v == TagCode(tagB)
  }

  /** The one-tag `UTagCheck` constructor: both tags are the given one. */
  function UTagCheckOne(cp: Word, a: UArgument, tag: Tag): (u: UInstruction)
    ensures u.UTagCheck? && u.cp == cp && u.arg == a
    ensures forall v :: Admits(u.tagA, u.tagB, v) <==> v == TagCode(tag)
  {
    UTagCheck(cp, a, tag, tag)
  }

  // ---------------------------------------------------------------------------------------------
  // Guarded accesses

  /** The access at index `i`, if there is one, comes right after a `UMemCheck` of its location, with a
      tag check of that location's tag half in between for a checked read. */
  predicate AccessGuarded(code: seq<UInstruction>, i: int)
    requires 0 <= i < |code|
  {
    match code[i]
    case UGet(_, _, loc) =>
      (i >= 1 && code[i - 1] == UMemCheck(code[i].cp, loc)) ||
      (i >= 2 && code[i - 1].UTagCheck? && code[i - 1].arg == ArgLocation(loc.WithType(TagPart)) &&
       code[i - 2] == UMemCheck(code[i].cp, loc))
    case USet(_, loc, _) => i >= 1 && code[i - 1] == UMemCheck(code[i].cp, loc)
    case _ => true
  }

  /** Every memory access of the code is guarded. */
  predicate Guarded(code: seq<UInstruction>) {
    forall i | 0 <= i < |code| :: AccessGuarded(code, i)
  }

  /** Guarded code joined to guarded code stays guarded: an access in the second part finds its checks
      in that part, since its first instruction cannot be an access. */
  lemma GuardedJoin(a: seq<UInstruction>, b: seq<UInstruction>)
    requires Guarded(a) && Guarded(b)
    ensures Guarded(a + b)
  {
    var c := a + b;
    forall i | 0 <= i < |c| ensures AccessGuarded(c, i) {
      if i < |a| {
        assert c[i] == a[i];
        assert AccessGuarded(a, i);
        if i >= 1 { assert c[i - 1] == a[i - 1]; }
        if i >= 2 { assert c[i - 2] == a[i - 2]; }
      } else {
        var j := i - |a|;
        assert c[i] == b[j];
        assert AccessGuarded(b, j);
        if j >= 1 { assert c[i - 1] == b[j - 1]; }
        if j >= 2 { assert c[i - 2] == b[j - 2]; }
      }
    }
  }

  /** Every instruction of `code` was built for `cp`. */
  predicate AllAt(code: seq<UInstruction>, cp: Word) {
    forall i | 0 <= i < |code| :: code[i].cp == cp
  }

  // ---------------------------------------------------------------------------------------------
  // Composite builders (`u_multi_instruction`)

  /** `UGetAndCheck` without a tag: check the location, then read it into `reg`. */
  function GetAndCheck(cp: Word, reg: URegister, loc: ULocation): (r: seq<UInstruction>)
    ensures |r| == 2 && Guarded(r) && AllAt(r, cp)
  {
    [UMemCheck(cp, loc), UGet(cp, reg, loc)]
  }

  /** `UGetAndCheck` with a tag: check the location, check that the tag half of its item is `tag`, then
      read it into `reg`. */
  function GetAndCheckTagged(cp: Word, reg: URegister, loc: ULocation, tag: Tag): (r: seq<UInstruction>)
    ensures |r| == 3 && Guarded(r) && AllAt(r, cp)
  {
    var r := [UMemCheck(cp, loc), UTagCheckOne(cp, ArgLocation(loc.WithType(TagPart)), tag), UGet(cp, reg, loc)];
    assert AccessGuarded(r, 2);
    r
  }

  /** `USetAndCheck`: check the location, then write `src` to it. */
  function SetAndCheck(cp: Word, loc: ULocation, src: UOperand): (r: seq<UInstruction>)
    ensures |r| == 2 && Guarded(r) && AllAt(r, cp)
  {
    [UMemCheck(cp, loc), USet(cp, loc, src)]
  }

  /** `UMoveAndCheck`: a checked read of `from` into `reg`, then a checked write of `reg` to `to`. */
  function MoveAndCheck(cp: Word, reg: URegister, from: ULocation, to: ULocation): (r: seq<UInstruction>)
    ensures |r| == 4 && Guarded(r) && AllAt(r, cp)
    ensures r == GetAndCheck(cp, reg, from) + SetAndCheck(cp, to, Reg(reg))
  {
    GuardedJoin(GetAndCheck(cp, reg, from), SetAndCheck(cp, to, Reg(reg)));
    GetAndCheck(cp, reg, from) + SetAndCheck(cp, to, Reg(reg))
  }

  /** `UMakeHeapPointer`: a checked write of `heapTag` to the tag half of `loc`'s item and of `hp` to its
      value half. */
  function MakeHeapPointer(cp: Word, loc: ULocation, heapTag: Tag): (r: seq<UInstruction>)
    ensures |r| == 4 && Guarded(r) && AllAt(r, cp)
  {
    GuardedJoin(SetAndCheck(cp, loc.WithType(TagPart), Imm(ImmTag(heapTag))), SetAndCheck(cp, loc.WithType(ValPart), Reg(Hp)));
    SetAndCheck(cp, loc.WithType(TagPart), Imm(ImmTag(heapTag))) + SetAndCheck(cp, loc.WithType(ValPart), Reg(Hp))
  }

  // ---------------------------------------------------------------------------------------------
  // `UCodeBuilder`: the code of one B-instruction as the sequence of what was added to the builder

  /** The code the builder holds once `pieces` were added, in order: their concatenation. */
  function Flatten(pieces: seq<seq<UInstruction>>): seq<UInstruction>
    decreases |pieces|
  {
    if |pieces| == 0 then [] else Flatten(pieces[..|pieces| - 1]) + pieces[|pieces| - 1]
  }

  /** Adding two runs of pieces one after the other builds the two codes one after the other. */
  lemma {:induction false} FlattenJoin(a: seq<seq<UInstruction>>, b: seq<seq<UInstruction>>)
    ensures Flatten(a + b) == Flatten(a) + Flatten(b)
    decreases |b|
  {
    if |b| == 0 {
      assert a + b == a;
    } else {
      assert (a + b)[..|a + b| - 1] == a + b[..|b| - 1];
      FlattenJoin(a, b[..|b| - 1]);
    }
  }

  /** Pieces that are each guarded and built for `cp` make guarded code built for `cp`. */
  lemma {:induction false} FlattenGuarded(pieces: seq<seq<UInstruction>>, cp: Word)
    requires forall k | 0 <= k < |pieces| :: Guarded(pieces[k]) && AllAt(pieces[k], cp)
    ensures Guarded(Flatten(pieces)) && AllAt(Flatten(pieces), cp)
    decreases |pieces|
  {
    if |pieces| > 0 {
      var init := pieces[..|pieces| - 1];
      var last := pieces[|pieces| - 1];
      assert forall k | 0 <= k < |init| :: init[k] == pieces[k];
      FlattenGuarded(init, cp);
      assert Guarded(last) && AllAt(last, cp);
      GuardedJoin(Flatten(init), last);
      var c := Flatten(init) + last;
      forall i | 0 <= i < |c| ensures c[i].cp == cp {
        if i < |Flatten(init)| { assert c[i] == Flatten(init)[i]; } else { assert c[i] == last[i - |Flatten(init)|]; }
      }
    }
  }

  /** The code of a first piece comes first. */
  lemma {:induction false} FlattenFirst(pieces: seq<seq<UInstruction>>)
    requires |pieces| > 0 && |pieces[0]| > 0
    ensures |Flatten(pieces)| > 0 && Flatten(pieces)[0] == pieces[0][0]
    decreases |pieces|
  {
    if |pieces| > 1 {
      var init := pieces[..|pieces| - 1];
      assert init[0] == pieces[0];
      FlattenFirst(init);
    }
  }

  /** The code of a last piece comes last. */
  lemma LastOfFlatten(pieces: seq<seq<UInstruction>>)
    requires |pieces| > 0
    ensures Flatten(pieces) == Flatten(pieces[..|pieces| - 1]) + pieces[|pieces| - 1]
  {
  }

  // ---------------------------------------------------------------------------------------------
  // What code does to registers and memory

  /** A register, or a location in memory. */
  datatype Target = Register(reg: URegister) | Place(loc: ULocation)

  /** Whether `u` writes `t`: a register it assigns, or a location it stores to. */
  predicate Touches(u: UInstruction, t: Target) {
    match t
    case Register(r) => u.Writes() == Some(r)
    case Place(l) => u.USet? && u.loc == l
  }

  /** What an instruction does to `reg`: `Some(k)` when it adds `k` to `reg` itself (an `Add`, or a
      `Sub` of `-k`, of an `int` immediate), `None` for any other write. */
  function Shift(reg: URegister, u: UInstruction): Option<int> {
    if u.UOper? && u.dst == reg && u.lhs == Reg(reg) && u.rhs.Imm? && u.rhs.imm.ImmInt? then
      if u.binaryOp == Add then Some(u.rhs.imm.number)
      else if u.binaryOp == Sub then Some(-(u.rhs.imm.number as int))
      else None
    else None
  }
}
