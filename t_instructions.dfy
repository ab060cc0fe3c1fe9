/** T-code: each U-instruction with its arguments replaced by T-arguments, which the optimizations
    read and rewrite. A T-instruction keeps the U-instruction it was made from and whether it was made
    while lowering a whole function. */
module TInstructions {
  import opened Wrappers
  import opened Words
  import opened TaggedMemory
  import opened BCode
  import opened UCode
  import opened Exceptions
  import opened Interpreter
  import opened TArguments
  import opened TSideEffects

  /** The subclasses of `TInstruction` and their argument fields. */
  datatype TKind =
    | TMove(a: TArgument, b: TArgument, ptr: Option<TArgument>)
    | TUnary(a: TArgument, b: TArgument)
    | TOper(a: TArgument, b: TArgument, c: TArgument)
    | TLabel
    | TGuard
    | TMemCheck(a: TArgument, checkPtr: TArgument)
    | TTagCheck(a: TArgument, tagA: Tag, tagB: Tag)
    | TApply(argTag: TArgument, argVal: TArgument, cloTag: TArgument, cloVal: TArgument,
             fpTag: TArgument, fpVal: TArgument, cpTag: TArgument, cpVal: TArgument,
             r0: TArgument, r1: TArgument, r2: TArgument)
    | TReturn(aTag: TArgument, aVal: TArgument)
    | THalt
    | TGoto(destination: Word)
    | TBranch(a: TArgument, destination: Word)

  /** `TInstruction`: the U-instruction (`uInstruction`), `isFunction_` and the subclass's fields. */
  datatype TInstruction = TInstruction(u: UInstruction, isFunction: bool, kind: TKind)

  predicate IsOperand(x: TArgument) {
    x.UArgument().ArgOperand?
  }

  predicate IsRegisterVar(x: TArgument) {
    x.TVar? && x.v.place.Register?
  }

  predicate IsLocationVar(x: TArgument) {
    x.TVar? && x.v.place.Place?
  }

  /** The instructions whose members are defined in C++: a written argument is a variable (the casts
      of `TInstructionWrite::getEffects` find it), a move is not from a location to a location (its
      `getUInstruction` would return `nullptr`), and a unary or binary operation writes a register from
      operands and keeps the U-instruction whose operation it reads. */
  predicate WellFormed(t: TInstruction) {
    match t.kind
    case TMove(a, b, _) => a.TVar? && (a.v.place.Place? ==> IsOperand(b))
    case TUnary(a, b) => t.u.UUnary? && IsRegisterVar(a) && IsOperand(b)
    case TOper(a, b, c) => t.u.UOper? && IsRegisterVar(a) && IsOperand(b) && IsOperand(c)
    case _ => true
  }

  /** `ptr` is the variable of the register a location argument points with. */
  predicate PointerOf(ptr: Option<TArgument>, x: TArgument) {
    IsLocationVar(x) ==> ptr.Some? && ptr.value.UArgument() == ArgOperand(Reg(x.v.place.loc.Ptr()))
  }

  /** What lowering a U-instruction guarantees beyond `WellFormed`: every pointer argument is the
      variable of its location's register, and an instruction whose `getUInstruction` is the inherited
      one keeps a U-instruction of its own kind whose operands are its arguments. */
  predicate Consistent(t: TInstruction) {
    match t.kind
    case TMove(a, b, ptr) => PointerOf(ptr, a) && PointerOf(ptr, b)
    case TUnary(_, _) => true
    case TOper(_, _, _) => true
    case TLabel => t.u.ULabel?
    case TGuard => t.u.UGuard?
    case TMemCheck(a, p) => t.u.UMemCheck? && a.UArgument() == ArgLocation(t.u.loc) &&
                            p.UArgument() == ArgOperand(Reg(t.u.loc.Ptr()))
    case TTagCheck(_, _, _) => true
    case TApply(_, _, _, _, _, _, _, _, _, _, _) => t.u.UApply?
    case TReturn(_, _) => t.u.UReturn?
    case THalt => t.u.UHalt?
    case TGoto(d) => t.u == UGoto(t.u.cp, d)
    case TBranch(a, d) => t.u.UBranch? && t.u.destination == d && a.UArgument() == ArgOperand(Reg(t.u.cond))
  }

  // ---------------------------------------------------------------------------------------------
  // Arguments read and written

  /** `getReadArgs`. */
  function ReadArgs(t: TInstruction): seq<TArgument> {
    match t.kind
    case TMove(_, b, ptr) => if ptr.Some? then [b, ptr.value] else [b]
    case TUnary(_, b) => [b]
    case TOper(_, b, c) => [b, c]
    case TMemCheck(_, p) => [p]
    case TTagCheck(a, _, _) => [a]
    case TApply(aT, aV, cT, cV, fT, fV, pT, pV, x0, x1, x2) =>
      if t.isFunction then [aT, aV, cT, cV, fT, fV, pT, pV, x0, x1, x2] else []
    case TReturn(aT, aV) => if t.isFunction then [aT, aV] else []
    case TBranch(a, _) => [a]
    case _ => []
  }

  /** `getWriteArgs`. */
  function WriteArgs(t: TInstruction): seq<TArgument> {
    match t.kind
    case TMove(a, _, _) => [a]
    case TUnary(a, _) => [a]
    case TOper(a, _, _) => [a]
    case TApply(aT, aV, _, _, _, _, _, _, x0, x1, x2) => if t.isFunction then [aT, aV, x0, x1, x2] else []
    case _ => []
  }

  function UArguments(xs: seq<TArgument>): (us: seq<UArgument>)
    ensures |us| == |xs| && forall i | 0 <= i < |xs| :: us[i] == xs[i].UArgument()
  {
    seq(|xs|, i requires 0 <= i < |xs| => xs[i].UArgument())
  }

  /** What a U-instruction other than `UApply` and `UReturn` reads before it acts: the operands, the
      location of a load, and the register every memory access goes through. */
  function UReads(u: UInstruction): seq<UArgument> {
    match u
    case UGet(_, _, loc) => [ArgLocation(loc), ArgOperand(Reg(loc.Ptr()))]
    case USet(_, loc, src) => [ArgOperand(src), ArgOperand(Reg(loc.Ptr()))]
    case UMove(_, _, src) => [ArgOperand(src)]
    case UUnary(_, _, _, src) => [ArgOperand(src)]
    case UOper(_, _, _, lhs, rhs) => [ArgOperand(lhs), ArgOperand(rhs)]
    case UMemCheck(_, loc) => [ArgOperand(Reg(loc.Ptr()))]
    case UTagCheck(_, arg, _, _) => [arg]
    case UBranch(_, cond, _) => [ArgOperand(Reg(cond))]
    case _ => []
  }

  /** What a U-instruction writes: its destination register, or the location of a store. */
  function UWrites(u: UInstruction): seq<UArgument> {
    match u
    case USet(_, loc, _) => [ArgLocation(loc)]
    case _ => if u.Writes().Some? then [ArgOperand(Reg(u.Writes().value))] else []
  }

  // ---------------------------------------------------------------------------------------------
  // Back to U-code

  /** `getUInstruction`: a move, a unary or binary operation and a tag check rebuild their
      U-instruction from their current arguments; every other instruction returns the one it keeps. */
  function GetUInstruction(t: TInstruction): (u: UInstruction)
    requires WellFormed(t)
    ensures u.cp == t.u.cp
  {
    match t.kind
    case TMove(a, b, _) =>
      if a.v.place.Place? then USet(t.u.cp, a.v.place.loc, b.UArgument().operand)
      else if b.UArgument().ArgLocation? then UGet(t.u.cp, a.v.place.reg, b.UArgument().location)
      else UMove(t.u.cp, a.v.place.reg, b.UArgument().operand)
    case TUnary(a, b) => UUnary(t.u.cp, t.u.unaryOp, a.v.place.reg, b.UArgument().operand)
    case TOper(a, b, c) => UOper(t.u.cp, t.u.binaryOp, a.v.place.reg, b.UArgument().operand, c.UArgument().operand)
    case TTagCheck(a, tagA, tagB) => UTagCheck(t.u.cp, a.UArgument(), tagA, tagB)
    case _ => t.u
  }

  /** The arguments of a T-instruction are the U-instruction's own: its written arguments stand for
      exactly what the rebuilt U-instruction writes, and what that U-instruction reads comes first among
      the read arguments (a move whose location was replaced by a copy keeps its now unused pointer). */
  lemma ArgumentsAgreeWithUCode(t: TInstruction)
    requires WellFormed(t) && Consistent(t) && !t.kind.TApply? && !t.kind.TReturn?
    ensures UArguments(WriteArgs(t)) == UWrites(GetUInstruction(t))
    ensures UReads(GetUInstruction(t)) <= UArguments(ReadArgs(t))
  {
  }

  // ---------------------------------------------------------------------------------------------
  // Effects

  /** `TInstructionWrite::getEffects` of the written variable `x`: a write to a scratch register, or to a
      stack or frame slot within a function, is a write the optimizations may remove; a heap store, a
      write to `sp`, `fp`, `cp` or `hp`, and a stack write outside a function are not. */
  function WriteEffects(isFunction: bool, x: TArgument): TEffects
    requires x.TVar?
  {
    match x.v.place
    case Place(loc) => if loc.LocHeap? then MakeOther() else if isFunction then MakeWrite(x.v) else MakeOther()
    case Register(reg) => if reg.IsSpClass() then MakeOther() else MakeWrite(x.v)
  }

  /** `getEffects`: moves and the operations write (a `Read` and a `Div` are kept whatever happens to
      their result, since they do I/O or may fail); tag and memory checks are checks. */
  function Effects(t: TInstruction): TEffects
    requires WellFormed(t)
  {
    match t.kind
    case TMove(a, _, _) => WriteEffects(t.isFunction, a)
    case TUnary(a, _) => if t.u.unaryOp == Read then MakeOther() else WriteEffects(t.isFunction, a)
    case TOper(a, _, _) => if t.u.binaryOp == Div then MakeOther() else WriteEffects(t.isFunction, a)
    case TTagCheck(a, tagA, tagB) => MakeTagCheck(a, tagA, tagB)
    case TMemCheck(a, _) => MakeBoundsCheck(a)
    case _ => MakeOther()
  }

  /** A variable whose write is unobservable once nothing reads it: a scratch register, or a stack or
      frame slot of a function (the caller cannot see below the frame). */
  predicate Discardable(isFunction: bool, x: TArgument) {
    x.TVar? &&
    match x.v.place
    case Place(loc) => !loc.LocHeap? && isFunction
    case Register(reg) => !reg.IsSpClass()
  }

  /** A write effect names the instruction's one written variable, and it is reported exactly for a
      move, a unary operation other than `Read` and a binary one other than `Div` whose target is
      discardable. Only a tag check has a tag check effect and only a memory check a bounds check. */
  lemma EffectsMeaning(t: TInstruction)
    requires WellFormed(t)
    ensures var e := Effects(t);
            && (e.write.Some? ==> WriteArgs(t) == [TVar(e.write.value)])
            && (e.write.Some? <==>
                  (|| t.kind.TMove?
                   || (t.kind.TUnary? && t.u.unaryOp != Read)
                   || (t.kind.TOper? && t.u.binaryOp != Div))
                  && Discardable(t.isFunction, t.kind.a))
            && (e.tagCheck.Some? <==> t.kind.TTagCheck?)
            && (e.boundsCheck.Some? <==> t.kind.TMemCheck?)
  {
  }

  // ---------------------------------------------------------------------------------------------
  // Copy propagation

  /** `propagate(argOld, var, argNew)`: an argument that is `var` (by uid) becomes `argNew`, unless `var`
      is one of the VM-state registers. */
  function Propagate(argOld: TArgument, v: TVariable, argNew: TArgument): TArgument {
    if !(v.place.Register? && v.place.reg.IsSpClass()) && argOld.TVar? && SameVariable(v, argOld.v) then argNew
    else argOld
  }

  /** The arguments `propagateCopy` rewrites: the source of a move and of a unary operation, both
      operands of a binary one and the argument of a tag check. */
  function Substitutable(t: TInstruction): seq<TArgument> {
    match t.kind
    case TMove(_, b, _) => [b]
    case TUnary(_, b) => [b]
    case TOper(_, b, c) => [b, c]
    case TTagCheck(a, _, _) => [a]
    case _ => []
  }

  /** `propagateCopy(var, arg)`. */
  function PropagateCopy(t: TInstruction, v: TVariable, arg: TArgument): TInstruction {
    match t.kind
    case TMove(a, b, ptr) => t.(kind := TMove(a, Propagate(b, v, arg), ptr))
    case TUnary(a, b) => t.(kind := TUnary(a, Propagate(b, v, arg)))
    case TOper(a, b, c) => t.(kind := TOper(a, Propagate(b, v, arg), Propagate(c, v, arg)))
    case TTagCheck(a, tagA, tagB) => t.(kind := TTagCheck(Propagate(a, v, arg), tagA, tagB))
    case _ => t
  }

  /** Uses `x` of the variable `v`. */
  predicate Uses(x: TArgument, v: TVariable) {
    x.TVar? && SameVariable(x.v, v)
  }

  /** Propagating a copy of `v` rewrites exactly the uses of `v` among the substitutable arguments into
      `arg`, unless `v` is a VM-state register, and changes nothing else: not the written arguments, the
      pointers, the U-instruction or the kind of instruction. A branch is never rewritten. */
  lemma PropagateCopyMeaning(t: TInstruction, v: TVariable, arg: TArgument)
    ensures var t' := PropagateCopy(t, v, arg);
            && t'.u == t.u && t'.isFunction == t.isFunction
            && WriteArgs(t') == WriteArgs(t)
            && |Substitutable(t')| == |Substitutable(t)|
            && (forall i | 0 <= i < |Substitutable(t)| ::
                  Substitutable(t')[i] ==
                  (if Uses(Substitutable(t)[i], v) && !(v.place.Register? && v.place.reg.IsSpClass())
                   then arg else Substitutable(t)[i]))
            && (t.kind.TMove? ==> t'.kind.TMove? && t'.kind.a == t.kind.a && t'.kind.ptr == t.kind.ptr)
            && (!t.kind.TMove? && !t.kind.TUnary? && !t.kind.TOper? && !t.kind.TTagCheck? ==> t' == t)
  {
  }

  /** Propagating an operand keeps an instruction well formed and consistent. */
  lemma PropagateCopyKeepsShape(t: TInstruction, v: TVariable, arg: TArgument)
    requires WellFormed(t) && Consistent(t) && IsOperand(arg)
    ensures WellFormed(PropagateCopy(t, v, arg)) && Consistent(PropagateCopy(t, v, arg))
    ensures Effects(PropagateCopy(t, v, arg)).write == Effects(t).write
  {
  }

  // ---------------------------------------------------------------------------------------------
  // Constant folding

  /** Bitwise `&` of two non-negative integers. */
  function BitAnd(x: nat, y: nat): nat
    decreases x
  {
    if x == 0 || y == 0 then 0
    else 2 * BitAnd(x / 2, y / 2) + (if x % 2 == 1 && y % 2 == 1 then 1 else 0)
  }

  /** Bitwise `|` of two non-negative integers. */
  function BitOr(x: nat, y: nat): nat
    decreases x
  {
    if x == 0 then y
    else if y == 0 then x
    else 2 * BitOr(x / 2, y / 2) + (if x % 2 == 1 || y % 2 == 1 then 1 else 0)
  }

  /** The 32 bits of an `int` as an unsigned number. */
  function Bits32(i: Int32): nat {
    i % INT_MODULUS
  }

  /** `&` and `|` of two `int`s: on their bit patterns. */
  function IntAnd(x: Int32, y: Int32): Int32 {
    ToInt(BitAnd(Bits32(x), Bits32(y)))
  }

  function IntOr(x: Int32, y: Int32): Int32 {
    ToInt(BitOr(Bits32(x), Bits32(y)))
  }

  /** The `int` a `bool` converts to. */
  function BoolInt(b: bool): Int32 {
    if b then 1 else 0
  }

  /** On the booleans 0 and 1, `&` and `|` are conjunction and disjunction, and 0 is neutral for `|`. */
  lemma BitwiseOnBooleans(p: bool, q: bool, x: Int32)
    ensures IntAnd(BoolInt(p), BoolInt(q)) == BoolInt(p && q)
    ensures IntOr(BoolInt(p), BoolInt(q)) == BoolInt(p || q)
    ensures IntAnd(x, 0) == 0 && IntOr(x, 0) == x
  {
    ToIntOfInt32(x);
    assert Bits32(0) == 0;
    if x < 0 {
      assert ToInt(x + INT_MODULUS) == x by { ToIntUnique(x + INT_MODULUS, x); }
    }
  }

  /** The value `TOper::fold` computes for two immediates, or `OptimizationError` for a division by
      zero. Signed overflow (also of `INT_MIN / -1`) is taken to wrap around. */
  function FoldedOper(op: BinaryOp, x: Int32, y: Int32): Result<Int32, Exception> {
    match op
    case And => Success(IntAnd(x, y))
    case Or => Success(IntOr(x, y))
    case Eq => Success(BoolInt(x == y))
    case Lt => Success(BoolInt(x < y))
    case Add => Success(ToInt(x + y))
    case Sub => Success(ToInt(x - y))
    case Mul => Success(ToInt(x * y))
    case Div => if y == 0 then Failure(OptimizationError) else Success(ToInt(TruncDiv(x, y)))
  }

  /** The value `TUnary::fold` computes for an immediate, when it folds the operation at all; `Read`
      is not folded. */
  function FoldedUnary(op: UnaryOp, x: Int32): Option<Int32> {
    match op
    case Not => Some(ToInt(1 - x))
    case Neg => Some(ToInt(0 - x as int))
    case Read => None
  }

  /** Folding an `int` comparison or arithmetic operation computes what `BOper` computes on the
      words the interpreter would hold. */
  lemma FoldedArithmeticAgrees(op: BinaryOp, a: Word, b: Word)
    requires op in {Eq, Lt, Add, Sub, Mul}
    ensures FoldedOper(op, ToInt(a), ToInt(b)) == Success(ToInt(OperValue(op, Item(Int, a), Item(Int, b)).value.value))
  {
    var x: int, y: int := ToInt(a), ToInt(b);
    match op
    case Eq => assert ToInt(BoolWord(x == y)) == BoolInt(x == y);
    case Lt => assert ToInt(BoolWord(x < y)) == BoolInt(x < y);
    case Add => ToIntOfWrap(ToInt(x + y));
    case Sub => ToIntOfWrap(ToInt(x - y));
    case Mul => ToIntOfWrap(ToInt(x * y));
  }

  /** Folding a division computes `BOper`'s quotient wherever the interpreter's division is defined. */
  lemma FoldedDivisionAgrees(a: Word, b: Word)
    requires b != 0 && DivDefined(Item(Int, a), Item(Int, b))
    ensures FoldedOper(Div, ToInt(a), ToInt(b)) == Success(ToInt(OperValue(Div, Item(Int, a), Item(Int, b)).value.value))
  {
    var x: int, y: int := ToInt(a), ToInt(b);
    ToIntOfWrap(ToInt(TruncDiv(x, y)));
  }

  /** Folding `And` and `Or` of two booleans computes `BOper`'s conjunction and disjunction. */
  lemma FoldedLogicAgrees(op: BinaryOp, p: bool, q: bool)
    requires op in {And, Or}
    ensures FoldedOper(op, ToInt(BoolWord(p)), ToInt(BoolWord(q))) ==
            Success(ToInt(OperValue(op, Item(Bool, BoolWord(p)), Item(Bool, BoolWord(q))).value.value))
  {
    assert ToInt(BoolWord(p)) == BoolInt(p) && ToInt(BoolWord(q)) == BoolInt(q);
    assert ToInt(BoolWord(p && q)) == BoolInt(p && q) && ToInt(BoolWord(p || q)) == BoolInt(p || q);
    BitwiseOnBooleans(p, q, 0);
  }

  /** Folding `Neg` of an `int` and `Not` of a boolean computes what `BUnary` computes. */
  lemma FoldedUnaryAgrees(a: Word, p: bool, input: Int32)
    ensures FoldedUnary(Neg, ToInt(a)) == Some(ToInt(UnaryValue(Neg, Item(Int, a), input).value.value))
    ensures FoldedUnary(Not, ToInt(BoolWord(p))) == Some(ToInt(UnaryValue(Not, Item(Bool, BoolWord(p)), input).value.value))
  {
    var x: int := ToInt(a);
    ToIntOfWrap(ToInt(0 - x));
    assert ToInt(BoolWord(p)) == BoolInt(p);
  }

  /** The move of the constant `value` into the target of the folded instruction `t`. */
  function ConstantMove(t: TInstruction, value: Int32): TInstruction
    requires WellFormed(t) && (t.kind.TUnary? || t.kind.TOper?)
  {
    TInstruction(GetUInstruction(t), t.isFunction, TMove(t.kind.a, TImm(ImmInt(value)), None))
  }

  /** `fold`: `Success(None)` removes the instruction, `Success(Some(t'))` replaces it with `t'`.
      A move of a variable to itself is removed and any other move is kept (see `MoveFoldAsWritten`);
      a unary or binary operation on immediates becomes the move of its value; a tag check of an
      immediate with one of its tags is removed; a branch on an immediate becomes a goto when it is
      not zero and is removed when it is. */
  function Fold(t: TInstruction): Result<Option<TInstruction>, Exception>
    requires WellFormed(t)
  {
    match t.kind
    case TMove(a, b, _) =>
      if MoveFoldAsWritten(a, b) == Removed then Success(None) else Success(Some(t))
    case TUnary(_, b) =>
      if b.TImm? && FoldedUnary(t.u.unaryOp, Value(b.imm)).Some? then
        Success(Some(ConstantMove(t, FoldedUnary(t.u.unaryOp, Value(b.imm)).value)))
      else Success(Some(t))
    case TOper(_, b, c) =>
      if b.TImm? && c.TImm? then
        match FoldedOper(t.u.binaryOp, Value(b.imm), Value(c.imm))
        case Success(value) => Success(Some(ConstantMove(t, value)))
        case Failure(e) => Failure(e)
      else Success(Some(t))
    case TTagCheck(a, tagA, tagB) =>
      if a.TImm? && Admits(tagA, tagB, Value(a.imm)) then Success(None) else Success(Some(t))
    case TBranch(a, d) =>
      if a.TImm? then
        if Value(a.imm) != 0 then Success(Some(TInstruction(t.u, t.isFunction, TGoto(d)))) else Success(None)
      else Success(Some(t))
    case _ => Success(Some(t))
  }

  /** How `TMove::fold` as written ends: a move of a variable to itself returns the empty pointer,
      and every other move reaches the end of the function without a `return`, which is undefined
      behaviour. */
  datatype MoveFolding = Removed | FallsOffEnd

  function MoveFoldAsWritten(a: TArgument, b: TArgument): (r: MoveFolding)
    ensures r == Removed <==> a.TVar? && Uses(b, a.v)
  {
    if a.TVar? && b.TVar? && SameVariable(a.v, b.v) then Removed else FallsOffEnd
  }

  /** Any move that is not a self-move, such as the move of an immediate into a register, falls off
      the end of `TMove::fold`, and constant folding calls `fold` on every move. */
  lemma MoveOfImmediateFallsOffEnd(a: TArgument, imm: UImmediate)
    ensures MoveFoldAsWritten(a, TImm(imm)) == FallsOffEnd
  {
  }

  /** With the intended `return shared_from_this()` at the end, folding keeps every move but a
      self-move. */
  lemma MoveFoldKeepsMoves(t: TInstruction)
    requires WellFormed(t) && t.kind.TMove?
    ensures Fold(t) == Success(None) <==> Uses(t.kind.b, t.kind.a.v)
    ensures Fold(t) != Success(None) ==> Fold(t) == Success(Some(t))
  {
  }

  /** Folding fails exactly for a division of immediates by zero, and removes an instruction exactly
      when it is a self-move, a tag check of an immediate that passes it, or a branch on a zero
      immediate. */
  lemma FoldOutcomes(t: TInstruction)
    requires WellFormed(t)
    ensures Fold(t).Failure? <==>
              t.kind.TOper? && t.u.binaryOp == Div && t.kind.b.TImm? && t.kind.c.TImm? && Value(t.kind.c.imm) == 0
    ensures Fold(t) == Success(None) <==>
              || (t.kind.TMove? && Uses(t.kind.b, t.kind.a.v))
              || (t.kind.TTagCheck? && t.kind.a.TImm? && Admits(t.kind.tagA, t.kind.tagB, Value(t.kind.a.imm)))
              || (t.kind.TBranch? && t.kind.a.TImm? && Value(t.kind.a.imm) == 0)
  {
  }

  /** What folding leaves is well formed, made from the same U-instruction's `cp` in the same mode, and
      writes what the instruction wrote; a folded operation re-lowers to the move of its value. */
  lemma FoldResult(t: TInstruction)
    requires WellFormed(t)
    ensures Fold(t).Success? && Fold(t).value.Some? ==>
              var t' := Fold(t).value.value;
              && WellFormed(t') && t'.u.cp == t.u.cp && t'.isFunction == t.isFunction
              && WriteArgs(t') == WriteArgs(t)
    ensures t.kind.TOper? && t.kind.b.TImm? && t.kind.c.TImm? && Fold(t).Success? ==>
              FoldedOper(t.u.binaryOp, Value(t.kind.b.imm), Value(t.kind.c.imm)).Success? &&
              GetUInstruction(Fold(t).value.value) ==
              UMove(t.u.cp, t.kind.a.v.place.reg,
                    Imm(ImmInt(FoldedOper(t.u.binaryOp, Value(t.kind.b.imm), Value(t.kind.c.imm)).value)))
    ensures t.kind.TUnary? && t.kind.b.TImm? && t.u.unaryOp != Read ==>
              GetUInstruction(Fold(t).value.value) ==
              UMove(t.u.cp, t.kind.a.v.place.reg, Imm(ImmInt(FoldedUnary(t.u.unaryOp, Value(t.kind.b.imm)).value)))
  {
  }

  /** A consistent branch tests a register, so it is never folded: the immediate case of `TBranch::fold`
      cannot be reached from lowered code, which copy propagation does not rewrite for branches. */
  lemma BranchesNeverFold(t: TInstruction, v: TVariable, arg: TArgument)
    requires WellFormed(t) && Consistent(t) && t.kind.TBranch?
    ensures Fold(t) == Success(Some(t))
    ensures PropagateCopy(t, v, arg) == t
  {
  }

  /** Folding a consistent instruction leaves a consistent one. */
  lemma FoldKeepsConsistent(t: TInstruction)
    requires WellFormed(t) && Consistent(t) && Fold(t).Success? && Fold(t).value.Some?
    ensures Consistent(Fold(t).value.value)
  {
  }
}
