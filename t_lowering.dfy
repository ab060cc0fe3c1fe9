/** `UInstruction::getTInstruction`: lowering U-code to T-code. Each U-instruction becomes the
    T-instruction of its kind over the T-arguments `TState` gives its arguments, after the state has
    followed what the instruction does to `sp`, `fp` and the control flow. */
module TLowering {
  import opened Wrappers
  import opened Words
  import opened TaggedMemory
  import opened Machine
  import opened BCode
  import opened UCode
  import opened Exceptions
  import opened TArguments
  import opened TStates
  import opened TInstructions

  /** `UOper::getTInstruction` reads the immediate of `sp := sp op c` through a cast that is `nullptr`
      for any other operand; every other U-instruction can be lowered. */
  predicate Lowerable(u: UInstruction) {
    u.UOper? && u.dst == Sp && u.lhs == Reg(Sp) ==> u.rhs.Imm?
  }

  /** What lowering `u` does to `sp`, the frame and stack slots it forgets, and the recorded label
      offsets, before it makes any argument: `sp := sp + c` and `sp := sp - c` move the symbolic `sp`,
      any other write to `sp` or `fp` resets it, a label and a jump consult and record the offsets, and
      `UApply` in a function pops its three items. A branch records its destination and its
      fall-through `cp + 1`. */
  function ControlStep(f: TStateFields, u: UInstruction): Result<TStateFields, Exception>
    requires Lowerable(u)
  {
    match u
    case UOper(_, op, dst, lhs, rhs) =>
      if dst == Sp && lhs == Reg(Sp) then
        Success(if op == Add then UpdatedSp(f, Value(rhs.imm))
                else if op == Sub then UpdatedSp(f, 0 - Value(rhs.imm) as int)
                else f)
      else if dst == Sp then Success(ResetSp(f))
      else if dst == Fp then Success(ResetFp(f))
      else Success(f)
    case ULabel(cp) => Success(Labelled(f, cp))
    case UApply(_) => Success(if f.isFunction then UpdatedSp(f, -3) else f)
    case UGoto(_, d) => BranchDestination(f, d)
    case UBranch(cp, _, d) =>
      (match BranchDestination(f, d)
       case Success(g) => BranchDestination(g, Wrap(cp + 1))
       case Failure(e) => Failure(e))
    case _ => Success(f)
  }

  /** Lowering never changes the mode, and only a jump within a function can fail. */
  lemma ControlStepKeepsMode(f: TStateFields, u: UInstruction)
    requires Lowerable(u)
    ensures ControlStep(f, u).Success? ==> ControlStep(f, u).value.isFunction == f.isFunction
    ensures ControlStep(f, u).Failure? ==> f.isFunction && (u.UGoto? || u.UBranch?)
  {
  }

  /** The lowering of `u` in the given mode: the T-instruction keeps `u` and the mode, is well formed
      and consistent, and re-lowers to `u`. */
  predicate LoweredFrom(t: TInstruction, u: UInstruction, isFunction: bool) {
    t.u == u && t.isFunction == isFunction && WellFormed(t) && Consistent(t) && GetUInstruction(t) == u
  }

  /** Every written argument is a variable, and no two of them are the same object. */
  predicate DistinctWrites(ws: seq<TArgument>) {
    && (forall i | 0 <= i < |ws| :: ws[i].TVar?)
    && (forall i, j | 0 <= i < j < |ws| :: ws[i].v != ws[j].v)
  }

  /** The argument `TState` gives a register. */
  method RegisterArgument(s: TState, reg: URegister) returns (a: TArgument)
    requires s.Valid()
    modifies s, s.uids
    ensures s.Valid() && s.Fields() == old(s.Fields()).(registers := s.registers)
    ensures a.TVar? && fresh(a.v) && a.v.place == Register(reg) && a.UArgument() == ArgOperand(Reg(reg))
  {
    a := s.MakeRegister(reg);
  }

  /** The argument `TState` gives any U-argument. */
  method Argument(s: TState, arg: UArgument) returns (a: TArgument)
    requires s.Valid()
    modifies s, s.uids
    ensures s.Valid() && s.Fields() == old(s.Fields()).(registers := s.registers, spLocations := s.spLocations, fpLocations := s.fpLocations)
    ensures a.UArgument() == arg
  {
    a := s.MakeTArgument(arg);
  }

  /** Lowering of the instructions that only move data or check it: their arguments become T-arguments
      and the state's offsets are left alone. */
  method LowerAccess(u: UInstruction, s: TState) returns (t: TInstruction)
    requires s.Valid()
    requires u.UGet? || u.USet? || u.UMove? || u.UUnary? || u.UMemCheck? || u.UTagCheck?
    modifies s, s.uids
    ensures s.Valid() && s.Fields() == old(s.Fields()).(registers := s.registers, spLocations := s.spLocations, fpLocations := s.fpLocations)
    ensures LoweredFrom(t, u, old(s.isFunction)) && (u.ULabel? ==> t.kind.TLabel?)
    ensures DistinctWrites(WriteArgs(t)) && forall i | 0 <= i < |WriteArgs(t)| :: fresh(WriteArgs(t)[i].v)
  {
    var isFunction := s.isFunction;
    match u
    case UGet(_, dst, loc) =>
      var a := RegisterArgument(s, dst);
      var b := s.MakeTArgument(ArgLocation(loc));
      var p := RegisterArgument(s, loc.Ptr());
      t := TInstruction(u, isFunction, TMove(a, b, Some(p)));
    case USet(_, loc, src) =>
      var a := s.MakeTArgument(ArgLocation(loc));
      assert a.v.place == Place(loc);
      var b := s.MakeTArgument(ArgOperand(src));
      var p := RegisterArgument(s, loc.Ptr());
      t := TInstruction(u, isFunction, TMove(a, b, Some(p)));
    case UMove(_, dst, src) =>
      var a := RegisterArgument(s, dst);
      var b := s.MakeTArgument(ArgOperand(src));
      t := TInstruction(u, isFunction, TMove(a, b, None));
    case UUnary(_, _, dst, src) =>
      var a := RegisterArgument(s, dst);
      var b := s.MakeTArgument(ArgOperand(src));
      t := TInstruction(u, isFunction, TUnary(a, b));
    case UMemCheck(_, loc) =>
      var a := s.MakeTArgument(ArgLocation(loc));
      var p := RegisterArgument(s, loc.Ptr());
      t := TInstruction(u, isFunction, TMemCheck(a, p));
    case UTagCheck(_, arg, tagA, tagB) =>
      var a := s.MakeTArgument(arg);
      t := TInstruction(u, isFunction, TTagCheck(a, tagA, tagB));
  }

  /** What `UOper::getTInstruction` does to the state before it makes the arguments. */
  method FollowOper(u: UInstruction, s: TState)
    requires s.Valid() && u.UOper? && Lowerable(u)
    modifies s
    ensures s.Valid() && s.Fields() == ControlStep(old(s.Fields()), u).value
    ensures s.isFunction == old(s.isFunction)
  {
    var UOper(_, op, dst, lhs, rhs) := u;
    if dst == Sp && lhs == Reg(Sp) {
      var offset := Value(rhs.imm);
      if op == Add {
        s.UpdateSp(offset);
      } else if op == Sub {
        s.UpdateSp(0 - offset as int);
      }
    } else if dst == Sp {
      s.ResetSP();
    } else if dst == Fp {
      s.ResetFP();
    }
  }

  /** The `TOper` over a fresh register variable for the destination and the arguments of the operands
      is the lowering of `u`. */
  lemma OperLowered(u: UInstruction, isFunction: bool, a: TArgument, b: TArgument, c: TArgument)
    requires u.UOper? && a.TVar? && a.v.place == Register(u.dst)
    requires b.UArgument() == ArgOperand(u.lhs) && c.UArgument() == ArgOperand(u.rhs)
    ensures LoweredFrom(TInstruction(u, isFunction, TOper(a, b, c)), u, isFunction)
    ensures DistinctWrites(WriteArgs(TInstruction(u, isFunction, TOper(a, b, c))))
  {
  }

  /** Lowering of `UOper`: the state follows the write to `sp` or `fp` first, then the three arguments
      become T-arguments. */
  method LowerOper(u: UInstruction, s: TState) returns (t: TInstruction)
    requires s.Valid() && u.UOper? && Lowerable(u)
    modifies s, s.uids
    ensures s.Valid()
    ensures s.Fields() == ControlStep(old(s.Fields()), u).value.(registers := s.registers, spLocations := s.spLocations, fpLocations := s.fpLocations)
    ensures LoweredFrom(t, u, old(s.isFunction))
    ensures DistinctWrites(WriteArgs(t)) && forall i | 0 <= i < |WriteArgs(t)| :: fresh(WriteArgs(t)[i].v)
  {
    FollowOper(u, s);
    ghost var f := s.Fields();
    var isFunction := s.isFunction;
    var a := RegisterArgument(s, u.dst);
    var b := Argument(s, ArgOperand(u.lhs));
    var c := Argument(s, ArgOperand(u.rhs));
    t := TInstruction(u, isFunction, TOper(a, b, c));
    OperLowered(u, isFunction, a, b, c);
    assert WriteArgs(t) == [a];
  }

  /** The argument `TState` gives a stack slot. */
  method SlotArgument(s: TState, offset: Int32, ty: ItemPart) returns (a: TArgument)
    requires s.Valid()
    modifies s, s.uids
    ensures s.Valid() && s.Fields() == old(s.Fields()).(spLocations := s.spLocations)
    ensures a.TVar? && fresh(a.v) && a.v.place == Place(SP(offset, ty))
  {
    a := s.MakeSP(SP(offset, ty));
  }

  /** The part of the frame of `UApply` it writes: the argument at `sp - 1`. */
  method ArgumentSlots(s: TState) returns (argTag: TArgument, argVal: TArgument)
    requires s.Valid()
    modifies s, s.uids
    ensures s.Valid() && s.Fields() == old(s.Fields()).(spLocations := s.spLocations)
    ensures argTag.TVar? && argVal.TVar? && fresh(argTag.v) && fresh(argVal.v) && argTag.v != argVal.v
  {
    argTag := SlotArgument(s, -1, TagPart);
    argVal := SlotArgument(s, -1, ValPart);
  }

  /** The part of the frame `UApply` only reads: the closure, the saved `fp` and the return `cp`. */
  method CallSlots(s: TState) returns (cloTag: TArgument, cloVal: TArgument, fpTag: TArgument, fpVal: TArgument,
                                       cpTag: TArgument, cpVal: TArgument)
    requires s.Valid()
    modifies s, s.uids
    ensures s.Valid() && s.Fields() == old(s.Fields()).(spLocations := s.spLocations)
  {
    cloTag := SlotArgument(s, 0, TagPart);
    cloVal := SlotArgument(s, 0, ValPart);
    fpTag := SlotArgument(s, 1, TagPart);
    fpVal := SlotArgument(s, 1, ValPart);
    cpTag := SlotArgument(s, 2, TagPart);
    cpVal := SlotArgument(s, 2, ValPart);
  }

  /** The scratch registers, which a call clobbers. */
  method ScratchArguments(s: TState) returns (r0: TArgument, r1: TArgument, r2: TArgument)
    requires s.Valid()
    modifies s, s.uids
    ensures s.Valid() && s.Fields() == old(s.Fields()).(registers := s.registers)
    ensures r0.TVar? && r1.TVar? && r2.TVar? && fresh(r0.v) && fresh(r1.v) && fresh(r2.v)
    ensures r0.v != r1.v && r0.v != r2.v && r1.v != r2.v
  {
    r0 := RegisterArgument(s, R0);
    r1 := RegisterArgument(s, R1);
    r2 := RegisterArgument(s, R2);
  }

  /** The eleven arguments of `UApply`: the argument, the closure, the saved `fp` and the return `cp`
      (tag and value each) at `sp - 1` to `sp + 2`, and the three scratch registers. */
  method ApplyArguments(s: TState, isFunction: bool, u: UInstruction) returns (t: TInstruction)
    requires s.Valid() && u.UApply?
    modifies s, s.uids
    ensures s.Valid() && s.Fields() == old(s.Fields()).(registers := s.registers, spLocations := s.spLocations)
    ensures LoweredFrom(t, u, isFunction)
    ensures DistinctWrites(WriteArgs(t)) && forall i | 0 <= i < |WriteArgs(t)| :: fresh(WriteArgs(t)[i].v)
  {
    var argTag, argVal := ArgumentSlots(s);
    var cloTag, cloVal, fpTag, fpVal, cpTag, cpVal := CallSlots(s);
    var r0, r1, r2 := ScratchArguments(s);
    t := TInstruction(u, isFunction, TApply(argTag, argVal, cloTag, cloVal, fpTag, fpVal, cpTag, cpVal, r0, r1, r2));
    assert WriteArgs(t) == if isFunction then [argTag, argVal, r0, r1, r2] else [];
  }

  /** Lowering of a jump: it records its destinations (a branch also its fall-through), which
      throws `OptimizationError` within a function when one was recorded with another offset. */
  method LowerJump(u: UInstruction, s: TState) returns (r: Result<TInstruction, Exception>)
    requires s.Valid() && (u.UGoto? || u.UBranch?)
    modifies s, s.uids
    ensures s.Valid()
    ensures r.Failure? <==> ControlStep(old(s.Fields()), u).Failure?
    ensures r.Failure? ==> r.error == OptimizationError
    ensures r.Success? ==>
              s.Fields() == ControlStep(old(s.Fields()), u).value.(registers := s.registers)
    ensures r.Success? ==> LoweredFrom(r.value, u, old(s.isFunction)) && WriteArgs(r.value) == []
  {
    var isFunction := s.isFunction;
    var outcome := s.AddBranchDestination(u.destination);
    if outcome.Fail? {
      return Failure(outcome.error);
    }
    if u.UGoto? {
      return Success(TInstruction(u, isFunction, TGoto(u.destination)));
    }
    ghost var f := s.Fields();
    outcome := s.AddBranchDestination(Wrap(u.cp + 1));
    if outcome.Fail? {
      return Failure(outcome.error);
    }
    var a := RegisterArgument(s, u.cond);
    r := Success(TInstruction(u, isFunction, TBranch(a, u.destination)));
  }

  /** Lowering of labels, guards and the other control transfers. */
  method LowerControl(u: UInstruction, s: TState) returns (t: TInstruction)
    requires s.Valid()
    requires u.ULabel? || u.UGuard? || u.UApply? || u.UReturn? || u.UHalt?
    modifies s, s.uids
    ensures s.Valid()
    ensures s.Fields() == ControlStep(old(s.Fields()), u).value.(registers := s.registers, spLocations := s.spLocations, fpLocations := s.fpLocations)
    ensures LoweredFrom(t, u, old(s.isFunction)) && (u.ULabel? ==> t.kind.TLabel?)
    ensures DistinctWrites(WriteArgs(t)) && forall i | 0 <= i < |WriteArgs(t)| :: fresh(WriteArgs(t)[i].v)
  {
    var isFunction := s.isFunction;
    match u
    case ULabel(cp) =>
      s.AddLabel(cp);
      t := TInstruction(u, isFunction, TLabel);
    case UGuard(_) =>
      t := TInstruction(u, isFunction, TGuard);
    case UApply(_) =>
      if isFunction {
        s.UpdateSp(-3);
      }
      t := ApplyArguments(s, isFunction, u);
    case UReturn(_) =>
      var aTag := s.MakeFP(FP(-2, TagPart));
      var aVal := s.MakeFP(FP(-2, ValPart));
      t := TInstruction(u, isFunction, TReturn(aTag, aVal));
    case UHalt(_) =>
      t := TInstruction(u, isFunction, THalt);
  }

  /** `getTInstruction`, the virtual call on the kind of U-instruction. */
  method GetTInstruction(u: UInstruction, s: TState) returns (r: Result<TInstruction, Exception>)
    requires s.Valid() && Lowerable(u)
    modifies s, s.uids
    ensures s.Valid()
    ensures r.Failure? <==> ControlStep(old(s.Fields()), u).Failure?
    ensures r.Failure? ==> r.error == OptimizationError
    ensures r.Success? ==>
              s.Fields() == ControlStep(old(s.Fields()), u).value.(registers := s.registers, spLocations := s.spLocations, fpLocations := s.fpLocations)
    ensures r.Success? ==> LoweredFrom(r.value, u, old(s.isFunction)) && (u.ULabel? ==> r.value.kind.TLabel?)
    ensures r.Success? ==> DistinctWrites(WriteArgs(r.value)) && forall i | 0 <= i < |WriteArgs(r.value)| :: fresh(WriteArgs(r.value)[i].v)
  {
    if u.UOper? {
      var t := LowerOper(u, s);
      r := Success(t);
    } else if u.UGet? || u.USet? || u.UMove? || u.UUnary? || u.UMemCheck? || u.UTagCheck? {
      var t := LowerAccess(u, s);
      r := Success(t);
    } else if u.UGoto? || u.UBranch? {
      r := LowerJump(u, s);
    } else {
      var t := LowerControl(u, s);
      r := Success(t);
    }
  }
}
