/** `TState`: the canonicalisation state of one U→T lowering. It maps registers, stack slots and frame
    slots to T-variables, so that every use of one slot denotes one variable, and it follows `sp`
    symbolically with an offset, so that a slot keeps its variable when `sp` moves. */
module TStates {
  import opened Wrappers
  import opened Words
  import opened Machine
  import opened UCode
  import opened Exceptions
  import opened TArguments

  /** `static_cast<int>(type)`: `Tag` is 0 and `Val` is 1. */
  function PartIndex(t: ItemPart): int {
    if t == TagPart then 0 else 1
  }

  /** The key `2 * position + type` of one half of the item at a (symbolic) stack position. Two halves
      of one item, and two items, never share a key. */
  function SlotKey(position: int, t: ItemPart): int {
    2 * position + PartIndex(t)
  }

  /** Two slots share a key exactly when they are the same half of the same position. */
  lemma SlotKeysDistinct(p: int, t: ItemPart, q: int, u: ItemPart)
    ensures SlotKey(p, t) == SlotKey(q, u) <==> p == q && t == u
  {
  }

  /** The fields of a `TState`, as a value. */
  datatype TStateFields = TStateFields(
    sp: int,
    registers: map<URegister, TVariable>,
    spLocations: map<int, TVariable>,
    fpLocations: map<int, TVariable>,
    labelOffsets: map<Word, int>,
    isFunction: bool)

  /** `updateSp(val)`: the symbolic offset moves by `val`. */
  function UpdatedSp(s: TStateFields, val: int): TStateFields {
    s.(sp := s.sp + val)
  }

  /** `resetSP`: outside a function, `sp` becomes unknown again: the offset restarts at 0 and the stack
      slots are forgotten. Within a function it does nothing. */
  function ResetSp(s: TStateFields): TStateFields {
    if s.isFunction then s else s.(sp := 0, spLocations := map[])
  }

  /** `resetFP`: outside a function the frame slots are forgotten; within one it does nothing. */
  function ResetFp(s: TStateFields): TStateFields {
    if s.isFunction then s else s.(fpLocations := map[])
  }

  /** `addBranchDestination(destination)`: within a function, a jump must reach its destination with
      the offset recorded there, and records the current one when there is none yet; a different one
      throws `OptimizationError`. Outside a function it does nothing. */
  function BranchDestination(s: TStateFields, destination: Word): Result<TStateFields, Exception> {
    if !s.isFunction then Success(s)
    else if destination in s.labelOffsets && s.labelOffsets[destination] != s.sp then Failure(OptimizationError)
    else Success(s.(labelOffsets := s.labelOffsets[destination := s.sp]))
  }

  /** `addLabel(cp)`: within a function, a label takes the offset recorded for it by an earlier jump or
      label, or records the current one. Outside a function it does nothing. */
  function Labelled(s: TStateFields, cp: Word): TStateFields {
    if !s.isFunction then s
    else if cp in s.labelOffsets then s.(sp := s.labelOffsets[cp])
    else s.(labelOffsets := s.labelOffsets[cp := s.sp])
  }

  /** After a label in function mode, the offset is the one recorded for its `cp`, which is the
      offset before when none was recorded; and every recorded offset stays as it was. */
  lemma LabelAgreesWithRecord(s: TStateFields, cp: Word)
    requires s.isFunction
    ensures var t := Labelled(s, cp);
            && cp in t.labelOffsets && t.sp == t.labelOffsets[cp]
            && (cp !in s.labelOffsets ==> t.sp == s.sp)
            && (forall d | d in s.labelOffsets :: d in t.labelOffsets && t.labelOffsets[d] == s.labelOffsets[d])
  {
  }

  /** A jump that passes the check leaves its destination recorded with the current offset and keeps
      every earlier record; one that throws leaves the state as it was. */
  lemma BranchAgreesWithRecord(s: TStateFields, destination: Word)
    requires s.isFunction
    ensures var r := BranchDestination(s, destination);
            && (r.Failure? <==> destination in s.labelOffsets && s.labelOffsets[destination] != s.sp)
            && (r.Success? ==> r.value.sp == s.sp && r.value.labelOffsets[destination] == s.sp)
            && (r.Success? ==> forall d | d in s.labelOffsets :: d in r.value.labelOffsets &&
                                 r.value.labelOffsets[d] == s.labelOffsets[d])
  {
  }

  /** A label reached by a jump recorded earlier restores the offset the jump had, however far `sp`
      moved in between. */
  lemma JumpThenLabelRestoresOffset(s: TStateFields, destination: Word, moved: int)
    requires s.isFunction && BranchDestination(s, destination).Success?
    ensures Labelled(UpdatedSp(BranchDestination(s, destination).value, moved), destination).sp == s.sp
  {
  }

  /** Outside a function no label or jump changes anything and no jump throws. */
  lemma TraceModeIgnoresControl(s: TStateFields, d: Word)
    requires !s.isFunction
    ensures Labelled(s, d) == s && BranchDestination(s, d) == Success(s)
    ensures ResetSp(s).sp == 0 && ResetSp(s).spLocations == map[] && ResetFp(s).fpLocations == map[]
  {
  }

  /** Within a function the resets do nothing, so stack and frame slots keep their variables. */
  lemma FunctionModeKeepsSlots(s: TStateFields)
    requires s.isFunction
    ensures ResetSp(s) == s && ResetFp(s) == s
  {
  }

  /** Look `key` up in `m`, adding a variable with the next uid when it is absent, and return a new
      object for the variable under `key`, seen through `place`. */
  method Intern<K>(m: map<K, TVariable>, key: K, place: Target, uids: UidCounter)
    returns (m': map<K, TVariable>, a: TArgument)
    modifies uids
    ensures key in m' && a.TVar? && fresh(a.v) && a.v.place == place && a.v.uid == m'[key].uid
    ensures key in m ==> m' == m && uids.last == old(uids.last)
    ensures key !in m ==> m' == m[key := m'[key]] && fresh(m'[key])
    ensures key !in m ==> m'[key].uid == old(uids.last) + 1 && uids.last == m'[key].uid
  {
    m' := m;
    if key !in m {
      var v := new TVariable.Fresh(place, uids);
      m' := m[key := v];
    }
    var c := m'[key].Copy(place);
    a := TVar(c);
  }

  /** Every uid of a map of variables has been handed out by `uids`. */
  ghost predicate HandedOut<K>(m: map<K, TVariable>, last: nat) {
    forall k | k in m :: m[k].uid <= last
  }

  class TState {
    var sp: int
    var registers: map<URegister, TVariable>
    var spLocations: map<int, TVariable>
    var fpLocations: map<int, TVariable>
    var labelOffsets: map<Word, int>
    var isFunction: bool
    /** The counter `TVariable` draws its uids from. */
    const uids: UidCounter

    /** Every variable the state keeps has a uid the counter has already handed out, so a variable
        made fresh later has a uid none of them has. */
    ghost predicate Valid()
      reads this, uids
    {
      && HandedOut(registers, uids.last)
      && HandedOut(spLocations, uids.last)
      && HandedOut(fpLocations, uids.last)
    }

    function Fields(): TStateFields
      reads this
    {
      TStateFields(sp, registers, spLocations, fpLocations, labelOffsets, isFunction)
    }

    /** A new state: offset 0, nothing known, trace mode. */
    constructor (uids: UidCounter)
      ensures Fields() == TStateFields(0, map[], map[], map[], map[], false)
      ensures this.uids == uids && Valid()
    {
      sp := 0;
      registers := map[];
      spLocations := map[];
      fpLocations := map[];
      labelOffsets := map[];
      isFunction := false;
      this.uids := uids;
    }

    method UpdateSp(val: int)
      modifies this
      ensures Fields() == UpdatedSp(old(Fields()), val)
      ensures isFunction == old(isFunction)
    {
      sp := sp + val;
    }

    method ResetSP()
      modifies this
      ensures Fields() == ResetSp(old(Fields()))
      ensures isFunction == old(isFunction)
    {
      if !isFunction {
        sp := 0;
        spLocations := map[];
      }
    }

    method ResetFP()
      modifies this
      ensures Fields() == ResetFp(old(Fields()))
      ensures isFunction == old(isFunction)
    {
      if !isFunction {
        fpLocations := map[];
      }
    }

    /** `makeTArgument(URegister)`: the variable of a register is the same for every use. */
    method MakeRegister(reg: URegister) returns (a: TArgument)
      requires Valid()
      modifies this, uids
      ensures Valid() && Fields() == old(Fields()).(registers := registers)
      ensures a.TVar? && fresh(a.v) && a.v.place == Register(reg)
      ensures reg in registers && a.v.uid == registers[reg].uid
      ensures reg in old(registers) ==> registers == old(registers)
      ensures reg in old(registers) ==> uids.last == old(uids.last)
      ensures reg !in old(registers) ==> registers == old(registers)[reg := registers[reg]]
      ensures reg !in old(registers) ==> a.v.uid == uids.last == old(uids.last) + 1
    {
      registers, a := Intern(registers, reg, Register(reg), uids);
    }

    /** `makeTArgument(ULocSP)`: a stack slot is keyed by its position relative to the symbolic `sp`. */
    method MakeSP(loc: ULocation) returns (a: TArgument)
      requires loc.LocSP? && Valid()
      modifies this, uids
      ensures Valid() && Fields() == old(Fields()).(spLocations := spLocations)
      ensures var key := SlotKey(sp + loc.offset, loc.ty);
              && a.TVar? && fresh(a.v) && a.v.place == Place(loc)
              && key in spLocations && a.v.uid == spLocations[key].uid
              && (key in old(spLocations) ==> spLocations == old(spLocations))
              && (key in old(spLocations) ==> uids.last == old(uids.last))
              && (key !in old(spLocations) ==> spLocations == old(spLocations)[key := spLocations[key]])
              && (key !in old(spLocations) ==> a.v.uid == uids.last == old(uids.last) + 1)
    {
      spLocations, a := Intern(spLocations, SlotKey(sp + loc.offset, loc.ty), Place(loc), uids);
    }

    /** `makeTArgument(ULocFP)`: a frame slot is keyed by its offset from `fp` alone. */
    method MakeFP(loc: ULocation) returns (a: TArgument)
      requires loc.LocFP? && Valid()
      modifies this, uids
      ensures Valid() && Fields() == old(Fields()).(fpLocations := fpLocations)
      ensures var key := SlotKey(loc.offset, loc.ty);
              && a.TVar? && fresh(a.v) && a.v.place == Place(loc)
              && key in fpLocations && a.v.uid == fpLocations[key].uid
              && (key in old(fpLocations) ==> fpLocations == old(fpLocations))
              && (key in old(fpLocations) ==> uids.last == old(uids.last))
              && (key !in old(fpLocations) ==> fpLocations == old(fpLocations)[key := fpLocations[key]])
              && (key !in old(fpLocations) ==> a.v.uid == uids.last == old(uids.last) + 1)
    {
      fpLocations, a := Intern(fpLocations, SlotKey(loc.offset, loc.ty), Place(loc), uids);
    }

    /** `makeTArgument(ULocHeap)`: every heap access is a variable of its own. */
    method MakeHeap(loc: ULocation) returns (a: TArgument)
      requires loc.LocHeap?
      modifies uids
      ensures a.TVar? && fresh(a.v) && a.v.place == Place(loc)
      ensures a.v.uid == uids.last == old(uids.last) + 1
    {
      var v := new TVariable.Fresh(Place(loc), uids);
      a := TVar(v);
    }

    /** `UArgument::makeTArgument`, the virtual call that picks one of the overloads by the kind of
        U-argument; an immediate is wrapped without touching the state. */
    method MakeTArgument(arg: UArgument) returns (a: TArgument)
      requires Valid()
      modifies this, uids
      ensures Valid() && a.UArgument() == arg
      ensures Fields() == old(Fields()).(registers := registers, spLocations := spLocations, fpLocations := fpLocations)
      ensures uids.last == old(uids.last) || uids.last == old(uids.last) + 1
      ensures arg.ArgOperand? && arg.operand.Imm? ==> a == TImm(arg.operand.imm) && Fields() == old(Fields())
      ensures !(arg.ArgOperand? && arg.operand.Imm?) ==> a.TVar? && fresh(a.v) && a.v.uid <= uids.last
    {
      match arg
      case ArgOperand(Imm(imm)) => a := TImm(imm);
      case ArgOperand(Reg(reg)) => a := MakeRegister(reg);
      case ArgLocation(loc) =>
        match loc
        case LocSP(_, _) => a := MakeSP(loc);
        case LocFP(_, _) => a := MakeFP(loc);
        case LocHeap(_, _, _) => a := MakeHeap(loc);
    }

    method AddBranchDestination(destination: Word) returns (outcome: Outcome<Exception>)
      modifies this
      ensures var r := BranchDestination(old(Fields()), destination);
              && (outcome.Fail? <==> r.Failure?)
              && (r.Failure? ==> outcome == Fail(r.error) && Fields() == old(Fields()))
              && (r.Success? ==> Fields() == r.value)
      ensures isFunction == old(isFunction)
    {
      outcome := Pass;
      if isFunction {
        if destination in labelOffsets && labelOffsets[destination] != sp {
          return Fail(OptimizationError);
        }
        labelOffsets := labelOffsets[destination := sp];
      }
    }

    method AddLabel(cp: Word)
      modifies this
      ensures Fields() == Labelled(old(Fields()), cp)
      ensures isFunction == old(isFunction)
    {
      if isFunction {
        if cp in labelOffsets {
          sp := labelOffsets[cp];
        } else {
          labelOffsets := labelOffsets[cp := sp];
        }
      }
    }

    /** `setFunction`: from now on the state lowers a whole function. */
    method SetFunction()
      modifies this
      ensures Fields() == old(Fields()).(isFunction := true)
    {
      isFunction := true;
    }
  }

  /** After `updateSp(k)`, the stack slot `SP(o - k)` is the variable `SP(o)` was before: because slots
      are keyed by their position from the symbolic `sp`, moving `sp` by `k` and the offset by `-k`
      reaches the same key, so both uses get one uid. */
  method SlotSurvivesSpUpdate(s: TState, o: Int32, k: Int32, t: ItemPart) returns (before: TArgument, after: TArgument)
    requires s.Valid() && INT_MIN <= o - k <= INT_MAX
    modifies s, s.uids
    ensures before.TVar? && after.TVar? && SameVariable(before.v, after.v)
    ensures before.v != after.v
  {
    before := s.MakeSP(SP(o, t));
    s.UpdateSp(k);
    after := s.MakeSP(SP(o - k, t));
  }

  /** A heap access and a later one get different variables, even for the same location, while two uses
      of one register get the same variable. */
  method HeapFreshRegisterStable(s: TState, loc: ULocation, reg: URegister)
    returns (h1: TArgument, h2: TArgument, r1: TArgument, r2: TArgument)
    requires s.Valid() && loc.LocHeap?
    modifies s, s.uids
    ensures h1.TVar? && h2.TVar? && !SameVariable(h1.v, h2.v)
    ensures r1.TVar? && r2.TVar? && SameVariable(r1.v, r2.v)
  {
    h1 := s.MakeHeap(loc);
    h2 := s.MakeHeap(loc);
    r1 := s.MakeRegister(reg);
    r2 := s.MakeRegister(reg);
  }
}
