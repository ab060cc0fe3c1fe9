/** T-arguments, the operands of T-code: immediates, and variables that stand for a register or a
    memory slot and are told apart by a numeric uid. */
module TArguments {
  import opened Wrappers
  import opened Words
  import opened Machine
  import opened UCode
  import opened Decimal

  /** `TVariable::nextUid_`, the static counter of uids: `last` is the uid handed out most recently.
      One object stands for the program-wide counter and is shared by everything that makes variables. */
  class UidCounter {
    var last: nat

    constructor ()
      ensures last == 0
    {
      last := 0;
    }
  }

  /** `TVariable`: the U-argument it was made from (a register or a location) and its uid. Each object
      is one `shared_ptr` target, so two objects are two pointers even when their fields agree. */
  class TVariable {
    const place: Target
    const uid: nat

    /** `TVariable(uArgument)`: a variable with the next uid, one more than the last one handed out.
        The first variable of a program therefore has uid 1. */
    constructor Fresh(place: Target, counter: UidCounter)
      modifies counter
      ensures this.place == place && uid == old(counter.last) + 1
      ensures counter.last == uid
    {
      this.place := place;
      uid := counter.last + 1;
      new;
      counter.last := counter.last + 1;
    }

    /** `TVariable(uArgument, uid)`. */
    constructor WithUid(place: Target, uid: nat)
      ensures this.place == place && this.uid == uid
    {
      this.place := place;
      this.uid := uid;
    }

    /** `copy(uArgument)`: a new object for the same variable seen through another U-argument. */
    method Copy(place: Target) returns (v: TVariable)
      ensures fresh(v) && v.place == place && v.uid == uid
    {
      v := new TVariable.WithUid(place, uid);
    }

    /** `getName`: "x" followed by the decimal uid. */
    function Name(): (s: string)
      ensures |s| >= 2 && s[0] == 'x'
    {
      "x" + NatToString(uid)
    }
  }

  /** `operator==`: two variables are equal when their uids are, whatever their U-arguments. */
  predicate SameVariable(v: TVariable, w: TVariable) {
    v.uid == w.uid
  }

  /** Two variables have the same name exactly when they are the same variable. */
  lemma NamesIdentifyVariables(v: TVariable, w: TVariable)
    ensures v.Name() == w.Name() <==> SameVariable(v, w)
  {
    if v.Name() == w.Name() {
      assert NatToString(v.uid) == v.Name()[1..] == w.Name()[1..] == NatToString(w.uid);
      NatToStringRoundTrip(v.uid);
      NatToStringRoundTrip(w.uid);
    }
  }

  /** The U-argument a register or a location denotes. */
  function ArgumentOf(t: Target): UArgument {
    match t
    case Register(r) => ArgOperand(Reg(r))
    case Place(l) => ArgLocation(l)
  }

  /** `TArgument::Ptr`: a `TImmediate` around a U-immediate, or a `TVariable`. */
  datatype TArgument = TImm(imm: UImmediate) | TVar(v: TVariable) {

    /** `getUArgument`. */
    function UArgument(): (a: UArgument)
      ensures TImm? ==> a == ArgOperand(Imm(imm))
      ensures TVar? ==> a == ArgumentOf(v.place)
    {
      match this
      case TImm(i) => ArgOperand(Imm(i))
      case TVar(x) => ArgumentOf(x.place)
    }

    /** `getName`: "imm" for an immediate, the variable's name otherwise. */
    function Name(): (s: string)
      ensures TImm? ==> s == "imm"
      ensures TVar? ==> s == v.Name()
    {
      match this
      case TImm(_) => "imm"
      case TVar(x) => x.Name()
    }
  }

  /** An immediate's name is "imm" and a variable's starts with "x", so the name tells the two kinds
      apart, and it tells variables apart by uid. */
  lemma ArgumentNames(a: TArgument, b: TArgument)
    ensures a.Name() == "imm" <==> a.TImm?
    ensures a.TVar? && b.TVar? ==> (a.Name() == b.Name() <==> SameVariable(a.v, b.v))
  {
    if a.TVar? {
      assert a.Name()[0] == 'x' != "imm"[0];
      if b.TVar? {
        NamesIdentifyVariables(a.v, b.v);
      }
    }
  }
}
