/** `TEffects`: the one side effect of a T-instruction that the optimizations look at, a write to a
    variable, a tag check or a bounds check, or none of these ("other"). */
module TSideEffects {
  import opened Wrappers
  import opened TaggedMemory
  import opened TArguments

  /** `TEffects::Check`: the checked argument and the two tags the check admits. */
  datatype Check = Check(arg: TArgument, tagA: Tag, tagB: Tag)

  /** The three private pointers of a `TEffects`, each of which may be empty. */
  datatype TEffects = TEffects(write: Option<TVariable>, tagCheck: Option<Check>, boundsCheck: Option<TArgument>)

  /** `getOther`: none of the three pointers is set. */
  predicate GetOther(e: TEffects) {
    e.write.None? && e.tagCheck.None? && e.boundsCheck.None?
  }

  /** `makeWrite(var)`: only the written variable is set. */
  function MakeWrite(v: TVariable): (e: TEffects)
    ensures e.write == Some(v) && e.tagCheck.None? && e.boundsCheck.None?
    ensures !GetOther(e)
  {
    TEffects(Some(v), None, None)
  }

  /** `makeTagCheck(arg, tagA, tagB)`: only the check of `arg` against the two tags is set. */
  function MakeTagCheck(a: TArgument, tagA: Tag, tagB: Tag): (e: TEffects)
    ensures e.tagCheck == Some(Check(a, tagA, tagB)) && e.write.None? && e.boundsCheck.None?
    ensures !GetOther(e)
  {
    TEffects(None, Some(Check(a, tagA, tagB)), None)
  }

  /** `makeBoundsCheck(arg)`: only the bounds-checked argument is set. */
  function MakeBoundsCheck(a: TArgument): (e: TEffects)
    ensures e.boundsCheck == Some(a) && e.write.None? && e.tagCheck.None?
    ensures !GetOther(e)
  {
    TEffects(None, None, Some(a))
  }

  /** `makeOther()`: nothing is set. */
  function MakeOther(): (e: TEffects)
    ensures GetOther(e)
  {
    TEffects(None, None, None)
  }

  /** `getOther` holds of exactly the effects `makeOther` builds, and the four constructors build four
      different kinds of effect. */
  lemma OtherExactlyForMakeOther(e: TEffects, v: TVariable, a: TArgument, b: TArgument, tagA: Tag, tagB: Tag)
    ensures GetOther(e) <==> e == MakeOther()
    ensures MakeWrite(v) != MakeTagCheck(a, tagA, tagB) && MakeWrite(v) != MakeBoundsCheck(b)
    ensures MakeTagCheck(a, tagA, tagB) != MakeBoundsCheck(b)
  {
  }
}
