/** The shape shared by every `BInstruction::getUInstructions`: the code is the sequence of pieces added
    to a `UCodeBuilder` (a label, the work on memory, then the update of the registers), and what a
    piece of code may do is summed up by the registers it writes, the stores it makes and the tag
    checks it performs. */
module LoweringShape {
  import opened Wrappers
  import opened Words
  import opened TaggedMemory
  import opened Machine
  import opened BCode
  import opened UCode

  /** `uImm(k)` of an `int`. */
  function IntImm(k: Int32): UOperand {
    Imm(ImmInt(k))
  }

  /** `uImm(t)` of a tag. */
  function TagImm(t: Tag): UOperand {
    Imm(ImmTag(t))
  }

  /** `UOper(op, reg, reg, uImm(k))`: add `k` to, or subtract it from, a register. */
  function Bump(cp: Word, op: BinaryOp, reg: URegister, k: Int32): UInstruction {
    UOper(cp, op, reg, Reg(reg), IntImm(k))
  }

  /** The code of one B-instruction as the pieces added to its `UCodeBuilder`, in order: one entry per
      `add`, and one per `addIf` (empty when its condition is false). */
  type Pieces = seq<seq<UInstruction>>

  /** `(p, j)` indexes instruction `j` of piece `p`. */
  predicate In(ps: Pieces, p: int, j: int) {
    0 <= p < |ps| && 0 <= j < |ps[p]|
  }

  /** Every piece carries the instruction's `cp` and guards each of its memory accesses. */
  predicate Built(ps: Pieces, cp: Word) {
    forall k | 0 <= k < |ps| :: Guarded(ps[k]) && AllAt(ps[k], cp)
  }

  /** What every lowering guarantees: it starts with the label of its instruction, and every piece
      carries that instruction's `cp` and guards each of its memory accesses. */
  predicate Lowered(ps: Pieces, cp: Word) {
    |ps| > 0 && ps[0] == [ULabel(cp)] && Built(ps, cp)
  }

  // ---------------------------------------------------------------------------------------------
  // What code does

  /** What a piece of code may do: write the registers `writes`, store `stores[loc]` and nothing else
      to each location `loc` of `stores` (and store nowhere else), and check the tag of each location
      `loc` of `checks` against the two tags `checks[loc]` (and check nothing else). */
  datatype Effects = Effects(writes: set<URegister>, stores: map<ULocation, UOperand>, checks: map<ULocation, (Tag, Tag)>)

  /** `u` stays within `e`. */
  predicate Permitted(u: UInstruction, e: Effects) {
    && (u.Writes().Some? ==> u.Writes().value in e.writes)
    && (u.USet? ==> u.loc in e.stores && e.stores[u.loc] == u.src)
    && (u.UTagCheck? ==> u.arg.ArgLocation? && u.arg.location in e.checks && e.checks[u.arg.location] == (u.tagA, u.tagB))
  }

  /** Every instruction of the code stays within `e`. */
  ghost predicate Performs(ps: Pieces, e: Effects) {
    forall p, j | In(ps, p, j) :: Permitted(ps[p][j], e)
  }

  /** No instruction of the code writes `t`. */
  ghost predicate Untouched(ps: Pieces, t: Target) {
    forall p, j | In(ps, p, j) :: !Touches(ps[p][j], t)
  }

  /** The instruction at `(p, j)` is the only one that writes `t`. */
  ghost predicate OnlyAt(ps: Pieces, t: Target, p: int, j: int) {
    In(ps, p, j) && Touches(ps[p][j], t) &&
    forall q, i | In(ps, q, i) && Touches(ps[q][i], t) :: q == p && i == j
  }

  /** `u` is the only instruction of the code that writes `t`, and it occurs once. */
  ghost predicate SoleWrite(ps: Pieces, t: Target, u: UInstruction) {
    exists p, j :: OnlyAt(ps, t, p, j) && ps[p][j] == u
  }

  /** The code moves `reg` by `k`: it leaves it alone (and `k` is zero), or its one write to it adds `k`. */
  ghost predicate MovesBy(ps: Pieces, reg: URegister, k: int) {
    (k == 0 && Untouched(ps, Register(reg))) ||
    exists p, j :: OnlyAt(ps, Register(reg), p, j) && Shift(reg, ps[p][j]) == Some(k)
  }

  /** The instruction at `(p, j)` stores `src` to `loc`. */
  predicate StoreAt(ps: Pieces, loc: ULocation, src: UOperand, p: int, j: int) {
    In(ps, p, j) && ps[p][j].USet? && ps[p][j].loc == loc && ps[p][j].src == src
  }

  /** Some instruction stores `src` to `loc`. */
  ghost predicate Stores(ps: Pieces, loc: ULocation, src: UOperand) {
    exists p, j :: StoreAt(ps, loc, src, p, j)
  }

  /** The instruction at `(p, j)` reads `loc` into `reg`. */
  predicate ReadAt(ps: Pieces, reg: URegister, loc: ULocation, p: int, j: int) {
    In(ps, p, j) && ps[p][j].UGet? && ps[p][j].dst == reg && ps[p][j].loc == loc
  }

  /** Some instruction reads `loc` into `reg`. */
  ghost predicate Reads(ps: Pieces, reg: URegister, loc: ULocation) {
    exists p, j :: ReadAt(ps, reg, loc, p, j)
  }

  /** The instruction at `(p, j)` checks that the tag at `loc` is `tagA` or `tagB`. */
  predicate ChecksAt(ps: Pieces, loc: ULocation, tagA: Tag, tagB: Tag, p: int, j: int) {
    In(ps, p, j) && ps[p][j].UTagCheck? && ps[p][j].arg == ArgLocation(loc) &&
    ps[p][j].tagA == tagA && ps[p][j].tagB == tagB
  }

  /** Some instruction checks that the tag at `loc` is `tagA` or `tagB`. */
  ghost predicate Checks(ps: Pieces, loc: ULocation, tagA: Tag, tagB: Tag) {
    exists p, j :: ChecksAt(ps, loc, tagA, tagB, p, j)
  }

  /** Piece `p` copies the item half at `from` to `to`: a checked read of `from` into `r0` directly
      followed by a checked write of `r0` to `to`. */
  predicate CopiesAt(ps: Pieces, cp: Word, from: ULocation, to: ULocation, p: int) {
    0 <= p < |ps| && ps[p] == MoveAndCheck(cp, R0, from, to)
  }

  /** Some piece copies the item half at `from` to `to`. */
  ghost predicate Copies(ps: Pieces, cp: Word, from: ULocation, to: ULocation) {
    exists p :: CopiesAt(ps, cp, from, to, p)
  }

  /** How a straight-line instruction's code steps the registers, as the interpreter does: `sp` and `hp`
      move by `sp` and `hp`, `fp` stays, and the code ends by moving `cp` on by one, its only write. */
  ghost predicate StepsForward(ps: Pieces, cp: Word, sp: int, hp: int) {
    MovesBy(ps, Sp, sp) && MovesBy(ps, Hp, hp) && MovesBy(ps, Cp, 1) && Untouched(ps, Register(Fp)) &&
    |ps| > 0 && ps[|ps| - 1] == [Bump(cp, Add, Cp, 1)]
  }

  /** The scratch registers. */
  const Scratch: set<URegister> := {R0, R1, R2}

  /** Code within `e` writes no register outside `e.writes` and stores to no location outside
      `e.stores`, and every store it makes to a location of `e.stores` writes what `e` says. */
  lemma PerformsMeaning(ps: Pieces, e: Effects, t: Target)
    requires Performs(ps, e)
    ensures t.Register? && t.reg !in e.writes ==> Untouched(ps, t)
    ensures t.Place? && t.loc !in e.stores ==> Untouched(ps, t)
    ensures forall p, j | In(ps, p, j) && t.Place? && Touches(ps[p][j], t) :: ps[p][j].src == e.stores[t.loc]
  {
    forall p, j | In(ps, p, j) ensures Permitted(ps[p][j], e) {
    }
  }

  /** `e` allows no more than `f`: fewer registers, and stores and checks that `f` allows too. */
  ghost predicate Within(e: Effects, f: Effects) {
    && e.writes <= f.writes
    && (forall l | l in e.stores :: l in f.stores && f.stores[l] == e.stores[l])
    && (forall l | l in e.checks :: l in f.checks && f.checks[l] == e.checks[l])
  }

  /** Code within `e` is within whatever allows more than `e`. */
  lemma PerformsWithin(ps: Pieces, e: Effects, f: Effects)
    requires Performs(ps, e) && Within(e, f)
    ensures Performs(ps, f)
  {
    forall p, j | In(ps, p, j) ensures Permitted(ps[p][j], f) {
      assert Permitted(ps[p][j], e);
    }
  }

  /** Code joined to code stays within the effects both stay within, and is built when both are. */
  lemma {:induction false} JoinPerforms(a: Pieces, b: Pieces, e: Effects, cp: Word)
    requires Performs(a, e) && Performs(b, e)
    requires Built(a, cp) && Built(b, cp)
    ensures Performs(a + b, e) && Built(a + b, cp)
  {
    var c := a + b;
    forall p, j | In(c, p, j) ensures Permitted(c[p][j], e) {
      if p < |a| {
        assert c[p] == a[p] && In(a, p, j);
      } else {
        assert c[p] == b[p - |a|] && In(b, p - |a|, j);
      }
    }
    forall k | 0 <= k < |c| ensures Guarded(c[k]) && AllAt(c[k], cp) {
      if k < |a| { assert c[k] == a[k]; } else { assert c[k] == b[k - |a|]; }
    }
  }

  // ---------------------------------------------------------------------------------------------
  // A lowering: the label, the work on memory, then the update of the registers

  /** The pieces of a lowering whose builder adds the label, then `work` (the memory traffic, through
      scratch registers), then `update` (the pieces that move the VM's registers). */
  function Lowering(cp: Word, work: Pieces, update: Pieces): Pieces {
    [[ULabel(cp)]] + work + update
  }

  /** Where the label, the work and the update sit in the whole lowering. */
  lemma LoweringIndex(cp: Word, work: Pieces, update: Pieces)
    ensures var ps := Lowering(cp, work, update);
            && |ps| == 1 + |work| + |update| && ps[0] == [ULabel(cp)]
            && (forall k | 0 <= k < |work| :: ps[1 + k] == work[k])
            && (forall k | 0 <= k < |update| :: ps[1 + |work| + k] == update[k])
  {
  }

  /** Every instruction of the lowering after the label comes from the work or from the update. */
  lemma LoweringOrigin(cp: Word, work: Pieces, update: Pieces, q: int, i: int)
    requires In(Lowering(cp, work, update), q, i) && q > 0
    ensures q < 1 + |work| ==> In(work, q - 1, i) && Lowering(cp, work, update)[q][i] == work[q - 1][i]
    ensures q >= 1 + |work| ==> In(update, q - 1 - |work|, i) && Lowering(cp, work, update)[q][i] == update[q - 1 - |work|][i]
  {
    LoweringIndex(cp, work, update);
  }

  /** A lowering is `Lowered` when its work and its update are built for `cp`. */
  lemma LoweringLowered(cp: Word, work: Pieces, update: Pieces)
    requires Built(work, cp) && Built(update, cp)
    ensures Lowered(Lowering(cp, work, update), cp)
  {
    var ps := Lowering(cp, work, update);
    LoweringIndex(cp, work, update);
    assert Guarded([ULabel(cp)]) by { assert AccessGuarded([ULabel(cp)], 0); }
    forall k | 0 <= k < |ps| ensures Guarded(ps[k]) && AllAt(ps[k], cp) {
      if k == 0 {
      } else if k < 1 + |work| {
        assert ps[k] == work[k - 1];
      } else {
        assert ps[k] == update[k - 1 - |work|];
      }
    }
  }

  /** The lowering stays within `e` when its work does with the registers `ww` and its update, which
      neither stores nor checks, does with the registers `w`. */
  lemma LoweringPerforms(cp: Word, work: Pieces, update: Pieces, e: Effects, ww: set<URegister>, w: set<URegister>)
    requires Performs(work, e.(writes := ww)) && Performs(update, Effects(w, map[], map[]))
    requires ww <= e.writes && w <= e.writes
    ensures Performs(Lowering(cp, work, update), e)
  {
    var ps := Lowering(cp, work, update);
    forall q, i | In(ps, q, i) ensures Permitted(ps[q][i], e) {
      if q == 0 {
        LoweringIndex(cp, work, update);
      } else {
        LoweringOrigin(cp, work, update, q, i);
        if q < 1 + |work| {
          assert Permitted(work[q - 1][i], e.(writes := ww));
        } else {
          assert Permitted(update[q - 1 - |work|][i], Effects(w, map[], map[]));
        }
      }
    }
  }

  /** A store of the work is a store of the lowering. */
  lemma KeptStore(cp: Word, work: Pieces, update: Pieces, loc: ULocation, src: UOperand, p: int, j: int)
    requires StoreAt(work, loc, src, p, j)
    ensures Stores(Lowering(cp, work, update), loc, src)
  {
    LoweringIndex(cp, work, update);
    assert StoreAt(Lowering(cp, work, update), loc, src, 1 + p, j);
  }

  /** A read of the work is a read of the lowering. */
  lemma KeptRead(cp: Word, work: Pieces, update: Pieces, reg: URegister, loc: ULocation, p: int, j: int)
    requires ReadAt(work, reg, loc, p, j)
    ensures Reads(Lowering(cp, work, update), reg, loc)
  {
    LoweringIndex(cp, work, update);
    assert ReadAt(Lowering(cp, work, update), reg, loc, 1 + p, j);
  }

  /** A tag check of the work is a tag check of the lowering. */
  lemma KeptCheck(cp: Word, work: Pieces, update: Pieces, loc: ULocation, a: Tag, b: Tag, p: int, j: int)
    requires ChecksAt(work, loc, a, b, p, j)
    ensures Checks(Lowering(cp, work, update), loc, a, b)
  {
    LoweringIndex(cp, work, update);
    assert ChecksAt(Lowering(cp, work, update), loc, a, b, 1 + p, j);
  }

  /** A copy of the work is a copy of the lowering. */
  lemma KeptCopy(cp: Word, work: Pieces, update: Pieces, from: ULocation, to: ULocation, p: int)
    requires CopiesAt(work, cp, from, to, p)
    ensures Copies(Lowering(cp, work, update), cp, from, to)
  {
    LoweringIndex(cp, work, update);
    assert CopiesAt(Lowering(cp, work, update), cp, from, to, 1 + p);
  }

  /** A register the work does not write is written in the lowering only where the update writes it. */
  lemma FromUpdate(cp: Word, work: Pieces, update: Pieces, reg: URegister)
    requires Untouched(work, Register(reg))
    ensures Untouched(update, Register(reg)) ==> Untouched(Lowering(cp, work, update), Register(reg))
    ensures forall p, j | OnlyAt(update, Register(reg), p, j) :: OnlyAt(Lowering(cp, work, update), Register(reg), 1 + |work| + p, j)
  {
    var ps := Lowering(cp, work, update);
    var t := Register(reg);
    LoweringIndex(cp, work, update);
    forall q, i | In(ps, q, i) && Touches(ps[q][i], t) ensures q >= 1 + |work| && Touches(update[q - 1 - |work|][i], t) {
      LoweringOrigin(cp, work, update, q, i);
    }
    forall p, j | OnlyAt(update, t, p, j) ensures OnlyAt(ps, t, 1 + |work| + p, j) {
      forall q, i | In(ps, q, i) && Touches(ps[q][i], t) ensures q == 1 + |work| + p && i == j {
        LoweringOrigin(cp, work, update, q, i);
      }
    }
    if Untouched(update, t) {
      forall q, i | In(ps, q, i) ensures !Touches(ps[q][i], t) {
        if Touches(ps[q][i], t) {
          LoweringOrigin(cp, work, update, q, i);
        }
      }
    }
  }

  /** A register the work does not write moves as the update moves it. */
  lemma MovesFromUpdate(cp: Word, work: Pieces, update: Pieces, reg: URegister, k: int)
    requires Untouched(work, Register(reg)) && MovesBy(update, reg, k)
    ensures MovesBy(Lowering(cp, work, update), reg, k)
  {
    FromUpdate(cp, work, update, reg);
    LoweringIndex(cp, work, update);
    if !(k == 0 && Untouched(update, Register(reg))) {
      var p, j :| OnlyAt(update, Register(reg), p, j) && Shift(reg, update[p][j]) == Some(k);
      assert Lowering(cp, work, update)[1 + |work| + p] == update[p];
      assert OnlyAt(Lowering(cp, work, update), Register(reg), 1 + |work| + p, j);
    }
  }

  /** A register the work does not write has in the lowering the update's sole write. */
  lemma SoleWriteFromUpdate(cp: Word, work: Pieces, update: Pieces, reg: URegister, u: UInstruction)
    requires Untouched(work, Register(reg)) && SoleWrite(update, Register(reg), u)
    ensures SoleWrite(Lowering(cp, work, update), Register(reg), u)
  {
    FromUpdate(cp, work, update, reg);
    LoweringIndex(cp, work, update);
    var p, j :| OnlyAt(update, Register(reg), p, j) && update[p][j] == u;
    assert Lowering(cp, work, update)[1 + |work| + p] == update[p];
    assert OnlyAt(Lowering(cp, work, update), Register(reg), 1 + |work| + p, j);
  }

  /** The lowering ends with its update. */
  lemma EndsWithUpdate(cp: Word, work: Pieces, update: Pieces)
    ensures var ps := Lowering(cp, work, update);
            |update| <= |ps| && ps[|ps| - |update|..] == update
  {
    assert Lowering(cp, work, update) == ([[ULabel(cp)]] + work) + update;
  }

  /** The code within `e` leaves the VM registers `sp`, `fp`, `cp` and `hp` alone when `e` writes only
      scratch registers. */
  lemma ScratchWork(ps: Pieces, e: Effects)
    requires Performs(ps, e) && e.writes <= Scratch
    ensures Untouched(ps, Register(Sp)) && Untouched(ps, Register(Hp))
    ensures Untouched(ps, Register(Cp)) && Untouched(ps, Register(Fp))
  {
    PerformsMeaning(ps, e, Register(Sp));
    PerformsMeaning(ps, e, Register(Hp));
    PerformsMeaning(ps, e, Register(Cp));
    PerformsMeaning(ps, e, Register(Fp));
  }

  /** A lowering whose work is built, writes only the scratch registers `ww` and otherwise stays within
      `e`, and whose update is built and writes only `w`, neither storing nor checking, is lowered,
      stays within `e`, leaves the VM registers alone in its work and ends with its update. */
  lemma WorkThenUpdate(cp: Word, work: Pieces, update: Pieces, e: Effects, ww: set<URegister>, w: set<URegister>)
    requires Built(work, cp) && Performs(work, e.(writes := ww)) && ww <= Scratch && ww <= e.writes
    requires Built(update, cp) && Performs(update, Effects(w, map[], map[])) && w <= e.writes
    ensures var ps := Lowering(cp, work, update);
            && Lowered(ps, cp) && Performs(ps, e)
            && |update| <= |ps| && ps[|ps| - |update|..] == update
    ensures Untouched(work, Register(Sp)) && Untouched(work, Register(Hp))
    ensures Untouched(work, Register(Cp)) && Untouched(work, Register(Fp))
  {
    LoweringLowered(cp, work, update);
    LoweringPerforms(cp, work, update, e, ww, w);
    ScratchWork(work, e.(writes := ww));
    EndsWithUpdate(cp, work, update);
  }

  /** A register that neither the work nor the update may write is left alone by the lowering. */
  lemma LeftAlone(cp: Word, work: Pieces, update: Pieces, ew: Effects, eu: Effects, reg: URegister)
    requires Performs(work, ew) && Performs(update, eu) && reg !in ew.writes && reg !in eu.writes
    ensures Untouched(Lowering(cp, work, update), Register(reg))
  {
    PerformsMeaning(work, ew, Register(reg));
    PerformsMeaning(update, eu, Register(reg));
    FromUpdate(cp, work, update, reg);
  }

  /** The lowering of a straight-line instruction: work built for `cp` that writes only the scratch
      registers `ww`, then an update that steps the registers forward, make a lowered code within `e`
      that steps the registers forward. */
  lemma StraightLowering(cp: Word, work: Pieces, update: Pieces, e: Effects, ww: set<URegister>, w: set<URegister>, sp: int, hp: int)
    requires Built(work, cp) && Performs(work, e.(writes := ww)) && ww <= Scratch && ww <= e.writes
    requires Built(update, cp) && Performs(update, Effects(w, map[], map[])) && w <= e.writes
    requires StepsForward(update, cp, sp, hp)
    ensures var ps := Lowering(cp, work, update);
            Lowered(ps, cp) && Performs(ps, e) && StepsForward(ps, cp, sp, hp)
  {
    WorkThenUpdate(cp, work, update, e, ww, w);
    MovesFromUpdate(cp, work, update, Sp, sp);
    MovesFromUpdate(cp, work, update, Hp, hp);
    MovesFromUpdate(cp, work, update, Cp, 1);
    FromUpdate(cp, work, update, Fp);
  }

  // ---------------------------------------------------------------------------------------------
  // The register updates of the straight-line instructions

  /** `cp := cp + 1`. */
  function NextCp(cp: Word): Pieces {
    [[Bump(cp, Add, Cp, 1)]]
  }

  /** `sp := sp op k`, then `cp := cp + 1`. */
  function SpNext(cp: Word, op: BinaryOp, k: Int32): Pieces {
    [[Bump(cp, op, Sp, k)], [Bump(cp, Add, Cp, 1)]]
  }

  /** `hp := hp + k`, then `cp := cp + 1`. */
  function HpNext(cp: Word, k: Int32): Pieces {
    [[Bump(cp, Add, Hp, k)], [Bump(cp, Add, Cp, 1)]]
  }

  /** `hp := hp + hp'`, `sp := sp - sp'`, then `cp := cp + 1`. */
  function HpSpNext(cp: Word, hp: Int32, sp: Int32): Pieces {
    [[Bump(cp, Add, Hp, hp)], [Bump(cp, Sub, Sp, sp)], [Bump(cp, Add, Cp, 1)]]
  }

  /** `sp := sp - sp'`, `hp := hp + hp'`, then `cp := cp + 1`. */
  function SpHpNext(cp: Word, sp: Int32, hp: Int32): Pieces {
    [[Bump(cp, Sub, Sp, sp)], [Bump(cp, Add, Hp, hp)], [Bump(cp, Add, Cp, 1)]]
  }

  /** A guarded, single-`cp` display of single instructions. */
  lemma SinglesBuilt(ps: Pieces, cp: Word)
    requires forall k | 0 <= k < |ps| :: |ps[k]| == 1 && ps[k][0].cp == cp && !ps[k][0].UGet? && !ps[k][0].USet?
    ensures Built(ps, cp)
  {
    forall k | 0 <= k < |ps| ensures Guarded(ps[k]) && AllAt(ps[k], cp) {
      assert AccessGuarded(ps[k], 0);
    }
  }

  /** `NextCp` moves only `cp`, by one. */
  lemma NextCpSteps(cp: Word)
    ensures Built(NextCp(cp), cp) && Performs(NextCp(cp), Effects({Cp}, map[], map[]))
    ensures StepsForward(NextCp(cp), cp, 0, 0)
  {
    SinglesBuilt(NextCp(cp), cp);
    assert OnlyAt(NextCp(cp), Register(Cp), 0, 0);
  }

  /** `SpNext` moves `sp` by `k` (`-k` for `Sub`) and `cp` by one. */
  lemma SpNextSteps(cp: Word, op: BinaryOp, k: Int32)
    requires op == Add || op == Sub
    ensures Built(SpNext(cp, op, k), cp) && Performs(SpNext(cp, op, k), Effects({Sp, Cp}, map[], map[]))
    ensures StepsForward(SpNext(cp, op, k), cp, if op == Add then k as int else 0 - k as int, 0)
  {
    var ps := SpNext(cp, op, k);
    SinglesBuilt(ps, cp);
    assert OnlyAt(ps, Register(Sp), 0, 0);
    assert OnlyAt(ps, Register(Cp), 1, 0);
  }

  /** `HpNext` moves `hp` by `k` and `cp` by one. */
  lemma HpNextSteps(cp: Word, k: Int32)
    ensures Built(HpNext(cp, k), cp) && Performs(HpNext(cp, k), Effects({Hp, Cp}, map[], map[]))
    ensures StepsForward(HpNext(cp, k), cp, 0, k)
  {
    var ps := HpNext(cp, k);
    SinglesBuilt(ps, cp);
    assert OnlyAt(ps, Register(Hp), 0, 0);
    assert OnlyAt(ps, Register(Cp), 1, 0);
  }

  /** `HpSpNext` is built for `cp` and writes `sp`, `hp` and `cp`. */
  lemma HpSpNextOk(cp: Word, hp: Int32, sp: Int32)
    ensures Built(HpSpNext(cp, hp, sp), cp) && Performs(HpSpNext(cp, hp, sp), Effects({Sp, Hp, Cp}, map[], map[]))
  {
    SinglesBuilt(HpSpNext(cp, hp, sp), cp);
  }

  /** `HpSpNext` moves `hp` by `hp'`, `sp` by `-sp'` and `cp` by one. */
  lemma HpSpNextSteps(cp: Word, hp: Int32, sp: Int32)
    ensures StepsForward(HpSpNext(cp, hp, sp), cp, 0 - sp as int, hp)
  {
    var ps := HpSpNext(cp, hp, sp);
    assert OnlyAt(ps, Register(Hp), 0, 0);
    assert OnlyAt(ps, Register(Sp), 1, 0);
    assert OnlyAt(ps, Register(Cp), 2, 0);
  }

  /** `SpHpNext` is built for `cp` and writes `sp`, `hp` and `cp`. */
  lemma SpHpNextOk(cp: Word, sp: Int32, hp: Int32)
    ensures Built(SpHpNext(cp, sp, hp), cp) && Performs(SpHpNext(cp, sp, hp), Effects({Sp, Hp, Cp}, map[], map[]))
  {
    SinglesBuilt(SpHpNext(cp, sp, hp), cp);
  }

  /** `SpHpNext` moves `sp` by `-sp'`, `hp` by `hp'` and `cp` by one. */
  lemma SpHpNextSteps(cp: Word, sp: Int32, hp: Int32)
    ensures StepsForward(SpHpNext(cp, sp, hp), cp, 0 - sp as int, hp)
  {
    var ps := SpHpNext(cp, sp, hp);
    assert OnlyAt(ps, Register(Sp), 0, 0);
    assert OnlyAt(ps, Register(Hp), 1, 0);
    assert OnlyAt(ps, Register(Cp), 2, 0);
  }
}
