/** `BMkClosure::getUInstructions`: the one lowering built by a loop. Its code is the label, the
    closure header and code index written at `hp`, one pair of copies per captured variable, the
    closure's `HeapIndex` pointer stored over the lowest captured slot, and the update of the
    registers. */
module UClosureLowering {
  import opened Words
  import opened TaggedMemory
  import opened Machine
  import opened BCode
  import opened UCode
  import opened Interpreter
  import opened LoweringShape

  /** The copy of half `t` of captured variable `i`: stack slot `sp - 1 - i` to heap cell `hp + 2 + i`. */
  function Capture(cp: Word, i: nat, t: ItemPart): seq<UInstruction>
    requires i < INT_MAX - 1
  {
    MoveAndCheck(cp, R0, SP(-1 - i, t), HP(2 + i, t))
  }

  /** Pieces `p` and `p + 1` copy both halves of captured variable `i`. */
  predicate CopiedAt(ps: Pieces, cp: Word, i: int, p: int) {
    && 0 <= i < INT_MAX - 1
    && CopiesAt(ps, cp, SP(-1 - i, TagPart), HP(2 + i, TagPart), p)
    && CopiesAt(ps, cp, SP(-1 - i, ValPart), HP(2 + i, ValPart), p + 1)
  }

  /** Captured variable `i` is copied by the two pieces at `base + 2 * i`. */
  predicate CopiedFrom(ps: Pieces, cp: Word, base: int, i: int) {
    CopiedAt(ps, cp, i, base + 2 * i)
  }

  /** Some two pieces copy both halves of captured variable `i` from the stack to the closure. */
  ghost predicate Captures(ps: Pieces, cp: Word, i: int) {
    exists p :: CopiedAt(ps, cp, i, p)
  }

  /** The body of the capture loop run `n` times, one piece per `UMoveAndCheck`: for each `i` below
      `n`, in order, the tag and then the value of the variable `i` slots below the top go to heap
      cell `2 + i`. */
  function ClosureMoves(cp: Word, n: nat): (r: Pieces)
    requires n < INT_MAX
    ensures |r| == 2 * n
    ensures forall i | 0 <= i < n :: CopiedFrom(r, cp, 0, i)
    ensures Built(r, cp)
  {
    if n == 0 then []
    else
      var init := ClosureMoves(cp, n - 1);
      var r := init + [Capture(cp, n - 1, TagPart), Capture(cp, n - 1, ValPart)];
      assert forall k | 0 <= k < |init| :: r[k] == init[k];
      assert CopiedFrom(r, cp, 0, n - 1);
      assert forall i | 0 <= i < n - 1 :: CopiedFrom(init, cp, 0, i) ==> CopiedFrom(r, cp, 0, i);
      r
  }

  /** The cells the capture loop run `n` times stores to, both halves of `hp + 2` to `hp + 1 + n`,
      each from `r0`. */
  function CellStores(n: nat): (m: map<ULocation, UOperand>)
    requires n < INT_MAX
    ensures forall l | l in m :: l.LocHeap? && l.reg == Hp && 2 <= l.offset < 2 + n && m[l] == Reg(R0)
    ensures forall i | 2 <= i < 2 + n :: HP(i, TagPart) in m && HP(i, ValPart) in m
  {
    if n == 0 then map[]
    else
      var m := CellStores(n - 1)[HP(1 + n, TagPart) := Reg(R0)][HP(1 + n, ValPart) := Reg(R0)];
      assert HP(1 + n, TagPart) in m && HP(1 + n, ValPart) in m;
      m
  }

  /** What the capture loop run `n` times may do: write `r0` and store it to the cells. */
  function MovesEffects(n: nat): Effects
    requires n < INT_MAX
  {
    Effects({R0}, CellStores(n), map[])
  }

  /** The effects of the loop run `n - 1` times are within those of the loop run `n` times. */
  lemma MovesGrow(n: nat)
    requires 0 < n < INT_MAX
    ensures Within(MovesEffects(n - 1), MovesEffects(n))
  {
  }

  /** The last iteration of the loop run `n` times is built and stores only the last cell. */
  lemma LastMoves(cp: Word, n: nat)
    requires 0 < n < INT_MAX
    ensures var last := [Capture(cp, n - 1, TagPart), Capture(cp, n - 1, ValPart)];
            Built(last, cp) && Performs(last, MovesEffects(n))
  {
    var m := CellStores(n);
    assert HP(1 + n, TagPart) in m && HP(1 + n, ValPart) in m;
  }

  /** The capture loop run `n` times stores only the captured variables, through `r0`. */
  lemma {:induction false} ClosureMovesEffects(cp: Word, n: nat)
    requires n < INT_MAX
    ensures Performs(ClosureMoves(cp, n), MovesEffects(n))
  {
    if n > 0 {
      var init := ClosureMoves(cp, n - 1);
      var last := [Capture(cp, n - 1, TagPart), Capture(cp, n - 1, ValPart)];
      ClosureMovesEffects(cp, n - 1);
      MovesGrow(n);
      PerformsWithin(init, MovesEffects(n - 1), MovesEffects(n));
      LastMoves(cp, n);
      JoinPerforms(init, last, MovesEffects(n), cp);
    }
  }

  /** The header written before the loop: a closure header of length `2 + size` and the code index
      `location` at `hp`. Both immediates are `size_t` values converted to `int`. */
  function ClosureHead(cp: Word, location: Word, size: Word): Pieces {
    [ SetAndCheck(cp, HP(0, TagPart), TagImm(ClosureHeader)),
      SetAndCheck(cp, HP(0, ValPart), IntImm(ToInt(2 + size))),
      SetAndCheck(cp, HP(1, TagPart), TagImm(CodeIndex)),
      SetAndCheck(cp, HP(1, ValPart), IntImm(ToInt(location))) ]
  }

  /** The stores of the header. */
  function HeadStores(location: Word, size: Word): map<ULocation, UOperand> {
    map[HP(0, TagPart) := TagImm(ClosureHeader), HP(0, ValPart) := IntImm(ToInt(2 + size)),
        HP(1, TagPart) := TagImm(CodeIndex), HP(1, ValPart) := IntImm(ToInt(location))]
  }

  /** The slot the closure's pointer goes to: `SP(-size_)`, the `size_t` negation of `size` read as
      an `int`. */
  function PointerSlot(size: Word): Int32 {
    ToInt(0 - size)
  }

  /** The work after the loop: a `HeapIndex` pointer to `hp` over the lowest captured slot. */
  function ClosureTail(cp: Word, size: Word): Pieces {
    [MakeHeapPointer(cp, SP(PointerSlot(size), ValPart), HeapIndex)]
  }

  /** The stores of the pointer. */
  function TailStores(size: Word): map<ULocation, UOperand> {
    map[SP(PointerSlot(size), TagPart) := TagImm(HeapIndex), SP(PointerSlot(size), ValPart) := Reg(Hp)]
  }

  /** All of `BMkClosure`'s work on memory, in builder order. */
  function ClosureWork(cp: Word, location: Word, size: Word): Pieces
    requires size < INT_MAX
  {
    ClosureHead(cp, location, size) + ClosureMoves(cp, size) + ClosureTail(cp, size)
  }

  /** The register update: `sp -= size - 1`, `hp += size + 2`, `cp += 1`, each immediate a `size_t`
      read as an `int`. */
  function ClosureUpdate(cp: Word, size: Word): Pieces {
    SpHpNext(cp, ToInt(size - 1), ToInt(size + 2))
  }

  /** The pieces of `BMkClosure::getUInstructions`. */
  function MkClosurePieces(cp: Word, location: Word, size: Word): Pieces
    requires size < INT_MAX
  {
    Lowering(cp, ClosureWork(cp, location, size), ClosureUpdate(cp, size))
  }

  /** What `BMkClosure`'s code may do: write `r0`, `sp`, `hp` and `cp`; store the header, the
      captured variables and the pointer; check no tag. */
  function MkClosureEffects(location: Word, size: Word): Effects
    requires size < INT_MAX
  {
    Effects({R0, Sp, Hp, Cp}, HeadStores(location, size) + CellStores(size) + TailStores(size), map[])
  }

  /** With fewer than `INT_MAX` captured variables the pointer slot is `-size` and the `sp`
      immediate `size - 1`; the `hp` immediate and the header length are `size + 2` unless that
      exceeds `INT_MAX`, which happens for `size = INT_MAX - 1` only and wraps to `INT_MIN`. */
  lemma ClosureImmediates(size: Word)
    requires size < INT_MAX
    ensures PointerSlot(size) == 0 - size as int && ToInt(size - 1) == size - 1
    ensures size <= INT_MAX - 2 ==> ToInt(size + 2) == size + 2
    ensures size == INT_MAX - 1 ==> ToInt(size + 2) == INT_MIN
  {
    ToIntOfInt32(0 - size);
    ToIntOfInt32(size - 1);
    if size <= INT_MAX - 2 {
      ToIntOfInt32(size + 2);
    }
    if size == INT_MAX - 1 {
      ToIntUnique(size + 2, INT_MIN);
    }
  }

  /** The header's stores are among `BMkClosure`'s. */
  lemma HeadWithin(location: Word, size: Word)
    requires size < INT_MAX
    ensures Within(Effects({}, HeadStores(location, size), map[]), MkClosureEffects(location, size).(writes := {R0}))
  {
    var h, c, t := HeadStores(location, size), CellStores(size), TailStores(size);
    forall l | l in h ensures l in h + c + t && (h + c + t)[l] == h[l] {
      assert l !in c && l !in t;
    }
  }

  lemma HeadPerforms(cp: Word, location: Word, size: Word)
    ensures Built(ClosureHead(cp, location, size), cp)
    ensures Performs(ClosureHead(cp, location, size), Effects({}, HeadStores(location, size), map[]))
  {
  }

  lemma ClosureHeadOk(cp: Word, location: Word, size: Word)
    requires size < INT_MAX
    ensures Built(ClosureHead(cp, location, size), cp)
    ensures Performs(ClosureHead(cp, location, size), MkClosureEffects(location, size).(writes := {R0}))
  {
    HeadPerforms(cp, location, size);
    HeadWithin(location, size);
    PerformsWithin(ClosureHead(cp, location, size), Effects({}, HeadStores(location, size), map[]),
                   MkClosureEffects(location, size).(writes := {R0}));
  }

  /** The pointer's stores are among `BMkClosure`'s. */
  lemma TailWithin(location: Word, size: Word)
    requires size < INT_MAX
    ensures Within(Effects({}, TailStores(size), map[]), MkClosureEffects(location, size).(writes := {R0}))
  {
  }

  lemma TailPerforms(cp: Word, size: Word)
    ensures Built(ClosureTail(cp, size), cp)
    ensures Performs(ClosureTail(cp, size), Effects({}, TailStores(size), map[]))
  {
  }

  lemma ClosureTailOk(cp: Word, location: Word, size: Word)
    requires size < INT_MAX
    ensures Built(ClosureTail(cp, size), cp)
    ensures Performs(ClosureTail(cp, size), MkClosureEffects(location, size).(writes := {R0}))
  {
    TailPerforms(cp, size);
    TailWithin(location, size);
    PerformsWithin(ClosureTail(cp, size), Effects({}, TailStores(size), map[]),
                   MkClosureEffects(location, size).(writes := {R0}));
  }

  lemma ClosureMovesOk(cp: Word, location: Word, size: Word)
    requires size < INT_MAX
    ensures Performs(ClosureMoves(cp, size), MkClosureEffects(location, size).(writes := {R0}))
  {
    var e := MkClosureEffects(location, size).(writes := {R0});
    ClosureMovesEffects(cp, size);
    PerformsWithin(ClosureMoves(cp, size), MovesEffects(size), e);
  }

  lemma ClosureWorkOk(cp: Word, location: Word, size: Word)
    requires size < INT_MAX
    ensures Built(ClosureWork(cp, location, size), cp)
    ensures Performs(ClosureWork(cp, location, size), MkClosureEffects(location, size).(writes := {R0}))
  {
    var e := MkClosureEffects(location, size).(writes := {R0});
    var head, moves, tail := ClosureHead(cp, location, size), ClosureMoves(cp, size), ClosureTail(cp, size);
    ClosureHeadOk(cp, location, size);
    ClosureMovesOk(cp, location, size);
    ClosureTailOk(cp, location, size);
    JoinPerforms(head, moves, e, cp);
    JoinPerforms(head + moves, tail, e, cp);
  }

  lemma ClosureUpdateOk(cp: Word, location: Word, size: Word)
    requires size < INT_MAX
    ensures var update := ClosureUpdate(cp, size);
            && Built(update, cp) && Performs(update, Effects({Sp, Hp, Cp}, map[], map[]))
            && StepsForward(update, cp, SpDelta(BMkClosure(cp, location, size)), ToInt(size + 2))
  {
    ClosureImmediates(size);
    SpHpNextOk(cp, ToInt(size - 1), ToInt(size + 2));
    SpHpNextSteps(cp, ToInt(size - 1), ToInt(size + 2));
  }

  lemma MkClosureSteps(cp: Word, location: Word, size: Word)
    requires size < INT_MAX
    ensures var ps := MkClosurePieces(cp, location, size);
            && Lowered(ps, cp) && Performs(ps, MkClosureEffects(location, size))
            && StepsForward(ps, cp, SpDelta(BMkClosure(cp, location, size)), ToInt(size + 2))
  {
    var work, update := ClosureWork(cp, location, size), ClosureUpdate(cp, size);
    ClosureWorkOk(cp, location, size);
    ClosureUpdateOk(cp, location, size);
    StraightLowering(cp, work, update, MkClosureEffects(location, size), {R0}, {Sp, Hp, Cp},
                     SpDelta(BMkClosure(cp, location, size)), ToInt(size + 2));
  }

  lemma ClosureWorkFacts(cp: Word, location: Word, size: Word)
    requires size < INT_MAX
    ensures var work := ClosureWork(cp, location, size);
            && StoreAt(work, HP(0, TagPart), TagImm(ClosureHeader), 0, 1)
            && StoreAt(work, HP(0, ValPart), IntImm(ToInt(2 + size)), 1, 1)
            && StoreAt(work, HP(1, TagPart), TagImm(CodeIndex), 2, 1)
            && StoreAt(work, HP(1, ValPart), IntImm(ToInt(location)), 3, 1)
            && StoreAt(work, SP(PointerSlot(size), TagPart), TagImm(HeapIndex), 4 + 2 * size, 1)
            && StoreAt(work, SP(PointerSlot(size), ValPart), Reg(Hp), 4 + 2 * size, 3)
  {
    var head, moves, tail := ClosureHead(cp, location, size), ClosureMoves(cp, size), ClosureTail(cp, size);
    var work := ClosureWork(cp, location, size);
    assert work[4 + 2 * size] == tail[0];
    assert forall k | 0 <= k < 4 :: work[k] == head[k];
  }

  lemma ClosureWorkCaptures(cp: Word, location: Word, size: Word)
    requires size < INT_MAX
    ensures forall i | 0 <= i < size :: CopiedFrom(ClosureWork(cp, location, size), cp, 4, i)
  {
    var head, moves, tail := ClosureHead(cp, location, size), ClosureMoves(cp, size), ClosureTail(cp, size);
    var work := ClosureWork(cp, location, size);
    forall i | 0 <= i < size ensures CopiedFrom(work, cp, 4, i) {
      assert CopiedFrom(moves, cp, 0, i);
      assert work[4 + 2 * i] == moves[2 * i];
      assert work[4 + 2 * i + 1] == moves[2 * i + 1];
    }
  }

  lemma MkClosureCaptures(cp: Word, location: Word, size: Word)
    requires size < INT_MAX
    ensures forall i | 0 <= i < size :: Captures(MkClosurePieces(cp, location, size), cp, i)
  {
    var work, update := ClosureWork(cp, location, size), ClosureUpdate(cp, size);
    var ps := MkClosurePieces(cp, location, size);
    ClosureWorkCaptures(cp, location, size);
    LoweringIndex(cp, work, update);
    forall i | 0 <= i < size ensures Captures(ps, cp, i) {
      assert CopiedFrom(work, cp, 4, i);
      assert ps[5 + 2 * i] == work[4 + 2 * i];
      assert ps[5 + 2 * i + 1] == work[4 + 2 * i + 1];
      assert CopiedAt(ps, cp, i, 5 + 2 * i);
    }
  }

  lemma MkClosureKeeps(cp: Word, location: Word, size: Word)
    requires size < INT_MAX
    ensures var ps := MkClosurePieces(cp, location, size);
            && Stores(ps, HP(0, TagPart), TagImm(ClosureHeader))
            && Stores(ps, HP(0, ValPart), IntImm(ToInt(2 + size)))
            && Stores(ps, HP(1, TagPart), TagImm(CodeIndex))
            && Stores(ps, HP(1, ValPart), IntImm(ToInt(location)))
            && Stores(ps, SP(PointerSlot(size), TagPart), TagImm(HeapIndex))
            && Stores(ps, SP(PointerSlot(size), ValPart), Reg(Hp))
  {
    var work, update := ClosureWork(cp, location, size), ClosureUpdate(cp, size);
    ClosureWorkFacts(cp, location, size);
    KeptStore(cp, work, update, HP(0, TagPart), TagImm(ClosureHeader), 0, 1);
    KeptStore(cp, work, update, HP(0, ValPart), IntImm(ToInt(2 + size)), 1, 1);
    KeptStore(cp, work, update, HP(1, TagPart), TagImm(CodeIndex), 2, 1);
    KeptStore(cp, work, update, HP(1, ValPart), IntImm(ToInt(location)), 3, 1);
    KeptStore(cp, work, update, SP(PointerSlot(size), TagPart), TagImm(HeapIndex), 4 + 2 * size, 1);
    KeptStore(cp, work, update, SP(PointerSlot(size), ValPart), Reg(Hp), 4 + 2 * size, 3);
  }

  /** `BMkClosure` lowers to code that writes the closure header of length `2 + size` and the code
      index at `hp`, copies each captured variable `i` (both halves) from `sp - 1 - i` to `hp + 2 + i`,
      stores a `HeapIndex` to `hp` at `sp - size`, moves `sp` by `1 - size` and `hp` by the `int`
      reading of `size + 2`, and goes on to `cp + 1`, storing nowhere else. */
  lemma MkClosureLowering(cp: Word, location: Word, size: Word)
    requires size < INT_MAX
    ensures var ps := MkClosurePieces(cp, location, size);
            && Lowered(ps, cp) && Performs(ps, MkClosureEffects(location, size))
            && StepsForward(ps, cp, SpDelta(BMkClosure(cp, location, size)), ToInt(size + 2))
            && Stores(ps, HP(0, TagPart), TagImm(ClosureHeader))
            && Stores(ps, HP(0, ValPart), IntImm(ToInt(2 + size)))
            && Stores(ps, HP(1, TagPart), TagImm(CodeIndex))
            && Stores(ps, HP(1, ValPart), IntImm(ToInt(location)))
            && Stores(ps, SP(PointerSlot(size), TagPart), TagImm(HeapIndex))
            && Stores(ps, SP(PointerSlot(size), ValPart), Reg(Hp))
            && (forall i | 0 <= i < size :: Captures(ps, cp, i))
  {
    MkClosureSteps(cp, location, size);
    MkClosureKeeps(cp, location, size);
    MkClosureCaptures(cp, location, size);
  }

  /** One more iteration of the capture loop appends its two copies to the code. */
  lemma MovesStep(prefix: Pieces, cp: Word, i: nat)
    requires i + 1 < INT_MAX
    ensures Flatten(prefix + ClosureMoves(cp, i + 1))
            == Flatten(prefix + ClosureMoves(cp, i)) + Capture(cp, i, TagPart) + Capture(cp, i, ValPart)
  {
    var pair := [Capture(cp, i, TagPart), Capture(cp, i, ValPart)];
    assert prefix + ClosureMoves(cp, i + 1) == (prefix + ClosureMoves(cp, i)) + pair;
    FlattenJoin(prefix + ClosureMoves(cp, i), pair);
    assert Flatten(pair) == pair[0] + pair[1] by {
      assert pair[..1] == [pair[0]];
      assert Flatten([pair[0]]) == pair[0] by { assert [pair[0]][..0] == []; }
    }
  }

  /** `BMkClosure::getUInstructions` as written: the header, then the capture loop appending one
      builder's code per captured variable, then the pointer and the register update. */
  method MkClosureUInstructions(cp: Word, location: Word, size: Word) returns (code: seq<UInstruction>)
    requires size < INT_MAX
    ensures code == Flatten(MkClosurePieces(cp, location, size))
  {
    var prefix := [[ULabel(cp)]] + ClosureHead(cp, location, size);
    code := Flatten(prefix);
    assert prefix + ClosureMoves(cp, 0) == prefix;
    var i := 0;
    while i < size
      invariant 0 <= i <= size
      invariant code == Flatten(prefix + ClosureMoves(cp, i))
    {
      MovesStep(prefix, cp, i);
      code := code + Capture(cp, i, TagPart) + Capture(cp, i, ValPart);
      i := i + 1;
    }
    var rest := ClosureTail(cp, size) + ClosureUpdate(cp, size);
    FlattenJoin(prefix + ClosureMoves(cp, size), rest);
    assert MkClosurePieces(cp, location, size) == (prefix + ClosureMoves(cp, size)) + rest;
    code := code + Flatten(rest);
  }
}
