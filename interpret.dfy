/** The interpreter of B-code: what `interpret` does to a `VirtualMachine` for each B-instruction.
    Each instruction is a function from the machine's value to a `Run` (the state it reaches and
    whether it threw), and a method on the machine object proved to have exactly that effect. */
module Interpreter {
  import opened Wrappers
  import opened Words
  import opened Exceptions
  import opened TaggedMemory
  import opened Machine
  import opened BCode

  /** The item `get(idx)` returns when it succeeds: the cell, or a fresh blank cell when the
      memory had to grow to reach `idx`. */
  function Peek(m: MemState, idx: nat): Item {
    if idx < |m.items| then m.items[idx] else Blank
  }

  /** A memory that only grew still peeks the same item everywhere. */
  lemma PeekExtends(m: MemState, n: MemState, idx: nat)
    requires Extends(m.items, n.items)
    ensures Peek(n, idx) == Peek(m, idx)
  {
  }

  /** A successful `get` returns `Peek`. */
  lemma GetPeek(m: MemState, idx: nat)
    requires m.Get(idx).1.Success?
    ensures m.Get(idx).1.value == Peek(m, idx)
  {
    CheckSizeExtends(m, idx);
  }

  /** `static_cast<bool>` read back into a word: 1 for true, 0 for false. */
  function BoolWord(b: bool): (w: Word)
    ensures w != 0 <==> b
  {
    if b then 1 else 0
  }

  /** The item `BUnary` writes over its operand, or `None` when the operand's tag does not suit the
      operation; `input` is the integer `RuntimeSystem::readInt` supplies to `Read`. */
  function UnaryValue(op: UnaryOp, a: Item, input: Int32): Option<Item> {
    if op == Not && a.tag == Bool then Some(Item(Bool, BoolWord(a.value == 0)))
    else if op == Neg && a.tag == Int then Some(Item(Int, Wrap(ToInt(-(ToInt(a.value) as int)))))
    else if op == Read && a.tag == Unit then Some(Item(Int, Wrap(input)))
    else None
  }

  /** `Not` negates a boolean, `Neg` negates an `int` (with wrap-around) and `Read` stores the
      input over a `()`; every other operand throws. */
  lemma UnaryValueMeaning(op: UnaryOp, a: Item, input: Int32)
    ensures var r := UnaryValue(op, a, input);
            && (r.Some? <==> (op == Not && a.tag == Bool) || (op == Neg && a.tag == Int) || (op == Read && a.tag == Unit))
            && (r.Some? && op == Not ==> r.value.tag == Bool && (r.value.value != 0 <==> a.value == 0))
            && (r.Some? && op != Not ==> r.value.tag == Int)
            && (r.Some? && op == Neg ==> ToInt(r.value.value) == ToInt(-(ToInt(a.value) as int)))
            && (r.Some? && op == Read ==> ToInt(r.value.value) == input)
  {
    ToIntOfWrap(ToInt(-(ToInt(a.value) as int)));
    ToIntOfWrap(input);
  }

  /** The operands on which `int` division is undefined behaviour in C++: a zero `int` whose word
      is not zero (the word is tested before the cast), and the quotient `INT_MIN / -1`. */
  predicate DivDefined(a: Item, b: Item) {
    !(a.tag == Int && b.tag == Int && b.value != 0) ||
    (ToInt(b.value) != 0 && !(ToInt(a.value) == INT_MIN && ToInt(b.value) == -1))
  }

  /** The item `BOper` writes over its first operand, or `None` when it throws. Arithmetic is
      done on the `int` casts of the words; its signed overflow is taken to wrap. */
  function OperValue(op: BinaryOp, a: Item, b: Item): Option<Item>
    requires op == Div ==> DivDefined(a, b)
  {
    var x: int, y: int := ToInt(a.value), ToInt(b.value);
    match op
    case And =>
      if a.tag == Bool && b.tag == Bool then Some(Item(Bool, BoolWord(a.value != 0 && b.value != 0))) else None
    case Or =>
      if a.tag == Bool && b.tag == Bool then Some(Item(Bool, BoolWord(a.value != 0 || b.value != 0))) else None
    case Eq =>
      if a.tag == Unit && b.tag == Unit then Some(Item(Bool, 1))
      else if a.tag == b.tag then Some(Item(Bool, BoolWord(x == y)))
      else Some(Item(Bool, 0))
    case Lt =>
      if a.tag == Int && b.tag == Int then Some(Item(Bool, BoolWord(x < y))) else None
    case Add =>
      if a.tag == Int && b.tag == Int then Some(Item(Int, Wrap(ToInt(x + y)))) else None
    case Sub =>
      if a.tag == Int && b.tag == Int then Some(Item(Int, Wrap(ToInt(x - y)))) else None
    case Mul =>
      if a.tag == Int && b.tag == Int then Some(Item(Int, Wrap(ToInt(x * y)))) else None
    case Div =>
      if a.tag == Int && b.tag == Int && b.value != 0 then Some(Item(Int, Wrap(ToInt(TruncDiv(x, y)))))
      else None
  }

  /** `BOper`'s operations: `And`/`Or` on booleans, `Eq` on any two items (equal tags, and equal
      `int` casts unless both are `()`), and `Lt` and the arithmetic on `int`s, whose results are
      the 32-bit results of the `int` casts; `Div` also throws on a zero word. */
  lemma OperValueMeaning(op: BinaryOp, a: Item, b: Item)
    requires op == Div ==> DivDefined(a, b)
    ensures var r := OperValue(op, a, b);
            && (r.Some? <==>
                  || (op in {And, Or} && a.tag == Bool && b.tag == Bool)
                  || op == Eq
                  || (op in {Lt, Add, Sub, Mul} && a.tag == Int && b.tag == Int)
                  || (op == Div && a.tag == Int && b.tag == Int && b.value != 0))
            && (r.Some? && op in {And, Or, Eq, Lt} ==> r.value.tag == Bool)
            && (r.Some? && op in {Add, Sub, Mul, Div} ==> r.value.tag == Int)
            && (r.Some? && op == And ==> (r.value.value != 0 <==> a.value != 0 && b.value != 0))
            && (r.Some? && op == Or ==> (r.value.value != 0 <==> a.value != 0 || b.value != 0))
            && (r.Some? && op == Eq ==>
                  (r.value.value != 0 <==> a.tag == b.tag && (a.tag == Unit || ToInt(a.value) == ToInt(b.value))))
            && (r.Some? && op == Lt ==> (r.value.value != 0 <==> ToInt(a.value) < ToInt(b.value)))
            && (r.Some? && op == Add ==> ToInt(r.value.value) == ToInt(ToInt(a.value) as int + ToInt(b.value)))
            && (r.Some? && op == Sub ==> ToInt(r.value.value) == ToInt(ToInt(a.value) as int - ToInt(b.value)))
            && (r.Some? && op == Mul ==> ToInt(r.value.value) == ToInt(ToInt(a.value) as int * ToInt(b.value)))
            && (r.Some? && op == Div ==> ToInt(r.value.value) == ToInt(TruncDiv(ToInt(a.value), ToInt(b.value))))
  {
    var x: int, y: int := ToInt(a.value), ToInt(b.value);
    match op
    case Add => ToIntOfWrap(ToInt(x + y));
    case Sub => ToIntOfWrap(ToInt(x - y));
    case Mul => ToIntOfWrap(ToInt(x * y));
    case Div =>
      if a.tag == Int && b.tag == Int && b.value != 0 {
        ToIntOfWrap(ToInt(TruncDiv(x, y)));
      }
    case _ =>
  }

  /** The item `BPush` places on the stack. */
  function PushItem(tag: PushTag, value: Int32): Item {
    match tag
    case Unit => Item(Unit, 0)
    case Bool => Item(Bool, BoolWord(value != 0))
    case Int => Item(Int, Wrap(value))
  }

  /** A literal keeps its tag; `()` is 0, a boolean is 1 or 0 as the literal is non-zero, and an
      `int` is stored so that its cast reads back the literal. */
  lemma PushItemMeaning(tag: PushTag, value: Int32)
    ensures var r := PushItem(tag, value);
            && r.tag == tag
            && (tag == Unit ==> r.value == 0)
            && (tag == Bool ==> (r.value != 0 <==> value != 0) && r.value <= 1)
            && (tag == Int ==> ToInt(r.value) == value)
  {
    ToIntOfWrap(value);
  }


  // ---------------------------------------------------------------------------------------------
  // Accesses to cells that are already in range neither grow a memory nor throw.

  lemma StackGetIn(s: VMState, idx: Word)
    requires idx < |s.stack.items|
    ensures s.StackGet(idx) == Ok(s, s.stack.items[idx])
  {
  }

  lemma StackGetAndCheckIn(s: VMState, idx: Word, tag: Tag)
    requires idx < |s.stack.items|
    ensures s.StackGetAndCheck(idx, tag) ==
              if s.stack.items[idx].tag == tag then Ok(s, s.stack.items[idx]) else Err(s, RuntimeError)
  {
  }

  lemma StackSetIn(s: VMState, idx: Word, x: Item)
    requires idx < |s.stack.items|
    ensures s.StackSet(idx, x) == Ok(s.(stack := s.stack.(items := s.stack.items[idx := x])), ())
  {
  }

  lemma HeapGetIn(s: VMState, idx: Word)
    requires idx < |s.heap.items|
    ensures s.HeapGet(idx) == Ok(s, s.heap.items[idx])
  {
  }

  lemma HeapGetAndCheckIn(s: VMState, idx: Word, tag: Tag)
    requires idx < |s.heap.items|
    ensures s.HeapGetAndCheck(idx, tag) ==
              if s.heap.items[idx].tag == tag then Ok(s, s.heap.items[idx]) else Err(s, RuntimeError)
  {
  }

  lemma HeapCheckTagIn(s: VMState, idx: Word, tag: Tag)
    requires idx < |s.heap.items|
    ensures s.HeapCheckTag(idx, tag) == if s.heap.items[idx].tag == tag then Ok(s, ()) else Err(s, RuntimeError)
  {
  }

  lemma HeapSetIn(s: VMState, idx: Word, x: Item)
    requires idx < |s.heap.items|
    ensures s.HeapSet(idx, x) == Ok(s.(heap := s.heap.(items := s.heap.items[idx := x])), ())
  {
  }

  // ---------------------------------------------------------------------------------------------
  // The source statements that copy an item from one cell to another, `to.set(j, from.get(i))`.

  /** `heap.set(to, stack.get(from))`. */
  function StackToHeap(s: VMState, from: Word, to: Word): (r: Run<()>)
    ensures r.state.(stack := s.stack, heap := s.heap) == s
    ensures from < |s.stack.items| && to < |s.heap.items| ==>
              r == Ok(s.(heap := s.heap.(items := s.heap.items[to := s.stack.items[from]])), ())
  {
    match s.StackGet(from)
    case Err(t, e) => Err(t, e)
    case Ok(s1, x) =>
      s1.HeapSet(to, x)
  }

  /** `stack.set(to, heap.get(from))`. */
  function HeapToStack(s: VMState, from: Word, to: Word): (r: Run<()>)
    ensures r.state.(stack := s.stack, heap := s.heap) == s
    ensures from < |s.heap.items| && to < |s.stack.items| ==>
              r == Ok(s.(stack := s.stack.(items := s.stack.items[to := s.heap.items[from]])), ())
  {
    match s.HeapGet(from)
    case Err(t, e) => Err(t, e)
    case Ok(s1, x) =>
      s1.StackSet(to, x)
  }

  /** `stack.set(to, stack.get(from))`. */
  function StackToStack(s: VMState, from: Word, to: Word): (r: Run<()>)
    ensures r.state.(stack := s.stack) == s
    ensures from < |s.stack.items| && to < |s.stack.items| ==>
              r == Ok(s.(stack := s.stack.(items := s.stack.items[to := s.stack.items[from]])), ())
  {
    match s.StackGet(from)
    case Err(t, e) => Err(t, e)
    case Ok(s1, x) =>
      s1.StackSet(to, x)
  }

  // ---------------------------------------------------------------------------------------------
  // One function per instruction. `s.sp - 1` and the like are `size_t` arithmetic, hence `Wrap`.

  /** `BUnary::interpret`: replace the top of the stack by `UnaryValue`, or throw. */
  function UnaryStep(s: VMState, op: UnaryOp, input: Int32): (r: Run<()>)
    ensures r.state.heap == s.heap
    ensures r.Ok? ==> r.state.(stack := s.stack) == s.(cp := Wrap(s.cp + 1))
  {
    match s.StackGet(Wrap(s.sp - 1))
    case Err(t, e) => Err(t, e)
    case Ok(s1, a) =>
      match UnaryValue(op, a, input)
      case None => Err(s1, RuntimeError)
      case Some(item) =>
        match s1.StackSet(Wrap(s1.sp - 1), item)
        case Err(t, e) => Err(t, e)
        case Ok(s2, _) =>
          Ok(s2.(cp := Wrap(s2.cp + 1)), ())
  }

  /** On a non-empty stack, `BUnary` throws exactly when `UnaryValue` rejects the top item, and
      otherwise replaces it by `UnaryValue`'s result. */
  lemma UnaryInRange(s: VMState, op: UnaryOp, input: Int32)
    requires 0 < s.sp <= |s.stack.items|
    ensures var v := UnaryValue(op, s.stack.items[s.sp - 1], input);
            UnaryStep(s, op, input) ==
              if v.None? then Err(s, RuntimeError)
              else Ok(s.(stack := s.stack.(items := s.stack.items[s.sp - 1 := v.value]), cp := Wrap(s.cp + 1)), ())
  {
  }

  /** The precondition of `BOper`: the operands of a division are ones C++ defines. */
  predicate OperDefined(s: VMState, op: BinaryOp) {
    op == Div ==> DivDefined(Peek(s.stack, Wrap(s.sp - 2)), Peek(s.stack, Wrap(s.sp - 1)))
  }

  /** The two operands `BOper` reads are the ones `OperDefined` speaks of. */
  lemma OperandsPeeked(s: VMState, op: BinaryOp, s1: VMState, a: Item, s2: VMState, b: Item)
    requires OperDefined(s, op)
    requires s.StackGet(Wrap(s.sp - 2)) == Ok(s1, a)
    requires s1.StackGet(Wrap(s1.sp - 1)) == Ok(s2, b)
    ensures op == Div ==> DivDefined(a, b)
  {
    GetPeek(s.stack, Wrap(s.sp - 2));
    GetPeek(s1.stack, Wrap(s.sp - 1));
    CheckSizeExtends(s.stack, Wrap(s.sp - 2));
    PeekExtends(s.stack, s1.stack, Wrap(s.sp - 1));
  }

  /** `BOper::interpret`: replace the two top items by `OperValue` of them, or throw. */
  function OperStep(s: VMState, op: BinaryOp): (r: Run<()>)
    requires OperDefined(s, op)
    ensures r.state.heap == s.heap
    ensures r.Ok? ==> r.state.(stack := s.stack) == s.(sp := Wrap(s.sp - 1), cp := Wrap(s.cp + 1))
  {
    match s.StackGet(Wrap(s.sp - 2))
    case Err(s1, e) => Err(s1, e)
    case Ok(s1, a) =>
      match s1.StackGet(Wrap(s1.sp - 1))
      case Err(s2, e) => Err(s2, e)
      case Ok(s2, b) =>
        OperandsPeeked(s, op, s1, a, s2, b);
        OperWrite(s2, op, a, b)
  }

  /** The second half of `BOper::interpret`, once its operands `a` and `b` are read. */
  function OperWrite(s: VMState, op: BinaryOp, a: Item, b: Item): (r: Run<()>)
    requires op == Div ==> DivDefined(a, b)
    ensures r.state.heap == s.heap
    ensures r.Ok? ==> r.state.(stack := s.stack) == s.(sp := Wrap(s.sp - 1), cp := Wrap(s.cp + 1))
  {
    var v := OperValue(op, a, b);
    if v.None? then Err(s, RuntimeError)
    else
      match s.StackSet(Wrap(s.sp - 2), v.value)
      case Err(t, e) => Err(t, e)
      case Ok(s1, _) =>
        Ok(s1.(cp := Wrap(s1.cp + 1), sp := Wrap(s1.sp - 1)), ())
  }

  /** With two items on the stack, `BOper` throws exactly when `OperValue` rejects them, and
      otherwise replaces the lower one by the result and pops the upper one. */
  lemma OperInRange(s: VMState, op: BinaryOp)
    requires 2 <= s.sp <= |s.stack.items|
    requires OperDefined(s, op)
    ensures var v := OperValue(op, s.stack.items[s.sp - 2], s.stack.items[s.sp - 1]);
            OperStep(s, op) ==
              if v.None? then Err(s, RuntimeError)
              else Ok(s.(stack := s.stack.(items := s.stack.items[s.sp - 2 := v.value]),
                         sp := s.sp - 1, cp := Wrap(s.cp + 1)), ())
  {
    var a, b := s.stack.items[s.sp - 2], s.stack.items[s.sp - 1];
    StackGetIn(s, s.sp - 2);
    StackGetIn(s, s.sp - 1);
    assert OperStep(s, op) == OperWrite(s, op, a, b);
    var v := OperValue(op, a, b);
    if v.Some? {
      StackSetIn(s, s.sp - 2, v.value);
    }
  }

  /** `BMkPair::interpret`: build a pair of the two top items at `hp` and replace them by its index. */
  function MkPairStep(s: VMState): (r: Run<()>)
    ensures r.Ok? ==> r.state.(stack := s.stack, heap := s.heap) ==
                      s.(sp := Wrap(s.sp - 1), hp := Wrap(s.hp + 3), cp := Wrap(s.cp + 1))
  {
    match s.HeapSet(s.hp, Item(PairHeader, 3))
    case Err(t, e) => Err(t, e)
    case Ok(s1, _) => MkPairFill(s1)
  }

  /** The rest of `BMkPair::interpret` once the header is written: the first component, and on. */
  function MkPairFill(s: VMState): (r: Run<()>)
    ensures r.Ok? ==> r.state.(stack := s.stack, heap := s.heap) ==
                      s.(sp := Wrap(s.sp - 1), hp := Wrap(s.hp + 3), cp := Wrap(s.cp + 1))
  {
    match StackToHeap(s, Wrap(s.sp - 2), Wrap(s.hp + 1))
    case Err(t, e) => Err(t, e)
    case Ok(s1, _) => MkPairLink(s1)
  }

  /** The rest of `BMkPair::interpret` once the header and the first component are written: the
      second component, then the pair's index in place of the first. */
  function MkPairLink(s: VMState): (r: Run<()>)
    ensures r.Ok? ==> r.state.(stack := s.stack, heap := s.heap) ==
                      s.(sp := Wrap(s.sp - 1), hp := Wrap(s.hp + 3), cp := Wrap(s.cp + 1))
  {
    match StackToHeap(s, Wrap(s.sp - 1), Wrap(s.hp + 2))
    case Err(t, e) => Err(t, e)
    case Ok(s1, _) => PlaceIndex(s1, Wrap(s1.sp - 2), Wrap(s1.sp - 1), 3)
  }

  /** The last step of the allocating constructors: the index of the new object (at `hp`) goes to
      stack slot `slot`, `sp` becomes `newSp`, and `hp` moves past the object's `size` cells. */
  function PlaceIndex(s: VMState, slot: Word, newSp: Word, size: nat): (r: Run<()>)
    ensures r.state.heap == s.heap
    ensures r.Ok? ==> r.state.(stack := s.stack) == s.(sp := newSp, hp := Wrap(s.hp + size), cp := Wrap(s.cp + 1))
  {
    match s.StackSet(slot, Item(HeapIndex, s.hp))
    case Err(t, e) => Err(t, e)
    case Ok(s1, _) => Ok(s1.(sp := newSp, hp := Wrap(s1.hp + size), cp := Wrap(s1.cp + 1)), ())
  }

  /** With two items on the stack and room for three cells at `hp`, `BMkPair` never throws: the
      heap receives the header and the two items, and the stack the index of the pair. */
  lemma MkPairInRange(s: VMState)
    requires 2 <= s.sp <= |s.stack.items|
    requires s.hp + 3 <= |s.heap.items| && s.hp + 3 <= WORD_MODULUS
    ensures MkPairStep(s) ==
              Ok(s.(stack := s.stack.(items := s.stack.items[s.sp - 2 := Item(HeapIndex, s.hp)]),
                    heap := s.heap.(items := s.heap.items[s.hp := Item(PairHeader, 3)]
                                                         [s.hp + 1 := s.stack.items[s.sp - 2]]
                                                         [s.hp + 2 := s.stack.items[s.sp - 1]]),
                    sp := s.sp - 1, hp := Wrap(s.hp + 3), cp := Wrap(s.cp + 1)), ())
  {
    var s1 := s.(heap := s.heap.(items := s.heap.items[s.hp := Item(PairHeader, 3)]));
    var s2 := s1.(heap := s1.heap.(items := s1.heap.items[s.hp + 1 := s.stack.items[s.sp - 2]]));
    assert StackToHeap(s1, s.sp - 2, s.hp + 1) == Ok(s2, ());
  }

  /** `BFst::interpret` (`offset` 1) and `BSnd::interpret` (`offset` 2): replace the index of a pair
      on the top of the stack by one of its components. */
  function ProjectStep(s: VMState, offset: nat): (r: Run<()>)
    ensures r.Ok? ==> r.state.(stack := s.stack, heap := s.heap) == s.(cp := Wrap(s.cp + 1))
  {
    match s.StackGetAndCheck(Wrap(s.sp - 1), HeapIndex)
    case Err(t, e) => Err(t, e)
    case Ok(s1, index) => ProjectLoad(s1, index.value, offset)
  }

  /** The rest of `BFst`/`BSnd` once the index `v` is read: check the pair header, then load the component. */
  function ProjectLoad(s: VMState, v: Word, offset: nat): (r: Run<()>)
    ensures r.Ok? ==> r.state.(stack := s.stack, heap := s.heap) == s.(cp := Wrap(s.cp + 1))
  {
    match s.HeapCheckTag(v, PairHeader)
    case Err(t, e) => Err(t, e)
    case Ok(s1, _) =>
      match HeapToStack(s1, Wrap(v + offset), Wrap(s1.sp - 1))
      case Err(t, e) => Err(t, e)
      case Ok(s2, _) =>
        Ok(s2.(cp := Wrap(s2.cp + 1)), ())
  }

  /** `BFst`/`BSnd` throw when the top of the stack is not a heap index, or (with the pair in range)
      when it does not point to a pair header; otherwise the index is replaced by the component. */
  lemma ProjectInRange(s: VMState, offset: nat)
    requires offset == 1 || offset == 2
    requires 0 < s.sp <= |s.stack.items|
    ensures s.stack.items[s.sp - 1].tag != HeapIndex ==> ProjectStep(s, offset) == Err(s, RuntimeError)
    ensures var v := s.stack.items[s.sp - 1].value;
            s.stack.items[s.sp - 1].tag == HeapIndex && v + offset < |s.heap.items| && v + offset < WORD_MODULUS ==>
              ProjectStep(s, offset) ==
                if s.heap.items[v].tag != PairHeader then Err(s, RuntimeError)
                else Ok(s.(stack := s.stack.(items := s.stack.items[s.sp - 1 := s.heap.items[v + offset]]),
                           cp := Wrap(s.cp + 1)), ())
  {
  }

  /** `BMkInl::interpret` and `BMkInr::interpret`: wrap the top of the stack in a sum with `header`. */
  function InjectStep(s: VMState, header: Tag): (r: Run<()>)
    ensures r.Ok? ==> r.state.(stack := s.stack, heap := s.heap) == s.(hp := Wrap(s.hp + 2), cp := Wrap(s.cp + 1))
  {
    match s.HeapSet(s.hp, Item(header, 2))
    case Err(t, e) => Err(t, e)
    case Ok(s1, _) => InjectLink(s1)
  }

  /** The rest of `BMkInl`/`BMkInr` once the header is written: the payload, then the sum's index in its place. */
  function InjectLink(s: VMState): (r: Run<()>)
    ensures r.Ok? ==> r.state.(stack := s.stack, heap := s.heap) == s.(hp := Wrap(s.hp + 2), cp := Wrap(s.cp + 1))
  {
    match StackToHeap(s, Wrap(s.sp - 1), Wrap(s.hp + 1))
    case Err(t, e) => Err(t, e)
    case Ok(s1, _) => PlaceIndex(s1, Wrap(s1.sp - 1), s1.sp, 2)
  }

  /** With an item on the stack and room for two cells at `hp`, `BMkInl`/`BMkInr` never throw. */
  lemma InjectInRange(s: VMState, header: Tag)
    requires header == InlHeader || header == InrHeader
    requires 0 < s.sp <= |s.stack.items|
    requires s.hp + 2 <= |s.heap.items| && s.hp + 2 <= WORD_MODULUS
    ensures InjectStep(s, header) ==
              Ok(s.(stack := s.stack.(items := s.stack.items[s.sp - 1 := Item(HeapIndex, s.hp)]),
                    heap := s.heap.(items := s.heap.items[s.hp := Item(header, 2)][s.hp + 1 := s.stack.items[s.sp - 1]]),
                    hp := Wrap(s.hp + 2), cp := Wrap(s.cp + 1)), ())
  {
  }

  /** `BPush::interpret`: push a literal. */
  function PushStep(s: VMState, tag: PushTag, value: Int32): (r: Run<()>)
    ensures r.state.heap == s.heap
    ensures r.Ok? ==> r.state.(stack := s.stack) == s.(sp := Wrap(s.sp + 1), cp := Wrap(s.cp + 1))
  {
    match s.StackSet(s.sp, PushItem(tag, value))
    case Err(t, e) => Err(t, e)
    case Ok(s1, _) =>
      Ok(s1.(sp := Wrap(s1.sp + 1), cp := Wrap(s1.cp + 1)), ())
  }

  /** Below the end of the stack, `BPush` never throws. */
  lemma PushInRange(s: VMState, tag: PushTag, value: Int32)
    requires s.sp < |s.stack.items|
    ensures PushStep(s, tag, value) ==
              Ok(s.(stack := s.stack.(items := s.stack.items[s.sp := PushItem(tag, value)]),
                    sp := Wrap(s.sp + 1), cp := Wrap(s.cp + 1)), ())
  {
  }

  /** `BApply::interpret`: push the frame pointer and the return address above the closure on the
      top of the stack, and jump to the code index the closure holds. */
  function ApplyStep(s: VMState): (r: Run<()>)
    ensures r.Ok? ==> r.state.status == s.status && r.state.hp == s.hp &&
                      r.state.fp == s.sp && r.state.sp == Wrap(s.sp + 2)
  {
    match s.StackSet(s.sp, Item(FramePointer, s.fp))
    case Err(t, e) => Err(t, e)
    case Ok(s1, _) =>
      match s1.StackSet(Wrap(s1.sp + 1), Item(ReturnAddress, Wrap(s1.cp + 1)))
      case Err(t, e) => Err(t, e)
      case Ok(s2, _) => ApplyEnter(s2)
  }

  /** The rest of `BApply::interpret` once the frame is saved: read the closure and jump to its code. */
  function ApplyEnter(s: VMState): (r: Run<()>)
    ensures r.Ok? ==> r.state.status == s.status && r.state.hp == s.hp &&
                      r.state.fp == s.sp && r.state.sp == Wrap(s.sp + 2)
  {
    match s.StackGetAndCheck(Wrap(s.sp - 1), HeapIndex)
    case Err(t, e) => Err(t, e)
    case Ok(s1, closure) =>
      match s1.HeapGetAndCheck(Wrap(closure.value + 1), CodeIndex)
      case Err(t, e) => Err(t, e)
      case Ok(s2, code) =>
        Ok(s2.(cp := code.value, fp := s2.sp, sp := Wrap(s2.sp + 2)), ())
  }

  /** With a closure index on the top of the stack and two free slots above it, `BApply` throws
      exactly when the closure's second cell is not a code index, and otherwise jumps there. */
  lemma ApplyInRange(s: VMState)
    requires 0 < s.sp && s.sp + 1 < |s.stack.items| && s.sp + 1 < WORD_MODULUS
    requires s.stack.items[s.sp - 1].tag == HeapIndex
    requires s.stack.items[s.sp - 1].value + 1 < |s.heap.items| && s.stack.items[s.sp - 1].value + 1 < WORD_MODULUS
    ensures var code := s.heap.items[s.stack.items[s.sp - 1].value + 1];
            var t := s.(stack := s.stack.(items := s.stack.items[s.sp := Item(FramePointer, s.fp)]
                                                                [s.sp + 1 := Item(ReturnAddress, Wrap(s.cp + 1))]));
            ApplyStep(s) ==
              if code.tag != CodeIndex then Err(t, RuntimeError)
              else Ok(t.(cp := code.value, fp := s.sp, sp := Wrap(s.sp + 2)), ())
  {
    var t := s.(stack := s.stack.(items := s.stack.items[s.sp := Item(FramePointer, s.fp)]
                                                        [s.sp + 1 := Item(ReturnAddress, Wrap(s.cp + 1))]));
    assert t.stack.items[s.sp - 1] == s.stack.items[s.sp - 1];
  }

  /** `BLookup::interpret`: push a copy of the stack slot at `fp + offset`, or of the captured variable
      `offset` of the closure just below the frame. */
  function LookupStep(s: VMState, location: Location, offset: Int32): (r: Run<()>)
    ensures location == Stack ==> r.state.heap == s.heap
    ensures r.Ok? ==> r.state.(stack := s.stack, heap := s.heap) == s.(sp := Wrap(s.sp + 1), cp := Wrap(s.cp + 1))
  {
    match location
    case Stack =>
      (match StackToStack(s, Wrap(s.fp + offset), s.sp)
       case Err(t, e) => Err(t, e)
       case Ok(s1, _) => Ok(s1.(sp := Wrap(s1.sp + 1), cp := Wrap(s1.cp + 1)), ()))
    case Heap =>
      match s.StackGetAndCheck(Wrap(s.fp - 1), HeapIndex)
      case Err(t, e) => Err(t, e)
      case Ok(s1, closure) =>
        match HeapToStack(s1, Wrap(closure.value + offset + 1), s1.sp)
        case Err(t, e) => Err(t, e)
        case Ok(s2, _) =>
          Ok(s2.(sp := Wrap(s2.sp + 1), cp := Wrap(s2.cp + 1)), ())
  }

  /** A stack lookup within the stack pushes the slot `fp + offset` (an `int` offset added to a
      `size_t`, so modulo 2^64). */
  lemma LookupStackInRange(s: VMState, offset: Int32)
    requires s.sp < |s.stack.items| && Wrap(s.fp + offset) < |s.stack.items|
    ensures LookupStep(s, Stack, offset) ==
              Ok(s.(stack := s.stack.(items := s.stack.items[s.sp := s.stack.items[Wrap(s.fp + offset)]]),
                    sp := Wrap(s.sp + 1), cp := Wrap(s.cp + 1)), ())
  {
  }

  /** A heap lookup throws unless the slot below the frame holds a closure index; within range it
      pushes captured variable `offset` of that closure (cell `offset + 1` after its header). */
  lemma LookupHeapInRange(s: VMState, offset: Int32)
    requires s.sp < |s.stack.items| && 0 < s.fp <= |s.stack.items|
    ensures s.stack.items[s.fp - 1].tag != HeapIndex ==> LookupStep(s, Heap, offset) == Err(s, RuntimeError)
    ensures var c := s.stack.items[s.fp - 1];
            c.tag == HeapIndex && Wrap(c.value + offset + 1) < |s.heap.items| ==>
              LookupStep(s, Heap, offset) ==
                Ok(s.(stack := s.stack.(items := s.stack.items[s.sp := s.heap.items[Wrap(c.value + offset + 1)]]),
                      sp := Wrap(s.sp + 1), cp := Wrap(s.cp + 1)), ())
  {
  }

  /** `BReturn::interpret`: move the result over the closure of the frame, pop the frame, and
      restore the return address and the caller's frame pointer saved at `fp + 1` and `fp`. */
  function ReturnStep(s: VMState): (r: Run<()>)
    ensures r.state.heap == s.heap
    ensures r.state.status == s.status && r.state.hp == s.hp
    ensures r.Ok? ==> r.state.sp == Wrap(s.fp - 1)
  {
    match StackToStack(s, Wrap(s.sp - 1), Wrap(s.fp - 2))
    case Err(t, e) => Err(t, e)
    case Ok(s1, _) => ReturnRestore(s1.(sp := Wrap(s1.fp - 1)))
  }

  /** The rest of `BReturn::interpret` once the result is moved and `sp` reset: restore `cp`, then `fp`. */
  function ReturnRestore(s: VMState): (r: Run<()>)
    ensures r.state.heap == s.heap
    ensures r.state.status == s.status && r.state.hp == s.hp && r.state.sp == s.sp
  {
    match s.StackGetAndCheck(Wrap(s.fp + 1), ReturnAddress)
    case Err(t, e) => Err(t, e)
    case Ok(s1, ret) =>
      var s2 := s1.(cp := ret.value);
      match s2.StackGetAndCheck(s2.fp, FramePointer)
      case Err(t, e) => Err(t, e)
      case Ok(s3, frame) =>
        Ok(s3.(fp := frame.value), ())
  }

  /** Within range, `BReturn` always writes the result and resets `sp`; it then throws (keeping those
      effects, and the new `cp` if only the frame pointer is missing) unless the frame holds a return
      address and a frame pointer. */
  lemma ReturnInRange(s: VMState)
    requires 0 < s.sp <= |s.stack.items| && 2 <= s.fp && s.fp + 1 < |s.stack.items| && s.fp + 1 < WORD_MODULUS
    ensures var w := s.stack.items[s.fp - 2 := s.stack.items[s.sp - 1]];
            var t := s.(stack := s.stack.(items := w), sp := s.fp - 1);
            ReturnStep(s) ==
              if w[s.fp + 1].tag != ReturnAddress then Err(t, RuntimeError)
              else if w[s.fp].tag != FramePointer then Err(t.(cp := w[s.fp + 1].value), RuntimeError)
              else Ok(t.(cp := w[s.fp + 1].value, fp := w[s.fp].value), ())
  {
  }

  /** The loop of `BMkClosure::interpret` from iteration `i` on: copy stack slot `sp - 1 - j` to heap
      cell `hp + 2 + j` for every `j` from `i` to `size - 1`. */
  function CaptureStep(s: VMState, size: nat, i: nat): (r: Run<()>)
    ensures r.state.(stack := s.stack, heap := s.heap) == s
    decreases size - i
  {
    if size <= i then Ok(s, ())
    else
      match StackToHeap(s, Wrap(s.sp - 1 - i), Wrap(s.hp + 2 + i))
      case Err(s1, e) => Err(s1, e)
      case Ok(s1, _) => CaptureStep(s1, size, i + 1)
  }

  /** The heap after the capture loop: cell `hp + 2 + j` holds stack slot `sp - 1 - j` for `j` in
      `[i, size)`, and every other cell is unchanged. */
  predicate Captured(s: VMState, t: VMState, size: nat, i: nat)
    requires i <= size <= s.sp <= |s.stack.items|
    requires s.hp + 2 + size <= |s.heap.items|
  {
    && |t.heap.items| == |s.heap.items|
    && (forall k | 0 <= k < |s.heap.items| && !(s.hp + 2 + i <= k < s.hp + 2 + size) :: t.heap.items[k] == s.heap.items[k])
    && (forall k | s.hp + 2 + i <= k < s.hp + 2 + size :: t.heap.items[k] == s.stack.items[s.sp + s.hp + 1 - k])
  }

  /** With `size` items on the stack and room for them on the heap, the capture loop never throws,
      leaves the stack alone, and copies the items in order. */
  lemma {:induction false} CaptureInRange(s: VMState, size: nat, i: nat)
    requires i <= size <= s.sp <= |s.stack.items|
    requires s.hp + 2 + size <= |s.heap.items| && s.hp + 2 + size <= WORD_MODULUS
    ensures var r := CaptureStep(s, size, i);
            r.Ok? && r.state.stack == s.stack && r.state.heap.manager == s.heap.manager && Captured(s, r.state, size, i)
    decreases size - i
  {
    if i < size {
      var x := s.stack.items[s.sp - 1 - i];
      var s1 := s.(heap := s.heap.(items := s.heap.items[s.hp + 2 + i := x]));
      assert StackToHeap(s, s.sp - 1 - i, s.hp + 2 + i) == Ok(s1, ());
      assert CaptureStep(s, size, i) == CaptureStep(s1, size, i + 1);
      CaptureInRange(s1, size, i + 1);
      var t := CaptureStep(s1, size, i + 1).state;
      CapturedStep(s, s1, t, size, i);
    }
  }

  /** One step of the capture loop extends what `Captured` describes by one cell. */
  lemma CapturedStep(s: VMState, s1: VMState, t: VMState, size: nat, i: nat)
    requires i < size <= s.sp <= |s.stack.items|
    requires s.hp + 2 + size <= |s.heap.items|
    requires s1.sp == s.sp && s1.hp == s.hp && s1.stack == s.stack
    requires s1.heap.items == s.heap.items[s.hp + 2 + i := s.stack.items[s.sp - 1 - i]]
    requires Captured(s1, t, size, i + 1)
    ensures Captured(s, t, size, i)
  {
    assert t.heap.items[s.hp + 2 + i] == s1.heap.items[s.hp + 2 + i];
  }

  /** `BMkClosure::interpret`: build a closure of code index `location` and the `size` top items at
      `hp`, and replace those items by its index. The loop counter is an `int`, so a `size` above
      `INT_MAX` would overflow it. */
  function MkClosureStep(s: VMState, location: Word, size: Word): (r: Run<()>)
    requires size <= INT_MAX
    ensures r.Ok? ==> r.state.(stack := s.stack, heap := s.heap) ==
                      s.(sp := Wrap(s.sp - Wrap(size - 1)), hp := Wrap(s.hp + 2 + size), cp := Wrap(s.cp + 1))
  {
    match s.HeapSet(s.hp, Item(ClosureHeader, 2 + size))
    case Err(s1, e) => Err(s1, e)
    case Ok(s1, _) =>
      match s1.HeapSet(Wrap(s1.hp + 1), Item(CodeIndex, location))
      case Err(s2, e) => Err(s2, e)
      case Ok(s2, _) => MkClosureFill(s2, size)
  }

  /** The rest of `BMkClosure::interpret` once the header and the code index are written: the
      capture loop, then the end. */
  function MkClosureFill(s: VMState, size: Word): (r: Run<()>)
    ensures r.Ok? ==> r.state.(stack := s.stack, heap := s.heap) ==
                      s.(sp := Wrap(s.sp - Wrap(size - 1)), hp := Wrap(s.hp + 2 + size), cp := Wrap(s.cp + 1))
  {
    match CaptureStep(s, size, 0)
    case Err(s1, e) => Err(s1, e)
    case Ok(s1, _) => MkClosureFinish(s1, size)
  }

  /** The end of `BMkClosure::interpret`, after the loop: the closure's index replaces the captured
      items, and the registers move past the closure. */
  function MkClosureFinish(s: VMState, size: Word): (r: Run<()>)
    ensures r.state.heap == s.heap
    ensures r.Ok? ==> r.state.(stack := s.stack) ==
                      s.(sp := Wrap(s.sp - Wrap(size - 1)), hp := Wrap(s.hp + 2 + size), cp := Wrap(s.cp + 1))
  {
    match s.StackSet(Wrap(s.sp - size), Item(HeapIndex, s.hp))
    case Err(s1, e) => Err(s1, e)
    case Ok(s1, _) =>
      Ok(s1.(sp := Wrap(s1.sp - Wrap(size - 1)), hp := Wrap(s1.hp + 2 + size), cp := Wrap(s1.cp + 1)), ())
  }

  /** A closure of no captured variables pushes its index; one of `size > 0` replaces `size` items by it. */
  lemma MkClosureSp(size: Word, sp: Word)
    ensures size == 0 ==> Wrap(sp - Wrap(size - 1)) == Wrap(sp + 1)
    ensures 0 < size <= sp ==> Wrap(sp - Wrap(size - 1)) == sp - size + 1
  {
  }

  /** With `size > 0` items on the stack and room on the heap, `BMkClosure` never throws: the heap
      holds the header (the length `2 + size`), the code index and the captured items, last pushed
      first, and the stack the closure's index in place of the captured items. */
  lemma MkClosureInRange(s: VMState, location: Word, size: Word)
    requires 0 < size <= INT_MAX
    requires size <= s.sp <= |s.stack.items|
    requires s.hp + 2 + size <= |s.heap.items| && s.hp + 2 + size <= WORD_MODULUS
    ensures var r := MkClosureStep(s, location, size);
            && r.Ok?
            && r.state.stack.items == s.stack.items[s.sp - size := Item(HeapIndex, s.hp)]
            && |r.state.heap.items| == |s.heap.items|
            && r.state.heap.items[s.hp] == Item(ClosureHeader, 2 + size)
            && r.state.heap.items[s.hp + 1] == Item(CodeIndex, location)
            && (forall k | s.hp + 2 <= k < s.hp + 2 + size :: r.state.heap.items[k] == s.stack.items[s.sp + s.hp + 1 - k])
            && (forall k | 0 <= k < |s.heap.items| && !(s.hp <= k < s.hp + 2 + size) :: r.state.heap.items[k] == s.heap.items[k])
            && r.state.sp == s.sp - size + 1
  {
    var s1 := s.(heap := s.heap.(items := s.heap.items[s.hp := Item(ClosureHeader, 2 + size)]));
    var s2 := s1.(heap := s1.heap.(items := s1.heap.items[s.hp + 1 := Item(CodeIndex, location)]));
    assert s.HeapSet(s.hp, Item(ClosureHeader, 2 + size)) == Ok(s1, ());
    assert s1.HeapSet(Wrap(s1.hp + 1), Item(CodeIndex, location)) == Ok(s2, ());
    CaptureInRange(s2, size, 0);
    var t := CaptureStep(s2, size, 0).state;
    assert MkClosureStep(s, location, size) == MkClosureFinish(t, size);
    StackSetIn(t, s.sp - size, Item(HeapIndex, s.hp));
    MkClosureSp(size, s.sp);
    ClosureCells(s, s2, t, location, size);
  }

  /** The heap after the capture loop of `BMkClosure`, cell by cell. */
  lemma ClosureCells(s: VMState, s2: VMState, t: VMState, location: Word, size: Word)
    requires size <= INT_MAX && size <= s.sp <= |s.stack.items|
    requires s.hp + 2 + size <= |s.heap.items|
    requires s2.sp == s.sp && s2.hp == s.hp && s2.stack == s.stack
    requires s2.heap.items == s.heap.items[s.hp := Item(ClosureHeader, 2 + size)][s.hp + 1 := Item(CodeIndex, location)]
    requires Captured(s2, t, size, 0)
    ensures |t.heap.items| == |s.heap.items|
    ensures t.heap.items[s.hp] == Item(ClosureHeader, 2 + size)
    ensures t.heap.items[s.hp + 1] == Item(CodeIndex, location)
    ensures forall k | s.hp + 2 <= k < s.hp + 2 + size :: t.heap.items[k] == s.stack.items[s.sp + s.hp + 1 - k]
    ensures forall k | 0 <= k < |s.heap.items| && !(s.hp <= k < s.hp + 2 + size) :: t.heap.items[k] == s.heap.items[k]
  {
    assert t.heap.items[s.hp] == s2.heap.items[s.hp];
    assert t.heap.items[s.hp + 1] == s2.heap.items[s.hp + 1];
  }

  /** `BSwap::interpret`: exchange the two top items. */
  function SwapStep(s: VMState): (r: Run<()>)
    ensures r.state.heap == s.heap
    ensures r.Ok? ==> r.state.(stack := s.stack) == s.(cp := Wrap(s.cp + 1))
  {
    match s.StackGet(Wrap(s.sp - 2))
    case Err(t, e) => Err(t, e)
    case Ok(s1, a) =>
      match s1.StackGet(Wrap(s1.sp - 1))
      case Err(t, e) => Err(t, e)
      case Ok(s2, b) => SwapWrite(s2, a, b)
  }

  /** The second half of `BSwap::interpret`, once `a` (below) and `b` (on top) are read. */
  function SwapWrite(s: VMState, a: Item, b: Item): (r: Run<()>)
    ensures r.state.heap == s.heap
    ensures r.Ok? ==> r.state.(stack := s.stack) == s.(cp := Wrap(s.cp + 1))
  {
    match s.StackSet(Wrap(s.sp - 1), a)
    case Err(t, e) => Err(t, e)
    case Ok(s1, _) =>
      match s1.StackSet(Wrap(s1.sp - 2), b)
      case Err(t, e) => Err(t, e)
      case Ok(s2, _) =>
        Ok(s2.(cp := Wrap(s2.cp + 1)), ())
  }

  /** With two items on the stack, `BSwap` exchanges them, so that swapping twice restores the stack. */
  lemma SwapInRange(s: VMState)
    requires 2 <= s.sp <= |s.stack.items|
    ensures var a, b := s.stack.items[s.sp - 2], s.stack.items[s.sp - 1];
            SwapStep(s) == Ok(s.(stack := s.stack.(items := s.stack.items[s.sp - 1 := a][s.sp - 2 := b]),
                                 cp := Wrap(s.cp + 1)), ())
  {
  }

  /** `BSwap` is its own inverse on the stack. */
  lemma SwapTwice(s: VMState)
    requires 2 <= s.sp <= |s.stack.items|
    ensures SwapStep(SwapStep(s).state).state.stack == s.stack
  {
    SwapInRange(s);
    SwapInRange(SwapStep(s).state);
  }

  /** `BPop::interpret`: drop the top item (only `sp` moves). */
  function PopStep(s: VMState): (r: Run<()>)
    ensures r.Ok? && r.state == s.(sp := Wrap(s.sp - 1), cp := Wrap(s.cp + 1))
  {
    Ok(s.(sp := Wrap(s.sp - 1), cp := Wrap(s.cp + 1)), ())
  }

  /** `BLabel::interpret` and `BFunction::interpret`: only move to the next instruction. */
  function NopStep(s: VMState): (r: Run<()>)
    ensures r.Ok? && r.state == s.(cp := Wrap(s.cp + 1))
  {
    Ok(s.(cp := Wrap(s.cp + 1)), ())
  }

  /** `BDeref::interpret`: replace a reference on the top of the stack by the cell it refers to. */
  function DerefStep(s: VMState): (r: Run<()>)
    ensures r.Ok? ==> r.state.(stack := s.stack, heap := s.heap) == s.(cp := Wrap(s.cp + 1))
  {
    match s.StackGetAndCheck(Wrap(s.sp - 1), HeapRef)
    case Err(t, e) => Err(t, e)
    case Ok(s1, reference) =>
      match HeapToStack(s1, reference.value, Wrap(s1.sp - 1))
      case Err(t, e) => Err(t, e)
      case Ok(s2, _) =>
        Ok(s2.(cp := Wrap(s2.cp + 1)), ())
  }

  /** `BDeref` throws unless the top of the stack is a reference; in range it loads the referenced cell. */
  lemma DerefInRange(s: VMState)
    requires 0 < s.sp <= |s.stack.items|
    ensures s.stack.items[s.sp - 1].tag != HeapRef ==> DerefStep(s) == Err(s, RuntimeError)
    ensures var top := s.stack.items[s.sp - 1];
            top.tag == HeapRef && top.value < |s.heap.items| ==>
              DerefStep(s) == Ok(s.(stack := s.stack.(items := s.stack.items[s.sp - 1 := s.heap.items[top.value]]),
                                    cp := Wrap(s.cp + 1)), ())
  {
  }

  /** `BMkRef::interpret`: move the top item to a new heap cell and replace it by a reference to it. */
  function MkRefStep(s: VMState): (r: Run<()>)
    ensures r.Ok? ==> r.state.(stack := s.stack, heap := s.heap) == s.(hp := Wrap(s.hp + 1), cp := Wrap(s.cp + 1))
  {
    match StackToHeap(s, Wrap(s.sp - 1), s.hp)
    case Err(t, e) => Err(t, e)
    case Ok(s1, _) =>
      match s1.StackSet(Wrap(s1.sp - 1), Item(HeapRef, s1.hp))
      case Err(t, e) => Err(t, e)
      case Ok(s2, _) =>
        Ok(s2.(hp := Wrap(s2.hp + 1), cp := Wrap(s2.cp + 1)), ())
  }

  /** In range, `BMkRef` never throws. */
  lemma MkRefInRange(s: VMState)
    requires 0 < s.sp <= |s.stack.items| && s.hp < |s.heap.items|
    ensures MkRefStep(s) ==
              Ok(s.(stack := s.stack.(items := s.stack.items[s.sp - 1 := Item(HeapRef, s.hp)]),
                    heap := s.heap.(items := s.heap.items[s.hp := s.stack.items[s.sp - 1]]),
                    hp := Wrap(s.hp + 1), cp := Wrap(s.cp + 1)), ())
  {
  }

  /** Dereferencing a reference just made gives the item back: `MkRef` then `Deref` restores the stack. */
  lemma MkRefThenDeref(s: VMState)
    requires 0 < s.sp <= |s.stack.items| && s.hp < |s.heap.items|
    ensures DerefStep(MkRefStep(s).state).Ok?
    ensures DerefStep(MkRefStep(s).state).state.stack == s.stack
  {
    MkRefInRange(s);
    var t := MkRefStep(s).state;
    DerefInRange(t);
    assert t.stack.items[s.sp - 1 := s.stack.items[s.sp - 1]] == s.stack.items;
  }

  /** `BAssign::interpret`: store the top item through the reference below it, leaving `()`. */
  function AssignStep(s: VMState): (r: Run<()>)
    ensures r.Ok? ==> r.state.(stack := s.stack, heap := s.heap) == s.(sp := Wrap(s.sp - 1), cp := Wrap(s.cp + 1))
  {
    match s.StackGet(Wrap(s.sp - 1))
    case Err(t, e) => Err(t, e)
    case Ok(s1, x) =>
      match s1.StackGetAndCheck(Wrap(s1.sp - 2), HeapRef)
      case Err(t, e) => Err(t, e)
      case Ok(s2, reference) => AssignWrite(s2, x, reference.value)
  }

  /** The second half of `BAssign::interpret`, once the item `x` and the reference `v` are read. */
  function AssignWrite(s: VMState, x: Item, v: Word): (r: Run<()>)
    ensures r.Ok? ==> r.state.(stack := s.stack, heap := s.heap) == s.(sp := Wrap(s.sp - 1), cp := Wrap(s.cp + 1))
  {
    match s.HeapSet(v, x)
    case Err(t, e) => Err(t, e)
    case Ok(s1, _) =>
      match s1.StackSet(Wrap(s1.sp - 2), Item(Unit, 0))
      case Err(t, e) => Err(t, e)
      case Ok(s2, _) =>
        Ok(s2.(sp := Wrap(s2.sp - 1), cp := Wrap(s2.cp + 1)), ())
  }

  /** `BAssign` throws unless the item below the top is a reference; in range it stores the top item there. */
  lemma AssignInRange(s: VMState)
    requires 2 <= s.sp <= |s.stack.items|
    ensures s.stack.items[s.sp - 2].tag != HeapRef ==> AssignStep(s) == Err(s, RuntimeError)
    ensures var reference := s.stack.items[s.sp - 2];
            reference.tag == HeapRef && reference.value < |s.heap.items| ==>
              AssignStep(s) ==
                Ok(s.(stack := s.stack.(items := s.stack.items[s.sp - 2 := Item(Unit, 0)]),
                      heap := s.heap.(items := s.heap.items[reference.value := s.stack.items[s.sp - 1]]),
                      sp := s.sp - 1, cp := Wrap(s.cp + 1)), ())
  {
  }

  /** `BHalt::interpret`: stop the machine where it is. */
  function HaltStep(s: VMState): (r: Run<()>)
    ensures r.Ok? && r.state == s.(status := Halted)
  {
    Ok(s.(status := Halted), ())
  }

  /** `BGoto::interpret`: jump. */
  function GotoStep(s: VMState, destination: Word): (r: Run<()>)
    ensures r.Ok? && r.state == s.(cp := destination)
  {
    Ok(s.(cp := destination), ())
  }

  /** `BTest::interpret`: pop a boolean and fall through if it is true, or jump if it is false. */
  function TestStep(s: VMState, destination: Word): (r: Run<()>)
    ensures r.state.heap == s.heap
    ensures r.Ok? ==> r.state.(stack := s.stack, cp := s.cp) == s.(sp := Wrap(s.sp - 1))
  {
    match s.StackGetAndCheck(Wrap(s.sp - 1), Bool)
    case Err(t, e) => Err(t, e)
    case Ok(s1, b) =>
      Ok(s1.(cp := if b.value != 0 then Wrap(s1.cp + 1) else destination, sp := Wrap(s1.sp - 1)), ())
  }

  /** On a non-empty stack, `BTest` throws exactly when the top is not a boolean, and otherwise
      goes to `cp + 1` exactly when it is true. */
  lemma TestInRange(s: VMState, destination: Word)
    requires 0 < s.sp <= |s.stack.items|
    ensures var top := s.stack.items[s.sp - 1];
            TestStep(s, destination) ==
              if top.tag != Bool then Err(s, RuntimeError)
              else Ok(s.(cp := if top.value != 0 then Wrap(s.cp + 1) else destination, sp := s.sp - 1), ())
  {
  }

  /** `BCase::interpret`: replace the index of a sum on the top of the stack by its payload, then
      fall through for a left injection or jump for a right one; any other header throws, after
      the payload has been written. */
  function CaseStep(s: VMState, destination: Word): (r: Run<()>)
    ensures r.Ok? ==> r.state.(stack := s.stack, heap := s.heap, cp := s.cp) == s
  {
    match s.StackGetAndCheck(Wrap(s.sp - 1), HeapIndex)
    case Err(t, e) => Err(t, e)
    case Ok(s1, index) => CaseBranch(s1, index.value, destination)
  }

  /** The rest of `BCase::interpret` once the index `v` is read: read the header, load the payload, branch. */
  function CaseBranch(s: VMState, v: Word, destination: Word): (r: Run<()>)
    ensures r.Ok? ==> r.state.(stack := s.stack, heap := s.heap, cp := s.cp) == s
  {
    match s.HeapGet(v)
    case Err(t, e) => Err(t, e)
    case Ok(s1, header) =>
      match HeapToStack(s1, Wrap(v + 1), Wrap(s1.sp - 1))
      case Err(t, e) => Err(t, e)
      case Ok(s2, _) =>
        if header.tag == InlHeader then Ok(s2.(cp := Wrap(s2.cp + 1)), ())
        else if header.tag == InrHeader then Ok(s2.(cp := destination), ())
        else Err(s2, RuntimeError)
  }

  /** `BCase` in range: the payload replaces the index whatever the header, and the header alone
      decides between `cp + 1`, the destination and a `RuntimeError`. */
  lemma CaseInRange(s: VMState, destination: Word)
    requires 0 < s.sp <= |s.stack.items|
    ensures s.stack.items[s.sp - 1].tag != HeapIndex ==> CaseStep(s, destination) == Err(s, RuntimeError)
    ensures var v := s.stack.items[s.sp - 1].value;
            s.stack.items[s.sp - 1].tag == HeapIndex && v + 1 < |s.heap.items| && v + 1 < WORD_MODULUS ==>
              var t := s.(stack := s.stack.(items := s.stack.items[s.sp - 1 := s.heap.items[v + 1]]));
              CaseStep(s, destination) ==
                if s.heap.items[v].tag == InlHeader then Ok(t.(cp := Wrap(s.cp + 1)), ())
                else if s.heap.items[v].tag == InrHeader then Ok(t.(cp := destination), ())
                else Err(t, RuntimeError)
  {
  }

  // ---------------------------------------------------------------------------------------------
  // Dispatch: `BInstruction::interpret` is virtual; `Step` is the case split over the classes.

  /** What C++ leaves undefined in an instruction: a division `INT_MIN / -1` (or by an `int` zero
      whose `size_t` is not zero), and a closure so large that the `int` loop counter overflows. */
  predicate StepDefined(s: VMState, i: BInstruction) {
    match i
    case BOper(_, op) => OperDefined(s, op)
    case BMkClosure(_, _, size) => size <= INT_MAX
    case _ => true
  }

  /** The change of `sp` each instruction makes when it does not throw (`Return` sets it to `fp - 1`). */
  function SpDelta(i: BInstruction): int {
    match i
    case BOper(_, _) => -1
    case BMkPair(_) => -1
    case BPop(_) => -1
    case BAssign(_) => -1
    case BTest(_, _) => -1
    case BPush(_, _, _) => 1
    case BLookup(_, _, _) => 1
    case BApply(_) => 2
    case BMkClosure(_, _, size) => 1 - size
    case _ => 0
  }

  /** The number of heap cells each instruction allocates at `hp`. */
  function HpDelta(i: BInstruction): nat {
    match i
    case BMkPair(_) => 3
    case BMkInl(_) => 2
    case BMkInr(_) => 2
    case BMkRef(_) => 1
    case BMkClosure(_, _, size) => 2 + size
    case _ => 0
  }

  /** The registers after a step that did not throw: an instruction that is not a control transfer
      moves `sp` and `hp` by `SpDelta` and `HpDelta` (modulo 2^64), goes on to `cp + 1` and changes
      nothing else but the memories; `Halt` only sets the status and `Goto` only `cp`; `Return` sets
      `sp` to `fp - 1`, `Apply` sets `fp` to `sp`, and `Test` and `Case` go to `cp + 1` or their
      destination. */
  predicate RegistersMove(s: VMState, i: BInstruction, t: VMState) {
    match i
    case BReturn(_) => t.sp == Wrap(s.fp - 1) && t.hp == s.hp && t.status == s.status
    case BApply(_) => t.sp == Wrap(s.sp + SpDelta(i)) && t.hp == s.hp && t.fp == s.sp && t.status == s.status
    case BHalt(_) => t == s.(status := Halted)
    case BGoto(_, destination) => t == s.(cp := destination)
    case BTest(_, destination) =>
      t.(stack := s.stack, cp := s.cp) == s.(sp := Wrap(s.sp + SpDelta(i))) && (t.cp == Wrap(s.cp + 1) || t.cp == destination)
    case BCase(_, destination) =>
      t.(stack := s.stack, heap := s.heap, cp := s.cp) == s && (t.cp == Wrap(s.cp + 1) || t.cp == destination)
    case _ =>
      t.(stack := s.stack, heap := s.heap) == s.(sp := Wrap(s.sp + SpDelta(i)), hp := Wrap(s.hp + HpDelta(i)), cp := Wrap(s.cp + 1))
  }

  /** `interpret` of one instruction, with `input` the value `RuntimeSystem::readInt` would return. */
  function Step(s: VMState, i: BInstruction, input: Int32): (r: Run<()>)
    requires StepDefined(s, i)
    ensures i.BHalt? || i.BGoto? ==> r.Ok?
  {
    match i
    case BUnary(_, op) => UnaryStep(s, op, input)
    case BOper(_, op) => OperStep(s, op)
    case BMkPair(_) => MkPairStep(s)
    case BFst(_) => ProjectStep(s, 1)
    case BSnd(_) => ProjectStep(s, 2)
    case BMkInl(_) => InjectStep(s, InlHeader)
    case BMkInr(_) => InjectStep(s, InrHeader)
    case BPush(_, tag, value) => PushStep(s, tag, value)
    case BApply(_) => ApplyStep(s)
    case BLookup(_, location, offset) => LookupStep(s, location, offset)
    case BReturn(_) => ReturnStep(s)
    case BMkClosure(_, location, size) => MkClosureStep(s, location, size)
    case BSwap(_) => SwapStep(s)
    case BPop(_) => PopStep(s)
    case BLabel(_) => NopStep(s)
    case BFunction(_) => NopStep(s)
    case BDeref(_) => DerefStep(s)
    case BMkRef(_) => MkRefStep(s)
    case BAssign(_) => AssignStep(s)
    case BHalt(_) => HaltStep(s)
    case BGoto(_, destination) => GotoStep(s, destination)
    case BTest(_, destination) => TestStep(s, destination)
    case BCase(_, destination) => CaseStep(s, destination)
  }

  /** Every instruction that does not throw moves the registers as `RegistersMove` says. */
  lemma StepRegisters(s: VMState, i: BInstruction, input: Int32)
    requires StepDefined(s, i)
    ensures Step(s, i, input).Ok? ==> RegistersMove(s, i, Step(s, i, input).state)
  {
    if i.BUnary? || i.BOper? || i.BSwap? || i.BPop? || i.BLabel? || i.BFunction? || i.BPush? || i.BLookup? {
      StackRegisters(s, i, input);
    } else if i.IsControl() {
      ControlRegisters(s, i, input);
    } else {
      HeapRegisters(s, i, input);
    }
  }

  lemma StackRegisters(s: VMState, i: BInstruction, input: Int32)
    requires StepDefined(s, i)
    requires i.BUnary? || i.BOper? || i.BSwap? || i.BPop? || i.BLabel? || i.BFunction? || i.BPush? || i.BLookup?
    ensures Step(s, i, input).Ok? ==> RegistersMove(s, i, Step(s, i, input).state)
  {
  }

  lemma HeapRegisters(s: VMState, i: BInstruction, input: Int32)
    requires StepDefined(s, i)
    requires i.BMkPair? || i.BFst? || i.BSnd? || i.BMkInl? || i.BMkInr? || i.BMkClosure? || i.BDeref? || i.BMkRef? || i.BAssign?
    ensures Step(s, i, input).Ok? ==> RegistersMove(s, i, Step(s, i, input).state)
  {
    if i.BMkClosure? {
      ClosureRegisters(s, i, input);
    } else if i.BMkPair? || i.BMkInl? || i.BMkInr? || i.BMkRef? {
      AllocRegisters(s, i, input);
    } else {
      LoadRegisters(s, i, input);
    }
  }

  lemma ClosureRegisters(s: VMState, i: BInstruction, input: Int32)
    requires i.BMkClosure? && StepDefined(s, i)
    ensures Step(s, i, input).Ok? ==> RegistersMove(s, i, Step(s, i, input).state)
  {
    MkClosureSp(i.size, s.sp);
  }

  lemma LoadRegisters(s: VMState, i: BInstruction, input: Int32)
    requires i.BFst? || i.BSnd? || i.BDeref? || i.BAssign?
    ensures Step(s, i, input).Ok? ==> RegistersMove(s, i, Step(s, i, input).state)
  {
  }

  lemma AllocRegisters(s: VMState, i: BInstruction, input: Int32)
    requires i.BMkPair? || i.BMkInl? || i.BMkInr? || i.BMkRef?
    ensures Step(s, i, input).Ok? ==> RegistersMove(s, i, Step(s, i, input).state)
  {
  }

  lemma ControlRegisters(s: VMState, i: BInstruction, input: Int32)
    requires StepDefined(s, i)
    requires i.IsControl()
    ensures Step(s, i, input).Ok? ==> RegistersMove(s, i, Step(s, i, input).state)
  {
  }
}
