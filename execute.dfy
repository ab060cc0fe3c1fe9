/** The `interpret` methods of the B-instructions on a `VirtualMachine` object, each proved to
    change the machine exactly as the matching step function of `Interpreter` says. */
module Execution {
  import opened Wrappers
  import opened Words
  import opened Exceptions
  import opened TaggedMemory
  import opened Machine
  import opened BCode
  import opened Interpreter

  /** The run that a method ending in `state` with `result` describes. */
  function RunOfResult(state: VMState, result: Result<Item, Exception>): Run<Item> {
    if result.Failure? then Err(state, result.error) else Ok(state, result.value)
  }

  // ---------------------------------------------------------------------------------------------
  // `vm->stack.get(i)` and the like, on the machine's own memories.

  method StackGet(vm: VirtualMachine, idx: Word) returns (result: Result<Item, Exception>)
    requires vm.Valid()
    modifies vm.stack
    ensures RunOfResult(vm.State(), result) == old(vm.State()).StackGet(idx)
  {
    result := vm.stack.Get(idx);
  }

  method StackGetAndCheck(vm: VirtualMachine, idx: Word, tag: Tag) returns (result: Result<Item, Exception>)
    requires vm.Valid()
    modifies vm.stack
    ensures RunOfResult(vm.State(), result) == old(vm.State()).StackGetAndCheck(idx, tag)
  {
    result := vm.stack.GetAndCheck(idx, tag);
  }

  method StackSet(vm: VirtualMachine, idx: Word, item: Item) returns (outcome: Outcome<Exception>)
    requires vm.Valid()
    modifies vm.stack
    ensures RunOf(vm.State(), outcome) == old(vm.State()).StackSet(idx, item)
  {
    outcome := vm.stack.Set(idx, item);
  }

  method HeapGet(vm: VirtualMachine, idx: Word) returns (result: Result<Item, Exception>)
    requires vm.Valid()
    modifies vm.heap
    ensures RunOfResult(vm.State(), result) == old(vm.State()).HeapGet(idx)
  {
    result := vm.heap.Get(idx);
  }

  method HeapGetAndCheck(vm: VirtualMachine, idx: Word, tag: Tag) returns (result: Result<Item, Exception>)
    requires vm.Valid()
    modifies vm.heap
    ensures RunOfResult(vm.State(), result) == old(vm.State()).HeapGetAndCheck(idx, tag)
  {
    result := vm.heap.GetAndCheck(idx, tag);
  }

  method HeapCheckTag(vm: VirtualMachine, idx: Word, tag: Tag) returns (outcome: Outcome<Exception>)
    requires vm.Valid()
    modifies vm.heap
    ensures RunOf(vm.State(), outcome) == old(vm.State()).HeapCheckTag(idx, tag)
  {
    outcome := vm.heap.CheckTag(idx, tag);
  }

  method HeapSet(vm: VirtualMachine, idx: Word, item: Item) returns (outcome: Outcome<Exception>)
    requires vm.Valid()
    modifies vm.heap
    ensures RunOf(vm.State(), outcome) == old(vm.State()).HeapSet(idx, item)
  {
    outcome := vm.heap.Set(idx, item);
  }

  /** `vm->heap.set(to, vm->stack.get(from))`. */
  method CopyStackToHeap(vm: VirtualMachine, from: Word, to: Word) returns (outcome: Outcome<Exception>)
    requires vm.Valid()
    modifies vm.stack, vm.heap
    ensures RunOf(vm.State(), outcome) == StackToHeap(old(vm.State()), from, to)
  {
    var x := StackGet(vm, from);
    if x.Failure? {
      return Fail(x.error);
    }
    outcome := HeapSet(vm, to, x.value);
  }

  /** `vm->stack.set(to, vm->heap.get(from))`. */
  method CopyHeapToStack(vm: VirtualMachine, from: Word, to: Word) returns (outcome: Outcome<Exception>)
    requires vm.Valid()
    modifies vm.stack, vm.heap
    ensures RunOf(vm.State(), outcome) == HeapToStack(old(vm.State()), from, to)
  {
    var x := HeapGet(vm, from);
    if x.Failure? {
      return Fail(x.error);
    }
    outcome := StackSet(vm, to, x.value);
  }

  /** `vm->stack.set(to, vm->stack.get(from))`. */
  method CopyStackToStack(vm: VirtualMachine, from: Word, to: Word) returns (outcome: Outcome<Exception>)
    requires vm.Valid()
    modifies vm.stack
    ensures RunOf(vm.State(), outcome) == StackToStack(old(vm.State()), from, to)
  {
    var x := StackGet(vm, from);
    if x.Failure? {
      return Fail(x.error);
    }
    outcome := StackSet(vm, to, x.value);
  }

  // ---------------------------------------------------------------------------------------------
  // The instructions.

  method Unary(vm: VirtualMachine, op: UnaryOp, input: Int32) returns (outcome: Outcome<Exception>)
    requires vm.Valid()
    modifies vm, vm.stack
    ensures RunOf(vm.State(), outcome) == UnaryStep(old(vm.State()), op, input)
  {
    var a := StackGet(vm, Wrap(vm.sp - 1));
    if a.Failure? {
      return Fail(a.error);
    }
    var v := UnaryValue(op, a.value, input);
    if v.None? {
      return Fail(RuntimeError);
    }
    outcome := StackSet(vm, Wrap(vm.sp - 1), v.value);
    if outcome.Fail? {
      return;
    }
    vm.cp := Wrap(vm.cp + 1);
  }

  method Oper(vm: VirtualMachine, op: BinaryOp) returns (outcome: Outcome<Exception>)
    requires vm.Valid() && OperDefined(vm.State(), op)
    modifies vm, vm.stack
    ensures RunOf(vm.State(), outcome) == OperStep(old(vm.State()), op)
  {
    ghost var s := vm.State();
    var a := StackGet(vm, Wrap(vm.sp - 2));
    if a.Failure? {
      return Fail(a.error);
    }
    ghost var s1 := vm.State();
    var b := StackGet(vm, Wrap(vm.sp - 1));
    if b.Failure? {
      return Fail(b.error);
    }
    OperandsPeeked(s, op, s1, a.value, vm.State(), b.value);
    outcome := WriteResult(vm, op, a.value, b.value);
  }

  /** The second half of `BOper::interpret`: write `OperValue` over the first operand and pop the second. */
  method WriteResult(vm: VirtualMachine, op: BinaryOp, a: Item, b: Item) returns (outcome: Outcome<Exception>)
    requires vm.Valid() && (op == Div ==> DivDefined(a, b))
    modifies vm, vm.stack
    ensures RunOf(vm.State(), outcome) == OperWrite(old(vm.State()), op, a, b)
  {
    var v := OperValue(op, a, b);
    if v.None? {
      return Fail(RuntimeError);
    }
    outcome := StackSet(vm, Wrap(vm.sp - 2), v.value);
    if outcome.Fail? {
      return;
    }
    vm.cp := Wrap(vm.cp + 1);
    vm.sp := Wrap(vm.sp - 1);
  }

  method MkPair(vm: VirtualMachine) returns (outcome: Outcome<Exception>)
    requires vm.Valid()
    modifies vm, vm.stack, vm.heap
    ensures RunOf(vm.State(), outcome) == MkPairStep(old(vm.State()))
  {
    ghost var s0 := vm.State();
    outcome := HeapSet(vm, vm.hp, Item(PairHeader, 3));
    if outcome.Fail? {
      return;
    }
    assert s0.HeapSet(s0.hp, Item(PairHeader, 3)) == Ok(vm.State(), ());
    outcome := FillPair(vm);
  }

  /** The rest of `BMkPair::interpret` once the header is written: the first component, and on. */
  method FillPair(vm: VirtualMachine) returns (outcome: Outcome<Exception>)
    requires vm.Valid()
    modifies vm, vm.stack, vm.heap
    ensures RunOf(vm.State(), outcome) == MkPairFill(old(vm.State()))
  {
    ghost var s0 := vm.State();
    outcome := CopyStackToHeap(vm, Wrap(vm.sp - 2), Wrap(vm.hp + 1));
    if outcome.Fail? {
      return;
    }
    assert StackToHeap(s0, Wrap(s0.sp - 2), Wrap(s0.hp + 1)) == Ok(vm.State(), ());
    outcome := LinkPair(vm);
  }

  /** The rest of `BMkPair::interpret`: the second component, then the pair's index. */
  method LinkPair(vm: VirtualMachine) returns (outcome: Outcome<Exception>)
    requires vm.Valid()
    modifies vm, vm.stack, vm.heap
    ensures RunOf(vm.State(), outcome) == MkPairLink(old(vm.State()))
  {
    ghost var s0 := vm.State();
    outcome := CopyStackToHeap(vm, Wrap(vm.sp - 1), Wrap(vm.hp + 2));
    if outcome.Fail? {
      return;
    }
    assert StackToHeap(s0, Wrap(s0.sp - 1), Wrap(s0.hp + 2)) == Ok(vm.State(), ());
    outcome := StoreIndex(vm, Wrap(vm.sp - 2), Wrap(vm.sp - 1), 3);
  }

  /** The index of the object just built at `hp` goes to stack slot `slot`; then the registers move on. */
  method StoreIndex(vm: VirtualMachine, slot: Word, newSp: Word, size: nat) returns (outcome: Outcome<Exception>)
    requires vm.Valid()
    modifies vm, vm.stack
    ensures RunOf(vm.State(), outcome) == PlaceIndex(old(vm.State()), slot, newSp, size)
  {
    outcome := StackSet(vm, slot, Item(HeapIndex, vm.hp));
    if outcome.Fail? {
      return;
    }
    vm.sp := newSp;
    vm.hp := Wrap(vm.hp + size);
    vm.cp := Wrap(vm.cp + 1);
  }

  /** `BFst::interpret` (`offset` 1) and `BSnd::interpret` (`offset` 2). */
  method Project(vm: VirtualMachine, offset: nat) returns (outcome: Outcome<Exception>)
    requires vm.Valid()
    modifies vm, vm.stack, vm.heap
    ensures RunOf(vm.State(), outcome) == ProjectStep(old(vm.State()), offset)
  {
    var index := StackGetAndCheck(vm, Wrap(vm.sp - 1), HeapIndex);
    if index.Failure? {
      return Fail(index.error);
    }
    outcome := LoadComponent(vm, index.value.value, offset);
  }

  /** The rest of `BFst`/`BSnd`: check the pair header at `v`, then load the component. */
  method LoadComponent(vm: VirtualMachine, v: Word, offset: nat) returns (outcome: Outcome<Exception>)
    requires vm.Valid()
    modifies vm, vm.stack, vm.heap
    ensures RunOf(vm.State(), outcome) == ProjectLoad(old(vm.State()), v, offset)
  {
    outcome := HeapCheckTag(vm, v, PairHeader);
    if outcome.Fail? {
      return;
    }
    outcome := CopyHeapToStack(vm, Wrap(v + offset), Wrap(vm.sp - 1));
    if outcome.Fail? {
      return;
    }
    vm.cp := Wrap(vm.cp + 1);
  }

  /** `BMkInl::interpret` and `BMkInr::interpret`. */
  method Inject(vm: VirtualMachine, header: Tag) returns (outcome: Outcome<Exception>)
    requires vm.Valid()
    modifies vm, vm.stack, vm.heap
    ensures RunOf(vm.State(), outcome) == InjectStep(old(vm.State()), header)
  {
    ghost var s0 := vm.State();
    outcome := HeapSet(vm, vm.hp, Item(header, 2));
    if outcome.Fail? {
      return;
    }
    assert s0.HeapSet(s0.hp, Item(header, 2)) == Ok(vm.State(), ());
    outcome := LinkSum(vm);
  }

  /** The rest of `BMkInl`/`BMkInr`: the payload, then the sum's index. */
  method LinkSum(vm: VirtualMachine) returns (outcome: Outcome<Exception>)
    requires vm.Valid()
    modifies vm, vm.stack, vm.heap
    ensures RunOf(vm.State(), outcome) == InjectLink(old(vm.State()))
  {
    ghost var s0 := vm.State();
    outcome := CopyStackToHeap(vm, Wrap(vm.sp - 1), Wrap(vm.hp + 1));
    if outcome.Fail? {
      return;
    }
    assert StackToHeap(s0, Wrap(s0.sp - 1), Wrap(s0.hp + 1)) == Ok(vm.State(), ());
    outcome := StoreIndex(vm, Wrap(vm.sp - 1), vm.sp, 2);
  }

  method Push(vm: VirtualMachine, tag: PushTag, value: Int32) returns (outcome: Outcome<Exception>)
    requires vm.Valid()
    modifies vm, vm.stack
    ensures RunOf(vm.State(), outcome) == PushStep(old(vm.State()), tag, value)
  {
    outcome := StackSet(vm, vm.sp, PushItem(tag, value));
    if outcome.Fail? {
      return;
    }
    vm.sp := Wrap(vm.sp + 1);
    vm.cp := Wrap(vm.cp + 1);
  }

  method Apply(vm: VirtualMachine) returns (outcome: Outcome<Exception>)
    requires vm.Valid()
    modifies vm, vm.stack, vm.heap
    ensures RunOf(vm.State(), outcome) == ApplyStep(old(vm.State()))
  {
    ghost var s0 := vm.State();
    outcome := StackSet(vm, vm.sp, Item(FramePointer, vm.fp));
    if outcome.Fail? {
      return;
    }
    ghost var s1 := vm.State();
    assert s0.StackSet(s0.sp, Item(FramePointer, s0.fp)) == Ok(s1, ());
    outcome := StackSet(vm, Wrap(vm.sp + 1), Item(ReturnAddress, Wrap(vm.cp + 1)));
    if outcome.Fail? {
      return;
    }
    assert s1.StackSet(Wrap(s1.sp + 1), Item(ReturnAddress, Wrap(s1.cp + 1))) == Ok(vm.State(), ());
    outcome := EnterClosure(vm);
  }

  /** The rest of `BApply::interpret`: read the closure below the saved frame and jump to its code. */
  method EnterClosure(vm: VirtualMachine) returns (outcome: Outcome<Exception>)
    requires vm.Valid()
    modifies vm, vm.stack, vm.heap
    ensures RunOf(vm.State(), outcome) == ApplyEnter(old(vm.State()))
  {
    var closure := StackGetAndCheck(vm, Wrap(vm.sp - 1), HeapIndex);
    if closure.Failure? {
      return Fail(closure.error);
    }
    var code := HeapGetAndCheck(vm, Wrap(closure.value.value + 1), CodeIndex);
    if code.Failure? {
      return Fail(code.error);
    }
    vm.cp := code.value.value;
    vm.fp := vm.sp;
    vm.sp := Wrap(vm.sp + 2);
    outcome := Pass;
  }

  method Lookup(vm: VirtualMachine, location: Location, offset: Int32) returns (outcome: Outcome<Exception>)
    requires vm.Valid()
    modifies vm, vm.stack, vm.heap
    ensures RunOf(vm.State(), outcome) == LookupStep(old(vm.State()), location, offset)
  {
    if location == Stack {
      outcome := CopyStackToStack(vm, Wrap(vm.fp + offset), vm.sp);
    } else {
      var closure := StackGetAndCheck(vm, Wrap(vm.fp - 1), HeapIndex);
      if closure.Failure? {
        return Fail(closure.error);
      }
      outcome := CopyHeapToStack(vm, Wrap(closure.value.value + offset + 1), vm.sp);
    }
    if outcome.Fail? {
      return;
    }
    vm.sp := Wrap(vm.sp + 1);
    vm.cp := Wrap(vm.cp + 1);
  }

  method Return(vm: VirtualMachine) returns (outcome: Outcome<Exception>)
    requires vm.Valid()
    modifies vm, vm.stack
    ensures RunOf(vm.State(), outcome) == ReturnStep(old(vm.State()))
  {
    ghost var s0 := vm.State();
    outcome := CopyStackToStack(vm, Wrap(vm.sp - 1), Wrap(vm.fp - 2));
    if outcome.Fail? {
      return;
    }
    ghost var s1 := vm.State();
    assert StackToStack(s0, Wrap(s0.sp - 1), Wrap(s0.fp - 2)) == Ok(s1, ());
    vm.sp := Wrap(vm.fp - 1);
    assert vm.State() == s1.(sp := Wrap(s1.fp - 1));
    outcome := RestoreFrame(vm);
  }

  /** The rest of `BReturn::interpret`: restore `cp` from `fp + 1`, then `fp` from `fp`. */
  method RestoreFrame(vm: VirtualMachine) returns (outcome: Outcome<Exception>)
    requires vm.Valid()
    modifies vm, vm.stack
    ensures RunOf(vm.State(), outcome) == ReturnRestore(old(vm.State()))
  {
    var ret := StackGetAndCheck(vm, Wrap(vm.fp + 1), ReturnAddress);
    if ret.Failure? {
      return Fail(ret.error);
    }
    vm.cp := ret.value.value;
    var frame := StackGetAndCheck(vm, vm.fp, FramePointer);
    if frame.Failure? {
      return Fail(frame.error);
    }
    vm.fp := frame.value.value;
    outcome := Pass;
  }

  /** `BMkClosure::interpret`. */
  method MkClosure(vm: VirtualMachine, location: Word, size: Word) returns (outcome: Outcome<Exception>)
    requires vm.Valid() && size <= INT_MAX
    modifies vm, vm.stack, vm.heap
    ensures RunOf(vm.State(), outcome) == MkClosureStep(old(vm.State()), location, size)
  {
    outcome := HeapSet(vm, vm.hp, Item(ClosureHeader, 2 + size));
    if outcome.Fail? {
      return;
    }
    outcome := HeapSet(vm, Wrap(vm.hp + 1), Item(CodeIndex, location));
    if outcome.Fail? {
      return;
    }
    outcome := FillClosure(vm, size);
  }

  /** The rest of `BMkClosure::interpret`: the capture loop, then the closure's index and the registers. */
  method FillClosure(vm: VirtualMachine, size: Word) returns (outcome: Outcome<Exception>)
    requires vm.Valid()
    modifies vm, vm.stack, vm.heap
    ensures RunOf(vm.State(), outcome) == MkClosureFill(old(vm.State()), size)
  {
    outcome := Capture(vm, size);
    if outcome.Fail? {
      return;
    }
    outcome := FinishClosure(vm, size);
  }

  /** The end of `BMkClosure::interpret`: the closure's index replaces the captured items. */
  method FinishClosure(vm: VirtualMachine, size: Word) returns (outcome: Outcome<Exception>)
    requires vm.Valid()
    modifies vm, vm.stack
    ensures RunOf(vm.State(), outcome) == MkClosureFinish(old(vm.State()), size)
  {
    outcome := StackSet(vm, Wrap(vm.sp - size), Item(HeapIndex, vm.hp));
    if outcome.Fail? {
      return;
    }
    vm.sp := Wrap(vm.sp - Wrap(size - 1));
    vm.hp := Wrap(vm.hp + 2 + size);
    vm.cp := Wrap(vm.cp + 1);
  }

  /** The loop of `BMkClosure::interpret`: copy stack slot `sp - 1 - i` to heap cell `hp + 2 + i` for
      `i` from 0 to `size - 1`. `CaptureStep` of the state at the head of the loop is what remains of it. */
  method Capture(vm: VirtualMachine, size: Word) returns (outcome: Outcome<Exception>)
    requires vm.Valid()
    modifies vm.stack, vm.heap
    ensures RunOf(vm.State(), outcome) == CaptureStep(old(vm.State()), size, 0)
  {
    ghost var goal := CaptureStep(vm.State(), size, 0);
    outcome := Pass;
    var i := 0;
    while i < size
      invariant 0 <= i <= size && outcome == Pass
      invariant CaptureStep(vm.State(), size, i) == goal
      decreases size - i
    {
      outcome := CaptureOne(vm, size, i);
      if outcome.Fail? {
        return;
      }
      i := i + 1;
    }
  }

  /** One iteration of the capture loop: it either throws, ending the loop, or leaves the rest of
      the loop from `i + 1` on. */
  method CaptureOne(vm: VirtualMachine, size: Word, i: nat) returns (outcome: Outcome<Exception>)
    requires vm.Valid() && i < size
    modifies vm.stack, vm.heap
    ensures outcome.Fail? ==> RunOf(vm.State(), outcome) == CaptureStep(old(vm.State()), size, i)
    ensures outcome.Pass? ==> CaptureStep(vm.State(), size, i + 1) == CaptureStep(old(vm.State()), size, i)
  {
    ghost var s0 := vm.State();
    outcome := CopyStackToHeap(vm, Wrap(vm.sp - 1 - i), Wrap(vm.hp + 2 + i));
    if outcome.Pass? {
      assert StackToHeap(s0, Wrap(s0.sp - 1 - i), Wrap(s0.hp + 2 + i)) == Ok(vm.State(), ());
    }
  }

  method Swap(vm: VirtualMachine) returns (outcome: Outcome<Exception>)
    requires vm.Valid()
    modifies vm, vm.stack
    ensures RunOf(vm.State(), outcome) == SwapStep(old(vm.State()))
  {
    var a := StackGet(vm, Wrap(vm.sp - 2));
    if a.Failure? {
      return Fail(a.error);
    }
    var b := StackGet(vm, Wrap(vm.sp - 1));
    if b.Failure? {
      return Fail(b.error);
    }
    outcome := WriteSwapped(vm, a.value, b.value);
  }

  /** The second half of `BSwap::interpret`: `a` goes on top and `b` below it. */
  method WriteSwapped(vm: VirtualMachine, a: Item, b: Item) returns (outcome: Outcome<Exception>)
    requires vm.Valid()
    modifies vm, vm.stack
    ensures RunOf(vm.State(), outcome) == SwapWrite(old(vm.State()), a, b)
  {
    outcome := StackSet(vm, Wrap(vm.sp - 1), a);
    if outcome.Fail? {
      return;
    }
    outcome := StackSet(vm, Wrap(vm.sp - 2), b);
    if outcome.Fail? {
      return;
    }
    vm.cp := Wrap(vm.cp + 1);
  }

  method Deref(vm: VirtualMachine) returns (outcome: Outcome<Exception>)
    requires vm.Valid()
    modifies vm, vm.stack, vm.heap
    ensures RunOf(vm.State(), outcome) == DerefStep(old(vm.State()))
  {
    var reference := StackGetAndCheck(vm, Wrap(vm.sp - 1), HeapRef);
    if reference.Failure? {
      return Fail(reference.error);
    }
    outcome := CopyHeapToStack(vm, reference.value.value, Wrap(vm.sp - 1));
    if outcome.Fail? {
      return;
    }
    vm.cp := Wrap(vm.cp + 1);
  }

  method MkRef(vm: VirtualMachine) returns (outcome: Outcome<Exception>)
    requires vm.Valid()
    modifies vm, vm.stack, vm.heap
    ensures RunOf(vm.State(), outcome) == MkRefStep(old(vm.State()))
  {
    outcome := CopyStackToHeap(vm, Wrap(vm.sp - 1), vm.hp);
    if outcome.Fail? {
      return;
    }
    outcome := StackSet(vm, Wrap(vm.sp - 1), Item(HeapRef, vm.hp));
    if outcome.Fail? {
      return;
    }
    vm.hp := Wrap(vm.hp + 1);
    vm.cp := Wrap(vm.cp + 1);
  }

  method Assign(vm: VirtualMachine) returns (outcome: Outcome<Exception>)
    requires vm.Valid()
    modifies vm, vm.stack, vm.heap
    ensures RunOf(vm.State(), outcome) == AssignStep(old(vm.State()))
  {
    var x := StackGet(vm, Wrap(vm.sp - 1));
    if x.Failure? {
      return Fail(x.error);
    }
    var reference := StackGetAndCheck(vm, Wrap(vm.sp - 2), HeapRef);
    if reference.Failure? {
      return Fail(reference.error);
    }
    outcome := WriteThrough(vm, x.value, reference.value.value);
  }

  /** The second half of `BAssign::interpret`: store `x` at heap cell `v` and leave `()` in place of the reference. */
  method WriteThrough(vm: VirtualMachine, x: Item, v: Word) returns (outcome: Outcome<Exception>)
    requires vm.Valid()
    modifies vm, vm.stack, vm.heap
    ensures RunOf(vm.State(), outcome) == AssignWrite(old(vm.State()), x, v)
  {
    outcome := HeapSet(vm, v, x);
    if outcome.Fail? {
      return;
    }
    outcome := StackSet(vm, Wrap(vm.sp - 2), Item(Unit, 0));
    if outcome.Fail? {
      return;
    }
    vm.sp := Wrap(vm.sp - 1);
    vm.cp := Wrap(vm.cp + 1);
  }

  method Test(vm: VirtualMachine, destination: Word) returns (outcome: Outcome<Exception>)
    requires vm.Valid()
    modifies vm, vm.stack
    ensures RunOf(vm.State(), outcome) == TestStep(old(vm.State()), destination)
  {
    var b := StackGetAndCheck(vm, Wrap(vm.sp - 1), Bool);
    if b.Failure? {
      return Fail(b.error);
    }
    if b.value.value != 0 {
      vm.cp := Wrap(vm.cp + 1);
    } else {
      vm.cp := destination;
    }
    vm.sp := Wrap(vm.sp - 1);
    outcome := Pass;
  }

  method Case(vm: VirtualMachine, destination: Word) returns (outcome: Outcome<Exception>)
    requires vm.Valid()
    modifies vm, vm.stack, vm.heap
    ensures RunOf(vm.State(), outcome) == CaseStep(old(vm.State()), destination)
  {
    var index := StackGetAndCheck(vm, Wrap(vm.sp - 1), HeapIndex);
    if index.Failure? {
      return Fail(index.error);
    }
    outcome := BranchOnSum(vm, index.value.value, destination);
  }

  /** The rest of `BCase::interpret`: read the header at `v`, load the payload, then branch on the header. */
  method BranchOnSum(vm: VirtualMachine, v: Word, destination: Word) returns (outcome: Outcome<Exception>)
    requires vm.Valid()
    modifies vm, vm.stack, vm.heap
    ensures RunOf(vm.State(), outcome) == CaseBranch(old(vm.State()), v, destination)
  {
    var header := HeapGet(vm, v);
    if header.Failure? {
      return Fail(header.error);
    }
    outcome := CopyHeapToStack(vm, Wrap(v + 1), Wrap(vm.sp - 1));
    if outcome.Fail? {
      return;
    }
    if header.value.tag == InlHeader {
      vm.cp := Wrap(vm.cp + 1);
    } else if header.value.tag == InrHeader {
      vm.cp := destination;
    } else {
      outcome := Fail(RuntimeError);
    }
  }

  /** `instruction->interpret(vm)`: run one instruction on the machine. */
  method Interpret(vm: VirtualMachine, i: BInstruction, input: Int32) returns (outcome: Outcome<Exception>)
    requires vm.Valid() && StepDefined(vm.State(), i)
    modifies vm, vm.stack, vm.heap
    ensures RunOf(vm.State(), outcome) == Step(old(vm.State()), i, input)
  {
    match i
    case BUnary(_, op) => outcome := Unary(vm, op, input);
    case BOper(_, op) => outcome := Oper(vm, op);
    case BMkPair(_) => outcome := MkPair(vm);
    case BFst(_) => outcome := Project(vm, 1);
    case BSnd(_) => outcome := Project(vm, 2);
    case BMkInl(_) => outcome := Inject(vm, InlHeader);
    case BMkInr(_) => outcome := Inject(vm, InrHeader);
    case BPush(_, tag, value) => outcome := Push(vm, tag, value);
    case BApply(_) => outcome := Apply(vm);
    case BLookup(_, location, offset) => outcome := Lookup(vm, location, offset);
    case BReturn(_) => outcome := Return(vm);
    case BMkClosure(_, location, size) => outcome := MkClosure(vm, location, size);
    case BSwap(_) => outcome := Swap(vm);
    case BPop(_) =>
      vm.sp := Wrap(vm.sp - 1);
      vm.cp := Wrap(vm.cp + 1);
      outcome := Pass;
    case BLabel(_) =>
      vm.cp := Wrap(vm.cp + 1);
      outcome := Pass;
    case BFunction(_) =>
      vm.cp := Wrap(vm.cp + 1);
      outcome := Pass;
    case BDeref(_) => outcome := Deref(vm);
    case BMkRef(_) => outcome := MkRef(vm);
    case BAssign(_) => outcome := Assign(vm);
    case BHalt(_) =>
      vm.status := Halted;
      outcome := Pass;
    case BGoto(_, destination) =>
      vm.cp := destination;
      outcome := Pass;
    case BTest(_, destination) => outcome := Test(vm, destination);
    case BCase(_, destination) => outcome := Case(vm, destination);
  }
}
