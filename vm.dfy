/** The machine state (`VirtualMachine`) and the rendering of its result. */
module Machine {
  import opened Wrappers
  import opened Words
  import opened Exceptions
  import opened TaggedMemory
  import opened Decimal

  /** `VirtualMachine::Status`; `Error` is the enumerator `RuntimeError`. */
  datatype Status = Halted | Running | Error

  /** The numeric value of a status, as compiled code stores it. */
  function StatusCode(s: Status): (c: nat)
    ensures c < 3
    ensures s == Running <==> c == 1
  {
    match s
    case Halted => 0
    case Running => 1
    case Error => 2
  }

  /** `VirtualMachine::Location`: which memory a slot lives in. */
  datatype Location = Stack | Heap

  /** `VirtualMachine::Type`: the tag half or the value half of an item. */
  datatype ItemPart = TagPart | ValPart

  /** The value of a `VirtualMachine`: status, registers and the two memories. */
  datatype VMState = VMState(status: Status, sp: Word, fp: Word, cp: Word, hp: Word, stack: MemState, heap: MemState) {

    /** The accessors of the two memories, as `Run`s: each changes only the memory it reads or writes. */
    function StackGet(idx: Word): (r: Run<Item>)
      ensures r.state == this.(stack := r.state.stack)
    {
      var (m, r) := stack.Get(idx);
      if r.Failure? then Err(this.(stack := m), r.error) else Ok(this.(stack := m), r.value)
    }

    function StackGetAndCheck(idx: Word, tag: Tag): (r: Run<Item>)
      ensures r.state == this.(stack := r.state.stack)
    {
      var (m, r) := stack.GetAndCheck(idx, tag);
      if r.Failure? then Err(this.(stack := m), r.error) else Ok(this.(stack := m), r.value)
    }

    function StackSet(idx: Word, item: Item): (r: Run<()>)
      ensures r.state == this.(stack := r.state.stack)
    {
      var (m, o) := stack.Set(idx, item);
      if o.Fail? then Err(this.(stack := m), o.error) else Ok(this.(stack := m), ())
    }

    function HeapGet(idx: Word): (r: Run<Item>)
      ensures r.state == this.(heap := r.state.heap)
    {
      var (m, r) := heap.Get(idx);
      if r.Failure? then Err(this.(heap := m), r.error) else Ok(this.(heap := m), r.value)
    }

    function HeapGetAndCheck(idx: Word, tag: Tag): (r: Run<Item>)
      ensures r.state == this.(heap := r.state.heap)
    {
      var (m, r) := heap.GetAndCheck(idx, tag);
      if r.Failure? then Err(this.(heap := m), r.error) else Ok(this.(heap := m), r.value)
    }

    function HeapCheckTag(idx: Word, tag: Tag): (r: Run<()>)
      ensures r.state == this.(heap := r.state.heap)
    {
      var (m, o) := heap.CheckTag(idx, tag);
      if o.Fail? then Err(this.(heap := m), o.error) else Ok(this.(heap := m), ())
    }

    function HeapSet(idx: Word, item: Item): (r: Run<()>)
      ensures r.state == this.(heap := r.state.heap)
    {
      var (m, o) := heap.Set(idx, item);
      if o.Fail? then Err(this.(heap := m), o.error) else Ok(this.(heap := m), ())
    }
  }

  /** The state a `VirtualMachine` starts in: running, all registers zero, both memories empty and unmanaged. */
  const InitialState: VMState := VMState(Running, 0, 0, 0, 0, MemState([], None), MemState([], None))

  /** The result of a step that may throw: the state reached, and the value or the exception.
      As in the source, an exception leaves every effect made before it in place. */
  datatype Run<+T> = Ok(state: VMState, value: T) | Err(state: VMState, error: Exception) {
    predicate IsFailure() { Err? }

    function PropagateFailure<U>(): Run<U>
      requires Err?
    {
      Err(state, error)
    }

    function Extract(): (VMState, T)
      requires Ok?
    {
      (state, value)
    }
  }

  /** The run that a method ending in `state` with `outcome` describes. */
  function RunOf(state: VMState, outcome: Outcome<Exception>): Run<()> {
    if outcome.Fail? then Err(state, outcome.error) else Ok(state, ())
  }

  /** `VirtualMachine`: the registers and status are fields, and the stack and the heap are the two
      `Memory` objects it owns. */
  class VirtualMachine {
    var status: Status
    var sp: Word
    var fp: Word
    var cp: Word
    var hp: Word
    const stack: Memory
    const heap: Memory

    /** The stack and the heap are distinct objects. */
    predicate Valid()
      reads this
    {
      stack != heap
    }

    function State(): VMState
      reads this, stack, heap
    {
      VMState(status, sp, fp, cp, hp, stack.State(), heap.State())
    }

    constructor()
      ensures Valid() && fresh(stack) && fresh(heap)
      ensures State() == InitialState
    {
      status := Running;
      sp, fp, cp, hp := 0, 0, 0, 0;
      stack := new Memory(0);
      heap := new Memory(0);
    }
  }

  /** `VirtualMachine::toString`: the text of `item`, reading the heap through `checkTag` and `get`
      (which may grow it). `None` means the recursion did not finish within `fuel` nested pairs
      (the source recurses without bound on a cyclic heap); a `get` that throws is not caught. */
  function ToString(heap: MemState, item: Item, fuel: nat): (res: (MemState, Option<Result<string, Exception>>))
    ensures res.0.manager == heap.manager && Extends(heap.items, res.0.items)
    ensures !item.tag.HeapIndex? ==> res == (heap, Some(Success(ScalarText(item))))
    ensures res.1.Some? && res.1.value.Success? ==> |res.1.value.value| > 0
    decreases fuel, 0
  {
    if !item.tag.HeapIndex? then (heap, Some(Success(ScalarText(item))))
    else if fuel == 0 then (heap, None)
    else PairToString(heap, item.value, fuel - 1)
  }

  /** The `HeapIndex` case of `toString`: `ERROR` unless `checkTag` finds a pair header at `v`
      (the `RuntimeError` is caught), otherwise the two components rendered in order. */
  function PairToString(heap: MemState, v: Word, fuel: nat): (res: (MemState, Option<Result<string, Exception>>))
    ensures res.0.manager == heap.manager && Extends(heap.items, res.0.items)
    ensures res.1.Some? && res.1.value.Success? ==> |res.1.value.value| > 0
    decreases fuel, 2
  {
    var (h1, checked) := heap.CheckTag(v, PairHeader);
    CheckSizeExtends(heap, v);
    if checked.Fail? then (h1, Some(Success("ERROR")))
    else
      var (h2, l) := ComponentText(h1, Wrap(v + 1), fuel);
      if l.None? || l.value.Failure? then (h2, l)
      else
        var (h3, r) := ComponentText(h2, Wrap(v + 2), fuel);
        if r.None? || r.value.Failure? then (h3, r)
        else (h3, Some(Success(PairText(l.value.value, r.value.value))))
  }

  /** `toString(heap.get(idx))`: a `get` that throws propagates. */
  function ComponentText(heap: MemState, idx: Word, fuel: nat): (res: (MemState, Option<Result<string, Exception>>))
    ensures res.0.manager == heap.manager && Extends(heap.items, res.0.items)
    ensures res.1.Some? && res.1.value.Success? ==> |res.1.value.value| > 0
    decreases fuel, 1
  {
    var (h, component) := heap.Get(idx);
    CheckSizeExtends(heap, idx);
    if component.Failure? then (h, Some(Failure(component.error)))
    else ToString(h, component.value, fuel)
  }

  /** The text of a pair from the texts of its components: `ERROR` if either is `ERROR`. */
  function PairText(l: string, r: string): (s: string)
    ensures |s| > 0
    ensures s == "ERROR" <==> l == "ERROR" || r == "ERROR"
  {
    if l == "ERROR" || r == "ERROR" then "ERROR"
    else
      var s := "(" + l + ", " + r + ")";
      assert s[0] != "ERROR"[0];
      s
  }

  /** The text of an item that is not a heap index: `()`, `true` iff the value is non-zero,
      the decimal of the `int` cast, `reference`, or `ERROR` for every other tag. */
  function ScalarText(item: Item): (s: string)
    ensures |s| > 0
    ensures item.tag == Bool ==> (s == "true" <==> item.value != 0)
    ensures item.tag == Int ==> PyInt(s) == Some(ToInt(item.value))
    ensures item.tag.IsHeader() || item.tag in {CodeIndex, ReturnAddress, FramePointer} ==> s == "ERROR"
  {
    PyIntOfIntToString(ToInt(item.value));
    match item.tag
    case Unit => "()"
    case Bool => if item.value != 0 then "true" else "false"
    case Int => IntToString(ToInt(item.value))
    case HeapRef => "reference"
    case _ => "ERROR"
  }

  /** More fuel never changes a rendering that already finished. */
  lemma {:induction false} ToStringFuel(heap: MemState, item: Item, fuel: nat, more: nat)
    requires ToString(heap, item, fuel).1.Some?
    requires fuel <= more
    ensures ToString(heap, item, more) == ToString(heap, item, fuel)
    decreases fuel, 0
  {
    if item.tag.HeapIndex? && fuel > 0 {
      PairToStringFuel(heap, item.value, fuel - 1, more - 1);
    }
  }

  lemma {:induction false} PairToStringFuel(heap: MemState, v: Word, fuel: nat, more: nat)
    requires PairToString(heap, v, fuel).1.Some?
    requires fuel <= more
    ensures PairToString(heap, v, more) == PairToString(heap, v, fuel)
    decreases fuel, 2
  {
    var (h1, checked) := heap.CheckTag(v, PairHeader);
    if checked.Pass? {
      var left := ComponentText(h1, Wrap(v + 1), fuel);
      ComponentTextFuel(h1, Wrap(v + 1), fuel, more);
      if left.1.Some? && left.1.value.Success? {
        ComponentTextFuel(left.0, Wrap(v + 2), fuel, more);
      }
    }
  }

  lemma {:induction false} ComponentTextFuel(heap: MemState, idx: Word, fuel: nat, more: nat)
    requires ComponentText(heap, idx, fuel).1.Some?
    requires fuel <= more
    ensures ComponentText(heap, idx, more) == ComponentText(heap, idx, fuel)
    decreases fuel, 1
  {
    var (h, component) := heap.Get(idx);
    if component.Success? {
      ToStringFuel(h, component.value, fuel, more);
    }
  }

  /** A pair whose header and both components are in range renders from the renderings of its
      components. */
  lemma PairInRange(heap: MemState, v: Word, fuel: nat)
    requires fuel > 0
    requires v + 2 < |heap.items| && v + 2 < WORD_MODULUS && heap.items[v].tag == PairHeader
    ensures
      var l := ToString(heap, heap.items[v + 1], fuel - 1);
      var r := ToString(l.0, l.0.items[v + 2], fuel - 1);
      l.1.Some? && l.1.value.Success? && r.1.Some? && r.1.value.Success? ==>
        ToString(heap, Item(HeapIndex, v), fuel).1 == Some(Success(PairText(l.1.value.value, r.1.value.value)))
  {
    assert heap.CheckTag(v, PairHeader) == (heap, Pass);
    assert Wrap(v + 1) == v + 1;
    assert ComponentText(heap, v + 1, fuel - 1) == ToString(heap, heap.items[v + 1], fuel - 1);
    var l := ToString(heap, heap.items[v + 1], fuel - 1);
    assert Wrap(v + 2) == v + 2;
    assert ComponentText(l.0, v + 2, fuel - 1) == ToString(l.0, l.0.items[v + 2], fuel - 1);
  }

  /** A heap index whose target is not a pair header renders as `ERROR`, when the target is in range. */
  lemma NonPairText(heap: MemState, v: Word, fuel: nat)
    requires fuel > 0
    requires v < |heap.items| && heap.items[v].tag != PairHeader
    ensures ToString(heap, Item(HeapIndex, v), fuel) == (heap, Some(Success("ERROR")))
  {
  }

  /** `VirtualMachine::getResult`: `ERROR` on an empty stack, otherwise the text of the top item. */
  function GetResult(s: VMState, fuel: nat): (res: (VMState, Option<Result<string, Exception>>))
    ensures s.sp == 0 ==> res == (s, Some(Success("ERROR")))
    ensures 0 < s.sp <= |s.stack.items| ==>
              res.1 == ToString(s.heap, s.stack.items[s.sp - 1], fuel).1
    ensures res.0.status == s.status && res.0.sp == s.sp && res.0.fp == s.fp && res.0.cp == s.cp && res.0.hp == s.hp
  {
    if s.sp == 0 then (s, Some(Success("ERROR")))
    else
      var (stack, top) := s.stack.Get(s.sp - 1);
      if top.Failure? then (s.(stack := stack), Some(Failure(top.error)))
      else
        var (heap, text) := ToString(s.heap, top.value, fuel);
        (s.(stack := stack, heap := heap), text)
  }
}
