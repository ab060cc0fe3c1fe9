/** The VM's tagged memory (`Memory`) and the growth half of its memory managers
    (`NoAllocation`, `AmortizedAllocation`, and `MarkAndSweepGC`, which grows like `NoAllocation`). */
module TaggedMemory {
  import opened Wrappers
  import opened Words
  import opened Exceptions

  /** The tag of an item, in the order of the C++ `enum Tag`. */
  datatype Tag =
    | Unit | Bool | Int | HeapIndex | HeapRef | CodeIndex | ReturnAddress | FramePointer
    | PairHeader | InlHeader | InrHeader | ClosureHeader
  {
    /** Headers are the tags whose value is the length of a heap object. */
    predicate IsHeader() {
      this == PairHeader || this == InlHeader || this == InrHeader || this == ClosureHeader
    }

    /** Pointers are the tags whose value is a heap index. */
    predicate IsPointer() {
      this == HeapIndex || this == HeapRef
    }
  }

  /** The numeric value of a tag (its position in the enumeration), as stored in a machine word. */
  function TagCode(t: Tag): (c: nat)
    ensures c < 12
  {
    match t
    case Unit => 0
    case Bool => 1
    case Int => 2
    case HeapIndex => 3
    case HeapRef => 4
    case CodeIndex => 5
    case ReturnAddress => 6
    case FramePointer => 7
    case PairHeader => 8
    case InlHeader => 9
    case InrHeader => 10
    case ClosureHeader => 11
  }

  /** The tag with numeric value `c`, if there is one. */
  function TagOfCode(c: int): (t: Option<Tag>)
    ensures t.Some? <==> 0 <= c < 12
    ensures t.Some? ==> TagCode(t.value) == c
  {
    if c == 0 then Some(Unit)
    else if c == 1 then Some(Bool)
    else if c == 2 then Some(Int)
    else if c == 3 then Some(HeapIndex)
    else if c == 4 then Some(HeapRef)
    else if c == 5 then Some(CodeIndex)
    else if c == 6 then Some(ReturnAddress)
    else if c == 7 then Some(FramePointer)
    else if c == 8 then Some(PairHeader)
    else if c == 9 then Some(InlHeader)
    else if c == 10 then Some(InrHeader)
    else if c == 11 then Some(ClosureHeader)
    else None
  }

  /** Distinct tags have distinct numeric values, and decoding a tag's value gives it back. */
  lemma TagCodeRoundTrip(t: Tag, u: Tag)
    ensures TagOfCode(TagCode(t)) == Some(t)
    ensures TagCode(t) == TagCode(u) ==> t == u
  {
  }

  /** A memory cell. */
  datatype Item = Item(tag: Tag, value: Word)

  /** The contents of a freshly allocated `new Item[n]` cell, which C++ leaves indeterminate; the model fixes it. */
  const Blank: Item := Item(Unit, 0)

  /** `n` fresh cells. */
  function Blanks(n: nat): (s: seq<Item>)
    ensures |s| == n
    ensures forall i | 0 <= i < n :: s[i] == Blank
  {
    seq(n, _ => Blank)
  }

  function Min(a: int, b: int): int { if a <= b then a else b }

  function Max(a: int, b: int): int { if a <= b then b else a }

  /** `after` keeps every cell of `before` at its index and only adds fresh cells. */
  predicate Extends(before: seq<Item>, after: seq<Item>) {
    && |before| <= |after|
    && (forall i | 0 <= i < |before| :: after[i] == before[i])
    && (forall i | |before| <= i < |after| :: after[i] == Blank)
  }

  /** `std::copy` of the first `min(|dst|, |src|)` cells of `src` over `dst`. */
  function CopyPrefix(dst: seq<Item>, src: seq<Item>): (r: seq<Item>)
    ensures |r| == |dst|
    ensures forall i | 0 <= i < Min(|dst|, |src|) :: r[i] == src[i]
    ensures forall i | Min(|dst|, |src|) <= i < |dst| :: r[i] == dst[i]
  {
    var m := Min(|dst|, |src|);
    src[..m] + dst[m..]
  }

  /** The initial size of a `NoAllocation` manager; zero would make `checkSize` grow forever. */
  type InitialSize = n: nat | n > 0 witness 1

  /** The default initial size of `NoAllocation` and `MarkAndSweepGC`. */
  const DEFAULT_INITIAL_SIZE: InitialSize := 1000

  /** A memory manager, as far as growth is concerned (`MarkAndSweepGC` inherits `NoAllocation::allocateMemory`). */
  datatype Policy =
    | NoAllocation(initialSize: InitialSize)
    | AmortizedAllocation
    | MarkAndSweepGC(initialSize: InitialSize)
  {
    /** `allocateMemory`: the cells the memory holds afterwards, or the error it throws. */
    function AllocateMemory(items: seq<Item>): (r: Result<seq<Item>, Exception>)
      ensures r.Failure? <==> !AmortizedAllocation? && |items| != 0
      ensures r.Failure? ==> r.error == RuntimeError
      ensures r.Success? ==> |r.value| > |items| && Extends(items, r.value)
      ensures r.Success? && !AmortizedAllocation? ==> |r.value| == initialSize
      ensures r.Success? && AmortizedAllocation? ==> |r.value| == Max(4, 2 * |items|)
    {
      match this
      case AmortizedAllocation =>
        Success(CopyPrefix(Blanks(Max(4, 2 * |items|)), items))
      case _ =>
        if |items| == 0 then Success(Blanks(initialSize)) else Failure(RuntimeError)
    }
  }

  /** The value of a `Memory`: its cells and its manager. */
  datatype MemState = MemState(items: seq<Item>, manager: Option<Policy>) {

    /** `Memory::allocate`: grow through the manager, or throw when there is none. */
    function Allocate(): (r: Result<MemState, Exception>)
      ensures r.Success? <==> manager.Some? && (manager.value.AmortizedAllocation? || |items| == 0)
      ensures r.Failure? ==> r.error == RuntimeError
      ensures r.Success? ==> r.value.manager == manager && |r.value.items| > |items| && Extends(items, r.value.items)
    {
      match manager
      case None => Failure(RuntimeError)
      case Some(policy) =>
        var grown :- policy.AllocateMemory(items);
        Success(MemState(grown, manager))
    }

    /** `Memory::checkSize`: allocate until `idx` is in range, or throw. */
    function CheckSize(idx: nat): (res: (MemState, Outcome<Exception>))
      ensures res.0.manager == manager
      ensures res.1.Pass? <==> idx < |res.0.items|
      ensures res.1.Fail? ==> res.1.error == RuntimeError
      ensures idx < |items| ==> res == (this, Pass)
      decreases if idx < |items| then 0 else idx + 1 - |items|, 1
    {
      if idx < |items| then (this, Pass) else GrowFor(idx)
    }

    /** One iteration of the `checkSize` loop, when `idx` is out of range: allocate (throwing if
        that fails, with the memory as it was) and check again. */
    function GrowFor(idx: nat): (res: (MemState, Outcome<Exception>))
      requires |items| <= idx
      ensures res.0.manager == manager
      ensures res.1.Pass? <==> idx < |res.0.items|
      ensures res.1.Fail? ==> res.1.error == RuntimeError
      decreases idx + 1 - |items|, 0
    {
      match Allocate()
      case Failure(e) => (this, Fail(e))
      case Success(grown) => grown.CheckSize(idx)
    }

    /** `Memory::checkTag`: check the size, then throw unless the cell at `idx` has tag `tag`. */
    function CheckTag(idx: nat, tag: Tag): (res: (MemState, Outcome<Exception>))
      ensures res.0 == CheckSize(idx).0
      ensures res.1.Pass? <==> idx < |res.0.items| && res.0.items[idx].tag == tag
      ensures res.1.Fail? ==> res.1.error == RuntimeError
    {
      var (m, o) := CheckSize(idx);
      if o.Fail? then (m, o)
      else if m.items[idx].tag != tag then (m, Fail(RuntimeError))
      else (m, Pass)
    }

    /** `Memory::get`: check the size, then read the cell. */
    function Get(idx: nat): (res: (MemState, Result<Item, Exception>))
      ensures res.0 == CheckSize(idx).0
      ensures res.1.Success? <==> idx < |res.0.items|
      ensures res.1.Success? ==> res.1.value == res.0.items[idx]
      ensures res.1.Success? && idx < |items| ==> res.1.value == items[idx]
      ensures res.1.Failure? ==> res.1.error == RuntimeError
    {
      var (m, o) := CheckSize(idx);
      if o.Fail? then (m, Failure(o.error)) else (m, Success(m.items[idx]))
    }

    /** `Memory::getAndCheck`: check the tag, then read the cell. */
    function GetAndCheck(idx: nat, tag: Tag): (res: (MemState, Result<Item, Exception>))
      ensures res.0 == CheckSize(idx).0
      ensures res.1.Success? <==> idx < |res.0.items| && res.0.items[idx].tag == tag
      ensures res.1.Success? ==> res.1.value == res.0.items[idx] && res.1.value.tag == tag
      ensures res.1.Failure? ==> res.1.error == RuntimeError
    {
      var (m, o) := CheckTag(idx, tag);
      if o.Fail? then (m, Failure(o.error)) else (m, Success(m.items[idx]))
    }

    /** `Memory::set`: check the size, then overwrite the cell. */
    function Set(idx: nat, item: Item): (res: (MemState, Outcome<Exception>))
      ensures res.1.Pass? <==> idx < |CheckSize(idx).0.items|
      ensures res.1.Pass? ==> res.0 == CheckSize(idx).0.(items := CheckSize(idx).0.items[idx := item])
      ensures res.1.Fail? ==> res == CheckSize(idx)
    {
      var (m, o) := CheckSize(idx);
      if o.Fail? then (m, o) else (m.(items := m.items[idx := item]), Pass)
    }
  }

  /** `checkSize` only ever adds blank cells at the end. */
  lemma {:induction false} CheckSizeExtends(m: MemState, idx: nat)
    ensures Extends(m.items, m.CheckSize(idx).0.items)
    decreases if idx < |m.items| then 0 else idx + 1 - |m.items|, 1
  {
    if idx >= |m.items| {
      GrowForExtends(m, idx);
    }
  }

  lemma {:induction false} GrowForExtends(m: MemState, idx: nat)
    requires |m.items| <= idx
    ensures Extends(m.items, m.GrowFor(idx).0.items)
    decreases idx + 1 - |m.items|, 0
  {
    if m.Allocate().Success? {
      var grown := m.Allocate().value;
      CheckSizeExtends(grown, idx);
    }
  }

  /** After a successful `set(i, x)`, `get(i)` returns `x` and changes nothing. */
  lemma SetThenGet(m: MemState, idx: nat, x: Item)
    requires m.Set(idx, x).1.Pass?
    ensures m.Set(idx, x).0.Get(idx) == (m.Set(idx, x).0, Success(x))
  {
    var s := m.Set(idx, x).0;
    assert idx < |s.items|;
  }

  /** A successful `set(i, x)` leaves every other existing cell as it was. */
  lemma SetKeepsOthers(m: MemState, idx: nat, x: Item, j: nat)
    requires m.Set(idx, x).1.Pass?
    requires j != idx && j < |m.items|
    ensures m.Set(idx, x).0.Get(j).1 == Success(m.items[j])
  {
    CheckSizeExtends(m, idx);
  }

  /** With no manager, any access at `idx >= size()` throws `RuntimeError` and changes nothing. */
  lemma NoManagerOutOfRange(m: MemState, idx: nat)
    requires m.manager.None?
    ensures m.CheckSize(idx) == (m, if idx < |m.items| then Pass else Fail(RuntimeError))
  {
  }

  /** Under `NoAllocation` (and `MarkAndSweepGC`) an index is reachable iff it is in range,
      or the memory is empty and the index is below the initial size. */
  lemma NoAllocationReach(m: MemState, idx: nat)
    requires m.manager.Some? && !m.manager.value.AmortizedAllocation?
    ensures m.CheckSize(idx).1.Pass? <==>
              idx < |m.items| || (|m.items| == 0 && idx < m.manager.value.initialSize)
  {
    var n := m.manager.value.initialSize;
    if idx >= |m.items| && |m.items| == 0 {
      var grown := MemState(Blanks(n), m.manager);
      assert m.Allocate() == Success(grown);
      assert m.CheckSize(idx) == m.GrowFor(idx) == grown.CheckSize(idx);
      if idx >= n {
        assert grown.Allocate().Failure?;
        assert grown.CheckSize(idx) == grown.GrowFor(idx);
      }
    }
  }

  /** Consequently, on a memory of size 0 or `initialSize`, `checkSize` fails for every index
      at or beyond the initial size. */
  lemma NoAllocationBound(m: MemState, idx: nat)
    requires m.manager.Some? && !m.manager.value.AmortizedAllocation?
    requires |m.items| == 0 || |m.items| == m.manager.value.initialSize
    requires idx >= m.manager.value.initialSize
    ensures m.CheckSize(idx).1 == Fail(RuntimeError)
  {
    NoAllocationReach(m, idx);
  }

  /** Under `AmortizedAllocation` the size strictly grows, so `checkSize` terminates and succeeds for every index. */
  lemma {:induction false} AmortizedAlwaysReaches(m: MemState, idx: nat)
    requires m.manager == Some(AmortizedAllocation)
    ensures m.CheckSize(idx).1 == Pass
    decreases if idx < |m.items| then 0 else idx + 1 - |m.items|
  {
    if idx >= |m.items| {
      var grown := m.Allocate().value;
      AmortizedAlwaysReaches(grown, idx);
    }
  }

  /** `Memory`: a resizable buffer of tagged cells with an optional memory manager. */
  class Memory {
    var items: seq<Item>
    var manager: Option<Policy>

    function State(): MemState
      reads this
    {
      MemState(items, manager)
    }

    /** `Memory(size)`: `size` fresh cells and no manager. */
    constructor(size: nat)
      ensures items == Blanks(size) && manager == None
    {
      items := Blanks(size);
      manager := None;
    }

    method SetMemoryManager(policy: Policy)
      modifies this
      ensures items == old(items) && manager == Some(policy)
    {
      manager := Some(policy);
    }

    /** `operator=`: take over a copy of `other`'s cells and size, but keep this memory's manager.
        (Self-assignment would copy from the buffer it has just freed.) */
    method Assign(other: Memory)
      requires other != this
      modifies this
      ensures items == other.items && manager == old(manager)
    {
      var buffer := Blanks(|other.items|);
      items := CopyPrefix(buffer, other.items);
    }

    /** `copyFrom`: copy the first `min(size, other.size)` cells of `other`; both sizes stay the same. */
    method CopyFrom(other: Memory)
      modifies this
      ensures items == CopyPrefix(old(items), old(other.items))
      ensures manager == old(manager)
      ensures other != this ==> other.items == old(other.items)
    {
      var src := other.items;
      var n := Min(|items|, |src|);
      var i := 0;
      while i < n
        invariant 0 <= i <= n && |items| == |old(items)|
        invariant items == src[..i] + old(items)[i..]
        invariant manager == old(manager)
        invariant other != this ==> other.items == src
      {
        items := items[i := src[i]];
        i := i + 1;
      }
    }

    /** `allocate`: grow through the manager, or throw `RuntimeError` when there is none. */
    method Allocate() returns (outcome: Outcome<Exception>)
      modifies this
      ensures old(State()).Allocate().Success? ==> State() == old(State()).Allocate().value && outcome == Pass
      ensures old(State()).Allocate().Failure? ==> State() == old(State()) && outcome == Fail(RuntimeError)
    {
      match manager
      case None =>
        outcome := Fail(RuntimeError);
      case Some(policy) =>
        if policy.AmortizedAllocation? {
          outcome := AmortizedAllocationAllocateMemory(this);
        } else {
          outcome := NoAllocationAllocateMemory(policy.initialSize, this);
        }
    }

    /** `checkSize`: call `allocate` while `idx >= size()`. */
    method CheckSize(idx: nat) returns (outcome: Outcome<Exception>)
      modifies this
      ensures (State(), outcome) == old(State()).CheckSize(idx)
    {
      while idx >= |items|
        invariant State().CheckSize(idx) == old(State()).CheckSize(idx)
        decreases if idx < |items| then 0 else idx + 1 - |items|
      {
        outcome := Allocate();
        if outcome.Fail? {
          return;
        }
      }
      outcome := Pass;
    }

    method CheckTag(idx: nat, tag: Tag) returns (outcome: Outcome<Exception>)
      modifies this
      ensures (State(), outcome) == old(State()).CheckTag(idx, tag)
    {
      outcome := CheckSize(idx);
      if outcome.Pass? && items[idx].tag != tag {
        outcome := Fail(RuntimeError);
      }
    }

    method Get(idx: nat) returns (result: Result<Item, Exception>)
      modifies this
      ensures (State(), result) == old(State()).Get(idx)
    {
      var outcome := CheckSize(idx);
      if outcome.Fail? {
        return Failure(outcome.error);
      }
      result := Success(items[idx]);
    }

    method GetAndCheck(idx: nat, tag: Tag) returns (result: Result<Item, Exception>)
      modifies this
      ensures (State(), result) == old(State()).GetAndCheck(idx, tag)
    {
      var outcome := CheckTag(idx, tag);
      if outcome.Fail? {
        return Failure(outcome.error);
      }
      result := Success(items[idx]);
    }

    method Set(idx: nat, item: Item) returns (outcome: Outcome<Exception>)
      modifies this
      ensures (State(), outcome) == old(State()).Set(idx, item)
    {
      outcome := CheckSize(idx);
      if outcome.Pass? {
        items := items[idx := item];
      }
    }

    /** `allocateStatic`, the entry point for compiled code: 1 if `allocate` threw, else 0. */
    static method AllocateStatic(memory: Memory) returns (status: int)
      modifies memory
      ensures status == if old(memory.State()).Allocate().Failure? then 1 else 0
      ensures old(memory.State()).Allocate().Success? ==> memory.State() == old(memory.State()).Allocate().value
      ensures old(memory.State()).Allocate().Failure? ==> memory.State() == old(memory.State())
    {
      var outcome := memory.Allocate();
      status := if outcome.Fail? then 1 else 0;
    }
  }

  /** `NoAllocation::allocateMemory`: an empty memory becomes `Memory(initialSize)`; any other throws. */
  method NoAllocationAllocateMemory(initialSize: InitialSize, memory: Memory) returns (outcome: Outcome<Exception>)
    modifies memory
    ensures memory.manager == old(memory.manager)
    ensures NoAllocation(initialSize).AllocateMemory(old(memory.items)).Success? ==>
              memory.items == NoAllocation(initialSize).AllocateMemory(old(memory.items)).value && outcome == Pass
    ensures NoAllocation(initialSize).AllocateMemory(old(memory.items)).Failure? ==>
              memory.items == old(memory.items) && outcome == Fail(RuntimeError)
  {
    if |memory.items| == 0 {
      var replacement := new Memory(initialSize);
      memory.Assign(replacement);
      outcome := Pass;
    } else {
      outcome := Fail(RuntimeError);
    }
  }

  /** `AmortizedAllocation::allocateMemory`: copy into a memory of size `max(4, 2*size)` and assign it back. */
  method AmortizedAllocationAllocateMemory(memory: Memory) returns (outcome: Outcome<Exception>)
    modifies memory
    ensures memory.manager == old(memory.manager)
    ensures memory.items == AmortizedAllocation.AllocateMemory(old(memory.items)).value
    ensures outcome == Pass
  {
    var newMemory := new Memory(Max(4, 2 * |memory.items|));
    newMemory.CopyFrom(memory);
    memory.Assign(newMemory);
    outcome := Pass;
  }
}
