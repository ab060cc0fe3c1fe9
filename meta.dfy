/** The Python reference interpreter of B-code (`meta_dlang_vm.py`). Its items are objects with
    identity: the stack holds references to them, `LOOKUP` pushes an existing object again, `ASSIGN`
    retargets a `HeapRef` object in place and `EQ` compares pointers with `is`. The model keeps every
    item in a store and refers to it by its position there. */
module MetaInterpreter {
  import opened Wrappers
  import opened Words
  import opened Decimal
  import Machine
  import TaggedMemory

  // ---------------------------------------------------------------------------------------------
  // Items, the store and the machine
  // ---------------------------------------------------------------------------------------------

  /** `Tag` of the Python interpreter; `Unknown` is the default of `Item`. */
  datatype PyTag =
    | Unknown | Unit | Bool | Int | HeapIndex | HeapRef | CodeIndex | ReturnAddress | FramePointer
    | PairHeader | InlHeader | InrHeader | ClosureHeader

  /** The position of an item object in the store. */
  type Ref = nat

  /** The list object an item's `bdy` is: the one default list `[]` that every item built without a
      body shares, or the list built for the header item `owner`. */
  datatype ListId = DefaultList | OwnList(owner: Ref)

  /** An `Item` object: tag, value, the object `ptr` refers to (`None` is Python's `None`), and the
      identity and contents of its body list. */
  datatype PyItem = PyItem(tag: PyTag, val: int, ptr: Option<Ref>, bdyId: ListId, bdy: seq<Ref>)

  /** `Item(tag, val=v)`. */
  function Plain(tag: PyTag, v: int): PyItem {
    PyItem(tag, v, None, DefaultList, [])
  }

  /** `Item(tag, ptr=p)`. */
  function Pointer(tag: PyTag, p: Ref): PyItem {
    PyItem(tag, 0, Some(p), DefaultList, [])
  }

  /** `Item(tag, bdy=[...])`, the item at position `at` of the store. */
  function Header(tag: PyTag, at: Ref, body: seq<Ref>): PyItem {
    PyItem(tag, 0, None, OwnList(at), body)
  }

  /** The interpreter's `VirtualMachine`, the store of item objects, and the lines `stdin` has left. */
  datatype PyVM = PyVM(store: seq<PyItem>, stack: seq<Ref>, cp: int, fp: int, status: int, stdin: seq<string>)

  /** What every item object the interpreter builds satisfies, `i` being its position: its references
      are to existing objects; a heap index or reference points somewhere; a heap index points to an
      older object, a pair header holds two older objects, an injection header one item, a closure
      header at least its code index, and a boolean is 0 or 1. */
  predicate ItemValid(store: seq<PyItem>, i: nat)
    requires i < |store|
  {
    var it := store[i];
    (it.ptr.Some? ==> it.ptr.value < |store|) &&
    (forall k | 0 <= k < |it.bdy| :: it.bdy[k] < |store|) &&
    ((it.tag == HeapIndex || it.tag == HeapRef) ==> it.ptr.Some?) &&
    (it.tag == HeapIndex ==> it.ptr.Some? && it.ptr.value < i) &&
    (it.tag == PairHeader ==> |it.bdy| == 2 && it.bdy[0] < i && it.bdy[1] < i) &&
    ((it.tag == InlHeader || it.tag == InrHeader) ==> |it.bdy| == 1) &&
    (it.tag == ClosureHeader ==> |it.bdy| >= 1) &&
    (it.tag == Bool ==> it.val == 0 || it.val == 1)
  }

  predicate StoreValid(store: seq<PyItem>) {
    forall i | 0 <= i < |store| :: ItemValid(store, i)
  }

  /** The stack refers to existing objects, and every object is as the interpreter builds it. */
  predicate Valid(vm: PyVM) {
    (forall k | 0 <= k < |vm.stack| :: vm.stack[k] < |vm.store|) && StoreValid(vm.store)
  }

  /** The object at `r`, with what `Valid` says about it. */
  function At(vm: PyVM, r: Ref): (it: PyItem)
    requires Valid(vm) && r < |vm.store|
    ensures it == vm.store[r] && ItemValid(vm.store, r)
  {
    vm.store[r]
  }

  /** `VirtualMachine()` followed by the two pushes `interpret` starts with:
      `[FramePointer 0, ReturnAddress 0]`, with `cp`, `fp` and `status` zero. */
  function InitialVM(stdin: seq<string>): (vm: PyVM)
    ensures Valid(vm) && |vm.stack| == 2 && vm.cp == 0 && vm.fp == 0 && vm.status == 0
    ensures vm.store[vm.stack[0]] == Plain(FramePointer, 0) && vm.store[vm.stack[1]] == Plain(ReturnAddress, 0)
  {
    PyVM([Plain(FramePointer, 0), Plain(ReturnAddress, 0)], [0, 1], 0, 0, 0, stdin)
  }

  // ---------------------------------------------------------------------------------------------
  // Python primitives
  // ---------------------------------------------------------------------------------------------

  /** `to_int(value)`: `(value & 0xffffffff) - ((value & 0x80000000) << 1)` on Python's unbounded
      two's-complement integers, where `v & (2^32 - 1)` is `v` modulo 2^32 and `v & 2^31` is bit 31. */
  function PyToInt(v: int): int {
    (v % 0x1_0000_0000) - (((v / 0x8000_0000) % 2) * 0x8000_0000) * 2
  }

  /** `to_int` is the 32-bit reading `ToInt`: the unique value in `[-2^31, 2^31)` congruent to its
      argument modulo 2^32. */
  lemma PyToIntIsToInt(v: int)
    ensures PyToInt(v) == ToInt(v)
    ensures INT_MIN <= PyToInt(v) <= INT_MAX && (PyToInt(v) - v) % INT_MODULUS == 0
  {
    var m := v % 0x1_0000_0000;
    var q := v / 0x1_0000_0000;
    assert v == q * 0x1_0000_0000 + m;
    assert v / 0x8000_0000 == 2 * q + m / 0x8000_0000 by {
      assert v == (2 * q + m / 0x8000_0000) * 0x8000_0000 + m % 0x8000_0000;
    }
    assert (v / 0x8000_0000) % 2 == m / 0x8000_0000;
    assert m / 0x8000_0000 == (if m >= 0x8000_0000 then 1 else 0);
  }

  /** Python 2's `/` on integers, which rounds toward negative infinity. */
  function FloorDiv(a: int, b: int): int
    requires b != 0
  {
    if b > 0 then a / b else (-a) / (-b)
  }

  /** The quotient is the floor of `a / b`: the remainder `a - q * b` has the sign of `b` and is
      smaller than `b` in magnitude. */
  lemma FloorDivMeaning(a: int, b: int)
    requires b != 0
    ensures var r := a - FloorDiv(a, b) * b;
      (b > 0 ==> 0 <= r < b) && (b < 0 ==> b < r <= 0)
  {
    if b < 0 {
      var q := (-a) / (-b);
      assert -a == q * (-b) + (-a) % (-b);
    }
  }

  /** `s[i]` on a Python list: a negative index counts from the end; anything else raises `IndexError`. */
  function PyIndex<T>(s: seq<T>, i: int): (r: Option<T>)
    ensures r.Some? <==> -|s| <= i < |s|
    ensures 0 <= i < |s| ==> r == Some(s[i])
    ensures -|s| <= i < 0 ==> r == Some(s[|s| + i])
  {
    if 0 <= i < |s| then Some(s[i]) else if -|s| <= i < 0 then Some(s[|s| + i]) else None
  }

  /** `s.split(d)`: the text between consecutive delimiters, so that `k` delimiters give `k + 1` pieces. */
  function PySplit(s: string, d: char): (r: seq<string>)
    ensures |r| >= 1
  {
    PySplitFrom(s, d, 0, 0)
  }

  /** The pieces of `s[start..]`, where `s[start..j]` has been read without meeting a delimiter. */
  function PySplitFrom(s: string, d: char, start: nat, j: nat): (r: seq<string>)
    requires start <= j <= |s|
    ensures |r| >= 1
    decreases |s| - j
  {
    if j == |s| then [s[start..]]
    else if s[j] == d then [s[start..j]] + PySplitFrom(s, d, j + 1, j + 1)
    else PySplitFrom(s, d, start, j + 1)
  }

  /** The pieces joined back with the delimiter. */
  function Join(pieces: seq<string>, d: char): string
    requires |pieces| >= 1
  {
    if |pieces| == 1 then pieces[0] else pieces[0] + [d] + Join(pieces[1..], d)
  }

  /** `split` loses nothing: joining the pieces with the delimiter gives the text back, and no piece
      holds the delimiter. */
  lemma {:induction false} PySplitFromJoin(s: string, d: char, start: nat, j: nat)
    requires start <= j <= |s|
    requires forall k | start <= k < j :: s[k] != d
    ensures Join(PySplitFrom(s, d, start, j), d) == s[start..]
    ensures forall p, k | p in PySplitFrom(s, d, start, j) && 0 <= k < |p| :: p[k] != d
    decreases |s| - j
  {
    if j == |s| {
    } else if s[j] == d {
      PySplitFromJoin(s, d, j + 1, j + 1);
      var rest := PySplitFrom(s, d, j + 1, j + 1);
      assert ([s[start..j]] + rest)[1..] == rest;
      assert s[start..] == s[start..j] + [d] + s[j + 1..];
      forall p, k | p in [s[start..j]] + rest && 0 <= k < |p|
        ensures p[k] != d
      {
        if p == s[start..j] {
          assert p[k] == s[start + k];
        }
      }
    } else {
      PySplitFromJoin(s, d, start, j + 1);
    }
  }

  lemma PySplitJoin(s: string, d: char)
    ensures Join(PySplit(s, d), d) == s
    ensures forall p, k | p in PySplit(s, d) && 0 <= k < |p| :: p[k] != d
  {
    PySplitFromJoin(s, d, 0, 0);
    assert s[0..] == s;
  }

  /** `code = [line.split(" ") for line in code.split("\n")]`. */
  function Tokenize(text: string): (code: seq<seq<string>>)
    ensures |code| >= 1 && forall i | 0 <= i < |code| :: |code[i]| >= 1
  {
    var lines := PySplit(text, '\n');
    seq(|lines|, i requires 0 <= i < |lines| => PySplit(lines[i], ' '))
  }

  /** `stdin.readline()[:-1]` and the lines left: the next line without its last character (its line
      break), or `""` at the end of the input. */
  function ReadLine(stdin: seq<string>): (string, seq<string>) {
    if stdin == [] then ("", [])
    else if stdin[0] == [] then ([], stdin[1..])
    else (stdin[0][..|stdin[0]| - 1], stdin[1..])
  }

  // ---------------------------------------------------------------------------------------------
  // Item.equal
  // ---------------------------------------------------------------------------------------------

  /** `Item.equal`: equal tags and values, the identical `ptr` object (or both `None`), and the
      identical body list or two empty ones. */
  predicate Equal(store: seq<PyItem>, a: Ref, b: Ref)
    requires a < |store| && b < |store|
  {
    var x := store[a];
    var y := store[b];
    x.tag == y.tag && x.val == y.val && x.ptr == y.ptr && (x.bdyId == y.bdyId || (x.bdy == [] && y.bdy == []))
  }

  /** Every object equals itself, and `equal` is symmetric. */
  lemma EqualReflexiveSymmetric(store: seq<PyItem>, a: Ref, b: Ref)
    requires a < |store| && b < |store|
    ensures Equal(store, a, a)
    ensures Equal(store, a, b) == Equal(store, b, a)
  {
  }

  /** Items built without a body, the only items `EQ` meets on a well-formed stack, are equal iff their
      tags, their values and their `ptr` objects are; so two heap indices are equal iff they point to the
      same object, however alike two distinct objects are. */
  lemma EqualOnStackItems(store: seq<PyItem>, a: Ref, b: Ref)
    requires a < |store| && b < |store|
    requires store[a].bdyId == DefaultList && store[b].bdyId == DefaultList
    ensures Equal(store, a, b) <==>
      store[a].tag == store[b].tag && store[a].val == store[b].val && store[a].ptr == store[b].ptr
  {
  }

  /** Two distinct header objects with non-empty bodies are never equal, whatever they contain. */
  lemma DistinctHeadersDiffer(store: seq<PyItem>, a: Ref, b: Ref)
    requires a < |store| && b < |store| && a != b
    requires store[a].bdyId == OwnList(a) && store[b].bdyId == OwnList(b) && store[a].bdy != []
    ensures !Equal(store, a, b)
  {
  }

  // ---------------------------------------------------------------------------------------------
  // One iteration of the interpreter loop
  // ---------------------------------------------------------------------------------------------

  /** The Python exceptions other than `DlangRuntimeError` that a step can raise; they are not caught,
      so they end the program. `UnknownOpcode` is the final `raise Exception`. */
  datatype PyError = IndexError | KeyError | ValueError | UnknownOpcode

  /** The end of one iteration: the next state, a `DlangRuntimeError` (caught: the run stops, reporting
      `vm.cp` as it then is), or an uncaught exception. */
  datatype Step = Continue(vm: PyVM) | DlangError(cp: int) | Crash(error: PyError)

  /** The object on top of the stack (`vm.stack.pop()` raises `IndexError` on an empty list). */
  function Top(vm: PyVM): Ref
    requires |vm.stack| > 0
  {
    vm.stack[|vm.stack| - 1]
  }

  function Popped(vm: PyVM): PyVM
    requires |vm.stack| > 0
  {
    vm.(stack := vm.stack[..|vm.stack| - 1])
  }

  function Pushed(vm: PyVM, r: Ref): PyVM {
    vm.(stack := vm.stack + [r])
  }

  /** `vm.stack.append(Item(...))`: a new object at the end of the store, pushed. */
  function PushNew(vm: PyVM, item: PyItem): PyVM {
    vm.(store := vm.store + [item], stack := vm.stack + [|vm.store|])
  }

  function Advance(vm: PyVM): PyVM {
    vm.(cp := vm.cp + 1)
  }

  /** `UNARY`: pops one item; `NOT` of a `Bool` pushes `1 - val`, `NEG` of an `Int` pushes the wrapped
      negation, `READ` of a `Unit` pushes the integer on the next input line; anything else raises. */
  function UnaryStep(vm: PyVM, line: seq<string>): Step
    requires Valid(vm)
  {
    if |vm.stack| == 0 then Crash(IndexError)
    else
      var a := vm.store[Top(vm)];
      var rest := Popped(vm);
      if |line| < 2 then Crash(IndexError)
      else if line[1] == "NOT" && a.tag == Bool then Continue(Advance(PushNew(rest, Plain(Bool, 1 - a.val))))
      else if line[1] == "NEG" && a.tag == Int then Continue(Advance(PushNew(rest, Plain(Int, PyToInt(-a.val)))))
      else if line[1] == "READ" && a.tag == Unit then
        var (text, left) := ReadLine(rest.stdin);
        match PyInt(text)
        case None => Crash(ValueError)
        case Some(v) => Continue(Advance(PushNew(rest.(stdin := left), Plain(Int, v))))
      else DlangError(vm.cp)
  }

  /** The result item of `OPER op` on `a` and `b`, or `None` where the interpreter raises. */
  function OperResult(store: seq<PyItem>, op: string, aRef: Ref, bRef: Ref): Option<PyItem>
    requires aRef < |store| && bRef < |store|
  {
    var a := store[aRef];
    var b := store[bRef];
    if op == "AND" && a.tag == Bool && b.tag == Bool then Some(Plain(Bool, if a.val != 0 && b.val != 0 then 1 else 0))
    else if op == "OR" && a.tag == Bool && b.tag == Bool then Some(Plain(Bool, if a.val != 0 || b.val != 0 then 1 else 0))
    else if op == "EQ" then Some(Plain(Bool, if Equal(store, aRef, bRef) then 1 else 0))
    else if op == "LT" && a.tag == Int && b.tag == Int then Some(Plain(Bool, if a.val < b.val then 1 else 0))
    else if op == "ADD" && a.tag == Int && b.tag == Int then Some(Plain(Int, PyToInt(a.val + b.val)))
    else if op == "SUB" && a.tag == Int && b.tag == Int then Some(Plain(Int, PyToInt(a.val - b.val)))
    else if op == "MUL" && a.tag == Int && b.tag == Int then Some(Plain(Int, PyToInt(a.val * b.val)))
    else if op == "DIV" && a.tag == Int && b.tag == Int then
      if b.val == 0 then None else Some(Plain(Int, FloorDiv(a.val, b.val)))
    else None
  }

  /** `OPER`: pops `b`, then `a`, and pushes the result. */
  function OperStep(vm: PyVM, line: seq<string>): Step
    requires Valid(vm)
  {
    if |vm.stack| < 2 then Crash(IndexError)
    else
      var bRef := Top(vm);
      var aRef := Top(Popped(vm));
      var rest := Popped(Popped(vm));
      if |line| < 2 then Crash(IndexError)
      else match OperResult(vm.store, line[1], aRef, bRef)
        case None => DlangError(vm.cp)
        case Some(item) => Continue(Advance(PushNew(rest, item)))
  }

  /** `MK_PAIR`: pops `b`, then `a`, builds the pair header with body `[a, b]` and pushes a heap index
      pointing to it. */
  function MkPairStep(vm: PyVM): Step
    requires Valid(vm)
  {
    if |vm.stack| < 2 then Crash(IndexError)
    else
      var bRef := Top(vm);
      var aRef := Top(Popped(vm));
      var rest := Popped(Popped(vm));
      var pair := |rest.store|;
      Continue(Advance(PushNew(rest.(store := rest.store + [Header(PairHeader, pair, [aRef, bRef])]),
                               Pointer(HeapIndex, pair))))
  }

  /** `FST` (`k == 0`) and `SND` (`k == 1`): the top must be a heap index to a pair header; it is
      replaced by the header's body item `k`. */
  function ProjectStep(vm: PyVM, k: nat): Step
    requires Valid(vm) && k < 2
  {
    if |vm.stack| == 0 then Crash(IndexError)
    else
      var ptr := At(vm, Top(vm));
      var rest := Popped(vm);
      if ptr.tag != HeapIndex then DlangError(vm.cp)
      else
        var pair := At(vm, ptr.ptr.value);
        if pair.tag != PairHeader then DlangError(vm.cp)
        else Continue(Advance(Pushed(rest, pair.bdy[k])))
  }

  /** `MK_INL` and `MK_INR`: the popped item becomes the body of a new header, and a heap index to it
      is pushed. */
  function InjectStep(vm: PyVM, tag: PyTag): Step
    requires Valid(vm) && (tag == InlHeader || tag == InrHeader)
  {
    if |vm.stack| == 0 then Crash(IndexError)
    else
      var rest := Popped(vm);
      var header := |rest.store|;
      Continue(Advance(PushNew(rest.(store := rest.store + [Header(tag, header, [Top(vm)])]),
                               Pointer(HeapIndex, header))))
  }

  /** `PUSH`: `STACK_UNIT` pushes `Item(Unit)`; `STACK_BOOL v` pushes 1 iff `v` is `true`;
      `STACK_INT v` pushes `int(v)`, unwrapped; any other tag pushes nothing. */
  function PushStep(vm: PyVM, line: seq<string>): Step {
    if |line| < 2 then Crash(IndexError)
    else if line[1] == "STACK_UNIT" then Continue(Advance(PushNew(vm, Plain(Unit, 0))))
    else if line[1] == "STACK_BOOL" then
      if |line| < 3 then Crash(IndexError)
      else Continue(Advance(PushNew(vm, Plain(Bool, if line[2] == "true" then 1 else 0))))
    else if line[1] == "STACK_INT" then
      if |line| < 3 then Crash(IndexError)
      else match PyInt(line[2])
        case None => Crash(ValueError)
        case Some(v) => Continue(Advance(PushNew(vm, Plain(Int, v))))
    else Continue(Advance(vm))
  }

  /** `APPLY`: pushes the frame pointer and the return address `cp + 1`; the item below them must be a
      heap index to a closure whose first body item is a code index, which becomes `cp`; `fp` becomes
      the position of the pushed frame pointer. */
  function ApplyStep(vm: PyVM): Step
    requires Valid(vm)
  {
    // after the two pushes, `vm.stack[-3]` is the item that was on top before them
    var pushed := PushNew(PushNew(vm, Plain(FramePointer, vm.fp)), Plain(ReturnAddress, vm.cp + 1));
    if |vm.stack| == 0 then Crash(IndexError)
    else
      var ptr := At(vm, Top(vm));
      if ptr.tag != HeapIndex then DlangError(vm.cp)
      else
        var closure := At(vm, ptr.ptr.value);
        if closure.tag != ClosureHeader then DlangError(vm.cp)
        else
          var code := vm.store[closure.bdy[0]];
          if code.tag != CodeIndex then DlangError(vm.cp)
          else Continue(pushed.(cp := code.val, fp := |pushed.stack| - 2))
  }

  /** `LOOKUP STACK_LOCATION o` pushes `stack[fp + o]`; `LOOKUP HEAP_LOCATION o` needs a heap index at
      `stack[fp - 1]` and pushes item `o` of its target's body; other locations push nothing. The
      pushed object is the stored one, not a copy. */
  function LookupStep(vm: PyVM, line: seq<string>): Step
    requires Valid(vm)
  {
    if |line| < 2 then Crash(IndexError)
    else if line[1] == "STACK_LOCATION" then
      if |line| < 3 then Crash(IndexError)
      else match PyInt(line[2])
        case None => Crash(ValueError)
        case Some(o) =>
          match PyIndex(vm.stack, vm.fp + o)
          case None => Crash(IndexError)
          case Some(r) => Continue(Advance(Pushed(vm, r)))
    else if line[1] == "HEAP_LOCATION" then
      match PyIndex(vm.stack, vm.fp - 1)
      case None => Crash(IndexError)
      case Some(p) =>
        var ptr := At(vm, p);
        if ptr.tag != HeapIndex then DlangError(vm.cp)
        else if |line| < 3 then Crash(IndexError)
        else match PyInt(line[2])
          case None => Crash(ValueError)
          case Some(o) =>
            match PyIndex(vm.store[ptr.ptr.value].bdy, o)
            case None => Crash(IndexError)
            case Some(r) => Continue(Advance(Pushed(vm, r)))
    else Continue(Advance(vm))
  }

  /** `RETURN`: pops the result; `stack[fp + 1]` must be a return address, which becomes `cp`;
      `stack[fp]` must be a frame pointer and `fp - 2` must not be negative (both checked after `cp`
      has changed); then the stack is cut to its first `fp - 2` items, the result pushed, and `fp`
      restored. */
  function ReturnStep(vm: PyVM): Step
    requires Valid(vm)
  {
    if |vm.stack| == 0 then Crash(IndexError)
    else
      var item := Top(vm);
      var rest := Popped(vm);
      match PyIndex(rest.stack, vm.fp + 1)
      case None => Crash(IndexError)
      case Some(c) =>
        if vm.store[c].tag != ReturnAddress then DlangError(vm.cp)
        else
          var cp := vm.store[c].val;
          match PyIndex(rest.stack, vm.fp)
          case None => Crash(IndexError)
          case Some(f) =>
            if vm.store[f].tag != FramePointer then DlangError(cp)
            else if vm.fp - 2 < 0 then DlangError(cp)
            else
              var kept := if vm.fp - 2 <= |rest.stack| then vm.fp - 2 else |rest.stack|;
              Continue(rest.(stack := rest.stack[..kept] + [item], cp := cp, fp := vm.store[f].val))
  }

  /** `for _ in range(n): closure.bdy.append(vm.stack.pop())`: the `n` top items, top first, or
      `None` when the stack runs out. */
  function PopMany(stack: seq<Ref>, n: nat): (r: Option<(seq<Ref>, seq<Ref>)>)
    ensures r.Some? <==> n <= |stack|
    ensures r.Some? ==> |r.value.0| == n && r.value.1 == stack[..|stack| - n]
    ensures r.Some? ==> forall i | 0 <= i < n :: r.value.0[i] == stack[|stack| - 1 - i]
  {
    if n == 0 then Some(([], stack))
    else if stack == [] then None
    else match PopMany(stack[..|stack| - 1], n - 1)
      case None => None
      case Some((popped, left)) => Some(([stack[|stack| - 1]] + popped, left))
  }

  /** `MK_CLOSURE name n`: a closure header whose body is the code index of label `name` followed by
      the `n` popped items, top first; a heap index to it is pushed. A negative `n` pops nothing. */
  function MkClosureStep(vm: PyVM, line: seq<string>, labels: map<string, int>): Step
    requires Valid(vm)
  {
    if |line| < 3 then Crash(IndexError)
    else match PyInt(line[2])
      case None => Crash(ValueError)
      case Some(size) =>
        if line[1] !in labels then Crash(KeyError)
        else
          var closure := |vm.store|;
          match PopMany(vm.stack, PopCount(size))
          case None => Crash(IndexError)
          case Some((popped, left)) =>
            var store := vm.store + [Header(ClosureHeader, closure, [closure + 1] + popped),
                                     Plain(CodeIndex, labels[line[1]])];
            Continue(Advance(PushNew(vm.(store := store, stack := left), Pointer(HeapIndex, closure))))
  }

  /** `SWAP`: pops `a`, then `b`, and pushes `a`, then `b`. */
  function SwapStep(vm: PyVM): Step {
    if |vm.stack| < 2 then Crash(IndexError)
    else
      var a := Top(vm);
      var b := Top(Popped(vm));
      Continue(Advance(Pushed(Pushed(Popped(Popped(vm)), a), b)))
  }

  /** `POP`. */
  function PopStep(vm: PyVM): Step {
    if |vm.stack| == 0 then Crash(IndexError) else Continue(Advance(Popped(vm)))
  }

  /** `DEREF`: the top must be a `HeapRef`; it is replaced by the object it points to. */
  function DerefStep(vm: PyVM): Step
    requires Valid(vm)
  {
    if |vm.stack| == 0 then Crash(IndexError)
    else
      var item := At(vm, Top(vm));
      if item.tag != HeapRef then DlangError(vm.cp)
      else Continue(Advance(Pushed(Popped(vm), item.ptr.value)))
  }

  /** `MK_REF`: a new `HeapRef` to the popped object is pushed. */
  function MkRefStep(vm: PyVM): Step {
    if |vm.stack| == 0 then Crash(IndexError)
    else Continue(Advance(PushNew(Popped(vm), Pointer(HeapRef, Top(vm)))))
  }

  /** `ASSIGN`: pops the item, then the reference, which must be a `HeapRef`; the reference object is
      retargeted in place (every alias of it sees the change) and `Unit` is pushed. */
  function AssignStep(vm: PyVM): Step
    requires Valid(vm)
  {
    if |vm.stack| < 2 then Crash(IndexError)
    else
      var item := Top(vm);
      var ptr := Top(Popped(vm));
      var rest := Popped(Popped(vm));
      if vm.store[ptr].tag != HeapRef then DlangError(vm.cp)
      else
        var retargeted := rest.(store := rest.store[ptr := rest.store[ptr].(ptr := Some(item))]);
        Continue(Advance(PushNew(retargeted, Plain(Unit, 0))))
  }

  /** `GOTO name`: `cp` becomes the line of label `name`. */
  function GotoStep(vm: PyVM, line: seq<string>, labels: map<string, int>): Step {
    if |line| < 2 then Crash(IndexError)
    else if line[1] !in labels then Crash(KeyError)
    else Continue(vm.(cp := labels[line[1]]))
  }

  /** `TEST name`: pops a `Bool`; a non-zero value goes on to `cp + 1`, zero to label `name`. */
  function TestStep(vm: PyVM, line: seq<string>, labels: map<string, int>): Step
    requires Valid(vm)
  {
    if |vm.stack| == 0 then Crash(IndexError)
    else
      var item := vm.store[Top(vm)];
      var rest := Popped(vm);
      if item.tag != Bool then DlangError(vm.cp)
      else if item.val != 0 then Continue(Advance(rest))
      else if |line| < 2 then Crash(IndexError)
      else if line[1] !in labels then Crash(KeyError)
      else Continue(rest.(cp := labels[line[1]]))
  }

  /** `CASE name`: pops a heap index; an injection's payload is pushed, and `Inl` goes on to `cp + 1`
      while `Inr` goes to label `name`; any other target raises. */
  function CaseStep(vm: PyVM, line: seq<string>, labels: map<string, int>): Step
    requires Valid(vm)
  {
    if |vm.stack| == 0 then Crash(IndexError)
    else
      var ptr := At(vm, Top(vm));
      var rest := Popped(vm);
      if ptr.tag != HeapIndex then DlangError(vm.cp)
      else
        var item := At(vm, ptr.ptr.value);
        if item.tag == InlHeader then Continue(Advance(Pushed(rest, item.bdy[0])))
        else if item.tag == InrHeader then
          if |line| < 2 then Crash(IndexError)
          else if line[1] !in labels then Crash(KeyError)
          else Continue(Pushed(rest, item.bdy[0]).(cp := labels[line[1]]))
        else DlangError(vm.cp)
  }

  /** The body of the `while vm.status == 0` loop: the line at `cp` (a negative `cp` counts from the
      end, as Python indexing does) selects the opcode by its first token. */
  function PyStep(code: seq<seq<string>>, labels: map<string, int>, vm: PyVM): Step
    requires Valid(vm)
  {
    match PyIndex(code, vm.cp)
    case None => Crash(IndexError)
    case Some(line) =>
      if |line| == 0 then Crash(IndexError)
      else
        var op := line[0];
        if op == "UNARY" then UnaryStep(vm, line)
        else if op == "OPER" then OperStep(vm, line)
        else if op == "MK_PAIR" then MkPairStep(vm)
        else if op == "FST" then ProjectStep(vm, 0)
        else if op == "SND" then ProjectStep(vm, 1)
        else if op == "MK_INL" then InjectStep(vm, InlHeader)
        else if op == "MK_INR" then InjectStep(vm, InrHeader)
        else if op == "PUSH" then PushStep(vm, line)
        else if op == "APPLY" then ApplyStep(vm)
        else if op == "LOOKUP" then LookupStep(vm, line)
        else if op == "RETURN" then ReturnStep(vm)
        else if op == "MK_CLOSURE" then MkClosureStep(vm, line, labels)
        else ControlStep(op, vm, line, labels)
  }

  /** The rest of the opcode chain, from `SWAP` on. */
  function ControlStep(op: string, vm: PyVM, line: seq<string>, labels: map<string, int>): Step
    requires Valid(vm)
  {
    if op == "SWAP" then SwapStep(vm)
    else if op == "POP" then PopStep(vm)
    else if op == "LABEL" || op == "FUNCTION" then Continue(Advance(vm))
    else if op == "DEREF" then DerefStep(vm)
    else if op == "MK_REF" then MkRefStep(vm)
    else if op == "ASSIGN" then AssignStep(vm)
    else if op == "HALT" then Continue(vm.(status := 1))
    else if op == "GOTO" then GotoStep(vm, line, labels)
    else if op == "TEST" then TestStep(vm, line, labels)
    else if op == "CASE" then CaseStep(vm, line, labels)
    else Crash(UnknownOpcode)
  }

  // ---------------------------------------------------------------------------------------------
  // Every step keeps the store well formed
  // ---------------------------------------------------------------------------------------------

  /** Adding objects keeps the old ones well formed. */
  lemma Grow(store: seq<PyItem>, extra: seq<PyItem>)
    requires StoreValid(store)
    ensures forall i | 0 <= i < |store| :: ItemValid(store + extra, i)
  {
    forall i | 0 <= i < |store|
      ensures ItemValid(store + extra, i)
    {
      assert ItemValid(store, i);
      assert (store + extra)[i] == store[i];
    }
  }

  lemma PushNewValid(vm: PyVM, item: PyItem)
    requires Valid(vm) && ItemValid(vm.store + [item], |vm.store|)
    ensures Valid(PushNew(vm, item))
  {
    Grow(vm.store, [item]);
  }

  lemma PushedValid(vm: PyVM, r: Ref)
    requires Valid(vm) && r < |vm.store|
    ensures Valid(Pushed(vm, r))
  {
  }

  lemma PoppedValid(vm: PyVM)
    requires Valid(vm) && |vm.stack| > 0
    ensures Valid(Popped(vm))
  {
  }

  lemma NewHeaderValid(vm: PyVM, tag: PyTag, body: seq<Ref>)
    requires Valid(vm)
    requires forall k | 0 <= k < |body| :: body[k] < |vm.store|
    requires tag == PairHeader ==> |body| == 2
    requires (tag == InlHeader || tag == InrHeader) ==> |body| == 1
    requires tag == ClosureHeader ==> |body| >= 1
    requires tag != HeapIndex && tag != HeapRef
    ensures var at := |vm.store|;
      Valid(PushNew(vm.(store := vm.store + [Header(tag, at, body)]), Pointer(HeapIndex, at)))
  {
    var at := |vm.store|;
    var grown := vm.(store := vm.store + [Header(tag, at, body)]);
    Grow(vm.store, [Header(tag, at, body)]);
    assert Valid(grown);
    PushNewValid(grown, Pointer(HeapIndex, at));
  }

  lemma UnaryValid(vm: PyVM, line: seq<string>)
    requires Valid(vm)
    ensures UnaryStep(vm, line).Continue? ==> Valid(UnaryStep(vm, line).vm)
  {
    if |vm.stack| > 0 {
      var rest := Popped(vm);
      PoppedValid(vm);
      assert ItemValid(vm.store, Top(vm));
      var left := rest.(stdin := ReadLine(rest.stdin).1);
      assert Valid(left);
      forall v | v == 0 || v == 1 ensures Valid(PushNew(rest, Plain(Bool, v))) {
        PushNewValid(rest, Plain(Bool, v));
      }
      forall v ensures Valid(PushNew(rest, Plain(Int, v))) && Valid(PushNew(left, Plain(Int, v))) {
        PushNewValid(rest, Plain(Int, v));
        PushNewValid(left, Plain(Int, v));
      }
    }
  }

  lemma OperValid(vm: PyVM, line: seq<string>)
    requires Valid(vm)
    ensures OperStep(vm, line).Continue? ==> Valid(OperStep(vm, line).vm)
  {
    if |vm.stack| >= 2 && |line| >= 2 {
      PoppedValid(vm);
      PoppedValid(Popped(vm));
      var rest := Popped(Popped(vm));
      var r := OperResult(vm.store, line[1], Top(Popped(vm)), Top(vm));
      if r.Some? {
        PushNewValid(rest, r.value);
      }
    }
  }

  lemma MkPairValid(vm: PyVM)
    requires Valid(vm)
    ensures MkPairStep(vm).Continue? ==> Valid(MkPairStep(vm).vm)
  {
    if |vm.stack| >= 2 {
      PoppedValid(vm);
      PoppedValid(Popped(vm));
      NewHeaderValid(Popped(Popped(vm)), PairHeader, [Top(Popped(vm)), Top(vm)]);
    }
  }

  lemma InjectValid(vm: PyVM, tag: PyTag)
    requires Valid(vm) && (tag == InlHeader || tag == InrHeader)
    ensures InjectStep(vm, tag).Continue? ==> Valid(InjectStep(vm, tag).vm)
  {
    if |vm.stack| > 0 {
      PoppedValid(vm);
      NewHeaderValid(Popped(vm), tag, [Top(vm)]);
    }
  }

  lemma PushValid(vm: PyVM, line: seq<string>)
    requires Valid(vm)
    ensures PushStep(vm, line).Continue? ==> Valid(PushStep(vm, line).vm)
  {
    PushNewValid(vm, Plain(Unit, 0));
    PushNewValid(vm, Plain(Bool, 0));
    PushNewValid(vm, Plain(Bool, 1));
    forall v ensures Valid(PushNew(vm, Plain(Int, v))) {
      PushNewValid(vm, Plain(Int, v));
    }
  }

  /** The two pushes of `APPLY` keep the machine well formed. */
  lemma FramePushValid(vm: PyVM)
    requires Valid(vm)
    ensures Valid(PushNew(PushNew(vm, Plain(FramePointer, vm.fp)), Plain(ReturnAddress, vm.cp + 1)))
  {
    PushNewValid(vm, Plain(FramePointer, vm.fp));
    PushNewValid(PushNew(vm, Plain(FramePointer, vm.fp)), Plain(ReturnAddress, vm.cp + 1));
  }

  lemma ApplyValid(vm: PyVM)
    requires Valid(vm)
    ensures ApplyStep(vm).Continue? ==> Valid(ApplyStep(vm).vm)
  {
    FramePushValid(vm);
  }

  lemma LookupValid(vm: PyVM, line: seq<string>)
    requires Valid(vm)
    ensures LookupStep(vm, line).Continue? ==> Valid(LookupStep(vm, line).vm)
  {
    if |line| >= 3 && PyInt(line[2]).Some? {
      var o := PyInt(line[2]).value;
      if line[1] == "STACK_LOCATION" {
        var r := PyIndex(vm.stack, vm.fp + o);
        if r.Some? {
          PushedValid(vm, r.value);
        }
      } else if line[1] == "HEAP_LOCATION" {
        var p := PyIndex(vm.stack, vm.fp - 1);
        if p.Some? && At(vm, p.value).tag == HeapIndex {
          var h := At(vm, At(vm, p.value).ptr.value);
          var r := PyIndex(h.bdy, o);
          if r.Some? {
            PushedValid(vm, r.value);
          }
        }
      }
    }
  }

  lemma ReturnValid(vm: PyVM)
    requires Valid(vm)
    ensures ReturnStep(vm).Continue? ==> Valid(ReturnStep(vm).vm)
  {
  }

  /** The popped items and the stack left are references to existing objects. */
  lemma PopManyRefs(vm: PyVM, n: nat)
    requires Valid(vm) && PopMany(vm.stack, n).Some?
    ensures forall k | 0 <= k < n :: PopMany(vm.stack, n).value.0[k] < |vm.store|
    ensures Valid(vm.(stack := PopMany(vm.stack, n).value.1))
  {
  }

  /** The closure header, its code index and the heap index to it keep the machine well formed. */
  /** A closure header at `at` whose body starts with the object after it. */
  lemma ClosureHeaderValid(store: seq<PyItem>, at: Ref, body: seq<Ref>)
    requires at + 1 < |store| && store[at] == Header(ClosureHeader, at, [at + 1] + body)
    requires forall k | 0 <= k < |body| :: body[k] < |store|
    ensures ItemValid(store, at)
  {
    var contents := [at + 1] + body;
    forall k | 0 <= k < |contents| ensures contents[k] < |store| {
      if k > 0 { assert contents[k] == body[k - 1]; }
    }
  }

  lemma NewClosureValid(vm: PyVM, body: seq<Ref>, cp: int)
    requires Valid(vm)
    requires forall k | 0 <= k < |body| :: body[k] < |vm.store|
    ensures var closure := |vm.store|;
      Valid(PushNew(vm.(store := vm.store + [Header(ClosureHeader, closure, [closure + 1] + body), Plain(CodeIndex, cp)]),
                    Pointer(HeapIndex, closure)))
  {
    var closure := |vm.store|;
    var store := vm.store + [Header(ClosureHeader, closure, [closure + 1] + body), Plain(CodeIndex, cp)];
    Grow(vm.store, [Header(ClosureHeader, closure, [closure + 1] + body), Plain(CodeIndex, cp)]);
    ClosureHeaderValid(store, closure, body);
    assert ItemValid(store, closure + 1) by {
      assert store[closure + 1] == Plain(CodeIndex, cp);
    }
    assert StoreValid(store);
    PushNewValid(vm.(store := store), Pointer(HeapIndex, closure));
  }

  lemma MkClosureValid(vm: PyVM, line: seq<string>, labels: map<string, int>)
    requires Valid(vm)
    ensures MkClosureStep(vm, line, labels).Continue? ==> Valid(MkClosureStep(vm, line, labels).vm)
  {
    if |line| >= 3 && PyInt(line[2]).Some? && line[1] in labels {
      var n := PopCount(PyInt(line[2]).value);
      if PopMany(vm.stack, n).Some? {
        PopManyRefs(vm, n);
        var (body, left) := PopMany(vm.stack, n).value;
        NewClosureValid(vm.(stack := left), body, labels[line[1]]);
      }
    }
  }

  lemma AssignValid(vm: PyVM)
    requires Valid(vm)
    ensures AssignStep(vm).Continue? ==> Valid(AssignStep(vm).vm)
  {
    if |vm.stack| >= 2 && vm.store[Top(Popped(vm))].tag == HeapRef {
      PoppedValid(vm);
      PoppedValid(Popped(vm));
      var item := Top(vm);
      var ptr := Top(Popped(vm));
      var rest := Popped(Popped(vm));
      var store := rest.store[ptr := rest.store[ptr].(ptr := Some(item))];
      forall i | 0 <= i < |store|
        ensures ItemValid(store, i)
      {
        assert ItemValid(rest.store, i);
      }
      PushNewValid(rest.(store := store), Plain(Unit, 0));
    }
  }

  lemma MkRefValid(vm: PyVM)
    requires Valid(vm)
    ensures MkRefStep(vm).Continue? ==> Valid(MkRefStep(vm).vm)
  {
    if |vm.stack| > 0 {
      PoppedValid(vm);
      PushNewValid(Popped(vm), Pointer(HeapRef, Top(vm)));
    }
  }

  lemma CaseValid(vm: PyVM, line: seq<string>, labels: map<string, int>)
    requires Valid(vm)
    ensures CaseStep(vm, line, labels).Continue? ==> Valid(CaseStep(vm, line, labels).vm)
  {
    if |vm.stack| > 0 && At(vm, Top(vm)).tag == HeapIndex {
      PoppedValid(vm);
      var item := At(vm, At(vm, Top(vm)).ptr.value);
      if item.tag == InlHeader || item.tag == InrHeader {
        PushedValid(Popped(vm), item.bdy[0]);
      }
    }
  }

  lemma ControlValid(op: string, vm: PyVM, line: seq<string>, labels: map<string, int>)
    requires Valid(vm)
    ensures ControlStep(op, vm, line, labels).Continue? ==> Valid(ControlStep(op, vm, line, labels).vm)
  {
    if op == "MK_REF" {
      MkRefValid(vm);
    } else if op == "ASSIGN" {
      AssignValid(vm);
    } else if op == "CASE" {
      CaseValid(vm, line, labels);
    }
  }

  /** Every iteration of the loop that goes on leaves a well-formed machine. */
  lemma StepValid(code: seq<seq<string>>, labels: map<string, int>, vm: PyVM)
    requires Valid(vm)
    ensures PyStep(code, labels, vm).Continue? ==> Valid(PyStep(code, labels, vm).vm)
  {
    match PyIndex(code, vm.cp)
    case None =>
    case Some(line) =>
      if |line| > 0 {
        var op := line[0];
        if op == "UNARY" { UnaryValid(vm, line); }
        else if op == "OPER" { OperValid(vm, line); }
        else if op == "MK_PAIR" { MkPairValid(vm); }
        else if op == "FST" || op == "SND" { }
        else if op == "MK_INL" { InjectValid(vm, InlHeader); }
        else if op == "MK_INR" { InjectValid(vm, InrHeader); }
        else if op == "PUSH" { PushValid(vm, line); }
        else if op == "APPLY" { ApplyValid(vm); }
        else if op == "LOOKUP" { LookupValid(vm, line); }
        else if op == "RETURN" { ReturnValid(vm); }
        else if op == "MK_CLOSURE" { MkClosureValid(vm, line, labels); }
        else { ControlValid(op, vm, line, labels); }
      }
  }

  // ---------------------------------------------------------------------------------------------
  // Opcode properties
  // ---------------------------------------------------------------------------------------------

  /** The unwrapped result of `ADD`, `SUB` and `MUL`. */
  function ArithValue(op: string, x: int, y: int): int {
    if op == "ADD" then x + y else if op == "SUB" then x - y else x * y
  }

  /** `ADD`, `SUB` and `MUL` on two integers pop both and push one new `Int` holding the 32-bit
      reading of the exact result. */
  lemma OperArithmeticWraps(vm: PyVM, line: seq<string>)
    requires Valid(vm) && |vm.stack| >= 2 && |line| >= 2 && line[1] in {"ADD", "SUB", "MUL"}
    requires vm.store[Top(Popped(vm))].tag == Int && vm.store[Top(vm)].tag == Int
    ensures var a := vm.store[Top(Popped(vm))].val;
      var b := vm.store[Top(vm)].val;
      var step := OperStep(vm, line);
      step.Continue? &&
      step.vm.store == vm.store + [Plain(Int, ToInt(ArithValue(line[1], a, b)))] &&
      step.vm.stack == vm.stack[..|vm.stack| - 2] + [|vm.store|] && step.vm.cp == vm.cp + 1 &&
      INT_MIN <= ToInt(ArithValue(line[1], a, b)) <= INT_MAX
  {
    var a := vm.store[Top(Popped(vm))].val;
    var b := vm.store[Top(vm)].val;
    PyToIntIsToInt(ArithValue(line[1], a, b));
    assert Popped(Popped(vm)).stack == vm.stack[..|vm.stack| - 2];
  }

  /** `DIV` on two integers raises on a zero divisor; otherwise it pushes the floor of the quotient,
      which is not wrapped. */
  lemma OperDivision(vm: PyVM, line: seq<string>)
    requires Valid(vm) && |vm.stack| >= 2 && |line| >= 2 && line[1] == "DIV"
    requires vm.store[Top(Popped(vm))].tag == Int && vm.store[Top(vm)].tag == Int
    ensures var a := vm.store[Top(Popped(vm))].val;
      var b := vm.store[Top(vm)].val;
      var step := OperStep(vm, line);
      (b == 0 <==> step == DlangError(vm.cp)) &&
      (b != 0 ==> step.Continue? && |step.vm.store| == |vm.store| + 1 &&
                  step.vm.store[|vm.store|].tag == Int &&
                  var r := a - step.vm.store[|vm.store|].val * b;
                  (b > 0 ==> 0 <= r < b) && (b < 0 ==> b < r <= 0))
  {
    var a := vm.store[Top(Popped(vm))].val;
    var b := vm.store[Top(vm)].val;
    if b != 0 {
      FloorDivMeaning(a, b);
      assert OperStep(vm, line).vm.store == vm.store + [Plain(Int, FloorDiv(a, b))];
    }
  }

  /** A tag mismatch raises `DlangRuntimeError` for every operator but `EQ`, which compares any two
      items; an unknown operator raises as well. */
  lemma OperTagMismatch(vm: PyVM, line: seq<string>)
    requires Valid(vm) && |vm.stack| >= 2 && |line| >= 2
    ensures var a := vm.store[Top(Popped(vm))];
      var b := vm.store[Top(vm)];
      var logical := line[1] in {"AND", "OR"};
      var arithmetic := line[1] in {"LT", "ADD", "SUB", "MUL", "DIV"};
      (logical && (a.tag != Bool || b.tag != Bool) ==> OperStep(vm, line) == DlangError(vm.cp)) &&
      (arithmetic && (a.tag != Int || b.tag != Int) ==> OperStep(vm, line) == DlangError(vm.cp)) &&
      (!logical && !arithmetic && line[1] != "EQ" ==> OperStep(vm, line) == DlangError(vm.cp)) &&
      (line[1] == "EQ" ==> OperStep(vm, line).Continue?)
  {
  }

  /** `PUSH STACK_BOOL v` pushes `1` exactly when `v` is `true`: `false` and every other word give 0. */
  lemma PushBool(vm: PyVM, line: seq<string>)
    requires |line| >= 3 && line[1] == "STACK_BOOL"
    ensures PushStep(vm, line).Continue?
    ensures var pushed := PushStep(vm, line).vm;
      pushed.stack == vm.stack + [|vm.store|] && |pushed.store| == |vm.store| + 1 &&
      pushed.store[|vm.store|].tag == Bool && (pushed.store[|vm.store|].val == 1 <==> line[2] == "true")
  {
  }

  /** `RETURN` with a frame pointer below position 2 raises, reporting the return address it has
      already moved `cp` to. */
  lemma ReturnBelowFrameRaises(vm: PyVM)
    requires Valid(vm) && |vm.stack| > 0 && vm.fp < 2
    requires PyIndex(Popped(vm).stack, vm.fp + 1).Some? && PyIndex(Popped(vm).stack, vm.fp).Some?
    requires vm.store[PyIndex(Popped(vm).stack, vm.fp + 1).value].tag == ReturnAddress
    ensures ReturnStep(vm) == DlangError(vm.store[PyIndex(Popped(vm).stack, vm.fp + 1).value].val)
  {
  }

  /** The calling convention: after an `APPLY` that enters a closure, a `RETURN` with the callee's
      result `x` on top (and the frame as `APPLY` left it) comes back to the line after the `APPLY`
      with the caller's `fp`, the closure and the argument below it replaced by `x`; with fewer than
      two items below the frame it raises. */
  lemma ApplyThenReturn(vm: PyVM, callee: PyVM, x: Ref)
    requires Valid(vm) && ApplyStep(vm).Continue?
    requires Valid(callee) && x < |callee.store|
    requires callee.stack == ApplyStep(vm).vm.stack + [x] && callee.fp == ApplyStep(vm).vm.fp
    requires |callee.store| >= |vm.store| + 2
    requires callee.store[|vm.store|] == Plain(FramePointer, vm.fp)
    requires callee.store[|vm.store| + 1] == Plain(ReturnAddress, vm.cp + 1)
    ensures |vm.stack| >= 2 ==>
      ReturnStep(callee) == Continue(callee.(stack := vm.stack[..|vm.stack| - 2] + [x], cp := vm.cp + 1, fp := vm.fp))
    ensures |vm.stack| < 2 ==> ReturnStep(callee) == DlangError(vm.cp + 1)
  {
    var applied := ApplyStep(vm).vm;
    assert applied.stack == vm.stack + [|vm.store|, |vm.store| + 1];
    assert applied.fp == |vm.stack|;
    var rest := Popped(callee);
    assert rest.stack == applied.stack;
    assert rest.stack[callee.fp + 1] == |vm.store| + 1;
    assert rest.stack[callee.fp] == |vm.store|;
    if |vm.stack| >= 2 {
      assert rest.stack[..callee.fp - 2] == vm.stack[..|vm.stack| - 2];
    }
  }

  /** The number of items `MK_CLOSURE` pops for the size operand `size`: `range(size)` is empty
      for a negative size. */
  function PopCount(size: int): (n: nat)
    ensures size >= 0 ==> n == size
    ensures size < 0 ==> n == 0
  {
    if size < 0 then 0 else size
  }

  /** `MK_CLOSURE name n` goes on exactly when the line has both operands, `n` is an integer, `name`
      is a label and the stack holds the items to pop. */
  lemma MkClosureGoesOn(vm: PyVM, line: seq<string>, labels: map<string, int>)
    requires Valid(vm)
    ensures MkClosureStep(vm, line, labels).Continue? <==>
      |line| >= 3 && PyInt(line[2]).Some? && line[1] in labels && PopCount(PyInt(line[2]).value) <= |vm.stack|
  {
  }

  /** The closure `MK_CLOSURE name n` builds: a header whose body is a code index holding the label's
      line followed by the `n` popped items, top first; a new heap index to the header replaces them
      on the stack. */
  lemma MkClosureBody(vm: PyVM, line: seq<string>, labels: map<string, int>, n: nat)
    requires Valid(vm) && |line| >= 3 && PyInt(line[2]).Some? && line[1] in labels
    requires n == PopCount(PyInt(line[2]).value) && n <= |vm.stack|
    ensures MkClosureStep(vm, line, labels).Continue?
    ensures var next := MkClosureStep(vm, line, labels).vm;
      var closure := |vm.store|;
      |next.store| == closure + 3 && next.store[..closure] == vm.store &&
      next.store[closure].tag == ClosureHeader && |next.store[closure].bdy| == n + 1 &&
      next.store[closure].bdy[0] == closure + 1 &&
      next.store[closure + 1] == Plain(CodeIndex, labels[line[1]]) &&
      (forall i | 1 <= i <= n :: next.store[closure].bdy[i] == vm.stack[|vm.stack| - i]) &&
      next.store[closure + 2] == Pointer(HeapIndex, closure) &&
      next.stack == vm.stack[..|vm.stack| - n] + [closure + 2] && next.cp == vm.cp + 1
  {
    var (popped, left) := PopMany(vm.stack, n).value;
    var closure := |vm.store|;
    var body := [closure + 1] + popped;
    var next := MkClosureStep(vm, line, labels).vm;
    assert next.store == vm.store + [Header(ClosureHeader, closure, body), Plain(CodeIndex, labels[line[1]]),
                                     Pointer(HeapIndex, closure)];
    forall i | 1 <= i <= n ensures body[i] == vm.stack[|vm.stack| - i] {
      assert body[i] == popped[i - 1];
    }
  }

  // ---------------------------------------------------------------------------------------------
  // Locating the labels
  // ---------------------------------------------------------------------------------------------

  /** Line `i` is a `LABEL` or `FUNCTION` line. */
  predicate LabelLine(code: seq<seq<string>>, i: nat)
    requires i < |code|
  {
    |code[i]| > 0 && (code[i][0] == "LABEL" || code[i][0] == "FUNCTION")
  }

  /** Line `i` defines label `name`. */
  predicate Defines(code: seq<seq<string>>, i: nat, name: string)
    requires i < |code|
  {
    LabelLine(code, i) && |code[i]| >= 2 && code[i][1] == name
  }

  /** Line `i` makes the pre-pass raise `IndexError`: it has no first token, or it is a label line
      without a name. */
  predicate Nameless(code: seq<seq<string>>, i: nat)
    requires i < |code|
  {
    |code[i]| == 0 || (LabelLine(code, i) && |code[i]| < 2)
  }

  /** `cp_from_label` after the pre-pass has seen the first `n` lines; a later definition of a name
      overwrites an earlier one. */
  function LabelsUpTo(code: seq<seq<string>>, n: nat): Option<map<string, int>>
    requires n <= |code|
  {
    if n == 0 then Some(map[])
    else match LabelsUpTo(code, n - 1)
      case None => None
      case Some(m) =>
        if Nameless(code, n - 1) then None
        else if LabelLine(code, n - 1) then Some(m[code[n - 1][1] := n - 1])
        else Some(m)
  }

  /** The pre-pass raises iff some line among the first `n` is nameless; otherwise it maps exactly
      the defined names, each to the last line among the first `n` that defines it. */
  lemma {:induction false} LabelsLastWins(code: seq<seq<string>>, n: nat)
    requires n <= |code|
    ensures LabelsUpTo(code, n).None? <==> exists i | 0 <= i < n :: Nameless(code, i)
    ensures LabelsUpTo(code, n).Some? ==> var m := LabelsUpTo(code, n).value;
      (forall name | name in m :: 0 <= m[name] < n && Defines(code, m[name], name) &&
                                  forall j | m[name] < j < n :: !Defines(code, j, name)) &&
      (forall i, name | 0 <= i < n && Defines(code, i, name) :: name in m)
  {
    if n > 0 {
      LabelsLastWins(code, n - 1);
      if LabelsUpTo(code, n - 1).None? {
        var i :| 0 <= i < n - 1 && Nameless(code, i);
        assert 0 <= i < n && Nameless(code, i);
      } else if !Nameless(code, n - 1) {
        assert forall i | 0 <= i < n - 1 :: !Nameless(code, i);
      }
    }
  }

  /** Once the pre-pass has raised, later lines do not matter. */
  lemma {:induction false} LabelsStayFailed(code: seq<seq<string>>, k: nat, n: nat)
    requires k <= n <= |code| && LabelsUpTo(code, k).None?
    ensures LabelsUpTo(code, n).None?
    decreases n - k
  {
    if k < n {
      LabelsStayFailed(code, k + 1, n);
    }
  }

  /** The `for cp in range(len(code))` loop that fills `cp_from_label`; `None` is the `IndexError`
      of a nameless line. */
  method LocateLabels(code: seq<seq<string>>) returns (r: Option<map<string, int>>)
    ensures r == LabelsUpTo(code, |code|)
  {
    var labels := map[];
    var cp := 0;
    while cp < |code|
      invariant 0 <= cp <= |code|
      invariant LabelsUpTo(code, cp) == Some(labels)
    {
      if |code[cp]| == 0 || ((code[cp][0] == "LABEL" || code[cp][0] == "FUNCTION") && |code[cp]| < 2) {
        LabelsStayFailed(code, cp + 1, |code|);
        return None;
      }
      if code[cp][0] == "LABEL" || code[cp][0] == "FUNCTION" {
        labels := labels[code[cp][1] := cp];
      }
      cp := cp + 1;
    }
    r := Some(labels);
  }

  // ---------------------------------------------------------------------------------------------
  // The interpreter loop
  // ---------------------------------------------------------------------------------------------

  /** How `interpret` ends: `HALT` has set `status`, a `DlangRuntimeError` was caught (its message
      reports `cp`), another exception escaped, or the step budget ran out first. */
  datatype Termination = Halted(vm: PyVM) | StoppedByError(cp: int) | Crashed(error: PyError) | OutOfFuel(vm: PyVM)

  /** A loop body: defined on every well-formed machine, and leaving a well-formed one when it goes on. */
  ghost predicate Closed(step: PyVM --> Step) {
    forall v | Valid(v) :: step.requires(v) && (step(v).Continue? ==> Valid(step(v).vm))
  }

  /** The body of the interpreter's loop for a program and its labels. */
  function Stepper(code: seq<seq<string>>, labels: map<string, int>): PyVM --> Step {
    vm requires Valid(vm) => PyStep(code, labels, vm)
  }

  /** The interpreter's loop body keeps the machine well formed. */
  lemma StepperClosed(code: seq<seq<string>>, labels: map<string, int>)
    ensures Closed(Stepper(code, labels))
  {
    forall v | Valid(v)
      ensures Stepper(code, labels).requires(v)
      ensures Stepper(code, labels)(v).Continue? ==> Valid(Stepper(code, labels)(v).vm)
    {
      StepValid(code, labels, v);
    }
  }

  /** At most `fuel` iterations of `while vm.status == 0` with loop body `step`; the machine stays
      well formed. */
  function Run(step: PyVM --> Step, vm: PyVM, fuel: nat): (t: Termination)
    requires Closed(step) && Valid(vm)
    ensures t.Halted? ==> Valid(t.vm) && t.vm.status != 0
    ensures t.OutOfFuel? ==> Valid(t.vm) && t.vm.status == 0
    decreases fuel
  {
    if vm.status != 0 then Halted(vm)
    else if fuel == 0 then OutOfFuel(vm)
    else match step(vm)
      case Continue(next) => Run(step, next, fuel - 1)
      case DlangError(cp) => StoppedByError(cp)
      case Crash(error) => Crashed(error)
  }

  /** A run that ends within its budget ends the same way with any larger budget. */
  lemma {:induction false} RunMoreFuel(step: PyVM --> Step, vm: PyVM, fuel: nat, more: nat)
    requires Closed(step) && Valid(vm) && fuel <= more && !Run(step, vm, fuel).OutOfFuel?
    ensures Run(step, vm, more) == Run(step, vm, fuel)
    decreases fuel
  {
    if vm.status == 0 && fuel > 0 && step(vm).Continue? {
      RunMoreFuel(step, step(vm).vm, fuel - 1, more - 1);
    }
  }

  /** The `while vm.status == 0` loop, at most `fuel` iterations of `step`. */
  method RunLoop(step: PyVM --> Step, start: PyVM, fuel: nat) returns (t: Termination)
    requires Closed(step) && Valid(start)
    ensures t == Run(step, start, fuel)
  {
    var vm := start;
    var left := fuel;
    while vm.status == 0 && left > 0
      invariant Valid(vm) && Run(step, vm, left) == Run(step, start, fuel)
      decreases left
    {
      var next := step(vm);
      if next.DlangError? {
        return StoppedByError(next.cp);
      } else if next.Crash? {
        return Crashed(next.error);
      }
      vm := next.vm;
      left := left - 1;
    }
    t := if vm.status != 0 then Halted(vm) else OutOfFuel(vm);
  }

  /** `interpret` on a program text: tokenize, locate the labels, then run from the initial machine. */
  function InterpretRun(text: string, stdin: seq<string>, fuel: nat): (t: Termination)
    ensures t.Halted? ==> Valid(t.vm)
  {
    var code := Tokenize(text);
    match LabelsUpTo(code, |code|)
    case None => Crashed(IndexError)
    case Some(labels) =>
      StepperClosed(code, labels);
      Run(Stepper(code, labels), InitialVM(stdin), fuel)
  }

  /** `interpret`, with the loop bounded by `fuel` iterations and `stdin` given as the lines
      `readline` returns. */
  method Interpret(text: string, stdin: seq<string>, fuel: nat) returns (t: Termination)
    ensures t == InterpretRun(text, stdin, fuel)
  {
    var code := Tokenize(text);
    var found := LocateLabels(code);
    if found.None? {
      return Crashed(IndexError);
    }
    StepperClosed(code, found.value);
    t := RunLoop(Stepper(code, found.value), InitialVM(stdin), fuel);
  }

  // ---------------------------------------------------------------------------------------------
  // The printed result
  // ---------------------------------------------------------------------------------------------

  /** `_print_result(res)`: `()`, the integer, `false`/`true` for 0/1, `reference`, a pair of the
      components' texts, or `ERROR` for everything else. */
  function Render(store: seq<PyItem>, r: Ref): (s: string)
    requires StoreValid(store) && r < |store|
    ensures |s| > 0
    decreases r
  {
    var res := store[r];
    assert ItemValid(store, r);
    match res.tag
    case Unit => "()"
    case Int => IntToString(res.val)
    case Bool => if res.val == 0 then "false" else if res.val == 1 then "true" else "ERROR"
    case HeapRef => "reference"
    case HeapIndex =>
      var p := res.ptr.value;
      assert ItemValid(store, p);
      if store[p].tag == PairHeader then Machine.PairText(Render(store, store[p].bdy[0]), Render(store, store[p].bdy[1]))
      else "ERROR"
    case _ => "ERROR"
  }

  /** A heap index to a pair renders as `(a, b)` from its components' texts, and as `ERROR` as soon
      as either component does; a heap index to anything else renders as `ERROR`. */
  lemma RenderPair(store: seq<PyItem>, r: Ref)
    requires StoreValid(store) && r < |store| && store[r].tag == HeapIndex
    ensures ItemValid(store, r) && ItemValid(store, store[r].ptr.value)
    ensures var p := store[r].ptr.value;
      p < r && (store[p].tag != PairHeader ==> Render(store, r) == "ERROR") &&
      (store[p].tag == PairHeader ==>
        var a := Render(store, store[p].bdy[0]);
        var b := Render(store, store[p].bdy[1]);
        (Render(store, r) == "ERROR" <==> a == "ERROR" || b == "ERROR") &&
        (a != "ERROR" && b != "ERROR" ==> Render(store, r) == "(" + a + ", " + b + ")"))
  {
    assert ItemValid(store, r);
    assert ItemValid(store, store[r].ptr.value);
  }

  /** The Python and the C++ renderings agree on every item that is not a heap index: an `Int`
      holding the 32-bit reading of the C++ word, a `Bool` holding the same 0 or 1, `Unit` and
      `HeapRef`. */
  lemma RenderAgreesWithVM(store: seq<PyItem>, r: Ref, item: TaggedMemory.Item)
    requires StoreValid(store) && r < |store|
    requires var p := store[r];
      (p.tag == Unit && item.tag == TaggedMemory.Unit) ||
      (p.tag == Bool && item.tag == TaggedMemory.Bool && p.val == item.value) ||
      (p.tag == Int && item.tag == TaggedMemory.Int && p.val == ToInt(item.value)) ||
      (p.tag == HeapRef && item.tag == TaggedMemory.HeapRef)
    ensures Render(store, r) == Machine.ScalarText(item)
  {
    assert ItemValid(store, r);
  }

  /** `print_result`: the top of the stack rendered, or `None` for the `IndexError` of an empty
      stack. */
  function PrintResult(vm: PyVM): (out: Option<string>)
    requires Valid(vm)
    ensures out.None? <==> |vm.stack| == 0
    ensures out.Some? ==> out.value == Render(vm.store, Top(vm))
  {
    if |vm.stack| == 0 then None else Some(Render(vm.store, Top(vm)))
  }

  /** What `interpret` prints at the default verbosity: the result after `HALT`, or the runtime error
      line; `None` when an exception escapes or the step budget runs out. */
  function Printed(t: Termination): (out: Option<string>)
    requires t.Halted? ==> Valid(t.vm)
    ensures t.StoppedByError? ==> out == Some("Runtime error at cp = " + IntToString(t.cp))
    ensures t.Halted? ==> out == PrintResult(t.vm)
    ensures t.Crashed? || t.OutOfFuel? ==> out.None?
  {
    match t
    case Halted(vm) => PrintResult(vm)
    case StoppedByError(cp) => Some("Runtime error at cp = " + IntToString(cp))
    case Crashed(_) => None
    case OutOfFuel(_) => None
  }
}
