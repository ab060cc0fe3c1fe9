/** `MarkAndSweepGC::collectGarbage`: mark every heap cell reachable from the stack, move the marked
    cells to the front of a fresh heap in index order, and rewrite every pointer to the new index. */
module GarbageCollection {
  import opened Wrappers
  import opened Words
  import opened Exceptions
  import opened TaggedMemory
  import opened Machine

  /** Every index below `n`. */
  function Below(n: nat): (r: set<nat>)
    ensures forall i: nat :: i in r <==> i < n
  {
    if n == 0 then {} else Below(n - 1) + {n - 1}
  }

  /** The `i`-th cell of the object whose header is at `idx` (`size_t` arithmetic). */
  function BodyCell(idx: int, i: int): Word {
    Wrap(idx + i)
  }

  // ---------------------------------------------------------------------------------------------
  // The mark phase.

  /** `markRecursive(idx)` on the heap cells `h`, starting from the marked set `m`: the set it leaves,
      or `None` when it reads a cell outside the heap (an out-of-range `operator[]`). */
  function Mark(h: seq<Item>, idx: Word, m: set<nat>): (r: Option<set<nat>>)
    ensures r.Some? ==> m <= r.value && idx in r.value
    ensures r.Some? ==> forall j | j in r.value && j !in m :: j < |h|
    decreases Below(|h|) - m, 0
  {
    if idx in m then Some(m)
    else if idx >= |h| then None
    else
      var m1 := m + {idx};
      assert idx in Below(|h|) - m && idx !in Below(|h|) - m1;
      var item := h[idx];
      if item.tag.IsPointer() then Mark(h, item.value, m1)
      else if item.tag.IsHeader() then MarkBody(h, idx, 1, item.value, m1)
      else Some(m1)
  }

  /** The loop of `markRecursive` over the body of the object whose header at `idx` has length `len`:
      mark cells `idx + i .. idx + len - 1`. */
  function MarkBody(h: seq<Item>, idx: Word, i: nat, len: Word, m: set<nat>): (r: Option<set<nat>>)
    ensures r.Some? ==> m <= r.value
    ensures r.Some? ==> forall k | i <= k < len :: BodyCell(idx, k) in r.value
    ensures r.Some? ==> forall j | j in r.value && j !in m :: j < |h|
    decreases Below(|h|) - m, 1, len - i
  {
    if i >= len then Some(m)
    else
      var m1 :- Mark(h, BodyCell(idx, i), m);
      MarkBody(h, idx, i + 1, len, m1)
  }

  /** The mark loop of `collectGarbage` over stack slots `j .. sp - 1`: every slot tagged `HeapIndex`
      or `HeapRef` is a root. */
  function MarkRoots(stack: seq<Item>, sp: nat, h: seq<Item>, j: nat, m: set<nat>): (r: Option<set<nat>>)
    requires sp <= |stack|
    ensures r.Some? ==> m <= r.value
    ensures r.Some? ==> forall k | j <= k < sp && stack[k].tag.IsPointer() :: stack[k].value in r.value
    ensures r.Some? ==> forall i | i in r.value && i !in m :: i < |h|
    decreases sp - j
  {
    if j >= sp then Some(m)
    else if stack[j].tag.IsPointer() then
      var m1 :- Mark(h, stack[j].value, m);
      MarkRoots(stack, sp, h, j + 1, m1)
    else MarkRoots(stack, sp, h, j + 1, m)
  }

  /** Cell `j` of `h` lies in the heap, and everything the marker goes on to from it lies in `c`: the
      target of a pointer, and the body of an object. */
  predicate ClosedAt(h: seq<Item>, c: set<nat>, j: nat) {
    && j < |h|
    && (h[j].tag.IsPointer() ==> h[j].value in c)
    && (h[j].tag.IsHeader() ==> forall k | 1 <= k < h[j].value :: BodyCell(j, k) in c)
  }

  /** `c` is a set of heap cells closed under the marker's rules. */
  predicate Closed(h: seq<Item>, c: set<nat>) {
    forall j | j in c :: ClosedAt(h, c, j)
  }

  /** Every cell that `markRecursive` newly marks has all its successors marked when it returns. */
  lemma {:induction false} MarkClosesNew(h: seq<Item>, idx: Word, m: set<nat>)
    requires Mark(h, idx, m).Some?
    ensures forall j | j in Mark(h, idx, m).value && j !in m :: ClosedAt(h, Mark(h, idx, m).value, j)
    decreases Below(|h|) - m, 0
  {
    if idx !in m {
      var m1 := m + {idx};
      assert idx in Below(|h|) - m && idx !in Below(|h|) - m1;
      var item := h[idx];
      if item.tag.IsPointer() {
        MarkClosesNew(h, item.value, m1);
      } else if item.tag.IsHeader() {
        MarkBodyClosesNew(h, idx, 1, item.value, m1);
      }
    }
  }

  lemma {:induction false} MarkBodyClosesNew(h: seq<Item>, idx: Word, i: nat, len: Word, m: set<nat>)
    requires MarkBody(h, idx, i, len, m).Some?
    ensures forall j | j in MarkBody(h, idx, i, len, m).value && j !in m ::
              ClosedAt(h, MarkBody(h, idx, i, len, m).value, j)
    decreases Below(|h|) - m, 1, len - i
  {
    if i < len {
      var m1 := Mark(h, BodyCell(idx, i), m).value;
      var r := MarkBody(h, idx, i + 1, len, m1).value;
      MarkClosesNew(h, BodyCell(idx, i), m);
      MarkBodyClosesNew(h, idx, i + 1, len, m1);
      forall j | j in r && j !in m
        ensures ClosedAt(h, r, j)
      {
        if j !in m1 {
        } else {
          assert ClosedAt(h, m1, j);
        }
      }
    }
  }

  lemma {:induction false} MarkRootsClosesNew(stack: seq<Item>, sp: nat, h: seq<Item>, j: nat, m: set<nat>)
    requires sp <= |stack|
    requires MarkRoots(stack, sp, h, j, m).Some?
    ensures forall i | i in MarkRoots(stack, sp, h, j, m).value && i !in m ::
              ClosedAt(h, MarkRoots(stack, sp, h, j, m).value, i)
    decreases sp - j
  {
    if j < sp {
      var m1 := if stack[j].tag.IsPointer() then Mark(h, stack[j].value, m).value else m;
      var r := MarkRoots(stack, sp, h, j + 1, m1).value;
      if stack[j].tag.IsPointer() {
        MarkClosesNew(h, stack[j].value, m);
      }
      MarkRootsClosesNew(stack, sp, h, j + 1, m1);
      forall i | i in r && i !in m
        ensures ClosedAt(h, r, i)
      {
        if i in m1 {
          assert ClosedAt(h, m1, i);
        }
      }
    }
  }

  /** `markRecursive` marks nothing outside a closed set that holds its start and what was already
      marked, and it stays inside the heap when such a set exists. */
  lemma {:induction false} MarkLeast(h: seq<Item>, idx: Word, m: set<nat>, c: set<nat>)
    requires m <= c && idx in c && Closed(h, c)
    ensures Mark(h, idx, m).Some? && Mark(h, idx, m).value <= c
    decreases Below(|h|) - m, 0
  {
    if idx !in m {
      assert ClosedAt(h, c, idx);
      var m1 := m + {idx};
      assert idx in Below(|h|) - m && idx !in Below(|h|) - m1;
      var item := h[idx];
      if item.tag.IsPointer() {
        MarkLeast(h, item.value, m1, c);
      } else if item.tag.IsHeader() {
        MarkBodyLeast(h, idx, 1, item.value, m1, c);
      }
    }
  }

  lemma {:induction false} MarkBodyLeast(h: seq<Item>, idx: Word, i: nat, len: Word, m: set<nat>, c: set<nat>)
    requires m <= c && Closed(h, c)
    requires forall k | i <= k < len :: BodyCell(idx, k) in c
    ensures MarkBody(h, idx, i, len, m).Some? && MarkBody(h, idx, i, len, m).value <= c
    decreases Below(|h|) - m, 1, len - i
  {
    if i < len {
      MarkLeast(h, BodyCell(idx, i), m, c);
      var m1 := Mark(h, BodyCell(idx, i), m).value;
      MarkBodyLeast(h, idx, i + 1, len, m1, c);
    }
  }

  lemma {:induction false} MarkRootsLeast(stack: seq<Item>, sp: nat, h: seq<Item>, j: nat, m: set<nat>, c: set<nat>)
    requires sp <= |stack|
    requires m <= c && Closed(h, c)
    requires forall k | j <= k < sp && stack[k].tag.IsPointer() :: stack[k].value in c
    ensures MarkRoots(stack, sp, h, j, m).Some? && MarkRoots(stack, sp, h, j, m).value <= c
    decreases sp - j
  {
    if j < sp {
      var m1 := m;
      if stack[j].tag.IsPointer() {
        MarkLeast(h, stack[j].value, m, c);
        m1 := Mark(h, stack[j].value, m).value;
      }
      MarkRootsLeast(stack, sp, h, j + 1, m1, c);
    }
  }

  /** The roots of a collection: the values of the pointer slots among `stack[0..sp)`. */
  predicate HoldsRoots(stack: seq<Item>, sp: nat, c: set<nat>)
    requires sp <= |stack|
  {
    forall k | 0 <= k < sp && stack[k].tag.IsPointer() :: stack[k].value in c
  }

  /** The mark phase marks exactly the least closed set of cells that holds the roots: the marked set
      holds the roots, is closed, and lies inside every closed set that holds the roots. */
  lemma MarkedIsLeastClosed(stack: seq<Item>, sp: nat, h: seq<Item>, c: set<nat>)
    requires sp <= |stack|
    requires MarkRoots(stack, sp, h, 0, {}).Some?
    ensures HoldsRoots(stack, sp, MarkRoots(stack, sp, h, 0, {}).value)
    ensures Closed(h, MarkRoots(stack, sp, h, 0, {}).value)
    ensures Closed(h, c) && HoldsRoots(stack, sp, c) ==> MarkRoots(stack, sp, h, 0, {}).value <= c
  {
    MarkRootsClosesNew(stack, sp, h, 0, {});
    if Closed(h, c) && HoldsRoots(stack, sp, c) {
      MarkRootsLeast(stack, sp, h, 0, {}, c);
    }
  }

  /** On a heap whose pointers and objects all lie inside it, marking from roots inside it never reads
      outside the heap. */
  lemma WellFormedHeapMarks(stack: seq<Item>, sp: nat, h: seq<Item>)
    requires sp <= |stack|
    requires Closed(h, Below(|h|)) && HoldsRoots(stack, sp, Below(|h|))
    ensures MarkRoots(stack, sp, h, 0, {}).Some?
  {
    MarkRootsLeast(stack, sp, h, 0, {}, Below(|h|));
  }

  // ---------------------------------------------------------------------------------------------
  // The sweep phase.

  /** The members of `m` below `n` in increasing order: the order in which a `std::set` is iterated. */
  function Ascending(m: set<nat>, n: nat): (order: seq<nat>)
    ensures forall k | 0 <= k < |order| :: order[k] < n && order[k] in m
    ensures forall i | 0 <= i < n && i in m :: i in order
    ensures forall k, l | 0 <= k < l < |order| :: order[k] < order[l]
    ensures |order| <= n
  {
    if n == 0 then [] else Ascending(m, n - 1) + (if n - 1 in m then [n - 1] else [])
  }

  /** The members of `m` below `n`. */
  function Within(m: set<nat>, n: nat): (r: set<nat>)
    ensures forall i :: i in r <==> i in m && i < n
  {
    if n == 0 then {} else Within(m, n - 1) + (if n - 1 in m then {n - 1} else {})
  }

  /** The number of members of `m` below `n`. */
  function Count(m: set<nat>, n: nat): (c: nat)
    ensures c <= n
  {
    if n == 0 then 0 else Count(m, n - 1) + (if n - 1 in m then 1 else 0)
  }

  /** Iterating a set of indices below `n` visits each member once. */
  lemma AscendingCard(m: set<nat>, n: nat)
    ensures |Ascending(m, n)| == |Within(m, n)|
  {
    AscendingCount(m, n);
    WithinCount(m, n);
  }

  lemma {:induction false} AscendingCount(m: set<nat>, n: nat)
    ensures |Ascending(m, n)| == Count(m, n)
  {
    if n > 0 {
      AscendingCount(m, n - 1);
    }
  }

  lemma {:induction false} WithinCount(m: set<nat>, n: nat)
    ensures |Within(m, n)| == Count(m, n)
  {
    if n > 0 {
      WithinCount(m, n - 1);
      assert n - 1 !in Within(m, n - 1);
    }
  }

  /** `newIndex_` once the sweep has visited `order`: each visited index maps to its position. */
  function IndexMap(order: seq<nat>): (index: map<nat, Word>)
    requires |order| <= WORD_MODULUS
    ensures index.Keys == set k | 0 <= k < |order| :: order[k]
    decreases |order|
  {
    if order == [] then map[]
    else IndexMap(order[..|order| - 1])[order[|order| - 1] := |order| - 1]
  }

  /** In increasing order, the new index of each visited index is its rank: its position in the order. */
  lemma {:induction false} IndexMapRank(order: seq<nat>, k: nat)
    requires |order| <= WORD_MODULUS && k < |order|
    requires forall a, b | 0 <= a < b < |order| :: order[a] < order[b]
    ensures order[k] in IndexMap(order) && IndexMap(order)[order[k]] == k
    decreases |order|
  {
    if k < |order| - 1 {
      var init := order[..|order| - 1];
      IndexMapRank(init, k);
      assert order[k] == init[k] != order[|order| - 1];
    }
  }

  /** The new heap after `n` steps of the sweep: cell `k < n` holds the `k`-th marked cell, and every
      other cell is fresh. */
  function Compacted(h: seq<Item>, order: seq<nat>, n: nat): (r: seq<Item>)
    requires n <= |order| <= |h|
    requires forall k | 0 <= k < |order| :: order[k] < |h|
    ensures |r| == |h|
    ensures forall k | 0 <= k < n :: r[k] == h[order[k]]
    ensures forall k | n <= k < |h| :: r[k] == Blank
  {
    seq(|h|, k requires 0 <= k < |h| => if k < n then h[order[k]] else Blank)
  }

  /** One reindexing loop over `items[j..end)`: every `HeapIndex` or `HeapRef` value is replaced by
      `index.at(value)`, which throws `std::out_of_range` when the value is not a key. */
  function Remap(items: seq<Item>, j: nat, end: nat, index: map<nat, Word>): (res: (seq<Item>, Outcome<Exception>))
    requires end <= |items|
    ensures |res.0| == |items|
    ensures res.1.Fail? ==> res.1 == Fail(OutOfRange)
    ensures res.1.Pass? <==> forall k | j <= k < end && items[k].tag.IsPointer() :: items[k].value in index
    ensures res.1.Pass? ==> forall k | j <= k < end ::
              res.0[k] == if items[k].tag.IsPointer() then Item(items[k].tag, index[items[k].value]) else items[k]
    ensures forall k | 0 <= k < |items| && !(j <= k < end) :: res.0[k] == items[k]
    decreases end - j
  {
    if j >= end then (items, Pass)
    else if items[j].tag.IsPointer() then
      if items[j].value in index then
        var next := items[j := Item(items[j].tag, index[items[j].value])];
        assert forall k | 0 <= k < |items| && k != j :: next[k] == items[k];
        Remap(next, j + 1, end, index)
      else (items, Fail(OutOfRange))
    else Remap(items, j + 1, end, index)
  }

  // ---------------------------------------------------------------------------------------------
  // The whole collection.

  /** The collection policy: run only once `10 * hp >= 9 * heap.size()`, products in `size_t`. */
  predicate Triggered(s: VMState) {
    Wrap(10 * s.hp) >= Wrap(9 * |s.heap.items|)
  }

  /** What a triggered collection needs for its behaviour to be defined: the stack loops stay below
      the stack's size, the heap size is a `size_t`, and marking stays inside the heap. */
  predicate CollectDefined(s: VMState) {
    Triggered(s) ==>
      && s.sp <= |s.stack.items|
      && |s.heap.items| < WORD_MODULUS
      && MarkRoots(s.stack.items, s.sp, s.heap.items, 0, {}).Some?
  }

  /** The set the mark phase of a triggered collection leaves. */
  function Marked(s: VMState): (marked: set<nat>)
    requires Triggered(s) && CollectDefined(s)
    ensures marked <= Below(|s.heap.items|)
  {
    MarkRoots(s.stack.items, s.sp, s.heap.items, 0, {}).value
  }

  /** Every marked cell is visited by the sweep, and the new `hp` is the number of marked cells. */
  lemma MarkedOrder(s: VMState)
    requires Triggered(s) && CollectDefined(s)
    ensures |Ascending(Marked(s), |s.heap.items|)| == |Marked(s)| <= |s.heap.items|
  {
    var n := |s.heap.items|;
    AscendingCard(Marked(s), n);
    assert Within(Marked(s), n) == Marked(s);
  }

  /** The state after the mark phase and the compaction: the heap holds the marked cells in index
      order (`operator=` keeps its size and its manager) and `hp` is the number of marked cells. */
  function Swept(s: VMState): (r: VMState)
    requires Triggered(s) && CollectDefined(s)
    ensures r.hp <= |r.heap.items| == |s.heap.items| && r.sp == s.sp
  {
    var order := Ascending(Marked(s), |s.heap.items|);
    MarkedOrder(s);
    s.(heap := s.heap.(items := Compacted(s.heap.items, order, |order|)), hp := |Marked(s)|)
  }

  /** The reindexing phase: first the stack slots `0 .. sp-1`, then the heap cells `0 .. hp-1`. */
  function Reindex(s: VMState, index: map<nat, Word>): (r: Run<()>)
    requires s.sp <= |s.stack.items| && s.hp <= |s.heap.items|
  {
    var (st, o) := Remap(s.stack.items, 0, s.sp, index);
    var s1 := s.(stack := s.stack.(items := st));
    if o.Fail? then Err(s1, o.error)
    else
      var (hs, o2) := Remap(s1.heap.items, 0, s1.hp, index);
      var s2 := s1.(heap := s1.heap.(items := hs));
      if o2.Fail? then Err(s2, o2.error) else Ok(s2, ())
  }

  /** `MarkAndSweepGC::collectGarbage`. */
  function Collect(s: VMState): (r: Run<()>)
    requires CollectDefined(s)
    ensures !Triggered(s) ==> r == Ok(s, ())
  {
    if !Triggered(s) then Ok(s, ())
    else Reindex(Swept(s), IndexMap(Ascending(Marked(s), |s.heap.items|)))
  }

  /** `collectGarbage` of a memory manager: only `MarkAndSweepGC` collects; `NoAllocation` and
      `AmortizedAllocation` leave the machine as it is. */
  function PolicyCollect(policy: Policy, s: VMState): (r: Run<()>)
    requires policy.MarkAndSweepGC? ==> CollectDefined(s)
    ensures !policy.MarkAndSweepGC? ==> r == Ok(s, ())
  {
    if policy.MarkAndSweepGC? then Collect(s) else Ok(s, ())
  }

  /** The new index of marked cell `i` is its rank among the marked cells. */
  function Rank(marked: set<nat>, i: nat): (r: nat)
    ensures r <= i
  {
    WithinCount(marked, i);
    |Within(marked, i)|
  }

  /** The new index the sweep gives a marked cell is its rank. */
  lemma NewIndexIsRank(s: VMState, i: nat)
    requires Triggered(s) && CollectDefined(s) && i in Marked(s)
    ensures var order := Ascending(Marked(s), |s.heap.items|);
            && i in IndexMap(order) && IndexMap(order)[i] == Rank(Marked(s), i)
            && Rank(Marked(s), i) < |order| && order[Rank(Marked(s), i)] == i
  {
    var order := Ascending(Marked(s), |s.heap.items|);
    MarkedOrder(s);
    var k :| 0 <= k < |order| && order[k] == i;
    IndexMapRank(order, k);
    AscendingPrefix(Marked(s), |s.heap.items|, k);
  }

  /** The members of the marked set below the `k`-th one are the first `k`. */
  lemma AscendingPrefix(m: set<nat>, n: nat, k: nat)
    requires k < |Ascending(m, n)|
    ensures Rank(m, Ascending(m, n)[k]) == k
  {
    var order := Ascending(m, n);
    SortedPrefix(order, m, n, k);
    DistinctCard(order, k);
  }

  /** In a strictly increasing listing of the members of `m` below `n`, the members below the `k`-th
      one are the first `k`. */
  lemma SortedPrefix(order: seq<nat>, m: set<nat>, n: nat, k: nat)
    requires k < |order|
    requires forall a | 0 <= a < |order| :: order[a] < n && order[a] in m
    requires forall i | 0 <= i < n && i in m :: i in order
    requires forall a, b | 0 <= a < b < |order| :: order[a] < order[b]
    ensures Within(m, order[k]) == set a | 0 <= a < k :: order[a]
  {
    var prefix := set a | 0 <= a < k :: order[a];
    forall x | x in Within(m, order[k])
      ensures x in prefix
    {
      var b :| 0 <= b < |order| && order[b] == x;
      assert b < k;
    }
  }

  /** `k` distinct values of a strictly increasing sequence make a set of `k` members. */
  lemma {:induction false} DistinctCard(order: seq<nat>, k: nat)
    requires k <= |order|
    requires forall a, b | 0 <= a < b < |order| :: order[a] < order[b]
    ensures |set a | 0 <= a < k :: order[a]| == k
  {
    if k > 0 {
      DistinctCard(order, k - 1);
      var before := set a | 0 <= a < k - 1 :: order[a];
      assert (set a | 0 <= a < k :: order[a]) == before + {order[k - 1]};
      assert order[k - 1] !in before;
    }
  }

  // ---------------------------------------------------------------------------------------------
  // What a collection achieves.

  /** An item moved by a collection: a pointer's value becomes the rank of the cell it points to. */
  function Relocated(marked: set<nat>, item: Item): Item {
    if item.tag.IsPointer() then Item(item.tag, Rank(marked, item.value)) else item
  }

  /** The keys of `newIndex_` are exactly the marked cells. */
  lemma IndexKeys(s: VMState)
    requires Triggered(s) && CollectDefined(s)
    ensures IndexMap(Ascending(Marked(s), |s.heap.items|)).Keys == Marked(s)
  {
    var order := Ascending(Marked(s), |s.heap.items|);
    forall i | i in Marked(s)
      ensures i in IndexMap(order)
    {
      NewIndexIsRank(s, i);
    }
  }

  /** A collection whose behaviour is defined never throws: every root and every pointer in a marked
      cell leads to a marked cell, so `newIndex_.at` always finds its key. */
  lemma CollectNeverThrows(s: VMState)
    requires CollectDefined(s)
    ensures Collect(s).Ok?
  {
    if Triggered(s) {
      var marked := Marked(s);
      var order := Ascending(marked, |s.heap.items|);
      var index := IndexMap(order);
      var s1 := Swept(s);
      StackRemapPasses(s);
      HeapRemapPasses(s);
    }
  }

  /** Every root is marked, so reindexing the stack never throws. */
  lemma StackRemapPasses(s: VMState)
    requires Triggered(s) && CollectDefined(s)
    ensures Remap(Swept(s).stack.items, 0, s.sp, IndexMap(Ascending(Marked(s), |s.heap.items|))).1.Pass?
  {
    IndexKeys(s);
  }

  /** Every pointer in a marked cell points to a marked cell, so reindexing the new heap never throws. */
  lemma HeapRemapPasses(s: VMState)
    requires Triggered(s) && CollectDefined(s)
    ensures Remap(Swept(s).heap.items, 0, Swept(s).hp, IndexMap(Ascending(Marked(s), |s.heap.items|))).1.Pass?
  {
    var marked := Marked(s);
    var order := Ascending(marked, |s.heap.items|);
    var index := IndexMap(order);
    var hs := Swept(s).heap.items;
    IndexKeys(s);
    MarkedIsLeastClosed(s.stack.items, s.sp, s.heap.items, {});
    MarkedOrder(s);
    forall k | 0 <= k < Swept(s).hp && hs[k].tag.IsPointer()
      ensures hs[k].value in index
    {
      assert hs[k] == s.heap.items[order[k]];
      assert ClosedAt(s.heap.items, marked, order[k]);
    }
  }

  /** A collection changes only the two memories' cells and `hp`; both memories keep their size and manager. */
  lemma CollectKeepsRegisters(s: VMState)
    requires CollectDefined(s)
    ensures Collect(s).Ok?
    ensures var t := Collect(s).state;
            && t.(stack := s.stack, heap := s.heap, hp := s.hp) == s
            && |t.stack.items| == |s.stack.items| && t.stack.manager == s.stack.manager
            && |t.heap.items| == |s.heap.items| && t.heap.manager == s.heap.manager
            && (Triggered(s) ==> t.hp == |Marked(s)|)
  {
    CollectNeverThrows(s);
  }

  /** After a collection, each pointer among the first `sp` stack slots holds the rank of the cell it
      pointed to, and every other stack slot is as it was. */
  lemma CollectStack(s: VMState, k: nat)
    requires Triggered(s) && CollectDefined(s) && k < |s.stack.items|
    ensures Collect(s).Ok?
    ensures Collect(s).state.stack.items[k] ==
              if k < s.sp then Relocated(Marked(s), s.stack.items[k]) else s.stack.items[k]
  {
    CollectNeverThrows(s);
    var marked := Marked(s);
    var index := IndexMap(Ascending(marked, |s.heap.items|));
    var item := s.stack.items[k];
    if k < s.sp && item.tag.IsPointer() {
      assert item.value in marked;
      NewIndexIsRank(s, item.value);
      assert index[item.value] == Rank(marked, item.value);
    }
  }

  /** After a collection, the cells of the heap are the marked cells in index order, each moved to its
      rank with its pointers relocated, followed by fresh cells from the new `hp` on. */
  lemma CollectHeap(s: VMState, i: nat)
    requires Triggered(s) && CollectDefined(s) && i in Marked(s)
    ensures Collect(s).Ok?
    ensures Rank(Marked(s), i) < Collect(s).state.hp
    ensures Collect(s).state.heap.items[Rank(Marked(s), i)] == Relocated(Marked(s), s.heap.items[i])
  {
    CollectNeverThrows(s);
    MarkedOrder(s);
    var marked := Marked(s);
    var order := Ascending(marked, |s.heap.items|);
    var index := IndexMap(order);
    NewIndexIsRank(s, i);
    var k := Rank(marked, i);
    var s1 := Swept(s);
    assert s1.heap.items[k] == s.heap.items[i];
    var item := s.heap.items[i];
    if item.tag.IsPointer() {
      MarkedIsLeastClosed(s.stack.items, s.sp, s.heap.items, {});
      assert ClosedAt(s.heap.items, marked, i);
      NewIndexIsRank(s, item.value);
    }
  }

  /** After a collection, the heap cells from the new `hp` on are fresh. */
  lemma CollectHeapTail(s: VMState, k: nat)
    requires Triggered(s) && CollectDefined(s)
    requires |Marked(s)| <= k < |s.heap.items|
    ensures Collect(s).Ok? && Collect(s).state.heap.items[k] == Blank
  {
    CollectNeverThrows(s);
    MarkedOrder(s);
  }
  // ---------------------------------------------------------------------------------------------
  // The collector object.

  /** `MarkAndSweepGC`: a `NoAllocation` manager whose `marked_` set and `newIndex_` map are members
      that each collection refills. */
  class MarkAndSweepCollector {
    var marked: set<nat>
    var newIndex: map<nat, Word>
    const initialSize: InitialSize

    /** How the manager grows a memory: as `NoAllocation` does. */
    function Growth(): Policy {
      MarkAndSweepGC(initialSize)
    }

    constructor(initialSize: InitialSize)
      ensures this.initialSize == initialSize && marked == {} && newIndex == map[]
    {
      this.initialSize := initialSize;
      marked := {};
      newIndex := map[];
    }

    /** `markRecursive(idx, vm)`. */
    method MarkRecursive(idx: Word, vm: VirtualMachine)
      requires Mark(vm.heap.items, idx, marked).Some?
      modifies this
      ensures marked == Mark(vm.heap.items, idx, old(marked)).value
      ensures newIndex == old(newIndex)
      decreases Below(|vm.heap.items|) - marked, 0
    {
      if idx in marked {
        return;
      }
      ghost var h := vm.heap.items;
      marked := marked + {idx};
      assert idx in Below(|h|) - old(marked) && idx !in Below(|h|) - marked;
      var item := vm.heap.items[idx];
      if item.tag.IsPointer() {
        MarkRecursive(item.value, vm);
      }
      if item.tag.IsHeader() {
        ghost var goal := MarkBody(h, idx, 1, item.value, marked);
        var i := 1;
        while i < item.value
          invariant i >= 1 && old(marked) + {idx} <= marked
          invariant MarkBody(h, idx, i, item.value, marked) == goal
          invariant newIndex == old(newIndex)
          decreases item.value - i
        {
          MarkRecursive(BodyCell(idx, i), vm);
          i := i + 1;
        }
      }
    }

    /** The mark phase of `collectGarbage`: clear `marked_`, then mark from every root. */
    method MarkPhase(vm: VirtualMachine)
      requires vm.sp <= |vm.stack.items|
      requires MarkRoots(vm.stack.items, vm.sp, vm.heap.items, 0, {}).Some?
      modifies this
      ensures marked == MarkRoots(vm.stack.items, vm.sp, vm.heap.items, 0, {}).value
      ensures newIndex == old(newIndex)
    {
      ghost var goal := MarkRoots(vm.stack.items, vm.sp, vm.heap.items, 0, {});
      marked := {};
      var idx := 0;
      while idx < vm.sp
        invariant idx <= vm.sp
        invariant MarkRoots(vm.stack.items, vm.sp, vm.heap.items, idx, marked) == goal
        invariant newIndex == old(newIndex)
      {
        if vm.stack.items[idx].tag.IsPointer() {
          MarkRecursive(vm.stack.items[idx].value, vm);
        }
        idx := idx + 1;
      }
    }

    /** The first sweep phase of `collectGarbage`: copy the marked cells, in order, to the front of a
        fresh memory of the heap's size, assign it to the heap, and set `hp` to the number of marked cells. */
    method SweepPhase(vm: VirtualMachine)
      requires vm.Valid() && Triggered(vm.State()) && CollectDefined(vm.State())
      requires marked == Marked(vm.State())
      modifies this, vm, vm.heap
      ensures vm.State() == Swept(old(vm.State()))
      ensures marked == old(marked)
      ensures newIndex == IndexMap(Ascending(marked, |old(vm.heap.items)|))
    {
      MarkedOrder(vm.State());
      var order := Ascending(marked, |vm.heap.items|);
      var newHeap := CopyMarked(vm.heap.items, order);
      vm.heap.Assign(newHeap);
      vm.hp := |marked|;
    }

    /** The loop over `marked_` in increasing order (`order`): the `k`-th marked cell goes to cell `k`
        of a fresh memory, and `newIndex_` maps it to `k`. */
    method CopyMarked(h: seq<Item>, order: seq<nat>) returns (newHeap: Memory)
      requires |order| <= |h| < WORD_MODULUS
      requires forall k | 0 <= k < |order| :: order[k] < |h|
      modifies this
      ensures fresh(newHeap)
      ensures newHeap.items == Compacted(h, order, |order|) && newHeap.manager == None
      ensures newIndex == IndexMap(order) && marked == old(marked)
    {
      newHeap := new Memory(|h|);
      newIndex := map[];
      var nextIdx := 0;
      while nextIdx < |order|
        invariant nextIdx <= |order|
        invariant newIndex == IndexMap(order[..nextIdx]) && marked == old(marked)
        invariant newHeap.items == Compacted(h, order, nextIdx) && newHeap.manager == None
      {
        var idx := order[nextIdx];
        assert order[..nextIdx + 1][..nextIdx] == order[..nextIdx];
        newIndex := newIndex[idx := nextIdx];
        newHeap.items := newHeap.items[nextIdx := h[idx]];
        nextIdx := nextIdx + 1;
      }
      assert order[..nextIdx] == order;
    }

    /** One reindexing loop of `collectGarbage`: `memory[idx].value = newIndex_.at(memory[idx].value)`
        for every pointer among the first `end` cells. */
    method Relocate(memory: Memory, end: nat) returns (outcome: Outcome<Exception>)
      requires end <= |memory.items|
      modifies memory
      ensures (memory.items, outcome) == Remap(old(memory.items), 0, end, newIndex)
      ensures memory.manager == old(memory.manager)
    {
      ghost var goal := Remap(memory.items, 0, end, newIndex);
      var idx := 0;
      while idx < end
        invariant idx <= end && |memory.items| == |old(memory.items)|
        invariant Remap(memory.items, idx, end, newIndex) == goal
        invariant memory.manager == old(memory.manager)
      {
        var item := memory.items[idx];
        if item.tag.IsPointer() {
          if item.value !in newIndex {
            return Fail(OutOfRange);
          }
          memory.items := memory.items[idx := Item(item.tag, newIndex[item.value])];
        }
        idx := idx + 1;
      }
      outcome := Pass;
    }

    /** `MarkAndSweepGC::collectGarbage(vm)`. */
    method CollectGarbage(vm: VirtualMachine) returns (outcome: Outcome<Exception>)
      requires vm.Valid() && CollectDefined(vm.State())
      modifies this, vm, vm.stack, vm.heap
      ensures RunOf(vm.State(), outcome) == Collect(old(vm.State()))
    {
      if Wrap(10 * vm.hp) < Wrap(9 * |vm.heap.items|) {
        return Pass;
      }
      ghost var s := vm.State();
      MarkPhase(vm);
      SweepPhase(vm);
      ghost var s1 := vm.State();
      assert s1 == Swept(s);
      outcome := Relocate(vm.stack, vm.sp);
      if outcome.Fail? {
        return;
      }
      outcome := Relocate(vm.heap, vm.hp);
    }
  }
}
