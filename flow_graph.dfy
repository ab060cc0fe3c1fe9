/** `FlowGraph<T>`: the control-flow graph the optimizer builds over T-code. Nodes are kept in an arena
    and named by their index, which is also their position in the line (the order they were added).
    An edge added towards an id that has no node yet stays pending until the first node with that id
    is added. */
module FlowGraphs {
  import opened Wrappers

  /** The whole state of a graph: each node's id, value, successors and predecessors, the first node
      added for each id (`idFirstNode_`), the pending edges towards each missing id (`missingEdges_`),
      and the nodes that end with an edge out of the graph. The last added node is the last index. */
  datatype GraphState<T> = GraphState(
    ids: seq<int>,
    values: seq<T>,
    succ: seq<seq<nat>>,
    pred: seq<seq<nat>>,
    firstNode: map<int, nat>,
    missing: map<int, seq<nat>>,
    outEdges: set<nat>)

  /** Every index refers to a node: successors, predecessors, first nodes, the sources of pending
      edges and the nodes with an out edge. Pending edges wait only for ids that have no node. */
  predicate GraphValid<T>(g: GraphState<T>) {
    var n := |g.ids|;
    && |g.values| == n && |g.succ| == n && |g.pred| == n
    && (forall i, k | 0 <= i < n && 0 <= k < |g.succ[i]| :: g.succ[i][k] < n)
    && (forall i, k | 0 <= i < n && 0 <= k < |g.pred[i]| :: g.pred[i][k] < n)
    && (forall id | id in g.firstNode :: g.firstNode[id] < n)
    && (forall id | id in g.missing :: id !in g.firstNode && forall k | 0 <= k < |g.missing[id]| :: g.missing[id][k] < n)
    && (forall i | i in g.outEdges :: i < n)
  }

  /** Every edge is in its source's successors exactly when it is in its target's predecessors. */
  predicate Symmetric<T>(g: GraphState<T>)
    requires GraphValid(g)
  {
    forall i, j | 0 <= i < |g.ids| && 0 <= j < |g.ids| :: j in g.succ[i] <==> i in g.pred[j]
  }

  /** The first node of an id carries that id, and every node's id has a first node no later than it. */
  predicate Identified<T>(g: GraphState<T>)
    requires GraphValid(g)
  {
    && (forall id | id in g.firstNode :: g.ids[g.firstNode[id]] == id)
    && (forall i | 0 <= i < |g.ids| :: g.ids[i] in g.firstNode && g.firstNode[g.ids[i]] <= i)
  }

  /** A graph without nodes. */
  function Empty<T>(): (g: GraphState<T>)
    ensures GraphValid(g) && Symmetric(g) && Identified(g) && |g.ids| == 0
  {
    GraphState([], [], [], [], map[], map[], {})
  }

  /** `addEdge(nodeFrom, nodeTo)`: `to` becomes the last successor of `from`, and `from` the last
      predecessor of `to`. */
  function WithEdge<T>(g: GraphState<T>, from: nat, to: nat): (h: GraphState<T>)
    requires from < |g.succ| && to < |g.pred|
    ensures |h.succ| == |g.succ| && |h.pred| == |g.pred|
    ensures h.ids == g.ids && h.values == g.values && h.firstNode == g.firstNode
    ensures h.missing == g.missing && h.outEdges == g.outEdges
  {
    g.(succ := g.succ[from := g.succ[from] + [to]], pred := g.pred[to := g.pred[to] + [from]])
  }

  /** Adding an edge between two nodes keeps every index in range. */
  lemma WithEdgeValid<T>(g: GraphState<T>, from: nat, to: nat)
    requires GraphValid(g) && from < |g.ids| && to < |g.ids|
    ensures GraphValid(WithEdge(g, from, to))
  {
    var h := WithEdge(g, from, to);
    var n := |g.ids|;
    forall i, k | 0 <= i < n && 0 <= k < |h.succ[i]|
      ensures h.succ[i][k] < n
    {
      if i == from && k == |g.succ[i]| {
      } else {
        assert h.succ[i][k] == g.succ[i][k];
      }
    }
    forall i, k | 0 <= i < n && 0 <= k < |h.pred[i]|
      ensures h.pred[i][k] < n
    {
      if i == to && k == |g.pred[i]| {
      } else {
        assert h.pred[i][k] == g.pred[i][k];
      }
    }
  }

  /** An edge is added on both of its ends and nowhere else. */
  lemma WithEdgeEnds<T>(g: GraphState<T>, from: nat, to: nat, i: nat, j: nat)
    requires from < |g.succ| && to < |g.pred| && i < |g.succ| && j < |g.pred|
    ensures j in WithEdge(g, from, to).succ[i] <==> j in g.succ[i] || (i == from && j == to)
    ensures i in WithEdge(g, from, to).pred[j] <==> i in g.pred[j] || (i == from && j == to)
  {
  }

  /** Adding an edge keeps the graph symmetric. */
  lemma WithEdgeSymmetric<T>(g: GraphState<T>, from: nat, to: nat)
    requires GraphValid(g) && Symmetric(g) && from < |g.ids| && to < |g.ids|
    ensures GraphValid(WithEdge(g, from, to)) && Symmetric(WithEdge(g, from, to))
  {
    WithEdgeValid(g, from, to);
    forall i, j | 0 <= i < |g.ids| && 0 <= j < |g.ids|
      ensures j in WithEdge(g, from, to).succ[i] <==> i in WithEdge(g, from, to).pred[j]
    {
      WithEdgeEnds(g, from, to, i, j);
    }
  }

  /** `connectEdges(node)`: the pending edges from `srcs`, in the order they were added, reach `to`. */
  function ConnectPending<T>(g: GraphState<T>, srcs: seq<nat>, to: nat): (h: GraphState<T>)
    requires to < |g.pred| && forall k | 0 <= k < |srcs| :: srcs[k] < |g.succ|
    ensures |h.succ| == |g.succ| && |h.pred| == |g.pred|
    ensures h.ids == g.ids && h.values == g.values && h.firstNode == g.firstNode
    ensures h.missing == g.missing && h.outEdges == g.outEdges
    decreases |srcs|
  {
    if srcs == [] then g else ConnectPending(WithEdge(g, srcs[0], to), srcs[1..], to)
  }

  /** Connecting pending edges between existing nodes keeps every index in range. */
  lemma {:induction false} ConnectPendingValid<T>(g: GraphState<T>, srcs: seq<nat>, to: nat)
    requires GraphValid(g) && to < |g.ids| && forall k | 0 <= k < |srcs| :: srcs[k] < |g.ids|
    ensures GraphValid(ConnectPending(g, srcs, to))
    decreases |srcs|
  {
    if srcs != [] {
      WithEdgeValid(g, srcs[0], to);
      ConnectPendingValid(WithEdge(g, srcs[0], to), srcs[1..], to);
    }
  }

  /** Connecting pending edges keeps the graph symmetric. */
  lemma {:induction false} ConnectPendingSymmetric<T>(g: GraphState<T>, srcs: seq<nat>, to: nat)
    requires GraphValid(g) && Symmetric(g) && to < |g.ids| && forall k | 0 <= k < |srcs| :: srcs[k] < |g.ids|
    ensures GraphValid(ConnectPending(g, srcs, to)) && Symmetric(ConnectPending(g, srcs, to))
    decreases |srcs|
  {
    if srcs != [] {
      WithEdgeSymmetric(g, srcs[0], to);
      ConnectPendingSymmetric(WithEdge(g, srcs[0], to), srcs[1..], to);
    }
  }

  /** Connecting pending edges adds their sources, and only them, to the target's predecessors and the
      target to their successors. */
  lemma {:induction false} ConnectPendingEdges<T>(g: GraphState<T>, srcs: seq<nat>, to: nat, i: nat, j: nat)
    requires to < |g.pred| && forall k | 0 <= k < |srcs| :: srcs[k] < |g.succ|
    requires i < |g.succ| && j < |g.pred|
    ensures j in ConnectPending(g, srcs, to).succ[i] <==> j in g.succ[i] || (j == to && i in srcs)
    ensures i in ConnectPending(g, srcs, to).pred[j] <==> i in g.pred[j] || (j == to && i in srcs)
    decreases |srcs|
  {
    if srcs != [] {
      ConnectPendingEdges(WithEdge(g, srcs[0], to), srcs[1..], to, i, j);
      WithEdgeEnds(g, srcs[0], to, i, j);
      assert i in srcs <==> i == srcs[0] || i in srcs[1..];
    }
  }

  /** Connecting edges from nodes before `to` leaves the successors of `to` alone. */
  lemma {:induction false} ConnectPendingKeepsTarget<T>(g: GraphState<T>, srcs: seq<nat>, to: nat)
    requires to < |g.pred| && to < |g.succ| && forall k | 0 <= k < |srcs| :: srcs[k] < to
    ensures ConnectPending(g, srcs, to).succ[to] == g.succ[to]
    decreases |srcs|
  {
    if srcs != [] {
      ConnectPendingKeepsTarget(WithEdge(g, srcs[0], to), srcs[1..], to);
    }
  }

  /** The pending edges that a new node with `id` receives: none when the id already has a node. */
  function Pending<T>(g: GraphState<T>, id: int): seq<nat> {
    if id !in g.firstNode && id in g.missing then g.missing[id] else []
  }

  /** The graph with a new node appended and not yet connected. */
  function Appended<T>(g: GraphState<T>, id: int, val: T): (h: GraphState<T>) {
    g.(ids := g.ids + [id], values := g.values + [val], succ := g.succ + [[]], pred := g.pred + [[]])
  }

  /** The appended node makes a valid graph, once it is its id's first node when it is. */
  lemma AppendedValid<T>(g: GraphState<T>, id: int, val: T)
    requires GraphValid(g)
    ensures id in g.firstNode ==> GraphValid(Appended(g, id, val))
    ensures id !in g.firstNode ==>
              GraphValid(Appended(g, id, val).(firstNode := g.firstNode[id := |g.ids|], missing := g.missing - {id}))
  {
    var n := |g.ids|;
    var g1 := Appended(g, id, val);
    forall i, k | 0 <= i < n + 1 && 0 <= k < |g1.succ[i]|
      ensures g1.succ[i][k] < n + 1
    {
      assert g1.succ[i] == g.succ[i];
    }
    forall i, k | 0 <= i < n + 1 && 0 <= k < |g1.pred[i]|
      ensures g1.pred[i][k] < n + 1
    {
      assert g1.pred[i] == g.pred[i];
    }
  }

  /** A node without edges keeps the graph symmetric. */
  lemma AppendedSymmetric<T>(g: GraphState<T>, id: int, val: T)
    requires GraphValid(g) && Symmetric(g)
    ensures var h := Appended(g, id, val);
            forall i, j | 0 <= i < |h.ids| && 0 <= j < |h.ids| :: j in h.succ[i] <==> i in h.pred[j]
  {
    var n := |g.ids|;
    var g1 := Appended(g, id, val);
    forall i, j | 0 <= i < n + 1 && 0 <= j < n + 1
      ensures j in g1.succ[i] <==> i in g1.pred[j]
    {
      if i < n && j < n {
        assert g1.succ[i] == g.succ[i] && g1.pred[j] == g.pred[j];
      } else if i < n {
        assert g1.pred[j] == [];
        assert j !in g.succ[i];
      } else if j < n {
        assert g1.succ[i] == [];
        assert i !in g.pred[j];
      }
    }
  }

  /** `addNode(id, val)`: the node is appended and becomes the last one. When it is the first node
      with `id`, it becomes that id's target and receives the edges pending towards it. */
  function AddedNode<T>(g: GraphState<T>, id: int, val: T): (h: GraphState<T>)
    requires GraphValid(g)
    ensures GraphValid(h) && |h.ids| == |g.ids| + 1
    ensures h.ids == g.ids + [id] && h.values == g.values + [val]
  {
    var n := |g.ids|;
    AppendedValid(g, id, val);
    var g1 := Appended(g, id, val);
    if id in g.firstNode then g1
    else
      var g2 := g1.(firstNode := g.firstNode[id := n], missing := g.missing - {id});
      assert forall k | 0 <= k < |Pending(g, id)| :: Pending(g, id)[k] < n + 1;
      ConnectPendingValid(g2, Pending(g, id), n);
      ConnectPending(g2, Pending(g, id), n)
  }

  /** `addNodeLine(id, val)`: `addNode`, then an edge from the node that was last before it. */
  function AddedNodeLine<T>(g: GraphState<T>, id: int, val: T): (h: GraphState<T>)
    requires GraphValid(g)
    ensures GraphValid(h) && |h.ids| == |g.ids| + 1
    ensures h.ids == g.ids + [id] && h.values == g.values + [val]
  {
    var h := AddedNode(g, id, val);
    if |g.ids| == 0 then h
    else
      WithEdgeValid(h, |g.ids| - 1, |g.ids|);
      WithEdge(h, |g.ids| - 1, |g.ids|)
  }

  /** Recording a pending edge from an existing node towards an id without a node keeps every index
      in range. */
  lemma WaitingValid<T>(g: GraphState<T>, id: int, src: nat)
    requires GraphValid(g) && src < |g.ids| && id !in g.firstNode
    ensures GraphValid(g.(missing := g.missing[id := (if id in g.missing then g.missing[id] else []) + [src]]))
  {
    var w := (if id in g.missing then g.missing[id] else []) + [src];
    assert forall k | 0 <= k < |w| :: w[k] < |g.ids|;
  }

  /** `addEdge(id)`: an edge from the last node to the first node with `id`, or a pending one when no
      node has that id yet. The source dereferences the last node, so a graph needs one. */
  function AddedEdge<T>(g: GraphState<T>, id: int): (h: GraphState<T>)
    requires GraphValid(g) && |g.ids| > 0
    ensures GraphValid(h) && h.ids == g.ids && h.values == g.values && h.firstNode == g.firstNode
  {
    var last := |g.ids| - 1;
    if id in g.firstNode then
      WithEdgeValid(g, last, g.firstNode[id]);
      WithEdge(g, last, g.firstNode[id])
    else
      WaitingValid(g, id, last);
      g.(missing := g.missing[id := (if id in g.missing then g.missing[id] else []) + [last]])
  }

  /** `addOutEdge()`: the last node leaves the graph. */
  function AddedOutEdge<T>(g: GraphState<T>): (h: GraphState<T>)
    requires GraphValid(g) && |g.ids| > 0
    ensures GraphValid(h) && h.ids == g.ids && h.values == g.values && h.succ == g.succ && h.pred == g.pred
    ensures h.firstNode == g.firstNode
  {
    g.(outEdges := g.outEdges + {|g.ids| - 1})
  }

  /** Adding a node keeps every edge on both of its ends and the first nodes right. */
  lemma AddedNodeInvariants<T>(g: GraphState<T>, id: int, val: T)
    requires GraphValid(g) && Symmetric(g) && Identified(g)
    ensures Symmetric(AddedNode(g, id, val)) && Identified(AddedNode(g, id, val))
  {
    var n := |g.ids|;
    AppendedValid(g, id, val);
    AppendedSymmetric(g, id, val);
    if id !in g.firstNode {
      var g2 := Appended(g, id, val).(firstNode := g.firstNode[id := n], missing := g.missing - {id});
      assert forall k | 0 <= k < |Pending(g, id)| :: Pending(g, id)[k] < n + 1;
      ConnectPendingSymmetric(g2, Pending(g, id), n);
    }
  }

  /** Adding a node on the line, an edge or an out edge keeps every edge on both of its ends and the
      first nodes right. */
  lemma AddedInvariants<T>(g: GraphState<T>, id: int, val: T)
    requires GraphValid(g) && Symmetric(g) && Identified(g)
    ensures Symmetric(AddedNodeLine(g, id, val)) && Identified(AddedNodeLine(g, id, val))
    ensures |g.ids| > 0 ==> Symmetric(AddedEdge(g, id)) && Identified(AddedEdge(g, id))
    ensures |g.ids| > 0 ==> Symmetric(AddedOutEdge(g)) && Identified(AddedOutEdge(g))
  {
    AddedNodeInvariants(g, id, val);
    if |g.ids| > 0 {
      WithEdgeSymmetric(AddedNode(g, id, val), |g.ids| - 1, |g.ids|);
      if id in g.firstNode {
        WithEdgeSymmetric(g, |g.ids| - 1, g.firstNode[id]);
      }
    }
  }

  /** What `addNodeLine` does to the edges: the new node's predecessors are the nodes whose edges were
      pending towards its id and the previous last node, it has no successor, and no other edge
      appears. */
  lemma AddNodeLineEdges<T>(g: GraphState<T>, id: int, val: T, i: nat, j: nat)
    requires GraphValid(g) && i < |g.ids| + 1 && j < |g.ids| + 1
    ensures var h := AddedNodeLine(g, id, val);
            var n := |g.ids|;
            && h.succ[n] == []
            && (j in h.succ[i] <==>
                  if i < n && j < n then j in g.succ[i]
                  else j == n && i < n && (i in Pending(g, id) || i == n - 1))
  {
    var n := |g.ids|;
    var g1 := Appended(g, id, val);
    var a := AddedNode(g, id, val);
    assert j in g1.succ[i] <==> i < n && j in g.succ[i];
    assert i < n && j in g.succ[i] ==> j < n;
    if id !in g.firstNode {
      var g2 := g1.(firstNode := g.firstNode[id := n], missing := g.missing - {id});
      assert forall k | 0 <= k < |Pending(g, id)| :: Pending(g, id)[k] < n;
      ConnectPendingEdges(g2, Pending(g, id), n, i, j);
      ConnectPendingKeepsTarget(g2, Pending(g, id), n);
    }
    if n > 0 {
      WithEdgeEnds(a, n - 1, n, i, j);
    }
  }

  /** `addEdge(id)` towards a known id links the last node to that id's first node; towards an unknown
      id it leaves the edges alone and records the last node as waiting for the id. */
  lemma AddEdgeEffect<T>(g: GraphState<T>, id: int)
    requires GraphValid(g) && |g.ids| > 0
    ensures var h := AddedEdge(g, id);
            var last := |g.ids| - 1;
            && (id in g.firstNode ==>
                  h.succ[last] == g.succ[last] + [g.firstNode[id]] &&
                  h.pred[g.firstNode[id]] == g.pred[g.firstNode[id]] + [last] &&
                  h.missing == g.missing)
            && (id !in g.firstNode ==>
                  h.succ == g.succ && h.pred == g.pred &&
                  Pending(h, id) == Pending(g, id) + [last])
  {
  }

  /** An edge towards an id without a node, followed by a node with that id, links the two nodes. */
  lemma PendingEdgeConnects<T>(g: GraphState<T>, id: int, val: T)
    requires GraphValid(g) && |g.ids| > 0 && id !in g.firstNode
    ensures var h := AddedNode(AddedEdge(g, id), id, val);
            && (|g.ids| - 1) in h.pred[|g.ids|] && |g.ids| in h.succ[|g.ids| - 1]
  {
    var e := AddedEdge(g, id);
    var n := |g.ids|;
    var g2 := Appended(e, id, val).(firstNode := e.firstNode[id := n], missing := e.missing - {id});
    assert (n - 1) in Pending(e, id);
    assert forall k | 0 <= k < |Pending(e, id)| :: Pending(e, id)[k] < n;
    ConnectPendingEdges(g2, Pending(e, id), n, n - 1, n);
  }

  /** `getStartNode`: the first node added, or none in an empty graph. */
  function StartNode<T>(g: GraphState<T>): (r: Option<nat>)
    ensures r.None? <==> |g.ids| == 0
    ensures r.Some? ==> r.value < |g.ids|
  {
    if |g.ids| == 0 then None else Some(0)
  }

  /** The start node is the first node with its id. */
  lemma StartNodeIsFirst<T>(g: GraphState<T>)
    requires GraphValid(g) && Identified(g) && |g.ids| > 0
    ensures StartNode(g) == Some(g.firstNode[g.ids[0]])
  {
  }

  /** The indices `lo` to `hi - 1` in order. */
  function Range(lo: nat, hi: nat): (r: seq<nat>)
    requires lo <= hi
    ensures |r| == hi - lo && forall k | 0 <= k < |r| :: r[k] == lo + k
  {
    seq(hi - lo, k requires 0 <= k < hi - lo => lo + k)
  }

  /** `getLine`: all nodes in the order they were added. */
  function Line<T>(g: GraphState<T>): (r: seq<nat>)
    ensures |r| == |g.ids| && forall k | 0 <= k < |r| :: r[k] == k
  {
    Range(0, |g.ids|)
  }

  /** A block starts at the first node, at a node reached from anywhere but the node before it, and
      after a node that leaves for anywhere but the next node or leaves the graph. */
  predicate StartsBlock<T>(g: GraphState<T>, i: nat)
    requires GraphValid(g) && i < |g.ids|
  {
    i == 0 || g.pred[i] != [i - 1] || g.succ[i - 1] != [i] || (i - 1) in g.outEdges
  }

  /** The node after the block that contains `i`, or the node count. */
  function BlockEnd<T>(g: GraphState<T>, i: nat): (e: nat)
    requires GraphValid(g) && i < |g.ids|
    ensures i < e <= |g.ids|
    ensures e < |g.ids| ==> StartsBlock(g, e)
    ensures forall k | i < k < e :: !StartsBlock(g, k)
    decreases |g.ids| - i
  {
    if i + 1 == |g.ids| || StartsBlock(g, i + 1) then i + 1 else BlockEnd(g, i + 1)
  }

  /** The blocks from node `i` on. */
  function BlocksFrom<T>(g: GraphState<T>, i: nat): seq<seq<nat>>
    requires GraphValid(g) && i <= |g.ids|
    decreases |g.ids| - i
  {
    if i == |g.ids| then [] else [Range(i, BlockEnd(g, i))] + BlocksFrom(g, BlockEnd(g, i))
  }

  /** `getBlocks`: the line cut before every node that starts a block. */
  function Blocks<T>(g: GraphState<T>): seq<seq<nat>>
    requires GraphValid(g)
  {
    BlocksFrom(g, 0)
  }

  /** The concatenation of a sequence of sequences. */
  function Flatten<X>(xs: seq<seq<X>>): (r: seq<X>)
    ensures xs == [] ==> r == []
    decreases |xs|
  {
    if xs == [] then [] else xs[0] + Flatten(xs[1..])
  }

  lemma {:induction false} FlattenAppend<X>(xs: seq<seq<X>>, ys: seq<seq<X>>)
    ensures Flatten(xs + ys) == Flatten(xs) + Flatten(ys)
    decreases |xs|
  {
    if xs != [] {
      assert (xs + ys)[0] == xs[0] && (xs + ys)[1..] == xs[1..] + ys;
      FlattenAppend(xs[1..], ys);
      calc {
        Flatten(xs + ys);
        xs[0] + Flatten(xs[1..] + ys);
        xs[0] + (Flatten(xs[1..]) + Flatten(ys));
        (xs[0] + Flatten(xs[1..])) + Flatten(ys);
      }
    } else {
      assert xs + ys == ys;
    }
  }

  /** A block: a non-empty run of consecutive nodes that starts a block, with no block start inside it,
      followed by the end of the line or the start of another block. Inside a block each node's only
      successor is the next node, whose only predecessor it is, and no node but the last leaves the
      graph. */
  predicate IsBlock<T>(g: GraphState<T>, r: seq<nat>)
    requires GraphValid(g)
  {
    && |r| > 0 && r[0] + |r| <= |g.ids| && r == Range(r[0], r[0] + |r|)
    && StartsBlock(g, r[0])
    && (forall k | r[0] < k < r[0] + |r| :: !StartsBlock(g, k))
    && (r[0] + |r| < |g.ids| ==> StartsBlock(g, r[0] + |r|))
  }

  /** The blocks from a block start `i` on are blocks that together are the nodes from `i` on. */
  lemma {:induction false} BlocksFromPartition<T>(g: GraphState<T>, i: nat)
    requires GraphValid(g) && i <= |g.ids| && (i < |g.ids| ==> StartsBlock(g, i))
    ensures Flatten(BlocksFrom(g, i)) == Range(i, |g.ids|)
    ensures forall b | 0 <= b < |BlocksFrom(g, i)| :: IsBlock(g, BlocksFrom(g, i)[b])
    decreases |g.ids| - i
  {
    if i < |g.ids| {
      var e := BlockEnd(g, i);
      BlocksFromPartition(g, e);
      var bs := BlocksFrom(g, i);
      assert bs[0] == Range(i, e) && bs[1..] == BlocksFrom(g, e);
      assert Range(i, e) + Range(e, |g.ids|) == Range(i, |g.ids|);
      assert IsBlock(g, bs[0]);
      forall b | 1 <= b < |bs|
        ensures IsBlock(g, bs[b])
      {
        assert bs[b] == BlocksFrom(g, e)[b - 1];
      }
    }
  }

  /** `getBlocks` cuts the whole line into blocks. */
  lemma BlocksPartitionLine<T>(g: GraphState<T>)
    requires GraphValid(g)
    ensures Flatten(Blocks(g)) == Line(g)
    ensures forall b | 0 <= b < |Blocks(g)| :: IsBlock(g, Blocks(g)[b])
  {
    BlocksFromPartition(g, 0);
  }

  /** An empty graph has no start node; a graph of one added node starts at it and has no edges. */
  lemma OneNode<T>(v: T)
    ensures StartNode(Empty<T>()).None?
    ensures var g := AddedNode(Empty(), 0, v);
            && StartNode(g) == Some(0) && g.ids[0] == 0 && g.values[0] == v
            && g.succ[0] == [] && g.pred[0] == []
  {
  }

  /** A node on the line with an id no edge waits for becomes the only successor of the node before it
      and has that node as its only predecessor, and becomes its id's first node if the id has none;
      nothing else changes. */
  lemma AddNodeLineUnawaited<T>(g: GraphState<T>, id: int, val: T)
    requires GraphValid(g) && id !in g.missing
    ensures var n := |g.ids|;
            AddedNodeLine(g, id, val) ==
            GraphState(g.ids + [id], g.values + [val],
                       (if n == 0 then g.succ else g.succ[n - 1 := g.succ[n - 1] + [n]]) + [[]],
                       g.pred + [if n == 0 then [] else [n - 1]],
                       if id in g.firstNode then g.firstNode else g.firstNode[id := n], g.missing, g.outEdges)
  {
    var n := |g.ids|;
    if id in g.firstNode {
      assert AddedNode(g, id, val) == Appended(g, id, val);
    } else {
      var g2 := Appended(g, id, val).(firstNode := g.firstNode[id := n], missing := g.missing - {id});
      assert Pending(g, id) == [] && g.missing - {id} == g.missing;
      assert AddedNode(g, id, val) == g2;
    }
    if n > 0 {
      assert (g.succ + [[]])[n - 1 := (g.succ + [[]])[n - 1] + [n]] == g.succ[n - 1 := g.succ[n - 1] + [n]] + [[]];
      assert (g.pred + [[]])[n] + [n - 1] == [n - 1];
      assert (g.pred + [[]])[n := [n - 1]] == g.pred + [[n - 1]];
    }
  }

  /** One step of `addNodeLine` on a graph written out in full. */
  lemma LineStep<T>(g: GraphState<T>, id: int, val: T, succ: seq<seq<nat>>, pred: seq<seq<nat>>)
    requires GraphValid(g) && id !in g.firstNode && id !in g.missing && |g.ids| > 0
    requires succ == g.succ[|g.ids| - 1 := g.succ[|g.ids| - 1] + [|g.ids|]] + [[]]
    requires pred == g.pred + [[|g.ids| - 1]]
    ensures AddedNodeLine(g, id, val)
            == GraphState(g.ids + [id], g.values + [val], succ, pred, g.firstNode[id := |g.ids|], g.missing, g.outEdges)
  {
    AddNodeLineUnawaited(g, id, val);
  }

  /** The graph of the three nodes `a`, `b`, `c` on a line, with ids 0, 1 and 2. */
  function ThreeLine<T>(a: T, b: T, c: T): GraphState<T> {
    GraphState([0, 1, 2], [a, b, c], [[1], [2], []], [[], [0], [1]], map[0 := 0, 1 := 1, 2 := 2], map[], {})
  }

  lemma FirstOnLine<T>(a: T)
    ensures AddedNodeLine(Empty(), 0, a) == GraphState([0], [a], [[]], [[]], map[0 := 0], map[], {})
  {
    AddNodeLineUnawaited(Empty<T>(), 0, a);
  }

  lemma SecondOnLine<T>(g: GraphState<T>, b: T)
    requires GraphValid(g) && |g.ids| == 1 && g.succ == [[]] && g.pred == [[]]
    requires g.firstNode == map[0 := 0] && g.missing == map[]
    ensures AddedNodeLine(g, 1, b)
            == GraphState(g.ids + [1], g.values + [b], [[1], []], [[], [0]], map[0 := 0, 1 := 1], map[], g.outEdges)
  {
    assert g.succ[0] + [1] == [1];
    assert g.succ[0 := [1]] + [[]] == [[1], []];
    LineStep(g, 1, b, [[1], []], [[], [0]]);
  }

  lemma ThirdOnLine<T>(g: GraphState<T>, c: T)
    requires GraphValid(g) && |g.ids| == 2 && g.succ == [[1], []] && g.pred == [[], [0]]
    requires g.firstNode == map[0 := 0, 1 := 1] && g.missing == map[]
    ensures AddedNodeLine(g, 2, c)
            == GraphState(g.ids + [2], g.values + [c], [[1], [2], []], [[], [0], [1]], map[0 := 0, 1 := 1, 2 := 2], map[], g.outEdges)
  {
    assert g.succ[1] + [2] == [2];
    assert g.succ[1 := [2]] + [[]] == [[1], [2], []];
    LineStep(g, 2, c, [[1], [2], []], [[], [0], [1]]);
  }

  /** Three nodes added on the line are chained. */
  lemma ThreeOnLine<T>(a: T, b: T, c: T)
    ensures AddedNodeLine(AddedNodeLine(AddedNodeLine(Empty(), 0, a), 1, b), 2, c) == ThreeLine(a, b, c)
  {
    FirstOnLine(a);
    var g1 := AddedNodeLine(Empty(), 0, a);
    SecondOnLine(g1, b);
    var g2 := AddedNodeLine(g1, 1, b);
    ThirdOnLine(g2, c);
  }

  /** An edge from the last of three chained nodes back to the first id closes a cycle in which every
      node has one predecessor and one successor. */
  lemma LineAndCycle<T>(a: T, b: T, c: T)
    ensures AddedEdge(ThreeLine(a, b, c), 0).succ == [[1], [2], [0]]
    ensures AddedEdge(ThreeLine(a, b, c), 0).pred == [[2], [0], [1]]
  {
    var g3 := ThreeLine(a, b, c);
    assert AddedEdge(g3, 0) == WithEdge(g3, 2, 0);
    assert g3.succ[2] + [0] == [0] && g3.pred[0] + [2] == [2];
    assert g3.succ[2 := [0]] == [[1], [2], [0]];
    assert g3.pred[0 := [2]] == [[2], [0], [1]];
  }

  /** `addNode` does not chain: two nodes added apart have no edges. */
  lemma TwoApart<T>(a: T, b: T)
    ensures AddedNode(AddedNode(Empty(), 0, a), 1, b)
            == GraphState([0, 1], [a, b], [[], []], [[], []], map[0 := 0, 1 := 1], map[], {})
  {
    var g1 := AddedNode(Empty(), 0, a);
    assert g1 == GraphState([0], [a], [[]], [[]], map[0 := 0], map[], {});
  }

  /** Of two nodes added apart, an edge towards the first comes from the second. */
  lemma EdgeBackToFirst<T>(a: T, b: T)
    ensures AddedEdge(AddedNode(AddedNode(Empty(), 0, a), 1, b), 0).succ == [[], [0]]
    ensures AddedEdge(AddedNode(AddedNode(Empty(), 0, a), 1, b), 0).pred == [[1], []]
  {
    TwoApart(a, b);
    var h := GraphState([0, 1], [a, b], [[], []], [[], []], map[0 := 0, 1 := 1], map[], {});
    assert AddedEdge(h, 0) == WithEdge(h, 1, 0);
    assert h.succ[1] + [0] == [0] && h.pred[0] + [1] == [1];
    assert h.succ[1 := [0]] == [[], [0]];
    assert h.pred[0 := [1]] == [[1], []];
  }

  /** An edge towards an id not added yet waits, pending, on that id. */
  lemma EdgeWaits<T>(a: T)
    ensures AddedEdge(AddedNode(Empty(), 0, a), 1) == GraphState([0], [a], [[]], [[]], map[0 := 0], map[1 := [0]], {})
  {
    var g1 := AddedNode(Empty(), 0, a);
    assert g1 == GraphState([0], [a], [[]], [[]], map[0 := 0], map[], {});
  }

  /** An edge towards an id added later comes from the node that was last when the edge was added. */
  lemma EdgeAheadToLater<T>(a: T, b: T)
    ensures AddedNode(AddedEdge(AddedNode(Empty(), 0, a), 1), 1, b).succ == [[1], []]
    ensures AddedNode(AddedEdge(AddedNode(Empty(), 0, a), 1), 1, b).pred == [[], [0]]
  {
    EdgeWaits(a);
    var e := AddedEdge(AddedNode(Empty(), 0, a), 1);
    assert Pending(e, 1) == [0];
    assert 1 !in e.firstNode && |e.ids| == 1;
    var g2 := Appended(e, 1, b).(firstNode := e.firstNode[1 := 1], missing := e.missing - {1});
    assert AddedNode(e, 1, b) == ConnectPending(g2, [0], 1);
    assert g2.succ == [[], []] && g2.pred == [[], []];
    var w := WithEdge(g2, 0, 1);
    assert ConnectPending(g2, [0], 1) == ConnectPending(w, [], 1) == w;
    assert g2.succ[0] + [1] == [1] && g2.pred[1] + [0] == [0];
    assert g2.succ[0 := [1]] == [[1], []] && g2.pred[1 := [0]] == [[], [0]];
  }

  /** `FlowGraph<T>` with its nodes in place: `addNode`, `addNodeLine`, `addEdge` and `addOutEdge`
      change the graph in place, and a node's value can be replaced (`Node::setValue`). */
  class FlowGraph<T> {
    var ids: seq<int>
    var values: seq<T>
    var succ: seq<seq<nat>>
    var pred: seq<seq<nat>>
    var firstNode: map<int, nat>
    var missing: map<int, seq<nat>>
    var outEdges: set<nat>

    function State(): GraphState<T>
      reads this
    {
      GraphState(ids, values, succ, pred, firstNode, missing, outEdges)
    }

    predicate Valid()
      reads this
    {
      GraphValid(State())
    }

    constructor ()
      ensures State() == Empty() && Valid()
    {
      ids, values, succ, pred := [], [], [], [];
      firstNode, missing, outEdges := map[], map[], {};
    }

    /** `addEdge(nodeFrom, nodeTo)`. */
    method Link(from: nat, to: nat)
      requires from < |succ| && to < |pred|
      modifies this
      ensures State() == WithEdge(old(State()), from, to)
    {
      succ := succ[from := succ[from] + [to]];
      pred := pred[to := pred[to] + [from]];
    }

    /** `connectEdges(node)`: one edge from each pending source, in order. */
    method ConnectEdges(srcs: seq<nat>, to: nat)
      requires to < |pred| && forall k | 0 <= k < |srcs| :: srcs[k] < |succ|
      modifies this
      ensures State() == ConnectPending(old(State()), srcs, to)
    {
      for i := 0 to |srcs|
        invariant |succ| == |old(succ)| && |pred| == |old(pred)|
        invariant ConnectPending(State(), srcs[i..], to) == ConnectPending(old(State()), srcs, to)
      {
        assert srcs[i..][0] == srcs[i] && srcs[i..][1..] == srcs[i + 1..];
        Link(srcs[i], to);
      }
    }

    /** Appending a node without edges. */
    method Append(id: int, val: T)
      modifies this
      ensures State() == Appended(old(State()), id, val)
    {
      ids, values, succ, pred := ids + [id], values + [val], succ + [[]], pred + [[]];
    }

    /** Making node `n` the first node of `id`, which then no longer waits. */
    method MakeFirst(id: int, n: nat)
      modifies this
      ensures State() == old(State()).(firstNode := old(firstNode)[id := n], missing := old(missing) - {id})
    {
      firstNode := firstNode[id := n];
      missing := missing - {id};
    }

    /** `addNode(id, val)`. */
    method AddNode(id: int, val: T)
      requires Valid()
      modifies this
      ensures State() == AddedNode(old(State()), id, val)
      ensures Valid()
    {
      var n := |ids|;
      var pending := Pending(State(), id);
      assert forall k | 0 <= k < |pending| :: pending[k] < n;
      var isFirst := id !in firstNode;
      Append(id, val);
      if isFirst {
        MakeFirst(id, n);
        ConnectEdges(pending, n);
      }
    }

    /** `addNodeLine(id, val)`. */
    method AddNodeLine(id: int, val: T)
      requires Valid()
      modifies this
      ensures Valid() && State() == AddedNodeLine(old(State()), id, val)
    {
      var n := |ids|;
      AddNode(id, val);
      if n > 0 {
        Link(n - 1, n);
      }
    }

    /** `addEdge(id)`, from the last node added. */
    method AddEdge(id: int)
      requires Valid() && |ids| > 0
      modifies this
      ensures Valid() && State() == AddedEdge(old(State()), id)
    {
      var last := |ids| - 1;
      if id in firstNode {
        Link(last, firstNode[id]);
      } else {
        missing := missing[id := (if id in missing then missing[id] else []) + [last]];
      }
    }

    /** `addOutEdge()`, from the last node added. */
    method AddOutEdge()
      requires Valid() && |ids| > 0
      modifies this
      ensures Valid() && State() == AddedOutEdge(old(State()))
    {
      outEdges := outEdges + {|ids| - 1};
    }

    /** `Node::setValue`: only the value of node `i` changes. */
    method SetValue(i: nat, val: T)
      requires Valid() && i < |values|
      modifies this
      ensures Valid() && State() == old(State()).(values := old(values)[i := val])
    {
      values := values[i := val];
    }
  }
}
