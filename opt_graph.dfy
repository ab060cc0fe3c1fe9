/** `OptimizationGraph`, the part every graph-based pass shares: the T-code is put into a flow graph
    one instruction at a time (`makeFlowGraph`), the pass marks nodes for removal (`removeNode`), and
    the code is rebuilt from the line of nodes that are not marked. */
module OptimizationGraphs {
  import opened Wrappers
  import opened Words
  import opened TArguments
  import opened TInstructions
  import opened FlowGraphs
  import opened CodeStore

  type TGraph = GraphState<TInstruction>

  /** What every pass may assume of the T-code it is given, and keeps: each instruction is well formed
      and consistent, and writes only variables. */
  predicate Canonical(t: TInstruction) {
    WellFormed(t) && Consistent(t) && forall i | 0 <= i < |WriteArgs(t)| :: WriteArgs(t)[i].TVar?
  }

  predicate AllCanonical(code: seq<TInstruction>) {
    forall k | 0 <= k < |code| :: Canonical(code[k])
  }

  predicate AllWellFormed(code: seq<TInstruction>) {
    forall k | 0 <= k < |code| :: WellFormed(code[k])
  }

  // ---------------------------------------------------------------------------------------------
  // Building the graph

  /** `TGoto` and `TBranch`, the two subclasses of `TInstructionBranch`. */
  predicate IsJump(t: TInstruction) {
    t.kind.TGoto? || t.kind.TBranch?
  }

  /** `makeFlowGraph(graph)`: every instruction is added on the line with the `cp` of its U-instruction
      as id, narrowed to the `int` that `addNodeLine` takes. Within a function a jump then adds an edge
      towards its destination (narrowed the same way) and a guard an edge out of the graph. */
  function FlowStep(g: TGraph, t: TInstruction): (h: TGraph)
    requires GraphValid(g)
    ensures GraphValid(h) && h.ids == g.ids + [ToInt(t.u.cp)] && h.values == g.values + [t]
  {
    var h := AddedNodeLine(g, ToInt(t.u.cp), t);
    if t.isFunction && IsJump(t) then AddedEdge(h, ToInt(t.kind.destination))
    else if t.isFunction && t.kind.TGuard? then AddedOutEdge(h)
    else h
  }

  /** The graph of a T-code: `makeFlowGraph` of every instruction in order, starting from an empty
      graph. Its nodes hold the instructions in code order. */
  function GraphOf(code: seq<TInstruction>): (g: TGraph)
    ensures GraphValid(g) && g.values == code && |g.ids| == |code|
    decreases |code|
  {
    if code == [] then Empty()
    else
      var n := |code| - 1;
      assert code == code[..n] + [code[n]];
      FlowStep(GraphOf(code[..n]), code[n])
  }

  /** `TInstruction::makeFlowGraph` and its overrides in `TInstructionBranch` and `TGuard`. */
  method MakeFlowGraph(t: TInstruction, graph: FlowGraph<TInstruction>)
    requires graph.Valid()
    modifies graph
    ensures graph.Valid() && graph.State() == FlowStep(old(graph.State()), t)
  {
    graph.AddNodeLine(ToInt(t.u.cp), t);
    if t.isFunction && IsJump(t) {
      graph.AddEdge(ToInt(t.kind.destination));
    } else if t.isFunction && t.kind.TGuard? {
      graph.AddOutEdge();
    }
  }

  /** The first loop of `OptimizationGraph::optimize`: a new graph, and `makeFlowGraph` of every
      instruction in order. */
  method BuildGraph(code: seq<TInstruction>) returns (graph: FlowGraph<TInstruction>)
    ensures fresh(graph) && graph.Valid() && graph.State() == GraphOf(code)
  {
    graph := new FlowGraph<TInstruction>();
    for i := 0 to |code|
      invariant graph.State() == GraphOf(code[..i])
    {
      ghost var before := graph.State();
      assert GraphValid(before);
      MakeFlowGraph(code[i], graph);
      GraphOfStep(code, i, before, graph.State());
    }
    assert code[..|code|] == code;
    assert GraphValid(graph.State());
  }

  lemma GraphOfStep(code: seq<TInstruction>, i: nat, before: TGraph, after: TGraph)
    requires i < |code| && before == GraphOf(code[..i]) && after == FlowStep(before, code[i])
    ensures after == GraphOf(code[..i + 1])
  {
    assert code[..i + 1][..i] == code[..i];
  }

  /** A plain line: every node but the last has the next one as its only successor, every node but
      the first the previous one as its only predecessor, no edge waits and none leaves. */
  predicate IsLine(g: TGraph)
    requires GraphValid(g)
  {
    && g.missing == map[] && g.outEdges == {}
    && (forall k | 0 <= k < |g.ids| :: g.succ[k] == (if k + 1 < |g.ids| then [k + 1] else []))
    && (forall k | 0 <= k < |g.ids| :: g.pred[k] == (if k == 0 then [] else [k - 1]))
  }

  /** Adding a trace instruction to a plain line keeps it a plain line. */
  lemma TraceStepKeepsLine(g: TGraph, t: TInstruction)
    requires GraphValid(g) && IsLine(g) && !t.isFunction
    ensures IsLine(FlowStep(g, t))
  {
    var n := |g.ids|;
    AddNodeLineUnawaited(g, ToInt(t.u.cp), t);
    var h := FlowStep(g, t);
    assert h.succ == (if n == 0 then g.succ else g.succ[n - 1 := g.succ[n - 1] + [n]]) + [[]];
    assert h.pred == g.pred + [if n == 0 then [] else [n - 1]];
    forall k | 0 <= k < n + 1
      ensures h.succ[k] == (if k + 1 < n + 1 then [k + 1] else [])
    {
      if k + 1 == n {
        assert g.succ[k] == [];
      }
    }
  }

  /** Without function-mode instructions the graph is a plain line. */
  lemma {:induction false} TraceGraphIsLine(code: seq<TInstruction>)
    requires forall k | 0 <= k < |code| :: !code[k].isFunction
    ensures IsLine(GraphOf(code))
    decreases |code|
  {
    if code != [] {
      var n := |code| - 1;
      TraceGraphIsLine(code[..n]);
      TraceStepKeepsLine(GraphOf(code[..n]), code[n]);
    }
  }

  /** A plain line is a single block. */
  lemma LineIsOneBlock(g: TGraph)
    requires GraphValid(g) && IsLine(g) && |g.ids| > 0
    ensures Blocks(g) == [Line(g)]
  {
    forall k | 0 < k < |g.ids|
      ensures !StartsBlock(g, k)
    {
      assert g.pred[k] == [k - 1] && g.succ[k - 1] == [k];
    }
    assert BlockEnd(g, 0) == |g.ids|;
    assert BlocksFrom(g, |g.ids|) == [];
  }

  /** A graph of trace code is cut into a single block, the whole line. */
  lemma TraceGraphIsOneBlock(code: seq<TInstruction>)
    requires |code| > 0 && forall k | 0 <= k < |code| :: !code[k].isFunction
    ensures Blocks(GraphOf(code)) == [Line(GraphOf(code))]
  {
    TraceGraphIsLine(code);
    LineIsOneBlock(GraphOf(code));
  }

  // ---------------------------------------------------------------------------------------------
  // Visiting the blocks

  lemma FlattenStep<X>(xs: seq<seq<X>>, b: nat)
    requires b < |xs|
    ensures Flatten(xs[..b + 1]) == Flatten(xs[..b]) + xs[b]
  {
    assert xs[..b + 1] == xs[..b] + [xs[b]];
    FlattenAppend(xs[..b], [xs[b]]);
    var one: seq<seq<X>> := [xs[b]];
    assert one[1..] == [];
    assert Flatten(one) == xs[b] + Flatten(one[1..]);
  }

  /** Visiting the blocks of a graph one after the other, and each block node by node, visits the
      nodes in line order: the `j`-th node of block `b` is the one that follows all nodes of the
      blocks before it and the `j` before it in its block. */
  lemma BlockVisit(g: TGraph, b: nat, j: nat)
    requires GraphValid(g) && b < |Blocks(g)| && j < |Blocks(g)[b]|
    ensures Blocks(g)[b][j] == |Flatten(Blocks(g)[..b])| + j
  {
    var bs := Blocks(g);
    BlocksPartitionLine(g);
    assert bs == bs[..b] + bs[b..];
    FlattenAppend(bs[..b], bs[b..]);
    assert bs[b..] == [bs[b]] + bs[b + 1..];
    FlattenAppend([bs[b]], bs[b + 1..]);
    var one: seq<seq<nat>> := [bs[b]];
    assert one[1..] == [];
    assert Flatten(one) == bs[b] + Flatten(one[1..]);
    var i := |Flatten(bs[..b])| + j;
    assert Flatten(bs)[i] == bs[b][j];
    assert Line(g)[i] == i;
  }

  /** After all blocks, every node has been visited. */
  lemma BlocksVisitAll(g: TGraph)
    requires GraphValid(g)
    ensures |Flatten(Blocks(g)[..|Blocks(g)|])| == |g.ids|
  {
    BlocksPartitionLine(g);
    assert Blocks(g)[..|Blocks(g)|] == Blocks(g);
  }

  /** Every node of a block is a node of the graph. */
  lemma BlockNodes(g: TGraph, b: nat)
    requires GraphValid(g) && b < |Blocks(g)|
    ensures forall j | 0 <= j < |Blocks(g)[b]| :: Blocks(g)[b][j] < |g.ids|
  {
    BlocksPartitionLine(g);
    assert IsBlock(g, Blocks(g)[b]);
  }

  /** Where the nodes of block `b` lie in line order. */
  lemma BlockPositions(g: TGraph, b: nat)
    requires GraphValid(g) && b < |Blocks(g)|
    ensures |Flatten(Blocks(g)[..b])| + |Blocks(g)[b]| <= |g.ids|
    ensures forall j | 0 <= j < |Blocks(g)[b]| :: Blocks(g)[b][j] == |Flatten(Blocks(g)[..b])| + j
  {
    forall j | 0 <= j < |Blocks(g)[b]|
      ensures Blocks(g)[b][j] == |Flatten(Blocks(g)[..b])| + j
    {
      BlockVisit(g, b, j);
    }
    BlocksPartitionLine(g);
    assert IsBlock(g, Blocks(g)[b]);
    BlockVisit(g, b, |Blocks(g)[b]| - 1);
  }

  // ---------------------------------------------------------------------------------------------
  // Marking and rebuilding

  /** The graph-based passes, the subclasses of `OptimizationGraph`. */
  datatype PassKind = ConstantFolding | CopyPropagation | DeadCodeElimination | RemoveUnusedWrites

  /** `TNodePtr`: a node is told apart by its graph object and its place on the line. */
  datatype NodeRef = NodeRef(graph: FlowGraph<TInstruction>, node: nat)

  /** The references to the nodes `nodes` of `graph`. */
  function Refs(graph: FlowGraph<TInstruction>, nodes: set<nat>): (r: set<NodeRef>)
    ensures forall x | x in r :: x.graph == graph && x.node in nodes
    ensures forall k :: NodeRef(graph, k) in r <==> k in nodes
  {
    set k | k in nodes :: NodeRef(graph, k)
  }

  lemma RefsAdd(graph: FlowGraph<TInstruction>, nodes: set<nat>, node: nat)
    ensures Refs(graph, nodes + {node}) == Refs(graph, nodes) + {NodeRef(graph, node)}
  {
  }

  /** An `OptimizationGraph` object: which pass it is, and the set `toBeRemoved` of marked nodes, kept
      across every `optimize` call on the object. */
  class OptimizationGraph {
    const kind: PassKind
    var toBeRemoved: set<NodeRef>

    constructor (kind: PassKind)
      ensures this.kind == kind && toBeRemoved == {}
    {
      this.kind := kind;
      toBeRemoved := {};
    }

    /** `removeNode(node)`: only marks the node; marking a node again changes nothing. */
    method RemoveNode(graph: FlowGraph<TInstruction>, node: nat)
      modifies this
      ensures toBeRemoved == old(toBeRemoved) + {NodeRef(graph, node)}
    {
      toBeRemoved := toBeRemoved + {NodeRef(graph, node)};
    }

    /** The marked nodes among the first `n` of `graph`. */
    function Removed(graph: FlowGraph<TInstruction>, n: nat): (r: set<nat>)
      reads this
      ensures forall k: nat :: k in r <==> k < n && NodeRef(graph, k) in toBeRemoved
    {
      set k | 0 <= k < n && NodeRef(graph, k) in toBeRemoved
    }
  }

  /** The values of the nodes not in `removed`, in line order. */
  function Kept<T>(vals: seq<T>, removed: set<nat>): seq<T>
    decreases |vals|
  {
    if vals == [] then []
    else Kept(vals[..|vals| - 1], removed) + (if |vals| - 1 in removed then [] else [vals[|vals| - 1]])
  }

  /** The places on the line of the nodes not in `removed`, in increasing order. */
  function KeptIndices(n: nat, removed: set<nat>): seq<nat>
    decreases n
  {
    if n == 0 then [] else KeptIndices(n - 1, removed) + (if n - 1 in removed then [] else [n - 1])
  }

  predicate Increasing(idx: seq<nat>) {
    forall i, j | 0 <= i < j < |idx| :: idx[i] < idx[j]
  }

  /** The rebuilt code is a subsequence of the values: the `i`-th kept value is the value of the
      `i`-th node that is not removed, and every node that is not removed has its value kept. */
  lemma {:induction false} KeptIsSubsequence<T>(vals: seq<T>, removed: set<nat>)
    ensures var idx := KeptIndices(|vals|, removed);
            && |Kept(vals, removed)| == |idx| && Increasing(idx)
            && (forall i | 0 <= i < |idx| :: idx[i] < |vals| && idx[i] !in removed && Kept(vals, removed)[i] == vals[idx[i]])
            && (forall k | 0 <= k < |vals| && k !in removed :: k in idx)
    decreases |vals|
  {
    if vals != [] {
      var n := |vals| - 1;
      KeptIsSubsequence(vals[..n], removed);
      assert forall i | 0 <= i < n :: vals[..n][i] == vals[i];
    }
  }

  /** Removing no node rebuilds the values unchanged. */
  lemma {:induction false} KeptAll<T>(vals: seq<T>, removed: set<nat>)
    requires forall k | 0 <= k < |vals| :: k !in removed
    ensures Kept(vals, removed) == vals
    decreases |vals|
  {
    if vals != [] {
      var n := |vals| - 1;
      KeptAll(vals[..n], removed);
      assert vals[..n] + [vals[n]] == vals;
    }
  }

  /** The second loop of `OptimizationGraph::optimize`: the values of the unmarked nodes in line
      order, added to a new code. */
  method Reconstruct(pass: OptimizationGraph, graph: FlowGraph<TInstruction>) returns (code: Code<TInstruction>)
    requires graph.Valid()
    ensures fresh(code) && code.instructions == Kept(graph.values, pass.Removed(graph, |graph.values|))
  {
    code := new Code<TInstruction>();
    var line := Line(graph.State());
    ghost var removed := pass.Removed(graph, |graph.values|);
    for i := 0 to |line|
      invariant code.instructions == Kept(graph.values[..i], removed)
    {
      assert graph.values[..i + 1][..i] == graph.values[..i];
      if NodeRef(graph, line[i]) !in pass.toBeRemoved {
        code.Add(graph.values[line[i]]);
      }
    }
    assert graph.values[..|line|] == graph.values;
  }
}
