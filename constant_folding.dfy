/** `ConstantFolding`: every node of every block gets the `fold()` of its instruction as its new
    value, and a node whose fold is empty is removed. A failing fold (a literal division by zero)
    ends the pass with its `OptimizationError`. */
module ConstantFoldings {
  import opened Wrappers
  import opened Exceptions
  import opened TInstructions
  import opened FlowGraphs
  import opened OptimizationGraphs

  /** The folded values of the nodes and the nodes removed. */
  datatype Folded = Folded(values: seq<TInstruction>, removed: set<nat>)

  /** Folding the nodes from `k` on, in line order, with `removed` removed so far. */
  function FoldFrom(vals: seq<TInstruction>, k: nat, removed: set<nat>): Result<Folded, Exception>
    requires k <= |vals| && AllWellFormed(vals)
    decreases |vals| - k
  {
    if k == |vals| then Success(Folded(vals, removed))
    else
      match Fold(vals[k])
      case Failure(e) => Failure(e)
      case Success(None) => FoldFrom(vals, k + 1, removed + {k})
      case Success(Some(t)) =>
        FoldResult(vals[k]);
        FoldFrom(vals[k := t], k + 1, removed)
  }

  /** What the pass does to the values of a graph. */
  function Folding(vals: seq<TInstruction>): Result<Folded, Exception>
    requires AllWellFormed(vals)
  {
    FoldFrom(vals, 0, {})
  }

  lemma {:induction false} FoldFromMeaning(vals: seq<TInstruction>, k: nat, removed: set<nat>)
    requires k <= |vals| && AllWellFormed(vals) && forall i | i in removed :: i < k
    ensures var r := FoldFrom(vals, k, removed);
            && (r.Failure? <==> exists i | k <= i < |vals| :: Fold(vals[i]).Failure?)
            && (r.Failure? ==> r.error == OptimizationError)
            && (r.Success? ==>
                  && |r.value.values| == |vals|
                  && (forall i | 0 <= i < k :: r.value.values[i] == vals[i])
                  && (forall i | i in r.value.removed :: i < |vals|)
                  && (forall i: nat :: i in r.value.removed <==>
                                      i in removed || (k <= i < |vals| && Fold(vals[i]) == Success(None)))
                  && (forall i | k <= i < |vals| && i !in r.value.removed ::
                                      Fold(vals[i]) == Success(Some(r.value.values[i])))
                  && (forall i | k <= i < |vals| && Fold(vals[i]) == Success(None) :: r.value.values[i] == vals[i]))
    decreases |vals| - k
  {
    if k < |vals| {
      FoldOutcomes(vals[k]);
      match Fold(vals[k])
      case Failure(e) =>
      case Success(None) =>
        FoldFromMeaning(vals, k + 1, removed + {k});
      case Success(Some(t)) =>
        FoldResult(vals[k]);
        var vals' := vals[k := t];
        FoldFromMeaning(vals', k + 1, removed);
        assert forall i | k < i < |vals| :: vals'[i] == vals[i];
    }
  }

  /** The pass fails, with `OptimizationError`, exactly when some node's fold fails. Otherwise it
      removes exactly the nodes whose fold is empty and gives every other node its fold. */
  lemma FoldingMeaning(vals: seq<TInstruction>)
    requires AllWellFormed(vals)
    ensures Folding(vals).Failure? <==> exists i | 0 <= i < |vals| :: Fold(vals[i]).Failure?
    ensures Folding(vals).Failure? ==> Folding(vals).error == OptimizationError
    ensures Folding(vals).Success? ==>
              var f := Folding(vals).value;
              && |f.values| == |vals|
              && (forall i | i in f.removed :: i < |vals|)
              && (forall i | 0 <= i < |vals| :: i in f.removed <==> Fold(vals[i]) == Success(None))
              && (forall i | 0 <= i < |vals| && i !in f.removed :: Fold(vals[i]) == Success(Some(f.values[i])))
              && (forall i | 0 <= i < |vals| && i in f.removed :: f.values[i] == vals[i])
  {
    FoldFromMeaning(vals, 0, {});
  }

  /** Folding keeps every instruction canonical, made from the same `cp` in the same mode and writing
      what it wrote; a label is never folded away. */
  lemma FoldingKeeps(vals: seq<TInstruction>)
    requires AllCanonical(vals) && AllWellFormed(vals) && Folding(vals).Success?
    ensures var f := Folding(vals).value;
            && |f.values| == |vals|
            && AllCanonical(f.values)
            && (forall i | 0 <= i < |vals| ::
                  && f.values[i].u.cp == vals[i].u.cp && f.values[i].isFunction == vals[i].isFunction
                  && WriteArgs(f.values[i]) == WriteArgs(vals[i]))
            && (forall i | 0 <= i < |vals| && vals[i].kind.TLabel? :: i !in f.removed && f.values[i] == vals[i])
  {
    FoldingMeaning(vals);
    var f := Folding(vals).value;
    forall i | 0 <= i < |vals|
      ensures Canonical(f.values[i]) && f.values[i].u.cp == vals[i].u.cp
      ensures f.values[i].isFunction == vals[i].isFunction && WriteArgs(f.values[i]) == WriteArgs(vals[i])
    {
      if i !in f.removed {
        FoldResult(vals[i]);
        FoldKeepsConsistent(vals[i]);
      }
    }
  }

  /** The nodes of one block, in order, from the inner loop of `ConstantFolding::optimizeGraph`. */
  method FoldBlock(pass: OptimizationGraph, graph: FlowGraph<TInstruction>, block: seq<nat>,
                   ghost vals0: seq<TInstruction>, ghost pos0: nat, ghost removed0: set<nat>, ghost marked: set<NodeRef>)
    returns (r: Outcome<Exception>, ghost pos: nat, ghost removed: set<nat>)
    requires graph.Valid() && AllWellFormed(graph.values) && |graph.values| == |vals0| && AllWellFormed(vals0)
    requires pass.toBeRemoved == marked + Refs(graph, removed0)
    requires pos0 + |block| <= |vals0| && forall j | 0 <= j < |block| :: block[j] == pos0 + j
    requires FoldFrom(graph.values, pos0, removed0) == Folding(vals0)
    modifies pass, graph
    ensures graph.Valid() && graph.State() == old(graph.State()).(values := graph.values)
    ensures AllWellFormed(graph.values) && |graph.values| == |vals0|
    ensures r.Fail? ==> Folding(vals0) == Failure(r.error)
    ensures r.Pass? ==> pos == pos0 + |block| && FoldFrom(graph.values, pos, removed) == Folding(vals0)
    ensures r.Pass? ==> pass.toBeRemoved == marked + Refs(graph, removed)
  {
    pos, removed := pos0, removed0;
    var j := 0;
    while j < |block|
      invariant 0 <= j <= |block| && pos == pos0 + j
      invariant graph.Valid() && graph.State() == old(graph.State()).(values := graph.values)
      invariant AllWellFormed(graph.values) && |graph.values| == |vals0|
      invariant FoldFrom(graph.values, pos, removed) == Folding(vals0)
      invariant pass.toBeRemoved == marked + Refs(graph, removed)
    {
      var node := block[j];
      var folded := Fold(graph.values[node]);
      if folded.Failure? {
        return Fail(folded.error), pos, removed;
      }
      if folded.value.None? {
        pass.RemoveNode(graph, node);
        RefsAdd(graph, removed, node);
        removed := removed + {node};
      } else {
        FoldResult(graph.values[node]);
        graph.SetValue(node, folded.value.value);
      }
      pos := pos + 1;
      j := j + 1;
    }
    r := Pass;
  }

  /** `ConstantFolding::optimizeGraph`: for every block and every node in it, the node's value becomes
      its fold, and the node is removed if the fold is empty. */
  method FoldGraph(pass: OptimizationGraph, graph: FlowGraph<TInstruction>) returns (r: Outcome<Exception>)
    requires graph.Valid() && AllWellFormed(graph.values)
    modifies pass, graph
    ensures graph.Valid() && graph.State() == old(graph.State()).(values := graph.values)
    ensures r.Fail? <==> Folding(old(graph.values)).Failure?
    ensures r.Fail? ==> r.error == Folding(old(graph.values)).error
    ensures r.Pass? ==> graph.values == Folding(old(graph.values)).value.values
    ensures r.Pass? ==> pass.toBeRemoved == old(pass.toBeRemoved) + Refs(graph, Folding(old(graph.values)).value.removed)
  {
    ghost var g0 := graph.State();
    ghost var vals0 := graph.values;
    var blocks := Blocks(graph.State());
    ghost var removed: set<nat> := {};
    ghost var pos: nat := 0;
    var b := 0;
    while b < |blocks|
      invariant 0 <= b <= |blocks| && pos == |Flatten(blocks[..b])| && pos <= |vals0|
      invariant graph.Valid() && graph.State() == g0.(values := graph.values)
      invariant AllWellFormed(graph.values) && |graph.values| == |vals0|
      invariant FoldFrom(graph.values, pos, removed) == Folding(vals0)
      invariant pass.toBeRemoved == old(pass.toBeRemoved) + Refs(graph, removed)
    {
      BlockPositions(g0, b);
      var step;
      step, pos, removed := FoldBlock(pass, graph, blocks[b], vals0, pos, removed, old(pass.toBeRemoved));
      if step.Fail? {
        return step;
      }
      FlattenStep(blocks, b);
      b := b + 1;
    }
    BlocksVisitAll(g0);
    r := Pass;
  }
}
