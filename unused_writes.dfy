/** `RemoveUnusedWrites`: inside each block, a write to a stack slot or a scratch register is removed
    when a later write in the same block hits the same argument again. Arguments are told apart as
    objects (`TArgument::Ptr` keys), not by the variable they stand for. */
module UnusedWrites {
  import opened UCode
  import opened TArguments
  import opened TInstructions
  import opened FlowGraphs
  import opened OptimizationGraphs

  /** The arguments the pass keeps track of: those whose U-argument is a `ULocSP`, a `ULocFP` or a
      scratch register (`URegGP`). */
  predicate Tracked(x: TArgument) {
    match x.UArgument()
    case ArgLocation(l) => l.LocSP? || l.LocFP?
    case ArgOperand(o) => o.Reg? && !o.reg.IsSpClass()
  }

  /** One tracked write: the node and the argument object it writes. */
  datatype TrackedWrite = TrackedWrite(node: nat, arg: TArgument)

  /** The tracked writes among `args`, the write arguments of `node`, in order. */
  function NodeWrites(node: nat, args: seq<TArgument>): seq<TrackedWrite> {
    if |args| == 0 then []
    else
      var last := args[|args| - 1];
      NodeWrites(node, args[..|args| - 1]) + (if Tracked(last) then [TrackedWrite(node, last)] else [])
  }

  predicate InRange(vals: seq<TInstruction>, block: seq<nat>) {
    forall j | 0 <= j < |block| :: block[j] < |vals|
  }

  /** The tracked writes of the nodes of `block`, in the order the pass visits them. */
  function BlockWrites(vals: seq<TInstruction>, block: seq<nat>): seq<TrackedWrite>
    requires InRange(vals, block)
  {
    if |block| == 0 then []
    else
      var node := block[|block| - 1];
      BlockWrites(vals, block[..|block| - 1]) + NodeWrites(node, WriteArgs(vals[node]))
  }

  /** The map `unusedWrite` after the writes `ws`: every argument to the node that wrote it last. */
  function Latest(ws: seq<TrackedWrite>): map<TArgument, nat> {
    if |ws| == 0 then map[]
    else
      var w := ws[|ws| - 1];
      Latest(ws[..|ws| - 1])[w.arg := w.node]
  }

  /** The nodes the pass removes while it goes through the writes `ws`: at each write, the node the map
      held for its argument. */
  function Overwritten(ws: seq<TrackedWrite>): set<nat> {
    if |ws| == 0 then {}
    else
      var init := ws[..|ws| - 1];
      var w := ws[|ws| - 1];
      Overwritten(init) + (if w.arg in Latest(init) then {Latest(init)[w.arg]} else {})
  }

  /** The nodes removed in each of the `blocks`. */
  function Removals(vals: seq<TInstruction>, blocks: seq<seq<nat>>): (r: seq<set<nat>>)
    requires forall c | 0 <= c < |blocks| :: InRange(vals, blocks[c])
    ensures |r| == |blocks|
  {
    seq(|blocks|, c requires 0 <= c < |blocks| => Overwritten(BlockWrites(vals, blocks[c])))
  }

  /** The union of `sets`. */
  function Union(sets: seq<set<nat>>): set<nat> {
    if |sets| == 0 then {} else Union(sets[..|sets| - 1]) + sets[|sets| - 1]
  }

  lemma BlocksInRange(g: TGraph)
    requires GraphValid(g)
    ensures forall c | 0 <= c < |Blocks(g)| :: InRange(g.values, Blocks(g)[c])
  {
    forall c | 0 <= c < |Blocks(g)|
      ensures InRange(g.values, Blocks(g)[c])
    {
      BlockNodes(g, c);
    }
  }

  /** The nodes `RemoveUnusedWrites::optimizeGraph` removes. */
  function UnusedNodes(g: TGraph): set<nat>
    requires GraphValid(g)
  {
    BlocksInRange(g);
    Union(Removals(g.values, Blocks(g)))
  }

  // ---------------------------------------------------------------------------------------------
  // What the removed nodes are

  /** The map holds exactly the arguments written so far, each with the node of its last write. */
  lemma {:induction false} LatestMeaning(ws: seq<TrackedWrite>, x: TArgument)
    ensures x in Latest(ws) <==> exists p | 0 <= p < |ws| :: ws[p].arg == x
    ensures x in Latest(ws) ==>
              exists p | 0 <= p < |ws| :: && ws[p].arg == x && Latest(ws)[x] == ws[p].node
                                          && forall q | p < q < |ws| :: ws[q].arg != x
  {
    if |ws| > 0 {
      var init := ws[..|ws| - 1];
      LatestMeaning(init, x);
      assert forall p | 0 <= p < |init| :: init[p] == ws[p];
      if x != ws[|ws| - 1].arg && x in Latest(ws) {
        var p :| 0 <= p < |init| && init[p].arg == x && Latest(init)[x] == init[p].node
                 && forall q | p < q < |init| :: init[q].arg != x;
        assert forall q | p < q < |ws| :: ws[q].arg != x;
      }
    }
  }

  /** A node is removed exactly when one of its tracked writes is followed, later in the block, by
      another write of the same argument object. */
  lemma {:induction false} OverwrittenMeaning(ws: seq<TrackedWrite>, n: nat)
    ensures n in Overwritten(ws) <==>
              exists p, q | 0 <= p < q < |ws| :: ws[p].arg == ws[q].arg && ws[p].node == n
  {
    if |ws| > 0 {
      var init := ws[..|ws| - 1];
      var w := ws[|ws| - 1];
      OverwrittenMeaning(init, n);
      assert forall p | 0 <= p < |init| :: init[p] == ws[p];
      if n in Overwritten(ws) && n !in Overwritten(init) {
        LatestMeaning(init, w.arg);
        var p :| 0 <= p < |init| && init[p].arg == w.arg && Latest(init)[w.arg] == init[p].node;
        assert ws[p].arg == ws[|ws| - 1].arg && ws[p].node == n;
      }
      if exists p, q | 0 <= p < q < |ws| :: ws[p].arg == ws[q].arg && ws[p].node == n {
        var p, q :| 0 <= p < q < |ws| && ws[p].arg == ws[q].arg && ws[p].node == n;
        if q == |ws| - 1 {
          LatestMeaning(init, w.arg);
          assert init[p].arg == w.arg;
          var p' :| 0 <= p' < |init| && init[p'].arg == w.arg && Latest(init)[w.arg] == init[p'].node
                    && forall q' | p' < q' < |init| :: init[q'].arg != w.arg;
          if p' != p {
            assert p < p' && ws[p].arg == ws[p'].arg;
          }
        }
      }
    }
  }

  /** No argument object is written twice in `ws`. */
  predicate DistinctArgs(ws: seq<TrackedWrite>) {
    forall p, q | 0 <= p < q < |ws| :: ws[p].arg != ws[q].arg
  }

  /** When no argument object is written twice, nothing is removed. */
  lemma NoSharedArgumentNoRemoval(ws: seq<TrackedWrite>)
    requires DistinctArgs(ws)
    ensures Overwritten(ws) == {}
  {
    forall n | n in Overwritten(ws)
      ensures false
    {
      OverwrittenMeaning(ws, n);
    }
  }

  lemma {:induction false} NodeWritesMeaning(node: nat, args: seq<TArgument>, w: TrackedWrite)
    ensures w in NodeWrites(node, args) <==> w.node == node && w.arg in args && Tracked(w.arg)
  {
    if |args| > 0 {
      NodeWritesMeaning(node, args[..|args| - 1], w);
      assert args == args[..|args| - 1] + [args[|args| - 1]];
    }
  }

  lemma {:induction false} BlockWritesMeaning(vals: seq<TInstruction>, block: seq<nat>, w: TrackedWrite)
    requires InRange(vals, block)
    ensures w in BlockWrites(vals, block) <==>
              w.node in block && w.node < |vals| && w.arg in WriteArgs(vals[w.node]) && Tracked(w.arg)
  {
    if |block| > 0 {
      var node := block[|block| - 1];
      BlockWritesMeaning(vals, block[..|block| - 1], w);
      NodeWritesMeaning(node, WriteArgs(vals[node]), w);
      assert block == block[..|block| - 1] + [node];
    }
  }

  /** A removed node is a node of the block with a tracked write argument. */
  lemma OverwrittenInBlock(vals: seq<TInstruction>, block: seq<nat>, n: nat)
    requires InRange(vals, block) && n in Overwritten(BlockWrites(vals, block))
    ensures n in block && n < |vals| && exists x | x in WriteArgs(vals[n]) :: Tracked(x)
  {
    var ws := BlockWrites(vals, block);
    OverwrittenMeaning(ws, n);
    var p, q :| 0 <= p < q < |ws| && ws[p].arg == ws[q].arg && ws[p].node == n;
    BlockWritesMeaning(vals, block, ws[p]);
  }

  lemma {:induction false} UnionMeaning(sets: seq<set<nat>>, n: nat)
    ensures n in Union(sets) <==> exists c | 0 <= c < |sets| :: n in sets[c]
  {
    if |sets| > 0 {
      var init := sets[..|sets| - 1];
      UnionMeaning(init, n);
      assert forall c | 0 <= c < |init| :: init[c] == sets[c];
    }
  }

  lemma {:induction false} RemovalsMeaning(vals: seq<TInstruction>, blocks: seq<seq<nat>>, n: nat)
    requires forall c | 0 <= c < |blocks| :: InRange(vals, blocks[c])
    ensures n in Union(Removals(vals, blocks)) <==>
              exists c | 0 <= c < |blocks| :: n in Overwritten(BlockWrites(vals, blocks[c]))
    ensures n in Union(Removals(vals, blocks)) ==> n < |vals| && exists x | x in WriteArgs(vals[n]) :: Tracked(x)
  {
    var removals := Removals(vals, blocks);
    UnionMeaning(removals, n);
    if exists c | 0 <= c < |blocks| :: n in Overwritten(BlockWrites(vals, blocks[c])) {
      var c :| 0 <= c < |blocks| && n in Overwritten(BlockWrites(vals, blocks[c]));
      assert n in removals[c];
    }
    if n in Union(removals) {
      var c :| 0 <= c < |blocks| && n in removals[c];
      OverwrittenInBlock(vals, blocks[c], n);
    }
  }

  /** A node the pass removes lies in some block, has a tracked write, and some write of that block
      comes after it on the same argument object. */
  lemma {:induction false} UnusedNodesMeaning(g: TGraph, n: nat)
    requires GraphValid(g)
    ensures n in UnusedNodes(g) <==>
              exists c | 0 <= c < |Blocks(g)| && InRange(g.values, Blocks(g)[c]) :: n in Overwritten(BlockWrites(g.values, Blocks(g)[c]))
    ensures n in UnusedNodes(g) ==> n < |g.ids| && exists x | x in WriteArgs(g.values[n]) :: Tracked(x)
  {
    BlocksInRange(g);
    RemovalsMeaning(g.values, Blocks(g), n);
  }

  /** No argument object is a write argument of two nodes, or twice of one node. This is the case when
      every instruction is made with argument objects of its own. */
  predicate NoSharedWriteArgs(vals: seq<TInstruction>) {
    forall i, j, a, b | 0 <= i < |vals| && 0 <= j < |vals| && 0 <= a < |WriteArgs(vals[i])| && 0 <= b < |WriteArgs(vals[j])|
                         && (i != j || a != b) :: WriteArgs(vals[i])[a] != WriteArgs(vals[j])[b]
  }

  lemma DistinctAppend(xs: seq<TrackedWrite>, ys: seq<TrackedWrite>)
    requires DistinctArgs(xs) && DistinctArgs(ys)
    requires forall p, q | 0 <= p < |xs| && 0 <= q < |ys| :: xs[p].arg != ys[q].arg
    ensures DistinctArgs(xs + ys)
  {
    forall p, q | 0 <= p < q < |xs + ys|
      ensures (xs + ys)[p].arg != (xs + ys)[q].arg
    {
      if q >= |xs| && p >= |xs| {
        assert (xs + ys)[p] == ys[p - |xs|] && (xs + ys)[q] == ys[q - |xs|];
      }
    }
  }

  lemma {:induction false} NodeWritesDistinct(node: nat, args: seq<TArgument>)
    requires forall a, b | 0 <= a < b < |args| :: args[a] != args[b]
    ensures DistinctArgs(NodeWrites(node, args))
  {
    if |args| > 0 {
      var init := args[..|args| - 1];
      var last := args[|args| - 1];
      NodeWritesDistinct(node, init);
      if Tracked(last) {
        var ws := NodeWrites(node, init);
        forall p | 0 <= p < |ws|
          ensures ws[p].arg != last
        {
          NodeWritesMeaning(node, init, ws[p]);
        }
        DistinctAppend(ws, [TrackedWrite(node, last)]);
      }
    }
  }

  lemma {:induction false} BlockWritesDistinct(vals: seq<TInstruction>, block: seq<nat>)
    requires InRange(vals, block) && NoSharedWriteArgs(vals)
    requires forall j, k | 0 <= j < k < |block| :: block[j] != block[k]
    ensures DistinctArgs(BlockWrites(vals, block))
  {
    if |block| > 0 {
      var init := block[..|block| - 1];
      var node := block[|block| - 1];
      var args := WriteArgs(vals[node]);
      BlockWritesDistinct(vals, init);
      NodeWritesDistinct(node, args);
      var xs := BlockWrites(vals, init);
      var ys := NodeWrites(node, args);
      forall p, q | 0 <= p < |xs| && 0 <= q < |ys|
        ensures xs[p].arg != ys[q].arg
      {
        BlockWritesMeaning(vals, init, xs[p]);
        NodeWritesMeaning(node, args, ys[q]);
        var j :| 0 <= j < |init| && init[j] == xs[p].node;
        var a :| 0 <= a < |WriteArgs(vals[xs[p].node])| && WriteArgs(vals[xs[p].node])[a] == xs[p].arg;
        var b :| 0 <= b < |args| && args[b] == ys[q].arg;
        assert block[j] != block[|block| - 1];
      }
      DistinctAppend(xs, ys);
    }
  }

  /** When every write argument is an object of its own, the pass removes nothing. */
  lemma NoSharedWriteArgsNoRemoval(g: TGraph)
    requires GraphValid(g) && NoSharedWriteArgs(g.values)
    ensures UnusedNodes(g) == {}
  {
    forall n | n in UnusedNodes(g)
      ensures false
    {
      BlocksInRange(g);
      RemovalsMeaning(g.values, Blocks(g), n);
      var c :| 0 <= c < |Blocks(g)| && n in Overwritten(BlockWrites(g.values, Blocks(g)[c]));
      BlockPositions(g, c);
      BlockWritesDistinct(g.values, Blocks(g)[c]);
      NoSharedArgumentNoRemoval(BlockWrites(g.values, Blocks(g)[c]));
    }
  }

  // ---------------------------------------------------------------------------------------------
  // The pass on the graph

  lemma WritesStep(ws: seq<TrackedWrite>, w: TrackedWrite)
    ensures Latest(ws + [w]) == Latest(ws)[w.arg := w.node]
    ensures Overwritten(ws + [w]) == Overwritten(ws) + (if w.arg in Latest(ws) then {Latest(ws)[w.arg]} else {})
  {
    assert (ws + [w])[..|ws|] == ws;
  }

  lemma NodeWritesStep(node: nat, args: seq<TArgument>, i: nat)
    requires i < |args|
    ensures NodeWrites(node, args[..i + 1]) ==
              NodeWrites(node, args[..i]) + (if Tracked(args[i]) then [TrackedWrite(node, args[i])] else [])
  {
    assert args[..i + 1][..i] == args[..i];
  }

  lemma BlockWritesStep(vals: seq<TInstruction>, block: seq<nat>, j: nat)
    requires InRange(vals, block) && j < |block|
    ensures InRange(vals, block[..j]) && InRange(vals, block[..j + 1])
    ensures BlockWrites(vals, block[..j + 1]) == BlockWrites(vals, block[..j]) + NodeWrites(block[j], WriteArgs(vals[block[j]]))
  {
    assert block[..j + 1][..j] == block[..j];
  }

  lemma RefsUnion(graph: FlowGraph<TInstruction>, a: set<nat>, b: set<nat>)
    ensures Refs(graph, a + b) == Refs(graph, a) + Refs(graph, b)
  {
  }

  /** The innermost loop of `RemoveUnusedWrites::optimizeGraph`: the write arguments `args` of `node`,
      with `unusedWrite` the block's map after the writes `done`. */
  method ScanNode(pass: OptimizationGraph, graph: FlowGraph<TInstruction>, node: nat, args: seq<TArgument>,
                  unusedWrite: map<TArgument, nat>, ghost done: seq<TrackedWrite>, ghost base: set<NodeRef>)
    returns (after: map<TArgument, nat>)
    requires unusedWrite == Latest(done) && pass.toBeRemoved == base + Refs(graph, Overwritten(done))
    modifies pass
    ensures after == Latest(done + NodeWrites(node, args))
    ensures pass.toBeRemoved == base + Refs(graph, Overwritten(done + NodeWrites(node, args)))
  {
    after := unusedWrite;
    assert done + NodeWrites(node, args[..0]) == done;
    for i := 0 to |args|
      invariant after == Latest(done + NodeWrites(node, args[..i]))
      invariant pass.toBeRemoved == base + Refs(graph, Overwritten(done + NodeWrites(node, args[..i])))
    {
      var x := args[i];
      ghost var ws := done + NodeWrites(node, args[..i]);
      NodeWritesStep(node, args, i);
      if Tracked(x) {
        WritesStep(ws, TrackedWrite(node, x));
        assert done + NodeWrites(node, args[..i + 1]) == ws + [TrackedWrite(node, x)];
        if x in after {
          pass.RemoveNode(graph, after[x]);
          RefsAdd(graph, Overwritten(ws), Latest(ws)[x]);
        }
        after := after[x := node];
      } else {
        assert done + NodeWrites(node, args[..i + 1]) == ws;
      }
    }
    assert args[..|args|] == args;
  }

  /** The body of the outer loop of `RemoveUnusedWrites::optimizeGraph` on one block, with a map of its
      own. */
  method ScanBlock(pass: OptimizationGraph, graph: FlowGraph<TInstruction>, block: seq<nat>)
    requires InRange(graph.values, block)
    modifies pass
    ensures pass.toBeRemoved == old(pass.toBeRemoved) + Refs(graph, Overwritten(BlockWrites(graph.values, block)))
  {
    ghost var vals := graph.values;
    var unusedWrite: map<TArgument, nat> := map[];
    for j := 0 to |block|
      invariant InRange(vals, block[..j])
      invariant unusedWrite == Latest(BlockWrites(vals, block[..j]))
      invariant pass.toBeRemoved == old(pass.toBeRemoved) + Refs(graph, Overwritten(BlockWrites(vals, block[..j])))
    {
      var node := block[j];
      BlockWritesStep(vals, block, j);
      unusedWrite := ScanNode(pass, graph, node, WriteArgs(graph.values[node]), unusedWrite,
                              BlockWrites(vals, block[..j]), old(pass.toBeRemoved));
    }
    assert block[..|block|] == block;
  }

  /** `RemoveUnusedWrites::optimizeGraph`. */
  method UnusedGraph(pass: OptimizationGraph, graph: FlowGraph<TInstruction>)
    requires graph.Valid()
    modifies pass
    ensures pass.toBeRemoved == old(pass.toBeRemoved) + Refs(graph, UnusedNodes(graph.State()))
  {
    ghost var g := graph.State();
    var blocks := Blocks(graph.State());
    BlocksInRange(g);
    ghost var removals := Removals(g.values, blocks);
    for b := 0 to |blocks|
      invariant pass.toBeRemoved == old(pass.toBeRemoved) + Refs(graph, Union(removals[..b]))
    {
      ScanBlock(pass, graph, blocks[b]);
      assert removals[..b + 1][..b] == removals[..b];
      RefsUnion(graph, Union(removals[..b]), removals[b]);
    }
    assert removals[..|blocks|] == removals;
  }
}
