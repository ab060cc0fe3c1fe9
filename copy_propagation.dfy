/** `CopyPropagation`: after a move `a := b`, the following instructions of the same block (or of the
    whole line in a trace) read `b` where they read `a`, up to and including the first instruction that
    writes `a` or `b`. No node is removed. */
module CopyPropagations {
  import opened Wrappers
  import opened UCode
  import opened TArguments
  import opened TInstructions
  import opened FlowGraphs
  import opened OptimizationGraphs

  /** A list of nodes of a graph with `n` nodes, each listed once, as a block or the line is. */
  predicate NodeList(line: seq<nat>, n: nat) {
    && (forall k | 0 <= k < |line| :: line[k] < n)
    && (forall i, j | 0 <= i < j < |line| :: line[i] != line[j])
  }

  lemma RangeIsNodeList(lo: nat, hi: nat, n: nat)
    requires lo <= hi <= n
    ensures NodeList(Range(lo, hi), n)
  {
  }

  /** Every block of a graph, and its line, list its nodes once each. */
  lemma BlocksAreNodeLists(g: TGraph)
    requires GraphValid(g)
    ensures NodeList(Line(g), |g.values|)
    ensures forall b | 0 <= b < |Blocks(g)| :: NodeList(Blocks(g)[b], |g.values|)
  {
    RangeIsNodeList(0, |g.ids|, |g.values|);
    BlocksPartitionLine(g);
    forall b | 0 <= b < |Blocks(g)|
      ensures NodeList(Blocks(g)[b], |g.values|)
    {
      var r := Blocks(g)[b];
      assert IsBlock(g, r);
      RangeIsNodeList(r[0], r[0] + |r|, |g.values|);
    }
  }

  // ---------------------------------------------------------------------------------------------
  // The copies

  /** The move rebuilds to a `UGet`: a register loaded from a location. */
  predicate RebuildsGet(t: TInstruction) {
    t.kind.TMove? && t.kind.a.TVar? && t.kind.a.v.place.Register? && t.kind.b.UArgument().ArgLocation?
  }

  lemma RebuildsGetMeansUGet(t: TInstruction)
    requires WellFormed(t) && t.kind.TMove?
    ensures RebuildsGet(t) <==> GetUInstruction(t).UGet?
  {
  }

  /** A move into a variable that is not a load: the copies the pass propagates. */
  predicate IsCopySource(t: TInstruction) {
    t.kind.TMove? && !RebuildsGet(t) && t.kind.a.TVar?
  }

  /** The source of a well-formed copy is an operand, so propagating it keeps instructions well formed. */
  lemma CopySourceIsOperand(t: TInstruction)
    requires WellFormed(t) && IsCopySource(t)
    ensures IsOperand(t.kind.b)
  {
  }

  /** `t` writes the variable `v`. */
  predicate Writes(t: TInstruction, v: TVariable) {
    exists i | 0 <= i < |WriteArgs(t)| :: Uses(WriteArgs(t)[i], v)
  }

  /** `t` writes `a`, or `b` when `b` is a variable: the propagation of `a := b` stops after `t`. */
  predicate Stops(t: TInstruction, a: TVariable, b: TArgument) {
    Writes(t, a) || (b.TVar? && Writes(t, b.v))
  }

  /** The inner loop of `optimizeLine`: propagate the copy `a := b` into the nodes `line[p..]`, stopping
      after the first one that writes `a` or `b`. */
  function PropagateAlong(vals: seq<TInstruction>, line: seq<nat>, p: nat, a: TVariable, b: TArgument): (r: seq<TInstruction>)
    requires p <= |line| && NodeList(line, |vals|)
    ensures |r| == |vals|
    decreases |line| - p
  {
    if p == |line| then vals
    else
      var vals' := vals[line[p] := PropagateCopy(vals[line[p]], a, b)];
      if Stops(vals'[line[p]], a, b) then vals' else PropagateAlong(vals', line, p + 1, a, b)
  }

  /** No node of `line[p..q]` writes `a` or `b`: the copy reaches `line[q]`. */
  predicate Reaches(vals: seq<TInstruction>, line: seq<nat>, p: nat, q: nat, a: TVariable, b: TArgument)
    requires p <= q <= |line| && NodeList(line, |vals|)
  {
    forall s | p <= s < q :: !Stops(vals[line[s]], a, b)
  }

  /** Propagating leaves every node that is not in `line[p..]` as it is. */
  lemma {:induction false} PropagateAlongOffLine(vals: seq<TInstruction>, line: seq<nat>, p: nat, a: TVariable, b: TArgument, k: nat)
    requires p <= |line| && NodeList(line, |vals|) && k < |vals| && k !in line[p..]
    ensures PropagateAlong(vals, line, p, a, b)[k] == vals[k]
    decreases |line| - p
  {
    if p < |line| {
      assert line[p..] == [line[p]] + line[p + 1..];
      var vals' := vals[line[p] := PropagateCopy(vals[line[p]], a, b)];
      if !Stops(vals'[line[p]], a, b) {
        PropagateAlongOffLine(vals', line, p + 1, a, b, k);
      }
    }
  }

  /** Propagating a copy into an instruction does not change when propagation stops there. */
  lemma PropagateCopyStops(t: TInstruction, a: TVariable, b: TArgument)
    ensures Stops(PropagateCopy(t, a, b), a, b) == Stops(t, a, b)
  {
    PropagateCopyMeaning(t, a, b);
  }

  /** The first node of `line[p..]` always receives the copy. */
  lemma PropagateAlongFirst(vals: seq<TInstruction>, line: seq<nat>, p: nat, a: TVariable, b: TArgument)
    requires p < |line| && NodeList(line, |vals|)
    ensures PropagateAlong(vals, line, p, a, b)[line[p]] == PropagateCopy(vals[line[p]], a, b)
  {
    var vals' := vals[line[p] := PropagateCopy(vals[line[p]], a, b)];
    if !Stops(vals'[line[p]], a, b) {
      assert line[p] !in line[p + 1..];
      PropagateAlongOffLine(vals', line, p + 1, a, b, line[p]);
    }
  }

  /** The copy is propagated into exactly the nodes of `line[p..]` it reaches, the first writer of `a`
      or `b` included. */
  lemma {:induction false} PropagateAlongOnLine(vals: seq<TInstruction>, line: seq<nat>, p: nat, a: TVariable, b: TArgument, q: nat)
    requires p <= q < |line| && NodeList(line, |vals|)
    ensures PropagateAlong(vals, line, p, a, b)[line[q]] ==
            if Reaches(vals, line, p, q, a, b) then PropagateCopy(vals[line[q]], a, b) else vals[line[q]]
    decreases |line| - p
  {
    if q == p {
      PropagateAlongFirst(vals, line, p, a, b);
    } else {
      var t := vals[line[p]];
      var vals' := vals[line[p] := PropagateCopy(t, a, b)];
      PropagateCopyStops(t, a, b);
      if Stops(t, a, b) {
        assert line[q] != line[p];
        assert !Reaches(vals, line, p, q, a, b);
      } else {
        PropagateAlongOnLine(vals', line, p + 1, a, b, q);
        forall s | p < s <= q
          ensures vals'[line[s]] == vals[line[s]]
        {
          assert line[s] != line[p];
        }
      }
    }
  }

  /** Both halves at once. */
  lemma PropagateAlongMeaning(vals: seq<TInstruction>, line: seq<nat>, p: nat, a: TVariable, b: TArgument)
    requires p <= |line| && NodeList(line, |vals|)
    ensures var r := PropagateAlong(vals, line, p, a, b);
            && (forall q | p <= q < |line| ::
                  r[line[q]] == if Reaches(vals, line, p, q, a, b) then PropagateCopy(vals[line[q]], a, b) else vals[line[q]])
            && (forall k | 0 <= k < |vals| && k !in line[p..] :: r[k] == vals[k])
  {
    forall q | p <= q < |line|
      ensures PropagateAlong(vals, line, p, a, b)[line[q]] ==
              if Reaches(vals, line, p, q, a, b) then PropagateCopy(vals[line[q]], a, b) else vals[line[q]]
    {
      PropagateAlongOnLine(vals, line, p, a, b, q);
    }
    forall k | 0 <= k < |vals| && k !in line[p..]
      ensures PropagateAlong(vals, line, p, a, b)[k] == vals[k]
    {
      PropagateAlongOffLine(vals, line, p, a, b, k);
    }
  }

  /** `optimizeLine` from node `line[i]` on, on the values as the earlier copies have left them. */
  function CopyLine(vals: seq<TInstruction>, line: seq<nat>, i: nat): (r: seq<TInstruction>)
    requires i <= |line| && NodeList(line, |vals|)
    ensures |r| == |vals|
    decreases |line| - i
  {
    if i == |line| then vals
    else
      var t := vals[line[i]];
      var vals' := if IsCopySource(t) then PropagateAlong(vals, line, i + 1, t.kind.a.v, t.kind.b) else vals;
      CopyLine(vals', line, i + 1)
  }

  /** `optimizeLine` on each of `blocks[b..]` in turn. */
  function CopyBlocks(vals: seq<TInstruction>, blocks: seq<seq<nat>>, b: nat): (r: seq<TInstruction>)
    requires b <= |blocks| && forall c | 0 <= c < |blocks| :: NodeList(blocks[c], |vals|)
    ensures |r| == |vals|
    decreases |blocks| - b
  {
    if b == |blocks| then vals else CopyBlocks(CopyLine(vals, blocks[b], 0), blocks, b + 1)
  }

  /** `CopyPropagation::optimizeGraph`: block by block when the start node is a function's, over the
      whole line otherwise. */
  function CopyPropagated(g: TGraph): (r: seq<TInstruction>)
    requires GraphValid(g) && StartNode(g).Some?
    ensures |r| == |g.values|
  {
    BlocksAreNodeLists(g);
    if g.values[StartNode(g).value].isFunction then CopyBlocks(g.values, Blocks(g), 0)
    else CopyLine(g.values, Line(g), 0)
  }

  // ---------------------------------------------------------------------------------------------
  // What the pass keeps

  /** Each instruction is still made from the same U-instruction in the same mode, writes what it
      wrote, and is a label exactly when it was one. */
  predicate SameShape(vals: seq<TInstruction>, vals': seq<TInstruction>) {
    && |vals'| == |vals|
    && forall k | 0 <= k < |vals| ::
         && vals'[k].u == vals[k].u && vals'[k].isFunction == vals[k].isFunction && WriteArgs(vals'[k]) == WriteArgs(vals[k])
         && vals'[k].kind.TLabel? == vals[k].kind.TLabel?
  }

  lemma {:induction false} PropagateAlongKeeps(vals: seq<TInstruction>, line: seq<nat>, p: nat, a: TVariable, b: TArgument)
    requires p <= |line| && NodeList(line, |vals|) && IsOperand(b)
    ensures SameShape(vals, PropagateAlong(vals, line, p, a, b))
    ensures AllCanonical(vals) ==> AllCanonical(PropagateAlong(vals, line, p, a, b))
    decreases |line| - p
  {
    if p < |line| {
      var t := vals[line[p]];
      var vals' := vals[line[p] := PropagateCopy(t, a, b)];
      PropagateCopyMeaning(t, a, b);
      if AllCanonical(vals) {
        PropagateCopyKeepsShape(t, a, b);
      }
      if !Stops(vals'[line[p]], a, b) {
        PropagateAlongKeeps(vals', line, p + 1, a, b);
      }
    }
  }

  lemma {:induction false} CopyLineKeeps(vals: seq<TInstruction>, line: seq<nat>, i: nat)
    requires i <= |line| && NodeList(line, |vals|) && AllCanonical(vals)
    ensures SameShape(vals, CopyLine(vals, line, i)) && AllCanonical(CopyLine(vals, line, i))
    decreases |line| - i
  {
    if i < |line| {
      var t := vals[line[i]];
      if IsCopySource(t) {
        CopySourceIsOperand(t);
        var vals' := PropagateAlong(vals, line, i + 1, t.kind.a.v, t.kind.b);
        PropagateAlongKeeps(vals, line, i + 1, t.kind.a.v, t.kind.b);
        CopyLineKeeps(vals', line, i + 1);
      } else {
        CopyLineKeeps(vals, line, i + 1);
      }
    }
  }

  lemma {:induction false} CopyBlocksKeeps(vals: seq<TInstruction>, blocks: seq<seq<nat>>, b: nat)
    requires b <= |blocks| && (forall c | 0 <= c < |blocks| :: NodeList(blocks[c], |vals|)) && AllCanonical(vals)
    ensures SameShape(vals, CopyBlocks(vals, blocks, b)) && AllCanonical(CopyBlocks(vals, blocks, b))
    decreases |blocks| - b
  {
    if b < |blocks| {
      var vals' := CopyLine(vals, blocks[b], 0);
      CopyLineKeeps(vals, blocks[b], 0);
      CopyBlocksKeeps(vals', blocks, b + 1);
    }
  }

  /** Copy propagation keeps every instruction canonical, made from the same U-instruction in the same
      mode, writing what it wrote, and a label exactly when it was one. */
  lemma CopyPropagatedKeeps(g: TGraph)
    requires GraphValid(g) && StartNode(g).Some? && AllCanonical(g.values)
    ensures SameShape(g.values, CopyPropagated(g)) && AllCanonical(CopyPropagated(g))
  {
    BlocksAreNodeLists(g);
    if g.values[StartNode(g).value].isFunction {
      CopyBlocksKeeps(g.values, Blocks(g), 0);
    } else {
      CopyLineKeeps(g.values, Line(g), 0);
    }
  }

  /** A line without copies is left as it is. */
  lemma {:induction false} NoCopiesNoChange(vals: seq<TInstruction>, line: seq<nat>, i: nat)
    requires i <= |line| && NodeList(line, |vals|)
    requires forall k | i <= k < |line| :: !IsCopySource(vals[line[k]])
    ensures CopyLine(vals, line, i) == vals
    decreases |line| - i
  {
    if i < |line| {
      NoCopiesNoChange(vals, line, i + 1);
    }
  }

  /** The first copy of a line is propagated into exactly the nodes after it that it reaches. */
  lemma FirstCopyReaches(vals: seq<TInstruction>, line: seq<nat>)
    requires NodeList(line, |vals|) && |line| > 0 && IsCopySource(vals[line[0]])
    ensures var t := vals[line[0]];
            var vals' := PropagateAlong(vals, line, 1, t.kind.a.v, t.kind.b);
            && CopyLine(vals, line, 0) == CopyLine(vals', line, 1)
            && vals'[line[0]] == t
            && forall q | 1 <= q < |line| ::
                 vals'[line[q]] == if Reaches(vals, line, 1, q, t.kind.a.v, t.kind.b)
                                   then PropagateCopy(vals[line[q]], t.kind.a.v, t.kind.b) else vals[line[q]]
  {
    var t := vals[line[0]];
    PropagateAlongMeaning(vals, line, 1, t.kind.a.v, t.kind.b);
    assert line[0] !in line[1..];
  }

  // ---------------------------------------------------------------------------------------------
  // The pass on the graph

  /** The write-argument loop of `optimizeLine`: does `t` write `a` or `b`? */
  method WritesEither(t: TInstruction, a: TVariable, b: TArgument) returns (stop: bool)
    ensures stop == Stops(t, a, b)
  {
    var writes := WriteArgs(t);
    stop := false;
    ghost var writesA, writesB := false, false;
    for i := 0 to |writes|
      invariant writesA == exists k | 0 <= k < i :: Uses(writes[k], a)
      invariant writesB == (b.TVar? && exists k | 0 <= k < i :: Uses(writes[k], b.v))
      invariant stop == (writesA || writesB)
    {
      var arg := writes[i];
      if arg.TVar? && SameVariable(arg.v, a) {
        stop := true;
        writesA := true;
      }
      if b.TVar? && arg.TVar? && SameVariable(arg.v, b.v) {
        stop := true;
        writesB := true;
      }
    }
  }

  /** The inner loop of `optimizeLine`, on the values of `graph`. */
  method PropagateFrom(graph: FlowGraph<TInstruction>, line: seq<nat>, p: nat, a: TVariable, b: TArgument)
    requires graph.Valid() && p <= |line| && NodeList(line, |graph.values|)
    modifies graph
    ensures graph.Valid() && graph.State() == old(graph.State()).(values := graph.values)
    ensures graph.values == PropagateAlong(old(graph.values), line, p, a, b)
  {
    var q := p;
    while q < |line|
      invariant p <= q <= |line| && graph.Valid() && graph.State() == old(graph.State()).(values := graph.values)
      invariant |graph.values| == |old(graph.values)|
      invariant PropagateAlong(graph.values, line, q, a, b) == PropagateAlong(old(graph.values), line, p, a, b)
      decreases |line| - q
    {
      var node := line[q];
      graph.SetValue(node, PropagateCopy(graph.values[node], a, b));
      var stop := WritesEither(graph.values[node], a, b);
      if stop {
        return;
      }
      q := q + 1;
    }
  }

  /** `CopyPropagation::optimizeLine`. */
  method OptimizeLine(graph: FlowGraph<TInstruction>, line: seq<nat>)
    requires graph.Valid() && NodeList(line, |graph.values|)
    modifies graph
    ensures graph.Valid() && graph.State() == old(graph.State()).(values := graph.values)
    ensures graph.values == CopyLine(old(graph.values), line, 0)
  {
    var i := 0;
    while i < |line|
      invariant 0 <= i <= |line| && graph.Valid() && graph.State() == old(graph.State()).(values := graph.values)
      invariant |graph.values| == |old(graph.values)|
      invariant CopyLine(graph.values, line, i) == CopyLine(old(graph.values), line, 0)
    {
      var move := graph.values[line[i]];
      if IsCopySource(move) {
        PropagateFrom(graph, line, i + 1, move.kind.a.v, move.kind.b);
      }
      i := i + 1;
    }
  }

  /** `CopyPropagation::optimizeGraph`. */
  method CopyGraph(graph: FlowGraph<TInstruction>)
    requires graph.Valid() && StartNode(graph.State()).Some?
    modifies graph
    ensures graph.Valid() && graph.State() == old(graph.State()).(values := graph.values)
    ensures graph.values == CopyPropagated(old(graph.State()))
  {
    ghost var g0 := graph.State();
    BlocksAreNodeLists(g0);
    var start := StartNode(graph.State()).value;
    if graph.values[start].isFunction {
      var blocks := Blocks(graph.State());
      var b := 0;
      while b < |blocks|
        invariant 0 <= b <= |blocks| && graph.Valid() && graph.State() == g0.(values := graph.values)
        invariant |graph.values| == |g0.values|
        invariant CopyBlocks(graph.values, blocks, b) == CopyBlocks(g0.values, blocks, 0)
      {
        OptimizeLine(graph, blocks[b]);
        b := b + 1;
      }
    } else {
      OptimizeLine(graph, Line(graph.State()));
    }
  }
}
