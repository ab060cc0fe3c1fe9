/** `OptimizationGraph::optimize` and `OptimizationsSequence`: how one pass runs on T-code (build the
    flow graph, let the pass mark nodes, rebuild the code from the unmarked ones), and how a sequence
    of passes optimizes the U-code of a function or a trace, falling back to the original code when
    an optimization error is thrown. */
module OptimizationsSequences {
  import opened Wrappers
  import opened UCode
  import opened Exceptions
  import opened TArguments
  import opened TSideEffects
  import opened TInstructions
  import opened TStates
  import opened TLowering
  import opened FlowGraphs
  import opened CodeStore
  import opened OptimizationGraphs
  import opened ConstantFoldings
  import opened CopyPropagations
  import opened DeadCodes
  import opened UnusedWrites

  // ---------------------------------------------------------------------------------------------
  // One pass

  /** The T-code has a label. Labels survive every pass, so such code never becomes empty. */
  predicate HasLabel(code: seq<TInstruction>) {
    exists k | 0 <= k < |code| :: code[k].kind.TLabel?
  }

  /** What `optimizeGraph` of a pass of the given kind does on the flow graph of `code`: the values
      its nodes end with and the nodes it marks, or the error it throws. Copy propagation reads the
      graph's start node, so it needs a node. */
  function PassEffect(kind: PassKind, code: seq<TInstruction>): Result<Folded, Exception>
    requires AllCanonical(code) && (kind.CopyPropagation? ==> |code| > 0)
  {
    CanonicalWellFormed(code);
    match kind
    case ConstantFolding => Folding(code)
    case CopyPropagation => Success(Folded(CopyPropagated(GraphOf(code)), {}))
    case DeadCodeElimination => Success(Folded(code, DeadNodes(GraphOf(code))))
    case RemoveUnusedWrites => Success(Folded(code, UnusedNodes(GraphOf(code))))
  }

  /** What `optimize` of a pass makes of `code`: the values of the unmarked nodes, in line order. */
  function PassResult(kind: PassKind, code: seq<TInstruction>): Result<seq<TInstruction>, Exception>
    requires AllCanonical(code) && (kind.CopyPropagation? ==> |code| > 0)
  {
    match PassEffect(kind, code)
    case Failure(e) => Failure(e)
    case Success(f) => Success(Kept(f.values, f.removed))
  }

  lemma CanonicalWellFormed(code: seq<TInstruction>)
    requires AllCanonical(code)
    ensures AllWellFormed(code)
  {
    forall k | 0 <= k < |code|
      ensures WellFormed(code[k])
    {
      assert Canonical(code[k]);
    }
  }

  /** `a` stands where `b` stood: same `cp`, same mode, same written arguments. */
  predicate Resembles(a: TInstruction, b: TInstruction) {
    a.u.cp == b.u.cp && a.isFunction == b.isFunction && WriteArgs(a) == WriteArgs(b)
  }

  /** `out` is `code` with some instructions dropped and the others rewritten in place: the `i`-th
      instruction of `out` stands where the `idx[i]`-th of `code` stood, in increasing order. */
  predicate Embeds(out: seq<TInstruction>, code: seq<TInstruction>, idx: seq<nat>) {
    && |idx| == |out| && Increasing(idx)
    && forall i | 0 <= i < |idx| :: idx[i] < |code| && Resembles(out[i], code[idx[i]])
  }

  /** Every label of `code` is still in `out`, made from the same U-instruction. */
  predicate LabelsKept(code: seq<TInstruction>, out: seq<TInstruction>) {
    forall k | 0 <= k < |code| && code[k].kind.TLabel? ::
      exists i | 0 <= i < |out| :: out[i].kind.TLabel? && out[i].u == code[k].u
  }

  /** The common end of every pass: rewritten values `vals` that resemble `code`, keep its labels, and
      a set `removed` that holds no label. */
  lemma KeptFacts(code: seq<TInstruction>, vals: seq<TInstruction>, removed: set<nat>)
    requires |vals| == |code| && forall k | 0 <= k < |code| :: Resembles(vals[k], code[k])
    requires forall k | 0 <= k < |code| && code[k].kind.TLabel? ::
               k !in removed && vals[k].kind.TLabel? && vals[k].u == code[k].u
    ensures Embeds(Kept(vals, removed), code, KeptIndices(|vals|, removed))
    ensures LabelsKept(code, Kept(vals, removed))
    ensures AllCanonical(vals) ==> AllCanonical(Kept(vals, removed))
  {
    KeptIsSubsequence(vals, removed);
    var idx := KeptIndices(|vals|, removed);
    var out := Kept(vals, removed);
    forall k | 0 <= k < |code| && code[k].kind.TLabel?
      ensures exists i | 0 <= i < |out| :: out[i].kind.TLabel? && out[i].u == code[k].u
    {
      var i :| 0 <= i < |idx| && idx[i] == k;
      assert out[i] == vals[k];
    }
  }

  lemma LabelWritesNothing(t: TInstruction)
    requires t.kind.TLabel?
    ensures WriteArgs(t) == [] && Effects(t).write.None?
  {
  }

  /** What every pass leaves: canonical values that stand where the old ones stood, labels unchanged
      and unmarked, and marks only on nodes of the graph. */
  predicate EffectKeeps(code: seq<TInstruction>, f: Folded) {
    && |f.values| == |code| && AllCanonical(f.values)
    && (forall k | 0 <= k < |code| :: Resembles(f.values[k], code[k]))
    && (forall k | 0 <= k < |code| && code[k].kind.TLabel? ::
          k !in f.removed && f.values[k].kind.TLabel? && f.values[k].u == code[k].u)
    && (forall k | k in f.removed :: k < |code|)
  }

  lemma FoldingKeepsEffect(code: seq<TInstruction>)
    requires AllCanonical(code) && AllWellFormed(code)
    ensures Folding(code).Failure? ==> Folding(code).error == OptimizationError
    ensures Folding(code).Success? ==> EffectKeeps(code, Folding(code).value)
  {
    FoldingMeaning(code);
    if Folding(code).Success? {
      FoldingKeeps(code);
    }
  }

  lemma ShapeKeepsEffect(code: seq<TInstruction>, vals: seq<TInstruction>)
    requires SameShape(code, vals) && AllCanonical(vals)
    ensures EffectKeeps(code, Folded(vals, {}))
  {
  }

  lemma CopyKeepsEffect(code: seq<TInstruction>)
    requires AllCanonical(code) && |code| > 0
    ensures EffectKeeps(code, Folded(CopyPropagated(GraphOf(code)), {}))
  {
    var g := GraphOf(code);
    CopyPropagatedKeeps(g);
    var vals := CopyPropagated(g);
    assert SameShape(code, vals) && AllCanonical(vals);
    ShapeKeepsEffect(code, vals);
  }

  lemma DeadKeepsEffect(code: seq<TInstruction>)
    requires AllCanonical(code) && AllWellFormed(code)
    ensures EffectKeeps(code, Folded(code, DeadNodes(GraphOf(code))))
  {
    var g := GraphOf(code);
    forall k | k in DeadNodes(g)
      ensures k < |code| && !code[k].kind.TLabel?
    {
      DeadNodesMeaning(g, k);
      if code[k].kind.TLabel? {
        LabelWritesNothing(code[k]);
      }
    }
  }

  lemma UnusedKeepsEffect(code: seq<TInstruction>)
    requires AllCanonical(code)
    ensures EffectKeeps(code, Folded(code, UnusedNodes(GraphOf(code))))
  {
    var g := GraphOf(code);
    forall k | k in UnusedNodes(g)
      ensures k < |code| && !code[k].kind.TLabel?
    {
      UnusedNodesMeaning(g, k);
      if code[k].kind.TLabel? {
        LabelWritesNothing(code[k]);
      }
    }
  }

  lemma PassKeepsEffect(kind: PassKind, code: seq<TInstruction>)
    requires AllCanonical(code) && (kind.CopyPropagation? ==> |code| > 0)
    ensures PassEffect(kind, code).Failure? ==> PassEffect(kind, code).error == OptimizationError
    ensures PassEffect(kind, code).Success? ==> EffectKeeps(code, PassEffect(kind, code).value)
  {
    CanonicalWellFormed(code);
    match kind
    case ConstantFolding => FoldingKeepsEffect(code);
    case CopyPropagation => CopyKeepsEffect(code);
    case DeadCodeElimination => DeadKeepsEffect(code);
    case RemoveUnusedWrites => UnusedKeepsEffect(code);
  }

  /** Every pass keeps the code canonical and its labels, and only drops instructions or rewrites them
      in place; a failing pass fails with `OptimizationError`, which is what the fallback catches. */
  lemma PassKeeps(kind: PassKind, code: seq<TInstruction>)
    requires AllCanonical(code) && (kind.CopyPropagation? ==> |code| > 0)
    ensures PassResult(kind, code).Failure? ==> PassResult(kind, code).error == OptimizationError
    ensures PassResult(kind, code).Success? ==>
              var out := PassResult(kind, code).value;
              && AllCanonical(out) && LabelsKept(code, out)
              && Embeds(out, code, KeptIndices(|code|, PassEffect(kind, code).value.removed))
  {
    PassKeepsEffect(kind, code);
    if PassEffect(kind, code).Success? {
      var f := PassEffect(kind, code).value;
      KeptFacts(code, f.values, f.removed);
    }
  }

  /** The marks of earlier calls are on nodes of other graphs, so only the marks of this call count. */
  lemma FreshMarks(before: set<NodeRef>, graph: FlowGraph<TInstruction>, nodes: set<nat>, n: nat, after: set<NodeRef>)
    requires (forall x | x in before :: x.graph != graph) && (forall k | k in nodes :: k < n)
    requires after == before + Refs(graph, nodes)
    ensures forall k: nat :: (k < n && NodeRef(graph, k) in after) <==> k in nodes
  {
  }

  /** `ConstantFolding::optimizeGraph` on a new graph. */
  method RunFolding(pass: OptimizationGraph, graph: FlowGraph<TInstruction>) returns (r: Outcome<Exception>)
    requires graph.Valid() && AllWellFormed(graph.values)
    requires forall x | x in pass.toBeRemoved :: x.graph != graph
    modifies pass, graph
    ensures graph.Valid()
    ensures r.Fail? <==> Folding(old(graph.values)).Failure?
    ensures r.Fail? ==> r.error == Folding(old(graph.values)).error
    ensures r.Pass? ==> Folded(graph.values, pass.Removed(graph, |graph.values|)) == Folding(old(graph.values)).value
  {
    ghost var vals := graph.values;
    ghost var before := pass.toBeRemoved;
    r := FoldGraph(pass, graph);
    FoldingMeaning(vals);
    if r.Pass? {
      var removed := Folding(vals).value.removed;
      FreshMarks(before, graph, removed, |vals|, pass.toBeRemoved);
      assert pass.Removed(graph, |vals|) == removed;
    }
  }

  /** `CopyPropagation::optimizeGraph` on a new graph: it marks nothing. */
  method RunCopies(pass: OptimizationGraph, graph: FlowGraph<TInstruction>)
    requires graph.Valid() && |graph.values| > 0
    requires forall x | x in pass.toBeRemoved :: x.graph != graph
    modifies graph
    ensures graph.Valid()
    ensures Folded(graph.values, pass.Removed(graph, |graph.values|)) == Folded(CopyPropagated(old(graph.State())), {})
  {
    CopyGraph(graph);
    FreshMarks(pass.toBeRemoved, graph, {}, |graph.values|, pass.toBeRemoved);
    assert pass.Removed(graph, |graph.values|) == {};
  }

  /** `DeadCodeElimination::optimizeGraph` on a new graph: it changes no value. */
  method RunDeadCode(pass: OptimizationGraph, graph: FlowGraph<TInstruction>)
    requires graph.Valid() && AllWellFormed(graph.values)
    requires forall x | x in pass.toBeRemoved :: x.graph != graph
    modifies pass
    ensures pass.Removed(graph, |graph.values|) == DeadNodes(graph.State())
  {
    ghost var g := graph.State();
    ghost var before := pass.toBeRemoved;
    DeadGraph(pass, graph);
    forall k | k in DeadNodes(g)
      ensures k < |g.values|
    {
      DeadNodesMeaning(g, k);
    }
    FreshMarks(before, graph, DeadNodes(g), |g.values|, pass.toBeRemoved);
    assert pass.Removed(graph, |g.values|) == DeadNodes(g);
  }

  /** `RemoveUnusedWrites::optimizeGraph` on a new graph: it changes no value. */
  method RunUnusedWrites(pass: OptimizationGraph, graph: FlowGraph<TInstruction>)
    requires graph.Valid()
    requires forall x | x in pass.toBeRemoved :: x.graph != graph
    modifies pass
    ensures pass.Removed(graph, |graph.values|) == UnusedNodes(graph.State())
  {
    ghost var g := graph.State();
    ghost var before := pass.toBeRemoved;
    UnusedGraph(pass, graph);
    forall k | k in UnusedNodes(g)
      ensures k < |g.values|
    {
      UnusedNodesMeaning(g, k);
    }
    FreshMarks(before, graph, UnusedNodes(g), |g.values|, pass.toBeRemoved);
    assert pass.Removed(graph, |g.values|) == UnusedNodes(g);
  }

  /** `optimizeGraph`, the virtual call on the kind of pass, on the new graph of `code`. */
  method OptimizeGraph(pass: OptimizationGraph, graph: FlowGraph<TInstruction>, ghost code: seq<TInstruction>)
    returns (r: Outcome<Exception>)
    requires graph.Valid() && graph.State() == GraphOf(code)
    requires AllCanonical(code) && (pass.kind.CopyPropagation? ==> |code| > 0)
    requires forall x | x in pass.toBeRemoved :: x.graph != graph
    modifies pass, graph
    ensures graph.Valid()
    ensures r.Fail? <==> PassEffect(pass.kind, code).Failure?
    ensures r.Fail? ==> r.error == PassEffect(pass.kind, code).error
    ensures r.Pass? ==> Folded(graph.values, pass.Removed(graph, |graph.values|)) == PassEffect(pass.kind, code).value
  {
    CanonicalWellFormed(code);
    match pass.kind
    case ConstantFolding =>
      r := RunFolding(pass, graph);
    case CopyPropagation =>
      RunCopies(pass, graph);
      r := Pass;
    case DeadCodeElimination =>
      RunDeadCode(pass, graph);
      r := Pass;
    case RemoveUnusedWrites =>
      RunUnusedWrites(pass, graph);
      r := Pass;
  }

  /** `OptimizationGraph::optimize`: a new flow graph of `code`, `optimizeGraph` on it, and the code of
      the nodes left. The marks of earlier calls stay in `toBeRemoved` but are on other graphs. */
  method RunPass(pass: OptimizationGraph, code: seq<TInstruction>) returns (r: Result<seq<TInstruction>, Exception>)
    requires AllCanonical(code) && (pass.kind.CopyPropagation? ==> |code| > 0)
    modifies pass
    ensures r == PassResult(pass.kind, code)
  {
    var graph := BuildGraph(code);
    assert forall x | x in pass.toBeRemoved :: x.graph != graph;
    var outcome := OptimizeGraph(pass, graph, code);
    if outcome.Fail? {
      return Failure(outcome.error);
    }
    var optimized := Reconstruct(pass, graph);
    r := Success(optimized.instructions);
  }

  // ---------------------------------------------------------------------------------------------
  // A sequence of passes

  lemma LabelsKeptHasLabel(code: seq<TInstruction>, out: seq<TInstruction>)
    requires LabelsKept(code, out) && HasLabel(code)
    ensures HasLabel(out)
  {
    var k :| 0 <= k < |code| && code[k].kind.TLabel?;
    var i :| 0 <= i < |out| && out[i].kind.TLabel? && out[i].u == code[k].u;
  }

  /** The passes `kinds` one after the other, each on the code the one before made; the first error
      ends the sequence. A copy propagation needs a node, which code with a label keeps having. */
  function Passes(kinds: seq<PassKind>, code: seq<TInstruction>): (r: Result<seq<TInstruction>, Exception>)
    requires AllCanonical(code) && (CopyPropagation in kinds ==> HasLabel(code))
    ensures r.Success? ==> AllCanonical(r.value) && AllWellFormed(r.value)
    decreases |kinds|
  {
    if |kinds| == 0 then
      CanonicalWellFormed(code);
      Success(code)
    else
      PassKeeps(kinds[0], code);
      match PassResult(kinds[0], code)
      case Failure(e) => Failure(e)
      case Success(next) =>
        assert CopyPropagation in kinds[1..] ==> CopyPropagation in kinds;
        if CopyPropagation in kinds[1..] then
          LabelsKeptHasLabel(code, next);
          Passes(kinds[1..], next)
        else
          Passes(kinds[1..], next)
  }

  /** `out` is `code` with some instructions dropped and the others rewritten in place, and with every
      label of `code` still there. */
  ghost predicate Transformed(code: seq<TInstruction>, out: seq<TInstruction>) {
    LabelsKept(code, out) && exists idx :: Embeds(out, code, idx)
  }

  /** Embeddings compose: dropping and rewriting twice is dropping and rewriting once. */
  lemma EmbedsCompose(out: seq<TInstruction>, mid: seq<TInstruction>, code: seq<TInstruction>, i1: seq<nat>, i2: seq<nat>)
    requires Embeds(out, mid, i1) && Embeds(mid, code, i2)
    ensures Embeds(out, code, seq(|i1|, j requires 0 <= j < |i1| => i2[i1[j]]))
  {
  }

  lemma LabelsKeptCompose(code: seq<TInstruction>, mid: seq<TInstruction>, out: seq<TInstruction>)
    requires LabelsKept(code, mid) && LabelsKept(mid, out)
    ensures LabelsKept(code, out)
  {
    forall k | 0 <= k < |code| && code[k].kind.TLabel?
      ensures exists i | 0 <= i < |out| :: out[i].kind.TLabel? && out[i].u == code[k].u
    {
      var j :| 0 <= j < |mid| && mid[j].kind.TLabel? && mid[j].u == code[k].u;
      var i :| 0 <= i < |out| && out[i].kind.TLabel? && out[i].u == mid[j].u;
    }
  }

  lemma TransformedCompose(code: seq<TInstruction>, mid: seq<TInstruction>, out: seq<TInstruction>)
    requires Transformed(code, mid) && Transformed(mid, out)
    ensures Transformed(code, out)
  {
    var i2 :| Embeds(mid, code, i2);
    var i1 :| Embeds(out, mid, i1);
    EmbedsCompose(out, mid, code, i1, i2);
    LabelsKeptCompose(code, mid, out);
  }

  lemma PassTransforms(kind: PassKind, code: seq<TInstruction>)
    requires AllCanonical(code) && (kind.CopyPropagation? ==> |code| > 0)
    ensures PassResult(kind, code).Failure? ==> PassResult(kind, code).error == OptimizationError
    ensures PassResult(kind, code).Success? ==>
              AllCanonical(PassResult(kind, code).value) && Transformed(code, PassResult(kind, code).value)
  {
    PassKeeps(kind, code);
  }

  /** A sequence of passes fails only with `OptimizationError`, and otherwise gives canonical code that
      keeps every label and is the input with instructions dropped or rewritten in place. */
  lemma {:induction false} PassesMeaning(kinds: seq<PassKind>, code: seq<TInstruction>)
    requires AllCanonical(code) && (CopyPropagation in kinds ==> HasLabel(code))
    ensures Passes(kinds, code).Failure? ==> Passes(kinds, code).error == OptimizationError
    ensures Passes(kinds, code).Success? ==> Transformed(code, Passes(kinds, code).value)
    decreases |kinds|
  {
    if |kinds| == 0 {
      assert Embeds(code, code, seq(|code|, i => i));
    } else {
      PassTransforms(kinds[0], code);
      var step := PassResult(kinds[0], code);
      if step.Success? {
        var next := step.value;
        assert CopyPropagation in kinds[1..] ==> CopyPropagation in kinds;
        if CopyPropagation in kinds[1..] {
          LabelsKeptHasLabel(code, next);
        }
        assert Passes(kinds, code) == Passes(kinds[1..], next);
        PassesMeaning(kinds[1..], next);
        if Passes(kinds[1..], next).Success? {
          TransformedCompose(code, next, Passes(kinds[1..], next).value);
        }
      }
    }
  }

  /** Lowering of the whole U-code in one mode: each T-instruction is lowered from the U-instruction at
      its place, a label to a label, and writes variables only. */
  predicate LoweredAll(t: seq<TInstruction>, uCode: seq<UInstruction>, isFunction: bool) {
    && |t| == |uCode|
    && forall k | 0 <= k < |t| ::
         && LoweredFrom(t[k], uCode[k], isFunction) && (uCode[k].ULabel? ==> t[k].kind.TLabel?)
         && DistinctWrites(WriteArgs(t[k]))
  }

  lemma LoweredAllStep(t: seq<TInstruction>, uCode: seq<UInstruction>, i: nat, x: TInstruction, isFunction: bool)
    requires i < |uCode| && LoweredAll(t, uCode[..i], isFunction)
    requires LoweredFrom(x, uCode[i], isFunction) && (uCode[i].ULabel? ==> x.kind.TLabel?) && DistinctWrites(WriteArgs(x))
    ensures LoweredAll(t + [x], uCode[..i + 1], isFunction)
  {
    assert uCode[..i + 1][..i] == uCode[..i];
  }

  lemma LoweredIsCanonical(t: seq<TInstruction>, uCode: seq<UInstruction>, isFunction: bool)
    requires LoweredAll(t, uCode, isFunction)
    ensures AllCanonical(t)
    ensures (exists k | 0 <= k < |uCode| :: uCode[k].ULabel?) ==> HasLabel(t)
  {
    forall k | 0 <= k < |t|
      ensures Canonical(t[k])
    {
      assert DistinctWrites(WriteArgs(t[k]));
    }
  }

  /** The U-code rebuilt from T-code: `getUInstruction` of each instruction. */
  function Relowered(t: seq<TInstruction>): (r: seq<UInstruction>)
    requires AllWellFormed(t)
    ensures |r| == |t|
  {
    seq(|t|, i requires 0 <= i < |t| => GetUInstruction(t[i]))
  }

  /** With no pass, optimizing gives the U-code back. */
  lemma NoPassesGiveBackTheCode(t: seq<TInstruction>, uCode: seq<UInstruction>, isFunction: bool)
    requires LoweredAll(t, uCode, isFunction)
    ensures AllCanonical(t) && Passes([], t) == Success(t)
    ensures AllWellFormed(t) && Relowered(t) == uCode
  {
    LoweredIsCanonical(t, uCode, isFunction);
    CanonicalWellFormed(t);
    forall k | 0 <= k < |t|
      ensures Relowered(t)[k] == uCode[k]
    {
      assert LoweredFrom(t[k], uCode[k], isFunction);
    }
  }

  /** Every label of the U-code is in U-code rebuilt from T-code that kept the labels of its lowering. */
  lemma RebuiltLabels(t: seq<TInstruction>, uCode: seq<UInstruction>, out: seq<TInstruction>, isFunction: bool)
    requires LoweredAll(t, uCode, isFunction) && LabelsKept(t, out) && AllWellFormed(out)
    ensures forall k | 0 <= k < |uCode| && uCode[k].ULabel? :: exists i | 0 <= i < |out| :: Relowered(out)[i] == uCode[k]
  {
    forall k | 0 <= k < |uCode| && uCode[k].ULabel?
      ensures exists i | 0 <= i < |out| :: Relowered(out)[i] == uCode[k]
    {
      assert t[k].kind.TLabel?;
      var i :| 0 <= i < |out| && out[i].kind.TLabel? && out[i].u == t[k].u;
      assert Relowered(out)[i] == uCode[k];
    }
  }

  /** U-code rebuilt from T-code that embeds the lowering carries the `cp`s of the U-code in order. */
  lemma RebuiltOrder(t: seq<TInstruction>, uCode: seq<UInstruction>, out: seq<TInstruction>, idx: seq<nat>, isFunction: bool)
    requires LoweredAll(t, uCode, isFunction) && Embeds(out, t, idx) && AllWellFormed(out)
    ensures |idx| == |out| && Increasing(idx)
    ensures forall i | 0 <= i < |out| :: idx[i] < |uCode| && Relowered(out)[i].cp == uCode[idx[i]].cp
  {
    forall i | 0 <= i < |out|
      ensures idx[i] < |uCode| && Relowered(out)[i].cp == uCode[idx[i]].cp
    {
      assert LoweredFrom(t[idx[i]], uCode[idx[i]], isFunction);
    }
  }

  /** The optimized U-code keeps every label of the original, and its instructions come in the order of
      the original ones whose `cp` they carry. */
  lemma OptimizedCodeKeepsLabels(kinds: seq<PassKind>, t: seq<TInstruction>, uCode: seq<UInstruction>, isFunction: bool)
    requires LoweredAll(t, uCode, isFunction) && AllCanonical(t) && (CopyPropagation in kinds ==> HasLabel(t))
    requires Passes(kinds, t).Success?
    ensures forall k | 0 <= k < |uCode| && uCode[k].ULabel? ::
              exists i | 0 <= i < |Passes(kinds, t).value| :: Relowered(Passes(kinds, t).value)[i] == uCode[k]
    ensures exists idx: seq<nat> ::
              && |idx| == |Passes(kinds, t).value| && Increasing(idx)
              && forall i | 0 <= i < |idx| :: idx[i] < |uCode| && Relowered(Passes(kinds, t).value)[i].cp == uCode[idx[i]].cp
  {
    PassesMeaning(kinds, t);
    var out := Passes(kinds, t).value;
    RebuiltLabels(t, uCode, out, isFunction);
    var idx :| Embeds(out, t, idx);
    RebuiltOrder(t, uCode, out, idx, isFunction);
  }

  /** One `getTInstruction` as the loop below sees it: the state stays valid and in its mode. */
  method LowerOne(u: UInstruction, tState: TState) returns (r: Result<TInstruction, Exception>)
    requires tState.Valid() && Lowerable(u)
    modifies tState, tState.uids
    ensures tState.Valid() && (r.Success? ==> tState.isFunction == old(tState.isFunction))
    ensures r.Failure? ==> r.error == OptimizationError
    ensures r.Success? ==> LoweredFrom(r.value, u, old(tState.isFunction)) && (u.ULabel? ==> r.value.kind.TLabel?)
    ensures r.Success? ==> DistinctWrites(WriteArgs(r.value))
  {
    ControlStepKeepsMode(tState.Fields(), u);
    r := GetTInstruction(u, tState);
  }

  /** The first loop of `OptimizationsSequence::optimize`: `getTInstruction` of every U-instruction, in
      order, with one state; a jump whose destination the state cannot reconcile throws. */
  method LowerCode(uCode: seq<UInstruction>, tState: TState) returns (r: Result<seq<TInstruction>, Exception>)
    requires tState.Valid() && forall k | 0 <= k < |uCode| :: Lowerable(uCode[k])
    modifies tState, tState.uids
    ensures r.Failure? ==> r.error == OptimizationError && |uCode| > 0
    ensures r.Success? ==> LoweredAll(r.value, uCode, old(tState.isFunction))
  {
    var tCode := new Code<TInstruction>();
    ghost var mode := tState.isFunction;
    for i := 0 to |uCode|
      invariant tState.Valid() && tState.isFunction == mode
      invariant LoweredAll(tCode.instructions, uCode[..i], mode)
    {
      var t := LowerOne(uCode[i], tState);
      if t.Failure? {
        return Failure(t.error);
      }
      LoweredAllStep(tCode.instructions, uCode, i, t.value, mode);
      tCode.Add(t.value);
    }
    assert uCode[..|uCode|] == uCode;
    r := Success(tCode.instructions);
  }

  /** The last loop of `OptimizationsSequence::optimize`: `getUInstruction` of every T-instruction. */
  method Relower(tCode: seq<TInstruction>) returns (uCode: seq<UInstruction>)
    requires AllWellFormed(tCode)
    ensures uCode == Relowered(tCode)
  {
    var uCodeOptimized := new Code<UInstruction>();
    for i := 0 to |tCode|
      invariant uCodeOptimized.instructions == Relowered(tCode[..i])
    {
      uCodeOptimized.Add(GetUInstruction(tCode[i]));
      assert Relowered(tCode[..i + 1]) == Relowered(tCode[..i]) + [GetUInstruction(tCode[i])];
    }
    assert tCode[..|tCode|] == tCode;
    uCode := uCodeOptimized.instructions;
  }

  /** `OptimizationsSequence`: the passes, in the order they were added. One pass object may be added more
      than once; each keeps its marks across calls. */
  class OptimizationsSequence {
    var optimizations: seq<OptimizationGraph>

    constructor ()
      ensures optimizations == []
    {
      optimizations := [];
    }

    /** The kinds of the passes, in order. */
    function Kinds(): (kinds: seq<PassKind>)
      reads this
      ensures |kinds| == |optimizations| && forall i | 0 <= i < |kinds| :: kinds[i] == optimizations[i].kind
    {
      var passes := optimizations;
      seq(|passes|, i requires 0 <= i < |passes| => passes[i].kind)
    }

    /** `add(optimization)`. */
    method Add(optimization: OptimizationGraph)
      modifies this
      ensures optimizations == old(optimizations) + [optimization]
    {
      optimizations := optimizations + [optimization];
    }

    /** The middle loop of `optimize`: each pass on the code the one before made. */
    method RunPasses(code: seq<TInstruction>) returns (r: Result<seq<TInstruction>, Exception>)
      requires AllCanonical(code) && (CopyPropagation in Kinds() ==> HasLabel(code))
      modifies optimizations
      ensures r == Passes(Kinds(), code)
    {
      ghost var kinds := Kinds();
      var tCode := code;
      for i := 0 to |optimizations|
        invariant AllCanonical(tCode) && (CopyPropagation in kinds[i..] ==> HasLabel(tCode))
        invariant Passes(kinds, code) == Passes(kinds[i..], tCode)
      {
        var pass := optimizations[i];
        assert kinds[i..][0] == pass.kind && kinds[i..][1..] == kinds[i + 1..];
        PassKeeps(pass.kind, tCode);
        var next := RunPass(pass, tCode);
        if next.Failure? {
          return next;
        }
        if CopyPropagation in kinds[i + 1..] {
          assert CopyPropagation in kinds[i..];
          LabelsKeptHasLabel(tCode, next.value);
        }
        tCode := next.value;
      }
      r := Success(tCode);
    }

    /** `optimize(uCode, tState)`: lower, run the passes, rebuild the U-code; an error of the lowering or
        of a pass propagates. `tCode` is the lowered T-code. */
    method Optimize(uCode: seq<UInstruction>, tState: TState) returns (r: Result<seq<UInstruction>, Exception>, ghost tCode: seq<TInstruction>)
      requires tState.Valid() && forall k | 0 <= k < |uCode| :: Lowerable(uCode[k])
      requires CopyPropagation in Kinds() ==> exists k | 0 <= k < |uCode| :: uCode[k].ULabel?
      modifies tState, tState.uids, optimizations
      ensures r.Failure? ==> r.error == OptimizationError
      ensures var ok := LoweredAll(tCode, uCode, old(tState.isFunction)) && AllCanonical(tCode)
                        && (CopyPropagation in Kinds() ==> HasLabel(tCode));
              && (ok && Passes(Kinds(), tCode).Success? ==> r == Success(Relowered(Passes(Kinds(), tCode).value)))
              && (!(ok && Passes(Kinds(), tCode).Success?) ==> r.Failure?)
    {
      ghost var mode := tState.isFunction;
      var lowered := LowerCode(uCode, tState);
      if lowered.Failure? {
        return Failure(lowered.error), [];
      }
      var lowCode := lowered.value;
      tCode := lowCode;
      LoweredIsCanonical(tCode, uCode, mode);
      var optimized := RunPasses(lowCode);
      PassesMeaning(Kinds(), tCode);
      if optimized.Failure? {
        return Failure(optimized.error), tCode;
      }
      var uCodeOptimized := Relower(optimized.value);
      r := Success(uCodeOptimized);
    }

    /** `optimizeFunction(uCode)`: optimize in function mode; on an `OptimizationError` the code is
        returned unchanged. `uids` is the program-wide uid counter. */
    method OptimizeFunction(uCode: seq<UInstruction>, uids: UidCounter) returns (r: seq<UInstruction>, ghost tCode: seq<TInstruction>)
      requires forall k | 0 <= k < |uCode| :: Lowerable(uCode[k])
      requires CopyPropagation in Kinds() ==> exists k | 0 <= k < |uCode| :: uCode[k].ULabel?
      modifies uids, optimizations
      ensures var ok := LoweredAll(tCode, uCode, true) && AllCanonical(tCode)
                        && (CopyPropagation in Kinds() ==> HasLabel(tCode));
              r == if ok && Passes(Kinds(), tCode).Success? then Relowered(Passes(Kinds(), tCode).value) else uCode
    {
      var tState := new TState(uids);
      tState.SetFunction();
      var result;
      result, tCode := Optimize(uCode, tState);
      if result.Failure? {
        assert result.error == OptimizationError;
        return uCode, tCode;
      }
      r := result.value;
    }

    /** `optimizeTrace(uCode)`: optimize in trace mode; on an `OptimizationError` the code is returned
        unchanged. */
    method OptimizeTrace(uCode: seq<UInstruction>, uids: UidCounter) returns (r: seq<UInstruction>, ghost tCode: seq<TInstruction>)
      requires forall k | 0 <= k < |uCode| :: Lowerable(uCode[k])
      requires CopyPropagation in Kinds() ==> exists k | 0 <= k < |uCode| :: uCode[k].ULabel?
      modifies uids, optimizations
      ensures var ok := LoweredAll(tCode, uCode, false) && AllCanonical(tCode)
                        && (CopyPropagation in Kinds() ==> HasLabel(tCode));
              r == if ok && Passes(Kinds(), tCode).Success? then Relowered(Passes(Kinds(), tCode).value) else uCode
    {
      var tState := new TState(uids);
      var result;
      result, tCode := Optimize(uCode, tState);
      if result.Failure? {
        assert result.error == OptimizationError;
        return uCode, tCode;
      }
      r := result.value;
    }
  }
}
