/** `DeadCodeElimination`: a backward liveness analysis over the flow graph, iterated until no live
    set changes, then the removal of every discardable write that its successor does not need. The
    live sets of nodes are sets of variable uids. */
module DeadCodes {
  import opened Wrappers
  import opened TArguments
  import opened TSideEffects
  import opened TInstructions
  import opened FlowGraphs
  import opened OptimizationGraphs
  import opened UCode
  import IntSets

  // ---------------------------------------------------------------------------------------------
  // Live sets

  /** The uids of the variables among `xs`. */
  function VarUids(xs: seq<TArgument>): set<nat> {
    if |xs| == 0 then {}
    else
      var last := xs[|xs| - 1];
      VarUids(xs[..|xs| - 1]) + (if last.TVar? then {last.v.uid} else {})
  }

  lemma {:induction false} VarUidsMeaning(xs: seq<TArgument>, x: nat)
    ensures x in VarUids(xs) <==> exists i | 0 <= i < |xs| :: xs[i].TVar? && xs[i].v.uid == x
  {
    if |xs| > 0 {
      var init := xs[..|xs| - 1];
      VarUidsMeaning(init, x);
      assert forall i | 0 <= i < |init| :: init[i] == xs[i];
    }
  }

  /** The union of the live sets of the successors `ss`. */
  function SuccLive(live: seq<set<nat>>, ss: seq<nat>): set<nat>
    requires forall i | 0 <= i < |ss| :: ss[i] < |live|
  {
    if |ss| == 0 then {}
    else SuccLive(live, ss[..|ss| - 1]) + live[ss[|ss| - 1]]
  }

  /** Each successor's live set is part of the union. */
  lemma {:induction false} SuccLiveContains(live: seq<set<nat>>, ss: seq<nat>, i: nat)
    requires (forall j | 0 <= j < |ss| :: ss[j] < |live|) && i < |ss|
    ensures live[ss[i]] <= SuccLive(live, ss)
  {
    if i < |ss| - 1 {
      var init := ss[..|ss| - 1];
      assert init[i] == ss[i];
      SuccLiveContains(live, init, i);
    }
  }

  /** The union holds nothing but what some successor's live set holds. */
  lemma {:induction false} SuccLiveWithin(live: seq<set<nat>>, ss: seq<nat>, u: set<nat>)
    requires (forall j | 0 <= j < |ss| :: ss[j] < |live|) && forall j | 0 <= j < |ss| :: live[ss[j]] <= u
    ensures SuccLive(live, ss) <= u
  {
    if |ss| > 0 {
      SuccLiveWithin(live, ss[..|ss| - 1], u);
    }
  }

  lemma {:induction false} SuccLiveMonotone(live: seq<set<nat>>, other: seq<set<nat>>, ss: seq<nat>)
    requires |live| == |other| && (forall j | 0 <= j < |ss| :: ss[j] < |live|)
    requires forall j | 0 <= j < |live| :: live[j] <= other[j]
    ensures SuccLive(live, ss) <= SuccLive(other, ss)
  {
    if |ss| > 0 {
      SuccLiveMonotone(live, other, ss[..|ss| - 1]);
    }
  }

  /** A live set for each node of `g`. */
  predicate Fits(g: TGraph, live: seq<set<nat>>) {
    GraphValid(g) && |live| == |g.ids|
  }

  /** What one round of the do-while loop makes the live set of node `k`: what its successors need,
      less what it writes, plus what it reads. */
  function Transfer(g: TGraph, live: seq<set<nat>>, k: nat): set<nat>
    requires Fits(g, live) && k < |g.ids|
  {
    (SuccLive(live, g.succ[k]) - VarUids(WriteArgs(g.values[k]))) + VarUids(ReadArgs(g.values[k]))
  }

  /** Every node's live set recomputed from the same sets. */
  function Step(g: TGraph, live: seq<set<nat>>): (r: seq<set<nat>>)
    requires Fits(g, live)
    ensures |r| == |live| && forall k | 0 <= k < |live| :: r[k] == Transfer(g, live, k)
  {
    seq(|live|, k requires 0 <= k < |live| => Transfer(g, live, k))
  }

  predicate Below(live: seq<set<nat>>, other: seq<set<nat>>)
    requires |live| == |other|
  {
    forall k {:trigger live[k], other[k]} | 0 <= k < |live| :: live[k] <= other[k]
  }

  /** The uids of every variable the nodes `0..k` read. */
  function ReadsUpTo(g: TGraph, k: nat): (r: set<nat>)
    requires GraphValid(g) && k <= |g.ids|
    ensures forall j | 0 <= j < k :: VarUids(ReadArgs(g.values[j])) <= r
  {
    if k == 0 then {} else ReadsUpTo(g, k - 1) + VarUids(ReadArgs(g.values[k - 1]))
  }

  /** Only variables some node reads are ever live. */
  function Reads(g: TGraph): set<nat>
    requires GraphValid(g)
  {
    ReadsUpTo(g, |g.ids|)
  }

  predicate Bounded(g: TGraph, live: seq<set<nat>>)
    requires Fits(g, live)
  {
    forall k | 0 <= k < |live| :: live[k] <= Reads(g)
  }

  lemma TransferBounded(g: TGraph, live: seq<set<nat>>, k: nat)
    requires Fits(g, live) && k < |g.ids| && Bounded(g, live)
    ensures Transfer(g, live, k) <= Reads(g)
  {
    SuccLiveWithin(live, g.succ[k], Reads(g));
  }

  /** The transfer is monotone in the live sets. */
  lemma TransferMonotone(g: TGraph, live: seq<set<nat>>, other: seq<set<nat>>, k: nat)
    requires Fits(g, live) && Fits(g, other) && k < |g.ids| && Below(live, other)
    ensures Transfer(g, live, k) <= Transfer(g, other, k)
  {
    SuccLiveMonotone(live, other, g.succ[k]);
  }

  /** How far the live sets are from holding every read variable. */
  function Gap(u: set<nat>, live: seq<set<nat>>, k: nat): nat
    requires k <= |live|
  {
    if k == 0 then 0 else Gap(u, live, k - 1) + |u - live[k - 1]|
  }

  lemma CardShrinks(u: set<nat>, a: set<nat>, b: set<nat>)
    requires a <= b <= u
    ensures |u - b| <= |u - a|
    ensures a != b ==> |u - b| < |u - a|
  {
    assert u - a == (u - b) + (b - a);
    assert (u - b) * (b - a) == {};
    if a != b {
      var x :| x in b && x !in a;
      assert x in b - a;
    }
  }

  lemma {:induction false} GapShrinks(u: set<nat>, live: seq<set<nat>>, other: seq<set<nat>>, k: nat)
    requires |live| == |other| && k <= |live| && Below(live, other)
    requires forall j | 0 <= j < |other| :: other[j] <= u
    ensures Gap(u, other, k) <= Gap(u, live, k)
    ensures (exists j | 0 <= j < k :: other[j] != live[j]) ==> Gap(u, other, k) < Gap(u, live, k)
  {
    if k > 0 {
      GapShrinks(u, live, other, k - 1);
      CardShrinks(u, live[k - 1], other[k - 1]);
    }
  }

  lemma StepBounded(g: TGraph, live: seq<set<nat>>)
    requires Fits(g, live) && Bounded(g, live)
    ensures Bounded(g, Step(g, live))
  {
    forall k | 0 <= k < |live|
      ensures Step(g, live)[k] <= Reads(g)
    {
      TransferBounded(g, live, k);
    }
  }

  lemma StepMonotone(g: TGraph, live: seq<set<nat>>, other: seq<set<nat>>)
    requires Fits(g, live) && Fits(g, other) && Below(live, other)
    ensures Below(Step(g, live), Step(g, other))
  {
    forall k | 0 <= k < |live|
      ensures Step(g, live)[k] <= Step(g, other)[k]
    {
      TransferMonotone(g, live, other, k);
    }
  }

  /** One Jacobi round from below grows the live sets, and keeps them growing. */
  lemma StepGrows(g: TGraph, live: seq<set<nat>>)
    requires Fits(g, live) && Bounded(g, live) && Below(live, Step(g, live))
    ensures Bounded(g, Step(g, live)) && Below(Step(g, live), Step(g, Step(g, live)))
    ensures Gap(Reads(g), Step(g, live), |live|) <= Gap(Reads(g), live, |live|)
    ensures Step(g, live) != live ==> Gap(Reads(g), Step(g, live), |live|) < Gap(Reads(g), live, |live|)
  {
    var next := Step(g, live);
    StepBounded(g, live);
    StepMonotone(g, live, next);
    GapShrinks(Reads(g), live, next, |live|);
    if next != live {
      var j :| 0 <= j < |live| && next[j] != live[j];
    }
  }

  /** Kleene iteration from `live` to the first fixpoint above it. */
  function Iterate(g: TGraph, live: seq<set<nat>>): (r: seq<set<nat>>)
    requires Fits(g, live) && Bounded(g, live) && Below(live, Step(g, live))
    ensures |r| == |live|
    decreases Gap(Reads(g), live, |live|)
  {
    var next := Step(g, live);
    if next == live then live
    else
      StepGrows(g, live);
      Iterate(g, next)
  }

  function NoneLive(n: nat): (r: seq<set<nat>>)
    ensures |r| == n && forall k | 0 <= k < n :: r[k] == {}
  {
    seq(n, k => {})
  }

  /** The live sets of the analysis: the least fixpoint of the transfer. */
  function Liveness(g: TGraph): (r: seq<set<nat>>)
    requires GraphValid(g)
    ensures |r| == |g.ids|
  {
    Iterate(g, NoneLive(|g.ids|))
  }

  lemma {:induction false} IterateFixpoint(g: TGraph, live: seq<set<nat>>)
    requires Fits(g, live) && Bounded(g, live) && Below(live, Step(g, live))
    ensures Step(g, Iterate(g, live)) == Iterate(g, live)
    decreases Gap(Reads(g), live, |live|)
  {
    if Step(g, live) != live {
      StepGrows(g, live);
      IterateFixpoint(g, Step(g, live));
    }
  }

  lemma {:induction false} IterateBelow(g: TGraph, live: seq<set<nat>>, other: seq<set<nat>>)
    requires Fits(g, live) && Bounded(g, live) && Below(live, Step(g, live))
    requires Fits(g, other) && Below(live, other) && Below(Step(g, other), other)
    ensures Below(Iterate(g, live), other)
    decreases Gap(Reads(g), live, |live|)
  {
    if Step(g, live) != live {
      StepGrows(g, live);
      forall k | 0 <= k < |live|
        ensures Step(g, live)[k] <= other[k]
      {
        TransferMonotone(g, live, other, k);
      }
      IterateBelow(g, Step(g, live), other);
    }
  }

  /** The live sets hold exactly what the transfer asks of them. */
  lemma LivenessFixpoint(g: TGraph)
    requires GraphValid(g)
    ensures Step(g, Liveness(g)) == Liveness(g)
  {
    IterateFixpoint(g, NoneLive(|g.ids|));
  }

  /** `n` further rounds of the do-while loop. */
  function Rounds(g: TGraph, live: seq<set<nat>>, n: nat): (r: seq<set<nat>>)
    requires Fits(g, live)
    ensures |r| == |live|
    decreases n
  {
    if n == 0 then live else Rounds(g, Step(g, live), n - 1)
  }

  /** `liveOld != live[node]` compares `IntSet` storage, so a round that only grows some set's storage
      runs the loop once more. Such extra rounds change no element: from the live sets, any number of
      further rounds stays there. */
  lemma {:induction false} ExtraRoundsKeepLiveness(g: TGraph, n: nat)
    requires GraphValid(g)
    ensures Rounds(g, Liveness(g), n) == Liveness(g)
  {
    if n > 0 {
      LivenessFixpoint(g);
      ExtraRoundsKeepLiveness(g, n - 1);
    }
  }

  /** The live sets hold no more than any other live sets that hold at least what the transfer asks of
      them: every variable in them is live for a reason. */
  lemma LivenessLeast(g: TGraph, other: seq<set<nat>>)
    requires GraphValid(g) && Fits(g, other) && Below(Step(g, other), other)
    ensures Below(Liveness(g), other)
  {
    IterateBelow(g, NoneLive(|g.ids|), other);
  }

  // ---------------------------------------------------------------------------------------------
  // What liveness means

  /** A path along successor edges. */
  predicate IsPath(g: TGraph, p: seq<nat>)
    requires GraphValid(g)
  {
    && |p| > 0 && (forall j | 0 <= j < |p| :: p[j] < |g.ids|)
    && forall j | 0 <= j < |p| - 1 :: p[j + 1] in g.succ[p[j]]
  }

  /** A variable that is not live at node `p[s]` of a path is, along the rest of the path, read only
      after some node has written it again. */
  lemma {:induction false} NotLiveNotRead(g: TGraph, live: seq<set<nat>>, p: seq<nat>, s: nat, x: nat, m: nat)
    requires Fits(g, live) && Below(Step(g, live), live) && IsPath(g, p)
    requires s <= m < |p| && x !in live[p[s]] && x in VarUids(ReadArgs(g.values[p[m]]))
    ensures exists j | s <= j < m :: x in VarUids(WriteArgs(g.values[p[j]]))
    decreases m - s
  {
    var k := p[s];
    assert Transfer(g, live, k) <= live[k];
    if x !in VarUids(WriteArgs(g.values[k])) {
      assert s < m;
      var i :| 0 <= i < |g.succ[k]| && g.succ[k][i] == p[s + 1];
      SuccLiveContains(live, g.succ[k], i);
      NotLiveNotRead(g, live, p, s + 1, x, m);
    }
  }

  // ---------------------------------------------------------------------------------------------
  // Removal

  /** The removal loop's test on node `k`: it has a write effect, a successor, and the written
      variable is not live at its first successor. */
  predicate DeadAt(g: TGraph, live: seq<set<nat>>, k: nat)
    requires Fits(g, live) && AllWellFormed(g.values) && k < |g.ids|
  {
    && Effects(g.values[k]).write.Some?
    && |g.succ[k]| > 0
    && Effects(g.values[k]).write.value.uid !in live[g.succ[k][0]]
  }

  function DeadUpTo(g: TGraph, live: seq<set<nat>>, k: nat): set<nat>
    requires Fits(g, live) && AllWellFormed(g.values) && k <= |g.ids|
  {
    if k == 0 then {} else DeadUpTo(g, live, k - 1) + (if DeadAt(g, live, k - 1) then {k - 1} else {})
  }

  lemma {:induction false} DeadUpToMeaning(g: TGraph, live: seq<set<nat>>, k: nat, j: nat)
    requires Fits(g, live) && AllWellFormed(g.values) && k <= |g.ids|
    ensures j in DeadUpTo(g, live, k) <==> j < k && DeadAt(g, live, j)
  {
    if k > 0 {
      DeadUpToMeaning(g, live, k - 1, j);
    }
  }

  /** The nodes `DeadCodeElimination::optimizeGraph` removes. */
  function DeadNodes(g: TGraph): set<nat>
    requires GraphValid(g) && AllWellFormed(g.values)
  {
    DeadUpTo(g, Liveness(g), |g.ids|)
  }

  /** A node is removed exactly when it has a write effect, a successor, and its first successor does
      not need the written variable. */
  lemma DeadNodesMeaning(g: TGraph, j: nat)
    requires GraphValid(g) && AllWellFormed(g.values)
    ensures j in DeadNodes(g) <==> j < |g.ids| && DeadAt(g, Liveness(g), j)
  {
    DeadUpToMeaning(g, Liveness(g), |g.ids|, j);
  }

  /** The variable a removed node (one of `DeadNodes`, by `DeadNodesMeaning`) writes is read, on any
      path from its first successor, only after it has been written again. */
  lemma RemovedWriteUnread(g: TGraph, k: nat, p: seq<nat>, m: nat)
    requires GraphValid(g) && AllWellFormed(g.values) && k < |g.ids| && DeadAt(g, Liveness(g), k)
    requires IsPath(g, p) && p[0] == g.succ[k][0] && m < |p|
    requires Effects(g.values[k]).write.value.uid in VarUids(ReadArgs(g.values[p[m]]))
    ensures exists j | 0 <= j < m :: Effects(g.values[k]).write.value.uid in VarUids(WriteArgs(g.values[p[j]]))
  {
    var lfp := Liveness(g);
    LivenessFixpoint(g);
    NotLiveNotRead(g, lfp, p, 0, Effects(g.values[k]).write.value.uid, m);
  }

  // ---------------------------------------------------------------------------------------------
  // The analysis as written: every live set restarts from a new `IntSet`

  /** The elements of a new `IntSet` as declared, which `live[node] = {}` and every default
      `live[succ]` start from: the set `{5}` (`IntSets.NewSetAsWrittenElements`). */
  ghost function NewLiveSet(): set<nat> {
    IntSets.Elements(IntSets.InitialWordsAsWritten())
  }

  /** One round's recomputation of node `k` as written: a new set, joined with the successors' sets,
      less what the node writes, plus what it reads. */
  ghost function TransferAsWritten(g: TGraph, live: seq<set<nat>>, k: nat): set<nat>
    requires Fits(g, live) && k < |g.ids|
  {
    ((NewLiveSet() + SuccLive(live, g.succ[k])) - VarUids(WriteArgs(g.values[k]))) + VarUids(ReadArgs(g.values[k]))
  }

  ghost function StepAsWritten(g: TGraph, live: seq<set<nat>>): (r: seq<set<nat>>)
    requires Fits(g, live)
    ensures |r| == |live| && forall k | 0 <= k < |live| :: r[k] == TransferAsWritten(g, live, k)
  {
    seq(|live|, k requires 0 <= k < |live| => TransferAsWritten(g, live, k))
  }

  /** As written, whether uid 5 is in a recomputed set depends only on the node itself, and every other
      uid is in it exactly when the intended transfer puts it there. So the sets the loop starts from,
      new sets holding 5, make no difference to where it ends. */
  lemma TransferAsWrittenMeaning(g: TGraph, live: seq<set<nat>>, k: nat, x: nat)
    requires Fits(g, live) && k < |g.ids|
    ensures x == 5 ==> (x in TransferAsWritten(g, live, k) <==>
                          x !in VarUids(WriteArgs(g.values[k])) || x in VarUids(ReadArgs(g.values[k])))
    ensures x != 5 ==> (x in TransferAsWritten(g, live, k) <==> x in Transfer(g, live, k))
  {
    IntSets.NewSetAsWrittenElements();
  }

  /** The live sets the loop reaches as written: the intended ones, plus uid 5 at every node that does
      not write it. */
  ghost function LivenessAsWritten(g: TGraph): (r: seq<set<nat>>)
    requires GraphValid(g)
    ensures |r| == |g.ids|
  {
    var lfp := Liveness(g);
    seq(|g.ids|, k requires 0 <= k < |g.ids| => lfp[k] + (NewLiveSet() - VarUids(WriteArgs(g.values[k]))))
  }

  /** They hold exactly what the as-written transfer asks of them. */
  lemma LivenessAsWrittenFixpoint(g: TGraph)
    requires GraphValid(g)
    ensures StepAsWritten(g, LivenessAsWritten(g)) == LivenessAsWritten(g)
  {
    var lfp := Liveness(g);
    var aw := LivenessAsWritten(g);
    var d := NewLiveSet();
    LivenessFixpoint(g);
    forall k | 0 <= k < |g.ids|
      ensures TransferAsWritten(g, aw, k) == aw[k]
    {
      var ss := g.succ[k];
      SuccLiveMonotone(lfp, aw, ss);
      forall j | 0 <= j < |ss|
        ensures aw[ss[j]] <= SuccLive(lfp, ss) + d
      {
        SuccLiveContains(lfp, ss, j);
      }
      SuccLiveWithin(aw, ss, SuccLive(lfp, ss) + d);
      assert d + SuccLive(aw, ss) == d + SuccLive(lfp, ss);
      assert Transfer(g, lfp, k) == lfp[k];
    }
  }

  /** And no more than any live sets that hold at least what the as-written transfer asks: they are
      its least fixpoint, which the do-while loop reaches. */
  lemma LivenessAsWrittenLeast(g: TGraph, other: seq<set<nat>>)
    requires GraphValid(g) && Fits(g, other) && Below(StepAsWritten(g, other), other)
    ensures Below(LivenessAsWritten(g), other)
  {
    var intended := Step(g, other);
    var written := StepAsWritten(g, other);
    forall k | 0 <= k < |other|
      ensures intended[k] <= other[k]
    {
      var ss := SuccLive(other, g.succ[k]);
      var ws := VarUids(WriteArgs(g.values[k]));
      var rs := VarUids(ReadArgs(g.values[k]));
      assert intended[k] == (ss - ws) + rs;
      assert written[k] == ((NewLiveSet() + ss) - ws) + rs;
      assert written[k] <= other[k];
    }
    assert Below(intended, other);
    LivenessLeast(g, other);
    var lfp := Liveness(g);
    var aw := LivenessAsWritten(g);
    forall k | 0 <= k < |other|
      ensures aw[k] <= other[k]
    {
      var ws := VarUids(WriteArgs(g.values[k]));
      assert aw[k] == lfp[k] + (NewLiveSet() - ws);
      assert NewLiveSet() - ws <= written[k];
      assert lfp[k] <= other[k];
    }
  }

  /** The nodes the removal loop removes with the as-written live sets. */
  ghost function DeadNodesAsWritten(g: TGraph): set<nat>
    requires GraphValid(g) && AllWellFormed(g.values)
  {
    DeadUpTo(g, LivenessAsWritten(g), |g.ids|)
  }

  /** Node `k` writes uid 5 and its first successor does not write it again. */
  predicate WritesFiveNotRewritten(g: TGraph, k: nat)
    requires GraphValid(g) && AllWellFormed(g.values) && k < |g.ids|
  {
    && Effects(g.values[k]).write.Some? && Effects(g.values[k]).write.value.uid == 5
    && |g.succ[k]| > 0 && 5 !in VarUids(WriteArgs(g.values[g.succ[k][0]]))
  }

  /** As written, the pass removes exactly the nodes the intended pass removes, except the writes of
      uid 5 that the next node does not overwrite: those it always keeps, whether read or not. */
  lemma DeadNodesAsWrittenMeaning(g: TGraph, j: nat)
    requires GraphValid(g) && AllWellFormed(g.values)
    ensures j in DeadNodesAsWritten(g) <==> j in DeadNodes(g) && !(j < |g.ids| && WritesFiveNotRewritten(g, j))
  {
    DeadUpToMeaning(g, LivenessAsWritten(g), |g.ids|, j);
    DeadNodesMeaning(g, j);
    IntSets.NewSetAsWrittenElements();
  }

  /** A two-node trace: a move of 0 into the scratch register `r0`, as the variable with uid 5, then a
      halt. The intended pass removes the move, whose value nothing reads; the pass as written keeps it. */
  method FiveKeptExample() returns (g: TGraph)
    ensures GraphValid(g) && AllWellFormed(g.values)
    ensures 0 in DeadNodes(g) && 0 !in DeadNodesAsWritten(g)
  {
    var x := new TVariable.WithUid(Register(R0), 5);
    var move := TInstruction(UMove(0, R0, Imm(ImmInt(0))), false, TMove(TVar(x), TImm(ImmInt(0)), None));
    var halt := TInstruction(UHalt(1), false, THalt);
    g := GraphState([0, 1], [move, halt], [[1], []], [[], [0]], map[0 := 0, 1 := 1], map[], {});
    var none: seq<set<nat>> := [{}, {}];
    assert [1][..0] == [];
    assert SuccLive(none, g.succ[0]) == {};
    assert ReadArgs(move) == [TImm(ImmInt(0))] && ReadArgs(move)[..0] == [];
    assert VarUids(ReadArgs(move)) == {};
    assert Transfer(g, none, 0) == {};
    assert Transfer(g, none, 1) == {};
    LivenessLeast(g, none);
    DeadNodesMeaning(g, 0);
    DeadNodesAsWrittenMeaning(g, 0);
  }

  // ---------------------------------------------------------------------------------------------
  // The pass on the graph

  /** The body of the do-while loop for one node: the union of the successors' sets, then the erasure
      of the written variables, then the insertion of the read ones. */
  method NewLive(graph: FlowGraph<TInstruction>, live: seq<set<nat>>, k: nat) returns (s: set<nat>)
    requires graph.Valid() && |live| == |graph.ids| && k < |graph.ids|
    ensures s == Transfer(graph.State(), live, k)
  {
    var succ := graph.succ[k];
    s := {};
    for i := 0 to |succ|
      invariant s == SuccLive(live, succ[..i])
    {
      assert succ[..i + 1][..i] == succ[..i];
      s := s + live[succ[i]];
    }
    assert succ[..|succ|] == succ;
    var writes := WriteArgs(graph.values[k]);
    ghost var union := s;
    for i := 0 to |writes|
      invariant s == union - VarUids(writes[..i])
    {
      assert writes[..i + 1][..i] == writes[..i];
      if writes[i].TVar? {
        s := s - {writes[i].v.uid};
      }
    }
    assert writes[..|writes|] == writes;
    var readArgs := ReadArgs(graph.values[k]);
    ghost var kept := s;
    for i := 0 to |readArgs|
      invariant s == kept + VarUids(readArgs[..i])
    {
      assert readArgs[..i + 1][..i] == readArgs[..i];
      if readArgs[i].TVar? {
        s := s + {readArgs[i].v.uid};
      }
    }
    assert readArgs[..|readArgs|] == readArgs;
  }

  /** Replacing the live set of one node by its transfer keeps the sets growing, below the least
      fixpoint, and no further from it. */
  lemma UpdateGrows(g: TGraph, live: seq<set<nat>>, k: nat, lfp: seq<set<nat>>)
    requires Fits(g, live) && k < |g.ids| && Bounded(g, live) && Below(live, Step(g, live))
    requires Fits(g, lfp) && Below(live, lfp) && Below(Step(g, lfp), lfp)
    ensures var next := live[k := Transfer(g, live, k)];
            && Bounded(g, next) && Below(live, next) && Below(next, Step(g, next)) && Below(next, lfp)
            && Gap(Reads(g), next, |live|) <= Gap(Reads(g), live, |live|)
            && (next[k] != live[k] ==> Gap(Reads(g), next, |live|) < Gap(Reads(g), live, |live|))
  {
    var next := live[k := Transfer(g, live, k)];
    TransferBounded(g, live, k);
    forall j | 0 <= j < |live|
      ensures next[j] <= Step(g, next)[j]
    {
      TransferMonotone(g, live, next, j);
    }
    TransferMonotone(g, live, lfp, k);
    GapShrinks(Reads(g), live, next, |live|);
  }

  lemma BelowBothWays(live: seq<set<nat>>, other: seq<set<nat>>)
    requires |live| == |other| && Below(live, other) && Below(other, live)
    ensures live == other
  {
    assert forall k | 0 <= k < |live| :: live[k] == other[k];
  }

  /** Live sets on their way up to the least fixpoint `lfp`. */
  predicate Growing(g: TGraph, live: seq<set<nat>>, lfp: seq<set<nat>>) {
    && Fits(g, live) && Fits(g, lfp) && Bounded(g, live)
    && Below(live, Step(g, live)) && Below(live, lfp) && Below(Step(g, lfp), lfp)
  }

  /** The nodes `lo..` hold their transfer. */
  predicate StableFrom(g: TGraph, live: seq<set<nat>>, lo: nat)
    requires Fits(g, live)
  {
    forall k {:trigger Transfer(g, live, k)} | lo <= k < |live| :: live[k] == Transfer(g, live, k)
  }

  lemma StableStep(g: TGraph, live: seq<set<nat>>, k: nat)
    requires Fits(g, live) && k < |live| && StableFrom(g, live, k + 1) && live[k] == Transfer(g, live, k)
    ensures StableFrom(g, live, k)
  {
  }

  lemma StableIsFixpoint(g: TGraph, live: seq<set<nat>>)
    requires Fits(g, live) && StableFrom(g, live, 0)
    ensures Step(g, live) == live
  {
    assert forall k | 0 <= k < |live| :: Step(g, live)[k] == live[k];
  }

  /** What holds after the first `i` nodes of a round that started from `live`. */
  predicate SweepInvariant(g: TGraph, live: seq<set<nat>>, next: seq<set<nat>>, lfp: seq<set<nat>>, i: nat, changed: bool) {
    && Growing(g, next, lfp) && |live| == |next| && i <= |live| && Below(live, next)
    && Gap(Reads(g), next, |live|) <= Gap(Reads(g), live, |live|)
    && (changed ==> Gap(Reads(g), next, |live|) < Gap(Reads(g), live, |live|))
    && (!changed ==> next == live && StableFrom(g, next, |live| - i))
  }

  lemma SweepStep(g: TGraph, live: seq<set<nat>>, next: seq<set<nat>>, lfp: seq<set<nat>>, i: nat, changed: bool,
                  node: nat, s: set<nat>, after: seq<set<nat>>, changedAfter: bool)
    requires SweepInvariant(g, live, next, lfp, i, changed) && i < |live| && node == |live| - 1 - i
    requires s == Transfer(g, next, node) && after == next[node := s] && changedAfter == (changed || next[node] != s)
    ensures SweepInvariant(g, live, after, lfp, i + 1, changedAfter)
  {
    UpdateGrows(g, next, node, lfp);
    if !changedAfter {
      assert after == next;
      StableStep(g, next, node);
    }
  }

  /** One round of the do-while loop: every node, in reverse line order, gets its transfer. */
  method Sweep(graph: FlowGraph<TInstruction>, live: seq<set<nat>>, ghost lfp: seq<set<nat>>)
    returns (next: seq<set<nat>>, changed: bool)
    requires graph.Valid() && Growing(graph.State(), live, lfp)
    ensures Growing(graph.State(), next, lfp)
    ensures changed ==> Gap(Reads(graph.State()), next, |live|) < Gap(Reads(graph.State()), live, |live|)
    ensures !changed ==> next == live && Step(graph.State(), live) == live
  {
    ghost var g := graph.State();
    var n := |graph.ids|;
    next, changed := live, false;
    var i := 0;
    while i < n
      invariant SweepInvariant(g, live, next, lfp, i, changed)
    {
      var node := n - 1 - i;
      var liveOld := next[node];
      var s := NewLive(graph, next, node);
      SweepStep(g, live, next, lfp, i, changed, node, s, next[node := s], changed || liveOld != s);
      next := next[node := s];
      changed := changed || liveOld != s;
      i := i + 1;
    }
    if !changed {
      StableIsFixpoint(g, live);
    }
  }

  /** The do-while loop of `DeadCodeElimination::optimizeGraph`: rounds until no live set changes. */
  method ComputeLive(graph: FlowGraph<TInstruction>) returns (live: seq<set<nat>>)
    requires graph.Valid()
    ensures live == Liveness(graph.State())
  {
    ghost var g := graph.State();
    ghost var lfp := Liveness(g);
    LivenessFixpoint(g);
    var n := |graph.ids|;
    live := NoneLive(n);
    assert Growing(g, live, lfp);
    var changed := true;
    while changed
      invariant Growing(g, live, lfp)
      invariant !changed ==> Step(g, live) == live
      decreases Gap(Reads(g), live, n), changed
    {
      live, changed := Sweep(graph, live, lfp);
    }
    LivenessLeast(g, live);
    BelowBothWays(live, lfp);
  }

  /** The removal loop's test on one node, with the inner loop over its successors. */
  method RemoveIfDead(pass: OptimizationGraph, graph: FlowGraph<TInstruction>, live: seq<set<nat>>, k: nat)
    requires graph.Valid() && AllWellFormed(graph.values) && |live| == |graph.ids| && k < |graph.ids|
    modifies pass
    ensures pass.toBeRemoved == old(pass.toBeRemoved) +
              (if DeadAt(graph.State(), live, k) then {NodeRef(graph, k)} else {})
  {
    var effects := Effects(graph.values[k]);
    if effects.write.Some? {
      var v := effects.write.value;
      var succ := graph.succ[k];
      for i := 0 to |succ|
        invariant pass.toBeRemoved == old(pass.toBeRemoved) + (if i > 0 then {NodeRef(graph, k)} else {})
        invariant i > 0 ==> v.uid !in live[succ[0]]
      {
        if v.uid in live[succ[i]] {
          return;
        }
        pass.RemoveNode(graph, k);
      }
    }
  }

  /** `DeadCodeElimination::optimizeGraph`. */
  method DeadGraph(pass: OptimizationGraph, graph: FlowGraph<TInstruction>)
    requires graph.Valid() && AllWellFormed(graph.values)
    modifies pass
    ensures pass.toBeRemoved == old(pass.toBeRemoved) + Refs(graph, DeadNodes(graph.State()))
  {
    var live := ComputeLive(graph);
    ghost var g := graph.State();
    for k := 0 to |graph.ids|
      invariant pass.toBeRemoved == old(pass.toBeRemoved) + Refs(graph, DeadUpTo(g, live, k))
    {
      RemoveIfDead(pass, graph, live, k);
      if DeadAt(g, live, k) {
        RefsAdd(graph, DeadUpTo(g, live, k), k);
      }
    }
  }
}
