/** `JITSequence`: what a JIT policy hands to the compiler, an optional list of cps to compile and an
    optional list of entry points, plus a flag saying whether the code is a whole function. */
module JitSequences {
  import opened Wrappers

  class JITSequence {
    var cps: Option<seq<nat>>
    var entryPoints: Option<seq<(nat, nat)>>
    var isFunction: bool

    /** The default-constructed, empty sequence. */
    constructor Empty()
      ensures cps == None && entryPoints == None && !isFunction
    {
      cps := None;
      entryPoints := None;
      isFunction := false;
    }

    /** A sequence of the given cps and entry points, not a function. */
    constructor (cps: seq<nat>, entryPoints: seq<(nat, nat)>)
      ensures this.cps == Some(cps) && this.entryPoints == Some(entryPoints) && !isFunction
    {
      this.cps := Some(cps);
      this.entryPoints := Some(entryPoints);
      isFunction := false;
    }

    /** `isEmpty()`: no cps were given. */
    function IsEmpty(): (b: bool)
      reads this
      ensures b <==> cps == None
    {
      !cps.Some?
    }

    /** `getCps()` dereferences the optional, so it needs a non-empty sequence. */
    function GetCps(): (r: seq<nat>)
      reads this
      requires !IsEmpty()
      ensures Some(r) == cps
    {
      cps.value
    }

    /** `getEntryPoints()` dereferences the optional, so it needs the entry points to be present. */
    function GetEntryPoints(): (r: seq<(nat, nat)>)
      reads this
      requires entryPoints.Some?
      ensures Some(r) == entryPoints
    {
      entryPoints.value
    }

    /** `setFunction()`. */
    method SetFunction()
      modifies this
      ensures isFunction && cps == old(cps) && entryPoints == old(entryPoints)
    {
      isFunction := true;
    }
  }
}

/** `TracingJIT`: counts landings on back edges, records a trace once a cp is hot, and offers the trace
    for compilation when execution comes back to its first cp. */
module TracingJits {
  import opened Wrappers
  import opened JitSequences

  /** The default maximal trace length. */
  const DEFAULT_MAX_LENGTH: nat := 256

  /** The value `notifyRunJIT` stores in `prevCp_`, so that the next landing never counts as a back edge. */
  const AFTER_RUN_JIT: nat := 1_000_000_000

  /** The policy's fields that change. */
  datatype Tracer = Tracer(trace: seq<nat>, landings: seq<nat>, prevCp: nat, skipCnt: nat)

  /** `trace_.front()` and `trace_.end() - 1` are reached only when `trace.size + skipCnt > 1`; this keeps
      them on a non-empty trace: an empty trace has at most one skipped cp. */
  predicate Consistent(t: Tracer) {
    t.trace == [] ==> t.skipCnt <= 1
  }

  /** A counted landing indexes `landings_[cp]` after growing the table only when `cp > size`, so
      `cp == size` is out of range. */
  predicate LandingDefined(t: Tracer, cp: nat) {
    t.trace == [] && cp < t.prevCp ==> cp != |t.landings|
  }

  /** `landings_.resize(2 * cp)` when `cp > landings_.size()`. */
  function Grown(landings: seq<nat>, cp: nat): (r: seq<nat>)
    ensures |r| >= |landings| && r[..|landings|] == landings
    ensures cp > |landings| ==> |r| == 2 * cp && forall i | |landings| <= i < |r| :: r[i] == 0
    ensures cp <= |landings| ==> r == landings
  {
    if cp > |landings| then landings + seq(2 * cp - |landings|, _ => 0) else landings
  }

  /** `notifyLanding(cp)`. */
  function Landing(t: Tracer, cp: nat, threshold: nat): (r: Tracer)
    requires LandingDefined(t, cp)
    ensures r.prevCp == cp
  {
    if t.trace == [] then
      if cp < t.prevCp then
        var grown := Grown(t.landings, cp);
        var counted := grown[cp := grown[cp] + 1];
        if counted[cp] >= threshold then Tracer([cp], counted, cp, 0)
        else Tracer([], counted, cp, t.skipCnt)
      else
        t.(prevCp := cp)
    else if t.skipCnt != 0 then
      t.(skipCnt := t.skipCnt + 1, prevCp := cp)
    else
      t.(trace := t.trace + [cp], prevCp := cp)
  }

  /** `notifyRunJIT(cp)`; its argument is not used. */
  function RunJIT(t: Tracer): (r: Tracer)
    ensures r.prevCp == AFTER_RUN_JIT && r.landings == t.landings
  {
    var t' := if t.skipCnt == 0 then (if |t.trace| == 1 then t.(trace := []) else t.(skipCnt := 1)) else t;
    t'.(prevCp := AFTER_RUN_JIT)
  }

  /** `makeJITSequence(code, cp)`: the cps offered for compilation (`None` for the empty sequence) and the
      new state. */
  function Offer(t: Tracer, cp: nat, maxLength: nat): (r: (Option<seq<nat>>, Tracer))
    requires Consistent(t)
  {
    if |t.trace| + t.skipCnt >= maxLength then
      (None, t.(trace := [], skipCnt := 0))
    else if |t.trace| + t.skipCnt > 1 && t.trace[0] == cp then
      (Some(t.trace[..|t.trace| - 1]), t.(trace := [], skipCnt := 0))
    else
      (None, t)
  }

  /** While idle, a landing that is not a back edge changes nothing but `prevCp`. */
  lemma IdleForwardLandingIgnored(t: Tracer, cp: nat, threshold: nat)
    requires t.trace == [] && cp >= t.prevCp
    ensures Landing(t, cp, threshold) == t.(prevCp := cp)
  {
  }

  /** While idle, a back-edge landing adds one to the count of `cp` and to no other, and starts the trace
      `[cp]` with no skipped cps exactly when that count reaches the threshold. */
  lemma BackEdgeLandingCounts(t: Tracer, cp: nat, threshold: nat)
    requires t.trace == [] && cp < t.prevCp && LandingDefined(t, cp)
    ensures var r := Landing(t, cp, threshold);
      var count := (if cp < |t.landings| then t.landings[cp] else 0) + 1;
      cp < |r.landings| && r.landings[cp] == count &&
      |r.landings| >= |t.landings| &&
      (forall i | 0 <= i < |r.landings| && i != cp :: r.landings[i] == if i < |t.landings| then t.landings[i] else 0) &&
      (count >= threshold ==> r.trace == [cp] && r.skipCnt == 0) &&
      (count < threshold ==> r.trace == [] && r.skipCnt == t.skipCnt)
  {
    var grown := Grown(t.landings, cp);
    assert forall i | 0 <= i < |t.landings| :: grown[i] == t.landings[i];
  }

  /** While recording, a landing is appended unless cps are being skipped, in which case one more is
      skipped. */
  lemma RecordingLanding(t: Tracer, cp: nat, threshold: nat)
    requires t.trace != []
    ensures var r := Landing(t, cp, threshold);
      r.landings == t.landings &&
      (t.skipCnt != 0 ==> r.trace == t.trace && r.skipCnt == t.skipCnt + 1) &&
      (t.skipCnt == 0 ==> r.trace == t.trace + [cp] && r.skipCnt == 0)
  {
  }

  /** When nothing is skipped, running compiled code drops a one-element trace and otherwise starts
      skipping; while skipping it changes only `prevCp`. */
  lemma RunJITCases(t: Tracer)
    ensures var r := RunJIT(t);
      (t.skipCnt == 0 && |t.trace| == 1 ==> r.trace == [] && r.skipCnt == 0) &&
      (t.skipCnt == 0 && |t.trace| != 1 ==> r.trace == t.trace && r.skipCnt == 1) &&
      (t.skipCnt != 0 ==> r.trace == t.trace && r.skipCnt == t.skipCnt)
  {
  }

  /** An overlong trace is dropped; one that has come back to its first cp is offered without its last
      cp, with no entry points; anything else offers nothing and changes nothing. */
  lemma OfferCases(t: Tracer, cp: nat, maxLength: nat)
    requires Consistent(t)
    ensures var (cps, r) := Offer(t, cp, maxLength);
      (|t.trace| + t.skipCnt >= maxLength ==> cps == None && r.trace == [] && r.skipCnt == 0) &&
      (|t.trace| + t.skipCnt < maxLength && |t.trace| + t.skipCnt > 1 && t.trace[0] == cp ==>
         cps == Some(t.trace[..|t.trace| - 1]) && r.trace == [] && r.skipCnt == 0) &&
      (cps.Some? ==> |cps.value| + 1 == |t.trace| && t.trace[0] == cp) &&
      (cps == None && |t.trace| + t.skipCnt < maxLength ==> r == t) &&
      r.landings == t.landings && r.prevCp == t.prevCp
  {
  }

  /** Every notification keeps a skipped cp away from an empty trace. */
  lemma NotificationsKeepConsistent(t: Tracer, cp: nat, threshold: nat, maxLength: nat)
    requires Consistent(t)
    ensures LandingDefined(t, cp) ==> Consistent(Landing(t, cp, threshold))
    ensures Consistent(RunJIT(t))
    ensures Consistent(Offer(t, cp, maxLength).1)
  {
  }

  /** The landing counts as declared: `landings_{256}` builds the one-element vector `{256}`. */
  function InitialLandingsAsWritten(): (r: seq<nat>)
    ensures |r| == 1
  {
    [256]
  }

  /** With those counts, the first back edge to cp 0 already counts 257 landings, so with a threshold
      up to 257 it starts a trace at once; and a back edge to cp 1 indexes past the table. */
  lemma FirstLandingAsWritten(prevCp: nat, threshold: nat)
    requires 1 < prevCp && threshold <= 257
    ensures var t := Tracer([], InitialLandingsAsWritten(), prevCp, 0);
      Landing(t, 0, threshold).trace == [0] && Landing(t, 0, threshold).landings[0] == 257 &&
      !LandingDefined(t, 1)
  {
  }

  /** The intended counts: 256 zeros. */
  function InitialLandings(): (r: seq<nat>)
    ensures |r| == 256 && forall i | 0 <= i < 256 :: r[i] == 0
  {
    seq(256, _ => 0)
  }

  /** With the intended counts, the first back edge to any cp below 256 counts one landing, so a trace
      starts at once only for a threshold of at most 1. */
  lemma FirstLanding(prevCp: nat, cp: nat, threshold: nat)
    requires cp < 256 && cp < prevCp
    ensures var t := Tracer([], InitialLandings(), prevCp, 0);
      LandingDefined(t, cp) &&
      Landing(t, cp, threshold).landings[cp] == 1 &&
      (Landing(t, cp, threshold).trace == [cp] <==> threshold <= 1)
  {
  }

  class TracingJIT {
    var trace: seq<nat>
    var landings: seq<nat>
    var prevCp: nat
    var skipCnt: nat
    const jitThreshold: nat
    const maxLength: nat

    function State(): Tracer
      reads this
    {
      Tracer(trace, landings, prevCp, skipCnt)
    }

    /** `TracingJIT(jitThreshold, maxLength)`, with the intended landing counts. */
    constructor (jitThreshold: nat, maxLength: nat)
      ensures State() == Tracer([], InitialLandings(), 0, 0) && Consistent(State())
      ensures this.jitThreshold == jitThreshold && this.maxLength == maxLength
    {
      trace := [];
      landings := InitialLandings();
      prevCp := 0;
      skipCnt := 0;
      this.jitThreshold := jitThreshold;
      this.maxLength := maxLength;
    }

    method NotifyLanding(cp: nat)
      requires LandingDefined(State(), cp)
      modifies this
      ensures State() == Landing(old(State()), cp, jitThreshold)
    {
      if trace == [] {
        if cp < prevCp {
          if cp > |landings| {
            landings := landings + seq(2 * cp - |landings|, _ => 0);
          }
          landings := landings[cp := landings[cp] + 1];
          if landings[cp] >= jitThreshold {
            trace := trace + [cp];
            skipCnt := 0;
          }
        }
      } else if skipCnt != 0 {
        skipCnt := skipCnt + 1;
      } else {
        trace := trace + [cp];
      }
      prevCp := cp;
    }

    method NotifyRunJIT(cp: nat)
      modifies this
      ensures State() == RunJIT(old(State()))
    {
      if skipCnt == 0 {
        if |trace| == 1 {
          trace := [];
        } else {
          skipCnt := 1;
        }
      }
      prevCp := AFTER_RUN_JIT;
    }

    method MakeJITSequence(cp: nat) returns (sequence: JITSequence)
      requires Consistent(State())
      modifies this
      ensures fresh(sequence) && !sequence.isFunction
      ensures sequence.cps == Offer(old(State()), cp, maxLength).0
      ensures sequence.entryPoints == if sequence.cps.Some? then Some([]) else None
      ensures State() == Offer(old(State()), cp, maxLength).1
    {
      if |trace| + skipCnt >= maxLength {
        trace := [];
        skipCnt := 0;
        sequence := new JITSequence.Empty();
        return;
      }
      if |trace| + skipCnt > 1 && trace[0] == cp {
        var traceCopy := trace[..|trace| - 1];
        trace := [];
        skipCnt := 0;
        sequence := new JITSequence(traceCopy, []);
        return;
      }
      sequence := new JITSequence.Empty();
    }
  }
}

/** The branch bookkeeping of `JITState`: lightning nodes are opaque handles, and the emitted code is
    recorded as a list of steps. */
module JitStates {
  import opened Wrappers
  import opened Exceptions
  import opened JitSequences

  /** A lightning node (a branch, jump or label handle). */
  type Node = nat

  /** The VM registers kept in machine registers while compiled code runs. */
  datatype Register = SP | FP | CP | HP

  /** One step of the emitted code. */
  datatype Emit =
    | Load(register: Register)
    | BranchIfCp(branch: Node, cp: nat)
    | Jump(jump: Node)
    | PatchHere(source: Node)
    | SetRuntimeErrorStatus
    | Label(at: Node)
    | PatchTo(source: Node, target: Node)
    | Store(register: Register)

  /** The registers in the order they are loaded at entry and stored at exit. */
  const REGISTERS: seq<Register> := [SP, FP, CP, HP]

  function Loads(registers: seq<Register>): (r: seq<Emit>)
    ensures |r| == |registers| && forall i | 0 <= i < |r| :: r[i] == Load(registers[i])
  {
    if registers == [] then [] else [Load(registers[0])] + Loads(registers[1..])
  }

  function Stores(registers: seq<Register>): (r: seq<Emit>)
    ensures |r| == |registers| && forall i | 0 <= i < |r| :: r[i] == Store(registers[i])
  {
    if registers == [] then [] else [Store(registers[0])] + Stores(registers[1..])
  }

  /** Each entry point's cp paired with the branch node `jit_beqi` returned for it. */
  function Entries(branches: seq<Node>, points: seq<(nat, nat)>): (r: seq<(Node, nat)>)
    requires |branches| == |points|
    ensures |r| == |points| && forall i | 0 <= i < |r| :: r[i] == (branches[i], points[i].0)
  {
    if points == [] then [] else [(branches[0], points[0].0)] + Entries(branches[1..], points[1..])
  }

  /** A conditional branch on `cp` per entry point. */
  function EntryBranches(entries: seq<(Node, nat)>): (r: seq<Emit>)
    ensures |r| == |entries| && forall i | 0 <= i < |r| :: r[i] == BranchIfCp(entries[i].0, entries[i].1)
  {
    if entries == [] then [] else [BranchIfCp(entries[0].0, entries[0].1)] + EntryBranches(entries[1..])
  }

  /** The direct branches among `entries` whose destination is in `cps`, in order. */
  function Internal(entries: seq<(Node, nat)>, cps: seq<nat>): seq<(Node, nat)> {
    if entries == [] then []
    else (if entries[0].1 in cps then [entries[0]] else []) + Internal(entries[1..], cps)
  }

  /** The handles of the direct branches among `entries` whose destination is not in `cps`, in order. */
  function External(entries: seq<(Node, nat)>, cps: seq<nat>): seq<Node> {
    if entries == [] then []
    else (if entries[0].1 in cps then [] else [entries[0].0]) + External(entries[1..], cps)
  }

  /** A direct branch is internal iff its destination is compiled, and every direct branch goes to exactly
      one of the two buckets. */
  lemma {:induction false} Buckets(entries: seq<(Node, nat)>, cps: seq<nat>)
    ensures forall b :: b in Internal(entries, cps) <==> b in entries && b.1 in cps
    ensures forall b | b in entries && b.1 !in cps :: b.0 in External(entries, cps)
    ensures |Internal(entries, cps)| + |External(entries, cps)| == |entries|
  {
    if entries != [] {
      Buckets(entries[1..], cps);
      assert forall b :: b in entries <==> b == entries[0] || b in entries[1..];
    }
  }

  lemma {:induction false} BucketsSnoc(entries: seq<(Node, nat)>, b: (Node, nat), cps: seq<nat>)
    ensures Internal(entries + [b], cps) == Internal(entries, cps) + (if b.1 in cps then [b] else [])
    ensures External(entries + [b], cps) == External(entries, cps) + (if b.1 in cps then [] else [b.0])
  {
    if entries == [] {
      assert [b][1..] == [];
    } else {
      assert (entries + [b])[1..] == entries[1..] + [b];
      BucketsSnoc(entries[1..], b, cps);
    }
  }

  lemma EntryBranchesSnoc(entries: seq<(Node, nat)>, b: (Node, nat))
    ensures EntryBranches(entries + [b]) == EntryBranches(entries) + [BranchIfCp(b.0, b.1)]
  {
  }

  /** The constructor's loop: one `jit_beqi` per entry point, each filed as a direct branch. */
  method RegisterEntries(entries: seq<(Node, nat)>, cps: seq<nat>)
    returns (internal: seq<(Node, nat)>, external: seq<Node>, code: seq<Emit>)
    ensures internal == Internal(entries, cps) && external == External(entries, cps)
    ensures code == EntryBranches(entries)
  {
    internal, external, code := [], [], [];
    var i := 0;
    while i < |entries|
      invariant 0 <= i <= |entries|
      invariant internal == Internal(entries[..i], cps) && external == External(entries[..i], cps)
      invariant code == EntryBranches(entries[..i])
    {
      var (branch, cp) := entries[i];
      code := code + [BranchIfCp(branch, cp)];
      if cp in cps {
        internal := internal + [(branch, cp)];
      } else {
        external := external + [branch];
      }
      BucketsSnoc(entries[..i], entries[i], cps);
      EntryBranchesSnoc(entries[..i], entries[i]);
      assert entries[..i + 1] == entries[..i] + [entries[i]];
      i := i + 1;
    }
    assert entries[..i] == entries;
  }

  /** `jit_patch` of every error branch at the current point. */
  function PatchesHere(sources: seq<Node>): (r: seq<Emit>)
    ensures |r| == |sources| && forall i | 0 <= i < |r| :: r[i] == PatchHere(sources[i])
  {
    if sources == [] then [] else [PatchHere(sources[0])] + PatchesHere(sources[1..])
  }

  lemma PatchesHereSnoc(sources: seq<Node>, n: Node)
    ensures PatchesHere(sources + [n]) == PatchesHere(sources) + [PatchHere(n)]
  {
  }

  /** `jit_patch_at(source, labels_.at(dest))` for each internal branch in order, as far as the labels
      go; the flag says whether every destination had a label. */
  function InternalPatches(internal: seq<(Node, nat)>, labels: map<nat, Node>): (r: (seq<Emit>, bool))
  {
    if internal == [] then ([], true)
    else if internal[0].1 in labels then
      var rest := InternalPatches(internal[1..], labels);
      ([PatchTo(internal[0].0, labels[internal[0].1])] + rest.0, rest.1)
    else ([], false)
  }

  /** The internal patches reach the end iff every internal destination has a label, and then patch each
      branch, in order, to the label of its destination. */
  lemma {:induction false} InternalPatchesComplete(internal: seq<(Node, nat)>, labels: map<nat, Node>)
    ensures var r := InternalPatches(internal, labels);
      (r.1 <==> forall b | b in internal :: b.1 in labels) &&
      (r.1 ==> (|r.0| == |internal| &&
        forall i | 0 <= i < |internal| :: r.0[i] == PatchTo(internal[i].0, labels[internal[i].1])))
  {
    if internal != [] {
      InternalPatchesComplete(internal[1..], labels);
      assert forall b :: b in internal <==> b == internal[0] || b in internal[1..];
    }
  }

  /** `jit_patch_at(source, endLabel)` for each external branch in order. */
  function ExternalPatches(external: seq<Node>, endLabel: Node): (r: seq<Emit>)
    ensures |r| == |external| && forall i | 0 <= i < |r| :: r[i] == PatchTo(external[i], endLabel)
  {
    if external == [] then [] else [PatchTo(external[0], endLabel)] + ExternalPatches(external[1..], endLabel)
  }

  /** One step of the internal patches: a labelled head is patched, the rest follows. */
  lemma InternalPatchesStep(internal: seq<(Node, nat)>, labels: map<nat, Node>)
    requires internal != [] && internal[0].1 in labels
    ensures InternalPatches(internal, labels).0 ==
      [PatchTo(internal[0].0, labels[internal[0].1])] + InternalPatches(internal[1..], labels).0
    ensures InternalPatches(internal, labels).1 == InternalPatches(internal[1..], labels).1
  {
  }

  /** `compile`'s loop over the internal branches, stopping at the first destination without a label. */
  method PatchInternal(internal: seq<(Node, nat)>, labels: map<nat, Node>) returns (patched: seq<Emit>, complete: bool)
    ensures (patched, complete) == InternalPatches(internal, labels)
  {
    patched := [];
    var i := 0;
    assert internal[i..] == internal;
    while i < |internal|
      invariant 0 <= i <= |internal|
      invariant InternalPatches(internal, labels).0 == patched + InternalPatches(internal[i..], labels).0
      invariant InternalPatches(internal, labels).1 == InternalPatches(internal[i..], labels).1
    {
      var (source, dest) := internal[i];
      ghost var rest := internal[i..];
      assert rest[0] == internal[i] && rest[1..] == internal[i + 1..];
      if dest !in labels {
        assert InternalPatches(rest, labels) == ([], false);
        assert patched + [] == patched;
        return patched, false;
      }
      InternalPatchesStep(rest, labels);
      assert patched + ([PatchTo(source, labels[dest])] + InternalPatches(internal[i + 1..], labels).0) ==
        (patched + [PatchTo(source, labels[dest])]) + InternalPatches(internal[i + 1..], labels).0;
      patched := patched + [PatchTo(source, labels[dest])];
      i := i + 1;
    }
    assert internal[i..] == [];
    assert patched + [] == patched;
    return patched, true;
  }

  /** The error-handling block: a jump over it, the error branches landing on code that sets the
      runtime-error status, then the jump's own landing point and the end label. */
  function ErrorBlock(errors: seq<Node>, noErrorJump: Node, endLabel: Node): (r: seq<Emit>)
    ensures |r| == |errors| + 4 && r[0] == Jump(noErrorJump)
    ensures forall i | 0 <= i < |errors| :: r[1 + i] == PatchHere(errors[i])
    ensures r[|errors| + 1] == SetRuntimeErrorStatus && r[|errors| + 2] == PatchHere(noErrorJump)
    ensures r[|errors| + 3] == Label(endLabel)
  {
    [Jump(noErrorJump)] + PatchesHere(errors) + [SetRuntimeErrorStatus, PatchHere(noErrorJump), Label(endLabel)]
  }

  /** `compile`'s error-handling loop: the jump over the block, a patch per error branch, the status
      update, the jump's landing point and the end label. */
  method EmitErrorBlock(errors: seq<Node>, noErrorJump: Node, endLabel: Node) returns (code: seq<Emit>)
    ensures code == ErrorBlock(errors, noErrorJump, endLabel)
  {
    code := [Jump(noErrorJump)];
    var i := 0;
    while i < |errors|
      invariant 0 <= i <= |errors|
      invariant code == [Jump(noErrorJump)] + PatchesHere(errors[..i])
    {
      PatchesHereSnoc(errors[..i], errors[i]);
      assert errors[..i + 1] == errors[..i] + [errors[i]];
      code := code + [PatchHere(errors[i])];
      i := i + 1;
    }
    assert errors[..i] == errors;
    code := code + [SetRuntimeErrorStatus, PatchHere(noErrorJump), Label(endLabel)];
  }

  /** What `compile` emits, and whether it gets to the end (`labels_.at` throws otherwise). */
  function Compiled(errors: seq<Node>, internal: seq<(Node, nat)>, external: seq<Node>,
                    labels: map<nat, Node>, noErrorJump: Node, endLabel: Node): (r: (seq<Emit>, bool))
  {
    var (patched, complete) := InternalPatches(internal, labels);
    var head := ErrorBlock(errors, noErrorJump, endLabel) + patched;
    if complete then (head + ExternalPatches(external, endLabel) + Stores(REGISTERS), true) else (head, false)
  }

  /** `compile` gets to the end iff every internal branch's destination has a label. */
  lemma CompileCompletes(errors: seq<Node>, internal: seq<(Node, nat)>, external: seq<Node>,
                         labels: map<nat, Node>, noErrorJump: Node, endLabel: Node)
    ensures Compiled(errors, internal, external, labels, noErrorJump, endLabel).1 <==>
      forall b | b in internal :: b.1 in labels
  {
    InternalPatchesComplete(internal, labels);
  }

  /** When it completes, the code is the error block, the internal patches, the external patches and the
      register stores, in that order. */
  lemma CompiledParts(errors: seq<Node>, internal: seq<(Node, nat)>, external: seq<Node>,
                      labels: map<nat, Node>, noErrorJump: Node, endLabel: Node)
    requires forall b | b in internal :: b.1 in labels
    ensures Compiled(errors, internal, external, labels, noErrorJump, endLabel) ==
      (ErrorBlock(errors, noErrorJump, endLabel) + InternalPatches(internal, labels).0 +
        (ExternalPatches(external, endLabel) + Stores(REGISTERS)), true)
  {
    InternalPatchesComplete(internal, labels);
    var head := ErrorBlock(errors, noErrorJump, endLabel);
    var patched := InternalPatches(internal, labels).0;
    var ext := ExternalPatches(external, endLabel);
    assert head + patched + ext + Stores(REGISTERS) == head + patched + (ext + Stores(REGISTERS));
  }

  /** When it completes, the code starts with the error block and ends with the registers stored back. */
  lemma CompiledLayout(errors: seq<Node>, internal: seq<(Node, nat)>, external: seq<Node>,
                       labels: map<nat, Node>, noErrorJump: Node, endLabel: Node)
    requires forall b | b in internal :: b.1 in labels
    ensures var code := Compiled(errors, internal, external, labels, noErrorJump, endLabel).0;
      |code| == |errors| + |internal| + |external| + 8 && code[..|errors| + 4] == ErrorBlock(errors, noErrorJump, endLabel)
    ensures var code := Compiled(errors, internal, external, labels, noErrorJump, endLabel).0;
      code[|code| - 4..] == Stores(REGISTERS)
  {
    CompiledParts(errors, internal, external, labels, noErrorJump, endLabel);
    InternalPatchesComplete(internal, labels);
    var head := ErrorBlock(errors, noErrorJump, endLabel);
    var patched := InternalPatches(internal, labels).0;
    var ext := ExternalPatches(external, endLabel);
    var tail := ext + Stores(REGISTERS);
    var code := head + patched + tail;
    ConcatIndex(head, patched, tail);
    assert code[|code| - 4..] == Stores(REGISTERS) by {
      assert tail[|ext|..] == Stores(REGISTERS);
      assert code[|code| - 4..] == tail[|ext|..];
    }
  }

  /** When it completes, every internal branch is patched, in order, to its destination's label, right
      after the error block. */
  lemma CompiledInternalTargets(errors: seq<Node>, internal: seq<(Node, nat)>, external: seq<Node>,
                                labels: map<nat, Node>, noErrorJump: Node, endLabel: Node)
    requires forall b | b in internal :: b.1 in labels
    ensures var code := Compiled(errors, internal, external, labels, noErrorJump, endLabel).0;
      |code| == |errors| + |internal| + |external| + 8 &&
      forall i | 0 <= i < |internal| :: code[|errors| + 4 + i] == PatchTo(internal[i].0, labels[internal[i].1])
  {
    CompiledParts(errors, internal, external, labels, noErrorJump, endLabel);
    InternalPatchesComplete(internal, labels);
    var head := ErrorBlock(errors, noErrorJump, endLabel);
    var patched := InternalPatches(internal, labels).0;
    var tail := ExternalPatches(external, endLabel) + Stores(REGISTERS);
    ConcatIndex(head, patched, tail);
    forall i | 0 <= i < |internal|
      ensures (head + patched + tail)[|errors| + 4 + i] == PatchTo(internal[i].0, labels[internal[i].1])
    {
      assert (head + patched + tail)[|head| + i] == patched[i];
    }
  }

  /** When it completes, every external branch is patched, in order, to the end label, right after the
      internal patches. */
  lemma CompiledExternalTargets(errors: seq<Node>, internal: seq<(Node, nat)>, external: seq<Node>,
                                labels: map<nat, Node>, noErrorJump: Node, endLabel: Node)
    requires forall b | b in internal :: b.1 in labels
    ensures var code := Compiled(errors, internal, external, labels, noErrorJump, endLabel).0;
      |code| == |errors| + |internal| + |external| + 8 &&
      forall i | 0 <= i < |external| :: code[|errors| + 4 + |internal| + i] == PatchTo(external[i], endLabel)
  {
    CompiledParts(errors, internal, external, labels, noErrorJump, endLabel);
    InternalPatchesComplete(internal, labels);
    var head := ErrorBlock(errors, noErrorJump, endLabel);
    var patched := InternalPatches(internal, labels).0;
    var ext := ExternalPatches(external, endLabel);
    var tail := ext + Stores(REGISTERS);
    ConcatIndex(head, patched, tail);
    forall i | 0 <= i < |external|
      ensures (head + patched + tail)[|errors| + 4 + |internal| + i] == PatchTo(external[i], endLabel)
    {
      assert tail[i] == ext[i];
    }
  }

  /** Where the parts of `a + b + c` sit. */
  lemma ConcatIndex(a: seq<Emit>, b: seq<Emit>, c: seq<Emit>)
    ensures (a + b + c)[..|a|] == a
    ensures forall i | 0 <= i < |b| :: (a + b + c)[|a| + i] == b[i]
    ensures forall i | 0 <= i < |c| :: (a + b + c)[|a| + |b| + i] == c[i]
  {
  }

  class JITState {
    /** `cps_`: the cps being compiled. */
    const cps: seq<nat>
    /** `labels_`: the label node registered for each cp. */
    var labels: map<nat, Node>
    var internalBranches: seq<(Node, nat)>
    var externalBranches: seq<Node>
    var runtimeErrorBranches: seq<Node>
    /** The code emitted so far. */
    var emitted: seq<Emit>

    /** Loads the registers and files one direct branch on `cp` per entry point; `entryBranches` are the
        nodes `jit_beqi` returns for them. The sequence must not be empty. */
    constructor (sequence: JITSequence, entryBranches: seq<Node>)
      requires !sequence.IsEmpty() && sequence.entryPoints.Some?
      requires |entryBranches| == |sequence.entryPoints.value|
      ensures cps == sequence.cps.value && labels == map[] && runtimeErrorBranches == []
      ensures var entries := Entries(entryBranches, sequence.entryPoints.value);
        internalBranches == Internal(entries, cps) && externalBranches == External(entries, cps) &&
        emitted == Loads(REGISTERS) + EntryBranches(entries)
    {
      var compiled := sequence.GetCps();
      var entries := Entries(entryBranches, sequence.GetEntryPoints());
      var internal, external, code := RegisterEntries(entries, compiled);
      cps := compiled;
      labels := map[];
      runtimeErrorBranches := [];
      internalBranches := internal;
      externalBranches := external;
      emitted := [Load(SP), Load(FP), Load(CP), Load(HP)] + code;
    }

    /** `addLabel(cp, node)`: the first label registered for a cp is kept. */
    method AddLabel(cp: nat, node: Node)
      modifies this
      ensures labels == if cp in old(labels) then old(labels) else old(labels)[cp := node]
      ensures internalBranches == old(internalBranches) && externalBranches == old(externalBranches)
      ensures runtimeErrorBranches == old(runtimeErrorBranches) && emitted == old(emitted)
    {
      if cp !in labels {
        labels := labels[cp := node];
      }
    }

    /** `addDirectBranch(branch, cp)`: internal iff `cp` is one of the compiled cps. */
    method AddDirectBranch(branch: Node, cp: nat)
      modifies this
      ensures cp in cps ==> (internalBranches == old(internalBranches) + [(branch, cp)] &&
        externalBranches == old(externalBranches))
      ensures cp !in cps ==> (externalBranches == old(externalBranches) + [branch] &&
        internalBranches == old(internalBranches))
      ensures labels == old(labels) && runtimeErrorBranches == old(runtimeErrorBranches) && emitted == old(emitted)
    {
      if cp in cps {
        internalBranches := internalBranches + [(branch, cp)];
      } else {
        externalBranches := externalBranches + [branch];
      }
    }

    /** `addIndirectBranch(branch)`: always external. */
    method AddIndirectBranch(branch: Node)
      modifies this
      ensures externalBranches == old(externalBranches) + [branch]
      ensures labels == old(labels) && internalBranches == old(internalBranches)
      ensures runtimeErrorBranches == old(runtimeErrorBranches) && emitted == old(emitted)
    {
      externalBranches := externalBranches + [branch];
    }

    /** `addRuntimeErrorBranch(branch)`. */
    method AddRuntimeErrorBranch(branch: Node)
      modifies this
      ensures runtimeErrorBranches == old(runtimeErrorBranches) + [branch]
      ensures labels == old(labels) && internalBranches == old(internalBranches)
      ensures externalBranches == old(externalBranches) && emitted == old(emitted)
    {
      runtimeErrorBranches := runtimeErrorBranches + [branch];
    }

    /** `compile(vm)`: emits the error block, patches the branches and stores the registers back;
        `noErrorJump` and `endLabel` are the nodes `jit_jmpi` and `jit_label` return. A missing label for
        an internal destination throws `std::out_of_range` after the patches before it. */
    method Compile(noErrorJump: Node, endLabel: Node) returns (r: Outcome<Exception>)
      modifies this
      ensures emitted == old(emitted) + Compiled(runtimeErrorBranches, internalBranches, externalBranches,
                                                  labels, noErrorJump, endLabel).0
      ensures r == Pass <==> Compiled(runtimeErrorBranches, internalBranches, externalBranches,
                                      labels, noErrorJump, endLabel).1
      ensures r != Pass ==> r == Fail(OutOfRange)
      ensures labels == old(labels) && internalBranches == old(internalBranches)
      ensures externalBranches == old(externalBranches) && runtimeErrorBranches == old(runtimeErrorBranches)
    {
      var code := EmitErrorBlock(runtimeErrorBranches, noErrorJump, endLabel);
      var patched, complete := PatchInternal(internalBranches, labels);
      code := code + patched;
      if complete {
        code := code + ExternalPatches(externalBranches, endLabel) + Stores(REGISTERS);
      }
      assert (code, complete) == Compiled(runtimeErrorBranches, internalBranches, externalBranches,
                                          labels, noErrorJump, endLabel);
      emitted := emitted + code;
      r := if complete then Pass else Fail(OutOfRange);
    }
  }
}
