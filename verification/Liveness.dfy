/** Backward liveness: the transfer function, its worklist fixpoint, and the filter that
    drops dead stores. */
module Liveness {
  import opened Tacky
  import opened Semantics
  import opened ControlFlow
  import opened Worklists
  import opened LivePaths
  import opened Operands
  import opened Paths

  /** The variables other code may read, and those observed when the function exits. */
  datatype Reserved = Reserved(aliased: set<Name>, statics: set<Name>)

  /** `is_unknown_memory_write` */
  predicate WritesUnknownMemory(i: Instr) {
    i.FunCall? || i.Store?
  }

  /** `aggregate_write_can_be_dead` */
  predicate AggregateWriteCanBeDead(x: Name, live: set<Name>, r: Reserved) {
    x !in live && x !in r.aliased && x !in r.statics
  }

  /** `is_dead_store` */
  predicate IsDeadStore(i: Instr, live: set<Name>, r: Reserved) {
    if i.FunCall? || i.Store? then false
    else if EndsBlock(i) || i.Label? || i.Nop? then false
    else if i.CopyToOffset? then AggregateWriteCanBeDead(i.dstName, live, r)
    else match DefinedVar(i)
      case Some(d) => d !in r.statics && d !in live
      case None => false
  }

  /** One instruction of `transfer_liveness_and_filter`: kill the destination, generate
      the sources. */
  function Transfer(i: Instr, live: set<Name>, r: Reserved): set<Name> {
    match i
    case FunCall(f, args, d, indirect) =>
      live - {d} + (if indirect then {f} else {}) + ArgVars(args) + r.aliased
    case CopyToOffset(v, x, _) =>
      if AggregateWriteCanBeDead(x, live, r) then live else live + {x} + ValVars(v)
    case CopyFromOffset(x, _, d) => live - {d} + {x}
    case Store(v, p) => live + ValVars(v) + ValVars(p)
    case Load(p, d) => live - {d} + ValVars(p) + r.aliased
    case _ =>
      (match DefinedVar(i) case Some(d) => live - {d} case None => live) + SourceVars(i)
  }

  function LiveBefore(instrs: seq<Instr>, end: set<Name>, r: Reserved): set<Name> {
    if instrs == [] then end else Transfer(instrs[0], LiveBefore(instrs[1..], end, r), r)
  }

  /** The filtering scan: what is live before the kept instructions, and those. */
  function Filtered(instrs: seq<Instr>, end: set<Name>, r: Reserved): (res: (set<Name>, seq<Instr>)) {
    if instrs == [] then (end, [])
    else
      var (live, kept) := Filtered(instrs[1..], end, r);
      if IsDeadStore(instrs[0], live, r) then (live, kept)
      else (Transfer(instrs[0], live, r), [instrs[0]] + kept)
  }

  /** `transfer_liveness_and_filter`: the reverse scan, with and without filtering. */
  method TransferLivenessAndFilter(instructions: seq<Instr>, endLive: set<Name>, r: Reserved, filter: bool)
    returns (current: set<Name>, kept: seq<Instr>)
    ensures filter ==> (current, kept) == Filtered(instructions, endLive, r)
    ensures !filter ==> current == LiveBefore(instructions, endLive, r) && kept == instructions
  {
    current := endLive;
    kept := [];
    for k := |instructions| downto 0
      invariant filter ==> (current, kept) == Filtered(instructions[k..], endLive, r)
      invariant !filter ==> current == LiveBefore(instructions[k..], endLive, r) && kept == instructions[k..]
    {
      var instr := instructions[k];
      assert instructions[k..][1..] == instructions[k + 1..];
      if filter && IsDeadStore(instr, current, r) {
        continue;
      }
      current := Transfer(instr, current, r);
      kept := [instr] + kept;
    }
    assert instructions[0..] == instructions;
  }

  // ----- meet -----

  function LiveOver(edge: NodeId, liveIn: seq<set<Name>>, r: Reserved): set<Name> {
    match edge
    case Exit => r.statics
    case Block(t) => if t < |liveIn| then liveIn[t] else {}
    case Entry => {}
  }

  /** Live at the end of a block: the union over its outgoing edges. */
  function MeetLive(edges: seq<NodeId>, liveIn: seq<set<Name>>, r: Reserved): set<Name> {
    if edges == [] then {} else LiveOver(edges[0], liveIn, r) + MeetLive(edges[1..], liveIn, r)
  }

  lemma {:induction false} InMeet(edges: seq<NodeId>, liveIn: seq<set<Name>>, r: Reserved, x: Name)
    ensures x in MeetLive(edges, liveIn, r) <==> exists e :: e in edges && x in LiveOver(e, liveIn, r)
  {
    if edges != [] {
      InMeet(edges[1..], liveIn, r, x);
      if x in LiveOver(edges[0], liveIn, r) {
        assert edges[0] in edges;
      }
      if e :| e in edges && x in LiveOver(e, liveIn, r) {
        assert e == edges[0] || e in edges[1..];
      }
    }
  }

  /** `meet_liveness`: start from the largest successor set, then add the others. */
  method MeetLiveness(block: BasicBlock, liveIn: seq<set<Name>>, r: Reserved) returns (live: set<Name>)
    ensures live == MeetLive(block.successors, liveIn, r)
  {
    var edges := block.successors;
    var best: Option<(NodeId, nat)> := None;
    for k := 0 to |edges|
      invariant best.Some? ==> best.value.0 in edges[..k]
      invariant best.Some? ==> best.value.0 == Exit || (best.value.0.Block? && best.value.0.id < |liveIn|)
      invariant best.None? ==> forall j :: 0 <= j < k ==> LiveOver(edges[j], liveIn, r) == {}
    {
      match edges[k]
      case Exit =>
        if best.None? || |r.statics| > best.value.1 {
          best := Some((Exit, |r.statics|));
        }
      case Block(t) =>
        if t < |liveIn| {
          if best.None? || |liveIn[t]| > best.value.1 {
            best := Some((edges[k], |liveIn[t]|));
          }
        }
      case Entry =>
    }
    if best.None? {
      live := {};
      forall x
        ensures x !in MeetLive(edges, liveIn, r)
      {
        InMeet(edges, liveIn, r, x);
      }
      return;
    }
    var seed := best.value.0;
    live := LiveOver(seed, liveIn, r);
    for k := 0 to |edges|
      invariant forall x :: x in live <==>
        x in LiveOver(seed, liveIn, r) || exists j :: 0 <= j < k && x in LiveOver(edges[j], liveIn, r)
    {
      if edges[k] != seed {
        live := live + LiveOver(edges[k], liveIn, r);
      }
    }
    forall x
      ensures x in live <==> x in MeetLive(edges, liveIn, r)
    {
      InMeet(edges, liveIn, r, x);
    }
  }

  // ----- monotonicity and bounds -----

  lemma TransferMonotone(i: Instr, a: set<Name>, b: set<Name>, r: Reserved)
    requires a <= b
    ensures Transfer(i, a, r) <= Transfer(i, b, r)
  {
  }

  lemma {:induction false} LiveBeforeMonotone(instrs: seq<Instr>, a: set<Name>, b: set<Name>, r: Reserved)
    requires a <= b
    ensures LiveBefore(instrs, a, r) <= LiveBefore(instrs, b, r)
  {
    if instrs != [] {
      LiveBeforeMonotone(instrs[1..], a, b, r);
      TransferMonotone(instrs[0], LiveBefore(instrs[1..], a, r), LiveBefore(instrs[1..], b, r), r);
    }
  }

  /** Filtering can only shrink what is live: stores that die with their readers go too. */
  lemma {:induction false} FilteredLiveShrinks(instrs: seq<Instr>, end: set<Name>, r: Reserved)
    ensures Filtered(instrs, end, r).0 <= LiveBefore(instrs, end, r)
  {
    if instrs != [] {
      FilteredLiveShrinks(instrs[1..], end, r);
      var less, more := Filtered(instrs[1..], end, r).0, LiveBefore(instrs[1..], end, r);
      TransferMonotone(instrs[0], less, more, r);
    }
  }

  function Mentioned(i: Instr): set<Name> {
    SourceVars(i) + match DefinedVar(i) case Some(d) => {d} case None => {}
  }

  /** Every name liveness can ever hold. */
  function Universe(code: Code, r: Reserved): set<Name> {
    r.aliased + r.statics +
    set b, k, x | 0 <= b < |code| && 0 <= k < |code[b]| && x in Mentioned(code[b][k]) :: x
  }

  lemma {:induction false} LiveBeforeBounded(instrs: seq<Instr>, end: set<Name>, r: Reserved, u: set<Name>)
    requires end <= u && r.aliased <= u
    requires forall k :: 0 <= k < |instrs| ==> Mentioned(instrs[k]) <= u
    ensures LiveBefore(instrs, end, r) <= u
  {
    if instrs != [] {
      LiveBeforeBounded(instrs[1..], end, r, u);
      assert Mentioned(instrs[0]) <= u;
    }
  }

  // ----- the worklist -----

  /** The liveness equation of block `b`. */
  function LiveIn(blocks: seq<BasicBlock>, liveIn: seq<set<Name>>, r: Reserved, b: nat): set<Name>
    requires b < |blocks|
  {
    LiveBefore(blocks[b].instructions, MeetLive(blocks[b].successors, liveIn, r), r)
  }

  ghost predicate Solved(blocks: seq<BasicBlock>, liveIn: seq<set<Name>>, r: Reserved) {
    |liveIn| == |blocks| && forall b :: 0 <= b < |blocks| ==> liveIn[b] == LiveIn(blocks, liveIn, r, b)
  }

  lemma MeetMonotone(edges: seq<NodeId>, a: seq<set<Name>>, b: seq<set<Name>>, r: Reserved)
    requires |a| == |b| && forall t :: 0 <= t < |a| ==> a[t] <= b[t]
    ensures MeetLive(edges, a, r) <= MeetLive(edges, b, r)
  {
  }

  lemma MeetUnchanged(edges: seq<NodeId>, a: seq<set<Name>>, t: nat, v: set<Name>, r: Reserved)
    requires t < |a| && Block(t) !in edges
    ensures MeetLive(edges, a[t := v], r) == MeetLive(edges, a, r)
  {
    if edges != [] {
      assert edges[0] in edges;
      MeetUnchanged(edges[1..], a, t, v, r);
    }
  }

  lemma MeetBounded(edges: seq<NodeId>, liveIn: seq<set<Name>>, r: Reserved, u: set<Name>)
    requires r.statics <= u && forall t :: 0 <= t < |liveIn| ==> liveIn[t] <= u
    ensures MeetLive(edges, liveIn, r) <= u
  {
  }

  /** Facts only grow towards a solution: each is below its equation, and outside the
      queue the equation holds. */
  ghost predicate Ascending(blocks: seq<BasicBlock>, liveIn: seq<set<Name>>, r: Reserved, queued: set<nat>,
        u: set<Name>) {
    && |liveIn| == |blocks|
    && (forall b :: 0 <= b < |blocks| ==> liveIn[b] <= LiveIn(blocks, liveIn, r, b))
    && (forall b :: 0 <= b < |blocks| ==> liveIn[b] <= u)
    && (forall b :: 0 <= b < |blocks| && b !in queued ==> liveIn[b] == LiveIn(blocks, liveIn, r, b))
  }

  lemma UpdateAscends(blocks: seq<BasicBlock>, liveIn: seq<set<Name>>, r: Reserved,
                      queued: set<nat>, u: set<Name>, b: nat, after: set<nat>)
    requires WellFormed(blocks) && b < |blocks| && u == Universe(CodeOf(blocks), r)
    requires Ascending(blocks, liveIn, r, queued, u)
    requires queued - {b} + Ids(blocks[b].predecessors) <= after
    ensures Ascending(blocks, liveIn[b := LiveIn(blocks, liveIn, r, b)], r, after, u)
  {
    var more := LiveIn(blocks, liveIn, r, b);
    var next := liveIn[b := more];
    forall a | 0 <= a < |blocks|
      ensures next[a] <= LiveIn(blocks, next, r, a)
      ensures next[a] <= u
      ensures a !in after ==> next[a] == LiveIn(blocks, next, r, a)
    {
      var edges := blocks[a].successors;
      MeetMonotone(edges, liveIn, next, r);
      LiveBeforeMonotone(blocks[a].instructions, MeetLive(edges, liveIn, r), MeetLive(edges, next, r), r);
      BlockBounded(blocks, liveIn, r, u, a);
      if a !in after {
        assert Block(b) !in edges by {
          InIds(blocks[b].predecessors, a);
          assert Block(a) in blocks[b].predecessors <==> Block(b) in blocks[a].successors;
        }
        MeetUnchanged(edges, liveIn, b, more, r);
      }
    }
  }

  lemma BlockBounded(blocks: seq<BasicBlock>, liveIn: seq<set<Name>>, r: Reserved, u: set<Name>, b: nat)
    requires b < |blocks| && u == Universe(CodeOf(blocks), r)
    requires forall t :: 0 <= t < |liveIn| ==> liveIn[t] <= u
    ensures LiveIn(blocks, liveIn, r, b) <= u
  {
    var code := CodeOf(blocks);
    MeetBounded(blocks[b].successors, liveIn, r, u);
    forall k | 0 <= k < |code[b]|
      ensures Mentioned(code[b][k]) <= u
    {
    }
    LiveBeforeBounded(code[b], MeetLive(blocks[b].successors, liveIn, r), r, u);
  }

  // ----- nothing is live without a reason -----

  lemma TransferNeeded(i: Instr, live: set<Name>, r: Reserved, x: Name)
    requires x in Transfer(i, live, r) && x !in r.aliased && x !in r.statics
    ensures ReadsVar(i, x) || (x in live && !Overwrites(i, x))
  {
    ReadsAreSources(i, x);
  }

  /** What is live at a position is read below it, or is live at the end and not overwritten before. */
  lemma {:induction false} LiveIsRead(instrs: seq<Instr>, k: nat, end: set<Name>, r: Reserved, x: Name)
    requires k <= |instrs| && x in LiveBefore(instrs[k..], end, r) && x !in r.aliased && x !in r.statics
    ensures ReadBelow(instrs, k, x) || (x in end && ClearTo(instrs, k, |instrs|, x))
    decreases |instrs| - k
  {
    if k < |instrs| {
      assert instrs[k..][1..] == instrs[k + 1..] && instrs[k..][0] == instrs[k];
      hide Transfer;
      TransferNeeded(instrs[k], LiveBefore(instrs[k + 1..], end, r), r, x);
      if ReadsVar(instrs[k], x) {
        ReadHere(instrs, k, x);
      } else {
        LiveIsRead(instrs, k + 1, end, r, x);
        if ReadBelow(instrs, k + 1, x) {
          ReadLater(instrs, k, x);
        }
      }
    }
  }

  /** Every private variable in the sets is needed where its block starts. */
  ghost predicate Justified(blocks: seq<BasicBlock>, liveIn: seq<set<Name>>, r: Reserved) {
    forall b, x :: 0 <= b < |liveIn| && b < |blocks| && x in liveIn[b] && x !in r.aliased && x !in r.statics ==>
      NeededAt(blocks, b, 0, x)
  }

  /** So is every variable that is live at a position. */
  lemma LiveNeeded(blocks: seq<BasicBlock>, liveIn: seq<set<Name>>, r: Reserved, b: nat, k: nat, x: Name)
    requires WellFormed(blocks) && b < |blocks| && |liveIn| == |blocks| && Justified(blocks, liveIn, r)
    requires k <= |blocks[b].instructions| && x !in r.aliased && x !in r.statics
    requires x in LiveBefore(blocks[b].instructions[k..], MeetLive(blocks[b].successors, liveIn, r), r)
    ensures NeededAt(blocks, b, k, x)
  {
    var instrs, edges := blocks[b].instructions, blocks[b].successors;
    hide WellFormed, LiveBefore, MeetLive, ReadBelow, ClearTo;
    LiveIsRead(instrs, k, MeetLive(edges, liveIn, r), r, x);
    if !ReadBelow(instrs, k, x) {
      InMeet(edges, liveIn, r, x);
      var e :| e in edges && x in LiveOver(e, liveIn, r);
      assert HasEdge(blocks, b, e.id);
      hide NeededAt;
      NeededThrough(blocks, b, e.id, k, x);
    }
  }

  /** The sets are contained in every solution. */
  ghost predicate BelowSolutions(blocks: seq<BasicBlock>, liveIn: seq<set<Name>>, r: Reserved) {
    forall other :: Solved(blocks, other, r) ==> forall b :: 0 <= b < |blocks| && b < |liveIn| ==> liveIn[b] <= other[b]
  }

  lemma UpdateBelow(blocks: seq<BasicBlock>, liveIn: seq<set<Name>>, r: Reserved, b: nat)
    requires b < |blocks| && |liveIn| == |blocks| && BelowSolutions(blocks, liveIn, r)
    ensures BelowSolutions(blocks, liveIn[b := LiveIn(blocks, liveIn, r, b)], r)
  {
    forall other | Solved(blocks, other, r)
      ensures LiveIn(blocks, liveIn, r, b) <= other[b]
    {
      MeetMonotone(blocks[b].successors, liveIn, other, r);
      LiveBeforeMonotone(blocks[b].instructions, MeetLive(blocks[b].successors, liveIn, r),
                         MeetLive(blocks[b].successors, other, r), r);
    }
  }

  lemma UpdateJustified(blocks: seq<BasicBlock>, liveIn: seq<set<Name>>, r: Reserved, b: nat)
    requires WellFormed(blocks) && b < |blocks| && |liveIn| == |blocks| && Justified(blocks, liveIn, r)
    ensures Justified(blocks, liveIn[b := LiveIn(blocks, liveIn, r, b)], r)
  {
    hide WellFormed, NeededAt, LiveBefore, MeetLive;
    var instrs := blocks[b].instructions;
    assert instrs[0..] == instrs;
    forall x | x in LiveIn(blocks, liveIn, r, b) && x !in r.aliased && x !in r.statics
      ensures NeededAt(blocks, b, 0, x)
    {
      LiveNeeded(blocks, liveIn, r, b, 0, x);
    }
  }

  /** Phase 1 of `dead_store_elimination`: total, and it ends in the least solution. */
  method SolveLiveness(blocks: seq<BasicBlock>, r: Reserved) returns (liveIn: seq<set<Name>>)
    requires WellFormed(blocks)
    ensures Solved(blocks, liveIn, r) && BelowSolutions(blocks, liveIn, r) && Justified(blocks, liveIn, r)
  {
    hide WellFormed, Universe, MeetLive, LiveBefore, BelowSolutions, Justified;
    ghost var u := Universe(CodeOf(blocks), r);
    liveIn := seq(|blocks|, b => {});
    NothingLive(blocks, liveIn, r);
    var worklist, queued := AllBlocks(|blocks|, true);
    while worklist != []
      invariant QueueOk(worklist, queued, |blocks|)
      invariant Ascending(blocks, liveIn, r, queued, u)
      invariant BelowSolutions(blocks, liveIn, r) && Justified(blocks, liveIn, r)
      decreases Slack(liveIn, u), |worklist|
    {
      PopKeeps(worklist, queued, |blocks|);
      var blockId := worklist[0];
      ghost var waiting := queued;
      worklist, queued := worklist[1..], queued - {blockId};
      var endLive := MeetLiveness(blocks[blockId], liveIn, r);
      var newLiveIn, _ := TransferLivenessAndFilter(blocks[blockId].instructions, endLive, r, false);
      if liveIn[blockId] != newLiveIn {
        ghost var was := liveIn;
        BlockBounded(blocks, liveIn, r, u, blockId);
        UpdateBelow(blocks, liveIn, r, blockId);
        UpdateJustified(blocks, liveIn, r, blockId);
        SlackDrops(liveIn, u, blockId, newLiveIn);
        liveIn := liveIn[blockId := newLiveIn];
        PredecessorsExist(blocks, blockId);
        worklist, queued := PushMissing(worklist, queued, blocks[blockId].predecessors, |blocks|);
        UpdateAscends(blocks, was, r, waiting, u, blockId, queued);
      }
    }
  }

  lemma NothingLive(blocks: seq<BasicBlock>, liveIn: seq<set<Name>>, r: Reserved)
    requires forall b :: 0 <= b < |liveIn| ==> liveIn[b] == {}
    ensures BelowSolutions(blocks, liveIn, r) && Justified(blocks, liveIn, r)
  {
  }

  lemma PredecessorsExist(blocks: seq<BasicBlock>, b: nat)
    requires WellFormed(blocks) && b < |blocks|
    ensures forall p :: p in Ids(blocks[b].predecessors) ==> p < |blocks|
  {
    forall p | p in Ids(blocks[b].predecessors)
      ensures p < |blocks|
    {
      InIds(blocks[b].predecessors, p);
    }
  }
}
