/** Dead-store elimination keeps every call, result, static and memory cell of every run. */
module DeadStores {
  import opened Tacky
  import opened Semantics
  import opened Behaviour
  import opened ControlFlow
  import opened CfgRuns
  import opened Effects
  import opened LivePaths
  import opened Liveness
  import opened LocalSimulation
  import opened Preservation

  function AggregateTargets(instrs: seq<Instr>): set<Name> {
    set k | 0 <= k < |instrs| && instrs[k].CopyToOffset? :: instrs[k].dstName
  }

  /** `effective_aliased_vars`: with an unknown memory write around, every aggregate the
      function writes counts as aliased. */
  function EffectiveAliased(code: Code, aliased: set<Name>): set<Name> {
    var all := Flatten(code);
    if exists k :: 0 <= k < |all| && WritesUnknownMemory(all[k]) then aliased + AggregateTargets(all)
    else aliased
  }

  /** What the pass leaves of the code once liveness is solved. */
  function Pruned(blocks: seq<BasicBlock>, liveIn: seq<set<Name>>, r: Reserved): (code: Code)
    ensures |code| == |blocks|
  {
    seq(|blocks|, b requires 0 <= b < |blocks| => Filtered(blocks[b].instructions, EndLive(blocks, liveIn, r, b), r).1)
  }

  function EndLive(blocks: seq<BasicBlock>, liveIn: seq<set<Name>>, r: Reserved, b: nat): set<Name>
    requires b < |blocks|
  {
    MeetLive(blocks[b].successors, liveIn, r)
  }

  // ----- the filter keeps the skeleton -----

  lemma {:induction false} FilteredFrame(instrs: seq<Instr>, end: set<Name>, r: Reserved)
    requires Shaped(instrs)
    ensures SameFrame(instrs, Filtered(instrs, end, r).1)
  {
    if instrs != [] {
      var i, rest := instrs[0], instrs[1..];
      assert instrs == [i] + rest;
      ShapedTail(instrs);
      FilteredFrame(rest, end, r);
      var (live, kept) := Filtered(rest, end, r);
      if IsDeadStore(i, live, r) {
        FrameSkip(i, rest, kept);
      } else {
        FrameCons(i, rest, i, kept);
      }
    }
  }

  lemma PrunedSkeleton(blocks: seq<BasicBlock>, liveIn: seq<set<Name>>, r: Reserved)
    requires WellFormed(blocks)
    ensures SameSkeleton(CodeOf(blocks), Pruned(blocks, liveIn, r))
  {
    forall b | 0 <= b < |blocks|
      ensures SameFrame(CodeOf(blocks)[b], Pruned(blocks, liveIn, r)[b])
    {
      FilteredFrame(blocks[b].instructions, EndLive(blocks, liveIn, r, b), r);
    }
    FramesMakeSkeleton(CodeOf(blocks), Pruned(blocks, liveIn, r));
  }

  // ----- the simulation -----

  ghost predicate SameOn(d: Data, e: Data, xs: set<Name>) {
    d.mem == e.mem && d.trace == e.trace && Agree(d.env, e.env, xs)
  }

  /** What the pass assumes about its inputs. */
  ghost predicate PassInputs(c: Ctx, blocks: seq<BasicBlock>, liveIn: seq<set<Name>>, r: Reserved) {
    && WellFormed(blocks) && Confined(c) && CodeConfined(CodeOf(blocks), c.aliased)
    && Solved(blocks, liveIn, r) && c.aliased <= r.aliased && c.statics == r.statics
  }

  /** Inside a block: the right side is the filtered left side, and both agree on calls,
      memory and every variable that is live in the filtered remainder. */
  ghost predicate AtLivePoint(blocks: seq<BasicBlock>, liveIn: seq<set<Name>>, r: Reserved,
                              b: nat, rest: seq<Instr>, rest': seq<Instr>, d: Data, e: Data)
  {
    b < |blocks| &&
    var (live, kept) := Filtered(rest, EndLive(blocks, liveIn, r, b), r);
    rest' == kept && SameOn(d, e, live)
  }

  ghost function LivePoint(blocks: seq<BasicBlock>, liveIn: seq<set<Name>>, r: Reserved): Point {
    (b: nat, rest, rest', d, e) => AtLivePoint(blocks, liveIn, r, b, rest, rest', d, e)
  }

  lemma DeadStoreStep(c: Ctx, r: Reserved, i: Instr, d: Data, e: Data, live: set<Name>)
    requires IsDeadStore(i, live, r) && SameOn(d, e, live)
    ensures SameOn(Exec(c, i, d), e, live)
  {
  }

  lemma KeptStep(c: Ctx, r: Reserved, i: Instr, d: Data, e: Data, live: set<Name>)
    requires DataSafe(d, c.aliased) && c.aliased <= r.aliased && !IsDeadStore(i, live, r)
    requires SameOn(d, e, Transfer(i, live, r))
    ensures SameOn(Exec(c, i, d), Exec(c, i, e), live)
  {
    ExecAgree(c, i, d, e);
  }

  /** Over an edge, what is live at the target is live at the end of the source. */
  lemma LiveArrival(c: Ctx, blocks: seq<BasicBlock>, liveIn: seq<set<Name>>, r: Reserved, b: nat, t: nat)
    requires PassInputs(c, blocks, liveIn, r) && b < |blocks| && t < |blocks|
    requires Block(t) in SuccessorsOf(CodeOf(blocks), b)
    ensures Filtered(blocks[t].instructions, EndLive(blocks, liveIn, r, t), r).0 <= EndLive(blocks, liveIn, r, b)
  {
    FilteredLiveShrinks(blocks[t].instructions, EndLive(blocks, liveIn, r, t), r);
    assert liveIn[t] == LiveIn(blocks, liveIn, r, t);
    forall x | x in liveIn[t]
      ensures x in EndLive(blocks, liveIn, r, b)
    {
      assert x in LiveOver(Block(t), liveIn, r);
      InMeet(blocks[b].successors, liveIn, r, x);
    }
  }

  lemma StaticsLiveAtExit(blocks: seq<BasicBlock>, liveIn: seq<set<Name>>, r: Reserved, b: nat)
    requires b < |blocks| && Exit in blocks[b].successors
    ensures r.statics <= EndLive(blocks, liveIn, r, b)
  {
    forall x | x in r.statics
      ensures x in EndLive(blocks, liveIn, r, b)
    {
      assert x in LiveOver(Exit, liveIn, r);
      InMeet(blocks[b].successors, liveIn, r, x);
    }
  }

  lemma ExitsAgree(c: Ctx, d: Data, e: Data, live: set<Name>)
    requires c.statics <= live && SameOn(d, e, live)
    ensures ExitsAlike(c, d, e)
  {
    assert (map x | x in c.statics :: Read(d.env, x)) == (map x | x in c.statics :: Read(e.env, x));
  }

  lemma LiveLeaves(c: Ctx, blocks: seq<BasicBlock>, liveIn: seq<set<Name>>, r: Reserved, b: nat, d: Data, e: Data)
    requires PassInputs(c, blocks, liveIn, r) && b < |blocks|
    requires SameOn(d, e, EndLive(blocks, liveIn, r, b))
    ensures Leaves(c, CodeOf(blocks), Pruned(blocks, liveIn, r), LivePoint(blocks, liveIn, r), b, d, e)
  {
    var code, pruned, pt := CodeOf(blocks), Pruned(blocks, liveIn, r), LivePoint(blocks, liveIn, r);
    forall t: nat | t < |code| && Block(t) in SuccessorsOf(code, b)
      ensures pt(t, code[t], pruned[t], d, e)
    {
      LiveArrival(c, blocks, liveIn, r, b, t);
    }
    if Exit in SuccessorsOf(code, b) {
      StaticsLiveAtExit(blocks, liveIn, r, b);
      ExitsAgree(c, d, e, EndLive(blocks, liveIn, r, b));
    }
  }

  lemma LivePlain(c: Ctx, blocks: seq<BasicBlock>, liveIn: seq<set<Name>>, r: Reserved,
                  b: nat, rest: seq<Instr>, rest': seq<Instr>, d: Data, e: Data)
    requires PassInputs(c, blocks, liveIn, r) && AtLivePoint(blocks, liveIn, r, b, rest, rest', d, e)
    requires DataSafe(d, c.aliased) && rest != [] && !EndsBlock(rest[0])
    ensures
      || (rest' != [] && !EndsBlock(rest'[0])
          && AtLivePoint(blocks, liveIn, r, b, rest[1..], rest'[1..], Exec(c, rest[0], d), Exec(c, rest'[0], e)))
      || AtLivePoint(blocks, liveIn, r, b, rest[1..], rest', Exec(c, rest[0], d), e)
  {
    var i, end := rest[0], EndLive(blocks, liveIn, r, b);
    var (live, kept) := Filtered(rest[1..], end, r);
    if IsDeadStore(i, live, r) {
      DeadStoreStep(c, r, i, d, e, live);
    } else {
      KeptStep(c, r, i, d, e, live);
      assert rest'[1..] == kept;
    }
  }

  lemma LiveTerminator(c: Ctx, blocks: seq<BasicBlock>, liveIn: seq<set<Name>>, r: Reserved,
                       b: nat, i: Instr, rest': seq<Instr>, d: Data, e: Data)
    requires AtLivePoint(blocks, liveIn, r, b, [i], rest', d, e) && EndsBlock(i)
    ensures rest' == [i] && SteersAlike(c, i, i, d, e) && SameOn(d, e, EndLive(blocks, liveIn, r, b))
  {
    var end := EndLive(blocks, liveIn, r, b);
    assert [i][1..] == [] && Filtered([], end, r) == (end, []);
    assert SameOn(d, e, Transfer(i, end, r));
  }

  lemma LiveClosed(c: Ctx, blocks: seq<BasicBlock>, liveIn: seq<set<Name>>, r: Reserved)
    requires PassInputs(c, blocks, liveIn, r)
    ensures LocallyClosed(c, CodeOf(blocks), Pruned(blocks, liveIn, r), LivePoint(blocks, liveIn, r))
  {
    var code, pruned, pt := CodeOf(blocks), Pruned(blocks, liveIn, r), LivePoint(blocks, liveIn, r);
    assert Partitioned(code);
    forall b, rest, rest', d, e | pt(b, rest, rest', d, e) && Standing(c, code, b, rest, d)
      ensures LocalStep(c, code, pruned, pt, b, rest, rest', d, e)
    {
      if rest == [] {
        LiveLeaves(c, blocks, liveIn, r, b, d, e);
      } else if EndsBlock(rest[0]) {
        TerminatorEnding(code, Running(b, rest, d));
        LiveTerminator(c, blocks, liveIn, r, b, rest[0], rest', d, e);
        LiveLeaves(c, blocks, liveIn, r, b, d, e);
        assert Filtered([], EndLive(blocks, liveIn, r, b), r) == (EndLive(blocks, liveIn, r, b), []);
      } else {
        LivePlain(c, blocks, liveIn, r, b, rest, rest', d, e);
        hide PassInputs, AtLivePoint, Exec;
      }
    }
  }

  /** Filtering every block once with converged liveness preserves behaviour. */
  lemma PruningPreserves(c: Ctx, blocks: seq<BasicBlock>, liveIn: seq<set<Name>>, r: Reserved, d: Data)
    requires PassInputs(c, blocks, liveIn, r) && DataSafe(d, c.aliased)
    ensures Equivalent(c, CodeOf(blocks), Pruned(blocks, liveIn, r), d)
  {
    PrunedSkeleton(blocks, liveIn, r);
    LiveClosed(c, blocks, liveIn, r);
    LocalPassPreserves(c, CodeOf(blocks), Pruned(blocks, liveIn, r), LivePoint(blocks, liveIn, r), d);
  }

  // ----- the pass -----

  lemma {:induction false} FilteredSubset(instrs: seq<Instr>, end: set<Name>, r: Reserved)
    ensures var kept := Filtered(instrs, end, r).1;
      && |kept| <= |instrs| && (|kept| == |instrs| ==> kept == instrs)
      && forall i :: i in kept ==> i in instrs
  {
    if instrs != [] {
      FilteredSubset(instrs[1..], end, r);
      assert instrs == [instrs[0]] + instrs[1..];
    }
  }

  lemma PrunedConfined(blocks: seq<BasicBlock>, liveIn: seq<set<Name>>, r: Reserved, a: set<Name>)
    requires CodeConfined(CodeOf(blocks), a)
    ensures CodeConfined(Pruned(blocks, liveIn, r), a)
  {
    var code: Code, pruned: Code := CodeOf(blocks), Pruned(blocks, liveIn, r);
    forall b: nat, k: nat | b < |pruned| && k < |pruned[b]| && pruned[b][k].GetAddress?
      ensures pruned[b][k].taken in a
    {
      FilteredSubset(code[b], EndLive(blocks, liveIn, r, b), r);
      assert pruned[b][k] in code[b];
    }
  }

  method EffectiveAliasedVars(blocks: seq<BasicBlock>, aliased: set<Name>) returns (effective: set<Name>)
    ensures effective == EffectiveAliased(CodeOf(blocks), aliased)
  {
    var all := Flatten(CodeOf(blocks));
    effective := aliased;
    if exists k :: 0 <= k < |all| && WritesUnknownMemory(all[k]) {
      for k := 0 to |all|
        invariant effective == aliased + AggregateTargets(all[..k])
      {
        assert all[..k + 1] == all[..k] + [all[k]];
        if all[k].CopyToOffset? {
          effective := effective + {all[k].dstName};
        }
      }
      assert all[..|all|] == all;
    }
  }

  lemma PruningIsPreserved(blocks: seq<BasicBlock>, liveIn: seq<set<Name>>, r: Reserved, aliased: set<Name>)
    requires WellFormed(blocks) && Solved(blocks, liveIn, r) && aliased <= r.aliased
    ensures Preserved(CodeOf(blocks), Pruned(blocks, liveIn, r), aliased, r.statics)
  {
    forall c: Ctx, d: Data | Suitable(c, CodeOf(blocks), aliased, r.statics) && DataSafe(d, aliased)
      ensures Equivalent(c, CodeOf(blocks), Pruned(blocks, liveIn, r), d)
    {
      PruningPreserves(c, blocks, liveIn, r, d);
    }
  }

  /** Phase 2 of `dead_store_elimination`: filter each block exactly once. */
  method FilterBlocks(cfg: Cfg, live: seq<set<Name>>, r: Reserved) returns (changed: bool)
    modifies cfg
    ensures cfg.blocks == WithCode(old(cfg.blocks), Pruned(old(cfg.blocks), live, r))
    ensures changed <==> cfg.blocks != old(cfg.blocks)
    ensures if changed then |Flatten(CodeOf(cfg.blocks))| < |Flatten(CodeOf(old(cfg.blocks)))|
      else cfg.blocks == old(cfg.blocks)
  {
    ghost var was := cfg.blocks;
    ghost var pruned := Pruned(was, live, r);
    changed := false;
    for b := 0 to |cfg.blocks|
      invariant |cfg.blocks| == |was|
      invariant forall k ::
        0 <= k < |was| ==> cfg.blocks[k] == if k < b then was[k].(instructions := pruned[k]) else was[k]
      invariant changed <==> exists k :: 0 <= k < b && |pruned[k]| < |was[k].instructions|
    {
      var endLive := MeetLiveness(cfg.blocks[b], live, r);
      var instructions := cfg.blocks[b].instructions;
      var _, kept := TransferLivenessAndFilter(instructions, endLive, r, true);
      FilteredSubset(instructions, endLive, r);
      if |kept| != |instructions| {
        changed := true;
      }
      cfg.blocks := cfg.blocks[b := cfg.blocks[b].(instructions := kept)];
    }
    assert cfg.blocks == WithCode(was, pruned);
    PrunedSize(was, live, r);
  }

  // ----- nothing that is dead stays -----

  lemma {:induction false} KeptAll(instrs: seq<Instr>, k: nat, end: set<Name>, r: Reserved)
    requires k < |instrs| && Filtered(instrs, end, r).1 == instrs
    ensures !IsDeadStore(instrs[k], Filtered(instrs[k + 1..], end, r).0, r)
    decreases |instrs|
  {
    FilteredSubset(instrs[1..], end, r);
    var (live, kept) := Filtered(instrs[1..], end, r);
    if IsDeadStore(instrs[0], live, r) {
      assert false;
    } else {
      assert kept == ([instrs[0]] + kept)[1..] == instrs[1..];
      if k > 0 {
        KeptAll(instrs[1..], k - 1, end, r);
        assert instrs[1..][k..] == instrs[k + 1..] && instrs[1..][k - 1] == instrs[k];
      }
    }
  }

  lemma ComputesDead(i: Instr, x: Name, live: set<Name>, r: Reserved)
    requires OnlyComputes(i, x) && x !in live && x !in r.aliased && x !in r.statics
    ensures IsDeadStore(i, live, r)
  {
  }

  /** Where the added aliased variables come from. */
  lemma EffectiveAdds(blocks: seq<BasicBlock>, aliased: set<Name>, x: Name)
    requires x in EffectiveAliased(CodeOf(blocks), aliased) && x !in aliased
    ensures CallsOrStores(blocks) && WritesAggregate(blocks, x)
  {
    var all := Flatten(CodeOf(blocks));
    hide Flatten;
    FlattenMembers(CodeOf(blocks));
    var k :| 0 <= k < |all| && WritesUnknownMemory(all[k]);
    var j :| 0 <= j < |all| && all[j].CopyToOffset? && all[j].dstName == x;
    assert all[k] in all && all[j] in all;
    var b :| 0 <= b < |blocks| && all[k] in CodeOf(blocks)[b];
    var c :| 0 <= c < |blocks| && all[j] in CodeOf(blocks)[c];
    assert all[k] in blocks[b].instructions && all[j] in blocks[c].instructions;
  }

  lemma PrivateUnreserved(blocks: seq<BasicBlock>, x: Name, aliased: set<Name>, statics: set<Name>)
    requires Private(blocks, x, aliased, statics)
    ensures x !in EffectiveAliased(CodeOf(blocks), aliased) && x !in statics
  {
    hide EffectiveAliased, CallsOrStores, WritesAggregate;
    if x in EffectiveAliased(CodeOf(blocks), aliased) {
      EffectiveAdds(blocks, aliased, x);
    }
  }

  lemma UnprunedNeeded(blocks: seq<BasicBlock>, liveIn: seq<set<Name>>, r: Reserved, b: nat, k: nat, x: Name)
    requires WellFormed(blocks) && |liveIn| == |blocks| && Justified(blocks, liveIn, r) && b < |blocks|
    requires Filtered(blocks[b].instructions, EndLive(blocks, liveIn, r, b), r).1 == blocks[b].instructions
    requires k < |blocks[b].instructions| && OnlyComputes(blocks[b].instructions[k], x)
    requires x !in r.aliased && x !in r.statics
    ensures NeededAt(blocks, b, k + 1, x)
  {
    hide WellFormed, Justified, NeededAt, IsDeadStore, OnlyComputes, Filtered, LiveBefore, MeetLive;
    var instrs, end := blocks[b].instructions, EndLive(blocks, liveIn, r, b);
    KeptAll(instrs, k, end, r);
    FilteredLiveShrinks(instrs[k + 1..], end, r);
    if x in LiveBefore(instrs[k + 1..], end, r) {
      LiveNeeded(blocks, liveIn, r, b, k + 1, x);
    } else {
      ComputesDead(instrs[k], x, Filtered(instrs[k + 1..], end, r).0, r);
    }
  }

  /** A graph that the pass leaves as it is has no dead store. */
  lemma UnchangedHasNone(blocks: seq<BasicBlock>, liveIn: seq<set<Name>>, aliased: set<Name>, statics: set<Name>)
    requires WellFormed(blocks) && |liveIn| == |blocks|
    requires var r := Reserved(EffectiveAliased(CodeOf(blocks), aliased), statics);
      Justified(blocks, liveIn, r) && WithCode(blocks, Pruned(blocks, liveIn, r)) == blocks
    ensures NoDeadStores(blocks, aliased, statics)
  {
    hide WellFormed, Justified, NeededAt, OnlyComputes, Private, Filtered, EffectiveAliased;
    var r := Reserved(EffectiveAliased(CodeOf(blocks), aliased), statics);
    forall b, k, x | 0 <= b < |blocks| && 0 <= k < |blocks[b].instructions|
        && OnlyComputes(blocks[b].instructions[k], x) && Private(blocks, x, aliased, statics)
      ensures NeededAt(blocks, b, k + 1, x)
    {
      PrivateUnreserved(blocks, x, aliased, statics);
      assert WithCode(blocks, Pruned(blocks, liveIn, r))[b] == blocks[b];
      UnprunedNeeded(blocks, liveIn, r, b, k, x);
    }
  }

  /** `dead_store_elimination` */
  method DeadStoreElimination(cfg: Cfg, aliased: set<Name>, statics: set<Name>)
    returns (changed: bool, ghost liveIn: seq<set<Name>>)
    requires WellFormed(cfg.blocks)
    modifies cfg
    ensures var was, r := old(cfg.blocks), Reserved(EffectiveAliased(CodeOf(old(cfg.blocks)), aliased), statics);
      && Solved(was, liveIn, r) && BelowSolutions(was, liveIn, r)
      && cfg.blocks == WithCode(was, Pruned(was, liveIn, r))
    ensures !changed ==> NoDeadStores(cfg.blocks, aliased, statics)
    ensures WellFormed(cfg.blocks)
    ensures Preserved(CodeOf(old(cfg.blocks)), CodeOf(cfg.blocks), aliased, statics)
    ensures CodeConfined(CodeOf(old(cfg.blocks)), aliased) ==> CodeConfined(CodeOf(cfg.blocks), aliased)
    ensures if changed then |Flatten(CodeOf(cfg.blocks))| < |Flatten(CodeOf(old(cfg.blocks)))|
            else cfg.blocks == old(cfg.blocks)
  {
    ghost var was := cfg.blocks;
    var effective := EffectiveAliasedVars(cfg.blocks, aliased);
    var r := Reserved(effective, statics);
    var live := SolveLiveness(cfg.blocks, r);
    changed := FilterBlocks(cfg, live, r);
    liveIn := live;
    PrunedSkeleton(was, live, r);
    SkeletonWellFormed(was, Pruned(was, live, r));
    PruningIsPreserved(was, live, r, aliased);
    if CodeConfined(CodeOf(was), aliased) {
      PrunedConfined(was, live, r, aliased);
    }
    if !changed {
      UnchangedHasNone(was, live, aliased, statics);
    }
  }

  lemma PrunedSize(blocks: seq<BasicBlock>, liveIn: seq<set<Name>>, r: Reserved)
    ensures var pruned := Pruned(blocks, liveIn, r);
      if exists b :: 0 <= b < |blocks| && |pruned[b]| < |blocks[b].instructions|
      then |Flatten(pruned)| < |Flatten(CodeOf(blocks))| else WithCode(blocks, pruned) == blocks
  {
    var pruned := Pruned(blocks, liveIn, r);
    forall b | 0 <= b < |blocks|
      ensures |pruned[b]| <= |blocks[b].instructions|
      ensures |pruned[b]| == |blocks[b].instructions| ==> pruned[b] == blocks[b].instructions
    {
      FilteredSubset(blocks[b].instructions, EndLive(blocks, liveIn, r, b), r);
    }
    Shrinks(CodeOf(blocks), pruned);
  }

  /** The body is that of a graph without dead stores. */
  ghost predicate FreeOfDeadStores(body: seq<Instr>, aliased: set<Name>, statics: set<Name>) {
    exists blocks ::
      WellFormed(blocks) && body == Flatten(CodeOf(blocks)) && NoDeadStores(blocks, aliased, statics)
  }

  /** `run_dead_store_elimination`: repeat on one graph until nothing is dead; then no instruction is
      left that only computes into a private variable whose value no path reads. */
  method RunDeadStoreElimination(body: seq<Instr>, aliased: set<Name>, statics: set<Name>)
    returns (result: seq<Instr>, changed: bool)
    requires UniqueLabels(body)
    ensures Preserved([body], [result], aliased, statics) && UniqueLabels(result)
    ensures if changed then |result| < |body| else result == body
    ensures FreeOfDeadStores(result, aliased, statics)
  {
    var cfg := new Cfg.Build(body);
    ghost var first := CodeOf(cfg.blocks);
    changed := false;
    FlatPreserved(first, aliased, statics);
    PreservedReflexive([body], aliased, statics);
    while true
      invariant WellFormed(cfg.blocks)
      invariant CodeConfined([body], aliased) ==> CodeConfined(CodeOf(cfg.blocks), aliased)
      invariant Preserved([body], CodeOf(cfg.blocks), aliased, statics)
      invariant if changed then |Flatten(CodeOf(cfg.blocks))| < |body| else Flatten(CodeOf(cfg.blocks)) == body
      decreases |Flatten(CodeOf(cfg.blocks))|
    {
      ghost var was := CodeOf(cfg.blocks);
      var didChange, _ := DeadStoreElimination(cfg, aliased, statics);
      PreservedTransitive([body], was, CodeOf(cfg.blocks), aliased, statics);
      if didChange {
        changed := true;
      }
      if !didChange || |cfg.blocks| == 0 {
        assert NoDeadStores(cfg.blocks, aliased, statics);
        break;
      }
    }
    ghost var final := cfg.blocks;
    result := cfg.IntoInstructions();
    ghost var last := CodeOf(cfg.blocks);
    FlatPreserved(last, aliased, statics);
    PreservedTransitive([body], last, [result], aliased, statics);
    UniqueInBody(last);
  }
}
