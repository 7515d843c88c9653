/** Every move of loop-invariant code motion preserves behaviour, given three conditions on
    where it happens; and whole passes, on graphs whose temporaries are defined once. */
module MotionSafety {
  import opened Tacky
  import opened Semantics
  import opened Behaviour
  import opened ControlFlow
  import opened CfgRuns
  import opened Effects
  import opened LocalSimulation
  import opened Preservation
  import opened Paths
  import opened Dominators
  import opened Loops
  import opened HoistingRuns
  import opened Hoisting
  import opened LoopMotion

  // ----- the code after a move -----

  lemma {:induction false} KeepsFrame(lim: Limits, info: LoopInfo, instrs: seq<Instr>, defs: set<Name>)
    requires Shaped(instrs)
    ensures SameFrame(instrs, Keeps(lim, info, instrs, defs)) && PlainList(Picks(lim, info, instrs, defs))
  {
    if instrs != [] {
      var i, rest := instrs[0], instrs[1..];
      assert instrs == [i] + rest;
      if IsCandidate(lim, info, i, defs) {
        var next := defs + {Dst(i)};
        KeepsFrame(lim, info, rest, next);
        FrameSkip(i, rest, Keeps(lim, info, rest, next));
      } else {
        KeepsFrame(lim, info, rest, defs);
        FrameCons(i, rest, i, Keeps(lim, info, rest, defs));
      }
      hide SameFrame, Shaped;
    }
  }

  lemma BlockKept(lim: Limits, info: LoopInfo, code: Code, b: nat, hoisted: seq<Instr>, defs: set<Name>)
    requires Partitioned(code) && b < |code| && PlainList(hoisted)
    ensures SameFrame(code[b], Keeps(lim, info, code[b], defs)) && SameFrame(code[b], code[b])
    ensures PlainList(hoisted + Picks(lim, info, code[b], defs))
  {
    hide Keeps, Picks;
    KeepsFrame(lim, info, code[b], defs);
  }

  lemma {:induction false} HoistShape(lim: Limits, info: LoopInfo, code: Code, chosen: set<nat>, n: nat)
    requires n <= |code| && Partitioned(code)
    ensures var r := HoistUpTo(lim, info, code, chosen, n);
      && PlainList(r.hoisted)
      && (forall b :: 0 <= b < n ==> SameFrame(code[b], r.kept[b]) && (b !in chosen ==> r.kept[b] == code[b]))
  {
    if n > 0 {
      hide Keeps, Picks, Dsts, SameFrame, Partitioned, Shaped, PlainList;
      HoistShape(lim, info, code, chosen, n - 1);
      var before := HoistUpTo(lim, info, code, chosen, n - 1);
      BlockKept(lim, info, code, n - 1, before.hoisted, before.defs);
    } else {
      hide SameFrame;
    }
  }

  /** With only one block chosen, that block is scanned from scratch. */
  lemma {:induction false} HoistHeaderOnly(lim: Limits, info: LoopInfo, code: Code, h: nat, n: nat)
    requires n <= |code|
    ensures var r := HoistUpTo(lim, info, code, {h}, n);
      if h < n then r.kept == code[..n][h := Keeps(lim, info, code[h], {})]
        && r.hoisted == Picks(lim, info, code[h], {})
      else r.kept == code[..n] && r.hoisted == [] && r.defs == {}
  {
    if n > 0 {
      HoistHeaderOnly(lim, info, code, h, n - 1);
      assert code[..n] == code[..n - 1] + [code[n - 1]];
      hide Keeps, Picks, Dsts;
    }
  }

  lemma MoveFacts(blocks: seq<BasicBlock>, lim: Limits, mv: Move)
    requires EdgesMatch(blocks) && IsMove(blocks, lim, mv)
    ensures var e := mv.edge;
      && e.header < |blocks| && e.tail < |blocks| && mv.preheader < |blocks| && |mv.hoist.kept| == |blocks|
      && e.header in e.members && mv.preheader !in e.members
      && HasEdge(blocks, mv.preheader, e.header) && blocks[mv.preheader].successors == [Block(e.header)]
      && (WellFormed(blocks) ==> SuccessorsOf(CodeOf(blocks), mv.preheader) == [Block(e.header)])
      && (forall a: nat :: HasEdge(blocks, a, e.header) && a !in e.members ==> a == mv.preheader)
  {
    var e := mv.edge;
    OutsideMembers(blocks[e.header].predecessors, e.members, mv.preheader);
    assert mv.preheader in Outside(blocks[e.header].predecessors, e.members);
    assert Block(e.header) in blocks[mv.preheader].successors;
    forall a: nat | HasEdge(blocks, a, e.header) && a !in e.members
      ensures a == mv.preheader
    {
      assert Block(a) in blocks[e.header].predecessors;
      OutsideMembers(blocks[e.header].predecessors, e.members, a);
    }
  }

  /** In a loop that runs can reach, the header is the only block moves take from. */
  lemma ChosenHeader(blocks: seq<BasicBlock>, e: BackEdge)
    requires IsBackEdge(blocks, e) && Reached(blocks, e.header)
    ensures ChosenBlocks(blocks, e.members) == {e.header}
  {
    forall b
      ensures b in ChosenBlocks(blocks, e.members) <==> b == e.header
    {
      if b in e.members {
        OnlyHeaderDominatesLoop(blocks, e.header, e.tail, b);
      }
    }
  }

  ghost function PlanOf(mv: Move): Plan {
    Plan(mv.edge.header, mv.preheader, mv.edge.members, mv.hoist.hoisted)
  }

  lemma ReachedMove(blocks: seq<BasicBlock>, lim: Limits, mv: Move)
    requires EdgesMatch(blocks) && IsMove(blocks, lim, mv) && Reached(blocks, mv.edge.header)
    ensures mv.edge.header < |blocks|
    ensures Chosen(CodeOf(blocks), mv.edge.members, mv.edge.header, lim, mv.info, mv.hoist.hoisted)
    ensures mv.hoist.kept == CodeOf(blocks)[mv.edge.header := Keeps(lim, mv.info, CodeOf(blocks)[mv.edge.header], {})]
  {
    MoveFacts(blocks, lim, mv);
    ChosenHeader(blocks, mv.edge);
    var code := CodeOf(blocks);
    HoistHeaderOnly(lim, mv.info, code, mv.edge.header, |code|);
    assert code[..|code|] == code;
    hide EdgesMatch, HoistUpTo, Keeps, Picks, ExactCounts, ChosenBlocks, IsBackEdge, IsPreheader, WritesMemory;
  }

  /** The preheader does not branch: what is appended to it always runs. */
  predicate PreheaderFalls(blocks: seq<BasicBlock>, p: nat)
    requires p < |blocks|
  {
    !EndingOf(blocks[p].instructions).Branches?
  }

  lemma MovedFrames(code: Code, kept: Code, preheader: nat, hoisted: seq<Instr>)
    requires |kept| == |code| && preheader < |code| && PlainList(hoisted)
    requires forall b :: 0 <= b < |code| ==> SameFrame(code[b], kept[b])
    requires EndingOf(kept[preheader]).Falls? || EndingOf(kept[preheader]).Jumps?
    ensures SameSkeleton(code, MovedCode(kept, preheader, hoisted))
  {
    InsertedShape(kept[preheader], hoisted);
    hide Inserted, PlainList, EndingOf, Shaped;
    var next := MovedCode(kept, preheader, hoisted);
    forall b | 0 <= b < |code|
      ensures EndingOf(next[b]) == EndingOf(code[b]) && Shaped(next[b]) && forall l ::
        Labelled(next[b], l) <==> Labelled(code[b], l)
    {
      assert SameFrame(code[b], kept[b]);
    }
  }

  lemma MoveSkeleton(blocks: seq<BasicBlock>, lim: Limits, mv: Move)
    requires WellFormed(blocks) && IsMove(blocks, lim, mv) && mv.preheader < |blocks|
      && PreheaderFalls(blocks, mv.preheader)
    ensures SameSkeleton(CodeOf(blocks), CodeOf(AfterMove(blocks, lim, mv))) && WellFormed(AfterMove(blocks, lim, mv))
  {
    var code := CodeOf(blocks);
    var next := MovedCode(mv.hoist.kept, mv.preheader, mv.hoist.hoisted);
    MoveFacts(blocks, lim, mv);
    HoistShape(lim, mv.info, code, ChosenBlocks(blocks, mv.edge.members), |code|);
    PreheaderEnding(blocks, lim, mv);
    hide HoistUpTo, MovedCode, PlainList, SameFrame, EndingOf, SameSkeleton, WellFormed, IsBackEdge, IsPreheader,
      IsInfo;
    MovedFrames(code, mv.hoist.kept, mv.preheader, mv.hoist.hoisted);
    SkeletonWellFormed(blocks, next);
  }

  lemma PreheaderEnding(blocks: seq<BasicBlock>, lim: Limits, mv: Move)
    requires WellFormed(blocks) && IsMove(blocks, lim, mv) && mv.preheader < |blocks|
      && PreheaderFalls(blocks, mv.preheader)
    ensures var i := mv.hoist.kept[mv.preheader];
      Shaped(i) && (EndingOf(i).Falls? || EndingOf(i).Jumps?) && i == blocks[mv.preheader].instructions
  {
    var code := CodeOf(blocks);
    MoveFacts(blocks, lim, mv);
    HoistShape(lim, mv.info, code, ChosenBlocks(blocks, mv.edge.members), |code|);
    assert mv.preheader !in ChosenBlocks(blocks, mv.edge.members);
    assert mv.hoist.kept[mv.preheader] == code[mv.preheader];
    hide IsMove, HoistUpTo, SameFrame, PlainList;
  }

  // ----- a move in a loop that runs can reach -----

  /** The block reads no variable it is about to lose the definition of, before that definition. */
  ghost predicate WritesFirst(instrs: seq<Instr>, hoisted: seq<Instr>) {
    forall j, k :: 0 <= j < k < |instrs| && instrs[k] in hoisted && DefinedVar(instrs[k]).Some? ==>
      Dst(instrs[k]) !in SourceVars(instrs[j])
  }

  lemma NeedsSources(c: Ctx, i: Instr, x: Name)
    requires x in Needs(c, i)
    ensures x in SourceVars(i) || x in c.aliased || DefinedVar(i) == Some(x)
  {
  }

  lemma WritesFirstFits(c: Ctx, code: Code, members: set<nat>, header: nat, lim: Limits, info: LoopInfo,
        hoisted: seq<Instr>)
    requires Chosen(code, members, header, lim, info, hoisted) && c.aliased == lim.aliased
    requires WritesFirst(code[header], hoisted)
    ensures DefinedFirst(c, code[header], hoisted)
  {
    var instrs := code[header];
    forall j, k | 0 <= j < k < |instrs| && instrs[k] in hoisted && DefinedVar(instrs[k]).Some?
      ensures Dst(instrs[k]) !in Needs(c, instrs[j])
    {
      var o :| 0 <= o < |hoisted| && hoisted[o] == instrs[k];
      var x := Dst(instrs[k]);
      ChosenItem(code, members, header, lim, info, hoisted, o);
      CandidateLifts(c, lim, info, hoisted[o], Dsts(hoisted[..o]));
      if DefinedVar(instrs[j]) == Some(x) {
        CountTwo(instrs, j, k, x);
        LoopDefsAtLeast(code, members, x, |code|, header, header);
      }
      if x in Needs(c, instrs[j]) {
        NeedsSources(c, instrs[j], x);
      }
    }
    hide IsCandidate, LoopDefs, Picks, Needs, SourceVars;
  }

  /** A loop whose header is not block 0 does not contain block 0. */
  lemma StartOutside(blocks: seq<BasicBlock>, e: BackEdge)
    requires IsBackEdge(blocks, e) && e.header != 0
    ensures 0 !in e.members
  {
    if 0 in e.members {
      HeaderDominatesLoop(blocks, e.header, e.tail, 0);
      RootDominator(blocks, e.header, 0);
    }
  }

  lemma OneEntry(blocks: seq<BasicBlock>, lim: Limits, mv: Move, a: nat, b: nat)
    requires WellFormed(blocks) && IsMove(blocks, lim, mv)
    requires a < |blocks| && a !in mv.edge.members && b in mv.edge.members
      && Block(b) in SuccessorsOf(CodeOf(blocks), a)
    ensures b == mv.edge.header && a == mv.preheader
  {
    var e := mv.edge;
    MoveFacts(blocks, lim, mv);
    hide EndingOf, InLoop, Dominates, HoistUpTo, IsInfo, Outside, IsPreheader;
    LoopInRange(blocks, e, b);
    assert HasEdge(blocks, a, b);
    EnteredAtHeader(blocks, e.header, e.tail, a, b);
  }

  lemma MoveEntry(blocks: seq<BasicBlock>, lim: Limits, mv: Move)
    requires WellFormed(blocks) && IsMove(blocks, lim, mv) && mv.preheader < |blocks|
      && PreheaderFalls(blocks, mv.preheader)
    requires mv.edge.header != 0
    ensures EntryFits(CodeOf(blocks), PlanOf(mv))
  {
    var code, e := CodeOf(blocks), mv.edge;
    MoveFacts(blocks, lim, mv);
    StartOutside(blocks, e);
    hide EndingOf, SuccessorsOf, InLoop, Dominates, HoistUpTo, IsInfo, Outside, WellFormed, IsPreheader;
    forall a: nat, b: nat | a < |code| && a !in e.members && b in e.members && Block(b) in SuccessorsOf(code, a)
      ensures b == e.header && a == mv.preheader
    {
      OneEntry(blocks, lim, mv, a, b);
    }
  }

  /** The code after a move in a reached loop is the plan carried out. */
  lemma ReachedMoveCode(c: Ctx, blocks: seq<BasicBlock>, lim: Limits, mv: Move)
    requires WellFormed(blocks) && IsMove(blocks, lim, mv) && Reached(blocks, mv.edge.header)
      && c.aliased == lim.aliased
    requires mv.edge.header < |blocks| && WritesFirst(blocks[mv.edge.header].instructions, mv.hoist.hoisted)
    ensures mv.preheader < |blocks| && LoopFits(c, CodeOf(blocks), PlanOf(mv))
    ensures CodeOf(AfterMove(blocks, lim, mv)) == Moved(CodeOf(blocks), PlanOf(mv))
  {
    var code, e, hoisted := CodeOf(blocks), mv.edge, mv.hoist.hoisted;
    MoveFacts(blocks, lim, mv);
    ReachedMove(blocks, lim, mv);
    WritesFirstFits(c, code, e.members, e.header, lim, mv.info, hoisted);
    ChosenFits(c, code, e.members, e.header, mv.preheader, lim, mv.info, hoisted);
    assert e.header != mv.preheader;
    hide Keeps, Picks, Chosen, LoopFits, HoistUpTo, DefinedFirst, WritesFirst, Inserted, FilterOut, IsBackEdge,
      IsInfo, IsPreheader;
  }

  // ----- a move in code that never runs -----

  ghost function SamePoint(blocks: seq<BasicBlock>): Point {
    (b: nat, rest, rest', d, e) => Reaches(blocks, 0, b) && rest' == rest && d == e
  }

  lemma SameSelf(c: Ctx, i: Instr, d: Data)
    requires EndsBlock(i)
    ensures SteersAlike(c, i, i, d, d)
  {
  }

  lemma SameLeaves(c: Ctx, blocks: seq<BasicBlock>, q: Code, b: nat, d: Data)
    requires WellFormed(blocks) && |q| == |blocks| && b < |blocks| && Reaches(blocks, 0, b)
    requires forall t: nat :: t < |blocks| && Reaches(blocks, 0, t) ==> q[t] == blocks[t].instructions
    ensures Leaves(c, CodeOf(blocks), q, SamePoint(blocks), b, d, d)
  {
    var p := CodeOf(blocks);
    forall t: nat | t < |p| && Block(t) in SuccessorsOf(p, b)
      ensures SamePoint(blocks)(t, p[t], q[t], d, d)
    {
      assert HasEdge(blocks, b, t);
      ReachesNext(blocks, 0, b, t);
    }
  }

  lemma SameStep(c: Ctx, blocks: seq<BasicBlock>, q: Code, b: nat, rest: seq<Instr>, rest': seq<Instr>, d: Data,
        e: Data)
    requires WellFormed(blocks) && |q| == |blocks|
    requires forall t: nat :: t < |blocks| && Reaches(blocks, 0, t) ==> q[t] == blocks[t].instructions
    requires SamePoint(blocks)(b, rest, rest', d, e) && Standing(c, CodeOf(blocks), b, rest, d)
    ensures LocalStep(c, CodeOf(blocks), q, SamePoint(blocks), b, rest, rest', d, e)
  {
    SameLeaves(c, blocks, q, b, d);
    if rest != [] && EndsBlock(rest[0]) {
      TerminatorEnding(CodeOf(blocks), Running(b, rest, d));
      SameSelf(c, rest[0], d);
    }
    hide WellFormed, Leaves, Standing, SteersAlike, Exec, Reaches;
  }

  /** Rewriting blocks that no path from block 0 reaches changes nothing. */
  lemma UnreachedChanges(c: Ctx, blocks: seq<BasicBlock>, q: Code, d: Data)
    requires WellFormed(blocks) && SameSkeleton(CodeOf(blocks), q)
    requires Confined(c) && CodeConfined(CodeOf(blocks), c.aliased) && DataSafe(d, c.aliased)
    requires forall t: nat :: t < |blocks| && Reaches(blocks, 0, t) ==> q[t] == blocks[t].instructions
    ensures Equivalent(c, CodeOf(blocks), q, d)
  {
    var p, pt := CodeOf(blocks), SamePoint(blocks);
    forall b, rest, rest', d, e | pt(b, rest, rest', d, e) && Standing(c, p, b, rest, d)
      ensures LocalStep(c, p, q, pt, b, rest, rest', d, e)
    {
      SameStep(c, blocks, q, b, rest, rest', d, e);
    }
    if p != [] {
      PathSelf(blocks, 0);
    }
    hide LocalStep, Standing, SameSkeleton;
    LocalPassPreserves(c, p, q, pt, d);
  }

  /** A path to a block of a loop passes the loop's header, so the header is reached first. */
  lemma {:induction false} HeaderReachedFirst(blocks: seq<BasicBlock>, e: BackEdge, b: nat)
    requires IsBackEdge(blocks, e) && b in e.members && Reaches(blocks, 0, b)
    ensures Reached(blocks, e.header)
  {
    HeaderDominatesLoop(blocks, e.header, e.tail, b);
    var path :| IsPath(blocks, path, 0, b);
    assert e.header in path;
    var k :| 0 <= k < |path| && path[k] == e.header;
    assert IsPath(blocks, path[..k + 1], 0, e.header);
    assert IsRoot(blocks, 0);
  }

  lemma UnreachedMove(blocks: seq<BasicBlock>, lim: Limits, mv: Move, t: nat)
    requires WellFormed(blocks) && IsMove(blocks, lim, mv) && !Reached(blocks, mv.edge.header)
    requires t < |blocks| && Reaches(blocks, 0, t)
    ensures CodeOf(AfterMove(blocks, lim, mv))[t] == blocks[t].instructions
  {
    MoveFacts(blocks, lim, mv);
    assert IsRoot(blocks, 0);
    if t in mv.edge.members {
      HeaderReachedFirst(blocks, mv.edge, t);
    }
    if t == mv.preheader {
      ReachesNext(blocks, 0, t, mv.edge.header);
    }
    var code := CodeOf(blocks);
    HoistShape(lim, mv.info, code, ChosenBlocks(blocks, mv.edge.members), |code|);
    hide SameFrame, PlainList, Inserted, WellFormed, IsInfo, IsBackEdge, IsPreheader, HoistUpTo;
  }

  // ----- every move -----

  /** The three conditions under which a move is safe, as a caller can read them off the graph
      and the instructions picked. */
  ghost predicate SafeMove(blocks: seq<BasicBlock>, lim: Limits, mv: Move)
    requires IsMove(blocks, lim, mv) && WellFormed(blocks)
  {
    MoveFacts(blocks, lim, mv);
    && mv.edge.header != 0
    && PreheaderFalls(blocks, mv.preheader)
    && WritesFirst(blocks[mv.edge.header].instructions, mv.hoist.hoisted)
  }

  lemma MovePreserves(c: Ctx, blocks: seq<BasicBlock>, lim: Limits, mv: Move, d: Data)
    requires WellFormed(blocks) && IsMove(blocks, lim, mv) && SafeMove(blocks, lim, mv)
    requires Suitable(c, CodeOf(blocks), lim.aliased, lim.statics) && DataSafe(d, c.aliased)
    ensures Equivalent(c, CodeOf(blocks), CodeOf(AfterMove(blocks, lim, mv)), d)
  {
    var code := CodeOf(blocks);
    MoveFacts(blocks, lim, mv);
    hide IsMove, WellFormed, WritesFirst, PreheaderFalls, Reached, Moved, LoopFits, EntryFits, CodeConfined, Confined;
    if Reached(blocks, mv.edge.header) {
      ReachedMoveCode(c, blocks, lim, mv);
      MoveEntry(blocks, lim, mv);
      WellFormedCode(blocks);
      MovingPreserves(c, code, PlanOf(mv), d);
    } else {
      MoveSkeleton(blocks, lim, mv);
      forall t: nat | t < |blocks| && Reaches(blocks, 0, t)
        ensures CodeOf(AfterMove(blocks, lim, mv))[t] == blocks[t].instructions
      {
        UnreachedMove(blocks, lim, mv, t);
      }
      UnreachedChanges(c, blocks, CodeOf(AfterMove(blocks, lim, mv)), d);
    }
  }

  lemma WellFormedCode(blocks: seq<BasicBlock>)
    requires WellFormed(blocks)
    ensures Partitioned(CodeOf(blocks)) && UniqueBlockLabels(CodeOf(blocks))
  {
  }
}
