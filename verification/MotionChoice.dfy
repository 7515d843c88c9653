/** What the pass does on the graphs of `MotionLimits`: the move shown there is the only one it can
    make, so it goes wrong on three of them and never stops on the fourth. */
module MotionChoice {
  import opened Tacky
  import opened Semantics
  import opened ControlFlow
  import opened Preservation
  import opened Paths
  import opened Dominators
  import opened Loops
  import opened Hoisting
  import opened LoopMotion
  import opened MotionLimits

  /** A back edge leaves no choice: its loop, preheader, counts and hoist are determined. */
  lemma SameMove(blocks: seq<BasicBlock>, lim: Limits, a: Move, b: Move)
    requires IsMove(blocks, lim, a) && IsMove(blocks, lim, b)
    requires a.edge.header == b.edge.header && a.edge.tail == b.edge.tail
    ensures a == b
  {
    SameLoop(blocks, a.edge);
    assert a.edge == b.edge;
    InfoUnique(CodeOf(blocks), a.edge.members, a.info, b.info);
    hide HoistUpTo, IsBackEdge, IsInfo;
  }

  lemma RootPath(blocks: seq<BasicBlock>, b: nat)
    requires b < |blocks| && (b == 0 || HasEdge(blocks, 0, b))
    ensures IsRoot(blocks, 0) && IsPath(blocks, if b == 0 then [0] else [0, b], 0, b)
  {
  }

  /** What does not lie on the shortest way to a block next to block 0 does not dominate it. */
  lemma NextToRoot(blocks: seq<BasicBlock>, h: nat, b: nat)
    requires b < |blocks| && (b == 0 || HasEdge(blocks, 0, b)) && Dominates(blocks, h, b)
    ensures h == 0 || h == b
  {
    RootPath(blocks, b);
    assert h in if b == 0 then [0] else [0, b];
  }

  lemma OwnLoop(blocks: seq<BasicBlock>, e: BackEdge)
    requires IsBackEdge(blocks, e)
    ensures HasEdge(blocks, e.tail, e.header) && Dominates(blocks, e.header, e.tail)
    ensures e.header in e.members && e.tail in e.members
  {
    assert InLoop(blocks, e.header, e.tail, e.header);
    if e.header != e.tail {
      AvoidingSelf(blocks, e.tail, e.header);
    }
    assert InLoop(blocks, e.header, e.tail, e.tail);
  }

  // ----- the failing hoists -----

  lemma TwinBackEdge(e: BackEdge)
    requires IsBackEdge(TwinGraph(), e)
    ensures e.header == 1 && e.tail == 1
  {
    OwnLoop(TwinGraph(), e);
    assert HasEdge(TwinGraph(), 0, 1);
    NextToRoot(TwinGraph(), e.header, e.tail);
  }

  /** On this graph the pass can make one move only, and it changes what the program returns. */
  lemma EveryTwinMoveFails()
    ensures HasMove(TwinGraph(), NOTHING)
    ensures forall mv :: IsMove(TwinGraph(), NOTHING, mv) ==>
      !Preserved(CodeOf(TwinGraph()), CodeOf(AfterMove(TwinGraph(), NOTHING, mv)), {}, {})
  {
    hide TwinGraph, IsMove, AfterMove, Preserved;
    var only := BranchingPreheaderFails();
    forall mv | IsMove(TwinGraph(), NOTHING, mv)
      ensures mv == only
    {
      MoveEdge(TwinGraph(), NOTHING, mv);
      MoveEdge(TwinGraph(), NOTHING, only);
      TwinBackEdge(mv.edge);
      TwinBackEdge(only.edge);
      SameMove(TwinGraph(), NOTHING, mv, only);
    }
  }

  lemma LateBackEdge(e: BackEdge)
    requires IsBackEdge(LateGraph(), e)
    ensures e.header == 1 && e.tail == 1
  {
    OwnLoop(LateGraph(), e);
    assert HasEdge(LateGraph(), 0, 1);
    NextToRoot(LateGraph(), e.header, e.tail);
  }

  lemma EveryLateMoveFails()
    ensures HasMove(LateGraph(), NOTHING)
    ensures forall mv :: IsMove(LateGraph(), NOTHING, mv) ==>
      !Preserved(CodeOf(LateGraph()), CodeOf(AfterMove(LateGraph(), NOTHING, mv)), {}, {})
  {
    hide LateGraph, IsMove, AfterMove, Preserved;
    var only := EarlyReadFails();
    forall mv | IsMove(LateGraph(), NOTHING, mv)
      ensures mv == only
    {
      MoveEdge(LateGraph(), NOTHING, mv);
      MoveEdge(LateGraph(), NOTHING, only);
      LateBackEdge(mv.edge);
      LateBackEdge(only.edge);
      SameMove(LateGraph(), NOTHING, mv, only);
    }
  }

  lemma NoStartPreheader(members: set<nat>)
    requires 0 in members && 2 in members
    ensures Outside([Entry, Block(0), Block(2)], members) == []
  {
    assert [Entry, Block(0), Block(2)][1..] == [Block(0), Block(2)] && [Block(0), Block(2)][1..] == [Block(2)];
    assert Outside([Block(2)], members) == [];
    assert Outside([Block(0), Block(2)], members) == [];
  }

  /** The back edge from block 2 has a loop that leaves no preheader. */
  lemma StartMoveEdge(mv: Move)
    requires IsMove(StartGraph(), NOTHING, mv)
    ensures mv.edge.header == 0 && mv.edge.tail == 0
  {
    var e := mv.edge;
    hide Outside, HoistUpTo, IsInfo;
    OwnLoop(StartGraph(), e);
    assert HasEdge(StartGraph(), 0, 1);
    if 0 in e.members && 2 in e.members {
      NoStartPreheader(e.members);
    }
    if e.tail != 2 {
      NextToRoot(StartGraph(), e.header, e.tail);
    }
  }

  lemma EveryStartMoveFails()
    ensures HasMove(StartGraph(), NOTHING)
    ensures forall mv :: IsMove(StartGraph(), NOTHING, mv) ==>
      !Preserved(CodeOf(StartGraph()), CodeOf(AfterMove(StartGraph(), NOTHING, mv)), {}, {})
  {
    hide StartGraph, IsMove, AfterMove, Preserved;
    var only := HeaderAtStartFails();
    forall mv | IsMove(StartGraph(), NOTHING, mv)
      ensures mv == only
    {
      StartMoveEdge(mv);
      StartMoveEdge(only);
      SameMove(StartGraph(), NOTHING, mv, only);
    }
  }

  // ----- the two loops that never run -----

  predicate Bare(instrs: seq<Instr>) {
    forall i :: i in instrs ==> !IsPure(i)
  }

  lemma {:induction false} BarePicks(lim: Limits, info: LoopInfo, instrs: seq<Instr>, defs: set<Name>)
    requires Bare(instrs)
    ensures Picks(lim, info, instrs, defs) == []
  {
    if instrs != [] {
      assert instrs[0] in instrs;
      BarePicks(lim, info, instrs[1..], defs);
    }
  }

  /** Blocks without computations give nothing to hoist. */
  lemma {:induction false} BareHoist(lim: Limits, info: LoopInfo, code: Code, chosen: set<nat>, n: nat)
    requires n <= |code| && forall b :: b in chosen && b < |code| ==> Bare(code[b])
    ensures HoistUpTo(lim, info, code, chosen, n).hoisted == []
  {
    if n > 0 {
      BareHoist(lim, info, code, chosen, n - 1);
      if n - 1 in chosen {
        BarePicks(lim, info, code[n - 1], HoistUpTo(lim, info, code, chosen, n - 1).defs);
      }
    }
  }

  lemma NoInnerPreheader(members: set<nat>)
    requires 2 in members
    ensures Outside([Block(2)], members) == []
  {
  }

  lemma BareLoop(first: bool, tail: nat, e: BackEdge)
    requires IsBackEdge(SwingGraph(first), e) && e.header == 2 && e.tail == tail == (if first then 3 else 1)
    ensures forall info, n: nat :: n <= 4 ==>
      HoistUpTo(NOTHING, info, CodeOf(SwingGraph(first)), ChosenBlocks(SwingGraph(first), e.members), n).hoisted == []
  {
    var blocks := SwingGraph(first);
    forall b
      ensures b in e.members <==> b in {2, tail}
    {
      SwingLoop(first, tail, b);
    }
    hide HoistUpTo;
    forall info, n: nat | n <= 4
      ensures HoistUpTo(NOTHING, info, CodeOf(blocks), ChosenBlocks(blocks, e.members), n).hoisted == []
    {
      BareHoist(NOTHING, info, CodeOf(blocks), ChosenBlocks(blocks, e.members), n);
    }
  }

  /** The loop of an edge into block 1 or 3 has no preheader, and the loop without the temporary has
      nothing to hoist. */
  lemma SwingMoveEdge(first: bool, mv: Move)
    requires IsMove(SwingGraph(first), NOTHING, mv)
    ensures mv.edge.header == 2 && mv.edge.tail == if first then 1 else 3
  {
    var blocks, e, other := SwingGraph(first), mv.edge, if first then 3 else 1;
    OwnLoop(blocks, e);
    hide HoistUpTo, Outside, IsInfo, ChosenBlocks;
    if 2 in e.members {
      NoInnerPreheader(e.members);
    }
    if e.header == 2 && e.tail == other {
      BareLoop(first, other, e);
    }
  }

  /** Whatever move the pass makes on one of the two graphs, it gets to the other. */
  lemma EveryMoveSwings(first: bool)
    ensures HasMove(SwingGraph(first), NOTHING)
    ensures forall mv ::
      IsMove(SwingGraph(first), NOTHING, mv) ==> AfterMove(SwingGraph(first), NOTHING, mv) == SwingGraph(!first)
  {
    hide SwingGraph, IsMove, AfterMove;
    var only := UnreachedLoopsSwing(first);
    forall mv | IsMove(SwingGraph(first), NOTHING, mv)
      ensures mv == only
    {
      SwingMoveEdge(first, mv);
      SwingMoveEdge(first, only);
      SameMove(SwingGraph(first), NOTHING, mv, only);
    }
  }

  /** A course of the pass: from each graph one move leads to the next. */
  ghost predicate Course(graphs: seq<seq<BasicBlock>>, lim: Limits) {
    forall k: nat :: k + 1 < |graphs| ==> MovesAt(graphs, lim, k)
  }

  ghost predicate MovesAt(graphs: seq<seq<BasicBlock>>, lim: Limits, k: nat)
    requires k + 1 < |graphs|
  {
    exists mv :: IsMove(graphs[k], lim, mv) && graphs[k + 1] == AfterMove(graphs[k], lim, mv)
  }

  ghost predicate HasMove(blocks: seq<BasicBlock>, lim: Limits) {
    exists mv :: IsMove(blocks, lim, mv)
  }

  /** Every course from one of the two graphs swings between them, and can always go on: the pass
      does not terminate on them. */
  lemma {:induction false} SwingsForever(first: bool, graphs: seq<seq<BasicBlock>>)
    requires graphs != [] && graphs[0] == SwingGraph(first) && Course(graphs, NOTHING)
    ensures graphs[|graphs| - 1] == SwingGraph(if |graphs| % 2 == 1 then first else !first)
    ensures HasMove(graphs[|graphs| - 1], NOTHING)
    decreases |graphs|
  {
    hide SwingGraph, IsMove, AfterMove;
    var n := |graphs| - 1;
    var now := if |graphs| % 2 == 1 then first else !first;
    if n > 0 {
      forall k: nat | k + 1 < n
        ensures MovesAt(graphs[..n], NOTHING, k)
      {
        assert MovesAt(graphs, NOTHING, k);
      }
      SwingsForever(first, graphs[..n]);
      assert MovesAt(graphs, NOTHING, n - 1);
      EveryMoveSwings(!now);
    }
    EveryMoveSwings(now);
  }

  /** So `licm_once` always reports a change there. */
  method SwingOnce(cfg: Cfg, ghost first: bool) returns (changed: bool)
    requires cfg.blocks == SwingGraph(first)
    modifies cfg
    ensures changed && cfg.blocks == SwingGraph(!first)
  {
    SwingLinks(first);
    hide SwingGraph, IsMove, AfterMove, EdgesMatch;
    EveryMoveSwings(first);
    changed := LicmOnce(cfg, NOTHING);
  }
}
