/** Why hoisting ends: every move takes instructions to a block of fewer loops. */
module LoopDepth {
  import opened Tacky
  import opened Semantics
  import opened ControlFlow
  import opened Paths
  import opened Worklists
  import opened Dominators
  import opened Loops
  import opened Hoisting
  import opened HoistingRuns
  import opened LoopMotion
  import opened MotionSafety

  // ----- graphs with the same edges -----

  ghost predicate SameGraph(p: seq<BasicBlock>, q: seq<BasicBlock>) {
    && |p| == |q|
    && forall b :: 0 <= b < |p| ==> p[b].successors == q[b].successors && p[b].predecessors == q[b].predecessors
  }

  lemma SamePaths(p: seq<BasicBlock>, q: seq<BasicBlock>)
    requires SameGraph(p, q)
    ensures forall path, a, b :: IsPath(p, path, a, b) == IsPath(q, path, a, b)
  {
    assert forall a, b :: HasEdge(p, a, b) == HasEdge(q, a, b);
  }

  lemma SameDominance(p: seq<BasicBlock>, q: seq<BasicBlock>)
    requires SameGraph(p, q)
    ensures forall d: nat, b: nat :: Dominates(p, d, b) == Dominates(q, d, b)
    ensures forall h: nat, t: nat, b: nat :: InLoop(p, h, t, b) == InLoop(q, h, t, b)
    ensures forall b: nat :: Reached(p, b) == Reached(q, b)
  {
    SamePaths(p, q);
    assert forall r: nat :: IsRoot(p, r) == IsRoot(q, r);
    assert forall a, b, x :: ReachesAvoiding(p, a, b, x) == ReachesAvoiding(q, a, b, x);
    assert forall a, b :: Reaches(p, a, b) == Reaches(q, a, b);
  }

  // ----- the loops around a block -----

  /** The back edges, as (header, tail), whose loops contain `b`. */
  ghost function Around(blocks: seq<BasicBlock>, b: nat): set<(nat, nat)> {
    set h, t | h in BlockSet(|blocks|) && t in BlockSet(|blocks|) && InLoopOf(blocks, h, t, b) :: (h, t)
  }

  ghost predicate InLoopOf(blocks: seq<BasicBlock>, h: nat, t: nat, b: nat) {
    HasEdge(blocks, t, h) && Dominates(blocks, h, t) && InLoop(blocks, h, t, b)
  }

  lemma SameAround(p: seq<BasicBlock>, q: seq<BasicBlock>, b: nat)
    requires SameGraph(p, q)
    ensures Around(p, b) == Around(q, b)
  {
    SameDominance(p, q);
    forall h: nat, t: nat
      ensures InLoopOf(p, h, t, b) == InLoopOf(q, h, t, b)
    {
    }
  }

  /** Control that leaves `p` only for `h` and gets to `b` avoiding `x` gets there from `h`. */
  lemma ThroughOnlySuccessor(blocks: seq<BasicBlock>, p: nat, h: nat, b: nat, x: nat)
    requires EdgesMatch(blocks) && p < |blocks| && blocks[p].successors == [Block(h)]
    requires ReachesAvoiding(blocks, p, b, x) && p != b
    ensures ReachesAvoiding(blocks, h, b, x)
  {
    var path :| IsPath(blocks, path, p, b) && x !in path;
    PathTail(blocks, path, p, b);
    assert path[1] == h && IsPath(blocks, path[1..], h, b);
    assert forall y :: y in path[1..] ==> y in path;
  }

  /** From the last visit of a block on a path on, the path avoids it. */
  lemma {:induction false} AfterLastVisit(blocks: seq<BasicBlock>, path: seq<nat>, a: nat, b: nat,
        x: nat) returns (t: nat)
    requires IsPath(blocks, path, a, b) && x in path && b != x
    ensures HasEdge(blocks, x, t) && ReachesAvoiding(blocks, t, b, x)
    decreases |path|
  {
    assert |path| > 1;
    PathTail(blocks, path, a, b);
    if x in path[1..] {
      t := AfterLastVisit(blocks, path[1..], path[1], b, x);
    } else {
      t := path[1];
      assert path[0] == x;
    }
  }

  /** Every block is reached from block 0 or a block without predecessors. */
  ghost predicate AllReached(blocks: seq<BasicBlock>) {
    forall b: nat :: b < |blocks| ==> Reached(blocks, b)
  }

  /** Every loop around the preheader is around the header. */
  lemma LoopAroundPreheader(blocks: seq<BasicBlock>, p: nat, h: nat, h': nat, t': nat)
    requires EdgesMatch(blocks) && p < |blocks| && blocks[p].successors == [Block(h)]
    requires Reached(blocks, t') && InLoopOf(blocks, h', t', p)
    ensures InLoop(blocks, h', t', h)
  {
    if h != h' && p != h' && p != t' {
      ThroughOnlySuccessor(blocks, p, h, t', h');
    } else if h != h' && p == h' && t' != h' {
      var r: nat :| IsRoot(blocks, r) && Reaches(blocks, r, t');
      var path :| IsPath(blocks, path, r, t');
      var t := AfterLastVisit(blocks, path, r, t', h');
    }
  }

  lemma HeaderDeeper(blocks: seq<BasicBlock>, e: BackEdge, p: nat)
    requires EdgesMatch(blocks) && IsBackEdge(blocks, e) && p < |blocks|
    requires blocks[p].successors == [Block(e.header)] && p !in e.members
    requires AllReached(blocks)
    ensures |Around(blocks, p)| < |Around(blocks, e.header)|
  {
    forall h: nat, t: nat | InLoopOf(blocks, h, t, p)
      ensures InLoopOf(blocks, h, t, e.header)
    {
      LoopAroundPreheader(blocks, p, e.header, h, t);
    }
    assert (e.header, e.tail) in Around(blocks, e.header) && (e.header, e.tail) !in Around(blocks, p);
    SmallerSet(Around(blocks, p), Around(blocks, e.header));
  }

  // ----- the measure -----

  /** Each instruction weighs as much as there are loops around it. */
  function Weight(depths: seq<nat>, code: Code): nat
    requires |depths| == |code|
  {
    if code == [] then 0 else |code[0]| * depths[0] + Weight(depths[1..], code[1..])
  }

  lemma {:induction false} WeightUpdate(depths: seq<nat>, code: Code, b: nat, instrs: seq<Instr>)
    requires |depths| == |code| && b < |code|
    ensures Weight(depths, code[b := instrs]) + |code[b]| * depths[b] == Weight(depths, code) + |instrs| * depths[b]
  {
    if b == 0 {
      assert code[b := instrs][1..] == code[1..];
    } else {
      assert code[b := instrs][1..] == code[1..][b - 1 := instrs];
      WeightUpdate(depths[1..], code[1..], b - 1, instrs);
    }
  }

  lemma Lighter(was: nat, half: nat, now: nat, a: nat, b: nat, m: nat, shallow: nat, deep: nat)
    requires m > 0 && shallow < deep
    requires half + (a + m) * deep == was + a * deep
    requires now + b * shallow == half + (b + m) * shallow
    ensures now < was
  {
    assert (a + m) * deep == a * deep + m * deep;
    assert (b + m) * shallow == b * shallow + m * shallow;
    assert m * deep > m * shallow;
  }

  /** Moving `m` instructions from a deep block to a shallow one lowers the weight. */
  lemma MovingLightens(depths: seq<nat>, code: Code, h: nat, p: nat, left: seq<Instr>, more: seq<Instr>, m: nat)
    requires |depths| == |code| && h < |code| && p < |code| && h != p && depths[p] < depths[h] && m > 0
    requires |code[h]| == |left| + m && |more| == |code[p]| + m
    ensures Weight(depths, code[h := left][p := more]) < Weight(depths, code)
  {
    hide Weight;
    var half := code[h := left];
    WeightUpdate(depths, code, h, left);
    WeightUpdate(depths, half, p, more);
    Lighter(Weight(depths, code), Weight(depths, half), Weight(depths, half[p := more]),
            |left|, |code[p]|, m, depths[p], depths[h]);
  }

  ghost function Depths(blocks: seq<BasicBlock>): (r: seq<nat>)
    ensures |r| == |blocks|
  {
    seq(|blocks|, b requires 0 <= b < |blocks| => |Around(blocks, b)|)
  }

  /** A move strictly lowers the weight when every block is reached. */
  lemma MoveLightens(blocks: seq<BasicBlock>, lim: Limits, mv: Move)
    requires EdgesMatch(blocks) && AllReached(blocks) && IsMove(blocks, lim, mv)
    ensures Weight(Depths(blocks), CodeOf(AfterMove(blocks, lim, mv))) < Weight(Depths(blocks), CodeOf(blocks))
  {
    var code, e, p, hoisted := CodeOf(blocks), mv.edge, mv.preheader, mv.hoist.hoisted;
    MoveFacts(blocks, lim, mv);
    HeaderDeeper(blocks, e, p);
    ReachedMove(blocks, lim, mv);
    var left := Keeps(lim, mv.info, code[e.header], {});
    SplitMembers(lim, mv.info, code[e.header], {});
    MovingLightens(Depths(blocks), code, e.header, p, left, Inserted(code[p], hoisted), |hoisted|);
    hide EdgesMatch, IsBackEdge, IsInfo, HoistUpTo, Keeps, Picks, Weight, Around, Reached;
  }

  lemma SameDepths(p: seq<BasicBlock>, q: seq<BasicBlock>)
    requires SameGraph(p, q)
    ensures Depths(p) == Depths(q)
  {
    forall b | 0 <= b < |p|
      ensures Depths(p)[b] == Depths(q)[b]
    {
      SameAround(p, q, b);
    }
  }

  /** The same graph is as deep, as matched and as reached. */
  lemma SameGraphKeeps(p: seq<BasicBlock>, q: seq<BasicBlock>)
    requires SameGraph(p, q) && EdgesMatch(p) && AllReached(p)
    ensures EdgesMatch(q) && AllReached(q) && Depths(q) == Depths(p)
  {
    SameDominance(p, q);
    SameDepths(p, q);
    hide Reached, Dominates, Depths;
  }
}
