/** Natural loops of back edges, and where they can be entered. */
module Loops {
  import opened ControlFlow
  import opened Paths
  import opened Worklists
  import opened Dominators

  /** The header, and every block that reaches the tail without passing the header. */
  ghost predicate InLoop(blocks: seq<BasicBlock>, header: nat, tail: nat, b: nat) {
    b == header || ReachesAvoiding(blocks, b, tail, header)
  }

  ghost predicate ReachesAvoiding(blocks: seq<BasicBlock>, a: nat, b: nat, x: nat) {
    exists path :: IsPath(blocks, path, a, b) && x !in path
  }

  lemma AvoidingSelf(blocks: seq<BasicBlock>, a: nat, x: nat)
    requires a < |blocks| && a != x
    ensures ReachesAvoiding(blocks, a, a, x)
  {
    PathSelf(blocks, a);
    assert x !in [a];
  }

  lemma PathCons(blocks: seq<BasicBlock>, p: nat, path: seq<nat>, a: nat, b: nat)
    requires IsPath(blocks, path, a, b) && HasEdge(blocks, p, a)
    ensures IsPath(blocks, [p] + path, p, b)
  {
    var longer := [p] + path;
    forall k | 0 < k < |longer|
      ensures HasEdge(blocks, longer[k - 1], longer[k])
    {
      if k > 1 {
        assert HasEdge(blocks, path[k - 2], path[k - 1]);
      }
    }
  }

  lemma AvoidingCons(blocks: seq<BasicBlock>, p: nat, a: nat, b: nat, x: nat)
    requires ReachesAvoiding(blocks, a, b, x) && HasEdge(blocks, p, a) && p != x
    ensures ReachesAvoiding(blocks, p, b, x)
  {
    var path :| IsPath(blocks, path, a, b) && x !in path;
    PathCons(blocks, p, path, a, b);
    assert x !in [p] + path;
  }

  lemma PathAppend(blocks: seq<BasicBlock>, p: seq<nat>, q: seq<nat>, a: nat, b: nat, c: nat)
    requires IsPath(blocks, p, a, b) && IsPath(blocks, q, b, c)
    ensures IsPath(blocks, p + q[1..], a, c)
  {
    var r := p + q[1..];
    forall k | 0 < k < |r|
      ensures HasEdge(blocks, r[k - 1], r[k])
    {
      if k >= |p| {
        assert r[k] == q[k - |p| + 1] && r[k - 1] == q[k - |p|];
      }
    }
    forall k | 0 <= k < |r|
      ensures r[k] < |blocks|
    {
      if k >= |p| {
        assert r[k] == q[k - |p| + 1];
      }
    }
  }

  /** Every predecessor of an explored member is a member. */
  ghost predicate BackClosed(blocks: seq<BasicBlock>, members: set<nat>, header: nat, open: seq<nat>) {
    forall a: nat, b: nat :: b in members && b != header && b !in open && HasEdge(blocks, a, b) ==> a in members
  }

  ghost predicate AllInLoop(blocks: seq<BasicBlock>, header: nat, tail: nat, members: set<nat>) {
    forall b :: b in members ==> b < |blocks| && InLoop(blocks, header, tail, b)
  }

  /** Insert and queue the predecessors of `blockId`. */
  method VisitPredecessors(blocks: seq<BasicBlock>, header: nat, tail: nat, blockId: nat, members: set<nat>,
        worklist: seq<nat>)
    returns (members': set<nat>, worklist': seq<nat>)
    requires EdgesMatch(blocks) && blockId in members && blockId != header && AllInLoop(blocks, header, tail, members)
    requires BackClosed(blocks, members, header, [blockId] + worklist) && (forall b :: b in worklist ==> b in members)
    ensures members <= members' && AllInLoop(blocks, header, tail, members')
    ensures BackClosed(blocks, members', header, worklist') && (forall b :: b in worklist' ==> b in members')
    ensures members' == members ==> worklist' == worklist
  {
    members', worklist' := members, worklist;
    var preds := blocks[blockId].predecessors;
    for k := 0 to |preds|
      invariant members <= members' && AllInLoop(blocks, header, tail, members')
      invariant Ids(preds[..k]) <= members'
      invariant BackClosed(blocks, members', header, [blockId] + worklist')
        && (forall b :: b in worklist' ==> b in members')
      invariant members' == members ==> worklist' == worklist
    {
      IdsSnoc(preds, k);
      if preds[k].Block? && preds[k].id !in members' {
        var id := preds[k].id;
        PredecessorEdge(blocks, id, blockId);
        if id != header {
          AvoidingCons(blocks, id, blockId, tail, header);
        }
        members' := members' + {id};
        worklist' := worklist' + [id];
      }
    }
    assert preds[..|preds|] == preds;
    forall a: nat | HasEdge(blocks, a, blockId)
      ensures a in members'
    {
      PredecessorEdge(blocks, a, blockId);
    }
  }

  lemma {:induction false} BackClosedReaches(blocks: seq<BasicBlock>, members: set<nat>, header: nat, tail: nat,
        path: seq<nat>, b: nat)
    requires BackClosed(blocks, members, header, []) && tail in members
    requires IsPath(blocks, path, b, tail) && header !in path
    ensures b in members
    decreases |path|
  {
    if |path| > 1 {
      PathTail(blocks, path, b, tail);
      BackClosedReaches(blocks, members, header, tail, path[1..], path[1]);
      assert path[1] in path;
    }
  }

  /** `natural_loop_blocks` computes exactly the natural loop. */
  method NaturalLoopBlocks(blocks: seq<BasicBlock>, header: nat, tail: nat) returns (members: set<nat>)
    requires EdgesMatch(blocks) && header < |blocks| && tail < |blocks|
    ensures forall b :: b in members <==> InLoop(blocks, header, tail, b)
  {
    members := {header, tail};
    var worklist := [tail];
    if tail != header {
      AvoidingSelf(blocks, tail, header);
    }
    while worklist != []
      invariant header in members && tail in members
      invariant AllInLoop(blocks, header, tail, members) && members <= BlockSet(|blocks|)
      invariant BackClosed(blocks, members, header, worklist) && (forall b :: b in worklist ==> b in members)
      decreases BlockSet(|blocks|) - members, |worklist|
    {
      var blockId := worklist[0];
      assert worklist == [blockId] + worklist[1..];
      ghost var before := members;
      if blockId == header {
        worklist := worklist[1..];
      } else {
        members, worklist := VisitPredecessors(blocks, header, tail, blockId, members, worklist[1..]);
        assert members != before ==> BlockSet(|blocks|) - members < BlockSet(|blocks|) - before;
      }
    }
    forall b | InLoop(blocks, header, tail, b)
      ensures b in members
    {
      if b != header {
        var path :| IsPath(blocks, path, b, tail) && header !in path;
        BackClosedReaches(blocks, members, header, tail, path, b);
      }
    }
  }

  // ----- what dominance makes of a loop -----

  ghost predicate Reached(blocks: seq<BasicBlock>, b: nat) {
    exists r: nat :: IsRoot(blocks, r) && Reaches(blocks, r, b)
  }

  /** An edge from outside into a natural loop goes to its header. */
  lemma EnteredAtHeader(blocks: seq<BasicBlock>, header: nat, tail: nat, a: nat, b: nat)
    requires InLoop(blocks, header, tail, b) && HasEdge(blocks, a, b) && !InLoop(blocks, header, tail, a)
    ensures b == header
  {
    if b != header {
      AvoidingCons(blocks, a, b, tail, header);
    }
  }

  /** The header of a back edge dominates its whole loop. */
  lemma HeaderDominatesLoop(blocks: seq<BasicBlock>, header: nat, tail: nat, b: nat)
    requires Dominates(blocks, header, tail) && InLoop(blocks, header, tail, b)
    ensures Dominates(blocks, header, b)
  {
    forall r: nat, path | IsRoot(blocks, r) && IsPath(blocks, path, r, b)
      ensures header in path
    {
      if b == header {
        assert path[|path| - 1] == b;
      } else {
        var on :| IsPath(blocks, on, b, tail) && header !in on;
        PathAppend(blocks, path, on, r, b, tail);
        assert header in path + on[1..];
        assert forall x :: x in on[1..] ==> x in on;
      }
    }
  }

  /** Of two blocks that dominate each other, neither is reached, or they are the same. */
  lemma {:induction false} MutualDominance(blocks: seq<BasicBlock>, a: nat, b: nat, r: nat, path: seq<nat>)
    requires Dominates(blocks, a, b) && Dominates(blocks, b, a) && IsRoot(blocks, r) && IsPath(blocks, path, r, b)
    ensures a == b
    decreases |path|
  {
    if a != b {
      assert a in path;
      var k :| 0 <= k < |path| && path[k] == a;
      var short := path[..k + 1];
      assert IsPath(blocks, short, r, a);
      assert k + 1 < |path|;
      MutualDominance(blocks, b, a, r, short);
    }
  }

  /** In a loop that runs can reach, only the header dominates every block of the loop. */
  lemma OnlyHeaderDominatesLoop(blocks: seq<BasicBlock>, header: nat, tail: nat, b: nat)
    requires Dominates(blocks, header, tail) && Reached(blocks, header)
    requires InLoop(blocks, header, tail, b)
    ensures (forall x :: InLoop(blocks, header, tail, x) ==> Dominates(blocks, b, x)) <==> b == header
  {
    if b == header {
      forall x | InLoop(blocks, header, tail, x)
        ensures Dominates(blocks, b, x)
      {
        HeaderDominatesLoop(blocks, header, tail, x);
      }
    } else if forall x :: InLoop(blocks, header, tail, x) ==> Dominates(blocks, b, x) {
      HeaderDominatesLoop(blocks, header, tail, b);
      var r: nat :| IsRoot(blocks, r) && Reaches(blocks, r, header);
      var path :| IsPath(blocks, path, r, header);
      assert Dominates(blocks, b, header);
      MutualDominance(blocks, b, header, r, path);
    }
  }
}
