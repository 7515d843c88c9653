/** Paths in a control-flow graph. */
module Paths {
  import opened ControlFlow

  /** All block numbers below `n`. */
  function BlockSet(n: nat): (all: set<nat>)
    ensures forall b: nat :: b in all <==> b < n
  {
    if n == 0 then {} else BlockSet(n - 1) + {n - 1}
  }

  predicate HasEdge(blocks: seq<BasicBlock>, a: nat, b: nat) {
    a < |blocks| && b < |blocks| && Block(b) in blocks[a].successors
  }

  /** A walk along edges from `a` to `b`. */
  ghost predicate IsPath(blocks: seq<BasicBlock>, path: seq<nat>, a: nat, b: nat) {
    && path != [] && path[0] == a && path[|path| - 1] == b
    && (forall k :: 0 <= k < |path| ==> path[k] < |blocks|)
    && (forall k :: 0 < k < |path| ==> HasEdge(blocks, path[k - 1], path[k]))
  }

  ghost predicate Reaches(blocks: seq<BasicBlock>, a: nat, b: nat) {
    exists path :: IsPath(blocks, path, a, b)
  }

  lemma PathSelf(blocks: seq<BasicBlock>, a: nat)
    requires a < |blocks|
    ensures IsPath(blocks, [a], a, a) && Reaches(blocks, a, a)
  {
    assert IsPath(blocks, [a], a, a);
  }

  lemma PathSnoc(blocks: seq<BasicBlock>, path: seq<nat>, a: nat, b: nat, t: nat)
    requires IsPath(blocks, path, a, b) && HasEdge(blocks, b, t)
    ensures IsPath(blocks, path + [t], a, t)
  {
  }

  lemma PathInit(blocks: seq<BasicBlock>, path: seq<nat>, a: nat, b: nat)
    requires IsPath(blocks, path, a, b) && |path| > 1
    ensures IsPath(blocks, path[..|path| - 1], a, path[|path| - 2]) && HasEdge(blocks, path[|path| - 2], b)
    ensures path == path[..|path| - 1] + [b]
  {
  }

  lemma PathTail(blocks: seq<BasicBlock>, path: seq<nat>, a: nat, b: nat)
    requires IsPath(blocks, path, a, b) && |path| > 1
    ensures IsPath(blocks, path[1..], path[1], b) && HasEdge(blocks, a, path[1])
    ensures path == [a] + path[1..]
  {
  }

  lemma ReachesNext(blocks: seq<BasicBlock>, a: nat, b: nat, t: nat)
    requires Reaches(blocks, a, b) && HasEdge(blocks, b, t)
    ensures Reaches(blocks, a, t)
  {
    var path :| IsPath(blocks, path, a, b);
    PathSnoc(blocks, path, a, b, t);
  }

  /** A set that edges do not leave contains everything its members reach. */
  lemma {:induction false} ClosedReaches(blocks: seq<BasicBlock>, closed: set<nat>, path: seq<nat>, a: nat, b: nat)
    requires forall x: nat, y: nat :: x in closed && HasEdge(blocks, x, y) ==> y in closed
    requires a in closed && IsPath(blocks, path, a, b)
    ensures b in closed
    decreases |path|
  {
    if |path| > 1 {
      PathInit(blocks, path, a, b);
      ClosedReaches(blocks, closed, path[..|path| - 1], a, path[|path| - 2]);
    }
  }
}
