/** Dominators, as `compute_dominators` finds them by shrinking sets to a fixpoint. */
module Dominators {
  import opened Tacky
  import opened ControlFlow
  import opened Paths
  import opened Worklists

  /** Runs are assumed to enter at block 0 or at any block without a predecessor block. */
  predicate IsRoot(blocks: seq<BasicBlock>, r: nat) {
    r < |blocks| && (r == 0 || Ids(blocks[r].predecessors) == {})
  }

  /** Every path from a root to `b` contains `d`. */
  ghost predicate Dominates(blocks: seq<BasicBlock>, d: nat, b: nat) {
    forall r: nat, path {:trigger IsPath(blocks, path, r, b)} ::
      IsRoot(blocks, r) && IsPath(blocks, path, r, b) ==> d in path
  }

  type DomSets = seq<set<nat>>

  ghost predicate AllContain(dom: DomSets, preds: set<nat>, d: nat) {
    forall p :: p in preds && p < |dom| ==> d in dom[p]
  }

  /** The equation of one block: itself, and what all its predecessor blocks share. */
  ghost predicate IsMeet(blocks: seq<BasicBlock>, dom: DomSets, b: nat, doms: set<nat>)
    requires b < |blocks|
  {
    var preds := Ids(blocks[b].predecessors);
    forall d: nat :: d in doms <==> d == b || (preds != {} && AllContain(dom, preds, d))
  }

  ghost predicate InRange(blocks: seq<BasicBlock>, dom: DomSets) {
    |dom| == |blocks| && forall b :: 0 <= b < |dom| ==> dom[b] <= BlockSet(|blocks|)
  }

  /** No set has lost a dominator. */
  ghost predicate KeepsDominators(blocks: seq<BasicBlock>, dom: DomSets) {
    forall d: nat, b: nat :: d < |blocks| && b < |blocks| && b < |dom| && Dominates(blocks, d, b) ==> d in dom[b]
  }

  ghost predicate Asked(blocks: seq<BasicBlock>, dom: DomSets, b: nat, d: nat)
    requires b < |blocks|
  {
    Ids(blocks[b].predecessors) != {} && AllContain(dom, Ids(blocks[b].predecessors), d)
  }

  /** Each set contains what its equation asks for, so the next round only shrinks it. */
  ghost predicate Descending(blocks: seq<BasicBlock>, dom: DomSets) {
    && |dom| == |blocks|
    && (forall b: nat :: b < |dom| ==> b in dom[b])
    && (forall b: nat, d: nat {:trigger d in dom[b]} :: 0 < b < |dom| && Asked(blocks, dom, b, d) ==> d in dom[b])
  }

  /** Every block but block 0, whose set is fixed, satisfies its equation. */
  ghost predicate Stable(blocks: seq<BasicBlock>, dom: DomSets, n: nat) {
    forall b: nat :: 0 < b < n && b < |blocks| ==> b < |dom| && IsMeet(blocks, dom, b, dom[b])
  }

  ghost predicate Searching(blocks: seq<BasicBlock>, dom: DomSets) {
    InRange(blocks, dom) && KeepsDominators(blocks, dom) && Descending(blocks, dom) && (|dom| > 0 ==> dom[0] == {0})
  }

  /** How large the sets still are. */
  function TotalSize(dom: DomSets): nat {
    if dom == [] then 0 else |dom[0]| + TotalSize(dom[1..])
  }

  lemma {:induction false} TotalSizeDrops(dom: DomSets, b: nat, doms: set<nat>)
    requires b < |dom| && doms < dom[b]
    ensures TotalSize(dom[b := doms]) < TotalSize(dom)
  {
    if b == 0 {
      assert dom[b := doms][1..] == dom[1..];
      SmallerSet(doms, dom[0]);
    } else {
      assert dom[b := doms][1..] == dom[1..][b - 1 := doms];
      TotalSizeDrops(dom[1..], b - 1, doms);
    }
  }

  lemma PredecessorEdge(blocks: seq<BasicBlock>, p: nat, b: nat)
    requires EdgesMatch(blocks) && b < |blocks|
    ensures p in Ids(blocks[b].predecessors) <==> HasEdge(blocks, p, b)
  {
    InIds(blocks[b].predecessors, p);
  }

  /** A dominator of a block dominates its predecessors, unless it is the block itself. */
  lemma DominatesPredecessor(blocks: seq<BasicBlock>, d: nat, p: nat, b: nat)
    requires Dominates(blocks, d, b) && HasEdge(blocks, p, b) && d != b
    ensures Dominates(blocks, d, p)
  {
    forall r: nat, path | IsRoot(blocks, r) && IsPath(blocks, path, r, p)
      ensures d in path
    {
      PathSnoc(blocks, path, r, p, b);
      assert d in path + [b];
    }
  }

  lemma RootDominator(blocks: seq<BasicBlock>, d: nat, r: nat)
    requires IsRoot(blocks, r) && Dominates(blocks, d, r)
    ensures d == r
  {
    PathSelf(blocks, r);
    assert d in [r];
  }

  /** The meet of sets that keep dominators keeps dominators. */
  lemma MeetKeeps(blocks: seq<BasicBlock>, dom: DomSets, b: nat, doms: set<nat>, d: nat)
    requires EdgesMatch(blocks) && Searching(blocks, dom) && b < |blocks| && IsMeet(blocks, dom, b, doms)
    requires d < |blocks| && Dominates(blocks, d, b)
    ensures d in doms
  {
    var preds := Ids(blocks[b].predecessors);
    if d != b {
      if preds == {} {
        RootDominator(blocks, d, b);
      }
      forall p | p in preds && p < |dom|
        ensures d in dom[p]
      {
        PredecessorEdge(blocks, p, b);
        DominatesPredecessor(blocks, d, p, b);
      }
    }
  }

  lemma MeetShrinks(blocks: seq<BasicBlock>, dom: DomSets, b: nat, doms: set<nat>)
    requires Searching(blocks, dom) && 0 < b < |blocks| && IsMeet(blocks, dom, b, doms)
    ensures doms <= dom[b]
  {
    forall d | d in doms
      ensures d in dom[b]
    {
    }
  }

  lemma AllContainShrinks(dom: DomSets, b: nat, doms: set<nat>, preds: set<nat>, d: nat)
    requires b < |dom| && doms <= dom[b] && AllContain(dom[b := doms], preds, d)
    ensures AllContain(dom, preds, d)
  {
    forall p | p in preds && p < |dom|
      ensures d in dom[p]
    {
      assert d in dom[b := doms][p];
    }
  }

  /** Replacing a set by its meet keeps the search going. */
  lemma MeetStep(blocks: seq<BasicBlock>, dom: DomSets, b: nat, doms: set<nat>)
    requires EdgesMatch(blocks) && Searching(blocks, dom) && 0 < b < |blocks| && IsMeet(blocks, dom, b, doms)
    ensures doms <= dom[b] && Searching(blocks, dom[b := doms])
  {
    MeetShrinks(blocks, dom, b, doms);
    var next := dom[b := doms];
    forall d: nat, a: nat | d < |blocks| && a < |blocks| && Dominates(blocks, d, a)
      ensures d in next[a]
    {
      if a == b {
        MeetKeeps(blocks, dom, b, doms, d);
      }
    }
    forall a: nat, d: nat | 0 < a < |next| && Asked(blocks, next, a, d)
      ensures d in next[a]
    {
      AllContainShrinks(dom, b, doms, Ids(blocks[a].predecessors), d);
    }
  }

  /** The predecessor block with the smallest set, the first of several. */
  method BestPredecessor(dom: DomSets, preds: seq<NodeId>) returns (best: Option<nat>)
    requires forall p :: p in Ids(preds) ==> p < |dom|
    ensures best.None? <==> Ids(preds) == {}
    ensures best.Some? ==> best.value in Ids(preds) && forall p :: p in Ids(preds) ==> |dom[best.value]| <= |dom[p]|
  {
    best := None;
    for k := 0 to |preds|
      invariant best.None? <==> Ids(preds[..k]) == {}
      invariant best.Some? ==> best.value in Ids(preds[..k]) && best.value in Ids(preds)
      invariant best.Some? ==> forall p :: p in Ids(preds[..k]) ==> p < |dom| && |dom[best.value]| <= |dom[p]|
    {
      IdsSnoc(preds, k);
      if preds[k].Block? {
        var id := preds[k].id;
        if best.None? || |dom[id]| < |dom[best.value]| {
          best := Some(id);
        }
      }
    }
    assert preds[..|preds|] == preds;
  }

  /** What all predecessor blocks share, starting from the smallest set. */
  method Intersect(dom: DomSets, preds: seq<NodeId>, seed: nat) returns (shared: set<nat>)
    requires forall p :: p in Ids(preds) ==> p < |dom|
    requires seed in Ids(preds)
    ensures forall d :: d in shared <==> AllContain(dom, Ids(preds), d)
  {
    shared := dom[seed];
    for k := 0 to |preds|
      invariant forall d :: d in shared <==> d in dom[seed] && AllContain(dom, Ids(preds[..k]), d)
    {
      IdsSnoc(preds, k);
      if preds[k].Block? && preds[k].id != seed {
        shared := set d | d in shared && d in dom[preds[k].id];
      }
    }
    assert preds[..|preds|] == preds;
  }

  /** The new set of one block. */
  method MeetPredecessors(blocks: seq<BasicBlock>, dom: DomSets, b: nat) returns (doms: set<nat>)
    requires EdgesMatch(blocks) && |dom| == |blocks| && b < |blocks|
    ensures IsMeet(blocks, dom, b, doms)
  {
    var preds := blocks[b].predecessors;
    forall p | p in Ids(preds)
      ensures p < |dom|
    {
      InIds(preds, p);
    }
    var best := BestPredecessor(dom, preds);
    if best.Some? {
      doms := Intersect(dom, preds, best.value);
    } else {
      doms := {};
    }
    doms := doms + {b};
  }

  /** One sweep over all blocks. */
  method Sweep(blocks: seq<BasicBlock>, dom: DomSets) returns (dom': DomSets, changed: bool)
    requires EdgesMatch(blocks) && Searching(blocks, dom) && |blocks| > 0
    ensures Searching(blocks, dom')
    ensures if changed then TotalSize(dom') < TotalSize(dom) else dom' == dom && Stable(blocks, dom, |blocks|)
  {
    hide Searching, IsMeet, EdgesMatch;
    dom', changed := dom, false;
    SearchingSize(blocks, dom);
    for b := 1 to |blocks|
      invariant Searching(blocks, dom') && |dom'| == |blocks|
      invariant if changed then TotalSize(dom') < TotalSize(dom) else dom' == dom && Stable(blocks, dom, b)
    {
      var doms := MeetPredecessors(blocks, dom', b);
      MeetStep(blocks, dom', b, doms);
      if doms != dom'[b] {
        TotalSizeDrops(dom', b, doms);
        dom' := dom'[b := doms];
        changed := true;
      }
    }
  }

  lemma SearchingSize(blocks: seq<BasicBlock>, dom: DomSets)
    requires Searching(blocks, dom)
    ensures |dom| == |blocks|
  {
  }

  /** Along any path from a root, a settled set contains only blocks of the path. */
  lemma {:induction false} SettledExact(blocks: seq<BasicBlock>, dom: DomSets, d: nat, b: nat, r: nat, path: seq<nat>)
    requires EdgesMatch(blocks) && Searching(blocks, dom) && Stable(blocks, dom, |blocks|)
    requires IsRoot(blocks, r) && IsPath(blocks, path, r, b) && d in dom[b]
    ensures d in path
    decreases |path|
  {
    if b == 0 || d == b {
      assert path[|path| - 1] == b;
    } else {
      assert IsMeet(blocks, dom, b, dom[b]);
      if |path| > 1 {
        PathInit(blocks, path, r, b);
        var p := path[|path| - 2];
        PredecessorEdge(blocks, p, b);
        SettledExact(blocks, dom, d, p, r, path[..|path| - 1]);
      }
    }
  }

  /** `compute_dominators`: it terminates, and the sets are exactly the dominators. */
  method ComputeDominators(blocks: seq<BasicBlock>) returns (dom: DomSets)
    requires EdgesMatch(blocks)
    ensures |dom| == |blocks|
    ensures forall d: nat, b: nat :: b < |blocks| ==> (d in dom[b] <==> d < |blocks| && Dominates(blocks, d, b))
  {
    hide Searching, Stable, EdgesMatch;
    var all := BlockSet(|blocks|);
    dom := seq(|blocks|, b => all);
    if |blocks| == 0 {
      return;
    }
    dom := dom[0 := {0}];
    StartSearching(blocks, dom);
    while true
      invariant Searching(blocks, dom)
      decreases TotalSize(dom)
    {
      var changed;
      dom, changed := Sweep(blocks, dom);
      if !changed {
        break;
      }
    }
    SettledDominators(blocks, dom);
  }

  lemma StartSearching(blocks: seq<BasicBlock>, dom: DomSets)
    requires |blocks| > 0 && |dom| == |blocks| && dom[0] == {0}
    requires forall b :: 0 < b < |dom| ==> dom[b] == BlockSet(|blocks|)
    requires EdgesMatch(blocks)
    ensures Searching(blocks, dom)
  {
    forall d: nat | Dominates(blocks, d, 0)
      ensures d == 0
    {
      RootDominator(blocks, d, 0);
    }
    forall b: nat, d: nat | 0 < b < |dom| && Asked(blocks, dom, b, d)
      ensures d in dom[b]
    {
      var p :| p in Ids(blocks[b].predecessors);
      PredecessorEdge(blocks, p, b);
      assert d in dom[p];
    }
  }

  lemma SettledDominators(blocks: seq<BasicBlock>, dom: DomSets)
    requires EdgesMatch(blocks) && Searching(blocks, dom) && Stable(blocks, dom, |blocks|)
    ensures |dom| == |blocks|
    ensures forall d: nat, b: nat :: b < |blocks| ==> (d in dom[b] <==> d < |blocks| && Dominates(blocks, d, b))
  {
    forall d: nat, b: nat | b < |blocks|
      ensures d in dom[b] <==> d < |blocks| && Dominates(blocks, d, b)
    {
      if d in dom[b] {
        forall r: nat, path | IsRoot(blocks, r) && IsPath(blocks, path, r, b)
          ensures d in path
        {
          SettledExact(blocks, dom, d, b, r, path);
        }
      }
    }
  }
}
