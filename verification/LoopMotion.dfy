/** Loop-invariant code motion: back edges, preheaders, one hoist at a time. */
module LoopMotion {
  import opened Tacky
  import opened Semantics
  import opened ControlFlow
  import opened Paths
  import opened Dominators
  import opened Loops
  import opened HoistingRuns
  import opened Hoisting

  datatype BackEdge = BackEdge(header: nat, tail: nat, members: set<nat>)

  /** An edge to a dominator of its source, with its natural loop. */
  ghost predicate IsBackEdge(blocks: seq<BasicBlock>, e: BackEdge) {
    && HasEdge(blocks, e.tail, e.header) && Dominates(blocks, e.header, e.tail)
    && forall b :: b in e.members <==> InLoop(blocks, e.header, e.tail, b)
  }

  // ----- preheaders -----

  /** The predecessor blocks outside the loop, as often as they are listed. */
  function Outside(preds: seq<NodeId>, members: set<nat>): seq<nat> {
    if preds == [] then []
    else (if preds[0].Block? && preds[0].id !in members then [preds[0].id] else []) + Outside(preds[1..], members)
  }

  predicate IsPreheader(blocks: seq<BasicBlock>, header: nat, members: set<nat>, p: nat) {
    && header < |blocks| && p < |blocks|
    && Outside(blocks[header].predecessors, members) == [p]
    && blocks[p].successors == [Block(header)]
  }

  lemma {:induction false} OutsideSnoc(preds: seq<NodeId>, node: NodeId, members: set<nat>)
    ensures Outside(preds + [node], members)
         == Outside(preds, members) + if node.Block? && node.id !in members then [node.id] else []
  {
    if preds == [] {
      assert preds + [node] == [node];
    } else {
      assert (preds + [node])[1..] == preds[1..] + [node];
      OutsideSnoc(preds[1..], node, members);
    }
  }

  lemma {:induction false} OutsideMembers(preds: seq<NodeId>, members: set<nat>, p: nat)
    ensures p in Outside(preds, members) <==> Block(p) in preds && p !in members
  {
    if preds != [] {
      OutsideMembers(preds[1..], members, p);
    }
  }

  lemma {:induction false} OutsideMore(preds: seq<NodeId>, k: nat, members: set<nat>)
    requires k <= |preds|
    ensures |Outside(preds[..k], members)| <= |Outside(preds, members)|
    decreases |preds|
  {
    if k > 0 {
      assert preds[..k][1..] == preds[1..][..k - 1];
      OutsideMore(preds[1..], k - 1, members);
    }
  }

  /** `loop_preheader` */
  method LoopPreheader(blocks: seq<BasicBlock>, header: nat, members: set<nat>) returns (r: Option<nat>)
    requires EdgesMatch(blocks) && header < |blocks|
    ensures forall p: nat :: IsPreheader(blocks, header, members, p) <==> r == Some(p)
  {
    var preds := blocks[header].predecessors;
    var preheader: Option<nat> := None;
    for k := 0 to |preds|
      invariant Outside(preds[..k], members) == if preheader.Some? then [preheader.value] else []
    {
      assert preds[..k + 1] == preds[..k] + [preds[k]];
      OutsideSnoc(preds[..k], preds[k], members);
      if preds[k].Block? && preds[k].id !in members {
        if preheader.Some? {
          OutsideMore(preds, k + 1, members);
          return None;
        }
        preheader := Some(preds[k].id);
      }
    }
    assert preds[..|preds|] == preds;
    if preheader.None? {
      return None;
    }
    OutsideMembers(preds, members, preheader.value);
    assert Block(preheader.value) in preds;
    if blocks[preheader.value].successors == [Block(header)] {
      return preheader;
    }
    return None;
  }

  // ----- hoisting out of the chosen blocks of a loop -----

  datatype Hoist = Hoist(kept: Code, hoisted: seq<Instr>, defs: set<Name>)

  /** The scan of the first `n` blocks, which takes candidates out of the chosen ones. */
  function HoistUpTo(lim: Limits, info: LoopInfo, code: Code, chosen: set<nat>, n: nat): (r: Hoist)
    requires n <= |code|
    ensures |r.kept| == n
  {
    if n == 0 then Hoist([], [], {})
    else
      var before := HoistUpTo(lim, info, code, chosen, n - 1);
      if n - 1 !in chosen then before.(kept := before.kept + [code[n - 1]])
      else
        Hoist(before.kept + [Keeps(lim, info, code[n - 1], before.defs)],
              before.hoisted + Picks(lim, info, code[n - 1], before.defs),
              before.defs + Dsts(Picks(lim, info, code[n - 1], before.defs)))
  }

  /** The blocks of the loop that every block of the loop is dominated by. */
  function DominatingAll(members: set<nat>, dom: DomSets): set<nat> {
    set b | b in members && forall x :: x in members && x < |dom| ==> b in dom[x]
  }

  method HoistLoop(lim: Limits, info: LoopInfo, code: Code, members: set<nat>, dom: DomSets) returns (r: Hoist)
    requires |dom| == |code|
    ensures r == HoistUpTo(lim, info, code, DominatingAll(members, dom), |code|)
  {
    r := Hoist([], [], {});
    var chosen := DominatingAll(members, dom);
    for b := 0 to |code|
      invariant r == HoistUpTo(lim, info, code, chosen, b)
    {
      if b !in members || !(forall x :: x in members && x < |dom| ==> b in dom[x]) {
        r := r.(kept := r.kept + [code[b]]);
      } else {
        var kept, defs, hoisted := SplitBlock(lim, info, code[b], r.defs, r.hoisted);
        r := Hoist(r.kept + [kept], hoisted, defs);
      }
    }
  }

  ghost predicate WritesMemory(code: Code, members: set<nat>) {
    exists b, i :: b in members && b < |code| && i in code[b] && IsMemoryWrite(i)
  }

  method LoopWritesMemory(code: Code, members: set<nat>) returns (writes: bool)
    ensures writes <==> WritesMemory(code, members)
  {
    writes := exists b, k :: b in members && b < |code| && 0 <= k < |code[b]| && IsMemoryWrite(code[b][k]);
    if writes {
      var b, k :| b in members && b < |code| && 0 <= k < |code[b]| && IsMemoryWrite(code[b][k]);
      assert code[b][k] in code[b];
    }
    if WritesMemory(code, members) {
      var b, i :| b in members && b < |code| && i in code[b] && IsMemoryWrite(i);
      var k :| 0 <= k < |code[b]| && code[b][k] == i;
    }
  }

  /** What the pass knows about a loop: exact positive counts, and whether it writes memory. */
  ghost predicate IsInfo(code: Code, members: set<nat>, info: LoopInfo) {
    && ExactCounts(code, members, info.counts) && (forall x :: x in info.counts ==> info.counts[x] > 0)
    && info.writesMemory == WritesMemory(code, members)
  }

  lemma InfoUnique(code: Code, members: set<nat>, a: LoopInfo, b: LoopInfo)
    requires IsInfo(code, members, a) && IsInfo(code, members, b)
    ensures a == b
  {
    forall x
      ensures x in a.counts <==> x in b.counts
      ensures x in a.counts ==> a.counts[x] == b.counts[x]
    {
      assert CountOf(a.counts, x) == LoopDefs(code, members, x, |code|) == CountOf(b.counts, x);
    }
    assert a.counts == b.counts;
  }

  // ----- one move -----

  /** A hoist the pass may carry out: a back edge, its preheader, and what it moves. */
  datatype Move = Move(edge: BackEdge, preheader: nat, info: LoopInfo, hoist: Hoist)

  ghost function ChosenBlocks(blocks: seq<BasicBlock>, members: set<nat>): set<nat> {
    set b | b in members && b < |blocks| && forall x :: x in members ==> Dominates(blocks, b, x)
  }

  ghost predicate IsMove(blocks: seq<BasicBlock>, lim: Limits, mv: Move) {
    && IsBackEdge(blocks, mv.edge) && IsPreheader(blocks, mv.edge.header, mv.edge.members, mv.preheader)
    && IsInfo(CodeOf(blocks), mv.edge.members, mv.info)
    && mv.hoist == HoistUpTo(lim, mv.info, CodeOf(blocks), ChosenBlocks(blocks, mv.edge.members), |blocks|)
    && mv.hoist.hoisted != []
  }

  function MovedCode(kept: Code, preheader: nat, hoisted: seq<Instr>): (r: Code)
    requires preheader < |kept|
    ensures |r| == |kept|
  {
    kept[preheader := Inserted(kept[preheader], hoisted)]
  }

  ghost function AfterMove(blocks: seq<BasicBlock>, lim: Limits, mv: Move): seq<BasicBlock>
    requires IsMove(blocks, lim, mv)
  {
    WithCode(blocks, MovedCode(mv.hoist.kept, mv.preheader, mv.hoist.hoisted))
  }

  /** Collect all back edges with their loops. */
  method CollectBackEdges(blocks: seq<BasicBlock>, dom: DomSets) returns (edges: seq<BackEdge>)
    requires EdgesMatch(blocks) && |dom| == |blocks|
    requires forall d: nat, b: nat :: b < |blocks| ==> (d in dom[b] <==> d < |blocks| && Dominates(blocks, d, b))
    ensures forall e :: e in edges ==> IsBackEdge(blocks, e)
    ensures forall e :: IsBackEdge(blocks, e) ==> e in edges
  {
    edges := [];
    for b := 0 to |blocks|
      invariant forall e :: e in edges ==> IsBackEdge(blocks, e)
      invariant forall e :: IsBackEdge(blocks, e) && e.tail < b ==> e in edges
    {
      edges := BackEdgesFrom(blocks, dom, b, edges);
    }
  }

  method BackEdgesFrom(blocks: seq<BasicBlock>, dom: DomSets, b: nat,
        edges: seq<BackEdge>) returns (edges': seq<BackEdge>)
    requires EdgesMatch(blocks) && |dom| == |blocks| && b < |blocks|
    requires forall d: nat, b: nat :: b < |blocks| ==> (d in dom[b] <==> d < |blocks| && Dominates(blocks, d, b))
    requires forall e :: e in edges ==> IsBackEdge(blocks, e)
    ensures forall e :: e in edges' ==> IsBackEdge(blocks, e)
    ensures forall e :: e in edges || (IsBackEdge(blocks, e) && e.tail == b) ==> e in edges'
  {
    edges' := edges;
    var successors := blocks[b].successors;
    for k := 0 to |successors|
      invariant forall e :: e in edges' ==> IsBackEdge(blocks, e)
      invariant forall e ::
        e in edges || (IsBackEdge(blocks, e) && e.tail == b && Block(e.header) in successors[..k]) ==> e in edges'
    {
      assert successors[..k + 1] == successors[..k] + [successors[k]];
      if successors[k].Block? && successors[k].id in dom[b] {
        var header := successors[k].id;
        assert HasEdge(blocks, b, header);
        var members := NaturalLoopBlocks(blocks, header, b);
        var edge := BackEdge(header, b, members);
        SameLoop(blocks, edge);
        edges' := edges' + [edge];
      }
    }
    assert successors[..|successors|] == successors;
  }

  /** A back edge determines its loop. */
  lemma SameLoop(blocks: seq<BasicBlock>, e: BackEdge)
    requires IsBackEdge(blocks, e)
    ensures forall f :: IsBackEdge(blocks, f) && f.header == e.header && f.tail == e.tail ==> f == e
  {
    forall f | IsBackEdge(blocks, f) && f.header == e.header && f.tail == e.tail
      ensures f == e
    {
      assert f.members == e.members;
    }
  }

  predicate SortedBySize(edges: seq<BackEdge>) {
    forall j, k :: 0 <= j < k < |edges| ==> |edges[j].members| <= |edges[k].members|
  }

  lemma InsertedSorted(front: seq<BackEdge>, e: BackEdge, back: seq<BackEdge>)
    requires SortedBySize(front + back)
    requires forall f :: f in front ==> |f.members| <= |e.members|
    requires forall f :: f in back ==> |e.members| <= |f.members|
    ensures SortedBySize(front + [e] + back)
  {
    var r, s := front + [e] + back, front + back;
    forall j, k | 0 <= j < k < |r|
      ensures |r[j].members| <= |r[k].members|
    {
      if j < |front| {
        assert r[j] == s[j] && r[j] in front;
      } else if j > |front| {
        assert r[j] == s[j - 1];
      }
      if k > |front| {
        assert r[k] == s[k - 1] && r[k] in back;
      } else if k < |front| {
        assert r[k] == s[k];
      }
    }
  }

  /** Where `e` belongs in a sorted list. */
  method PlaceFor(sorted: seq<BackEdge>, e: BackEdge) returns (at: nat)
    requires SortedBySize(sorted)
    ensures at <= |sorted| && SortedBySize(sorted[..at] + [e] + sorted[at..])
  {
    at := |sorted|;
    while at > 0 && |sorted[at - 1].members| > |e.members|
      invariant 0 <= at <= |sorted|
      invariant forall j :: at <= j < |sorted| ==> |e.members| <= |sorted[j].members|
    {
      at := at - 1;
    }
    assert sorted[..at] + sorted[at..] == sorted;
    FrontSmaller(sorted, at, e);
    hide SortedBySize;
    InsertedSorted(sorted[..at], e, sorted[at..]);
  }

  lemma FrontSmaller(sorted: seq<BackEdge>, at: nat, e: BackEdge)
    requires SortedBySize(sorted) && at <= |sorted| && (at > 0 ==> |sorted[at - 1].members| <= |e.members|)
    ensures forall f :: f in sorted[..at] ==> |f.members| <= |e.members|
  {
    forall j | 0 <= j < at
      ensures |sorted[j].members| <= |e.members|
    {
    }
  }

  method InsertBySize(sorted: seq<BackEdge>, e: BackEdge) returns (r: seq<BackEdge>)
    requires SortedBySize(sorted)
    ensures SortedBySize(r) && multiset(r) == multiset(sorted) + multiset{e}
  {
    hide SortedBySize;
    var at := PlaceFor(sorted, e);
    assert sorted[..at] + sorted[at..] == sorted;
    r := sorted[..at] + [e] + sorted[at..];
    InsertedMultiset(sorted[..at], e, sorted[at..]);
  }

  lemma InsertedMultiset(front: seq<BackEdge>, e: BackEdge, back: seq<BackEdge>)
    ensures multiset(front + [e] + back) == multiset(front + back) + multiset{e}
  {
    assert multiset(front + [e] + back) == multiset(front) + multiset{e} + multiset(back);
    assert multiset(front + back) == multiset(front) + multiset(back);
  }

  /** `sort_unstable_by_key`: smaller loops first; ties in any order. */
  method SortBySize(edges: seq<BackEdge>) returns (sorted: seq<BackEdge>)
    ensures SortedBySize(sorted) && multiset(sorted) == multiset(edges)
  {
    hide SortedBySize;
    sorted := [];
    EmptySorted();
    for k := 0 to |edges|
      invariant SortedBySize(sorted) && multiset(sorted) == multiset(edges[..k])
    {
      assert edges[..k + 1] == edges[..k] + [edges[k]];
      sorted := InsertBySize(sorted, edges[k]);
    }
    assert edges[..|edges|] == edges;
  }

  lemma EmptySorted()
    ensures SortedBySize([])
  {
  }

  /** The dominator sets answer every dominance question. */
  ghost predicate ExactDominators(blocks: seq<BasicBlock>, dom: DomSets) {
    && |dom| == |blocks|
    && forall d: nat, b: nat :: b < |blocks| ==> (d in dom[b] <==> d < |blocks| && Dominates(blocks, d, b))
  }

  lemma LoopInRange(blocks: seq<BasicBlock>, e: BackEdge, b: nat)
    requires IsBackEdge(blocks, e) && b in e.members
    ensures b < |blocks|
  {
  }

  lemma DominatingAllChosen(blocks: seq<BasicBlock>, dom: DomSets, e: BackEdge)
    requires ExactDominators(blocks, dom) && IsBackEdge(blocks, e)
    ensures DominatingAll(e.members, dom) == ChosenBlocks(blocks, e.members)
  {
    forall b
      ensures b in DominatingAll(e.members, dom) <==> b in ChosenBlocks(blocks, e.members)
    {
      forall x | x in e.members
        ensures x < |dom|
      {
        LoopInRange(blocks, e, x);
      }
      if b in e.members {
        LoopInRange(blocks, e, b);
      }
    }
  }

  /** The body of the loop in `licm_once`, for one back edge. */
  method TryLoop(blocks: seq<BasicBlock>, lim: Limits, dom: DomSets, e: BackEdge) returns (mv: Option<Move>)
    requires EdgesMatch(blocks) && ExactDominators(blocks, dom) && IsBackEdge(blocks, e)
    ensures mv.Some? ==> IsMove(blocks, lim, mv.value) && mv.value.edge == e
    ensures mv.None? ==> forall m :: IsMove(blocks, lim, m) ==> m.edge != e
  {
    hide ExactCounts, HoistUpTo, DominatingAll, Outside, ChosenBlocks, WritesMemory, Dominates, InLoop;
    var code := CodeOf(blocks);
    var preheader := LoopPreheader(blocks, e.header, e.members);
    if preheader.None? {
      return None;
    }
    var counts := CollectLoopDefCounts(code, e.members);
    var writes := LoopWritesMemory(code, e.members);
    var info := LoopInfo(counts, writes);
    var hoist := HoistLoop(lim, info, code, e.members, dom);
    DominatingAllChosen(blocks, dom, e);
    if hoist.hoisted == [] {
      forall m | IsMove(blocks, lim, m) && m.edge == e
        ensures false
      {
        InfoUnique(code, e.members, m.info, info);
      }
      return None;
    }
    return Some(Move(e, preheader.value, info, hoist));
  }

  /** A move out of a smallest loop there is a move for. */
  ghost predicate FirstMove(blocks: seq<BasicBlock>, lim: Limits, mv: Move) {
    IsMove(blocks, lim, mv) && forall m :: IsMove(blocks, lim, m) ==> |mv.edge.members| <= |m.edge.members|
  }

  lemma FirstInOrder(blocks: seq<BasicBlock>, lim: Limits, edges: seq<BackEdge>, k: nat, mv: Move)
    requires SortedBySize(edges) && k < |edges| && IsMove(blocks, lim, mv) && mv.edge == edges[k]
    requires forall e :: IsBackEdge(blocks, e) ==> e in edges
    requires forall m :: IsMove(blocks, lim, m) ==> m.edge !in edges[..k]
    ensures FirstMove(blocks, lim, mv)
  {
    forall m | IsMove(blocks, lim, m)
      ensures |mv.edge.members| <= |m.edge.members|
    {
      MoveEdge(blocks, lim, m);
      assert edges == edges[..k] + edges[k..];
      var j :| 0 <= j < |edges[k..]| && edges[k..][j] == m.edge;
      assert edges[k + j] == m.edge;
    }
  }

  /** `licm_once`: carries out one move, out of a loop as small as possible, unless there is none. */
  method LicmOnce(cfg: Cfg, lim: Limits) returns (changed: bool)
    requires EdgesMatch(cfg.blocks)
    modifies cfg
    ensures changed ==> exists mv ::
      FirstMove(old(cfg.blocks), lim, mv) && cfg.blocks == AfterMove(old(cfg.blocks), lim, mv)
    ensures !changed ==> cfg.blocks == old(cfg.blocks) && forall mv :: !IsMove(cfg.blocks, lim, mv)
  {
    hide IsMove, IsBackEdge, EdgesMatch, SortedBySize, Dominates, FirstMove;
    var dom := ComputeDominators(cfg.blocks);
    var collected := CollectBackEdges(cfg.blocks, dom);
    var edges := SortBySize(collected);
    assert forall e :: e in edges <==> e in multiset(edges);
    assert forall e :: e in collected <==> e in multiset(collected);
    for k := 0 to |edges|
      invariant cfg.blocks == old(cfg.blocks)
      invariant forall mv :: IsMove(cfg.blocks, lim, mv) ==> mv.edge !in edges[..k]
    {
      assert edges[k] in edges && edges[..k + 1] == edges[..k] + [edges[k]];
      var move := TryLoop(cfg.blocks, lim, dom, edges[k]);
      if move.Some? {
        MoveInRange(cfg.blocks, lim, move.value);
        FirstInOrder(cfg.blocks, lim, edges, k, move.value);
        cfg.blocks := WithCode(cfg.blocks,
          MovedCode(move.value.hoist.kept, move.value.preheader, move.value.hoist.hoisted));
        return true;
      }
    }
    assert edges[..|edges|] == edges;
    forall mv | IsMove(cfg.blocks, lim, mv)
      ensures mv.edge in edges
    {
      MoveEdge(cfg.blocks, lim, mv);
    }
    return false;
  }

  lemma MoveInRange(blocks: seq<BasicBlock>, lim: Limits, mv: Move)
    requires IsMove(blocks, lim, mv)
    ensures mv.preheader < |blocks| == |mv.hoist.kept|
  {
  }

  lemma MoveEdge(blocks: seq<BasicBlock>, lim: Limits, mv: Move)
    requires IsMove(blocks, lim, mv)
    ensures IsBackEdge(blocks, mv.edge)
  {
  }
}
