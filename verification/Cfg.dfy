/** The control-flow graph: partition into basic blocks, edges, and the facts about
    runs that every pass rests on. */
module ControlFlow {
  import opened Tacky
  import opened Semantics

  datatype NodeId = Entry | Exit | Block(id: nat)

  datatype BasicBlock = BasicBlock(id: nat, instructions: seq<Instr>,
                                   successors: seq<NodeId>, predecessors: seq<NodeId>)

  function CodeOf(blocks: seq<BasicBlock>): (code: Code)
    ensures |code| == |blocks|
    ensures forall b :: 0 <= b < |blocks| ==> code[b] == blocks[b].instructions
  {
    seq(|blocks|, b requires 0 <= b < |blocks| => blocks[b].instructions)
  }

  function Flatten(code: Code): seq<Instr> {
    if code == [] then [] else code[0] + Flatten(code[1..])
  }

  lemma {:induction false} FlattenAppend(p: Code, q: Code)
    ensures Flatten(p + q) == Flatten(p) + Flatten(q)
  {
    if p == [] {
      assert p + q == q;
    } else {
      assert (p + q)[1..] == p[1..] + q;
      FlattenAppend(p[1..], q);
    }
  }

  /** A label may only open a block; a terminator may only close one. */
  predicate Shaped(instrs: seq<Instr>) {
    && (forall k :: 0 < k < |instrs| ==> !instrs[k].Label?)
    && (forall k :: 0 <= k < |instrs| - 1 ==> !EndsBlock(instrs[k]))
  }

  predicate Partitioned(code: Code) {
    forall b :: 0 <= b < |code| ==> Shaped(code[b])
  }

  predicate Labelled(instrs: seq<Instr>, l: Name) {
    instrs != [] && instrs[0] == Label(l)
  }

  /** Labels are defined once, as `validate_tacky_program` demands of a function. */
  predicate UniqueLabels(body: seq<Instr>) {
    forall i, j :: 0 <= i < j < |body| && body[i].Label? ==> body[i] != body[j]
  }

  ghost predicate UniqueBlockLabels(code: Code) {
    forall a, b, l :: 0 <= a < |code| && 0 <= b < |code| && Labelled(code[a], l) && Labelled(code[b], l) ==> a == b
  }

  // ----- the edges a block should have -----

  /** The last of the first `n` blocks opened by `Label(l)`: later map inserts win. */
  function TargetAmong(code: Code, l: Name, n: nat): (t: Option<nat>)
    requires n <= |code|
    ensures t.Some? ==> t.value < n && Labelled(code[t.value], l)
    ensures t.None? ==> forall b :: 0 <= b < n ==> !Labelled(code[b], l)
  {
    if n == 0 then None
    else if Labelled(code[n - 1], l) then Some(n - 1)
    else TargetAmong(code, l, n - 1)
  }

  function JumpEdges(code: Code, l: Name): seq<NodeId> {
    match TargetAmong(code, l, |code|)
    case None => []
    case Some(t) => [Block(t)]
  }

  function NextId(code: Code, b: nat): NodeId {
    if b + 1 < |code| then Block(b + 1) else Exit
  }

  /** How control leaves a block. */
  datatype Ending = Falls | Exits | Jumps(target: Name) | Branches(target: Name)

  function EndingOf(instrs: seq<Instr>): Ending {
    if instrs == [] then Falls
    else
      var last := instrs[|instrs| - 1];
      if ExitsCfg(last) then Exits
      else match last
        case Jump(l) => Jumps(l)
        case JumpIfZero(_, l) => Branches(l)
        case JumpIfNotZero(_, l) => Branches(l)
        case _ => Falls
  }

  function SuccessorsOf(code: Code, b: nat): seq<NodeId>
    requires b < |code|
  {
    match EndingOf(code[b])
    case Falls => [NextId(code, b)]
    case Exits => [Exit]
    case Jumps(l) => JumpEdges(code, l)
    case Branches(l) => WithFallThrough(code, b, JumpEdges(code, l))
  }

  function WithFallThrough(code: Code, b: nat, edges: seq<NodeId>): seq<NodeId> {
    if NextId(code, b) in edges then edges else edges + [NextId(code, b)]
  }

  /** Control goes on to the next block. */
  predicate PassesOn(instrs: seq<Instr>) {
    instrs == [] || !(instrs[|instrs| - 1].Jump? || instrs[|instrs| - 1].Return? || instrs[|instrs| - 1].Unreachable?)
  }

  predicate EndsRun(instrs: seq<Instr>) {
    instrs != [] && (instrs[|instrs| - 1].Return? || instrs[|instrs| - 1].Unreachable?)
  }

  predicate JumpsTo(instrs: seq<Instr>, l: Name) {
    instrs != [] &&
    match instrs[|instrs| - 1]
    case Jump(target) => target == l
    case JumpIfZero(_, target) => target == l
    case JumpIfNotZero(_, target) => target == l
    case _ => false
  }

  /** The last block that the label opens. */
  predicate OpenedLast(code: Code, l: Name, t: nat) {
    && t < |code| && code[t] != [] && code[t][0] == Label(l)
    && forall u :: t < u < |code| ==> code[u] == [] || code[u][0] != Label(l)
  }

  /** The edges of a block, told by its last instruction: to the next block unless that leaves or jumps, to the
      block of its label if it jumps, to the exit if it leaves or stands at the end. */
  lemma EdgesWritten(code: Code, b: nat, t: nat)
    requires b < |code|
    ensures Block(t) in SuccessorsOf(code, b) <==>
      (t == b + 1 < |code| && PassesOn(code[b])) || exists l :: JumpsTo(code[b], l) && OpenedLast(code, l, t)
    ensures Exit in SuccessorsOf(code, b) <==> EndsRun(code[b]) || (PassesOn(code[b]) && b + 1 == |code|)
    ensures Entry !in SuccessorsOf(code, b)
  {
    match EndingOf(code[b])
    case Jumps(l) => LastOpened(code, l, t, |code|);
    case Branches(l) => LastOpened(code, l, t, |code|);
    case _ =>
  }

  lemma {:induction false} LastOpened(code: Code, l: Name, t: nat, n: nat)
    requires n <= |code| && forall u :: n <= u < |code| ==> !Labelled(code[u], l)
    ensures OpenedLast(code, l, t) <==> TargetAmong(code, l, n) == Some(t)
  {
    if n > 0 && !Labelled(code[n - 1], l) {
      LastOpened(code, l, t, n - 1);
    }
  }

  /** Edges point at blocks, and predecessor lists invert successor lists. */
  ghost predicate EdgesMatch(blocks: seq<BasicBlock>) {
    && (forall b, t: nat :: 0 <= b < |blocks| && Block(t) in blocks[b].successors ==> t < |blocks|)
    && (forall b, p: nat :: 0 <= b < |blocks| && Block(p) in blocks[b].predecessors ==> p < |blocks|)
    && (forall a, b :: 0 <= a < |blocks| && 0 <= b < |blocks| ==>
          (Block(a) in blocks[b].predecessors <==> Block(b) in blocks[a].successors))
  }

  ghost predicate EntryFirst(blocks: seq<BasicBlock>) {
    forall b :: 0 <= b < |blocks| ==>
      && (Entry in blocks[b].predecessors <==> b == 0)
      && Exit !in blocks[b].predecessors
      && blocks[b].id == b
  }

  /** What `Cfg::build` establishes and every pass keeps. */
  ghost predicate WellFormed(blocks: seq<BasicBlock>) {
    var code := CodeOf(blocks);
    && Partitioned(code)
    && UniqueBlockLabels(code)
    && EntryFirst(blocks)
    && EdgesMatch(blocks)
    && (forall b :: 0 <= b < |blocks| ==> blocks[b].successors == SuccessorsOf(code, b))
  }

  /** Two codes with the same labels and the same block endings. */
  ghost predicate SameSkeleton(p: Code, q: Code) {
    && |p| == |q|
    && Partitioned(q)
    && (forall b :: 0 <= b < |p| ==> EndingOf(p[b]) == EndingOf(q[b]))
    && (forall b, l :: 0 <= b < |p| ==> (Labelled(p[b], l) <==> Labelled(q[b], l)))
  }

  /** Two instructions that steer control the same way. */
  predicate SameControl(i: Instr, j: Instr) {
    EndsBlock(i) == EndsBlock(j) && EndingOf([i]) == EndingOf([j]) && (i.Label? || j.Label? ==> i == j)
  }

  /** One block of the skeleton: same label, same ending, still well shaped. */
  ghost predicate SameFrame(p: seq<Instr>, q: seq<Instr>) {
    && Shaped(q)
    && EndingOf(p) == EndingOf(q)
    && (forall l :: Labelled(p, l) <==> Labelled(q, l))
    && (p == [] ==> q == [])
    && (p != [] && !p[0].Label? ==> forall k :: 0 <= k < |q| ==> !q[k].Label?)
  }

  /** Dropping an ordinary first instruction. */
  lemma FrameSkip(i: Instr, rest: seq<Instr>, q: seq<Instr>)
    requires Shaped([i] + rest) && SameFrame(rest, q) && !EndsBlock(i) && !i.Label?
    ensures SameFrame([i] + rest, q)
  {
    var p := [i] + rest;
    if rest != [] {
      assert !p[1].Label? && p[1] == rest[0];
      assert p[|p| - 1] == rest[|rest| - 1];
    }
  }

  /** Keeping or replacing the first instruction. */
  lemma FrameCons(i: Instr, rest: seq<Instr>, j: Instr, q: seq<Instr>)
    requires Shaped([i] + rest) && SameFrame(rest, q) && SameControl(i, j)
    ensures SameFrame([i] + rest, [j] + q)
  {
    var a, b := [i] + rest, [j] + q;
    if rest != [] {
      assert !EndsBlock(a[0]);
      assert !a[1].Label? && a[1] == rest[0];
      assert a[|a| - 1] == rest[|rest| - 1];
      if q != [] {
        assert b[|b| - 1] == q[|q| - 1];
      }
    }
  }

  lemma ShapedTail(instrs: seq<Instr>)
    requires Shaped(instrs) && instrs != []
    ensures Shaped(instrs[1..])
  {
  }

  lemma FramesMakeSkeleton(p: Code, q: Code)
    requires |p| == |q| && forall b :: 0 <= b < |p| ==> SameFrame(p[b], q[b])
    ensures SameSkeleton(p, q)
  {
  }

  lemma {:induction false} SkeletonTargets(p: Code, q: Code, l: Name, n: nat)
    requires SameSkeleton(p, q) && n <= |p|
    ensures TargetAmong(p, l, n) == TargetAmong(q, l, n)
  {
    if n > 0 {
      assert Labelled(p[n - 1], l) <==> Labelled(q[n - 1], l);
      SkeletonTargets(p, q, l, n - 1);
    }
  }

  lemma SkeletonSuccessors(p: Code, q: Code, b: nat)
    requires SameSkeleton(p, q) && b < |p|
    ensures SuccessorsOf(p, b) == SuccessorsOf(q, b)
  {
    match EndingOf(p[b])
    case Jumps(l) => SkeletonTargets(p, q, l, |p|);
    case Branches(l) => SkeletonTargets(p, q, l, |p|);
    case _ =>
  }

  /** The same graph with other instruction lists. */
  function WithCode(blocks: seq<BasicBlock>, code: Code): (r: seq<BasicBlock>)
    requires |code| == |blocks|
    ensures CodeOf(r) == code
  {
    var r := seq(|blocks|, b requires 0 <= b < |blocks| => blocks[b].(instructions := code[b]));
    assert CodeOf(r) == code;
    r
  }

  /** Rewriting instructions under the same skeleton keeps the graph well formed. */
  lemma SkeletonWellFormed(blocks: seq<BasicBlock>, code: Code)
    requires WellFormed(blocks) && SameSkeleton(CodeOf(blocks), code)
    ensures WellFormed(WithCode(blocks, code))
  {
    var was, r := CodeOf(blocks), WithCode(blocks, code);
    forall b | 0 <= b < |r|
      ensures r[b].successors == SuccessorsOf(code, b)
    {
      SkeletonSuccessors(was, code, b);
    }
    forall a, b, l | 0 <= a < |code| && 0 <= b < |code| && Labelled(code[a], l) && Labelled(code[b], l)
      ensures a == b
    {
      assert Labelled(was[a], l) && Labelled(was[b], l);
    }
    assert EdgesMatch(r) by {
      forall a, b | 0 <= a < |r| && 0 <= b < |r|
        ensures Block(a) in r[b].predecessors <==> Block(b) in r[a].successors
      {
        assert Block(a) in blocks[b].predecessors <==> Block(b) in blocks[a].successors;
      }
    }
  }

  // ----- building the graph -----

  lemma FlattenSnoc(p: Code, instrs: seq<Instr>)
    ensures Flatten(p + [instrs]) == Flatten(p) + instrs
  {
    FlattenAppend(p, [instrs]);
    assert Flatten([instrs]) == instrs;
  }

  /** A boundary between blocks is there because a terminator or a label asks for it. */
  predicate CutHere(left: seq<Instr>, right: seq<Instr>) {
    left != [] && right != [] && (right[0].Label? || EndsBlock(left[|left| - 1]))
  }

  predicate CutsNeeded(code: Code) {
    forall b :: 0 < b < |code| ==> CutHere(code[b - 1], code[b])
  }

  /** Cut as late as labels and terminators allow. */
  predicate MinimalCuts(code: Code) {
    Partitioned(code) && CutsNeeded(code) && forall b :: 0 <= b < |code| ==> code[b] != []
  }

  lemma MinimalTail(code: Code)
    requires MinimalCuts(code) && code != []
    ensures MinimalCuts(code[1..])
  {
    forall b | 0 < b < |code[1..]|
      ensures CutHere(code[1..][b - 1], code[1..][b])
    {
      assert CutHere(code[b], code[b + 1]);
    }
  }

  lemma FirstCut(p: Code)
    requires MinimalCuts(p) && p != []
    ensures var n, flat := |p[0]|, Flatten(p);
      && 0 < n <= |flat| && flat[..n] == p[0] && flat[n..] == Flatten(p[1..])
      && (n < |flat| ==> flat[n].Label? || EndsBlock(flat[n - 1]))
  {
    if |p| > 1 {
      assert CutHere(p[0], p[1]);
    }
  }

  lemma InsideFirst(q: Code, n: nat)
    requires MinimalCuts(q) && q != [] && 0 < n < |q[0]|
    ensures n < |Flatten(q)| && !Flatten(q)[n].Label? && !EndsBlock(Flatten(q)[n - 1])
  {
  }

  /** A first block is not longer than another way of cutting allows. */
  lemma FirstNotLonger(p: Code, q: Code)
    requires MinimalCuts(p) && MinimalCuts(q) && p != [] && q != [] && Flatten(p) == Flatten(q)
    ensures |q[0]| <= |p[0]|
  {
    hide MinimalCuts, Flatten;
    FirstCut(p);
    if |p[0]| < |q[0]| {
      InsideFirst(q, |p[0]|);
    }
  }

  /** There is one such way to cut a list of instructions. */
  lemma {:induction false} CutsUnique(p: Code, q: Code)
    requires MinimalCuts(p) && MinimalCuts(q) && Flatten(p) == Flatten(q)
    ensures p == q
    decreases |p|
  {
    if p != [] {
      FirstCut(p);
    }
    if q != [] {
      FirstCut(q);
    }
    if p != [] && q != [] {
      FirstNotLonger(p, q);
      FirstNotLonger(q, p);
      MinimalTail(p);
      MinimalTail(q);
      CutsUnique(p[1..], q[1..]);
      assert p == [p[0]] + p[1..] && q == [q[0]] + q[1..];
    }
  }

  /** The blocks cut so far, and the block that is still open. */
  ghost predicate OpenPartition(done: Code, current: seq<Instr>) {
    && Partitioned(done) && Shaped(current)
    && (forall b :: 0 <= b < |done| ==> done[b] != [])
    && CutsNeeded(if current == [] then done else done + [current])
    && (current != [] ==> !EndsBlock(current[|current| - 1]))
    && (done != [] && current == [] ==> EndsBlock(done[|done| - 1][|done[|done| - 1]| - 1]))
  }

  lemma ExtendCuts(done: Code, current: seq<Instr>, instr: Instr)
    requires OpenPartition(done, current)
    ensures CutsNeeded(done + [current + [instr]])
  {
    hide Partitioned, Shaped;
    var next := done + [current + [instr]];
    var was := if current == [] then done else done + [current];
    forall b | 0 < b < |next|
      ensures CutHere(next[b - 1], next[b])
    {
      if b < |done| || current != [] {
        assert CutHere(was[b - 1], was[b]);
      }
    }
  }

  lemma ExtendShaped(current: seq<Instr>, instr: Instr)
    requires Shaped(current) && (instr.Label? ==> current == [])
      && (current != [] ==> !EndsBlock(current[|current| - 1]))
    ensures Shaped(current + [instr])
  {
  }

  lemma ExtendOpen(done: Code, current: seq<Instr>, instr: Instr)
    requires OpenPartition(done, current) && (instr.Label? ==> current == [])
    ensures !EndsBlock(instr) ==> OpenPartition(done, current + [instr])
    ensures EndsBlock(instr) ==> OpenPartition(done + [current + [instr]], [])
  {
    ExtendCuts(done, current, instr);
    ExtendShaped(current, instr);
    assert current == [] ==> current + [instr] == [instr];
    hide CutsNeeded, Shaped;
  }

  method PartitionIntoBasicBlocks(instructions: seq<Instr>) returns (blocks: Code)
    ensures Flatten(blocks) == instructions
    ensures Partitioned(blocks) && CutsNeeded(blocks)
    ensures forall b :: 0 <= b < |blocks| ==> blocks[b] != []
  {
    hide OpenPartition, Partitioned, CutsNeeded, Flatten;
    OpenAndClose([], []);
    blocks := [];
    var current: seq<Instr> := [];
    for k := 0 to |instructions|
      invariant Flatten(blocks) + current == instructions[..k]
      invariant OpenPartition(blocks, current)
    {
      var instr := instructions[k];
      assert instructions[..k + 1] == instructions[..k] + [instr];
      if instr.Label? {
        if current != [] {
          FlattenSnoc(blocks, current);
          CloseBeforeLabel(blocks, current, instr);
          blocks := blocks + [current];
          current := [];
        } else {
          ExtendOpen(blocks, current, instr);
        }
        current := current + [instr];
      } else {
        ExtendOpen(blocks, current, instr);
        current := current + [instr];
        if EndsBlock(instr) {
          FlattenSnoc(blocks, current);
          blocks := blocks + [current];
          current := [];
        }
      }
    }
    assert instructions[..|instructions|] == instructions;
    OpenAndClose(blocks, current);
    if current != [] {
      FlattenSnoc(blocks, current);
      blocks := blocks + [current];
    }
  }

  lemma OpenAndClose(done: Code, current: seq<Instr>)
    ensures OpenPartition([], []) && Flatten([]) == []
    ensures OpenPartition(done, current) ==>
      var all := if current == [] then done else done + [current];
      Partitioned(all) && CutsNeeded(all) && forall b :: 0 <= b < |all| ==> all[b] != []
  {
  }

  lemma CloseBeforeLabel(done: Code, current: seq<Instr>, mark: Instr)
    requires OpenPartition(done, current) && current != [] && mark.Label?
    ensures OpenPartition(done + [current], [] + [mark])
  {
    var was, next := done + [current], done + [current] + [[mark]];
    assert CutsNeeded(next) by {
      forall b | 0 < b < |next|
        ensures CutHere(next[b - 1], next[b])
      {
        if b < |was| {
          assert CutHere(was[b - 1], was[b]);
        }
      }
    }
  }

  lemma {:induction false} LabelsOfBlocks(code: Code, k: nat)
    requires Partitioned(code) && k < |Flatten(code)| && Flatten(code)[k].Label?
    ensures exists b :: 0 <= b < |code| && Labelled(code[b], Flatten(code)[k].name)
  {
    var n := |code[0]|;
    if k < n {
      assert Labelled(code[0], Flatten(code)[k].name);
    } else {
      LabelsOfBlocks(code[1..], k - n);
      var b :| 0 <= b < |code[1..]| && Labelled(code[1..][b], Flatten(code[1..])[k - n].name);
      assert code[b + 1] == code[1..][b];
    }
  }

  /** Unique labels of blocks are unique in the body. */
  lemma {:induction false} UniqueInBody(code: Code)
    requires Partitioned(code) && UniqueBlockLabels(code)
    ensures UniqueLabels(Flatten(code))
  {
    if code != [] {
      var n, tail := |code[0]|, code[1..];
      assert forall b :: 0 <= b < |tail| ==> tail[b] == code[b + 1];
      UniqueInBody(tail);
      var flat := Flatten(code);
      forall i, j | 0 <= i < j < |flat| && flat[i].Label?
        ensures flat[i] != flat[j]
      {
        if i < n && n <= j && flat[j].Label? {
          LabelsOfBlocks(tail, j - n);
          var b :| 0 <= b < |tail| && Labelled(tail[b], flat[j].name);
          assert Labelled(code[0], flat[i].name) && Labelled(code[b + 1], flat[j].name);
        } else if n <= i {
          assert flat[i] == Flatten(tail)[i - n] && flat[j] == Flatten(tail)[j - n];
        }
      }
    }
  }

  /** Labels of a body with unique labels stay unique block labels. */
  lemma {:induction false} UniqueFromBody(code: Code)
    requires UniqueLabels(Flatten(code))
    ensures UniqueBlockLabels(code)
  {
    if code != [] {
      var rest := code[1..];
      var flat, tail := Flatten(code), Flatten(rest);
      assert tail == flat[|code[0]|..];
      assert UniqueLabels(tail) by {
        forall i, j | 0 <= i < j < |tail| && tail[i].Label?
          ensures tail[i] != tail[j]
        {
          assert tail[i] == flat[|code[0]| + i] && tail[j] == flat[|code[0]| + j];
        }
      }
      UniqueFromBody(rest);
      forall a, b, l | 0 <= a < |code| && 0 <= b < |code| && Labelled(code[a], l) && Labelled(code[b], l)
        ensures a == b
      {
        if a > 0 && b > 0 {
          assert code[a] == rest[a - 1] && code[b] == rest[b - 1];
        } else if a != b {
          var far := if a == 0 then b else a;
          var at := FlatPosition(rest, far - 1);
          assert false;
        }
      }
    }
  }

  lemma {:induction false} FlatPosition(code: Code, b: nat) returns (at: nat)
    requires b < |code| && code[b] != []
    ensures at < |Flatten(code)| && Flatten(code)[at] == code[b][0]
  {
    if b == 0 {
      at := 0;
    } else {
      at := FlatPosition(code[1..], b - 1);
      at := |code[0]| + at;
    }
  }

  /** Edges are recorded on both ends, and `Entry` precedes block 0 only. */
  ghost predicate Linked(blocks: seq<BasicBlock>) {
    EntryFirst(blocks) && EdgesMatch(blocks)
  }

  function WithEdge(blocks: seq<BasicBlock>, i: nat, node: NodeId): (r: seq<BasicBlock>)
    requires i < |blocks| && (node.Block? ==> node.id < |blocks|)
    ensures |r| == |blocks|
  {
    var out := blocks[i := blocks[i].(successors := blocks[i].successors + [node])];
    if node.Block? then
      out[node.id := out[node.id].(predecessors := out[node.id].predecessors + [Block(i)])]
    else out
  }

  /** Pushing an edge adds it to both of its ends and touches nothing else. */
  lemma WithEdgeLists(blocks: seq<BasicBlock>, i: nat, node: NodeId, b: nat)
    requires i < |blocks| && (node.Block? ==> node.id < |blocks|) && b < |blocks|
    ensures var r := WithEdge(blocks, i, node);
      && r[b].id == blocks[b].id
      && r[b].successors == blocks[b].successors + (if b == i then [node] else [])
      && r[b].predecessors == blocks[b].predecessors + (if node == Block(b) then [Block(i)] else [])
  {
  }

  lemma WithEdgeLinks(blocks: seq<BasicBlock>, i: nat, node: NodeId)
    requires i < |blocks| && (node.Block? ==> node.id < |blocks|) && !node.Entry?
    requires Linked(blocks)
    ensures Linked(WithEdge(blocks, i, node))
  {
    var r := WithEdge(blocks, i, node);
    assert EntryFirst(r) by {
      forall b | 0 <= b < |blocks| {
        WithEdgeLists(blocks, i, node, b);
      }
    }
    WithEdgeMatches(blocks, i, node);
  }

  lemma WithEdgeMatches(blocks: seq<BasicBlock>, i: nat, node: NodeId)
    requires i < |blocks| && (node.Block? ==> node.id < |blocks|)
    requires EdgesMatch(blocks)
    ensures EdgesMatch(WithEdge(blocks, i, node))
  {
    var r := WithEdge(blocks, i, node);
    hide WithEdge;
    forall a, b | 0 <= a < |r| && 0 <= b < |r|
      ensures Block(a) in r[b].predecessors <==> Block(b) in r[a].successors
    {
      WithEdgeLists(blocks, i, node, a);
      WithEdgeLists(blocks, i, node, b);
      assert Block(a) in blocks[b].predecessors <==> Block(b) in blocks[a].successors;
    }
    forall b, t: nat | 0 <= b < |r| && (Block(t) in r[b].successors || Block(t) in r[b].predecessors)
      ensures t < |r|
    {
      WithEdgeLists(blocks, i, node, b);
    }
  }

  /** The blocks with the given instruction lists and outgoing edges. */
  ghost predicate Wired(blocks: seq<BasicBlock>, code: Code, edges: seq<seq<NodeId>>) {
    && |blocks| == |code| == |edges|
    && (forall b :: 0 <= b < |code| ==> blocks[b].instructions == code[b] && blocks[b].successors == edges[b])
  }

  class Cfg {
    var blocks: seq<BasicBlock>

    /** `Cfg::build` */
    constructor Build(instructions: seq<Instr>)
      ensures Flatten(CodeOf(blocks)) == instructions
      ensures CutsNeeded(CodeOf(blocks))
      ensures forall b :: 0 <= b < |blocks| ==> blocks[b].instructions != []
      ensures Partitioned(CodeOf(blocks)) && EntryFirst(blocks) && EdgesMatch(blocks)
      ensures forall b :: 0 <= b < |blocks| ==> blocks[b].successors == SuccessorsOf(CodeOf(blocks), b)
      ensures UniqueLabels(instructions) ==> WellFormed(blocks)
    {
      var code := PartitionIntoBasicBlocks(instructions);
      blocks := seq(|code|, b requires 0 <= b < |code| => BasicBlock(b, code[b], [], []));
      new;
      var labelToBlock := LabelMap(code);
      if |blocks| > 0 {
        blocks := blocks[0 := blocks[0].(predecessors := [Entry])];
      }
      AddEdges(code, labelToBlock);
      assert CodeOf(blocks) == code;
      if UniqueLabels(instructions) {
        UniqueFromBody(code);
      }
    }

    /** The edge loop of `Cfg::build`. */
    method AddEdges(code: Code, labelToBlock: map<Name, nat>)
      requires Wired(blocks, code, seq(|code|, b => [])) && Linked(blocks)
      requires IsLabelMap(labelToBlock, code)
      modifies this
      ensures Wired(blocks, code, AllEdges(code)) && Linked(blocks)
    {
      ghost var edges := seq(|code|, b => []);
      for i := 0 to |code|
        invariant Wired(blocks, code, edges) && Linked(blocks)
        invariant forall b :: 0 <= b < |code| ==> edges[b] == if b < i then SuccessorsOf(code, b) else []
      {
        AddBlockEdges(i, code, labelToBlock, edges);
        edges := edges[i := SuccessorsOf(code, i)];
      }
      assert edges == AllEdges(code);
    }

    /** The successors of one block, from its last instruction. */
    method AddBlockEdges(i: nat, code: Code, labelToBlock: map<Name, nat>, ghost edges: seq<seq<NodeId>>)
      requires Wired(blocks, code, edges) && Linked(blocks)
      requires i < |code| && edges[i] == [] && IsLabelMap(labelToBlock, code)
      modifies this
      ensures Wired(blocks, code, edges[i := SuccessorsOf(code, i)]) && Linked(blocks)
    {
      hide Linked, TargetAmong;
      var nextId := NextId(code, i);
      match EndingOf(blocks[i].instructions)
      case Exits =>
        AddEdge(i, Exit, code, edges);
      case Jumps(target) =>
        if target in labelToBlock {
          AddEdge(i, Block(labelToBlock[target]), code, edges);
        }
      case Branches(target) =>
        ghost var soFar := edges;
        if target in labelToBlock {
          AddEdge(i, Block(labelToBlock[target]), code, edges);
          soFar := edges[i := [Block(labelToBlock[target])]];
        }
        if nextId !in blocks[i].successors {
          AddEdge(i, nextId, code, soFar);
        }
      case Falls =>
        AddEdge(i, nextId, code, edges);
    }

    /** Push one edge on both of its ends. */
    method AddEdge(i: nat, node: NodeId, ghost code: Code, ghost edges: seq<seq<NodeId>>)
      requires Wired(blocks, code, edges) && Linked(blocks)
      requires i < |code| && (node.Block? ==> node.id < |code|) && !node.Entry?
      modifies this
      ensures blocks == WithEdge(old(blocks), i, node)
      ensures Wired(blocks, code, edges[i := edges[i] + [node]]) && Linked(blocks)
    {
      WithEdgeLinks(blocks, i, node);
      blocks := blocks[i := blocks[i].(successors := blocks[i].successors + [node])];
      if node.Block? {
        var j := node.id;
        blocks := blocks[j := blocks[j].(predecessors := blocks[j].predecessors + [Block(i)])];
      }
    }

    /** `into_instructions` */
    method IntoInstructions() returns (instructions: seq<Instr>)
      ensures instructions == Flatten(CodeOf(blocks))
    {
      instructions := [];
      var code := CodeOf(blocks);
      for b := 0 to |blocks|
        invariant instructions == Flatten(code[..b])
      {
        assert code[..b + 1] == code[..b] + [code[b]];
        FlattenAppend(code[..b], [code[b]]);
        assert Flatten([code[b]]) == code[b];
        instructions := instructions + blocks[b].instructions;
      }
      assert code[..|blocks|] == code;
    }
  }

  /** Every recorded edge list. */
  function AllEdges(code: Code): seq<seq<NodeId>> {
    seq(|code|, b requires 0 <= b < |code| => SuccessorsOf(code, b))
  }

  ghost predicate IsLabelMap(m: map<Name, nat>, code: Code) {
    && (forall l :: l in m <==> TargetAmong(code, l, |code|).Some?)
    && (forall l :: l in m ==> Some(m[l]) == TargetAmong(code, l, |code|))
  }

  /** The label-to-block map of `Cfg::build`. */
  method LabelMap(code: Code) returns (m: map<Name, nat>)
    ensures IsLabelMap(m, code)
  {
    m := map[];
    for b := 0 to |code|
      invariant forall l :: l in m <==> TargetAmong(code, l, b).Some?
      invariant forall l :: l in m ==> Some(m[l]) == TargetAmong(code, l, b)
    {
      if code[b] != [] && code[b][0].Label? {
        m := m[code[b][0].name := b];
      }
    }
  }
}
