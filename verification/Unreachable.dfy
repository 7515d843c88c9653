/** Unreachable-code elimination: thread jumps, drop the blocks no path reaches and all
    Nops, drop jumps to the next instruction, and repeat until nothing changes. */
module UnreachableCode {
  import opened Tacky
  import opened Semantics
  import opened Behaviour
  import opened ControlFlow
  import opened CfgRuns
  import opened JumpThreading
  import opened Paths
  import opened Preservation

  // ----- the blocks that paths reach -----

  /** Edges out of `seen` stay in it, except possibly from the blocks in `open`. */
  ghost predicate Explored(blocks: seq<BasicBlock>, seen: set<nat>, open: seq<nat>) {
    forall a: nat, b: nat :: a in seen && a !in open && HasEdge(blocks, a, b) ==> b in seen
  }

  ghost predicate AllReached(blocks: seq<BasicBlock>, seen: set<nat>) {
    forall b :: b in seen ==> b < |blocks| && Reaches(blocks, 0, b)
  }

  /** One round of the worklist: insert and queue the successors of `blockId`. */
  method VisitSuccessors(blocks: seq<BasicBlock>, blockId: nat, seen: set<nat>, worklist: seq<nat>)
    returns (seen': set<nat>, worklist': seq<nat>)
    requires EdgesMatch(blocks) && blockId in seen && AllReached(blocks, seen)
    requires Explored(blocks, seen, [blockId] + worklist) && (forall b :: b in worklist ==> b in seen)
    ensures seen <= seen' && AllReached(blocks, seen')
    ensures Explored(blocks, seen', worklist') && (forall b :: b in worklist' ==> b in seen')
    ensures seen' == seen ==> worklist' == worklist
  {
    seen', worklist' := seen, worklist;
    var successors := blocks[blockId].successors;
    for k := 0 to |successors|
      invariant seen <= seen' && AllReached(blocks, seen')
      invariant forall b: nat :: Block(b) in successors[..k] ==> b in seen'
      invariant Explored(blocks, seen', [blockId] + worklist') && (forall b :: b in worklist' ==> b in seen')
      invariant seen' == seen ==> worklist' == worklist
    {
      assert successors[..k + 1] == successors[..k] + [successors[k]];
      match successors[k]
      case Block(id) =>
        if id !in seen' {
          assert HasEdge(blocks, blockId, id);
          ReachesNext(blocks, 0, blockId, id);
          seen' := seen' + {id};
          worklist' := worklist' + [id];
        }
      case _ =>
    }
    assert successors[..|successors|] == successors;
  }

  /** The search of `unreachable_code_pass` finds exactly the blocks with a path from block 0. */
  method ReachableBlocks(blocks: seq<BasicBlock>) returns (reachable: set<nat>)
    requires EdgesMatch(blocks)
    ensures forall b :: b in reachable <==> Reaches(blocks, 0, b)
  {
    reachable := {};
    var worklist: seq<nat> := [];
    ghost var all := BlockSet(|blocks|);
    if blocks != [] {
      PathSelf(blocks, 0);
      reachable := {0};
      worklist := [0];
    }
    while worklist != []
      invariant AllReached(blocks, reachable) && reachable <= all
      invariant Explored(blocks, reachable, worklist) && (forall b :: b in worklist ==> b in reachable)
      invariant blocks != [] ==> 0 in reachable
      decreases all - reachable, |worklist|
    {
      var blockId := worklist[0];
      assert worklist == [blockId] + worklist[1..];
      ghost var before := reachable;
      reachable, worklist := VisitSuccessors(blocks, blockId, reachable, worklist[1..]);
      assert reachable != before ==> all - reachable < all - before;
    }
    forall b | Reaches(blocks, 0, b)
      ensures b in reachable
    {
      var path :| IsPath(blocks, path, 0, b);
      ClosedReaches(blocks, reachable, path, 0, b);
    }
  }

  // ----- deleting instructions -----

  /** `q` is `p` with some instructions deleted. */
  ghost predicate Deleted(p: seq<Instr>, q: seq<Instr>) {
    if p == [] then q == []
    else Deleted(p[1..], q) || (q != [] && q[0] == p[0] && Deleted(p[1..], q[1..]))
  }

  lemma {:induction false} DeletedFacts(p: seq<Instr>, q: seq<Instr>)
    requires Deleted(p, q)
    ensures |q| <= |p| && (|q| == |p| ==> q == p)
    ensures forall i :: i in q ==> i in p
  {
    if p != [] {
      if Deleted(p[1..], q) {
        DeletedFacts(p[1..], q);
      } else {
        DeletedFacts(p[1..], q[1..]);
        assert q == [q[0]] + q[1..];
        assert p == [p[0]] + p[1..];
      }
    }
  }

  lemma UniqueCons(body: seq<Instr>)
    requires body != []
    ensures UniqueLabels(body) <==> UniqueLabels(body[1..]) && (body[0].Label? ==> body[0] !in body[1..])
  {
    var rest := body[1..];
    if UniqueLabels(rest) && (body[0].Label? ==> body[0] !in rest) {
      forall i, j | 0 <= i < j < |body| && body[i].Label?
        ensures body[i] != body[j]
      {
        assert body[j] == rest[j - 1];
        if i > 0 {
          assert body[i] == rest[i - 1];
        }
      }
    }
    if UniqueLabels(body) {
      forall i, j | 0 <= i < j < |rest| && rest[i].Label?
        ensures rest[i] != rest[j]
      {
        assert body[i + 1] == rest[i] && body[j + 1] == rest[j];
      }
    }
  }

  lemma {:induction false} DeletedUnique(p: seq<Instr>, q: seq<Instr>)
    requires Deleted(p, q) && UniqueLabels(p)
    ensures UniqueLabels(q)
  {
    if p != [] {
      UniqueCons(p);
      if Deleted(p[1..], q) {
        DeletedUnique(p[1..], q);
      } else {
        DeletedFacts(p[1..], q[1..]);
        DeletedUnique(p[1..], q[1..]);
        UniqueCons(q);
      }
    }
  }

  lemma {:induction false} DeletedAppend(p: seq<Instr>, q: seq<Instr>, p': seq<Instr>, q': seq<Instr>)
    requires Deleted(p, q) && Deleted(p', q')
    ensures Deleted(p + p', q + q')
  {
    if p == [] {
      assert p + p' == p' && q + q' == q';
    } else {
      assert (p + p')[1..] == p[1..] + p';
      if Deleted(p[1..], q) {
        DeletedAppend(p[1..], q, p', q');
      } else {
        DeletedAppend(p[1..], q[1..], p', q');
        assert (q + q')[1..] == q[1..] + q';
      }
    }
  }

  lemma {:induction false} DeletedAll(p: seq<Instr>)
    ensures Deleted(p, [])
  {
    if p != [] {
      DeletedAll(p[1..]);
    }
  }

  lemma {:induction false} FlattenDeleted(p: Code, q: Code)
    requires |p| == |q| && forall b :: 0 <= b < |p| ==> Deleted(p[b], q[b])
    ensures Deleted(Flatten(p), Flatten(q))
  {
    if p != [] {
      FlattenDeleted(p[1..], q[1..]);
      DeletedAppend(p[0], q[0], Flatten(p[1..]), Flatten(q[1..]));
    }
  }

  // ----- dropping unreachable blocks and Nops -----

  function StripNops(instrs: seq<Instr>): seq<Instr> {
    if instrs == [] then []
    else (if instrs[0].Nop? then [] else [instrs[0]]) + StripNops(instrs[1..])
  }

  function KeptCode(code: Code, reachable: set<nat>): (r: Code)
    ensures |r| == |code|
  {
    seq(|code|, b requires 0 <= b < |code| => if b in reachable then StripNops(code[b]) else [])
  }

  lemma {:induction false} StripDeleted(instrs: seq<Instr>)
    ensures Deleted(instrs, StripNops(instrs))
    ensures Nop !in StripNops(instrs)
    ensures forall i :: i in instrs && !i.Nop? ==> i in StripNops(instrs)
  {
    if instrs != [] {
      StripDeleted(instrs[1..]);
      if !instrs[0].Nop? {
        assert StripNops(instrs)[1..] == StripNops(instrs[1..]);
      } else {
        assert StripNops(instrs) == StripNops(instrs[1..]);
      }
    }
  }

  lemma {:induction false} StripFrame(instrs: seq<Instr>)
    requires Shaped(instrs)
    ensures SameFrame(instrs, StripNops(instrs))
  {
    if instrs != [] {
      StripFrame(instrs[1..]);
      assert instrs == [instrs[0]] + instrs[1..];
      if instrs[0].Nop? {
        FrameSkip(instrs[0], instrs[1..], StripNops(instrs[1..]));
        assert StripNops(instrs) == StripNops(instrs[1..]);
      } else {
        FrameCons(instrs[0], instrs[1..], instrs[0], StripNops(instrs[1..]));
      }
    }
  }

  /** Block 0 is kept, and no kept block has an edge to a dropped one. */
  ghost predicate EdgeClosed(code: Code, reachable: set<nat>) {
    && (code != [] ==> 0 in reachable)
    && (forall b, t: nat :: b in reachable && b < |code| && Block(t) in SuccessorsOf(code, b) ==> t in reachable)
  }

  lemma KeptShape(code: Code, reachable: set<nat>)
    requires Partitioned(code) && UniqueBlockLabels(code)
    ensures var q := KeptCode(code, reachable);
      && Partitioned(q) && UniqueBlockLabels(q)
      && (forall b, l :: 0 <= b < |code| ==> (Labelled(q[b], l) <==> b in reachable && Labelled(code[b], l)))
  {
    var q := KeptCode(code, reachable);
    forall b | 0 <= b < |code|
      ensures Shaped(q[b]) && forall l :: Labelled(q[b], l) <==> b in reachable && Labelled(code[b], l)
    {
      StripFrame(code[b]);
    }
    forall a, b, l | 0 <= a < |q| && 0 <= b < |q| && Labelled(q[a], l) && Labelled(q[b], l)
      ensures a == b
    {
      assert Labelled(code[a], l) && Labelled(code[b], l);
    }
  }

  ghost predicate KeptRelated(code: Code, reachable: set<nat>, s: Config, t: Config) {
    if s.Running? then
      Located(code, s) && s.blk in reachable && t == Running(s.blk, StripNops(s.rest), s.data)
    else s == t
  }

  lemma EnterKept(code: Code, reachable: set<nat>, b: nat, d: Data)
    requires Partitioned(code) && b < |code| && b in reachable
    ensures KeptRelated(code, reachable, Running(b, code[b], d), Running(b, KeptCode(code, reachable)[b], d))
  {
    BlockStart(code, b, d);
  }

  lemma KeptTarget(code: Code, reachable: set<nat>, l: Name)
    requires Partitioned(code) && UniqueBlockLabels(code)
    ensures var t, q := TargetAmong(code, l, |code|), KeptCode(code, reachable);
      TargetAmong(q, l, |q|) == if t.Some? && t.value in reachable then t else None
  {
    var t, q := TargetAmong(code, l, |code|), KeptCode(code, reachable);
    KeptShape(code, reachable);
    hide KeptCode, TargetAmong;
    if t.Some? && t.value in reachable {
      assert Labelled(q[t.value], l);
    }
  }

  lemma KeptGoto(code: Code, reachable: set<nat>, b: nat, l: Name, d: Data)
    requires Partitioned(code) && UniqueBlockLabels(code) && EdgeClosed(code, reachable)
    requires b < |code| && b in reachable && (EndingOf(code[b]) == Jumps(l) || EndingOf(code[b]) == Branches(l))
    ensures KeptRelated(code, reachable, Goto(code, l, d), Goto(KeptCode(code, reachable), l, d))
  {
    var q, t := KeptCode(code, reachable), TargetAmong(code, l, |code|);
    assert t.Some? ==> Block(t.value) in SuccessorsOf(code, b);
    KeptShape(code, reachable);
    KeptTarget(code, reachable, l);
    hide KeptCode, TargetAmong, Goto, Partitioned, UniqueBlockLabels;
    GotoTarget(code, l, d);
    GotoTarget(q, l, d);
    if t.Some? {
      EnterKept(code, reachable, t.value, d);
    }
  }

  lemma KeptFall(c: Ctx, code: Code, reachable: set<nat>, b: nat, d: Data)
    requires Partitioned(code) && EdgeClosed(code, reachable)
    requires b < |code| && b in reachable && FallsThrough(code[b])
    ensures KeptRelated(code, reachable, Enter(c, code, b + 1, d), Enter(c, KeptCode(code, reachable), b + 1, d))
  {
    assert NextId(code, b) in SuccessorsOf(code, b);
    if b + 1 < |code| {
      EnterKept(code, reachable, b + 1, d);
    }
  }

  lemma KeptTerminator(c: Ctx, code: Code, reachable: set<nat>, s: Config, t: Config)
    requires Partitioned(code) && UniqueBlockLabels(code) && EdgeClosed(code, reachable)
    requires KeptRelated(code, reachable, s, t) && s.Running? && s.rest != [] && EndsBlock(s.rest[0])
    ensures KeptRelated(code, reachable, Step(c, code, s), Step(c, KeptCode(code, reachable), t))
  {
    var i := s.rest[0];
    TerminatorEnding(code, s);
    assert s == Running(s.blk, [i], s.data) && [i][1..] == [];
    assert StripNops([i]) == [i];
    if IsJump(i) {
      KeptGoto(code, reachable, s.blk, i.target, s.data);
      if !i.Jump? {
        AfterBranch(code, s);
      }
    }
    hide Goto, KeptCode, Located, EdgeClosed, Partitioned, UniqueBlockLabels;
  }

  lemma KeptPlain(c: Ctx, code: Code, reachable: set<nat>, s: Config, t: Config)
    requires Partitioned(code)
    requires KeptRelated(code, reachable, s, t) && s.Running? && s.rest != [] && !EndsBlock(s.rest[0])
    ensures s.rest[0].Nop? ==> KeptRelated(code, reachable, Step(c, code, s), t)
    ensures !s.rest[0].Nop? ==> KeptRelated(code, reachable, Step(c, code, s), Step(c, KeptCode(code, reachable), t))
  {
    PlainStays(c, code, s);
    hide Partitioned, Located, KeptCode, Goto;
    assert t.rest == (if s.rest[0].Nop? then [] else [s.rest[0]]) + StripNops(s.rest[1..]);
    assert !s.rest[0].Nop? ==> t.rest[1..] == StripNops(s.rest[1..]);
  }

  /** Dropping Nops, and blocks no kept block has an edge to, preserves behaviour. */
  lemma KeepingPreserves(c: Ctx, code: Code, reachable: set<nat>, d: Data)
    requires Partitioned(code) && UniqueBlockLabels(code) && EdgeClosed(code, reachable)
    ensures Equivalent(c, code, KeptCode(code, reachable), d)
  {
    var q := KeptCode(code, reachable);
    if code == [] {
      EquivalentReflexive(c, code, d);
      return;
    }
    EnterKept(code, reachable, 0, d);
    var rel := (s: Config, t: Config) => KeptRelated(code, reachable, s, t);
    var rank := (s: Config, t: Config) => Remaining(s);
    forall s, t
      ensures rel(s, t) ==> Diagram(c, code, q, rel, rank, s, t)
    {
      if rel(s, t) {
        KeptDiagram(c, code, reachable, rel, rank, s, t);
      }
    }
    Simulation(c, code, q, rel, rank, Start(code, d), Start(q, d));
    SameAsEquivalent(c, code, q, d);
  }

  /** What one step from related configurations leads to. */
  ghost predicate KeptMatch(c: Ctx, code: Code, reachable: set<nat>, s: Config, t: Config) {
    var s', q := Step(c, code, s), KeptCode(code, reachable);
    || KeptRelated(code, reachable, s', Step(c, q, t))
    || (KeptRelated(code, reachable, s', t) && Remaining(s') < Remaining(s))
  }

  lemma KeptStep(c: Ctx, code: Code, reachable: set<nat>, s: Config, t: Config)
    requires Partitioned(code) && UniqueBlockLabels(code) && EdgeClosed(code, reachable)
    requires KeptRelated(code, reachable, s, t)
    ensures KeptMatch(c, code, reachable, s, t)
  {
    if !s.Running? {
      StoppedMatch(c, code, reachable, s, t);
    } else if s.rest == [] {
      FallMatch(c, code, reachable, s, t);
    } else if EndsBlock(s.rest[0]) {
      hide KeptCode, Step, Partitioned, UniqueBlockLabels, EdgeClosed, KeptRelated;
      KeptTerminator(c, code, reachable, s, t);
    } else {
      hide KeptCode, Step, Partitioned, UniqueBlockLabels, EdgeClosed, KeptRelated, Exec;
      KeptPlain(c, code, reachable, s, t);
      PlainStays(c, code, s);
    }
  }

  lemma StoppedMatch(c: Ctx, code: Code, reachable: set<nat>, s: Config, t: Config)
    requires !s.Running? && KeptRelated(code, reachable, s, t)
    ensures KeptMatch(c, code, reachable, s, t)
  {
    hide KeptCode;
  }

  lemma FallMatch(c: Ctx, code: Code, reachable: set<nat>, s: Config, t: Config)
    requires Partitioned(code) && UniqueBlockLabels(code) && EdgeClosed(code, reachable)
    requires s.Running? && s.rest == [] && KeptRelated(code, reachable, s, t)
    ensures KeptMatch(c, code, reachable, s, t)
  {
    hide KeptCode, Step, Partitioned, UniqueBlockLabels, EdgeClosed, Enter;
    var q := KeptCode(code, reachable);
    KeptFall(c, code, reachable, s.blk, s.data);
    StepAtEnd(c, code, s);
    StepAtEnd(c, q, t);
  }

  lemma KeptView(code: Code, reachable: set<nat>, s: Config, t: Config)
    requires KeptRelated(code, reachable, s, t)
    ensures SameView(s, t)
  {
  }

  lemma KeptDiagram(c: Ctx, code: Code, reachable: set<nat>,
                    rel: (Config, Config) -> bool, rank: (Config, Config) -> nat, s: Config, t: Config)
    requires Partitioned(code) && UniqueBlockLabels(code) && EdgeClosed(code, reachable)
    requires forall s, t :: rel(s, t) == KeptRelated(code, reachable, s, t)
    requires forall s, t :: rank(s, t) == Remaining(s)
    requires rel(s, t)
    ensures Diagram(c, code, KeptCode(code, reachable), rel, rank, s, t)
  {
    hide KeptCode, Step, Partitioned, UniqueBlockLabels, EdgeClosed, KeptRelated, Remaining;
    KeptView(code, reachable, s, t);
    KeptStep(c, code, reachable, s, t);
  }

  // ----- dropping jumps to the next instruction -----

  /** A jump, conditional or not, to the label right behind it. */
  predicate Redundant(rest: seq<Instr>) {
    |rest| > 1 && IsJump(rest[0]) && rest[1] == Label(rest[0].target)
  }

  function Cleaned(instrs: seq<Instr>): seq<Instr> {
    if instrs == [] then []
    else (if Redundant(instrs) then [] else [instrs[0]]) + Cleaned(instrs[1..])
  }

  lemma {:induction false} CleanedDeleted(instrs: seq<Instr>)
    ensures Deleted(instrs, Cleaned(instrs))
    ensures forall i :: i in instrs && i.Label? ==> i in Cleaned(instrs)
  {
    if instrs != [] {
      CleanedDeleted(instrs[1..]);
      if Redundant(instrs) {
        assert Cleaned(instrs) == Cleaned(instrs[1..]);
      } else {
        assert Cleaned(instrs)[1..] == Cleaned(instrs[1..]);
      }
    }
  }

  lemma {:induction false} CleanedLabel(instrs: seq<Instr>, l: Name)
    requires Label(l) in instrs
    ensures var r := Cleaned(instrs);
      Label(l) in r && r[LabelIndex(r, l)..] == Cleaned(instrs[LabelIndex(instrs, l)..])
  {
    if instrs[0] != Label(l) {
      CleanedLabel(instrs[1..], l);
      LaterLabel(instrs, l);
      hide LabelIndex;
      if Redundant(instrs) {
        assert Cleaned(instrs) == Cleaned(instrs[1..]);
      } else {
        assert Cleaned(instrs)[1..] == Cleaned(instrs[1..]);
        LaterLabel(Cleaned(instrs), l);
      }
    }
  }

  lemma LaterLabel(instrs: seq<Instr>, l: Name)
    requires instrs != [] && instrs[0] != Label(l)
    ensures instrs[LabelIndex(instrs, l)..] == instrs[1..][LabelIndex(instrs[1..], l)..]
  {
  }

  lemma {:induction false} UniquePosition(body: seq<Instr>, k: nat, l: Name)
    requires UniqueLabels(body) && k < |body| && body[k] == Label(l)
    ensures LabelIndex(body, l) == k
  {
  }

  ghost predicate CleanRelated(body: seq<Instr>, s: Config, t: Config) {
    if s.Running? then
      s.blk == 0 && IsSuffix(s.rest, body) && t == Running(0, Cleaned(s.rest), s.data)
    else s == t
  }

  lemma CleanGoto(body: seq<Instr>, l: Name, d: Data)
    ensures CleanRelated(body, Goto([body], l, d), Goto([Cleaned(body)], l, d))
  {
    OnlyBody(body, l, d);
    OnlyBody(Cleaned(body), l, d);
    CleanedDeleted(body);
    DeletedFacts(body, Cleaned(body));
    if IsDefined(body, l) {
      CleanedLabel(body, l);
    }
  }

  lemma SuffixRest(rest: seq<Instr>, body: seq<Instr>)
    requires IsSuffix(rest, body) && rest != []
    ensures IsSuffix(rest[1..], body)
    ensures rest[0] == body[|body| - |rest|] && rest[1..] == body[|body| - |rest| + 1..]
  {
  }

  /** The label behind a redundant jump is where the jump goes. */
  lemma RedundantTarget(body: seq<Instr>, rest: seq<Instr>, d: Data)
    requires UniqueLabels(body) && IsSuffix(rest, body) && Redundant(rest)
    ensures Goto([body], rest[0].target, d) == Running(0, rest[1..], d) && IsSuffix(rest[1..], body)
  {
    SuffixRest(rest, body);
    SuffixRest(rest[1..], body);
    var k, l := |body| - |rest| + 1, rest[0].target;
    assert body[k] == Label(l);
    hide UniqueLabels, Goto, IsSuffix;
    UniquePosition(body, k, l);
    OnlyBody(body, l, d);
  }

  /** Either way, a redundant jump goes to the instruction behind it. */
  lemma RedundantStep(c: Ctx, body: seq<Instr>, s: Config, t: Config)
    requires UniqueLabels(body) && CleanRelated(body, s, t) && s.Running? && Redundant(s.rest)
    ensures Step(c, [body], s) == Running(0, s.rest[1..], s.data) && CleanRelated(body, Step(c, [body], s), t)
  {
    hide UniqueLabels, Goto, IsSuffix, Exec, EvalVal;
    RedundantTarget(body, s.rest, s.data);
    assert Cleaned(s.rest) == Cleaned(s.rest[1..]);
  }

  lemma CleanAhead(body: seq<Instr>, rest: seq<Instr>, d: Data)
    requires IsSuffix(rest, body) && rest != [] && !Redundant(rest)
    ensures Cleaned(rest) != [] && Cleaned(rest)[0] == rest[0] && Cleaned(rest)[1..] == Cleaned(rest[1..])
    ensures forall d' :: CleanRelated(body, Running(0, rest[1..], d'), Running(0, Cleaned(rest)[1..], d'))
  {
    SuffixRest(rest, body);
    assert Cleaned(rest) == [rest[0]] + Cleaned(rest[1..]);
  }

  lemma StoppedClean(body: seq<Instr>, s: Config)
    requires !s.Running?
    ensures CleanRelated(body, s, s)
  {
  }

  lemma KeptJump(c: Ctx, body: seq<Instr>, rest: seq<Instr>, d: Data)
    requires IsSuffix(rest, body) && rest != [] && !Redundant(rest) && IsJump(rest[0])
    ensures CleanRelated(body, Step(c, [body], Running(0, rest, d)),
      Step(c, [Cleaned(body)], Running(0, Cleaned(rest), d)))
  {
    CleanAhead(body, rest, d);
    hide Cleaned, IsSuffix, Goto, Redundant, Exec, EvalVal, CleanRelated, Taken;
    CleanGoto(body, rest[0].target, d);
  }

  lemma KeptOther(c: Ctx, body: seq<Instr>, rest: seq<Instr>, d: Data)
    requires IsSuffix(rest, body) && rest != [] && !Redundant(rest) && !IsJump(rest[0])
    ensures CleanRelated(body, Step(c, [body], Running(0, rest, d)),
      Step(c, [Cleaned(body)], Running(0, Cleaned(rest), d)))
  {
    CleanAhead(body, rest, d);
    hide Cleaned, IsSuffix, Goto, Redundant, Exec, EvalVal, CleanRelated;
    if ExitsCfg(rest[0]) {
      StoppedClean(body, Step(c, [body], Running(0, rest, d)));
    }
  }

  lemma KeptInstrStep(c: Ctx, body: seq<Instr>, s: Config, t: Config)
    requires CleanRelated(body, s, t) && s.Running? && s.rest != [] && !Redundant(s.rest)
    ensures CleanRelated(body, Step(c, [body], s), Step(c, [Cleaned(body)], t))
  {
    assert s == Running(0, s.rest, s.data) && t == Running(0, Cleaned(s.rest), s.data);
    hide Cleaned, IsSuffix, Step, Redundant, CleanRelated;
    if IsJump(s.rest[0]) {
      KeptJump(c, body, s.rest, s.data);
    } else {
      KeptOther(c, body, s.rest, s.data);
    }
  }

  lemma CleanEnd(c: Ctx, body: seq<Instr>, s: Config, t: Config)
    requires CleanRelated(body, s, t) && s.Running? && s.rest == []
    ensures CleanRelated(body, Step(c, [body], s), Step(c, [Cleaned(body)], t))
  {
  }

  /** Dropping jumps to the next instruction preserves behaviour when labels are unique. */
  lemma CleaningPreserves(c: Ctx, body: seq<Instr>, d: Data)
    requires UniqueLabels(body)
    ensures Equivalent(c, [body], [Cleaned(body)], d)
  {
    var p, q := [body], [Cleaned(body)];
    var rel := (s: Config, t: Config) => CleanRelated(body, s, t);
    var rank := (s: Config, t: Config) => Remaining(s);
    assert rel(Start(p, d), Start(q, d));
    forall s, t
      ensures rel(s, t) ==> Diagram(c, p, q, rel, rank, s, t)
    {
      if rel(s, t) {
        if !s.Running? {
          BothStopped(c, p, q, rel, rank, s);
        } else if s.rest == [] {
          CleanEnd(c, body, s, t);
          hide Step, Cleaned;
          BothStep(c, p, q, rel, rank, s, t);
        } else if Redundant(s.rest) {
          RedundantStep(c, body, s, t);
          hide Step, Cleaned;
          LeftSteps(c, p, q, rel, rank, s, t);
        } else {
          KeptInstrStep(c, body, s, t);
          hide Step, Cleaned;
          BothStep(c, p, q, rel, rank, s, t);
        }
      }
    }
    Simulation(c, p, q, rel, rank, Start(p, d), Start(q, d));
    SameAsEquivalent(c, p, q, d);
  }

  lemma CleanedAt(instructions: seq<Instr>, k: nat)
    requires k < |instructions|
    ensures Cleaned(instructions[k..])
      == (if Redundant(instructions[k..]) then [] else [instructions[k]]) + Cleaned(instructions[k + 1..])
    ensures Redundant(instructions[k..]) <==>
      IsJump(instructions[k]) && k + 1 < |instructions| && instructions[k + 1] == Label(instructions[k].target)
  {
    var rest := instructions[k..];
    assert rest[0] == instructions[k] && rest[1..] == instructions[k + 1..];
  }

  /** `remove_redundant_fallthrough_jumps` */
  method RemoveRedundantFallthroughJumps(instructions: seq<Instr>) returns (cleaned: seq<Instr>, changed: bool)
    ensures cleaned == Cleaned(instructions)
    ensures changed <==> cleaned != instructions
  {
    hide Redundant, Deleted, Cleaned;
    cleaned, changed := [], false;
    assert instructions[0..] == instructions;
    for k := 0 to |instructions|
      invariant cleaned + Cleaned(instructions[k..]) == Cleaned(instructions)
      invariant |cleaned| <= k && (changed <==> |cleaned| < k)
    {
      CleanedAt(instructions, k);
      var instr := instructions[k];
      if IsJump(instr) && k + 1 < |instructions| && instructions[k + 1] == Label(instr.target) {
        changed := true;
      } else {
        cleaned := cleaned + [instr];
      }
    }
    CleanedEnd(instructions, cleaned);
  }

  lemma CleanedEnd(instructions: seq<Instr>, cleaned: seq<Instr>)
    requires cleaned + Cleaned(instructions[|instructions|..]) == Cleaned(instructions)
    ensures cleaned == Cleaned(instructions) && (cleaned != instructions ==> |cleaned| < |instructions|)
  {
    assert instructions[|instructions|..] == [];
    CleanedDeleted(instructions);
    DeletedFacts(instructions, Cleaned(instructions));
  }

  // ----- one pass -----

  /** Keep the instructions of one reachable block. */
  method KeepInstructions(result: seq<Instr>, instrs: seq<Instr>) returns (result': seq<Instr>, dropped: bool)
    ensures result' == result + StripNops(instrs)
    ensures dropped <==> |StripNops(instrs)| < |instrs|
  {
    result', dropped := result, false;
    for k := 0 to |instrs|
      invariant result' + StripNops(instrs[k..]) == result + StripNops(instrs)
      invariant |result'| <= |result| + k && (dropped <==> |result'| < |result| + k)
    {
      assert instrs[k..][0] == instrs[k] && instrs[k..][1..] == instrs[k + 1..];
      if !instrs[k].Nop? {
        result' := result' + [instrs[k]];
      } else {
        dropped := true;
      }
    }
    assert instrs[|instrs|..] == [] && result' == result + StripNops(instrs);
  }

  lemma KeptDeleted(code: Code, reachable: set<nat>)
    ensures Deleted(Flatten(code), Flatten(KeptCode(code, reachable)))
  {
    forall b | 0 <= b < |code|
      ensures Deleted(code[b], KeptCode(code, reachable)[b])
    {
      StripDeleted(code[b]);
      DeletedAll(code[b]);
    }
    FlattenDeleted(code, KeptCode(code, reachable));
  }

  lemma PrefixSnoc(code: Code, b: nat)
    requires b < |code|
    ensures Flatten(code[..b + 1]) == Flatten(code[..b]) + code[b]
  {
    assert code[..b + 1] == code[..b] + [code[b]];
    FlattenSnoc(code[..b], code[b]);
  }

  /** The loop that collects the reachable blocks again. */
  method KeepReachable(blocks: seq<BasicBlock>, reachable: set<nat>) returns (result: seq<Instr>, changed: bool)
    requires forall b :: 0 <= b < |blocks| ==> blocks[b].id == b && blocks[b].instructions != []
    ensures result == Flatten(KeptCode(CodeOf(blocks), reachable))
    ensures changed <==> result != Flatten(CodeOf(blocks))
  {
    var code := CodeOf(blocks);
    ghost var kept := KeptCode(code, reachable);
    result, changed := [], false;
    for b := 0 to |blocks|
      invariant result == Flatten(kept[..b])
      invariant |result| <= |Flatten(code[..b])| && (changed <==> |result| < |Flatten(code[..b])|)
    {
      PrefixSnoc(code, b);
      PrefixSnoc(kept, b);
      StripDeleted(blocks[b].instructions);
      DeletedFacts(blocks[b].instructions, StripNops(blocks[b].instructions));
      if blocks[b].id !in reachable {
        changed := true;
      } else {
        var dropped;
        result, dropped := KeepInstructions(result, blocks[b].instructions);
        changed := changed || dropped;
      }
    }
    assert kept[..|blocks|] == kept && code[..|blocks|] == code;
    KeptDeleted(code, reachable);
    DeletedFacts(Flatten(code), result);
  }

  /** Every jump goes to a label of the body, as `validate_tacky_program` demands. */
  predicate TargetsDefined(body: seq<Instr>) {
    forall i :: i in body && IsJump(i) ==> IsDefined(body, i.target)
  }

  lemma ThreadedTargets(body: seq<Instr>)
    requires TargetsDefined(body)
    ensures TargetsDefined(Threaded(body))
  {
    var th := Threaded(body);
    forall k | 0 <= k < |th| && IsJump(th[k])
      ensures IsDefined(th, th[k].target)
    {
      var i := body[k];
      assert i in body;
      var r := Resolve(body, i.target, {});
      if r.Some? {
        ResolvesIffChainEnds(body, i.target, r.value);
      }
      ThreadedLabels(body, th[k].target);
    }
  }

  lemma JumpLeads(code: Code, b: nat, i: Instr) returns (t: nat)
    requires Partitioned(code) && TargetsDefined(Flatten(code)) && b < |code| && i in code[b] && IsJump(i)
    ensures t < |code| && Labelled(code[t], i.target) && Block(t) in SuccessorsOf(code, b)
  {
    FlattenMembers(code);
    assert i in Flatten(code);
    var a :| 0 <= a < |code| && Label(i.target) in code[a];
    assert Labelled(code[a], i.target);
    t := TargetAmong(code, i.target, |code|).value;
    assert i == code[b][|code[b]| - 1];
  }

  lemma KeptTargets(code: Code, reachable: set<nat>)
    requires Partitioned(code) && TargetsDefined(Flatten(code)) && EdgeClosed(code, reachable)
    ensures TargetsDefined(Flatten(KeptCode(code, reachable)))
  {
    var q := KeptCode(code, reachable);
    FlattenMembers(q);
    forall i | i in Flatten(q) && IsJump(i)
      ensures IsDefined(Flatten(q), i.target)
    {
      var b :| 0 <= b < |q| && i in q[b];
      StripDeleted(code[b]);
      DeletedFacts(code[b], q[b]);
      var t := JumpLeads(code, b, i);
      assert t in reachable && Label(i.target) in code[t];
      StripDeleted(code[t]);
      assert Label(i.target) in q[t];
    }
  }

  lemma CleanedTargets(body: seq<Instr>)
    requires TargetsDefined(body)
    ensures TargetsDefined(Cleaned(body))
  {
    CleanedDeleted(body);
    DeletedFacts(body, Cleaned(body));
  }

  /** The graph of `body` has no block that paths from block 0 miss. */
  ghost predicate FullyReachable(body: seq<Instr>) {
    exists blocks ::
      && WellFormed(blocks) && CutsNeeded(CodeOf(blocks)) && Flatten(CodeOf(blocks)) == body
      && forall b: nat :: b < |blocks| ==> Reaches(blocks, 0, b)
  }

  /** Nothing is left for the pass to do. */
  ghost predicate Settled(body: seq<Instr>) {
    Threaded(body) == body && Cleaned(body) == body && Nop !in body && FullyReachable(body)
  }

  /** Told by positions: no Nop, no jump to the label right behind it, no jump whose label leads straight on
      to a jump whose chain ends, and every block on a path from the first. */
  ghost predicate Tidy(body: seq<Instr>) {
    && Nop !in body
    && (forall k :: 0 <= k < |body| - 1 && IsJump(body[k]) ==> body[k + 1] != Label(body[k].target))
    && (forall k, labels {:trigger body[k], Chain(body, labels)} ::
          0 <= k < |body| && IsJump(body[k]) && Chain(body, labels) && labels[0] == body[k].target ==> |labels| == 1)
    && FullyReachable(body)
  }

  lemma {:induction false} CleanedHasNone(body: seq<Instr>, k: nat)
    requires Cleaned(body) == body && k + 1 < |body| && IsJump(body[k])
    ensures body[k + 1] != Label(body[k].target)
    decreases |body|
  {
    CleanedDeleted(body[1..]);
    DeletedFacts(body[1..], Cleaned(body[1..]));
    if Redundant(body) {
      assert false;
    } else {
      assert Cleaned(body[1..]) == ([body[0]] + Cleaned(body[1..]))[1..] == body[1..];
      if k > 0 {
        CleanedHasNone(body[1..], k - 1);
      }
    }
  }

  lemma ThreadedHasNone(body: seq<Instr>, k: nat, labels: seq<Name>)
    requires Threaded(body) == body && k < |body| && IsJump(body[k])
    requires Chain(body, labels) && labels[0] == body[k].target
    ensures |labels| == 1
  {
    hide Resolve, LeadsOn, Rests, Final;
    ThreadedAt(body, k);
    ThreadedRightly(body, body[k]);
    var l := labels[0];
    LeadsOnIsNext(body, l, l);
    if |labels| > 1 {
      LeadsOnIsNext(body, l, labels[1]);
      RestsNowhereOn(body, l);
    }
  }

  lemma RestsNowhereOn(body: seq<Instr>, l: Name)
    requires Final(body, l)
    ensures NextJump(body, l).None?
  {
  }

  /** What settled bodies look like. */
  lemma SettledIsTidy(body: seq<Instr>)
    requires Settled(body)
    ensures Tidy(body)
  {
    hide LeadsOn, Rests, FullyReachable, Threaded, Cleaned;
    forall k | 0 <= k < |body| - 1 && IsJump(body[k])
      ensures body[k + 1] != Label(body[k].target)
    {
      CleanedHasNone(body, k);
    }
    forall k, labels | 0 <= k < |body| && IsJump(body[k]) && Chain(body, labels) && labels[0] == body[k].target
      ensures |labels| == 1
    {
      ThreadedHasNone(body, k, labels);
    }
  }

  /** What a pass from `body` to `result` promises. */
  ghost predicate Reduces(body: seq<Instr>, result: seq<Instr>) {
    && UniqueLabels(result)
    && (forall c, d :: Equivalent(c, [body], [result], d))
    && (TargetsDefined(body) ==> TargetsDefined(result))
  }

  lemma ReducesTransitive(p: seq<Instr>, q: seq<Instr>, r: seq<Instr>)
    requires Reduces(p, q) && Reduces(q, r)
    ensures Reduces(p, r)
  {
    forall c, d
      ensures Equivalent(c, [p], [r], d)
    {
      EquivalentTransitive(c, [p], [q], [r], d);
    }
  }

  lemma ReducesSelf(p: seq<Instr>)
    requires UniqueLabels(p)
    ensures Reduces(p, p)
  {
    forall c, d
      ensures Equivalent(c, [p], [p], d)
    {
      EquivalentReflexive(c, [p], d);
    }
  }

  lemma ThreadedUnique(body: seq<Instr>)
    requires UniqueLabels(body)
    ensures UniqueLabels(Threaded(body))
  {
    var th := Threaded(body);
    forall i, j | 0 <= i < j < |th| && th[i].Label?
      ensures th[i] != th[j]
    {
      assert th[i] == body[i] && (th[j].Label? ==> th[j] == body[j]);
    }
  }

  lemma ThreadingReduces(body: seq<Instr>)
    requires UniqueLabels(body)
    ensures Reduces(body, Threaded(body))
  {
    hide *;
    ThreadedUnique(body);
    forall c, d
      ensures Equivalent(c, [body], [Threaded(body)], d)
    {
      ThreadingPreserves(c, body, d);
    }
    if TargetsDefined(body) {
      ThreadedTargets(body);
    }
    MakeReduces(body, Threaded(body), TargetsDefined(body));
  }

  lemma MakeReduces(p: seq<Instr>, q: seq<Instr>, defined: bool)
    requires UniqueLabels(q) && forall c, d :: Equivalent(c, [p], [q], d)
    requires defined == TargetsDefined(p) && (defined ==> TargetsDefined(q))
    ensures Reduces(p, q)
  {
  }

  lemma KeepingReduces(code: Code, reachable: set<nat>)
    requires Partitioned(code) && UniqueLabels(Flatten(code)) && EdgeClosed(code, reachable)
    ensures Reduces(Flatten(code), Flatten(KeptCode(code, reachable)))
  {
    var q := KeptCode(code, reachable);
    var body, result := Flatten(code), Flatten(q);
    UniqueFromBody(code);
    KeptShape(code, reachable);
    KeptDeleted(code, reachable);
    DeletedUnique(body, result);
    hide *;
    forall c, d
      ensures Equivalent(c, [body], [result], d)
    {
      FlatteningPreserves(c, code, d);
      EquivalentSymmetric(c, code, [body], d);
      KeepingPreserves(c, code, reachable, d);
      FlatteningPreserves(c, q, d);
      EquivalentTransitive(c, [body], code, q, d);
      EquivalentTransitive(c, [body], q, [result], d);
    }
    if TargetsDefined(body) {
      KeptTargets(code, reachable);
    }
    MakeReduces(body, result, TargetsDefined(body));
  }

  lemma CleaningReduces(body: seq<Instr>)
    requires UniqueLabels(body)
    ensures Reduces(body, Cleaned(body))
  {
    CleanedDeleted(body);
    hide *;
    DeletedUnique(body, Cleaned(body));
    forall c, d
      ensures Equivalent(c, [body], [Cleaned(body)], d)
    {
      CleaningPreserves(c, body, d);
    }
    if TargetsDefined(body) {
      CleanedTargets(body);
    }
    MakeReduces(body, Cleaned(body), TargetsDefined(body));
  }

  lemma ReachableClosed(blocks: seq<BasicBlock>, reachable: set<nat>)
    requires WellFormed(blocks) && forall b :: b in reachable <==> Reaches(blocks, 0, b)
    ensures EdgeClosed(CodeOf(blocks), reachable)
  {
    var code := CodeOf(blocks);
    if blocks != [] {
      PathSelf(blocks, 0);
    }
    forall b, t: nat | b in reachable && b < |code| && Block(t) in SuccessorsOf(code, b)
      ensures t in reachable
    {
      assert HasEdge(blocks, b, t);
      ReachesNext(blocks, 0, b, t);
    }
  }

  /** Jumps that a further threading would still retarget. */
  function Pending(body: seq<Instr>): nat {
    if Threaded(body) == body then 0 else 1
  }

  /** The measure of `unreachable_code_elimination`. */
  predicate Progress(result: seq<Instr>, body: seq<Instr>) {
    |result| < |body| || (|result| == |body| && Pending(result) < Pending(body))
  }

  /** The three steps of a pass, seen from outside. */
  lemma PassFacts(body: seq<Instr>, code: Code, reachable: set<nat>, result: seq<Instr>)
    requires Flatten(code) == Threaded(body) && Cleaned(Flatten(KeptCode(code, reachable))) == result
    ensures result == body ==> Flatten(KeptCode(code, reachable)) == Threaded(body) == body
    ensures result != body ==> Progress(result, body)
  {
    var th, kept := Threaded(body), Flatten(KeptCode(code, reachable));
    KeptDeleted(code, reachable);
    DeletedFacts(th, kept);
    CleanedDeleted(kept);
    DeletedFacts(kept, result);
    ThreadingIdempotent(body);
    hide Threaded, Cleaned, Flatten, KeptCode;
  }

  lemma {:induction false} NothingDropped(p: Code, q: Code)
    requires |p| == |q| && Flatten(p) == Flatten(q) && forall b :: 0 <= b < |p| ==> |q[b]| <= |p[b]|
    ensures forall b :: 0 <= b < |p| ==> |q[b]| == |p[b]|
  {
    forall b | 0 <= b < |p|
      ensures |q[b]| == |p[b]|
    {
      Shrinks(p, q);
    }
  }

  lemma KeptBlock(code: Code, reachable: set<nat>, b: nat)
    requires b < |code|
    ensures var kept := KeptCode(code, reachable)[b];
      |kept| <= |code[b]| && Nop !in kept && (|kept| == |code[b]| > 0 ==> b in reachable)
  {
    StripDeleted(code[b]);
    DeletedFacts(code[b], StripNops(code[b]));
  }

  lemma KeptAll(code: Code, reachable: set<nat>)
    requires Flatten(KeptCode(code, reachable)) == Flatten(code) && forall b :: 0 <= b < |code| ==> code[b] != []
    ensures forall b: nat :: b < |code| ==> b in reachable
    ensures Nop !in Flatten(code)
  {
    hide KeptCode, Flatten;
    var q := KeptCode(code, reachable);
    forall b | 0 <= b < |code|
      ensures |q[b]| <= |code[b]| && Nop !in q[b] && (|q[b]| == |code[b]| ==> b in reachable)
    {
      KeptBlock(code, reachable, b);
    }
    NothingDropped(code, q);
    FlattenMembers(q);
  }

  lemma UnchangedSettled(body: seq<Instr>, blocks: seq<BasicBlock>, reachable: set<nat>)
    requires WellFormed(blocks) && CutsNeeded(CodeOf(blocks)) && Flatten(CodeOf(blocks)) == body == Threaded(body)
    requires forall b :: b in reachable <==> Reaches(blocks, 0, b)
    requires forall b :: 0 <= b < |blocks| ==> blocks[b].instructions != []
    requires Flatten(KeptCode(CodeOf(blocks), reachable)) == body == Cleaned(body)
    ensures Settled(body)
  {
    KeptAll(CodeOf(blocks), reachable);
    hide Threaded, Cleaned, WellFormed, CutsNeeded, Flatten, KeptCode;
    assert FullyReachable(body);
  }

  // ----- a settled body stays -----

  lemma {:induction false} NothingFlat(code: Code)
    requires Flatten(code) == [] && forall b :: 0 <= b < |code| ==> code[b] != []
    ensures code == []
  {
  }

  lemma NeededIsMinimal(code: Code)
    requires Partitioned(code) && CutsNeeded(code) && Flatten(code) != []
    ensures MinimalCuts(code)
  {
    forall b | 0 <= b < |code|
      ensures code[b] != []
    {
      if b > 0 {
        assert CutHere(code[b - 1], code[b]);
      } else if |code| > 1 {
        assert CutHere(code[0], code[1]);
      } else {
        assert code == [code[0]];
      }
    }
  }

  /** Graphs of the same code have the same paths. */
  lemma SameCodeReaches(p: seq<BasicBlock>, q: seq<BasicBlock>)
    requires WellFormed(p) && WellFormed(q) && CodeOf(p) == CodeOf(q)
    ensures |p| == |q| && forall b: nat :: Reaches(q, 0, b) ==> Reaches(p, 0, b)
  {
    assert |CodeOf(p)| == |p| && |CodeOf(q)| == |q|;
    hide Partitioned, UniqueBlockLabels, EntryFirst, EdgesMatch, SuccessorsOf, CodeOf;
    assert forall a, b :: HasEdge(q, a, b) ==> HasEdge(p, a, b);
    forall b: nat | Reaches(q, 0, b)
      ensures Reaches(p, 0, b)
    {
      var path :| IsPath(q, path, 0, b);
      assert IsPath(p, path, 0, b);
    }
  }

  /** Whatever graph is built from a fully reachable body, all its blocks are reached. */
  lemma SettledReached(body: seq<Instr>, blocks: seq<BasicBlock>)
    requires FullyReachable(body) && WellFormed(blocks) && MinimalCuts(CodeOf(blocks))
      && Flatten(CodeOf(blocks)) == body
    ensures forall b: nat :: b < |blocks| ==> Reaches(blocks, 0, b)
  {
    var other :| WellFormed(other) && CutsNeeded(CodeOf(other)) && Flatten(CodeOf(other)) == body
      && forall b: nat :: b < |other| ==> Reaches(other, 0, b);
    if body == [] {
      NothingFlat(CodeOf(blocks));
    } else {
      NeededIsMinimal(CodeOf(other));
      CutsUnique(CodeOf(blocks), CodeOf(other));
      hide WellFormed, MinimalCuts, CutsNeeded, Flatten, Reaches;
      SameCodeReaches(blocks, other);
    }
  }

  lemma {:induction false} NoNops(instrs: seq<Instr>)
    requires Nop !in instrs
    ensures StripNops(instrs) == instrs
  {
    if instrs != [] {
      NoNops(instrs[1..]);
    }
  }

  lemma KeptWhole(code: Code, reachable: set<nat>)
    requires Nop !in Flatten(code) && forall b :: 0 <= b < |code| ==> b in reachable
    ensures KeptCode(code, reachable) == code
  {
    FlattenMembers(code);
    forall b | 0 <= b < |code|
      ensures StripNops(code[b]) == code[b]
    {
      NoNops(code[b]);
    }
  }

  lemma SettledUnchanged(body: seq<Instr>, blocks: seq<BasicBlock>, reachable: set<nat>)
    requires Settled(body) && WellFormed(blocks) && MinimalCuts(CodeOf(blocks))
      && Flatten(CodeOf(blocks)) == Threaded(body)
    requires forall b :: b in reachable <==> Reaches(blocks, 0, b)
    ensures Cleaned(Flatten(KeptCode(CodeOf(blocks), reachable))) == body
  {
    hide WellFormed, MinimalCuts, Flatten, KeptCode, Threaded, Cleaned, FullyReachable;
    SettledReached(body, blocks);
    KeptWhole(CodeOf(blocks), reachable);
  }

  lemma MinimalBuilt(blocks: seq<BasicBlock>)
    requires Partitioned(CodeOf(blocks)) && CutsNeeded(CodeOf(blocks))
    requires forall b :: 0 <= b < |blocks| ==> blocks[b].instructions != []
    ensures MinimalCuts(CodeOf(blocks))
  {
    hide Partitioned, CutsNeeded;
  }

  /** `unreachable_code_pass` */
  method UnreachableCodePass(instructions: seq<Instr>) returns (result: seq<Instr>, changed: bool)
    requires UniqueLabels(instructions)
    ensures Reduces(instructions, result)
    ensures changed <==> result != instructions
    ensures changed ==> Progress(result, instructions)
    ensures !changed ==> Settled(result)
    ensures Settled(instructions) ==> result == instructions
  {
    hide *;
    var threaded, threadedChanged := ThreadJumpChains(instructions);
    ThreadingReduces(instructions);
    ThreadedUnique(instructions);
    var cfg := new Cfg.Build(threaded);
    ghost var code := CodeOf(cfg.blocks);
    BuiltGraph(cfg.blocks);
    var reachable := ReachableBlocks(cfg.blocks);
    ReachableClosed(cfg.blocks, reachable);
    var kept, dropped := KeepReachable(cfg.blocks, reachable);
    KeepingReduces(code, reachable);
    ReducesTransitive(instructions, threaded, kept);
    ReducesUnique(instructions, kept);
    var cleanedChanged;
    result, cleanedChanged := RemoveRedundantFallthroughJumps(kept);
    CleaningReduces(kept);
    ReducesTransitive(instructions, kept, result);
    changed := dropped || cleanedChanged || threadedChanged;
    PassFacts(instructions, code, reachable, result);
    if !changed {
      UnchangedSettled(instructions, cfg.blocks, reachable);
    }
    MinimalBuilt(cfg.blocks);
    if Settled(instructions) {
      SettledUnchanged(instructions, cfg.blocks, reachable);
    }
  }

  lemma ReducesUnique(p: seq<Instr>, q: seq<Instr>)
    requires Reduces(p, q)
    ensures UniqueLabels(q)
  {
  }

  lemma BuiltGraph(blocks: seq<BasicBlock>)
    requires WellFormed(blocks)
    ensures EdgesMatch(blocks) && Partitioned(CodeOf(blocks)) && forall b :: 0 <= b < |blocks| ==> blocks[b].id == b
  {
  }

  /** `unreachable_code_elimination`: it terminates, preserves behaviour for every machine,
      keeps jump targets defined, and leaves nothing for another pass. */
  method UnreachableCodeElimination(instructions: seq<Instr>) returns (result: seq<Instr>, changed: bool)
    requires UniqueLabels(instructions)
    ensures Reduces(instructions, result) && Settled(result) && Tidy(result)
    ensures changed <==> result != instructions
    ensures Settled(instructions) ==> result == instructions
  {
    hide Reduces, Settled, Tidy, Threaded, UniqueLabels, Pending;
    result, changed := instructions, false;
    ReducesSelf(instructions);
    while true
      invariant Reduces(instructions, result)
      invariant if changed then Progress(result, instructions) && !Settled(instructions) else result == instructions
      decreases |result|, Pending(result)
    {
      ReducesUnique(instructions, result);
      var next, didChange := UnreachableCodePass(result);
      ReducesTransitive(instructions, result, next);
      result := next;
      if !didChange {
        SettledIsTidy(result);
        return;
      }
      changed := true;
    }
  }
}
