/** The whole pass, on graphs whose hoistable temporaries are defined once, before their reads. */
module MotionPass {
  import opened Tacky
  import opened Semantics
  import opened Behaviour
  import opened ControlFlow
  import opened Effects
  import opened Preservation
  import opened Paths
  import opened Dominators
  import opened Loops
  import opened HoistingRuns
  import opened Hoisting
  import opened LoopMotion
  import opened MotionSafety
  import opened LoopDepth
  import opened MotionAnswers

  // ----- reads and definitions of one variable in a block -----

  ghost predicate Reads(instrs: seq<Instr>, x: Name) {
    exists i :: i in instrs && x in SourceVars(i)
  }

  /** Nothing reads `x` before the block has defined it. */
  predicate NoEarlyRead(instrs: seq<Instr>, x: Name) {
    instrs == [] || (x !in SourceVars(instrs[0]) && (DefinedVar(instrs[0]) == Some(x) || NoEarlyRead(instrs[1..], x)))
  }

  lemma {:induction false} CountAppend(f: seq<Instr>, g: seq<Instr>, x: Name)
    ensures CountDefs(f + g, x) == CountDefs(f, x) + CountDefs(g, x)
  {
    if f == [] {
      assert f + g == g;
    } else {
      assert (f + g)[1..] == f[1..] + g;
      CountAppend(f[1..], g, x);
    }
  }

  lemma {:induction false} CountZero(instrs: seq<Instr>, x: Name)
    ensures CountDefs(instrs, x) == 0 <==> forall i :: i in instrs ==> DefinedVar(i) != Some(x)
  {
    if instrs != [] {
      CountZero(instrs[1..], x);
    }
  }

  lemma {:induction false} EarlyKept(lim: Limits, info: LoopInfo, instrs: seq<Instr>, defs: set<Name>, x: Name)
    requires NoEarlyRead(instrs, x) && CountDefs(Picks(lim, info, instrs, defs), x) == 0
    ensures NoEarlyRead(Keeps(lim, info, instrs, defs), x)
  {
    if instrs != [] {
      var i, rest := instrs[0], instrs[1..];
      if IsCandidate(lim, info, i, defs) {
        var next := defs + {Dst(i)};
        assert Picks(lim, info, instrs, defs)[1..] == Picks(lim, info, rest, next);
        EarlyKept(lim, info, rest, next, x);
      } else {
        assert Keeps(lim, info, instrs, defs)[1..] == Keeps(lim, info, rest, defs);
        if DefinedVar(i) != Some(x) {
          EarlyKept(lim, info, rest, defs, x);
        }
      }
      hide IsCandidate;
    }
  }

  lemma {:induction false} EarlyAppend(f: seq<Instr>, g: seq<Instr>, x: Name)
    requires NoEarlyRead(f, x) && CountDefs(f, x) > 0
    ensures NoEarlyRead(f + g, x)
  {
    assert (f + g)[1..] == f[1..] + g;
    if DefinedVar(f[0]) != Some(x) {
      EarlyAppend(f[1..], g, x);
    }
  }

  lemma {:induction false} EarlySkip(f: seq<Instr>, g: seq<Instr>, x: Name)
    requires !Reads(f, x) && NoEarlyRead(g, x)
    ensures NoEarlyRead(f + g, x)
  {
    if f == [] {
      assert f + g == g;
    } else {
      assert f[0] in f;
      assert (f + g)[1..] == f[1..] + g;
      assert forall i :: i in f[1..] ==> i in f;
      EarlySkip(f[1..], g, x);
    }
  }

  lemma {:induction false} EarlyFront(f: seq<Instr>, g: seq<Instr>, x: Name)
    requires NoEarlyRead(f + g, x)
    ensures NoEarlyRead(f, x)
  {
    if f != [] {
      assert (f + g)[1..] == f[1..] + g;
      if DefinedVar(f[0]) != Some(x) {
        EarlyFront(f[1..], g, x);
      }
    }
  }

  lemma {:induction false} EarlyInOrder(hoisted: seq<Instr>, x: Name)
    requires forall j, k ::
      0 <= j <= k < |hoisted| && DefinedVar(hoisted[k]) == Some(x) ==> x !in SourceVars(hoisted[j])
    requires CountDefs(hoisted, x) > 0
    ensures NoEarlyRead(hoisted, x)
  {
    CountZero(hoisted, x);
    var i :| i in hoisted && DefinedVar(i) == Some(x);
    var k :| 0 <= k < |hoisted| && hoisted[k] == i;
    if DefinedVar(hoisted[0]) != Some(x) {
      var rest := hoisted[1..];
      assert forall j :: 0 <= j < |rest| ==> rest[j] == hoisted[j + 1];
      EarlyInOrder(rest, x);
    }
  }

  lemma {:induction false} EarlyBefore(instrs: seq<Instr>, x: Name, j: nat, k: nat)
    requires NoEarlyRead(instrs, x) && CountDefs(instrs, x) <= 1
    requires j < k < |instrs| && DefinedVar(instrs[k]) == Some(x)
    ensures x !in SourceVars(instrs[j])
  {
    if j > 0 {
      if DefinedVar(instrs[0]) == Some(x) {
        CountTwo(instrs, 0, k, x);
      }
      EarlyBefore(instrs[1..], x, j - 1, k - 1);
    }
  }

  // ----- counts over the blocks of a code -----

  lemma {:induction false} LoopDefsUpdate(code: Code, members: set<nat>, x: Name, n: nat, b: nat, instrs: seq<Instr>)
    requires n <= |code| && b < |code|
    ensures LoopDefs(code[b := instrs], members, x, n) + (if b in members && b < n then CountDefs(code[b], x) else 0)
         == LoopDefs(code, members, x, n) + (if b in members && b < n then CountDefs(instrs, x) else 0)
  {
    if n > 0 {
      LoopDefsUpdate(code, members, x, n - 1, b, instrs);
    }
  }

  // ----- tidy temporaries -----

  ghost predicate Temporary(lim: Limits, x: Name) {
    IsLicmTemporary(x) && x !in lim.aliased && x !in lim.statics
  }

  /** One definition in the whole function, which comes before every read on every path. */
  ghost predicate DefinedOnceFirst(blocks: seq<BasicBlock>, x: Name) {
    var code := CodeOf(blocks);
    && LoopDefs(code, BlockSet(|code|), x, |code|) <= 1
    && forall a: nat :: a < |code| && CountDefs(code[a], x) > 0 ==>
         NoEarlyRead(code[a], x) && ReadsDominated(blocks, a, x)
  }

  ghost predicate ReadsDominated(blocks: seq<BasicBlock>, a: nat, x: Name) {
    forall b: nat :: b < |blocks| && b != a && Reads(blocks[b].instructions, x) ==> Dominates(blocks, a, b)
  }

  /** No loop holds exactly one definition, so the pass leaves the variable alone. */
  ghost predicate NeverAlone(blocks: seq<BasicBlock>, x: Name) {
    forall e :: IsBackEdge(blocks, e) ==> LoopDefs(CodeOf(blocks), e.members, x, |blocks|) != 1
  }

  ghost predicate Tidy(blocks: seq<BasicBlock>, lim: Limits) {
    forall x :: Temporary(lim, x) ==> DefinedOnceFirst(blocks, x) || NeverAlone(blocks, x)
  }

  /** A block no loop starts at, and no conditional jump whose two edges are one. */
  ghost predicate GoodShape(blocks: seq<BasicBlock>) {
    && (forall t: nat :: !HasEdge(blocks, t, 0))
    && (forall b: nat :: b < |blocks| && EndingOf(blocks[b].instructions).Branches? ==> |blocks[b].successors| > 1)
    && AllReached(blocks)
  }

  /** The graph, the move, and what both have become. */
  ghost predicate Moving(blocks: seq<BasicBlock>, lim: Limits, mv: Move) {
    && WellFormed(blocks) && GoodShape(blocks) && IsMove(blocks, lim, mv) && CodeConfined(CodeOf(blocks), lim.aliased)
  }

  lemma MovingFacts(blocks: seq<BasicBlock>, lim: Limits, mv: Move)
    requires Moving(blocks, lim, mv)
    ensures var e, code := mv.edge, CodeOf(blocks);
      && e.header < |blocks| && mv.preheader < |blocks| && e.header != mv.preheader && e.header != 0
      && PreheaderFalls(blocks, mv.preheader)
      && Chosen(code, e.members, e.header, lim, mv.info, mv.hoist.hoisted)
      && CodeOf(AfterMove(blocks, lim, mv))
         == code[e.header := Keeps(lim, mv.info, code[e.header], {})][mv.preheader := Inserted(code[mv.preheader],
           mv.hoist.hoisted)]
  {
    MoveFacts(blocks, lim, mv);
    ReachedMove(blocks, lim, mv);
    assert HasEdge(blocks, mv.edge.tail, mv.edge.header);
    assert blocks[mv.preheader].successors == [Block(mv.edge.header)];
    hide WellFormed, HoistUpTo, Keeps, Picks, Inserted, IsInfo, Chosen, EndingOf;
  }

  lemma InsertedCount(instrs: seq<Instr>, hoisted: seq<Instr>, x: Name)
    ensures CountDefs(Inserted(instrs, hoisted), x) == CountDefs(instrs, x) + CountDefs(hoisted, x)
  {
    if instrs != [] && instrs[|instrs| - 1].Jump? {
      var front, last := instrs[..|instrs| - 1], [instrs[|instrs| - 1]];
      assert instrs == front + last;
      CountAppend(front, last, x);
      CountAppend(front, hoisted, x);
      CountAppend(front + hoisted, last, x);
    } else {
      CountAppend(instrs, hoisted, x);
    }
  }

  /** How a move changes the number of definitions of `x` in each block. */
  lemma MovedCounts(blocks: seq<BasicBlock>, lim: Limits, mv: Move, x: Name, a: nat)
    requires Moving(blocks, lim, mv) && a < |blocks|
    ensures var was, now, h := CountDefs(blocks[a].instructions, x),
      CountDefs(CodeOf(AfterMove(blocks, lim, mv))[a], x), CountDefs(mv.hoist.hoisted, x);
      if a == mv.edge.header then now + h == was else if a == mv.preheader then now == was + h else now == was
  {
    MovingFacts(blocks, lim, mv);
    SplitFacts(lim, mv.info, blocks[mv.edge.header].instructions, {}, x);
    InsertedCount(blocks[mv.preheader].instructions, mv.hoist.hoisted, x);
    hide Keeps, Picks, Inserted, CountDefs;
  }

  /** Taking definitions out of one block and putting as many into another keeps a total over both. */
  lemma TotalsShift(code: Code, members: set<nat>, x: Name, h: nat, p: nat, left: seq<Instr>, more: seq<Instr>, n: nat)
    requires h < |code| && p < |code| && h != p && (n == 0 || (h in members && p in members))
    requires CountDefs(code[h], x) == CountDefs(left, x) + n && CountDefs(more, x) == CountDefs(code[p], x) + n
    ensures LoopDefs(code[h := left][p := more], members, x, |code|) == LoopDefs(code, members, x, |code|)
  {
    LoopDefsUpdate(code, members, x, |code|, h, left);
    LoopDefsUpdate(code[h := left], members, x, |code|, p, more);
    hide CountDefs, LoopDefs;
  }

  /** The total over a set that holds header and preheader, or of an unmoved variable, stays. */
  lemma MovedTotals(blocks: seq<BasicBlock>, lim: Limits, mv: Move, x: Name, members: set<nat>)
    requires Moving(blocks, lim, mv)
    requires CountDefs(mv.hoist.hoisted, x) == 0 || (mv.edge.header in members && mv.preheader in members)
    ensures LoopDefs(CodeOf(AfterMove(blocks, lim, mv)), members, x, |blocks|)
      == LoopDefs(CodeOf(blocks), members, x, |blocks|)
  {
    hide Keeps, Picks, Inserted, CountDefs, LoopDefs, WellFormed, GoodShape, CodeConfined, PreheaderFalls;
    var code, h, p, hoisted := CodeOf(blocks), mv.edge.header, mv.preheader, mv.hoist.hoisted;
    MovingFacts(blocks, lim, mv);
    SplitFacts(lim, mv.info, code[h], {}, x);
    InsertedCount(code[p], hoisted, x);
    TotalsShift(code, members, x, h, p, Keeps(lim, mv.info, code[h], {}), Inserted(code[p], hoisted),
      CountDefs(hoisted, x));
  }

  // ----- dominance around a preheader -----

  lemma DominatesTransitive(blocks: seq<BasicBlock>, a: nat, b: nat, d: nat)
    requires Dominates(blocks, a, b) && Dominates(blocks, b, d)
    ensures Dominates(blocks, a, d)
  {
    forall r: nat, path | IsRoot(blocks, r) && IsPath(blocks, path, r, d)
      ensures a in path
    {
      assert b in path;
      var k :| 0 <= k < |path| && path[k] == b;
      assert IsPath(blocks, path[..k + 1], r, b);
      assert a in path[..k + 1];
    }
  }

  lemma {:induction false} FirstEntry(blocks: seq<BasicBlock>, e: BackEdge, p: nat, r: nat, path: seq<nat>)
    requires EdgesMatch(blocks) && IsBackEdge(blocks, e) && e.header != 0 && p !in e.members
    requires forall a: nat :: HasEdge(blocks, a, e.header) && a !in e.members ==> a == p
    requires IsRoot(blocks, r) && IsPath(blocks, path, r, e.header)
    ensures p in path
    decreases |path|
  {
    if |path| == 1 {
      PredecessorEdge(blocks, e.tail, e.header);
      assert false;
    } else {
      PathInit(blocks, path, r, e.header);
      var a, front := path[|path| - 2], path[..|path| - 1];
      if a in e.members {
        HeaderDominatesLoop(blocks, e.header, e.tail, a);
        assert e.header in front;
        var k :| 0 <= k < |front| && front[k] == e.header;
        assert IsPath(blocks, front[..k + 1], r, e.header);
        FirstEntry(blocks, e, p, r, front[..k + 1]);
      }
    }
  }

  /** The preheader dominates the header. */
  lemma PreheaderDominates(blocks: seq<BasicBlock>, lim: Limits, mv: Move)
    requires Moving(blocks, lim, mv)
    ensures Dominates(blocks, mv.preheader, mv.edge.header)
  {
    MovingFacts(blocks, lim, mv);
    MoveFacts(blocks, lim, mv);
    forall r: nat, path | IsRoot(blocks, r) && IsPath(blocks, path, r, mv.edge.header)
      ensures mv.preheader in path
    {
      FirstEntry(blocks, mv.edge, mv.preheader, r, path);
    }
  }

  lemma NotMutual(blocks: seq<BasicBlock>, a: nat, b: nat)
    requires Dominates(blocks, a, b) && a != b && Reached(blocks, b)
    ensures !Dominates(blocks, b, a)
  {
    if Dominates(blocks, b, a) {
      var r: nat :| IsRoot(blocks, r) && Reaches(blocks, r, b);
      var path :| IsPath(blocks, path, r, b);
      MutualDominance(blocks, a, b, r, path);
    }
  }

  // ----- variables that do not move -----

  lemma MovingIsMove(blocks: seq<BasicBlock>, lim: Limits, mv: Move)
    requires Moving(blocks, lim, mv)
    ensures IsMove(blocks, lim, mv) && mv.edge.header in mv.edge.members
  {
    MoveEdge(blocks, lim, mv);
  }

  /** A temporary a moved instruction reads is not assigned in the loop, or was moved before. */
  lemma HoistedOperand(blocks: seq<BasicBlock>, lim: Limits, mv: Move, x: Name, k: nat)
    requires Moving(blocks, lim, mv) && Temporary(lim, x) && k < |mv.hoist.hoisted|
      && x in SourceVars(mv.hoist.hoisted[k])
    ensures LoopDefs(CodeOf(blocks), mv.edge.members, x, |blocks|) == 0
         || exists o :: 0 <= o < k && DefinedVar(mv.hoist.hoisted[o]) == Some(x)
  {
    MovingFacts(blocks, lim, mv);
    var code, h, hoisted := CodeOf(blocks), mv.edge.header, mv.hoist.hoisted;
    assert CountOf(mv.info.counts, x) == LoopDefs(code, mv.edge.members, x, |code|);
    hide IsCandidate, LoopDefs, Picks, IsMove, WellFormed, GoodShape, Keeps, Inserted, CodeConfined, Chosen, SourceVars;
    ChosenItem(code, mv.edge.members, h, lim, mv.info, hoisted, k);
    TakesAliased(code, h, hoisted[k], lim.aliased, x);
    CandidateReads(lim, mv.info, hoisted[k], Dsts(hoisted[..k]), x);
    if x in Dsts(hoisted[..k]) {
      var o :| 0 <= o < k && DefinedVar(hoisted[..k][o]).Some? && Dst(hoisted[..k][o]) == x;
      assert hoisted[..k][o] == hoisted[o];
    }
  }

  lemma TakesAliased(code: Code, b: nat, i: Instr, aliased: set<Name>, x: Name)
    requires CodeConfined(code, aliased) && b < |code| && i in code[b] && x in SourceVars(i)
    ensures i.GetAddress? ==> x in aliased
  {
  }

  lemma CandidateReads(lim: Limits, info: LoopInfo, i: Instr, defs: set<Name>, x: Name)
    requires IsCandidate(lim, info, i, defs) && x in SourceVars(i) && !i.GetAddress?
    ensures CountOf(info.counts, x) == 0 || x in defs
  {
    assert OperandInvariant(lim, info, x, defs);
  }

  lemma HoistedReads(blocks: seq<BasicBlock>, lim: Limits, mv: Move, x: Name)
    requires Moving(blocks, lim, mv) && Temporary(lim, x) && Reads(mv.hoist.hoisted, x)
      && CountDefs(mv.hoist.hoisted, x) == 0
    ensures mv.edge.header < |blocks| && Reads(blocks[mv.edge.header].instructions, x)
    ensures CountDefs(blocks[mv.edge.header].instructions, x) == 0
  {
    hide IsCandidate, LoopDefs, Moving, Keeps, Inserted, CountDefs, Chosen, SourceVars;
    MovingFacts(blocks, lim, mv);
    MovingIsMove(blocks, lim, mv);
    var code, h, hoisted, members := CodeOf(blocks), mv.edge.header, mv.hoist.hoisted, mv.edge.members;
    var i :| i in hoisted && x in SourceVars(i);
    var k :| 0 <= k < |hoisted| && hoisted[k] == i;
    ChosenItem(code, members, h, lim, mv.info, hoisted, k);
    HoistedOperand(blocks, lim, mv, x, k);
    CountZero(hoisted, x);
    LoopDefsAtLeast(code, members, x, |code|, h, h);
  }

  lemma InsertedReads(instrs: seq<Instr>, hoisted: seq<Instr>, x: Name)
    requires Reads(Inserted(instrs, hoisted), x)
    ensures Reads(instrs, x) || Reads(hoisted, x)
  {
    var i :| i in Inserted(instrs, hoisted) && x in SourceVars(i);
    assert i in instrs || i in hoisted;
    hide SourceVars;
  }

  lemma KeptReads(lim: Limits, info: LoopInfo, instrs: seq<Instr>, x: Name)
    requires Reads(Keeps(lim, info, instrs, {}), x)
    ensures Reads(instrs, x)
  {
    SplitMembers(lim, info, instrs, {});
    var i :| i in Keeps(lim, info, instrs, {}) && x in SourceVars(i);
    hide Keeps, Picks, SourceVars;
  }

  /** Where a block reads `x` after a move: it read it before, or it is the preheader and the
      moved instructions read it. */
  lemma MovedReads(blocks: seq<BasicBlock>, lim: Limits, mv: Move, x: Name, b: nat)
    requires Moving(blocks, lim, mv) && b < |blocks| && Reads(CodeOf(AfterMove(blocks, lim, mv))[b], x)
    ensures Reads(blocks[b].instructions, x) || (b == mv.preheader && Reads(mv.hoist.hoisted, x))
  {
    MovingFacts(blocks, lim, mv);
    if b == mv.preheader {
      InsertedReads(blocks[b].instructions, mv.hoist.hoisted, x);
    } else if b == mv.edge.header {
      KeptReads(lim, mv.info, blocks[b].instructions, x);
    }
    hide Keeps, Picks, Inserted, Reads, Moving;
  }

  lemma InsertedEarly(instrs: seq<Instr>, hoisted: seq<Instr>, x: Name)
    requires NoEarlyRead(instrs, x) && CountDefs(instrs, x) > 0
    ensures NoEarlyRead(Inserted(instrs, hoisted), x)
  {
    if instrs != [] && instrs[|instrs| - 1].Jump? {
      var front, last := instrs[..|instrs| - 1], [instrs[|instrs| - 1]];
      assert instrs == front + last;
      CountAppend(front, last, x);
      EarlyFront(front, last, x);
      EarlyAppend(front, hoisted + last, x);
      assert front + (hoisted + last) == front + hoisted + last;
    } else {
      EarlyAppend(instrs, hoisted, x);
    }
  }

  lemma UnmovedEarly(blocks: seq<BasicBlock>, lim: Limits, mv: Move, x: Name, a: nat)
    requires Moving(blocks, lim, mv) && CountDefs(mv.hoist.hoisted, x) == 0
    requires a < |blocks| && CountDefs(blocks[a].instructions, x) > 0 && NoEarlyRead(blocks[a].instructions, x)
    ensures NoEarlyRead(CodeOf(AfterMove(blocks, lim, mv))[a], x)
  {
    MovingFacts(blocks, lim, mv);
    if a == mv.edge.header {
      EarlyKept(lim, mv.info, blocks[a].instructions, {}, x);
    } else if a == mv.preheader {
      InsertedEarly(blocks[a].instructions, mv.hoist.hoisted, x);
    }
    hide Keeps, Picks, Inserted, NoEarlyRead, Moving;
  }

  lemma UnmovedDominated(blocks: seq<BasicBlock>, lim: Limits, mv: Move, x: Name, a: nat, b: nat)
    requires Moving(blocks, lim, mv) && Temporary(lim, x) && CountDefs(mv.hoist.hoisted, x) == 0
    requires a < |blocks| && CountDefs(blocks[a].instructions, x) > 0 && ReadsDominated(blocks, a, x)
    requires b < |blocks| && b != a && Reads(CodeOf(AfterMove(blocks, lim, mv))[b], x)
    ensures Dominates(blocks, a, b)
  {
    MovedReads(blocks, lim, mv, x, b);
    if !Reads(blocks[b].instructions, x) {
      HoistedReads(blocks, lim, mv, x);
      MoveFacts(blocks, lim, mv);
      assert Dominates(blocks, a, mv.edge.header);
      DominatesPredecessor(blocks, a, b, mv.edge.header);
    }
  }

  // ----- variables that move -----

  /** The moved variable was defined in the header, and nowhere else. */
  lemma MovedOnlyInHeader(blocks: seq<BasicBlock>, lim: Limits, mv: Move, x: Name, a: nat)
    requires Moving(blocks, lim, mv) && DefinedOnceFirst(blocks, x) && CountDefs(mv.hoist.hoisted, x) > 0
    requires a < |blocks| && CountDefs(CodeOf(AfterMove(blocks, lim, mv))[a], x) > 0
    ensures a == mv.preheader && mv.edge.header < |blocks| && CountDefs(blocks[mv.edge.header].instructions, x) > 0
  {
    var code, h := CodeOf(blocks), mv.edge.header;
    MovingFacts(blocks, lim, mv);
    MovedCounts(blocks, lim, mv, x, a);
    MovedCounts(blocks, lim, mv, x, h);
    LoopDefsAtLeast(code, BlockSet(|code|), x, |code|, h, a);
    hide CountDefs, LoopDefs, Moving, NoEarlyRead, ReadsDominated, Keeps, Inserted, Chosen;
  }

  lemma MovedNotReadBefore(blocks: seq<BasicBlock>, lim: Limits, mv: Move, x: Name)
    requires Moving(blocks, lim, mv) && mv.edge.header < |blocks| && mv.preheader < |blocks|
    requires ReadsDominated(blocks, mv.edge.header, x)
    ensures !Reads(blocks[mv.preheader].instructions, x)
  {
    MovingFacts(blocks, lim, mv);
    PreheaderDominates(blocks, lim, mv);
    NotMutual(blocks, mv.preheader, mv.edge.header);
  }

  lemma HoistedEarly(blocks: seq<BasicBlock>, lim: Limits, mv: Move, x: Name)
    requires Moving(blocks, lim, mv) && Temporary(lim, x) && CountDefs(mv.hoist.hoisted, x) > 0
    ensures NoEarlyRead(mv.hoist.hoisted, x)
  {
    MovingFacts(blocks, lim, mv);
    var code, h, hoisted, members := CodeOf(blocks), mv.edge.header, mv.hoist.hoisted, mv.edge.members;
    hide Moving, IsCandidate, LoopDefs, Picks, Keeps, Inserted, SourceVars;
    forall j, k | 0 <= j <= k < |hoisted| && DefinedVar(hoisted[k]) == Some(x)
      ensures x !in SourceVars(hoisted[j])
    {
      ChosenItem(code, members, h, lim, mv.info, hoisted, k);
      if x in SourceVars(hoisted[j]) {
        HoistedOperand(blocks, lim, mv, x, j);
        var o :| 0 <= o < j && DefinedVar(hoisted[o]) == Some(x);
        ChosenDistinct(code, members, h, lim, mv.info, hoisted, o, k);
      }
    }
    EarlyInOrder(hoisted, x);
  }

  lemma InsertedFresh(instrs: seq<Instr>, hoisted: seq<Instr>, x: Name)
    requires !Reads(instrs, x) && NoEarlyRead(hoisted, x) && CountDefs(hoisted, x) > 0
    ensures NoEarlyRead(Inserted(instrs, hoisted), x)
  {
    hide NoEarlyRead, SourceVars, CountDefs;
    if instrs != [] && instrs[|instrs| - 1].Jump? {
      var front, last := instrs[..|instrs| - 1], [instrs[|instrs| - 1]];
      EarlyAppend(hoisted, last, x);
      assert forall i :: i in front ==> i in instrs;
      EarlySkip(front, hoisted + last, x);
      assert front + (hoisted + last) == Inserted(instrs, hoisted);
    } else {
      EarlySkip(instrs, hoisted, x);
    }
  }

  lemma MovedEarly(blocks: seq<BasicBlock>, lim: Limits, mv: Move, x: Name)
    requires Moving(blocks, lim, mv) && Temporary(lim, x) && CountDefs(mv.hoist.hoisted, x) > 0
    requires mv.edge.header < |blocks| && mv.preheader < |blocks| && ReadsDominated(blocks, mv.edge.header, x)
    ensures NoEarlyRead(CodeOf(AfterMove(blocks, lim, mv))[mv.preheader], x)
  {
    MovingFacts(blocks, lim, mv);
    hide Moving, Keeps, Inserted, ReadsDominated, NoEarlyRead, Reads, CountDefs;
    MovedNotReadBefore(blocks, lim, mv, x);
    HoistedEarly(blocks, lim, mv, x);
    InsertedFresh(blocks[mv.preheader].instructions, mv.hoist.hoisted, x);
  }

  lemma MovedDominated(blocks: seq<BasicBlock>, lim: Limits, mv: Move, x: Name, b: nat)
    requires Moving(blocks, lim, mv) && mv.edge.header < |blocks| && ReadsDominated(blocks, mv.edge.header, x)
    requires b < |blocks| && b != mv.preheader && Reads(CodeOf(AfterMove(blocks, lim, mv))[b], x)
    ensures Dominates(blocks, mv.preheader, b)
  {
    MovedReads(blocks, lim, mv, x, b);
    PreheaderDominates(blocks, lim, mv);
    if b != mv.edge.header {
      DominatesTransitive(blocks, mv.preheader, mv.edge.header, b);
    }
  }

  // ----- what a move keeps, and why it is safe -----

  lemma HoistedDefines(blocks: seq<BasicBlock>, lim: Limits, mv: Move, x: Name)
    requires Moving(blocks, lim, mv) && CountDefs(mv.hoist.hoisted, x) > 0
    ensures LoopDefs(CodeOf(blocks), mv.edge.members, x, |blocks|) == 1
    ensures Temporary(lim, x)
  {
    MovingFacts(blocks, lim, mv);
    var hoisted := mv.hoist.hoisted;
    CountZero(hoisted, x);
    var i :| i in hoisted && DefinedVar(i) == Some(x);
    var k :| 0 <= k < |hoisted| && hoisted[k] == i;
    ChosenItem(CodeOf(blocks), mv.edge.members, mv.edge.header, lim, mv.info, hoisted, k);
    hide LoopDefs, Picks, Keeps, Inserted, Moving, Chosen;
  }

  lemma MoveSameGraph(blocks: seq<BasicBlock>, lim: Limits, mv: Move)
    requires IsMove(blocks, lim, mv)
    ensures SameGraph(blocks, AfterMove(blocks, lim, mv))
  {
  }

  lemma NeverAloneKept(blocks: seq<BasicBlock>, lim: Limits, mv: Move, x: Name)
    requires Moving(blocks, lim, mv) && NeverAlone(blocks, x)
    ensures NeverAlone(AfterMove(blocks, lim, mv), x)
  {
    hide LoopDefs, CountDefs, Moving, AfterMove, Dominates, InLoop, WellFormed;
    MovingIsMove(blocks, lim, mv);
    var next := AfterMove(blocks, lim, mv);
    if CountDefs(mv.hoist.hoisted, x) > 0 {
      HoistedDefines(blocks, lim, mv, x);
      MoveEdge(blocks, lim, mv);
    }
    MoveSameGraph(blocks, lim, mv);
    SameDominance(blocks, next);
    forall e | IsBackEdge(next, e)
      ensures LoopDefs(CodeOf(next), e.members, x, |next|) != 1
    {
      assert IsBackEdge(blocks, e);
      MovedTotals(blocks, lim, mv, x, e.members);
    }
  }

  lemma UnmovedKept(blocks: seq<BasicBlock>, lim: Limits, mv: Move, x: Name)
    requires Moving(blocks, lim, mv) && Temporary(lim, x) && DefinedOnceFirst(blocks, x)
    requires CountDefs(mv.hoist.hoisted, x) == 0
    ensures DefinedOnceFirst(AfterMove(blocks, lim, mv), x)
  {
    var code, next := CodeOf(blocks), AfterMove(blocks, lim, mv);
    MovedTotals(blocks, lim, mv, x, BlockSet(|code|));
    MoveSameGraph(blocks, lim, mv);
    SameDominance(blocks, next);
    hide LoopDefs, CountDefs, Moving, AfterMove, Dominates, NoEarlyRead, Reads;
    forall a: nat | a < |next| && CountDefs(CodeOf(next)[a], x) > 0
      ensures NoEarlyRead(CodeOf(next)[a], x) && ReadsDominated(next, a, x)
    {
      MovedCounts(blocks, lim, mv, x, a);
      UnmovedEarly(blocks, lim, mv, x, a);
      forall b: nat | b < |next| && b != a && Reads(next[b].instructions, x)
        ensures Dominates(next, a, b)
      {
        UnmovedDominated(blocks, lim, mv, x, a, b);
      }
    }
  }

  lemma MovedReadsDominated(blocks: seq<BasicBlock>, lim: Limits, mv: Move, x: Name)
    requires Moving(blocks, lim, mv) && mv.edge.header < |blocks| && ReadsDominated(blocks, mv.edge.header, x)
    ensures ReadsDominated(AfterMove(blocks, lim, mv), mv.preheader, x)
  {
    var next := AfterMove(blocks, lim, mv);
    MoveSameGraph(blocks, lim, mv);
    SameDominance(blocks, next);
    hide Moving, AfterMove, Dominates, Reads;
    forall b: nat | b < |next| && b != mv.preheader && Reads(next[b].instructions, x)
      ensures Dominates(next, mv.preheader, b)
    {
      MovedDominated(blocks, lim, mv, x, b);
    }
  }

  lemma MovedDefines(blocks: seq<BasicBlock>, lim: Limits, mv: Move, x: Name, a: nat)
    requires Moving(blocks, lim, mv) && Temporary(lim, x) && DefinedOnceFirst(blocks, x)
      && CountDefs(mv.hoist.hoisted, x) > 0
    requires a < |blocks| && CountDefs(CodeOf(AfterMove(blocks, lim, mv))[a], x) > 0
    ensures NoEarlyRead(CodeOf(AfterMove(blocks, lim, mv))[a], x) && ReadsDominated(AfterMove(blocks, lim, mv), a, x)
  {
    hide Moving, AfterMove, LoopDefs, CountDefs, NoEarlyRead, ReadsDominated;
    MovingFacts(blocks, lim, mv);
    MovedOnlyInHeader(blocks, lim, mv, x, a);
    MovedEarly(blocks, lim, mv, x);
    MovedReadsDominated(blocks, lim, mv, x);
  }

  lemma MovedKept(blocks: seq<BasicBlock>, lim: Limits, mv: Move, x: Name)
    requires Moving(blocks, lim, mv) && Temporary(lim, x) && DefinedOnceFirst(blocks, x)
    requires CountDefs(mv.hoist.hoisted, x) > 0
    ensures DefinedOnceFirst(AfterMove(blocks, lim, mv), x)
  {
    var code, next := CodeOf(blocks), AfterMove(blocks, lim, mv);
    MovingFacts(blocks, lim, mv);
    hide LoopDefs, CountDefs, Moving, AfterMove, NoEarlyRead, ReadsDominated, Keeps, Inserted;
    MovedTotals(blocks, lim, mv, x, BlockSet(|code|));
    forall a: nat | a < |next| && CountDefs(CodeOf(next)[a], x) > 0
      ensures NoEarlyRead(CodeOf(next)[a], x) && ReadsDominated(next, a, x)
    {
      MovedDefines(blocks, lim, mv, x, a);
    }
  }

  /** A move keeps the temporaries tidy. */
  lemma TidyKept(blocks: seq<BasicBlock>, lim: Limits, mv: Move)
    requires Moving(blocks, lim, mv) && Tidy(blocks, lim)
    ensures Tidy(AfterMove(blocks, lim, mv), lim)
  {
    MoveEdge(blocks, lim, mv);
    hide DefinedOnceFirst, NeverAlone, AfterMove, CountDefs, WellFormed, GoodShape, CodeConfined;
    forall x | Temporary(lim, x)
      ensures DefinedOnceFirst(AfterMove(blocks, lim, mv), x) || NeverAlone(AfterMove(blocks, lim, mv), x)
    {
      if NeverAlone(blocks, x) {
        NeverAloneKept(blocks, lim, mv, x);
      } else if CountDefs(mv.hoist.hoisted, x) == 0 {
        UnmovedKept(blocks, lim, mv, x);
      } else {
        MovedKept(blocks, lim, mv, x);
      }
    }
  }

  /** In a tidy graph the header defines what it loses before it reads it. */
  lemma TidyWritesFirst(blocks: seq<BasicBlock>, lim: Limits, mv: Move)
    requires Moving(blocks, lim, mv) && Tidy(blocks, lim)
    ensures mv.edge.header < |blocks| && WritesFirst(blocks[mv.edge.header].instructions, mv.hoist.hoisted)
  {
    MovingFacts(blocks, lim, mv);
    var code, h, hoisted := CodeOf(blocks), mv.edge.header, mv.hoist.hoisted;
    var instrs := blocks[h].instructions;
    MoveEdge(blocks, lim, mv);
    hide Moving, SourceVars, Keeps, Picks, Inserted, CountDefs, LoopDefs, IsBackEdge, NoEarlyRead, ReadsDominated;
    forall j, k | 0 <= j < k < |instrs| && instrs[k] in hoisted && DefinedVar(instrs[k]).Some?
      ensures Dst(instrs[k]) !in SourceVars(instrs[j])
    {
      var x := Dst(instrs[k]);
      CountHas(hoisted, instrs[k], x);
      CountHas(instrs, instrs[k], x);
      HoistedDefines(blocks, lim, mv, x);
      assert DefinedOnceFirst(blocks, x);
      LoopDefsAtLeast(code, BlockSet(|code|), x, |code|, h, h);
      EarlyBefore(instrs, x, j, k);
    }
  }

  lemma TidyMoveSafe(blocks: seq<BasicBlock>, lim: Limits, mv: Move)
    requires Moving(blocks, lim, mv) && Tidy(blocks, lim)
    ensures SafeMove(blocks, lim, mv)
  {
    MovingFacts(blocks, lim, mv);
    TidyWritesFirst(blocks, lim, mv);
  }

  // ----- the pass -----

  /** What the pass may start from, and keeps. */
  ghost predicate Ready(blocks: seq<BasicBlock>, lim: Limits) {
    WellFormed(blocks) && GoodShape(blocks) && CodeConfined(CodeOf(blocks), lim.aliased) && Tidy(blocks, lim)
  }

  lemma GoodShapeKept(p: seq<BasicBlock>, q: seq<BasicBlock>)
    requires GoodShape(p) && SameGraph(p, q) && SameSkeleton(CodeOf(p), CodeOf(q))
    ensures GoodShape(q)
  {
    SameDominance(p, q);
    assert forall t: nat :: HasEdge(p, t, 0) == HasEdge(q, t, 0);
    forall b: nat | b < |q| && EndingOf(q[b].instructions).Branches?
      ensures |q[b].successors| > 1
    {
      assert EndingOf(CodeOf(p)[b]) == EndingOf(CodeOf(q)[b]);
    }
  }

  /** A move only rearranges instructions. */
  lemma MovedMembers(blocks: seq<BasicBlock>, lim: Limits, mv: Move, b: nat, i: Instr)
    requires Moving(blocks, lim, mv) && b < |blocks| && i in CodeOf(AfterMove(blocks, lim, mv))[b]
    ensures exists a: nat :: a < |blocks| && i in blocks[a].instructions
  {
    MovingFacts(blocks, lim, mv);
    var h, hoisted := mv.edge.header, mv.hoist.hoisted;
    SplitMembers(lim, mv.info, blocks[h].instructions, {});
    hide Keeps, Picks, Moving;
    if b == mv.preheader {
      assert i in blocks[b].instructions || i in hoisted;
    }
    assert i in blocks[b].instructions || i in blocks[h].instructions;
  }

  lemma MovedConfined(blocks: seq<BasicBlock>, lim: Limits, mv: Move)
    requires Moving(blocks, lim, mv)
    ensures CodeConfined(CodeOf(AfterMove(blocks, lim, mv)), lim.aliased)
  {
    var next: Code := CodeOf(AfterMove(blocks, lim, mv));
    forall b: nat, k: nat | 0 <= b < |next| && 0 <= k < |next[b]| && next[b][k].GetAddress?
      ensures next[b][k].taken in lim.aliased
    {
      MovedMembers(blocks, lim, mv, b, next[b][k]);
      var a: nat :| a < |blocks| && next[b][k] in blocks[a].instructions;
      assert CodeOf(blocks)[a] == blocks[a].instructions;
    }
  }

  lemma ReadyKept(blocks: seq<BasicBlock>, lim: Limits, mv: Move)
    requires Ready(blocks, lim) && IsMove(blocks, lim, mv)
    ensures Ready(AfterMove(blocks, lim, mv), lim)
    ensures Preserved(CodeOf(blocks), CodeOf(AfterMove(blocks, lim, mv)), lim.aliased, lim.statics)
  {
    var next := AfterMove(blocks, lim, mv);
    MovingFacts(blocks, lim, mv);
    MoveSkeleton(blocks, lim, mv);
    MoveSameGraph(blocks, lim, mv);
    GoodShapeKept(blocks, next);
    MovedConfined(blocks, lim, mv);
    TidyKept(blocks, lim, mv);
    TidyMoveSafe(blocks, lim, mv);
    hide AfterMove, IsMove, WellFormed, GoodShape, Tidy, SafeMove, CodeConfined, Weight, Depths, SameGraph, Chosen;
    forall c: Ctx, d: Data | Suitable(c, CodeOf(blocks), lim.aliased, lim.statics) && DataSafe(d, lim.aliased)
      ensures Equivalent(c, CodeOf(blocks), CodeOf(next), d)
    {
      MovePreserves(c, blocks, lim, mv, d);
    }
  }

  lemma ReadyConfined(blocks: seq<BasicBlock>, lim: Limits)
    requires Ready(blocks, lim)
    ensures CodeConfined(CodeOf(blocks), lim.aliased)
  {
  }

  /** `loop_invariant_code_motion`: on every graph whose blocks are all reached it terminates, and it
      stops only when no move is left, and no header has an invariant instruction that could be moved.
      On a graph with tidy temporaries, good shape and confined addresses it preserves behaviour and
      keeps these conditions. */
  method LoopInvariantCodeMotion(cfg: Cfg, lim: Limits) returns (changed: bool)
    requires EdgesMatch(cfg.blocks) && AllReached(cfg.blocks)
    modifies cfg
    ensures EdgesMatch(cfg.blocks) && AllReached(cfg.blocks)
    ensures forall mv :: !IsMove(cfg.blocks, lim, mv)
    ensures NoInvariantLeft(cfg.blocks, lim)
    ensures changed <==> cfg.blocks != old(cfg.blocks)
    ensures Ready(old(cfg.blocks), lim) ==>
      Ready(cfg.blocks, lim) && Preserved(old(CodeOf(cfg.blocks)), CodeOf(cfg.blocks), lim.aliased, lim.statics)
  {
    changed := false;
    ghost var start := cfg.blocks;
    PreservedReflexive(CodeOf(start), lim.aliased, lim.statics);
    hide IsMove, Ready, EdgesMatch, AllReached, Preserved, Weight, Depths, SameGraph, AfterMove, NoInvariantLeft;
    while true
      invariant EdgesMatch(cfg.blocks) && AllReached(cfg.blocks) && Depths(cfg.blocks) == Depths(start)
        && |cfg.blocks| == |start|
      invariant Ready(start, lim) ==>
        Ready(cfg.blocks, lim) && Preserved(CodeOf(start), CodeOf(cfg.blocks), lim.aliased, lim.statics)
      invariant if changed then Weight(Depths(start), CodeOf(cfg.blocks)) < Weight(Depths(start), CodeOf(start))
        else cfg.blocks == start
      decreases Weight(Depths(cfg.blocks), CodeOf(cfg.blocks))
    {
      ghost var before := cfg.blocks;
      var did := LicmOnce(cfg, lim);
      if !did {
        NoMoveNoInvariant(cfg.blocks, lim);
        return;
      }
      ghost var mv :| IsMove(before, lim, mv) && cfg.blocks == AfterMove(before, lim, mv);
      MoveLightens(before, lim, mv);
      MoveSameGraph(before, lim, mv);
      SameGraphKeeps(before, cfg.blocks);
      if Ready(start, lim) {
        ReadyKept(before, lim, mv);
        ReadyConfined(before, lim);
        PreservedTransitive(CodeOf(start), CodeOf(before), CodeOf(cfg.blocks), lim.aliased, lim.statics);
      }
      changed := true;
    }
  }
}
