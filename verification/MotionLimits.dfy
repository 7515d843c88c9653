/** Why every condition on a move is needed: three graphs on which the pass changes what the
    program returns, and one on which it never stops. */
module MotionLimits {
  import opened Tacky
  import opened Semantics
  import opened ControlFlow
  import opened Effects
  import opened Preservation
  import opened Paths
  import opened Worklists
  import opened Dominators
  import opened Loops
  import opened HoistingRuns
  import opened Hoisting
  import opened LoopMotion
  import opened MotionSafety
  import opened SmallPrograms

  const NOTHING := Limits(map[], {}, {})

  // ----- loops of one block -----

  lemma {:induction false} OneBlockDefs(code: Code, h: nat, x: Name, n: nat)
    requires n <= |code|
    ensures LoopDefs(code, {h}, x, n) == if h < n then CountDefs(code[h], x) else 0
  {
    if n > 0 {
      OneBlockDefs(code, h, x, n - 1);
    }
  }

  /** A block that jumps back to its own label, entered over `p`, yields a move. */
  lemma OneBlockMove(blocks: seq<BasicBlock>, h: nat, p: nat, info: LoopInfo, mv: Move)
    requires HasEdge(blocks, h, h) && IsPreheader(blocks, h, {h}, p) && IsInfo(CodeOf(blocks), {h}, info)
    requires Picks(NOTHING, info, blocks[h].instructions, {}) != []
    requires mv == Move(BackEdge(h, h, {h}), p, info, HoistUpTo(NOTHING, info, CodeOf(blocks), {h}, |blocks|))
    requires h != p
    ensures IsMove(blocks, NOTHING, mv)
    ensures CodeOf(AfterMove(blocks, NOTHING, mv))
         == CodeOf(blocks)[h := Keeps(NOTHING, info, blocks[h].instructions, {})]
                          [p := Inserted(blocks[p].instructions, Picks(NOTHING, info, blocks[h].instructions, {}))]
  {
    var code := CodeOf(blocks);
    HoistHeaderOnly(NOTHING, info, code, h, |code|);
    assert code[..|code|] == code;
    assert Dominates(blocks, h, h);
    forall b
      ensures b in {h} <==> InLoop(blocks, h, h, b)
    {
    }
    assert ChosenBlocks(blocks, {h}) == {h};
    hide Keeps, Picks, HoistUpTo, IsInfo, IsPreheader;
  }

  const TEMP := "__rnqcc_tmp.0"

  lemma TempName()
    ensures IsLicmTemporary(TEMP)
  {
    assert TEMP[..12] == TEMPORARY;
  }

  function SetTemp(n: int): Instr {
    Copy(Constant(n), TEMP)
  }

  lemma TempCandidate(counts: map<Name, nat>, n: int)
    requires CountOf(counts, TEMP) == 1
    ensures IsCandidate(NOTHING, LoopInfo(counts, false), SetTemp(n), {})
  {
    TempName();
  }

  // ----- a preheader that branches, with both edges to the header -----

  function TwinGraph(): seq<BasicBlock> {
    [ BasicBlock(0, [JumpIfZero(Var("x"), "a")], [Block(1)], [Entry]),
      BasicBlock(1, [Label("a"), SetTemp(7), JumpIfNotZero(Var("y"), "a")], [Block(1), Block(2)], [Block(0), Block(1)]),
      BasicBlock(2, [Return(Var(TEMP))], [Exit], [Block(1)]) ]
  }

  lemma TwinShape()
    ensures Partitioned(CodeOf(TwinGraph())) && UniqueBlockLabels(CodeOf(TwinGraph()))
  {
    var code := CodeOf(TwinGraph());
    assert code == [TwinGraph()[0].instructions, LoopBody("y"), TwinGraph()[2].instructions];
  }

  lemma TwinEdges(b: nat)
    requires b < 3
    ensures TwinGraph()[b].successors == SuccessorsOf(CodeOf(TwinGraph()), b)
  {
    var code := CodeOf(TwinGraph());
    assert TargetAmong(code, "a", 2) == Some(1);
    assert TargetAmong(code, "a", 3) == Some(1);
  }

  lemma TwinLinks()
    ensures EntryFirst(TwinGraph()) && EdgesMatch(TwinGraph())
  {
    assert EntryFirst(TwinGraph());
    TwinEdgesMatch();
  }

  lemma TwinEdgesMatch()
    ensures EdgesMatch(TwinGraph())
  {
    hide SetTemp, LoopBody;
  }

  /** It is cut as building from its instructions would cut it. */
  lemma TwinCuts()
    ensures MinimalCuts(CodeOf(TwinGraph()))
  {
    var code := CodeOf(TwinGraph());
    TwinShape();
    forall b | 0 < b < |code|
      ensures CutHere(code[b - 1], code[b])
    {
      assert code[b] == TwinGraph()[b].instructions && code[b - 1] == TwinGraph()[b - 1].instructions;
    }
    hide Partitioned;
  }

  lemma TwinWellFormed()
    ensures WellFormed(TwinGraph())
  {
    TwinShape();
    TwinLinks();
    forall b: nat | b < 3
      ensures TwinGraph()[b].successors == SuccessorsOf(CodeOf(TwinGraph()), b)
    {
      TwinEdges(b);
    }
    hide SuccessorsOf, EdgesMatch, EntryFirst, Partitioned, UniqueBlockLabels;
  }

  function TwinAfter(): Code {
    [ [JumpIfZero(Var("x"), "a"), SetTemp(7)], [Label("a"), JumpIfNotZero(Var("y"), "a")], [Return(Var(TEMP))] ]
  }

  const ONCE := LoopInfo(map[TEMP := 1], false)

  /** The header's label, its temporary and its branch back. */
  function LoopBody(cond: Name): seq<Instr> {
    [Label("a"), SetTemp(7), JumpIfNotZero(Var(cond), "a")]
  }

  lemma LoopBodySplit(cond: Name)
    ensures Keeps(NOTHING, ONCE, LoopBody(cond), {}) == [Label("a"), JumpIfNotZero(Var(cond), "a")]
    ensures Picks(NOTHING, ONCE, LoopBody(cond), {}) == [SetTemp(7)]
  {
    var body := LoopBody(cond);
    TempCandidate(ONCE.counts, 7);
    assert body[1..] == [SetTemp(7), body[2]] && body[1..][1..] == [body[2]];
    assert {} + {Dst(SetTemp(7))} == {TEMP};
    assert Keeps(NOTHING, ONCE, [body[2]], {TEMP}) == [body[2]];
    assert Picks(NOTHING, ONCE, [body[2]], {TEMP}) == [];
    assert Keeps(NOTHING, ONCE, body[1..], {}) == [body[2]];
    assert Picks(NOTHING, ONCE, body[1..], {}) == [SetTemp(7)];
  }

  /** One trip through the body and out at its end. */
  lemma LoopOnce(p: Code, b: nat, cond: Name, d: Data, h: Config)
    requires b + 1 < |p| && cond !in d.env && cond != TEMP
    requires StopsFrom(SimpleCtx(), p, Running(b + 1, p[b + 1], d.(env := d.env[TEMP := Num(7)])), h)
    ensures StopsFrom(SimpleCtx(), p, Running(b, LoopBody(cond), d), h)
  {
    var e, last := d.(env := d.env[TEMP := Num(7)]), JumpIfNotZero(Var(cond), "a");
    assert [SetTemp(7)] + [last] == [SetTemp(7), last];
    assert LoopBody(cond) == [Label("a")] + [SetTemp(7), last];
    hide StopsFrom, SimpleCtx;
    NotTakenStep(p, b, cond, "a", e, h);
    CopyStep(p, b, Constant(7), TEMP, [last], d, h);
    LabelStep(p, b, "a", [SetTemp(7), last], d, h);
  }

  lemma LoopBodyInfo(code: Code, h: nat, cond: Name)
    requires h < |code| && code[h] == LoopBody(cond)
    ensures IsInfo(code, {h}, ONCE)
  {
    var body := LoopBody(cond);
    forall x
      ensures CountOf(ONCE.counts, x) == LoopDefs(code, {h}, x, |code|)
    {
      OneBlockDefs(code, h, x, |code|);
      assert body[1..] == [SetTemp(7), body[2]] && body[1..][1..] == [body[2]] && [body[2]][1..] == [];
      assert CountDefs([body[2]], x) == 0;
      assert CountDefs(body[1..], x) == if x == TEMP then 1 else 0;
    }
    assert !WritesMemory(code, {h});
  }

  lemma SelfOrZero()
    ensures Outside([Block(0), Block(1)], {1}) == [0]
  {
    assert Outside([Block(1)], {1}) == [];
    assert [Block(0), Block(1)][1..] == [Block(1)];
  }

  lemma TwinMove() returns (mv: Move)
    ensures IsMove(TwinGraph(), NOTHING, mv) && CodeOf(AfterMove(TwinGraph(), NOTHING, mv)) == TwinAfter()
  {
    var blocks := TwinGraph();
    var code := CodeOf(blocks);
    assert code[1] == LoopBody("y");
    LoopBodyInfo(code, 1, "y");
    LoopBodySplit("y");
    mv := Move(BackEdge(1, 1, {1}), 0, ONCE, HoistUpTo(NOTHING, ONCE, code, {1}, |blocks|));
    SelfOrZero();
    assert IsPreheader(blocks, 1, {1}, 0) && HasEdge(blocks, 1, 1);
    assert Inserted(code[0], [SetTemp(7)]) == TwinAfter()[0];
    hide HoistUpTo, Keeps, Picks, IsMove, IsInfo, IsPreheader, AfterMove;
    OneBlockMove(blocks, 1, 0, ONCE, mv);
  }

  function WithTemp(n: int): Data {
    Data(map[TEMP := Num(n)], map[], [])
  }

  lemma TwinLands()
    ensures Goto(CodeOf(TwinGraph()), "a", Blank()) == Running(1, CodeOf(TwinGraph())[1], Blank())
  {
    LandsAt(CodeOf(TwinGraph()), "a", 1, Blank());
  }

  lemma TwinAfterLands()
    ensures Goto(TwinAfter(), "a", Blank()) == Running(1, TwinAfter()[1], Blank())
  {
    LandsAt(TwinAfter(), "a", 1, Blank());
  }

  lemma TwinRun(p: Code, d: Data, e: Data)
    requires |p| == 3 && p[0] == [JumpIfZero(Var("x"), "a")] + [] && p[1] == LoopBody("y")
      && p[2] == [Return(Var(TEMP))]
    requires Goto(p, "a", d) == Running(1, p[1], d) && "x" !in d.env && "y" !in d.env && "y" != TEMP
    requires e == d.(env := d.env[TEMP := Num(7)]) && Returns(Read(e.env, TEMP), e) == Returns(Num(7), d)
    ensures StopsFrom(SimpleCtx(), p, Running(0, p[0], d), Returns(Num(7), d))
  {
    hide *;
    ReturnStep(p, 2, TEMP, e);
    LoopOnce(p, 1, "y", d, Returns(Num(7), d));
    TakenStep(p, 0, "x", "a", [], 1, d, Returns(Num(7), d));
  }

  lemma TwinBefore()
    ensures StopsFrom(SimpleCtx(), CodeOf(TwinGraph()), Start(CodeOf(TwinGraph()), Blank()), Returns(Num(7), Blank()))
  {
    hide StopsFrom, Run, Step, Goto, SimpleCtx;
    TwinLands();
    TwinRun(CodeOf(TwinGraph()), Blank(), WithTemp(7));
  }

  lemma TwinAfterRun(q: Code, d: Data)
    requires |q| == 3 && q[0] == [JumpIfZero(Var("x"), "a")] + [SetTemp(7)] && q[2] == [Return(Var(TEMP))]
    requires q[1] == [Label("a")] + [JumpIfNotZero(Var("y"), "a")]
    requires Goto(q, "a", d) == Running(1, q[1], d) && "x" !in d.env && "y" !in d.env
    requires Returns(Read(d.env, TEMP), d) == Returns(Num(0), d)
    ensures StopsFrom(SimpleCtx(), q, Running(0, q[0], d), Returns(Num(0), d))
  {
    hide *;
    ReturnStep(q, 2, TEMP, d);
    NotTakenStep(q, 1, "y", "a", d, Returns(Num(0), d));
    LabelStep(q, 1, "a", [JumpIfNotZero(Var("y"), "a")], d, Returns(Num(0), d));
    TakenStep(q, 0, "x", "a", [SetTemp(7)], 1, d, Returns(Num(0), d));
  }

  lemma TwinReturns()
    ensures StopsFrom(SimpleCtx(), TwinAfter(), Start(TwinAfter(), Blank()), Returns(Num(0), Blank()))
  {
    hide StopsFrom, Run, Step, Goto, SimpleCtx;
    TwinAfterLands();
    TwinAfterRun(TwinAfter(), Blank());
  }

  /** A preheader that ends in a conditional jump whose two edges both lead to the header: the
      moved instruction lands behind the jump, where a taken jump skips it. */
  lemma BranchingPreheaderFails() returns (mv: Move)
    ensures WellFormed(TwinGraph()) && MinimalCuts(CodeOf(TwinGraph())) && IsMove(TwinGraph(), NOTHING, mv)
    ensures !Preserved(CodeOf(TwinGraph()), CodeOf(AfterMove(TwinGraph(), NOTHING, mv)), {}, {})
  {
    assert CodeConfined(CodeOf(TwinGraph()), {});
    hide TwinGraph, TwinAfter, IsMove, WellFormed, StopsFrom, SimpleCtx, Blank, AfterMove, Start, CodeConfined,
      Preserved, MinimalCuts;
    TwinWellFormed();
    TwinCuts();
    mv := TwinMove();
    TwinBefore();
    TwinReturns();
    NotPreserved(CodeOf(TwinGraph()), TwinAfter(), 7, 0);
  }

  // ----- a loop that starts at block 0 -----

  function StartGraph(): seq<BasicBlock> {
    [ BasicBlock(0, LoopBody("x"), [Block(0), Block(1)], [Entry, Block(0), Block(2)]),
      BasicBlock(1, [JumpIfZero(Var("y"), "c")], [Block(3), Block(2)], [Block(0)]),
      BasicBlock(2, [Jump("a")], [Block(0)], [Block(1)]),
      BasicBlock(3, [Label("c"), Return(Var(TEMP))], [Exit], [Block(1)]) ]
  }

  function StartAfter(): Code {
    [ [Label("a"), JumpIfNotZero(Var("x"), "a")], [JumpIfZero(Var("y"), "c")], [SetTemp(7), Jump("a")],
      [Label("c"), Return(Var(TEMP))] ]
  }

  lemma StartShape()
    ensures Partitioned(CodeOf(StartGraph())) && UniqueBlockLabels(CodeOf(StartGraph()))
  {
    var code := CodeOf(StartGraph());
    assert code == [LoopBody("x"), StartGraph()[1].instructions, [Jump("a")], StartGraph()[3].instructions];
  }

  lemma StartEdges(b: nat)
    requires b < 4
    ensures StartGraph()[b].successors == SuccessorsOf(CodeOf(StartGraph()), b)
  {
    var code := CodeOf(StartGraph());
    assert TargetAmong(code, "a", 1) == Some(0) && TargetAmong(code, "a", 2) == Some(0);
    assert TargetAmong(code, "a", 3) == Some(0) && TargetAmong(code, "a", 4) == Some(0);
    assert TargetAmong(code, "c", 4) == Some(3);
  }

  lemma StartLinks()
    ensures EntryFirst(StartGraph()) && EdgesMatch(StartGraph())
  {
    assert EntryFirst(StartGraph());
    StartEdgesMatch();
  }

  lemma StartEdgesMatch()
    ensures EdgesMatch(StartGraph())
  {
    hide SetTemp, LoopBody;
  }

  /** It is cut as building from its instructions would cut it. */
  lemma StartCuts()
    ensures MinimalCuts(CodeOf(StartGraph()))
  {
    var code := CodeOf(StartGraph());
    StartShape();
    forall b | 0 < b < |code|
      ensures CutHere(code[b - 1], code[b])
    {
      assert code[b] == StartGraph()[b].instructions && code[b - 1] == StartGraph()[b - 1].instructions;
    }
    hide Partitioned;
  }

  lemma StartWellFormed()
    ensures WellFormed(StartGraph())
  {
    StartShape();
    StartLinks();
    forall b: nat | b < 4
      ensures StartGraph()[b].successors == SuccessorsOf(CodeOf(StartGraph()), b)
    {
      StartEdges(b);
    }
    hide SuccessorsOf, EdgesMatch, EntryFirst, Partitioned, UniqueBlockLabels;
  }

  lemma StartMove() returns (mv: Move)
    ensures IsMove(StartGraph(), NOTHING, mv) && CodeOf(AfterMove(StartGraph(), NOTHING, mv)) == StartAfter()
    ensures mv.edge.header == 0
  {
    var blocks := StartGraph();
    var code := CodeOf(blocks);
    LoopBodyInfo(code, 0, "x");
    LoopBodySplit("x");
    mv := Move(BackEdge(0, 0, {0}), 2, ONCE, HoistUpTo(NOTHING, ONCE, code, {0}, |blocks|));
    var preds := [Entry, Block(0), Block(2)];
    assert preds[1..] == [Block(0), Block(2)] && preds[1..][1..] == [Block(2)];
    assert Outside([Block(2)], {0}) == [2];
    assert Outside(preds[1..], {0}) == [2];
    assert IsPreheader(blocks, 0, {0}, 2) && HasEdge(blocks, 0, 0);
    assert Inserted(code[2], [SetTemp(7)]) == StartAfter()[2];
    hide HoistUpTo, Keeps, Picks, IsMove, IsInfo, IsPreheader, AfterMove;
    OneBlockMove(blocks, 0, 2, ONCE, mv);
  }

  lemma StartLands()
    ensures Goto(CodeOf(StartGraph()), "c", WithTemp(7)) == Running(3, CodeOf(StartGraph())[3], WithTemp(7))
  {
    LandsAt(CodeOf(StartGraph()), "c", 3, WithTemp(7));
  }

  lemma StartAfterLands()
    ensures Goto(StartAfter(), "c", Blank()) == Running(3, StartAfter()[3], Blank())
  {
    LandsAt(StartAfter(), "c", 3, Blank());
  }

  lemma StartRun(p: Code, d: Data, e: Data)
    requires |p| == 4 && p[0] == LoopBody("x") && p[1] == [JumpIfZero(Var("y"), "c")] + []
    requires p[3] == [Label("c")] + [Return(Var(TEMP))]
    requires Goto(p, "c", e) == Running(3, p[3], e) && "x" !in d.env && "y" !in e.env && "x" != TEMP
    requires e == d.(env := d.env[TEMP := Num(7)]) && Returns(Read(e.env, TEMP), e) == Returns(Num(7), d)
    ensures StopsFrom(SimpleCtx(), p, Running(0, p[0], d), Returns(Num(7), d))
  {
    hide *;
    ReturnStep(p, 3, TEMP, e);
    LabelStep(p, 3, "c", [Return(Var(TEMP))], e, Returns(Num(7), d));
    TakenStep(p, 1, "y", "c", [], 3, e, Returns(Num(7), d));
    LoopOnce(p, 0, "x", d, Returns(Num(7), d));
  }

  lemma StartBefore()
    ensures StopsFrom(SimpleCtx(), CodeOf(StartGraph()), Start(CodeOf(StartGraph()), Blank()), Returns(Num(7), Blank()))
  {
    hide StopsFrom, Run, Step, Goto, SimpleCtx;
    StartLands();
    StartRun(CodeOf(StartGraph()), Blank(), WithTemp(7));
  }

  lemma StartAfterRun(q: Code, d: Data)
    requires |q| == 4 && q[0] == [Label("a")] + [JumpIfNotZero(Var("x"), "a")]
    requires q[1] == [JumpIfZero(Var("y"), "c")] + [] && q[3] == [Label("c")] + [Return(Var(TEMP))]
    requires Goto(q, "c", d) == Running(3, q[3], d) && "x" !in d.env && "y" !in d.env
    requires Returns(Read(d.env, TEMP), d) == Returns(Num(0), d)
    ensures StopsFrom(SimpleCtx(), q, Running(0, q[0], d), Returns(Num(0), d))
  {
    hide *;
    ReturnStep(q, 3, TEMP, d);
    LabelStep(q, 3, "c", [Return(Var(TEMP))], d, Returns(Num(0), d));
    TakenStep(q, 1, "y", "c", [], 3, d, Returns(Num(0), d));
    NotTakenStep(q, 0, "x", "a", d, Returns(Num(0), d));
    LabelStep(q, 0, "a", [JumpIfNotZero(Var("x"), "a")], d, Returns(Num(0), d));
  }

  lemma StartReturns()
    ensures StopsFrom(SimpleCtx(), StartAfter(), Start(StartAfter(), Blank()), Returns(Num(0), Blank()))
  {
    hide StopsFrom, Run, Step, Goto, SimpleCtx;
    StartAfterLands();
    StartAfterRun(StartAfter(), Blank());
  }

  /** A loop whose header is block 0: the entry edge does not count as a predecessor, so another
      back edge's source passes for the preheader, and the first trip misses the moved code. */
  lemma HeaderAtStartFails() returns (mv: Move)
    ensures WellFormed(StartGraph()) && MinimalCuts(CodeOf(StartGraph())) && IsMove(StartGraph(), NOTHING, mv)
      && mv.edge.header == 0
    ensures !Preserved(CodeOf(StartGraph()), CodeOf(AfterMove(StartGraph(), NOTHING, mv)), {}, {})
  {
    assert CodeConfined(CodeOf(StartGraph()), {});
    hide StartGraph, StartAfter, IsMove, WellFormed, StopsFrom, SimpleCtx, Blank, AfterMove, Start, CodeConfined,
      Preserved, MinimalCuts;
    StartWellFormed();
    StartCuts();
    mv := StartMove();
    StartBefore();
    StartReturns();
    NotPreserved(CodeOf(StartGraph()), StartAfter(), 7, 0);
  }

  // ----- a temporary the header reads before it writes it -----

  function LateGraph(): seq<BasicBlock> {
    [ BasicBlock(0, [SetTemp(1), Jump("a")], [Block(1)], [Entry]),
      BasicBlock(1, LateBody(), [Block(1), Block(2)], [Block(0), Block(1)]),
      BasicBlock(2, [Return(Var("r"))], [Exit], [Block(1)]) ]
  }

  function LateBody(): seq<Instr> {
    [Label("a"), Copy(Var(TEMP), "r"), SetTemp(7), JumpIfNotZero(Var("y"), "a")]
  }

  function LateAfter(): Code {
    [ [SetTemp(1), SetTemp(7), Jump("a")], [Label("a"), Copy(Var(TEMP), "r"), JumpIfNotZero(Var("y"), "a")],
      [Return(Var("r"))] ]
  }

  const TWICE := LoopInfo(map[TEMP := 1, "r" := 1], false)

  lemma NotTemp()
    ensures !IsLicmTemporary("r")
  {
  }

  lemma LateSplit()
    ensures Keeps(NOTHING, TWICE, LateBody(), {}) == [Label("a"), Copy(Var(TEMP), "r"), JumpIfNotZero(Var("y"), "a")]
    ensures Picks(NOTHING, TWICE, LateBody(), {}) == [SetTemp(7)]
  {
    var body := LateBody();
    NotTemp();
    TempCandidate(TWICE.counts, 7);
    assert body[1..] == [body[1], SetTemp(7), body[3]] && body[1..][1..] == [SetTemp(7), body[3]];
    assert [SetTemp(7), body[3]][1..] == [body[3]];
    assert {} + {Dst(SetTemp(7))} == {TEMP};
    assert Keeps(NOTHING, TWICE, [body[3]], {TEMP}) == [body[3]];
    assert Picks(NOTHING, TWICE, [body[3]], {TEMP}) == [];
    assert Keeps(NOTHING, TWICE, [SetTemp(7), body[3]], {}) == [body[3]];
    assert Picks(NOTHING, TWICE, [SetTemp(7), body[3]], {}) == [SetTemp(7)];
    assert Keeps(NOTHING, TWICE, body[1..], {}) == [body[1], body[3]];
    assert Picks(NOTHING, TWICE, body[1..], {}) == [SetTemp(7)];
  }

  lemma LateInfo()
    ensures IsInfo(CodeOf(LateGraph()), {1}, TWICE)
  {
    var body, code := LateBody(), CodeOf(LateGraph());
    forall x
      ensures CountOf(TWICE.counts, x) == LoopDefs(code, {1}, x, |code|)
    {
      OneBlockDefs(code, 1, x, |code|);
      assert body[1..] == [body[1], SetTemp(7), body[3]] && body[1..][1..] == [SetTemp(7), body[3]];
      assert [SetTemp(7), body[3]][1..] == [body[3]] && [body[3]][1..] == [];
      assert CountDefs([body[3]], x) == 0;
      assert CountDefs([SetTemp(7), body[3]], x) == if x == TEMP then 1 else 0;
      assert CountDefs(body[1..], x) == (if x == "r" then 1 else 0) + if x == TEMP then 1 else 0;
    }
    assert !WritesMemory(code, {1});
  }

  lemma LateMove() returns (mv: Move)
    ensures IsMove(LateGraph(), NOTHING, mv) && CodeOf(AfterMove(LateGraph(), NOTHING, mv)) == LateAfter()
    ensures mv.edge.header == 1 && mv.preheader == 0
  {
    var blocks := LateGraph();
    var code := CodeOf(blocks);
    LateInfo();
    LateSplit();
    mv := Move(BackEdge(1, 1, {1}), 0, TWICE, HoistUpTo(NOTHING, TWICE, code, {1}, |blocks|));
    SelfOrZero();
    assert IsPreheader(blocks, 1, {1}, 0) && HasEdge(blocks, 1, 1);
    assert Inserted(code[0], [SetTemp(7)]) == LateAfter()[0];
    hide HoistUpTo, Keeps, Picks, IsMove, IsInfo, IsPreheader, AfterMove;
    OneBlockMove(blocks, 1, 0, TWICE, mv);
  }

  lemma LateShape()
    ensures Partitioned(CodeOf(LateGraph())) && UniqueBlockLabels(CodeOf(LateGraph()))
  {
    var code := CodeOf(LateGraph());
    assert code == [LateGraph()[0].instructions, LateBody(), [Return(Var("r"))]];
  }

  lemma LateEdges(b: nat)
    requires b < 3
    ensures LateGraph()[b].successors == SuccessorsOf(CodeOf(LateGraph()), b)
  {
    var code := CodeOf(LateGraph());
    assert TargetAmong(code, "a", 2) == Some(1);
    assert TargetAmong(code, "a", 3) == Some(1);
  }

  lemma LateLinks()
    ensures EntryFirst(LateGraph()) && EdgesMatch(LateGraph())
  {
    assert EntryFirst(LateGraph());
    LateEdgesMatch();
  }

  lemma LateEdgesMatch()
    ensures EdgesMatch(LateGraph())
  {
    hide SetTemp, LoopBody, LateBody;
  }

  /** It is cut as building from its instructions would cut it. */
  lemma LateCuts()
    ensures MinimalCuts(CodeOf(LateGraph()))
  {
    var code := CodeOf(LateGraph());
    LateShape();
    forall b | 0 < b < |code|
      ensures CutHere(code[b - 1], code[b])
    {
      assert code[b] == LateGraph()[b].instructions && code[b - 1] == LateGraph()[b - 1].instructions;
    }
    hide Partitioned;
  }

  lemma LateWellFormed()
    ensures WellFormed(LateGraph())
  {
    LateShape();
    LateLinks();
    forall b: nat | b < 3
      ensures LateGraph()[b].successors == SuccessorsOf(CodeOf(LateGraph()), b)
    {
      LateEdges(b);
    }
    hide SuccessorsOf, EdgesMatch, EntryFirst, Partitioned, UniqueBlockLabels;
  }

  /** One trip through a loop that copies the temporary on its way. */
  lemma LateLoop(p: Code, d1: Data, h: Config)
    requires |p| == 3 && p[1] == LateBody() && p[2] == [Return(Var("r"))] && d1 == WithTemp(1)
      && h == Returns(Num(1), Blank())
    ensures StopsFrom(SimpleCtx(), p, Running(1, p[1], d1), h)
  {
    var d2 := d1.(env := d1.env["r" := Num(1)]);
    var d3 := d2.(env := d2.env[TEMP := Num(7)]);
    var last := JumpIfNotZero(Var("y"), "a");
    assert p[1] == [Label("a")] + ([Copy(Var(TEMP), "r")] + ([SetTemp(7)] + [last]));
    hide StopsFrom, Run, Step, SimpleCtx;
    ReturnStep(p, 2, "r", d3);
    NotTakenStep(p, 1, "y", "a", d3, h);
    CopyStep(p, 1, Constant(7), TEMP, [last], d2, h);
    CopyStep(p, 1, Var(TEMP), "r", [SetTemp(7)] + [last], d1, h);
    LabelStep(p, 1, "a", [Copy(Var(TEMP), "r")] + ([SetTemp(7)] + [last]), d1, h);
  }

  lemma LateBefore()
    ensures StopsFrom(SimpleCtx(), CodeOf(LateGraph()), Start(CodeOf(LateGraph()), Blank()), Returns(Num(1), Blank()))
  {
    var p, d, d1, h := CodeOf(LateGraph()), Blank(), WithTemp(1), Returns(Num(1), Blank());
    LandsAt(p, "a", 1, d1);
    assert p[0] == [SetTemp(1)] + [Jump("a")] && p[1] == LateBody() && p[2] == [Return(Var("r"))];
    hide StopsFrom, Run, Step, SimpleCtx, LateGraph, LateBody, Goto;
    LateLoop(p, d1, h);
    JumpStep(p, 0, "a", 1, d1, h);
    CopyStep(p, 0, Constant(1), TEMP, [Jump("a")], d, h);
  }

  lemma LateAfterRun(q: Code, d: Data, d1: Data, d2: Data, d3: Data, h: Config)
    requires |q| == 3 && q[0] == [Copy(Constant(1), TEMP)] + ([Copy(Constant(7), TEMP)] + [Jump("a")])
      && q[2] == [Return(Var("r"))]
    requires q[1] == [Label("a")] + ([Copy(Var(TEMP), "r")] + [JumpIfNotZero(Var("y"), "a")])
    requires d1 == d.(env := d.env[TEMP := EvalVal(Constant(1), d.env)])
      && d2 == d1.(env := d1.env[TEMP := EvalVal(Constant(7), d1.env)])
    requires d3 == d2.(env := d2.env["r" := EvalVal(Var(TEMP), d2.env)]) && "y" !in d3.env
      && h == Returns(Read(d3.env, "r"), d3)
    requires Goto(q, "a", d2) == Running(1, q[1], d2)
    ensures StopsFrom(SimpleCtx(), q, Running(0, q[0], d), h)
  {
    hide *;
    ReturnStep(q, 2, "r", d3);
    NotTakenStep(q, 1, "y", "a", d3, h);
    CopyStep(q, 1, Var(TEMP), "r", [JumpIfNotZero(Var("y"), "a")], d2, h);
    LabelStep(q, 1, "a", [Copy(Var(TEMP), "r")] + [JumpIfNotZero(Var("y"), "a")], d2, h);
    JumpStep(q, 0, "a", 1, d2, h);
    CopyStep(q, 0, Constant(7), TEMP, [Jump("a")], d1, h);
    CopyStep(q, 0, Constant(1), TEMP, [Copy(Constant(7), TEMP)] + [Jump("a")], d, h);
  }

  lemma LateAfterLands(d: Data)
    ensures Goto(LateAfter(), "a", d) == Running(1, LateAfter()[1], d)
  {
    LandsAt(LateAfter(), "a", 1, d);
  }

  lemma LateReturns()
    ensures StopsFrom(SimpleCtx(), LateAfter(), Start(LateAfter(), Blank()), Returns(Num(7), Blank()))
  {
    hide StopsFrom, Run, Step, Goto, SimpleCtx;
    var d1 := WithTemp(1);
    var d2 := WithTemp(7);
    var d3 := d2.(env := d2.env["r" := Num(7)]);
    assert d2 == d1.(env := d1.env[TEMP := Num(7)]);
    LateAfterLands(d2);
    LateAfterRun(LateAfter(), Blank(), d1, d2, d3, Returns(Num(7), Blank()));
  }

  /** A header that reads a temporary before the only definition the loop has of it: the value
      from before the loop is overwritten too early. */
  lemma EarlyReadFails() returns (mv: Move)
    ensures WellFormed(LateGraph()) && MinimalCuts(CodeOf(LateGraph())) && IsMove(LateGraph(), NOTHING, mv)
      && mv.edge.header != 0
    ensures !Preserved(CodeOf(LateGraph()), CodeOf(AfterMove(LateGraph(), NOTHING, mv)), {}, {})
  {
    assert CodeConfined(CodeOf(LateGraph()), {});
    hide LateGraph, LateAfter, IsMove, WellFormed, StopsFrom, SimpleCtx, Blank, AfterMove, Start, CodeConfined,
      Preserved, MinimalCuts;
    LateWellFormed();
    LateCuts();
    mv := LateMove();
    LateBefore();
    LateReturns();
    NotPreserved(CodeOf(LateGraph()), LateAfter(), 1, 7);
  }

  // ----- two loops that never run pass an instruction back and forth -----

  /** Block 0 returns; blocks 1 and 3 both jump back to block 2, which nothing else enters.
      The temporary is set in block 1 or in block 3. */
  function SwingGraph(first: bool): seq<BasicBlock> {
    [ BasicBlock(0, [Return(Var("x"))], [Exit], [Entry]),
      BasicBlock(1, if first then [Label("t"), SetTemp(1), Jump("h")]
        else [Label("t"), Jump("h")], [Block(2)], [Block(2)]),
      BasicBlock(2, [Label("h"), JumpIfZero(Var("x"), "t")], [Block(1), Block(3)], [Block(1), Block(3)]),
      BasicBlock(3, if first then [Jump("h")] else [SetTemp(1), Jump("h")], [Block(2)], [Block(2)]) ]
  }

  lemma SwingEdges(first: bool, b: nat)
    requires b < 4
    ensures SwingGraph(first)[b].successors == SuccessorsOf(CodeOf(SwingGraph(first)), b)
  {
    var code := CodeOf(SwingGraph(first));
    assert TargetAmong(code, "h", 3) == Some(2) && TargetAmong(code, "h", 4) == Some(2);
    assert TargetAmong(code, "t", 2) == Some(1) && TargetAmong(code, "t", 3) == Some(1)
      && TargetAmong(code, "t", 4) == Some(1);
  }

  lemma SwingLinks(first: bool)
    ensures EntryFirst(SwingGraph(first)) && EdgesMatch(SwingGraph(first))
  {
    hide SetTemp;
  }

  lemma SwingShape(first: bool)
    ensures Partitioned(CodeOf(SwingGraph(first))) && UniqueBlockLabels(CodeOf(SwingGraph(first)))
  {
  }

  /** It is cut as building from its instructions would cut it. */
  lemma SwingCuts(first: bool)
    ensures MinimalCuts(CodeOf(SwingGraph(first)))
  {
    var code := CodeOf(SwingGraph(first));
    SwingShape(first);
    forall b | 0 < b < |code|
      ensures CutHere(code[b - 1], code[b])
    {
      assert code[b] == SwingGraph(first)[b].instructions && code[b - 1] == SwingGraph(first)[b - 1].instructions;
    }
    hide Partitioned;
  }

  lemma SwingWellFormed(first: bool)
    ensures WellFormed(SwingGraph(first))
  {
    SwingShape(first);
    SwingLinks(first);
    forall b: nat | b < 4
      ensures SwingGraph(first)[b].successors == SuccessorsOf(CodeOf(SwingGraph(first)), b)
    {
      SwingEdges(first, b);
    }
    hide SuccessorsOf, EdgesMatch, EntryFirst, Partitioned, UniqueBlockLabels;
  }

  /** No root reaches blocks 1 to 3, so everything dominates them. */
  lemma SwingDominance(first: bool, d: nat, b: nat)
    requires 0 < b < 4
    ensures Dominates(SwingGraph(first), d, b)
  {
    var blocks := SwingGraph(first);
    assert Ids([Block(2)]) == {2} by { InIds([Block(2)], 2); }
    assert 1 in Ids([Block(1), Block(3)]) by { InIds([Block(1), Block(3)], 1); }
    assert forall r :: IsRoot(blocks, r) ==> r == 0;
    assert forall x: nat, y: nat :: x in {0} && HasEdge(blocks, x, y) ==> y in {0};
    forall r: nat, path
      ensures !(IsRoot(blocks, r) && IsPath(blocks, path, r, b))
    {
      if IsRoot(blocks, r) && IsPath(blocks, path, r, b) {
        ClosedReaches(blocks, {0}, path, 0, b);
      }
    }
  }

  /** The loop of the back edge from block `tail`, 1 or 3, to block 2. */
  lemma SwingLoop(first: bool, tail: nat, b: nat)
    requires tail == 1 || tail == 3
    ensures InLoop(SwingGraph(first), 2, tail, b) <==> b in {2, tail}
  {
    var blocks := SwingGraph(first);
    AvoidingSelf(blocks, tail, 2);
    assert forall a: nat :: HasEdge(blocks, a, tail) ==> a == 2;
    if b != 2 && ReachesAvoiding(blocks, b, tail, 2) {
      var path :| IsPath(blocks, path, b, tail) && 2 !in path;
      if |path| > 1 {
        PathInit(blocks, path, b, tail);
      }
    }
  }

  lemma SwingBackEdge(first: bool, tail: nat)
    requires tail == 1 || tail == 3
    ensures IsBackEdge(SwingGraph(first), BackEdge(2, tail, {2, tail}))
    ensures ChosenBlocks(SwingGraph(first), {2, tail}) == {2, tail}
  {
    var blocks := SwingGraph(first);
    assert HasEdge(blocks, tail, 2);
    SwingDominance(first, 2, tail);
    forall b
      ensures b in {2, tail} <==> InLoop(blocks, 2, tail, b)
    {
      SwingLoop(first, tail, b);
    }
    forall b: nat, x: nat | x in {2, tail}
      ensures Dominates(blocks, b, x)
    {
      SwingDominance(first, b, x);
    }
  }

  lemma SwingPreheader(first: bool, tail: nat)
    requires tail == 1 || tail == 3
    ensures IsPreheader(SwingGraph(first), 2, {2, tail}, 4 - tail)
  {
    assert [Block(1), Block(3)][1..] == [Block(3)];
    assert Outside([Block(3)], {2, tail}) == if tail == 3 then [] else [3];
  }

  /** What the tail and the header hold, and what is picked from them. */
  lemma SwingPicks()
    ensures Picks(NOTHING, ONCE, [Label("h"), JumpIfZero(Var("x"), "t")], {}) == []
    ensures Keeps(NOTHING, ONCE, [Label("h"), JumpIfZero(Var("x"), "t")], {}) == [Label("h"), JumpIfZero(Var("x"), "t")]
    ensures Picks(NOTHING, ONCE, [Label("h"), JumpIfZero(Var("x"), "t")], {TEMP}) == []
    ensures Keeps(NOTHING, ONCE, [Label("h"), JumpIfZero(Var("x"), "t")], {TEMP})
      == [Label("h"), JumpIfZero(Var("x"), "t")]
    ensures Picks(NOTHING, ONCE, [Label("t"), SetTemp(1), Jump("h")], {}) == [SetTemp(1)]
    ensures Keeps(NOTHING, ONCE, [Label("t"), SetTemp(1), Jump("h")], {}) == [Label("t"), Jump("h")]
    ensures Picks(NOTHING, ONCE, [SetTemp(1), Jump("h")], {}) == [SetTemp(1)]
    ensures Keeps(NOTHING, ONCE, [SetTemp(1), Jump("h")], {}) == [Jump("h")]
  {
    TempCandidate(ONCE.counts, 1);
    assert {} + {Dst(SetTemp(1))} == {TEMP};
    assert [SetTemp(1), Jump("h")][1..] == [Jump("h")]
      && [Label("t"), SetTemp(1), Jump("h")][1..] == [SetTemp(1), Jump("h")];
    assert Picks(NOTHING, ONCE, [Jump("h")], {TEMP}) == [] && Keeps(NOTHING, ONCE, [Jump("h")], {TEMP}) == [Jump("h")];
    var head := [Label("h"), JumpIfZero(Var("x"), "t")];
    assert head[1..] == [JumpIfZero(Var("x"), "t")];
    hide IsCandidate;
    SwingHead({});
    SwingHead({TEMP});
    NeverCandidate(Label("t"), {});
  }

  lemma NeverCandidate(i: Instr, defs: set<Name>)
    requires !IsPure(i)
    ensures !IsCandidate(NOTHING, ONCE, i, defs)
  {
  }

  lemma SwingHead(defs: set<Name>)
    ensures Picks(NOTHING, ONCE, [Label("h"), JumpIfZero(Var("x"), "t")], defs) == []
    ensures Keeps(NOTHING, ONCE, [Label("h"), JumpIfZero(Var("x"), "t")], defs)
      == [Label("h"), JumpIfZero(Var("x"), "t")]
  {
    var head := [Label("h"), JumpIfZero(Var("x"), "t")];
    assert head[1..] == [head[1]];
    assert Picks(NOTHING, ONCE, [head[1]], defs) == [] && Keeps(NOTHING, ONCE, [head[1]], defs) == [head[1]];
  }

  lemma SwingInfo(first: bool)
    ensures IsInfo(CodeOf(SwingGraph(first)), {2, if first then 1 else 3}, ONCE)
  {
    var code, tail := CodeOf(SwingGraph(first)), if first then 1 else 3;
    forall x
      ensures CountOf(ONCE.counts, x) == LoopDefs(code, {2, tail}, x, |code|)
    {
      SwingCounts(x);
      assert LoopDefs(code, {2, tail}, x, 1) == 0;
      assert LoopDefs(code, {2, tail}, x, 2) == if first then CountDefs(code[1], x) else 0;
      assert LoopDefs(code, {2, tail}, x, 3) == if first then CountDefs(code[1], x) else 0;
      hide CountDefs;
    }
    assert !WritesMemory(code, {2, tail});
  }

  lemma SwingCounts(x: Name)
    ensures CountDefs([Label("h"), JumpIfZero(Var("x"), "t")], x) == 0
    ensures CountDefs([Label("t"), SetTemp(1), Jump("h")], x) == if x == TEMP then 1 else 0
    ensures CountDefs([SetTemp(1), Jump("h")], x) == if x == TEMP then 1 else 0
  {
    assert [Label("h"), JumpIfZero(Var("x"), "t")][1..] == [JumpIfZero(Var("x"), "t")];
    assert CountDefs([JumpIfZero(Var("x"), "t")], x) == 0;
    assert [SetTemp(1), Jump("h")][1..] == [Jump("h")]
      && [Label("t"), SetTemp(1), Jump("h")][1..] == [SetTemp(1), Jump("h")];
    assert CountDefs([Jump("h")], x) == 0;
  }

  lemma ScanStarts(code: Code, chosen: set<nat>)
    ensures HoistUpTo(NOTHING, ONCE, code, chosen, 0) == Hoist([], [], {})
  {
  }

  lemma ScanSkips(code: Code, chosen: set<nat>, n: nat, was: Hoist)
    requires n < |code| && n !in chosen && HoistUpTo(NOTHING, ONCE, code, chosen, n) == was
    ensures HoistUpTo(NOTHING, ONCE, code, chosen, n + 1) == Hoist(was.kept + [code[n]], was.hoisted, was.defs)
  {
  }

  lemma ScanTakes(code: Code, chosen: set<nat>, n: nat, was: Hoist, keep: seq<Instr>, pick: seq<Instr>)
    requires n < |code| && n in chosen && HoistUpTo(NOTHING, ONCE, code, chosen, n) == was
    requires Keeps(NOTHING, ONCE, code[n], was.defs) == keep && Picks(NOTHING, ONCE, code[n], was.defs) == pick
    ensures HoistUpTo(NOTHING, ONCE, code, chosen, n + 1)
      == Hoist(was.kept + [keep], was.hoisted + pick, was.defs + Dsts(pick))
  {
  }

  lemma ScanFirst(code: Code)
    requires |code| == 4 && code[1] == [Label("t"), SetTemp(1), Jump("h")]
      && code[2] == [Label("h"), JumpIfZero(Var("x"), "t")]
    ensures HoistUpTo(NOTHING, ONCE, code, {2, 1}, 4)
         == Hoist([code[0], [Label("t"), Jump("h")], code[2], code[3]], [SetTemp(1)], {TEMP})
  {
    var set1, chosen := [SetTemp(1)], {2, 1};
    var h1 := Hoist([code[0]], [], {});
    var h2 := Hoist([code[0], [Label("t"), Jump("h")]], set1, {TEMP});
    var h3 := Hoist([code[0], [Label("t"), Jump("h")], code[2]], set1, {TEMP});
    hide *;
    ScanStarts(code, chosen);
    assert h1.defs + {TEMP} == h2.defs && h2.defs + {} == h3.defs && [] + set1 == set1 && set1 + [] == set1;
    SwingPicks();
    SwingDsts();
    ScanSkips(code, chosen, 0, Hoist([], [], {}));
    ScanTakes(code, chosen, 1, h1, [Label("t"), Jump("h")], set1);
    ScanTakes(code, chosen, 2, h2, code[2], []);
    ScanSkips(code, chosen, 3, h3);
  }

  lemma ScanThird(code: Code)
    requires |code| == 4 && code[2] == [Label("h"), JumpIfZero(Var("x"), "t")] && code[3] == [SetTemp(1), Jump("h")]
    ensures HoistUpTo(NOTHING, ONCE, code, {2, 3}, 4)
      == Hoist([code[0], code[1], code[2], [Jump("h")]], [SetTemp(1)], {TEMP})
  {
    var set1, chosen := [SetTemp(1)], {2, 3};
    var h1 := Hoist([code[0]], [], {});
    var h2 := Hoist([code[0], code[1]], [], {});
    var h3 := Hoist([code[0], code[1], code[2]], [], {});
    hide *;
    assert HoistUpTo(NOTHING, ONCE, code, chosen, 2) == h2 by {
      ScanStarts(code, chosen);
      ScanSkips(code, chosen, 0, Hoist([], [], {}));
      ScanSkips(code, chosen, 1, h1);
    }
    SwingPicks();
    SwingDsts();
    assert HoistUpTo(NOTHING, ONCE, code, chosen, 3) == h3 by {
      assert h2.defs + {} == h3.defs && h2.hoisted + [] == h3.hoisted;
      ScanTakes(code, chosen, 2, h2, code[2], []);
    }
    assert h3.defs + {TEMP} == {TEMP} && [] + set1 == set1;
    ScanTakes(code, chosen, 3, h3, [Jump("h")], set1);
  }

  /** Scanning the four blocks: the tail gives up its temporary, the rest stays. */
  lemma SwingHoist(first: bool)
    ensures var r := HoistUpTo(NOTHING, ONCE, CodeOf(SwingGraph(first)), {2, if first then 1 else 3}, 4);
      r.hoisted == [SetTemp(1)]
        && r.kept == [[Return(Var("x"))], [Label("t"), Jump("h")], SwingGraph(first)[2].instructions, [Jump("h")]]
  {
    var code := CodeOf(SwingGraph(first));
    hide HoistUpTo;
    if first {
      ScanFirst(code);
    } else {
      ScanThird(code);
    }
  }

  lemma SwingDsts()
    ensures Dsts([SetTemp(1)]) == {TEMP} && Dsts([]) == {}
  {
    DstsCons(SetTemp(1), []);
    assert [SetTemp(1)] + [] == [SetTemp(1)];
  }

  /** From either graph a move leads to the other, so the pass can swing between them for ever:
      without reachability no measure can go down. */
  lemma UnreachedLoopsSwing(first: bool) returns (mv: Move)
    ensures WellFormed(SwingGraph(first)) && MinimalCuts(CodeOf(SwingGraph(first)))
      && IsMove(SwingGraph(first), NOTHING, mv)
    ensures AfterMove(SwingGraph(first), NOTHING, mv) == SwingGraph(!first)
  {
    var blocks, tail := SwingGraph(first), if first then 1 else 3;
    mv := Move(BackEdge(2, tail, {2, tail}), 4 - tail, ONCE, HoistUpTo(NOTHING, ONCE, CodeOf(blocks), {2, tail}, 4));
    hide *;
    SwingWellFormed(first);
    SwingCuts(first);
    SwingHoist(first);
    SwingIsMove(first, mv);
    SwingResult(first, mv);
  }

  lemma SwingIsMove(first: bool, mv: Move)
    requires var tail := if first then 1 else 3;
      mv == Move(BackEdge(2, tail, {2, tail}), 4 - tail, ONCE,
        HoistUpTo(NOTHING, ONCE, CodeOf(SwingGraph(first)), {2, tail}, 4))
    ensures IsMove(SwingGraph(first), NOTHING, mv)
  {
    var tail := if first then 1 else 3;
    assert |SwingGraph(first)| == 4;
    hide HoistUpTo, IsBackEdge, IsPreheader, IsInfo, ChosenBlocks, SetTemp, SwingGraph;
    SwingBackEdge(first, tail);
    SwingPreheader(first, tail);
    SwingInfo(first);
    SwingHoist(first);
  }

  lemma SwingResult(first: bool, mv: Move)
    requires IsMove(SwingGraph(first), NOTHING, mv) && mv.preheader == (if first then 3 else 1)
    requires mv.hoist.hoisted == [SetTemp(1)]
    requires mv.hoist.kept
      == [[Return(Var("x"))], [Label("t"), Jump("h")], SwingGraph(first)[2].instructions, [Jump("h")]]
    ensures AfterMove(SwingGraph(first), NOTHING, mv) == SwingGraph(!first)
  {
    hide IsMove, SetTemp;
    assert Inserted([Jump("h")], [SetTemp(1)]) == [SetTemp(1), Jump("h")];
    assert Inserted([Label("t"), Jump("h")], [SetTemp(1)]) == [Label("t"), SetTemp(1), Jump("h")];
    var next := AfterMove(SwingGraph(first), NOTHING, mv);
    forall b | 0 <= b < 4
      ensures next[b] == SwingGraph(!first)[b]
    {
    }
  }
}
