/** When the worklist of copy propagation ends, and a function on which it never does. */
module CopyTermination {
  import opened Tacky
  import opened Semantics
  import opened ControlFlow
  import opened CopyFacts
  import opened CopyPropagation
  import opened MustAnalysis

  // ----- without mutually reversing copies the transfer function is monotone -----

  /** The copies a code performs. */
  function CopiesIn(code: Code): Facts {
    set b, k | 0 <= b < |code| && 0 <= k < |code[b]| && code[b][k].Copy? :: CopyInstr(code[b][k].src, code[b][k].dst)
  }

  predicate InstrsWithin(instrs: seq<Instr>, u: Facts) {
    forall k :: 0 <= k < |instrs| && instrs[k].Copy? ==> CopyInstr(instrs[k].src, instrs[k].dst) in u
  }

  /** No copy of the set undoes another one. */
  ghost predicate NoReversals(u: Facts) {
    forall s, d :: CopyInstr(Var(s), d) in u && CopyInstr(Var(d), s) in u ==> s == d
  }

  lemma TransferMonotone(i: Instr, x: Facts, y: Facts, u: Facts, aliased: set<Name>, types: Types)
    requires x <= y <= u && NoReversals(u) && (i.Copy? ==> CopyInstr(i.src, i.dst) in u)
    ensures TransferCopy(i, x, aliased, types) <= TransferCopy(i, y, aliased, types) <= u
  {
  }

  lemma {:induction false} TransfersMonotone(instrs: seq<Instr>, x: Facts, y: Facts, u: Facts, aliased: set<Name>,
        types: Types)
    requires x <= y <= u && NoReversals(u) && InstrsWithin(instrs, u)
    ensures TransferCopies(instrs, x, aliased, types) <= TransferCopies(instrs, y, aliased, types) <= u
  {
    if instrs != [] {
      TransferMonotone(instrs[0], x, y, u, aliased, types);
      TransfersMonotone(instrs[1..], TransferCopy(instrs[0], x, aliased, types),
                        TransferCopy(instrs[0], y, aliased, types), u, aliased, types);
    }
  }

  lemma MonotoneWithoutReversals(blocks: seq<BasicBlock>, aliased: set<Name>, types: Types)
    requires NoReversals(CopiesIn(CodeOf(blocks)))
    ensures MonotoneOn(CopyTransfer(blocks, aliased, types), |blocks|, CopiesIn(CodeOf(blocks)))
  {
    var u, transfer := CopiesIn(CodeOf(blocks)), CopyTransfer(blocks, aliased, types);
    forall b, x, y {:trigger transfer(b, x), transfer(b, y)} | 0 <= b < |blocks| && x <= y <= u
      ensures transfer(b, x) <= transfer(b, y) <= u
    {
      assert InstrsWithin(blocks[b].instructions, u) by {
        assert blocks[b].instructions == CodeOf(blocks)[b];
      }
      TransfersMonotone(blocks[b].instructions, x, y, u, aliased, types);
    }
  }

  // ----- a graph on which the worklist never settles -----

  function Move(s: Name, d: Name): Instr {
    Copy(Var(s), d)
  }

  function Entrance(): BasicBlock {
    BasicBlock(0, [Move("y", "x"), Move("x", "v"), Move("v", "u"), JumpIfZero(Var("p"), "side")],
               [Block(2), Block(1)], [Entry])
  }
  function Head(): BasicBlock {
    BasicBlock(1, [Label("head"), Move("x", "y"), Jump("join")], [Block(3)], [Block(0), Block(4)])
  }
  function Side(): BasicBlock {
    BasicBlock(2, [Label("side"), Copy(Constant(0), "y"), Move("x", "y"), JumpIfZero(Var("p"), "last")],
               [Block(6), Block(3)], [Block(0)])
  }
  function Join(): BasicBlock {
    BasicBlock(3, [Label("join"), Move("y", "x"), Move("x", "v")], [Block(4)], [Block(1), Block(2)])
  }
  function Back(): BasicBlock {
    BasicBlock(4, [Label("back"), Move("u", "y"), Move("v", "u"), Move("y", "x"), Move("u", "y"), Move("x", "v"),
                   Move("v", "u"), JumpIfZero(Var("p"), "head")],
               [Block(1), Block(5)], [Block(3), Block(6)])
  }
  function Done(): BasicBlock {
    BasicBlock(5, [Return(Var("x"))], [Exit], [Block(4)])
  }
  function Last(): BasicBlock {
    BasicBlock(6, [Label("last"), Copy(Constant(0), "x"), Jump("back")], [Block(4)], [Block(2)])
  }

  function Oscillator(): seq<BasicBlock> {
    [Entrance(), Head(), Side(), Join(), Back(), Done(), Last()]
  }

  /** Its edges. */
  predicate Edge(a: nat, b: nat) {
    match a
    case 0 => b == 1 || b == 2
    case 1 => b == 3
    case 2 => b == 3 || b == 6
    case 3 => b == 4
    case 4 => b == 1 || b == 5
    case 6 => b == 4
    case _ => false
  }

  lemma {:induction false} TargetIs(code: Code, l: Name, t: nat, n: nat)
    requires t < n <= |code| && Labelled(code[t], l)
    requires forall b :: t < b < n ==> !Labelled(code[b], l)
    ensures TargetAmong(code, l, n) == Some(t)
  {
    if n - 1 != t {
      TargetIs(code, l, t, n - 1);
    }
  }

  lemma OscillatorBlockShaped(b: nat)
    requires b < 7
    ensures Shaped(Oscillator()[b].instructions)
  {
  }

  lemma OscillatorShaped()
    ensures Partitioned(CodeOf(Oscillator()))
  {
    var code := CodeOf(Oscillator());
    assert |code| == 7;
    hide Oscillator, Shaped;
    forall b | 0 <= b < |code|
      ensures Shaped(code[b])
    {
      OscillatorBlockShaped(b);
    }
  }

  /** The label that opens each block of the graph, if any. */
  function Opening(b: nat): Option<Name> {
    match b
    case 1 => Some("head")
    case 2 => Some("side")
    case 3 => Some("join")
    case 4 => Some("back")
    case 6 => Some("last")
    case _ => None
  }

  lemma OscillatorLabels(b: nat, l: Name)
    requires b < 7
    ensures Labelled(CodeOf(Oscillator())[b], l) <==> Opening(b) == Some(l)
  {
    assert CodeOf(Oscillator())[b] == Oscillator()[b].instructions;
  }

  lemma OscillatorUnique()
    ensures UniqueBlockLabels(CodeOf(Oscillator()))
  {
    var code := CodeOf(Oscillator());
    forall a, b, l | 0 <= a < |code| && 0 <= b < |code| && Labelled(code[a], l) && Labelled(code[b], l)
      ensures a == b
    {
      OscillatorLabels(a, l);
      OscillatorLabels(b, l);
    }
  }

  lemma OscillatorTarget(l: Name, t: nat)
    requires t < 7 && Opening(t) == Some(l)
    ensures TargetAmong(CodeOf(Oscillator()), l, 7) == Some(t)
  {
    var code := CodeOf(Oscillator());
    OscillatorLabels(t, l);
    forall b | t < b < 7
      ensures !Labelled(code[b], l)
    {
      OscillatorLabels(b, l);
    }
    TargetIs(code, l, t, 7);
  }

  /** How each block of the graph ends. */
  function EndingAt(b: nat): Ending {
    match b
    case 0 => Branches("side")
    case 1 => Jumps("join")
    case 2 => Branches("last")
    case 4 => Branches("head")
    case 5 => Exits
    case 6 => Jumps("back")
    case _ => Falls
  }

  lemma OscillatorEndings(b: nat)
    requires b < 7
    ensures EndingOf(CodeOf(Oscillator())[b]) == EndingAt(b)
  {
    assert CodeOf(Oscillator())[b] == Oscillator()[b].instructions;
  }

  lemma OscillatorSuccessors(b: nat)
    requires b < 7
    ensures Oscillator()[b].successors == SuccessorsOf(CodeOf(Oscillator()), b)
  {
    var code := CodeOf(Oscillator());
    OscillatorEndings(b);
    if b == 0 {
      OscillatorTarget("side", 2);
    } else if b == 1 {
      OscillatorTarget("join", 3);
    } else if b == 2 {
      OscillatorTarget("last", 6);
    } else if b == 4 {
      OscillatorTarget("head", 1);
    } else if b == 6 {
      OscillatorTarget("back", 4);
    }
    hide EndingOf, TargetAmong;
  }

  lemma OscillatorEdges(a: nat, b: nat)
    requires a < 7
    ensures Block(b) in Oscillator()[a].successors <==> Edge(a, b)
    ensures Block(b) in Oscillator()[a].predecessors <==> Edge(b, a)
  {
  }

  lemma OscillatorMatches()
    ensures EdgesMatch(Oscillator())
  {
    var blocks := Oscillator();
    assert |blocks| == 7;
    hide Oscillator;
    forall a, b | 0 <= a < 7 && 0 <= b < 7
      ensures Block(a) in blocks[b].predecessors <==> Block(b) in blocks[a].successors
    {
      OscillatorEdges(a, b);
      OscillatorEdges(b, a);
    }
    forall b, t: nat | 0 <= b < 7 && (Block(t) in blocks[b].successors || Block(t) in blocks[b].predecessors)
      ensures t < 7
    {
      OscillatorEdges(b, t);
    }
  }

  lemma OscillatorEntry()
    ensures |Oscillator()| == 7 && EntryFirst(Oscillator())
  {
  }

  /** The graph is one `Cfg::build` produces. */
  lemma OscillatorWellFormed()
    ensures WellFormed(Oscillator())
  {
    var blocks := Oscillator();
    OscillatorShaped();
    OscillatorUnique();
    OscillatorMatches();
    OscillatorEntry();
    hide Oscillator, Partitioned, UniqueBlockLabels, EdgesMatch, EntryFirst, SuccessorsOf;
    forall b | 0 <= b < |blocks|
      ensures blocks[b].successors == SuccessorsOf(CodeOf(blocks), b)
    {
      OscillatorSuccessors(b);
    }
  }

  // ----- no assignment of facts satisfies every equation -----

  /** The copies the graph performs between variables. */
  const XY := CopyInstr(Var("y"), "x")
  const YX := CopyInstr(Var("x"), "y")
  const VX := CopyInstr(Var("x"), "v")
  const UV := CopyInstr(Var("v"), "u")
  const YU := CopyInstr(Var("u"), "y")
  const X0 := CopyInstr(Constant(0), "x")
  const Y0 := CopyInstr(Constant(0), "y")

  function After(instrs: seq<Instr>, f: Facts): Facts {
    TransferCopies(instrs, f, {}, map[])
  }

  lemma MoveOn(s: Name, d: Name, rest: seq<Instr>, f: Facts, g: Facts)
    requires g == InsertUnlessReverse(f, CopyInstr(Var(s), d), CopyInstr(Var(d), s))
    ensures After([Move(s, d)] + rest, f) == After(rest, g)
  {
    assert ([Move(s, d)] + rest)[1..] == rest;
  }

  lemma PassOver(i: Instr, rest: seq<Instr>, f: Facts)
    requires DefinedVar(i).None? && !i.Store?
    ensures After([i] + rest, f) == After(rest, f)
  {
    assert ([i] + rest)[1..] == rest;
  }

  lemma SetOn(d: Name, rest: seq<Instr>, f: Facts, g: Facts)
    requires g == InsertCopy(f, CopyInstr(Constant(0), d))
    ensures After([Copy(Constant(0), d)] + rest, f) == After(rest, g)
  {
    assert ([Copy(Constant(0), d)] + rest)[1..] == rest;
  }

  lemma EntranceAfter()
    ensures After(Entrance().instructions, {}) == {XY, VX, UV}
  {
    var jump := JumpIfZero(Var("p"), "side");
    assert Entrance().instructions == [Move("y", "x")] + ([Move("x", "v")] + ([Move("v", "u")] + ([jump] + [])));
    MoveOn("y", "x", [Move("x", "v")] + ([Move("v", "u")] + ([jump] + [])), {}, {XY});
    MoveOn("x", "v", [Move("v", "u")] + ([jump] + []), {XY}, {XY, VX});
    MoveOn("v", "u", [jump] + [], {XY, VX}, {XY, VX, UV});
    PassOver(jump, [], {XY, VX, UV});
  }

  lemma HeadAfter()
    ensures After(Head().instructions, {XY, VX, UV}) == {XY, VX, UV}
    ensures After(Head().instructions, {VX, UV}) == {YX, VX, UV}
  {
    assert Head().instructions == [Label("head")] + ([Move("x", "y")] + ([Jump("join")] + []));
    PassOver(Label("head"), [Move("x", "y")] + ([Jump("join")] + []), {XY, VX, UV});
    PassOver(Label("head"), [Move("x", "y")] + ([Jump("join")] + []), {VX, UV});
    MoveOn("x", "y", [Jump("join")] + [], {XY, VX, UV}, {XY, VX, UV});
    MoveOn("x", "y", [Jump("join")] + [], {VX, UV}, {YX, VX, UV});
    PassOver(Jump("join"), [], {XY, VX, UV});
    PassOver(Jump("join"), [], {YX, VX, UV});
  }

  lemma SideAfter()
    ensures After(Side().instructions, {XY, VX, UV}) == {YX, VX, UV}
  {
    var jump := JumpIfZero(Var("p"), "last");
    var tail := [Move("x", "y")] + ([jump] + []);
    assert Side().instructions == [Label("side")] + ([Copy(Constant(0), "y")] + tail);
    PassOver(Label("side"), [Copy(Constant(0), "y")] + tail, {XY, VX, UV});
    SetOn("y", tail, {XY, VX, UV}, {Y0, VX, UV});
    MoveOn("x", "y", [jump] + [], {Y0, VX, UV}, {YX, VX, UV});
    PassOver(jump, [], {YX, VX, UV});
  }

  lemma LastAfter()
    ensures After(Last().instructions, {YX, VX, UV}) == {X0, UV}
  {
    assert Last().instructions == [Label("last")] + ([Copy(Constant(0), "x")] + ([Jump("back")] + []));
    PassOver(Label("last"), [Copy(Constant(0), "x")] + ([Jump("back")] + []), {YX, VX, UV});
    SetOn("x", [Jump("back")] + [], {YX, VX, UV}, {X0, UV});
    PassOver(Jump("back"), [], {X0, UV});
  }

  lemma JoinAfter()
    ensures After(Join().instructions, {YX, VX, UV}) == {YX, VX, UV}
    ensures After(Join().instructions, {VX, UV}) == {XY, VX}
  {
    var tail := [Move("y", "x")] + ([Move("x", "v")] + []);
    assert Join().instructions == [Label("join")] + tail;
    PassOver(Label("join"), tail, {YX, VX, UV});
    PassOver(Label("join"), tail, {VX, UV});
    MoveOn("y", "x", [Move("x", "v")] + [], {YX, VX, UV}, {YX, VX, UV});
    MoveOn("x", "v", [], {YX, VX, UV}, {YX, VX, UV});
    MoveOn("y", "x", [Move("x", "v")] + [], {VX, UV}, {XY, UV});
    MoveOn("x", "v", [], {XY, UV}, {XY, VX});
  }

  function Moved(s: Name, d: Name, f: Facts): Facts {
    InsertUnlessReverse(f, CopyInstr(Var(s), d), CopyInstr(Var(d), s))
  }

  /** The moves of the back block on the facts that arise, one by one. */
  lemma BackMovesWith()
    ensures Moved("u", "y", {UV}) == {UV, YU}
    ensures Moved("v", "u", {UV, YU}) == {UV, YU}
    ensures Moved("y", "x", {UV, YU}) == {UV, YU, XY}
  {
  }

  lemma BackMovesWithMore()
    ensures Moved("u", "y", {UV, YU, XY}) == {UV, YU, XY}
    ensures Moved("x", "v", {UV, YU, XY}) == {YU, XY, VX}
    ensures Moved("v", "u", {YU, XY, VX}) == {XY, VX, UV}
  {
  }

  lemma BackMovesWithout()
    ensures Moved("u", "y", {}) == {YU}
    ensures Moved("v", "u", {YU}) == {UV}
    ensures Moved("y", "x", {UV}) == {UV, XY}
  {
  }

  lemma BackMovesWithoutMore()
    ensures Moved("u", "y", {UV, XY}) == {UV, YU}
    ensures Moved("x", "v", {UV, YU}) == {YU, VX}
    ensures Moved("v", "u", {YU, VX}) == {VX, UV}
  {
  }

  function BackEnd(): seq<Instr> {
    [Move("u", "y")] + ([Move("x", "v")] + ([Move("v", "u")] + ([JumpIfZero(Var("p"), "head")] + [])))
  }

  lemma BackSplit()
    ensures Back().instructions
      == [Label("back")] + ([Move("u", "y")] + ([Move("v", "u")] + ([Move("y", "x")] + BackEnd())))
  {
  }

  lemma BackEndFolds(f: Facts)
    ensures After(BackEnd(), f) == Moved("v", "u", Moved("x", "v", Moved("u", "y", f)))
  {
    hide InsertUnlessReverse, After;
    var t7 := [JumpIfZero(Var("p"), "head")] + [];
    var f1 := Moved("u", "y", f);
    var f2 := Moved("x", "v", f1);
    var f3 := Moved("v", "u", f2);
    MoveOn("u", "y", [Move("x", "v")] + ([Move("v", "u")] + t7), f, f1);
    MoveOn("x", "v", [Move("v", "u")] + t7, f1, f2);
    MoveOn("v", "u", t7, f2, f3);
    PassOver(JumpIfZero(Var("p"), "head"), [], f3);
    NothingAfter(f3);
  }

  lemma BackFolds(f: Facts)
    ensures After(Back().instructions, f)
         == Moved("v", "u", Moved("x", "v", Moved("u", "y", Moved("y", "x", Moved("v", "u", Moved("u", "y", f))))))
  {
    BackSplit();
    hide InsertUnlessReverse, After, BackEnd, Back;
    var f1 := Moved("u", "y", f);
    var f2 := Moved("v", "u", f1);
    var f3 := Moved("y", "x", f2);
    PassOver(Label("back"), [Move("u", "y")] + ([Move("v", "u")] + ([Move("y", "x")] + BackEnd())), f);
    MoveOn("u", "y", [Move("v", "u")] + ([Move("y", "x")] + BackEnd()), f, f1);
    MoveOn("v", "u", [Move("y", "x")] + BackEnd(), f1, f2);
    MoveOn("y", "x", BackEnd(), f2, f3);
    BackEndFolds(f3);
  }

  lemma NothingAfter(f: Facts)
    ensures After([], f) == f
  {
  }

  lemma BackAfter()
    ensures After(Back().instructions, {UV}) == {XY, VX, UV}
    ensures After(Back().instructions, {}) == {VX, UV}
  {
    hide *;
    BackFolds({UV});
    BackMovesWith();
    BackMovesWithMore();
    BackFolds({});
    BackMovesWithout();
    BackMovesWithoutMore();
  }

  // ----- the equations contradict each other -----

  lemma MeetOfOne(preds: seq<NodeId>, out: seq<Facts>, a: nat)
    requires preds == [Block(a)] && a < |out|
    ensures Meet(preds, out) == out[a]
  {
    assert preds[0] == Block(a);
    forall k
      ensures k in Meet(preds, out) <==> k in out[a]
    {
      InMeet(preds, out, k);
      assert EveryPredHas(k, preds, out) ==> k in out[preds[0].id];
    }
  }

  lemma MeetOfTwo(preds: seq<NodeId>, out: seq<Facts>, a: nat, b: nat)
    requires preds == [Block(a), Block(b)] && a < |out| && b < |out|
    ensures Meet(preds, out) == out[a] * out[b]
  {
    assert preds[0] == Block(a) && preds[1] == Block(b);
    forall k
      ensures k in Meet(preds, out) <==> k in out[a] && k in out[b]
    {
      InMeet(preds, out, k);
      assert EveryPredHas(k, preds, out) ==> k in out[preds[0].id] && k in out[preds[1].id];
    }
  }

  /** The equations of the graph, spelled out. */
  lemma Equations(out: seq<Facts>)
    requires Solved(Oscillator(), CopyTransfer(Oscillator(), {}, map[]), out)
    ensures |out| == 7
    ensures out[0] == After(Entrance().instructions, {})
    ensures out[1] == After(Head().instructions, out[0] * out[4])
    ensures out[2] == After(Side().instructions, out[0])
    ensures out[3] == After(Join().instructions, out[1] * out[2])
    ensures out[4] == After(Back().instructions, out[3] * out[6])
    ensures out[6] == After(Last().instructions, out[2])
  {
    var blocks := Oscillator();
    MeetOfTwo(Head().predecessors, out, 0, 4);
    MeetOfOne(Side().predecessors, out, 0);
    MeetOfTwo(Join().predecessors, out, 1, 2);
    MeetOfTwo(Back().predecessors, out, 3, 6);
    MeetOfOne(Last().predecessors, out, 2);
    assert Meet(Entrance().predecessors, out) == {};
    hide Meet, TransferCopies;
    assert blocks[0] == Entrance() && blocks[1] == Head() && blocks[2] == Side() && blocks[3] == Join();
    assert blocks[4] == Back() && blocks[6] == Last();
    assert forall b :: 0 <= b < 7 ==> out[b] == Outgoing(blocks, CopyTransfer(blocks, {}, map[]), out, b);
  }

  /** The end of the loop, from what survives the join. */
  lemma BackFollows(join: Facts)
    requires X0 !in join
    ensures After(Back().instructions, join * {X0, UV}) == if UV in join then {XY, VX, UV} else {VX, UV}
  {
    BackAfter();
    hide After;
    if UV in join {
      assert join * {X0, UV} == {UV};
    } else {
      assert join * {X0, UV} == {};
    }
  }

  /** Once around the loop: the copy of y into x survives exactly if it was absent. */
  lemma LoopFlips(back: Facts)
    requires back == {XY, VX, UV} || back == {VX, UV}
    ensures var head := After(Head().instructions, {XY, VX, UV} * back);
      UV in After(Join().instructions, head * {YX, VX, UV}) <==> XY !in back
  {
    HeadAfter();
    JoinAfter();
    hide After;
    if back == {VX, UV} {
      assert {XY, VX, UV} * {VX, UV} == {VX, UV};
      assert {YX, VX, UV} * {YX, VX, UV} == {YX, VX, UV};
    } else {
      assert {XY, VX, UV} * {XY, VX, UV} == {XY, VX, UV};
      assert {XY, VX, UV} * {YX, VX, UV} == {VX, UV};
    }
  }

  /** No fact sets satisfy all equations of the graph, so the worklist of copy propagation,
      which can only stop in a solution, runs on it forever. */
  lemma OscillatorHasNoSolution(out: seq<Facts>)
    ensures !Solved(Oscillator(), CopyTransfer(Oscillator(), {}, map[]), out)
  {
    if Solved(Oscillator(), CopyTransfer(Oscillator(), {}, map[]), out) {
      Equations(out);
      EntranceAfter();
      SideAfter();
      LastAfter();
      JoinKeepsX0(out[1] * out[2]);
      BackFollows(out[3]);
      LoopFlips(out[4]);
    }
  }

  lemma JoinKeepsX0(f: Facts)
    requires f <= {YX, VX, UV}
    ensures X0 !in After(Join().instructions, f)
  {
    var tail := [Move("y", "x")] + ([Move("x", "v")] + []);
    assert Join().instructions == [Label("join")] + tail;
    PassOver(Label("join"), tail, f);
    MoveOn("y", "x", [Move("x", "v")] + [], f, Moved("y", "x", f));
    MoveOn("x", "v", [], Moved("y", "x", f), Moved("x", "v", Moved("y", "x", f)));
  }
}
