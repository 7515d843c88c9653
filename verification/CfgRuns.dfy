/** How runs move through a control-flow graph, and why a graph behaves like the
    instruction list it was cut from. */
module CfgRuns {
  import opened Tacky
  import opened Semantics
  import opened Behaviour
  import opened ControlFlow

  /** Control can reach the end of the block. */
  predicate FallsThrough(instrs: seq<Instr>) {
    EndingOf(instrs).Falls? || EndingOf(instrs).Branches?
  }

  predicate IsSuffix(tail: seq<Instr>, instrs: seq<Instr>) {
    |tail| <= |instrs| && tail == instrs[|instrs| - |tail|..]
  }

  /** A running configuration stands at a position of its block from which control can
      leave only by the block's own terminator or by falling through. */
  predicate Located(code: Code, s: Config) {
    s.Running? ==>
      s.blk < |code| && IsSuffix(s.rest, code[s.blk]) && (s.rest == [] ==> FallsThrough(code[s.blk]))
  }

  /** The step stays inside its block. */
  predicate Stays(s: Config, t: Config)
    requires s.Running? && t.Running?
  {
    s.rest != [] && t.blk == s.blk && t.rest == s.rest[1..]
  }

  lemma SuffixTail(tail: seq<Instr>, instrs: seq<Instr>)
    requires IsSuffix(tail, instrs) && tail != []
    ensures IsSuffix(tail[1..], instrs)
    ensures |tail| > 1 ==> tail[0] == instrs[|instrs| - |tail|]
    ensures |tail| == 1 ==> tail[0] == instrs[|instrs| - 1]
  {
  }

  /** Jumping to a label lands at the start of the block the label map records. */
  lemma GotoTarget(code: Code, l: Name, d: Data)
    requires Partitioned(code) && UniqueBlockLabels(code)
    ensures match TargetAmong(code, l, |code|)
            case None => Goto(code, l, d) == Trapped(d.trace)
            case Some(t) => Goto(code, l, d) == Running(t, code[t], d)
  {
    var b := LabelBlock(code, l, 0);
    if b < |code| {
      var k := LabelIndex(code[b], l);
      assert Label(l) in code[b];
      assert k == 0;
      assert Labelled(code[b], l);
      assert code[b][0..] == code[b];
    }
    match TargetAmong(code, l, |code|)
    case None =>
    case Some(t) =>
      assert Label(l) in code[t];
  }

  /** Control standing at `t` has just come over an edge from block `b`. */
  ghost predicate Arrived(code: Code, b: nat, d: Data, t: Config)
    requires b < |code|
  {
    match t
    case Running(blk, rest, data) =>
      && blk < |code| && rest == code[blk] && data == d
      && Block(blk) in SuccessorsOf(code, b)
      && Located(code, t)
    case Halted(_, _, _, _) => Exit in SuccessorsOf(code, b)
    case Trapped(_) => true
  }

  lemma BlockStart(code: Code, b: nat, d: Data)
    requires Partitioned(code) && b < |code|
    ensures Located(code, Running(b, code[b], d))
  {
  }

  lemma JumpArrives(code: Code, b: nat, l: Name, d: Data)
    requires Partitioned(code) && UniqueBlockLabels(code) && b < |code|
    requires EndingOf(code[b]) == Jumps(l) || EndingOf(code[b]) == Branches(l)
    ensures Arrived(code, b, d, Goto(code, l, d))
  {
    GotoTarget(code, l, d);
    if TargetAmong(code, l, |code|).Some? {
      BlockStart(code, TargetAmong(code, l, |code|).value, d);
    }
  }

  lemma FallArrives(c: Ctx, code: Code, b: nat, d: Data)
    requires Partitioned(code) && b < |code| && FallsThrough(code[b])
    ensures Arrived(code, b, d, Enter(c, code, b + 1, d))
  {
    assert NextId(code, b) in SuccessorsOf(code, b);
    if b + 1 < |code| {
      BlockStart(code, b + 1, d);
    }
  }

  lemma StepAtEnd(c: Ctx, code: Code, s: Config)
    requires s.Running? && s.rest == []
    ensures Step(c, code, s) == Enter(c, code, s.blk + 1, s.data)
  {
  }

  lemma LastInstruction(code: Code, s: Config)
    requires Partitioned(code) && s.Running? && Located(code, s)
    requires s.rest != [] && EndsBlock(s.rest[0])
    ensures s.blk < |code| && |s.rest| == 1 && code[s.blk] != []
    ensures s.rest[0] == code[s.blk][|code[s.blk]| - 1]
  {
    var instrs := code[s.blk];
    SuffixTail(s.rest, instrs);
    assert s.rest[0] == instrs[|instrs| - |s.rest|];
  }

  lemma PlainStays(c: Ctx, code: Code, s: Config)
    requires Partitioned(code) && s.Running? && Located(code, s)
    requires s.rest != [] && !EndsBlock(s.rest[0])
    ensures Located(code, Step(c, code, s))
    ensures Step(c, code, s) == Running(s.blk, s.rest[1..], Exec(c, s.rest[0], s.data))
  {
    SuffixTail(s.rest, code[s.blk]);
    if |s.rest| == 1 {
      assert s.rest[0] == code[s.blk][|code[s.blk]| - 1];
    }
  }

  lemma TerminatorLeaves(c: Ctx, code: Code, s: Config)
    requires Partitioned(code) && UniqueBlockLabels(code) && s.Running? && Located(code, s)
    requires s.rest != [] && EndsBlock(s.rest[0])
    ensures var t := Step(c, code, s);
      || Arrived(code, s.blk, s.data, t)
      || (FallsThrough(code[s.blk]) && t == Running(s.blk, [], s.data))
  {
    hide Goto, Located, UniqueBlockLabels;
    LastInstruction(code, s);
    var i := s.rest[0];
    if IsJump(i) {
      JumpArrives(code, s.blk, i.target, s.data);
    }
  }

  /** The block's ending, read off the terminator control stands at. */
  lemma TerminatorEnding(code: Code, s: Config)
    requires Partitioned(code) && s.Running? && Located(code, s)
    requires s.rest != [] && EndsBlock(s.rest[0])
    ensures s.blk < |code| && s.rest == [s.rest[0]]
    ensures ExitsCfg(s.rest[0]) ==> EndingOf(code[s.blk]) == Exits
    ensures s.rest[0].Jump? ==> EndingOf(code[s.blk]) == Jumps(s.rest[0].target)
    ensures s.rest[0].JumpIfZero? || s.rest[0].JumpIfNotZero? ==> EndingOf(code[s.blk]) == Branches(s.rest[0].target)
  {
    LastInstruction(code, s);
  }

  /** A branch that is not taken leaves control at the end of its block. */
  lemma AfterBranch(code: Code, s: Config)
    requires Partitioned(code) && s.Running? && Located(code, s)
    requires s.rest != [] && (s.rest[0].JumpIfZero? || s.rest[0].JumpIfNotZero?)
    ensures Located(code, Running(s.blk, [], s.data))
  {
    TerminatorEnding(code, s);
  }

  /** Every step either moves on inside its block or follows a recorded edge. */
  lemma StepFollowsEdges(c: Ctx, code: Code, s: Config)
    requires Partitioned(code) && UniqueBlockLabels(code)
    requires s.Running? && Located(code, s)
    ensures var t := Step(c, code, s);
      Located(code, t) && ((t.Running? && Stays(s, t)) || Arrived(code, s.blk, s.data, t))
  {
    if s.rest == [] {
      StepAtEnd(c, code, s);
      FallArrives(c, code, s.blk, s.data);
    } else if EndsBlock(s.rest[0]) {
      LastInstruction(code, s);
      TerminatorLeaves(c, code, s);
    } else {
      PlainStays(c, code, s);
    }
  }

  // ----- a graph and its flattening -----

  lemma {:induction false} LabelAfter(a: seq<Instr>, b: seq<Instr>, l: Name)
    requires Label(l) !in a
    ensures LabelIndex(a + b, l) == |a| + LabelIndex(b, l)
  {
    if a == [] {
      assert a + b == b;
    } else {
      assert (a + b)[1..] == a[1..] + b;
      LabelAfter(a[1..], b, l);
    }
  }

  lemma FlatTail(code: Code, t: nat)
    requires t < |code|
    ensures Flatten(code[t..]) == code[t] + Flatten(code[t + 1..])
  {
    assert code[t..][1..] == code[t + 1..];
  }

  /** A label of a block is its first instruction. */
  lemma LabelFirst(code: Code, b: nat, l: Name)
    requires Partitioned(code) && b < |code| && Label(l) in code[b]
    ensures code[b][0] == Label(l)
  {
  }

  /** What stands at a label after a list without it is what stands at the label in the rest. */
  lemma LabelTail(a: seq<Instr>, b: seq<Instr>, l: Name)
    requires Label(l) !in a && LabelIndex(b, l) < |b|
    ensures LabelIndex(a + b, l) < |a + b| && (a + b)[LabelIndex(a + b, l)..] == b[LabelIndex(b, l)..]
  {
    LabelAfter(a, b, l);
    hide LabelIndex;
  }

  /** A label is found at the same place in the blocks and in their flattening. */
  lemma {:induction false} FlatLabel(code: Code, l: Name, b: nat)
    requires Partitioned(code) && b <= |code|
    ensures var t, flat := LabelBlock(code, l, b), Flatten(code[b..]);
      if t == |code| then Label(l) !in flat
      else code[t] != [] && LabelIndex(code[t], l) == 0 && LabelIndex(flat, l) < |flat|
           && flat[LabelIndex(flat, l)..] == Flatten(code[t..])
    decreases |code| - b
  {
    if b < |code| {
      var rest := Flatten(code[b + 1..]);
      FlatTail(code, b);
      if Label(l) in code[b] {
        LabelFirst(code, b, l);
        hide Partitioned, Flatten;
        assert (code[b] + rest)[0] == Label(l);
      } else {
        hide Partitioned, Flatten, LabelIndex;
        FlatLabel(code, l, b + 1);
        if LabelBlock(code, l, b) < |code| {
          LabelTail(code[b], rest, l);
        }
      }
    }
  }

  ghost predicate FlatRelated(code: Code, s: Config, t: Config) {
    if s.Running? then
      && Located(code, s)
      && t == Running(0, s.rest + Flatten(code[s.blk + 1..]), s.data)
    else s == t
  }

  lemma OnlyBlock(instrs: seq<Instr>, l: Name)
    ensures LabelBlock([instrs], l, 0) == if Label(l) in instrs then 0 else 1
  {
    assert [instrs][0] == instrs;
    assert LabelBlock([instrs], l, 1) == 1;
  }

  lemma FlatFound(code: Code, l: Name, d: Data, t: nat)
    requires Partitioned(code) && t == LabelBlock(code, l, 0) && t < |code|
    ensures Goto(code, l, d) == Running(t, code[t], d)
    ensures Goto([Flatten(code)], l, d) == Running(0, Flatten(code[t..]), d)
  {
    var flat := Flatten(code);
    FlatLabel(code, l, 0);
    assert code[0..] == code;
    assert code[t][0..] == code[t];
    OnlyBlock(flat, l);
    assert flat[LabelIndex(flat, l)] == Label(l);
  }

  lemma FlatMissing(code: Code, l: Name, d: Data)
    requires Partitioned(code) && LabelBlock(code, l, 0) == |code|
    ensures Goto(code, l, d) == Trapped(d.trace) && Goto([Flatten(code)], l, d) == Trapped(d.trace)
  {
    FlatLabel(code, l, 0);
    assert code[0..] == code;
    OnlyBlock(Flatten(code), l);
  }

  lemma FlatGoto(code: Code, l: Name, d: Data)
    requires Partitioned(code)
    ensures FlatRelated(code, Goto(code, l, d), Goto([Flatten(code)], l, d))
  {
    var t := LabelBlock(code, l, 0);
    hide Goto, LabelBlock, Flatten, Partitioned, Located;
    if t < |code| {
      BlockStart(code, t, d);
      FlatFound(code, l, d, t);
      FlatTail(code, t);
      assert FlatRelated(code, Running(t, code[t], d), Running(0, Flatten(code[t..]), d));
    } else {
      FlatMissing(code, l, d);
    }
  }

  lemma FlatFall(c: Ctx, code: Code, b: nat, d: Data)
    requires Partitioned(code) && b < |code|
    ensures if b + 1 < |code| then
        FlatRelated(code, Enter(c, code, b + 1, d), Running(0, Flatten(code[b + 1..]), d))
      else Enter(c, code, b + 1, d) == Halt(c, FellOff, d) && Flatten(code[b + 1..]) == []
  {
    if b + 1 < |code| {
      assert code[b + 1..][1..] == code[b + 2..];
      BlockStart(code, b + 1, d);
    }
  }

  lemma FlatAtEnd(c: Ctx, code: Code, s: Config, t: Config)
    requires s.Running? && s.rest == [] && FlatRelated(code, s, t)
    ensures s.blk < |code| && t == Running(0, Flatten(code[s.blk + 1..]), s.data)
  {
    assert [] + Flatten(code[s.blk + 1..]) == Flatten(code[s.blk + 1..]);
  }

  lemma FlatEnd(c: Ctx, code: Code, s: Config, t: Config)
    requires Partitioned(code)
    requires s.Running? && s.rest == [] && FlatRelated(code, s, t)
    ensures var s' := Step(c, code, s);
      if s.blk + 1 < |code| then FlatRelated(code, s', t) && s'.Running? && s'.blk == s.blk + 1
      else FlatRelated(code, s', Step(c, [Flatten(code)], t))
  {
    FlatAtEnd(c, code, s, t);
    hide Partitioned, Flatten, Located, Exec, Goto, LabelBlock;
    StepAtEnd(c, code, s);
    FlatFall(c, code, s.blk, s.data);
    if s.blk + 1 == |code| {
      StepAtEnd(c, [Flatten(code)], t);
    }
  }

  lemma FlatNext(c: Ctx, code: Code, s: Config, t: Config)
    requires Partitioned(code) && UniqueBlockLabels(code)
    requires s.Running? && s.rest != [] && FlatRelated(code, s, t)
    ensures t.Running? && t.data == s.data && t.rest != [] && t.rest[0] == s.rest[0]
    ensures !s.rest[0].Jump? && !ExitsCfg(s.rest[0]) ==>
      forall d :: FlatRelated(code, Running(s.blk, s.rest[1..], d), Running(t.blk, t.rest[1..], d))
    ensures forall h: Config :: !h.Running? ==> FlatRelated(code, h, h)
  {
    var i := s.rest[0];
    assert t.rest[1..] == s.rest[1..] + Flatten(code[s.blk + 1..]);
    SuffixTail(s.rest, code[s.blk]);
    if EndsBlock(i) {
      LastInstruction(code, s);
    } else if |s.rest| == 1 {
      assert i == code[s.blk][|code[s.blk]| - 1];
    }
  }

  lemma FlatMove(c: Ctx, code: Code, s: Config, t: Config)
    requires Partitioned(code) && UniqueBlockLabels(code)
    requires s.Running? && s.rest != [] && FlatRelated(code, s, t)
    ensures FlatRelated(code, Step(c, code, s), Step(c, [Flatten(code)], t))
  {
    hide Located, Partitioned, UniqueBlockLabels, FlatRelated, Flatten, Goto, Exec;
    var i := s.rest[0];
    var flat := Flatten(code);
    FlatNext(c, code, s, t);
    if IsJump(i) {
      FlatGoto(code, i.target, s.data);
    }
  }

  /** Running the blocks is running the list they were cut from. */
  lemma FlatteningPreserves(c: Ctx, code: Code, d: Data)
    requires Partitioned(code) && UniqueBlockLabels(code)
    ensures Equivalent(c, code, [Flatten(code)], d)
  {
    if code == [] {
      EmptyCode(c, d);
      return;
    }
    var flat := [Flatten(code)];
    FlatStart(code, d);
    var rel := (s: Config, t: Config) => FlatRelated(code, s, t);
    var rank := (s: Config, t: Config) => if s.Running? && s.blk < |code| then |code| - s.blk else 0;
    forall s, t
      ensures rel(s, t) ==> Diagram(c, code, flat, rel, rank, s, t)
    {
      if rel(s, t) {
        FlatView(code, s, t);
        hide *;
        if !s.Running? {
          BothStopped(c, code, flat, rel, rank, s);
        } else if s.rest == [] {
          FlatEnd(c, code, s, t);
          if s.blk + 1 < |code| {
            LeftSteps(c, code, flat, rel, rank, s, t);
          } else {
            BothStep(c, code, flat, rel, rank, s, t);
          }
        } else {
          FlatMove(c, code, s, t);
          BothStep(c, code, flat, rel, rank, s, t);
        }
      }
    }
    Simulation(c, code, flat, rel, rank, Start(code, d), Start(flat, d));
    SameAsEquivalent(c, code, flat, d);
  }

  lemma FlatView(code: Code, s: Config, t: Config)
    requires FlatRelated(code, s, t)
    ensures SameView(s, t) && (!s.Running? ==> s == t) && (s.Running? ==> s.blk < |code|)
  {
  }

  lemma FlatStart(code: Code, d: Data)
    requires Partitioned(code) && code != []
    ensures FlatRelated(code, Start(code, d), Start([Flatten(code)], d))
  {
    BlockStart(code, 0, d);
  }

  lemma EmptyCode(c: Ctx, d: Data)
    ensures Equivalent(c, [], [[]], d)
  {
    var rel := (s: Config, t: Config) =>
      s == t && (s.Running? ==> s.blk == 0 && s.rest == []);
    var rank := (s: Config, t: Config) => 0;
    forall s, t
      ensures rel(s, t) ==> Diagram(c, [], [[]], rel, rank, s, t)
    {
    }
    Simulation(c, [], [[]], rel, rank, Start([], d), Start([[]], d));
  }
}
