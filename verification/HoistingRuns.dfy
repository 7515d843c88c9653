/** Moving instructions from a loop header to the end of its preheader: the simulation. */
module HoistingRuns {
  import opened Tacky
  import opened Semantics
  import opened Behaviour
  import opened ControlFlow
  import opened CfgRuns
  import opened Effects
  import opened LocalSimulation

  /** The loop, its preheader, and what moves from the header to the preheader. */
  datatype Plan = Plan(header: nat, preheader: nat, members: set<nat>, hoisted: seq<Instr>)

  function Dst(i: Instr): Name
    requires DefinedVar(i).Some?
  {
    DefinedVar(i).value
  }

  /** An instruction that only computes, from unaliased variables into an unaliased one. */
  predicate Lifts(c: Ctx, i: Instr) {
    Computes(i) && !i.Load? && Dst(i) !in c.aliased && Needs(c, i) !! c.aliased
  }

  predicate AllLift(c: Ctx, hoisted: seq<Instr>) {
    forall k :: 0 <= k < |hoisted| ==> Lifts(c, hoisted[k])
  }

  /** The header without what moves out of it. */
  function FilterOut(instrs: seq<Instr>, hoisted: seq<Instr>): seq<Instr> {
    if instrs == [] then []
    else (if instrs[0] in hoisted then [] else [instrs[0]]) + FilterOut(instrs[1..], hoisted)
  }

  /** The preheader with `hoisted` before its final jump or at its end. */
  function Inserted(instrs: seq<Instr>, hoisted: seq<Instr>): seq<Instr> {
    if instrs != [] && instrs[|instrs| - 1].Jump? then instrs[..|instrs| - 1] + hoisted + [instrs[|instrs| - 1]]
    else instrs + hoisted
  }

  function Moved(code: Code, pl: Plan): (r: Code)
    requires pl.header < |code| && pl.preheader < |code|
    ensures |r| == |code|
  {
    code[pl.header := FilterOut(code[pl.header], pl.hoisted)][pl.preheader := Inserted(code[pl.preheader], pl.hoisted)]
  }

  /** No hoisted variable is read by an earlier or the same hoisted instruction, or
      assigned by another one. */
  ghost predicate InOrder(c: Ctx, hoisted: seq<Instr>) {
    && (forall j, k :: 0 <= j <= k < |hoisted| ==>
       DefinedVar(hoisted[k]).Some? && Dst(hoisted[k]) !in Needs(c, hoisted[j]))
    && (forall j, k :: 0 <= j < k < |hoisted| ==> DefinedVar(hoisted[j]) != DefinedVar(hoisted[k]))
  }

  /** An instruction that leaves the hoisted equations alone. */
  ghost predicate Quiet(c: Ctx, hoisted: seq<Instr>, i: Instr) {
    forall k :: 0 <= k < |hoisted| && DefinedVar(hoisted[k]).Some? && DefinedVar(i).Some? ==>
      Dst(i) != Dst(hoisted[k]) && Dst(i) !in Needs(c, hoisted[k])
  }

  /** Nothing in the block reads or assigns a hoisted variable before its definition. */
  ghost predicate DefinedFirst(c: Ctx, instrs: seq<Instr>, hoisted: seq<Instr>) {
    forall j, k :: 0 <= j < k < |instrs| && instrs[k] in hoisted && DefinedVar(instrs[k]).Some? ==>
      Dst(instrs[k]) !in Needs(c, instrs[j])
  }

  /** What the loop must look like. */
  ghost predicate LoopFits(c: Ctx, code: Code, pl: Plan) {
    && pl.header < |code| && pl.header in pl.members
    && AllLift(c, pl.hoisted) && InOrder(c, pl.hoisted)
    && (forall b, i :: b in pl.members && b < |code| && i in code[b] && i !in pl.hoisted ==> Quiet(c, pl.hoisted, i))
    && (forall b, i :: b in pl.members && b < |code| && b != pl.header && i in code[b] ==> i !in pl.hoisted)
    && (forall i :: i in pl.hoisted ==> i in code[pl.header])
    && DefinedFirst(c, code[pl.header], pl.hoisted)
  }

  /** How control enters the loop: over the preheader's only edge. */
  ghost predicate EntryFits(code: Code, pl: Plan) {
    && pl.header < |code| && pl.preheader < |code| && pl.preheader !in pl.members
    && 0 !in pl.members
    && SuccessorsOf(code, pl.preheader) == [Block(pl.header)]
    && !EndingOf(code[pl.preheader]).Branches?
    && (forall a: nat, b: nat ::
       a < |code| && a !in pl.members && b in pl.members && Block(b) in SuccessorsOf(code, a) ==>
          b == pl.header && a == pl.preheader)
  }

  ghost predicate AgreeExcept(d: Data, e: Data, w: set<Name>) {
    forall x :: x !in w ==> Read(d.env, x) == Read(e.env, x)
  }

  ghost predicate HoldMoved(c: Ctx, hoisted: seq<Instr>, e: Data) {
    forall k :: 0 <= k < |hoisted| && Computes(hoisted[k]) ==> Read(e.env, Dst(hoisted[k])) == Result(c, hoisted[k], e)
  }

  /** The hoisted variables the left side has yet to assign. */
  function Window(rest: seq<Instr>, hoisted: seq<Instr>): set<Name> {
    set k | 0 <= k < |rest| && rest[k] in hoisted && DefinedVar(rest[k]).Some? :: Dst(rest[k])
  }

  function Dsts(hoisted: seq<Instr>): set<Name> {
    set k | 0 <= k < |hoisted| && DefinedVar(hoisted[k]).Some? :: Dst(hoisted[k])
  }

  /** In the preheader: before the insertion point, or `k` hoisted instructions behind it. */
  ghost predicate InPreheader(c: Ctx, hoisted: seq<Instr>, rest: seq<Instr>, rest': seq<Instr>, d: Data, e: Data) {
    || (rest' == Inserted(rest, hoisted) && AgreeExcept(d, e, {}))
    || (AtInsertion(rest) && exists k :: 0 <= k <= |hoisted| && Inserting(c, hoisted, k, rest, rest', d, e))
  }

  predicate AtInsertion(rest: seq<Instr>) {
    rest == [] || (|rest| == 1 && rest[0].Jump?)
  }

  ghost predicate Inserting(c: Ctx, hoisted: seq<Instr>, k: int, rest: seq<Instr>, rest': seq<Instr>, d: Data, e: Data)
    requires 0 <= k <= |hoisted|
  {
    rest' == hoisted[k..] + rest && AgreeExcept(d, e, Dsts(hoisted[..k])) && HoldMoved(c, hoisted[..k], e)
  }

  ghost predicate HoistPoint(c: Ctx, pl: Plan, b: nat, rest: seq<Instr>, rest': seq<Instr>, d: Data, e: Data) {
    && d.mem == e.mem && d.trace == e.trace && DataSafe(e, c.aliased)
    && if b == pl.header then
         rest' == FilterOut(rest, pl.hoisted) && AgreeExcept(d, e, Window(rest, pl.hoisted))
           && HoldMoved(c, pl.hoisted, e)
       else if b in pl.members then
         rest' == rest && AgreeExcept(d, e, {}) && HoldMoved(c, pl.hoisted, e)
       else if b == pl.preheader then
         InPreheader(c, pl.hoisted, rest, rest', d, e)
       else
         rest' == rest && AgreeExcept(d, e, {})
  }

  // ----- single instructions -----

  /** A lifted instruction's value depends on its operands only. */
  lemma LiftResult(c: Ctx, i: Instr, d: Data, e: Data)
    requires Lifts(c, i) && Agree(d.env, e.env, Needs(c, i))
    ensures Result(c, i, d) == Result(c, i, e)
  {
    match i
    case Binary(_, v, w, _) => EvalAgree(v, d.env, e.env); EvalAgree(w, d.env, e.env);
    case AddPtr(v, w, _, _) => EvalAgree(v, d.env, e.env); EvalAgree(w, d.env, e.env);
    case _ =>
  }

  lemma HoldsKept(c: Ctx, hoisted: seq<Instr>, i: Instr, e: Data)
    requires AllLift(c, hoisted) && Quiet(c, hoisted, i) && HoldMoved(c, hoisted, e) && DataSafe(e, c.aliased)
    ensures HoldMoved(c, hoisted, Exec(c, i, e))
  {
    var e' := Exec(c, i, e);
    forall k | 0 <= k < |hoisted|
      ensures Read(e'.env, Dst(hoisted[k])) == Result(c, hoisted[k], e')
    {
      var h := hoisted[k];
      assert Lifts(c, h);
      ExecFrame(c, i, e, Dst(h));
      forall x | x in Needs(c, h)
        ensures Read(e.env, x) == Read(e'.env, x)
      {
        ExecFrame(c, i, e, x);
      }
      LiftResult(c, h, e, e');
    }
  }

  /** The next instruction reads nothing that is still to be assigned. */
  lemma OutsideWindow(c: Ctx, rest: seq<Instr>, hoisted: seq<Instr>)
    requires rest != [] && DefinedFirst(c, rest, hoisted)
    requires rest[0] in hoisted && DefinedVar(rest[0]).Some? ==> Dst(rest[0]) !in Needs(c, rest[0])
    ensures Needs(c, rest[0]) !! Window(rest, hoisted)
  {
    forall k | 0 <= k < |rest| && rest[k] in hoisted && DefinedVar(rest[k]).Some?
      ensures Dst(rest[k]) !in Needs(c, rest[0])
    {
      if k > 0 {
        assert rest[k] in hoisted;
      }
    }
  }

  /** The left side runs a hoisted instruction whose value the right side already holds. */
  lemma HoistedStep(c: Ctx, hoisted: seq<Instr>, rest: seq<Instr>, d: Data, e: Data)
    requires AllLift(c, hoisted) && HoldMoved(c, hoisted, e) && rest != [] && rest[0] in hoisted
    requires DefinedFirst(c, rest, hoisted) && Dst(rest[0]) !in Needs(c, rest[0])
    requires AgreeExcept(d, e, Window(rest, hoisted))
    ensures var d' := Exec(c, rest[0], d);
      AgreeExcept(d', e, Window(rest[1..], hoisted)) && d'.mem == d.mem && d'.trace == d.trace
  {
    var i := rest[0];
    assert Lifts(c, i);
    OutsideWindow(c, rest, hoisted);
    LiftResult(c, i, d, e);
    WindowStep(rest, hoisted);
  }

  lemma WindowStep(rest: seq<Instr>, hoisted: seq<Instr>)
    requires rest != []
    ensures Window(rest, hoisted) == Window(rest[1..], hoisted)
                                     + if rest[0] in hoisted && DefinedVar(rest[0]).Some? then {Dst(rest[0])} else {}
  {
    var tail := rest[1..];
    forall x | x in Window(rest, hoisted)
      ensures x in Window(tail, hoisted) || (rest[0] in hoisted && DefinedVar(rest[0]) == Some(x))
    {
      var k :| 0 <= k < |rest| && rest[k] in hoisted && DefinedVar(rest[k]).Some? && Dst(rest[k]) == x;
      if k > 0 {
        assert tail[k - 1] == rest[k];
      }
    }
    forall x | x in Window(tail, hoisted)
      ensures x in Window(rest, hoisted)
    {
      var k :| 0 <= k < |tail| && tail[k] in hoisted && DefinedVar(tail[k]).Some? && Dst(tail[k]) == x;
      assert rest[k + 1] == tail[k];
    }
  }

  /** Both sides run an instruction that stays. */
  lemma KeptStep(c: Ctx, hoisted: seq<Instr>, i: Instr, w: set<Name>, d: Data, e: Data)
    requires Confined(c) && DataSafe(d, c.aliased) && DataSafe(e, c.aliased)
    requires i.GetAddress? ==> i.taken in c.aliased
    requires d.mem == e.mem && d.trace == e.trace && AgreeExcept(d, e, w) && Agree(d.env, e.env, Needs(c, i))
    ensures var d', e' := Exec(c, i, d), Exec(c, i, e);
      d'.mem == e'.mem && d'.trace == e'.trace && AgreeExcept(d', e', w) && DataSafe(e', c.aliased)
  {
    ExecAgree(c, i, d, e);
    ExecSafe(c, i, e);
  }

  /** The right side runs the next hoisted instruction in the preheader. */
  lemma InsertStep(c: Ctx, hoisted: seq<Instr>, k: nat, d: Data, e: Data)
    requires k < |hoisted| && AllLift(c, hoisted) && InOrder(c, hoisted)
    requires AgreeExcept(d, e, Dsts(hoisted[..k])) && HoldMoved(c, hoisted[..k], e)
    ensures var e' := Exec(c, hoisted[k], e);
      e'.mem == e.mem && e'.trace == e.trace
      && AgreeExcept(d, e', Dsts(hoisted[..k + 1])) && HoldMoved(c, hoisted[..k + 1], e')
  {
    var i := hoisted[k];
    var e' := Exec(c, i, e);
    DstsSnoc(hoisted, k);
    assert Lifts(c, i);
    forall j | 0 <= j < k + 1
      ensures Read(e'.env, Dst(hoisted[j])) == Result(c, hoisted[j], e')
    {
      var h := hoisted[j];
      assert Lifts(c, h) && Dst(i) !in Needs(c, h);
      LiftResult(c, h, e, e');
      if j < k {
        assert hoisted[..k][j] == h;
      }
    }
  }

  lemma DstsSnoc(hoisted: seq<Instr>, k: nat)
    requires k < |hoisted| && DefinedVar(hoisted[k]).Some?
    ensures Dsts(hoisted[..k + 1]) == Dsts(hoisted[..k]) + {Dst(hoisted[k])}
  {
    assert hoisted[..k + 1] == hoisted[..k] + [hoisted[k]];
  }

  // ----- the rewritten code -----

  /** What moves is plain code. */
  ghost predicate PlainList(hoisted: seq<Instr>) {
    forall i :: i in hoisted ==> Computes(i)
  }

  lemma {:induction false} FilterFrame(instrs: seq<Instr>, hoisted: seq<Instr>)
    requires Shaped(instrs) && PlainList(hoisted)
    ensures SameFrame(instrs, FilterOut(instrs, hoisted))
  {
    if instrs != [] {
      FilterFrame(instrs[1..], hoisted);
      assert instrs == [instrs[0]] + instrs[1..];
      if instrs[0] in hoisted {
        FrameSkip(instrs[0], instrs[1..], FilterOut(instrs[1..], hoisted));
        assert FilterOut(instrs, hoisted) == FilterOut(instrs[1..], hoisted);
      } else {
        FrameCons(instrs[0], instrs[1..], instrs[0], FilterOut(instrs[1..], hoisted));
      }
    }
  }

  lemma AppendedShape(instrs: seq<Instr>, hoisted: seq<Instr>)
    requires Shaped(instrs) && PlainList(hoisted) && (instrs == [] || !EndsBlock(instrs[|instrs| - 1]))
    ensures Shaped(instrs + hoisted) && EndingOf(instrs + hoisted).Falls?
    ensures forall l :: Labelled(instrs + hoisted, l) <==> Labelled(instrs, l)
  {
    assert forall k :: 0 <= k < |hoisted| ==> hoisted[k] in hoisted;
    if hoisted == [] {
      assert instrs + hoisted == instrs;
    }
  }

  lemma JumpAppendedShape(front: seq<Instr>, jump: Instr)
    requires Shaped(front) && EndingOf(front).Falls? && jump.Jump?
    ensures Shaped(front + [jump]) && EndingOf(front + [jump]) == Jumps(jump.target)
    ensures forall l :: Labelled(front + [jump], l) <==> Labelled(front, l)
  {
    assert front != [] ==> !EndsBlock(front[|front| - 1]);
  }

  lemma InsertedShape(instrs: seq<Instr>, hoisted: seq<Instr>)
    requires Shaped(instrs) && PlainList(hoisted) && (EndingOf(instrs).Falls? || EndingOf(instrs).Jumps?)
    ensures Shaped(Inserted(instrs, hoisted)) && EndingOf(Inserted(instrs, hoisted)) == EndingOf(instrs)
    ensures forall l :: Labelled(Inserted(instrs, hoisted), l) <==> Labelled(instrs, l)
  {
    if instrs != [] && instrs[|instrs| - 1].Jump? {
      var front, jump := instrs[..|instrs| - 1], instrs[|instrs| - 1];
      AppendedShape(front, hoisted);
      JumpAppendedShape(front + hoisted, jump);
    } else {
      AppendedShape(instrs, hoisted);
    }
  }

  lemma MovedSkeleton(p: Code, pl: Plan)
    requires Partitioned(p) && pl.header < |p| && pl.preheader < |p| && pl.header != pl.preheader
    requires PlainList(pl.hoisted) && (EndingOf(p[pl.preheader]).Falls? || EndingOf(p[pl.preheader]).Jumps?)
    ensures SameSkeleton(p, Moved(p, pl))
  {
    FilterFrame(p[pl.header], pl.hoisted);
    InsertedShape(p[pl.preheader], pl.hoisted);
    hide FilterOut, Inserted;
  }

  // ----- the simulation -----

  ghost function HoistRelation(c: Ctx, pl: Plan): Point {
    (b: nat, rest, rest', d, e) => HoistPoint(c, pl, b, rest, rest', d, e)
  }

  ghost predicate HoistSetting(c: Ctx, p: Code, pl: Plan) {
    Partitioned(p) && UniqueBlockLabels(p) && LoopFits(c, p, pl) && EntryFits(p, pl)
  }

  lemma ListFacts(c: Ctx, p: Code, pl: Plan)
    requires LoopFits(c, p, pl)
    ensures PlainList(pl.hoisted) && AllLift(c, pl.hoisted) && InOrder(c, pl.hoisted)
    ensures forall i :: i in pl.hoisted ==> Computes(i) && Dst(i) !in Needs(c, i)
  {
    forall i | i in pl.hoisted
      ensures Computes(i) && Dst(i) !in Needs(c, i)
    {
      var k :| 0 <= k < |pl.hoisted| && pl.hoisted[k] == i;
      assert Lifts(c, pl.hoisted[k]);
    }
  }

  /** Where both sides agree on every variable, they exit alike. */
  lemma AgreeExits(c: Ctx, d: Data, e: Data)
    requires d.mem == e.mem && d.trace == e.trace && AgreeExcept(d, e, {})
    ensures ExitsAlike(c, d, e)
  {
    forall o
      ensures Halt(c, o, d) == Halt(c, o, e)
    {
      assert (map x | x in c.statics :: Read(d.env, x)) == (map x | x in c.statics :: Read(e.env, x));
    }
  }

  /** Entering a block from the loop, where both sides agree and the equations hold. */
  lemma EntersFromLoop(c: Ctx, p: Code, pl: Plan, t: nat, d: Data, e: Data)
    requires HoistSetting(c, p, pl) && t < |p| && DataSafe(e, c.aliased)
    requires d.mem == e.mem && d.trace == e.trace && AgreeExcept(d, e, {}) && HoldMoved(c, pl.hoisted, e)
    ensures HoistPoint(c, pl, t, p[t], Moved(p, pl)[t], d, e)
  {
    hide Window, FilterOut, Inserted;
  }

  lemma EntersOutside(c: Ctx, p: Code, pl: Plan, t: nat, d: Data, e: Data)
    requires HoistSetting(c, p, pl) && t < |p| && DataSafe(e, c.aliased) && t !in pl.members
    requires d.mem == e.mem && d.trace == e.trace && AgreeExcept(d, e, {})
    ensures HoistPoint(c, pl, t, p[t], Moved(p, pl)[t], d, e)
  {
    hide Window, FilterOut, Inserted;
  }

  lemma LoopLeaves(c: Ctx, p: Code, pl: Plan, b: nat, d: Data, e: Data)
    requires HoistSetting(c, p, pl) && b < |p| && DataSafe(e, c.aliased)
    requires d.mem == e.mem && d.trace == e.trace && AgreeExcept(d, e, {}) && HoldMoved(c, pl.hoisted, e)
    ensures Leaves(c, p, Moved(p, pl), HoistRelation(c, pl), b, d, e)
  {
    AgreeExits(c, d, e);
    forall t: nat | t < |p| && Block(t) in SuccessorsOf(p, b)
      ensures HoistRelation(c, pl)(t, p[t], Moved(p, pl)[t], d, e)
    {
      EntersFromLoop(c, p, pl, t, d, e);
    }
    hide HoistSetting, HoistPoint, HoldMoved, AgreeExcept, DataSafe, Moved;
  }

  lemma OutsideLeaves(c: Ctx, p: Code, pl: Plan, b: nat, d: Data, e: Data)
    requires HoistSetting(c, p, pl) && b < |p| && DataSafe(e, c.aliased) && b !in pl.members && b != pl.preheader
    requires d.mem == e.mem && d.trace == e.trace && AgreeExcept(d, e, {})
    ensures Leaves(c, p, Moved(p, pl), HoistRelation(c, pl), b, d, e)
  {
    AgreeExits(c, d, e);
    forall t: nat | t < |p| && Block(t) in SuccessorsOf(p, b)
      ensures HoistRelation(c, pl)(t, p[t], Moved(p, pl)[t], d, e)
    {
      EntersOutside(c, p, pl, t, d, e);
    }
    hide HoistSetting, HoistPoint, HoldMoved, AgreeExcept, DataSafe, Moved;
  }

  /** Leaving the preheader: every hoisted equation holds on the right, and the left side
      may lack exactly the hoisted variables. */
  lemma PreheaderLeaves(c: Ctx, p: Code, pl: Plan, d: Data, e: Data)
    requires HoistSetting(c, p, pl) && DataSafe(e, c.aliased)
    requires d.mem == e.mem && d.trace == e.trace && AgreeExcept(d, e, Dsts(pl.hoisted)) && HoldMoved(c, pl.hoisted, e)
    ensures Leaves(c, p, Moved(p, pl), HoistRelation(c, pl), pl.preheader, d, e)
  {
    var h := pl.header;
    forall x | x in Dsts(pl.hoisted)
      ensures x in Window(p[h], pl.hoisted)
    {
      var k :| 0 <= k < |pl.hoisted| && DefinedVar(pl.hoisted[k]).Some? && Dst(pl.hoisted[k]) == x;
      assert pl.hoisted[k] in p[h];
      var j :| 0 <= j < |p[h]| && p[h][j] == pl.hoisted[k];
    }
    assert HoistPoint(c, pl, h, p[h], Moved(p, pl)[h], d, e) by {
      hide Window, FilterOut, Inserted, Dsts, HoldMoved;
    }
    hide HoistSetting, HoistPoint, HoldMoved, AgreeExcept, DataSafe, Moved;
  }

  lemma HeaderSuffix(c: Ctx, p: Code, pl: Plan, rest: seq<Instr>)
    requires LoopFits(c, p, pl) && IsSuffix(rest, p[pl.header]) && rest != []
    ensures DefinedFirst(c, rest, pl.hoisted) && rest[0] in p[pl.header]
    ensures rest[0] !in pl.hoisted ==> Quiet(c, pl.hoisted, rest[0])
  {
    var instrs := p[pl.header];
    var o := |instrs| - |rest|;
    assert rest[0] == instrs[o];
    forall j, k | 0 <= j < k < |rest| && rest[k] in pl.hoisted && DefinedVar(rest[k]).Some?
      ensures Dst(rest[k]) !in Needs(c, rest[j])
    {
      assert instrs[o + j] == rest[j] && instrs[o + k] == rest[k];
    }
  }

  lemma FilterHead(rest: seq<Instr>, hoisted: seq<Instr>)
    requires rest != []
    ensures rest[0] in hoisted ==> FilterOut(rest, hoisted) == FilterOut(rest[1..], hoisted)
    ensures rest[0] !in hoisted ==> FilterOut(rest, hoisted) != [] && FilterOut(rest, hoisted)[0] == rest[0]
                                    && FilterOut(rest, hoisted)[1..] == FilterOut(rest[1..], hoisted)
  {
  }

  /** The left side passes a hoisted instruction. */
  lemma HeaderHoisted(c: Ctx, p: Code, pl: Plan, rest: seq<Instr>, rest': seq<Instr>, d: Data, e: Data)
    requires HoistSetting(c, p, pl) && IsSuffix(rest, p[pl.header]) && rest != [] && rest[0] in pl.hoisted
    requires HoistPoint(c, pl, pl.header, rest, rest', d, e)
    ensures HoistPoint(c, pl, pl.header, rest[1..], rest', Exec(c, rest[0], d), e)
  {
    ListFacts(c, p, pl);
    HeaderSuffix(c, p, pl, rest);
    FilterHead(rest, pl.hoisted);
    hide LoopFits, EntryFits, FilterOut, Exec, Needs, InOrder, AllLift, Window;
    assert AllLift(c, pl.hoisted);
    HoistedStep(c, pl.hoisted, rest, d, e);
  }

  /** Both sides run an instruction that stays in the header. */
  lemma HeaderKept(c: Ctx, p: Code, pl: Plan, rest: seq<Instr>, rest': seq<Instr>, d: Data, e: Data)
    requires HoistSetting(c, p, pl) && Confined(c) && IsSuffix(rest, p[pl.header]) && rest != []
      && rest[0] !in pl.hoisted
    requires HoistPoint(c, pl, pl.header, rest, rest', d, e) && DataSafe(d, c.aliased)
    requires rest[0].GetAddress? ==> rest[0].taken in c.aliased
    ensures rest' != [] && rest'[0] == rest[0]
    ensures HoistPoint(c, pl, pl.header, rest[1..], rest'[1..], Exec(c, rest[0], d), Exec(c, rest[0], e))
  {
    ListFacts(c, p, pl);
    HeaderSuffix(c, p, pl, rest);
    FilterHead(rest, pl.hoisted);
    hide LoopFits, EntryFits, FilterOut, Exec, Needs, InOrder, AllLift, HoldMoved, Quiet, Confined, DataSafe;
    OutsideWindow(c, rest, pl.hoisted);
    WindowStep(rest, pl.hoisted);
    KeptStep(c, pl.hoisted, rest[0], Window(rest, pl.hoisted), d, e);
    HoldsKept(c, pl.hoisted, rest[0], e);
  }

  /** Both sides run an instruction of another block of the loop. */
  lemma MemberKept(c: Ctx, p: Code, pl: Plan, b: nat, rest: seq<Instr>, d: Data, e: Data)
    requires HoistSetting(c, p, pl) && Confined(c) && b < |p| && IsSuffix(rest, p[b]) && rest != []
    requires b in pl.members && b != pl.header
    requires HoistPoint(c, pl, b, rest, rest, d, e) && DataSafe(d, c.aliased)
    requires rest[0].GetAddress? ==> rest[0].taken in c.aliased
    ensures HoistPoint(c, pl, b, rest[1..], rest[1..], Exec(c, rest[0], d), Exec(c, rest[0], e))
  {
    assert rest[0] in p[b];
    assert Quiet(c, pl.hoisted, rest[0]) && AllLift(c, pl.hoisted);
    hide LoopFits, EntryFits, Exec, Needs, InOrder, AllLift, HoldMoved, Quiet, Confined, DataSafe;
    KeptStep(c, pl.hoisted, rest[0], {}, d, e);
    HoldsKept(c, pl.hoisted, rest[0], e);
  }

  /** Both sides run an instruction outside the loop, in front of any insertion point. */
  lemma OutsideKept(c: Ctx, pl: Plan, b: nat, rest: seq<Instr>, d: Data, e: Data)
    requires Confined(c) && rest != [] && b !in pl.members && b != pl.header
    requires d.mem == e.mem && d.trace == e.trace && DataSafe(e, c.aliased) && AgreeExcept(d, e, {})
    requires DataSafe(d, c.aliased) && (rest[0].GetAddress? ==> rest[0].taken in c.aliased)
    ensures var d', e' := Exec(c, rest[0], d), Exec(c, rest[0], e);
      d'.mem == e'.mem && d'.trace == e'.trace && DataSafe(e', c.aliased) && AgreeExcept(d', e', {})
  {
    hide Exec, Needs, Confined, DataSafe;
    KeptStep(c, pl.hoisted, rest[0], {}, d, e);
  }

  /** Terminators see the same operands on both sides. */
  lemma SameSteering(c: Ctx, i: Instr, d: Data, e: Data)
    requires AgreeExcept(d, e, {}) && EndsBlock(i)
    ensures SteersAlike(c, i, i, d, e)
  {
    assert forall v :: EvalVal(v, d.env) == EvalVal(v, e.env);
  }

  lemma StandingHead(c: Ctx, p: Code, b: nat, rest: seq<Instr>, d: Data)
    requires Standing(c, p, b, rest, d)
    ensures b < |p| && IsSuffix(rest, p[b]) && DataSafe(d, c.aliased)
    ensures rest != [] && rest[0].GetAddress? ==> rest[0].taken in c.aliased
  {
    if rest != [] && rest[0].GetAddress? {
      assert rest[0].taken in AddressTaken(rest);
    }
  }

  /** A point at the end of a block with both sides in agreement. */
  lemma AtEnd(c: Ctx, pl: Plan, b: nat, rest': seq<Instr>, d: Data, e: Data)
    requires b == pl.header || b in pl.members
    ensures HoistPoint(c, pl, b, [], rest', d, e) <==>
      d.mem == e.mem && d.trace == e.trace && DataSafe(e, c.aliased)
      && rest' == [] && AgreeExcept(d, e, {}) && HoldMoved(c, pl.hoisted, e)
  {
    assert Window([], pl.hoisted) == {};
    hide HoldMoved, DataSafe, AgreeExcept;
  }

  /** A terminator is not hoisted, so at the terminator both sides agree. */
  lemma AtTerminator(c: Ctx, pl: Plan, b: nat, i: Instr, rest': seq<Instr>, d: Data, e: Data)
    requires PlainList(pl.hoisted) && EndsBlock(i) && (b == pl.header || b in pl.members)
    requires HoistPoint(c, pl, b, [i], rest', d, e)
    ensures rest' == [i] && HoistPoint(c, pl, b, [], [], d, e)
  {
    assert i !in pl.hoisted;
    WindowStep([i], pl.hoisted);
    assert [i][1..] == [];
    FilterHead([i], pl.hoisted);
    AtEnd(c, pl, b, [], d, e);
    hide HoldMoved, DataSafe, AgreeExcept, PlainList;
  }

  lemma LoopStop(c: Ctx, p: Code, pl: Plan, b: nat, rest: seq<Instr>, rest': seq<Instr>, d: Data, e: Data)
    requires HoistSetting(c, p, pl) && (b == pl.header || b in pl.members) && Standing(c, p, b, rest, d)
    requires HoistPoint(c, pl, b, rest, rest', d, e) && (rest == [] || EndsBlock(rest[0]))
    ensures LocalStep(c, p, Moved(p, pl), HoistRelation(c, pl), b, rest, rest', d, e)
  {
    ListFacts(c, p, pl);
    StandingHead(c, p, b, rest, d);
    if rest != [] {
      TerminatorEnding(p, Running(b, rest, d));
      AtTerminator(c, pl, b, rest[0], rest', d, e);
    }
    AtEnd(c, pl, b, [], d, e);
    AtEnd(c, pl, b, rest', d, e);
    if rest != [] {
      SameSteering(c, rest[0], d, e);
    }
    LoopLeaves(c, p, pl, b, d, e);
    hide HoistSetting, HoistPoint, Standing, Leaves, SteersAlike, AgreeExcept, Moved, HoldMoved;
  }

  lemma LoopStep(c: Ctx, p: Code, pl: Plan, b: nat, rest: seq<Instr>, rest': seq<Instr>, d: Data, e: Data)
    requires HoistSetting(c, p, pl) && Confined(c) && (b == pl.header || b in pl.members)
    requires Standing(c, p, b, rest, d) && HoistPoint(c, pl, b, rest, rest', d, e)
    ensures LocalStep(c, p, Moved(p, pl), HoistRelation(c, pl), b, rest, rest', d, e)
  {
    if rest == [] || EndsBlock(rest[0]) {
      LoopStop(c, p, pl, b, rest, rest', d, e);
    } else {
      StandingHead(c, p, b, rest, d);
      if b != pl.header {
        MemberKept(c, p, pl, b, rest, d, e);
      } else if rest[0] in pl.hoisted {
        HeaderHoisted(c, p, pl, rest, rest', d, e);
      } else {
        HeaderKept(c, p, pl, rest, rest', d, e);
      }
      PointFacts(c, pl, b, rest, rest', d, e);
      hide HoistSetting, HoistPoint, Standing, Exec, Moved, Confined;
    }
  }

  lemma PointFacts(c: Ctx, pl: Plan, b: nat, rest: seq<Instr>, rest': seq<Instr>, d: Data, e: Data)
    requires HoistPoint(c, pl, b, rest, rest', d, e)
    ensures d.trace == e.trace
    ensures b in pl.members && b != pl.header ==> rest' == rest
  {
  }

  // ----- outside the loop -----

  lemma PlainOutside(c: Ctx, p: Code, pl: Plan, b: nat, rest: seq<Instr>, rest': seq<Instr>, d: Data, e: Data)
    requires HoistSetting(c, p, pl) && Confined(c) && b !in pl.members && b != pl.preheader
    requires Standing(c, p, b, rest, d) && HoistPoint(c, pl, b, rest, rest', d, e)
    ensures LocalStep(c, p, Moved(p, pl), HoistRelation(c, pl), b, rest, rest', d, e)
  {
    assert b != pl.header && rest' == rest;
    StandingHead(c, p, b, rest, d);
    if rest == [] || EndsBlock(rest[0]) {
      OutsideLeaves(c, p, pl, b, d, e);
      if rest != [] {
        TerminatorEnding(p, Running(b, rest, d));
        SameSteering(c, rest[0], d, e);
      }
      hide HoistSetting, Standing, Leaves, SteersAlike, AgreeExcept, Moved, HoldMoved, DataSafe;
    } else {
      OutsideKept(c, pl, b, rest, d, e);
      hide HoistSetting, Standing, Exec, Moved, Confined, AgreeExcept, HoldMoved, DataSafe;
    }
  }

  lemma InsertedHere(rest: seq<Instr>, hoisted: seq<Instr>)
    requires AtInsertion(rest)
    ensures Inserted(rest, hoisted) == hoisted + rest
  {
    if rest != [] {
      assert rest[..0] == [] && [rest[0]] == rest;
    }
  }

  lemma PutBeforeLast<T>(s: seq<T>, middle: seq<T>)
    requires |s| > 1
    ensures s[..|s| - 1] + middle + [s[|s| - 1]] == [s[0]] + (s[1..][..|s| - 2] + middle + [s[|s| - 1]])
  {
    assert s[..|s| - 1] == [s[0]] + s[1..][..|s| - 2];
  }

  lemma InsertedHead(rest: seq<Instr>, hoisted: seq<Instr>)
    requires rest != [] && !EndsBlock(rest[0])
    ensures Inserted(rest, hoisted) == [rest[0]] + Inserted(rest[1..], hoisted)
  {
    var n := |rest| - 1;
    assert rest[n].Jump? ==> n > 0;
    assert n > 0 ==> rest[1..][n - 1] == rest[n];
    hide EndsBlock;
    if rest[n].Jump? {
      PutBeforeLast(rest, hoisted);
    } else {
      assert Inserted(rest[1..], hoisted) == rest[1..] + hoisted;
      assert rest + hoisted == [rest[0]] + (rest[1..] + hoisted);
    }
  }

  /** At the insertion point the preheader stands before its first hoisted instruction. */
  lemma StartsInserting(c: Ctx, hoisted: seq<Instr>, rest: seq<Instr>, rest': seq<Instr>, d: Data, e: Data)
    requires InPreheader(c, hoisted, rest, rest', d, e) && AtInsertion(rest)
    ensures exists k :: 0 <= k <= |hoisted| && Inserting(c, hoisted, k, rest, rest', d, e)
  {
    if rest' == Inserted(rest, hoisted) && AgreeExcept(d, e, {}) {
      InsertedHere(rest, hoisted);
      assert hoisted[0..] == hoisted && hoisted[..0] == [];
      assert Inserting(c, hoisted, 0, rest, rest', d, e);
    }
  }

  /** The right side inserts one more. */
  lemma InsertOne(c: Ctx, p: Code, pl: Plan, k: nat, rest: seq<Instr>, rest': seq<Instr>, d: Data, e: Data)
    requires HoistSetting(c, p, pl) && Confined(c) && CodeConfined(p, c.aliased) && AtInsertion(rest)
      && k < |pl.hoisted|
    requires d.mem == e.mem && d.trace == e.trace && DataSafe(e, c.aliased)
    requires Inserting(c, pl.hoisted, k, rest, rest', d, e)
    ensures rest' != [] && !EndsBlock(rest'[0])
    ensures HoistPoint(c, pl, pl.preheader, rest, rest'[1..], d, Exec(c, rest'[0], e))
  {
    var i := pl.hoisted[k];
    ListFacts(c, p, pl);
    assert i in pl.hoisted && i in p[pl.header];
    assert rest' == [i] + (pl.hoisted[k + 1..] + rest);
    InsertStep(c, pl.hoisted, k, d, e);
    ExecSafe(c, i, e);
    assert Inserting(c, pl.hoisted, k + 1, rest, rest'[1..], d, Exec(c, i, e));
    hide LoopFits, Exec, DataSafe, Inserted, Inserting, Confined, CodeConfined;
  }

  lemma InsertedEnd(c: Ctx, pl: Plan, rest: seq<Instr>, rest': seq<Instr>, d: Data, e: Data)
    requires AtInsertion(rest) && pl.preheader !in pl.members && pl.preheader != pl.header
    requires d.mem == e.mem && d.trace == e.trace && DataSafe(e, c.aliased)
    requires Inserting(c, pl.hoisted, |pl.hoisted|, rest, rest', d, e)
    ensures rest' == rest && AgreeExcept(d, e, Dsts(pl.hoisted)) && HoldMoved(c, pl.hoisted, e)
    ensures HoistPoint(c, pl, pl.preheader, [], [], d, e)
  {
    assert pl.hoisted[|pl.hoisted|..] == [] && pl.hoisted[..|pl.hoisted|] == pl.hoisted && rest' == rest;
    assert Inserting(c, pl.hoisted, |pl.hoisted|, [], [], d, e);
    hide DataSafe, HoldMoved, AgreeExcept, Dsts;
  }

  lemma JumpSteers(c: Ctx, jump: Instr, d: Data, e: Data)
    requires jump.Jump?
    ensures SteersAlike(c, jump, jump, d, e)
  {
  }

  lemma InsertedAll(c: Ctx, p: Code, pl: Plan, rest: seq<Instr>, rest': seq<Instr>, d: Data, e: Data)
    requires HoistSetting(c, p, pl) && AtInsertion(rest)
    requires d.mem == e.mem && d.trace == e.trace && DataSafe(e, c.aliased)
    requires Inserting(c, pl.hoisted, |pl.hoisted|, rest, rest', d, e)
    ensures LocalStep(c, p, Moved(p, pl), HoistRelation(c, pl), pl.preheader, rest, rest', d, e)
  {
    assert pl.preheader !in pl.members && pl.preheader != pl.header;
    hide HoistSetting, Leaves, AgreeExcept, Moved, HoldMoved, DataSafe, HoistPoint, Inserting, SteersAlike;
    InsertedEnd(c, pl, rest, rest', d, e);
    PreheaderLeaves(c, p, pl, d, e);
    if rest != [] {
      JumpSteers(c, rest[0], d, e);
    }
  }

  lemma PreheaderStep(c: Ctx, p: Code, pl: Plan, rest: seq<Instr>, rest': seq<Instr>, d: Data, e: Data)
    requires HoistSetting(c, p, pl) && Confined(c) && CodeConfined(p, c.aliased)
    requires Standing(c, p, pl.preheader, rest, d) && HoistPoint(c, pl, pl.preheader, rest, rest', d, e)
    ensures LocalStep(c, p, Moved(p, pl), HoistRelation(c, pl), pl.preheader, rest, rest', d, e)
  {
    StandingHead(c, p, pl.preheader, rest, d);
    if AtInsertion(rest) {
      StartsInserting(c, pl.hoisted, rest, rest', d, e);
      var k :| 0 <= k <= |pl.hoisted| && Inserting(c, pl.hoisted, k, rest, rest', d, e);
      if k == |pl.hoisted| {
        InsertedAll(c, p, pl, rest, rest', d, e);
      } else {
        InsertOne(c, p, pl, k, rest, rest', d, e);
        hide HoistSetting, HoistPoint, Standing, Exec, Moved, Confined, DataSafe, InPreheader;
      }
    } else {
      PreheaderFront(c, p, pl, rest, d);
      PreheaderPlain(c, p, pl, rest, rest', d, e);
    }
  }

  /** Before the insertion point there are only plain instructions. */
  lemma PreheaderFront(c: Ctx, p: Code, pl: Plan, rest: seq<Instr>, d: Data)
    requires HoistSetting(c, p, pl) && Standing(c, p, pl.preheader, rest, d) && !AtInsertion(rest)
    ensures !EndsBlock(rest[0])
  {
    if EndsBlock(rest[0]) {
      TerminatorEnding(p, Running(pl.preheader, rest, d));
    }
  }

  lemma PreheaderPlain(c: Ctx, p: Code, pl: Plan, rest: seq<Instr>, rest': seq<Instr>, d: Data, e: Data)
    requires HoistSetting(c, p, pl) && Confined(c) && !AtInsertion(rest) && !EndsBlock(rest[0])
    requires Standing(c, p, pl.preheader, rest, d) && HoistPoint(c, pl, pl.preheader, rest, rest', d, e)
    ensures LocalStep(c, p, Moved(p, pl), HoistRelation(c, pl), pl.preheader, rest, rest', d, e)
  {
    StandingHead(c, p, pl.preheader, rest, d);
    InsertedHead(rest, pl.hoisted);
    assert rest' == Inserted(rest, pl.hoisted) && AgreeExcept(d, e, {}) && pl.preheader !in pl.members
      && pl.preheader != pl.header;
    OutsideKept(c, pl, pl.preheader, rest, d, e);
    hide HoistSetting, Standing, Exec, Moved, Confined, AgreeExcept, HoldMoved, DataSafe, Inserted, Inserting;
  }

  lemma HoistStep(c: Ctx, p: Code, pl: Plan, b: nat, rest: seq<Instr>, rest': seq<Instr>, d: Data, e: Data)
    requires HoistSetting(c, p, pl) && Confined(c) && CodeConfined(p, c.aliased)
    requires Standing(c, p, b, rest, d) && HoistPoint(c, pl, b, rest, rest', d, e)
    ensures LocalStep(c, p, Moved(p, pl), HoistRelation(c, pl), b, rest, rest', d, e)
  {
    hide HoistPoint, Standing, Moved, Confined, LocalStep, HoistRelation, CodeConfined;
    if b == pl.header || b in pl.members {
      LoopStep(c, p, pl, b, rest, rest', d, e);
    } else if b == pl.preheader {
      PreheaderStep(c, p, pl, rest, rest', d, e);
    } else {
      PlainOutside(c, p, pl, b, rest, rest', d, e);
    }
  }

  lemma HoistStart(c: Ctx, p: Code, pl: Plan, d: Data)
    requires HoistSetting(c, p, pl) && DataSafe(d, c.aliased)
    ensures SameSkeleton(p, Moved(p, pl)) && p != [] && HoistPoint(c, pl, 0, p[0], Moved(p, pl)[0], d, d)
  {
    ListFacts(c, p, pl);
    match EndingOf(p[pl.preheader])
    case Exits =>
      assert false;
    case Branches(_) =>
    case _ =>
      MovedSkeleton(p, pl);
      hide LoopFits, SameSkeleton;
      EntersOutside(c, p, pl, 0, d, d);
  }

  /** Moving the instructions preserves behaviour, and every point of a run has its counterpart in the
      run of the moved code: at every later point of a run in the loop the moved variables hold what
      their instructions compute, and outside the header and the preheader all variables agree. */
  lemma MovingPreserves(c: Ctx, p: Code, pl: Plan, d: Data)
    requires HoistSetting(c, p, pl) && Confined(c) && CodeConfined(p, c.aliased) && DataSafe(d, c.aliased)
    ensures SameSkeleton(p, Moved(p, pl)) && Equivalent(c, p, Moved(p, pl), d)
    ensures Tracked(c, p, Moved(p, pl), HoistRelation(c, pl), d)
  {
    var q, pt := Moved(p, pl), HoistRelation(c, pl);
    HoistStart(c, p, pl, d);
    forall b, rest, rest', d, e | pt(b, rest, rest', d, e) && Standing(c, p, b, rest, d)
      ensures LocalStep(c, p, q, pt, b, rest, rest', d, e)
    {
      HoistStep(c, p, pl, b, rest, rest', d, e);
    }
    hide Moved, LoopFits, EntryFits, LocalStep, HoistPoint, Standing;
    LocalPassPreserves(c, p, q, pt, d);
    LocalPassTracks(c, p, q, pt, d);
  }

  /** What the correspondence says about variables. */
  ghost predicate LoopValues(c: Ctx, pl: Plan, s: Config, t: Config) {
    if s.Running? then
      && t.Running? && t.blk == s.blk && t.data.mem == s.data.mem && t.data.trace == s.data.trace
      && (s.blk in pl.members ==> HoldMoved(c, pl.hoisted, t.data))
      && (s.blk == pl.header ==> AgreeExcept(s.data, t.data, Window(s.rest, pl.hoisted)))
      && (s.blk != pl.header && s.blk != pl.preheader ==> AgreeExcept(s.data, t.data, {}))
    else s == t
  }

  lemma RelatedValues(c: Ctx, p: Code, pl: Plan, s: Config, t: Config)
    requires HoistSetting(c, p, pl) && Related(c, p, HoistRelation(c, pl), s, t)
    ensures LoopValues(c, pl, s, t)
  {
    hide HoldMoved, AgreeExcept, LoopFits;
  }

  ghost predicate ValuesAfter(c: Ctx, p: Code, pl: Plan, d: Data, n: nat)
    requires pl.header < |p| && pl.preheader < |p|
  {
    exists m: nat :: LoopValues(c, pl, Run(c, p, Start(p, d), n), Run(c, Moved(p, pl), Start(Moved(p, pl), d), m))
  }

  /** After any number of steps the moved code can be at a point where, inside the loop, every moved
      variable has the value its instruction computes there, and where all variables agree, but for
      those the header is yet to assign. */
  lemma MovedValues(c: Ctx, p: Code, pl: Plan, d: Data, n: nat)
    requires HoistSetting(c, p, pl) && Confined(c) && CodeConfined(p, c.aliased) && DataSafe(d, c.aliased)
    ensures pl.header < |p| && pl.preheader < |p| && ValuesAfter(c, p, pl, d, n)
  {
    var q, pt := Moved(p, pl), HoistRelation(c, pl);
    assert pl.header < |p| && pl.preheader < |p|;
    hide *;
    MovingPreserves(c, p, pl, d);
    TrackedAt(c, p, q, pt, d, n);
    var m := TrackedPoint(c, p, q, pt, d, n);
    RelatedValues(c, p, pl, Run(c, p, Start(p, d), n), Run(c, q, Start(q, d), m));
    FoundValues(c, p, pl, d, n, m);
  }

  lemma TrackedAt(c: Ctx, p: Code, q: Code, pt: Point, d: Data, n: nat)
    requires Tracked(c, p, q, pt, d)
    ensures LeftTracked(c, p, q, pt, d, n)
  {
  }

  lemma TrackedPoint(c: Ctx, p: Code, q: Code, pt: Point, d: Data, n: nat) returns (m: nat)
    requires LeftTracked(c, p, q, pt, d, n)
    ensures Related(c, p, pt, Run(c, p, Start(p, d), n), Run(c, q, Start(q, d), m))
  {
    m :| Related(c, p, pt, Run(c, p, Start(p, d), n), Run(c, q, Start(q, d), m));
  }

  lemma FoundValues(c: Ctx, p: Code, pl: Plan, d: Data, n: nat, m: nat)
    requires pl.header < |p| && pl.preheader < |p|
    requires LoopValues(c, pl, Run(c, p, Start(p, d), n), Run(c, Moved(p, pl), Start(Moved(p, pl), d), m))
    ensures ValuesAfter(c, p, pl, d, n)
  {
    hide LoopValues;
  }
}
