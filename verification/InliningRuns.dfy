/** Inlining over a whole caller: the rewritten body runs like the body whose eligible calls are answered
    by frames of their own. */
module InliningRuns {
  import opened Tacky
  import opened Semantics
  import opened Behaviour
  import opened Effects
  import opened SmallPrograms
  import opened Inlining

  // ----- the rewritten body -----

  /** A caller, what may be inlined into it, and the number of its first inlined call. */
  datatype Job = Job(caller: Name, candidates: map<Name, InlineCandidate>, statics: set<Name>, types: Types,
                     body: seq<Instr>, firstId: nat)

  predicate Site(j: Job, i: Instr) {
    Replaces(i, j.caller, j.candidates, j.types)
  }

  /** The number of the next inlined call when `k` instructions are done. */
  function IdAt(j: Job, k: nat): (id: nat)
    requires k <= |j.body|
    ensures id >= j.firstId
  {
    if k == 0 then j.firstId else IdAt(j, k - 1) + if Site(j, j.body[k - 1]) then 1 else 0
  }

  function Piece(j: Job, k: nat): seq<Instr>
    requires k < |j.body|
  {
    var i := j.body[k];
    if Site(j, i) then Expansion(j.candidates[i.callee], i.args, i.dst, IdAt(j, k), j.statics) else [i]
  }

  /** What the instructions from the `k`-th on are rewritten to. */
  function InlinedFrom(j: Job, k: nat): seq<Instr>
    requires k <= |j.body|
    decreases |j.body| - k
  {
    if k == |j.body| then [] else Piece(j, k) + InlinedFrom(j, k + 1)
  }

  ghost predicate SafeCandidates(candidates: map<Name, InlineCandidate>) {
    forall f :: f in candidates ==> SafeBody(candidates[f].body)
  }

  ghost predicate SafeBody(body: seq<Instr>) {
    forall k :: 0 <= k < |body| ==> IsInlineSafe(body[k])
  }

  /** The renames of the inlined call in place of instruction `k` are among those noted. */
  ghost predicate Noted(j: Job, k: nat, all: seq<(Name, Name)>)
    requires k < |j.body|
  {
    var i := j.body[k];
    Site(j, i) ==> exists notes ::
      Notes(notes, j.candidates[i.callee], IdAt(j, k), j.statics, j.types) && Among(notes, all)
  }

  ghost predicate Among(notes: seq<(Name, Name)>, all: seq<(Name, Name)>) {
    forall entry :: entry in notes ==> entry in all
  }

  lemma NotedMore(j: Job, k: nat, all: seq<(Name, Name)>, more: seq<(Name, Name)>)
    requires k < |j.body| && Noted(j, k, all) && all <= more
    ensures Noted(j, k, more)
  {
    hide Notes;
    var i := j.body[k];
    assert more == all + more[|all|..];
    if Site(j, i) {
      var notes :| Notes(notes, j.candidates[i.callee], IdAt(j, k), j.statics, j.types) && Among(notes, all);
      assert Among(notes, more);
    }
  }

  lemma FromNext(j: Job, k: nat, done: seq<Instr>)
    requires k < |j.body|
    ensures done + InlinedFrom(j, k) == (done + Piece(j, k)) + InlinedFrom(j, k + 1)
  {
    hide Piece;
  }

  lemma NotedAll(j: Job, k: nat, before: seq<(Name, Name)>, after: seq<(Name, Name)>)
    requires k < |j.body| && before <= after && Noted(j, k, after) && forall h :: 0 <= h < k ==> Noted(j, h, before)
    ensures forall h :: 0 <= h < k + 1 ==> Noted(j, h, after)
  {
    hide Noted;
    forall h | 0 <= h < k
      ensures Noted(j, h, after)
    {
      NotedMore(j, h, before, after);
    }
  }

  /** The body loop of `inline_functions`. */
  method InlineBody(j: Job, metadata: seq<(Name, Name)>) returns (rewritten: seq<Instr>, metadata': seq<(Name, Name)>,
        nextId: nat)
    requires SafeCandidates(j.candidates)
    ensures rewritten == InlinedFrom(j, 0) && nextId == IdAt(j, |j.body|)
    ensures metadata <= metadata' && forall k :: 0 <= k < |j.body| ==> Noted(j, k, metadata')
    ensures MadeOf(metadata, j.types) ==> MadeOf(metadata', j.types)
  {
    hide Notes, Expansion, Replaces, Noted, InlinedFrom, MadeOf;
    rewritten, metadata', nextId := [], metadata, j.firstId;
    for k := 0 to |j.body|
      invariant rewritten + InlinedFrom(j, k) == InlinedFrom(j, 0) && nextId == IdAt(j, k)
      invariant metadata <= metadata' && forall h :: 0 <= h < k ==> Noted(j, h, metadata')
      invariant MadeOf(metadata, j.types) ==> MadeOf(metadata', j.types)
    {
      var expansion, more, id :=
        InlineCallInstr(j.body[k], j.caller, j.candidates, j.statics, j.types, metadata', nextId);
      NotesAmong(j, k, metadata', more);
      NotedAll(j, k, metadata', more);
      MadeMore(j, k, metadata', more);
      var piece := if expansion.Some? then expansion.value else [j.body[k]];
      assert piece == Piece(j, k);
      FromNext(j, k, rewritten);
      rewritten, metadata', nextId := rewritten + piece, more, id;
    }
    NothingLeft(j);
  }

  /** Renames of typed variables, under names made by calls. */
  ghost predicate MadeOf(metadata: seq<(Name, Name)>, types: Types) {
    forall k :: 0 <= k < |metadata| ==> metadata[k].0 in types && MadeByCall(metadata[k])
  }

  lemma MadeMore(j: Job, k: nat, before: seq<(Name, Name)>, after: seq<(Name, Name)>)
    requires k < |j.body| && before <= after && (!Site(j, j.body[k]) ==> after == before)
    requires Site(j, j.body[k]) ==>
      Notes(after[|before|..], j.candidates[j.body[k].callee], IdAt(j, k), j.statics, j.types)
    ensures MadeOf(before, j.types) ==> MadeOf(after, j.types)
  {
    hide Replaces, InlineName;
    if MadeOf(before, j.types) && Site(j, j.body[k]) {
      forall h | 0 <= h < |after|
        ensures after[h].0 in j.types && MadeByCall(after[h])
      {
        if h < |before| {
          assert after[h] == before[h];
        } else {
          assert after[|before|..][h - |before|] == after[h];
        }
      }
    }
  }

  lemma NothingLeft(j: Job)
    ensures InlinedFrom(j, |j.body|) == []
  {
  }

  lemma NotesAmong(j: Job, k: nat, before: seq<(Name, Name)>, after: seq<(Name, Name)>)
    requires k < |j.body| && before <= after
    requires Site(j, j.body[k]) ==>
      Notes(after[|before|..], j.candidates[j.body[k].callee], IdAt(j, k), j.statics, j.types)
    ensures Noted(j, k, after)
  {
    assert Among(after[|before|..], after);
    hide Notes;
  }

  // ----- calls answered by frames -----

  /** What an eligible call does when the callee runs in a frame of its own. */
  function Answered(c: Ctx, j: Job, i: Instr, d: Data): Data
    requires Site(j, i)
  {
    var cand := j.candidates[i.callee];
    var value := EvalVal(cand.returnValue, CalleeState(c, cand, i.args, j.statics, d).env);
    d.(env := d.env[i.dst := c.machine.copy(ValClass(c.types, cand.returnValue), TypeOf(c.types, i.dst), value)])
  }

  /** A step of the caller. */
  function AnsweredStep(c: Ctx, j: Job, s: Config): Config {
    if s.Running? && s.rest != [] && Site(j, s.rest[0]) then
      Running(s.blk, s.rest[1..], Answered(c, j, s.rest[0], s.data))
    else Step(c, [j.body], s)
  }

  function AnsweredRun(c: Ctx, j: Job, s: Config, n: nat): Config
    decreases n
  {
    if n == 0 then s else AnsweredRun(c, j, AnsweredStep(c, j, s), n - 1)
  }

  /** The callee's own code, run from such a frame, returns that value and changes nothing the caller
      shares with it. */
  lemma {:induction false} CalleeReturns(c: Ctx, code: Code, b: nat, instrs: seq<Instr>, body: seq<Instr>, value: Val,
        d: Data)
    requires StraightLine(instrs, body, value)
    ensures var e := ExecAll(c, body, d);
      StopsFrom(c, code, Running(b, instrs, d), Halt(c, Returned(EvalVal(value, e.env)), e))
    ensures ExecAll(c, body, d).mem == d.mem && ExecAll(c, body, d).trace == d.trace
    decreases |instrs|
  {
    var s, i, e := Running(b, instrs, d), instrs[0], ExecAll(c, body, d);
    var h := Halt(c, Returned(EvalVal(value, e.env)), e);
    hide StopsFrom, Halt, Goto, Result;
    HaltIsStop(c, Returned(EvalVal(value, e.env)), e);
    if i.Return? {
      StopsNow(c, code, h);
      StopsAfter(c, code, s, h, h);
    } else if i.Nop? {
      CalleeReturns(c, code, b, instrs[1..], body, value, d);
      StopsAfter(c, code, s, Running(b, instrs[1..], d), h);
    } else {
      CalleeReturns(c, code, b, instrs[1..], body[1..], value, Exec(c, i, d));
      StopsAfter(c, code, s, Running(b, instrs[1..], Exec(c, i, d)), h);
    }
  }

  /** So an answered call gets what a run of the callee's body returns. */
  lemma FrameReturns(c: Ctx, f: Function, cand: InlineCandidate, args: seq<Val>, types: Types, statics: set<Name>,
        d: Data)
    requires IsCandidateOf(f, cand, types, statics) && |cand.params| == |args|
    ensures var frame, e := Frame(c, cand.params, args, statics, d), CalleeState(c, cand, args, statics, d);
      StopsFrom(c, [f.body], Start([f.body], frame), Halt(c, Returned(EvalVal(cand.returnValue, e.env)), e))
      && e.mem == frame.mem && e.trace == frame.trace
  {
    hide StopsFrom, Halt, NamesKnown, StraightLine, Frame;
    CalleeReturns(c, [f.body], 0, f.body, cand.body, cand.returnValue, Frame(c, cand.params, args, statics, d));
  }

  lemma HaltIsStop(c: Ctx, o: Outcome, d: Data)
    ensures Halt(c, o, d).Halted?
  {
  }

  // ----- both runs side by side -----

  /** The two states agree on everything but the names made for inlining. */
  ghost predicate AlikeOutside(d: Data, e: Data) {
    d.mem == e.mem && d.trace == e.trace && forall y :: Ordinary(y) ==> Read(d.env, y) == Read(e.env, y)
  }

  ghost predicate OrdinaryNames(names: set<Name>) {
    forall y :: y in names ==> Ordinary(y)
  }

  ghost predicate OnlyOrdinary(i: Instr) {
    forall y :: y in SourceVars(i) || DefinedVar(i) == Some(y) ==> Ordinary(y)
  }

  /** The caller, its context and each inlined call are fit for inlining. */
  ghost predicate JobFits(c: Ctx, j: Job) {
    && Confined(c) && OrdinaryNames(c.aliased) && OrdinaryNames(c.statics) && OrdinaryNames(j.statics)
    && (forall k :: 0 <= k < |j.body| ==> InstrFits(c, j, k))
  }

  ghost predicate InstrFits(c: Ctx, j: Job, k: nat)
    requires k < |j.body|
  {
    var i := j.body[k];
    && OnlyOrdinary(i) && (i.GetAddress? ==> i.taken in c.aliased)
    && (Site(j, i) ==> SafeBody(j.candidates[i.callee].body)
                       && CallFits(c, j.candidates[i.callee], i.args, i.dst, IdAt(j, k), j.statics))
  }

  ghost predicate AtSame(c: Ctx, j: Job, s: Config, t: Config) {
    if s.Running? then
      var k := |j.body| - |s.rest|;
      && k >= 0 && s == Running(0, j.body[k..], s.data)
      && t.Running? && t == Running(0, InlinedFrom(j, k), t.data)
      && AlikeOutside(s.data, t.data) && DataSafe(t.data, c.aliased)
    else s == t
  }

  lemma StandAt(c: Ctx, j: Job, k: nat, d: Data, e: Data)
    requires k <= |j.body| && AlikeOutside(d, e) && DataSafe(e, c.aliased)
    ensures AtSame(c, j, Running(0, j.body[k..], d), Running(0, InlinedFrom(j, k), e))
  {
    hide AlikeOutside, DataSafe, InlinedFrom;
  }

  lemma SameHalt(c: Ctx, o: Outcome, d: Data, e: Data)
    requires AlikeOutside(d, e) && OrdinaryNames(c.statics)
    ensures Halt(c, o, d) == Halt(c, o, e)
  {
    hide Ordinary;
  }

  lemma SameOperand(v: Val, d: Data, e: Data)
    requires AlikeOutside(d, e) && OrdinaryNames(ValVars(v))
    ensures EvalVal(v, d.env) == EvalVal(v, e.env)
  {
    hide Ordinary;
  }

  /** An instruction over ordinary names does the same on both sides. */
  lemma SameExec(c: Ctx, i: Instr, d: Data, e: Data)
    requires AlikeOutside(d, e) && DataSafe(e, c.aliased) && OnlyOrdinary(i) && OrdinaryNames(c.aliased)
    requires Confined(c) && (i.GetAddress? ==> i.taken in c.aliased)
    ensures AlikeOutside(Exec(c, i, d), Exec(c, i, e)) && DataSafe(Exec(c, i, e), c.aliased)
  {
    hide Ordinary, DataSafe, Confined, Exec, SourceVars;
    assert Agree(e.env, d.env, Needs(c, i));
    ExecAgree(c, i, e, d);
    ExecSafe(c, i, e);
  }

  // ----- labels -----

  lemma PieceLabels(j: Job, k: nat, l: Name)
    requires k < |j.body| && (Site(j, j.body[k]) ==> SafeBody(j.candidates[j.body[k].callee].body))
    ensures Label(l) in Piece(j, k) <==> j.body[k] == Label(l)
    ensures j.body[k] == Label(l) ==> Piece(j, k) == [Label(l)]
  {
    var i := j.body[k];
    if Site(j, i) {
      var cand := j.candidates[i.callee];
      ExpansionComputes(cand, i.args, i.dst, IdAt(j, k), j.statics);
      hide Expansion, Replaces;
    }
  }

  /** An expansion only computes. */
  lemma ExpansionComputes(cand: InlineCandidate, args: seq<Val>, dst: Name, id: nat, statics: set<Name>)
    requires |cand.params| == |args| && SafeBody(cand.body)
    ensures forall h :: 0 <= h < |Expansion(cand, args, dst, id, statics)| ==>
      Computes(Expansion(cand, args, dst, id, statics)[h]) && !Expansion(cand, args, dst, id, statics)[h].GetAddress?
  {
    hide Renamed, RenamedVal;
    var renamed := RenamedBody(cand.body, id, statics);
    forall h | 0 <= h < |renamed|
      ensures Computes(renamed[h]) && !renamed[h].GetAddress?
    {
      assert IsInlineSafe(cand.body[h]);
    }
  }

  lemma {:induction false} LabelPast(a: seq<Instr>, b: seq<Instr>, l: Name)
    requires Label(l) !in a
    ensures LabelIndex(a + b, l) == |a| + LabelIndex(b, l)
  {
    if a == [] {
      assert a + b == b;
    } else {
      assert (a + b)[1..] == a[1..] + b;
      LabelPast(a[1..], b, l);
    }
  }

  lemma BodyFrom(j: Job, k: nat)
    requires k < |j.body|
    ensures j.body[k..] == [j.body[k]] + j.body[k + 1..]
  {
  }

  /** The code at a label, in a list that starts with another instruction or piece. */
  lemma LabelBehind(a: seq<Instr>, b: seq<Instr>, l: Name)
    requires Label(l) !in a
    ensures Label(l) in a + b <==> Label(l) in b
    ensures LabelIndex(a + b, l) == |a| + LabelIndex(b, l) && (a + b)[LabelIndex(a + b, l)..] == b[LabelIndex(b, l)..]
  {
    LabelPast(a, b, l);
    hide LabelIndex;
    AfterPrefix(a, b, LabelIndex(b, l));
  }

  /** Where a label stands at or after the `k`-th instruction. */
  function LabelPlace(j: Job, k: nat, l: Name): (t: nat)
    requires k <= |j.body|
    ensures k <= t <= |j.body|
    decreases |j.body| - k
  {
    if k == |j.body| || j.body[k] == Label(l) then k else LabelPlace(j, k + 1, l)
  }

  lemma {:induction false} PlaceIsIndex(j: Job, k: nat, l: Name)
    requires k <= |j.body|
    ensures k + LabelIndex(j.body[k..], l) == LabelPlace(j, k, l)
    ensures Label(l) in j.body[k..] <==> LabelPlace(j, k, l) < |j.body|
    decreases |j.body| - k
  {
    if k < |j.body| {
      BodyFrom(j, k);
      PlaceIsIndex(j, k + 1, l);
    }
  }

  /** The code at a label of the rewritten body is what the instructions from there on are rewritten to. */
  ghost predicate LedTo(q: seq<Instr>, l: Name, at: seq<Instr>) {
    Label(l) in q && q[LabelIndex(q, l)..] == at
  }

  lemma LedBehind(piece: seq<Instr>, q: seq<Instr>, l: Name, at: seq<Instr>)
    requires Label(l) !in piece
    ensures LedTo(q, l, at) ==> LedTo(piece + q, l, at)
    ensures Label(l) !in q ==> Label(l) !in piece + q
  {
    LabelBehind(piece, q, l);
  }

  lemma LedHere(q: seq<Instr>, l: Name)
    ensures LedTo([Label(l)] + q, l, [Label(l)] + q)
  {
    LabelFirst(q, l);
  }

  /** A label is followed by the same code on both sides. */
  lemma {:induction false} InlinedLabel(c: Ctx, j: Job, k: nat, l: Name)
    requires JobFits(c, j) && k <= |j.body|
    ensures if LabelPlace(j, k, l) < |j.body| then LedTo(InlinedFrom(j, k), l, InlinedFrom(j, LabelPlace(j, k, l)))
            else Label(l) !in InlinedFrom(j, k)
    decreases |j.body| - k
  {
    hide JobFits, InlinedFrom, LedTo, Piece;
    if k == |j.body| {
      NothingLeft(j);
    } else {
      FitsHere(c, j, k);
      PieceLabels(j, k, l);
      FromHere(j, k);
      if j.body[k] == Label(l) {
        LedHere(InlinedFrom(j, k + 1), l);
      } else {
        InlinedLabel(c, j, k + 1, l);
        LedBehind(Piece(j, k), InlinedFrom(j, k + 1), l, InlinedFrom(j, LabelPlace(j, k + 1, l)));
      }
    }
  }

  lemma FromHere(j: Job, k: nat)
    requires k < |j.body|
    ensures InlinedFrom(j, k) == Piece(j, k) + InlinedFrom(j, k + 1)
  {
    hide Piece;
  }

  lemma LabelFirst(rest: seq<Instr>, l: Name)
    ensures LabelIndex([Label(l)] + rest, l) == 0 && ([Label(l)] + rest)[0..] == [Label(l)] + rest
  {
  }

  lemma AfterPrefix<T>(a: seq<T>, b: seq<T>, n: nat)
    requires n <= |b|
    ensures (a + b)[|a| + n..] == b[n..]
  {
  }

  lemma FitsHere(c: Ctx, j: Job, k: nat)
    requires JobFits(c, j) && k < |j.body|
    ensures InstrFits(c, j, k) && (Site(j, j.body[k]) ==> SafeBody(j.candidates[j.body[k].callee].body))
    ensures Confined(c) && OrdinaryNames(c.aliased) && OrdinaryNames(c.statics) && OrdinaryNames(j.statics)
  {
  }

  lemma OneList(body: seq<Instr>, l: Name, d: Data)
    ensures Goto([body], l, d) ==
      if Label(l) in body then Running(0, body[LabelIndex(body, l)..], d) else Trapped(d.trace)
  {
    assert [body][0] == body && LabelBlock([body], l, 1) == 1;
    assert LabelBlock([body], l, 0) == if Label(l) in body then 0 else 1;
  }

  lemma SameGoto(c: Ctx, j: Job, l: Name, d: Data, e: Data)
    requires JobFits(c, j) && AlikeOutside(d, e) && DataSafe(e, c.aliased)
    ensures AtSame(c, j, Goto([j.body], l, d), Goto([InlinedFrom(j, 0)], l, e))
  {
    hide JobFits, DataSafe, Goto, LabelIndex, InlinedFrom, Ordinary;
    InlinedLabel(c, j, 0, l);
    PlaceIsIndex(j, 0, l);
    OneList(j.body, l, d);
    OneList(InlinedFrom(j, 0), l, e);
    assert j.body[0..] == j.body;
    if Label(l) in j.body {
      hide AtSame;
      StandAt(c, j, LabelIndex(j.body, l), d, e);
    }
  }

  // ----- single steps -----

  /** Instructions that only compute run one after the other. */
  lemma {:induction false} ComputesRun(c: Ctx, code: Code, b: nat, xs: seq<Instr>, tail: seq<Instr>, d: Data, m: nat)
    requires m <= |xs| && forall h :: 0 <= h < |xs| ==> Computes(xs[h])
    ensures var e := ExecAll(c, xs[..m], d);
      && Run(c, code, Running(b, xs + tail, d), m) == Running(b, xs[m..] + tail, e)
      && e.mem == d.mem && e.trace == d.trace
    decreases m
  {
    hide Result, Goto;
    if m > 0 {
      assert (xs + tail)[1..] == xs[1..] + tail && xs[..m][1..] == xs[1..][..m - 1] && xs[1..][m - 1..] == xs[m..];
      ComputesRun(c, code, b, xs[1..], tail, Exec(c, xs[0], d), m - 1);
    } else {
      assert xs[0..] == xs && xs[..0] == [];
    }
  }

  lemma {:induction false} ExecAllSafe(c: Ctx, xs: seq<Instr>, d: Data)
    requires Confined(c) && DataSafe(d, c.aliased) && forall h :: 0 <= h < |xs| ==> !xs[h].GetAddress?
    ensures DataSafe(ExecAll(c, xs, d), c.aliased)
    decreases |xs|
  {
    hide Exec, DataSafe, Confined;
    if xs != [] {
      ExecSafe(c, xs[0], d);
      ExecAllSafe(c, xs[1..], Exec(c, xs[0], d));
    }
  }

  // ----- the frame, seen from both sides -----

  ghost predicate SameReads(f: Data, g: Data) {
    f.mem == g.mem && f.trace == g.trace && forall x :: Read(f.env, x) == Read(g.env, x)
  }

  lemma SameValue(v: Val, f: Data, g: Data)
    requires SameReads(f, g)
    ensures EvalVal(v, f.env) == EvalVal(v, g.env)
  {
  }

  lemma SameStatics(statics: set<Name>, d: Data, e: Data)
    requires AlikeOutside(d, e) && OrdinaryNames(statics)
    ensures SameReads(d.(env := map x | x in statics && x in d.env :: d.env[x]),
      e.(env := map x | x in statics && x in e.env :: e.env[x]))
  {
    hide Ordinary;
    forall x | x in statics
      ensures Read(d.env, x) == Read(e.env, x)
    {
    }
  }

  lemma SameUpdate(f: Data, g: Data, x: Name, v: Value)
    requires SameReads(f, g)
    ensures SameReads(f.(env := f.env[x := v]), g.(env := g.env[x := v]))
  {
    var f', g' := f.env[x := v], g.env[x := v];
    forall y
      ensures Read(f', y) == Read(g', y)
    {
      assert Read(f.env, y) == Read(g.env, y);
    }
  }

  lemma {:induction false} SameFrame(c: Ctx, params: seq<Name>, args: seq<Val>, statics: set<Name>, d: Data, e: Data)
    requires |params| == |args| && AlikeOutside(d, e) && OrdinaryNames(statics)
    requires forall k :: 0 <= k < |args| ==> OrdinaryNames(ValVars(args[k]))
    ensures SameReads(Frame(c, params, args, statics, d), Frame(c, params, args, statics, e))
    decreases |params|
  {
    hide Ordinary, ValVars, SameReads, AlikeOutside, OrdinaryNames;
    if params == [] {
      SameStatics(statics, d, e);
    } else {
      var n := |params| - 1;
      SameFrame(c, params[..n], args[..n], statics, d, e);
      SameOperand(args[n], d, e);
      SameUpdate(Frame(c, params[..n], args[..n], statics, d), Frame(c, params[..n], args[..n], statics, e), params[n],
                 PassedValue(c, params[n], args[n], d));
    }
  }

  lemma {:induction false} SameBody(c: Ctx, body: seq<Instr>, f: Data, g: Data)
    requires SameReads(f, g) && SafeBody(body)
    ensures SameReads(ExecAll(c, body, f), ExecAll(c, body, g))
    decreases |body|
  {
    hide SameReads;
    if body != [] {
      assert IsInlineSafe(body[0]);
      SameSafe(c, body[0], f, g);
      assert SafeBody(body[1..]);
      hide IsInlineSafe, Exec;
      SameBody(c, body[1..], Exec(c, body[0], f), Exec(c, body[0], g));
    }
  }

  lemma SameSafe(c: Ctx, i: Instr, f: Data, g: Data)
    requires SameReads(f, g) && IsInlineSafe(i)
    ensures SameReads(Exec(c, i, f), Exec(c, i, g))
  {
    match i {
      case Binary(_, v, w, _) => SameValue(v, f, g); SameValue(w, f, g);
      case AddPtr(v, w, _, _) => SameValue(v, f, g); SameValue(w, f, g);
      case Copy(v, _) => SameValue(v, f, g);
      case Unary(_, v, _) => SameValue(v, f, g);
      case Convert(_, v, _) => SameValue(v, f, g);
    }
    assert Result(c, i, f) == Result(c, i, g);
    SameUpdate(f, g, i.dst, Result(c, i, f));
    hide SameReads, Result;
  }

  /** What an eligible call answers depends on ordinary names only. */
  lemma SameAnswer(c: Ctx, j: Job, i: Instr, d: Data, e: Data)
    requires Site(j, i) && OnlyOrdinary(i) && OrdinaryNames(j.statics) && AlikeOutside(d, e)
    requires SafeBody(j.candidates[i.callee].body)
    ensures var cand := j.candidates[i.callee];
      EvalVal(cand.returnValue, CalleeState(c, cand, i.args, j.statics, d).env)
      == EvalVal(cand.returnValue, CalleeState(c, cand, i.args, j.statics, e).env)
  {
    var cand := j.candidates[i.callee];
    forall k | 0 <= k < |i.args|
      ensures OrdinaryNames(ValVars(i.args[k]))
    {
      assert forall y :: y in ValVars(i.args[k]) ==> y in SourceVars(i);
      hide Ordinary;
    }
    hide ValVars, SameReads, AlikeOutside, OrdinaryNames, OnlyOrdinary, Ordinary, IsInlineSafe;
    SameFrame(c, cand.params, i.args, j.statics, d, e);
    SameBody(c, cand.body, Frame(c, cand.params, i.args, j.statics, d), Frame(c, cand.params, i.args, j.statics, e));
    SameValue(cand.returnValue, CalleeState(c, cand, i.args, j.statics, d), CalleeState(c, cand, i.args, j.statics, e));
  }

  /** The expansion leaves what the answered call leaves, but for the names made for inlining. */
  lemma ExpansionAnswers(c: Ctx, j: Job, k: nat, d: Data, e: Data)
    requires k < |j.body| && Site(j, j.body[k]) && InstrFits(c, j, k) && OrdinaryNames(j.statics) && AlikeOutside(d, e)
    ensures AlikeOutside(Answered(c, j, j.body[k], d), ExecAll(c, Piece(j, k), e))
  {
    var i, cand := j.body[k], j.candidates[j.body[k].callee];
    var id := IdAt(j, k);
    SameAnswer(c, j, i, d, e);
    InliningKeeps(c, cand, i.args, i.dst, id, j.statics, e);
    hide CallFits, Expansion, CalleeState, Ordinary, Outside, SafeBody, OnlyOrdinary, ExecAll, Replaces, OrdinaryNames;
    var d', e' := Answered(c, j, i, d), ExecAll(c, Piece(j, k), e);
    forall y | Ordinary(y)
      ensures Read(d'.env, y) == Read(e'.env, y)
    {
      OrdinaryOutside(y, id);
      assert Read(d.env, y) == Read(e.env, y);
    }
  }

  // ----- whole runs -----

  /** The rewritten body as code. */
  function InlinedBody(j: Job): Code {
    [InlinedFrom(j, 0)]
  }

  lemma StandsAt(c: Ctx, j: Job, s: Config, t: Config) returns (k: nat)
    requires AtSame(c, j, s, t) && s.Running? && s.rest != []
    ensures k < |j.body| && s == Running(0, j.body[k..], s.data) && s.rest[0] == j.body[k]
      && s.rest[1..] == j.body[k + 1..]
    ensures t.Running? && t == Running(0, Piece(j, k) + InlinedFrom(j, k + 1), t.data)
    ensures AlikeOutside(s.data, t.data) && DataSafe(t.data, c.aliased)
  {
    k := |j.body| - |s.rest|;
    hide AlikeOutside, DataSafe, Piece;
  }

  /** Stopped, or at the end of the body. */
  lemma FollowsEnd(c: Ctx, j: Job, s: Config, t: Config)
    requires JobFits(c, j) && AtSame(c, j, s, t) && (s.Running? ==> s.rest == [])
    ensures AtSame(c, j, AnsweredStep(c, j, s), Step(c, InlinedBody(j), t))
  {
    hide Halt, DataSafe, Goto;
    if s.Running? {
      NothingLeft(j);
      SameHalt(c, FellOff, s.data, t.data);
      HaltIsStop(c, FellOff, s.data);
    }
  }

  /** An instruction that is not replaced takes one step on both sides. */
  lemma FollowsOther(c: Ctx, j: Job, k: nat, d: Data, e: Data)
    requires JobFits(c, j) && k < |j.body| && !Site(j, j.body[k]) && AlikeOutside(d, e) && DataSafe(e, c.aliased)
    ensures AtSame(c, j, Step(c, [j.body], Running(0, j.body[k..], d)),
                   Step(c, InlinedBody(j), Running(0, [j.body[k]] + InlinedFrom(j, k + 1), e)))
  {
    var i, tail := j.body[k], InlinedFrom(j, k + 1);
    FitsHere(c, j, k);
    BodyFrom(j, k);
    assert ([i] + tail)[1..] == tail;
    hide JobFits, AlikeOutside, DataSafe, Goto, Halt, Replaces, Exec, Ordinary, AtSame, InlinedFrom, EvalVal,
      OrdinaryNames, SourceVars;
    if i.Return? {
      ReturnSame(c, i, d, e);
      StoppedSame(c, j, Halt(c, Returned(EvalVal(i.val, d.env)), d));
    } else if i.Unreachable? {
      TraceSame(d, e);
      StoppedSame(c, j, Trapped(d.trace));
    } else if IsJump(i) {
      TakenSame(c, i, d, e);
      SameGoto(c, j, i.target, d, e);
      StandAt(c, j, k + 1, d, e);
    } else {
      SameExec(c, i, d, e);
      StandAt(c, j, k + 1, Exec(c, i, d), Exec(c, i, e));
    }
  }

  lemma ReturnSame(c: Ctx, i: Instr, d: Data, e: Data)
    requires i.Return? && OnlyOrdinary(i) && OrdinaryNames(c.statics) && AlikeOutside(d, e)
    ensures Halt(c, Returned(EvalVal(i.val, d.env)), d) == Halt(c, Returned(EvalVal(i.val, e.env)), e)
    ensures Halt(c, Returned(EvalVal(i.val, d.env)), d).Halted?
  {
    hide Ordinary, AlikeOutside, Halt;
    SameOperand(i.val, d, e);
    SameHalt(c, Returned(EvalVal(i.val, d.env)), d, e);
    HaltIsStop(c, Returned(EvalVal(i.val, d.env)), d);
  }

  lemma TraceSame(d: Data, e: Data)
    requires AlikeOutside(d, e)
    ensures d.trace == e.trace
  {
  }

  lemma StoppedSame(c: Ctx, j: Job, s: Config)
    requires !s.Running?
    ensures AtSame(c, j, s, s)
  {
  }

  lemma TakenSame(c: Ctx, i: Instr, d: Data, e: Data)
    requires IsJump(i) && OnlyOrdinary(i) && AlikeOutside(d, e)
    ensures Taken(c, i, d.env) == Taken(c, i, e.env)
  {
    hide Ordinary, AlikeOutside;
    if !i.Jump? {
      SameOperand(i.cond, d, e);
    }
  }

  /** A replaced call takes one step on the left and its expansion on the right. */
  lemma FollowsCall(c: Ctx, j: Job, k: nat, d: Data, e: Data, m: nat)
    requires JobFits(c, j) && k < |j.body| && Site(j, j.body[k]) && AlikeOutside(d, e) && DataSafe(e, c.aliased)
    requires m <= |Piece(j, k)|
    ensures var t := Run(c, InlinedBody(j), Running(0, Piece(j, k) + InlinedFrom(j, k + 1), e), m);
      && t.Running? && t.data.trace == d.trace
      && (m == |Piece(j, k)| ==> AtSame(c, j, Running(0, j.body[k + 1..], Answered(c, j, j.body[k], d)), t))
  {
    hide *;
    var i, piece, tail := j.body[k], Piece(j, k), InlinedFrom(j, k + 1);
    FitsHere(c, j, k);
    TraceSame(d, e);
    PieceComputes(j, k);
    ComputesRun(c, InlinedBody(j), 0, piece, tail, e, m);
    if m == |piece| {
      assert piece[..m] == piece && piece[m..] + tail == tail;
      ExpansionAnswers(c, j, k, d, e);
      ExecAllSafe(c, piece, e);
      StandAt(c, j, k + 1, Answered(c, j, i, d), ExecAll(c, piece, e));
    }
  }

  lemma PieceComputes(j: Job, k: nat)
    requires k < |j.body| && Site(j, j.body[k]) && SafeBody(j.candidates[j.body[k].callee].body)
    ensures Piece(j, k) != [] && forall h ::
      0 <= h < |Piece(j, k)| ==> Computes(Piece(j, k)[h]) && !Piece(j, k)[h].GetAddress?
  {
    var i := j.body[k];
    ExpansionComputes(j.candidates[i.callee], i.args, i.dst, IdAt(j, k), j.statics);
  }

  /** One step of the caller, and as many of the rewritten body as it takes. */
  lemma Follows(c: Ctx, j: Job, s: Config, t: Config) returns (m: nat)
    requires JobFits(c, j) && AtSame(c, j, s, t)
    ensures m > 0 && AtSame(c, j, AnsweredStep(c, j, s), Run(c, InlinedBody(j), t, m))
    ensures forall i: nat :: i < m ==> SameView(s, Run(c, InlinedBody(j), t, i))
  {
    var q := InlinedBody(j);
    m := 1;
    hide JobFits, Answered, Replaces, Piece, InlinedFrom, Step, InlinedBody, AlikeOutside, DataSafe;
    assert Run(c, q, t, 1) == Step(c, q, t) && Run(c, q, t, 0) == t;
    if s.Running? && s.rest != [] {
      var k := StandsAt(c, j, s, t);
      TraceSame(s.data, t.data);
      hide AtSame;
      if Site(j, j.body[k]) {
        FitsHere(c, j, k);
        PieceComputes(j, k);
        m := |Piece(j, k)|;
        forall i: nat | i <= m
          ensures var u := Run(c, q, t, i);
            && u.Running? && u.data.trace == s.data.trace && (i == m ==> AtSame(c, j, AnsweredStep(c, j, s), u))
        {
          FollowsCall(c, j, k, s.data, t.data, i);
        }
      } else {
        OtherPiece(j, k);
        FollowsOther(c, j, k, s.data, t.data);
      }
    } else {
      FollowsEnd(c, j, s, t);
      SameViews(c, j, s, t);
    }
  }

  lemma OtherPiece(j: Job, k: nat)
    requires k < |j.body| && !Site(j, j.body[k])
    ensures Piece(j, k) == [j.body[k]]
  {
  }

  lemma SameViews(c: Ctx, j: Job, s: Config, t: Config)
    requires AtSame(c, j, s, t)
    ensures SameView(s, t)
  {
  }

  /** What the caller shows after some steps, the rewritten body shows. */
  lemma {:induction false} CallerShown(c: Ctx, j: Job, s: Config, t: Config, n: nat) returns (m: nat)
    requires JobFits(c, j) && AtSame(c, j, s, t)
    ensures SameView(AnsweredRun(c, j, s, n), Run(c, InlinedBody(j), t, m))
    decreases n
  {
    hide JobFits, AtSame, AnsweredStep, SameView, InlinedBody, Step;
    if n == 0 {
      m := 0;
      SameViews(c, j, s, t);
    } else {
      var i := Follows(c, j, s, t);
      var u := Run(c, InlinedBody(j), t, i);
      m := CallerShown(c, j, AnsweredStep(c, j, s), u, n - 1);
      RunSplit(c, InlinedBody(j), t, i, m);
      m := i + m;
    }
  }

  /** And the other way round. */
  lemma {:induction false} RewrittenShown(c: Ctx, j: Job, s: Config, t: Config, m: nat) returns (n: nat)
    requires JobFits(c, j) && AtSame(c, j, s, t)
    ensures SameView(AnsweredRun(c, j, s, n), Run(c, InlinedBody(j), t, m))
    decreases m
  {
    hide JobFits, AtSame, AnsweredStep, SameView, InlinedBody, Step;
    var i := Follows(c, j, s, t);
    if m < i {
      n := 0;
    } else {
      n := RewrittenShown(c, j, AnsweredStep(c, j, s), Run(c, InlinedBody(j), t, i), m - i);
      RunSplit(c, InlinedBody(j), t, i, m - i);
      n := n + 1;
    }
  }

  /** What the caller shows after `n` steps, the rewritten body shows after some. */
  ghost predicate ShownInlined(c: Ctx, j: Job, d: Data, n: nat) {
    exists m: nat :: SameView(AnsweredRun(c, j, Start([j.body], d), n),
      Run(c, InlinedBody(j), Start(InlinedBody(j), d), m))
  }

  /** What the rewritten body shows after `m` steps, the caller shows after some. */
  ghost predicate ShownAnswered(c: Ctx, j: Job, d: Data, m: nat) {
    exists n: nat :: SameView(AnsweredRun(c, j, Start([j.body], d), n),
      Run(c, InlinedBody(j), Start(InlinedBody(j), d), m))
  }

  lemma StartsSame(c: Ctx, j: Job, d: Data)
    requires DataSafe(d, c.aliased)
    ensures AtSame(c, j, Start([j.body], d), Start(InlinedBody(j), d))
  {
    hide DataSafe, InlinedFrom, Ordinary;
    assert j.body[0..] == j.body;
    StandAt(c, j, 0, d, d);
  }

  /** The rewritten body runs like the caller with its eligible calls answered by frames: whatever one
      shows after any number of steps, the other shows after some number of steps. */
  lemma InliningRunsAlike(c: Ctx, j: Job, d: Data)
    requires JobFits(c, j) && DataSafe(d, c.aliased)
    ensures forall n: nat :: ShownInlined(c, j, d, n) && ShownAnswered(c, j, d, n)
  {
    var s, t := Start([j.body], d), Start(InlinedBody(j), d);
    StartsSame(c, j, d);
    hide JobFits, AtSame, AnsweredRun, SameView, InlinedBody, DataSafe, Start, Run;
    forall n: nat
      ensures ShownInlined(c, j, d, n) && ShownAnswered(c, j, d, n)
    {
      var m := CallerShown(c, j, s, t, n);
      var k := RewrittenShown(c, j, s, t, n);
    }
  }

  // ----- all functions of a program -----

  /** What `inline_functions` works on: the functions, and the types and statics they share. */
  datatype Program = Program(functions: seq<Function>, types: Types, statics: set<Name>)

  /** The candidate a function is, unless a later function has its name. */
  ghost predicate LastCandidate(p: Program, n: nat, name: Name, cand: InlineCandidate)
    requires n <= |p.functions|
  {
    exists k :: 0 <= k < n && LastOf(p, n, k, name) && IsCandidateOf(p.functions[k], cand, p.types, p.statics)
  }

  ghost predicate LastOf(p: Program, n: nat, k: nat, name: Name)
    requires k < n <= |p.functions|
  {
    p.functions[k].name == name && forall h :: k < h < n && p.functions[h].name == name ==> NoCandidateOf(p, h)
  }

  ghost predicate NoCandidateOf(p: Program, k: nat)
    requires k < |p.functions|
  {
    forall cand :: !IsCandidateOf(p.functions[k], cand, p.types, p.statics)
  }

  ghost predicate Collected(p: Program, n: nat, candidates: map<Name, InlineCandidate>)
    requires n <= |p.functions|
  {
    forall name, cand :: (name in candidates && candidates[name] == cand) <==> LastCandidate(p, n, name, cand)
  }

  lemma CollectedNext(p: Program, k: nat, candidates: map<Name, InlineCandidate>, r: Option<InlineCandidate>)
    requires k < |p.functions| && Collected(p, k, candidates)
    requires forall cand :: IsCandidateOf(p.functions[k], cand, p.types, p.statics) <==> r == Some(cand)
    ensures Collected(p, k + 1, if r.Some? then candidates[p.functions[k].name := r.value] else candidates)
  {
    hide IsCandidateOf;
    var f, next := p.functions[k], if r.Some? then candidates[p.functions[k].name := r.value] else candidates;
    var n := k + 1;
    forall name, cand
      ensures (name in next && next[name] == cand) <==> LastCandidate(p, n, name, cand)
    {
      if r.Some? && name == f.name {
        assert LastOf(p, k + 1, k, name) && IsCandidateOf(f, r.value, p.types, p.statics);
        assert !NoCandidateOf(p, k);
      } else {
        assert LastCandidate(p, k, name, cand) <==> LastCandidate(p, k + 1, name, cand) by {
          assert forall h :: 0 <= h < k ==> (LastOf(p, k + 1, h, name) <==> LastOf(p, k, h, name));
        }
      }
    }
  }

  /** `collect_inline_candidates` */
  method CollectInlineCandidates(p: Program) returns (candidates: map<Name, InlineCandidate>)
    ensures Collected(p, |p.functions|, candidates)
  {
    hide IsCandidateOf, Collected;
    candidates := map[];
    assert Collected(p, 0, candidates) by { CollectedNothing(p); }
    for k := 0 to |p.functions|
      invariant Collected(p, k, candidates)
    {
      var r := FindCandidate(p.functions[k], p.types, p.statics);
      CollectedNext(p, k, candidates, r);
      if r.Some? {
        candidates := candidates[p.functions[k].name := r.value];
      }
    }
  }

  lemma CollectedNothing(p: Program)
    ensures Collected(p, 0, map[])
  {
  }

  /** Call numbers go on from one function to the next. */
  function FirstIdOf(p: Program, candidates: map<Name, InlineCandidate>, k: nat): nat
    requires k <= |p.functions|
    decreases k, 0
  {
    if k == 0 then 0
    else
      var j := JobOf(p, candidates, k - 1);
      IdAt(j, |j.body|)
  }

  function JobOf(p: Program, candidates: map<Name, InlineCandidate>, k: nat): Job
    requires k < |p.functions|
    decreases k, 1
  {
    var f := p.functions[k];
    Job(f.name, candidates, p.statics, p.types, f.body, FirstIdOf(p, candidates, k))
  }

  /** All inlined calls of a function have their renames noted. */
  ghost predicate AllNoted(j: Job, all: seq<(Name, Name)>) {
    forall k :: 0 <= k < |j.body| ==> Noted(j, k, all)
  }

  lemma AllNotedMore(j: Job, all: seq<(Name, Name)>, more: seq<(Name, Name)>)
    requires AllNoted(j, all) && all <= more
    ensures AllNoted(j, more)
  {
    hide Noted;
    forall k | 0 <= k < |j.body|
      ensures Noted(j, k, more)
    {
      NotedMore(j, k, all, more);
    }
  }

  /** The program reads as TACKY produces it: its names are not those made for inlining, parameters are
      no statics, and candidates assign their locals before they read them. */
  ghost predicate ProgramFits(p: Program) {
    && (forall x :: x in p.types ==> Ordinary(x)) && OrdinaryNames(p.statics)
    && (forall k, cand :: 0 <= k < |p.functions| && IsCandidateOf(p.functions[k], cand, p.types, p.statics) ==>
          AssignsFirst(cand, p.statics))
  }

  ghost predicate AssignsFirst(cand: InlineCandidate, statics: set<Name>) {
    ParamNames(cand.params) !! statics && ReadsAssigned(cand.body, cand.returnValue, ParamNames(cand.params), statics)
  }

  /** A context a caller runs in. */
  ghost predicate CallerFits(c: Ctx, body: seq<Instr>) {
    && Confined(c) && OrdinaryNames(c.aliased) && OrdinaryNames(c.statics)
    && (forall k :: 0 <= k < |body| ==> OnlyOrdinary(body[k]) && (body[k].GetAddress? ==> body[k].taken in c.aliased))
  }

  lemma MadeIsMadeByCalls(metadata: seq<(Name, Name)>, p: Program)
    requires MadeOf(metadata, p.types) && ProgramFits(p)
    ensures MadeByCalls(metadata)
  {
    hide Ordinary, MadeByCall, IsCandidateOf;
  }

  lemma MentionedOrdinary(cand: InlineCandidate, p: Program)
    requires ProgramFits(p) && NamesKnown(cand, p.types, p.statics)
    ensures forall x :: x in Mentioned(cand) ==> Ordinary(x)
  {
    MentionedKnown(cand, p.types, p.statics);
    hide Ordinary, NamesKnown, Mentioned, IsCandidateOf;
  }

  lemma OrdinaryArgs(i: Instr)
    requires i.FunCall? && OnlyOrdinary(i)
    ensures Ordinary(i.dst) && forall k, y :: 0 <= k < |i.args| && y in ValVars(i.args[k]) ==> Ordinary(y)
  {
    hide Ordinary;
    assert DefinedVar(i) == Some(i.dst);
    forall k, y | 0 <= k < |i.args| && y in ValVars(i.args[k])
      ensures Ordinary(y)
    {
      assert y in SourceVars(i);
    }
  }

  /** One inlined call: what the choice and the notes give is what inlining needs. */
  lemma SiteFits(c: Ctx, p: Program, candidates: map<Name, InlineCandidate>, all: seq<(Name, Name)>, j: Job, k: nat)
    requires ProgramFits(p) && Collected(p, |p.functions|, candidates) && MadeByCalls(all)
    requires j.candidates == candidates && j.statics == p.statics && j.types == p.types
      && c.types == WithRenames(p.types, all)
    requires k < |j.body| && Site(j, j.body[k]) && Noted(j, k, all) && OnlyOrdinary(j.body[k])
    ensures var cand := candidates[j.body[k].callee];
      SafeBody(cand.body) && CallFits(c, cand, j.body[k].args, j.body[k].dst, IdAt(j, k), j.statics)
  {
    var i, cand := j.body[k], candidates[j.body[k].callee];
    var f := WhoseCandidate(p, candidates, i.callee);
    var notes :| Notes(notes, cand, IdAt(j, k), j.statics, j.types) && Among(notes, all);
    assert AssignsFirst(cand, p.statics) && OrdinaryNames(p.statics) && NamesKnown(cand, p.types, p.statics);
    StraightSafe(f.body, cand.body, cand.returnValue);
    OrdinaryArgs(i);
    MentionedOrdinary(cand, p);
    hide IsCandidateOf, Notes, MadeByCalls, WithRenames, Ordinary, CallFits, NamesKnown, ReadsAssigned, ProgramFits,
      Collected, OnlyOrdinary;
    InlinedCallFits(c, f, cand, p.types, all, notes, i.args, i.dst, IdAt(j, k), p.statics);
  }

  lemma WhoseCandidate(p: Program, candidates: map<Name, InlineCandidate>, name: Name) returns (f: Function)
    requires Collected(p, |p.functions|, candidates) && name in candidates
    ensures f in p.functions && IsCandidateOf(f, candidates[name], p.types, p.statics)
  {
    hide IsCandidateOf;
    assert LastCandidate(p, |p.functions|, name, candidates[name]);
    var k :| 0 <= k < |p.functions| && LastOf(p, |p.functions|, k, name)
      && IsCandidateOf(p.functions[k], candidates[name], p.types, p.statics);
    f := p.functions[k];
  }

  /** A caller of the program meets the conditions. */
  lemma CallerJobFits(c: Ctx, p: Program, candidates: map<Name, InlineCandidate>, all: seq<(Name, Name)>, j: Job)
    requires ProgramFits(p) && Collected(p, |p.functions|, candidates) && MadeOf(all, p.types)
    requires j.candidates == candidates && j.statics == p.statics && j.types == p.types
      && c.types == WithRenames(p.types, all)
    requires AllNoted(j, all) && CallerFits(c, j.body)
    ensures JobFits(c, j)
  {
    MadeIsMadeByCalls(all, p);
    hide WithRenames, MadeByCalls, MadeOf, Collected, Noted, CallFits, Ordinary, OnlyOrdinary, Replaces, IsCandidateOf;
    forall k | 0 <= k < |j.body|
      ensures InstrFits(c, j, k)
    {
      if Site(j, j.body[k]) {
        SiteFits(c, p, candidates, all, j, k);
      }
    }
  }

  lemma CandidatesSafe(p: Program, candidates: map<Name, InlineCandidate>)
    requires Collected(p, |p.functions|, candidates)
    ensures SafeCandidates(candidates)
  {
    hide Collected;
    forall name | name in candidates
      ensures SafeBody(candidates[name].body)
    {
      var f := WhoseCandidate(p, candidates, name);
      StraightSafe(f.body, candidates[name].body, candidates[name].returnValue);
    }
  }

  /** Every caller, rewritten, runs like the caller with its eligible calls answered by frames. */
  lemma ProgramRunsAlike(c: Ctx, p: Program, candidates: map<Name, InlineCandidate>, all: seq<(Name, Name)>, k: nat,
        d: Data)
    requires ProgramFits(p) && Collected(p, |p.functions|, candidates) && MadeOf(all, p.types) && k < |p.functions|
    requires AllNoted(JobOf(p, candidates, k), all) && c.types == WithRenames(p.types, all)
    requires CallerFits(c, p.functions[k].body) && DataSafe(d, c.aliased)
    ensures forall n: nat ::
      ShownInlined(c, JobOf(p, candidates, k), d, n) && ShownAnswered(c, JobOf(p, candidates, k), d, n)
  {
    hide ProgramFits, Collected, MadeOf, AllNoted, WithRenames, CallerFits, DataSafe, JobFits, ShownInlined,
      ShownAnswered, FirstIdOf;
    CallerJobFits(c, p, candidates, all, JobOf(p, candidates, k));
    InliningRunsAlike(c, JobOf(p, candidates, k), d);
  }

  /** `inline_functions` */
  method InlineFunctions(p: Program) returns (q: Program, ghost candidates: map<Name, InlineCandidate>,
        ghost all: seq<(Name, Name)>)
    ensures Collected(p, |p.functions|, candidates) && MadeOf(all, p.types)
    ensures |q.functions| == |p.functions| && q.statics == p.statics && q.types == WithRenames(p.types, all)
    ensures forall k :: 0 <= k < |p.functions| ==>
      q.functions[k] == p.functions[k].(body := InlinedFrom(JobOf(p, candidates, k), 0))
        && AllNoted(JobOf(p, candidates, k), all)
  {
    hide Collected, AllNoted, Noted, MadeOf, InlinedFrom, SafeCandidates, WithRenames, IdAt;
    var chosen := CollectInlineCandidates(p);
    candidates := chosen;
    CandidatesSafe(p, chosen);
    var functions, metadata, nextId := [], [], 0;
    assert MadeOf(metadata, p.types) by { NothingMade(p.types); }
    for k := 0 to |p.functions|
      invariant |functions| == k && nextId == FirstIdOf(p, chosen, k) && MadeOf(metadata, p.types)
      invariant forall h :: 0 <= h < k ==>
        functions[h] == p.functions[h].(body := InlinedFrom(JobOf(p, chosen, h), 0))
          && AllNoted(JobOf(p, chosen, h), metadata)
    {
      var f := p.functions[k];
      var j := Job(f.name, chosen, p.statics, p.types, f.body, nextId);
      assert j == JobOf(p, chosen, k);
      var body, more, id := InlineBody(j, metadata);
      AllNotedHere(j, more);
      EarlierNoted(p, chosen, k, metadata, more);
      functions, metadata, nextId := functions + [f.(body := body)], more, id;
    }
    all := metadata;
    q := Program(functions, WithRenames(p.types, metadata), p.statics);
  }

  lemma NothingMade(types: Types)
    ensures MadeOf([], types)
  {
  }

  lemma AllNotedHere(j: Job, all: seq<(Name, Name)>)
    requires forall k :: 0 <= k < |j.body| ==> Noted(j, k, all)
    ensures AllNoted(j, all)
  {
    hide Noted;
  }

  lemma EarlierNoted(p: Program, candidates: map<Name, InlineCandidate>, k: nat, before: seq<(Name, Name)>,
        after: seq<(Name, Name)>)
    requires k <= |p.functions| && before <= after
    requires forall h :: 0 <= h < k ==> AllNoted(JobOf(p, candidates, h), before)
    ensures forall h :: 0 <= h < k ==> AllNoted(JobOf(p, candidates, h), after)
  {
    hide AllNoted, JobOf;
    forall h | 0 <= h < k
      ensures AllNoted(JobOf(p, candidates, h), after)
    {
      AllNotedMore(JobOf(p, candidates, h), before, after);
    }
  }
}
