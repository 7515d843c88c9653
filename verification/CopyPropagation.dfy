/** Copy propagation passes through the same states as the code it rewrites. */
module CopyPropagation {
  import opened Tacky
  import opened Semantics
  import opened Behaviour
  import opened ControlFlow
  import opened CfgRuns
  import opened Effects
  import opened CopyFacts
  import opened CopyRewrite
  import opened MustAnalysis
  import opened LocalSimulation

  /** `transfer_copies_out`, block by block. */
  function CopyTransfer(blocks: seq<BasicBlock>, aliased: set<Name>, types: Types): TransferOf<CopyInstr> {
    (b: nat, f: Facts) => if b < |blocks| then TransferCopies(blocks[b].instructions, f, aliased, types) else {}
  }

  ghost predicate Shapely(f: Facts) {
    Functional(f) && Acyclic(f)
  }

  /** The rewriting scan of a block: each kept instruction is rewritten through the facts
      that reach it, and transfers them in its rewritten form. */
  function RewriteBlock(instrs: seq<Instr>, f: Facts, aliased: set<Name>, types: Types): seq<Instr>
    requires Shapely(f)
  {
    if instrs == [] then []
    else match Rewrite(instrs[0], f, types)
      case None => RewriteBlock(instrs[1..], f, aliased, types)
      case Some(j) =>
        TransferShaped(j, f, aliased, types);
        [j] + RewriteBlock(instrs[1..], TransferCopy(j, f, aliased, types), aliased, types)
  }

  ghost predicate AllShapely(out: seq<Facts>) {
    forall b :: 0 <= b < |out| ==> Shapely(out[b])
  }

  lemma MeetShapely(preds: seq<NodeId>, out: seq<Facts>)
    requires AllShapely(out)
    ensures Shapely(Meet(preds, out))
  {
    if Entry !in preds && FirstPred(preds, out).Some? {
      SubsetShaped(Meet(preds, out), out[FirstPred(preds, out).value]);
    } else {
      EmptyShapely();
    }
  }

  lemma EmptyShapely()
    ensures Shapely({})
  {
    var zero: Name -> nat := x => 0;
    assert Ranked({}, zero);
  }

  /** The code after the pass, once the facts are solved. */
  function Propagated(blocks: seq<BasicBlock>, out: seq<Facts>, aliased: set<Name>, types: Types): (code: Code)
    requires AllShapely(out)
    ensures |code| == |blocks|
  {
    seq(|blocks|, b requires 0 <= b < |blocks| =>
      MeetShapely(blocks[b].predecessors, out);
      RewriteBlock(blocks[b].instructions, Meet(blocks[b].predecessors, out), aliased, types))
  }

  lemma UnfoldRewrite(instrs: seq<Instr>, k: nat, f: Facts, aliased: set<Name>, types: Types)
    requires k <= |instrs| && Shapely(f)
    ensures k == |instrs| ==> RewriteBlock(instrs[k..], f, aliased, types) == []
    ensures k < |instrs| ==>
      match Rewrite(instrs[k], f, types)
      case None => RewriteBlock(instrs[k..], f, aliased, types) == RewriteBlock(instrs[k + 1..], f, aliased, types)
      case Some(j) =>
        var g := TransferCopy(j, f, aliased, types);
        Shapely(g) && RewriteBlock(instrs[k..], f, aliased, types)
          == [j] + RewriteBlock(instrs[k + 1..], g, aliased, types)
  {
    if k < |instrs| {
      assert instrs[k..][0] == instrs[k] && instrs[k..][1..] == instrs[k + 1..];
      match Rewrite(instrs[k], f, types)
      case None =>
      case Some(j) => TransferShaped(j, f, aliased, types);
    }
  }

  lemma ShapelyFunctional(f: Facts)
    requires Shapely(f)
    ensures Functional(f)
  {
  }

  /** The rewriting loop of `copy_propagation` for one block. */
  method RewriteInstructions(instrs: seq<Instr>, incoming: Facts, aliased: set<Name>, types: Types)
    returns (rewritten: seq<Instr>)
    requires Shapely(incoming)
    ensures rewritten == RewriteBlock(instrs, incoming, aliased, types)
  {
    hide *;
    rewritten := [];
    var reaching := incoming;
    assert instrs[0..] == instrs;
    for k := 0 to |instrs|
      invariant Shapely(reaching)
      invariant rewritten + RewriteBlock(instrs[k..], reaching, aliased, types)
        == RewriteBlock(instrs, incoming, aliased, types)
    {
      UnfoldRewrite(instrs, k, reaching, aliased, types);
      ShapelyFunctional(reaching);
      match Rewrite(instrs[k], reaching, types)
      case None =>
      case Some(j) =>
        reaching := TransferCopy(j, reaching, aliased, types);
        rewritten := rewritten + [j];
    }
    UnfoldRewrite(instrs, |instrs|, reaching, aliased, types);
  }

  // ----- rewriting keeps the skeleton -----

  lemma RewriteControl(i: Instr, f: Facts, types: Types)
    requires Functional(f)
    ensures match Rewrite(i, f, types) case None => !EndsBlock(i) && !i.Label? case Some(j) => SameControl(i, j)
  {
  }

  lemma {:induction false} RewriteFrame(instrs: seq<Instr>, f: Facts, aliased: set<Name>, types: Types)
    requires Shapely(f) && Shaped(instrs)
    ensures SameFrame(instrs, RewriteBlock(instrs, f, aliased, types))
  {
    if instrs != [] {
      var i, rest := instrs[0], instrs[1..];
      assert instrs == [i] + rest;
      ShapedTail(instrs);
      RewriteControl(i, f, types);
      hide SameFrame, Shaped, SameControl, Rewrite, TransferCopy, Shapely;
      match Rewrite(i, f, types)
      case None =>
        RewriteFrame(rest, f, aliased, types);
        FrameSkip(i, rest, RewriteBlock(rest, f, aliased, types));
      case Some(j) =>
        assert Shapely(TransferCopy(j, f, aliased, types)) by { KeepsShapely(j, f, aliased, types); }
        RewriteFrame(rest, TransferCopy(j, f, aliased, types), aliased, types);
        FrameCons(i, rest, j, RewriteBlock(rest, TransferCopy(j, f, aliased, types), aliased, types));
    }
  }

  lemma KeepsShapely(i: Instr, f: Facts, aliased: set<Name>, types: Types)
    requires Shapely(f)
    ensures Shapely(TransferCopy(i, f, aliased, types))
  {
    TransferShaped(i, f, aliased, types);
  }

  lemma PropagatedBlock(blocks: seq<BasicBlock>, out: seq<Facts>, aliased: set<Name>, types: Types, b: nat)
    requires AllShapely(out) && b < |blocks|
    ensures Shapely(Meet(blocks[b].predecessors, out))
    ensures Propagated(blocks, out, aliased, types)[b]
         == RewriteBlock(blocks[b].instructions, Meet(blocks[b].predecessors, out), aliased, types)
  {
    MeetShapely(blocks[b].predecessors, out);
  }

  lemma PropagatedSkeleton(blocks: seq<BasicBlock>, out: seq<Facts>, aliased: set<Name>, types: Types)
    requires WellFormed(blocks) && AllShapely(out)
    ensures SameSkeleton(CodeOf(blocks), Propagated(blocks, out, aliased, types))
  {
    var code, next := CodeOf(blocks), Propagated(blocks, out, aliased, types);
    assert Partitioned(code);
    hide WellFormed, Propagated, SameFrame, Shapely, AllShapely;
    forall b | 0 <= b < |blocks|
      ensures SameFrame(code[b], next[b])
    {
      PropagatedBlock(blocks, out, aliased, types, b);
      RewriteFrame(blocks[b].instructions, Meet(blocks[b].predecessors, out), aliased, types);
    }
    FramesMakeSkeleton(code, next);
  }

  // ----- the simulation -----

  /** What the pass assumes: a well-formed graph whose facts are solved, in a function whose
      copies are well typed and whose machine is lawful. */
  ghost predicate PassInputs(c: Ctx, flow: Flow, blocks: seq<BasicBlock>, out: seq<Facts>) {
    && WellFormed(blocks) && Confined(c) && CodeConfined(CodeOf(blocks), c.aliased)
    && Lawful(c.machine) && FlowCanonical(c.machine, c.types, flow) && CodeTyped(c.types, flow, CodeOf(blocks))
    && Solved(blocks, CopyTransfer(blocks, c.aliased, c.types), out) && AllShapely(out)
  }

  ghost predicate CodeTyped(types: Types, flow: Flow, code: Code) {
    forall b :: 0 <= b < |code| ==> InstrsTyped(types, flow, code[b])
  }

  ghost predicate InstrsTyped(types: Types, flow: Flow, instrs: seq<Instr>) {
    forall k :: 0 <= k < |instrs| ==> CopyTyped(types, flow, instrs[k])
  }

  /** Inside a block: `f` are the facts of the analysis, which on the rest of the block fold
      into the solution; `g` those of the rewriting scan. Both hold, and both sides are in
      the same state. */
  ghost predicate WithFacts(c: Ctx, flow: Flow, out: seq<Facts>, b: nat, rest: seq<Instr>, rest': seq<Instr>,
                            d: Data, e: Data, f: Facts, g: Facts)
  {
    && b < |out|
    && Sound(c, flow, f, d.env) && TransferCopies(rest, f, c.aliased, c.types) == out[b]
    && Sound(c, flow, g, d.env) && rest' == RewriteBlock(rest, g, c.aliased, c.types)
    && SameReads(d, e) && InstrsTyped(c.types, flow, rest)
  }

  ghost predicate AtCopyPoint(c: Ctx, flow: Flow, out: seq<Facts>, b: nat, rest: seq<Instr>, rest': seq<Instr>,
        d: Data, e: Data) {
    exists f, g :: WithFacts(c, flow, out, b, rest, rest', d, e, f, g)
  }

  /** Where a block starts, every copy the solution says reaches it holds. */
  ghost predicate StartsSound(c: Ctx, flow: Flow, blocks: seq<BasicBlock>, out: seq<Facts>, b: nat, rest: seq<Instr>,
        env: Env) {
    b < |blocks| && rest == blocks[b].instructions ==> Sound(c, flow, Meet(blocks[b].predecessors, out), env)
  }

  ghost function CopyPoint(c: Ctx, flow: Flow, blocks: seq<BasicBlock>, out: seq<Facts>): Point {
    (b: nat, rest, rest', d, e) =>
      AtCopyPoint(c, flow, out, b, rest, rest', d, e) && StartsSound(c, flow, blocks, out, b, rest, d.env)
  }

  lemma SoundSubset(c: Ctx, flow: Flow, f: Facts, g: Facts, env: Env)
    requires Sound(c, flow, g, env) && f <= g
    ensures Sound(c, flow, f, env)
  {
    SubsetShaped(f, g);
  }

  lemma SoundEnv(c: Ctx, flow: Flow, f: Facts, e: Env, e': Env)
    requires Sound(c, flow, f, e) && forall x :: Read(e, x) == Read(e', x)
    ensures Sound(c, flow, f, e')
  {
    assert forall v :: EvalVal(v, e) == EvalVal(v, e');
  }

  /** Entering a block with facts that hold and that include its incoming facts. */
  lemma CopyEnters(c: Ctx, flow: Flow, blocks: seq<BasicBlock>, out: seq<Facts>, b: nat, d: Data, e: Data, f: Facts)
    requires PassInputs(c, flow, blocks, out) && b < |blocks| && SameReads(d, e)
    requires Sound(c, flow, f, d.env) && Meet(blocks[b].predecessors, out) <= f
    ensures AtCopyPoint(c, flow, out, b, blocks[b].instructions, Propagated(blocks, out, c.aliased, c.types)[b], d, e)
    ensures StartsSound(c, flow, blocks, out, b, blocks[b].instructions, d.env)
  {
    var incoming := Meet(blocks[b].predecessors, out);
    SoundSubset(c, flow, incoming, f, d.env);
    assert InstrsTyped(c.types, flow, CodeOf(blocks)[b]);
    assert out[b] == Outgoing(blocks, CopyTransfer(blocks, c.aliased, c.types), out, b);
    assert WithFacts(c, flow, out, b, blocks[b].instructions, Propagated(blocks, out, c.aliased, c.types)[b], d, e,
      incoming, incoming);
  }

  lemma ReadsExitAlike(c: Ctx, d: Data, e: Data)
    requires SameReads(d, e)
    ensures ExitsAlike(c, d, e)
  {
    assert (map x | x in c.statics :: Read(d.env, x)) == (map x | x in c.statics :: Read(e.env, x));
  }

  lemma CopyLeaves(c: Ctx, flow: Flow, blocks: seq<BasicBlock>, out: seq<Facts>, b: nat, d: Data, e: Data)
    requires PassInputs(c, flow, blocks, out) && b < |blocks| && SameReads(d, e) && Sound(c, flow, out[b], d.env)
    ensures Leaves(c, CodeOf(blocks), Propagated(blocks, out, c.aliased, c.types), CopyPoint(c, flow, blocks, out), b,
      d, e)
  {
    var code, next, pt := CodeOf(blocks), Propagated(blocks, out, c.aliased, c.types), CopyPoint(c, flow, blocks, out);
    forall t: nat | t < |code| && Block(t) in SuccessorsOf(code, b)
      ensures pt(t, code[t], next[t], d, e)
    {
      assert Block(b) in blocks[t].predecessors by {
        assert Block(b) in blocks[t].predecessors <==> Block(t) in blocks[b].successors;
      }
      MeetBelowPredecessor(blocks[t].predecessors, out, b);
      CopyEnters(c, flow, blocks, out, t, d, e, out[b]);
    }
    ReadsExitAlike(c, d, e);
  }

  lemma PlainRewritten(c: Ctx, flow: Flow, d: Data, e: Data, i: Instr, g: Facts) returns (g': Facts)
    requires Sound(c, flow, g, d.env) && Fits(c, flow, i) && Rewrite(i, g, c.types).Some?
    requires DataSafe(d, c.aliased) && SameReads(d, e)
    ensures g' == TransferCopy(Rewrite(i, g, c.types).value, g, c.aliased, c.types)
    ensures Sound(c, flow, g', Exec(c, i, d).env)
    ensures SameReads(Exec(c, i, d), Exec(c, Rewrite(i, g, c.types).value, e))
  {
    var j := Rewrite(i, g, c.types).value;
    RewriteKeepsEffect(c, flow, d, i, g);
    RewrittenFits(c, flow, d, i, g);
    TransferSound(c, flow, d, j, g);
    ExecAgree(c, j, d, e);
    g' := TransferCopy(j, g, c.aliased, c.types);
  }

  /** An ordinary instruction: both sides run it, or the left one runs a deleted copy. */
  lemma CopyPlain(c: Ctx, flow: Flow, blocks: seq<BasicBlock>, out: seq<Facts>,
                  b: nat, rest: seq<Instr>, rest': seq<Instr>, d: Data, e: Data)
    requires PassInputs(c, flow, blocks, out) && AtCopyPoint(c, flow, out, b, rest, rest', d, e)
    requires DataSafe(d, c.aliased) && rest != [] && !EndsBlock(rest[0])
    ensures
      || (rest' != [] && !EndsBlock(rest'[0])
          && AtCopyPoint(c, flow, out, b, rest[1..], rest'[1..], Exec(c, rest[0], d), Exec(c, rest'[0], e)))
      || AtCopyPoint(c, flow, out, b, rest[1..], rest', Exec(c, rest[0], d), e)
  {
    var f, g :| WithFacts(c, flow, out, b, rest, rest', d, e, f, g);
    var i, d' := rest[0], Exec(c, rest[0], d);
    assert CopyTyped(c.types, flow, i) && InstrsTyped(c.types, flow, rest[1..]);
    TransferSound(c, flow, d, i, f);
    var f' := TransferCopy(i, f, c.aliased, c.types);
    match Rewrite(i, g, c.types)
    case None =>
      DeletedIsNoOp(c, flow, d, i, g);
      SoundEnv(c, flow, g, d.env, d'.env);
      assert WithFacts(c, flow, out, b, rest[1..], rest', d', e, f', g);
    case Some(j) =>
      var g' := PlainRewritten(c, flow, d, e, i, g);
      RewriteControl(i, g, c.types);
      assert rest'[0] == j && rest'[1..] == RewriteBlock(rest[1..], g', c.aliased, c.types);
      assert WithFacts(c, flow, out, b, rest[1..], rest'[1..], d', Exec(c, j, e), f', g');
  }

  lemma SteersThroughReads(c: Ctx, i: Instr, j: Instr, d: Data, e: Data)
    requires SteersAlike(c, i, j, d, d) && SameReads(d, e)
    ensures SteersAlike(c, i, j, d, e)
  {
    assert forall v :: EvalVal(v, d.env) == EvalVal(v, e.env);
  }

  lemma CopyTerminator(c: Ctx, flow: Flow, blocks: seq<BasicBlock>, out: seq<Facts>,
                       b: nat, i: Instr, rest': seq<Instr>, d: Data, e: Data)
    requires AtCopyPoint(c, flow, out, b, [i], rest', d, e) && EndsBlock(i)
    ensures |rest'| == 1 && SteersAlike(c, i, rest'[0], d, e)
    ensures b < |out| && Sound(c, flow, out[b], d.env) && SameReads(d, e)
  {
    var f, g :| WithFacts(c, flow, out, b, [i], rest', d, e, f, g);
    assert [i][1..] == [] && TransferCopies([i], f, c.aliased, c.types) == f;
    RewriteKeepsControl(c, flow, d, i, g);
    RewriteControl(i, g, c.types);
    var j := Rewrite(i, g, c.types).value;
    TransferShaped(j, g, c.aliased, c.types);
    assert RewriteBlock([], TransferCopy(j, g, c.aliased, c.types), c.aliased, c.types) == [];
    SteersThroughReads(c, i, j, d, e);
  }

  lemma CopyAtEnd(c: Ctx, flow: Flow, out: seq<Facts>, b: nat, rest': seq<Instr>, d: Data, e: Data)
    ensures AtCopyPoint(c, flow, out, b, [], rest', d, e) ==>
      rest' == [] && b < |out| && Sound(c, flow, out[b], d.env) && SameReads(d, e)
    ensures b < |out| && Sound(c, flow, out[b], d.env) && SameReads(d, e) ==> AtCopyPoint(c, flow, out, b, [], [], d, e)
  {
    if b < |out| && Sound(c, flow, out[b], d.env) && SameReads(d, e) {
      assert WithFacts(c, flow, out, b, [], [], d, e, out[b], out[b]);
    }
  }

  /** Past its first instruction, a run is not at the start of its block. */
  lemma PastStart(c: Ctx, flow: Flow, blocks: seq<BasicBlock>, out: seq<Facts>, b: nat, rest: seq<Instr>, d: Data,
        env: Env)
    requires Standing(c, CodeOf(blocks), b, rest, d) && rest != []
    ensures StartsSound(c, flow, blocks, out, b, rest[1..], env) && StartsSound(c, flow, blocks, out, b, [], env)
  {
    assert CodeOf(blocks)[b] == blocks[b].instructions;
  }

  lemma CopyStep(c: Ctx, flow: Flow, blocks: seq<BasicBlock>, out: seq<Facts>,
                 b: nat, rest: seq<Instr>, rest': seq<Instr>, d: Data, e: Data)
    requires PassInputs(c, flow, blocks, out) && AtCopyPoint(c, flow, out, b, rest, rest', d, e)
    requires Standing(c, CodeOf(blocks), b, rest, d)
    ensures LocalStep(c, CodeOf(blocks), Propagated(blocks, out, c.aliased, c.types), CopyPoint(c, flow, blocks, out),
      b, rest, rest', d, e)
  {
    if rest == [] {
      CopyAtEnd(c, flow, out, b, rest', d, e);
      CopyLeaves(c, flow, blocks, out, b, d, e);
    } else if EndsBlock(rest[0]) {
      TerminatorEnding(CodeOf(blocks), Running(b, rest, d));
      CopyTerminator(c, flow, blocks, out, b, rest[0], rest', d, e);
      CopyAtEnd(c, flow, out, b, [], d, e);
      PastStart(c, flow, blocks, out, b, rest, d, d.env);
      CopyLeaves(c, flow, blocks, out, b, d, e);
    } else {
      CopyPlain(c, flow, blocks, out, b, rest, rest', d, e);
      CopySameTrace(c, flow, out, b, rest, rest', d, e);
      PastStart(c, flow, blocks, out, b, rest, d, Exec(c, rest[0], d).env);
      hide PassInputs, AtCopyPoint, Exec, StartsSound;
    }
  }

  lemma CopySameTrace(c: Ctx, flow: Flow, out: seq<Facts>, b: nat, rest: seq<Instr>, rest': seq<Instr>, d: Data,
        e: Data)
    requires AtCopyPoint(c, flow, out, b, rest, rest', d, e)
    ensures d.trace == e.trace
  {
    var f, g :| WithFacts(c, flow, out, b, rest, rest', d, e, f, g);
  }

  /** Two runs in the same block, all of whose variables, memory and calls agree; where the block
      starts every copy that reaches it holds. Or they have stopped alike. */
  ghost predicate SameState(c: Ctx, flow: Flow, blocks: seq<BasicBlock>, out: seq<Facts>, s: Config, t: Config) {
    if s.Running? then
      && t.Running? && t.blk == s.blk && SameReads(s.data, t.data)
      && StartsSound(c, flow, blocks, out, s.blk, s.rest, s.data.env)
    else s == t
  }

  /** After `n` steps of the original, some number of steps brings the rewritten code to the same state. */
  ghost predicate SameStateAfter(c: Ctx, flow: Flow, blocks: seq<BasicBlock>, out: seq<Facts>, q: Code, d: Data,
        n: nat) {
    exists m: nat :: SameState(c, flow, blocks, out, Run(c, CodeOf(blocks), Start(CodeOf(blocks), d), n),
      Run(c, q, Start(q, d), m))
  }

  lemma CopyPointState(c: Ctx, flow: Flow, blocks: seq<BasicBlock>, out: seq<Facts>, s: Config, t: Config)
    requires Related(c, CodeOf(blocks), CopyPoint(c, flow, blocks, out), s, t)
    ensures SameState(c, flow, blocks, out, s, t)
  {
    if s.Running? {
      var f, g :| WithFacts(c, flow, out, s.blk, s.rest, t.rest, s.data, t.data, f, g);
    }
  }

  /** Rewriting every block through solved facts preserves behaviour: both codes pass through the same
      states, and every reaching copy holds in every run that starts its block. */
  lemma PropagationPreserves(c: Ctx, flow: Flow, blocks: seq<BasicBlock>, out: seq<Facts>, d: Data)
    requires PassInputs(c, flow, blocks, out) && DataSafe(d, c.aliased)
    ensures var q := Propagated(blocks, out, c.aliased, c.types);
      && Equivalent(c, CodeOf(blocks), q, d)
      && (blocks != [] ==> forall n: nat :: SameStateAfter(c, flow, blocks, out, q, d, n))
  {
    var code, next, pt := CodeOf(blocks), Propagated(blocks, out, c.aliased, c.types), CopyPoint(c, flow, blocks, out);
    PropagatedSkeleton(blocks, out, c.aliased, c.types);
    if blocks != [] {
      EmptyShapely();
      assert Entry in blocks[0].predecessors;
      CopyEnters(c, flow, blocks, out, 0, d, d, {});
    }
    forall b, rest, rest', d, e | pt(b, rest, rest', d, e) && Standing(c, code, b, rest, d)
      ensures LocalStep(c, code, next, pt, b, rest, rest', d, e)
    {
      CopyStep(c, flow, blocks, out, b, rest, rest', d, e);
    }
    LocalPassPreserves(c, code, next, pt, d);
    if blocks != [] {
      LocalPassTracks(c, code, next, pt, d);
      hide Run, Start, Related, Setting, SameState, Propagated, PassInputs, AtCopyPoint, Equivalent;
      forall n: nat
        ensures SameStateAfter(c, flow, blocks, out, next, d, n)
      {
        assert LeftTracked(c, code, next, pt, d, n);
        var m: nat :| Related(c, code, pt, Run(c, code, Start(code, d), n), Run(c, next, Start(next, d), m));
        CopyPointState(c, flow, blocks, out, Run(c, code, Start(code, d), n), Run(c, next, Start(next, d), m));
      }
    }
  }
}
