/** Common subexpression elimination keeps every variable's value at every point. */
module Cse {
  import opened Tacky
  import opened Semantics
  import opened Behaviour
  import opened ControlFlow
  import opened CfgRuns
  import opened Effects
  import opened CopyRewrite
  import opened AvailableExprs
  import opened MustAnalysis
  import opened LocalSimulation

  /** `available.get(&key)` */
  function HolderOf(t: Table, k: Key): (h: Option<Name>)
    requires OneHolder(t)
    ensures h.Some? ==> Avail(k, h.value) in t
    ensures h.None? ==> forall a :: a in t ==> a.key != k
  {
    if exists a :: a in t && a.key == k then
      var a :| a in t && a.key == k;
      Some(a.holder)
    else None
  }

  /** The replacement the rewriting loop pushes: a copy from another holder of the same
      key, or the instruction itself. */
  function Replacement(i: Instr, t: Table, aliased: set<Name>, statics: set<Name>, types: Types): Instr
    requires OneHolder(t)
  {
    match ExprKey(i, types, aliased, statics)
    case None => i
    case Some(k) =>
      match HolderOf(t, k)
      case Some(h) => if h == i.dst then i else Copy(Var(h), i.dst)
      case None => i
  }

  /** The rewriting scan of a block; facts follow the rewritten instructions. */
  function CseBlock(instrs: seq<Instr>, t: Table, aliased: set<Name>, statics: set<Name>, types: Types): (r: seq<Instr>)
    requires OneHolder(t)
    ensures |r| == |instrs|
  {
    if instrs == [] then []
    else
      var j := Replacement(instrs[0], t, aliased, statics, types);
      TransferOneHolder(j, t, aliased, statics, types);
      [j] + CseBlock(instrs[1..], TransferAvail(j, t, aliased, statics, types), aliased, statics, types)
  }

  function AvailTransfer(blocks: seq<BasicBlock>, aliased: set<Name>, statics: set<Name>,
        types: Types): TransferOf<Avail> {
    (b: nat, t: Table) => if b < |blocks| then TransferAvails(blocks[b].instructions, t, aliased, statics, types)
      else {}
  }

  ghost predicate AllOneHolder(out: seq<Table>) {
    forall b :: 0 <= b < |out| ==> OneHolder(out[b])
  }

  lemma MeetOneHolder(preds: seq<NodeId>, out: seq<Table>)
    requires AllOneHolder(out)
    ensures OneHolder(Meet(preds, out))
  {
    if Entry !in preds && FirstPred(preds, out).Some? {
      assert Meet(preds, out) <= out[FirstPred(preds, out).value];
    }
  }

  /** The code after the pass, once the tables are solved. */
  function Eliminated(blocks: seq<BasicBlock>, out: seq<Table>, aliased: set<Name>, statics: set<Name>,
        types: Types): (code: Code)
    requires AllOneHolder(out)
    ensures |code| == |blocks|
  {
    seq(|blocks|, b requires 0 <= b < |blocks| =>
      MeetOneHolder(blocks[b].predecessors, out);
      CseBlock(blocks[b].instructions, Meet(blocks[b].predecessors, out), aliased, statics, types))
  }

  lemma UnfoldCse(instrs: seq<Instr>, k: nat, t: Table, aliased: set<Name>, statics: set<Name>, types: Types)
    requires k <= |instrs| && OneHolder(t)
    ensures k == |instrs| ==> CseBlock(instrs[k..], t, aliased, statics, types) == []
    ensures k < |instrs| ==>
      var j := Replacement(instrs[k], t, aliased, statics, types);
      var t' := TransferAvail(j, t, aliased, statics, types);
      OneHolder(t') && CseBlock(instrs[k..], t, aliased, statics, types)
                    == [j] + CseBlock(instrs[k + 1..], t', aliased, statics, types)
  {
    if k < |instrs| {
      assert instrs[k..][0] == instrs[k] && instrs[k..][1..] == instrs[k + 1..];
      TransferOneHolder(Replacement(instrs[k], t, aliased, statics, types), t, aliased, statics, types);
    }
  }

  /** The rewriting loop for one block. */
  method EliminateInBlock(instrs: seq<Instr>, incoming: Table, aliased: set<Name>, statics: set<Name>, types: Types)
    returns (rewritten: seq<Instr>, changed: bool)
    requires OneHolder(incoming)
    ensures rewritten == CseBlock(instrs, incoming, aliased, statics, types)
    ensures changed <==> rewritten != instrs
  {
    hide *;
    rewritten, changed := [], false;
    var available := incoming;
    assert instrs[0..] == instrs;
    for k := 0 to |instrs|
      invariant OneHolder(available) && |rewritten| == k
      invariant rewritten + CseBlock(instrs[k..], available, aliased, statics, types)
        == CseBlock(instrs, incoming, aliased, statics, types)
      invariant changed <==> rewritten != instrs[..k]
    {
      UnfoldCse(instrs, k, available, aliased, statics, types);
      var j := Replacement(instrs[k], available, aliased, statics, types);
      available := TransferAvail(j, available, aliased, statics, types);
      assert instrs[..k + 1] == instrs[..k] + [instrs[k]];
      AppendDiffers(rewritten, instrs[..k], j, instrs[k]);
      rewritten := rewritten + [j];
      if j != instrs[k] {
        changed := true;
      }
    }
    UnfoldCse(instrs, |instrs|, available, aliased, statics, types);
    assert instrs[..|instrs|] == instrs;
  }

  // ----- the skeleton -----

  lemma ReplacementControl(i: Instr, t: Table, aliased: set<Name>, statics: set<Name>, types: Types)
    requires OneHolder(t)
    ensures SameControl(i, Replacement(i, t, aliased, statics, types))
    ensures EndsBlock(i) ==> Replacement(i, t, aliased, statics, types) == i
  {
  }

  lemma {:induction false} CseFrame(instrs: seq<Instr>, t: Table, aliased: set<Name>, statics: set<Name>, types: Types)
    requires OneHolder(t) && Shaped(instrs)
    ensures SameFrame(instrs, CseBlock(instrs, t, aliased, statics, types))
  {
    if instrs != [] {
      var i, rest := instrs[0], instrs[1..];
      assert instrs == [i] + rest;
      ShapedTail(instrs);
      ReplacementControl(i, t, aliased, statics, types);
      var j := Replacement(i, t, aliased, statics, types);
      TransferOneHolder(j, t, aliased, statics, types);
      hide SameFrame, Shaped, SameControl, TransferAvail, Replacement, OneHolder;
      CseFrame(rest, TransferAvail(j, t, aliased, statics, types), aliased, statics, types);
      FrameCons(i, rest, j, CseBlock(rest, TransferAvail(j, t, aliased, statics, types), aliased, statics, types));
    }
  }

  lemma EliminatedBlock(blocks: seq<BasicBlock>, out: seq<Table>, aliased: set<Name>, statics: set<Name>,
        types: Types, b: nat)
    requires AllOneHolder(out) && b < |blocks|
    ensures OneHolder(Meet(blocks[b].predecessors, out))
    ensures Eliminated(blocks, out, aliased, statics, types)[b]
         == CseBlock(blocks[b].instructions, Meet(blocks[b].predecessors, out), aliased, statics, types)
  {
    MeetOneHolder(blocks[b].predecessors, out);
  }

  lemma EliminatedSkeleton(blocks: seq<BasicBlock>, out: seq<Table>, aliased: set<Name>, statics: set<Name>,
        types: Types)
    requires WellFormed(blocks) && AllOneHolder(out)
    ensures SameSkeleton(CodeOf(blocks), Eliminated(blocks, out, aliased, statics, types))
  {
    var code, next := CodeOf(blocks), Eliminated(blocks, out, aliased, statics, types);
    assert Partitioned(code);
    hide WellFormed, Eliminated, SameFrame, OneHolder, AllOneHolder;
    forall b | 0 <= b < |blocks|
      ensures SameFrame(code[b], next[b])
    {
      EliminatedBlock(blocks, out, aliased, statics, types, b);
      CseFrame(blocks[b].instructions, Meet(blocks[b].predecessors, out), aliased, statics, types);
    }
    FramesMakeSkeleton(code, next);
  }

  // ----- the simulation -----

  ghost predicate PassInputs(c: Ctx, blocks: seq<BasicBlock>, out: seq<Table>) {
    && WellFormed(blocks) && Confined(c) && CodeConfined(CodeOf(blocks), c.aliased) && CseLawful(c.machine)
    && Solved(blocks, AvailTransfer(blocks, c.aliased, c.statics, c.types), out) && AllOneHolder(out)
  }

  /** Inside a block: `t` is the table of the analysis, `u` that of the rewriting scan; both
      hold, and both sides are in the same state. */
  ghost predicate WithTables(c: Ctx, out: seq<Table>, b: nat, rest: seq<Instr>, rest': seq<Instr>, d: Data, t: Table,
        u: Table) {
    && b < |out|
    && TableSound(c, t, d) && TransferAvails(rest, t, c.aliased, c.statics, c.types) == out[b]
    && TableSound(c, u, d) && rest' == CseBlock(rest, u, c.aliased, c.statics, c.types)
  }

  ghost predicate AtCsePoint(c: Ctx, out: seq<Table>, b: nat, rest: seq<Instr>, rest': seq<Instr>, d: Data, e: Data) {
    d == e && exists t, u :: WithTables(c, out, b, rest, rest', d, t, u)
  }

  /** Where a block starts, what the solution says about it holds: every holder has its key's value. */
  ghost predicate StartsSound(c: Ctx, blocks: seq<BasicBlock>, out: seq<Table>, b: nat, rest: seq<Instr>, d: Data) {
    b < |blocks| && rest == blocks[b].instructions ==> TableSound(c, Meet(blocks[b].predecessors, out), d)
  }

  ghost function CsePoint(c: Ctx, blocks: seq<BasicBlock>, out: seq<Table>): Point {
    (b: nat, rest, rest', d, e) => AtCsePoint(c, out, b, rest, rest', d, e) && StartsSound(c, blocks, out, b, rest, d)
  }

  lemma TableSubset(c: Ctx, t: Table, u: Table, d: Data)
    requires TableSound(c, u, d) && t <= u
    ensures TableSound(c, t, d)
  {
  }

  lemma CopyOfResult(c: Ctx, i: Instr, h: Name, d: Data)
    requires IsCandidate(i) && CseLawful(c.machine)
    requires TypeOf(c.types, h) == TypeOf(c.types, i.dst) && Read(d.env, h) == Result(c, i, d)
    ensures Exec(c, Copy(Var(h), i.dst), d) == Exec(c, i, d)
  {
    assert MoveExact(c.machine, TypeOf(c.types, i.dst), Read(d.env, h));
    hide CseLawful, Result, IsCommutative;
    CopyExec(c, h, i.dst, d);
  }

  lemma CopyExec(c: Ctx, h: Name, x: Name, d: Data)
    ensures Exec(c, Copy(Var(h), x), d)
         == d.(env := d.env[x := c.machine.copy(ClassOf(TypeOf(c.types, h)), TypeOf(c.types, x), Read(d.env, h))])
  {
  }

  /** A replaced instruction leaves the very same state. */
  lemma ReplacementSame(c: Ctx, i: Instr, t: Table, d: Data)
    requires TableSound(c, t, d) && CseLawful(c.machine)
    ensures Exec(c, Replacement(i, t, c.aliased, c.statics, c.types), d) == Exec(c, i, d)
  {
    var j := Replacement(i, t, c.aliased, c.statics, c.types);
    if j != i {
      var k := ExprKey(i, c.types, c.aliased, c.statics).value;
      var h := HolderOf(t, k).value;
      assert Avail(k, h) in t;
      assert EntryPrivate(c.types, c.aliased, c.statics, Avail(k, h));
      hide Exec, CseLawful, Result, RawKey, KeyValue;
      KeyIsResult(c, i, d);
      KeyType(i, c.types);
      CopyOfResult(c, i, h, d);
    }
  }

  lemma KeyType(i: Instr, types: Types)
    requires IsCandidate(i)
    ensures RawKey(i, types).dstType == TypeOf(types, i.dst)
  {
  }

  lemma EntersWithTables(c: Ctx, blocks: seq<BasicBlock>, out: seq<Table>, b: nat, d: Data)
    requires PassInputs(c, blocks, out) && b < |blocks| && TableSound(c, Meet(blocks[b].predecessors, out), d)
    ensures var incoming := Meet(blocks[b].predecessors, out);
      WithTables(c, out, b, blocks[b].instructions, Eliminated(blocks, out, c.aliased, c.statics, c.types)[b], d,
        incoming, incoming)
  {
    hide WellFormed, Confined, CodeConfined, CseLawful, TableSound, Meet, TransferAvails, CseBlock;
    EliminatedBlock(blocks, out, c.aliased, c.statics, c.types, b);
    assert out[b] == Outgoing(blocks, AvailTransfer(blocks, c.aliased, c.statics, c.types), out, b);
  }

  lemma CseEnters(c: Ctx, blocks: seq<BasicBlock>, out: seq<Table>, b: nat, d: Data, t: Table)
    requires PassInputs(c, blocks, out) && b < |blocks|
    requires TableSound(c, t, d) && Meet(blocks[b].predecessors, out) <= t
    ensures CsePoint(c, blocks, out)(b, blocks[b].instructions,
      Eliminated(blocks, out, c.aliased, c.statics, c.types)[b], d, d)
  {
    hide WithTables, Meet, TableSound, Eliminated, WellFormed, Confined, CodeConfined, CseLawful, Solved;
    TableSubset(c, Meet(blocks[b].predecessors, out), t, d);
    EntersWithTables(c, blocks, out, b, d);
  }

  lemma CseLeaves(c: Ctx, blocks: seq<BasicBlock>, out: seq<Table>, b: nat, d: Data)
    requires PassInputs(c, blocks, out) && b < |blocks| && TableSound(c, out[b], d)
    ensures Leaves(c, CodeOf(blocks), Eliminated(blocks, out, c.aliased, c.statics, c.types),
      CsePoint(c, blocks, out), b, d, d)
  {
    var code, next, pt := CodeOf(blocks), Eliminated(blocks, out, c.aliased, c.statics, c.types),
      CsePoint(c, blocks, out);
    forall t: nat | t < |code| && Block(t) in SuccessorsOf(code, b)
      ensures pt(t, code[t], next[t], d, d)
    {
      assert Block(b) in blocks[t].predecessors by {
        assert Block(b) in blocks[t].predecessors <==> Block(t) in blocks[b].successors;
      }
      MeetBelowPredecessor(blocks[t].predecessors, out, b);
      CseEnters(c, blocks, out, t, d, out[b]);
    }
  }

  lemma CsePlain(c: Ctx, out: seq<Table>, b: nat, rest: seq<Instr>, rest': seq<Instr>, d: Data)
    requires CseLawful(c.machine) && AtCsePoint(c, out, b, rest, rest', d, d)
    requires DataSafe(d, c.aliased) && rest != [] && !EndsBlock(rest[0])
    ensures rest' != [] && !EndsBlock(rest'[0])
    ensures AtCsePoint(c, out, b, rest[1..], rest'[1..], Exec(c, rest[0], d), Exec(c, rest'[0], d))
  {
    var t, u :| WithTables(c, out, b, rest, rest', d, t, u);
    var i := rest[0];
    var j := Replacement(i, u, c.aliased, c.statics, c.types);
    ReplacementControl(i, u, c.aliased, c.statics, c.types);
    ReplacementSame(c, i, u, d);
    TransferAvailSound(c, i, t, d);
    TransferAvailSound(c, j, u, d);
    assert rest'[0] == j;
    assert WithTables(c, out, b, rest[1..], rest'[1..], Exec(c, i, d),
                      TransferAvail(i, t, c.aliased, c.statics, c.types),
                        TransferAvail(j, u, c.aliased, c.statics, c.types));
  }

  lemma CseAtEnd(c: Ctx, out: seq<Table>, b: nat, rest': seq<Instr>, d: Data)
    ensures AtCsePoint(c, out, b, [], rest', d, d) ==> rest' == [] && b < |out| && TableSound(c, out[b], d)
    ensures b < |out| && TableSound(c, out[b], d) ==> AtCsePoint(c, out, b, [], [], d, d)
  {
    if b < |out| && TableSound(c, out[b], d) {
      assert WithTables(c, out, b, [], [], d, out[b], out[b]);
    }
  }

  lemma CseTerminator(c: Ctx, out: seq<Table>, b: nat, i: Instr, rest': seq<Instr>, d: Data)
    requires AtCsePoint(c, out, b, [i], rest', d, d) && EndsBlock(i)
    ensures rest' == [i] && b < |out| && TableSound(c, out[b], d)
  {
    var t, u :| WithTables(c, out, b, [i], rest', d, t, u);
    assert [i][1..] == [];
    ReplacementControl(i, u, c.aliased, c.statics, c.types);
    assert TransferAvails([i], t, c.aliased, c.statics, c.types) == t;
  }

  /** Past its first instruction, a run is not at the start of its block. */
  lemma PastStart(c: Ctx, blocks: seq<BasicBlock>, out: seq<Table>, b: nat, rest: seq<Instr>, d: Data, e: Data)
    requires Standing(c, CodeOf(blocks), b, rest, d) && rest != []
    ensures StartsSound(c, blocks, out, b, rest[1..], e) && StartsSound(c, blocks, out, b, [], e)
  {
    assert CodeOf(blocks)[b] == blocks[b].instructions;
  }

  lemma CseStep(c: Ctx, blocks: seq<BasicBlock>, out: seq<Table>, b: nat, rest: seq<Instr>, rest': seq<Instr>,
        d: Data, e: Data)
    requires PassInputs(c, blocks, out) && AtCsePoint(c, out, b, rest, rest', d, e)
    requires Standing(c, CodeOf(blocks), b, rest, d)
    ensures LockStep(c, CodeOf(blocks), Eliminated(blocks, out, c.aliased, c.statics, c.types),
      CsePoint(c, blocks, out), b, rest, rest', d, e)
  {
    if rest == [] {
      CseAtEnd(c, out, b, rest', d);
      CseLeaves(c, blocks, out, b, d);
    } else if EndsBlock(rest[0]) {
      TerminatorEnding(CodeOf(blocks), Running(b, rest, d));
      CseTerminator(c, out, b, rest[0], rest', d);
      CseAtEnd(c, out, b, [], d);
      PastStart(c, blocks, out, b, rest, d, d);
      CseLeaves(c, blocks, out, b, d);
    } else {
      CsePlain(c, out, b, rest, rest', d);
      PastStart(c, blocks, out, b, rest, d, Exec(c, rest[0], d));
      hide PassInputs, Exec, StartsSound;
    }
  }

  /** Both runs stand at the same place with the same data, where a block starts also with the solved
      table of the block sound, or have stopped alike. */
  ghost predicate SameState(c: Ctx, blocks: seq<BasicBlock>, out: seq<Table>, s: Config, t: Config) {
    if s.Running? then
      && t.Running? && t.blk == s.blk && |t.rest| == |s.rest| && t.data == s.data
      && StartsSound(c, blocks, out, s.blk, s.rest, s.data)
    else s == t
  }

  lemma CsePointState(c: Ctx, blocks: seq<BasicBlock>, out: seq<Table>, s: Config, t: Config)
    requires Related(c, CodeOf(blocks), CsePoint(c, blocks, out), s, t)
    ensures SameState(c, blocks, out, s, t)
  {
    if s.Running? {
      var tt, u :| WithTables(c, out, s.blk, s.rest, t.rest, s.data, tt, u);
    }
  }

  /** Replacing recomputations by copies from their holders preserves behaviour; after any number of
      steps both codes are in the very same state, and wherever a block starts every available pair of
      the solution has its holder equal to the value of its key. */
  lemma EliminationPreserves(c: Ctx, blocks: seq<BasicBlock>, out: seq<Table>, d: Data)
    requires PassInputs(c, blocks, out) && DataSafe(d, c.aliased)
    ensures var p, q := CodeOf(blocks), Eliminated(blocks, out, c.aliased, c.statics, c.types);
      && Equivalent(c, p, q, d)
      && (blocks != [] ==> forall n: nat ::
         SameState(c, blocks, out, Run(c, p, Start(p, d), n), Run(c, q, Start(q, d), n)))
  {
    var code, next, pt := CodeOf(blocks), Eliminated(blocks, out, c.aliased, c.statics, c.types),
      CsePoint(c, blocks, out);
    EliminatedSkeleton(blocks, out, c.aliased, c.statics, c.types);
    if blocks != [] {
      assert Entry in blocks[0].predecessors;
      assert TableSound(c, {}, d);
      CseEnters(c, blocks, out, 0, d, {});
    }
    forall b, rest, rest', d, e | pt(b, rest, rest', d, e) && Standing(c, code, b, rest, d)
      ensures LockStep(c, code, next, pt, b, rest, rest', d, e)
    {
      CseStep(c, blocks, out, b, rest, rest', d, e);
    }
    LockedIsClosed(c, code, next, pt);
    LocalPassPreserves(c, code, next, pt, d);
    if blocks != [] {
      StartRelated(c, code, next, pt, d);
      hide Run, Start, Related, Locked, Setting, SameState, Eliminated, PassInputs, AtCsePoint, Equivalent;
      forall n: nat
        ensures SameState(c, blocks, out, Run(c, code, Start(code, d), n), Run(c, next, Start(next, d), n))
      {
        RunLocked(c, code, next, pt, Start(code, d), Start(next, d), n);
        CsePointState(c, blocks, out, Run(c, code, Start(code, d), n), Run(c, next, Start(next, d), n));
      }
    }
  }
}
