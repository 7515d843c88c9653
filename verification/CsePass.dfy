/** The pass that eliminates common subexpressions, on graphs and on function bodies. */
module CsePass {
  import opened Tacky
  import opened Semantics
  import opened Behaviour
  import opened ControlFlow
  import opened CfgRuns
  import opened Effects
  import opened Preservation
  import opened AvailableExprs
  import opened MustAnalysis
  import opened SameExprs
  import opened Cse
  import opened CseFinds

  // ----- the pass -----

  /** A function the pass may run on. */
  ghost predicate CseSuitable(c: Ctx, code: Code, aliased: set<Name>, statics: set<Name>, types: Types) {
    Suitable(c, code, aliased, statics) && c.types == types && CseLawful(c.machine)
  }

  ghost predicate CsePreserved(p: Code, q: Code, aliased: set<Name>, statics: set<Name>, types: Types) {
    forall c: Ctx, d: Data ::
      CseSuitable(c, p, aliased, statics, types) && DataSafe(d, aliased) ==> Equivalent(c, p, q, d)
  }

  /** Every entry the tables can hold. */
  ghost function Entries(blocks: seq<BasicBlock>, aliased: set<Name>, statics: set<Name>, types: Types): Table {
    var code := CodeOf(blocks);
    set b, k | 0 <= b < |code| && 0 <= k < |code[b]| && ExprKey(code[b][k], types, aliased, statics).Some? ::
      Avail(ExprKey(code[b][k], types, aliased, statics).value, code[b][k].dst)
  }

  lemma AvailMonotone(blocks: seq<BasicBlock>, aliased: set<Name>, statics: set<Name>, types: Types)
    ensures MonotoneOn(AvailTransfer(blocks, aliased, statics, types), |blocks|,
      Entries(blocks, aliased, statics, types))
    ensures KeepsGood(AvailTransfer(blocks, aliased, statics, types), |blocks|, t => OneHolder(t))
  {
    var u, transfer := Entries(blocks, aliased, statics, types), AvailTransfer(blocks, aliased, statics, types);
    forall b, x, y {:trigger transfer(b, x), transfer(b, y)} | 0 <= b < |blocks| && x <= y <= u
      ensures transfer(b, x) <= transfer(b, y) <= u
    {
      forall k | 0 <= k < |blocks[b].instructions|
        ensures InsertsWithin(blocks[b].instructions[k], u, aliased, statics, types)
      {
        assert CodeOf(blocks)[b][k] == blocks[b].instructions[k];
      }
      TransfersMonotone(blocks[b].instructions, x, y, u, aliased, statics, types);
    }
    forall b, x {:trigger transfer(b, x)} | 0 <= b < |blocks| && OneHolder(x)
      ensures OneHolder(transfer(b, x))
    {
      TransfersOneHolder(blocks[b].instructions, x, aliased, statics, types);
    }
  }

  lemma EliminationIsPreserved(blocks: seq<BasicBlock>, out: seq<Table>, aliased: set<Name>, statics: set<Name>,
        types: Types)
    requires WellFormed(blocks) && Solved(blocks, AvailTransfer(blocks, aliased, statics, types), out)
      && AllOneHolder(out)
    ensures CsePreserved(CodeOf(blocks), Eliminated(blocks, out, aliased, statics, types), aliased, statics, types)
  {
    forall c: Ctx, d: Data | CseSuitable(c, CodeOf(blocks), aliased, statics, types) && DataSafe(d, aliased)
      ensures Equivalent(c, CodeOf(blocks), Eliminated(blocks, out, aliased, statics, types), d)
    {
      EliminationPreserves(c, blocks, out, d);
    }
  }

  /** The rewriting phase. */
  method RewriteBlocks(cfg: Cfg, out: seq<Table>, aliased: set<Name>, statics: set<Name>, types: Types)
    returns (changed: bool)
    requires AllOneHolder(out)
    modifies cfg
    ensures cfg.blocks == WithCode(old(cfg.blocks), Eliminated(old(cfg.blocks), out, aliased, statics, types))
    ensures changed <==> cfg.blocks != old(cfg.blocks)
  {
    ghost var was := cfg.blocks;
    ghost var next := Eliminated(was, out, aliased, statics, types);
    changed := false;
    for b := 0 to |cfg.blocks|
      invariant |cfg.blocks| == |was|
      invariant forall k ::
        0 <= k < |was| ==> cfg.blocks[k] == if k < b then was[k].(instructions := next[k]) else was[k]
      invariant changed <==> exists k :: 0 <= k < b && next[k] != was[k].instructions
    {
      EliminatedBlock(was, out, aliased, statics, types, b);
      var available := MeetFacts(cfg.blocks[b], out);
      var rewritten, here := EliminateInBlock(cfg.blocks[b].instructions, available, aliased, statics, types);
      if here {
        changed := true;
      }
      cfg.blocks := cfg.blocks[b := cfg.blocks[b].(instructions := rewritten)];
    }
    assert cfg.blocks == WithCode(was, next);
    if changed {
      ghost var k :| 0 <= k < |was| && next[k] != was[k].instructions;
      assert cfg.blocks[k] != was[k];
    } else {
      assert cfg.blocks == was;
    }
  }

  /** `common_subexpression_elimination`: the worklist always ends, the rewrite preserves behaviour, and it
      replaces exactly the computations whose value another variable has. */
  method CommonSubexpressionElimination(cfg: Cfg, types: Types, aliased: set<Name>, statics: set<Name>)
    returns (changed: bool, ghost out: seq<Table>)
    requires WellFormed(cfg.blocks)
    modifies cfg
    ensures WellFormed(cfg.blocks)
    ensures Solved(old(cfg.blocks), AvailTransfer(old(cfg.blocks), aliased, statics, types), out) && AllOneHolder(out)
    ensures RoundsEndIn(old(cfg.blocks), AvailTransfer(old(cfg.blocks), aliased, statics, types), out)
    ensures FindsRepeats(old(cfg.blocks), CodeOf(cfg.blocks), Scope(types, aliased, statics))
    ensures cfg.blocks == WithCode(old(cfg.blocks), Eliminated(old(cfg.blocks), out, aliased, statics, types))
    ensures changed <==> cfg.blocks != old(cfg.blocks)
    ensures CsePreserved(CodeOf(old(cfg.blocks)), CodeOf(cfg.blocks), aliased, statics, types)
  {
    ghost var was := cfg.blocks;
    AvailMonotone(was, aliased, statics, types);
    var tables := Solve(cfg.blocks, AvailTransfer(cfg.blocks, aliased, statics, types),
                        Entries(was, aliased, statics, types), t => OneHolder(t));
    out := tables;
    changed := RewriteBlocks(cfg, tables, aliased, statics, types);
    EliminatedSkeleton(was, out, aliased, statics, types);
    SkeletonWellFormed(was, Eliminated(was, out, aliased, statics, types));
    EliminationIsPreserved(was, out, aliased, statics, types);
    EliminationFinds(was, out, Scope(types, aliased, statics));
    assert CodeOf(cfg.blocks) == Eliminated(was, out, aliased, statics, types);
  }

  lemma FlatCsePreserved(p: Code, q: Code, aliased: set<Name>, statics: set<Name>, types: Types)
    requires Partitioned(p) && UniqueBlockLabels(p) && Partitioned(q) && UniqueBlockLabels(q)
    requires CsePreserved(p, q, aliased, statics, types)
    ensures CsePreserved([Flatten(p)], [Flatten(q)], aliased, statics, types)
  {
    FlatConfined(p, aliased);
    hide Flatten, Partitioned, UniqueBlockLabels, CodeConfined, Confined, CseLawful, Equivalent, DataSafe;
    forall c: Ctx, d: Data | CseSuitable(c, [Flatten(p)], aliased, statics, types) && DataSafe(d, aliased)
      ensures Equivalent(c, [Flatten(p)], [Flatten(q)], d)
    {
      assert CseSuitable(c, p, aliased, statics, types);
      FlatteningPreserves(c, p, d);
      EquivalentSymmetric(c, p, [Flatten(p)], d);
      FlatteningPreserves(c, q, d);
      EquivalentTransitive(c, [Flatten(p)], p, q, d);
      EquivalentTransitive(c, [Flatten(p)], q, [Flatten(q)], d);
    }
  }

  /** A body is cut into the blocks of a graph, and rewritten exactly where a computation's value is held. */
  ghost predicate FindsRepeatsIn(body: seq<Instr>, result: seq<Instr>, s: Scope) {
    exists blocks, next ::
      WellFormed(blocks) && body == Flatten(CodeOf(blocks)) && result == Flatten(next) && FindsRepeats(blocks, next, s)
  }

  /** The pass on the body of a function. */
  method RunCommonSubexpressionElimination(body: seq<Instr>, types: Types, aliased: set<Name>, statics: set<Name>)
    returns (result: seq<Instr>)
    requires UniqueLabels(body)
    ensures CsePreserved([body], [result], aliased, statics, types)
    ensures FindsRepeatsIn(body, result, Scope(types, aliased, statics))
  {
    var cfg := new Cfg.Build(body);
    ghost var was, blocks := CodeOf(cfg.blocks), cfg.blocks;
    var changed, _ := CommonSubexpressionElimination(cfg, types, aliased, statics);
    result := cfg.IntoInstructions();
    assert FindsRepeats(blocks, CodeOf(cfg.blocks), Scope(types, aliased, statics));
    FlatCsePreserved(was, CodeOf(cfg.blocks), aliased, statics, types);
  }
}
