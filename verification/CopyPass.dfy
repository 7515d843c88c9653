/** Copy propagation as a pass over graphs and over function bodies. */
module CopyPass {
  import opened Tacky
  import opened Semantics
  import opened Behaviour
  import opened ControlFlow
  import opened CfgRuns
  import opened Effects
  import opened Preservation
  import opened CopyFacts
  import opened CopyRewrite
  import opened CopyPropagation
  import opened CopyAnswers
  import opened CopyTermination
  import opened MustAnalysis

  /** A function copy propagation may run on: see `PassInputs`. */
  ghost predicate CopySuitable(c: Ctx, flow: Flow, code: Code, aliased: set<Name>, types: Types) {
    && Confined(c) && CodeConfined(code, aliased) && c.aliased == aliased && c.types == types
    && Lawful(c.machine) && FlowCanonical(c.machine, types, flow) && CodeTyped(types, flow, code)
  }

  ghost predicate CopiesPreserved(p: Code, q: Code, aliased: set<Name>, types: Types) {
    forall c: Ctx, flow: Flow, d: Data ::
      CopySuitable(c, flow, p, aliased, types) && DataSafe(d, aliased) ==> Equivalent(c, p, q, d)
  }

  lemma CopyKeepsShapely(blocks: seq<BasicBlock>, aliased: set<Name>, types: Types)
    ensures KeepsGood(CopyTransfer(blocks, aliased, types), |blocks|, f => Shapely(f))
  {
    EmptyShapely();
    var transfer := CopyTransfer(blocks, aliased, types);
    forall f: Facts, g: Facts | Shapely(f) && g <= f
      ensures Shapely(g)
    {
      SubsetShaped(g, f);
    }
    forall b, f {:trigger transfer(b, f)} | 0 <= b < |blocks| && Shapely(f)
      ensures Shapely(transfer(b, f))
    {
      TransfersShaped(blocks[b].instructions, f, aliased, types);
    }
  }

  lemma PropagationIsPreserved(blocks: seq<BasicBlock>, out: seq<Facts>, aliased: set<Name>, types: Types)
    requires WellFormed(blocks) && Solved(blocks, CopyTransfer(blocks, aliased, types), out) && AllShapely(out)
    ensures CopiesPreserved(CodeOf(blocks), Propagated(blocks, out, aliased, types), aliased, types)
  {
    forall c: Ctx, flow: Flow, d: Data | CopySuitable(c, flow, CodeOf(blocks), aliased, types) && DataSafe(d, aliased)
      ensures Equivalent(c, CodeOf(blocks), Propagated(blocks, out, aliased, types), d)
    {
      PropagationPreserves(c, flow, blocks, out, d);
    }
  }

  /** The rewriting phase of `copy_propagation`. */
  method RewriteBlocks(cfg: Cfg, out: seq<Facts>, aliased: set<Name>, types: Types)
    requires AllShapely(out)
    modifies cfg
    ensures cfg.blocks == WithCode(old(cfg.blocks), Propagated(old(cfg.blocks), out, aliased, types))
  {
    ghost var was := cfg.blocks;
    ghost var next := Propagated(was, out, aliased, types);
    for b := 0 to |cfg.blocks|
      invariant |cfg.blocks| == |was|
      invariant forall k ::
        0 <= k < |was| ==> cfg.blocks[k] == if k < b then was[k].(instructions := next[k]) else was[k]
    {
      MeetShapely(cfg.blocks[b].predecessors, out);
      var reaching := MeetFacts(cfg.blocks[b], out);
      var rewritten := RewriteInstructions(cfg.blocks[b].instructions, reaching, aliased, types);
      PropagatedBlock(was, out, aliased, types, b);
      cfg.blocks := cfg.blocks[b := cfg.blocks[b].(instructions := rewritten)];
    }
    assert cfg.blocks == WithCode(was, next);
  }

  /** `copy_propagation`, with its worklist stopped after `rounds` rounds because it need not
      stop by itself. When it does stop, the rewrite preserves behaviour and leaves no use of a copy
      in its block; and it does stop when no copy of the function reverses another. */
  method CopyPropagate(cfg: Cfg, aliased: set<Name>, types: Types, rounds: nat)
    returns (done: bool, ghost out: seq<Facts>)
    requires WellFormed(cfg.blocks)
    modifies cfg
    ensures WellFormed(cfg.blocks)
    ensures done <==> AfterRounds(old(cfg.blocks), CopyTransfer(old(cfg.blocks), aliased, types), rounds).worklist == []
    ensures !done ==> cfg.blocks == old(cfg.blocks)
    ensures done ==> forall b :: 0 <= b < |cfg.blocks| ==> CopiesUsed(cfg.blocks[b].instructions, aliased, types)
    ensures done ==>
      && Solved(old(cfg.blocks), CopyTransfer(old(cfg.blocks), aliased, types), out) && AllShapely(out)
      && cfg.blocks == WithCode(old(cfg.blocks), Propagated(old(cfg.blocks), out, aliased, types))
      && CopiesPreserved(CodeOf(old(cfg.blocks)), CodeOf(cfg.blocks), aliased, types)
    ensures var copies := CopiesIn(CodeOf(old(cfg.blocks)));
      NoReversals(copies) && rounds >= EnoughRounds(|old(cfg.blocks)|, |copies|) ==> done
  {
    ghost var was := cfg.blocks;
    ghost var copies := CopiesIn(CodeOf(was));
    CopyKeepsShapely(was, aliased, types);
    if NoReversals(copies) {
      MonotoneWithoutReversals(was, aliased, types);
    }
    var facts;
    done, facts := SolveWithin(cfg.blocks, CopyTransfer(cfg.blocks, aliased, types), rounds, copies, f => Shapely(f));
    out := facts;
    if done {
      RewriteBlocks(cfg, facts, aliased, types);
      PropagatedSkeleton(was, out, aliased, types);
      SkeletonWellFormed(was, Propagated(was, out, aliased, types));
      PropagationIsPreserved(was, out, aliased, types);
      forall b | 0 <= b < |cfg.blocks|
        ensures CopiesUsed(cfg.blocks[b].instructions, aliased, types)
      {
        PropagatedBlock(was, out, aliased, types, b);
        RewrittenUses(was[b].instructions, Meet(was[b].predecessors, out), aliased, types);
      }
    }
  }

  lemma {:induction false} FlatTyped(types: Types, flow: Flow, code: Code)
    ensures CodeTyped(types, flow, [Flatten(code)]) <==> CodeTyped(types, flow, code)
  {
    if code == [] {
      assert [Flatten(code)][0] == [];
    } else {
      var rest := code[1..];
      FlatTyped(types, flow, rest);
      var flat, tail := Flatten(code), Flatten(rest);
      assert flat == code[0] + tail;
      if CodeTyped(types, flow, [flat]) {
        assert InstrsTyped(types, flow, [flat][0]);
        forall k | 0 <= k < |code[0]|
          ensures CopyTyped(types, flow, code[0][k])
        {
          assert flat[k] == code[0][k];
        }
        forall k | 0 <= k < |tail|
          ensures CopyTyped(types, flow, tail[k])
        {
          assert flat[|code[0]| + k] == tail[k];
        }
        assert CodeTyped(types, flow, rest);
        forall b | 0 <= b < |code|
          ensures InstrsTyped(types, flow, code[b])
        {
          if b > 0 {
            assert code[b] == rest[b - 1];
          }
        }
      }
      if CodeTyped(types, flow, code) {
        forall b | 0 <= b < |rest|
          ensures InstrsTyped(types, flow, rest[b])
        {
          assert rest[b] == code[b + 1];
        }
        assert InstrsTyped(types, flow, [tail][0]);
        assert InstrsTyped(types, flow, code[0]);
      }
    }
  }

  lemma {:induction false} NoMoreBlocks(code: Code)
    requires forall b :: 0 <= b < |code| ==> code[b] != []
    ensures |code| <= |Flatten(code)|
  {
    if code != [] {
      NoMoreBlocks(code[1..]);
    }
  }

  /** A body has the copies of the blocks it is cut into, which are not more than its instructions. */
  lemma BodyCopies(code: Code)
    requires forall b :: 0 <= b < |code| ==> code[b] != []
    ensures CopiesIn([Flatten(code)]) == CopiesIn(code) && |code| <= |Flatten(code)|
  {
    NoMoreBlocks(code);
    FlattenMembers(code);
    var flat := Flatten(code);
    forall f
      ensures f in CopiesIn([flat]) <==> f in CopiesIn(code)
    {
      if f in CopiesIn([flat]) {
        var k :| 0 <= k < |flat| && flat[k].Copy? && f == CopyInstr(flat[k].src, flat[k].dst);
        assert flat[k] in flat;
        var b :| 0 <= b < |code| && flat[k] in code[b];
        var j :| 0 <= j < |code[b]| && code[b][j] == flat[k];
      }
      if f in CopiesIn(code) {
        var b, j :| 0 <= b < |code| && 0 <= j < |code[b]| && code[b][j].Copy?
          && f == CopyInstr(code[b][j].src, code[b][j].dst);
        assert code[b][j] in code[b];
        assert code[b][j] in flat;
        var k :| 0 <= k < |flat| && flat[k] == code[b][j];
        assert [flat][0] == flat;
      }
    }
  }

  lemma MoreRounds(n: nat, m: nat, u: nat)
    requires n <= m
    ensures EnoughRounds(n, u) <= EnoughRounds(m, u)
  {
    assert n * u <= m * u;
    assert (n * u) * n <= (m * u) * n <= (m * u) * m;
  }

  /** `run_copy_propagation` on a function body. */
  method RunCopyPropagation(body: seq<Instr>, aliased: set<Name>, types: Types, rounds: nat)
    returns (result: seq<Instr>, done: bool)
    requires UniqueLabels(body)
    ensures !done ==> result == body
    ensures done ==> CopiesPreserved([body], [result], aliased, types)
    ensures var copies := CopiesIn([body]);
      NoReversals(copies) && rounds >= EnoughRounds(|body|, |copies|) ==> done
  {
    var cfg := new Cfg.Build(body);
    ghost var first := CodeOf(cfg.blocks);
    BodyCopies(first);
    MoreRounds(|first|, |body|, |CopiesIn(first)|);
    ghost var out;
    done, out := CopyPropagate(cfg, aliased, types, rounds);
    result := cfg.IntoInstructions();
    ghost var last := CodeOf(cfg.blocks);
    if done {
      ThroughTheGraph(first, last, aliased, types);
    }
  }

  lemma ThroughTheGraph(first: Code, last: Code, aliased: set<Name>, types: Types)
    requires Partitioned(first) && UniqueBlockLabels(first) && Partitioned(last) && UniqueBlockLabels(last)
    requires CopiesPreserved(first, last, aliased, types)
    ensures CopiesPreserved([Flatten(first)], [Flatten(last)], aliased, types)
  {
    forall c: Ctx, flow: Flow, d: Data |
      CopySuitable(c, flow, [Flatten(first)], aliased, types) && DataSafe(d, aliased)
      ensures Equivalent(c, [Flatten(first)], [Flatten(last)], d)
    {
      FlatConfined(first, aliased);
      FlatTyped(types, flow, first);
      assert CopySuitable(c, flow, first, aliased, types);
      FlatteningPreserves(c, first, d);
      FlatteningPreserves(c, last, d);
      EquivalentTransitive(c, [Flatten(first)], first, last, d);
      EquivalentTransitive(c, [Flatten(first)], last, [Flatten(last)], d);
    }
  }

  /** Any well-formed graph of the same code has the same equations. */
  lemma SameEquations(p: seq<BasicBlock>, q: seq<BasicBlock>, transfer: TransferOf<CopyInstr>, out: seq<Facts>)
    requires WellFormed(p) && WellFormed(q) && CodeOf(p) == CodeOf(q) && Solved(p, transfer, out)
    ensures Solved(q, transfer, out)
  {
    forall b | 0 <= b < |q|
      ensures out[b] == Outgoing(q, transfer, out, b)
    {
      SamePredecessors(p, q, b);
      SameMeet(p[b].predecessors, q[b].predecessors, out);
      assert out[b] == Outgoing(p, transfer, out, b);
    }
  }

  lemma SamePredecessors(p: seq<BasicBlock>, q: seq<BasicBlock>, b: nat)
    requires WellFormed(p) && WellFormed(q) && CodeOf(p) == CodeOf(q) && b < |p|
    ensures |q| == |p| && forall node :: node in p[b].predecessors <==> node in q[b].predecessors
  {
    assert |CodeOf(p)| == |p| && |CodeOf(q)| == |q|;
    forall node
      ensures node in p[b].predecessors <==> node in q[b].predecessors
    {
      match node
      case Block(a) =>
        if a < |p| {
          assert p[a].successors == q[a].successors;
        }
      case Entry =>
      case Exit =>
    }
  }

  lemma SameTransfer(p: seq<BasicBlock>, q: seq<BasicBlock>, b: nat, f: Facts)
    requires CodeOf(p) == CodeOf(q)
    ensures CopyTransfer(p, {}, map[])(b, f) == CopyTransfer(q, {}, map[])(b, f)
  {
    assert |CodeOf(p)| == |p| && |CodeOf(q)| == |q|;
    if b < |p| {
      assert CodeOf(p)[b] == p[b].instructions && CodeOf(q)[b] == q[b].instructions;
    }
  }

  lemma SameSolutions(blocks: seq<BasicBlock>, p: seq<BasicBlock>, q: seq<BasicBlock>, out: seq<Facts>)
    requires CodeOf(p) == CodeOf(q) && Solved(blocks, CopyTransfer(p, {}, map[]), out)
    ensures Solved(blocks, CopyTransfer(q, {}, map[]), out)
  {
    forall b | 0 <= b < |blocks|
      ensures out[b] == Outgoing(blocks, CopyTransfer(q, {}, map[]), out, b)
    {
      SameTransfer(p, q, b, Meet(blocks[b].predecessors, out));
      assert out[b] == Outgoing(blocks, CopyTransfer(p, {}, map[]), out, b);
    }
    hide Meet, CopyTransfer;
  }

  /** The instructions of the oscillating graph. */
  function Oscillating(): seq<Instr> {
    Flatten(CodeOf(Oscillator()))
  }

  /** The labels are unique, so `Cfg.Build` yields a well-formed graph from them. */
  lemma OscillatingLabels()
    ensures UniqueLabels(Oscillating())
  {
    OscillatorShaped();
    OscillatorUnique();
    UniqueInBody(CodeOf(Oscillator()));
  }

  /** A graph can be built from the oscillating instructions, since their labels are unique, and on every
      graph that can, the worklist is never empty: the loop of `copy_propagation` runs for ever. */
  lemma OscillatorNeverDone(blocks: seq<BasicBlock>, rounds: nat)
    requires WellFormed(blocks) && MinimalCuts(CodeOf(blocks)) && Flatten(CodeOf(blocks)) == Oscillating()
    ensures UniqueLabels(Oscillating())
    ensures AfterRounds(blocks, CopyTransfer(blocks, {}, map[]), rounds).worklist != []
  {
    OscillatingLabels();
    OscillatorCuts();
    CutsUnique(CodeOf(blocks), CodeOf(Oscillator()));
    hide Oscillator, AfterRounds, Solved, WellFormed, MinimalCuts, Flatten, CopyTransfer;
    OscillatorWellFormed();
    var transfer := CopyTransfer(blocks, {}, map[]);
    if AfterRounds(blocks, transfer, rounds).worklist == [] {
      var out := AfterRounds(blocks, transfer, rounds).out;
      EndedSolves(blocks, transfer, rounds);
      SameEquations(blocks, Oscillator(), transfer, out);
      SameSolutions(Oscillator(), blocks, Oscillator(), out);
      OscillatorHasNoSolution(out);
    }
  }

  lemma OscillatorCuts()
    ensures MinimalCuts(CodeOf(Oscillator()))
  {
    var code := CodeOf(Oscillator());
    OscillatorShaped();
    assert |code| == 7;
    forall b | 0 < b < |code|
      ensures CutHere(code[b - 1], code[b])
    {
      assert code[b] == Oscillator()[b].instructions && code[b - 1] == Oscillator()[b - 1].instructions;
    }
    hide Partitioned;
  }
}
