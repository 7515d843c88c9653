/** What the elimination of common subexpressions does to two computations of one expression, and where
    it misses one, all told from the statement of what it finds. */
module CseAnswers {
  import opened Tacky
  import opened Semantics
  import opened ControlFlow
  import opened Operands
  import opened Paths
  import opened SameExprs

  // ----- one variable at most has the value -----

  lemma ComputedOnce(instrs: seq<Instr>, n: nat, i: Instr, h: Name, g: Name, s: Scope)
    requires ComputedBy(instrs, n, i, h, s)
    ensures ComputedBy(instrs, n, i, g, s) ==> g == h
    ensures !Quiet(instrs, 0, n, i, g, s)
  {
    hide Repeats, Disturbs, OperandOf;
    var p: nat :| ComputesAt(instrs, p, n, i, h, s);
    if r: nat :| ComputesAt(instrs, r, n, i, g, s) {
      assert !(p < r) && !(r < p);
    }
  }

  lemma {:induction false} WithinOnce(blocks: seq<BasicBlock>, b: nat, i: Instr, h: Name, g: Name, s: Scope, n: nat,
        m: nat)
    requires ComputedWithin(blocks, b, i, h, s, n) && ComputedWithin(blocks, b, i, g, s, m)
    ensures g == h
    decreases n
  {
    hide ComputedBy, Quiet;
    var p: nat :| HasEdge(blocks, p, b);
    var instrs := blocks[p].instructions;
    if ComputedIn(blocks[p], i, h, s) {
      ComputedOnce(instrs, |instrs|, i, h, g, s);
    } else if ComputedIn(blocks[p], i, g, s) {
      ComputedOnce(instrs, |instrs|, i, g, h, s);
    } else {
      WithinOnce(blocks, p, i, h, g, s, n - 1, m - 1);
    }
  }

  lemma HeldOnce(blocks: seq<BasicBlock>, b: nat, rewritten: seq<Instr>, q: nat, i: Instr, h: Name, g: Name, s: Scope)
    requires HoldsAt(blocks, b, rewritten, q, i, h, s) && HoldsAt(blocks, b, rewritten, q, i, g, s)
    ensures g == h
  {
    hide ComputedBy, Quiet, ComputedWithin;
    if ComputedBy(rewritten, q, i, h, s) {
      ComputedOnce(rewritten, q, i, h, g, s);
    } else if ComputedBy(rewritten, q, i, g, s) {
      ComputedOnce(rewritten, q, i, g, h, s);
    } else {
      var n: nat :| ComputedWithin(blocks, b, i, h, s, n);
      var m: nat :| ComputedWithin(blocks, b, i, g, s, m);
      WithinOnce(blocks, b, i, h, g, s, n, m);
    }
  }

  // ----- instructions with the same expression -----

  lemma SameBothWays(i: Instr, j: Instr, k: Instr, s: Scope)
    requires SameExpression(i, j, s)
    ensures SameExpression(i, k, s) <==> SameExpression(j, k, s)
  {
    hide TypeOf, ValType;
  }

  lemma SameReads(i: Instr, j: Instr, s: Scope, x: Name)
    requires SameExpression(i, j, s)
    ensures OperandOf(i, x) <==> OperandOf(j, x)
    ensures i.Load? <==> j.Load?
  {
    hide TypeOf, ValType;
  }

  lemma SameDisturbs(i: Instr, j: Instr, k: Instr, h: Name, s: Scope)
    requires SameExpression(i, j, s)
    ensures Disturbs(k, i, h, s) <==> Disturbs(k, j, h, s)
    ensures Repeats(i, k, s) <==> Repeats(j, k, s)
  {
    SameBothWays(i, j, k, s);
    forall x
      ensures OperandOf(i, x) <==> OperandOf(j, x)
      ensures i.Load? <==> j.Load?
    {
      SameReads(i, j, s, x);
    }
    hide SameExpression, OperandOf, Overwrites, Computation;
  }

  lemma SameQuiet(i: Instr, j: Instr, instrs: seq<Instr>, p: nat, n: nat, h: Name, s: Scope)
    requires SameExpression(i, j, s)
    ensures Quiet(instrs, p, n, i, h, s) <==> Quiet(instrs, p, n, j, h, s)
  {
    hide SameExpression, Disturbs, Repeats;
    forall k | 0 <= k < |instrs|
      ensures Disturbs(instrs[k], i, h, s) <==> Disturbs(instrs[k], j, h, s)
      ensures Repeats(i, instrs[k], s) <==> Repeats(j, instrs[k], s)
    {
      SameDisturbs(i, j, instrs[k], h, s);
    }
  }

  lemma SameAt(i: Instr, j: Instr, instrs: seq<Instr>, p: nat, n: nat, h: Name, s: Scope)
    requires SameExpression(i, j, s)
    ensures ComputesAt(instrs, p, n, i, h, s) <==> ComputesAt(instrs, p, n, j, h, s)
  {
    hide SameExpression, Quiet, OperandOf, Disturbs, Computation;
    SameQuiet(i, j, instrs, p + 1, n, h, s);
    SameReads(i, j, s, h);
    if p < |instrs| {
      hide Repeats;
      SameDisturbs(i, j, instrs[p], h, s);
    }
  }

  lemma SameComputed(i: Instr, j: Instr, instrs: seq<Instr>, n: nat, h: Name, s: Scope)
    requires SameExpression(i, j, s)
    ensures ComputedBy(instrs, n, i, h, s) <==> ComputedBy(instrs, n, j, h, s)
  {
    hide SameExpression, ComputesAt;
    forall p: nat
      ensures ComputesAt(instrs, p, n, i, h, s) <==> ComputesAt(instrs, p, n, j, h, s)
    {
      SameAt(i, j, instrs, p, n, h, s);
    }
  }

  lemma RepeatHasDestination(i: Instr, j: Instr, s: Scope)
    requires Repeats(i, j, s)
    ensures (j.Unary? || j.Binary? || j.Convert? || j.AddPtr? || j.GetAddress? || j.Load? || j.CopyFromOffset?)
    ensures Overwrites(j, j.dst) && forall x :: Overwrites(j, x) <==> x == j.dst
  {
  }

  lemma {:induction false} SameWithin(i: Instr, j: Instr, blocks: seq<BasicBlock>, b: nat, h: Name, s: Scope, n: nat)
    requires SameExpression(i, j, s) && ComputedWithin(blocks, b, i, h, s, n)
    ensures ComputedWithin(blocks, b, j, h, s, n)
    decreases n
  {
    hide SameExpression, ComputedBy, Quiet;
    forall p: nat | HasEdge(blocks, p, b)
      ensures ComputedIn(blocks[p], j, h, s)
        || (n > 0 && PassesQuiet(blocks[p], j, h, s) && ComputedWithin(blocks, p, j, h, s, n - 1))
    {
      var instrs := blocks[p].instructions;
      SameComputed(i, j, instrs, |instrs|, h, s);
      SameQuiet(i, j, instrs, 0, |instrs|, h, s);
      if !ComputedIn(blocks[p], i, h, s) {
        SameWithin(i, j, blocks, p, h, s, n - 1);
      }
    }
  }

  lemma SameHolds(i: Instr, j: Instr, blocks: seq<BasicBlock>, b: nat, rewritten: seq<Instr>, q: nat, h: Name, s: Scope)
    requires SameExpression(i, j, s) && HoldsAt(blocks, b, rewritten, q, i, h, s)
    ensures HoldsAt(blocks, b, rewritten, q, j, h, s)
  {
    hide SameExpression, ComputedBy, Quiet, ComputedWithin;
    SameComputed(i, j, rewritten, q, h, s);
    SameQuiet(i, j, rewritten, 0, q, h, s);
    if !ComputedBy(rewritten, q, i, h, s) {
      var n: nat :| ComputedWithin(blocks, b, i, h, s, n);
      SameWithin(i, j, blocks, b, h, s, n);
    }
  }

  // ----- a value that is held stays held -----

  /** What is emitted for an instruction that does not disturb an expression does not either, and does
      not compute it anew while another variable has the value. */
  lemma EmittedQuiet(blocks: seq<BasicBlock>, b: nat, rewritten: seq<Instr>, q: nat, j: Instr, i: Instr, h: Name,
        s: Scope)
    requires q < |rewritten| && RightlyEmitted(blocks, b, rewritten, q, j, s)
    requires HoldsAt(blocks, b, rewritten, q, i, h, s) && !Disturbs(j, i, h, s)
    ensures !Disturbs(rewritten[q], i, h, s) && !Repeats(i, rewritten[q], s)
  {
    hide HoldsAt, SameExpression, OperandOf;
    if Repeats(i, j, s) {
      RepeatHasDestination(i, j, s);
      SameHolds(i, j, blocks, b, rewritten, q, h, s);
      assert h != j.dst;
    }
    if rewritten[q] != j {
      assert Overwrites(j, j.dst);
    }
  }

  lemma QuietLonger(instrs: seq<Instr>, p: nat, q: nat, i: Instr, h: Name, s: Scope)
    requires q < |instrs| && Quiet(instrs, p, q, i, h, s) && !Disturbs(instrs[q], i, h, s) && !Repeats(i, instrs[q], s)
    ensures Quiet(instrs, p, q + 1, i, h, s)
  {
    hide Disturbs, Repeats;
  }

  lemma StaysHeld(blocks: seq<BasicBlock>, b: nat, rewritten: seq<Instr>, q: nat, j: Instr, i: Instr, h: Name, s: Scope)
    requires q < |rewritten| && RightlyEmitted(blocks, b, rewritten, q, j, s)
    requires HoldsAt(blocks, b, rewritten, q, i, h, s) && !Disturbs(j, i, h, s)
    ensures HoldsAt(blocks, b, rewritten, q + 1, i, h, s)
  {
    hide Disturbs, Repeats, RightlyEmitted, OperandOf, Quiet, ComputedBefore;
    EmittedQuiet(blocks, b, rewritten, q, j, i, h, s);
    if p: nat :| ComputesAt(rewritten, p, q, i, h, s) {
      QuietLonger(rewritten, p + 1, q, i, h, s);
      assert ComputesAt(rewritten, p, q + 1, i, h, s);
    } else {
      QuietLonger(rewritten, 0, q, i, h, s);
    }
  }

  /** No instruction of a block between two positions disturbs an expression or its holder. */
  ghost predicate Undisturbed(instrs: seq<Instr>, from: nat, to: nat, i: Instr, h: Name, s: Scope) {
    forall k :: from <= k < to && k < |instrs| ==> !Disturbs(instrs[k], i, h, s)
  }

  lemma {:induction false} HeldUntil(blocks: seq<BasicBlock>, rewritten: Code, b: nat, from: nat, q: nat, i: Instr,
        h: Name, s: Scope)
    requires FindsRepeats(blocks, rewritten, s) && b < |blocks| && from <= q <= |rewritten[b]|
    requires HoldsAt(blocks, b, rewritten[b], from, i, h, s)
    requires Undisturbed(blocks[b].instructions, from, q, i, h, s)
    ensures HoldsAt(blocks, b, rewritten[b], q, i, h, s)
    decreases q
  {
    hide HoldsAt, Disturbs, RightlyEmitted;
    if from < q {
      HeldUntil(blocks, rewritten, b, from, q - 1, i, h, s);
      assert RightlyEmitted(blocks, b, rewritten[b], q - 1, blocks[b].instructions[q - 1], s);
      StaysHeld(blocks, b, rewritten[b], q - 1, blocks[b].instructions[q - 1], i, h, s);
    }
  }

  lemma HeldIsCopied(blocks: seq<BasicBlock>, b: nat, rewritten: seq<Instr>, q: nat, i: Instr, h: Name, s: Scope)
    requires q < |rewritten| && RightlyEmitted(blocks, b, rewritten, q, i, s) && Computation(i, s) && h != i.dst
    requires HoldsAt(blocks, b, rewritten, q, i, h, s)
    ensures rewritten[q] == Copy(Var(h), i.dst)
  {
    hide HoldsAt;
    var g :| g != i.dst && HoldsAt(blocks, b, rewritten, q, i, g, s) && rewritten[q] == Copy(Var(g), i.dst);
    HeldOnce(blocks, b, rewritten, q, i, h, g, s);
  }

  // ----- two computations of one expression -----

  /** The variable that has the value after the instruction at `p`: its own destination, or the one it was
      made a copy of. */
  function HolderAfter(instrs: seq<Instr>, rewritten: seq<Instr>, p: nat): Name
    requires p < |instrs| && p < |rewritten| && DefinedVar(instrs[p]).Some?
  {
    if rewritten[p] != instrs[p] && rewritten[p].Copy? && rewritten[p].src.Var? then rewritten[p].src.name
    else DefinedVar(instrs[p]).value
  }

  lemma HeldAfter(blocks: seq<BasicBlock>, b: nat, instrs: seq<Instr>, rewritten: seq<Instr>, p: nat, i: Instr,
        s: Scope)
    requires p < |instrs| == |rewritten| && RightlyEmitted(blocks, b, rewritten, p, instrs[p], s)
    requires Repeats(i, instrs[p], s) && SameExpression(i, i, s)
    requires forall x :: Overwrites(instrs[p], x) ==> !OperandOf(i, x)
    ensures DefinedVar(instrs[p]).Some?
    ensures HoldsAt(blocks, b, rewritten, p + 1, i, HolderAfter(instrs, rewritten, p), s)
  {
    hide HoldsAt, OperandOf, SameExpression;
    var j := instrs[p];
    RepeatHasDestination(i, j, s);
    if rewritten[p] == j {
      NewlyHeld(blocks, b, rewritten, p, i, s);
    } else {
      var h :| h != j.dst && HoldsAt(blocks, b, rewritten, p, j, h, s) && rewritten[p] == Copy(Var(h), j.dst);
      SameBothWays(i, j, i, s);
      SameHolds(j, i, blocks, b, rewritten, p, h, s);
      LoadOfUnreserved(i, j, s);
      StaysHeld(blocks, b, rewritten, p, j, i, h, s);
    }
  }

  lemma LoadOfUnreserved(i: Instr, j: Instr, s: Scope)
    requires Repeats(i, j, s)
    ensures forall x :: Overwrites(j, x) ==> !s.Reserves(x)
    ensures !j.FunCall? && !j.Store? && !j.CopyToOffset?
  {
  }

  lemma NewlyHeld(blocks: seq<BasicBlock>, b: nat, rewritten: seq<Instr>, p: nat, i: Instr, s: Scope)
    requires p < |rewritten| && Repeats(i, rewritten[p], s)
    requires forall x :: Overwrites(rewritten[p], x) ==> !OperandOf(i, x)
    ensures DefinedVar(rewritten[p]).Some?
    ensures HoldsAt(blocks, b, rewritten, p + 1, i, DefinedVar(rewritten[p]).value, s)
  {
    hide OperandOf, SameExpression;
    RepeatHasDestination(i, rewritten[p], s);
    assert ComputesAt(rewritten, p, p + 1, i, rewritten[p].dst, s);
  }

  lemma SameAsItself(i: Instr, s: Scope)
    requires Computation(i, s)
    ensures SameExpression(i, i, s)
  {
  }

  /** Of two computations of one expression in a block, the second becomes a copy of the variable that has
      the value after the first, unless something in between may change an operand or that variable. */
  lemma LaterIsCopy(blocks: seq<BasicBlock>, rewritten: Code, b: nat, p: nat, q: nat, s: Scope)
    requires FindsRepeats(blocks, rewritten, s) && b < |blocks| && p < q < |blocks[b].instructions|
    requires Computation(blocks[b].instructions[q], s)
      && Repeats(blocks[b].instructions[q], blocks[b].instructions[p], s)
    requires forall x :: Overwrites(blocks[b].instructions[p], x) ==> !OperandOf(blocks[b].instructions[q], x)
    requires DefinedVar(blocks[b].instructions[p]).Some?
    requires var instrs := blocks[b].instructions;
      Undisturbed(instrs, p + 1, q, instrs[q], HolderAfter(instrs, rewritten[b], p), s)
    ensures var instrs := blocks[b].instructions;
      var h := HolderAfter(instrs, rewritten[b], p);
      instrs[q].dst != h ==> rewritten[b][q] == Copy(Var(h), instrs[q].dst)
  {
    hide Computation, SameExpression, HoldsAt, Undisturbed, RightlyEmitted;
    var instrs := blocks[b].instructions;
    var h := HolderAfter(instrs, rewritten[b], p);
    assert RightlyEmitted(blocks, b, rewritten[b], p, instrs[p], s);
    assert RightlyEmitted(blocks, b, rewritten[b], q, instrs[q], s);
    SameAsItself(instrs[q], s);
    HeldAfter(blocks, b, instrs, rewritten[b], p, instrs[q], s);
    HeldUntil(blocks, rewritten, b, p + 1, q, instrs[q], h, s);
    if instrs[q].dst != h {
      HeldIsCopied(blocks, b, rewritten[b], q, instrs[q], h, s);
    }
  }

  /** A computation at the start of a block whose value every way back puts into one variable becomes a
      copy of it. */
  lemma StartIsCopy(blocks: seq<BasicBlock>, rewritten: Code, b: nat, q: nat, h: Name, s: Scope)
    requires FindsRepeats(blocks, rewritten, s) && b < |blocks| && q < |blocks[b].instructions|
    requires Computation(blocks[b].instructions[q], s) && h != blocks[b].instructions[q].dst
    requires ComputedBefore(blocks, b, blocks[b].instructions[q], h, s)
    requires Undisturbed(blocks[b].instructions, 0, q, blocks[b].instructions[q], h, s)
    ensures rewritten[b][q] == Copy(Var(h), blocks[b].instructions[q].dst)
  {
    hide Computation, ComputedBefore, ComputedBy, Undisturbed, RightlyEmitted;
    var i := blocks[b].instructions[q];
    assert HoldsAt(blocks, b, rewritten[b], 0, i, h, s);
    assert RightlyEmitted(blocks, b, rewritten[b], q, i, s);
    hide HoldsAt;
    HeldUntil(blocks, rewritten, b, 0, q, i, h, s);
    HeldIsCopied(blocks, b, rewritten[b], q, i, h, s);
  }

  // ----- what it misses -----

  const ALL := Scope(map[], {}, {})

  function Sum(x: Name): Instr {
    Binary(Add, Var("a"), Var("b"), x)
  }

  /** `t` is made a copy of `s`, and `s` gets another value; the sum that `t` still has is computed again. */
  function LostGraph(): seq<BasicBlock> {
    [BasicBlock(0, [Sum("s"), Sum("t"), Copy(Constant(5), "s"), Sum("u"), Return(Var("u"))], [Exit], [Entry])]
  }

  lemma SumFacts(x: Name, y: Name)
    requires x != "a" && x != "b"
    ensures Computation(Sum(x), ALL) && SameExpression(Sum(y), Sum(x), ALL)
    ensures OperandOf(Sum(y), x) == false && forall z :: OperandOf(Sum(y), z) <==> z == "a" || z == "b"
  {
  }

  lemma FirstSumStays(rewritten: Code)
    requires FindsRepeats(LostGraph(), rewritten, ALL)
    ensures |rewritten| == 1 && |rewritten[0]| == 5 && rewritten[0][0] == Sum("s")
    ensures rewritten[0][1] == Copy(Var("s"), "t") && rewritten[0][2] == Copy(Constant(5), "s")
  {
    var blocks := LostGraph();
    var instrs := blocks[0].instructions;
    hide Computation, SameExpression, OperandOf, RightlyEmitted;
    assert |rewritten[0]| == |instrs|;
    assert RightlyEmitted(blocks, 0, rewritten[0], 0, instrs[0], ALL);
    assert RightlyEmitted(blocks, 0, rewritten[0], 2, instrs[2], ALL);
    SumFacts("s", "s");
    SumFacts("s", "t");
    SumFacts("t", "t");
    NothingBefore(blocks, rewritten[0], Sum("s"));
    StaysIfUnheld(blocks, rewritten[0], 0, Sum("s"));
    LaterIsCopy(blocks, rewritten, 0, 0, 1, ALL);
    StaysIfNoComputation(blocks, rewritten[0], 2, instrs[2]);
  }

  lemma NothingBefore(blocks: seq<BasicBlock>, rewritten: seq<Instr>, i: Instr)
    ensures forall h :: !HoldsAt(blocks, 0, rewritten, 0, i, h, ALL)
  {
    hide Repeats, Disturbs, OperandOf;
  }

  lemma StaysIfUnheld(blocks: seq<BasicBlock>, rewritten: seq<Instr>, q: nat, i: Instr)
    requires q < |rewritten| && RightlyEmitted(blocks, 0, rewritten, q, i, ALL)
    requires forall h :: !HoldsAt(blocks, 0, rewritten, q, i, h, ALL)
    ensures rewritten[q] == i
  {
    hide HoldsAt, Computation;
  }

  lemma StaysIfNoComputation(blocks: seq<BasicBlock>, rewritten: seq<Instr>, q: nat, i: Instr)
    requires q < |rewritten| && RightlyEmitted(blocks, 0, rewritten, q, i, ALL) && (i.Copy? || i.Return?)
    ensures rewritten[q] == i
  {
    hide HoldsAt;
  }

  lemma NotASum(i: Instr, j: Instr)
    requires j.Copy? || j.Label? || j.JumpIfNotZero?
    ensures !Repeats(i, j, ALL)
  {
  }

  lemma SumLost(rewritten: seq<Instr>, h: Name)
    requires |rewritten| == 5 && rewritten[0] == Sum("s") && rewritten[1] == Copy(Var("s"), "t")
    requires rewritten[2] == Copy(Constant(5), "s")
    ensures !ComputedBy(rewritten, 3, Sum("u"), h, ALL)
  {
    hide Repeats, OperandOf;
    NotASum(Sum("u"), rewritten[1]);
    NotASum(Sum("u"), rewritten[2]);
    assert Overwrites(rewritten[2], "s");
    assert Disturbs(rewritten[2], Sum("u"), "s", ALL);
    assert !Quiet(rewritten, 1, 3, Sum("u"), "s", ALL);
    forall p: nat
      ensures !ComputesAt(rewritten, p, 3, Sum("u"), h, ALL)
    {
    }
  }

  /** Though `t` has the sum and nothing in between touches it or the operands, the sum is computed again,
      because the variable that `t` was copied from is overwritten. */
  lemma LostSumStays(rewritten: Code)
    requires FindsRepeats(LostGraph(), rewritten, ALL)
    ensures |rewritten| == 1 && |rewritten[0]| == 5 && rewritten[0][3] == Sum("u")
    ensures Undisturbed(LostGraph()[0].instructions, 2, 3, Sum("u"), "t", ALL)
  {
    var blocks := LostGraph();
    FirstSumStays(rewritten);
    SumFacts("t", "u");
    hide Computation, SameExpression, OperandOf, RightlyEmitted, ComputedBy;
    forall h
      ensures !HoldsAt(blocks, 0, rewritten[0], 3, Sum("u"), h, ALL)
    {
      SumLost(rewritten[0], h);
    }
    assert RightlyEmitted(blocks, 0, rewritten[0], 3, blocks[0].instructions[3], ALL);
    StaysIfUnheld(blocks, rewritten[0], 3, Sum("u"));
  }

  /** A sum in front of a loop that does not touch it, and the same sum behind the loop. */
  function LoopGraph(): seq<BasicBlock> {
    [ BasicBlock(0, [Sum("s")], [Block(1)], [Entry]),
      BasicBlock(1, [Label("l"), JumpIfNotZero(Var("c"), "l")], [Block(1), Block(2)], [Block(0), Block(1)]),
      BasicBlock(2, [Sum("t"), Return(Var("t"))], [Exit], [Block(1)]) ]
  }

  lemma LoopShape()
    ensures Partitioned(CodeOf(LoopGraph())) && UniqueBlockLabels(CodeOf(LoopGraph())) && EntryFirst(LoopGraph())
  {
    var code := CodeOf(LoopGraph());
    assert code == [LoopGraph()[0].instructions, LoopGraph()[1].instructions, LoopGraph()[2].instructions];
  }

  lemma LoopTarget()
    ensures TargetAmong(CodeOf(LoopGraph()), "l", 3) == Some(1)
  {
    assert CodeOf(LoopGraph())[2][0] == Sum("t");
    assert TargetAmong(CodeOf(LoopGraph()), "l", 2) == Some(1);
  }

  lemma LoopLinks()
    ensures EdgesMatch(LoopGraph())
  {
    hide Sum;
  }

  lemma LoopSuccessors(b: nat)
    requires b < 3
    ensures LoopGraph()[b].successors == SuccessorsOf(CodeOf(LoopGraph()), b)
  {
    hide TargetAmong;
    LoopTarget();
    assert CodeOf(LoopGraph())[b] == LoopGraph()[b].instructions;
  }

  lemma LoopWellFormed()
    ensures WellFormed(LoopGraph())
  {
    LoopShape();
    LoopLinks();
    forall b: nat | b < 3
      ensures LoopGraph()[b].successors == SuccessorsOf(CodeOf(LoopGraph()), b)
    {
      LoopSuccessors(b);
    }
    hide SuccessorsOf, EdgesMatch, EntryFirst, Partitioned, UniqueBlockLabels;
  }

  lemma LoopEdges(a: nat, b: nat)
    ensures HasEdge(LoopGraph(), a, b) <==> (a == 0 && b == 1) || (a == 1 && (b == 1 || b == 2))
  {
  }

  lemma LoopBlocks()
    ensures ComputedIn(LoopGraph()[0], Sum("t"), "s", ALL)
    ensures forall h :: !ComputedIn(LoopGraph()[1], Sum("t"), h, ALL)
    ensures PassesQuiet(LoopGraph()[1], Sum("t"), "s", ALL)
  {
    SumFacts("s", "t");
    hide Computation, SameExpression, OperandOf;
    assert ComputesAt([Sum("s")], 0, 1, Sum("t"), "s", ALL);
    NotASum(Sum("t"), Label("l"));
    NotASum(Sum("t"), JumpIfNotZero(Var("c"), "l"));
  }

  /** Paths to the last block start in the first and go round the loop in between. */
  lemma LoopPaths(path: seq<nat>)
    requires IsPath(LoopGraph(), path, 0, 2)
    ensures |path| > 1 && forall k :: 0 < k < |path| - 1 ==> path[k] == 1
  {
    forall a: nat, b: nat
      ensures HasEdge(LoopGraph(), a, b) <==> (a == 0 && b == 1) || (a == 1 && (b == 1 || b == 2))
    {
      LoopEdges(a, b);
    }
    hide HasEdge, LoopGraph;
    forall k | 0 < k < |path| - 1
      ensures path[k] == 1
    {
      assert HasEdge(LoopGraph(), path[k - 1], path[k]) && HasEdge(LoopGraph(), path[k], path[k + 1]);
    }
  }

  lemma LoopComputes(path: seq<nat>)
    requires IsPath(LoopGraph(), path, 0, 2)
    ensures ComputedOn(LoopGraph(), path, Sum("t"), "s", ALL)
  {
    LoopPaths(path);
    LoopBlocks();
    hide ComputedIn, PassesQuiet;
    assert path[0] == 0;
  }

  lemma {:induction false} LoopNotWithin(b: nat, h: Name, n: nat)
    requires b == 1 || b == 2
    ensures !ComputedWithin(LoopGraph(), b, Sum("t"), h, ALL, n)
    decreases n
  {
    LoopBlocks();
    LoopEdges(1, b);
    if n > 0 {
      LoopNotWithin(1, h, n - 1);
    }
    hide ComputedIn, PassesQuiet, HasEdge;
    if ComputedWithin(LoopGraph(), b, Sum("t"), h, ALL, n) {
      assert HasEdge(LoopGraph(), 1, b);
    }
  }

  /** Though every path to it computes the sum into `s`, the sum behind the loop is computed again: the
      tables grow from nothing, and the loop never gets what it would have to pass on to itself. */
  lemma LoopForgets(rewritten: Code)
    requires FindsRepeats(LoopGraph(), rewritten, ALL)
    ensures WellFormed(LoopGraph()) && ComputedOnAllPaths(LoopGraph(), 2, Sum("t"), "s", ALL)
    ensures |rewritten| == 3 && |rewritten[2]| == 2 && rewritten[2][0] == Sum("t")
  {
    var blocks := LoopGraph();
    LoopWellFormed();
    hide WellFormed, ComputedOn, ComputedWithin, RightlyEmitted, IsPath;
    forall path | IsPath(blocks, path, 0, 2)
      ensures ComputedOn(blocks, path, Sum("t"), "s", ALL)
    {
      LoopComputes(path);
    }
    forall h, n: nat
      ensures !ComputedWithin(blocks, 2, Sum("t"), h, ALL, n)
    {
      LoopNotWithin(2, h, n);
    }
    assert RightlyEmitted(blocks, 2, rewritten[2], 0, blocks[2].instructions[0], ALL);
    NothingHeldFirst(blocks, 2, rewritten[2], Sum("t"));
  }

  lemma NothingHeldFirst(blocks: seq<BasicBlock>, b: nat, rewritten: seq<Instr>, i: Instr)
    requires rewritten != [] && RightlyEmitted(blocks, b, rewritten, 0, i, ALL)
    requires forall h :: !ComputedBefore(blocks, b, i, h, ALL)
    ensures rewritten[0] == i
  {
    hide Computation, Repeats, ComputedBefore, Quiet;
  }
}
