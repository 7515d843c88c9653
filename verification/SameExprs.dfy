/** Which instructions compute the same expression, and where a variable still has its value, told by
    the operands of instructions and the edges of the graph. */
module SameExprs {
  import opened Tacky
  import opened Semantics
  import opened ControlFlow
  import opened Operands
  import opened Paths

  /** The variables whose names a pass leaves alone: other code can reach them. */
  datatype Scope = Scope(types: Types, aliased: set<Name>, statics: set<Name>) {
    predicate Reserves(x: Name) {
      x in aliased || x in statics
    }
  }

  /** The instruction reads the value of the variable; taking its address does not. */
  predicate OperandOf(i: Instr, x: Name) {
    ReadsVar(i, x) && !i.GetAddress?
  }

  /** An expression over variables nobody else can reach, computed into such a variable: no division
      or remainder, and nothing of aggregate, void or long double type. */
  ghost predicate Computation(i: Instr, s: Scope) {
    && (i.Unary? || i.Binary? || i.Convert? || i.AddPtr? || i.GetAddress? || i.Load? || i.CopyFromOffset?)
    && !(i.Binary? && (i.bop == Div || i.bop == Mod))
    && !s.Reserves(i.dst)
    && TypeOf(s.types, i.dst) != Struct && TypeOf(s.types, i.dst) != Void && TypeOf(s.types, i.dst) != LongDouble
    && forall x :: OperandOf(i, x) ==> !s.Reserves(x)
  }

  /** Operands may be swapped, except those of floating-point type. */
  predicate OrderFree(op: BinaryOp, k: CType, l: CType) {
    op in {Add, Mul, BitwiseAnd, BitwiseOr, BitwiseXor, Equal, NotEqual}
    && k !in {Float, Double, LongDouble} && l !in {Float, Double, LongDouble}
  }

  /** The same operator on the same operands, at the same types. */
  predicate SameExpression(i: Instr, j: Instr, s: Scope) {
    match i
    case Unary(op, v, x) => j.Unary? && j.uop == op && j.src == v && TypeOf(s.types, j.dst) == TypeOf(s.types, x)
    case Binary(op, v, w, x) =>
      && j.Binary? && j.bop == op && TypeOf(s.types, j.dst) == TypeOf(s.types, x)
      && ((j.left == v && j.right == w)
          || (OrderFree(op, ValType(s.types, v), ValType(s.types, w)) && j.left == w && j.right == v))
    case Convert(kind, v, x) =>
      j.Convert? && j.kind == kind && j.src == v && TypeOf(s.types, j.dst) == TypeOf(s.types, x)
    case AddPtr(v, w, scale, x) =>
      && j.AddPtr? && j.ptr == v && j.index == w && j.scale == scale
      && TypeOf(s.types, j.dst) == TypeOf(s.types, x)
    case GetAddress(y, x) => j.GetAddress? && j.taken == y && TypeOf(s.types, j.dst) == TypeOf(s.types, x)
    case Load(p, x) => j.Load? && j.srcPtr == p && TypeOf(s.types, j.dst) == TypeOf(s.types, x)
    case CopyFromOffset(y, n, x) =>
      j.CopyFromOffset? && j.srcName == y && j.offset == n && TypeOf(s.types, j.dst) == TypeOf(s.types, x)
    case _ => false
  }

  ghost predicate Repeats(i: Instr, j: Instr, s: Scope) {
    Computation(j, s) && SameExpression(i, j, s)
  }

  /** The instruction may change the value of the expression or of the variable that holds it. */
  ghost predicate Disturbs(j: Instr, i: Instr, h: Name, s: Scope) {
    || j.FunCall? || j.Store? || j.CopyToOffset?
    || (exists x :: Overwrites(j, x) && (x == h || OperandOf(i, x) || (i.Load? && s.Reserves(x))))
  }

  /** Between two positions nothing disturbs the expression, or computes it anew. */
  ghost predicate Quiet(instrs: seq<Instr>, from: nat, to: nat, i: Instr, h: Name, s: Scope) {
    forall k :: from <= k < to && k < |instrs| ==> !Disturbs(instrs[k], i, h, s) && !Repeats(i, instrs[k], s)
  }

  /** The last computation of the expression before position `n` goes into `h`, and is undisturbed. */
  ghost predicate ComputedBy(instrs: seq<Instr>, n: nat, i: Instr, h: Name, s: Scope) {
    exists p: nat :: ComputesAt(instrs, p, n, i, h, s)
  }

  ghost predicate ComputesAt(instrs: seq<Instr>, p: nat, n: nat, i: Instr, h: Name, s: Scope) {
    && p < n && p < |instrs| && Repeats(i, instrs[p], s) && instrs[p].dst == h && !OperandOf(i, h)
    && Quiet(instrs, p + 1, n, i, h, s)
  }

  ghost predicate ComputedIn(block: BasicBlock, i: Instr, h: Name, s: Scope) {
    ComputedBy(block.instructions, |block.instructions|, i, h, s)
  }

  ghost predicate PassesQuiet(block: BasicBlock, i: Instr, h: Name, s: Scope) {
    Quiet(block.instructions, 0, |block.instructions|, i, h, s)
  }

  /** Going back from the start of a block, every way leads, over at most `n` quiet blocks, to a block
      that computes the expression into `h`. */
  ghost predicate ComputedWithin(blocks: seq<BasicBlock>, b: nat, i: Instr, h: Name, s: Scope, n: nat)
    decreases n
  {
    && 0 < b < |blocks| && (exists p: nat :: HasEdge(blocks, p, b))
    && forall p: nat :: HasEdge(blocks, p, b) ==>
         ComputedIn(blocks[p], i, h, s)
         || (n > 0 && PassesQuiet(blocks[p], i, h, s) && ComputedWithin(blocks, p, i, h, s, n - 1))
  }

  /** So it does for some number of blocks. */
  ghost predicate ComputedBefore(blocks: seq<BasicBlock>, b: nat, i: Instr, h: Name, s: Scope) {
    exists n: nat :: ComputedWithin(blocks, b, i, h, s, n)
  }

  /** On a path, some block computes the expression into `h`, and those after it, but for the last,
      are quiet. */
  ghost predicate ComputedOn(blocks: seq<BasicBlock>, path: seq<nat>, i: Instr, h: Name, s: Scope) {
    exists j :: 0 <= j < |path| - 1 && path[j] < |blocks| && ComputedIn(blocks[path[j]], i, h, s)
      && forall k :: j < k < |path| - 1 && path[k] < |blocks| ==> PassesQuiet(blocks[path[k]], i, h, s)
  }

  /** Every path to the block computes the expression into `h`. */
  ghost predicate ComputedOnAllPaths(blocks: seq<BasicBlock>, b: nat, i: Instr, h: Name, s: Scope) {
    forall path :: IsPath(blocks, path, 0, b) ==> ComputedOn(blocks, path, i, h, s)
  }

  /** The variable that has the value of the expression before position `q` of a rewritten block. */
  ghost predicate HoldsAt(blocks: seq<BasicBlock>, b: nat, rewritten: seq<Instr>, q: nat, i: Instr, h: Name, s: Scope) {
    || ComputedBy(rewritten, q, i, h, s)
    || (Quiet(rewritten, 0, q, i, h, s) && ComputedBefore(blocks, b, i, h, s))
  }

  /** An instruction of a rewritten block: a computation whose value some other variable has is a copy
      from it; everything else stays. */
  ghost predicate RightlyEmitted(blocks: seq<BasicBlock>, b: nat, rewritten: seq<Instr>, q: nat, i: Instr, s: Scope)
    requires q < |rewritten|
  {
    if exists h :: Computation(i, s) && h != i.dst && HoldsAt(blocks, b, rewritten, q, i, h, s) then
      exists h :: h != i.dst && HoldsAt(blocks, b, rewritten, q, i, h, s) && rewritten[q] == Copy(Var(h), i.dst)
    else rewritten[q] == i
  }

  /** Every instruction of the rewritten graph is emitted like that. */
  ghost predicate FindsRepeats(blocks: seq<BasicBlock>, rewritten: Code, s: Scope) {
    && |rewritten| == |blocks|
    && (forall b :: 0 <= b < |blocks| ==> |rewritten[b]| == |blocks[b].instructions|)
    && (forall b, q :: 0 <= b < |blocks| && 0 <= q < |rewritten[b]| ==>
          RightlyEmitted(blocks, b, rewritten[b], q, blocks[b].instructions[q], s))
  }

  lemma OneMoreQuiet(blocks: seq<BasicBlock>, path: seq<nat>, i: Instr, h: Name, s: Scope)
    requires |path| > 1 && path[|path| - 2] < |blocks| && PassesQuiet(blocks[path[|path| - 2]], i, h, s)
    requires ComputedOn(blocks, path[..|path| - 1], i, h, s)
    ensures ComputedOn(blocks, path, i, h, s)
  {
    hide ComputedIn, PassesQuiet;
    var less := path[..|path| - 1];
    var j :| 0 <= j < |less| - 1 && less[j] < |blocks| && ComputedIn(blocks[less[j]], i, h, s)
      && forall k :: j < k < |less| - 1 && less[k] < |blocks| ==> PassesQuiet(blocks[less[k]], i, h, s);
    assert path[j] == less[j];
    forall k | j < k < |path| - 1 && path[k] < |blocks|
      ensures PassesQuiet(blocks[path[k]], i, h, s)
    {
      assert path[k] == less[k];
    }
  }

  lemma ComputedLast(blocks: seq<BasicBlock>, path: seq<nat>, i: Instr, h: Name, s: Scope)
    requires |path| > 1 && path[|path| - 2] < |blocks| && ComputedIn(blocks[path[|path| - 2]], i, h, s)
    ensures ComputedOn(blocks, path, i, h, s)
  {
    hide ComputedIn, PassesQuiet;
    assert path[|path| - 2] == path[|path| - 2];
  }

  lemma LongPath(blocks: seq<BasicBlock>, path: seq<nat>, b: nat)
    requires IsPath(blocks, path, 0, b) && b != 0
    ensures |path| > 1
  {
  }

  /** A computation that every way back leads to is on every path to the block. */
  lemma {:induction false} WithinOnPaths(blocks: seq<BasicBlock>, b: nat, i: Instr, h: Name, s: Scope, n: nat,
        path: seq<nat>)
    requires ComputedWithin(blocks, b, i, h, s, n) && IsPath(blocks, path, 0, b)
    ensures ComputedOn(blocks, path, i, h, s)
    decreases n
  {
    hide ComputedIn, PassesQuiet, ComputedOn, IsPath;
    LongPath(blocks, path, b);
    PathInit(blocks, path, 0, b);
    var p := path[|path| - 2];
    assert HasEdge(blocks, p, b);
    if ComputedIn(blocks[p], i, h, s) {
      ComputedLast(blocks, path, i, h, s);
    } else {
      WithinOnPaths(blocks, p, i, h, s, n - 1, path[..|path| - 1]);
      OneMoreQuiet(blocks, path, i, h, s);
    }
  }

  lemma BeforeOnAllPaths(blocks: seq<BasicBlock>, b: nat, i: Instr, h: Name, s: Scope)
    requires ComputedBefore(blocks, b, i, h, s)
    ensures ComputedOnAllPaths(blocks, b, i, h, s)
  {
    hide ComputedWithin, ComputedOn, IsPath;
    var n: nat :| ComputedWithin(blocks, b, i, h, s, n);
    forall path | IsPath(blocks, path, 0, b)
      ensures ComputedOn(blocks, path, i, h, s)
    {
      WithinOnPaths(blocks, b, i, h, s, n, path);
    }
  }
}
