/** What copy propagation leaves of a block: no read of a variable that still is a copy, and no copy that
    is one already, told by positions in the block. */
module CopyAnswers {
  import opened Tacky
  import opened Operands
  import opened CopyFacts
  import opened CopyRewrite
  import opened CopyPropagation

  /** A copy that later reads may go through: between variables of one type, or of a constant that the
      variable's type can hold as it is. */
  predicate Propagates(v: Val, x: Name, types: Types) {
    match v
    case Var(y) => y != x && TypeOf(types, y) == TypeOf(types, x)
    case Constant(_) => true
    case Int128Constant(_) => x in types && types[x] == Int128
    case UInt128Constant(_) => x in types && types[x] == UInt128
    case DoubleConstant(_) => TypeOf(types, x) == Double
  }

  /** Nothing between two positions may change the variable or what it was copied from. */
  ghost predicate StillCopied(instrs: seq<Instr>, from: nat, to: nat, v: Val, x: Name, aliased: set<Name>) {
    forall k :: from <= k < to && k < |instrs| ==> !MayChange(instrs[k], v, x, aliased)
  }

  predicate MayChange(i: Instr, v: Val, x: Name, aliased: set<Name>) {
    || i.Store?
    || (i.FunCall? && (x in aliased || (v.Var? && v.name in aliased)))
    || Overwrites(i, x) || (v.Var? && Overwrites(i, v.name))
    || (i.CopyToOffset? && (i.dstName == x || v == Var(i.dstName)))
  }

  /** The operands whose type the instruction does not look at. */
  predicate ReadsUntyped(i: Instr, x: Name) {
    match i
    case Copy(v, _) => v == Var(x)
    case Return(v) => v == Var(x)
    case Unary(_, v, _) => v == Var(x)
    case Binary(op, v, w, _) =>
      op in {Add, Sub, Mul, Div, Mod, BitwiseAnd, BitwiseNand, BitwiseOr, BitwiseXor, ShiftLeft}
      && (v == Var(x) || w == Var(x))
    case JumpIfZero(v, _) => v == Var(x)
    case JumpIfNotZero(v, _) => v == Var(x)
    case Load(p, _) => p == Var(x)
    case Store(_, p) => p == Var(x)
    case AddPtr(v, w, _, _) => v == Var(x) || w == Var(x)
    case _ => false
  }

  /** Behind a copy that still holds, nothing reads the variable instead of the original, and no copy
      assigns it the same once more. A constant is put where the type of the operand does not matter. */
  ghost predicate CopyUsed(instrs: seq<Instr>, p: nat, q: nat, aliased: set<Name>, types: Types)
    requires p < q < |instrs|
  {
    instrs[p].Copy? && Propagates(instrs[p].src, instrs[p].dst, types)
      && StillCopied(instrs, p + 1, q, instrs[p].src, instrs[p].dst, aliased) ==>
      && instrs[q] != instrs[p]
      && (instrs[p].src.Var? && !instrs[q].GetAddress? ==> !ReadsVar(instrs[q], instrs[p].dst))
      && !ReadsUntyped(instrs[q], instrs[p].dst)
  }

  ghost predicate CopiesUsed(instrs: seq<Instr>, aliased: set<Name>, types: Types) {
    && (forall p, q :: 0 <= p < q < |instrs| ==> CopyUsed(instrs, p, q, aliased, types))
    && (forall q, x :: 0 <= q < |instrs| ==> instrs[q] != Copy(Var(x), x))
  }

  // ----- why -----

  lemma Recorded(v: Val, x: Name, f: Facts, aliased: set<Name>, types: Types)
    requires Propagates(v, x, types) && !(v.Var? && CopyInstr(Var(x), v.name) in f)
    ensures CopyInstr(v, x) in TransferCopy(Copy(v, x), f, aliased, types)
  {
  }

  lemma StaysRecorded(i: Instr, v: Val, x: Name, f: Facts, aliased: set<Name>, types: Types)
    requires CopyInstr(v, x) in f && !MayChange(i, v, x, aliased)
    ensures CopyInstr(v, x) in TransferCopy(i, f, aliased, types)
  {
    ReadsAreSources(i, x);
    if v.Var? {
      ReadsAreSources(i, v.name);
    }
  }

  lemma TransfersSnoc(instrs: seq<Instr>, i: Instr, f: Facts, aliased: set<Name>, types: Types)
    ensures TransferCopies(instrs + [i], f, aliased, types)
      == TransferCopy(i, TransferCopies(instrs, f, aliased, types), aliased, types)
    decreases |instrs|
  {
    hide TransferCopy;
    if instrs == [] {
      assert ([] + [i])[1..] == [];
      assert [] + [i] == [i];
    } else {
      assert (instrs + [i])[1..] == instrs[1..] + [i];
      TransfersSnoc(instrs[1..], i, TransferCopy(instrs[0], f, aliased, types), aliased, types);
    }
  }

  /** Each emitted instruction is one rewritten through the facts that the emitted ones before it leave. */
  lemma {:induction false} EmittedThrough(instrs: seq<Instr>, f: Facts, aliased: set<Name>, types: Types, q: nat)
    returns (i: Instr)
    requires Shapely(f) && q < |RewriteBlock(instrs, f, aliased, types)|
    ensures var r := RewriteBlock(instrs, f, aliased, types);
      var g := TransferCopies(r[..q], f, aliased, types);
      Shapely(g) && Rewrite(i, g, types) == Some(r[q])
    decreases |instrs|
  {
    hide Rewrite, TransferCopy, Shapely;
    var r := RewriteBlock(instrs, f, aliased, types);
    ShapelyFunctional(f);
    match Rewrite(instrs[0], f, types)
    case None =>
      i := EmittedThrough(instrs[1..], f, aliased, types, q);
    case Some(j) =>
      KeepsShapely(j, f, aliased, types);
      var g := TransferCopy(j, f, aliased, types);
      var rest := RewriteBlock(instrs[1..], g, aliased, types);
      assert r == [j] + rest;
      if q == 0 {
        i := instrs[0];
        assert r[..0] == [];
      } else {
        i := EmittedThrough(instrs[1..], g, aliased, types, q - 1);
        assert r[..q] == [j] + rest[..q - 1] && r[..q][1..] == rest[..q - 1];
      }
  }

  lemma {:induction false} StillRecorded(instrs: seq<Instr>, p: nat, q: nat, v: Val, x: Name, f: Facts,
        aliased: set<Name>, types: Types)
    requires p <= q <= |instrs| && StillCopied(instrs, p, q, v, x, aliased)
    requires CopyInstr(v, x) in TransferCopies(instrs[..p], f, aliased, types)
    ensures CopyInstr(v, x) in TransferCopies(instrs[..q], f, aliased, types)
    decreases q
  {
    if p < q {
      hide MayChange, TransferCopies;
      StillRecorded(instrs, p, q - 1, v, x, f, aliased, types);
      assert instrs[..q] == instrs[..q - 1] + [instrs[q - 1]];
      TransfersSnoc(instrs[..q - 1], instrs[q - 1], f, aliased, types);
      StaysRecorded(instrs[q - 1], v, x, TransferCopies(instrs[..q - 1], f, aliased, types), aliased, types);
    }
  }

  /** Resolution never ends at a variable that is a usable copy of another value. */
  lemma NotLeftAt(y: Name, v: Val, x: Name, f: Facts, use: Use)
    requires Shapely(f) && CopyInstr(v, x) in f && v != Var(x) && Usable(v, use)
    ensures match Resolve(y, f, use, {}) case None => y != x case Some(w) => w != Var(x)
  {
    hide Resolve;
    ResolveIsChainEnd(y, f, use);
    hide Usable, Chain;
  }

  lemma OperandMoves(w: Val, v: Val, x: Name, f: Facts, types: Types)
    requires Shapely(f) && CopyInstr(v, x) in f && v != Var(x)
    ensures ReplaceOperand(w, f) != Var(x)
    ensures v.Var? ==> ReplaceOperandTyped(w, f, types) != Var(x)
    ensures v.Var? ==> forall y :: ReplaceNamedSource(y, f) != x
  {
    hide Shapely;
    ShapelyFunctional(f);
    if w.Var? {
      NotLeftAt(w.name, v, x, f, AnySource);
      var ty := TypeOf(types, w.name);
      if v.Var? {
        NotLeftAt(w.name, v, x, f, TypedSource(ty));
        TypedMatches(w.name, f, ty);
      }
    }
    if v.Var? {
      forall y
        ensures ReplaceNamedSource(y, f) != x
      {
        NotLeftAt(y, v, x, f, NamedSource);
        NamedIsName(y, f);
      }
    }
    hide Resolve;
  }

  lemma {:induction false} ResolvedUsable(x: Name, f: Facts, use: Use, seen: set<Name>)
    requires Functional(f)
    ensures Resolve(x, f, use, seen).Some? ==> Usable(Resolve(x, f, use, seen).value, use)
    decreases Destinations(f) - seen
  {
    if x !in seen {
      var k := SelectReachingCopy(x, f, use);
      if k.Some? && k.value.src.Var? && k.value.src.name != x {
        assert x in Destinations(f) - seen;
        ResolvedUsable(k.value.src.name, f, use, seen + {x});
      }
    }
  }

  lemma TypedMatches(x: Name, f: Facts, ty: CType)
    requires Functional(f)
    ensures var w := Resolve(x, f, TypedSource(ty), {}); w.Some? ==> ReplacementMatchesType(w.value, ty)
  {
    ResolvedUsable(x, f, TypedSource(ty), {});
    hide Resolve;
  }

  lemma NamedIsName(x: Name, f: Facts)
    requires Functional(f)
    ensures Resolve(x, f, NamedSource, {}).Some? ==> Resolve(x, f, NamedSource, {}).value.Var?
  {
    ResolvedUsable(x, f, NamedSource, {});
    hide Resolve;
  }

  lemma ArgsMove(args: seq<Val>, v: Val, x: Name, f: Facts, types: Types)
    requires Shapely(f) && CopyInstr(v, x) in f && v != Var(x) && v.Var?
    ensures Functional(f) && Var(x) !in ReplaceArgs(args, f, types)
  {
    hide ReplaceOperandTyped, Shapely;
    ShapelyFunctional(f);
    forall k | 0 <= k < |args|
      ensures ReplaceOperandTyped(args[k], f, types) != Var(x)
    {
      OperandMoves(args[k], v, x, f, types);
    }
  }

  lemma CopyMoves(i: Instr, v: Val, x: Name, f: Facts, types: Types)
    requires Shapely(f) && CopyInstr(v, x) in f && v != Var(x) && i.Copy? && Rewrite(i, f, types).Some?
    ensures var j := Rewrite(i, f, types).value; j != Copy(v, x) && !ReadsVar(j, x)
  {
    hide ReplaceOperand;
    OperandMoves(i.src, v, x, f, types);
  }

  lemma BinaryMoves(i: Instr, v: Val, x: Name, f: Facts, types: Types)
    requires Shapely(f) && CopyInstr(v, x) in f && v != Var(x) && i.Binary?
    ensures var j := Rewrite(i, f, types).value; (v.Var? ==> !ReadsVar(j, x)) && !ReadsUntyped(j, x)
  {
    hide ReplaceOperand, ReplaceOperandTyped;
    OperandMoves(i.left, v, x, f, types);
    OperandMoves(i.right, v, x, f, types);
  }

  lemma OtherMoves(i: Instr, v: Val, x: Name, f: Facts, types: Types)
    requires Shapely(f) && CopyInstr(v, x) in f && v != Var(x) && !i.Copy? && !i.Binary?
    ensures var j := Rewrite(i, f, types).value;
      (v.Var? && !j.GetAddress? ==> !ReadsVar(j, x)) && !ReadsUntyped(j, x)
  {
    hide ReplaceOperand, ReplaceOperandTyped, ReplaceNamedSource, ReplaceArgs;
    forall w
      ensures ReplaceOperand(w, f) != Var(x) && (v.Var? ==> ReplaceOperandTyped(w, f, types) != Var(x))
      ensures v.Var? ==> forall y :: ReplaceNamedSource(y, f) != x
    {
      OperandMoves(w, v, x, f, types);
    }
    if i.FunCall? && v.Var? {
      ArgsMove(i.args, v, x, f, types);
      OperandMoves(Var(i.callee), v, x, f, types);
    }
    if i.CopyFromOffset? && v.Var? {
      OperandMoves(Var(i.srcName), v, x, f, types);
    }
  }

  /** Nothing is rewritten to read a variable that the facts give another value for. */
  lemma RewrittenMoves(i: Instr, v: Val, x: Name, f: Facts, types: Types)
    requires Shapely(f) && CopyInstr(v, x) in f && v != Var(x) && Rewrite(i, f, types).Some?
    ensures var j := Rewrite(i, f, types).value;
      && j != Copy(v, x) && (v.Var? && !j.GetAddress? ==> !ReadsVar(j, x)) && !ReadsUntyped(j, x)
  {
    hide Rewrite, Shapely;
    ShapelyFunctional(f);
    if i.Copy? {
      CopyMoves(i, v, x, f, types);
      CopyStaysCopy(i, f, types);
    } else if i.Binary? {
      BinaryMoves(i, v, x, f, types);
      CopyStaysCopy(i, f, types);
    } else {
      OtherMoves(i, v, x, f, types);
      CopyStaysCopy(i, f, types);
    }
  }

  lemma CopyStaysCopy(i: Instr, f: Facts, types: Types)
    requires Functional(f) && Rewrite(i, f, types).Some?
    ensures Rewrite(i, f, types).value.Copy? <==> i.Copy?
    ensures Rewrite(i, f, types).value.Copy? ==>
      var j := Rewrite(i, f, types).value;
      && j.src != Var(j.dst) && !(j.src.Var? && CopyInstr(Var(j.dst), j.src.name) in f)
  {
    hide ReplaceOperand, ReplaceOperandTyped;
  }

  lemma BlockUses(instrs: seq<Instr>, f: Facts, aliased: set<Name>, types: Types, p: nat, q: nat)
    requires Shapely(f) && p < q < |RewriteBlock(instrs, f, aliased, types)|
    ensures CopyUsed(RewriteBlock(instrs, f, aliased, types), p, q, aliased, types)
  {
    hide RewriteBlock, Rewrite, TransferCopies, TransferCopy, Shapely, StillCopied, ReadsVar, ReadsUntyped;
    var r := RewriteBlock(instrs, f, aliased, types);
    if r[p].Copy? && Propagates(r[p].src, r[p].dst, types)
      && StillCopied(r, p + 1, q, r[p].src, r[p].dst, aliased)
    {
      var v, x := r[p].src, r[p].dst;
      var i := EmittedThrough(instrs, f, aliased, types, p);
      var g := TransferCopies(r[..p], f, aliased, types);
      ShapelyFunctional(g);
      CopyStaysCopy(i, g, types);
      Recorded(v, x, g, aliased, types);
      assert r[..p + 1] == r[..p] + [r[p]];
      TransfersSnoc(r[..p], r[p], f, aliased, types);
      StillRecorded(r, p + 1, q, v, x, f, aliased, types);
      var j := EmittedThrough(instrs, f, aliased, types, q);
      RewrittenMoves(j, v, x, TransferCopies(r[..q], f, aliased, types), types);
    }
  }

  /** In a block that the pass has rewritten every copy is used. */
  lemma RewrittenUses(instrs: seq<Instr>, f: Facts, aliased: set<Name>, types: Types)
    requires Shapely(f)
    ensures CopiesUsed(RewriteBlock(instrs, f, aliased, types), aliased, types)
  {
    hide RewriteBlock, Rewrite, TransferCopies, Shapely, CopyUsed;
    var r := RewriteBlock(instrs, f, aliased, types);
    forall p, q | 0 <= p < q < |r|
      ensures CopyUsed(r, p, q, aliased, types)
    {
      BlockUses(instrs, f, aliased, types, p, q);
    }
    forall q, x | 0 <= q < |r|
      ensures r[q] != Copy(Var(x), x)
    {
      var i := EmittedThrough(instrs, f, aliased, types, q);
      ShapelyFunctional(TransferCopies(r[..q], f, aliased, types));
      CopyStaysCopy(i, TransferCopies(r[..q], f, aliased, types), types);
    }
  }
}
