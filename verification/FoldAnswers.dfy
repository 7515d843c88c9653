/** What constant folding emits for operands that are known, told in numbers: it never leaves such an
    instruction as it is. */
module FoldAnswers {
  import opened Tacky
  import opened Semantics
  import opened BinaryIdentities
  import opened FoldRules
  import opened FoldSoundness
  import opened IntegerAnswers

  // ----- operands that are known -----

  /** A literal that is computed with at a type; wide literals are at wide types only. */
  predicate LiteralAt(ty: CType, v: Val, n: int) {
    v == Constant(n) || (ty in {Int128, UInt128} && (v == Int128Constant(n) || v == UInt128Constant(n)))
  }

  /** The literal that is written for a number of a type. */
  predicate WrittenFor(ty: CType, v: Val, n: int) {
    match ty
    case Int128 => v == Int128Constant(n)
    case UInt128 => v == UInt128Constant(n)
    case _ => v == Constant(n)
  }

  /** Nothing in between assigns the variable, may be jumped to, calls or stores. */
  predicate Undisturbed(body: seq<Instr>, from: nat, to: nat, x: Name)
    requires to <= |body|
  {
    forall p :: from <= p < to ==>
      !body[p].Label? && !body[p].FunCall? && !body[p].Store? && DefinedVar(body[p]) != Some(x)
  }

  /** A literal that may be known of a variable of its type. */
  predicate RecordedAs(types: Types, x: Name, lit: Val) {
    || lit.Constant?
    || (lit.Int128Constant? && x in types && types[x].Int128?)
    || (lit.UInt128Constant? && x in types && types[x].UInt128?)
  }

  /** Before position `k` the variable was given the literal, or a copy of a variable of its type that
      had been, and nothing disturbed that. */
  ghost predicate Reaches(types: Types, body: seq<Instr>, folded: seq<Instr>, k: nat, x: Name, lit: Val)
    requires |folded| == |body| && k <= |body|
    decreases k
  {
    exists j {:trigger folded[j]} :: 0 <= j < k && Undisturbed(body, j + 1, k, x) &&
      if folded[j].Copy? && folded[j].src.Var? then
        var y := folded[j].src.name;
        folded[j].dst == x && TypeOf(types, y) == TypeOf(types, x) && Reaches(types, body, folded, j, y, lit)
      else folded[j] == Copy(lit, x) && RecordedAs(types, x, lit)
  }

  /** The operand is this literal, or a variable that it reaches. */
  ghost predicate KnownAs(types: Types, body: seq<Instr>, folded: seq<Instr>, k: nat, v: Val, lit: Val)
    requires |folded| == |body| && k <= |body|
  {
    ConstantOf(lit).Some? && (v == lit || (v.Var? && Reaches(types, body, folded, k, v.name, lit)))
  }

  /** The same, of the record the scan keeps. */
  predicate OnRecord(types: Types, m: Constants, v: Val, lit: Val) {
    ConstantOf(lit).Some? && (v == lit || (v.Var? && v.name in m && m[v.name] == Known(lit, TypeOf(types, v.name))))
  }

  // ----- what must be emitted -----

  /** The type the operator works at. */
  function WorksAt(types: Types, i: Instr): CType
    requires i.Binary?
  {
    if IsComparison(i.bop) then Common(ValType(types, i.left), ValType(types, i.right)) else TypeOf(types, i.dst)
  }

  /** A comparison gives 0 or 1. */
  function ResultType(op: BinaryOp, ty: CType): CType {
    if IsComparison(op) then Int else ty
  }

  /** Two known operands: a copy of the literal for what the operator gives on their numbers. */
  ghost predicate BinaryAnswered(types: Types, i: Instr, v: Val, w: Val, f: Instr)
    requires i.Binary?
  {
    var ty := WorksAt(types, i);
    forall a, b, x, y ::
      ty in {Int, UInt, Long, ULong, Int128, UInt128} && LiteralAt(ty, v, a) && LiteralAt(ty, w, b)
        && IsNumber(ty, x, a) && IsNumber(ty, y, b) && (i.bop in {Div, Mod} ==> y != 0) ==>
        exists n :: Gives(i.bop, ty, x, y, n) && IsLiteralCopy(ResultType(i.bop, ty), n, i.dst, f)
  }

  /** A copy of the literal for a number in range of its type. */
  predicate IsLiteralCopy(ty: CType, n: int, x: Name, f: Instr) {
    f.Copy? && f.dst == x && WrittenFor(ty, f.src, n) && IsHeld(ty, n, n)
  }

  /** Signs and complements are computed at 64 bits, or at a wide type. */
  function SettledType(ty: CType): CType {
    if ty in {Int128, UInt128} then ty else Long
  }

  /** The literal for the number with these bits. */
  ghost predicate IsSettledLiteral(ty: CType, v: Val, z: int) {
    exists n :: WrittenFor(SettledType(ty), v, n) && IsNumber(SettledType(ty), n, z)
  }

  /** A known operand of a sign or complement: the literal for it; of a logical negation: 1 for 0, and 0
      for anything else. */
  ghost predicate UnaryAnswered(types: Types, i: Instr, v: Val, f: Instr)
    requires i.Unary?
  {
    forall a :: LiteralAt(TypeOf(types, i.dst), v, a) ==>
      && f.Copy? && f.dst == i.dst
      && (i.uop.Negate? ==> IsSettledLiteral(TypeOf(types, i.dst), f.src, -a))
      && (i.uop.Complement? ==> IsSettledLiteral(TypeOf(types, i.dst), f.src, -1 - a))
      && (i.uop.LogicalNot? ==> f.src == Constant(if a == 0 then 1 else 0))
  }

  /** A branch on a known operand is a jump or nothing. */
  predicate BranchAnswered(i: Instr, lit: Val, f: Instr) {
    && (i.JumpIfZero? ==> f == if ConstantOf(lit) == Some(0) then Jump(i.target) else Nop)
    && (i.JumpIfNotZero? ==> f == if ConstantOf(lit) == Some(0) then Nop else Jump(i.target))
  }

  /** The other uses of a known operand: a conversion between integers becomes a copy of a literal, a
      return and a load read the literal. */
  predicate UseAnswered(i: Instr, lit: Val, f: Instr) {
    && (i.Convert? && i.kind in {Truncate, SignExtend, ZeroExtend} ==>
          f.Copy? && f.dst == i.dst && ConstantOf(f.src).Some?)
    && (i.Return? ==> f == Return(lit))
    && (i.Load? ==> f == Load(lit, i.dst))
  }

  // ----- one instruction -----

  lemma Resolves(types: Types, m: Constants, v: Val, lit: Val)
    requires OnRecord(types, m, v, lit)
    ensures ResolveVal(v, m) == lit && ResolveType(types, v, m) == ValType(types, v)
  {
  }

  lemma FoldableLiteral(ty: CType, v: Val, a: int)
    requires LiteralAt(ty, v, a)
    ensures Foldable(ty, v) == Some(a)
  {
  }

  lemma WrittenConstant(ty: CType, n: int, x: Name)
    requires IsPromoted(ty)
    ensures IsLiteralCopy(ty, Held(ty, n), x, Copy(FoldedConstant(ty, n), x))
  {
    hide Canon, IsHeld, Held;
    HeldResidue(ty, n);
    HeldIsHeld(ty, Held(ty, n));
  }

  lemma EvaluateAnswers(op: BinaryOp, ty: CType, a: int, b: int, x: int, y: int, dst: Name) returns (n: int)
    requires IsPromoted(ty) && IsNumber(ty, x, a) && IsNumber(ty, y, b) && (op in {Div, Mod} ==> y != 0)
    ensures Evaluate(op, ty, a, b).Some? && Gives(op, ty, x, y, n)
    ensures IsLiteralCopy(ResultType(op, ty), n, dst, Copy(Evaluate(op, ty, a, b).value, dst))
  {
    hide Gives, Arith, Canon, Held, IsNumber, FoldedConstant, Congruent, Related;
    NumberUnique(ty, x, a);
    NumberUnique(ty, y, b);
    if IsComparison(op) {
      n := if Related(op, x, y) then 1 else 0;
      RelatedGives(op, ty, x, y);
      assert IsNumber(Int, n, n) by { TrivialNumber(n); }
    } else {
      n := Held(ty, Arith(op, ty, a, b));
      HeldResidue(ty, Arith(op, ty, a, b));
      CongruentIffResidue(ty, n, Arith(op, ty, a, b));
      ArithGives(op, ty, a, b, x, y, n);
      WrittenConstant(ty, Arith(op, ty, a, b), dst);
    }
  }

  lemma TrivialNumber(n: int)
    requires n == 0 || n == 1
    ensures IsNumber(Int, n, n)
  {
  }

  lemma EvaluatedIsEmitted(types: Types, op: BinaryOp, l: Val, r: Val, x: Name, hint: CType, a: int, b: int)
    requires var ty := if IsComparison(op) then hint else TypeOf(types, x);
      && IsPromoted(ty) && LiteralAt(ty, l, a) && LiteralAt(ty, r, b) && Evaluate(op, ty, a, b).Some?
    ensures var ty := if IsComparison(op) then hint else TypeOf(types, x);
      FoldBinary(types, op, l, r, x, hint) == Copy(Evaluate(op, ty, a, b).value, x)
  {
    hide Simplify, Evaluate, LiteralAt, Foldable;
    var ty := if IsComparison(op) then hint else TypeOf(types, x);
    FoldableLiteral(ty, l, a);
    FoldableLiteral(ty, r, b);
  }

  lemma BinaryAnswers(types: Types, m: Constants, i: Instr, v: Val, w: Val)
    requires i.Binary? && OnRecord(types, m, i.left, v) && OnRecord(types, m, i.right, w)
    ensures BinaryAnswered(types, i, v, w, FoldOne(types, m, i))
  {
    hide LiteralAt, IsNumber, Gives, IsLiteralCopy, FoldOne, FoldBinary, OnRecord, Common, Evaluate, ResolveVal,
      ResolveType;
    var ty := WorksAt(types, i);
    Resolves(types, m, i.left, v);
    Resolves(types, m, i.right, w);
    FoldOneBinary(types, m, i);
    forall a, b, x, y | ty in {Int, UInt, Long, ULong, Int128, UInt128} && LiteralAt(ty, v, a) && LiteralAt(ty, w, b)
        && IsNumber(ty, x, a) && IsNumber(ty, y, b) && (i.bop in {Div, Mod} ==> y != 0)
      ensures exists n ::
        Gives(i.bop, ty, x, y, n)
        && IsLiteralCopy(ResultType(i.bop, ty), n, i.dst, FoldOne(types, m, i))
    {
      var n := EvaluateAnswers(i.bop, ty, a, b, x, y, i.dst);
      EvaluatedIsEmitted(types, i.bop, v, w, i.dst, Hint(types, m, i), a, b);
    }
  }

  lemma UnaryAnswers(types: Types, m: Constants, i: Instr, v: Val)
    requires i.Unary? && OnRecord(types, m, i.src, v)
    ensures UnaryAnswered(types, i, v, FoldOne(types, m, i))
  {
    hide Canon, Held, IsNumber, ResolveVal, OnRecord, LiteralAt, Foldable;
    var ty := TypeOf(types, i.dst);
    Resolves(types, m, i.src, v);
    var f := FoldOne(types, m, i);
    hide IsSettledLiteral;
    forall a | LiteralAt(ty, v, a)
      ensures f.Copy? && f.dst == i.dst
      ensures i.uop.Negate? ==> IsSettledLiteral(TypeOf(types, i.dst), f.src, -a)
      ensures i.uop.Complement? ==> IsSettledLiteral(TypeOf(types, i.dst), f.src, -1 - a)
      ensures i.uop.LogicalNot? ==> f.src == Constant(if a == 0 then 1 else 0)
    {
      FoldableLiteral(ty, v, a);
      UnsettledNumber(ty, -a);
      UnsettledNumber(ty, -1 - a);
    }
  }

  lemma UnsettledNumber(ty: CType, n: int)
    ensures IsSettledLiteral(ty, Unsettled(ty, n), n)
  {
    hide IsNumber, Canon;
    CanonIsNumber(SettledType(ty), n);
    assert WrittenFor(SettledType(ty), Unsettled(ty, n), Canon(SettledType(ty), n));
  }

  lemma BranchAnswers(types: Types, m: Constants, i: Instr, lit: Val)
    requires (i.JumpIfZero? || i.JumpIfNotZero?) && OnRecord(types, m, i.cond, lit)
    ensures BranchAnswered(i, lit, FoldOne(types, m, i))
  {
    hide ResolveVal;
    Resolves(types, m, i.cond, lit);
  }

  lemma UseAnswers(types: Types, m: Constants, i: Instr, v: Val, lit: Val)
    requires OnRecord(types, m, v, lit)
    requires (i.Convert? && i.src == v) || (i.Return? && i.val == v) || (i.Load? && i.srcPtr == v)
    ensures UseAnswered(i, lit, FoldOne(types, m, i))
  {
    hide ResolveVal, Widened, CastWide, Hint;
    Resolves(types, m, v, lit);
  }

  // ----- one operand known -----

  /** A binary instruction on a variable of unknown value and a known second operand. */
  predicate HalfKnown(types: Types, m: Constants, i: Instr, lit: Val) {
    && i.Binary? && i.left.Var? && i.left.name !in m && OnRecord(types, m, i.right, lit)
    && TypeOf(types, i.dst) in {Int, UInt, Long, ULong, Int128, UInt128}
    && i.left.name in types && types[i.left.name] == TypeOf(types, i.dst)
  }

  lemma HalfKnownFolds(types: Types, m: Constants, i: Instr, lit: Val)
    requires HalfKnown(types, m, i, lit) && !IsComparison(i.bop)
    ensures var s := Simplify(i.bop, i.left, lit, i.dst, TypeOf(types, i.dst), types);
      s.Some? && (s.value.Copy? || !TypeSensitive(i.bop)) ==> FoldOne(types, m, i) == s.value
  {
    hide Simplify, Evaluate, OnRecord, Hint, EvalType;
    FoldOneBinary(types, m, i);
    Resolves(types, m, i.right, lit);
  }

  /** Zero and one as the second operand leave nothing to compute. */
  lemma NeutralOperands(types: Types, m: Constants, i: Instr, lit: Val)
    requires HalfKnown(types, m, i, lit)
    ensures ConstantOf(lit) == Some(0) && i.bop in {Add, Sub, BitwiseOr, BitwiseXor, ShiftLeft, ShiftRight} ==>
      FoldOne(types, m, i) == Copy(i.left, i.dst)
    ensures ConstantOf(lit) == Some(1) && i.bop in {Mul, Div} ==> FoldOne(types, m, i) == Copy(i.left, i.dst)
    ensures (ConstantOf(lit) == Some(0) && i.bop in {Mul, BitwiseAnd}) || (ConstantOf(lit) == Some(1) && i.bop.Mod?) ==>
      IsLiteralCopy(TypeOf(types, i.dst), 0, i.dst, FoldOne(types, m, i))
  {
    hide FoldOne, IntegerConstant, CastWide, ShiftCount, OnRecord, IsLiteralCopy;
    if !IsComparison(i.bop) && (ConstantOf(lit) == Some(0) || ConstantOf(lit) == Some(1)) {
      HalfKnownFolds(types, m, i, lit);
      NoShift(lit, TypeOf(types, i.dst));
      NoShift(i.left, TypeOf(types, i.dst));
      assert IsPromoted(TypeOf(types, i.dst));
      ZeroWritten(TypeOf(types, i.dst), i.dst);
    }
  }

  lemma ZeroWritten(ty: CType, x: Name)
    requires IsPromoted(ty)
    ensures IsLiteralCopy(ty, 0, x, Copy(IntegerConstant(ty, 0), x))
  {
    hide Pow2, Residue, Canon, IsHeld, Held;
    SmallNumbers(ty);
    SmallNumbers(Long);
    SmallHeld(ty);
    HeldIsHeld(ty, 0);
  }

  lemma NoShift(lit: Val, ty: CType)
    requires lit.Var? || ConstantOf(lit) == Some(0) || ConstantOf(lit) == Some(1)
    ensures ShiftCount(lit, ty).None?
  {
    hide Pow2, Residue, Canon;
    SmallNumbers(UInt);
    SmallNumbers(ULong);
    SmallNumbers(UInt128);
  }

  /** On unsigned numbers, a power of two as the second operand makes a shift of a product or quotient,
      and a mask of a remainder. */
  lemma PowersReduced(types: Types, m: Constants, i: Instr, lit: Val, a: int, k: nat)
    requires HalfKnown(types, m, i, lit) && TypeOf(types, i.dst) in {UInt, ULong, UInt128}
    requires WrittenFor(TypeOf(types, i.dst), lit, a) && k > 0 && IsNumber(TypeOf(types, i.dst), Pow2(k), a)
    ensures i.bop.Mul? ==> FoldOne(types, m, i) == Binary(ShiftLeft, i.left, Constant(k), i.dst)
    ensures i.bop.Div? ==> FoldOne(types, m, i) == Binary(ShiftRight, i.left, Constant(k), i.dst)
    ensures i.bop.Mod? ==> exists mask ::
      ConstantOf(mask).Some? && IsNumber(TypeOf(types, i.dst), Pow2(k) - 1, ConstantOf(mask).value)
      && FoldOne(types, m, i) == Binary(BitwiseAnd, i.left, mask, i.dst)
  {
    hide IsNumber, Pow2, Canon, FoldOne, OnRecord, IntegerConstant, SpecialOperand, ShiftCount, SameOperands;
    var ty := TypeOf(types, i.dst);
    if i.bop.Mul? || i.bop.Div? || i.bop.Mod? {
      HalfKnownFolds(types, m, i, lit);
      PowerCounted(ty, lit, a, k);
      MaskWritten(ty, k, a);
    }
  }

  lemma PowerCounted(ty: CType, lit: Val, a: int, k: nat)
    requires ty in {UInt, ULong, UInt128} && WrittenFor(ty, lit, a) && k > 0 && IsNumber(ty, Pow2(k), a)
    ensures ShiftCount(lit, ty) == Some(k)
  {
    hide IsNumber, Pow2, Residue, Canon, Log2;
    NumberUnique(ty, Pow2(k), a);
    UnsignedCanon(ty, a);
    Log2Powers(Pow2(k), k);
  }

  lemma MaskWritten(ty: CType, k: nat, a: int)
    requires ty in {UInt, ULong, UInt128} && IsNumber(ty, Pow2(k), a)
    ensures var mask := IntegerConstant(ty, Pow2(k) - 1);
      ConstantOf(mask).Some? && IsNumber(ty, Pow2(k) - 1, ConstantOf(mask).value)
  {
    hide Pow2, Residue, Canon, Modulus, IntegerConstant;
    ConstantResidue(ty, Pow2(k) - 1);
    CongruentIffResidue(ty, Pow2(k) - 1, ConstantOf(IntegerConstant(ty, Pow2(k) - 1)).value);
  }

  /** A binary instruction on a known first operand and a variable of unknown value. */
  predicate HalfKnownLeft(types: Types, m: Constants, i: Instr, lit: Val) {
    && i.Binary? && i.right.Var? && i.right.name !in m && OnRecord(types, m, i.left, lit)
    && TypeOf(types, i.dst) in {Int, UInt, Long, ULong, Int128, UInt128}
    && i.right.name in types && types[i.right.name] == TypeOf(types, i.dst)
  }

  lemma HalfKnownLeftFolds(types: Types, m: Constants, i: Instr, lit: Val)
    requires HalfKnownLeft(types, m, i, lit) && !IsComparison(i.bop)
    ensures var s := Simplify(i.bop, lit, i.right, i.dst, TypeOf(types, i.dst), types);
      s.Some? && (s.value.Copy? || !TypeSensitive(i.bop)) ==> FoldOne(types, m, i) == s.value
  {
    hide Simplify, Evaluate, OnRecord, Hint, EvalType;
    FoldOneBinary(types, m, i);
    Resolves(types, m, i.left, lit);
  }

  /** Zero and one as the first operand. */
  lemma NeutralFirstOperands(types: Types, m: Constants, i: Instr, lit: Val)
    requires HalfKnownLeft(types, m, i, lit)
    ensures ConstantOf(lit) == Some(0) && i.bop in {Add, BitwiseOr, BitwiseXor} ==>
      FoldOne(types, m, i) == Copy(i.right, i.dst)
    ensures ConstantOf(lit) == Some(1) && i.bop.Mul? ==> FoldOne(types, m, i) == Copy(i.right, i.dst)
    ensures ConstantOf(lit) == Some(0) && i.bop in {Mul, Div, Mod, BitwiseAnd, ShiftLeft, ShiftRight} ==>
      IsLiteralCopy(TypeOf(types, i.dst), 0, i.dst, FoldOne(types, m, i))
  {
    hide FoldOne, IntegerConstant, CastWide, ShiftCount, OnRecord, IsLiteralCopy;
    if !IsComparison(i.bop) && (ConstantOf(lit) == Some(0) || ConstantOf(lit) == Some(1)) {
      HalfKnownLeftFolds(types, m, i, lit);
      NoShift(lit, TypeOf(types, i.dst));
      NoShift(i.right, TypeOf(types, i.dst));
      assert IsPromoted(TypeOf(types, i.dst));
      ZeroWritten(TypeOf(types, i.dst), i.dst);
    }
  }

  /** An operand combined with itself, of unknown value. */
  predicate Twice(types: Types, m: Constants, i: Instr) {
    && i.Binary? && i.left.Var? && i.right == i.left && i.left.name !in m
    && i.left.name in types && types[i.left.name] in {Int, UInt, Long, ULong, Int128, UInt128}
  }

  /** It leaves nothing to compute, or only a complement. */
  lemma TwiceFolds(types: Types, m: Constants, i: Instr)
    requires Twice(types, m, i) && TypeOf(types, i.dst) == types[i.left.name]
    ensures i.bop in {Sub, BitwiseXor} ==> IsLiteralCopy(TypeOf(types, i.dst), 0, i.dst, FoldOne(types, m, i))
    ensures i.bop in {BitwiseAnd, BitwiseOr} ==> FoldOne(types, m, i) == Copy(i.left, i.dst)
    ensures i.bop.BitwiseNand? ==> FoldOne(types, m, i) == Unary(Complement, i.left, i.dst)
  {
    hide IntegerConstant, CastWide, ShiftCount, IsLiteralCopy, Hint, Evaluate, SpecialOperand, ReducePower;
    FoldOneBinary(types, m, i);
    hide FoldOne;
    assert IsPromoted(TypeOf(types, i.dst));
    ZeroWritten(TypeOf(types, i.dst), i.dst);
  }

  /** A comparison of an operand with itself is decided. */
  lemma TwiceCompares(types: Types, m: Constants, i: Instr)
    requires Twice(types, m, i)
    ensures i.bop in {Equal, LessEqual, GreaterEqual} ==> FoldOne(types, m, i) == Copy(Constant(1), i.dst)
    ensures i.bop in {NotEqual, LessThan, GreaterThan} ==> FoldOne(types, m, i) == Copy(Constant(0), i.dst)
  {
    hide Evaluate, SpecialOperand, ReducePower, SameOperands;
    FoldOneBinary(types, m, i);
    hide FoldOne;
    assert IsComparison(i.bop) ==> Hint(types, m, i) == types[i.left.name];
  }

  /** A known distance is put into bytes; none at all leaves the pointer. */
  lemma DistanceAnswers(types: Types, m: Constants, i: Instr, p: Val, n: int, offset: int)
    requires i.AddPtr? && OnRecord(types, m, i.index, Constant(n)) && IsNumber(Long, offset, n * i.scale)
    requires p == i.ptr && (p.Var? ==> p.name !in m)
    ensures offset == 0 ==> FoldOne(types, m, i) == Copy(p, i.dst)
    ensures offset != 0 && i.scale != 1 ==> FoldOne(types, m, i) == AddPtr(p, Constant(offset), 1, i.dst)
  {
    hide Canon, IsNumber, OnRecord;
    NumberUnique(Long, offset, n * i.scale);
    Resolves(types, m, i.index, Constant(n));
  }
}
