/** Every instruction that constant folding rewrites leaves the state the original leaves, as long as
    the recorded constants agree with their variables. */
module FoldSoundness {
  import opened Tacky
  import opened Semantics
  import opened Arithmetic
  import opened BinaryIdentities
  import opened FoldRules

  // ----- numbers and what is held of them -----

  lemma HeldResidue(ty: CType, n: int)
    requires IsPromoted(ty)
    ensures Residue(ty, Held(ty, n)) == Residue(ty, n) && Canon(ty, Held(ty, n)) == Canon(ty, n)
    ensures Held(ty, Held(ty, n)) == Held(ty, n)
  {
    CanonResidue(if ty.ULong? then Long else ty, n);
    hide Pow2;
    SameCanon(ty, Held(ty, n), n);
    SameHeld(ty, Held(ty, n), n);
  }

  lemma ResidueHeld(ty: CType, a: int, b: int)
    requires IsPromoted(ty) && Residue(ty, a) == Residue(ty, b)
    ensures Held(ty, a) == Held(ty, b) && Canon(ty, a) == Canon(ty, b)
  {
    hide Residue, Held;
    SameCanon(ty, a, b);
    SameHeld(ty, a, b);
  }

  /** Numbers with the same low bits differ by a multiple of the modulus. */
  lemma ResidueApart(ty: CType, a: int, b: int) returns (q: int)
    requires IsPromoted(ty) && Residue(ty, a) == Residue(ty, b)
    ensures a == b + Pow2(Width(ty)) * q
  {
    hide Pow2, Residue;
    var s := Decompose(ty, a);
    var t := Decompose(ty, b);
    q := s - t;
    var m := Pow2(Width(ty));
    assert m * (s - t) == m * s - m * t;
  }

  lemma NegationSame(ty: CType, a: int, b: int)
    requires IsPromoted(ty) && Residue(ty, a) == Residue(ty, b)
    ensures Residue(ty, -a) == Residue(ty, -b) && Residue(ty, -1 - a) == Residue(ty, -1 - b)
  {
    hide Pow2, Residue, Width;
    var q := ResidueApart(ty, a, b);
    var m := Pow2(Width(ty));
    assert m * -q == -(m * q);
    ResidueShift(ty, -b, -q);
    ResidueShift(ty, -1 - b, -q);
  }

  /** A wider type's residue determines a narrower one's. */
  lemma ResidueNarrows(ty: CType, a: int, b: int)
    requires IsPromoted(ty) && Residue(Int128, a) == Residue(Int128, b)
    ensures Residue(ty, a) == Residue(ty, b)
  {
    hide Pow2;
    var q := ResidueApart(Int128, a, b);
    PowSum(Width(ty), 128 - Width(ty));
    NestedResidue(a, b, Pow2(Width(ty)), Pow2(128 - Width(ty)), q);
  }

  lemma WidthIsPower(ty: CType) returns (k: nat)
    requires IsPromoted(ty)
    ensures k <= 7 && Width(ty) == Pow2(k)
  {
    assert Pow2(2) == 4;
    assert Pow2(4) == 16;
    assert Pow2(6) == 64;
    k := if Size(ty) == 4 then 5 else if Size(ty) == 8 then 6 else 7;
  }

  /** Shift counts only depend on the low bits. */
  lemma CountSame(ty: CType, u: CType, a: int, b: int)
    requires IsPromoted(ty) && IsPromoted(u) && Residue(u, a) == Residue(u, b)
    ensures a % Width(ty) == b % Width(ty)
  {
    var k := WidthIsPower(ty);
    hide Pow2, Residue;
    var q := ResidueApart(u, a, b);
    PowSum(k, Width(u) - k);
    NestedResidue(a, b, Pow2(k), Pow2(Width(u) - k), q);
  }

  // ----- operands -----

  /** What resolving an operand of arithmetic at `ty` does to its number. */
  ghost predicate SameOperand(ty: CType, v: Val, w: Val, env: Env, a: int, b: int)
    requires IsPromoted(ty)
  {
    HasNumber(v, env, a) && HasNumber(w, env, b) && Residue(ty, a) == Residue(ty, b)
  }

  lemma EntryNumber(types: Types, m: Constants, v: Val, env: Env) returns (n: int)
    requires EntriesHold(types, m, env) && IsKnownVar(v, m)
    ensures var ty := TypeOf(types, v.name);
      Storable(ty) && m[v.name].valueType == ty && EvalVal(v, env) == Num(Held(ty, n))
      && ConstantOf(m[v.name].value) == Some(n) && (!IsWide(ty) ==> m[v.name].value == Constant(n))
    ensures HasNumber(ResolveVal(v, m), env, n)
  {
    hide Held, Storable;
    assert EntryHolds(types, m[v.name], v.name, env);
    n := ConstantOf(m[v.name].value).value;
  }

  lemma ResolvedOperand(types: Types, m: Constants, v: Val, ty: CType, env: Env) returns (b: int)
    requires EntriesHold(types, m, env) && OperandOf(types, m, v, ty) && IsPromoted(ty) && EvalVal(v, env).Num?
    ensures SameOperand(ty, v, ResolveVal(v, m), env, EvalVal(v, env).n, b)
  {
    hide Pow2, Residue, Canon, Held, Width, EntriesHold;
    b := EvalVal(v, env).n;
    if IsKnownVar(v, m) {
      b := EntryNumber(types, m, v, env);
      HeldResidue(ty, b);
    }
  }

  lemma ResolvedCount(types: Types, m: Constants, v: Val, ty: CType, env: Env) returns (b: int)
    requires EntriesHold(types, m, env) && IsPromoted(ty) && EvalVal(v, env).Num?
    requires IsKnownVar(v, m) ==> IsPromoted(TypeOf(types, v.name))
    ensures HasNumber(ResolveVal(v, m), env, b) && b % Width(ty) == EvalVal(v, env).n % Width(ty)
  {
    hide Pow2, Residue, Canon, Held, Width, EntriesHold;
    b := EvalVal(v, env).n;
    if IsKnownVar(v, m) {
      b := EntryNumber(types, m, v, env);
      HeldResidue(TypeOf(types, v.name), b);
      CountSame(ty, TypeOf(types, v.name), Held(TypeOf(types, v.name), b), b);
    }
  }

  /** Arithmetic depends on the low bits of its operands only. */
  lemma ArithSame(op: BinaryOp, ty: CType, a: int, a': int, b: int, b': int)
    requires IsPromoted(ty) && Residue(ty, a) == Residue(ty, a')
    requires if op.ShiftLeft?
      || op.ShiftRight? then b % Width(ty) == b' % Width(ty) else Residue(ty, b) == Residue(ty, b')
    ensures Arith(op, ty, a, b) == Arith(op, ty, a', b')
  {
    SameCanon(ty, a, a');
    if Residue(ty, b) == Residue(ty, b') {
      SameCanon(ty, b, b');
    }
    hide Pow2, Canon, Residue, Width, BitAnd, BitOr, BitXor, BitShiftLeft, BitShiftRight, TruncDiv, TruncMod;
  }

  // ----- arithmetic -----

  predicate IsShift(op: BinaryOp) {
    op.ShiftLeft? || op.ShiftRight?
  }

  /** An arithmetic instruction with resolved operands, `a` and `b` before and `a'` and `b'` after. */
  ghost predicate Resolved(c: Ctx, op: BinaryOp, l: Val, r: Val, l': Val, r': Val, x: Name, d: Data,
                           a: int, b: int, a': int, b': int)
  {
    && Operands(c, op, l, r, x, d, a, b) && Operands(c, op, l', r', x, d, a', b')
    && Arith(op, TypeOf(c.types, x), a, b) == Arith(op, TypeOf(c.types, x), a', b')
  }

  lemma ResolvedSame(c: Ctx, op: BinaryOp, l: Val, r: Val, l': Val, r': Val, x: Name, d: Data, a: int, b: int,
        a': int, b': int)
    requires Resolved(c, op, l, r, l', r', x, d, a, b, a', b')
    ensures Exec(c, Binary(op, l', r', x), d) == Exec(c, Binary(op, l, r, x), d)
  {
    hide IntegerMachine, Sets, Exec, Arith, Canon, HasNumber;
    OriginalSets(c, op, l, r, x, d, a, b);
    OriginalSets(c, op, l', r', x, d, a', b');
    SetsSame(c, Binary(op, l', r', x), Binary(op, l, r, x), d, x, Arith(op, TypeOf(c.types, x), a', b'),
      Arith(op, TypeOf(c.types, x), a, b));
  }

  lemma FoldedHolds(ty: CType, n: int, env: Env)
    requires IsPromoted(ty)
    ensures HasNumber(FoldedConstant(ty, n), env, Held(ty, n))
  {
  }

  /** Copying the folded constant of `n` leaves `n`. */
  lemma FoldedSets(c: Ctx, n: int, x: Name, d: Data)
    requires IntegerMachine(c.machine) && IsPromoted(TypeOf(c.types, x))
    ensures Sets(c, Copy(FoldedConstant(TypeOf(c.types, x), n), x), d, x, n)
  {
    var ty := TypeOf(c.types, x);
    var v := FoldedConstant(ty, n);
    FoldedHolds(ty, n, d.env);
    CopyLeaves(c, v, x, d, Held(ty, n));
    HeldResidue(ty, n);
    hide IntegerMachine, FoldedConstant, Held, Canon, Residue;
    LeavesSame(c, Copy(v, x), d, ty, Held(ty, n), n);
  }

  lemma EvaluatedSame(c: Ctx, op: BinaryOp, l: Val, r: Val, x: Name, d: Data, a: int, b: int)
    requires Operands(c, op, l, r, x, d, a, b)
    ensures Evaluate(op, TypeOf(c.types, x), a, b).Some?
    ensures Exec(c, Copy(Evaluate(op, TypeOf(c.types, x), a, b).value, x), d) == Exec(c, Binary(op, l, r, x), d)
  {
    var ty := TypeOf(c.types, x);
    hide IntegerMachine, Sets, Exec, Arith, Canon, HasNumber, FoldedConstant;
    OriginalSets(c, op, l, r, x, d, a, b);
    FoldedSets(c, Arith(op, ty, a, b), x, d);
    SetsSame(c, Copy(Evaluate(op, ty, a, b).value, x), Binary(op, l, r, x), d, x, Arith(op, ty, a, b),
      Arith(op, ty, a, b));
  }

  lemma FoldableHolds(ty: CType, v: Val, env: Env, a: int)
    requires HasNumber(v, env, a)
    ensures Foldable(ty, v).Some? ==> Foldable(ty, v).value == a && ConstantOf(v) == Some(a)
  {
  }

  /** Folding arithmetic on given operands. */
  lemma FoldedArithSame(c: Ctx, op: BinaryOp, l: Val, r: Val, x: Name, d: Data, a: int, b: int, hint: CType)
    requires Operands(c, op, l, r, x, d, a, b)
    ensures Exec(c, FoldBinary(c.types, op, l, r, x, hint), d) == Exec(c, Binary(op, l, r, x), d)
  {
    var ty := TypeOf(c.types, x);
    FoldableHolds(ty, l, d.env, a);
    FoldableHolds(ty, r, d.env, b);
    hide IntegerMachine, Exec, Arith, Canon, Evaluate, Simplify, HasNumber, Foldable;
    if Foldable(ty, l).Some? && Foldable(ty, r).Some? {
      EvaluatedSame(c, op, l, r, x, d, a, b);
    } else if Simplify(op, l, r, x, ty, c.types).Some? {
      SimplifyKeeps(c, op, l, r, x, d, a, b);
    }
  }

  lemma ArithResolves(c: Ctx, m: Constants, i: Instr, d: Data) returns (a: int, b: int)
    requires IntegerMachine(c.machine) && EntriesHold(c.types, m, d.env)
    requires i.Binary? && !IsComparison(i.bop) && IsPromoted(TypeOf(c.types, i.dst))
    requires Integral(c.types, m, i) && DefinedAt(c.types, i, d.env)
    ensures Resolved(c, i.bop, i.left, i.right, ResolveVal(i.left, m), ResolveVal(i.right, m), i.dst, d,
                     EvalVal(i.left, d.env).n, EvalVal(i.right, d.env).n, a, b)
  {
    var ty := TypeOf(c.types, i.dst);
    hide IntegerMachine, Arith, Canon, Residue, EntriesHold, ResolveVal;
    a := ResolvedOperand(c.types, m, i.left, ty, d.env);
    if IsShift(i.bop) {
      b := ResolvedCount(c.types, m, i.right, ty, d.env);
    } else {
      b := ResolvedOperand(c.types, m, i.right, ty, d.env);
      ResidueHeld(ty, EvalVal(i.right, d.env).n, b);
    }
    ArithSame(i.bop, ty, EvalVal(i.left, d.env).n, a, EvalVal(i.right, d.env).n, b);
  }

  lemma ArithFoldSame(c: Ctx, m: Constants, i: Instr, d: Data)
    requires IntegerMachine(c.machine) && EntriesHold(c.types, m, d.env)
    requires i.Binary? && !IsComparison(i.bop) && IsPromoted(TypeOf(c.types, i.dst))
    requires Integral(c.types, m, i) && DefinedAt(c.types, i, d.env)
    ensures Exec(c, FoldOne(c.types, m, i), d) == Exec(c, i, d)
  {
    var l, r := ResolveVal(i.left, m), ResolveVal(i.right, m);
    var a, b := ArithResolves(c, m, i, d);
    hide IntegerMachine, Arith, Canon, Residue, EntriesHold, ResolveVal, Exec, Integral, DefinedAt, FoldBinary,
      HasNumber;
    ResolvedSame(c, i.bop, i.left, i.right, l, r, i.dst, d, EvalVal(i.left, d.env).n, EvalVal(i.right, d.env).n, a, b);
    FoldedArithSame(c, i.bop, l, r, i.dst, d, a, b, Hint(c.types, m, i));
  }

  // ----- comparisons -----

  lemma CommonWide(s: CType, t: CType)
    requires IsPromoted(Common(s, t))
    ensures IsWide(s) || IsWide(t) ==> IsWide(Common(s, t))
  {
  }

  lemma SizeResidue(ty: CType, u: CType, a: int, b: int)
    requires IsPromoted(ty) && IsPromoted(u) && Size(ty) == Size(u) && Residue(ty, a) == Residue(ty, b)
    ensures Residue(u, a) == Residue(u, b)
  {
  }

  /** The promoted type that holds numbers as `ty` does. */
  function Carrier(ty: CType): (u: CType)
    requires Storable(ty) && !IsSmall(ty)
    ensures IsPromoted(u) && Size(u) == Size(ty)
  {
    if ty.Pointer? then ULong else ty
  }

  /** A known operand of a comparison at `u`. */
  lemma ComparedOperand(types: Types, m: Constants, v: Val, u: CType, env: Env) returns (n: int)
    requires EntriesHold(types, m, env) && ComparedAt(types, m, v, u) && IsPromoted(u) && IsKnown(v, m)
    ensures ConstantOf(ResolveVal(v, m)) == Some(n) && EvalVal(v, env).Num?
    ensures NumberOf(ValType(types, v), EvalVal(v, env).n) && Canon(u, EvalVal(v, env).n) == Canon(u, n)
    ensures !IsWide(u) && !IsWide(ValType(types, v)) ==> ResolveVal(v, m) == Constant(n)
  {
    hide Pow2, Residue, Canon, Held, Width, EntriesHold;
    if v.Var? {
      n := EntryNumber(types, m, v, env);
      var ty := TypeOf(types, v.name);
      CarrierHolds(ty, n);
      SizeResidue(Carrier(ty), u, Held(ty, n), n);
      ResidueHeld(u, Held(ty, n), n);
    } else {
      n := ConstantOf(v).value;
    }
  }

  lemma CarrierHolds(ty: CType, n: int)
    requires Storable(ty) && !IsSmall(ty)
    ensures Held(ty, n) == Held(Carrier(ty), n) && Residue(Carrier(ty), Held(ty, n)) == Residue(Carrier(ty), n)
    ensures Held(ty, Held(ty, n)) == Held(ty, n)
  {
    HeldResidue(Carrier(ty), n);
    hide Canon, Residue;
  }

  lemma BothKnownCompare(c: Ctx, m: Constants, i: Instr, u: CType, d: Data) returns (a: int, b: int)
    requires FoldingMachine(c.machine) && EntriesHold(c.types, m, d.env)
    requires i.Binary? && IsComparison(i.bop) && u == Common(ValType(c.types, i.left), ValType(c.types, i.right))
      && IsPromoted(u)
    requires Integral(c.types, m, i) && IsKnown(i.left, m) && IsKnown(i.right, m)
    ensures ConstantOf(ResolveVal(i.left, m)) == Some(a) && ConstantOf(ResolveVal(i.right, m)) == Some(b)
    ensures !IsWide(u) ==> ResolveVal(i.left, m) == Constant(a) && ResolveVal(i.right, m) == Constant(b)
    ensures Exec(c, Copy(Truth(Related(i.bop, Canon(u, a), Canon(u, b))), i.dst), d) == Exec(c, i, d)
  {
    hide EntriesHold, Canon, Held, Related, Common, IntegerMachine, Negates, Tests, Converts, StepsPointers, ResolveVal;
    a := ComparedOperand(c.types, m, i.left, u, d.env);
    b := ComparedOperand(c.types, m, i.right, u, d.env);
    CommonWide(ValType(c.types, i.left), ValType(c.types, i.right));
    ComparisonLeaves(c, i.bop, i.left, i.right, i.dst, d, EvalVal(i.left, d.env).n, EvalVal(i.right, d.env).n);
    TruthLeaves(c, Related(i.bop, Canon(u, a), Canon(u, b)), i.dst, d);
  }

  /** A comparison of known numbers that is not at an integer type is one of addresses. */
  lemma AddressFacts(types: Types, m: Constants, i: Instr)
    requires i.Binary? && IsComparison(i.bop) && !IsPromoted(Common(ValType(types, i.left), ValType(types, i.right)))
    requires Integral(types, m, i) && IsKnown(i.left, m) && IsKnown(i.right, m)
    ensures Common(ValType(types, i.left), ValType(types, i.right)) == Pointer
    ensures AddressPair(i.bop, ValType(types, i.left), ValType(types, i.right))
    ensures Size(ValType(types, i.left)) <= 8 && Size(ValType(types, i.right)) <= 8 && IsPromoted(TypeOf(types, i.dst))
    ensures ComparedAt(types, m, i.left, Long) && ComparedAt(types, m, i.right, Long)
  {
    hide Held, IsKnown, Storable;
  }

  lemma PointersCompare(c: Ctx, op: BinaryOp, l: Val, r: Val, x: Name, d: Data, a: int, b: int)
    requires FoldingMachine(c.machine) && IsPromoted(TypeOf(c.types, x)) && IsComparison(op)
    requires HasNumber(l, d.env, a) && HasNumber(r, d.env, b) && NumberOf(ValType(c.types, l), a)
      && NumberOf(ValType(c.types, r), b)
    requires AddressPair(op, ValType(c.types, l), ValType(c.types, r))
    ensures Result(c, Binary(op, l, r, x), d) == Num(if Related(op, Canon(Long, a), Canon(Long, b)) then 1 else 0)
  {
    hide Canon, Related, AddressPair, IntegerMachine, Negates, Tests, Converts, StepsPointers, NumberOf;
    assert ComparesPointers(c.machine, op, ValType(c.types, l), ValType(c.types, r), TypeOf(c.types, x), a, b);
  }

  /** Known addresses, compared for equality. */
  lemma BothKnownAddresses(c: Ctx, m: Constants, i: Instr, d: Data) returns (a: int, b: int)
    requires FoldingMachine(c.machine) && EntriesHold(c.types, m, d.env)
    requires i.Binary? && IsComparison(i.bop)
      && !IsPromoted(Common(ValType(c.types, i.left), ValType(c.types, i.right)))
    requires Integral(c.types, m, i) && IsKnown(i.left, m) && IsKnown(i.right, m)
    ensures Common(ValType(c.types, i.left), ValType(c.types, i.right)) == Pointer
    ensures ResolveVal(i.left, m) == Constant(a) && ResolveVal(i.right, m) == Constant(b)
    ensures Exec(c, Copy(Truth(Related(i.bop, Canon(Long, a), Canon(Long, b))), i.dst), d) == Exec(c, i, d)
  {
    hide EntriesHold, Canon, Held, Related, Common, FoldingMachine, ResolveVal, Integral, IsKnown, ComparedAt,
      NumberOf, Result, Exec, AddressPair;
    AddressFacts(c.types, m, i);
    a := ComparedOperand(c.types, m, i.left, Long, d.env);
    b := ComparedOperand(c.types, m, i.right, Long, d.env);
    PointersCompare(c, i.bop, i.left, i.right, i.dst, d, EvalVal(i.left, d.env).n, EvalVal(i.right, d.env).n);
    MachineIntegers(c.machine);
    TruthLeaves(c, Related(i.bop, Canon(Long, a), Canon(Long, b)), i.dst, d);
    SameResult(c, Copy(Truth(Related(i.bop, Canon(Long, a), Canon(Long, b))), i.dst), i, d);
  }

  lemma MachineIntegers(m: Machine)
    requires FoldingMachine(m)
    ensures IntegerMachine(m)
  {
  }

  lemma HintType(types: Types, m: Constants, v: Val, env: Env)
    requires EntriesHold(types, m, env)
    ensures ResolveType(types, v, m) == ValType(types, v)
  {
    if IsKnownVar(v, m) {
      assert EntryHolds(types, m[v.name], v.name, env);
    }
  }

  lemma RecordedIsKnown(v: Val, m: Constants, types: Types, env: Env)
    requires EntriesHold(types, m, env)
    ensures IsKnownVar(v, m) ==> IsKnown(v, m)
  {
    if IsKnownVar(v, m) {
      assert EntryHolds(types, m[v.name], v.name, env);
    }
  }

  lemma UnknownStays(v: Val, m: Constants, types: Types, env: Env)
    requires EntriesHold(types, m, env) && !IsKnown(v, m)
    ensures ResolveVal(v, m) == v && ConstantOf(v).None?
  {
    hide EntriesHold;
    RecordedIsKnown(v, m, types, env);
  }

  /** A comparison that is not between two constants is only folded against itself. */
  lemma SelfCompare(c: Ctx, m: Constants, i: Instr, u: CType, d: Data)
    requires FoldingMachine(c.machine) && EntriesHold(c.types, m, d.env)
    requires i.Binary? && IsComparison(i.bop) && u == Common(ValType(c.types, i.left), ValType(c.types, i.right))
      && IsPromoted(u)
    requires IsPromoted(TypeOf(c.types, i.dst)) && DefinedAt(c.types, i, d.env)
      && !(IsKnown(i.left, m) && IsKnown(i.right, m))
    ensures var f := FoldBinary(c.types, i.bop, ResolveVal(i.left, m), ResolveVal(i.right, m), i.dst, u);
      f.Binary? || Exec(c, f, d) == Exec(c, i, d)
  {
    hide EntriesHold, Canon, Held, Related, Common, IntegerMachine, Negates, Tests, Converts, StepsPointers, ResolveVal;
    var l, r := ResolveVal(i.left, m), ResolveVal(i.right, m);
    if l == r {
      UnknownStays(i.left, m, c.types, d.env);
      UnknownStays(i.right, m, c.types, d.env);
      hide Exec;
      ComparisonKeeps(c, i.bop, i.left, i.dst, d, EvalVal(i.left, d.env).n);
    }
  }

  /** The scan folds a binary instruction, or takes it back. */
  lemma FoldOneBinary(types: Types, m: Constants, i: Instr)
    requires i.Binary?
    ensures var f := FoldBinary(types, i.bop, ResolveVal(i.left, m), ResolveVal(i.right, m), i.dst, Hint(types, m, i));
      FoldOne(types, m, i) == if f.Binary? && TypeSensitive(i.bop) then i else f
  {
    hide FoldBinary, ResolveVal, Hint;
  }

  lemma BothKnownFold(types: Types, op: BinaryOp, l: Val, r: Val, x: Name, u: CType, a: int, b: int)
    requires IsComparison(op) && ConstantOf(l) == Some(a) && ConstantOf(r) == Some(b)
    requires !IsWide(u) ==> l == Constant(a) && r == Constant(b)
    ensures FoldBinary(types, op, l, r, x, u)
      == Copy(Truth(Related(op, Canon(EvalType(u), a), Canon(EvalType(u), b))), x)
  {
    hide Canon, Related, Simplify, EvalType;
  }

  /** A comparison at another type that is not between two constants stays. */
  lemma OtherCompare(types: Types, op: BinaryOp, l: Val, r: Val, x: Name, u: CType)
    requires IsComparison(op) && !IsPromoted(u) && !IsSmall(u) && (ConstantOf(l).None? || ConstantOf(r).None?)
    ensures FoldBinary(types, op, l, r, x, u).Binary?
  {
    hide Evaluate, Simplify;
  }

  lemma CommonNotSmall(s: CType, t: CType)
    ensures !IsSmall(Common(s, t))
  {
  }

  lemma ComparisonFoldSame(c: Ctx, m: Constants, i: Instr, d: Data)
    requires FoldingMachine(c.machine) && EntriesHold(c.types, m, d.env)
    requires i.Binary? && IsComparison(i.bop)
    requires Integral(c.types, m, i) && DefinedAt(c.types, i, d.env)
    ensures Exec(c, FoldOne(c.types, m, i), d) == Exec(c, i, d)
  {
    var u := Common(ValType(c.types, i.left), ValType(c.types, i.right));
    var l, r := ResolveVal(i.left, m), ResolveVal(i.right, m);
    HintType(c.types, m, i.left, d.env);
    HintType(c.types, m, i.right, d.env);
    HintCommon(c.types, m, i);
    CommonNotSmall(ValType(c.types, i.left), ValType(c.types, i.right));
    hide EntriesHold, Canon, Common, FoldingMachine, ResolveVal, Exec, DefinedAt, FoldBinary, FoldOne, Related, Hint,
      ComparedAt, ComparesAddresses, ResolveType;
    FoldOneBinary(c.types, m, i);
    if IsKnown(i.left, m) && IsKnown(i.right, m) {
      if IsPromoted(u) {
        var a, b := BothKnownCompare(c, m, i, u, d);
        BothKnownFold(c.types, i.bop, l, r, i.dst, u, a, b);
      } else {
        var a, b := BothKnownAddresses(c, m, i, d);
        BothKnownFold(c.types, i.bop, l, r, i.dst, u, a, b);
      }
    } else if IsPromoted(u) {
      SelfCompare(c, m, i, u, d);
    } else {
      OtherCompare(c.types, i.bop, l, r, i.dst, u);
    }
  }

  lemma HintCommon(types: Types, m: Constants, i: Instr)
    requires i.Binary?
    ensures Hint(types, m, i) == Common(ResolveType(types, i.left, m), ResolveType(types, i.right, m))
  {
  }

  // ----- one operand -----

  /** A constant folded at 64 bits has the low bits of the exact result. */
  lemma UnsettledResidue(ty: CType, n: int)
    requires IsPromoted(ty)
    ensures ConstantOf(Unsettled(ty, n)).Some? && Residue(ty, ConstantOf(Unsettled(ty, n)).value) == Residue(ty, n)
  {
    hide Pow2, Residue, Canon;
    HeldResidue(ty, n);
    if !IsWide(ty) {
      LongResidue(ty, n);
    }
  }

  /** Copying a constant with the low bits of `n` leaves what holding `n` would. */
  lemma ConstantCopied(c: Ctx, v: Val, n: int, x: Name, d: Data)
    requires IntegerMachine(c.machine) && IsPromoted(TypeOf(c.types, x)) && ConstantOf(v).Some?
    requires Residue(TypeOf(c.types, x), ConstantOf(v).value) == Residue(TypeOf(c.types, x), n)
    ensures Result(c, Copy(v, x), d) == Num(Held(TypeOf(c.types, x), n))
  {
    hide IntegerMachine, Residue, Held;
    ConstantEval(v, d.env);
    CopyLeaves(c, v, x, d, ConstantOf(v).value);
    ResidueHeld(TypeOf(c.types, x), ConstantOf(v).value, n);
  }

  lemma SignFoldSame(c: Ctx, op: UnaryOp, v: Val, x: Name, d: Data, a: int, n: int)
    requires FoldingMachine(c.machine) && IsPromoted(TypeOf(c.types, x)) && (op.Negate? || op.Complement?)
    requires HasNumber(v, d.env, a) && Residue(TypeOf(c.types, x), a) == Residue(TypeOf(c.types, x), n)
    ensures Result(c, Copy(Unsettled(TypeOf(c.types, x), if op.Negate? then -n else -1 - n), x), d)
      == Result(c, Unary(op, v, x), d)
  {
    var ty := TypeOf(c.types, x);
    var k, e := if op.Negate? then -n else -1 - n, if op.Negate? then -a else -1 - a;
    assert Negates(c.machine, ty, a) && Complements(c.machine, ty, a);
    assert Result(c, Unary(op, v, x), d) == Num(Held(ty, e));
    hide Residue, Held, Unsettled, Result, IntegerMachine, Negates;
    NegationSame(ty, a, n);
    UnsettledResidue(ty, k);
    ResidueHeld(ty, k, e);
    ConstantCopied(c, Unsettled(ty, k), k, x, d);
  }

  lemma KnownOperand(types: Types, m: Constants, v: Val, env: Env) returns (a: int, n: int)
    requires EntriesHold(types, m, env) && IsKnown(v, m)
    ensures HasNumber(v, env, a) && ConstantOf(ResolveVal(v, m)) == Some(n)
    ensures if v.Var? then Storable(TypeOf(types, v.name)) && a == Held(TypeOf(types, v.name), n)
                           && (!IsWide(TypeOf(types, v.name)) ==> ResolveVal(v, m) == Constant(n))
            else a == n
  {
    hide Held, EntriesHold;
    if v.Var? {
      n := EntryNumber(types, m, v, env);
      a := Held(TypeOf(types, v.name), n);
    } else {
      a, n := ConstantOf(v).value, ConstantOf(v).value;
    }
  }

  lemma NotFoldSame(c: Ctx, v: Val, w: Val, x: Name, d: Data, a: int, n: int)
    requires FoldingMachine(c.machine) && IsPromoted(TypeOf(c.types, x)) && HasNumber(v, d.env, a)
      && HasNumber(w, d.env, n)
    requires (a == 0) == (n == 0)
    ensures Result(c, Copy(Truth(n == 0), x), d) == Result(c, Unary(LogicalNot, v, x), d)
      == Result(c, Unary(LogicalNot, w, x), d)
  {
    TruthLeaves(c, n == 0, x, d);
    hide IntegerMachine, Negates, Converts, StepsPointers;
    assert Tests(c.machine, TypeOf(c.types, x), a) && Tests(c.machine, TypeOf(c.types, x), n);
  }

  lemma FoldOneUnary(types: Types, m: Constants, i: Instr)
    requires i.Unary?
    ensures FoldOne(types, m, i) == FoldUnary(types, i.uop, ResolveVal(i.src, m), i.dst)
  {
    hide FoldUnary, ResolveVal;
  }

  lemma NotFolds(types: Types, w: Val, x: Name, n: int)
    requires IsPromoted(TypeOf(types, x)) && ConstantOf(w) == Some(n)
    ensures var f := FoldUnary(types, LogicalNot, w, x);
      f == Unary(LogicalNot, w, x) || f == Copy(Truth(n == 0), x)
  {
  }

  /** An operand that is not folded is a wide literal at a narrower type. */
  lemma SignOperand(c: Ctx, m: Constants, i: Instr, d: Data) returns (a: int, n: int)
    requires EntriesHold(c.types, m, d.env)
    requires i.Unary? && !i.uop.LogicalNot? && Integral(c.types, m, i) && IsKnown(i.src, m)
    ensures IsPromoted(TypeOf(c.types, i.dst)) && ConstantOf(ResolveVal(i.src, m)) == Some(n)
    ensures HasNumber(i.src, d.env, a) && Residue(TypeOf(c.types, i.dst), a) == Residue(TypeOf(c.types, i.dst), n)
    ensures Foldable(TypeOf(c.types, i.dst), ResolveVal(i.src, m)) == Some(n) || ResolveVal(i.src, m) == i.src
  {
    var ty := TypeOf(c.types, i.dst);
    hide Held, Residue, EntriesHold;
    a, n := KnownOperand(c.types, m, i.src, d.env);
    HeldResidue(ty, n);
  }

  lemma SignFolds(types: Types, op: UnaryOp, w: Val, x: Name, n: int)
    requires IsPromoted(TypeOf(types, x)) && !op.LogicalNot? && ConstantOf(w) == Some(n)
    ensures FoldUnary(types, op, w, x) ==
      if Foldable(TypeOf(types, x), w) == Some(n) then
        Copy(Unsettled(TypeOf(types, x), if op.Negate? then -n else -1 - n), x)
      else Unary(op, w, x)
  {
    hide Unsettled;
  }

  lemma SignOperandFolds(c: Ctx, m: Constants, i: Instr, d: Data)
    requires FoldingMachine(c.machine) && EntriesHold(c.types, m, d.env)
    requires i.Unary? && !i.uop.LogicalNot? && Integral(c.types, m, i) && IsKnown(i.src, m)
    ensures Exec(c, FoldUnary(c.types, i.uop, ResolveVal(i.src, m), i.dst), d) == Exec(c, i, d)
  {
    var ty := TypeOf(c.types, i.dst);
    hide FoldingMachine, Residue, Result, EntriesHold, Unsettled, FoldUnary, Exec, ResolveVal, HasNumber, Integral,
      IsKnown, Foldable;
    var a, n := SignOperand(c, m, i, d);
    SignFoldSame(c, i.uop, i.src, i.dst, d, a, n);
    SameResult(c, Copy(Unsettled(ty, if i.uop.Negate? then -n else -1 - n), i.dst), i, d);
    SignFolds(c.types, i.uop, ResolveVal(i.src, m), i.dst, n);
  }

  lemma NotOperandFolds(c: Ctx, m: Constants, i: Instr, d: Data)
    requires FoldingMachine(c.machine) && EntriesHold(c.types, m, d.env)
    requires i.Unary? && i.uop.LogicalNot? && Integral(c.types, m, i) && IsKnown(i.src, m) && ReadRight(c.types, m, i)
    ensures Exec(c, FoldUnary(c.types, i.uop, ResolveVal(i.src, m), i.dst), d) == Exec(c, i, d)
  {
    hide FoldingMachine, Held, Residue, Result, EntriesHold, Unsettled, FoldUnary, Exec;
    var w := ResolveVal(i.src, m);
    var a, n := KnownOperand(c.types, m, i.src, d.env);
    ConstantEval(w, d.env);
    NotFoldSame(c, i.src, w, i.dst, d, a, n);
    SameResult(c, Copy(Truth(n == 0), i.dst), i, d);
    SameResult(c, Unary(LogicalNot, w, i.dst), i, d);
    NotFolds(c.types, w, i.dst, n);
  }

  lemma UnaryFoldSame(c: Ctx, m: Constants, i: Instr, d: Data)
    requires FoldingMachine(c.machine) && EntriesHold(c.types, m, d.env)
    requires i.Unary? && Integral(c.types, m, i) && ReadRight(c.types, m, i)
    ensures Exec(c, FoldOne(c.types, m, i), d) == Exec(c, i, d)
  {
    FoldOneUnary(c.types, m, i);
    hide FoldingMachine, EntriesHold, FoldOne, Exec, ReadRight, Integral;
    if !IsKnown(i.src, m) {
      UnknownStays(i.src, m, c.types, d.env);
    } else if i.uop.LogicalNot? {
      NotOperandFolds(c, m, i, d);
    } else {
      SignOperandFolds(c, m, i, d);
    }
  }

  // ----- conversions -----

  lemma WidenedResidue(ty: CType, kind: Conversion, s: CType, n: int)
    requires IsPromoted(ty) && IsPromoted(s) && ConvertsIntegers(kind) && (kind.SignExtend? ==> IsSigned(s))
    ensures kind.SignExtend? ==> Residue(ty, Widened(kind, s, n)) == Residue(ty, Canon(s, n))
    ensures kind.ZeroExtend? ==> Residue(ty, Widened(kind, s, n)) == Residue(ty, Residue(s, n))
  {
    hide Pow2, Canon;
    if IsWide(s) {
      CanonResidue(Int128, n);
      CanonResidue(Int128, Residue(UInt128, n));
      hide Residue;
      ResidueNarrows(ty, Canon(Int128, n), n);
      ResidueNarrows(ty, Canon(Int128, Residue(UInt128, n)), Residue(UInt128, n));
    }
  }

  /** What conversion leaves of a known operand. */
  lemma ConvertLeaves(c: Ctx, kind: Conversion, v: Val, x: Name, d: Data, s: CType, a: int)
    requires FoldingMachine(c.machine) && Storable(TypeOf(c.types, x)) && !TypeOf(c.types, x).Bool?
      && ConvertsIntegers(kind)
    requires HasNumber(v, d.env, a) && s == ValType(c.types, v) && IsConverted(s) && NumberOf(s, a)
      && (kind.SignExtend? ==> IsSigned(s))
    ensures Result(c, Convert(kind, v, x), d)
         == Num(Held(TypeOf(c.types, x), if kind.ZeroExtend? then Bits(s, a) else a))
  {
    hide IntegerMachine, Negates, Tests, StepsPointers, ComparesPointers, Held, Bits, NumberOf, Storable, IsConverted;
    assert Converts(c.machine, s, TypeOf(c.types, x), a);
  }

  /** The number conversion folds to, against the one the operand has. */
  lemma ConvertResidue(ty: CType, kind: Conversion, s: CType, a: int, n: int)
    requires IsPromoted(ty) && IsPromoted(s) && ConvertsIntegers(kind) && (kind.SignExtend? ==> IsSigned(s))
    requires a == Held(s, n) && (kind.Truncate? ==> Size(ty) <= Size(s))
    ensures Residue(ty, Widened(kind, s, n)) == Residue(ty, if kind.ZeroExtend? then Residue(s, a) else a)
  {
    WidenedResidue(ty, kind, s, n);
    HeldResidue(s, n);
    if kind.Truncate? {
      TruncationNarrows(ty, s, a, n);
    }
    hide Pow2, Residue, Canon, Widened;
  }

  lemma TruncationNarrows(ty: CType, s: CType, a: int, n: int)
    requires IsPromoted(ty) && IsPromoted(s) && Size(ty) <= Size(s) && Residue(s, a) == Residue(s, n)
    ensures Residue(ty, a) == Residue(ty, n)
  {
    hide Pow2;
    var q := ResidueApart(s, a, n);
    PowSum(Width(ty), Width(s) - Width(ty));
    NestedResidue(a, n, Pow2(Width(ty)), Pow2(Width(s) - Width(ty)), q);
  }

  // ----- narrow types -----

  /** A number in range of 64 bits is its own pattern. */
  lemma LongRange(n: int)
    requires n + Pow2(63) >= 0 && n < Pow2(63)
    ensures Canon(Long, n) == n
  {
    HalfPower(64);
    hide Pow2;
    if n >= 0 {
      UniqueRemainder(n, Pow2(64), 0, n);
    } else {
      UniqueRemainder(n, Pow2(64), -1, n + Pow2(64));
    }
  }

  lemma LowPowers()
    ensures Pow2(32) == 256 * 16777216 && Pow2(32) == 65536 * 65536 && Pow2(63) >= 65536
  {
    assert Pow2(8) == 256;
    PowSum(8, 8);
    PowSum(16, 16);
    PowSum(16, 47);
  }

  /** Numbers that agree in 32 bits agree in their low bits. */
  lemma LowAgree(ty: CType, x: int, y: int)
    requires IsSmall(ty) && Residue(Int, x) == Residue(Int, y)
    ensures Held(ty, x) == Held(ty, y)
  {
    hide Pow2, Residue, Canon;
    LowPowers();
    var q := ResidueApart(Int, x, y);
    NestedResidue(x, y, 256, 16777216, q);
    NestedResidue(x, y, 65536, 65536, q);
  }

  lemma NarrowFacts(s: CType, n: int)
    requires IsSmall(s)
    ensures LowBits(s, Narrow(s, n)) == LowBits(s, n) && Narrow(s, Narrow(s, n)) == Narrow(s, n)
    ensures -32768 <= Narrow(s, n) < 65536
  {
    var w := if Size(s) == 1 then 256 else 65536;
    if Narrow(s, n) < 0 {
      UniqueRemainder(Narrow(s, n), w, -1, LowBits(s, n));
    } else {
      UniqueRemainder(Narrow(s, n), w, 0, LowBits(s, n));
    }
  }

  /** A narrower type sees of a number what it sees of its low bits. */
  lemma NarrowAgain(ty: CType, s: CType, n: int)
    requires IsSmall(ty) && IsSmall(s) && Size(ty) <= Size(s)
    ensures Held(ty, Narrow(s, n)) == Held(ty, n)
  {
    NarrowFacts(s, n);
    var w := if Size(s) == 1 then 256 else 65536;
    var k := Narrow(s, n);
    var q := k / w - n / w;
    assert k == n + w * q;
    NestedResidue(k, n, if Size(ty) == 1 then 256 else 65536, if Size(ty) == Size(s) then 1 else 256, q);
  }

  /** A constant made by a conversion to `ty` is held like the number it is made from. */
  lemma CastHeld(ty: CType, n: int)
    requires Storable(ty) && !ty.Bool?
    ensures var v := IntegerConstant(ty, CastWide(ty, n));
      ConstantOf(v).Some? && Held(ty, ConstantOf(v).value) == Held(ty, n)
    decreases ty.Pointer?
  {
    if ty.Pointer? {
      CastHeld(ULong, n);
    } else if IsPromoted(ty) {
      CastWideResidue(ty, n);
      ConstantResidue(ty, CastWide(ty, n));
      hide Residue, Canon, CastWide, IntegerConstant, Held;
      ResidueHeld(ty, ConstantOf(IntegerConstant(ty, CastWide(ty, n))).value, n);
    } else {
      NarrowFacts(ty, n);
      LowPowers();
      LongRange(Narrow(ty, n));
      hide Canon, Narrow, Pow2;
    }
  }

  lemma NarrowConvertHeld(ty: CType, kind: Conversion, s: CType, n: int)
    requires Storable(ty) && IsSmall(s) && !s.Bool? && ConvertsIntegers(kind) && (kind.SignExtend? ==> IsSigned(s))
    requires kind.Truncate? ==> Size(ty) <= Size(s)
    ensures Held(ty, Widened(kind, s, n)) == Held(ty, if kind.ZeroExtend? then Bits(s, Narrow(s, n)) else Narrow(s, n))
  {
    NarrowFacts(s, n);
    if kind.Truncate? {
      SmallerIsSmall(ty, s);
      NarrowAgain(ty, s, n);
    }
    hide Canon, Narrow, LowBits, Held;
  }

  lemma SmallerIsSmall(ty: CType, s: CType)
    requires Storable(ty) && IsSmall(s) && Size(ty) <= Size(s)
    ensures IsSmall(ty)
  {
  }

  lemma WideConvertHeld(ty: CType, kind: Conversion, s: CType, a: int, n: int)
    requires IsPromoted(ty) && IsPromoted(s) && ConvertsIntegers(kind) && (kind.SignExtend? ==> IsSigned(s))
    requires a == Held(s, n) && (kind.Truncate? ==> Size(ty) <= Size(s))
    ensures Held(ty, Widened(kind, s, n)) == Held(ty, if kind.ZeroExtend? then Residue(s, a) else a)
  {
    hide Residue, Canon, Widened, Pow2, Held;
    ConvertResidue(ty, kind, s, a, n);
    ResidueHeld(ty, Widened(kind, s, n), if kind.ZeroExtend? then Residue(s, a) else a);
  }

  /** The number conversion folds to is held like the one it has to leave. */
  lemma ConvertHeld(ty: CType, kind: Conversion, s: CType, a: int, n: int)
    requires Storable(ty) && IsConverted(s) && ConvertsIntegers(kind) && (kind.SignExtend? ==> IsSigned(s))
    requires a == Held(s, n) && (kind.Truncate? ==> Size(ty) <= Size(s))
    ensures Held(ty, Widened(kind, s, n)) == Held(ty, if kind.ZeroExtend? then Bits(s, a) else a)
  {
    hide Residue, Canon, Widened, Pow2, Narrow, LowBits;
    var w, b := Widened(kind, s, n), if kind.ZeroExtend? then Bits(s, a) else a;
    if IsSmall(s) {
      NarrowConvertHeld(ty, kind, s, n);
    } else {
      hide Held;
      if IsPromoted(ty) {
        WideConvertHeld(ty, kind, s, a, n);
      } else if ty.Pointer? {
        WideConvertHeld(ULong, kind, s, a, n);
        AddressHeld(w);
        AddressHeld(b);
      } else {
        ConvertResidue(Int, kind, s, a, n);
        LowAgree(ty, w, b);
      }
    }
  }

  lemma AddressHeld(n: int)
    ensures Held(Pointer, n) == Held(ULong, n)
  {
  }

  lemma ConvertKnown(c: Ctx, m: Constants, i: Instr, d: Data) returns (n: int)
    requires FoldingMachine(c.machine) && EntriesHold(c.types, m, d.env)
    requires i.Convert? && Integral(c.types, m, i) && IsKnown(i.src, m)
    ensures ConstantOf(ResolveVal(i.src, m)) == Some(n) && i.dst in c.types && ConvertsIntegers(i.kind)
    ensures var ty := TypeOf(c.types, i.dst);
      Result(c, Copy(IntegerConstant(ty, CastWide(ty, Widened(i.kind, ValType(c.types, i.src), n))), i.dst), d)
        == Result(c, i, d)
  {
    var ty, s := TypeOf(c.types, i.dst), ValType(c.types, i.src);
    hide FoldingMachine, EntriesHold, Result, Widened, CastWide, IntegerConstant, Storable, IsConverted, Bits;
    var a, k := KnownOperand(c.types, m, i.src, d.env);
    n := k;
    HeldAgain(s, n);
    hide Held;
    ConvertLeaves(c, i.kind, i.src, i.dst, d, s, a);
    ConvertHeld(ty, i.kind, s, a, n);
    CastHeld(ty, Widened(i.kind, s, n));
    MachineIntegers(c.machine);
    ConstantLeaves(c, IntegerConstant(ty, CastWide(ty, Widened(i.kind, s, n))), i.dst, d);
  }

  lemma HeldAgain(s: CType, n: int)
    requires Storable(s)
    ensures Held(s, Held(s, n)) == Held(s, n)
  {
    if IsSmall(s) {
      NarrowFacts(s, n);
    } else {
      CarrierHolds(s, n);
    }
    hide Canon, Residue, Narrow;
  }

  lemma ConstantLeaves(c: Ctx, v: Val, x: Name, d: Data)
    requires IntegerMachine(c.machine) && Storable(TypeOf(c.types, x)) && ConstantOf(v).Some?
    ensures Result(c, Copy(v, x), d) == Num(Held(TypeOf(c.types, x), ConstantOf(v).value))
  {
    hide IntegerMachine, Held, Storable;
    ConstantEval(v, d.env);
    CopyLeaves(c, v, x, d, ConstantOf(v).value);
  }

  lemma FoldOneConvert(types: Types, m: Constants, i: Instr)
    requires i.Convert?
    ensures FoldOne(types, m, i)
      == FoldConvert(types, i.kind, ResolveVal(i.src, m), i.dst, ResolveType(types, i.src, m))
  {
    hide FoldConvert, ResolveVal, ResolveType;
  }

  lemma ConvertFoldSame(c: Ctx, m: Constants, i: Instr, d: Data)
    requires FoldingMachine(c.machine) && EntriesHold(c.types, m, d.env)
    requires i.Convert? && Integral(c.types, m, i)
    ensures Exec(c, FoldOne(c.types, m, i), d) == Exec(c, i, d)
  {
    HintType(c.types, m, i.src, d.env);
    FoldOneConvert(c.types, m, i);
    hide FoldingMachine, EntriesHold, Result, Exec, FoldOne, Widened, CastWide, IntegerConstant, Integral, ResolveVal,
      ResolveType;
    if IsKnown(i.src, m) {
      var n := ConvertKnown(c, m, i, d);
      var ty := TypeOf(c.types, i.dst);
      SameResult(c, Copy(IntegerConstant(ty, CastWide(ty, Widened(i.kind, ValType(c.types, i.src), n))), i.dst), i, d);
    } else {
      UnknownStays(i.src, m, c.types, d.env);
    }
  }

  // ----- instructions that use operands as they are -----

  /** Resolving an exact operand changes nothing. */
  lemma ExactOperand(types: Types, m: Constants, v: Val, env: Env)
    requires EntriesHold(types, m, env) && Exact(types, m, v)
    ensures EvalVal(ResolveVal(v, m), env) == EvalVal(v, env)
  {
    hide Held, EntriesHold;
    if IsKnownVar(v, m) {
      var n := EntryNumber(types, m, v, env);
    }
  }

  lemma AddPtrFolds(c: Ctx, p: Val, n: Val, scale: int, x: Name, d: Data)
    requires FoldingMachine(c.machine)
    requires n.Constant? && Canon(Long, n.i * scale) == 0 ==> TypeOf(c.types, x) == Pointer && AddressLike(c.types, p)
    ensures Exec(c, FoldAddPtr(p, n, scale, x), d) == Exec(c, AddPtr(p, n, scale, x), d)
  {
    hide FoldingMachine, Canon, Exec;
    if n.Constant? {
      var offset := Canon(Long, n.i * scale);
      PointerSteps(c.machine, EvalVal(p, d.env), n.i, scale);
      if offset == 0 {
        if p.Constant? {
          AddressCopied(c, p, x, d);
        }
        SameResult(c, Copy(p, x), AddPtr(p, n, scale, x), d);
      } else if scale != 1 {
        SameResult(c, AddPtr(p, Constant(offset), 1, x), AddPtr(p, n, scale, x), d);
      }
    }
  }

  lemma PointerSteps(m: Machine, p: Value, n: int, scale: int)
    requires FoldingMachine(m)
    ensures StepsPointers(m, p, n, scale)
  {
    hide StepsPointers, IntegerMachine, Negates, Tests, Converts, ComparesPointers;
  }

  /** A pointer variable, or the number on record for it. */
  predicate AddressLike(types: Types, p: Val) {
    p.Constant? || (p.Var? && TypeOf(types, p.name) == Pointer)
  }

  /** A constant is copied to a pointer like the pointer that holds it. */
  lemma AddressCopied(c: Ctx, p: Val, x: Name, d: Data)
    requires FoldingMachine(c.machine) && TypeOf(c.types, x) == Pointer && p.Constant?
    ensures Result(c, Copy(p, x), d) == c.machine.copy(ClassOf(Pointer), Pointer, EvalVal(p, d.env))
  {
    hide Computes2, ComparesAt, Complements, Negates, Tests, Converts, StepsPointers, ComparesPointers, Held;
    assert Moves(c.machine, ValClass(c.types, p), Pointer, p.i) && Moves(c.machine, ClassOf(Pointer), Pointer, p.i);
  }

  lemma AddressResolved(types: Types, m: Constants, p: Val, env: Env)
    requires EntriesHold(types, m, env) && p.Var? && TypeOf(types, p.name) == Pointer
    ensures AddressLike(types, ResolveVal(p, m))
  {
    if IsKnownVar(p, m) {
      hide EntriesHold;
      var n := EntryNumber(types, m, p, env);
    }
  }

  lemma FoldOneAddPtr(types: Types, m: Constants, i: Instr)
    requires i.AddPtr?
    ensures FoldOne(types, m, i) == FoldAddPtr(ResolveVal(i.ptr, m), ResolveVal(i.index, m), i.scale, i.dst)
  {
    hide FoldAddPtr, ResolveVal;
  }

  /** Resolving both operands of pointer arithmetic. */
  lemma AddPtrResolves(c: Ctx, i: Instr, p: Val, n: Val, d: Data)
    requires i.AddPtr? && EvalVal(p, d.env) == EvalVal(i.ptr, d.env) && EvalVal(n, d.env) == EvalVal(i.index, d.env)
    ensures Exec(c, AddPtr(p, n, i.scale, i.dst), d) == Exec(c, i, d)
  {
  }

  lemma AddPtrFacts(types: Types, m: Constants, i: Instr)
    requires i.AddPtr? && Integral(types, m, i) && ReadRight(types, m, i)
    ensures Exact(types, m, i.ptr) && Exact(types, m, i.index)
    ensures var n := ResolveVal(i.index, m);
      n.Constant? && Canon(Long, n.i * i.scale) == 0 ==>
        i.ptr.Var? && TypeOf(types, i.ptr.name) == Pointer == TypeOf(types, i.dst)
  {
    hide Canon, Exact;
  }

  lemma AddPtrFoldSame(c: Ctx, m: Constants, i: Instr, d: Data)
    requires FoldingMachine(c.machine) && EntriesHold(c.types, m, d.env)
    requires i.AddPtr? && Integral(c.types, m, i) && ReadRight(c.types, m, i)
    ensures Exec(c, FoldOne(c.types, m, i), d) == Exec(c, i, d)
  {
    hide *;
    AddPtrFacts(c.types, m, i);
    ExactOperand(c.types, m, i.ptr, d.env);
    ExactOperand(c.types, m, i.index, d.env);
    FoldOneAddPtr(c.types, m, i);
    AddPtrResolves(c, i, ResolveVal(i.ptr, m), ResolveVal(i.index, m), d);
    if i.ptr.Var? && TypeOf(c.types, i.ptr.name) == Pointer {
      AddressResolved(c.types, m, i.ptr, d.env);
    }
    AddPtrFolds(c, ResolveVal(i.ptr, m), ResolveVal(i.index, m), i.scale, i.dst, d);
  }

  // ----- the whole instruction -----

  /** `f` and `i` step alike: they steer alike, end the run alike and do the same to the data. */
  ghost predicate StepsAlike(c: Ctx, i: Instr, f: Instr, d: Data) {
    && i.Return? == f.Return? && (i.Return? ==> EvalVal(f.val, d.env) == EvalVal(i.val, d.env))
    && i.Unreachable? == f.Unreachable? && (i.Label? || f.Label? ==> i == f)
    && (IsJump(f) ==> IsJump(i) && f.target == i.target)
    && (IsJump(i) ==> Taken(c, i, d.env) == (IsJump(f) && Taken(c, f, d.env)))
    && Exec(c, f, d) == Exec(c, i, d)
  }

  lemma CondTruth(c: Ctx, m: Constants, v: Val, env: Env)
    requires FoldingMachine(c.machine) && EntriesHold(c.types, m, env) && SameTruth(c.types, m, v)
    ensures IsKnown(v, m) ==> c.machine.isZero(EvalVal(v, env)) == (ConstantOf(ResolveVal(v, m)).value == 0)
    ensures !IsKnown(v, m) ==> ResolveVal(v, m) == v
  {
    hide Held, EntriesHold, IntegerMachine, Negates, Converts, StepsPointers;
    if IsKnown(v, m) {
      var a, n := KnownOperand(c.types, m, v, env);
      assert Tests(c.machine, Int, a);
    } else {
      UnknownStays(v, m, c.types, env);
    }
  }

  lemma FoldOneBranch(types: Types, m: Constants, i: Instr)
    requires i.JumpIfZero? || i.JumpIfNotZero?
    ensures FoldOne(types, m, i) == FoldBranch(Resolve(i, m), ResolveVal(i.cond, m))
  {
    hide FoldBranch, ResolveVal;
  }

  /** A branch on a constant, against the branch it came from. */
  lemma BranchFolds(c: Ctx, i: Instr, j: Instr, d: Data)
    requires (i.JumpIfZero? && j.JumpIfZero?) || (i.JumpIfNotZero? && j.JumpIfNotZero?)
    requires j.target == i.target
    requires if ConstantOf(j.cond).Some? then c.machine.isZero(EvalVal(i.cond, d.env))
      == (ConstantOf(j.cond).value == 0)
             else j.cond == i.cond
    ensures StepsAlike(c, i, FoldBranch(j, j.cond), d)
  {
    hide EvalVal;
  }

  lemma BranchFoldSame(c: Ctx, m: Constants, i: Instr, d: Data)
    requires FoldingMachine(c.machine) && EntriesHold(c.types, m, d.env)
    requires (i.JumpIfZero? || i.JumpIfNotZero?) && ReadRight(c.types, m, i)
    ensures StepsAlike(c, i, FoldOne(c.types, m, i), d)
  {
    hide FoldingMachine, EntriesHold, FoldOne, ResolveVal, EvalVal, StepsAlike, FoldBranch, SameTruth;
    FoldOneBranch(c.types, m, i);
    CondTruth(c, m, i.cond, d.env);
    BranchFolds(c, i, Resolve(i, m), d);
  }

  lemma CallStays(types: Types, i: Instr)
    requires i.FunCall?
    ensures FoldOne(types, map[], i) == i
  {
    var args := seq(|i.args|, k requires 0 <= k < |i.args| => ResolveVal(i.args[k], map[]));
    assert args == i.args;
  }

  /** Folding arithmetic and comparisons. */
  lemma BinaryFoldSame(c: Ctx, m: Constants, i: Instr, d: Data)
    requires FoldingMachine(c.machine) && EntriesHold(c.types, m, d.env)
    requires i.Binary? && Integral(c.types, m, i) && DefinedAt(c.types, i, d.env)
    ensures Exec(c, FoldOne(c.types, m, i), d) == Exec(c, i, d)
  {
    hide EntriesHold, Exec, Canon, FoldOne, DefinedAt, IntegerMachine, Negates, Tests, Converts, StepsPointers;
    if IsComparison(i.bop) {
      ComparisonFoldSame(c, m, i, d);
    } else if IsPromoted(TypeOf(c.types, i.dst)) {
      ArithFoldSame(c, m, i, d);
    } else {
      UnknownStays(i.left, m, c.types, d.env);
      UnknownStays(i.right, m, c.types, d.env);
      UntypedStays(c.types, m, i);
    }
  }

  lemma UntypedStays(types: Types, m: Constants, i: Instr)
    requires i.Binary? && !IsComparison(i.bop) && !IsPromoted(TypeOf(types, i.dst)) && !IsSmall(TypeOf(types, i.dst))
    requires ResolveVal(i.left, m) == i.left && ResolveVal(i.right, m) == i.right && ConstantOf(i.left).None?
    ensures FoldOne(types, m, i) == i
  {
    FoldOneBinary(types, m, i);
    hide FoldOne, Evaluate, Simplify, ResolveVal, Hint, EvalType;
  }

  /** An instruction that only computes steps like any other with the same effect. */
  lemma ComputesAlike(c: Ctx, i: Instr, f: Instr, d: Data)
    requires Computes(i) && Computes(f) && Exec(c, f, d) == Exec(c, i, d)
    ensures StepsAlike(c, i, f, d)
  {
    hide Exec;
  }

  // ----- the shape of folded instructions -----

  /** A constant that may be copied to a variable of type `ty`. */
  predicate ConstantFor(ty: CType, v: Val) {
    !v.DoubleConstant? && (v.Int128Constant? || v.UInt128Constant? ==> IsWide(ty))
  }

  /** An instruction that computes `x` of type `ty`, if there is one. */
  predicate Shaped(o: Option<Instr>, x: Name, ty: CType) {
    o.Some? ==>
      && (o.value.Unary? || o.value.Binary? || (o.value.Copy? && ConstantFor(ty, o.value.src)))
      && DefinedVar(o.value) == Some(x)
  }

  lemma ConstantsFor(ty: CType, n: int)
    ensures (IsPromoted(ty) ==> ConstantFor(ty, FoldedConstant(ty, n))) && ConstantFor(ty, Unsettled(ty, n))
    ensures ConstantFor(ty, IntegerConstant(ty, n))
  {
    hide Canon, Residue, Held;
  }

  lemma IdentityShaped(v: Val, x: Name, ty: CType, types: Types)
    ensures Shaped(CopyIdentity(v, x, ty, types), x, ty) && Shaped(ComplementOf(v, x, ty, types), x, ty)
  {
  }

  lemma ConstantShaped(x: Name, ty: CType)
    ensures Shaped(None, x, ty) && Shaped(Some(Copy(IntegerConstant(ty, 0), x)), x, ty)
      && Shaped(Some(Copy(AllOnesConstant(ty), x)), x, ty)
  {
    hide IntegerConstant, CastWide;
    ConstantsFor(ty, 0);
    ConstantsFor(ty, CastWide(ty, -1));
  }

  lemma SpecialShaped(op: BinaryOp, l: Val, r: Val, x: Name, ty: CType, types: Types)
    ensures Shaped(SpecialOperand(op, l, r, x, ty, types), x, ty)
  {
    hide IntegerConstant, AllOnesConstant, CopyIdentity, ComplementOf, Shaped, IsAllOnesVal, IsZeroVal, IsOneVal,
      CanCopy;
    IdentityShaped(l, x, ty, types);
    IdentityShaped(r, x, ty, types);
    ConstantShaped(x, ty);
  }

  lemma PowerShaped(op: BinaryOp, l: Val, r: Val, x: Name, ty: CType)
    ensures Shaped(ReducePower(op, l, r, x, ty), x, ty)
  {
    hide ShiftCount, IntegerConstant, Pow2, ConstantFor;
  }

  lemma SameShaped(op: BinaryOp, v: Val, x: Name, ty: CType, types: Types)
    ensures Shaped(SameOperands(op, v, x, ty, types), x, ty)
  {
    hide IntegerConstant, AllOnesConstant, ComplementOf, Shaped;
    IdentityShaped(v, x, ty, types);
    ConstantShaped(x, ty);
  }

  lemma SimplifyShaped(op: BinaryOp, l: Val, r: Val, x: Name, ty: CType, types: Types)
    ensures Shaped(Simplify(op, l, r, x, ty, types), x, ty)
    ensures IsComparison(op) && Simplify(op, l, r, x, ty, types).Some? ==>
              Simplify(op, l, r, x, ty, types).value.Copy? && Simplify(op, l, r, x, ty, types).value.src.Constant?
  {
    if IsComparison(op) {
      hide Related;
    } else {
      hide ReducePower, SameOperands, SpecialOperand, CopyIdentity, Shaped;
      PowerShaped(op, l, r, x, ty);
      SameShaped(op, l, x, ty, types);
      SpecialShaped(op, l, r, x, ty, types);
      IdentityShaped(l, x, ty, types);
    }
  }

  lemma EvaluatedFor(op: BinaryOp, ty: CType, a: int, b: int)
    requires IsPromoted(ty)
    ensures var v := Evaluate(op, ty, a, b);
      v.Some? ==> !v.value.Var? && if IsComparison(op) then v.value.Constant? else ConstantFor(ty, v.value)
  {
    assert !FoldedConstant(ty, Arith(op, ty, a, b)).Var? by { hide Held, Arith; }
    hide Canon, Arith, Related, FoldedConstant, ConstantFor;
    ConstantsFor(ty, Arith(op, ty, a, b));
  }

  /** A variable the simplifier copies is one of the operands. */
  predicate CopiesOperand(o: Option<Instr>, l: Val, r: Val) {
    o.Some? && o.value.Copy? && o.value.src.Var? ==> o.value.src == l || o.value.src == r
  }

  lemma NotVariable(ty: CType, n: int)
    ensures !IntegerConstant(ty, n).Var? && !AllOnesConstant(ty).Var?
  {
    hide CastWide, Canon, Residue;
  }

  lemma IdentityCopies(v: Val, x: Name, ty: CType, types: Types, l: Val, r: Val)
    requires v == l || v == r
    ensures CopiesOperand(CopyIdentity(v, x, ty, types), l, r) && CopiesOperand(ComplementOf(v, x, ty, types), l, r)
  {
  }

  lemma ConstantCopies(x: Name, ty: CType, l: Val, r: Val)
    ensures CopiesOperand(None, l, r) && CopiesOperand(Some(Copy(IntegerConstant(ty, 0), x)), l, r)
    ensures CopiesOperand(Some(Copy(AllOnesConstant(ty), x)), l, r)
  {
    NotVariable(ty, 0);
    hide IntegerConstant, AllOnesConstant;
  }

  lemma SpecialCopies(op: BinaryOp, l: Val, r: Val, x: Name, ty: CType, types: Types)
    ensures CopiesOperand(SpecialOperand(op, l, r, x, ty, types), l, r)
  {
    hide IntegerConstant, AllOnesConstant, CopyIdentity, ComplementOf, CopiesOperand, IsAllOnesVal, IsZeroVal,
      IsOneVal, CanCopy;
    IdentityCopies(l, x, ty, types, l, r);
    IdentityCopies(r, x, ty, types, l, r);
    ConstantCopies(x, ty, l, r);
  }

  lemma PowerCopies(op: BinaryOp, l: Val, r: Val, x: Name, ty: CType)
    ensures CopiesOperand(ReducePower(op, l, r, x, ty), l, r)
  {
    hide ShiftCount, IntegerConstant, Pow2;
  }

  lemma SameCopies(op: BinaryOp, v: Val, x: Name, ty: CType, types: Types)
    ensures CopiesOperand(SameOperands(op, v, x, ty, types), v, v)
  {
    hide IntegerConstant, ComplementOf, CopiesOperand;
    IdentityCopies(v, x, ty, types, v, v);
    ConstantCopies(x, ty, v, v);
  }

  lemma SimplifyCopies(op: BinaryOp, l: Val, r: Val, x: Name, ty: CType, types: Types)
    ensures CopiesOperand(Simplify(op, l, r, x, ty, types), l, r)
  {
    if IsComparison(op) {
      hide Related;
    } else {
      hide ReducePower, SameOperands, SpecialOperand, CopyIdentity, CopiesOperand;
      PowerCopies(op, l, r, x, ty);
      SameCopies(op, l, x, ty, types);
      SpecialCopies(op, l, r, x, ty, types);
      IdentityCopies(l, x, ty, types, l, r);
    }
  }

  lemma FoldBinaryCases(types: Types, op: BinaryOp, l: Val, r: Val, x: Name, hint: CType)
    ensures var ty := if IsComparison(op) then hint else TypeOf(types, x);
      var f := FoldBinary(types, op, l, r, x, hint);
      || f == Binary(op, l, r, x)
      || ((IsPromoted(ty) || IsSmall(ty)) && Simplify(op, l, r, x, ty, types) == Some(f))
      || (ConstantOf(l).Some? && ConstantOf(r).Some?
          && exists a, b ::
               Evaluate(op, EvalType(ty), a, b).Some? && f == Copy(Evaluate(op, EvalType(ty), a, b).value, x))
  {
    hide Simplify, Evaluate, IsPromoted, IsComparison, IsSmall, EvalType;
  }

  /** What a binary instruction is folded to. */
  lemma BinaryShaped(types: Types, op: BinaryOp, l: Val, r: Val, x: Name, hint: CType)
    ensures var f := FoldBinary(types, op, l, r, x, hint);
      var ty := if IsComparison(op) then hint else TypeOf(types, x);
      && Computes(f) && DefinedVar(f) == Some(x) && (f.Unary? || f.Binary? || f.Copy?)
      && (f.Copy? ==> IsPromoted(ty) || IsSmall(ty) || (ConstantOf(l).Some? && ConstantOf(r).Some?))
      && (f.Copy? ==> if IsComparison(op) then f.src.Constant? else ConstantFor(ty, f.src))
      && CopiesOperand(Some(f), l, r)
  {
    var ty := if IsComparison(op) then hint else TypeOf(types, x);
    hide FoldBinary, Simplify, Evaluate, ConstantFor, IsPromoted, IsComparison, IsSmall, EvalType;
    FoldBinaryCases(types, op, l, r, x, hint);
    SimplifyShaped(op, l, r, x, ty, types);
    SimplifyCopies(op, l, r, x, ty, types);
    forall a, b
      ensures Evaluate(op, EvalType(ty), a, b).Some? ==>
        && !Evaluate(op, EvalType(ty), a, b).value.Var?
        && if IsComparison(op) then Evaluate(op, EvalType(ty), a, b).value.Constant?
           else ConstantFor(ty, Evaluate(op, EvalType(ty), a, b).value)
    {
      EvaluatedFor(op, EvalType(ty), a, b);
      EvalTypeWide(ty);
    }
  }

  lemma EvalTypeWide(ty: CType)
    ensures IsWide(EvalType(ty)) ==> IsWide(ty)
    ensures forall v :: ConstantFor(EvalType(ty), v) ==> ConstantFor(ty, v)
  {
  }

  lemma FoldComputes(types: Types, m: Constants, i: Instr)
    requires Computes(i)
    ensures Computes(FoldOne(types, m, i)) && DefinedVar(FoldOne(types, m, i)) == DefinedVar(i)
  {
    if i.Binary? {
      BinaryShaped(types, i.bop, ResolveVal(i.left, m), ResolveVal(i.right, m), i.dst, Hint(types, m, i));
    }
    hide FoldBinary, Canon, Unsettled, Widened, IntegerConstant, CastWide, ResolveVal, Hint;
  }

  lemma LoadFoldSame(c: Ctx, m: Constants, i: Instr, d: Data)
    requires EntriesHold(c.types, m, d.env) && (i.Load? || i.Return?) && ReadRight(c.types, m, i)
    ensures StepsAlike(c, i, FoldOne(c.types, m, i), d)
  {
    hide EntriesHold, Exact, ResolveVal, EvalVal;
    ExactOperand(c.types, m, if i.Load? then i.srcPtr else i.val, d.env);
  }

  /** Everything the scan emits steps like the instruction it stands for. */
  lemma FoldOneAlike(c: Ctx, m: Constants, i: Instr, d: Data)
    requires FoldingMachine(c.machine) && EntriesHold(c.types, m, d.env)
    requires Integral(c.types, m, i) && ReadRight(c.types, m, i) && DefinedAt(c.types, i, d.env)
    requires IsBarrier(i) ==> m == map[]
    ensures StepsAlike(c, i, FoldOne(c.types, m, i), d)
  {
    if Computes(i) {
      FoldComputes(c.types, m, i);
    } else if i.FunCall? {
      CallStays(c.types, i);
    }
    hide FoldingMachine, EntriesHold, FoldOne, Exec, DefinedAt, Integral, ReadRight;
    match i
    case Binary(_, _, _, _) => BinaryFoldSame(c, m, i, d); ComputesAlike(c, i, FoldOne(c.types, m, i), d);
    case Unary(_, _, _) => UnaryFoldSame(c, m, i, d); ComputesAlike(c, i, FoldOne(c.types, m, i), d);
    case Convert(_, _, _) => ConvertFoldSame(c, m, i, d); ComputesAlike(c, i, FoldOne(c.types, m, i), d);
    case AddPtr(_, _, _, _) => AddPtrFoldSame(c, m, i, d); ComputesAlike(c, i, FoldOne(c.types, m, i), d);
    case JumpIfZero(_, _) => BranchFoldSame(c, m, i, d);
    case JumpIfNotZero(_, _) => BranchFoldSame(c, m, i, d);
    case Load(_, _) => LoadFoldSame(c, m, i, d);
    case Return(_) => LoadFoldSame(c, m, i, d);
    case _ => OthersStay(c, m, i, d);
  }

  lemma OthersStay(c: Ctx, m: Constants, i: Instr, d: Data)
    requires !i.Binary? && !i.Unary? && !i.Convert? && !i.AddPtr? && !i.JumpIfZero? && !i.JumpIfNotZero? && !i.Load?
      && !i.Return?
    requires i.FunCall? ==> FoldOne(c.types, m, i) == i
    ensures StepsAlike(c, i, FoldOne(c.types, m, i), d)
  {
    hide Exec, Taken;
  }

  // ----- the record stays right -----

  /** What an emitted copy must be for the record to take it in. */
  predicate Records(types: Types, m: Constants, f: Instr) {
    f.Copy? ==>
      && !f.src.DoubleConstant?
      && (ConstantOf(f.src).Some? || IsKnownVar(f.src, m) ==> Storable(TypeOf(types, f.dst)))
      && (IsKnownVar(f.src, m) ==> NoTwins(TypeOf(types, f.src.name), TypeOf(types, f.dst)))
      && (f.src.Int128Constant? || f.src.UInt128Constant? ==> f.dst in types)
  }

  /** A variable that is left after resolving is not known. */
  lemma ResolvedUnknown(types: Types, m: Constants, v: Val, env: Env)
    requires EntriesHold(types, m, env)
    ensures !IsKnownVar(ResolveVal(v, m), m)
  {
    hide EntriesHold;
    RecordedIsKnown(v, m, types, env);
  }

  lemma BinaryRecords(types: Types, m: Constants, i: Instr, env: Env)
    requires EntriesHold(types, m, env) && i.Binary? && Integral(types, m, i)
    ensures Records(types, m, FoldOne(types, m, i))
  {
    hide FoldOne, FoldBinary, EntriesHold, Common, ResolveVal, ResolveType, Hint, ComparedAt, OperandOf,
      ComparesAddresses, IsPromoted;
    HintType(types, m, i.left, env);
    HintType(types, m, i.right, env);
    HintCommon(types, m, i);
    CommonNotSmall(ValType(types, i.left), ValType(types, i.right));
    ResolvedUnknown(types, m, i.left, env);
    ResolvedUnknown(types, m, i.right, env);
    KnownNeedsType(types, m, i.left, TypeOf(types, i.dst));
    KnownNeedsType(types, m, i.right, TypeOf(types, i.dst));
    BinaryShaped(types, i.bop, ResolveVal(i.left, m), ResolveVal(i.right, m), i.dst, Hint(types, m, i));
    FoldOneBinary(types, m, i);
    WideInTypes(types, i.dst);
  }

  lemma WideInTypes(types: Types, x: Name)
    ensures IsWide(TypeOf(types, x)) ==> x in types
  {
  }

  lemma UnaryRecords(types: Types, m: Constants, i: Instr)
    requires Integral(types, m, i) && i.Unary?
    ensures Records(types, m, FoldOne(types, m, i))
  {
    var ty := TypeOf(types, i.dst);
    FoldOneUnary(types, m, i);
    forall n ensures ConstantFor(ty, Unsettled(ty, n)) && ConstantOf(Unsettled(ty, n)).Some? {
      ConstantsFor(ty, n);
    }
    hide FoldOne, Unsettled, OperandOf;
    assert IsPromoted(ty) ==> Storable(ty) && (IsWide(ty) ==> i.dst in types);
    assert OperandOf(types, m, i.src, ty) ==> IsKnown(i.src, m) ==>
      IsPromoted(ty) by { KnownNeedsType(types, m, i.src, ty); }
  }

  lemma KnownNeedsType(types: Types, m: Constants, v: Val, ty: CType)
    ensures OperandOf(types, m, v, ty) && IsKnown(v, m) ==> IsPromoted(ty)
  {
  }

  lemma ConvertRecords(types: Types, m: Constants, i: Instr)
    requires Integral(types, m, i) && i.Convert?
    ensures Records(types, m, FoldOne(types, m, i))
  {
    var ty := TypeOf(types, i.dst);
    forall n ensures ConstantFor(ty, IntegerConstant(ty, n)) {
      ConstantsFor(ty, n);
    }
    hide IntegerConstant, CastWide, Widened, NumberOf, ResolveType, Storable;
  }

  lemma PointerStorable()
    ensures Storable(Pointer)
  {
  }

  lemma AddPtrRecords(types: Types, m: Constants, i: Instr, env: Env)
    requires EntriesHold(types, m, env) && Integral(types, m, i) && i.AddPtr?
    ensures Records(types, m, FoldOne(types, m, i))
  {
    hide Canon, FoldOne, EntriesHold, ResolveVal, Storable;
    assert Storable(Pointer) by { PointerStorable(); }
    FoldOneAddPtr(types, m, i);
    ResolvedUnknown(types, m, i.ptr, env);
    if i.ptr.Var? && TypeOf(types, i.ptr.name) == Pointer {
      AddressResolved(types, m, i.ptr, env);
    }
  }

  /** Whatever the scan emits may go on record. */
  lemma FoldRecords(types: Types, m: Constants, i: Instr, env: Env)
    requires EntriesHold(types, m, env) && Integral(types, m, i)
    ensures Records(types, m, FoldOne(types, m, i))
  {
    hide EntriesHold;
    match i
    case Binary(_, _, _, _) => BinaryRecords(types, m, i, env);
    case Unary(_, _, _) => UnaryRecords(types, m, i);
    case Convert(_, _, _) => ConvertRecords(types, m, i);
    case AddPtr(_, _, _, _) => AddPtrRecords(types, m, i, env);
    case _ =>
  }
}
