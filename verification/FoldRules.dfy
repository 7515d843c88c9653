/** What constant folding makes of one instruction, given the constants known before it, and that
    the rewritten instruction does what the original does. */
module FoldRules {
  import opened Tacky
  import opened Semantics
  import opened BinaryIdentities

  // ----- the rewrite -----

  /** `KnownConstant` */
  datatype Known = Known(value: Val, valueType: CType)

  /** `const_map` */
  type Constants = map<Name, Known>

  /** `resolve_val` */
  function ResolveVal(v: Val, m: Constants): Val {
    if v.Var? && v.name in m then m[v.name].value else v
  }

  /** `resolve_val_type` */
  function ResolveType(types: Types, v: Val, m: Constants): CType {
    if v.Var? && v.name in m then m[v.name].valueType else ValType(types, v)
  }

  /** `resolve_constants`; the caller leaves copies and stores alone. */
  function Resolve(i: Instr, m: Constants): Instr {
    match i
    case Return(v) => Return(ResolveVal(v, m))
    case Unary(op, v, x) => Unary(op, ResolveVal(v, m), x)
    case Binary(op, l, r, x) => Binary(op, ResolveVal(l, m), ResolveVal(r, m), x)
    case Convert(kind, v, x) => Convert(kind, ResolveVal(v, m), x)
    case JumpIfZero(v, t) => JumpIfZero(ResolveVal(v, m), t)
    case JumpIfNotZero(v, t) => JumpIfNotZero(ResolveVal(v, m), t)
    case FunCall(f, args, x, indirect) =>
      FunCall(f, seq(|args|, k requires 0 <= k < |args| => ResolveVal(args[k], m)), x, indirect)
    case Load(p, x) => Load(ResolveVal(p, m), x)
    case AddPtr(p, n, scale, x) => AddPtr(ResolveVal(p, m), ResolveVal(n, m), scale, x)
    case _ => i
  }

  /** `src_type_hint` */
  function Hint(types: Types, m: Constants, i: Instr): CType {
    match i
    case Binary(_, l, r, _) => Common(ResolveType(types, l, m), ResolveType(types, r, m))
    case Convert(_, v, _) => ResolveType(types, v, m)
    case _ => Int
  }

  predicate IsWide(ty: CType) {
    ty.Int128? || ty.UInt128?
  }

  /** The constants folding computes with at a type: 64-bit ones, and wide ones at wide types. */
  function Foldable(ty: CType, v: Val): Option<int> {
    if IsWide(ty) then ConstantOf(v) else if v.Constant? then Some(v.i) else None
  }

  /** The constant that stands for `n` at `ty`. */
  function FoldedConstant(ty: CType, n: int): Val
    requires IsPromoted(ty)
  {
    match ty
    case Int128 => Int128Constant(Held(ty, n))
    case UInt128 => UInt128Constant(Held(ty, n))
    case _ => Constant(Held(ty, n))
  }

  /** `eval_binary_typed` and its wide variants: two constants at a type. */
  function Evaluate(op: BinaryOp, ty: CType, a: int, b: int): Option<Val>
    requires IsPromoted(ty)
  {
    if IsComparison(op) then Some(Truth(Related(op, Canon(ty, a), Canon(ty, b))))
    else if Divides(op) && Canon(ty, b) == 0 then None
    else Some(FoldedConstant(ty, Arith(op, ty, a, b)))
  }

  /** The type constants are combined at (`eval_binary_typed`). */
  function EvalType(ty: CType): (u: CType)
    ensures IsPromoted(u) && (IsPromoted(ty) ==> u == ty)
  {
    match ty
    case Char | SChar | Short => Int
    case UChar | UShort => UInt
    case _ => if IsPromoted(ty) then ty else Long
  }

  function FoldBinary(types: Types, op: BinaryOp, l: Val, r: Val, x: Name, hint: CType): Instr {
    var ty := if IsComparison(op) then hint else TypeOf(types, x);
    var a, b := Foldable(ty, l), Foldable(ty, r);
    var value := if a.Some? && b.Some? then Evaluate(op, EvalType(ty), a.value, b.value) else None;
    var simpler := if IsPromoted(ty) || IsSmall(ty) then Simplify(op, l, r, x, ty, types) else None;
    if value.Some? then Copy(value.value, x)
    else if simpler.Some? then simpler.value
    else Binary(op, l, r, x)
  }

  /** Negation and complement of numbers of at most 64 bits are computed at 64 bits. */
  function Unsettled(ty: CType, n: int): Val {
    if IsWide(ty) then FoldedConstant(ty, n) else Constant(Canon(Long, n))
  }

  function FoldUnary(types: Types, op: UnaryOp, v: Val, x: Name): Instr {
    var ty := TypeOf(types, x);
    var n := Foldable(ty, v);
    if n.None? then Unary(op, v, x)
    else match op
      case Negate => Copy(Unsettled(ty, -n.value), x)
      case Complement => Copy(Unsettled(ty, -1 - n.value), x)
      case LogicalNot => Copy(Truth(n.value == 0), x)
  }

  predicate ConvertsIntegers(kind: Conversion) {
    kind.Truncate? || kind.SignExtend? || kind.ZeroExtend?
  }

  function TypeOr(types: Types, x: Name, otherwise: CType): CType {
    if x in types then types[x] else otherwise
  }

  /** `sign_extend_integer_constant_wide` and `zero_extend_integer_constant_wide`. */
  function Widened(kind: Conversion, from: CType, n: int): int {
    match kind
    case SignExtend =>
      (match from
       case Bool => if n != 0 then 1 else 0
       case Int => Canon(Int, n)
       case UInt => Residue(UInt, n)
       case Long => Canon(Long, n)
       case ULong => Canon(Long, n)
       case _ => if IsSmall(from) then Narrow(from, n) else n)
    case ZeroExtend =>
      (match from
       case Bool => if n != 0 then 1 else 0
       case Int => Residue(UInt, n)
       case UInt => Residue(UInt, n)
       case Long => Residue(ULong, n)
       case ULong => Residue(ULong, n)
       case Int128 => Canon(Int128, Residue(UInt128, n))
       case UInt128 => Canon(Int128, Residue(UInt128, n))
       case _ => if IsSmall(from) then LowBits(from, n) else n)
    case _ => n
  }

  function FoldConvert(types: Types, kind: Conversion, v: Val, x: Name, hint: CType): Instr {
    var ty := if kind.ZeroExtend? then TypeOr(types, x, UInt) else TypeOf(types, x);
    if ConvertsIntegers(kind) && ConstantOf(v).Some? then
      Copy(IntegerConstant(ty, CastWide(ty, Widened(kind, hint, ConstantOf(v).value))), x)
    else Convert(kind, v, x)
  }

  function FoldAddPtr(p: Val, n: Val, scale: int, x: Name): Instr {
    if !n.Constant? then AddPtr(p, n, scale, x)
    else
      var offset := Canon(Long, n.i * scale);
      if offset == 0 then Copy(p, x)
      else if scale != 1 then AddPtr(p, Constant(offset), 1, x)
      else AddPtr(p, n, scale, x)
  }

  function FoldBranch(i: Instr, v: Val): Instr
    requires i.JumpIfZero? || i.JumpIfNotZero?
  {
    if ConstantOf(v).None? then i
    else if (ConstantOf(v).value == 0) == i.JumpIfZero? then Jump(i.target)
    else Nop
  }

  /** `fold_instruction`, on integers. */
  function FoldInstruction(types: Types, i: Instr, hint: CType): Instr {
    match i
    case Binary(op, l, r, x) => FoldBinary(types, op, l, r, x, hint)
    case Unary(op, v, x) => FoldUnary(types, op, v, x)
    case Convert(kind, v, x) => FoldConvert(types, kind, v, x, hint)
    case AddPtr(p, n, scale, x) => FoldAddPtr(p, n, scale, x)
    case JumpIfZero(v, _) => FoldBranch(i, v)
    case JumpIfNotZero(v, _) => FoldBranch(i, v)
    case _ => i
  }

  /** `is_typed_sensitive_binary`: such an instruction keeps its operands if it is not folded. */
  predicate TypeSensitive(op: BinaryOp) {
    IsComparison(op) || op.ShiftLeft? || op.ShiftRight?
  }

  predicate KeepsOperands(i: Instr) {
    i.Copy? || i.Store? || i.CopyToOffset?
  }

  /** The instruction the scan emits for `i`. */
  function FoldOne(types: Types, m: Constants, i: Instr): Instr {
    var resolved := if KeepsOperands(i) then i else Resolve(i, m);
    var folded := FoldInstruction(types, resolved, Hint(types, m, i));
    if i.Binary? && folded.Binary? && TypeSensitive(i.bop) then i else folded
  }

  // ----- the record of constants -----

  /** What is known after the emitted instruction; `get_dst_name` does not name the destination of
      a write at an offset. */
  function AfterFold(types: Types, m: Constants, f: Instr): Constants {
    match f
    case Copy(v, x) =>
      (match v
       case Constant(_) => m[x := Known(v, TypeOf(types, x))]
       case DoubleConstant(_) =>
         if TypeOr(types, x, Double).Double?
           || TypeOr(types, x, Double).Float? then m[x := Known(v, Double)] else m - {x}
       case Int128Constant(_) => if TypeOr(types, x, Int128).Int128? then m[x := Known(v, Int128)] else m - {x}
       case UInt128Constant(_) => if TypeOr(types, x, UInt128).UInt128? then m[x := Known(v, UInt128)] else m - {x}
       case Var(y) => if y in m && SameType(m[y].valueType, TypeOf(types, x)) then m[x := m[y]] else m - {x})
    case CopyToOffset(_, _, _) => m
    case _ => if DefinedVar(f).Some? then m - {DefinedVar(f).value} else m
  }

  /** `is_constant_folding_barrier` */
  predicate IsBarrier(i: Instr) {
    i.FunCall? || i.Store?
  }

  // ----- the machine -----

  ghost predicate Negates(m: Machine, ty: CType, a: int) {
    IsPromoted(ty) ==> m.unary(Negate, ty, Num(a)) == Num(Held(ty, -a))
  }

  ghost predicate Tests(m: Machine, ty: CType, a: int) {
    && m.isZero(Num(a)) == (a == 0)
    && (IsPromoted(ty) ==> m.unary(LogicalNot, ty, Num(a)) == Num(if a == 0 then 1 else 0))
  }

  /** The types integers are converted from, and their bits as a natural number. */
  predicate IsConverted(s: CType) {
    IsPromoted(s) || (IsSmall(s) && !s.Bool?)
  }

  function Bits(s: CType, a: int): int
    requires IsConverted(s)
  {
    if IsPromoted(s) then Residue(s, a) else LowBits(s, a)
  }

  /** Truncation keeps the low bits; extension reads its operand at the operand's type. */
  ghost predicate Converts(m: Machine, s: CType, ty: CType, a: int) {
    Storable(ty) && !ty.Bool? && IsConverted(s) && NumberOf(s, a) ==>
      && m.convert(Truncate, ClassOf(s), ty, Num(a)) == Num(Held(ty, a))
      && (IsSigned(s) ==> m.convert(SignExtend, ClassOf(s), ty, Num(a)) == Num(Held(ty, a)))
      && m.convert(ZeroExtend, ClassOf(s), ty, Num(a)) == Num(Held(ty, Bits(s, a)))
  }

  /** Operands that are compared for equality as addresses. */
  predicate AddressPair(op: BinaryOp, s: CType, t: CType) {
    Storable(s) && Storable(t) && Common(s, t).Pointer? && Size(s) <= 8 && Size(t) <= 8 && (op.Equal? || op.NotEqual?)
  }

  /** Addresses that are numbers are equal when their 64 bits are. */
  ghost predicate ComparesPointers(m: Machine, op: BinaryOp, s: CType, t: CType, ty: CType, a: int, b: int) {
    AddressPair(op, s, t) && IsPromoted(ty) && NumberOf(s, a) && NumberOf(t, b) ==>
      m.binary(op, ClassOf(s), ClassOf(t), ty, Num(a), Num(b))
        == Num(if Related(op, Canon(Long, a), Canon(Long, b)) then 1 else 0)
  }

  ghost predicate StepsPointers(m: Machine, p: Value, n: int, scale: int) {
    var offset := Canon(Long, n * scale);
    && m.addPtr(p, Num(n), scale) == m.addPtr(p, Num(offset), 1)
    && (offset == 0 ==> m.addPtr(p, Num(n), scale) == m.copy(ClassOf(Pointer), Pointer, p))
  }

  /** A machine with two's-complement integers and byte-wise pointer arithmetic. */
  ghost predicate FoldingMachine(m: Machine) {
    && IntegerMachine(m)
    && (forall ty, a :: Negates(m, ty, a))
    && (forall ty, a :: Tests(m, ty, a))
    && (forall s, ty, a :: Converts(m, s, ty, a))
    && (forall op, s, t, ty, a, b :: ComparesPointers(m, op, s, t, ty, a, b))
    && (forall p, n, scale :: StepsPointers(m, p, n, scale))
  }

  // ----- when folding is about integers, and when it is right -----

  predicate IsKnown(v: Val, m: Constants) {
    ConstantOf(ResolveVal(v, m)).Some?
  }

  predicate IsKnownVar(v: Val, m: Constants) {
    v.Var? && v.name in m
  }

  /** A literal operand fits the type it is read at. */
  predicate LiteralFits(types: Types, v: Val) {
    ConstantOf(v).Some? ==> NumberOf(ValType(types, v), ConstantOf(v).value)
  }

  /** A known variable, or any constant, among the operands of arithmetic at `ty`. */
  predicate OperandOf(types: Types, m: Constants, v: Val, ty: CType) {
    IsKnown(v, m) ==> IsPromoted(ty) && (v.Var? ==> TypeOf(types, v.name) == ty)
  }

  predicate ComparedAt(types: Types, m: Constants, v: Val, ty: CType) {
    LiteralFits(types, v) && (IsKnownVar(v, m) ==> Size(TypeOf(types, v.name)) == Size(ty))
  }

  /** Types that pass for the same are the same; below 32 bits, and for addresses, they need not be. */
  predicate NoTwins(s: CType, t: CType) {
    SameType(s, t) ==> s == t
  }

  /** Of the comparisons of addresses only equality is covered: their order is folded as that of signed
      numbers. */
  predicate ComparesAddresses(types: Types, op: BinaryOp, l: Val, r: Val) {
    AddressPair(op, ValType(types, l), ValType(types, r))
  }

  /** Where the instruction can be folded, it is about integers, computed with at 32 bits or more, or it
      stores, converts or compares smaller ones and addresses; and its operands have the types TACKY
      gives them. */
  predicate Integral(types: Types, m: Constants, i: Instr) {
    match i
    case Copy(v, x) =>
      && !v.DoubleConstant?
      && (ConstantOf(v).Some? || IsKnownVar(v, m) ==> Storable(TypeOf(types, x)))
      && (IsKnownVar(v, m) ==> NoTwins(TypeOf(types, v.name), TypeOf(types, x)))
      && (v.Int128Constant? || v.UInt128Constant? ==> x in types)
    case Unary(op, v, x) =>
      && !v.DoubleConstant?
      && (if op.LogicalNot? then IsKnown(v, m) ==>
         IsPromoted(TypeOf(types, x)) else OperandOf(types, m, v, TypeOf(types, x)))
    case Binary(op, l, r, x) =>
      && !(l.DoubleConstant? && r.DoubleConstant?)
      && (if IsComparison(op) then
            var ty := Common(ValType(types, l), ValType(types, r));
            IsPromoted(ty) || (IsKnown(l, m) && IsKnown(r, m)) ==>
              && IsPromoted(TypeOf(types, x)) && ComparedAt(types, m, l, ty) && ComparedAt(types, m, r, ty)
              && (IsPromoted(ty) || ComparesAddresses(types, op, l, r))
          else
            && !IsSmall(TypeOf(types, x))
            && OperandOf(types, m, l, TypeOf(types, x))
            && (if op.ShiftLeft? || op.ShiftRight? then
                  IsKnown(r, m) ==> IsPromoted(TypeOf(types, x)) && (r.Var? ==> IsPromoted(TypeOf(types, r.name)))
                else OperandOf(types, m, r, TypeOf(types, x))))
    case Convert(kind, v, x) =>
      && !v.DoubleConstant?
      && (IsKnown(v, m) ==>
            && ConvertsIntegers(kind) && x in types && Storable(types[x]) && !types[x].Bool?
            && IsConverted(ValType(types, v)) && LiteralFits(types, v)
            && (kind.Truncate? ==> Size(types[x]) <= Size(ValType(types, v)))
            && (kind.SignExtend? ==> IsSigned(ValType(types, v))))
    case JumpIfZero(v, _) => !v.DoubleConstant?
    case JumpIfNotZero(v, _) => !v.DoubleConstant?
    case AddPtr(p, n, scale, x) =>
      ResolveVal(n, m).Constant? && Canon(Long, ResolveVal(n, m).i * scale) == 0 ==>
        p.Var? && TypeOf(types, p.name) == Pointer == TypeOf(types, x)
    case CopyToOffset(_, x, _) => x !in m
    case FunCall(_, args, _, indirect) => !indirect && |args| == 1 ==> !args[0].DoubleConstant?
    case _ => true
  }

  /** The number a variable holds while `n` is on record for it. */
  function HeldBy(types: Types, x: Name, n: int): int {
    if Storable(TypeOf(types, x)) then Held(TypeOf(types, x), n) else n
  }

  /** The constant on record for an operand is the number the operand has. */
  predicate Exact(types: Types, m: Constants, v: Val) {
    IsKnownVar(v, m) && IsKnown(v, m) ==>
      HeldBy(types, v.name, ConstantOf(m[v.name].value).value) == ConstantOf(m[v.name].value).value
  }

  /** The constant on record is 0 exactly when the operand is. */
  predicate SameTruth(types: Types, m: Constants, v: Val) {
    IsKnownVar(v, m) && IsKnown(v, m) ==>
      (HeldBy(types, v.name, ConstantOf(m[v.name].value).value) == 0) == (ConstantOf(m[v.name].value).value == 0)
  }

  /** Constants are right where more than their low bits is looked at. */
  predicate ReadRight(types: Types, m: Constants, i: Instr) {
    match i
    case Unary(op, v, _) => op.LogicalNot? ==> SameTruth(types, m, v)
    case JumpIfZero(v, _) => SameTruth(types, m, v)
    case JumpIfNotZero(v, _) => SameTruth(types, m, v)
    case Return(v) => Exact(types, m, v)
    case Load(p, _) => Exact(types, m, p)
    case AddPtr(p, n, _, _) => Exact(types, m, p) && Exact(types, m, n)
    case _ => true
  }

  /** A constant on record agrees with its variable in the low bits. */
  ghost predicate EntryHolds(types: Types, k: Known, x: Name, env: Env) {
    var ty := TypeOf(types, x);
    && Storable(ty) && k.valueType == ty && ConstantOf(k.value).Some? && (!IsWide(ty) ==> k.value.Constant?)
    && Read(env, x) == Num(Held(ty, ConstantOf(k.value).value))
  }

  ghost predicate EntriesHold(types: Types, m: Constants, env: Env) {
    forall x :: x in m ==> EntryHolds(types, m[x], x, env)
  }

  /** Integer operators get numbers, divisors are not 0, and comparisons get numbers of their types. */
  predicate DefinedAt(types: Types, i: Instr, env: Env) {
    i.Binary? ==>
      var ty := if IsComparison(i.bop) then Common(ValType(types, i.left), ValType(types, i.right))
        else TypeOf(types, i.dst);
      IsPromoted(ty) ==>
        && EvalVal(i.left, env).Num? && EvalVal(i.right, env).Num?
        && (Divides(i.bop) ==> Canon(ty, EvalVal(i.right, env).n) != 0)
        && (IsComparison(i.bop) ==>
              NumberOf(ValType(types, i.left), EvalVal(i.left, env).n)
                && NumberOf(ValType(types, i.right), EvalVal(i.right, env).n))
  }
}
