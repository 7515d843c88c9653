/** The algebraic simplifications of constant folding, at 32, 64 and 128 bits: every rewrite
    leaves the value the original instruction leaves, for every machine that does
    two's-complement arithmetic. */
module BinaryIdentities {
  import opened Tacky
  import opened Semantics
  import opened Arithmetic

  // ----- two's complement -----

  function Pow2(k: nat): (p: nat)
    ensures p > 0
  {
    if k == 0 then 1 else 2 * Pow2(k - 1)
  }

  /** The types arithmetic is carried out in after promotion. */
  predicate IsPromoted(ty: CType) {
    ty.Int? || ty.UInt? || ty.Long? || ty.ULong? || ty.Int128? || ty.UInt128?
  }

  function Width(ty: CType): (w: nat)
    requires IsPromoted(ty)
    ensures w == 32 || w == 64 || w == 128
  {
    Size(ty) * 8
  }

  /** The bits of `n` at the type's width, read as a natural number. */
  function Residue(ty: CType, n: int): (r: nat)
    requires IsPromoted(ty)
    ensures r < Pow2(Width(ty))
  {
    n % Pow2(Width(ty))
  }

  /** The value those bits have in the type. */
  function Canon(ty: CType, n: int): int
    requires IsPromoted(ty)
  {
    var r := Residue(ty, n);
    if IsSigned(ty) && r >= Pow2(Width(ty) - 1) then r - Pow2(Width(ty)) else r
  }

  predicate IsSmall(t: CType) {
    t.Char? || t.SChar? || t.UChar? || t.Short? || t.UShort? || t.Bool?
  }

  /** The bits of `n` at a type below 32 bits, and the value they have in it. */
  function LowBits(ty: CType, n: int): nat
    requires IsSmall(ty)
  {
    n % if Size(ty) == 1 then 256 else 65536
  }

  function Narrow(ty: CType, n: int): int
    requires IsSmall(ty)
  {
    var w := if Size(ty) == 1 then 256 else 65536;
    if IsSigned(ty) && LowBits(ty, n) >= w / 2 then LowBits(ty, n) - w else LowBits(ty, n)
  }

  /** The types of variables that can hold a number. */
  predicate Storable(ty: CType) {
    IsPromoted(ty) || IsSmall(ty) || ty.Pointer?
  }

  /** The number a variable of the type holds: TACKY keeps unsigned 64-bit numbers and addresses, like
      every constant of at most 64 bits, as signed 64-bit patterns. */
  function Held(ty: CType, n: int): int
    requires Storable(ty)
  {
    if ty.ULong? || ty.Pointer? then Canon(Long, n) else if IsSmall(ty) then Narrow(ty, n) else Canon(ty, n)
  }

  /** `CType::common`: the usual arithmetic conversions. */
  function Common(a: CType, b: CType): CType {
    var s, t := if IsSmall(a) then Int else a, if IsSmall(b) then Int else b;
    if s == t then s
    else if s.LongDouble? || t.LongDouble? then LongDouble
    else if s.Double? || t.Double? then Double
    else if s.Float? || t.Float? then Float
    else if s.Pointer? || t.Pointer? then Pointer
    else if Size(s) == Size(t) then (if IsSigned(s) then t else s)
    else if Size(s) > Size(t) then s else t
  }

  // ----- bits -----

  function BitAnd(x: nat, y: nat): nat {
    if x == 0 || y == 0 then 0 else 2 * BitAnd(x / 2, y / 2) + if x % 2 == 1 && y % 2 == 1 then 1 else 0
  }

  function BitOr(x: nat, y: nat): nat {
    if x == 0 && y == 0 then 0 else 2 * BitOr(x / 2, y / 2) + if x % 2 == 1 || y % 2 == 1 then 1 else 0
  }

  function BitXor(x: nat, y: nat): nat {
    if x == 0 && y == 0 then 0 else 2 * BitXor(x / 2, y / 2) + if x % 2 != y % 2 then 1 else 0
  }

  /** The lowest `w` bits of `x` moved up by `k`: `k` zeros, then the bits of `x` from the lowest. */
  function BitShiftLeft(x: nat, k: nat, w: nat): nat
    decreases w
  {
    if w == 0 then 0
    else if k > 0 then 2 * BitShiftLeft(x, k - 1, w - 1)
    else x % 2 + 2 * BitShiftLeft(x / 2, 0, w - 1)
  }

  /** The bits of `x` moved down `k` times: each time the lowest goes and `fill` comes in at the top. */
  function BitShiftRight(x: nat, k: nat, fill: nat): nat
    decreases k
  {
    if k == 0 then x else BitShiftRight(x / 2 + fill, k - 1, fill)
  }

  lemma {:induction false} AndSelf(x: nat)
    ensures BitAnd(x, x) == x
  {
    if x > 0 { AndSelf(x / 2); }
  }

  lemma {:induction false} OrSelf(x: nat)
    ensures BitOr(x, x) == x
  {
    if x > 0 { OrSelf(x / 2); }
  }

  lemma {:induction false} XorSelf(x: nat)
    ensures BitXor(x, x) == 0
  {
    if x > 0 { XorSelf(x / 2); }
  }

  lemma {:induction false} AndSwap(x: nat, y: nat)
    ensures BitAnd(x, y) == BitAnd(y, x)
  {
    if x > 0 && y > 0 { AndSwap(x / 2, y / 2); }
  }

  lemma {:induction false} OrSwap(x: nat, y: nat)
    ensures BitOr(x, y) == BitOr(y, x)
  {
    if x > 0 || y > 0 { OrSwap(x / 2, y / 2); }
  }

  lemma {:induction false} XorSwap(x: nat, y: nat)
    ensures BitXor(x, y) == BitXor(y, x)
  {
    if x > 0 || y > 0 { XorSwap(x / 2, y / 2); }
  }

  lemma {:induction false} OrZero(x: nat)
    ensures BitOr(x, 0) == x
  {
    if x > 0 { OrZero(x / 2); }
  }

  lemma {:induction false} XorZero(x: nat)
    ensures BitXor(x, 0) == x
  {
    if x > 0 { XorZero(x / 2); }
  }

  lemma HalfRemainder(x: nat, m: nat)
    requires m > 0
    ensures x % (2 * m) == 2 * (x / 2 % m) + x % 2
  {
    var q := x / 2 / m;
    var r := x / 2 % m;
    assert x / 2 == m * q + r;
    assert x == (2 * m) * q + (2 * r + x % 2) by {
      assert 2 * (m * q) == (2 * m) * q;
    }
    UniqueRemainder(x, 2 * m, q, 2 * r + x % 2);
  }

  /** Masking with `2^k - 1` is the remainder by `2^k`. */
  lemma {:induction false} AndMask(x: nat, k: nat)
    ensures BitAnd(x, Pow2(k) - 1) == x % Pow2(k)
    decreases k
  {
    if k > 0 {
      AndMask(x / 2, k - 1);
      HalfRemainder(x, Pow2(k - 1));
      assert (Pow2(k) - 1) / 2 == Pow2(k - 1) - 1 && (Pow2(k) - 1) % 2 == 1;
      if x == 0 {
        UniqueRemainder(0, Pow2(k), 0, 0);
      }
    }
  }

  /** Splitting `2^k - 1` into its last bit and the rest. */
  lemma OnesSplit(k: nat)
    requires k > 0
    ensures Pow2(k) > 1 && (Pow2(k) - 1) / 2 == Pow2(k - 1) - 1 && (Pow2(k) - 1) % 2 == 1
  {
  }

  lemma {:induction false} OrOnes(x: nat, k: nat)
    requires x < Pow2(k)
    ensures BitOr(x, Pow2(k) - 1) == Pow2(k) - 1
    decreases k
  {
    if k > 0 {
      OnesSplit(k);
      OrOnes(x / 2, k - 1);
    }
  }

  lemma XorStep(x: nat, y: nat)
    requires y > 0
    ensures BitXor(x, y) == 2 * BitXor(x / 2, y / 2) + if x % 2 != y % 2 then 1 else 0
  {
  }

  lemma {:induction false} XorOnes(x: nat, k: nat)
    requires x < Pow2(k)
    ensures BitXor(x, Pow2(k) - 1) == Pow2(k) - 1 - x
    decreases k
  {
    if k > 0 {
      OnesSplit(k);
      XorOnes(x / 2, k - 1);
      XorStep(x, Pow2(k) - 1);
    }
  }

  /** Moving bits up multiplies by the power, at the width. */
  lemma {:induction false} ShiftLeftMultiplies(x: nat, k: nat, w: nat)
    ensures BitShiftLeft(x, k, w) == (x * Pow2(k)) % Pow2(w)
    decreases w
  {
    if w == 0 {
      UniqueRemainder(x * Pow2(k), 1, x * Pow2(k), 0);
    } else if k > 0 {
      ShiftLeftMultiplies(x, k - 1, w - 1);
      var n := x * Pow2(k - 1);
      assert x * Pow2(k) == 2 * n;
      HalfRemainder(2 * n, Pow2(w - 1));
    } else {
      ShiftLeftMultiplies(x / 2, 0, w - 1);
      HalfRemainder(x, Pow2(w - 1));
    }
  }

  /** Dividing by 2 and then by `m` is dividing by `2 * m`, rounding down. */
  lemma HalfThenDivide(x: int, m: nat)
    requires m > 0
    ensures x / 2 / m == x / (2 * m)
  {
    var q, r := x / 2 / m, x / 2 % m;
    assert x / 2 == m * q + r;
    assert x == (2 * m) * q + (2 * r + x % 2) by {
      assert 2 * (m * q) == (2 * m) * q;
    }
    var q', r' := x / (2 * m), x % (2 * m);
    UniqueRemainder(x, 2 * m, q, 2 * r + x % 2);
    assert x == (2 * m) * q' + r';
    assert (2 * m) * (q - q') == 0;
    if q != q' {
      Multiple(2 * m, q - q');
    }
  }

  /** Moving bits down divides by the power, rounding down; the sign bit is copied. */
  lemma {:induction false} ShiftRightDivides(x: nat, k: nat, w: nat, negative: bool)
    requires w > 0 && x < Pow2(w) && (negative ==> x >= Pow2(w - 1))
    ensures var m := if negative then Pow2(w) else 0;
      BitShiftRight(x, k, if negative then Pow2(w - 1) else 0) - m == (x - m) / Pow2(k)
    decreases k
  {
    if k > 0 {
      var m := if negative then Pow2(w) else 0;
      var fill := if negative then Pow2(w - 1) else 0;
      ShiftRightDivides(x / 2 + fill, k - 1, w, negative);
      HalfThenDivide(x - m, Pow2(k - 1));
    }
  }

  // ----- what integer instructions compute -----

  /** Division and remainder that truncate toward zero. */
  function TruncDiv(x: int, y: int): int
    requires y != 0
  {
    if x >= 0 then (if y > 0 then x / y else -(x / -y)) else (if y > 0 then -(-x / y) else -x / -y)
  }

  function TruncMod(x: int, y: int): int
    requires y != 0
  {
    x - y * TruncDiv(x, y)
  }

  predicate Divides(op: BinaryOp) {
    op.Div? || op.Mod?
  }

  /** The result of a non-comparison at type `ty`, before it is brought into range. Shift counts
      wrap at the width; right shifts of negative numbers copy the sign bit. Division by zero, which
      no machine is asked about, stands at 0. */
  function Arith(op: BinaryOp, ty: CType, a: int, b: int): int
    requires IsPromoted(ty)
  {
    var x, y := Canon(ty, a), Canon(ty, b);
    var p, q := Residue(ty, a), Residue(ty, b);
    match op
    case Add => x + y
    case Sub => x - y
    case Mul => x * y
    case Div => if y == 0 then 0 else TruncDiv(x, y)
    case Mod => if y == 0 then 0 else TruncMod(x, y)
    case BitwiseAnd => BitAnd(p, q)
    case BitwiseNand => -1 - BitAnd(p, q)
    case BitwiseOr => BitOr(p, q)
    case BitwiseXor => BitXor(p, q)
    case ShiftLeft => BitShiftLeft(p, b % Width(ty), Width(ty))
    case ShiftRight => BitShiftRight(p, b % Width(ty), if x < 0 then Pow2(Width(ty) - 1) else 0)
    case _ => 0
  }

  predicate Related(op: BinaryOp, x: int, y: int)
    requires IsComparison(op)
  {
    match op
    case Equal => x == y
    case NotEqual => x != y
    case LessThan => x < y
    case LessEqual => x <= y
    case GreaterThan => x > y
    case GreaterEqual => x >= y
    case _ => false
  }

  /** A number that a variable of the type can hold. */
  predicate NumberOf(s: CType, a: int) {
    Storable(s) && Held(s, a) == a
  }

  /** Numbers of two types are compared at their common type. */
  ghost predicate ComparesAt(m: Machine, op: BinaryOp, s: CType, t: CType, ty: CType, a: int, b: int)
    requires IsComparison(op)
  {
    IsPromoted(Common(s, t)) && IsPromoted(ty) && NumberOf(s, a) && NumberOf(t, b) ==>
      m.binary(op, ClassOf(s), ClassOf(t), ty, Num(a), Num(b))
      == Num(if Related(op, Canon(Common(s, t), a), Canon(Common(s, t), b)) then 1 else 0)
  }

  ghost predicate Computes2(m: Machine, op: BinaryOp, k: Class, l: Class, ty: CType, a: int, b: int) {
    IsPromoted(ty) && !IsComparison(op) && (Divides(op) ==> Canon(ty, b) != 0) ==>
      m.binary(op, k, l, ty, Num(a), Num(b)) == Num(Held(ty, Arith(op, ty, a, b)))
  }

  ghost predicate Moves(m: Machine, k: Class, ty: CType, a: int) {
    Storable(ty) ==> m.copy(k, ty, Num(a)) == Num(Held(ty, a))
  }

  ghost predicate Complements(m: Machine, ty: CType, a: int) {
    IsPromoted(ty) ==> m.unary(Complement, ty, Num(a)) == Num(Held(ty, -1 - a))
  }

  /** A machine with two's-complement integers. */
  ghost predicate IntegerMachine(m: Machine) {
    && (forall op, k, l, ty, a, b :: Computes2(m, op, k, l, ty, a, b))
    && (forall op, s, t, ty, a, b :: IsComparison(op) ==> ComparesAt(m, op, s, t, ty, a, b))
    && (forall k, ty, a :: Moves(m, k, ty, a))
    && (forall ty, a :: Complements(m, ty, a))
  }

  // ----- the simplifier -----

  /** The value as a 128-bit signed number, cast to `ty`. */
  function CastWide(ty: CType, n: int): int {
    match ty
    case UInt => Residue(UInt, n)
    case ULong => Residue(ULong, n)
    case Pointer => Residue(ULong, n)
    case Int => Canon(Int, n)
    case Long => Canon(Long, n)
    case Bool => if n != 0 then 1 else 0
    case _ => if IsSmall(ty) then Narrow(ty, n) else Canon(Int128, n)
  }

  /** `integer_tacky_constant` */
  function IntegerConstant(ty: CType, n: int): Val {
    match ty
    case Int128 => Int128Constant(n)
    case UInt128 => UInt128Constant(Residue(UInt128, n))
    case UInt => Constant(Canon(Long, n))
    case ULong => Constant(Canon(Long, n))
    case _ => Constant(Canon(Long, n))
  }

  function ConstantOf(v: Val): Option<int> {
    match v
    case Constant(i) => Some(i)
    case Int128Constant(i) => Some(i)
    case UInt128Constant(i) => Some(i)
    case _ => None
  }

  predicate IsZeroVal(v: Val) {
    ConstantOf(v) == Some(0)
  }

  predicate IsOneVal(v: Val) {
    ConstantOf(v) == Some(1)
  }

  predicate IsAllOnesVal(v: Val, ty: CType) {
    ConstantOf(v).Some? && CastWide(ty, ConstantOf(v).value) == CastWide(ty, -1)
  }

  function AllOnesConstant(ty: CType): Val {
    IntegerConstant(ty, CastWide(ty, -1))
  }

  /** The exponent, if the number is a power of two above 1. */
  function Log2(n: nat): Option<nat> {
    if n < 2 || n % 2 == 1 then None
    else if n == 2 then Some(1)
    else match Log2(n / 2)
      case None => None
      case Some(k) => Some(k + 1)
  }

  lemma {:induction false} Log2Exact(n: nat)
    ensures Log2(n).Some? ==> Log2(n).value > 0 && n == Pow2(Log2(n).value)
    decreases n
  {
    if n >= 2 && n % 2 == 0 {
      if n == 2 {
        assert Pow2(1) == 2;
      } else {
        Log2Exact(n / 2);
      }
    }
  }

  lemma {:induction false} Log2Complete(k: nat)
    requires k > 0
    ensures Log2(Pow2(k)) == Some(k)
  {
    if k > 1 {
      Log2Complete(k - 1);
    } else {
      assert Pow2(1) == 2;
    }
  }

  /** The exponent is found for exactly the powers of two above 1. */
  lemma Log2Powers(n: nat, k: nat)
    ensures Log2(n) == Some(k) <==> k > 0 && n == Pow2(k)
  {
    hide Log2, Pow2;
    Log2Exact(n);
    if k > 0 {
      Log2Complete(k);
    }
  }

  /** `unsigned_power_of_two_shift_count` */
  function ShiftCount(v: Val, ty: CType): Option<nat> {
    if ty.UInt? && v.Constant? then Log2(Residue(UInt, v.i))
    else if ty.ULong? && v.Constant? then Log2(Residue(ULong, v.i))
    else if ty.UInt128? && v.UInt128Constant? then Log2(Residue(UInt128, v.u128))
    else None
  }

  /** `can_copy_identity_val` */
  predicate CanCopy(v: Val, ty: CType, types: Types) {
    match v
    case Var(x) => x in types && SameType(types[x], ty)
    case Constant(_) => !ty.Int128? && !ty.UInt128?
    case Int128Constant(_) => ty.Int128?
    case UInt128Constant(_) => ty.UInt128?
    case DoubleConstant(_) => false
  }

  function CopyIdentity(v: Val, dst: Name, ty: CType, types: Types): Option<Instr> {
    if CanCopy(v, ty, types) then Some(Copy(v, dst)) else None
  }

  function ComplementOf(v: Val, dst: Name, ty: CType, types: Types): Option<Instr> {
    if CanCopy(v, ty, types) then Some(Unary(Complement, v, dst)) else None
  }

  /** Both operands are the same. */
  function SameOperands(op: BinaryOp, v: Val, dst: Name, ty: CType, types: Types): Option<Instr> {
    match op
    case Sub => Some(Copy(IntegerConstant(ty, 0), dst))
    case BitwiseXor => Some(Copy(IntegerConstant(ty, 0), dst))
    case BitwiseNand => ComplementOf(v, dst, ty, types)
    case _ => None
  }

  /** Multiplication, division and remainder by a power of two, on unsigned numbers. */
  function ReducePower(op: BinaryOp, l: Val, r: Val, dst: Name, ty: CType): Option<Instr> {
    var k := ShiftCount(r, ty);
    if k.Some? && op.Mul? then Some(Binary(ShiftLeft, l, Constant(k.value), dst))
    else if k.Some? && op.Div? then Some(Binary(ShiftRight, l, Constant(k.value), dst))
    else if k.Some? && op.Mod? then Some(Binary(BitwiseAnd, l, IntegerConstant(ty, Pow2(k.value) - 1), dst))
    else if op.Mul? && ShiftCount(l, ty).Some? then Some(Binary(ShiftLeft, r, Constant(ShiftCount(l, ty).value), dst))
    else None
  }

  /** Zero, one or all ones as an operand. */
  function SpecialOperand(op: BinaryOp, l: Val, r: Val, dst: Name, ty: CType, types: Types): Option<Instr> {
    var zero := Some(Copy(IntegerConstant(ty, 0), dst));
    match op
    case Add =>
      if IsZeroVal(r) then CopyIdentity(l, dst, ty, types) else if IsZeroVal(l) then CopyIdentity(r, dst, ty, types)
        else None
    case BitwiseOr =>
      if IsZeroVal(r) then CopyIdentity(l, dst, ty, types)
      else if IsZeroVal(l) then CopyIdentity(r, dst, ty, types)
      else if IsAllOnesVal(l, ty) || IsAllOnesVal(r, ty) then Some(Copy(AllOnesConstant(ty), dst))
      else None
    case BitwiseXor =>
      if IsZeroVal(r) then CopyIdentity(l, dst, ty, types)
      else if IsZeroVal(l) then CopyIdentity(r, dst, ty, types)
      else if IsAllOnesVal(r, ty) && CanCopy(l, ty, types) then ComplementOf(l, dst, ty, types)
      else if IsAllOnesVal(l, ty) then ComplementOf(r, dst, ty, types)
      else None
    case Sub => if IsZeroVal(r) then CopyIdentity(l, dst, ty, types) else None
    case Mul =>
      if IsZeroVal(l) || IsZeroVal(r) then zero
      else if IsOneVal(r) then CopyIdentity(l, dst, ty, types)
      else if IsOneVal(l) then CopyIdentity(r, dst, ty, types)
      else None
    case Div => if IsZeroVal(l) then zero else if IsOneVal(r) then CopyIdentity(l, dst, ty, types) else None
    case Mod => if IsZeroVal(l) || IsOneVal(r) then zero else None
    case BitwiseAnd =>
      if IsZeroVal(l) || IsZeroVal(r) then zero
      else if IsAllOnesVal(r, ty) then CopyIdentity(l, dst, ty, types)
      else if IsAllOnesVal(l, ty) then CopyIdentity(r, dst, ty, types)
      else None
    case BitwiseNand =>
      if IsZeroVal(l) || IsZeroVal(r) then Some(Copy(AllOnesConstant(ty), dst))
      else if IsAllOnesVal(r, ty) && CanCopy(l, ty, types) then ComplementOf(l, dst, ty, types)
      else if IsAllOnesVal(l, ty) then ComplementOf(r, dst, ty, types)
      else None
    case ShiftLeft => if IsZeroVal(l) then zero else if IsZeroVal(r) then CopyIdentity(l, dst, ty, types) else None
    case ShiftRight => if IsZeroVal(l) then zero else if IsZeroVal(r) then CopyIdentity(l, dst, ty, types) else None
    case _ => None
  }

  /** `simplify_binary_identity`, at an integer type. */
  function Simplify(op: BinaryOp, l: Val, r: Val, dst: Name, ty: CType, types: Types): Option<Instr> {
    if IsComparison(op) then
      if l == r then Some(Copy(Constant(if Related(op, 0, 0) then 1 else 0), dst)) else None
    else if l == r && (op.BitwiseAnd? || op.BitwiseOr?) then CopyIdentity(l, dst, ty, types)
    else if l == r && SameOperands(op, l, dst, ty, types).Some? then SameOperands(op, l, dst, ty, types)
    else if ReducePower(op, l, r, dst, ty).Some? then ReducePower(op, l, r, dst, ty)
    else SpecialOperand(op, l, r, dst, ty, types)
  }

  // ----- residues and values -----

  lemma PowSum(a: nat, b: nat)
    ensures Pow2(a + b) == Pow2(a) * Pow2(b)
  {
    if b > 0 {
      PowSum(a, b - 1);
      assert Pow2(a) * Pow2(b) == 2 * (Pow2(a) * Pow2(b - 1));
    }
  }

  /** Adding a multiple of the modulus changes nothing. */
  lemma ShiftResidue(n: int, m: nat, k: int)
    requires m > 0
    ensures (n + m * k) % m == n % m
  {
    var q, r := n / m, n % m;
    assert n + m * k == m * (q + k) + r;
    UniqueRemainder(n + m * k, m, q + k, r);
  }

  lemma SameCanon(ty: CType, a: int, b: int)
    requires IsPromoted(ty) && Residue(ty, a) == Residue(ty, b)
    ensures Canon(ty, a) == Canon(ty, b)
  {
  }

  lemma CanonResidue(ty: CType, n: int)
    requires IsPromoted(ty)
    ensures Residue(ty, Canon(ty, n)) == Residue(ty, n) && Canon(ty, Canon(ty, n)) == Canon(ty, n)
  {
    var m := Pow2(Width(ty));
    var r := Residue(ty, n);
    UniqueRemainder(r, m, 0, r);
    ShiftResidue(r, m, -1);
    hide Pow2;
    SameCanon(ty, Canon(ty, n), n);
  }

  lemma SameHeld(ty: CType, a: int, b: int)
    requires IsPromoted(ty) && Canon(ty, a) == Canon(ty, b)
    ensures Held(ty, a) == Held(ty, b)
  {
    CanonResidue(ty, a);
    CanonResidue(ty, b);
    hide Pow2;
  }

  lemma HalfPower(k: nat)
    requires k > 0
    ensures Pow2(k) == 2 * Pow2(k - 1)
  {
  }

  lemma SmallCanon(ty: CType, n: nat)
    requires IsPromoted(ty) && n < Pow2(Width(ty) - 1)
    ensures Canon(ty, n) == n && Residue(ty, n) == n
  {
    hide Pow2;
    HalfPower(Width(ty));
    UniqueRemainder(n, Pow2(Width(ty)), 0, n);
  }

  lemma SmallNumbers(ty: CType)
    requires IsPromoted(ty)
    ensures Canon(ty, 0) == 0 && Residue(ty, 0) == 0 && Canon(ty, 1) == 1 && Residue(ty, 1) == 1
    ensures Residue(ty, -1) == Pow2(Width(ty)) - 1
  {
    var h := Pow2(Width(ty) - 2);
    assert Pow2(Width(ty) - 1) == 2 * h;
    hide Pow2;
    SmallCanon(ty, 0);
    SmallCanon(ty, 1);
    UniqueRemainder(-1, Pow2(Width(ty)), -1, Pow2(Width(ty)) - 1);
  }

  /** A value and the number it came from differ by a multiple of the modulus. */
  lemma CanonDiffers(ty: CType, n: int) returns (q: int)
    requires IsPromoted(ty)
    ensures n == Canon(ty, n) + Pow2(Width(ty)) * q
  {
    hide Pow2;
    var m := Pow2(Width(ty));
    q := n / m;
    assert n == m * q + n % m;
    if Canon(ty, n) != Residue(ty, n) {
      q := n / m + 1;
      assert m * q == m * (n / m) + m;
    }
  }

  lemma NestedResidue(n: int, c: int, m: nat, k: nat, q: int)
    requires m > 0 && n == c + (m * k) * q
    ensures n % m == c % m
  {
    assert (m * k) * q == m * (k * q);
    ShiftResidue(c, m, k * q);
  }

  /** A 64-bit constant stands for the same residue as the number it was made from. */
  lemma LongResidue(ty: CType, n: int)
    requires IsPromoted(ty) && Width(ty) <= 64
    ensures Residue(ty, Canon(Long, n)) == Residue(ty, n)
  {
    hide Pow2, Canon;
    var q := CanonDiffers(Long, n);
    PowSum(Width(ty), 64 - Width(ty));
    NestedResidue(n, Canon(Long, n), Pow2(Width(ty)), Pow2(64 - Width(ty)), q);
  }

  lemma ResidueTwice(ty: CType, n: int)
    requires IsPromoted(ty)
    ensures Residue(ty, Residue(ty, n)) == Residue(ty, n)
  {
    hide Pow2;
    UniqueRemainder(Residue(ty, n), Pow2(Width(ty)), 0, Residue(ty, n));
  }

  /** What an integer constant stands for at its type. */
  lemma ConstantResidue(ty: CType, n: int)
    requires IsPromoted(ty)
    ensures var v := IntegerConstant(ty, n);
      ConstantOf(v).Some? && EvalVal(v, map[]) == Num(ConstantOf(v).value)
        && Residue(ty, ConstantOf(v).value) == Residue(ty, n)
  {
    hide Pow2, Residue, Canon;
    if Width(ty) <= 64 {
      LongResidue(ty, n);
    } else if ty.UInt128? {
      ResidueTwice(ty, n);
    }
  }

  lemma CastWideResidue(ty: CType, n: int)
    requires IsPromoted(ty)
    ensures Residue(ty, CastWide(ty, n)) == Residue(ty, n)
  {
    hide Pow2, Narrow;
    CanonResidue(ty, n);
    CanonResidue(Int128, n);
  }

  lemma AllOnesResidue(ty: CType, v: Val)
    requires IsPromoted(ty)
    ensures Residue(ty, ConstantOf(AllOnesConstant(ty)).value) == Residue(ty, -1)
    ensures IsAllOnesVal(v, ty) ==> Residue(ty, ConstantOf(v).value) == Residue(ty, -1)
  {
    CastWideResidue(ty, -1);
    ConstantResidue(ty, CastWide(ty, -1));
    if IsAllOnesVal(v, ty) {
      CastWideResidue(ty, ConstantOf(v).value);
    }
    hide CastWide, Pow2;
  }

  // ----- every rewrite keeps the value -----

  /** An operand that holds the number `n`. */
  ghost predicate HasNumber(v: Val, env: Env, n: int) {
    EvalVal(v, env) == Num(n)
  }

  /** What the original instruction leaves in its destination. */
  ghost predicate Leaves(c: Ctx, i: Instr, d: Data, ty: CType, n: int)
    requires Storable(ty)
  {
    Computes(i) && Result(c, i, d) == Num(Held(ty, n))
  }

  lemma CopyLeaves(c: Ctx, v: Val, x: Name, d: Data, a: int)
    requires IntegerMachine(c.machine) && Storable(TypeOf(c.types, x)) && HasNumber(v, d.env, a)
    ensures Leaves(c, Copy(v, x), d, TypeOf(c.types, x), a)
  {
    hide Canon, Held, Computes2, ComparesAt, Complements;
    assert Moves(c.machine, ValClass(c.types, v), TypeOf(c.types, x), a);
  }

  lemma ComplementLeaves(c: Ctx, v: Val, x: Name, d: Data, a: int)
    requires IntegerMachine(c.machine) && IsPromoted(TypeOf(c.types, x)) && HasNumber(v, d.env, a)
    ensures Leaves(c, Unary(Complement, v, x), d, TypeOf(c.types, x), -1 - a)
  {
    hide Canon, Held, Computes2, ComparesAt, Moves;
    assert Complements(c.machine, TypeOf(c.types, x), a);
  }

  lemma BinaryLeaves(c: Ctx, op: BinaryOp, l: Val, r: Val, x: Name, d: Data, a: int, b: int)
    requires IntegerMachine(c.machine) && IsPromoted(TypeOf(c.types, x)) && !IsComparison(op)
    requires HasNumber(l, d.env, a) && HasNumber(r, d.env, b) && (Divides(op) ==> Canon(TypeOf(c.types, x), b) != 0)
    ensures Leaves(c, Binary(op, l, r, x), d, TypeOf(c.types, x), Arith(op, TypeOf(c.types, x), a, b))
  {
    hide Canon, Held, Moves, ComparesAt, Complements, Arith;
    assert Computes2(c.machine, op, ValClass(c.types, l), ValClass(c.types, r), TypeOf(c.types, x), a, b);
  }

  lemma LeavesSame(c: Ctx, i: Instr, d: Data, ty: CType, a: int, b: int)
    requires IsPromoted(ty) && Leaves(c, i, d, ty, a) && Canon(ty, a) == Canon(ty, b)
    ensures Leaves(c, i, d, ty, b)
  {
    hide Canon, Held, Result;
    SameHeld(ty, a, b);
  }

  /** Copying the constant of a number leaves that number. */
  lemma ConstantLeaves(c: Ctx, n: int, x: Name, d: Data)
    requires IntegerMachine(c.machine) && IsPromoted(TypeOf(c.types, x))
    ensures Leaves(c, Copy(IntegerConstant(TypeOf(c.types, x), n), x), d, TypeOf(c.types, x), n)
  {
    var ty := TypeOf(c.types, x);
    var v := IntegerConstant(ty, n);
    ConstantResidue(ty, n);
    SameCanon(ty, ConstantOf(v).value, n);
    CopyLeaves(c, v, x, d, ConstantOf(v).value);
    hide Canon, Held, IntegerMachine;
    LeavesSame(c, Copy(v, x), d, ty, ConstantOf(v).value, n);
  }

  // ----- the arithmetic behind each rewrite -----

  /** A number is its residue plus a multiple of the modulus. */
  lemma Decompose(ty: CType, a: int) returns (q: int)
    requires IsPromoted(ty)
    ensures a == Residue(ty, a) + Pow2(Width(ty)) * q
  {
    hide Pow2;
    q := a / Pow2(Width(ty));
  }

  lemma ResidueShift(ty: CType, n: int, q: int)
    requires IsPromoted(ty)
    ensures Residue(ty, n + Pow2(Width(ty)) * q) == Residue(ty, n)
    ensures Canon(ty, n + Pow2(Width(ty)) * q) == Canon(ty, n)
  {
    hide Pow2;
    ShiftResidue(n, Pow2(Width(ty)), q);
  }

  /** A number and its residue are interchangeable, also under complement. */
  lemma ResidueSelf(ty: CType, a: int)
    requires IsPromoted(ty)
    ensures Canon(ty, Residue(ty, a)) == Canon(ty, a) && Canon(ty, -1 - Residue(ty, a)) == Canon(ty, -1 - a)
  {
    hide Pow2, Residue, Canon;
    var q := Decompose(ty, a);
    ResidueShift(ty, Residue(ty, a), q);
    ResidueShift(ty, -1 - Residue(ty, a), -q);
    var m := Pow2(Width(ty));
    assert m * -q == -(m * q);
  }

  lemma SameOperandsValue(op: BinaryOp, ty: CType, a: int)
    requires IsPromoted(ty)
    ensures op.Sub? || op.BitwiseXor? ==> Arith(op, ty, a, a) == 0
    ensures op.BitwiseAnd? || op.BitwiseOr? ==> Canon(ty, Arith(op, ty, a, a)) == Canon(ty, a)
    ensures op.BitwiseNand? ==> Canon(ty, Arith(op, ty, a, a)) == Canon(ty, -1 - a)
  {
    hide Pow2, Residue, Canon, BitAnd, BitOr, BitXor, BitShiftLeft, BitShiftRight, TruncDiv, TruncMod;
    AndSelf(Residue(ty, a));
    OrSelf(Residue(ty, a));
    XorSelf(Residue(ty, a));
    ResidueSelf(ty, a);
  }

  lemma AndZero(p: nat)
    ensures BitAnd(p, 0) == 0 && BitAnd(0, p) == 0
  {
  }

  /** Shifting by nothing, and shifting nothing. */
  lemma TrivialShifts(p: nat, k: nat, w: nat)
    requires p < Pow2(w)
    ensures BitShiftLeft(p, 0, w) == p && BitShiftLeft(0, k, w) == 0
    ensures BitShiftRight(0, k, 0) == 0 && forall fill: nat :: BitShiftRight(p, 0, fill) == p
  {
    assert forall fill: nat :: BitShiftRight(p, 0, fill) == p;
    ShiftLeftMultiplies(p, 0, w);
    ShiftLeftMultiplies(0, k, w);
    NothingMovesDown(k);
    hide BitShiftLeft, BitShiftRight;
    UniqueRemainder(p, Pow2(w), 0, p);
    UniqueRemainder(0, Pow2(w), 0, 0);
  }

  lemma {:induction false} NothingMovesDown(k: nat)
    ensures BitShiftRight(0, k, 0) == 0
  {
    if k > 0 {
      NothingMovesDown(k - 1);
    }
  }

  lemma CountZero(ty: CType)
    requires IsPromoted(ty)
    ensures 0 % Width(ty) == 0
  {
  }

  /** Zero as the right operand. */
  lemma RightZero(op: BinaryOp, ty: CType, a: int)
    requires IsPromoted(ty)
    ensures op.Add? || op.Sub? || op.ShiftLeft? || op.ShiftRight? || op.BitwiseOr? || op.BitwiseXor? ==>
              Canon(ty, Arith(op, ty, a, 0)) == Canon(ty, a)
    ensures op.Mul? || op.BitwiseAnd? ==> Arith(op, ty, a, 0) == 0
    ensures op.BitwiseNand? ==> Arith(op, ty, a, 0) == -1
  {
    hide Pow2, Residue, Canon, BitAnd, BitOr, BitXor, BitShiftLeft, BitShiftRight, TruncDiv, TruncMod, Width;
    SmallNumbers(ty);
    CanonResidue(ty, a);
    ResidueSelf(ty, a);
    OrZero(Residue(ty, a));
    XorZero(Residue(ty, a));
    AndZero(Residue(ty, a));
    CountZero(ty);
    TrivialShifts(Residue(ty, a), 0, Width(ty));
  }

  lemma LeftZeroShift(op: BinaryOp, ty: CType, b: int)
    requires IsPromoted(ty) && (op.ShiftLeft? || op.ShiftRight?)
    ensures Arith(op, ty, 0, b) == 0
  {
    hide Pow2, Residue, Canon, BitAnd, BitOr, BitXor, BitShiftLeft, BitShiftRight, TruncDiv, TruncMod, Width;
    SmallNumbers(ty);
    TrivialShifts(0, b % Width(ty), Width(ty));
  }

  lemma LeftZeroDivides(op: BinaryOp, ty: CType, b: int)
    requires IsPromoted(ty) && Divides(op) && Canon(ty, b) != 0
    ensures Arith(op, ty, 0, b) == 0
  {
    hide Pow2, Residue, Canon, BitAnd, BitOr, BitXor, BitShiftLeft, BitShiftRight, TruncDiv, TruncMod, Width;
    SmallNumbers(ty);
    ZeroDivided(Canon(ty, b));
  }

  /** Zero as the left operand. */
  lemma LeftZero(op: BinaryOp, ty: CType, b: int)
    requires IsPromoted(ty) && !IsComparison(op)
    ensures op.Add? || op.BitwiseOr? || op.BitwiseXor? ==> Canon(ty, Arith(op, ty, 0, b)) == Canon(ty, b)
    ensures op.Mul? || op.BitwiseAnd? || op.ShiftLeft? || op.ShiftRight? ==> Arith(op, ty, 0, b) == 0
    ensures Divides(op) && Canon(ty, b) != 0 ==> Arith(op, ty, 0, b) == 0
    ensures op.BitwiseNand? ==> Arith(op, ty, 0, b) == -1
  {
    if op.ShiftLeft? || op.ShiftRight? {
      LeftZeroShift(op, ty, b);
    } else if Divides(op) {
      if Canon(ty, b) != 0 {
        LeftZeroDivides(op, ty, b);
      }
    } else {
      LeftZeroPlain(op, ty, b);
    }
  }

  lemma LeftZeroPlain(op: BinaryOp, ty: CType, b: int)
    requires IsPromoted(ty) && !IsComparison(op) && !Divides(op)
    ensures op.Add? || op.BitwiseOr? || op.BitwiseXor? ==> Canon(ty, Arith(op, ty, 0, b)) == Canon(ty, b)
    ensures op.Mul? || op.BitwiseAnd? ==> Arith(op, ty, 0, b) == 0
    ensures op.BitwiseNand? ==> Arith(op, ty, 0, b) == -1
  {
    hide Pow2, Residue, Canon, BitAnd, BitOr, BitXor, BitShiftLeft, BitShiftRight, TruncDiv, TruncMod, Width;
    SmallNumbers(ty);
    CanonResidue(ty, b);
    ResidueSelf(ty, b);
    var p := Residue(ty, b);
    OrSwap(0, p);
    OrZero(p);
    XorSwap(0, p);
    XorZero(p);
    AndZero(p);
  }

  lemma ZeroOver(p: nat)
    requires p > 0
    ensures 0 * p == 0 && 0 / p == 0
  {
    UniqueRemainder(0, p, 0, 0);
  }

  lemma ZeroDivided(y: int)
    requires y != 0
    ensures TruncDiv(0, y) == 0 && TruncMod(0, y) == 0
  {
    var z := if y > 0 then y else -y;
    ZeroOver(z);
    assert y * 0 == 0;
  }

  lemma DividedByOne(x: int)
    ensures TruncDiv(x, 1) == x && TruncMod(x, 1) == 0
  {
  }

  lemma OneOperand(ty: CType, a: int)
    requires IsPromoted(ty)
    ensures Canon(ty, 1) == 1
    ensures Canon(ty, Arith(Mul, ty, a, 1)) == Canon(ty, a) && Canon(ty, Arith(Mul, ty, 1, a)) == Canon(ty, a)
    ensures Canon(ty, Arith(Div, ty, a, 1)) == Canon(ty, a) && Arith(Mod, ty, a, 1) == 0
  {
    hide Pow2, Residue, Canon, BitAnd, BitOr, BitXor, BitShiftLeft, BitShiftRight, TruncDiv, TruncMod, Width;
    SmallNumbers(ty);
    CanonResidue(ty, a);
    DividedByOne(Canon(ty, a));
  }

  /** All ones against any residue. */
  lemma OnesBits(p: nat, w: nat)
    requires p < Pow2(w)
    ensures BitAnd(p, Pow2(w) - 1) == p && BitOr(p, Pow2(w) - 1) == Pow2(w) - 1
      && BitXor(p, Pow2(w) - 1) == Pow2(w) - 1 - p
  {
    hide Pow2, BitAnd, BitOr, BitXor;
    AndMask(p, w);
    UniqueRemainder(p, Pow2(w), 0, p);
    OrOnes(p, w);
    XorOnes(p, w);
  }

  /** The complement of a residue, taken inside the width. */
  lemma ComplementResidue(ty: CType, a: int)
    requires IsPromoted(ty)
    ensures Canon(ty, Pow2(Width(ty)) - 1 - Residue(ty, a)) == Canon(ty, -1 - a)
  {
    hide Pow2, Residue, Canon, Width;
    ResidueSelf(ty, a);
    var m: int, p: int := Pow2(Width(ty)), Residue(ty, a);
    ResidueShift(ty, -1 - p, 1);
    assert m * 1 == m;
  }

  lemma OnesRight(op: BinaryOp, ty: CType, a: int, b: int)
    requires IsPromoted(ty) && Residue(ty, b) == Residue(ty, -1)
    ensures op.BitwiseAnd? ==> Canon(ty, Arith(op, ty, a, b)) == Canon(ty, a)
    ensures op.BitwiseOr? ==> Canon(ty, Arith(op, ty, a, b)) == Canon(ty, -1)
    ensures op.BitwiseXor? || op.BitwiseNand? ==> Canon(ty, Arith(op, ty, a, b)) == Canon(ty, -1 - a)
  {
    hide Pow2, Residue, Canon, BitAnd, BitOr, BitXor, BitShiftLeft, BitShiftRight, TruncDiv, TruncMod, Width;
    SmallNumbers(ty);
    OnesBits(Residue(ty, a), Width(ty));
    if op.BitwiseXor? {
      ComplementResidue(ty, a);
    } else {
      ResidueSelf(ty, a);
      ResidueSelf(ty, -1);
    }
  }

  lemma SwapOperands(op: BinaryOp, ty: CType, a: int, b: int)
    requires IsPromoted(ty) && (op.BitwiseAnd? || op.BitwiseNand? || op.BitwiseOr? || op.BitwiseXor?)
    ensures Arith(op, ty, a, b) == Arith(op, ty, b, a)
  {
    hide Pow2, Residue, Canon, BitAnd, BitOr, BitXor, BitShiftLeft, BitShiftRight, TruncDiv, TruncMod, Width;
    AndSwap(Residue(ty, a), Residue(ty, b));
    OrSwap(Residue(ty, a), Residue(ty, b));
    XorSwap(Residue(ty, a), Residue(ty, b));
  }

  lemma OnesLeft(op: BinaryOp, ty: CType, a: int, b: int)
    requires IsPromoted(ty) && Residue(ty, a) == Residue(ty, -1)
    ensures op.BitwiseAnd? ==> Canon(ty, Arith(op, ty, a, b)) == Canon(ty, b)
    ensures op.BitwiseOr? ==> Canon(ty, Arith(op, ty, a, b)) == Canon(ty, -1)
    ensures op.BitwiseXor? || op.BitwiseNand? ==> Canon(ty, Arith(op, ty, a, b)) == Canon(ty, -1 - b)
  {
    hide Canon, Residue, Arith;
    if op.BitwiseAnd? || op.BitwiseOr? || op.BitwiseXor? || op.BitwiseNand? {
      SwapOperands(op, ty, a, b);
      OnesRight(op, ty, b, a);
    }
  }

  lemma {:induction false} PowGrows(k: nat, w: nat)
    requires w <= k
    ensures Pow2(w) <= Pow2(k)
    decreases k
  {
    if w < k {
      PowGrows(k - 1, w);
    }
  }

  /** A constant with a shift count is that power of two at its type, which is unsigned. */
  lemma ShiftCountFacts(v: Val, ty: CType)
    requires IsPromoted(ty) && ShiftCount(v, ty).Some?
    ensures ConstantOf(v).Some? && !IsSigned(ty)
    ensures var k := ShiftCount(v, ty).value;
      0 < k < Width(ty) && Canon(ty, ConstantOf(v).value) == Pow2(k) && Pow2(k) < Pow2(Width(ty))
  {
    hide Pow2;
    var n := Residue(ty, ConstantOf(v).value);
    Log2Exact(n);
    var k := Log2(n).value;
    if k >= Width(ty) {
      PowGrows(k, Width(ty));
    }
    hide Log2;
  }

  lemma UnsignedDivision(x: nat, p: nat)
    requires p > 0
    ensures TruncDiv(x, p) == x / p && TruncMod(x, p) == x % p
  {
  }

  /** Shifting up by the exponent is multiplying by the power, and shifting down dividing by it, for
      every number: the bits say the same as the arithmetic. */
  lemma PowerReductions(ty: CType, a: int, b: int, k: nat)
    requires IsPromoted(ty) && !IsSigned(ty) && 0 < k < Width(ty) && Canon(ty, b) == Pow2(k)
    ensures Canon(ty, Arith(ShiftLeft, ty, a, k)) == Canon(ty, Arith(Mul, ty, a, b)) == Canon(ty, Arith(Mul, ty, b, a))
    ensures Arith(ShiftRight, ty, a, k) == Arith(Div, ty, a, b)
  {
    hide Pow2, Residue, Canon, BitAnd, BitOr, BitXor, BitShiftLeft, BitShiftRight, TruncDiv, TruncMod, Width;
    var x := Residue(ty, a);
    UnsignedCanon(ty, a);
    UniqueRemainder(k, Width(ty), 0, k);
    UnsignedDivision(x, Pow2(k));
    ShiftLeftMultiplies(x, k, Width(ty));
    ResidueSelf(ty, x * Pow2(k));
    ProductResidue(ty, x * Pow2(k));
    ShiftRightDivides(x, k, Width(ty), false);
    assert x * Pow2(k) == Pow2(k) * x;
  }

  lemma ProductResidue(ty: CType, n: nat)
    requires IsPromoted(ty)
    ensures Canon(ty, n % Pow2(Width(ty))) == Canon(ty, n)
  {
    hide Pow2;
    ResidueSelf(ty, n);
  }

  /** On every integer type, a right shift divides by the power and rounds down. */
  lemma ShiftRightFloors(ty: CType, a: int, k: nat)
    requires IsPromoted(ty) && k < Width(ty)
    ensures Canon(ty, Arith(ShiftRight, ty, a, k)) == Canon(ty, Canon(ty, a) / Pow2(k))
  {
    CanonParts(ty, a);
    ShiftRightArith(ty, a, k);
    hide *;
    if Canon(ty, a) < 0 {
      NegativeFloors(ty, Residue(ty, a), Canon(ty, a), k);
    } else {
      PositiveFloors(ty, Residue(ty, a), Canon(ty, a), k);
    }
  }

  lemma PositiveFloors(ty: CType, p: nat, x: int, k: nat)
    requires IsPromoted(ty) && p < Pow2(Width(ty)) && x == p
    ensures Canon(ty, BitShiftRight(p, k, 0)) == Canon(ty, x / Pow2(k))
  {
    hide *;
    ShiftRightDivides(p, k, Width(ty), false);
  }

  lemma NegativeFloors(ty: CType, p: nat, x: int, k: nat)
    requires IsPromoted(ty) && Pow2(Width(ty) - 1) <= p < Pow2(Width(ty)) && x == p - Pow2(Width(ty))
    ensures Canon(ty, BitShiftRight(p, k, Pow2(Width(ty) - 1))) == Canon(ty, x / Pow2(k))
  {
    hide *;
    ShiftRightDivides(p, k, Width(ty), true);
    ModulusAdded(ty, x / Pow2(k), BitShiftRight(p, k, Pow2(Width(ty) - 1)));
  }

  lemma ModulusAdded(ty: CType, q: int, r: int)
    requires IsPromoted(ty) && r == q + Pow2(Width(ty))
    ensures Canon(ty, r) == Canon(ty, q)
  {
    hide *;
    ResidueShift(ty, q, 1);
    var m := Pow2(Width(ty));
    assert m * 1 == m;
  }

  lemma ShiftRightArith(ty: CType, a: int, k: nat)
    requires IsPromoted(ty) && k < Width(ty)
    ensures Arith(ShiftRight, ty, a, k)
      == BitShiftRight(Residue(ty, a), k, if Canon(ty, a) < 0 then Pow2(Width(ty) - 1) else 0)
  {
    hide Pow2, Residue, Canon, BitShiftRight, Width;
    UniqueRemainder(k, Width(ty), 0, k);
  }

  /** A negative value is its residue, with the sign bit set, less the modulus. */
  lemma CanonParts(ty: CType, a: int)
    requires IsPromoted(ty)
    ensures var x, p := Canon(ty, a), Residue(ty, a);
      p < Pow2(Width(ty)) && if x < 0 then p >= Pow2(Width(ty) - 1) && x == p - Pow2(Width(ty)) else x == p
  {
    hide Pow2;
  }

  lemma UnsignedCanon(ty: CType, a: int)
    requires IsPromoted(ty) && !IsSigned(ty)
    ensures Canon(ty, a) == Residue(ty, a)
  {
  }

  lemma SmallResidue(ty: CType, n: nat)
    requires IsPromoted(ty) && n < Pow2(Width(ty))
    ensures Residue(ty, n) == n
  {
    hide Pow2, Width;
    UniqueRemainder(n, Pow2(Width(ty)), 0, n);
  }

  lemma MaskReduction(ty: CType, a: int, b: int, k: nat, mask: int)
    requires IsPromoted(ty) && !IsSigned(ty) && 0 < k < Width(ty) && Canon(ty, b) == Pow2(k)
    requires Residue(ty, mask) == Residue(ty, Pow2(k) - 1) && Pow2(k) < Pow2(Width(ty))
    ensures Arith(BitwiseAnd, ty, a, mask) == Arith(Mod, ty, a, b)
  {
    hide Pow2, Residue, Canon, BitAnd, BitOr, BitXor, BitShiftLeft, BitShiftRight, TruncDiv, TruncMod, Width;
    var x := Residue(ty, a);
    UnsignedCanon(ty, a);
    SmallResidue(ty, Pow2(k) - 1);
    AndMask(x, k);
    UnsignedDivision(x, Pow2(k));
  }

  // ----- the theorem -----

  /** The instruction sets `x` to the number `n` at its type. */
  ghost predicate Sets(c: Ctx, i: Instr, d: Data, x: Name, n: int)
    requires IsPromoted(TypeOf(c.types, x))
  {
    DefinedVar(i) == Some(x) && Leaves(c, i, d, TypeOf(c.types, x), n)
  }

  lemma SetsSame(c: Ctx, i: Instr, j: Instr, d: Data, x: Name, a: int, b: int)
    requires IsPromoted(TypeOf(c.types, x)) && Sets(c, i, d, x, a) && Sets(c, j, d, x, b)
    requires Canon(TypeOf(c.types, x), a) == Canon(TypeOf(c.types, x), b)
    ensures Exec(c, i, d) == Exec(c, j, d)
  {
    hide Canon, Held, Result;
    SameHeld(TypeOf(c.types, x), a, b);
  }

  lemma ConstantHolds(v: Val, env: Env, n: int)
    requires HasNumber(v, env, n)
    ensures ConstantOf(v).Some? ==> ConstantOf(v).value == n
  {
  }

  /** The setting of the rewrite: operands that hold `a` and `b`, and a divisor that is not 0. */
  ghost predicate Operands(c: Ctx, op: BinaryOp, l: Val, r: Val, x: Name, d: Data, a: int, b: int) {
    && IntegerMachine(c.machine) && IsPromoted(TypeOf(c.types, x)) && !IsComparison(op)
    && HasNumber(l, d.env, a) && HasNumber(r, d.env, b) && (Divides(op) ==> Canon(TypeOf(c.types, x), b) != 0)
  }

  /** What a shift count says about the arithmetic. */
  lemma ShiftArith(ty: CType, a: int, v: Val, b: int, k: nat)
    requires IsPromoted(ty) && ShiftCount(v, ty) == Some(k) && ConstantOf(v) == Some(b)
    ensures Canon(ty, b) != 0
    ensures Canon(ty, Arith(ShiftLeft, ty, a, k)) == Canon(ty, Arith(Mul, ty, a, b)) == Canon(ty, Arith(Mul, ty, b, a))
    ensures Arith(ShiftRight, ty, a, k) == Arith(Div, ty, a, b)
  {
    hide Pow2, Residue, Canon, Arith, ShiftCount, Width;
    ShiftCountFacts(v, ty);
    PowerReductions(ty, a, b, k);
  }

  lemma MaskArith(ty: CType, a: int, v: Val, b: int, k: nat)
    requires IsPromoted(ty) && ShiftCount(v, ty) == Some(k) && ConstantOf(v) == Some(b)
    ensures Canon(ty, b) != 0
    ensures var mask := IntegerConstant(ty, Pow2(k) - 1);
      ConstantOf(mask).Some? && Arith(BitwiseAnd, ty, a, ConstantOf(mask).value) == Arith(Mod, ty, a, b)
  {
    hide Pow2, Residue, Canon, Arith, ShiftCount, Width, IntegerConstant;
    ShiftCountFacts(v, ty);
    ConstantResidue(ty, Pow2(k) - 1);
    MaskReduction(ty, a, b, k, ConstantOf(IntegerConstant(ty, Pow2(k) - 1)).value);
  }

  lemma ReducedToShift(c: Ctx, op: BinaryOp, l: Val, r: Val, x: Name, d: Data, a: int, b: int, k: nat)
    requires Operands(c, op, l, r, x, d, a, b) && (op.Mul? || op.Div?)
    requires ShiftCount(r, TypeOf(c.types, x)) == Some(k) && ConstantOf(r) == Some(b)
    ensures Sets(c, Binary(if op.Mul? then ShiftLeft else ShiftRight, l, Constant(k), x), d, x,
      Arith(op, TypeOf(c.types, x), a, b))
  {
    hide Canon, Held, Arith, IntegerMachine, ShiftCount, Leaves;
    ShiftArith(TypeOf(c.types, x), a, r, b, k);
    var shift := if op.Mul? then ShiftLeft else ShiftRight;
    BinaryLeaves(c, shift, l, Constant(k), x, d, a, k);
    LeavesSame(c, Binary(shift, l, Constant(k), x), d, TypeOf(c.types, x), Arith(shift, TypeOf(c.types, x), a, k),
      Arith(op, TypeOf(c.types, x), a, b));
  }

  lemma ReducedToMask(c: Ctx, l: Val, r: Val, x: Name, d: Data, a: int, b: int, k: nat)
    requires Operands(c, Mod, l, r, x, d, a, b) && ShiftCount(r, TypeOf(c.types, x)) == Some(k)
      && ConstantOf(r) == Some(b)
    ensures Sets(c, Binary(BitwiseAnd, l, IntegerConstant(TypeOf(c.types, x), Pow2(k) - 1), x), d, x,
      Arith(Mod, TypeOf(c.types, x), a, b))
  {
    hide Canon, Held, Arith, IntegerMachine, ShiftCount, Leaves, IntegerConstant, Pow2, HasNumber;
    MaskArith(TypeOf(c.types, x), a, r, b, k);
    var mask := IntegerConstant(TypeOf(c.types, x), Pow2(k) - 1);
    ConstantEval(mask, d.env);
    BinaryLeaves(c, BitwiseAnd, l, mask, x, d, a, ConstantOf(mask).value);
  }

  lemma ReducedFromLeft(c: Ctx, l: Val, r: Val, x: Name, d: Data, a: int, b: int, k: nat)
    requires Operands(c, Mul, l, r, x, d, a, b) && ShiftCount(l, TypeOf(c.types, x)) == Some(k)
      && ConstantOf(l) == Some(a)
    ensures Sets(c, Binary(ShiftLeft, r, Constant(k), x), d, x, Arith(Mul, TypeOf(c.types, x), a, b))
  {
    hide Canon, Held, Arith, IntegerMachine, ShiftCount, Leaves;
    ShiftArith(TypeOf(c.types, x), b, l, a, k);
    BinaryLeaves(c, ShiftLeft, r, Constant(k), x, d, b, k);
    LeavesSame(c, Binary(ShiftLeft, r, Constant(k), x), d, TypeOf(c.types, x),
      Arith(ShiftLeft, TypeOf(c.types, x), b, k), Arith(Mul, TypeOf(c.types, x), a, b));
  }

  /** Only constants have a shift count. */
  lemma CountedConstant(v: Val, ty: CType, env: Env, n: int)
    requires IsPromoted(ty) && ShiftCount(v, ty).Some? && HasNumber(v, env, n)
    ensures ConstantOf(v) == Some(n)
  {
    ShiftCountFacts(v, ty);
    ConstantHolds(v, env, n);
  }

  lemma ReducedSets(c: Ctx, op: BinaryOp, l: Val, r: Val, x: Name, d: Data, a: int, b: int)
    requires Operands(c, op, l, r, x, d, a, b) && ReducePower(op, l, r, x, TypeOf(c.types, x)).Some?
    ensures Sets(c, ReducePower(op, l, r, x, TypeOf(c.types, x)).value, d, x, Arith(op, TypeOf(c.types, x), a, b))
  {
    var k, j := ShiftCount(r, TypeOf(c.types, x)), ShiftCount(l, TypeOf(c.types, x));
    hide Pow2, Arith, ShiftCount, Sets, IntegerConstant, Canon, Held, HasNumber;
    if k.Some? {
      CountedConstant(r, TypeOf(c.types, x), d.env, b);
    }
    if j.Some? {
      CountedConstant(l, TypeOf(c.types, x), d.env, a);
    }
    if k.Some? && (op.Mul? || op.Div?) {
      ReducedToShift(c, op, l, r, x, d, a, b, k.value);
    } else if k.Some? && op.Mod? {
      ReducedToMask(c, l, r, x, d, a, b, k.value);
    } else {
      ReducedFromLeft(c, l, r, x, d, a, b, j.value);
    }
  }

  lemma ConstantEval(v: Val, env: Env)
    requires ConstantOf(v).Some?
    ensures HasNumber(v, env, ConstantOf(v).value)
  {
  }

  /** A copy or complement of operand `v`, which holds `n`. */
  lemma UnarySets(c: Ctx, v: Val, x: Name, d: Data, n: int)
    requires IntegerMachine(c.machine) && IsPromoted(TypeOf(c.types, x)) && HasNumber(v, d.env, n)
    ensures Sets(c, Copy(v, x), d, x, n) && Sets(c, Unary(Complement, v, x), d, x, -1 - n)
  {
    CopyLeaves(c, v, x, d, n);
    ComplementLeaves(c, v, x, d, n);
  }

  lemma ConstantsSet(c: Ctx, x: Name, d: Data)
    requires IntegerMachine(c.machine) && IsPromoted(TypeOf(c.types, x))
    ensures Sets(c, Copy(IntegerConstant(TypeOf(c.types, x), 0), x), d, x, 0)
    ensures Sets(c, Copy(AllOnesConstant(TypeOf(c.types, x)), x), d, x, -1)
  {
    hide Pow2, Residue, Canon, Held, CastWide, IntegerMachine, IntegerConstant, Result;
    var ty := TypeOf(c.types, x);
    ConstantLeaves(c, 0, x, d);
    ConstantLeaves(c, CastWide(ty, -1), x, d);
    CastWideResidue(ty, -1);
    SameCanon(ty, CastWide(ty, -1), -1);
    LeavesSame(c, Copy(AllOnesConstant(ty), x), d, ty, CastWide(ty, -1), -1);
  }

  /** The instruction sets `x` to what `n` is at its type. */
  ghost predicate SetsLike(c: Ctx, i: Instr, d: Data, x: Name, n: int)
    requires IsPromoted(TypeOf(c.types, x))
  {
    exists m :: Sets(c, i, d, x, m) && Canon(TypeOf(c.types, x), m) == Canon(TypeOf(c.types, x), n)
  }

  /** What an operand of all ones makes of a bitwise operation. */
  lemma OnesEither(op: BinaryOp, ty: CType, l: Val, r: Val, a: int, b: int)
    requires IsPromoted(ty) && (op.BitwiseAnd? || op.BitwiseNand? || op.BitwiseOr? || op.BitwiseXor?)
    requires (ConstantOf(l).Some? ==> ConstantOf(l).value == a) && (ConstantOf(r).Some? ==> ConstantOf(r).value == b)
    ensures var n := Canon(ty, Arith(op, ty, a, b));
      && (IsAllOnesVal(r, ty) ==> n == Canon(ty, if op.BitwiseAnd? then a else if op.BitwiseOr? then -1 else -1 - a))
      && (IsAllOnesVal(l, ty) ==> n == Canon(ty, if op.BitwiseAnd? then b else if op.BitwiseOr? then -1 else -1 - b))
  {
    AllOnesResidue(ty, l);
    AllOnesResidue(ty, r);
    hide Pow2, Residue, Canon, Arith, Width;
    if IsAllOnesVal(r, ty) {
      OnesRight(op, ty, a, b);
    }
    if IsAllOnesVal(l, ty) {
      OnesLeft(op, ty, a, b);
    }
  }

  /** The values a simplified instruction may set. */
  lemma Candidates(c: Ctx, op: BinaryOp, l: Val, r: Val, x: Name, d: Data, a: int, b: int)
    requires Operands(c, op, l, r, x, d, a, b)
    ensures Sets(c, Copy(l, x), d, x, a) && Sets(c, Unary(Complement, l, x), d, x, -1 - a)
    ensures Sets(c, Copy(r, x), d, x, b) && Sets(c, Unary(Complement, r, x), d, x, -1 - b)
    ensures Sets(c, Copy(IntegerConstant(TypeOf(c.types, x), 0), x), d, x, 0)
    ensures Sets(c, Copy(AllOnesConstant(TypeOf(c.types, x)), x), d, x, -1)
    ensures (ConstantOf(l).Some? ==> ConstantOf(l).value == a) && (ConstantOf(r).Some? ==> ConstantOf(r).value == b)
  {
    hide Sets, IntegerMachine, Canon, Held, IntegerConstant, AllOnesConstant;
    UnarySets(c, l, x, d, a);
    UnarySets(c, r, x, d, b);
    ConstantsSet(c, x, d);
    ConstantHolds(l, d.env, a);
    ConstantHolds(r, d.env, b);
  }

  lemma SpecialAdd(c: Ctx, op: BinaryOp, l: Val, r: Val, x: Name, d: Data, a: int, b: int)
    requires Operands(c, op, l, r, x, d, a, b) && (op.Add? || op.Sub?)
    requires SpecialOperand(op, l, r, x, TypeOf(c.types, x), c.types).Some?
    ensures SetsLike(c, SpecialOperand(op, l, r, x, TypeOf(c.types, x), c.types).value, d, x,
      Arith(op, TypeOf(c.types, x), a, b))
  {
    var ty := TypeOf(c.types, x);
    hide Pow2, Residue, Canon, Held, Arith, IntegerMachine, Width, Sets, HasNumber, IntegerConstant, AllOnesConstant,
      CastWide, IsAllOnesVal;
    Candidates(c, op, l, r, x, d, a, b);
    RightZero(op, ty, a);
    LeftZero(op, ty, b);
  }

  lemma SpecialOr(c: Ctx, op: BinaryOp, l: Val, r: Val, x: Name, d: Data, a: int, b: int)
    requires Operands(c, op, l, r, x, d, a, b) && (op.BitwiseOr?)
    requires SpecialOperand(op, l, r, x, TypeOf(c.types, x), c.types).Some?
    ensures SetsLike(c, SpecialOperand(op, l, r, x, TypeOf(c.types, x), c.types).value, d, x,
      Arith(op, TypeOf(c.types, x), a, b))
  {
    var ty := TypeOf(c.types, x);
    hide Pow2, Residue, Canon, Held, Arith, IntegerMachine, Width, Sets, HasNumber, IntegerConstant, AllOnesConstant,
      CastWide, IsAllOnesVal;
    Candidates(c, op, l, r, x, d, a, b);
    RightZero(op, ty, a);
    LeftZero(op, ty, b);
    OnesEither(op, ty, l, r, a, b);
  }

  lemma SpecialXor(c: Ctx, op: BinaryOp, l: Val, r: Val, x: Name, d: Data, a: int, b: int)
    requires Operands(c, op, l, r, x, d, a, b) && (op.BitwiseXor?)
    requires SpecialOperand(op, l, r, x, TypeOf(c.types, x), c.types).Some?
    ensures SetsLike(c, SpecialOperand(op, l, r, x, TypeOf(c.types, x), c.types).value, d, x,
      Arith(op, TypeOf(c.types, x), a, b))
  {
    var ty := TypeOf(c.types, x);
    hide Pow2, Residue, Canon, Held, Arith, IntegerMachine, Width, Sets, HasNumber, IntegerConstant, AllOnesConstant,
      CastWide, IsAllOnesVal;
    Candidates(c, op, l, r, x, d, a, b);
    RightZero(op, ty, a);
    LeftZero(op, ty, b);
    OnesEither(op, ty, l, r, a, b);
  }

  lemma SpecialMul(c: Ctx, op: BinaryOp, l: Val, r: Val, x: Name, d: Data, a: int, b: int)
    requires Operands(c, op, l, r, x, d, a, b) && (op.Mul?)
    requires SpecialOperand(op, l, r, x, TypeOf(c.types, x), c.types).Some?
    ensures SetsLike(c, SpecialOperand(op, l, r, x, TypeOf(c.types, x), c.types).value, d, x,
      Arith(op, TypeOf(c.types, x), a, b))
  {
    var ty := TypeOf(c.types, x);
    hide Pow2, Residue, Canon, Held, Arith, IntegerMachine, Width, Sets, HasNumber, IntegerConstant, AllOnesConstant,
      CastWide, IsAllOnesVal;
    Candidates(c, op, l, r, x, d, a, b);
    RightZero(op, ty, a);
    LeftZero(op, ty, b);
    OneOperand(ty, a);
    OneOperand(ty, b);
  }

  lemma SpecialDivide(c: Ctx, op: BinaryOp, l: Val, r: Val, x: Name, d: Data, a: int, b: int)
    requires Operands(c, op, l, r, x, d, a, b) && (op.Div? || op.Mod?)
    requires SpecialOperand(op, l, r, x, TypeOf(c.types, x), c.types).Some?
    ensures SetsLike(c, SpecialOperand(op, l, r, x, TypeOf(c.types, x), c.types).value, d, x,
      Arith(op, TypeOf(c.types, x), a, b))
  {
    var ty := TypeOf(c.types, x);
    hide Pow2, Residue, Canon, Held, Arith, IntegerMachine, Width, Sets, HasNumber, IntegerConstant, AllOnesConstant,
      CastWide, IsAllOnesVal;
    Candidates(c, op, l, r, x, d, a, b);
    LeftZero(op, ty, b);
    OneOperand(ty, a);
  }

  lemma SpecialAnd(c: Ctx, op: BinaryOp, l: Val, r: Val, x: Name, d: Data, a: int, b: int)
    requires Operands(c, op, l, r, x, d, a, b) && (op.BitwiseAnd?)
    requires SpecialOperand(op, l, r, x, TypeOf(c.types, x), c.types).Some?
    ensures SetsLike(c, SpecialOperand(op, l, r, x, TypeOf(c.types, x), c.types).value, d, x,
      Arith(op, TypeOf(c.types, x), a, b))
  {
    var ty := TypeOf(c.types, x);
    hide Pow2, Residue, Canon, Held, Arith, IntegerMachine, Width, Sets, HasNumber, IntegerConstant, AllOnesConstant,
      CastWide, IsAllOnesVal;
    Candidates(c, op, l, r, x, d, a, b);
    RightZero(op, ty, a);
    LeftZero(op, ty, b);
    OnesEither(op, ty, l, r, a, b);
  }

  lemma SpecialNand(c: Ctx, op: BinaryOp, l: Val, r: Val, x: Name, d: Data, a: int, b: int)
    requires Operands(c, op, l, r, x, d, a, b) && (op.BitwiseNand?)
    requires SpecialOperand(op, l, r, x, TypeOf(c.types, x), c.types).Some?
    ensures SetsLike(c, SpecialOperand(op, l, r, x, TypeOf(c.types, x), c.types).value, d, x,
      Arith(op, TypeOf(c.types, x), a, b))
  {
    var ty := TypeOf(c.types, x);
    hide Pow2, Residue, Canon, Held, Arith, IntegerMachine, Width, Sets, HasNumber, IntegerConstant, AllOnesConstant,
      CastWide, IsAllOnesVal;
    Candidates(c, op, l, r, x, d, a, b);
    RightZero(op, ty, a);
    LeftZero(op, ty, b);
    OnesEither(op, ty, l, r, a, b);
  }

  lemma SpecialShift(c: Ctx, op: BinaryOp, l: Val, r: Val, x: Name, d: Data, a: int, b: int)
    requires Operands(c, op, l, r, x, d, a, b) && (op.ShiftLeft? || op.ShiftRight?)
    requires SpecialOperand(op, l, r, x, TypeOf(c.types, x), c.types).Some?
    ensures SetsLike(c, SpecialOperand(op, l, r, x, TypeOf(c.types, x), c.types).value, d, x,
      Arith(op, TypeOf(c.types, x), a, b))
  {
    var ty := TypeOf(c.types, x);
    hide Pow2, Residue, Canon, Held, Arith, IntegerMachine, Width, Sets, HasNumber, IntegerConstant, AllOnesConstant,
      CastWide, IsAllOnesVal;
    Candidates(c, op, l, r, x, d, a, b);
    RightZero(op, ty, a);
    LeftZero(op, ty, b);
  }

  lemma SpecialSets(c: Ctx, op: BinaryOp, l: Val, r: Val, x: Name, d: Data, a: int, b: int)
    requires Operands(c, op, l, r, x, d, a, b) && SpecialOperand(op, l, r, x, TypeOf(c.types, x), c.types).Some?
    ensures SetsLike(c, SpecialOperand(op, l, r, x, TypeOf(c.types, x), c.types).value, d, x,
      Arith(op, TypeOf(c.types, x), a, b))
  {
    hide SpecialOperand, SetsLike, Arith, Canon, Held, IntegerMachine;
    match op
    case Add => SpecialAdd(c, op, l, r, x, d, a, b);
    case Sub => SpecialAdd(c, op, l, r, x, d, a, b);
    case BitwiseOr => SpecialOr(c, op, l, r, x, d, a, b);
    case BitwiseXor => SpecialXor(c, op, l, r, x, d, a, b);
    case Mul => SpecialMul(c, op, l, r, x, d, a, b);
    case Div => SpecialDivide(c, op, l, r, x, d, a, b);
    case Mod => SpecialDivide(c, op, l, r, x, d, a, b);
    case BitwiseAnd => SpecialAnd(c, op, l, r, x, d, a, b);
    case BitwiseNand => SpecialNand(c, op, l, r, x, d, a, b);
    case ShiftLeft => SpecialShift(c, op, l, r, x, d, a, b);
    case ShiftRight => SpecialShift(c, op, l, r, x, d, a, b);
  }

  lemma SameSets(c: Ctx, op: BinaryOp, v: Val, x: Name, d: Data, a: int, i: Instr)
    requires Operands(c, op, v, v, x, d, a, a)
    requires SameOperands(op, v, x, TypeOf(c.types, x), c.types) == Some(i)
          || ((op.BitwiseAnd? || op.BitwiseOr?) && CopyIdentity(v, x, TypeOf(c.types, x), c.types) == Some(i))
    ensures SetsLike(c, i, d, x, Arith(op, TypeOf(c.types, x), a, a))
  {
    hide Pow2, Residue, Canon, Held, Arith, IntegerMachine, Width, Sets, HasNumber, IntegerConstant, AllOnesConstant;
    Candidates(c, op, v, v, x, d, a, a);
    SameOperandsValue(op, TypeOf(c.types, x), a);
  }

  lemma SimplifiedSets(c: Ctx, op: BinaryOp, l: Val, r: Val, x: Name, d: Data, a: int, b: int)
    requires Operands(c, op, l, r, x, d, a, b) && Simplify(op, l, r, x, TypeOf(c.types, x), c.types).Some?
    ensures SetsLike(c, Simplify(op, l, r, x, TypeOf(c.types, x), c.types).value, d, x,
      Arith(op, TypeOf(c.types, x), a, b))
  {
    var ty := TypeOf(c.types, x);
    var i := Simplify(op, l, r, x, ty, c.types).value;
    assert l == r ==> a == b;
    hide Pow2, Residue, Canon, Held, Arith, IntegerMachine, Sets, HasNumber, SpecialOperand, ReducePower,
      IntegerConstant;
    if l == r && (op.BitwiseAnd? || op.BitwiseOr? || SameOperands(op, l, x, ty, c.types).Some?) {
      SameSets(c, op, l, x, d, a, i);
    } else if ReducePower(op, l, r, x, ty).Some? {
      ReducedSets(c, op, l, r, x, d, a, b);
    } else {
      SpecialSets(c, op, l, r, x, d, a, b);
    }
  }

  lemma OriginalSets(c: Ctx, op: BinaryOp, l: Val, r: Val, x: Name, d: Data, a: int, b: int)
    requires Operands(c, op, l, r, x, d, a, b)
    ensures Sets(c, Binary(op, l, r, x), d, x, Arith(op, TypeOf(c.types, x), a, b))
  {
    hide Leaves, IntegerMachine, Canon, Held, Arith;
    BinaryLeaves(c, op, l, r, x, d, a, b);
  }

  lemma LikeSame(c: Ctx, i: Instr, j: Instr, d: Data, x: Name, n: int)
    requires IsPromoted(TypeOf(c.types, x)) && SetsLike(c, i, d, x, n) && Sets(c, j, d, x, n)
    ensures Exec(c, i, d) == Exec(c, j, d)
  {
    hide Sets, Canon, Held, Exec;
    var m :| Sets(c, i, d, x, m) && Canon(TypeOf(c.types, x), m) == Canon(TypeOf(c.types, x), n);
    SetsSame(c, i, j, d, x, m, n);
  }

  /** Every simplification of an arithmetic or bitwise instruction leaves the very state the
      instruction leaves: identities, and shifts and masks in place of unsigned powers of two. */
  lemma SimplifyKeeps(c: Ctx, op: BinaryOp, l: Val, r: Val, x: Name, d: Data, a: int, b: int)
    requires Operands(c, op, l, r, x, d, a, b) && Simplify(op, l, r, x, TypeOf(c.types, x), c.types).Some?
    ensures Exec(c, Simplify(op, l, r, x, TypeOf(c.types, x), c.types).value, d) == Exec(c, Binary(op, l, r, x), d)
  {
    SimplifiedSets(c, op, l, r, x, d, a, b);
    OriginalSets(c, op, l, r, x, d, a, b);
    hide Simplify, Arith, Canon, Held, IntegerMachine, HasNumber, Exec, SetsLike, Sets;
    LikeSame(c, Simplify(op, l, r, x, TypeOf(c.types, x), c.types).value, Binary(op, l, r, x), d, x,
             Arith(op, TypeOf(c.types, x), a, b));
  }

  /** Comparing anything with itself gives what comparing 0 with 0 gives. */
  lemma RelatedSelf(op: BinaryOp, a: int)
    requires IsComparison(op)
    ensures Related(op, a, a) == Related(op, 0, 0)
  {
  }

  lemma SmallHeld(ty: CType)
    requires IsPromoted(ty)
    ensures Held(ty, 0) == 0 && Held(ty, 1) == 1
  {
    hide Canon, Residue, Pow2, Narrow;
    SmallNumbers(ty);
    SmallNumbers(Long);
  }

  /** The constant a comparison folds to. */
  function Truth(b: bool): Val {
    Constant(if b then 1 else 0)
  }

  lemma TruthLeaves(c: Ctx, b: bool, x: Name, d: Data)
    requires IntegerMachine(c.machine) && IsPromoted(TypeOf(c.types, x))
    ensures Result(c, Copy(Truth(b), x), d) == Num(if b then 1 else 0)
  {
    var n := if b then 1 else 0;
    CopyLeaves(c, Constant(n), x, d, n);
    SmallHeld(TypeOf(c.types, x));
  }

  lemma ComparisonLeaves(c: Ctx, op: BinaryOp, l: Val, r: Val, x: Name, d: Data, a: int, b: int)
    requires IntegerMachine(c.machine) && IsPromoted(TypeOf(c.types, x)) && IsComparison(op)
    requires HasNumber(l, d.env, a) && HasNumber(r, d.env, b) && NumberOf(ValType(c.types, l), a)
      && NumberOf(ValType(c.types, r), b)
    requires IsPromoted(Common(ValType(c.types, l), ValType(c.types, r)))
    ensures var u := Common(ValType(c.types, l), ValType(c.types, r));
      Result(c, Binary(op, l, r, x), d) == Num(if Related(op, Canon(u, a), Canon(u, b)) then 1 else 0)
  {
    hide Canon, Held, Computes2, Moves, Complements, Common, Related, NumberOf;
    assert ComparesAt(c.machine, op, ValType(c.types, l), ValType(c.types, r), TypeOf(c.types, x), a, b);
  }

  lemma SelfSimplifies(op: BinaryOp, v: Val, x: Name, u: CType, types: Types)
    requires IsPromoted(u) && IsComparison(op)
    ensures Simplify(op, v, v, x, u, types) == Some(Copy(Truth(Related(op, 0, 0)), x))
  {
    hide Related;
  }

  lemma SameResult(c: Ctx, i: Instr, j: Instr, d: Data)
    requires Computes(i) && Computes(j) && DefinedVar(i) == DefinedVar(j) && Result(c, i, d) == Result(c, j, d)
    ensures Exec(c, i, d) == Exec(c, j, d)
  {
    hide Result;
  }

  /** Comparing an operand with itself is folded to what the comparison gives. */
  lemma ComparisonKeeps(c: Ctx, op: BinaryOp, v: Val, x: Name, d: Data, a: int)
    requires IntegerMachine(c.machine) && IsPromoted(TypeOf(c.types, x)) && IsComparison(op)
    requires HasNumber(v, d.env, a) && NumberOf(ValType(c.types, v), a)
      && IsPromoted(Common(ValType(c.types, v), ValType(c.types, v)))
    ensures var f := Simplify(op, v, v, x, Common(ValType(c.types, v), ValType(c.types, v)), c.types);
      f.Some? && Exec(c, f.value, d) == Exec(c, Binary(op, v, v, x), d)
  {
    var u := Common(ValType(c.types, v), ValType(c.types, v));
    RelatedSelf(op, Canon(u, a));
    hide IntegerMachine, Related, Result, HasNumber, Canon, NumberOf, Common, Exec, Simplify, Truth;
    ComparisonLeaves(c, op, v, v, x, d, a, a);
    TruthLeaves(c, Related(op, 0, 0), x, d);
    SelfSimplifies(op, v, x, u, c.types);
    SameResult(c, Copy(Truth(Related(op, 0, 0)), x), Binary(op, v, v, x), d);
  }
}
