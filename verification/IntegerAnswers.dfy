/** What integer operators answer, told in numbers and bits: the modulus and range of each type are
    written out, and nothing is told by the functions that compute. */
module IntegerAnswers {
  import opened Tacky
  import opened Semantics
  import opened Arithmetic
  import opened BinaryIdentities
  import opened FoldSoundness

  // ----- the numbers of a type -----

  const TWO32: int := 0x1_0000_0000
  const TWO64: int := 0x1_0000_0000_0000_0000
  const TWO128: int := 0x1_0000_0000_0000_0000_0000_0000_0000_0000

  function BitsOf(ty: CType): nat {
    match ty
    case Int | UInt => 32
    case Long | ULong => 64
    case _ => 128
  }

  function Modulus(ty: CType): (m: nat)
    ensures m > 0
  {
    match ty
    case Int | UInt => TWO32
    case Long | ULong => TWO64
    case _ => TWO128
  }

  /** The range of a type. */
  predicate Within(ty: CType, n: int) {
    match ty
    case UInt => 0 <= n < TWO32
    case ULong => 0 <= n < TWO64
    case UInt128 => 0 <= n < TWO128
    case Int => -0x8000_0000 <= n < 0x8000_0000
    case Long => -0x8000_0000_0000_0000 <= n < 0x8000_0000_0000_0000
    case _ => -TWO128 <= 2 * n < TWO128
  }

  /** The same bits at the width of the type. */
  predicate Congruent(ty: CType, a: int, b: int) {
    (a - b) % Modulus(ty) == 0
  }

  /** `n` is the number of the type that has the bits of `a`. */
  predicate IsNumber(ty: CType, n: int, a: int) {
    Within(ty, n) && Congruent(ty, n, a)
  }

  lemma Squared(k: nat, v: int)
    requires Pow2(k) == v
    ensures Pow2(2 * k) == v * v
  {
    PowSum(k, k);
  }

  lemma Powers()
    ensures Pow2(31) == 0x8000_0000 && Pow2(32) == TWO32
    ensures Pow2(63) == 0x8000_0000_0000_0000 && Pow2(64) == TWO64
    ensures 2 * Pow2(127) == TWO128 && Pow2(128) == TWO128
  {
    assert Pow2(4) == 16;
    hide Pow2;
    Squared(4, 16);
    Squared(8, 0x100);
    Squared(16, 0x1_0000);
    Squared(32, TWO32);
    Squared(64, TWO64);
    HalfPower(32);
    HalfPower(64);
    HalfPower(128);
  }

  lemma ModulusIsPower(ty: CType)
    requires IsPromoted(ty)
    ensures Modulus(ty) == Pow2(Width(ty)) && BitsOf(ty) == Width(ty)
  {
    Powers();
    hide Pow2;
  }

  lemma CongruentIffResidue(ty: CType, a: int, b: int)
    requires IsPromoted(ty)
    ensures Congruent(ty, a, b) <==> Residue(ty, a) == Residue(ty, b)
  {
    ModulusIsPower(ty);
    hide Pow2, Modulus, Width;
    var m := Modulus(ty);
    if Congruent(ty, a, b) {
      var q := (a - b) / m;
      assert a == b + m * q;
      ShiftResidue(b, m, q);
    }
    if Residue(ty, a) == Residue(ty, b) {
      var q := ResidueApart(ty, a, b);
      assert a - b == m * q + 0;
      UniqueRemainder(a - b, m, q, 0);
    }
  }

  lemma CanonWithin(ty: CType, a: int)
    requires IsPromoted(ty)
    ensures Within(ty, Canon(ty, a))
  {
    hide Pow2, Residue;
    Powers();
    if !IsSigned(ty) {
      UnsignedCanon(ty, a);
    }
    HalfPower(Width(ty));
  }

  /** The canonical value is the number of the type with these bits. */
  lemma CanonIsNumber(ty: CType, a: int)
    requires IsPromoted(ty)
    ensures IsNumber(ty, Canon(ty, a), a)
  {
    hide Pow2, Residue, Canon, Congruent, Within, Width;
    CanonWithin(ty, a);
    CanonResidue(ty, a);
    CongruentIffResidue(ty, Canon(ty, a), a);
  }

  /** Two numbers of the type are less than the modulus apart. */
  lemma WithinApart(ty: CType, x: int, y: int)
    requires IsPromoted(ty) && Within(ty, x) && Within(ty, y)
    ensures x - y < Modulus(ty) && y - x < Modulus(ty)
  {
  }

  lemma CongruentBoth(ty: CType, a: int, b: int, c: int)
    requires IsPromoted(ty) && Congruent(ty, a, c) && Congruent(ty, b, c)
    ensures Congruent(ty, a, b)
  {
    hide *;
    CongruentIffResidue(ty, a, b);
    CongruentIffResidue(ty, b, c);
    CongruentIffResidue(ty, a, c);
  }

  /** There is only one. */
  lemma NumberUnique(ty: CType, n: int, a: int)
    requires IsPromoted(ty) && IsNumber(ty, n, a)
    ensures n == Canon(ty, a)
  {
    hide Residue, Canon, Modulus, Within;
    CanonIsNumber(ty, a);
    WithinApart(ty, n, Canon(ty, a));
    CongruentBoth(ty, n, Canon(ty, a), a);
    OnlyZeroNear(n - Canon(ty, a), Modulus(ty));
  }

  lemma OnlyZeroNear(d: int, m: nat)
    requires m > 0 && d % m == 0 && d < m && -d < m
    ensures d == 0
  {
    assert d == m * (d / m);
    if d / m != 0 {
      Multiple(m, d / m);
    }
  }

  // ----- what a variable holds -----

  /** The number a variable of the type holds for `a`: that of the type, but unsigned 64-bit numbers
      and addresses are kept as signed patterns. */
  predicate IsHeld(ty: CType, n: int, a: int) {
    match ty
    case ULong | Pointer => IsNumber(Long, n, a)
    case Char | SChar => -0x80 <= n < 0x80 && (n - a) % 0x100 == 0
    case UChar | Bool => 0 <= n < 0x100 && (n - a) % 0x100 == 0
    case Short => -0x8000 <= n < 0x8000 && (n - a) % 0x1_0000 == 0
    case UShort => 0 <= n < 0x1_0000 && (n - a) % 0x1_0000 == 0
    case _ => IsNumber(ty, n, a)
  }

  lemma Apart(a: int, m: nat, k: int)
    requires m > 0
    ensures (a % m + m * k - a) % m == 0
  {
    var q := a / m;
    assert a % m + m * k - a == m * (k - q);
    UniqueRemainder(m * (k - q), m, k - q, 0);
  }

  lemma SmallIsHeld(ty: CType, a: int)
    requires IsSmall(ty)
    ensures IsHeld(ty, Narrow(ty, a), a)
  {
    var w := if Size(ty) == 1 then 0x100 else 0x1_0000;
    Apart(a, w, 0);
    Apart(a, w, -1);
  }

  lemma HeldIsHeld(ty: CType, a: int)
    requires Storable(ty)
    ensures IsHeld(ty, Held(ty, a), a)
  {
    hide IsNumber, Canon, Narrow;
    if IsSmall(ty) {
      SmallIsHeld(ty, a);
    } else {
      CanonIsNumber(if IsPromoted(ty) then ty else Long, a);
      CanonIsNumber(Long, a);
    }
  }

  // ----- the usual arithmetic conversions -----

  /** The common type of two integer types has at least 32 bits, has the size of the larger, and is
      unsigned when an operand of that size is. */
  lemma CommonOfIntegers(s: CType, t: CType)
    requires (IsPromoted(s) || IsSmall(s)) && (IsPromoted(t) || IsSmall(t))
    ensures var u := Common(s, t);
      && u in {Int, UInt, Long, ULong, Int128, UInt128}
      && Size(u) == (if Size(s) < 4 && Size(t) < 4 then 4 else if Size(s) < Size(t) then Size(t) else Size(s))
      && (u in {UInt, ULong, UInt128} <==>
            (Size(s) == Size(u) && s in {UInt, ULong, UInt128}) || (Size(t) == Size(u) && t in {UInt, ULong, UInt128}))
  {
  }

  // ----- bit by bit -----

  function BitAt(n: int, k: nat): int {
    n / Pow2(k) % 2
  }

  lemma BitStep(n: int, k: nat)
    requires k > 0
    ensures BitAt(n, k) == BitAt(n / 2, k - 1)
  {
    HalfThenDivide(n, Pow2(k - 1));
  }

  lemma {:induction false} BitsOfZero(k: nat)
    ensures BitAt(0, k) == 0
  {
    if k > 0 {
      BitStep(0, k);
      BitsOfZero(k - 1);
    }
  }

  lemma {:induction false} AndBits(x: nat, y: nat, k: nat)
    ensures BitAt(BitAnd(x, y), k) == BitAt(x, k) * BitAt(y, k)
    decreases k
  {
    if x == 0 || y == 0 {
      BitsOfZero(k);
    } else if k > 0 {
      BitStep(x, k);
      BitStep(y, k);
      BitStep(BitAnd(x, y), k);
      assert BitAnd(x, y) / 2 == BitAnd(x / 2, y / 2);
      AndBits(x / 2, y / 2, k - 1);
    } else {
      assert Pow2(0) == 1;
    }
  }

  lemma {:induction false} OrBits(x: nat, y: nat, k: nat)
    ensures BitAt(BitOr(x, y), k) == if BitAt(x, k) == 1 || BitAt(y, k) == 1 then 1 else 0
    decreases k
  {
    if x == 0 && y == 0 {
      BitsOfZero(k);
    } else if k > 0 {
      BitStep(x, k);
      BitStep(y, k);
      BitStep(BitOr(x, y), k);
      assert BitOr(x, y) / 2 == BitOr(x / 2, y / 2);
      OrBits(x / 2, y / 2, k - 1);
    } else {
      assert Pow2(0) == 1;
    }
  }

  lemma {:induction false} XorBits(x: nat, y: nat, k: nat)
    ensures BitAt(BitXor(x, y), k) == if BitAt(x, k) != BitAt(y, k) then 1 else 0
    decreases k
  {
    if x == 0 && y == 0 {
      BitsOfZero(k);
    } else if k > 0 {
      BitStep(x, k);
      BitStep(y, k);
      BitStep(BitXor(x, y), k);
      assert BitXor(x, y) / 2 == BitXor(x / 2, y / 2);
      XorBits(x / 2, y / 2, k - 1);
    } else {
      assert Pow2(0) == 1;
    }
  }

  lemma {:induction false} ComplementBits(z: int, k: nat)
    ensures BitAt(-1 - z, k) == 1 - BitAt(z, k)
    decreases k
  {
    if k > 0 {
      BitStep(z, k);
      BitStep(-1 - z, k);
      assert (-1 - z) / 2 == -1 - z / 2;
      ComplementBits(z / 2, k - 1);
    } else {
      assert Pow2(0) == 1;
    }
  }

  /** Adding a multiple of `2^w` leaves the bits below `w`. */
  lemma {:induction false} HighPart(n: int, w: nat, q: int, k: nat)
    requires k < w
    ensures BitAt(n + Pow2(w) * q, k) == BitAt(n, k)
    decreases k
  {
    var h := Pow2(w - 1) * q;
    assert Pow2(w) * q == 2 * h;
    if k > 0 {
      BitStep(n, k);
      BitStep(n + 2 * h, k);
      assert (n + 2 * h) / 2 == n / 2 + h;
      HighPart(n / 2, w - 1, q, k - 1);
    } else {
      assert Pow2(0) == 1;
    }
  }

  lemma CongruentBits(ty: CType, a: int, b: int, k: nat)
    requires IsPromoted(ty) && Congruent(ty, a, b) && k < BitsOf(ty)
    ensures BitAt(a, k) == BitAt(b, k)
  {
    ModulusIsPower(ty);
    hide Pow2, BitAt, Modulus, BitsOf, Width;
    var q := (a - b) / Modulus(ty);
    assert a == b + Pow2(Width(ty)) * q;
    HighPart(b, Width(ty), q, k);
  }

  // ----- what an operator gives -----

  /** Division truncates toward zero: the remainder is smaller than the divisor and is 0 or has the
      sign of the dividend. */
  predicate Divided(x: int, y: int, q: int, r: int) {
    && x == y * q + r
    && (if y < 0 then y < r < -y else -y < r < y)
    && (r == 0 || (r > 0 <==> x > 0))
  }

  /** `n` has the bits of what the operator gives on two numbers of the type. */
  ghost predicate Gives(op: BinaryOp, ty: CType, x: int, y: int, n: int) {
    match op
    case Add => Congruent(ty, n, x + y)
    case Sub => Congruent(ty, n, x - y)
    case Mul => Congruent(ty, n, x * y)
    case Div => exists q, r :: Divided(x, y, q, r) && Congruent(ty, n, q)
    case Mod => exists q, r :: Divided(x, y, q, r) && Congruent(ty, n, r)
    case BitwiseAnd => forall k: nat :: k < BitsOf(ty) ==> BitAt(n, k) == BitAt(x, k) * BitAt(y, k)
    case BitwiseNand => forall k: nat :: k < BitsOf(ty) ==> BitAt(n, k) == 1 - BitAt(x, k) * BitAt(y, k)
    case BitwiseOr =>
      forall k: nat :: k < BitsOf(ty) ==> BitAt(n, k) == if BitAt(x, k) == 1 || BitAt(y, k) == 1 then 1 else 0
    case BitwiseXor => forall k: nat :: k < BitsOf(ty) ==> BitAt(n, k) == if BitAt(x, k) != BitAt(y, k) then 1 else 0
    case ShiftLeft => Congruent(ty, n, x * Pow2(y % BitsOf(ty)))
    case ShiftRight => Congruent(ty, n, x / Pow2(y % BitsOf(ty)))
    case Equal => n == if x == y then 1 else 0
    case NotEqual => n == if x == y then 0 else 1
    case LessThan => n == if x < y then 1 else 0
    case LessEqual => n == if y < x then 0 else 1
    case GreaterThan => n == if y < x then 1 else 0
    case GreaterEqual => n == if x < y then 0 else 1
  }

  lemma SignedProduct(y: int, q: int)
    ensures y * -q == -(y * q)
  {
  }

  lemma QuotientsOf(x: int, y: int) returns (q: int, r: int)
    requires y != 0
    ensures var s, t := if x < 0 then -x else x, if y < 0 then -y else y;
      && TruncDiv(x, y) == (if (x < 0) == (y < 0) then q else -q)
      && s == t * q + r && 0 <= r < t && q >= 0
  {
    if x >= 0 && y > 0 {
      q, r := Euclid(x, y);
    } else if x >= 0 {
      q, r := Euclid(x, -y);
    } else if y > 0 {
      q, r := Euclid(-x, y);
    } else {
      q, r := Euclid(-x, -y);
    }
  }

  lemma Euclid(s: int, t: int) returns (q: int, r: int)
    requires s >= 0 && t > 0
    ensures q == s / t && s == t * q + r && 0 <= r < t && q >= 0
  {
    q, r := s / t, s % t;
  }

  /** From a division of magnitudes to one of signed numbers. */
  lemma FromMagnitudes(x: int, y: int, t: int, w: int, d: int, r: int)
    requires y != 0 && t == (if y < 0 then -y else y) && 0 <= r < t && w >= 0
    requires x == (if x < 0 then -(w + r) else w + r) && y * d == (if x < 0 then -w else w)
    ensures Divided(x, y, d, x - y * d)
  {
  }

  lemma SignsMoved(x: int, y: int, q: int)
    ensures var t, d := if y < 0 then -y else y, if (x < 0) == (y < 0) then q else -q;
      y * d == if x < 0 then -(t * q) else t * q
  {
    SignedProduct(y, q);
    SignedProduct(q, y);
    assert (-y) * q == q * -y && q * y == y * q;
  }

  lemma FromQuotient(x: int, y: int, q: int, r: int, d: int)
    requires var s, t := if x < 0 then -x else x, if y < 0 then -y else y;
      y != 0 && q >= 0 && s == t * q + r && 0 <= r < t && d == if (x < 0) == (y < 0) then q else -q
    ensures Divided(x, y, d, x - y * d)
  {
    hide Divided;
    var t := if y < 0 then -y else y;
    SignsMoved(x, y, q);
    NotNegative(t, q);
    FromMagnitudes(x, y, t, t * q, d, r);
  }

  lemma TruncDivides(x: int, y: int)
    requires y != 0
    ensures Divided(x, y, TruncDiv(x, y), TruncMod(x, y))
  {
    hide TruncDiv, Divided;
    var q, r := QuotientsOf(x, y);
    FromQuotient(x, y, q, r, TruncDiv(x, y));
  }

  lemma NotNegative(t: nat, q: nat)
    ensures t * q >= 0
  {
  }

  lemma ResidueIsCongruent(ty: CType, x: int, a: int)
    requires IsPromoted(ty) && Congruent(ty, x, a)
    ensures Congruent(ty, x, Residue(ty, a))
  {
    hide *;
    CongruentIffResidue(ty, x, a);
    ResidueTwice(ty, a);
    CongruentIffResidue(ty, x, Residue(ty, a));
  }

  lemma BitwiseGives(op: BinaryOp, ty: CType, x: int, y: int, p: nat, q: nat, n: int)
    requires IsPromoted(ty) && Congruent(ty, x, p) && Congruent(ty, y, q)
    requires op.BitwiseAnd? || op.BitwiseNand? || op.BitwiseOr? || op.BitwiseXor?
    requires Congruent(ty, n, match op
      case BitwiseAnd => BitAnd(p, q)
      case BitwiseNand => -1 - BitAnd(p, q)
      case BitwiseOr => BitOr(p, q)
      case _ => BitXor(p, q))
    ensures Gives(op, ty, x, y, n)
  {
    hide Congruent, BitAnd, BitOr, BitXor, BitAt, BitsOf;
    forall k: nat | k < BitsOf(ty)
      ensures BitAt(x, k) == BitAt(p, k) && BitAt(y, k) == BitAt(q, k)
    {
      CongruentBits(ty, x, p, k);
      CongruentBits(ty, y, q, k);
    }
    forall k: nat | k < BitsOf(ty)
      ensures op.BitwiseAnd? ==> BitAt(n, k) == BitAt(p, k) * BitAt(q, k)
      ensures op.BitwiseNand? ==> BitAt(n, k) == 1 - BitAt(p, k) * BitAt(q, k)
      ensures op.BitwiseOr? ==> BitAt(n, k) == if BitAt(p, k) == 1 || BitAt(q, k) == 1 then 1 else 0
      ensures op.BitwiseXor? ==> BitAt(n, k) == if BitAt(p, k) != BitAt(q, k) then 1 else 0
    {
      BitOfResult(op, ty, p, q, n, k);
    }
  }

  lemma BitOfResult(op: BinaryOp, ty: CType, p: nat, q: nat, n: int, k: nat)
    requires IsPromoted(ty) && k < BitsOf(ty)
    requires op.BitwiseAnd? || op.BitwiseNand? || op.BitwiseOr? || op.BitwiseXor?
    requires Congruent(ty, n, match op
      case BitwiseAnd => BitAnd(p, q)
      case BitwiseNand => -1 - BitAnd(p, q)
      case BitwiseOr => BitOr(p, q)
      case _ => BitXor(p, q))
    ensures op.BitwiseAnd? ==> BitAt(n, k) == BitAt(p, k) * BitAt(q, k)
    ensures op.BitwiseNand? ==> BitAt(n, k) == 1 - BitAt(p, k) * BitAt(q, k)
    ensures op.BitwiseOr? ==> BitAt(n, k) == if BitAt(p, k) == 1 || BitAt(q, k) == 1 then 1 else 0
    ensures op.BitwiseXor? ==> BitAt(n, k) == if BitAt(p, k) != BitAt(q, k) then 1 else 0
  {
    hide Congruent, BitAnd, BitOr, BitXor, BitAt, BitsOf;
    match op
    case BitwiseAnd =>
      CongruentBits(ty, n, BitAnd(p, q), k);
      AndBits(p, q, k);
    case BitwiseNand =>
      CongruentBits(ty, n, -1 - BitAnd(p, q), k);
      ComplementBits(BitAnd(p, q), k);
      AndBits(p, q, k);
    case BitwiseOr =>
      CongruentBits(ty, n, BitOr(p, q), k);
      OrBits(p, q, k);
    case _ =>
      CongruentBits(ty, n, BitXor(p, q), k);
      XorBits(p, q, k);
  }

  lemma CongruentProduct(ty: CType, x: int, p: int, f: int)
    requires Congruent(ty, x, p)
    ensures Congruent(ty, p * f, x * f)
  {
    var m := Modulus(ty);
    var q := (x - p) / m;
    assert x - p == m * q;
    assert p * f - x * f == m * -(q * f) by {
      assert (x - p) * f == (m * q) * f == m * (q * f);
    }
    UniqueRemainder(p * f - x * f, m, -(q * f), 0);
  }

  lemma LeftShiftGives(ty: CType, x: int, p: nat, c: nat, n: int)
    requires IsPromoted(ty) && Congruent(ty, x, p) && Congruent(ty, n, BitShiftLeft(p, c, Width(ty)))
    ensures Congruent(ty, n, x * Pow2(c))
  {
    hide *;
    var f := Pow2(c);
    ShiftLeftMultiplies(p, c, Width(ty));
    CongruentIffResidue(ty, n, BitShiftLeft(p, c, Width(ty)));
    assert BitShiftLeft(p, c, Width(ty)) == Residue(ty, p * f) by { LeftIsResidue(ty, p, c); }
    ResidueTwice(ty, p * f);
    CongruentProduct(ty, x, p, f);
    CongruentIffResidue(ty, p * f, x * f);
    CongruentIffResidue(ty, n, x * f);
  }

  lemma LeftIsResidue(ty: CType, p: nat, c: nat)
    requires IsPromoted(ty)
    ensures BitShiftLeft(p, c, Width(ty)) == Residue(ty, p * Pow2(c))
  {
    hide Pow2, BitShiftLeft, Width;
    ShiftLeftMultiplies(p, c, Width(ty));
  }

  lemma RightShiftGives(ty: CType, a: int, c: nat, n: int)
    requires IsPromoted(ty) && c < Width(ty) && Congruent(ty, n, Arith(ShiftRight, ty, a, c))
    ensures Congruent(ty, n, Canon(ty, a) / Pow2(c))
  {
    hide *;
    var z := Canon(ty, a) / Pow2(c);
    ShiftRightFloors(ty, a, c);
    CanonResidue(ty, Arith(ShiftRight, ty, a, c));
    CanonResidue(ty, z);
    CongruentIffResidue(ty, n, Arith(ShiftRight, ty, a, c));
    CongruentIffResidue(ty, n, z);
  }

  lemma CountReduced(ty: CType, a: int, b: int)
    requires IsPromoted(ty)
    ensures var c := b % Width(ty); c < Width(ty) && Arith(ShiftRight, ty, a, b) == Arith(ShiftRight, ty, a, c)
    ensures Arith(ShiftLeft, ty, a, b) == BitShiftLeft(Residue(ty, a), b % Width(ty), Width(ty))
  {
    hide Pow2, BitShiftRight, BitShiftLeft, Residue, Canon, Width;
    UniqueRemainder(b % Width(ty), Width(ty), 0, b % Width(ty));
  }

  lemma ShiftGives(op: BinaryOp, ty: CType, a: int, b: int, x: int, y: int, n: int)
    requires IsPromoted(ty) && (op.ShiftLeft? || op.ShiftRight?)
    requires IsNumber(ty, x, a) && IsNumber(ty, y, b) && Congruent(ty, n, Arith(op, ty, a, b))
    ensures Gives(op, ty, x, y, n)
  {
    hide Pow2, Residue, Canon, Width, Arith, BitsOf, Congruent, Within;
    ModulusIsPower(ty);
    CongruentIffResidue(ty, y, b);
    CountSame(ty, ty, y, b);
    CountReduced(ty, a, b);
    NumberUnique(ty, x, a);
    if op.ShiftLeft? {
      ResidueIsCongruent(ty, x, a);
      LeftShiftGives(ty, x, Residue(ty, a), b % Width(ty), n);
    } else {
      RightShiftGives(ty, a, b % Width(ty), n);
    }
  }

  lemma ArithmeticGives(op: BinaryOp, ty: CType, a: int, b: int, n: int)
    requires IsPromoted(ty) && (op.Add? || op.Sub? || op.Mul? || op.Div? || op.Mod?)
    requires (Divides(op) ==> Canon(ty, b) != 0) && Congruent(ty, n, Arith(op, ty, a, b))
    ensures Gives(op, ty, Canon(ty, a), Canon(ty, b), n)
  {
    hide Residue, Canon, Congruent, TruncDiv, TruncMod, Divided;
    if Divides(op) {
      TruncDivides(Canon(ty, a), Canon(ty, b));
    }
  }

  /** Arithmetic, bitwise operators and shifts give the right bits, on any numbers with the bits of
      the operands. */
  lemma ArithGives(op: BinaryOp, ty: CType, a: int, b: int, x: int, y: int, n: int)
    requires IsPromoted(ty) && !IsComparison(op) && IsNumber(ty, x, a) && IsNumber(ty, y, b)
    requires (Divides(op) ==> y != 0) && Congruent(ty, n, Arith(op, ty, a, b))
    ensures Gives(op, ty, x, y, n)
  {
    hide Gives, Congruent, Within, Residue, Canon;
    NumberUnique(ty, x, a);
    NumberUnique(ty, y, b);
    hide Arith;
    if op.ShiftLeft? || op.ShiftRight? {
      ShiftGives(op, ty, a, b, x, y, n);
    } else if op.BitwiseAnd? || op.BitwiseNand? || op.BitwiseOr? || op.BitwiseXor? {
      ResidueIsCongruent(ty, x, a);
      ResidueIsCongruent(ty, y, b);
      BitwiseGives(op, ty, x, y, Residue(ty, a), Residue(ty, b), n);
    } else {
      ArithmeticGives(op, ty, a, b, n);
    }
  }

  lemma RelatedGives(op: BinaryOp, ty: CType, x: int, y: int)
    requires IsComparison(op)
    ensures Gives(op, ty, x, y, if Related(op, x, y) then 1 else 0)
  {
  }

  /** What the laws of the machine say of an operator: on two numbers of a type it leaves the number
      in range that has the right bits. */
  lemma MachineGives(m: Machine, op: BinaryOp, k: Class, l: Class, ty: CType, a: int, b: int, x: int, y: int)
    requires IntegerMachine(m) && IsPromoted(ty) && !IsComparison(op)
    requires IsNumber(ty, x, a) && IsNumber(ty, y, b) && (Divides(op) ==> y != 0)
    ensures var v := m.binary(op, k, l, ty, Num(a), Num(b)); v.Num? && Gives(op, ty, x, y, v.n) && IsHeld(ty, v.n, v.n)
  {
    assert Computes2(m, op, k, l, ty, a, b);
    hide IntegerMachine, Gives, Arith, Canon, IsNumber, Held;
    NumberUnique(ty, y, b);
    var n := Arith(op, ty, a, b);
    HeldResidue(ty, n);
    HeldIsHeld(ty, Held(ty, n));
    CongruentIffResidue(ty, Held(ty, n), n);
    ArithGives(op, ty, a, b, x, y, Held(ty, n));
  }
}
