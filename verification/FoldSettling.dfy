/** Where the constants come from that constant folding gets wrong: only from negations and
    complements at 32 bits, and from literals that do not fit. */
module FoldSettling {
  import opened Tacky
  import opened Semantics
  import opened BinaryIdentities
  import opened FoldRules
  import opened FoldSoundness
  import opened ConstantFolding
  import opened FoldLimits

  /** Every constant on record is the number its variable holds. */
  predicate SettledRecord(types: Types, m: Constants) {
    forall x :: x in m ==>
      Storable(TypeOf(types, x)) && ConstantOf(m[x].value).Some? && FitsAt(TypeOf(types, x), m[x].value)
  }

  predicate FitsAt(ty: CType, v: Val) {
    ConstantOf(v).Some? && Storable(ty) ==> Held(ty, ConstantOf(v).value) == ConstantOf(v).value
  }

  /** Literals fit the variables they go to, and no negation or complement of a known number is taken at
      32 bits. */
  predicate Plain(types: Types, m: Constants, i: Instr) {
    match i
    case Copy(v, x) => FitsAt(TypeOf(types, x), v)
    case Binary(op, l, r, x) => FitsAt(TypeOf(types, x), l) && (IsShift(op) || FitsAt(TypeOf(types, x), r))
    case Unary(op, v, x) => IsKnown(v, m) && !op.LogicalNot? ==> Size(TypeOf(types, x)) > 4
    case _ => true
  }

  lemma SettledRecordSettles(types: Types, m: Constants, i: Instr)
    requires SettledRecord(types, m)
    ensures ReadRight(types, m, i)
  {
    hide Held;
  }

  lemma IntPattern(n: int)
    ensures Canon(Long, Canon(Int, n)) == Canon(Int, n)
  {
    hide Pow2, Canon, Residue;
    CanonParts(Int, n);
    SignedBelow(Int, n);
    HalfPower(32);
    PowGrows(63, 31);
    LongRange(Canon(Int, n));
  }

  lemma SignedBelow(ty: CType, n: int)
    requires IsPromoted(ty) && IsSigned(ty)
    ensures Canon(ty, n) >= 0 ==> Canon(ty, n) < Pow2(Width(ty) - 1)
  {
    hide Pow2, Width;
  }

  lemma UIntPattern(n: int)
    ensures Canon(Long, Residue(UInt, n)) == Residue(UInt, n)
  {
    hide Pow2, Canon;
    PowGrows(63, 32);
    LongRange(Residue(UInt, n));
  }

  /** Constants made by the simplifier and by conversions are settled. */
  lemma MadeSettled(ty: CType, n: int)
    requires Storable(ty) && !ty.Bool?
    ensures FitsAt(ty, IntegerConstant(ty, CastWide(ty, n)))
  {
    hide Canon, Residue, Narrow, Pow2;
    match ty
    case Int => IntPattern(n); CanonResidue(Int, n);
    case UInt => UIntPattern(n); ResidueTwice(UInt, n); UnsignedCanon(UInt, Residue(UInt, n));
    case Long => CanonResidue(Long, n);
    case ULong => CanonResidue(Long, Residue(ULong, n));
    case Pointer => CanonResidue(Long, Residue(ULong, n));
    case Int128 => CanonResidue(Int128, n);
    case UInt128 =>
      ResidueTwice(UInt128, Canon(Int128, n));
      UnsignedCanon(UInt128, Residue(UInt128, Canon(Int128, n)));
    case _ => NarrowPattern(ty, n); NarrowFacts(ty, n);
  }

  lemma NarrowPattern(ty: CType, n: int)
    requires IsSmall(ty)
    ensures Canon(Long, Narrow(ty, n)) == Narrow(ty, n)
  {
    NarrowFacts(ty, n);
    LowPowers();
    hide Canon, Narrow, Pow2;
    LongRange(Narrow(ty, n));
  }

  lemma FoldedSettled(ty: CType, n: int)
    requires IsPromoted(ty)
    ensures FitsAt(ty, FoldedConstant(ty, n)) && (Size(ty) > 4 ==> FitsAt(ty, Unsettled(ty, n)))
  {
    hide Pow2, Residue, Canon;
    HeldResidue(ty, n);
    CanonResidue(Long, n);
  }

  /** A copied constant fits. */
  predicate Fitting(o: Option<Instr>, ty: CType) {
    o.Some? && o.value.Copy? ==> FitsAt(ty, o.value.src)
  }

  lemma ZeroFits(ty: CType)
    requires IsPromoted(ty)
    ensures FitsAt(ty, IntegerConstant(ty, 0)) && FitsAt(ty, AllOnesConstant(ty))
  {
    CastZero(ty);
    hide FitsAt, IntegerConstant, CastWide;
    MadeSettled(ty, 0);
    MadeSettled(ty, -1);
  }

  lemma CastZero(ty: CType)
    requires IsPromoted(ty)
    ensures CastWide(ty, 0) == 0
  {
    hide Canon, Residue, Pow2;
    SmallNumbers(ty);
    SmallNumbers(Int128);
  }

  lemma SpecialFits(op: BinaryOp, l: Val, r: Val, x: Name, ty: CType, types: Types)
    requires IsPromoted(ty) && FitsAt(ty, l) && (IsShift(op) || FitsAt(ty, r))
    ensures Fitting(SpecialOperand(op, l, r, x, ty, types), ty)
  {
    hide FitsAt, IntegerConstant, AllOnesConstant, IsAllOnesVal, IsZeroVal, IsOneVal, CanCopy;
    ZeroFits(ty);
  }

  lemma PowerFits(op: BinaryOp, l: Val, r: Val, x: Name, ty: CType)
    requires IsPromoted(ty)
    ensures Fitting(ReducePower(op, l, r, x, ty), ty)
  {
    hide ShiftCount, IntegerConstant, Pow2, FitsAt;
  }

  lemma SameFits(op: BinaryOp, v: Val, x: Name, ty: CType, types: Types)
    requires IsPromoted(ty) && FitsAt(ty, v)
    ensures Fitting(SameOperands(op, v, x, ty, types), ty) && Fitting(CopyIdentity(v, x, ty, types), ty)
  {
    hide IntegerConstant, AllOnesConstant, FitsAt, CanCopy, IsPromoted, Storable;
    ZeroFits(ty);
  }

  lemma SimplifiedFits(op: BinaryOp, l: Val, r: Val, x: Name, ty: CType, types: Types)
    requires IsPromoted(ty) && !IsComparison(op) && FitsAt(ty, l) && (IsShift(op) || FitsAt(ty, r))
    ensures Fitting(Simplify(op, l, r, x, ty, types), ty)
  {
    hide FitsAt, ReducePower, SameOperands, SpecialOperand, CopyIdentity, Fitting;
    PowerFits(op, l, r, x, ty);
    SameFits(op, l, x, ty, types);
    SpecialFits(op, l, r, x, ty, types);
  }

  lemma BinaryFits(types: Types, op: BinaryOp, l: Val, r: Val, x: Name, hint: CType)
    requires if IsComparison(op) then FoldBinary(types, op, l, r, x, hint).Copy? ==> IsPromoted(TypeOf(types, x))
             else FitsAt(TypeOf(types, x), l) && (IsShift(op) || FitsAt(TypeOf(types, x), r))
    requires !IsComparison(op) && !IsPromoted(TypeOf(types, x)) ==>
      !IsSmall(TypeOf(types, x)) && (ConstantOf(l).None? || ConstantOf(r).None?)
    ensures Fitting(Some(FoldBinary(types, op, l, r, x, hint)), TypeOf(types, x))
  {
    var ty := TypeOf(types, x);
    FoldBinaryCases(types, op, l, r, x, hint);
    if IsPromoted(ty) {
      SmallHeld(ty);
    }
    if IsComparison(op) {
      ComparisonTruth(types, op, l, r, x, hint);
    } else if IsPromoted(ty) {
      SimplifiedFits(op, l, r, x, ty, types);
      hide FitsAt, FoldBinary, Simplify, Arith, Canon, FoldedConstant;
      forall a, b
        ensures Evaluate(op, ty, a, b).Some? ==> FitsAt(ty, Evaluate(op, ty, a, b).value)
      {
        FoldedSettled(ty, Arith(op, ty, a, b));
      }
    }
  }

  lemma ComparisonTruth(types: Types, op: BinaryOp, l: Val, r: Val, x: Name, hint: CType)
    requires IsComparison(op)
    ensures var f := FoldBinary(types, op, l, r, x, hint);
      f.Copy? ==> f.src == Truth(true) || f.src == Truth(false)
  {
    hide FoldBinary, Canon, Related, EvalType, IsPromoted, IsSmall;
    FoldBinaryCases(types, op, l, r, x, hint);
  }

  /** A known operand of arithmetic at `ty` fits it. */
  lemma ResolvedFits(types: Types, m: Constants, v: Val, ty: CType)
    requires SettledRecord(types, m) && FitsAt(ty, v) && OperandOf(types, m, v, ty)
    ensures FitsAt(ty, ResolveVal(v, m))
  {
    hide Held;
  }

  /** Whatever constant the scan copies fits its destination. */
  lemma EmittedFits(types: Types, m: Constants, i: Instr, env: Env)
    requires EntriesHold(types, m, env) && SettledRecord(types, m) && Integral(types, m, i) && Plain(types, m, i)
    ensures var f := FoldOne(types, m, i); f.Copy? ==> FitsAt(TypeOf(types, f.dst), f.src)
  {
    if !i.Binary? && !i.Unary? && !i.Convert? && !i.AddPtr? {
      OthersEmit(types, m, i);
    }
    hide EntriesHold, SettledRecord, FoldOne, Integral, Plain, FitsAt;
    match i
    case Binary(_, _, _, _) => BinaryEmits(types, m, i, env);
    case Unary(_, _, _) => UnaryEmits(types, m, i);
    case Convert(_, _, _) => ConvertEmits(types, m, i);
    case AddPtr(_, _, _, _) => AddPtrEmits(types, m, i);
    case _ =>
  }

  lemma OthersEmit(types: Types, m: Constants, i: Instr)
    requires Plain(types, m, i) && !i.Binary? && !i.Unary? && !i.Convert? && !i.AddPtr?
    ensures var f := FoldOne(types, m, i); f.Copy? ==> FitsAt(TypeOf(types, f.dst), f.src)
  {
    hide FitsAt, ResolveVal;
  }

  lemma BinaryEmits(types: Types, m: Constants, i: Instr, env: Env)
    requires EntriesHold(types, m, env) && SettledRecord(types, m) && Integral(types, m, i) && Plain(types, m, i)
      && i.Binary?
    ensures var f := FoldOne(types, m, i); f.Copy? ==> FitsAt(TypeOf(types, f.dst), f.src)
  {
    hide EntriesHold, FoldOne, FoldBinary, FitsAt, SettledRecord, Hint, Common, ResolveType, ComparedAt,
      ComparesAddresses;
    var l, r := ResolveVal(i.left, m), ResolveVal(i.right, m);
    FoldOneBinary(types, m, i);
    BinaryShaped(types, i.bop, l, r, i.dst, Hint(types, m, i));
    HintType(types, m, i.left, env);
    HintType(types, m, i.right, env);
    HintCommon(types, m, i);
    CommonNotSmall(ValType(types, i.left), ValType(types, i.right));
    if !IsComparison(i.bop) {
      ResolvedFits(types, m, i.left, TypeOf(types, i.dst));
      if !IsShift(i.bop) {
        ResolvedFits(types, m, i.right, TypeOf(types, i.dst));
      }
    }
    BinaryFits(types, i.bop, l, r, i.dst, Hint(types, m, i));
  }

  lemma UnaryEmits(types: Types, m: Constants, i: Instr)
    requires Integral(types, m, i) && Plain(types, m, i) && i.Unary?
    ensures var f := FoldOne(types, m, i); f.Copy? ==> FitsAt(TypeOf(types, f.dst), f.src)
  {
    var ty, w := TypeOf(types, i.dst), ResolveVal(i.src, m);
    FoldOneUnary(types, m, i);
    if IsPromoted(ty) && ConstantOf(w).Some? {
      var n := ConstantOf(w).value;
      if i.uop.LogicalNot? {
        SmallHeld(ty);
        NotFolds(types, w, i.dst, n);
      } else {
        FoldedSettled(ty, if i.uop.Negate? then -n else -1 - n);
        SignFolds(types, i.uop, w, i.dst, n);
      }
    }
    hide FoldOne, Unsettled, Held, OperandOf;
  }

  lemma ConvertEmits(types: Types, m: Constants, i: Instr)
    requires i.Convert? && Integral(types, m, i)
    ensures var f := FoldOne(types, m, i); f.Copy? ==> FitsAt(TypeOf(types, f.dst), f.src)
  {
    var ty := TypeOf(types, i.dst);
    FoldOneConvert(types, m, i);
    hide FoldOne, FitsAt, IntegerConstant, CastWide, Widened, ResolveVal, ResolveType, Storable, IsConverted, NumberOf;
    if Storable(ty) && !ty.Bool? {
      forall n ensures FitsAt(ty, IntegerConstant(ty, CastWide(ty, n))) {
        MadeSettled(ty, n);
      }
    }
  }

  lemma AddPtrEmits(types: Types, m: Constants, i: Instr)
    requires i.AddPtr? && Integral(types, m, i) && SettledRecord(types, m)
    ensures var f := FoldOne(types, m, i); f.Copy? ==> FitsAt(TypeOf(types, f.dst), f.src)
  {
    hide FoldOne, Canon, Held, Storable;
    FoldOneAddPtr(types, m, i);
  }

  /** ReadRight constants stay settled over every instruction but a negation or complement at 32 bits. */
  lemma SettledStays(types: Types, m: Constants, i: Instr, env: Env)
    requires EntriesHold(types, m, env) && SettledRecord(types, m) && Integral(types, m, i) && Plain(types, m, i)
    ensures SettledRecord(types, AfterFold(types, m, FoldOne(types, m, i)))
  {
    EmittedFits(types, m, i, env);
    FoldRecords(types, m, i, env);
    EmittedKind(types, m, i);
    hide FoldOne, EntriesHold, Integral, Plain, FitsAt;
    FittingRecorded(types, m, FoldOne(types, m, i));
  }

  lemma FittingRecorded(types: Types, m: Constants, f: Instr)
    requires SettledRecord(types, m) && Records(types, m, f)
    requires f.Copy? ==> FitsAt(TypeOf(types, f.dst), f.src)
    requires forall x :: x in m ==> m[x].valueType == TypeOf(types, x)
    ensures SettledRecord(types, AfterFold(types, m, f))
  {
    hide Held;
  }

  /** What the caller can check: where folds are about integers (`Integral`), literals that fit and no
      negation or complement of a known number at 32 bits are enough for every fold to be right. */
  lemma PlainBodiesCovered(types: Types, body: seq<Instr>)
    requires forall k :: 0 <= k < |body| ==> PlainAt(types, body, k)
    ensures Covered(types, body)
  {
    hide PlainAt, CoveredAt, RecordAt;
    forall k | 0 <= k < |body| ensures CoveredAt(types, body, k) {
      var env := SettledAt(types, body, k);
      PlainCovered(types, body, k);
    }
  }

  predicate PlainAt(types: Types, body: seq<Instr>, k: nat)
    requires k < |body|
  {
    var m := Before(RecordAt(types, body, k), body[k]);
    body[k].Label? || (Integral(types, m, body[k]) && Plain(types, m, body[k]))
  }

  lemma PlainCovered(types: Types, body: seq<Instr>, k: nat)
    requires k < |body| && PlainAt(types, body, k) && SettledRecord(types, RecordAt(types, body, k))
    ensures CoveredAt(types, body, k)
  {
    hide Integral, Plain, SettledRecord;
    NothingSettled(types);
    SettledRecordSettles(types, Before(RecordAt(types, body, k), body[k]), body[k]);
  }

  lemma NothingSettled(types: Types)
    ensures SettledRecord(types, map[]) && forall env :: EntriesHold(types, map[], env)
  {
  }

  /** Along such a body every record is settled, and some variables agree with it. */
  lemma {:induction false} SettledAt(types: Types, body: seq<Instr>, k: nat) returns (env: Env)
    requires k < |body| && forall j :: 0 <= j < |body| ==> PlainAt(types, body, j)
    ensures SettledRecord(types, RecordAt(types, body, k)) && EntriesHold(types, RecordAt(types, body, k), env)
    decreases k
  {
    hide PlainAt, SettledRecord, EntriesHold, RecordAt, After, FoldOne, Exec;
    NothingSettled(types);
    if k == 0 {
      FirstRecord(types, body);
      env := map[];
    } else {
      var e := SettledAt(types, body, k - 1);
      RecordNext(types, body, k - 1);
      env := SettledOver(types, body, k - 1, e);
    }
  }

  /** One instruction, carried out by a machine that meets the laws. */
  lemma SettledOver(types: Types, body: seq<Instr>, k: nat, e: Env) returns (env: Env)
    requires k < |body| && PlainAt(types, body, k)
    requires SettledRecord(types, RecordAt(types, body, k)) && EntriesHold(types, RecordAt(types, body, k), e)
    ensures SettledRecord(types, After(types, RecordAt(types, body, k), body[k]))
    ensures EntriesHold(types, After(types, RecordAt(types, body, k), body[k]), env)
  {
    var i := body[k];
    var m := Before(RecordAt(types, body, k), i);
    hide SettledRecord, EntriesHold, RecordAt, FoldOne, Exec, AfterFold, Integral, Plain, Records, FoldingMachine;
    NothingSettled(types);
    env := e;
    if !i.Label? {
      var c, f := Ctx(TwosComplement(), types, {}, {}), FoldOne(types, m, i);
      ComplementLawful();
      SettledStays(types, m, i, e);
      FoldRecords(types, m, i, e);
      EmittedKind(types, m, i);
      RecordAfterFold(c, m, f, Data(e, map[], []));
      env := Exec(c, f, Data(e, map[], [])).env;
    }
  }

  lemma RecordAfterFold(c: Ctx, m: Constants, f: Instr, d: Data)
    requires FoldingMachine(c.machine) && EntriesHold(c.types, m, d.env) && Records(c.types, m, f)
    requires (f.CopyToOffset? ==> f.dstName !in m) && (IsBarrier(f) ==> m == map[])
    ensures EntriesHold(c.types, AfterFold(c.types, m, f), Exec(c, f, d).env)
  {
    hide IntegerMachine, EntriesHold, AfterFold, Records, Exec;
    RecordKept(c, m, f, d);
  }
}
