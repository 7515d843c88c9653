/** What constant folding relies on: the exact conditions under which it folds branches, logical
    negations and returns rightly, a program on which it goes wrong, and a machine that meets the laws. */
module FoldLimits {
  import opened Tacky
  import opened Semantics
  import opened Behaviour
  import opened Arithmetic
  import opened BinaryIdentities
  import opened FoldRules
  import opened FoldSoundness
  import opened ConstantFolding
  import opened SmallPrograms

  // ----- exact conditions -----

  /** A branch is folded to the way it goes exactly when the constant on record for its condition is 0
      just when the condition is. */
  lemma BranchRight(c: Ctx, m: Constants, i: Instr, d: Data)
    requires FoldingMachine(c.machine) && EntriesHold(c.types, m, d.env) && (i.JumpIfZero? || i.JumpIfNotZero?)
    ensures var f := FoldOne(c.types, m, i);
      Taken(c, i, d.env) == (IsJump(f) && Taken(c, f, d.env)) <==> SameTruth(c.types, m, i.cond)
  {
    hide FoldingMachine, EntriesHold, FoldOne, SameTruth, Taken;
    if SameTruth(c.types, m, i.cond) {
      BranchFoldSame(c, m, i, d);
    } else {
      UntrueBranch(c, m, i, d);
    }
  }

  lemma UntrueBranch(c: Ctx, m: Constants, i: Instr, d: Data)
    requires FoldingMachine(c.machine) && EntriesHold(c.types, m, d.env) && (i.JumpIfZero? || i.JumpIfNotZero?)
    requires !SameTruth(c.types, m, i.cond)
    ensures var f := FoldOne(c.types, m, i); Taken(c, i, d.env) != (IsJump(f) && Taken(c, f, d.env))
  {
    FoldOneBranch(c.types, m, i);
    var n := UntrueOperand(c.types, m, i.cond, d.env);
    Zero(c.machine, n.0);
    hide FoldingMachine, EntriesHold, FoldOne;
  }

  lemma Zero(m: Machine, a: int)
    requires FoldingMachine(m)
    ensures m.isZero(Num(a)) == (a == 0)
  {
    hide IntegerMachine, Negates, Converts, StepsPointers;
    assert Tests(m, Int, a);
  }

  /** An operand whose number is 0 and whose constant is not, or the other way round. */
  lemma UntrueOperand(types: Types, m: Constants, v: Val, env: Env) returns (n: (int, int))
    requires EntriesHold(types, m, env) && !SameTruth(types, m, v)
    ensures HasNumber(v, env, n.0) && ConstantOf(ResolveVal(v, m)) == Some(n.1) && (n.0 == 0) != (n.1 == 0)
  {
    hide EntriesHold, Held;
    var a, k := KnownOperand(types, m, v, env);
    n := (a, k);
  }

  /** A logical negation leaves what it should exactly under the same condition. */
  lemma NotRight(c: Ctx, m: Constants, i: Instr, d: Data)
    requires FoldingMachine(c.machine) && EntriesHold(c.types, m, d.env)
    requires i.Unary? && i.uop.LogicalNot? && Integral(c.types, m, i)
    ensures Exec(c, FoldOne(c.types, m, i), d) == Exec(c, i, d) <==> SameTruth(c.types, m, i.src)
  {
    hide FoldingMachine, EntriesHold, FoldOne, SameTruth, Exec;
    if SameTruth(c.types, m, i.src) {
      UnaryFoldSame(c, m, i, d);
    } else {
      UntrueNot(c, m, i, d);
    }
  }

  lemma UntrueNot(c: Ctx, m: Constants, i: Instr, d: Data)
    requires FoldingMachine(c.machine) && EntriesHold(c.types, m, d.env)
    requires i.Unary? && i.uop.LogicalNot? && Integral(c.types, m, i) && !SameTruth(c.types, m, i.src)
    ensures Exec(c, FoldOne(c.types, m, i), d) != Exec(c, i, d)
  {
    var n := UntrueOperand(c.types, m, i.src, d.env);
    var w := ResolveVal(i.src, m);
    FoldOneUnary(c.types, m, i);
    NotFolds(c.types, w, i.dst, n.1);
    hide EntriesHold, FoldOne, FoldUnary, Result, Exec;
    NotLeaves(c, i.src, i.dst, d, n.0);
    ConstantEval(w, d.env);
    NotLeaves(c, w, i.dst, d, n.1);
    TruthLeaves(c, n.1 == 0, i.dst, d);
    hide FoldingMachine;
    Assigns(c, Unary(LogicalNot, w, i.dst), d);
    Assigns(c, Copy(Truth(n.1 == 0), i.dst), d);
    Assigns(c, i, d);
  }

  lemma Assigns(c: Ctx, i: Instr, d: Data)
    requires Computes(i)
    ensures Read(Exec(c, i, d).env, DefinedVar(i).value) == Result(c, i, d)
  {
    hide Result;
  }

  lemma NotLeaves(c: Ctx, v: Val, x: Name, d: Data, a: int)
    requires FoldingMachine(c.machine) && IsPromoted(TypeOf(c.types, x)) && HasNumber(v, d.env, a)
    ensures Result(c, Unary(LogicalNot, v, x), d) == Num(if a == 0 then 1 else 0)
  {
    hide IntegerMachine, Negates, Converts, StepsPointers;
    assert Tests(c.machine, TypeOf(c.types, x), a);
  }

  /** A return hands back the right value exactly when the constant on record is the variable's number. */
  lemma ReturnRight(c: Ctx, m: Constants, i: Instr, d: Data)
    requires EntriesHold(c.types, m, d.env) && i.Return?
    ensures FoldOne(c.types, m, i).Return?
    ensures EvalVal(FoldOne(c.types, m, i).val, d.env) == EvalVal(i.val, d.env) <==> Exact(c.types, m, i.val)
  {
    hide EntriesHold, Held;
    if IsKnownVar(i.val, m) {
      var n := EntryNumber(c.types, m, i.val, d.env);
    }
  }

  // ----- a machine that meets the laws -----

  /** The type of a class that numbers can have. */
  function TypeOfClass(k: Class): CType {
    if k.floating then Double
    else if k.size == 4 then (if k.signed then Int else UInt)
    else if k.size == 8 then (if k.signed then Long else ULong)
    else if k.size == 16 then (if k.signed then Int128 else UInt128)
    else if k.size == 1 then SChar
    else if k.size == 2 then Short
    else Void
  }

  function Negation(op: UnaryOp, ty: CType, v: Value): Value {
    if !IsPromoted(ty) || !v.Num? then v
    else match op
      case Negate => Num(Held(ty, -v.n))
      case Complement => Num(Held(ty, -1 - v.n))
      case LogicalNot => Num(if v.n == 0 then 1 else 0)
  }

  function Combination(op: BinaryOp, k: Class, l: Class, ty: CType, v: Value, w: Value): Value {
    var u := Common(TypeOfClass(k), TypeOfClass(l));
    if !IsPromoted(ty) || !v.Num? || !w.Num? then v
    else if !IsComparison(op) then Num(Held(ty, Arith(op, ty, v.n, w.n)))
    else Num(if IsPromoted(u) && Related(op, Canon(u, v.n), Canon(u, w.n)) then 1 else 0)
  }

  function Converted(kind: Conversion, k: Class, ty: CType, v: Value): Value {
    if !Storable(ty) || !v.Num? then v
    else if kind.ZeroExtend? && IsConverted(TypeOfClass(k)) then Num(Held(ty, Bits(TypeOfClass(k), v.n)))
    else Num(Held(ty, v.n))
  }

  function Copied(ty: CType, v: Value): Value {
    if Storable(ty) && v.Num? then Num(Held(ty, v.n)) else v
  }

  function Stepped(p: Value, n: Value, scale: int): Value {
    var offset := if n.Num? then Canon(Long, n.n * scale) else 0;
    match p
    case Ptr(x, k) => Ptr(x, k + offset)
    case Num(k) => Num(Held(Pointer, k + offset))
    case _ => p
  }

  /** Two's complement on numbers, and nothing on anything else. */
  function TwosComplement(): Machine {
    Machine((op, ty, v) => Negation(op, ty, v), (op, k, l, ty, v, w) => Combination(op, k, l, ty, v, w),
            (kind, k, ty, v) => Converted(kind, k, ty, v), (k, ty, v) => Copied(ty, v),
              (p, n, scale) => Stepped(p, n, scale),
            (v, n, ty) => v, (v, n, k, w) => w, (mem, p, ty) => Num(0), (mem, p, k, v) => mem,
            v => v == Num(0), trace => Reply(Num(0), map[], map[]))
  }

  /** The class of an integer type tells the type, up to promotion. */
  lemma ClassTells(s: CType)
    requires IsSmall(s) || IsPromoted(s)
    ensures var t := TypeOfClass(ClassOf(s)); if IsSmall(s) then IsSmall(t) else t == s
  {
  }

  lemma CommonOfClasses(s: CType, t: CType)
    requires (IsSmall(s) || IsPromoted(s)) && (IsSmall(t) || IsPromoted(t))
    ensures Common(TypeOfClass(ClassOf(s)), TypeOfClass(ClassOf(t))) == Common(s, t)
  {
    ClassTells(s);
    ClassTells(t);
    hide TypeOfClass, ClassOf;
  }

  lemma PointersCommon(s: CType, t: CType)
    ensures s.Pointer? || t.Pointer? ==> !IsPromoted(Common(s, t))
  {
  }

  lemma ComplementCompares(op: BinaryOp, s: CType, t: CType, ty: CType, a: int, b: int)
    requires IsComparison(op)
    ensures ComparesAt(TwosComplement(), op, s, t, ty, a, b)
  {
    hide Canon, Related, Held, Arith, Common, TypeOfClass, Negation, Converted, Stepped, Copied;
    if NumberOf(s, a) && NumberOf(t, b) && !s.Pointer? && !t.Pointer? {
      CommonOfClasses(s, t);
    }
    assert s.Pointer? || t.Pointer? ==> !IsPromoted(Common(s, t)) by { PointersCommon(s, t); }
  }

  lemma ConvertsBy(kind: Conversion, k: Class, ty: CType, v: Value)
    ensures TwosComplement().convert(kind, k, ty, v) == Converted(kind, k, ty, v)
  {
    hide Combination, Negation, Stepped, Copied, Converted;
  }

  lemma ClassBits(s: CType, a: int)
    requires IsConverted(s)
    ensures IsConverted(TypeOfClass(ClassOf(s))) && Bits(TypeOfClass(ClassOf(s)), a) == Bits(s, a)
  {
    hide Residue, TypeOfClass;
    TellsClass(s);
  }

  lemma TellsClass(s: CType)
    requires IsConverted(s)
    ensures var t := TypeOfClass(ClassOf(s));
      IsConverted(t) && if IsSmall(s) then IsSmall(t) && Size(t) == Size(s) else t == s
  {
  }

  lemma ComplementConverts(s: CType, ty: CType, a: int)
    ensures Converts(TwosComplement(), s, ty, a)
  {
    hide Bits, Held, TypeOfClass, NumberOf, ClassOf, TwosComplement, IsConverted, Storable;
    if IsConverted(s) && Storable(ty) {
      ClassBits(s, a);
      forall kind ensures TwosComplement().convert(kind, ClassOf(s), ty, Num(a))
        == Converted(kind, ClassOf(s), ty, Num(a)) {
        ConvertsBy(kind, ClassOf(s), ty, Num(a));
      }
    }
  }

  /** An address is classed like an unsigned 64-bit number. */
  lemma AddressClass(t: CType)
    requires Storable(t) && Size(t) <= 8
    ensures TypeOfClass(ClassOf(Pointer)) == ULong
    ensures Common(ULong, TypeOfClass(ClassOf(t))) == ULong == Common(TypeOfClass(ClassOf(t)), ULong)
  {
  }

  lemma OneAddress(s: CType, t: CType)
    requires Common(s, t).Pointer?
    ensures s.Pointer? || t.Pointer?
  {
  }

  lemma CanonTells(ty: CType, a: int, b: int)
    requires IsPromoted(ty)
    ensures Canon(ty, a) == Canon(ty, b) <==> Residue(ty, a) == Residue(ty, b)
  {
    hide Pow2, Canon, Residue;
    CanonResidue(ty, a);
    CanonResidue(ty, b);
    if Residue(ty, a) == Residue(ty, b) {
      SameCanon(ty, a, b);
    }
  }

  lemma SameWidthBits(a: int)
    ensures Residue(ULong, a) == Residue(Long, a)
  {
  }

  lemma SamePattern(a: int, b: int)
    ensures Canon(ULong, a) == Canon(ULong, b) <==> Canon(Long, a) == Canon(Long, b)
  {
    hide Canon, Residue;
    CanonTells(Long, a, b);
    CanonTells(ULong, a, b);
    SameWidthBits(a);
    SameWidthBits(b);
  }

  lemma AddressesCombine(op: BinaryOp, s: CType, t: CType, ty: CType, a: int, b: int)
    requires AddressPair(op, s, t) && IsPromoted(ty)
    ensures Combination(op, ClassOf(s), ClassOf(t), ty, Num(a), Num(b))
      == Num(if Related(op, Canon(Long, a), Canon(Long, b)) then 1 else 0)
  {
    hide Canon, Held, Common, TypeOfClass, ClassOf, Arith, Storable, Size;
    OneAddress(s, t);
    AddressClass(s);
    AddressClass(t);
    SamePattern(a, b);
  }

  lemma CombinesBy(op: BinaryOp, k: Class, l: Class, ty: CType, v: Value, w: Value)
    ensures TwosComplement().binary(op, k, l, ty, v, w) == Combination(op, k, l, ty, v, w)
  {
    hide Combination, Negation, Stepped, Copied, Converted;
  }

  lemma ComplementAddresses(op: BinaryOp, s: CType, t: CType, ty: CType, a: int, b: int)
    ensures ComparesPointers(TwosComplement(), op, s, t, ty, a, b)
  {
    hide TwosComplement, Canon, ClassOf, Related, Combination, IsPromoted, AddressPair, NumberOf;
    CombinesBy(op, ClassOf(s), ClassOf(t), ty, Num(a), Num(b));
    if AddressPair(op, s, t) && IsPromoted(ty) {
      AddressesCombine(op, s, t, ty, a, b);
    }
  }

  lemma AddsBy(p: Value, v: Value, scale: int, k: Class, ty: CType)
    ensures TwosComplement().addPtr(p, v, scale) == Stepped(p, v, scale)
      && TwosComplement().copy(k, ty, p) == Copied(ty, p)
  {
    hide Combination, Negation, Stepped, Copied, Converted;
  }

  lemma ComplementSteps(p: Value, n: int, scale: int)
    ensures StepsPointers(TwosComplement(), p, n, scale)
  {
    hide TwosComplement, Canon, Residue, Held;
    var offset := Canon(Long, n * scale);
    CanonResidue(Long, n * scale);
    assert offset * 1 == offset;
    AddsBy(p, Num(n), scale, ClassOf(Pointer), Pointer);
    AddsBy(p, Num(offset), 1, ClassOf(Pointer), Pointer);
  }

  lemma ComplementComputes(op: BinaryOp, k: Class, l: Class, ty: CType, a: int, b: int)
    ensures Computes2(TwosComplement(), op, k, l, ty, a, b)
  {
    hide Held, Arith, Canon, Negation, Stepped, Copied, Converted;
  }

  lemma ComplementMoves(k: Class, ty: CType, a: int)
    ensures Moves(TwosComplement(), k, ty, a)
  {
    hide Held, Storable, Negation, Combination, Stepped, Converted;
  }

  lemma ComplementUnary(ty: CType, a: int)
    ensures Complements(TwosComplement(), ty, a) && Negates(TwosComplement(), ty, a) && Tests(TwosComplement(), ty, a)
  {
    hide Held, Combination, Stepped, Copied, Converted;
  }

  /** The laws can be met. */
  lemma ComplementLawful()
    ensures FoldingMachine(TwosComplement())
  {
    var m := TwosComplement();
    hide TwosComplement, Computes2, Moves, Complements, ComparesAt, Negates, Tests, Converts, StepsPointers,
      ComparesPointers;
    forall op, k, l, ty, a, b ensures Computes2(m, op, k, l, ty, a, b) {
      ComplementComputes(op, k, l, ty, a, b);
    }
    forall k, ty, a ensures Moves(m, k, ty, a) {
      ComplementMoves(k, ty, a);
    }
    forall ty, a ensures Complements(m, ty, a) && Negates(m, ty, a) && Tests(m, ty, a) {
      ComplementUnary(ty, a);
    }
    forall op, s, t, ty, a, b ensures ComparesPointers(m, op, s, t, ty, a, b) {
      ComplementAddresses(op, s, t, ty, a, b);
    }
    forall op, s, t, ty, a, b | IsComparison(op) ensures ComparesAt(m, op, s, t, ty, a, b) {
      ComplementCompares(op, s, t, ty, a, b);
    }
    forall s, ty, a ensures Converts(m, s, ty, a) {
      ComplementConverts(s, ty, a);
    }
    forall p, n, scale ensures StepsPointers(m, p, n, scale) {
      ComplementSteps(p, n, scale);
    }
  }

  // ----- a branch on an untruncated constant -----

  /** `x` is the greatest unsigned number, so its complement is 0 and the branch is taken. */
  function Complementing(): seq<Instr> {
    [Copy(Constant(4294967295), "x"), Unary(Complement, Var("x"), "y"), JumpIfZero(Var("y"), "end"),
     Return(Constant(1)), Label("end"), Return(Constant(2))]
  }

  function UnsignedTypes(): Types {
    map["x" := UInt, "y" := UInt]
  }

  /** Folding computes the complement at 64 bits, finds it not to be 0 and drops the branch. */
  function ComplementFolded(): seq<Instr> {
    [Copy(Constant(4294967295), "x"), Copy(Constant(-4294967296), "y"), Nop,
     Return(Constant(1)), Label("end"), Return(Constant(2))]
  }

  lemma Powers()
    ensures Pow2(32) == 4294967296 && Pow2(31) == 2147483648
    ensures Pow2(63) == 9223372036854775808 && Pow2(64) == 18446744073709551616
  {
    assert Pow2(8) == 256;
    PowSum(8, 8);
    PowSum(16, 15);
    PowSum(16, 16);
    PowSum(32, 31);
    PowSum(32, 32);
  }

  lemma UnsignedFacts()
    ensures Held(UInt, 4294967295) == 4294967295 && Held(UInt, -4294967296) == 0
    ensures Canon(Long, -4294967296) == -4294967296
  {
    Powers();
    hide Pow2;
    UniqueRemainder(4294967295, 4294967296, 0, 4294967295);
    UniqueRemainder(-4294967296, 4294967296, -1, 0);
    UniqueRemainder(-4294967296, 18446744073709551616, -1, 18446744069414584320);
  }

  lemma ComplementFolds()
    ensures FoldUnary(UnsignedTypes(), Complement, Constant(4294967295), "y") == Copy(Constant(-4294967296), "y")
  {
    UnsignedFacts();
    hide Canon, Held;
  }

  const KNOWN_X := Known(Constant(4294967295), UInt)
  const KNOWN_Y := Known(Constant(-4294967296), UInt)

  lemma CopyEmits()
    ensures Emitted(UnsignedTypes(), map[], Complementing()[0]) == Complementing()[0]
  {
    hide FoldUnary, FoldBinary, FoldConvert, FoldAddPtr, FoldBranch;
  }

  lemma ComplementEmits()
    ensures Emitted(UnsignedTypes(), map["x" := KNOWN_X], Complementing()[1]) == Copy(Constant(-4294967296), "y")
  {
    ComplementFolds();
    FoldOneUnary(UnsignedTypes(), map["x" := KNOWN_X], Complementing()[1]);
    hide FoldOne, FoldUnary;
  }

  lemma BranchEmits()
    ensures Emitted(UnsignedTypes(), map["x" := KNOWN_X, "y" := KNOWN_Y], Complementing()[2]) == Nop
  {
    FoldOneBranch(UnsignedTypes(), map["x" := KNOWN_X, "y" := KNOWN_Y], Complementing()[2]);
    hide FoldOne;
  }

  lemma PlainEmits(m: Constants)
    ensures var t, p := UnsignedTypes(), Complementing();
      Emitted(t, m, p[3]) == p[3] && Emitted(t, m, p[4]) == p[4] && Emitted(t, m, p[5]) == p[5]
  {
    hide FoldUnary, FoldBinary, FoldConvert, FoldAddPtr;
  }

  /** What is known as the scan goes on. */
  lemma ComplementRecords()
    ensures var t, p := UnsignedTypes(), Complementing();
      && RecordAt(t, p, 0) == map[] && RecordAt(t, p, 1) == map["x" := KNOWN_X]
      && RecordAt(t, p, 2) == map["x" := KNOWN_X, "y" := KNOWN_Y]
  {
    CopyEmits();
    ComplementEmits();
    var t, p := UnsignedTypes(), Complementing();
    hide Emitted;
    assert RecordAt(t, p, 1) == After(t, RecordAt(t, p, 0), p[0]);
    assert RecordAt(t, p, 2) == After(t, RecordAt(t, p, 1), p[1]);
  }

  lemma ComplementScan()
    ensures Folded(UnsignedTypes(), Complementing()) == ComplementFolded()
  {
    ComplementRecords();
    CopyEmits();
    ComplementEmits();
    BranchEmits();
    var t, p := UnsignedTypes(), Complementing();
    hide Emitted, RecordAt;
    PlainEmits(RecordAt(t, p, 3));
    PlainEmits(RecordAt(t, p, 4));
    PlainEmits(RecordAt(t, p, 5));
    var q := Folded(t, p);
    assert |q| == 6 && q == [q[0], q[1], q[2], q[3], q[4], q[5]];
  }

  /** A run in a single list of instructions: what the next step leads to. */
  lemma StopsAt(c: Ctx, body: seq<Instr>, k: nat, d: Data, h: Config)
    requires k < |body| && !body[k].Return? && !body[k].Unreachable? && !IsJump(body[k])
    requires StopsFrom(c, [body], Running(0, body[k + 1..], Exec(c, body[k], d)), h)
    ensures StopsFrom(c, [body], Running(0, body[k..], d), h)
  {
    hide Exec, Goto, StopsFrom;
    StepAt(c, body, k, d);
    hide Step;
    StopsAfter(c, [body], Running(0, body[k..], d), Running(0, body[k + 1..], Exec(c, body[k], d)), h);
  }

  lemma StopsReturning(c: Ctx, body: seq<Instr>, k: nat, d: Data)
    requires k < |body| && body[k].Return?
    ensures StopsFrom(c, [body], Running(0, body[k..], d), Halt(c, Returned(EvalVal(body[k].val, d.env)), d))
  {
    hide Exec, Goto, StopsFrom, Halt;
    var h := Halt(c, Returned(EvalVal(body[k].val, d.env)), d);
    StepAt(c, body, k, d);
    HaltStops(c, Returned(EvalVal(body[k].val, d.env)), d);
    hide Step;
    StopsNow(c, [body], h);
    StopsAfter(c, [body], Running(0, body[k..], d), h, h);
  }

  lemma HaltStops(c: Ctx, o: Outcome, d: Data)
    ensures Halt(c, o, d).Halted? && Halt(c, o, d).outcome == o
  {
  }

  ghost predicate UnsignedCtx(c: Ctx) {
    FoldingMachine(c.machine) && c.types == UnsignedTypes()
  }

  /** What the first two instructions leave, folded or not. */
  function Started(d: Data): Data {
    d.(env := d.env["x" := Num(4294967295)]["y" := Num(0)])
  }

  lemma FirstTwo(c: Ctx, d: Data)
    requires UnsignedCtx(c)
    ensures Exec(c, Complementing()[1], Exec(c, Complementing()[0], d)) == Started(d)
    ensures Exec(c, ComplementFolded()[1], Exec(c, ComplementFolded()[0], d)) == Started(d)
  {
    var e := d.(env := d.env["x" := Num(4294967295)]);
    FirstLeaves(c, d);
    SecondLeaves(c, e);
    hide UnsignedCtx, Result;
  }

  lemma FirstLeaves(c: Ctx, d: Data)
    requires UnsignedCtx(c)
    ensures Result(c, Copy(Constant(4294967295), "x"), d) == Num(4294967295)
  {
    UnsignedFacts();
    hide IntegerMachine, Held, Canon, Negates, Tests, Converts, StepsPointers;
    CopyLeaves(c, Constant(4294967295), "x", d, 4294967295);
  }

  lemma SecondLeaves(c: Ctx, e: Data)
    requires UnsignedCtx(c) && Read(e.env, "x") == Num(4294967295)
    ensures Result(c, Unary(Complement, Var("x"), "y"), e) == Num(0) == Result(c, Copy(Constant(-4294967296), "y"), e)
  {
    UnsignedFacts();
    hide IntegerMachine, Held, Canon, Negates, Tests, Converts, StepsPointers;
    CopyLeaves(c, Constant(-4294967296), "y", e, -4294967296);
    ComplementLeaves(c, Var("x"), "y", e, 4294967295);
  }

  /** The original returns 2. */
  lemma ComplementRuns(c: Ctx, d: Data)
    requires UnsignedCtx(c)
    ensures StopsFrom(c, [Complementing()], Start([Complementing()], d), Halt(c, Returned(Num(2)), Started(d)))
  {
    hide Exec, Halt, StopsFrom, UnsignedCtx, Taken, Step, Goto, Started, EvalVal;
    var p := Complementing();
    var e, h := Exec(c, p[0], d), Halt(c, Returned(Num(2)), Started(d));
    FirstTwo(c, d);
    ZeroTaken(c, d);
    FromTheEnd(c, d);
    BranchStops(c, p, 2, Started(d), h);
    StopsAt(c, p, 1, e, h);
    StopsAt(c, p, 0, d, h);
    assert p[0..] == p && [p][0] == p;
  }

  lemma FromTheEnd(c: Ctx, d: Data)
    requires UnsignedCtx(c)
    ensures StopsFrom(c, [Complementing()], Goto([Complementing()], "end", Started(d)),
      Halt(c, Returned(Num(2)), Started(d)))
  {
    var p, h := Complementing(), Halt(c, Returned(Num(2)), Started(d));
    assert Exec(c, p[4], Started(d)) == Started(d);
    hide Exec, Halt, StopsFrom, UnsignedCtx, Taken, Step, Goto, Started;
    StopsReturning(c, p, 5, Started(d));
    StopsAt(c, p, 4, Started(d), h);
    OnlyCode(p, "end", Started(d));
    EndIndex();
  }

  lemma EndIndex()
    ensures LabelIndex(Complementing(), "end") == 4 && Label("end") in Complementing()
  {
    assert Complementing()[4] == Label("end");
  }

  lemma ZeroTaken(c: Ctx, d: Data)
    requires UnsignedCtx(c)
    ensures Taken(c, Complementing()[2], Started(d).env)
  {
    Zero(c.machine, 0);
    hide FoldingMachine;
  }

  lemma BranchStops(c: Ctx, body: seq<Instr>, k: nat, d: Data, h: Config)
    requires k < |body| && IsJump(body[k]) && Taken(c, body[k], d.env)
    requires StopsFrom(c, [body], Goto([body], body[k].target, d), h)
    ensures StopsFrom(c, [body], Running(0, body[k..], d), h)
  {
    hide Exec, Goto, StopsFrom, Taken;
    StepAt(c, body, k, d);
    hide Step;
    StopsAfter(c, [body], Running(0, body[k..], d), Goto([body], body[k].target, d), h);
  }

  /** The folded body returns 1. */
  lemma FoldedRuns(c: Ctx, d: Data)
    requires UnsignedCtx(c)
    ensures StopsFrom(c, [ComplementFolded()], Start([ComplementFolded()], d), Halt(c, Returned(Num(1)), Started(d)))
  {
    var q := ComplementFolded();
    var e, h := Exec(c, q[0], d), Halt(c, Returned(Num(1)), Started(d));
    FirstTwo(c, d);
    assert Exec(c, q[2], Started(d)) == Started(d);
    hide Exec, Halt, StopsFrom, UnsignedCtx, Taken, Step, Goto;
    StopsReturning(c, q, 3, Started(d));
    StopsAt(c, q, 2, Started(d), h);
    StopsAt(c, q, 1, e, h);
    StopsAt(c, q, 0, d, h);
    assert q[0..] == q && [q][0] == q;
  }

  /** On every machine that meets the laws, the scan turns a function that returns 2 into one that
      returns 1. The branch breaks the condition of `BranchRight`. */
  lemma ComplementBranchFails(c: Ctx, d: Data)
    requires UnsignedCtx(c)
    ensures !Equivalent(c, [Complementing()], [Folded(c.types, Complementing())], d)
    ensures !SameTruth(c.types, RecordAt(c.types, Complementing(), 2), Var("y"))
  {
    hide StopsFrom, Halt, Start, RecordAt, Folded, Started, Held, FoldingMachine, Canon, Complementing,
      ComplementFolded;
    ComplementScan();
    ComplementRecords();
    UnsignedFacts();
    ComplementRuns(c, d);
    FoldedRuns(c, d);
    HaltStops(c, Returned(Num(2)), Started(d));
    HaltStops(c, Returned(Num(1)), Started(d));
    ToldApart(c, [Complementing()], [ComplementFolded()], d, Halt(c, Returned(Num(2)), Started(d)),
      Halt(c, Returned(Num(1)), Started(d)));
  }

  // ----- a literal that does not fit -----

  /** 2^32 and 0 as literals; literals are read as 32-bit numbers, in which they are equal. */
  function Unfit(): Instr {
    Binary(Equal, Constant(4294967296), Constant(0), "x")
  }

  /** Two's complement, but for that number, which is compared as it is. */
  function Exactly(op: BinaryOp, k: Class, l: Class, ty: CType, v: Value, w: Value): Value {
    if IsComparison(op) && k == ClassOf(Int) && v == Num(4294967296)
      && w.Num? then Num(if Related(op, v.n, w.n) then 1 else 0)
    else Combination(op, k, l, ty, v, w)
  }

  function ExactMachine(): Machine {
    TwosComplement().(binary := (op, k, l, ty, v, w) => Exactly(op, k, l, ty, v, w))
  }

  lemma UnfitNumber(s: CType)
    requires ClassOf(s) == ClassOf(Int)
    ensures s == Int && !NumberOf(s, 4294967296)
  {
    Powers();
    hide Pow2;
    UniqueRemainder(4294967296, 4294967296, 1, 0);
  }

  lemma ExactlyFitting(op: BinaryOp, s: CType, l: Class, ty: CType, a: int, b: int)
    requires !IsComparison(op) || NumberOf(s, a)
    ensures Exactly(op, ClassOf(s), l, ty, Num(a), Num(b)) == Combination(op, ClassOf(s), l, ty, Num(a), Num(b))
  {
    hide Combination, NumberOf, ClassOf, Related;
    if ClassOf(s) == ClassOf(Int) && a == 4294967296 {
      UnfitNumber(s);
    }
  }

  lemma ExactCombines(op: BinaryOp, k: Class, l: Class, ty: CType, v: Value, w: Value)
    ensures ExactMachine().binary(op, k, l, ty, v, w) == Exactly(op, k, l, ty, v, w)
    ensures TwosComplement().binary(op, k, l, ty, v, w) == Combination(op, k, l, ty, v, w)
  {
    hide Exactly;
    CombinesBy(op, k, l, ty, v, w);
  }

  lemma ExactRest()
    ensures var m, n := ExactMachine(), TwosComplement();
      m.unary == n.unary && m.convert == n.convert && m.copy == n.copy && m.addPtr == n.addPtr && m.isZero == n.isZero
  {
    hide TwosComplement;
  }

  /** It meets the laws as well: they speak of numbers that fit. */
  lemma ExactLawful()
    ensures FoldingMachine(ExactMachine())
  {
    var m, n := ExactMachine(), TwosComplement();
    ComplementLawful();
    ExactRest();
    hide TwosComplement, ExactMachine, ClassOf, Held, Canon, Related, Arith, NumberOf, Residue, Bits, IsPromoted,
      Storable, AddressPair, Exactly, Combination;
    forall op, k, l, ty, a, b ensures Computes2(m, op, k, l, ty, a, b) {
      assert Computes2(n, op, k, l, ty, a, b);
      ExactArithmetic(op, k, l, ty, a, b);
    }
    forall op, s, t, ty, a, b | IsComparison(op) ensures ComparesAt(m, op, s, t, ty, a, b) {
      assert ComparesAt(n, op, s, t, ty, a, b);
      ExactComparison(op, s, t, ty, a, b);
    }
    forall op, s, t, ty, a, b ensures ComparesPointers(m, op, s, t, ty, a, b) {
      assert ComparesPointers(n, op, s, t, ty, a, b);
      ExactComparison(op, s, t, ty, a, b);
    }
    forall k, ty, a ensures Moves(m, k, ty, a) {
      assert Moves(n, k, ty, a);
    }
    forall ty, a ensures Complements(m, ty, a) && Negates(m, ty, a) && Tests(m, ty, a) {
      assert Complements(n, ty, a) && Negates(n, ty, a) && Tests(n, ty, a);
    }
    forall s, ty, a ensures Converts(m, s, ty, a) {
      assert Converts(n, s, ty, a);
    }
    forall p, i, scale ensures StepsPointers(m, p, i, scale) {
      assert StepsPointers(n, p, i, scale);
    }
  }

  lemma ExactArithmetic(op: BinaryOp, k: Class, l: Class, ty: CType, a: int, b: int)
    ensures !IsComparison(op) ==>
      ExactMachine().binary(op, k, l, ty, Num(a), Num(b)) == TwosComplement().binary(op, k, l, ty, Num(a), Num(b))
  {
    hide Combination, TwosComplement, ExactMachine;
    ExactCombines(op, k, l, ty, Num(a), Num(b));
  }

  lemma ExactComparison(op: BinaryOp, s: CType, t: CType, ty: CType, a: int, b: int)
    ensures NumberOf(s, a) ==>
      ExactMachine().binary(op, ClassOf(s), ClassOf(t), ty, Num(a), Num(b))
      == TwosComplement().binary(op, ClassOf(s), ClassOf(t), ty, Num(a), Num(b))
  {
    hide Combination, TwosComplement, ExactMachine, Exactly, NumberOf;
    ExactCombines(op, ClassOf(s), ClassOf(t), ty, Num(a), Num(b));
    if NumberOf(s, a) {
      ExactlyFitting(op, s, ClassOf(t), ty, a, b);
    }
  }

  lemma UnfitEmits(types: Types)
    ensures FoldOne(types, map[], Unfit()) == Copy(Constant(1), "x")
  {
    Powers();
    hide Pow2;
    UniqueRemainder(4294967296, 4294967296, 1, 0);
    UniqueRemainder(0, 4294967296, 0, 0);
    hide Simplify;
  }

  lemma UnfitLeaves(c: Ctx, d: Data)
    requires c.machine == ExactMachine()
    ensures Result(c, Unfit(), d) == Num(0)
  {
    hide Combination, TwosComplement;
  }

  /** Literals that do not fit are folded as the numbers their low bits are: on this machine the comparison
      leaves 0, and what it is folded to leaves 1. */
  lemma UnfitLiteralFails(c: Ctx, d: Data)
    requires c.machine == ExactMachine() && c.types == map[]
    ensures FoldingMachine(c.machine) && !LiteralFits(c.types, Constant(4294967296))
    ensures Exec(c, FoldOne(c.types, map[], Unfit()), d) != Exec(c, Unfit(), d)
  {
    ExactLawful();
    UnfitNumber(Int);
    UnfitEmits(c.types);
    UnfitLeaves(c, d);
    hide ExactMachine, FoldOne, Result, Exec, NumberOf, IntegerMachine, Negates, Tests, Converts, StepsPointers,
      ComparesPointers;
    TruthLeaves(c, true, "x", d);
    Assigns(c, Unfit(), d);
    Assigns(c, Copy(Constant(1), "x"), d);
  }
}
