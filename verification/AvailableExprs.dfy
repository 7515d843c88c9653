/** Available expressions: keys, their transfer function, and why a recorded holder keeps
    the value of its key. */
module AvailableExprs {
  import opened Tacky
  import opened Semantics
  import opened Effects
  import opened CopyFacts
  import opened CopyRewrite

  /** `CseExprKey`; operand keys are the operands themselves. */
  datatype Key =
    | UnaryKey(uop: UnaryOp, src: Val, srcType: CType, dstType: CType)
    | BinaryKey(bop: BinaryOp, left: Val, right: Val, leftType: CType, rightType: CType, dstType: CType)
    | ConversionKey(kind: Conversion, src: Val, srcType: CType, dstType: CType)
    | AddPtrKey(ptr: Val, index: Val, scale: int, dstType: CType)
    | GetAddressKey(taken: Name, dstType: CType)
    | LoadKey(srcPtr: Val, dstType: CType)
    | CopyFromOffsetKey(srcName: Name, offset: int, dstType: CType)

  /** An entry of the table of available expressions. */
  datatype Avail = Avail(key: Key, holder: Name)

  type Table = set<Avail>

  /** `CseValKey` order: variables first, by name; then the constants, by kind and value. */
  predicate ValLess(a: Val, b: Val) {
    match a
    case Var(x) => if b.Var? then NameLess(x, b.name) else true
    case Constant(i) => if b.Constant? then i < b.i else !b.Var?
    case Int128Constant(i) => if b.Int128Constant? then i < b.i128 else b.UInt128Constant? || b.DoubleConstant?
    case UInt128Constant(i) => if b.UInt128Constant? then i < b.u128 else b.DoubleConstant?
    case DoubleConstant(i) => b.DoubleConstant? && i < b.bits
  }

  /** `is_cse_commutative_binary` */
  predicate IsCommutative(op: BinaryOp, l: CType, r: CType) {
    && (op.Add? || op.Mul? || op.BitwiseAnd? || op.BitwiseOr? || op.BitwiseXor? || op.Equal? || op.NotEqual?)
    && !IsFloating(l) && !IsFloating(r)
  }

  /** Names other code can reach; the pass leaves them alone. */
  predicate IsReserved(x: Name, aliased: set<Name>, statics: set<Name>) {
    x in aliased || x in statics
  }

  /** `cse_candidate_dst` */
  predicate IsCandidate(i: Instr) {
    i.Unary? || i.Binary? || i.Convert? || i.Load? || i.CopyFromOffset? || i.GetAddress? || i.AddPtr?
  }

  function BinaryKeyOf(op: BinaryOp, v: Val, w: Val, types: Types, ty: CType): Key {
    var k, l := ValType(types, v), ValType(types, w);
    if IsCommutative(op, k, l) && ValLess(w, v) then BinaryKey(op, w, v, l, k, ty) else BinaryKey(op, v, w, k, l, ty)
  }

  function RawKey(i: Instr, types: Types): (k: Key)
    requires IsCandidate(i)
  {
    var ty := TypeOf(types, i.dst);
    match i
    case Unary(op, v, _) => UnaryKey(op, v, ValType(types, v), ty)
    case Binary(op, v, w, _) => BinaryKeyOf(op, v, w, types, ty)
    case Convert(kind, v, _) => ConversionKey(kind, v, ValType(types, v), ty)
    case AddPtr(v, w, scale, _) => AddPtrKey(v, w, scale, ty)
    case GetAddress(x, _) => GetAddressKey(x, ty)
    case Load(p, _) => LoadKey(p, ty)
    case CopyFromOffset(x, offset, _) => CopyFromOffsetKey(x, offset, ty)
  }

  /** The variables whose values a key reads (`cse_expr_uses_var`). */
  function KeyVars(k: Key): set<Name> {
    match k
    case UnaryKey(_, v, _, _) => ValVars(v)
    case BinaryKey(_, v, w, _, _, _) => ValVars(v) + ValVars(w)
    case ConversionKey(_, v, _, _) => ValVars(v)
    case AddPtrKey(v, w, _, _) => ValVars(v) + ValVars(w)
    case GetAddressKey(_, _) => {}
    case LoadKey(p, _) => ValVars(p)
    case CopyFromOffsetKey(x, _, _) => {x}
  }

  /** `cse_expr_key` */
  function ExprKey(i: Instr, types: Types, aliased: set<Name>, statics: set<Name>): (k: Option<Key>)
    ensures k.Some? ==> IsCandidate(i) && k.value == RawKey(i, types)
    ensures k.Some? ==> !IsReserved(i.dst, aliased, statics)
    ensures k.Some? ==> forall x :: x in KeyVars(k.value) ==> !IsReserved(x, aliased, statics)
  {
    if !IsCandidate(i) || IsReserved(i.dst, aliased, statics) then None
    else
      var ty := TypeOf(types, i.dst);
      if ty.Struct? || ty.Void? || ty.LongDouble? then None
      else if i.Binary? && (i.bop.Div? || i.bop.Mod?) then None
      else
        var k := RawKey(i, types);
        if exists x :: x in KeyVars(k) && IsReserved(x, aliased, statics) then None else Some(k)
  }

  /** `is_cse_barrier` */
  predicate IsBarrier(i: Instr) {
    i.FunCall? || i.Store? || i.CopyToOffset?
  }

  /** `kill_available_exprs_for_var` */
  function KillUses(t: Table, x: Name): Table {
    set a | a in t && a.holder != x && x !in KeyVars(a.key)
  }

  /** `kill_available_load_exprs` */
  function KillLoads(t: Table): Table {
    set a | a in t && !a.key.LoadKey?
  }

  /** Inserting into the hash map replaces the entry of an equal key. */
  function InsertAvail(t: Table, a: Avail): Table {
    (set o | o in t && o.key != a.key) + {a}
  }

  function KillFor(i: Instr, t: Table, aliased: set<Name>, statics: set<Name>): Table {
    var clear := if IsBarrier(i) then {} else t;
    match DefinedVar(i)
    case None => clear
    case Some(x) => if IsReserved(x, aliased, statics) then KillLoads(KillUses(clear, x)) else KillUses(clear, x)
  }

  /** `transfer_available_expr_instr` */
  function TransferAvail(i: Instr, t: Table, aliased: set<Name>, statics: set<Name>, types: Types): Table {
    var kept := KillFor(i, t, aliased, statics);
    match ExprKey(i, types, aliased, statics)
    case Some(k) => if i.dst in KeyVars(k) then kept else InsertAvail(kept, Avail(k, i.dst))
    case None => kept
  }

  /** `transfer_available_exprs` as a fold. */
  function TransferAvails(instrs: seq<Instr>, t: Table, aliased: set<Name>, statics: set<Name>, types: Types): Table {
    if instrs == [] then t
    else TransferAvails(instrs[1..], TransferAvail(instrs[0], t, aliased, statics, types), aliased, statics, types)
  }

  // ----- what an entry means -----

  /** The value of a key in a state. */
  function KeyValue(c: Ctx, k: Key, d: Data): Value {
    var m := c.machine;
    match k
    case UnaryKey(op, v, _, ty) => m.unary(op, ty, EvalVal(v, d.env))
    case BinaryKey(op, v, w, kl, kr, ty) => m.binary(op, ClassOf(kl), ClassOf(kr), ty, EvalVal(v, d.env),
      EvalVal(w, d.env))
    case ConversionKey(kind, v, st, ty) => m.convert(kind, ClassOf(st), ty, EvalVal(v, d.env))
    case AddPtrKey(v, w, scale, _) => m.addPtr(EvalVal(v, d.env), EvalVal(w, d.env), scale)
    case GetAddressKey(x, _) => Ptr(x, 0)
    case LoadKey(p, ty) => LoadAt(c, d, EvalVal(p, d.env), ty)
    case CopyFromOffsetKey(x, offset, ty) => m.getField(Read(d.env, x), offset, ty)
  }

  /** Moves are exact, and the operators taken for commutative commute on integers. */
  ghost predicate CseLawful(m: Machine) {
    && (forall ty, v {:trigger m.copy(ClassOf(ty), ty, v)} :: MoveExact(m, ty, v))
    && (forall op, k, l, ty, v, w :: IsCommutative(op, k, l) ==> Commutes(m, op, ClassOf(k), ClassOf(l), ty, v, w))
  }

  ghost predicate Commutes(m: Machine, op: BinaryOp, k: Class, l: Class, ty: CType, v: Value, w: Value) {
    m.binary(op, k, l, ty, v, w) == m.binary(op, l, k, ty, w, v)
  }

  /** The key of an instruction has the value the instruction computes. */
  lemma KeyIsResult(c: Ctx, i: Instr, d: Data)
    requires IsCandidate(i) && CseLawful(c.machine)
    ensures KeyValue(c, RawKey(i, c.types), d) == Result(c, i, d)
  {
    if i.Binary? {
      var k, l := ValType(c.types, i.left), ValType(c.types, i.right);
      if IsCommutative(i.bop, k, l) && ValLess(i.right, i.left) {
        assert Commutes(c.machine, i.bop, ClassOf(k), ClassOf(l), TypeOf(c.types, i.dst),
                        EvalVal(i.left, d.env), EvalVal(i.right, d.env));
      }
    }
  }

  /** An entry speaks about variables nobody else can reach, and its holder has the type
      of the key. */
  ghost predicate EntryPrivate(types: Types, aliased: set<Name>, statics: set<Name>, a: Avail) {
    && !IsReserved(a.holder, aliased, statics)
    && (forall x :: x in KeyVars(a.key) ==> !IsReserved(x, aliased, statics))
    && TypeOf(types, a.holder) == a.key.dstType
  }

  /** A holder per key. */
  ghost predicate OneHolder(t: Table) {
    forall a, b :: a in t && b in t && a.key == b.key ==> a == b
  }

  ghost predicate TablePrivate(types: Types, aliased: set<Name>, statics: set<Name>, t: Table) {
    forall a :: a in t ==> EntryPrivate(types, aliased, statics, a)
  }

  /** Every holder has the value of its key. */
  ghost predicate Available(c: Ctx, t: Table, d: Data) {
    forall a :: a in t ==> Read(d.env, a.holder) == KeyValue(c, a.key, d)
  }

  ghost predicate TableSound(c: Ctx, t: Table, d: Data) {
    TablePrivate(c.types, c.aliased, c.statics, t) && OneHolder(t) && Available(c, t, d)
  }

  /** Two states that agree on what a key reads give it the same value; a load also needs
      the memory and every variable a pointer can reach. */
  lemma KeyAgree(c: Ctx, k: Key, d: Data, e: Data)
    requires Agree(d.env, e.env, KeyVars(k))
    requires k.LoadKey? ==> d.mem == e.mem && Agree(d.env, e.env, c.aliased) && DataSafe(d, c.aliased)
    ensures KeyValue(c, k, d) == KeyValue(c, k, e)
  {
    match k
    case BinaryKey(_, v, w, _, _, _) => EvalAgree(v, d.env, e.env); EvalAgree(w, d.env, e.env);
    case AddPtrKey(v, w, _, _) => EvalAgree(v, d.env, e.env); EvalAgree(w, d.env, e.env);
    case LoadKey(p, _) => EvalAgree(p, d.env, e.env); EvalSafe(p, d.env, c.aliased);
    case _ =>
  }

  /** What an instruction leaves alone, as far as an entry it does not kill depends on it. */
  lemma SurvivorUntouched(c: Ctx, i: Instr, t: Table, a: Avail, d: Data)
    requires TablePrivate(c.types, c.aliased, c.statics, t) && a in KillFor(i, t, c.aliased, c.statics)
    ensures a in t && Agree(d.env, Exec(c, i, d).env, KeyVars(a.key) + {a.holder})
    ensures a.key.LoadKey? ==> d.mem == Exec(c, i, d).mem && Agree(d.env, Exec(c, i, d).env, c.aliased)
  {
    assert a in t && !IsBarrier(i) && EntryPrivate(c.types, c.aliased, c.statics, a);
  }

  /** An ordinary instruction leaves the entries it does not kill true. */
  lemma KillSound(c: Ctx, i: Instr, t: Table, d: Data)
    requires TableSound(c, t, d) && DataSafe(d, c.aliased)
    ensures TableSound(c, KillFor(i, t, c.aliased, c.statics), Exec(c, i, d))
  {
    var kept, e := KillFor(i, t, c.aliased, c.statics), Exec(c, i, d);
    hide KillFor, Exec, KeyValue, DataSafe, EntryPrivate;
    forall a | a in kept
      ensures a in t && Read(e.env, a.holder) == KeyValue(c, a.key, e)
    {
      SurvivorUntouched(c, i, t, a, d);
      KeyAgree(c, a.key, d, e);
    }
  }

  lemma InsertSound(c: Ctx, t: Table, a: Avail, d: Data)
    requires TableSound(c, t, d) && EntryPrivate(c.types, c.aliased, c.statics, a)
    requires Read(d.env, a.holder) == KeyValue(c, a.key, d)
    ensures TableSound(c, InsertAvail(t, a), d)
  {
  }

  /** Each transfer step turns a table that holds before an instruction into one that holds
      after it. */
  lemma TransferAvailSound(c: Ctx, i: Instr, t: Table, d: Data)
    requires TableSound(c, t, d) && DataSafe(d, c.aliased) && CseLawful(c.machine)
    ensures TableSound(c, TransferAvail(i, t, c.aliased, c.statics, c.types), Exec(c, i, d))
  {
    KillSound(c, i, t, d);
    hide KillFor, TableSound, InsertAvail, Exec, CseLawful, EntryPrivate, KeyValue;
    match ExprKey(i, c.types, c.aliased, c.statics)
    case None =>
    case Some(k) =>
      if i.dst !in KeyVars(k) {
        NewEntry(c, i, k, d);
        InsertSound(c, KillFor(i, t, c.aliased, c.statics), Avail(k, i.dst), Exec(c, i, d));
      }
  }

  lemma NewEntry(c: Ctx, i: Instr, k: Key, d: Data)
    requires ExprKey(i, c.types, c.aliased, c.statics) == Some(k) && i.dst !in KeyVars(k)
    requires DataSafe(d, c.aliased) && CseLawful(c.machine)
    ensures EntryPrivate(c.types, c.aliased, c.statics, Avail(k, i.dst))
    ensures Read(Exec(c, i, d).env, i.dst) == KeyValue(c, k, Exec(c, i, d))
  {
    KeyIsResult(c, i, d);
    KeyAgree(c, k, d, Exec(c, i, d));
  }

  // ----- shape and monotonicity, for the worklist -----

  lemma TransferOneHolder(i: Instr, t: Table, aliased: set<Name>, statics: set<Name>, types: Types)
    requires OneHolder(t)
    ensures OneHolder(TransferAvail(i, t, aliased, statics, types))
  {
  }

  lemma {:induction false} TransfersOneHolder(instrs: seq<Instr>, t: Table, aliased: set<Name>, statics: set<Name>,
        types: Types)
    requires OneHolder(t)
    ensures OneHolder(TransferAvails(instrs, t, aliased, statics, types))
  {
    if instrs != [] {
      TransferOneHolder(instrs[0], t, aliased, statics, types);
      TransfersOneHolder(instrs[1..], TransferAvail(instrs[0], t, aliased, statics, types), aliased, statics, types);
    }
  }

  predicate InsertsWithin(i: Instr, u: Table, aliased: set<Name>, statics: set<Name>, types: Types) {
    match ExprKey(i, types, aliased, statics)
    case Some(k) => Avail(k, i.dst) in u
    case None => true
  }

  lemma {:induction false} TransfersMonotone(instrs: seq<Instr>, x: Table, y: Table, u: Table,
                                             aliased: set<Name>, statics: set<Name>, types: Types)
    requires x <= y <= u && forall k :: 0 <= k < |instrs| ==> InsertsWithin(instrs[k], u, aliased, statics, types)
    ensures TransferAvails(instrs, x, aliased, statics, types) <= TransferAvails(instrs, y, aliased, statics,
      types) <= u
  {
    if instrs != [] {
      assert InsertsWithin(instrs[0], u, aliased, statics, types);
      TransfersMonotone(instrs[1..], TransferAvail(instrs[0], x, aliased, statics, types),
                        TransferAvail(instrs[0], y, aliased, statics, types), u, aliased, statics, types);
    }
  }
}
