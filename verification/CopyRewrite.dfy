/** Rewriting instructions through reaching copies, and why each rewrite and each deletion
    leaves the effect of the instruction unchanged. */
module CopyRewrite {
  import opened Tacky
  import opened Semantics
  import opened Effects
  import opened CopyFacts

  /** `replacement_matches_type` */
  predicate ReplacementMatchesType(v: Val, ty: CType) {
    match v
    case Constant(_) => ty == Int
    case Int128Constant(_) => ty == Int128
    case UInt128Constant(_) => ty == UInt128
    case DoubleConstant(_) => ty == Double
    case Var(_) => true
  }

  function ReplaceOperand(v: Val, f: Facts): Val
    requires Functional(f)
  {
    if v.Var? then (match Resolve(v.name, f, AnySource, {}) case Some(w) => w case None => v) else v
  }

  function ReplaceOperandTyped(v: Val, f: Facts, types: Types): Val
    requires Functional(f)
  {
    if !v.Var? then v
    else
      var ty := TypeOf(types, v.name);
      match Resolve(v.name, f, TypedSource(ty), {})
      case Some(w) => if ReplacementMatchesType(w, ty) then w else v
      case None => v
  }

  function ReplaceNamedSource(x: Name, f: Facts): Name
    requires Functional(f)
  {
    match Resolve(x, f, NamedSource, {})
    case Some(Var(s)) => s
    case _ => x
  }

  predicate IsRedundantCopy(src: Val, dst: Name, f: Facts) {
    if src.Var? then
      src.name == dst || CopyInstr(src, dst) in f || CopyInstr(Var(dst), src.name) in f
    else CopyInstr(src, dst) in f
  }

  /** Operators whose meaning depends on the operands' signedness and width. */
  predicate NeedsTypedReplacement(op: BinaryOp) {
    IsComparison(op) || op.ShiftRight?
  }

  /** `rewrite_instruction`: `None` deletes the instruction. */
  function Rewrite(i: Instr, f: Facts, types: Types): (r: Option<Instr>)
    requires Functional(f)
    ensures !i.Copy? ==> r.Some?
  {
    match i
    case Copy(v, d) =>
      var w := ReplaceOperand(v, f);
      if IsRedundantCopy(w, d, f) then None else Some(Copy(w, d))
    case Return(v) => Some(Return(ReplaceOperand(v, f)))
    case Unary(op, v, d) => Some(Unary(op, ReplaceOperand(v, f), d))
    case Binary(op, v, w, d) =>
      if NeedsTypedReplacement(op)
      then Some(Binary(op, ReplaceOperandTyped(v, f, types), ReplaceOperandTyped(w, f, types), d))
      else Some(Binary(op, ReplaceOperand(v, f), ReplaceOperand(w, f), d))
    case JumpIfZero(v, l) => Some(JumpIfZero(ReplaceOperand(v, f), l))
    case JumpIfNotZero(v, l) => Some(JumpIfNotZero(ReplaceOperand(v, f), l))
    case Convert(kind, v, d) => Some(Convert(kind, ReplaceOperandTyped(v, f, types), d))
    case Store(v, p) => Some(Store(ReplaceOperandTyped(v, f, types), ReplaceOperand(p, f)))
    case Load(p, d) => Some(Load(ReplaceOperand(p, f), d))
    case FunCall(g, args, d, indirect) =>
      Some(FunCall(if indirect then ReplaceNamedSource(g, f) else g, ReplaceArgs(args, f, types), d, indirect))
    case AddPtr(v, w, scale, d) => Some(AddPtr(ReplaceOperand(v, f), ReplaceOperand(w, f), scale, d))
    case CopyToOffset(v, x, offset) => Some(CopyToOffset(ReplaceOperandTyped(v, f, types), x, offset))
    case CopyFromOffset(x, offset, d) => Some(CopyFromOffset(ReplaceNamedSource(x, f), offset, d))
    case _ => Some(i)
  }

  function ReplaceArgs(args: seq<Val>, f: Facts, types: Types): seq<Val>
    requires Functional(f)
  {
    seq(|args|, k requires 0 <= k < |args| => ReplaceOperandTyped(args[k], f, types))
  }

  // ----- what the facts mean -----

  /** Every recorded copy holds. */
  ghost predicate Holds(f: Facts, env: Env) {
    forall k :: k in f ==> Read(env, k.dst) == EvalVal(k.src, env)
  }

  /** `v` is its own representation in a variable of type `ty`. */
  ghost predicate Canonical(m: Machine, ty: CType, v: Value) {
    forall k :: m.copy(k, ty, v) == v
  }

  /** Moves between variables of one class are exact, and operators that the pass treats
      as insensitive to operand types are. */
  ghost predicate Lawful(m: Machine) {
    && (forall ty, v {:trigger m.copy(ClassOf(ty), ty, v)} :: MoveExact(m, ty, v))
    && (forall op, k, l, k', l', ty, v, w {:trigger m.binary(op, k, l, ty, v, w), m.binary(op, k', l', ty, v, w)} ::
          !NeedsTypedReplacement(op) ==> m.binary(op, k, l, ty, v, w) == m.binary(op, k', l', ty, v, w))
  }

  ghost predicate MoveExact(m: Machine, ty: CType, v: Value) {
    m.copy(ClassOf(ty), ty, v) == v
  }

  /** Which constants copies may carry into which variable. */
  type Flow = (Name, Val) -> bool

  /** Every constant that copies can carry into a variable is canonical for its type. */
  ghost predicate FlowCanonical(m: Machine, types: Types, flow: Flow) {
    forall x, v :: flow(x, v) && !v.Var? ==> Canonical(m, TypeOf(types, x), EvalVal(v, map[]))
  }

  ghost predicate FlowsInto(flow: Flow, s: Name, d: Name) {
    forall v :: flow(s, v) ==> flow(d, v)
  }

  /** Copies are well typed: a copy the pass takes for a move never crosses between integer
      and floating variables, and constants flow along copies. */
  ghost predicate CopyTyped(types: Types, flow: Flow, i: Instr) {
    i.Copy? ==>
      if i.src.Var? then
        && FlowsInto(flow, i.src.name, i.dst)
        && (SameType(TypeOf(types, i.src.name), TypeOf(types, i.dst)) ==>
              ClassOf(TypeOf(types, i.src.name)) == ClassOf(TypeOf(types, i.dst)))
      else flow(i.dst, i.src)
  }

  /** Recorded copies connect variables of one class, or a variable and a constant that
      may flow into it. */
  ghost predicate FactTyped(types: Types, flow: Flow, k: CopyInstr) {
    if k.src.Var? then
      ClassOf(TypeOf(types, k.src.name)) == ClassOf(TypeOf(types, k.dst)) && FlowsInto(flow, k.src.name, k.dst)
    else flow(k.dst, k.src)
  }

  ghost predicate FactsTyped(types: Types, flow: Flow, f: Facts) {
    forall k :: k in f ==> FactTyped(types, flow, k)
  }

  /** Everything known about a fact set at a point of a run. */
  ghost predicate Sound(c: Ctx, flow: Flow, f: Facts, env: Env) {
    Functional(f) && Acyclic(f) && FactsTyped(c.types, flow, f) && Holds(f, env)
  }

  /** A value a use of `x` may be replaced by. */
  ghost predicate Stands(types: Types, flow: Flow, env: Env, x: Name, v: Val) {
    && EvalVal(v, env) == Read(env, x)
    && (if v.Var? then ClassOf(TypeOf(types, v.name)) == ClassOf(TypeOf(types, x)) && FlowsInto(flow, v.name, x)
        else flow(x, v))
  }

  lemma {:induction false} ResolveStands(c: Ctx, flow: Flow, env: Env, x: Name, f: Facts, use: Use, seen: set<Name>)
    requires Sound(c, flow, f, env)
    ensures match Resolve(x, f, use, seen)
            case None => true
            case Some(v) => Stands(c.types, flow, env, x, v) && Usable(v, use)
    decreases Destinations(f) - seen
  {
    if x !in seen {
      match SelectReachingCopy(x, f, use)
      case None =>
      case Some(k) =>
        assert FactTyped(c.types, flow, k);
        assert x in Destinations(f) - seen;
        if k.src.Var? && k.src.name != x {
          ResolveStands(c, flow, env, k.src.name, f, use, seen + {x});
        }
    }
  }

  lemma OperandKeeps(c: Ctx, flow: Flow, env: Env, v: Val, f: Facts)
    requires Sound(c, flow, f, env)
    ensures EvalVal(ReplaceOperand(v, f), env) == EvalVal(v, env)
    ensures v.Var? ==> Stands(c.types, flow, env, v.name, ReplaceOperand(v, f))
  {
    if v.Var? {
      ResolveStands(c, flow, env, v.name, f, AnySource, {});
    }
  }

  /** The typed replacement also keeps what the machine sees of the operand's type. */
  lemma TypedOperandKeeps(c: Ctx, flow: Flow, env: Env, v: Val, f: Facts)
    requires Sound(c, flow, f, env)
    ensures EvalVal(ReplaceOperandTyped(v, f, c.types), env) == EvalVal(v, env)
    ensures ValClass(c.types, ReplaceOperandTyped(v, f, c.types)) == ValClass(c.types, v)
  {
    if v.Var? {
      ResolveStands(c, flow, env, v.name, f, TypedSource(TypeOf(c.types, v.name)), {});
    }
  }

  lemma NamedSourceKeeps(c: Ctx, flow: Flow, env: Env, x: Name, f: Facts)
    requires Sound(c, flow, f, env)
    ensures Read(env, ReplaceNamedSource(x, f)) == Read(env, x)
  {
    ResolveStands(c, flow, env, x, f, NamedSource, {});
  }

  // ----- rewriting keeps effects -----

  /** The pass's view of one instruction in a suitable function. */
  ghost predicate Fits(c: Ctx, flow: Flow, i: Instr) {
    Lawful(c.machine) && FlowCanonical(c.machine, c.types, flow) && CopyTyped(c.types, flow, i)
  }

  /** What a copy assigns: the value itself, whenever a fact or a constant says so. */
  lemma CopyIsMove(c: Ctx, flow: Flow, env: Env, i: Instr, f: Facts)
    requires i.Copy? && Sound(c, flow, f, env) && Fits(c, flow, i)
    ensures var w := ReplaceOperand(i.src, f);
      c.machine.copy(ValClass(c.types, w), TypeOf(c.types, i.dst), EvalVal(w, env))
        == c.machine.copy(ValClass(c.types, i.src), TypeOf(c.types, i.dst), EvalVal(i.src, env))
    ensures var w := ReplaceOperand(i.src, f);
      IsRedundantCopy(w, i.dst, f) ==>
        c.machine.copy(ValClass(c.types, i.src), TypeOf(c.types, i.dst), EvalVal(i.src, env)) == Read(env, i.dst)
  {
    OperandKeeps(c, flow, env, i.src, f);
    var w, ty := ReplaceOperand(i.src, f), TypeOf(c.types, i.dst);
    if w.Var? {
      assert ValClass(c.types, w) == ValClass(c.types, i.src);
      if IsRedundantCopy(w, i.dst, f) {
        if CopyInstr(w, i.dst) in f {
          assert FactTyped(c.types, flow, CopyInstr(w, i.dst));
        } else if CopyInstr(Var(i.dst), w.name) in f {
          assert FactTyped(c.types, flow, CopyInstr(Var(i.dst), w.name));
        }
        assert MoveExact(c.machine, ty, EvalVal(w, env));
      }
    } else {
      assert flow(i.dst, w);
      assert EvalVal(w, env) == EvalVal(w, map[]);
      assert Canonical(c.machine, ty, EvalVal(w, env));
    }
  }

  lemma ArgsKeep(c: Ctx, flow: Flow, env: Env, args: seq<Val>, f: Facts)
    requires Sound(c, flow, f, env)
    ensures ArgValues(c, ReplaceArgs(args, f, c.types), env) == ArgValues(c, args, env)
  {
    forall k | 0 <= k < |args|
      ensures EvalVal(ReplaceArgs(args, f, c.types)[k], env) == EvalVal(args[k], env)
      ensures ValClass(c.types, ReplaceArgs(args, f, c.types)[k]) == ValClass(c.types, args[k])
    {
      TypedOperandKeeps(c, flow, env, args[k], f);
    }
  }

  lemma BinaryKeeps(c: Ctx, flow: Flow, d: Data, i: Instr, f: Facts)
    requires i.Binary? && Sound(c, flow, f, d.env) && Fits(c, flow, i)
    ensures Exec(c, Rewrite(i, f, c.types).value, d) == Exec(c, i, d)
  {
    if NeedsTypedReplacement(i.bop) {
      TypedOperandKeeps(c, flow, d.env, i.left, f);
      TypedOperandKeeps(c, flow, d.env, i.right, f);
    } else {
      OperandKeeps(c, flow, d.env, i.left, f);
      OperandKeeps(c, flow, d.env, i.right, f);
    }
  }

  lemma CallKeeps(c: Ctx, flow: Flow, d: Data, i: Instr, f: Facts)
    requires i.FunCall? && Sound(c, flow, f, d.env)
    ensures Exec(c, Rewrite(i, f, c.types).value, d) == Exec(c, i, d)
  {
    ArgsKeep(c, flow, d.env, i.args, f);
    NamedSourceKeeps(c, flow, d.env, i.callee, f);
    hide ReplaceArgs, ReplaceNamedSource, Sound;
    var j := Rewrite(i, f, c.types).value;
    assert CallEvent(c, j, d) == CallEvent(c, i, d);
  }

  lemma PointerKeeps(c: Ctx, flow: Flow, d: Data, i: Instr, f: Facts)
    requires i.Store? || i.Load?
    requires Sound(c, flow, f, d.env)
    ensures Exec(c, Rewrite(i, f, c.types).value, d) == Exec(c, i, d)
  {
    match i
    case Store(v, p) =>
      TypedOperandKeeps(c, flow, d.env, v, f);
      OperandKeeps(c, flow, d.env, p, f);
    case Load(p, _) =>
      OperandKeeps(c, flow, d.env, p, f);
  }

  lemma AddPtrKeeps(c: Ctx, flow: Flow, d: Data, i: Instr, f: Facts)
    requires i.AddPtr? && Sound(c, flow, f, d.env)
    ensures Exec(c, Rewrite(i, f, c.types).value, d) == Exec(c, i, d)
  {
    OperandKeeps(c, flow, d.env, i.ptr, f);
    OperandKeeps(c, flow, d.env, i.index, f);
  }

  lemma OneOperandKeeps(c: Ctx, flow: Flow, d: Data, i: Instr, f: Facts)
    requires i.Unary? || i.Convert?
    requires Sound(c, flow, f, d.env)
    ensures Exec(c, Rewrite(i, f, c.types).value, d) == Exec(c, i, d)
  {
    OperandKeeps(c, flow, d.env, i.src, f);
    TypedOperandKeeps(c, flow, d.env, i.src, f);
  }

  lemma AggregateKeeps(c: Ctx, flow: Flow, d: Data, i: Instr, f: Facts)
    requires i.CopyToOffset? || i.CopyFromOffset?
    requires Sound(c, flow, f, d.env)
    ensures Exec(c, Rewrite(i, f, c.types).value, d) == Exec(c, i, d)
  {
    match i
    case CopyToOffset(v, _, _) => TypedOperandKeeps(c, flow, d.env, v, f);
    case CopyFromOffset(x, _, _) => NamedSourceKeeps(c, flow, d.env, x, f);
  }

  lemma CopyKeeps(c: Ctx, flow: Flow, d: Data, i: Instr, f: Facts)
    requires i.Copy? && Sound(c, flow, f, d.env) && Fits(c, flow, i) && Rewrite(i, f, c.types).Some?
    ensures Exec(c, Rewrite(i, f, c.types).value, d) == Exec(c, i, d)
  {
    CopyIsMove(c, flow, d.env, i, f);
  }

  /** The rewritten instruction has the effect of the original one. */
  lemma RewriteKeepsEffect(c: Ctx, flow: Flow, d: Data, i: Instr, f: Facts)
    requires Sound(c, flow, f, d.env) && Fits(c, flow, i) && Rewrite(i, f, c.types).Some?
    ensures Exec(c, Rewrite(i, f, c.types).value, d) == Exec(c, i, d)
  {
    if i.Copy? {
      CopyKeeps(c, flow, d, i, f);
    } else if i.Binary? {
      BinaryKeeps(c, flow, d, i, f);
    } else if i.FunCall? {
      CallKeeps(c, flow, d, i, f);
    } else if i.Store? || i.Load? {
      PointerKeeps(c, flow, d, i, f);
    } else if i.AddPtr? {
      AddPtrKeeps(c, flow, d, i, f);
    } else if i.Unary? || i.Convert? {
      OneOperandKeeps(c, flow, d, i, f);
    } else if i.CopyToOffset? || i.CopyFromOffset? {
      AggregateKeeps(c, flow, d, i, f);
    }
  }

  /** Two states no instruction can tell apart. */
  ghost predicate SameReads(d: Data, e: Data) {
    d.mem == e.mem && d.trace == e.trace && forall x :: Read(d.env, x) == Read(e.env, x)
  }

  /** A deleted copy changes no variable. */
  lemma DeletedIsNoOp(c: Ctx, flow: Flow, d: Data, i: Instr, f: Facts)
    requires Sound(c, flow, f, d.env) && Fits(c, flow, i) && Rewrite(i, f, c.types).None?
    ensures SameReads(Exec(c, i, d), d)
  {
    CopyIsMove(c, flow, d.env, i, f);
  }

  /** Rewriting never changes where control goes or what is returned. */
  lemma RewriteKeepsControl(c: Ctx, flow: Flow, d: Data, i: Instr, f: Facts)
    requires Sound(c, flow, f, d.env) && !i.Copy?
    ensures var j := Rewrite(i, f, c.types).value;
      && EndsBlock(j) == EndsBlock(i) && IsJump(j) == IsJump(i) && j.Label? == i.Label?
      && (i.Label? || i.Jump? || i.Unreachable? ==> j == i)
      && (IsJump(i) ==> j.target == i.target && Taken(c, j, d.env) == Taken(c, i, d.env))
      && (i.Return? ==> j.Return? && EvalVal(j.val, d.env) == EvalVal(i.val, d.env))
  {
    match i
    case Return(v) => OperandKeeps(c, flow, d.env, v, f);
    case JumpIfZero(v, _) => OperandKeeps(c, flow, d.env, v, f);
    case JumpIfNotZero(v, _) => OperandKeeps(c, flow, d.env, v, f);
    case _ =>
  }

  // ----- transfer keeps facts true -----

  lemma KillHolds(f: Facts, x: Name, e: Env, e': Env)
    requires Holds(f, e) && forall y :: y != x ==> Read(e', y) == Read(e, y)
    ensures Holds(KillVar(f, x), e')
  {
  }

  /** Reads after a copy: only its destination changes, and it holds what was copied. */
  lemma CopyReads(c: Ctx, d: Data, i: Instr)
    requires i.Copy?
    ensures var e, v := Exec(c, i, d).env,
      c.machine.copy(ValClass(c.types, i.src), TypeOf(c.types, i.dst), EvalVal(i.src, d.env));
      Read(e, i.dst) == v && forall y :: y != i.dst ==> Read(e, y) == Read(d.env, y)
  {
  }

  lemma CopyTransferHolds(c: Ctx, flow: Flow, d: Data, i: Instr, f: Facts)
    requires i.Copy? && Sound(c, flow, f, d.env) && Fits(c, flow, i)
    ensures Holds(TransferCopy(i, f, c.aliased, c.types), Exec(c, i, d).env)
  {
    var e, x, ty := Exec(c, i, d).env, i.dst, TypeOf(c.types, i.dst);
    CopyReads(c, d, i);
    if i.src.Var? {
      if SameType(TypeOf(c.types, i.src.name), ty) {
        assert MoveExact(c.machine, ty, EvalVal(i.src, d.env));
      }
    } else {
      assert flow(x, i.src);
      assert EvalVal(i.src, d.env) == EvalVal(i.src, map[]) == EvalVal(i.src, e);
      assert Canonical(c.machine, ty, EvalVal(i.src, d.env));
    }
    hide Exec, Fits, Canonical, Functional, Acyclic, FactsTyped;
    KillHolds(f, x, d.env, e);
  }

  lemma OtherTransferHolds(c: Ctx, d: Data, i: Instr, f: Facts)
    requires !i.Copy? && Holds(f, d.env) && DataSafe(d, c.aliased)
    ensures Holds(TransferCopy(i, f, c.aliased, c.types), Exec(c, i, d).env)
  {
    var e := Exec(c, i, d).env;
    if i.FunCall? {
      forall x | x !in c.aliased && x != i.dst
        ensures Read(e, x) == Read(d.env, x)
      {
        ExecFrame(c, i, d, x);
      }
    } else if Computes(i) {
      KillHolds(f, DefinedVar(i).value, d.env, e);
    }
  }

  /** Each transfer step turns facts that hold before an instruction into facts that hold
      after it. */
  lemma TransferHolds(c: Ctx, flow: Flow, d: Data, i: Instr, f: Facts)
    requires Sound(c, flow, f, d.env) && Fits(c, flow, i) && DataSafe(d, c.aliased)
    ensures Holds(TransferCopy(i, f, c.aliased, c.types), Exec(c, i, d).env)
  {
    if i.Copy? {
      CopyTransferHolds(c, flow, d, i, f);
    } else {
      OtherTransferHolds(c, d, i, f);
    }
  }

  lemma TransferTyped(types: Types, flow: Flow, i: Instr, f: Facts, aliased: set<Name>)
    requires FactsTyped(types, flow, f) && CopyTyped(types, flow, i)
    ensures FactsTyped(types, flow, TransferCopy(i, f, aliased, types))
  {
  }

  lemma TransferSound(c: Ctx, flow: Flow, d: Data, i: Instr, f: Facts)
    requires Sound(c, flow, f, d.env) && Fits(c, flow, i) && DataSafe(d, c.aliased)
    ensures Sound(c, flow, TransferCopy(i, f, c.aliased, c.types), Exec(c, i, d).env)
  {
    TransferShaped(i, f, c.aliased, c.types);
    TransferHolds(c, flow, d, i, f);
    TransferTyped(c.types, flow, i, f, c.aliased);
  }

  /** A rewritten copy is as well typed as the original. */
  lemma RewrittenFits(c: Ctx, flow: Flow, d: Data, i: Instr, f: Facts)
    requires Sound(c, flow, f, d.env) && Fits(c, flow, i) && Rewrite(i, f, c.types).Some?
    ensures Fits(c, flow, Rewrite(i, f, c.types).value)
  {
    if i.Copy? {
      OperandKeeps(c, flow, d.env, i.src, f);
    }
  }
}
