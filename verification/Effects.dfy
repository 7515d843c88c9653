/** What instructions can change and depend on. Everything here rests on pointer
    provenance: no reachable state holds the address of a variable outside `aliased`. */
module Effects {
  import opened Tacky
  import opened Semantics

  /** The variables whose address occurs in a value. */
  function Names(v: Value): set<Name> {
    match v
    case Ptr(x, _) => {x}
    case Agg(parts) => set k, x | 0 <= k < |parts| && x in Names(parts[k]) :: x
    case _ => {}
  }

  ghost predicate EnvSafe(env: Env, a: set<Name>) {
    forall x :: x in env ==> Names(env[x]) <= a
  }

  ghost predicate MemSafe(mem: Mem, a: set<Name>) {
    forall k :: k in mem ==> Names(mem[k]) <= a
  }

  ghost predicate EventSafe(e: Event, a: set<Name>) {
    && (e.callee.Through? ==> Names(e.callee.address) <= a)
    && (forall k :: 0 <= k < |e.args| ==> Names(e.args[k].1) <= a)
    && EnvSafe(e.visible, a) && MemSafe(e.outside, a)
  }

  ghost predicate TraceSafe(trace: seq<Event>, a: set<Name>) {
    forall k :: 0 <= k < |trace| ==> EventSafe(trace[k], a)
  }

  ghost predicate DataSafe(d: Data, a: set<Name>) {
    EnvSafe(d.env, a) && MemSafe(d.mem, a) && TraceSafe(d.trace, a)
  }

  /** Operations build addresses of locals only out of addresses they are given. */
  ghost predicate OperatorsConfined(m: Machine) {
    && (forall op, ty, v :: Names(m.unary(op, ty, v)) <= Names(v))
    && (forall op, k, l, ty, v, w :: Names(m.binary(op, k, l, ty, v, w)) <= Names(v) + Names(w))
    && (forall op, k, ty, v :: Names(m.convert(op, k, ty, v)) <= Names(v))
    && (forall k, ty, v :: Names(m.copy(k, ty, v)) <= Names(v))
    && (forall v, w, n :: Names(m.addPtr(v, w, n)) <= Names(v) + Names(w))
    && (forall v, n, ty :: Names(m.getField(v, n, ty)) <= Names(v))
    && (forall v, n, k, w :: Names(m.setField(v, n, k, w)) <= Names(v) + Names(w))
  }

  /** Outside memory and callees know no addresses but those that reached them. */
  ghost predicate OutsideConfined(m: Machine, a: set<Name>) {
    && (forall mem, p, ty :: MemSafe(mem, a) && Names(p) <= a ==> Names(m.loadCell(mem, p, ty)) <= a)
    && (forall mem, p, k, v :: MemSafe(mem, a) && Names(p) <= a && Names(v) <= a ==>
          MemSafe(m.storeCell(mem, p, k, v), a))
    && (forall trace :: TraceSafe(trace, a) ==>
          var r := m.call(trace);
          Names(r.result) <= a && EnvSafe(r.written, a) && MemSafe(r.outside, a))
  }

  ghost predicate Confined(c: Ctx) {
    OperatorsConfined(c.machine) && OutsideConfined(c.machine, c.aliased)
  }

  ghost predicate CodeConfined(code: Code, a: set<Name>) {
    forall b, k :: 0 <= b < |code| && 0 <= k < |code[b]| && code[b][k].GetAddress? ==> code[b][k].taken in a
  }

  ghost predicate ConfigSafe(c: Ctx, s: Config) {
    s.Running? ==> DataSafe(s.data, c.aliased) && AddressTaken(s.rest) <= c.aliased
  }

  lemma EvalSafe(v: Val, env: Env, a: set<Name>)
    requires EnvSafe(env, a)
    ensures Names(EvalVal(v, env)) <= a
  {
  }

  lemma ResultSafe(c: Ctx, i: Instr, d: Data)
    requires Confined(c) && DataSafe(d, c.aliased) && Computes(i)
    requires i.GetAddress? ==> i.taken in c.aliased
    ensures Names(Result(c, i, d)) <= c.aliased
  {
    hide TraceSafe, MemSafe;
    assert forall v :: Names(EvalVal(v, d.env)) <= c.aliased;
    assert forall x :: Names(Read(d.env, x)) <= c.aliased;
  }

  lemma CallSafe(c: Ctx, i: Instr, d: Data)
    requires Confined(c) && DataSafe(d, c.aliased) && i.FunCall?
    ensures DataSafe(AfterCall(c, i, d), c.aliased)
  {
    var e := CallEvent(c, i, d);
    assert EventSafe(e, c.aliased) by {
      assert forall v :: Names(EvalVal(v, d.env)) <= c.aliased;
    }
    assert TraceSafe(d.trace + [e], c.aliased);
  }

  lemma ExecSafe(c: Ctx, i: Instr, d: Data)
    requires Confined(c) && DataSafe(d, c.aliased)
    requires i.GetAddress? ==> i.taken in c.aliased
    ensures DataSafe(Exec(c, i, d), c.aliased)
  {
    if Computes(i) {
      ResultSafe(c, i, d);
    } else if i.FunCall? {
      CallSafe(c, i, d);
    } else if i.Store? {
      EvalSafe(i.src, d.env, c.aliased);
      EvalSafe(i.dstPtr, d.env, c.aliased);
      StoreSafe(c, d, EvalVal(i.dstPtr, d.env), ValClass(c.types, i.src), EvalVal(i.src, d.env));
    }
  }

  lemma StoreSafe(c: Ctx, d: Data, p: Value, k: Class, v: Value)
    requires Confined(c) && DataSafe(d, c.aliased) && Names(p) <= c.aliased && Names(v) <= c.aliased
    ensures DataSafe(StoreAt(c, d, p, k, v), c.aliased)
  {
    hide TraceSafe;
    if p.Ptr? {
      assert Names(Read(d.env, p.base)) <= c.aliased;
      assert Names(c.machine.setField(Read(d.env, p.base), p.off, k, v)) <= c.aliased;
    }
  }

  lemma SuffixConfined(instrs: seq<Instr>, k: nat, a: set<Name>)
    requires k <= |instrs| && AddressTaken(instrs) <= a
    ensures AddressTaken(instrs[k..]) <= a
  {
    forall x | x in AddressTaken(instrs[k..])
      ensures x in a
    {
      var j :| 0 <= j < |instrs[k..]| && instrs[k..][j].GetAddress? && instrs[k..][j].taken == x;
      assert instrs[k + j] == instrs[k..][j];
      assert x in AddressTaken(instrs);
    }
  }

  lemma BlockConfined(code: Code, b: nat, a: set<Name>)
    requires CodeConfined(code, a) && b < |code|
    ensures AddressTaken(code[b]) <= a
  {
  }

  lemma GotoSafe(c: Ctx, code: Code, l: Name, d: Data)
    requires DataSafe(d, c.aliased) && CodeConfined(code, c.aliased)
    ensures ConfigSafe(c, Goto(code, l, d))
  {
    var t := LabelBlock(code, l, 0);
    if t < |code| {
      BlockConfined(code, t, c.aliased);
      SuffixConfined(code[t], LabelIndex(code[t], l), c.aliased);
    }
  }

  lemma StepSafe(c: Ctx, code: Code, s: Config)
    requires Confined(c) && CodeConfined(code, c.aliased) && ConfigSafe(c, s)
    ensures ConfigSafe(c, Step(c, code, s))
  {
    if s.Running? {
      if s.rest == [] {
        if s.blk + 1 < |code| {
          BlockConfined(code, s.blk + 1, c.aliased);
        }
      } else {
        var i := s.rest[0];
        SuffixConfined(s.rest, 1, c.aliased);
        assert i.GetAddress? ==> i.taken in AddressTaken(s.rest);
        if IsJump(i) {
          GotoSafe(c, code, i.target, s.data);
        } else {
          ExecSafe(c, i, s.data);
        }
      }
    }
  }

  /** Pointer provenance: in every state a run reaches, every address of a variable
      names a variable in `aliased`. */
  lemma {:induction false} Provenance(c: Ctx, code: Code, s: Config, n: nat)
    requires Confined(c) && CodeConfined(code, c.aliased) && ConfigSafe(c, s)
    ensures ConfigSafe(c, Run(c, code, s, n))
    decreases n
  {
    if n > 0 {
      StepSafe(c, code, s);
      Provenance(c, code, Step(c, code, s), n - 1);
    }
  }

  // ----- frames -----

  /** An instruction changes its destination and, through pointers or a callee, aliased
      variables; nothing else. */
  lemma ExecFrame(c: Ctx, i: Instr, d: Data, x: Name)
    requires DataSafe(d, c.aliased)
    requires x !in c.aliased && DefinedVar(i) != Some(x)
    ensures Read(Exec(c, i, d).env, x) == Read(d.env, x)
  {
    if i.Store? {
      EvalSafe(i.dstPtr, d.env, c.aliased);
    }
  }

  /** No instruction of the code, or of what remains of a block, names `x` as destination. */
  ghost predicate NeverDefined(instrs: seq<Instr>, x: Name) {
    forall k :: 0 <= k < |instrs| ==> DefinedVar(instrs[k]) != Some(x)
  }

  lemma StepFrame(c: Ctx, code: Code, s: Config, x: Name)
    requires ConfigSafe(c, s) && x !in c.aliased && s.Running? && NeverDefined(s.rest, x)
    requires forall b :: 0 <= b < |code| ==> NeverDefined(code[b], x)
    ensures var t := Step(c, code, s);
      t.Running? ==> NeverDefined(t.rest, x) && Read(t.data.env, x) == Read(s.data.env, x)
  {
    if s.rest != [] {
      ExecFrame(c, s.rest[0], s.data, x);
    }
  }

  /** Over whole runs: a variable that is neither aliased nor anybody's destination keeps
      the value it had at the start. */
  lemma {:induction false} RunFrame(c: Ctx, code: Code, s: Config, n: nat, x: Name)
    requires Confined(c) && CodeConfined(code, c.aliased) && ConfigSafe(c, s)
    requires x !in c.aliased && (s.Running? ==> NeverDefined(s.rest, x))
    requires forall b :: 0 <= b < |code| ==> NeverDefined(code[b], x)
    ensures var t := Run(c, code, s, n); s.Running? && t.Running? ==> Read(t.data.env, x) == Read(s.data.env, x)
    decreases n
  {
    hide Step, NeverDefined;
    if n > 0 && s.Running? {
      var t := Step(c, code, s);
      StepSafe(c, code, s);
      StepFrame(c, code, s, x);
      if t.Running? {
        RunFrame(c, code, t, n - 1, x);
      } else {
        HaltedStays(c, code, t, n - 1);
      }
    }
  }

  lemma HaltedStays(c: Ctx, code: Code, s: Config, n: nat)
    requires !s.Running?
    ensures Run(c, code, s, n) == s
    decreases n
  {
  }

  ghost predicate Agree(e: Env, f: Env, xs: set<Name>) {
    forall x :: x in xs ==> Read(e, x) == Read(f, x)
  }

  /** The variables an instruction's effect depends on. */
  function Needs(c: Ctx, i: Instr): set<Name> {
    match i
    case GetAddress(_, _) => {}
    case Load(_, _) => SourceVars(i) + c.aliased
    case FunCall(_, _, _, _) => SourceVars(i) + c.aliased
    case CopyToOffset(_, x, _) => SourceVars(i) + {x}
    case _ => SourceVars(i)
  }

  lemma EvalAgree(v: Val, e: Env, f: Env)
    requires Agree(e, f, ValVars(v))
    ensures EvalVal(v, e) == EvalVal(v, f)
  {
  }

  lemma CallAgree(c: Ctx, i: Instr, d: Data, e: Data)
    requires i.FunCall? && d.mem == e.mem && d.trace == e.trace
    requires Agree(d.env, e.env, Needs(c, i))
    ensures CallEvent(c, i, d) == CallEvent(c, i, e)
  {
    forall k | 0 <= k < |i.args|
      ensures EvalVal(i.args[k], d.env) == EvalVal(i.args[k], e.env)
    {
      assert i.args[k].Var? ==> i.args[k].name in ArgVars(i.args);
    }
    assert ArgValues(c, i.args, d.env) == ArgValues(c, i.args, e.env);
    assert Visible(c, d.env) == Visible(c, e.env);
  }

  lemma ResultAgree(c: Ctx, i: Instr, d: Data, e: Data)
    requires Computes(i) && DataSafe(d, c.aliased)
    requires d.mem == e.mem && Agree(d.env, e.env, Needs(c, i))
    ensures Result(c, i, d) == Result(c, i, e)
  {
    match i
    case Binary(_, v, w, _) => EvalAgree(v, d.env, e.env); EvalAgree(w, d.env, e.env);
    case AddPtr(v, w, _, _) => EvalAgree(v, d.env, e.env); EvalAgree(w, d.env, e.env);
    case Load(p, _) => EvalAgree(p, d.env, e.env); EvalSafe(p, d.env, c.aliased);
    case _ =>
  }

  /** Two states that agree on what an instruction needs still agree, afterwards, on its
      destination and on everything they agreed on before. */
  lemma ExecAgree(c: Ctx, i: Instr, d: Data, e: Data)
    requires DataSafe(d, c.aliased)
    requires d.mem == e.mem && d.trace == e.trace && Agree(d.env, e.env, Needs(c, i))
    ensures var d', e' := Exec(c, i, d), Exec(c, i, e);
      && d'.mem == e'.mem && d'.trace == e'.trace
      && forall x :: Read(d.env, x) == Read(e.env, x) || DefinedVar(i) == Some(x) ==>
           Read(d'.env, x) == Read(e'.env, x)
  {
    if Computes(i) {
      ResultAgree(c, i, d, e);
    } else if i.FunCall? {
      CallAgree(c, i, d, e);
    } else if i.Store? {
      EvalAgree(i.src, d.env, e.env);
      EvalAgree(i.dstPtr, d.env, e.env);
    }
  }
}
