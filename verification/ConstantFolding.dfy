/** Constant folding: the scan, what it preserves over whole runs, and where it goes wrong. */
module ConstantFolding {
  import opened Tacky
  import opened Semantics
  import opened Behaviour
  import opened BinaryIdentities
  import opened FoldRules
  import opened FoldSoundness
  import opened FoldAnswers

  // ----- the scan -----

  /** What is known when the instruction is folded. */
  function Before(m: Constants, i: Instr): Constants {
    if IsBarrier(i) then map[] else m
  }

  /** The emitted instruction. */
  function Emitted(types: Types, m: Constants, i: Instr): Instr {
    if i.Label? then i else FoldOne(types, Before(m, i), i)
  }

  /** What is known after it; any path may lead to a label. */
  function After(types: Types, m: Constants, i: Instr): Constants {
    if i.Label? then map[] else AfterFold(types, Before(m, i), Emitted(types, m, i))
  }

  /** `const_map` when the scan comes to position `k`. */
  function RecordAt(types: Types, body: seq<Instr>, k: nat): Constants
    requires k <= |body|
  {
    if k == 0 then map[] else After(types, RecordAt(types, body, k - 1), body[k - 1])
  }

  /** The body after the scan. */
  function Folded(types: Types, body: seq<Instr>): (r: seq<Instr>)
    ensures |r| == |body|
    ensures forall k :: 0 <= k < |body| ==> r[k] == Emitted(types, RecordAt(types, body, k), body[k])
  {
    seq(|body|, k requires 0 <= k < |body| => Emitted(types, RecordAt(types, body, k), body[k]))
  }

  predicate CoveredAt(types: Types, body: seq<Instr>, k: nat)
    requires k < |body|
  {
    var m := Before(RecordAt(types, body, k), body[k]);
    body[k].Label? || (Integral(types, m, body[k]) && ReadRight(types, m, body[k]))
  }

  /** Wherever the scan can fold, it is about integers, and constants are right where they must be. */
  predicate Covered(types: Types, body: seq<Instr>) {
    forall k :: 0 <= k < |body| ==> CoveredAt(types, body, k)
  }

  // ----- the record over one instruction -----

  lemma CopyRecorded(c: Ctx, m: Constants, i: Instr, d: Data)
    requires IntegerMachine(c.machine) && EntriesHold(c.types, m, d.env)
    requires i.Copy? && Records(c.types, m, i) && i.dst in AfterFold(c.types, m, i)
    ensures EntryHolds(c.types, AfterFold(c.types, m, i)[i.dst], i.dst, Exec(c, i, d).env)
  {
    hide IntegerMachine, Held, EntriesHold;
    if i.src.Var? {
      var n := EntryNumber(c.types, m, i.src, d.env);
      CopyHolds(c, i.src, i.dst, d, Held(TypeOf(c.types, i.src.name), n));
      HeldAgain(TypeOf(c.types, i.dst), n);
    } else {
      CopyHolds(c, i.src, i.dst, d, ConstantOf(i.src).value);
    }
  }

  lemma CopyHolds(c: Ctx, v: Val, x: Name, d: Data, a: int)
    requires IntegerMachine(c.machine) && Storable(TypeOf(c.types, x)) && HasNumber(v, d.env, a)
    ensures Read(Exec(c, Copy(v, x), d).env, x) == Num(Held(TypeOf(c.types, x), a))
  {
    hide IntegerMachine, Held, HasNumber;
    CopyLeaves(c, v, x, d, a);
  }

  /** Only the destination is recorded anew. */
  lemma OthersRecorded(types: Types, m: Constants, i: Instr, y: Name)
    requires y in AfterFold(types, m, i) && (i.CopyToOffset? ==> i.dstName !in m)
    ensures DefinedVar(i) == Some(y) ==> i.Copy?
    ensures DefinedVar(i) != Some(y) ==> y in m && AfterFold(types, m, i)[y] == m[y]
  {
  }

  /** Right records stay right. */
  lemma RecordKept(c: Ctx, m: Constants, i: Instr, d: Data)
    requires IntegerMachine(c.machine) && EntriesHold(c.types, m, d.env)
    requires Records(c.types, m, i) && (i.CopyToOffset? ==> i.dstName !in m) && (IsBarrier(i) ==> m == map[])
    ensures EntriesHold(c.types, AfterFold(c.types, m, i), Exec(c, i, d).env)
  {
    var m', env' := AfterFold(c.types, m, i), Exec(c, i, d).env;
    forall y | y in m'
      ensures EntryHolds(c.types, m'[y], y, env')
    {
      OthersRecorded(c.types, m, i, y);
      if DefinedVar(i) == Some(y) {
        hide IntegerMachine, EntriesHold, EntryHolds, AfterFold;
        CopyRecorded(c, m, i, d);
      } else {
        assert EntryHolds(c.types, m[y], y, d.env);
        Untouched(c, i, d, y);
      }
    }
  }

  lemma Untouched(c: Ctx, i: Instr, d: Data, y: Name)
    requires !IsBarrier(i) && DefinedVar(i) != Some(y)
    ensures Read(Exec(c, i, d).env, y) == Read(d.env, y)
  {
  }

  // ----- whole runs -----

  /** The labels of a body stay where they are. */
  lemma FoldKeepsLabels(types: Types, m: Constants, i: Instr)
    ensures Emitted(types, m, i).Label? || i.Label? ==> Emitted(types, m, i) == i
  {
    if Computes(i) {
      FoldComputes(types, Before(m, i), i);
    }
    hide FoldBinary, FoldUnary, FoldConvert, FoldAddPtr, ResolveVal, Hint;
  }

  lemma {:induction false} SameLabels(p: seq<Instr>, q: seq<Instr>, l: Name)
    requires |p| == |q| && forall k :: 0 <= k < |p| && (p[k].Label? || q[k].Label?) ==> p[k] == q[k]
    ensures LabelIndex(q, l) == LabelIndex(p, l) && (Label(l) in q <==> Label(l) in p)
  {
    if p != [] {
      assert p == [p[0]] + p[1..] && q == [q[0]] + q[1..];
      SameLabels(p[1..], q[1..], l);
    }
  }

  lemma FoldedLabels(types: Types, body: seq<Instr>, l: Name)
    ensures LabelIndex(Folded(types, body), l) == LabelIndex(body, l)
    ensures Label(l) in Folded(types, body) <==> Label(l) in body
  {
    hide Emitted, LabelIndex;
    forall k | 0 <= k < |body|
      ensures body[k].Label? || Folded(types, body)[k].Label? ==> Folded(types, body)[k] == body[k]
    {
      FoldKeepsLabels(types, RecordAt(types, body, k), body[k]);
    }
    SameLabels(body, Folded(types, body), l);
  }

  /** Every constant on record where a run stands agrees with its variable. At a label nothing counts
      as known. */
  ghost predicate RecordRight(types: Types, body: seq<Instr>, k: nat, env: Env)
    requires k <= |body|
  {
    k < |body| && !body[k].Label? ==> EntriesHold(types, RecordAt(types, body, k), env)
  }

  /** Both runs stand at the same place with the same data, and the record there is right. */
  ghost predicate InStep(types: Types, body: seq<Instr>, s: Config, t: Config) {
    if s.Running? then
      var k := |body| - |s.rest|;
      && k >= 0 && s == Running(0, body[k..], s.data) && t == Running(0, Folded(types, body)[k..], s.data)
      && RecordRight(types, body, k, s.data.env)
    else s == t
  }

  /** The next instruction of the run is defined on its operands. */
  predicate DefinedNext(types: Types, s: Config) {
    s.Running? && s.rest != [] ==> DefinedAt(types, s.rest[0], s.data.env)
  }

  /** No run of the body gives an integer operator an address, or divides by zero. */
  ghost predicate DefinedRun(c: Ctx, body: seq<Instr>, d: Data) {
    forall n: nat :: DefinedNext(c.types, Run(c, [body], Start([body], d), n))
  }

  lemma OnlyCode(body: seq<Instr>, l: Name, d: Data)
    ensures Goto([body], l, d) ==
      if Label(l) in body then Running(0, body[LabelIndex(body, l)..], d) else Trapped(d.trace)
  {
    assert [body][0] == body && LabelBlock([body], l, 1) == 1;
    assert LabelBlock([body], l, 0) == if Label(l) in body then 0 else 1;
  }

  lemma {:induction false} LabelInside(body: seq<Instr>, l: Name)
    requires Label(l) in body
    ensures LabelIndex(body, l) < |body| && body[LabelIndex(body, l)] == Label(l)
  {
    if body[0] != Label(l) {
      assert Label(l) in body[1..];
      LabelInside(body[1..], l);
    }
  }

  lemma StandsAt(types: Types, body: seq<Instr>, k: nat, d: Data)
    requires k <= |body| && RecordRight(types, body, k, d.env)
    ensures InStep(types, body, Running(0, body[k..], d), Running(0, Folded(types, body)[k..], d))
  {
    hide RecordRight;
  }

  lemma GotoInStep(c: Ctx, body: seq<Instr>, l: Name, d: Data)
    ensures InStep(c.types, body, Goto([body], l, d), Goto([Folded(c.types, body)], l, d))
  {
    hide InStep, LabelIndex, Goto, Folded;
    FoldedLabels(c.types, body, l);
    OnlyCode(body, l, d);
    OnlyCode(Folded(c.types, body), l, d);
    if Label(l) in body {
      LabelInside(body, l);
      StandsAt(c.types, body, LabelIndex(body, l), d);
    } else {
      Stopped(c.types, body, Goto([body], l, d));
    }
  }

  lemma Stopped(types: Types, body: seq<Instr>, s: Config)
    requires !s.Running?
    ensures InStep(types, body, s, s)
  {
  }

  /** The scan makes no write at an offset and no barrier of anything else. */
  lemma EmittedKind(types: Types, m: Constants, i: Instr)
    requires Integral(types, m, i)
    ensures var f := FoldOne(types, m, i);
      (f.CopyToOffset? ==> f.dstName !in m) && (IsBarrier(f) ==> IsBarrier(i))
  {
    if Computes(i) {
      FoldComputes(types, m, i);
    }
    if i.Binary? {
      FoldOneBinary(types, m, i);
      BinaryShaped(types, i.bop, ResolveVal(i.left, m), ResolveVal(i.right, m), i.dst, Hint(types, m, i));
    }
    hide FoldBinary, FoldUnary, FoldConvert, FoldAddPtr, ResolveVal, Hint, Canon, OperandOf, ComparedAt, Common;
  }

  /** One instruction where a run stands, and what the scan made of it. */
  lemma EmittedAlike(c: Ctx, body: seq<Instr>, k: nat, d: Data)
    requires FoldingMachine(c.machine) && k < |body| && CoveredAt(c.types, body, k)
    requires RecordRight(c.types, body, k, d.env) && DefinedAt(c.types, body[k], d.env)
    ensures StepsAlike(c, body[k], Folded(c.types, body)[k], d)
    ensures EntriesHold(c.types, RecordAt(c.types, body, k + 1), Exec(c, body[k], d).env)
  {
    var i := body[k];
    var m := Before(RecordAt(c.types, body, k), i);
    if !i.Label? {
      assert EntriesHold(c.types, m, d.env) by { hide EntryHolds; }
      hide FoldingMachine, EntriesHold, FoldOne, AfterFold, Exec, StepsAlike, DefinedAt, Integral, ReadRight, Records,
        Folded;
      FoldOneAlike(c, m, i, d);
      FoldRecords(c.types, m, i, d.env);
      EmittedKind(c.types, m, i);
      RecordAfter(c, m, i, FoldOne(c.types, m, i), d);
    }
  }

  lemma RecordAfter(c: Ctx, m: Constants, i: Instr, f: Instr, d: Data)
    requires FoldingMachine(c.machine) && EntriesHold(c.types, m, d.env) && StepsAlike(c, i, f, d)
    requires Records(c.types, m, f) && (f.CopyToOffset? ==> f.dstName !in m) && (IsBarrier(f) ==> m == map[])
    ensures EntriesHold(c.types, AfterFold(c.types, m, f), Exec(c, i, d).env)
  {
    hide IntegerMachine, EntriesHold, AfterFold, Records, Exec;
    RecordKept(c, m, f, d);
  }

  lemma EndInStep(c: Ctx, body: seq<Instr>, s: Config, t: Config)
    requires InStep(c.types, body, s, t) && (s.Running? ==> s.rest == [])
    ensures InStep(c.types, body, Step(c, [body], s), Step(c, [Folded(c.types, body)], t))
  {
    hide RecordRight, Goto, Exec;
  }

  lemma Stands(types: Types, body: seq<Instr>, s: Config, t: Config) returns (k: nat)
    requires InStep(types, body, s, t) && s.Running? && s.rest != []
    ensures k < |body| && s == Running(0, body[k..], s.data) && t == Running(0, Folded(types, body)[k..], s.data)
    ensures RecordRight(types, body, k, s.data.env) && s.rest[0] == body[k]
  {
    hide RecordRight, Folded;
    k := |body| - |s.rest|;
  }

  /** One step of both runs. */
  lemma StepInStep(c: Ctx, body: seq<Instr>, s: Config, t: Config)
    requires FoldingMachine(c.machine) && Covered(c.types, body)
    requires InStep(c.types, body, s, t) && DefinedNext(c.types, s)
    ensures InStep(c.types, body, Step(c, [body], s), Step(c, [Folded(c.types, body)], t))
  {
    hide FoldingMachine, Covered, EntriesHold, Exec, Step, StepsAlike, Folded, InStep, RecordRight, CoveredAt,
      RecordAt, DefinedAt;
    if s.Running? && s.rest != [] {
      var k := Stands(c.types, body, s, t);
      CoveredHere(c.types, body, k);
      EmittedAlike(c, body, k, s.data);
      InstructionInStep(c, body, k, s.data);
    } else {
      EndInStep(c, body, s, t);
    }
  }

  lemma CoveredHere(types: Types, body: seq<Instr>, k: nat)
    requires Covered(types, body) && k < |body|
    ensures CoveredAt(types, body, k)
  {
  }

  lemma StepAt(c: Ctx, body: seq<Instr>, k: nat, d: Data)
    requires k < |body|
    ensures var i, next := body[k], Running(0, body[k + 1..], Exec(c, body[k], d));
      Step(c, [body], Running(0, body[k..], d)) ==
        if i.Return? then Halt(c, Returned(EvalVal(i.val, d.env)), d)
        else if i.Unreachable? then Trapped(d.trace)
        else if IsJump(i) && Taken(c, i, d.env) then Goto([body], i.target, d)
        else next
  {
    hide Goto;
    assert body[k..][1..] == body[k + 1..];
  }

  lemma InstructionInStep(c: Ctx, body: seq<Instr>, k: nat, d: Data)
    requires k < |body| && StepsAlike(c, body[k], Folded(c.types, body)[k], d)
    requires EntriesHold(c.types, RecordAt(c.types, body, k + 1), Exec(c, body[k], d).env)
    ensures InStep(c.types, body, Step(c, [body], Running(0, body[k..], d)),
                   Step(c, [Folded(c.types, body)], Running(0, Folded(c.types, body)[k..], d)))
  {
    var i := body[k];
    hide EntriesHold, Goto, Folded, InStep, Exec, Step, Taken, RecordAt, Halt, EvalVal;
    StepAt(c, body, k, d);
    StepAt(c, Folded(c.types, body), k, d);
    StandsAt(c.types, body, k + 1, Exec(c, i, d));
    if IsJump(i) {
      GotoInStep(c, body, i.target, d);
    } else if i.Return? || i.Unreachable? {
      Stopped(c.types, body, Step(c, [body], Running(0, body[k..], d)));
    }
  }

  /** After any number of steps the two runs stand at the same place with the same data, and what is on
      record there is right. */
  lemma {:induction false} RunsInStep(c: Ctx, body: seq<Instr>, s: Config, t: Config, n: nat)
    requires FoldingMachine(c.machine) && Covered(c.types, body) && InStep(c.types, body, s, t)
    requires forall k: nat :: DefinedNext(c.types, Run(c, [body], s, k))
    ensures InStep(c.types, body, Run(c, [body], s, n), Run(c, [Folded(c.types, body)], t, n))
    decreases n
  {
    hide FoldingMachine, Covered, InStep, Step, DefinedNext, Folded;
    if n > 0 {
      assert Run(c, [body], s, 0) == s;
      StepInStep(c, body, s, t);
      forall k: nat
        ensures DefinedNext(c.types, Run(c, [body], Step(c, [body], s), k))
      {
        assert Run(c, [body], s, k + 1) == Run(c, [body], Step(c, [body], s), k);
      }
      RunsInStep(c, body, Step(c, [body], s), Step(c, [Folded(c.types, body)], t), n - 1);
    }
  }

  lemma StartsInStep(types: Types, body: seq<Instr>, d: Data)
    ensures InStep(types, body, Start([body], d), Start([Folded(types, body)], d))
  {
    assert [body][0] == body;
    assert body[0..] == body && Folded(types, body)[0..] == Folded(types, body);
    hide InStep, Folded;
    StandsAt(types, body, 0, d);
  }

  /** The theorem about whole runs. */
  lemma FoldingInStep(c: Ctx, body: seq<Instr>, d: Data, n: nat)
    requires FoldingMachine(c.machine) && Covered(c.types, body) && DefinedRun(c, body, d)
    ensures InStep(c.types, body, Run(c, [body], Start([body], d), n),
                   Run(c, [Folded(c.types, body)], Start([Folded(c.types, body)], d), n))
  {
    hide FoldingMachine, Covered, InStep, Start, Folded;
    StartsInStep(c.types, body, d);
    RunsInStep(c, body, Start([body], d), Start([Folded(c.types, body)], d), n);
  }

  /** A folded body behaves like the body. */
  lemma FoldingPreserves(c: Ctx, body: seq<Instr>, d: Data)
    requires FoldingMachine(c.machine) && Covered(c.types, body) && DefinedRun(c, body, d)
    ensures Equivalent(c, [body], [Folded(c.types, body)], d)
  {
    hide FoldingMachine, Covered, DefinedRun, Run, Folded;
    var p, q := [body], [Folded(c.types, body)];
    forall n: nat
      ensures Shown(c, p, Start(p, d), n, q, Start(q, d)) && Shown(c, q, Start(q, d), n, p, Start(p, d))
    {
      FoldingInStep(c, body, d, n);
      assert SameView(Run(c, p, Start(p, d), n), Run(c, q, Start(q, d), n));
      assert SameView(Run(c, q, Start(q, d), n), Run(c, p, Start(p, d), n));
    }
  }

  lemma AlwaysPreserves(types: Types, body: seq<Instr>)
    ensures forall c: Ctx, d ::
      c.types == types && FoldingMachine(c.machine) && Covered(types, body) && DefinedRun(c, body, d) ==>
        Equivalent(c, [body], [Folded(types, body)], d)
  {
    hide Covered, DefinedRun, FoldingMachine, Equivalent, Folded;
    forall c: Ctx, d | c.types == types && FoldingMachine(c.machine) && Covered(types, body) && DefinedRun(c, body, d)
      ensures Equivalent(c, [body], [Folded(types, body)], d)
    {
      FoldingPreserves(c, body, d);
    }
  }

  lemma FirstRecord(types: Types, body: seq<Instr>)
    ensures RecordAt(types, body, 0) == map[]
  {
  }

  lemma RecordNext(types: Types, body: seq<Instr>, k: nat)
    requires k < |body|
    ensures RecordAt(types, body, k + 1) == After(types, RecordAt(types, body, k), body[k])
  {
    hide After;
  }

  lemma FoldRound(types: Types, body: seq<Instr>, k: nat)
    requires k < |body|
    ensures RecordAt(types, body, k + 1) == After(types, RecordAt(types, body, k), body[k])
    ensures Folded(types, body)[..k + 1]
      == Folded(types, body)[..k] + [Emitted(types, RecordAt(types, body, k), body[k])]
  {
    hide *;
    RecordNext(types, body, k);
    var q := Folded(types, body);
    assert q[..k + 1] == q[..k] + [q[k]];
  }

  // ----- what the scan knows, told from its output -----

  /** A copy, and nothing else, puts a variable on record. */
  lemma CopiesRecord(types: Types, m: Constants, i: Instr)
    requires Emitted(types, m, i).Copy?
    ensures After(types, m, i) == AfterFold(types, m, Emitted(types, m, i))
  {
    hide FoldBinary, FoldUnary, FoldConvert, FoldAddPtr, ResolveVal, Hint, AfterFold;
  }

  lemma EmittedDefines(types: Types, m: Constants, i: Instr)
    requires !i.Label? && !i.FunCall? && !i.Store?
    ensures var f := Emitted(types, m, i);
      (DefinedVar(f) == DefinedVar(i) || DefinedVar(f).None?) && (f.CopyToOffset? <==> i.CopyToOffset?)
  {
    if Computes(i) {
      FoldComputes(types, m, i);
    }
    if i.Binary? {
      FoldOneBinary(types, m, i);
      BinaryShaped(types, i.bop, ResolveVal(i.left, m), ResolveVal(i.right, m), i.dst, Hint(types, m, i));
    }
    hide FoldBinary, FoldUnary, FoldConvert, FoldAddPtr, ResolveVal, Hint;
  }

  /** What is on record stays, while nothing disturbs it. */
  lemma StaysOnRecord(types: Types, m: Constants, i: Instr, x: Name)
    requires x in m && !i.Label? && !i.FunCall? && !i.Store? && DefinedVar(i) != Some(x)
    ensures x in After(types, m, i) && After(types, m, i)[x] == m[x]
  {
    hide Emitted;
    EmittedDefines(types, m, i);
  }

  lemma {:induction false} StaysUndisturbed(types: Types, body: seq<Instr>, j: nat, k: nat, x: Name, known: Known)
    requires j <= k <= |body| && Undisturbed(body, j, k, x)
    requires x in RecordAt(types, body, j) && RecordAt(types, body, j)[x] == known
    ensures x in RecordAt(types, body, k) && RecordAt(types, body, k)[x] == known
    decreases k
  {
    hide After;
    if j < k {
      StaysUndisturbed(types, body, j, k - 1, x, known);
      StaysOnRecord(types, RecordAt(types, body, k - 1), body[k - 1], x);
    }
  }

  lemma ReachedFrom(types: Types, body: seq<Instr>, folded: seq<Instr>, k: nat, x: Name, lit: Val) returns (j: nat)
    requires |folded| == |body| && k <= |body| && Reaches(types, body, folded, k, x, lit)
    ensures j < k && Undisturbed(body, j + 1, k, x) && folded[j].Copy? && folded[j].dst == x
    ensures if folded[j].src.Var? then
        TypeOf(types, folded[j].src.name) == TypeOf(types, x)
          && Reaches(types, body, folded, j, folded[j].src.name, lit)
      else folded[j].src == lit && RecordedAs(types, x, lit)
  {
    hide Undisturbed, RecordedAs, TypeOf;
    j :| j < k && Undisturbed(body, j + 1, k, x) &&
      if folded[j].Copy? && folded[j].src.Var? then
        folded[j].dst == x && TypeOf(types, folded[j].src.name) == TypeOf(types, x)
          && Reaches(types, body, folded, j, folded[j].src.name, lit)
      else folded[j] == Copy(lit, x) && RecordedAs(types, x, lit);
  }

  lemma CopyRecords(types: Types, m: Constants, v: Val, x: Name, lit: Val)
    requires ConstantOf(lit).Some?
    requires if v.Var? then
        TypeOf(types, v.name) == TypeOf(types, x) && v.name in m && m[v.name] == Known(lit, TypeOf(types, x))
      else v == lit && RecordedAs(types, x, lit)
    ensures var m' := AfterFold(types, m, Copy(v, x)); x in m' && m'[x] == Known(lit, TypeOf(types, x))
  {
  }

  /** What reaches a position is on record there. */
  lemma {:induction false} ReachesRecord(types: Types, body: seq<Instr>, k: nat, x: Name, lit: Val)
    requires k <= |body| && Reaches(types, body, Folded(types, body), k, x, lit) && ConstantOf(lit).Some?
    ensures x in RecordAt(types, body, k) && RecordAt(types, body, k)[x] == Known(lit, TypeOf(types, x))
    decreases k
  {
    hide *;
    var folded := Folded(types, body);
    var j := ReachedFrom(types, body, folded, k, x, lit);
    var m := RecordAt(types, body, j);
    assert folded[j] == Emitted(types, m, body[j]) == Copy(folded[j].src, x);
    if folded[j].src.Var? {
      ReachesRecord(types, body, j, folded[j].src.name, lit);
    }
    CopiesRecord(types, m, body[j]);
    CopyRecords(types, m, folded[j].src, x, lit);
    RecordNext(types, body, j);
    StaysUndisturbed(types, body, j + 1, k, x, Known(lit, TypeOf(types, x)));
  }

  lemma KnownOnRecord(types: Types, body: seq<Instr>, k: nat, v: Val, lit: Val)
    requires k < |body| && KnownAs(types, body, Folded(types, body), k, v, lit) && !IsBarrier(body[k])
    ensures OnRecord(types, Before(RecordAt(types, body, k), body[k]), v, lit)
  {
    hide Folded, Reaches, RecordAt;
    if v.Var? {
      ReachesRecord(types, body, k, v.name, lit);
    }
  }

  /** Every instruction with known operands is answered. */
  ghost predicate Answered(types: Types, body: seq<Instr>, folded: seq<Instr>, k: nat, v: Val, w: Val)
    requires |folded| == |body| && k < |body|
  {
    var i, f := body[k], folded[k];
    && (i.Binary? && KnownAs(types, body, folded, k, i.left, v) && KnownAs(types, body, folded, k, i.right, w) ==>
          BinaryAnswered(types, i, v, w, f))
    && (i.Unary? && KnownAs(types, body, folded, k, i.src, v) ==> UnaryAnswered(types, i, v, f))
    && ((i.JumpIfZero? || i.JumpIfNotZero?) && KnownAs(types, body, folded, k, i.cond, v) ==> BranchAnswered(i, v, f))
    && (i.Convert? && KnownAs(types, body, folded, k, i.src, v) ==> UseAnswered(i, v, f))
    && (i.Return? && KnownAs(types, body, folded, k, i.val, v) ==> UseAnswered(i, v, f))
    && (i.Load? && KnownAs(types, body, folded, k, i.srcPtr, v) ==> UseAnswered(i, v, f))
  }

  lemma FoldedAnswers(types: Types, body: seq<Instr>, k: nat, v: Val, w: Val)
    requires k < |body|
    ensures Answered(types, body, Folded(types, body), k, v, w)
  {
    hide RecordAt, KnownAs, BinaryAnswered, UnaryAnswered, BranchAnswered, UseAnswered, FoldOne, OnRecord;
    var i, folded := body[k], Folded(types, body);
    var m := Before(RecordAt(types, body, k), i);
    assert !i.Label? ==> folded[k] == FoldOne(types, m, i);
    hide Folded;
    if i.Binary? && KnownAs(types, body, folded, k, i.left, v) && KnownAs(types, body, folded, k, i.right, w) {
      KnownOnRecord(types, body, k, i.left, v);
      KnownOnRecord(types, body, k, i.right, w);
      BinaryAnswers(types, m, i, v, w);
    }
    if i.Unary? && KnownAs(types, body, folded, k, i.src, v) {
      KnownOnRecord(types, body, k, i.src, v);
      UnaryAnswers(types, m, i, v);
    }
    if (i.JumpIfZero? || i.JumpIfNotZero?) && KnownAs(types, body, folded, k, i.cond, v) {
      KnownOnRecord(types, body, k, i.cond, v);
      BranchAnswers(types, m, i, v);
    }
    if i.Convert? && KnownAs(types, body, folded, k, i.src, v) {
      KnownOnRecord(types, body, k, i.src, v);
      UseAnswers(types, m, i, i.src, v);
    }
    if i.Return? && KnownAs(types, body, folded, k, i.val, v) {
      KnownOnRecord(types, body, k, i.val, v);
      UseAnswers(types, m, i, i.val, v);
    }
    if i.Load? && KnownAs(types, body, folded, k, i.srcPtr, v) {
      KnownOnRecord(types, body, k, i.srcPtr, v);
      UseAnswers(types, m, i, i.srcPtr, v);
    }
  }

  /** `constant_folding` */
  method ConstantFold(instructions: seq<Instr>, types: Types) returns (folded: seq<Instr>, changed: bool)
    ensures folded == Folded(types, instructions)
    ensures changed <==> folded != instructions
    ensures |folded| == |instructions| && forall k, v, w ::
      0 <= k < |instructions| ==> Answered(types, instructions, folded, k, v, w)
    ensures forall c: Ctx, d ::
      c.types == types && FoldingMachine(c.machine) && Covered(types, instructions)
        && DefinedRun(c, instructions, d) ==>
        Equivalent(c, [instructions], [folded], d)
  {
    hide Emitted, After, RecordAt, Covered, DefinedRun, FoldingMachine, Equivalent, Folded, Answered;
    FirstRecord(types, instructions);
    var constMap: Constants := map[];
    folded, changed := [], false;
    for k := 0 to |instructions|
      invariant |folded| == k && constMap == RecordAt(types, instructions, k)
      invariant folded == Folded(types, instructions)[..k]
      invariant changed <==> folded != instructions[..k]
    {
      var instr := instructions[k];
      var result := Emitted(types, constMap, instr);
      FoldRound(types, instructions, k);
      AppendDiffers(folded, instructions[..k], result, instr);
      assert instructions[..k + 1] == instructions[..k] + [instr];
      constMap := After(types, constMap, instr);
      changed := changed || result != instr;
      folded := folded + [result];
    }
    assert instructions[..|instructions|] == instructions;
    assert Folded(types, instructions)[..|instructions|] == Folded(types, instructions);
    AlwaysPreserves(types, instructions);
    forall k, v, w | 0 <= k < |instructions|
      ensures Answered(types, instructions, folded, k, v, w)
    {
      FoldedAnswers(types, instructions, k, v, w);
    }
  }
}
