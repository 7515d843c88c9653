/** Running small programs step by step, to tell codes apart on a concrete input. */
module SmallPrograms {
  import opened Tacky
  import opened Semantics
  import opened Behaviour
  import opened ControlFlow
  import opened Effects
  import opened Preservation

  /** Every operation returns its last operand, memory is empty, callees do nothing. */
  function SimpleMachine(): Machine {
    Machine((op, ty, v) => v, (op, k, l, ty, v, w) => w, (op, k, ty, v) => v, (k, ty, v) => v,
            (v, w, n) => w, (v, n, ty) => v, (v, n, k, w) => w, (mem, p, ty) => Num(0), (mem, p, k, v) => mem,
            v => v == Num(0), trace => Reply(Num(0), map[], map[]))
  }

  function SimpleCtx(): Ctx {
    Ctx(SimpleMachine(), map[], {}, {})
  }

  function Blank(): Data {
    Data(map[], map[], [])
  }

  lemma SimpleSuitable(code: Code)
    requires CodeConfined(code, {})
    ensures Suitable(SimpleCtx(), code, {}, {}) && DataSafe(Blank(), {})
  {
  }

  ghost predicate StopsFrom(c: Ctx, p: Code, s: Config, h: Config) {
    !h.Running? && exists n: nat :: Run(c, p, s, n) == h
  }

  lemma StopsNow(c: Ctx, p: Code, h: Config)
    requires !h.Running?
    ensures StopsFrom(c, p, h, h)
  {
    assert Run(c, p, h, 0) == h;
  }

  lemma StopsAfter(c: Ctx, p: Code, s: Config, t: Config, h: Config)
    requires Step(c, p, s) == t && StopsFrom(c, p, t, h)
    ensures StopsFrom(c, p, s, h)
  {
    var n: nat :| Run(c, p, t, n) == h;
    assert Run(c, p, s, n + 1) == h;
  }

  lemma {:induction false} RunSplit(c: Ctx, p: Code, s: Config, n: nat, m: nat)
    ensures Run(c, p, s, n + m) == Run(c, p, Run(c, p, s, n), m)
    decreases n
  {
    if n > 0 {
      RunSplit(c, p, Step(c, p, s), n - 1, m);
    }
  }

  /** A run stops in one way only. */
  lemma StopsOnce(c: Ctx, p: Code, s: Config, h: Config, g: Config)
    requires StopsFrom(c, p, s, h) && StopsFrom(c, p, s, g)
    ensures h == g
  {
    var n: nat :| Run(c, p, s, n) == h;
    var m: nat :| Run(c, p, s, m) == g;
    RunSplit(c, p, s, n, m);
    RunSplit(c, p, s, m, n);
    HaltedStays(c, p, h, m);
    HaltedStays(c, p, g, n);
  }

  /** Two codes that stop differently on the same input are told apart. */
  lemma ToldApart(c: Ctx, p: Code, q: Code, d: Data, h: Config, g: Config)
    requires StopsFrom(c, p, Start(p, d), h) && StopsFrom(c, q, Start(q, d), g) && h != g
    ensures !Equivalent(c, p, q, d)
  {
    if Equivalent(c, p, q, d) {
      EquivalentStops(c, p, q, d, h);
      StopsOnce(c, q, Start(q, d), h, g);
    }
  }

  lemma LandsAt(code: Code, l: Name, t: nat, d: Data)
    requires t < |code| && Labelled(code[t], l) && forall j :: 0 <= j < t ==> Label(l) !in code[j]
    ensures Goto(code, l, d) == Running(t, code[t], d)
  {
    assert LabelBlock(code, l, 0) == t && LabelIndex(code[t], l) == 0;
    assert code[t][0..] == code[t];
  }

  /** Two codes that return different values are not alike in every suitable function. */
  lemma NotPreserved(p: Code, q: Code, m: int, n: int)
    requires CodeConfined(p, {}) && m != n
    requires StopsFrom(SimpleCtx(), p, Start(p, Blank()), Returns(Num(m), Blank()))
    requires StopsFrom(SimpleCtx(), q, Start(q, Blank()), Returns(Num(n), Blank()))
    ensures !Preserved(p, q, {}, {})
  {
    SimpleSuitable(p);
    hide StopsFrom, SimpleCtx, Suitable, DataSafe, Start;
    ToldApart(SimpleCtx(), p, q, Blank(), Returns(Num(m), Blank()), Returns(Num(n), Blank()));
  }

  /** The configuration a returning run stops in. */
  function Returns(v: Value, d: Data): Config {
    Halted(Returned(v), map[], d.mem, d.trace)
  }

  // ----- single steps of small programs -----

  lemma ReturnStep(p: Code, b: nat, x: Name, d: Data)
    ensures StopsFrom(SimpleCtx(), p, Running(b, [Return(Var(x))], d), Returns(Read(d.env, x), d))
  {
    var c, s, h := SimpleCtx(), Running(b, [Return(Var(x))], d), Returns(Read(d.env, x), d);
    assert Step(c, p, s) == h;
    StopsNow(c, p, h);
    StopsAfter(c, p, s, h, h);
  }

  lemma LabelStep(p: Code, b: nat, l: Name, rest: seq<Instr>, d: Data, h: Config)
    requires StopsFrom(SimpleCtx(), p, Running(b, rest, d), h)
    ensures StopsFrom(SimpleCtx(), p, Running(b, [Label(l)] + rest, d), h)
  {
    assert ([Label(l)] + rest)[1..] == rest;
    StopsAfter(SimpleCtx(), p, Running(b, [Label(l)] + rest, d), Running(b, rest, d), h);
  }

  lemma CopyStep(p: Code, b: nat, v: Val, x: Name, rest: seq<Instr>, d: Data, h: Config)
    requires StopsFrom(SimpleCtx(), p, Running(b, rest, d.(env := d.env[x := EvalVal(v, d.env)])), h)
    ensures StopsFrom(SimpleCtx(), p, Running(b, [Copy(v, x)] + rest, d), h)
  {
    assert ([Copy(v, x)] + rest)[1..] == rest;
    StopsAfter(SimpleCtx(), p, Running(b, [Copy(v, x)] + rest, d),
      Running(b, rest, d.(env := d.env[x := EvalVal(v, d.env)])), h);
  }

  lemma JumpStep(p: Code, b: nat, l: Name, t: nat, d: Data, h: Config)
    requires t < |p| && Goto(p, l, d) == Running(t, p[t], d) && StopsFrom(SimpleCtx(), p, Running(t, p[t], d), h)
    ensures StopsFrom(SimpleCtx(), p, Running(b, [Jump(l)], d), h)
  {
    hide Goto, Exec, StopsFrom, Run;
    StopsAfter(SimpleCtx(), p, Running(b, [Jump(l)], d), Running(t, p[t], d), h);
  }

  /** A jump on zero is taken for a variable never assigned. */
  lemma TakenStep(p: Code, b: nat, x: Name, l: Name, rest: seq<Instr>, t: nat, d: Data, h: Config)
    requires t < |p| && Goto(p, l, d) == Running(t, p[t], d) && x !in d.env
    requires StopsFrom(SimpleCtx(), p, Running(t, p[t], d), h)
    ensures StopsFrom(SimpleCtx(), p, Running(b, [JumpIfZero(Var(x), l)] + rest, d), h)
  {
    hide Goto, Exec, StopsFrom, Run;
    StopsAfter(SimpleCtx(), p, Running(b, [JumpIfZero(Var(x), l)] + rest, d), Running(t, p[t], d), h);
  }

  /** A jump on not zero falls through for a variable never assigned. */
  lemma NotTakenStep(p: Code, b: nat, x: Name, l: Name, d: Data, h: Config)
    requires b + 1 < |p| && x !in d.env && StopsFrom(SimpleCtx(), p, Running(b + 1, p[b + 1], d), h)
    ensures StopsFrom(SimpleCtx(), p, Running(b, [JumpIfNotZero(Var(x), l)], d), h)
  {
    StopsAfter(SimpleCtx(), p, Running(b, [], d), Running(b + 1, p[b + 1], d), h);
    assert [JumpIfNotZero(Var(x), l)][1..] == [];
    StopsAfter(SimpleCtx(), p, Running(b, [JumpIfNotZero(Var(x), l)], d), Running(b, [], d), h);
  }
}
