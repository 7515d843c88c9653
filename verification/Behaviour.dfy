/** Equality of behaviour, and the simulation principle every pass is proved with. */
module Behaviour {
  import opened Semantics

  /** What a run shows so far: the calls it made and, once it stopped, everything a
      halted configuration keeps. */
  ghost predicate SameView(s: Config, t: Config) {
    if s.Running? && t.Running? then s.data.trace == t.data.trace else s == t
  }

  /** What `p` from `s` shows after `n` steps, `q` from `t` shows after some steps. */
  ghost predicate Shown(c: Ctx, p: Code, s: Config, n: nat, q: Code, t: Config) {
    exists m: nat :: SameView(Run(c, p, s, n), Run(c, q, t, m))
  }

  ghost predicate Covers(c: Ctx, p: Code, s: Config, q: Code, t: Config) {
    forall n: nat :: Shown(c, p, s, n, q, t)
  }

  /** Same calls, same results, same final statics and memory, same divergence. */
  ghost predicate SameBehaviour(c: Ctx, p: Code, s: Config, q: Code, t: Config) {
    Covers(c, p, s, q, t) && Covers(c, q, t, p, s)
  }

  /** Code `p` and code `q` behave alike when started on `d`. */
  ghost predicate Equivalent(c: Ctx, p: Code, q: Code, d: Data) {
    SameBehaviour(c, p, Start(p, d), q, Start(q, d))
  }

  lemma CoversTransitive(c: Ctx, p: Code, s: Config, q: Code, t: Config, r: Code, u: Config)
    requires Covers(c, p, s, q, t) && Covers(c, q, t, r, u)
    ensures Covers(c, p, s, r, u)
  {
    forall n: nat
      ensures Shown(c, p, s, n, r, u)
    {
      assert Shown(c, p, s, n, q, t);
      var m: nat :| SameView(Run(c, p, s, n), Run(c, q, t, m));
      assert Shown(c, q, t, m, r, u);
      var k: nat :| SameView(Run(c, q, t, m), Run(c, r, u, k));
      assert SameView(Run(c, p, s, n), Run(c, r, u, k));
    }
  }

  lemma EquivalentTransitive(c: Ctx, p: Code, q: Code, r: Code, d: Data)
    requires Equivalent(c, p, q, d) && Equivalent(c, q, r, d)
    ensures Equivalent(c, p, r, d)
  {
    CoversTransitive(c, p, Start(p, d), q, Start(q, d), r, Start(r, d));
    CoversTransitive(c, r, Start(r, d), q, Start(q, d), p, Start(p, d));
  }

  lemma EquivalentSymmetric(c: Ctx, p: Code, q: Code, d: Data)
    requires Equivalent(c, p, q, d)
    ensures Equivalent(c, q, p, d)
  {
  }

  lemma EquivalentReflexive(c: Ctx, p: Code, d: Data)
    ensures Equivalent(c, p, p, d)
  {
    var s := Start(p, d);
    forall n: nat
      ensures Shown(c, p, s, n, p, s)
    {
      assert SameView(Run(c, p, s, n), Run(c, p, s, n));
    }
  }

  lemma CoversHalts(c: Ctx, p: Code, s: Config, q: Code, t: Config, n: nat) returns (m: nat)
    requires Covers(c, p, s, q, t) && !Run(c, p, s, n).Running?
    ensures Run(c, q, t, m) == Run(c, p, s, n)
  {
    assert Shown(c, p, s, n, q, t);
    m :| SameView(Run(c, p, s, n), Run(c, q, t, m));
  }

  /** `p` started on `d` stops as `h`. */
  ghost predicate StopsAs(c: Ctx, p: Code, d: Data, h: Config) {
    !h.Running? && exists n: nat :: Run(c, p, Start(p, d), n) == h
  }

  /** Equivalent code stops on exactly the same inputs, with the same final observation,
      so it also diverges on the same inputs. */
  lemma EquivalentStops(c: Ctx, p: Code, q: Code, d: Data, h: Config)
    requires Equivalent(c, p, q, d)
    ensures StopsAs(c, p, d, h) <==> StopsAs(c, q, d, h)
  {
    var s, t := Start(p, d), Start(q, d);
    if StopsAs(c, p, d, h) {
      var n: nat :| Run(c, p, s, n) == h;
      var m := CoversHalts(c, p, s, q, t, n);
    }
    if StopsAs(c, q, d, h) {
      var n: nat :| Run(c, q, t, n) == h;
      var m := CoversHalts(c, q, t, p, s, n);
    }
  }

  /** From a related pair, both sides step, or one side steps alone while `rank` drops. */
  ghost predicate Diagram(c: Ctx, p: Code, q: Code,
                          rel: (Config, Config) -> bool, rank: (Config, Config) -> nat,
                          s: Config, t: Config)
  {
    var s', t' := Step(c, p, s), Step(c, q, t);
    && SameView(s, t)
    && (|| rel(s', t')
        || (rel(s', t) && rank(s', t) < rank(s, t))
        || (rel(s, t') && rank(s, t') < rank(s, t)))
  }

  lemma BothStep(c: Ctx, p: Code, q: Code, rel: (Config, Config) -> bool, rank: (Config, Config) -> nat,
                 s: Config, t: Config)
    requires SameView(s, t) && rel(Step(c, p, s), Step(c, q, t))
    ensures Diagram(c, p, q, rel, rank, s, t)
  {
  }

  lemma LeftSteps(c: Ctx, p: Code, q: Code, rel: (Config, Config) -> bool, rank: (Config, Config) -> nat,
                  s: Config, t: Config)
    requires SameView(s, t) && rel(Step(c, p, s), t) && rank(Step(c, p, s), t) < rank(s, t)
    ensures Diagram(c, p, q, rel, rank, s, t)
  {
  }

  lemma BothStopped(c: Ctx, p: Code, q: Code, rel: (Config, Config) -> bool, rank: (Config, Config) -> nat,
                    s: Config)
    requires !s.Running? && rel(s, s)
    ensures Diagram(c, p, q, rel, rank, s, s)
  {
  }

  /** A rank that counts what remains of the left block. */
  function Remaining(s: Config): nat {
    if s.Running? then |s.rest| else 0
  }

  lemma SimulationForward(c: Ctx, p: Code, q: Code,
                          rel: (Config, Config) -> bool, rank: (Config, Config) -> nat,
                          s: Config, t: Config, n: nat) returns (m: nat)
    requires forall s, t {:trigger Diagram(c, p, q, rel, rank, s, t)} ::
               rel(s, t) ==> Diagram(c, p, q, rel, rank, s, t)
    requires rel(s, t)
    ensures SameView(Run(c, p, s, n), Run(c, q, t, m))
    decreases n, rank(s, t)
  {
    assert Diagram(c, p, q, rel, rank, s, t);
    var s', t' := Step(c, p, s), Step(c, q, t);
    if n == 0 {
      m := 0;
    } else if rel(s', t') {
      m := SimulationForward(c, p, q, rel, rank, s', t', n - 1);
      m := m + 1;
    } else if rel(s', t) && rank(s', t) < rank(s, t) {
      m := SimulationForward(c, p, q, rel, rank, s', t, n - 1);
    } else {
      m := SimulationForward(c, p, q, rel, rank, s, t', n);
      m := m + 1;
    }
  }

  lemma SimulationBackward(c: Ctx, p: Code, q: Code,
                           rel: (Config, Config) -> bool, rank: (Config, Config) -> nat,
                           s: Config, t: Config, m: nat) returns (n: nat)
    requires forall s, t {:trigger Diagram(c, p, q, rel, rank, s, t)} ::
               rel(s, t) ==> Diagram(c, p, q, rel, rank, s, t)
    requires rel(s, t)
    ensures SameView(Run(c, q, t, m), Run(c, p, s, n))
    decreases m, rank(s, t)
  {
    assert Diagram(c, p, q, rel, rank, s, t);
    var s', t' := Step(c, p, s), Step(c, q, t);
    if m == 0 {
      n := 0;
    } else if rel(s', t') {
      n := SimulationBackward(c, p, q, rel, rank, s', t', m - 1);
      n := n + 1;
    } else if rel(s', t) && rank(s', t) < rank(s, t) {
      n := SimulationBackward(c, p, q, rel, rank, s', t, m);
      n := n + 1;
    } else {
      n := SimulationBackward(c, p, q, rel, rank, s, t', m - 1);
    }
  }

  /** A relation closed under `Diagram` makes two programs behave alike. */
  lemma Simulation(c: Ctx, p: Code, q: Code,
                   rel: (Config, Config) -> bool, rank: (Config, Config) -> nat,
                   s: Config, t: Config)
    requires forall s, t {:trigger Diagram(c, p, q, rel, rank, s, t)} ::
               rel(s, t) ==> Diagram(c, p, q, rel, rank, s, t)
    requires rel(s, t)
    ensures SameBehaviour(c, p, s, q, t)
  {
    forall n: nat
      ensures Shown(c, p, s, n, q, t)
    {
      var m := SimulationForward(c, p, q, rel, rank, s, t, n);
    }
    forall m: nat
      ensures Shown(c, q, t, m, p, s)
    {
      var n := SimulationBackward(c, p, q, rel, rank, s, t, m);
    }
  }

  lemma SameAsEquivalent(c: Ctx, p: Code, q: Code, d: Data)
    requires SameBehaviour(c, p, Start(p, d), q, Start(q, d))
    ensures Equivalent(c, p, q, d)
  {
  }
}
