/** The simulation shared by all passes that rewrite inside blocks and keep the skeleton:
    a pass only has to say what holds between two remainders of one block. */
module LocalSimulation {
  import opened Tacky
  import opened Semantics
  import opened Behaviour
  import opened ControlFlow
  import opened CfgRuns
  import opened Effects

  /** A relation between the two runs inside block `b`: the remainders on both sides and
      their data. */
  type Point = (nat, seq<Instr>, seq<Instr>, Data, Data) -> bool

  /** At the end of a block: every recorded successor may be entered, and if the function
      may exit here both sides exit alike. */
  ghost predicate Leaves(c: Ctx, p: Code, q: Code, pt: Point, b: nat, d: Data, e: Data) {
    && b < |p| && |p| == |q|
    && (forall t: nat :: t < |p| && Block(t) in SuccessorsOf(p, b) ==> pt(t, p[t], q[t], d, e))
    && (Exit in SuccessorsOf(p, b) ==> ExitsAlike(c, d, e))
  }

  ghost predicate ExitsAlike(c: Ctx, d: Data, e: Data) {
    forall o :: Halt(c, o, d) == Halt(c, o, e)
  }

  /** Two terminators that send related data the same way. */
  ghost predicate SteersAlike(c: Ctx, i: Instr, j: Instr, d: Data, e: Data) {
    && SameControl(i, j) && i.Return? == j.Return? && i.Unreachable? == j.Unreachable? && IsJump(i) == IsJump(j)
    && (IsJump(i) ==> i.target == j.target && i.Jump? == j.Jump? && Taken(c, i, d.env) == Taken(c, j, e.env))
    && (i.Return? ==> EvalVal(i.val, d.env) == EvalVal(j.val, e.env))
  }

  /** From a related point: the right side runs an extra instruction, or control leaves the
      block on both sides, or the left instruction is matched by one or by none. */
  ghost predicate LocalStep(c: Ctx, p: Code, q: Code, pt: Point,
                            b: nat, rest: seq<Instr>, rest': seq<Instr>, d: Data, e: Data)
  {
    && d.trace == e.trace
    && (|| (rest' != [] && !EndsBlock(rest'[0]) && pt(b, rest, rest'[1..], d, Exec(c, rest'[0], e)))
        || (if rest == [] then rest' == [] && Leaves(c, p, q, pt, b, d, e)
            else if EndsBlock(rest[0]) then
              |rest'| == 1 && SteersAlike(c, rest[0], rest'[0], d, e) && pt(b, [], [], d, e)
                && Leaves(c, p, q, pt, b, d, e)
            else
              || (rest' != [] && !EndsBlock(rest'[0])
                  && pt(b, rest[1..], rest'[1..], Exec(c, rest[0], d), Exec(c, rest'[0], e)))
              || pt(b, rest[1..], rest', Exec(c, rest[0], d), e)))
  }

  /** `pt` is closed under `LocalStep` wherever runs can stand. */
  ghost predicate LocallyClosed(c: Ctx, p: Code, q: Code, pt: Point) {
    forall b, rest, rest', d, e {:trigger LocalStep(c, p, q, pt, b, rest, rest', d, e)} ::
      pt(b, rest, rest', d, e) && Standing(c, p, b, rest, d) ==> LocalStep(c, p, q, pt, b, rest, rest', d, e)
  }

  ghost predicate Standing(c: Ctx, p: Code, b: nat, rest: seq<Instr>, d: Data) {
    var s := Running(b, rest, d);
    Located(p, s) && ConfigSafe(c, s)
  }

  ghost predicate Setting(c: Ctx, p: Code, q: Code, pt: Point) {
    && Partitioned(p) && UniqueBlockLabels(p) && SameSkeleton(p, q)
    && Confined(c) && CodeConfined(p, c.aliased) && LocallyClosed(c, p, q, pt)
  }

  ghost predicate Related(c: Ctx, p: Code, pt: Point, s: Config, t: Config) {
    if s.Running? then
      Standing(c, p, s.blk, s.rest, s.data) && t.Running? && t.blk == s.blk && pt(s.blk, s.rest, t.rest, s.data, t.data)
    else s == t
  }

  lemma SkeletonLabels(p: Code, q: Code)
    requires UniqueBlockLabels(p) && SameSkeleton(p, q)
    ensures UniqueBlockLabels(q)
  {
    forall a, b, l | 0 <= a < |q| && 0 <= b < |q| && Labelled(q[a], l) && Labelled(q[b], l)
      ensures a == b
    {
      assert Labelled(p[a], l) && Labelled(p[b], l);
    }
  }

  /** Entering a successor on both sides. */
  lemma EnterBoth(c: Ctx, p: Code, q: Code, pt: Point, b: nat, d: Data, e: Data, s: Config)
    requires Setting(c, p, q, pt) && Leaves(c, p, q, pt, b, d, e) && DataSafe(d, c.aliased)
    requires Arrived(p, b, d, s) && s.Running?
    ensures s.blk < |q| && Related(c, p, pt, s, Running(s.blk, q[s.blk], e))
  {
    BlockStart(p, s.blk, d);
    BlockConfined(p, s.blk, c.aliased);
  }

  lemma GotoBoth(c: Ctx, p: Code, q: Code, pt: Point, b: nat, l: Name, d: Data, e: Data)
    requires Setting(c, p, q, pt) && Leaves(c, p, q, pt, b, d, e) && DataSafe(d, c.aliased)
    requires EndingOf(p[b]) == Jumps(l) || EndingOf(p[b]) == Branches(l)
    requires d.trace == e.trace
    ensures Related(c, p, pt, Goto(p, l, d), Goto(q, l, e))
  {
    SkeletonLabels(p, q);
    SkeletonTargets(p, q, l, |p|);
    GotoTarget(p, l, d);
    GotoTarget(q, l, e);
    JumpArrives(p, b, l, d);
    if TargetAmong(p, l, |p|).Some? {
      EnterBoth(c, p, q, pt, b, d, e, Goto(p, l, d));
    }
  }

  lemma FallBoth(c: Ctx, p: Code, q: Code, pt: Point, b: nat, d: Data, e: Data)
    requires Setting(c, p, q, pt) && Leaves(c, p, q, pt, b, d, e) && DataSafe(d, c.aliased)
    requires FallsThrough(p[b])
    ensures Related(c, p, pt, Enter(c, p, b + 1, d), Enter(c, q, b + 1, e))
  {
    FallArrives(c, p, b, d);
    if b + 1 < |p| {
      EnterBoth(c, p, q, pt, b, d, e, Enter(c, p, b + 1, d));
    } else {
      assert ExitsAlike(c, d, e);
    }
  }

  function BothRemaining(s: Config, t: Config): nat {
    Remaining(s) + Remaining(t)
  }

  ghost predicate Matched(c: Ctx, p: Code, q: Code, pt: Point, s: Config, t: Config) {
    var s', t' := Step(c, p, s), Step(c, q, t);
    || Related(c, p, pt, s', t')
    || (Related(c, p, pt, s', t) && BothRemaining(s', t) < BothRemaining(s, t))
    || (Related(c, p, pt, s, t') && BothRemaining(s, t') < BothRemaining(s, t))
  }

  lemma EndMatched(c: Ctx, p: Code, q: Code, pt: Point, b: nat, d: Data, e: Data)
    requires Setting(c, p, q, pt) && Standing(c, p, b, [], d) && Leaves(c, p, q, pt, b, d, e)
    ensures Related(c, p, pt, Step(c, p, Running(b, [], d)), Step(c, q, Running(b, [], e)))
  {
    FallBoth(c, p, q, pt, b, d, e);
    hide *;
    StepAtEnd(c, p, Running(b, [], d));
    StepAtEnd(c, q, Running(b, [], e));
  }

  lemma StandingFacts(c: Ctx, p: Code, q: Code, pt: Point, b: nat, i: Instr, d: Data)
    requires Setting(c, p, q, pt) && Standing(c, p, b, [i], d) && EndsBlock(i)
    ensures b < |p| && DataSafe(d, c.aliased)
    ensures i.Jump? ==> EndingOf(p[b]) == Jumps(i.target)
    ensures i.JumpIfZero? || i.JumpIfNotZero? ==> EndingOf(p[b]) == Branches(i.target) && Standing(c, p, b, [], d)
    ensures ExitsCfg(i) ==> Exit in SuccessorsOf(p, b)
  {
    var s := Running(b, [i], d);
    assert s.rest[0] == i;
    TerminatorEnding(p, s);
    if i.JumpIfZero? || i.JumpIfNotZero? {
      AfterBranch(p, s);
    }
  }

  lemma TerminatorMatched(c: Ctx, p: Code, q: Code, pt: Point, b: nat, i: Instr, j: Instr, d: Data, e: Data)
    requires Setting(c, p, q, pt) && Standing(c, p, b, [i], d) && EndsBlock(i)
    requires SteersAlike(c, i, j, d, e) && pt(b, [], [], d, e) && Leaves(c, p, q, pt, b, d, e) && d.trace == e.trace
    ensures Related(c, p, pt, Step(c, p, Running(b, [i], d)), Step(c, q, Running(b, [j], e)))
  {
    StandingFacts(c, p, q, pt, b, i, d);
    assert [i][1..] == [] && [j][1..] == [];
    if IsJump(i) {
      GotoBoth(c, p, q, pt, b, i.target, d, e);
      hide Setting, Standing, Leaves, Goto;
      RelatedRest(c, p, pt, b, d, e);
    } else {
      assert ExitsAlike(c, d, e);
    }
  }

  lemma RelatedRest(c: Ctx, p: Code, pt: Point, b: nat, d: Data, e: Data)
    ensures Standing(c, p, b, [], d) && pt(b, [], [], d, e) ==> Related(c, p, pt, Running(b, [], d), Running(b, [], e))
  {
  }

  lemma RightRuns(c: Ctx, p: Code, q: Code, pt: Point, s: Config, t: Config)
    requires Related(c, p, pt, s, t) && s.Running?
    requires t.rest != [] && !EndsBlock(t.rest[0]) && pt(s.blk, s.rest, t.rest[1..], s.data, Exec(c, t.rest[0], t.data))
    ensures Matched(c, p, q, pt, s, t)
  {
    assert Step(c, q, t) == Running(t.blk, t.rest[1..], Exec(c, t.rest[0], t.data));
  }

  lemma PlainMatched(c: Ctx, p: Code, q: Code, pt: Point, s: Config, t: Config)
    requires Setting(c, p, q, pt) && Related(c, p, pt, s, t)
    requires s.Running? && s.rest != [] && !EndsBlock(s.rest[0])
    requires || (t.rest != [] && !EndsBlock(t.rest[0])
                 && pt(s.blk, s.rest[1..], t.rest[1..], Exec(c, s.rest[0], s.data), Exec(c, t.rest[0], t.data)))
             || pt(s.blk, s.rest[1..], t.rest, Exec(c, s.rest[0], s.data), t.data)
    ensures Matched(c, p, q, pt, s, t)
  {
    PlainStays(c, p, s);
    StepSafe(c, p, s);
    hide Setting, Exec, Located, ConfigSafe;
    assert Standing(c, p, s.blk, s.rest[1..], Exec(c, s.rest[0], s.data));
  }

  lemma StepMatched(c: Ctx, p: Code, q: Code, pt: Point, s: Config, t: Config)
    requires Setting(c, p, q, pt) && Related(c, p, pt, s, t) && s.Running?
    ensures SameView(s, t) && Matched(c, p, q, pt, s, t)
  {
    var b, rest, rest', d, e := s.blk, s.rest, t.rest, s.data, t.data;
    assert LocalStep(c, p, q, pt, b, rest, rest', d, e);
    if rest' != [] && !EndsBlock(rest'[0]) && pt(b, rest, rest'[1..], d, Exec(c, rest'[0], e)) {
      RightRuns(c, p, q, pt, s, t);
    } else if rest == [] {
      EndMatched(c, p, q, pt, b, d, e);
    } else if EndsBlock(rest[0]) {
      LastInstruction(p, s);
      assert rest == [rest[0]] && rest' == [rest'[0]];
      TerminatorMatched(c, p, q, pt, b, rest[0], rest'[0], d, e);
    } else {
      PlainMatched(c, p, q, pt, s, t);
    }
  }

  /** A pass that is locally closed preserves behaviour. */
  lemma LocalPassPreserves(c: Ctx, p: Code, q: Code, pt: Point, d: Data)
    requires Setting(c, p, q, pt) && DataSafe(d, c.aliased)
    requires p != [] ==> |q| == |p| && pt(0, p[0], q[0], d, d)
    ensures Equivalent(c, p, q, d)
  {
    if p == [] {
      EquivalentReflexive(c, p, d);
      return;
    }
    BlockStart(p, 0, d);
    BlockConfined(p, 0, c.aliased);
    assert Related(c, p, pt, Start(p, d), Start(q, d));
    hide *;
    var rel := (s: Config, t: Config) => Related(c, p, pt, s, t);
    var rank := (s: Config, t: Config) => BothRemaining(s, t);
    forall s, t
      ensures rel(s, t) ==> Diagram(c, p, q, rel, rank, s, t)
    {
      if rel(s, t) {
        RelatedDiagram(c, p, q, pt, rel, rank, s, t);
      }
    }
    Simulation(c, p, q, rel, rank, Start(p, d), Start(q, d));
    SameAsEquivalent(c, p, q, d);
  }

  lemma RelatedDiagram(c: Ctx, p: Code, q: Code, pt: Point, rel: (Config, Config) -> bool,
                       rank: (Config, Config) -> nat, s: Config, t: Config)
    requires Setting(c, p, q, pt) && Related(c, p, pt, s, t)
    requires forall s, t :: rel(s, t) == Related(c, p, pt, s, t)
    requires forall s, t :: rank(s, t) == BothRemaining(s, t)
    ensures Diagram(c, p, q, rel, rank, s, t)
  {
    if s.Running? {
      StepMatched(c, p, q, pt, s, t);
      hide Setting, Related, Step, BothRemaining;
    }
  }

  // ----- corresponding points of the two runs -----

  /** After `n` steps of `p` some number of steps of `q` leads to a related point. */
  ghost predicate LeftTracked(c: Ctx, p: Code, q: Code, pt: Point, d: Data, n: nat) {
    exists m: nat :: Related(c, p, pt, Run(c, p, Start(p, d), n), Run(c, q, Start(q, d), m))
  }

  /** Every point of the run of `p` has a related one in the run of `q`. */
  ghost predicate Tracked(c: Ctx, p: Code, q: Code, pt: Point, d: Data) {
    forall n: nat :: LeftTracked(c, p, q, pt, d, n)
  }

  lemma {:induction false} TrackLeft(c: Ctx, p: Code, q: Code, pt: Point, s: Config, t: Config, n: nat) returns (m: nat)
    requires Setting(c, p, q, pt) && Related(c, p, pt, s, t)
    ensures Related(c, p, pt, Run(c, p, s, n), Run(c, q, t, m))
    decreases n, BothRemaining(s, t)
  {
    hide Setting, Related, Step, BothRemaining;
    if n == 0 {
      m := 0;
    } else if !s.Running? {
      StoppedRelated(c, p, pt, s, t);
      HaltedStays(c, p, s, n);
      m := 0;
    } else {
      StepMatched(c, p, q, pt, s, t);
      var s', t' := Step(c, p, s), Step(c, q, t);
      if Related(c, p, pt, s', t') {
        var k := TrackLeft(c, p, q, pt, s', t', n - 1);
        m := k + 1;
      } else if Related(c, p, pt, s', t) {
        m := TrackLeft(c, p, q, pt, s', t, n - 1);
      } else {
        var k := TrackLeft(c, p, q, pt, s, t', n);
        m := k + 1;
      }
    }
  }

  lemma StoppedRelated(c: Ctx, p: Code, pt: Point, s: Config, t: Config)
    requires Related(c, p, pt, s, t) && !s.Running?
    ensures s == t
  {
  }

  lemma StartRelated(c: Ctx, p: Code, q: Code, pt: Point, d: Data)
    requires Setting(c, p, q, pt) && DataSafe(d, c.aliased)
    requires p != [] && |q| == |p| && pt(0, p[0], q[0], d, d)
    ensures Related(c, p, pt, Start(p, d), Start(q, d))
  {
    BlockStart(p, 0, d);
    BlockConfined(p, 0, c.aliased);
  }

  /** The points of a locally closed pass correspond all along the runs. */
  lemma LocalPassTracks(c: Ctx, p: Code, q: Code, pt: Point, d: Data)
    requires Setting(c, p, q, pt) && DataSafe(d, c.aliased)
    requires p != [] && |q| == |p| && pt(0, p[0], q[0], d, d)
    ensures Tracked(c, p, q, pt, d)
  {
    StartRelated(c, p, q, pt, d);
    hide Setting, Related, Start, Run;
    forall n: nat
      ensures LeftTracked(c, p, q, pt, d, n)
    {
      var m := TrackLeft(c, p, q, pt, Start(p, d), Start(q, d), n);
    }
  }

  // ----- passes that neither delete nor insert -----

  /** Both sides always step together. */
  ghost predicate LockStep(c: Ctx, p: Code, q: Code, pt: Point,
                           b: nat, rest: seq<Instr>, rest': seq<Instr>, d: Data, e: Data)
  {
    && d.trace == e.trace
    && (if rest == [] then rest' == [] && Leaves(c, p, q, pt, b, d, e)
        else if EndsBlock(rest[0]) then
          |rest'| == 1 && SteersAlike(c, rest[0], rest'[0], d, e) && pt(b, [], [], d, e) && Leaves(c, p, q, pt, b, d, e)
        else
          rest' != [] && !EndsBlock(rest'[0])
            && pt(b, rest[1..], rest'[1..], Exec(c, rest[0], d), Exec(c, rest'[0], e)))
  }

  ghost predicate Locked(c: Ctx, p: Code, q: Code, pt: Point) {
    forall b, rest, rest', d, e {:trigger LockStep(c, p, q, pt, b, rest, rest', d, e)} ::
      pt(b, rest, rest', d, e) && Standing(c, p, b, rest, d) ==> LockStep(c, p, q, pt, b, rest, rest', d, e)
  }

  lemma LockedIsClosed(c: Ctx, p: Code, q: Code, pt: Point)
    requires Locked(c, p, q, pt)
    ensures LocallyClosed(c, p, q, pt)
  {
    hide Leaves, SteersAlike, Exec, Standing;
    forall b, rest, rest', d, e | pt(b, rest, rest', d, e) && Standing(c, p, b, rest, d)
      ensures LocalStep(c, p, q, pt, b, rest, rest', d, e)
    {
      assert LockStep(c, p, q, pt, b, rest, rest', d, e);
    }
  }

  lemma StepLocked(c: Ctx, p: Code, q: Code, pt: Point, s: Config, t: Config)
    requires Setting(c, p, q, pt) && Locked(c, p, q, pt) && Related(c, p, pt, s, t)
    ensures Related(c, p, pt, Step(c, p, s), Step(c, q, t))
  {
    if s.Running? {
      var b, rest, rest', d, e := s.blk, s.rest, t.rest, s.data, t.data;
      assert LockStep(c, p, q, pt, b, rest, rest', d, e);
      if rest == [] {
        EndMatched(c, p, q, pt, b, d, e);
      } else if EndsBlock(rest[0]) {
        LastInstruction(p, s);
        assert rest == [rest[0]] && rest' == [rest'[0]];
        TerminatorMatched(c, p, q, pt, b, rest[0], rest'[0], d, e);
      } else {
        PlainStays(c, p, s);
        StepSafe(c, p, s);
        hide Setting, Locked, LockStep, Exec, Located, ConfigSafe;
        assert Standing(c, p, b, rest[1..], Exec(c, rest[0], d));
      }
    }
  }

  lemma {:induction false} RunLocked(c: Ctx, p: Code, q: Code, pt: Point, s: Config, t: Config, n: nat)
    requires Setting(c, p, q, pt) && Locked(c, p, q, pt) && Related(c, p, pt, s, t)
    ensures Related(c, p, pt, Run(c, p, s, n), Run(c, q, t, n))
    decreases n
  {
    hide Setting, Locked, Related, Step;
    if n > 0 {
      StepLocked(c, p, q, pt, s, t);
      RunLocked(c, p, q, pt, Step(c, p, s), Step(c, q, t), n - 1);
    }
  }
}
