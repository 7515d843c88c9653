/** Jump threading: a jump to a label that only leads to another jump goes there directly. */
module JumpThreading {
  import opened Tacky
  import opened Semantics
  import opened Behaviour
  import opened CfgRuns

  /** The jump that follows the labels at the head of `rest`, if there is one. */
  function Ahead(rest: seq<Instr>): Option<Name> {
    if rest == [] then None
    else match rest[0]
      case Label(_) => Ahead(rest[1..])
      case Jump(l) => Some(l)
      case _ => None
  }

  function LabelsAhead(rest: seq<Instr>): (n: nat)
    ensures n <= |rest|
  {
    if rest == [] || !rest[0].Label? then 0 else 1 + LabelsAhead(rest[1..])
  }

  predicate IsDefined(body: seq<Instr>, l: Name) {
    Label(l) in body
  }

  lemma LabelFound(body: seq<Instr>, l: Name)
    ensures IsDefined(body, l) <==> LabelIndex(body, l) < |body|
  {
  }

  /** Where the code after label `l` jumps to at once, if it does. */
  function NextJump(body: seq<Instr>, l: Name): Option<Name>
    requires IsDefined(body, l)
  {
    LabelFound(body, l);
    Ahead(body[LabelIndex(body, l) + 1..])
  }

  function Labels(body: seq<Instr>): set<Name> {
    set k | 0 <= k < |body| && body[k].Label? :: body[k].name
  }

  /** `resolve_jump_target`, with the labels visited so far. */
  function Resolve(body: seq<Instr>, l: Name, visited: set<Name>): Option<Name>
    decreases Labels(body) - visited
  {
    if l in visited || !IsDefined(body, l) then None
    else
      assert l in Labels(body) - visited;
      match NextJump(body, l)
      case None => Some(l)
      case Some(next) => Resolve(body, next, visited + {l})
  }

  /** The inner loop of `resolve_jump_target`: step over a run of labels. */
  method SkipLabels(body: seq<Instr>, at: nat) returns (next: nat)
    requires at <= |body|
    ensures at <= next <= |body|
    ensures Ahead(body[at..]) == if next < |body| && body[next].Jump? then Some(body[next].target) else None
  {
    next := at;
    while next < |body| && body[next].Label?
      invariant at <= next <= |body|
      invariant Ahead(body[next..]) == Ahead(body[at..])
    {
      assert body[next..][0] == body[next] && body[next..][1..] == body[next + 1..];
      next := next + 1;
    }
    if next < |body| {
      assert body[next..][0] == body[next];
    }
  }

  /** The loop of `resolve_jump_target`. */
  method ResolveJumpTarget(body: seq<Instr>, target: Name) returns (resolved: Option<Name>)
    ensures resolved == Resolve(body, target, {})
  {
    hide Ahead, LabelIndex;
    var visited: set<Name> := {};
    var current := target;
    while true
      invariant Resolve(body, current, visited) == Resolve(body, target, {})
      decreases Labels(body) - visited
    {
      if current in visited || !IsDefined(body, current) {
        return None;
      }
      assert current in Labels(body) - visited;
      LabelFound(body, current);
      var next := SkipLabels(body, LabelIndex(body, current) + 1);
      if next == |body| || !body[next].Jump? {
        return Some(current);
      }
      visited := visited + {current};
      current := body[next].target;
    }
  }

  function WithTarget(i: Instr, l: Name): Instr
    requires IsJump(i)
  {
    match i
    case Jump(_) => Jump(l)
    case JumpIfZero(v, _) => JumpIfZero(v, l)
    case JumpIfNotZero(v, _) => JumpIfNotZero(v, l)
  }

  function ThreadedInstr(body: seq<Instr>, i: Instr): Instr {
    if !IsJump(i) then i
    else match Resolve(body, i.target, {})
      case None => i
      case Some(l) => WithTarget(i, l)
  }

  /** `thread_jump_chains` */
  function Threaded(body: seq<Instr>): (r: seq<Instr>)
    ensures |r| == |body|
  {
    seq(|body|, k requires 0 <= k < |body| => ThreadedInstr(body, body[k]))
  }

  // ----- what resolution means: the end of a chain of jumps, and never a cycle -----

  /** `n` jumps lead from label `l` to label `end`. */
  predicate Hops(body: seq<Instr>, l: Name, end: Name, n: nat)
    decreases n
  {
    IsDefined(body, l) &&
    if n == 0 then l == end
    else NextJump(body, l).Some? && Hops(body, NextJump(body, l).value, end, n - 1)
  }

  /** Control does not jump on from `l`. */
  predicate Final(body: seq<Instr>, l: Name) {
    IsDefined(body, l) && NextJump(body, l).None?
  }

  lemma {:induction false} HopsUnique(body: seq<Instr>, l: Name, end: Name, n: nat, m: nat)
    requires Hops(body, l, end, n) && Hops(body, l, end, m) && Final(body, end)
    ensures n == m
    decreases n
  {
    if n > 0 && m > 0 {
      HopsUnique(body, NextJump(body, l).value, end, n - 1, m - 1);
    }
  }

  lemma {:induction false} ResolveFollows(body: seq<Instr>, l: Name, visited: set<Name>)
    ensures Resolve(body, l, visited).Some? ==>
      exists n: nat :: Hops(body, l, Resolve(body, l, visited).value, n) && Final(body, Resolve(body, l, visited).value)
    decreases Labels(body) - visited
  {
    if l !in visited && IsDefined(body, l) {
      assert l in Labels(body) - visited;
      match NextJump(body, l)
      case None => assert Hops(body, l, l, 0);
      case Some(next) =>
        ResolveFollows(body, next, visited + {l});
        var r := Resolve(body, next, visited + {l});
        if r.Some? {
          var n: nat :| Hops(body, next, r.value, n);
          assert Hops(body, l, r.value, n + 1);
        }
    }
  }

  /** `v` is on the chain to `end`, more than `n` jumps before it. */
  ghost predicate Before(body: seq<Instr>, v: Name, end: Name, n: int) {
    exists m: nat :: m > n && Hops(body, v, end, m)
  }

  lemma {:induction false} ChainResolves(body: seq<Instr>, l: Name, end: Name, n: nat, visited: set<Name>)
    requires Hops(body, l, end, n) && Final(body, end)
    requires forall v :: v in visited ==> Before(body, v, end, n)
    ensures Resolve(body, l, visited) == Some(end)
    decreases n
  {
    if l in visited {
      var m: nat :| m > n && Hops(body, l, end, m);
      HopsUnique(body, l, end, n, m);
    } else if n > 0 {
      forall v | v in visited + {l}
        ensures Before(body, v, end, n - 1)
      {
        if v == l {
          assert Hops(body, l, end, n);
        } else {
          assert Before(body, v, end, n);
        }
      }
      assert l in Labels(body) - visited;
      ChainResolves(body, NextJump(body, l).value, end, n - 1, visited + {l});
    } else {
      assert l in Labels(body) - visited;
    }
  }

  /** The chain of jumps from `l` ends at `end`. */
  ghost predicate ChainEndsAt(body: seq<Instr>, l: Name, end: Name) {
    Final(body, end) && exists n: nat :: Hops(body, l, end, n)
  }

  /** A label resolves exactly when its chain of jumps ends, and then to the end of the
      chain; jump cycles and chains into undefined labels are left alone. */
  lemma ResolvesIffChainEnds(body: seq<Instr>, l: Name, end: Name)
    ensures Resolve(body, l, {}) == Some(end) <==> ChainEndsAt(body, l, end)
  {
    ResolveFollows(body, l, {});
    if ChainEndsAt(body, l, end) {
      var n: nat :| Hops(body, l, end, n);
      ChainResolves(body, l, end, n, {});
    }
  }

  /** One jump further along the chain resolves to the same end. */
  lemma ResolveNext(body: seq<Instr>, l: Name)
    requires Resolve(body, l, {}).Some? && NextJump(body, l).Some?
    ensures Resolve(body, NextJump(body, l).value, {}) == Resolve(body, l, {})
  {
    var end, next := Resolve(body, l, {}).value, NextJump(body, l).value;
    ResolvesIffChainEnds(body, l, end);
    var n: nat :| Hops(body, l, end, n);
    assert n > 0 && Hops(body, next, end, n - 1);
    ResolvesIffChainEnds(body, next, end);
  }

  /** How many jumps a resolving label is away from the end of its chain. */
  ghost function Distance(body: seq<Instr>, l: Name): (n: nat)
    requires Resolve(body, l, {}).Some?
    ensures Hops(body, l, Resolve(body, l, {}).value, n)
  {
    ResolvesIffChainEnds(body, l, Resolve(body, l, {}).value);
    var n: nat :| Hops(body, l, Resolve(body, l, {}).value, n);
    n
  }

  lemma DistanceNext(body: seq<Instr>, l: Name)
    requires Resolve(body, l, {}).Some? && NextJump(body, l).Some?
    ensures Resolve(body, NextJump(body, l).value, {}).Some?
    ensures Distance(body, NextJump(body, l).value) + 1 == Distance(body, l)
  {
    var end, next := Resolve(body, l, {}).value, NextJump(body, l).value;
    ResolveNext(body, l);
    ResolvesIffChainEnds(body, l, end);
    assert Hops(body, l, end, Distance(body, next) + 1);
    HopsUnique(body, l, end, Distance(body, l), Distance(body, next) + 1);
  }

  // ----- threading keeps labels where they are -----

  lemma {:induction false} SameLabelIndex(p: seq<Instr>, q: seq<Instr>, l: Name)
    requires |p| == |q| && forall k :: 0 <= k < |p| ==> (p[k] == Label(l) <==> q[k] == Label(l))
    ensures LabelIndex(p, l) == LabelIndex(q, l)
  {
    if p != [] {
      assert p[0] == Label(l) <==> q[0] == Label(l);
      SameLabelIndex(p[1..], q[1..], l);
    }
  }

  lemma ThreadedLabels(body: seq<Instr>, l: Name)
    ensures LabelIndex(Threaded(body), l) == LabelIndex(body, l)
    ensures IsDefined(Threaded(body), l) <==> IsDefined(body, l)
  {
    SameLabelIndex(body, Threaded(body), l);
    LabelFound(body, l);
    LabelFound(Threaded(body), l);
  }

  // ----- the simulation -----

  /** Both sides stand at the same position. */
  predicate InStep(body: seq<Instr>, rest: seq<Instr>, rest': seq<Instr>) {
    |rest| == |rest'| && IsSuffix(rest, body) && IsSuffix(rest', Threaded(body))
  }

  /** The left side still walks the chain at whose end the right side already stands. */
  predicate Walking(body: seq<Instr>, rest: seq<Instr>, rest': seq<Instr>) {
    Ahead(rest).Some? &&
    var end := Resolve(body, Ahead(rest).value, {});
    end.Some? && rest' == Threaded(body)[LabelIndex(body, end.value)..]
  }

  ghost predicate ThreadRelated(body: seq<Instr>, s: Config, t: Config) {
    if s.Running? then
      && s.blk == 0 && t.Running? && t.blk == 0 && t.data == s.data
      && (InStep(body, s.rest, t.rest) || Walking(body, s.rest, t.rest))
    else s == t
  }

  ghost function WalkLeft(body: seq<Instr>, rest: seq<Instr>): nat {
    if Ahead(rest).Some? && Resolve(body, Ahead(rest).value, {}).Some?
    then Distance(body, Ahead(rest).value) * (|body| + 1) + LabelsAhead(rest) + 1
    else 0
  }

  lemma OnlyBody(body: seq<Instr>, l: Name, d: Data)
    ensures Goto([body], l, d) == if IsDefined(body, l) then Running(0, body[LabelIndex(body, l)..], d)
      else Trapped(d.trace)
  {
    OnlyBlock(body, l);
    assert [body][0] == body;
  }

  lemma AtFinalLabel(body: seq<Instr>, l: Name)
    requires Final(body, l)
    ensures InStep(body, body[LabelIndex(body, l)..], Threaded(body)[LabelIndex(body, l)..])
  {
    LabelFound(body, l);
  }

  lemma Fits(a: nat, n: nat, x: nat)
    requires x <= n
    ensures a * n + x <= (a + 1) * n
  {
    assert (a + 1) * n == a * n + n;
  }

  lemma AheadOfLabel(body: seq<Instr>, l: Name)
    requires IsDefined(body, l)
    ensures LabelIndex(body, l) < |body| && Ahead(body[LabelIndex(body, l)..]) == NextJump(body, l)
  {
    LabelFound(body, l);
    var rest := body[LabelIndex(body, l)..];
    assert rest[0] == Label(l) && rest[1..] == body[LabelIndex(body, l) + 1..];
  }

  /** The chain that is left from `rest` on is shorter than from a label one jump earlier. */
  lemma WalkBound(body: seq<Instr>, rest: seq<Instr>, l: Name)
    requires |rest| <= |body| && IsDefined(body, l) && Resolve(body, l, {}).Some?
    requires Ahead(rest).Some? && Ahead(rest) == NextJump(body, l)
    ensures Resolve(body, Ahead(rest).value, {}) == Resolve(body, l, {})
    ensures WalkLeft(body, rest) <= Distance(body, l) * (|body| + 1)
  {
    ResolveNext(body, l);
    DistanceNext(body, l);
    LabelsBeforeJump(rest);
    hide Ahead, Resolve, NextJump, LabelsAhead;
    Fits(Distance(body, Ahead(rest).value), |body| + 1, LabelsAhead(rest) + 1);
  }

  /** From the start of a label whose chain goes on, the left side walks, with less of the
      chain in front of it. */
  lemma AtPassedLabel(body: seq<Instr>, l: Name)
    requires IsDefined(body, l) && NextJump(body, l).Some? && Resolve(body, l, {}).Some?
    ensures var rest, rest' := body[LabelIndex(body, l)..],
      Threaded(body)[LabelIndex(body, Resolve(body, l, {}).value)..];
      Walking(body, rest, rest') && WalkLeft(body, rest) <= Distance(body, l) * (|body| + 1)
  {
    AheadOfLabel(body, l);
    hide Ahead, Resolve, NextJump, WalkLeft;
    WalkBound(body, body[LabelIndex(body, l)..], l);
  }

  lemma {:induction false} LabelsBeforeJump(rest: seq<Instr>)
    requires Ahead(rest).Some?
    ensures LabelsAhead(rest) < |rest|
  {
    if rest[0].Label? {
      LabelsBeforeJump(rest[1..]);
    }
  }

  lemma WalkStep(c: Ctx, body: seq<Instr>, s: Config, t: Config)
    requires s.Running? && ThreadRelated(body, s, t) && Walking(body, s.rest, t.rest)
    ensures var s' := Step(c, [body], s);
      ThreadRelated(body, s', t) && s'.Running? && WalkLeft(body, s'.rest) < WalkLeft(body, s.rest)
  {
    if s.rest[0].Jump? {
      WalkOverJump(body, s.rest, t.rest, s.data);
    } else {
      assert Ahead(s.rest[1..]) == Ahead(s.rest);
    }
  }

  lemma WalkOverJump(body: seq<Instr>, rest: seq<Instr>, rest': seq<Instr>, d: Data)
    requires Walking(body, rest, rest') && rest[0].Jump?
    ensures var s' := Goto([body], rest[0].target, d);
      ThreadRelated(body, s', Running(0, rest', d)) && s'.Running? && WalkLeft(body, s'.rest) < WalkLeft(body, rest)
  {
    var l := rest[0].target;
    ResolvesIffChainEnds(body, l, Resolve(body, l, {}).value);
    JumpAhead(body, rest);
    hide Ahead, NextJump, WalkLeft, LabelIndex, Goto, Resolve, LabelsAhead;
    OnlyBody(body, l, d);
    if NextJump(body, l).None? {
      AtFinalLabel(body, l);
      StandsStill(body, l);
    } else {
      AtPassedLabel(body, l);
    }
  }

  lemma JumpAhead(body: seq<Instr>, rest: seq<Instr>)
    requires rest != [] && rest[0].Jump? && Resolve(body, rest[0].target, {}).Some?
    ensures Ahead(rest) == Some(rest[0].target)
    ensures WalkLeft(body, rest) == Distance(body, rest[0].target) * (|body| + 1) + 1
  {
    assert LabelsAhead(rest) == 0;
  }

  /** Where control does not jump on, nothing is left to walk. */
  lemma StandsStill(body: seq<Instr>, l: Name)
    requires Final(body, l)
    ensures WalkLeft(body, body[LabelIndex(body, l)..]) == 0
    ensures Resolve(body, l, {}) == Some(l)
  {
    LabelFound(body, l);
    assert body[LabelIndex(body, l)..][1..] == body[LabelIndex(body, l) + 1..];
    assert Hops(body, l, l, 0);
    ResolvesIffChainEnds(body, l, l);
  }

  lemma JumpStep(c: Ctx, body: seq<Instr>, l: Name, d: Data)
    ensures var r := Resolve(body, l, {});
      ThreadRelated(body, Goto([body], l, d), Goto([Threaded(body)], if r.Some? then r.value else l, d))
  {
    var th := Threaded(body);
    var r := Resolve(body, l, {});
    OnlyBody(body, l, d);
    LabelFound(body, l);
    if r.Some? {
      ResolvesIffChainEnds(body, l, r.value);
      ThreadedLabels(body, r.value);
      OnlyBody(th, r.value, d);
      if NextJump(body, l).None? {
        AtFinalLabel(body, l);
        StandsStill(body, l);
      } else {
        AtPassedLabel(body, l);
      }
    } else {
      ThreadedLabels(body, l);
      OnlyBody(th, l, d);
    }
  }

  lemma InStepRelated(body: seq<Instr>, rest: seq<Instr>, rest': seq<Instr>, d: Data)
    requires InStep(body, rest, rest')
    ensures ThreadRelated(body, Running(0, rest, d), Running(0, rest', d))
  {
  }

  lemma StoppedRelated(body: seq<Instr>, s: Config)
    requires !s.Running?
    ensures ThreadRelated(body, s, s)
  {
  }

  lemma InStepJump(c: Ctx, body: seq<Instr>, rest: seq<Instr>, rest': seq<Instr>, d: Data)
    requires InStep(body, rest, rest') && rest != [] && IsJump(rest[0])
    ensures ThreadRelated(body, Step(c, [body], Running(0, rest, d)), Step(c, [Threaded(body)], Running(0, rest', d)))
  {
    hide InStep, ThreadRelated, Goto, Threaded, Resolve, Exec, EvalVal, Taken, ThreadedInstr;
    InStepNext(body, rest, rest');
    ThreadedJump(c, body, rest[0], d.env);
    JumpStep(c, body, rest[0].target, d);
    InStepRelated(body, rest[1..], rest'[1..], d);
  }

  lemma InStepOther(c: Ctx, body: seq<Instr>, rest: seq<Instr>, rest': seq<Instr>, d: Data)
    requires InStep(body, rest, rest') && rest != [] && !IsJump(rest[0])
    ensures ThreadRelated(body, Step(c, [body], Running(0, rest, d)), Step(c, [Threaded(body)], Running(0, rest', d)))
  {
    InStepNext(body, rest, rest');
    NotAJump(body, rest[0]);
    hide InStep, ThreadRelated, Goto, Threaded, Resolve, Exec, EvalVal, ThreadedInstr;
    var i := rest[0];
    if ExitsCfg(i) {
      StoppedRelated(body, Step(c, [body], Running(0, rest, d)));
    } else {
      InStepRelated(body, rest[1..], rest'[1..], Exec(c, i, d));
    }
  }

  lemma InStepStep(c: Ctx, body: seq<Instr>, s: Config, t: Config)
    requires s.Running? && ThreadRelated(body, s, t) && InStep(body, s.rest, t.rest)
    ensures ThreadRelated(body, Step(c, [body], s), Step(c, [Threaded(body)], t))
  {
    assert s == Running(0, s.rest, s.data) && t == Running(0, t.rest, s.data);
    if s.rest != [] {
      hide ThreadRelated, InStep, Step;
      if IsJump(s.rest[0]) {
        InStepJump(c, body, s.rest, t.rest, s.data);
      } else {
        InStepOther(c, body, s.rest, t.rest, s.data);
      }
    }
  }

  lemma InStepNext(body: seq<Instr>, rest: seq<Instr>, rest': seq<Instr>)
    requires InStep(body, rest, rest') && rest != []
    ensures rest' != [] && rest'[0] == ThreadedInstr(body, rest[0]) && InStep(body, rest[1..], rest'[1..])
  {
    assert rest[0] == body[|body| - |rest|] && rest'[0] == Threaded(body)[|body| - |rest|];
  }

  lemma NotAJump(body: seq<Instr>, i: Instr)
    requires !IsJump(i)
    ensures ThreadedInstr(body, i) == i
  {
  }

  lemma ThreadedJump(c: Ctx, body: seq<Instr>, i: Instr, env: Env)
    requires IsJump(i)
    ensures var j, r := ThreadedInstr(body, i), Resolve(body, i.target, {});
      IsJump(j) && j.target == (if r.Some? then r.value else i.target) && Taken(c, j, env) == Taken(c, i, env)
  {
  }

  /** Threading preserves behaviour, for every body and every machine. */
  lemma ThreadingPreserves(c: Ctx, body: seq<Instr>, d: Data)
    ensures Equivalent(c, [body], [Threaded(body)], d)
  {
    var p, q := [body], [Threaded(body)];
    var rel := (s: Config, t: Config) => ThreadRelated(body, s, t);
    var rank := (s: Config, t: Config) => if s.Running? then WalkLeft(body, s.rest) else 0;
    assert rel(Start(p, d), Start(q, d));
    forall s, t
      ensures rel(s, t) ==> Diagram(c, p, q, rel, rank, s, t)
    {
      if rel(s, t) {
        if !s.Running? {
          BothStopped(c, p, q, rel, rank, s);
        } else if InStep(body, s.rest, t.rest) {
          InStepStep(c, body, s, t);
          hide ThreadRelated, InStep, Step, WalkLeft;
          BothStep(c, p, q, rel, rank, s, t);
        } else {
          WalkStep(c, body, s, t);
          hide ThreadRelated, InStep, Step, WalkLeft;
          LeftSteps(c, p, q, rel, rank, s, t);
        }
      }
    }
    Simulation(c, p, q, rel, rank, Start(p, d), Start(q, d));
    SameAsEquivalent(c, p, q, d);
  }

  // ----- threading once is enough -----

  lemma {:induction false} ThreadedAhead(body: seq<Instr>, rest: seq<Instr>, rest': seq<Instr>)
    requires |rest| == |rest'| && forall k :: 0 <= k < |rest| ==> rest'[k] == ThreadedInstr(body, rest[k])
    ensures Ahead(rest').Some? == Ahead(rest).Some?
    ensures Ahead(rest).Some? ==>
      var r := Resolve(body, Ahead(rest).value, {}); Ahead(rest').value == if r.Some? then r.value
        else Ahead(rest).value
  {
    if rest != [] && rest[0].Label? {
      ThreadedAhead(body, rest[1..], rest'[1..]);
    }
  }

  lemma ThreadedNext(body: seq<Instr>, l: Name)
    requires IsDefined(body, l)
    ensures IsDefined(Threaded(body), l) && NextJump(Threaded(body), l).Some? == NextJump(body, l).Some?
    ensures NextJump(body, l).Some? ==>
      var next := NextJump(body, l).value;
      var r := Resolve(body, next, {});
      NextJump(Threaded(body), l).value == if r.Some? then r.value else next
  {
    ThreadedLabels(body, l);
    LabelFound(body, l);
    var k := LabelIndex(body, l) + 1;
    ThreadedAhead(body, body[k..], Threaded(body)[k..]);
  }

  lemma {:induction false} UnresolvedStays(body: seq<Instr>, l: Name, end: Name, n: nat)
    requires Hops(Threaded(body), l, end, n) && Final(Threaded(body), end)
    ensures Resolve(body, l, {}).Some?
    decreases n
  {
    hide Threaded, Resolve, NextJump, LabelIndex;
    if n == 0 {
      FinalResolves(body, l);
    } else {
      OneHop(body, l);
      var next := NextJump(body, l).value;
      if Resolve(body, next, {}).None? {
        UnresolvedStays(body, next, end, n - 1);
      }
      ResolveOneBack(body, l);
    }
  }

  /** What is final after threading was final before. */
  lemma FinalResolves(body: seq<Instr>, l: Name)
    requires Final(Threaded(body), l)
    ensures Resolve(body, l, {}).Some?
  {
    ThreadedLabels(body, l);
    ThreadedNext(body, l);
    hide Threaded, Resolve, NextJump, LabelIndex;
    StandsStill(body, l);
  }

  /** A jump of the threaded body comes from a jump of the body itself. */
  lemma OneHop(body: seq<Instr>, l: Name)
    requires IsDefined(Threaded(body), l) && NextJump(Threaded(body), l).Some?
    ensures IsDefined(body, l) && NextJump(body, l).Some?
    ensures Resolve(body, NextJump(body, l).value, {}).None? ==> NextJump(Threaded(body), l) == NextJump(body, l)
  {
    ThreadedLabels(body, l);
    ThreadedNext(body, l);
  }

  lemma ResolveOneBack(body: seq<Instr>, l: Name)
    requires IsDefined(body, l) && NextJump(body, l).Some? && Resolve(body, NextJump(body, l).value, {}).Some?
    ensures Resolve(body, l, {}).Some?
  {
    var next := NextJump(body, l).value;
    var end := Resolve(body, next, {}).value;
    ResolvesIffChainEnds(body, next, end);
    var n: nat :| Hops(body, next, end, n);
    assert Hops(body, l, end, n + 1);
    ResolvesIffChainEnds(body, l, end);
  }

  /** A second threading finds every jump already at the end of its chain. */
  lemma ThreadedJumpStays(body: seq<Instr>, i: Instr)
    requires IsJump(i)
    ensures ThreadedInstr(Threaded(body), ThreadedInstr(body, i)) == ThreadedInstr(body, i)
  {
    var th := Threaded(body);
    match Resolve(body, i.target, {})
    case Some(end) =>
      ResolvesIffChainEnds(body, i.target, end);
      ThreadedNext(body, end);
      StandsStill(th, end);
    case None =>
      var r := Resolve(th, i.target, {});
      if r.Some? {
        ResolvesIffChainEnds(th, i.target, r.value);
        var n: nat :| Hops(th, i.target, r.value, n);
        UnresolvedStays(body, i.target, r.value, n);
      }
  }

  /** Threading is idempotent. */
  lemma ThreadingIdempotent(body: seq<Instr>)
    ensures Threaded(Threaded(body)) == Threaded(body)
  {
    var th := Threaded(body);
    forall k | 0 <= k < |body|
      ensures Threaded(th)[k] == th[k]
    {
      if IsJump(body[k]) {
        ThreadedJumpStays(body, body[k]);
      }
    }
  }

  // ----- chains of jumps, told by positions in the body -----

  /** The first place where the label stands. */
  ghost predicate FirstAt(body: seq<Instr>, l: Name, p: nat) {
    p < |body| && body[p] == Label(l) && forall r :: 0 <= r < p ==> body[r] != Label(l)
  }

  ghost predicate OnlyLabels(body: seq<Instr>, p: nat, q: nat) {
    p < q <= |body| && forall r :: p <= r < q ==> body[r].Label?
  }

  /** Behind the label, and labels that follow it, stands a jump to another. */
  ghost predicate LeadsOn(body: seq<Instr>, l: Name, next: Name) {
    exists p: nat, q: nat :: FirstAt(body, l, p) && OnlyLabels(body, p, q) && q < |body| && body[q] == Jump(next)
  }

  /** Behind the label, and labels that follow it, stands something else, or nothing. */
  ghost predicate Rests(body: seq<Instr>, l: Name) {
    exists p: nat, q: nat :: FirstAt(body, l, p) && OnlyLabels(body, p, q)
      && (q < |body| ==> !body[q].Label? && !body[q].Jump?)
  }

  /** A chain of jumps: each label leads on to the next, and the last rests. */
  ghost predicate Chain(body: seq<Instr>, labels: seq<Name>) {
    && labels != [] && Rests(body, labels[|labels| - 1])
    && forall k :: 0 < k < |labels| ==> LeadsOn(body, labels[k - 1], labels[k])
  }

  /** A jump whose chain ends goes to the end of it; everything else stays. */
  ghost predicate RightlyThreaded(body: seq<Instr>, i: Instr, j: Instr) {
    if !IsJump(i) then j == i
    else
      && (i.Jump? <==> j.Jump?) && (i.JumpIfZero? <==> j.JumpIfZero?) && IsJump(j)
      && (!i.Jump? ==> j.cond == i.cond)
      && (forall labels :: Chain(body, labels) && labels[0] == i.target ==> j.target == labels[|labels| - 1])
      && (j.target != i.target ==>
            exists labels :: Chain(body, labels) && labels[0] == i.target && labels[|labels| - 1] == j.target)
  }

  lemma {:induction false} AheadShown(rest: seq<Instr>)
    ensures var n := LabelsAhead(rest);
      && (forall r :: 0 <= r < n ==> rest[r].Label?) && (n < |rest| ==> !rest[n].Label?)
      && Ahead(rest) == if n < |rest| && rest[n].Jump? then Some(rest[n].target) else None
  {
    if rest != [] && rest[0].Label? {
      AheadShown(rest[1..]);
      assert forall r :: 0 < r < |rest| ==> rest[r] == rest[1..][r - 1];
    }
  }

  /** The run of labels from a label ends in one place. */
  lemma RunEnds(body: seq<Instr>, l: Name) returns (p: nat, q: nat)
    requires IsDefined(body, l)
    ensures FirstAt(body, l, p) && OnlyLabels(body, p, q) && (q < |body| ==> !body[q].Label?)
    ensures NextJump(body, l) == if q < |body| && body[q].Jump? then Some(body[q].target) else None
    ensures forall p': nat, q': nat ::
      FirstAt(body, l, p') && OnlyLabels(body, p', q') && (q' < |body| ==> !body[q'].Label?) ==>
      p' == p && q' == q
  {
    LabelFound(body, l);
    p := LabelIndex(body, l);
    var rest := body[p + 1..];
    AheadShown(rest);
    q := p + 1 + LabelsAhead(rest);
    assert forall r :: p < r < |body| ==> body[r] == rest[r - p - 1];
  }

  lemma LeadsOnIsNext(body: seq<Instr>, l: Name, next: Name)
    ensures LeadsOn(body, l, next) <==> IsDefined(body, l) && NextJump(body, l) == Some(next)
    ensures Rests(body, l) <==> Final(body, l)
  {
    hide NextJump;
    if IsDefined(body, l) {
      var p, q := RunEnds(body, l);
    }
  }

  lemma {:induction false} ChainIsHops(body: seq<Instr>, labels: seq<Name>)
    requires Chain(body, labels)
    ensures ChainEndsAt(body, labels[0], labels[|labels| - 1])
  {
    hide LeadsOn, Rests;
    if |labels| == 1 {
      LeadsOnIsNext(body, labels[0], labels[0]);
      assert Hops(body, labels[0], labels[0], 0);
    } else {
      var rest := labels[1..];
      forall k | 0 < k < |rest|
        ensures LeadsOn(body, rest[k - 1], rest[k])
      {
        assert LeadsOn(body, labels[k], labels[k + 1]);
      }
      ChainIsHops(body, rest);
      LeadsOnIsNext(body, labels[0], labels[1]);
      var n: nat :| Hops(body, rest[0], labels[|labels| - 1], n);
      assert Hops(body, labels[0], labels[|labels| - 1], n + 1);
    }
  }

  lemma {:induction false} HopsAreChain(body: seq<Instr>, l: Name, end: Name, n: nat) returns (labels: seq<Name>)
    requires Hops(body, l, end, n) && Final(body, end)
    ensures Chain(body, labels) && labels[0] == l && labels[|labels| - 1] == end
    decreases n
  {
    hide LeadsOn, Rests;
    if n == 0 {
      LeadsOnIsNext(body, l, l);
      labels := [l];
    } else {
      var next := NextJump(body, l).value;
      var rest := HopsAreChain(body, next, end, n - 1);
      LeadsOnIsNext(body, l, next);
      labels := [l] + rest;
      forall k | 0 < k < |labels|
        ensures LeadsOn(body, labels[k - 1], labels[k])
      {
        assert labels[k] == rest[k - 1] && (k > 1 ==> labels[k - 1] == rest[k - 2]);
      }
    }
  }

  lemma ThreadedRightly(body: seq<Instr>, i: Instr)
    ensures RightlyThreaded(body, i, ThreadedInstr(body, i))
  {
    hide Resolve, LeadsOn, Rests, Hops, Final;
    if IsJump(i) {
      var r := Resolve(body, i.target, {});
      forall labels | Chain(body, labels) && labels[0] == i.target
        ensures r == Some(labels[|labels| - 1])
      {
        ChainIsHops(body, labels);
        ResolvesIffChainEnds(body, i.target, labels[|labels| - 1]);
      }
      if r.Some? {
        ResolvesIffChainEnds(body, i.target, r.value);
        var n: nat :| Hops(body, i.target, r.value, n);
        var labels := HopsAreChain(body, i.target, r.value, n);
      }
    }
  }

  /** `resolved_jump_targets` */
  method ResolvedJumpTargets(body: seq<Instr>) returns (resolved: map<Name, Name>)
    ensures IsResolvedMap(body, resolved)
  {
    resolved := map[];
    var left := Labels(body);
    while left != {}
      invariant left <= Labels(body)
      invariant forall l :: l in resolved <==> l in Labels(body) - left && Resolve(body, l, {}).Some?
      invariant forall l :: l in resolved ==> Resolve(body, l, {}) == Some(resolved[l])
      decreases left
    {
      var l :| l in left;
      var target := ResolveJumpTarget(body, l);
      if target.Some? {
        resolved := resolved[l := target.value];
      }
      left := left - {l};
    }
  }

  ghost predicate IsResolvedMap(body: seq<Instr>, resolved: map<Name, Name>) {
    && (forall l :: l in resolved <==> l in Labels(body) && Resolve(body, l, {}).Some?)
    && (forall l :: l in resolved ==> Resolve(body, l, {}) == Some(resolved[l]))
  }

  lemma LookupThreads(body: seq<Instr>, resolved: map<Name, Name>, i: Instr)
    requires IsResolvedMap(body, resolved)
    ensures ThreadedInstr(body, i) == if IsJump(i) && i.target in resolved && resolved[i.target] != i.target
                                      then WithTarget(i, resolved[i.target]) else i
  {
    if IsJump(i) && Resolve(body, i.target, {}).Some? {
      assert i.target in Labels(body);
    }
  }

  /** The loop of `thread_jump_chains`. */
  method ThreadJumpChains(body: seq<Instr>) returns (threaded: seq<Instr>, changed: bool)
    ensures threaded == Threaded(body)
    ensures changed <==> threaded != body
    ensures |threaded| == |body| && forall k :: 0 <= k < |body| ==> RightlyThreaded(body, body[k], threaded[k])
  {
    hide RightlyThreaded;
    hide Resolve, Threaded, ThreadedInstr, IsResolvedMap, WithTarget;
    var resolved := ResolvedJumpTargets(body);
    threaded, changed := [], false;
    for k := 0 to |body|
      invariant threaded == Threaded(body)[..k]
      invariant changed <==> threaded != body[..k]
    {
      LookupThreads(body, resolved, body[k]);
      ThreadedAt(body, k);
      var instr := body[k];
      if IsJump(instr) && instr.target in resolved && resolved[instr.target] != instr.target {
        instr := WithTarget(instr, resolved[instr.target]);
        Retargeted(body[k], resolved[body[k].target]);
        changed := true;
      }
      AppendDiffers(threaded, body[..k], instr, body[k]);
      threaded := threaded + [instr];
      assert body[..k + 1] == body[..k] + [body[k]];
    }
    assert Threaded(body)[..|body|] == Threaded(body) && body[..|body|] == body;
    forall k | 0 <= k < |body|
      ensures RightlyThreaded(body, body[k], threaded[k])
    {
      ThreadedAt(body, k);
      ThreadedRightly(body, body[k]);
    }
  }

  lemma ThreadedAt(body: seq<Instr>, k: nat)
    requires k < |body|
    ensures Threaded(body)[..k + 1] == Threaded(body)[..k] + [ThreadedInstr(body, body[k])]
    ensures Threaded(body)[k] == ThreadedInstr(body, body[k])
  {
  }

  lemma Retargeted(i: Instr, l: Name)
    requires IsJump(i) && i.target != l
    ensures WithTarget(i, l) != i
  {
  }
}
