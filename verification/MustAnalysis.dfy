/** Forward must-analyses: facts that hold on every path. Copy propagation and common
    subexpression elimination run the same worklist with different transfer functions. */
module MustAnalysis {
  import opened Tacky
  import opened ControlFlow
  import opened Worklists

  predicate EveryPredHas<T>(k: T, preds: seq<NodeId>, out: seq<set<T>>) {
    forall j :: 0 <= j < |preds| && preds[j].Block? && preds[j].id < |out| ==> k in out[preds[j].id]
  }

  function FirstPred<T>(preds: seq<NodeId>, out: seq<set<T>>): (p: Option<nat>)
    ensures p.Some? ==> p.value < |out| && Block(p.value) in preds
    ensures p.None? ==> forall j :: 0 <= j < |preds| && preds[j].Block? ==> preds[j].id >= |out|
  {
    if preds == [] then None
    else if preds[0].Block? && preds[0].id < |out| then Some(preds[0].id)
    else FirstPred(preds[1..], out)
  }

  /** What holds at the start of a block: nothing after entry or without predecessors,
      otherwise what every predecessor guarantees. */
  function Meet<T>(preds: seq<NodeId>, out: seq<set<T>>): set<T> {
    if Entry in preds then {}
    else match FirstPred(preds, out)
      case None => {}
      case Some(p) => set k | k in out[p] && EveryPredHas(k, preds, out)
  }

  lemma InMeet<T>(preds: seq<NodeId>, out: seq<set<T>>, k: T)
    ensures k in Meet(preds, out)
       <==> (Entry !in preds && FirstPred(preds, out).Some? && EveryPredHas(k, preds, out))
  {
    if FirstPred(preds, out).Some? {
      var p := FirstPred(preds, out).value;
      var j :| 0 <= j < |preds| && preds[j] == Block(p);
      assert EveryPredHas(k, preds, out) ==> k in out[preds[j].id];
    }
  }

  /** `meet_copies` and `meet_available_exprs`: seed with the smallest predecessor set and
      intersect the others into it. */
  method MeetFacts<T>(block: BasicBlock, out: seq<set<T>>) returns (incoming: set<T>)
    ensures incoming == Meet(block.predecessors, out)
  {
    var preds := block.predecessors;
    var best: Option<(nat, nat)> := None;
    for k := 0 to |preds|
      invariant Entry !in preds[..k]
      invariant best.Some? ==> best.value.0 < |out| && Block(best.value.0) in preds[..k]
      invariant best.None? ==> forall j :: 0 <= j < k && preds[j].Block? ==> preds[j].id >= |out|
    {
      match preds[k]
      case Entry =>
        assert preds[k] in preds;
        return {};
      case Block(p) =>
        if p < |out| && (best.None? || |out[p]| < best.value.1) {
          best := Some((p, |out[p]|));
        }
      case Exit =>
    }
    assert preds[..|preds|] == preds;
    if best.None? {
      assert FirstPred(preds, out).None?;
      return {};
    }
    var seed := best.value.0;
    incoming := out[seed];
    for k := 0 to |preds|
      invariant forall x :: x in incoming <==> (x in out[seed] && EveryPredHas(x, preds[..k], out))
    {
      if preds[k].Block? && preds[k].id != seed && preds[k].id < |out| {
        incoming := incoming * out[preds[k].id];
      }
    }
    forall x
      ensures x in incoming <==> x in Meet(preds, out)
    {
      InMeet(preds, out, x);
      var j :| 0 <= j < |preds| && preds[j] == Block(seed);
      assert EveryPredHas(x, preds, out) ==> x in out[preds[j].id];
    }
  }

  /** Over an edge, what holds at the target holds at the end of the source. */
  lemma MeetBelowPredecessor<T>(preds: seq<NodeId>, out: seq<set<T>>, p: nat)
    requires Block(p) in preds && p < |out|
    ensures Meet(preds, out) <= out[p]
  {
    forall k | k in Meet(preds, out)
      ensures k in out[p]
    {
      InMeet(preds, out, k);
      var j :| 0 <= j < |preds| && preds[j] == Block(p);
      assert k in out[preds[j].id];
    }
  }

  lemma MeetMonotone<T>(preds: seq<NodeId>, a: seq<set<T>>, b: seq<set<T>>)
    requires |a| == |b| && forall p :: 0 <= p < |a| ==> a[p] <= b[p]
    ensures Meet(preds, a) <= Meet(preds, b)
  {
    SameFirstPred(preds, a, b);
    forall k | k in Meet(preds, a)
      ensures k in Meet(preds, b)
    {
      InMeet(preds, a, k);
      InMeet(preds, b, k);
    }
  }

  lemma {:induction false} SameFirstPred<T>(preds: seq<NodeId>, a: seq<set<T>>, b: seq<set<T>>)
    requires |a| == |b|
    ensures FirstPred(preds, a) == FirstPred(preds, b)
  {
    if preds != [] {
      SameFirstPred(preds[1..], a, b);
    }
  }

  /** The order of predecessors does not matter. */
  lemma SameMeet<T>(a: seq<NodeId>, b: seq<NodeId>, out: seq<set<T>>)
    requires forall node :: node in a <==> node in b
    ensures Meet(a, out) == Meet(b, out)
  {
    forall k
      ensures k in Meet(a, out) <==> k in Meet(b, out)
    {
      InMeet(a, out, k);
      InMeet(b, out, k);
      SameEvery(a, b, out, k);
      SameEvery(b, a, out, k);
    }
  }

  lemma SameEvery<T>(a: seq<NodeId>, b: seq<NodeId>, out: seq<set<T>>, k: T)
    requires forall node :: node in a <==> node in b
    ensures EveryPredHas(k, a, out) ==> EveryPredHas(k, b, out)
    ensures FirstPred(a, out).Some? ==> FirstPred(b, out).Some?
  {
    if EveryPredHas(k, a, out) {
      forall j | 0 <= j < |b| && b[j].Block? && b[j].id < |out|
        ensures k in out[b[j].id]
      {
        assert b[j] in a;
        var i :| 0 <= i < |a| && a[i] == b[j];
        assert k in out[a[i].id];
      }
    }
    if FirstPred(a, out).Some? {
      FirstPredExists(b, out, FirstPred(a, out).value);
    }
  }

  lemma {:induction false} FirstPredExists<T>(preds: seq<NodeId>, out: seq<set<T>>, p: nat)
    requires Block(p) in preds && p < |out|
    ensures FirstPred(preds, out).Some?
  {
    if preds[0] != Block(p) {
      assert Block(p) in preds[1..];
      FirstPredExists(preds[1..], out, p);
    }
  }

  lemma MeetUnchanged<T>(preds: seq<NodeId>, out: seq<set<T>>, p: nat, v: set<T>)
    requires p < |out| && Block(p) !in preds
    ensures Meet(preds, out[p := v]) == Meet(preds, out)
  {
    var next := out[p := v];
    SameFirstPred(preds, out, next);
    forall k
      ensures k in Meet(preds, next) <==> k in Meet(preds, out)
    {
      InMeet(preds, out, k);
      InMeet(preds, next, k);
      forall j | 0 <= j < |preds| && preds[j].Block? && preds[j].id < |out|
        ensures next[preds[j].id] == out[preds[j].id]
      {
        assert preds[j] in preds;
      }
    }
  }

  lemma MeetBounded<T>(preds: seq<NodeId>, out: seq<set<T>>, u: set<T>)
    requires forall p :: 0 <= p < |out| ==> out[p] <= u
    ensures Meet(preds, out) <= u
  {
  }

  // ----- the worklist -----

  type TransferOf<!T> = (nat, set<T>) -> set<T>

  function Outgoing<T>(blocks: seq<BasicBlock>, transfer: TransferOf<T>, out: seq<set<T>>, b: nat): set<T>
    requires b < |blocks|
  {
    transfer(b, Meet(blocks[b].predecessors, out))
  }

  /** Every block satisfies its equation. */
  ghost predicate Solved<T>(blocks: seq<BasicBlock>, transfer: TransferOf<T>, out: seq<set<T>>) {
    |out| == |blocks| && forall b :: 0 <= b < |blocks| ==> out[b] == Outgoing(blocks, transfer, out, b)
  }

  /** Outside the queue, every block satisfies its equation. */
  ghost predicate SolvedOutside<T>(blocks: seq<BasicBlock>, transfer: TransferOf<T>, out: seq<set<T>>,
        queued: set<nat>) {
    && |out| == |blocks|
    && (forall b :: 0 <= b < |blocks| && b !in queued ==> out[b] == Outgoing(blocks, transfer, out, b))
  }

  /** Facts still climb towards their equations inside the universe `u`. */
  ghost predicate Climbing<T>(blocks: seq<BasicBlock>, transfer: TransferOf<T>, out: seq<set<T>>, u: set<T>) {
    && |out| == |blocks|
    && (forall b :: 0 <= b < |blocks| ==> out[b] <= Outgoing(blocks, transfer, out, b) && out[b] <= u)
  }

  /** More facts in, more facts out, all of them from the universe `u`. */
  ghost predicate MonotoneOn<T(!new)>(transfer: TransferOf<T>, n: nat, u: set<T>) {
    && (forall b, x {:trigger transfer(b, x)} :: 0 <= b < n && x <= u ==> transfer(b, x) <= u)
    && (forall b, x, y {:trigger transfer(b, x), transfer(b, y)} ::
          0 <= b < n && x <= y && y <= u ==> transfer(b, x) <= transfer(b, y))
  }

  /** `good` sets stay good: it holds of the empty set, of subsets, and across transfer. */
  ghost predicate KeepsGood<T(!new)>(transfer: TransferOf<T>, n: nat, good: set<T> -> bool) {
    && good({})
    && (forall x, y :: good(x) && y <= x ==> good(y))
    && (forall b, x {:trigger transfer(b, x)} :: 0 <= b < n && good(x) ==> good(transfer(b, x)))
  }

  lemma MeetGood<T(!new)>(transfer: TransferOf<T>, n: nat, good: set<T> -> bool, preds: seq<NodeId>, out: seq<set<T>>)
    requires KeepsGood(transfer, n, good) && forall b :: 0 <= b < |out| ==> good(out[b])
    ensures good(Meet(preds, out))
  {
    if Entry !in preds && FirstPred(preds, out).Some? {
      assert Meet(preds, out) <= out[FirstPred(preds, out).value];
    }
  }

  lemma SuccessorsExist(blocks: seq<BasicBlock>, b: nat)
    requires WellFormed(blocks) && b < |blocks|
    ensures forall p :: p in Ids(blocks[b].successors) ==> p < |blocks|
  {
    forall p | p in Ids(blocks[b].successors)
      ensures p < |blocks|
    {
      InIds(blocks[b].successors, p);
    }
  }

  lemma UpdateKeepsSolved<T>(blocks: seq<BasicBlock>, transfer: TransferOf<T>, out: seq<set<T>>,
                             queued: set<nat>, b: nat, after: set<nat>)
    requires WellFormed(blocks) && b < |blocks|
    requires SolvedOutside(blocks, transfer, out, queued)
    requires queued - {b} + Ids(blocks[b].successors) <= after
    ensures SolvedOutside(blocks, transfer, out[b := Outgoing(blocks, transfer, out, b)], after)
  {
    var more := Outgoing(blocks, transfer, out, b);
    var next := out[b := more];
    forall a | 0 <= a < |blocks| && a !in after
      ensures next[a] == Outgoing(blocks, transfer, next, a)
    {
      InIds(blocks[b].successors, a);
      assert Block(b) !in blocks[a].predecessors by {
        assert Block(b) in blocks[a].predecessors <==> Block(a) in blocks[b].successors;
      }
      MeetUnchanged(blocks[a].predecessors, out, b, more);
    }
  }

  lemma UpdateKeepsClimbing<T(!new)>(blocks: seq<BasicBlock>, transfer: TransferOf<T>, out: seq<set<T>>, u: set<T>,
        b: nat)
    requires MonotoneOn(transfer, |blocks|, u) && b < |blocks| && Climbing(blocks, transfer, out, u)
    ensures out[b] <= Outgoing(blocks, transfer, out, b) <= u
    ensures Climbing(blocks, transfer, out[b := Outgoing(blocks, transfer, out, b)], u)
  {
    var more := Outgoing(blocks, transfer, out, b);
    var next := out[b := more];
    MeetBounded(blocks[b].predecessors, out, u);
    assert more <= u;
    forall a | 0 <= a < |blocks|
      ensures next[a] <= Outgoing(blocks, transfer, next, a)
    {
      var preds := blocks[a].predecessors;
      MeetMonotone(preds, out, next);
      MeetBounded(preds, next, u);
      assert transfer(a, Meet(preds, out)) <= transfer(a, Meet(preds, next));
    }
  }

  /** A bound on the rounds still to come: every growth of a fact can queue every block. */
  function Pending<T>(out: seq<set<T>>, u: set<T>, waiting: nat): nat {
    Slack(out, u) * |out| + waiting
  }

  function NoFacts<T>(n: nat): (r: seq<set<T>>)
    ensures |r| == n && forall b :: 0 <= b < n ==> r[b] == {}
  {
    seq(n, b => {})
  }

  /** Where the worklist loop stands. */
  datatype Search<!T> = Search(out: seq<set<T>>, worklist: seq<nat>, queued: set<nat>)

  /** One round of the loop: recompute a block, queue its successors if it changed. */
  function Round<T>(blocks: seq<BasicBlock>, transfer: TransferOf<T>, s: Search<T>): Search<T> {
    if s.worklist == [] || s.worklist[0] >= |blocks| || |s.out| != |blocks| then s
    else
      var b := s.worklist[0];
      var more := Outgoing(blocks, transfer, s.out, b);
      if s.out[b] == more then Search(s.out, s.worklist[1..], s.queued - {b})
      else
        var joined := Joined(s.worklist[1..], s.queued - {b}, blocks[b].successors);
        Search(s.out[b := more], joined.0, joined.1)
  }

  /** The loop after `n` rounds, or where it ended before. */
  function AfterRounds<T>(blocks: seq<BasicBlock>, transfer: TransferOf<T>, n: nat): Search<T> {
    if n == 0 then Search(NoFacts(|blocks|), Ascending(|blocks|), Members(Ascending(|blocks|)))
    else Round(blocks, transfer, AfterRounds(blocks, transfer, n - 1))
  }

  /** Carries out one round. */
  method Visit<T(!new)>(blocks: seq<BasicBlock>, transfer: TransferOf<T>, out: seq<set<T>>,
                  worklist: seq<nat>, queued: set<nat>, ghost u: set<T>, ghost good: set<T> -> bool)
    returns (out': seq<set<T>>, worklist': seq<nat>, queued': set<nat>)
    requires WellFormed(blocks) && worklist != [] && QueueOk(worklist, queued, |blocks|)
    requires SolvedOutside(blocks, transfer, out, queued)
    requires KeepsGood(transfer, |blocks|, good) && forall p :: 0 <= p < |out| ==> good(out[p])
    ensures Search(out', worklist', queued') == Round(blocks, transfer, Search(out, worklist, queued))
    ensures QueueOk(worklist', queued', |blocks|) && SolvedOutside(blocks, transfer, out', queued')
    ensures forall p :: 0 <= p < |out'| ==> good(out'[p])
    ensures MonotoneOn(transfer, |blocks|, u) && Climbing(blocks, transfer, out, u) ==>
      && Climbing(blocks, transfer, out', u)
      && (Slack(out', u) < Slack(out, u) || (out' == out && |worklist'| < |worklist|))
      && Pending(out', u, |worklist'|) < Pending(out, u, |worklist|)
  {
    PopKeeps(worklist, queued, |blocks|);
    var b := worklist[0];
    worklist', queued', out' := worklist[1..], queued - {b}, out;
    var incoming := MeetFacts(blocks[b], out);
    MeetGood(transfer, |blocks|, good, blocks[b].predecessors, out);
    var more := transfer(b, incoming);
    if out[b] != more {
      out' := out[b := more];
      SuccessorsExist(blocks, b);
      worklist', queued' := PushMissing(worklist', queued', blocks[b].successors, |blocks|);
      UpdateKeepsSolved(blocks, transfer, out, queued, b, queued');
      if MonotoneOn(transfer, |blocks|, u) && Climbing(blocks, transfer, out, u) {
        UpdateKeepsClimbing(blocks, transfer, out, u, b);
        SlackDrops(out, u, b, more);
        Drops(Slack(out', u), Slack(out, u), |blocks|);
      }
    }
  }

  lemma PendingPositive<T>(u: set<T>)
    ensures forall out: seq<set<T>>, waiting: nat :: waiting <= Pending(out, u, waiting)
  {
  }

  lemma Drops(a: nat, b: nat, n: nat)
    requires a < b
    ensures a * n + n <= b * n
  {
    assert (a + 1) * n <= b * n;
  }

  /** The state the loop starts in. */
  lemma StartFacts<T(!new)>(blocks: seq<BasicBlock>, transfer: TransferOf<T>, queued: set<nat>, u: set<T>,
        good: set<T> -> bool)
    requires KeepsGood(transfer, |blocks|, good) && forall b :: b in queued <==> 0 <= b < |blocks|
    ensures var out: seq<set<T>> := NoFacts(|blocks|);
      && SolvedOutside(blocks, transfer, out, queued)
      && Climbing(blocks, transfer, out, u)
      && (forall p :: 0 <= p < |out| ==> good(out[p]))
      && Pending(out, u, |blocks|) == EnoughRounds(|blocks|, |u|)
  {
    SlackAtStart(NoFacts(|blocks|), u);
  }

  lemma NothingQueued<T(!new)>(blocks: seq<BasicBlock>, transfer: TransferOf<T>, out: seq<set<T>>, queued: set<nat>)
    requires QueueOk([], queued, |blocks|) && SolvedOutside(blocks, transfer, out, queued)
    ensures Solved(blocks, transfer, out)
  {
  }

  /** Some number of rounds ends the loop with these facts. */
  ghost predicate RoundsEndIn<T>(blocks: seq<BasicBlock>, transfer: TransferOf<T>, out: seq<set<T>>) {
    exists n: nat :: AfterRounds(blocks, transfer, n).out == out && AfterRounds(blocks, transfer, n).worklist == []
  }

  /** The loop for a monotone transfer function: it always ends, in a solution, and in the one that the
      rounds lead to. */
  method Solve<T(!new)>(blocks: seq<BasicBlock>, transfer: TransferOf<T>, ghost u: set<T>, ghost good: set<T> -> bool)
    returns (out: seq<set<T>>)
    requires WellFormed(blocks) && MonotoneOn(transfer, |blocks|, u) && KeepsGood(transfer, |blocks|, good)
    ensures Solved(blocks, transfer, out) && RoundsEndIn(blocks, transfer, out)
    ensures forall b :: 0 <= b < |out| ==> good(out[b])
  {
    out := NoFacts(|blocks|);
    var worklist, queued := AllBlocks(|blocks|, false);
    ghost var n: nat := 0;
    StartRounds(blocks, transfer);
    hide *;
    StartFacts(blocks, transfer, queued, u, good);
    while worklist != []
      invariant StandsAt(blocks, transfer, n, out, worklist, queued)
      invariant QueueOk(worklist, queued, |blocks|)
      invariant SolvedOutside(blocks, transfer, out, queued)
      invariant forall p :: 0 <= p < |out| ==> good(out[p])
      invariant Climbing(blocks, transfer, out, u)
      decreases Slack(out, u), |worklist|
    {
      ghost var before := Search(out, worklist, queued);
      out, worklist, queued := Visit(blocks, transfer, out, worklist, queued, u, good);
      NextRound(blocks, transfer, n, before, Search(out, worklist, queued));
      n := n + 1;
    }
    NothingQueued(blocks, transfer, out, queued);
    EndOfRounds(blocks, transfer, n, out, queued);
  }

  lemma EndOfRounds<T>(blocks: seq<BasicBlock>, transfer: TransferOf<T>, n: nat, out: seq<set<T>>, queued: set<nat>)
    requires StandsAt(blocks, transfer, n, out, [], queued)
    ensures RoundsEndIn(blocks, transfer, out)
  {
    hide AfterRounds;
  }

  /** What any number of rounds leads to is contained in every solution within the universe. */
  lemma {:induction false} RoundsBelow<T(!new)>(blocks: seq<BasicBlock>, transfer: TransferOf<T>, u: set<T>, n: nat,
        other: seq<set<T>>)
    requires MonotoneOn(transfer, |blocks|, u) && Solved(blocks, transfer, other)
    requires forall b :: 0 <= b < |other| ==> other[b] <= u
    ensures var out := AfterRounds(blocks, transfer, n).out;
      |out| == |blocks| && forall b :: 0 <= b < |blocks| ==> out[b] <= other[b]
  {
    if n > 0 {
      RoundsBelow(blocks, transfer, u, n - 1, other);
      var s := AfterRounds(blocks, transfer, n - 1);
      hide AfterRounds;
      if s.worklist != [] && s.worklist[0] < |blocks| {
        var b := s.worklist[0];
        MeetMonotone(blocks[b].predecessors, s.out, other);
        MeetBounded(blocks[b].predecessors, other, u);
        assert Outgoing(blocks, transfer, s.out, b) <= other[b];
      }
      NextAfter(blocks, transfer, n - 1);
    }
  }

  /** Rounds after which the loop has ended if the transfer function is monotone. */
  function EnoughRounds(n: nat, universe: nat): nat {
    n * universe * n + n
  }

  lemma StartRounds<T>(blocks: seq<BasicBlock>, transfer: TransferOf<T>)
    ensures StandsAt(blocks, transfer, 0, NoFacts(|blocks|), Ascending(|blocks|), Members(Ascending(|blocks|)))
  {
  }

  ghost predicate StandsAt<T>(blocks: seq<BasicBlock>, transfer: TransferOf<T>, n: nat,
                              out: seq<set<T>>, worklist: seq<nat>, queued: set<nat>)
  {
    AfterRounds(blocks, transfer, n) == Search(out, worklist, queued)
  }

  lemma NextRound<T>(blocks: seq<BasicBlock>, transfer: TransferOf<T>, n: nat, s: Search<T>, t: Search<T>)
    requires StandsAt(blocks, transfer, n, s.out, s.worklist, s.queued) && t == Round(blocks, transfer, s)
    ensures StandsAt(blocks, transfer, n + 1, t.out, t.worklist, t.queued)
  {
    hide Round;
  }

  lemma LastRound<T>(blocks: seq<BasicBlock>, transfer: TransferOf<T>, n: nat, rounds: nat,
                     out: seq<set<T>>, worklist: seq<nat>, queued: set<nat>)
    requires StandsAt(blocks, transfer, n, out, worklist, queued) && n <= rounds && (worklist == [] || n == rounds)
    ensures out == AfterRounds(blocks, transfer, rounds).out
      && worklist == AfterRounds(blocks, transfer, rounds).worklist
  {
    hide AfterRounds;
    if worklist == [] {
      EndedStays(blocks, transfer, n, rounds);
    }
  }

  lemma {:induction false} EndedStays<T>(blocks: seq<BasicBlock>, transfer: TransferOf<T>, n: nat, m: nat)
    requires AfterRounds(blocks, transfer, n).worklist == [] && n <= m
    ensures AfterRounds(blocks, transfer, m) == AfterRounds(blocks, transfer, n)
    decreases m
  {
    if n < m {
      EndedStays(blocks, transfer, n, m - 1);
    }
  }

  /** The loop for an arbitrary transfer function, stopped after `rounds` rounds. If it ends
      by itself it ends in a solution, and it does end when the transfer function is
      monotone. */
  method SolveWithin<T(!new)>(blocks: seq<BasicBlock>, transfer: TransferOf<T>, rounds: nat,
                              ghost u: set<T>, ghost good: set<T> -> bool)
    returns (done: bool, out: seq<set<T>>)
    requires WellFormed(blocks) && KeepsGood(transfer, |blocks|, good)
    ensures out == AfterRounds(blocks, transfer, rounds).out
      && (done <==> AfterRounds(blocks, transfer, rounds).worklist == [])
    ensures done ==> Solved(blocks, transfer, out)
    ensures forall b :: 0 <= b < |out| ==> good(out[b])
    ensures MonotoneOn(transfer, |blocks|, u) && rounds >= EnoughRounds(|blocks|, |u|) ==> done
  {
    ghost var enough := MonotoneOn(transfer, |blocks|, u) && rounds >= EnoughRounds(|blocks|, |u|);
    PendingPositive(u);
    out := NoFacts(|blocks|);
    var worklist, queued := AllBlocks(|blocks|, false);
    var left := rounds;
    ghost var n: nat := 0;
    StartRounds(blocks, transfer);
    hide *;
    StartFacts(blocks, transfer, queued, u, good);
    while worklist != [] && left > 0
      invariant n + left == rounds && StandsAt(blocks, transfer, n, out, worklist, queued)
      invariant QueueOk(worklist, queued, |blocks|)
      invariant SolvedOutside(blocks, transfer, out, queued)
      invariant forall p :: 0 <= p < |out| ==> good(out[p])
      invariant enough ==> Climbing(blocks, transfer, out, u)
      invariant enough ==> Pending(out, u, |worklist|) <= left
      decreases left
    {
      ghost var before := Search(out, worklist, queued);
      out, worklist, queued := Visit(blocks, transfer, out, worklist, queued, u, good);
      NextRound(blocks, transfer, n, before, Search(out, worklist, queued));
      left, n := left - 1, n + 1;
    }
    done := worklist == [];
    LastRound(blocks, transfer, n, rounds, out, worklist, queued);
    if done {
      NothingQueued(blocks, transfer, out, queued);
    }
  }

  /** After any number of rounds, what does not wait satisfies its equation. */
  lemma {:induction false} RoundsSolve<T(!new)>(blocks: seq<BasicBlock>, transfer: TransferOf<T>, n: nat)
    requires WellFormed(blocks)
    ensures var s := AfterRounds(blocks, transfer, n);
      QueueOk(s.worklist, s.queued, |blocks|) && SolvedOutside(blocks, transfer, s.out, s.queued)
  {
    if n == 0 {
      AllAscending(|blocks|);
    } else {
      RoundsSolve(blocks, transfer, n - 1);
      hide AfterRounds;
      RoundSolves(blocks, transfer, AfterRounds(blocks, transfer, n - 1));
      NextAfter(blocks, transfer, n - 1);
    }
  }

  lemma NextAfter<T>(blocks: seq<BasicBlock>, transfer: TransferOf<T>, n: nat)
    ensures AfterRounds(blocks, transfer, n + 1) == Round(blocks, transfer, AfterRounds(blocks, transfer, n))
  {
  }

  lemma RoundSolves<T(!new)>(blocks: seq<BasicBlock>, transfer: TransferOf<T>, s: Search<T>)
    requires WellFormed(blocks) && QueueOk(s.worklist, s.queued, |blocks|)
      && SolvedOutside(blocks, transfer, s.out, s.queued)
    ensures var t := Round(blocks, transfer, s);
      QueueOk(t.worklist, t.queued, |blocks|) && SolvedOutside(blocks, transfer, t.out, t.queued)
  {
    if s.worklist != [] {
      var b := s.worklist[0];
      PopKeeps(s.worklist, s.queued, |blocks|);
      SuccessorsExist(blocks, b);
      JoinedFacts(s.worklist[1..], s.queued - {b}, blocks[b].successors, |blocks|);
      hide Joined, Outgoing, WellFormed;
      if s.out[b] != Outgoing(blocks, transfer, s.out, b) {
        var after := Joined(s.worklist[1..], s.queued - {b}, blocks[b].successors).1;
        UpdateKeepsSolved(blocks, transfer, s.out, s.queued, b, after);
      }
    }
  }

  /** An empty worklist is a solution. */
  lemma EndedSolves<T(!new)>(blocks: seq<BasicBlock>, transfer: TransferOf<T>, n: nat)
    requires WellFormed(blocks) && AfterRounds(blocks, transfer, n).worklist == []
    ensures Solved(blocks, transfer, AfterRounds(blocks, transfer, n).out)
  {
    hide AfterRounds;
    RoundsSolve(blocks, transfer, n);
  }

  lemma {:induction false} SlackAtStart<T>(out: seq<set<T>>, u: set<T>)
    requires forall b :: 0 <= b < |out| ==> out[b] == {}
    ensures Slack(out, u) == |out| * |u|
  {
    if out != [] {
      assert u - out[0] == u;
      SlackAtStart(out[1..], u);
    }
  }
}
