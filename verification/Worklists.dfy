/** The worklist every dataflow pass uses: a queue of block numbers and the set of those
    that wait in it. */
module Worklists {
  import opened ControlFlow

  /** Whatever is marked as queued really waits in the list. */
  ghost predicate QueueOk(worklist: seq<nat>, queued: set<nat>, n: nat) {
    && (forall b :: b in worklist ==> b < n)
    && (forall b :: b in queued ==> b in worklist)
  }

  lemma PopKeeps(worklist: seq<nat>, queued: set<nat>, n: nat)
    requires QueueOk(worklist, queued, n) && worklist != []
    ensures worklist[0] < n && QueueOk(worklist[1..], queued - {worklist[0]}, n)
  {
    assert worklist[0] in worklist;
    assert forall b :: b in worklist[1..] ==> b in worklist;
    forall b | b in queued - {worklist[0]}
      ensures b in worklist[1..]
    {
      var k :| 0 <= k < |worklist| && worklist[k] == b;
      assert worklist[1..][k - 1] == b;
    }
  }

  lemma QueuedBounded(worklist: seq<nat>, queued: set<nat>, n: nat)
    requires QueueOk(worklist, queued, n)
    ensures |queued| <= n
  {
    forall b | b in queued
      ensures b < n
    {
      assert b in worklist;
    }
    BoundedSize(queued, n);
  }

  function Ids(nodes: seq<NodeId>): set<nat> {
    set k | 0 <= k < |nodes| && nodes[k].Block? :: nodes[k].id
  }

  lemma InIds(nodes: seq<NodeId>, b: nat)
    ensures b in Ids(nodes) <==> Block(b) in nodes
  {
    if Block(b) in nodes {
      var k :| 0 <= k < |nodes| && nodes[k] == Block(b);
      assert nodes[k].id in Ids(nodes);
    }
  }

  function Ascending(n: nat): (r: seq<nat>)
    ensures |r| == n
  {
    seq(n, k requires 0 <= k < n => k)
  }

  function Members(worklist: seq<nat>): set<nat> {
    set b | b in worklist
  }

  /** The queue after the blocks among `nodes` that do not wait yet have joined it. */
  function Joined(worklist: seq<nat>, queued: set<nat>, nodes: seq<NodeId>): (seq<nat>, set<nat>)
    decreases |nodes|
  {
    if nodes == [] then (worklist, queued)
    else if nodes[0].Block? && nodes[0].id !in queued then
      Joined(worklist + [nodes[0].id], queued + {nodes[0].id}, nodes[1..])
    else Joined(worklist, queued, nodes[1..])
  }

  /** Queue all of `0..n`, in either order. */
  method AllBlocks(n: nat, reversed: bool) returns (worklist: seq<nat>, queued: set<nat>)
    ensures QueueOk(worklist, queued, n)
    ensures forall b :: b in queued <==> 0 <= b < n
    ensures |worklist| == n && (!reversed ==> worklist == Ascending(n) && queued == Members(Ascending(n)))
  {
    worklist, queued := [], {};
    for k := 0 to n
      invariant QueueOk(worklist, queued, n) && |worklist| == k
      invariant !reversed ==> worklist == Ascending(k)
      invariant forall b :: b in queued <==> (if reversed then n - k else 0) <= b < (if reversed then n else k)
    {
      var b := if reversed then n - 1 - k else k;
      worklist := worklist + [b];
      queued := queued + {b};
    }
    if !reversed {
      AllAscending(n);
    }
  }

  lemma AllAscending(n: nat)
    ensures forall b :: b in Members(Ascending(n)) <==> 0 <= b < n
  {
    forall b: nat | b < n
      ensures b in Members(Ascending(n))
    {
      assert Ascending(n)[b] == b;
    }
  }

  lemma IdsSnoc(nodes: seq<NodeId>, k: nat)
    requires k < |nodes|
    ensures Ids(nodes[..k + 1]) == Ids(nodes[..k]) + if nodes[k].Block? then {nodes[k].id} else {}
    ensures nodes[k].Block? ==> nodes[k].id in Ids(nodes)
  {
    assert nodes[..k + 1] == nodes[..k] + [nodes[k]];
  }

  method PushOne(worklist: seq<nat>, queued: set<nat>, b: nat, n: nat)
    returns (worklist': seq<nat>, queued': set<nat>)
    requires QueueOk(worklist, queued, n) && b < n
    ensures QueueOk(worklist', queued', n) && queued' == queued + {b}
    ensures |worklist'| - |worklist| == |queued'| - |queued|
    ensures (worklist', queued') == if b in queued then (worklist, queued) else (worklist + [b], queued + {b})
  {
    worklist', queued' := worklist, queued;
    if b !in queued {
      queued' := queued + {b};
      worklist' := worklist + [b];
    } else {
      assert queued == queued + {b};
    }
  }

  lemma JoinedStep(worklist: seq<nat>, queued: set<nat>, nodes: seq<NodeId>, k: nat)
    requires k < |nodes|
    ensures Joined(worklist, queued, nodes[k..]) ==
      if nodes[k].Block? && nodes[k].id !in queued then
        Joined(worklist + [nodes[k].id], queued + {nodes[k].id}, nodes[k + 1..])
      else Joined(worklist, queued, nodes[k + 1..])
  {
    assert nodes[k..][0] == nodes[k] && nodes[k..][1..] == nodes[k + 1..];
  }

  lemma JoinedNone(nodes: seq<NodeId>)
    ensures forall w, q :: Joined(w, q, nodes[|nodes|..]) == (w, q)
  {
  }

  /** Queue the blocks among `nodes` that are not queued yet. */
  method PushMissing(worklist: seq<nat>, queued: set<nat>, nodes: seq<NodeId>, n: nat)
    returns (worklist': seq<nat>, queued': set<nat>)
    requires QueueOk(worklist, queued, n)
    requires forall b :: b in Ids(nodes) ==> b < n
    ensures QueueOk(worklist', queued', n)
    ensures queued' == queued + Ids(nodes)
    ensures |worklist'| <= |worklist| + n
    ensures (worklist', queued') == Joined(worklist, queued, nodes)
  {
    worklist', queued' := worklist, queued;
    assert Ids(nodes[..0]) == {};
    assert nodes[0..] == nodes;
    JoinedNone(nodes);
    hide Ids, QueueOk, Joined;
    for k := 0 to |nodes|
      invariant QueueOk(worklist', queued', n)
      invariant queued' == queued + Ids(nodes[..k])
      invariant Joined(worklist', queued', nodes[k..]) == Joined(worklist, queued, nodes)
      invariant |worklist'| - |worklist| == |queued'| - |queued|
    {
      IdsSnoc(nodes, k);
      JoinedStep(worklist', queued', nodes, k);
      if nodes[k].Block? {
        worklist', queued' := PushOne(worklist', queued', nodes[k].id, n);
      }
    }
    assert nodes[..|nodes|] == nodes;
    QueuedBounded(worklist', queued', n);
  }

  lemma {:induction false} BoundedSize(q: set<nat>, n: nat)
    requires forall b :: b in q ==> b < n
    ensures |q| <= n
  {
    if n == 0 {
      assert q == {};
    } else {
      BoundedSize(q - {n - 1}, n - 1);
    }
  }

  lemma SmallerSet<T>(a: set<T>, b: set<T>)
    requires a < b
    ensures |a| < |b|
  {
    var x :| x in b && x !in a;
    assert a <= b - {x};
    SubsetSize(a, b - {x});
  }

  lemma SubsetSize<T>(a: set<T>, b: set<T>)
    requires a <= b
    ensures |a| <= |b|
  {
    assert b == a + (b - a);
    assert |b| == |a| + |b - a|;
  }

  /** How far a list of sets is from filling the universe `u`. */
  function Slack<T>(facts: seq<set<T>>, u: set<T>): nat {
    if facts == [] then 0 else |u - facts[0]| + Slack(facts[1..], u)
  }

  lemma {:induction false} SlackDrops<T>(facts: seq<set<T>>, u: set<T>, b: nat, more: set<T>)
    requires b < |facts| && facts[b] < more <= u
    ensures Slack(facts[b := more], u) < Slack(facts, u)
  {
    if b == 0 {
      assert facts[b := more][1..] == facts[1..];
      var x :| x in more && x !in facts[0];
      assert x in u - facts[0] && x !in u - more;
      SmallerSet(u - more, u - facts[0]);
    } else {
      assert facts[b := more][1..] == facts[1..][b - 1 := more];
      SlackDrops(facts[1..], u, b - 1, more);
    }
  }

  /** Joining keeps the queue sound and adds exactly the blocks named. */
  lemma {:induction false} JoinedFacts(worklist: seq<nat>, queued: set<nat>, nodes: seq<NodeId>, n: nat)
    requires QueueOk(worklist, queued, n) && forall b :: b in Ids(nodes) ==> b < n
    ensures var r := Joined(worklist, queued, nodes); QueueOk(r.0, r.1, n) && r.1 == queued + Ids(nodes)
    decreases |nodes|
  {
    if nodes != [] {
      IdsCons(nodes);
      if nodes[0].Block? && nodes[0].id !in queued {
        JoinedFacts(worklist + [nodes[0].id], queued + {nodes[0].id}, nodes[1..], n);
      } else {
        JoinedFacts(worklist, queued, nodes[1..], n);
      }
    }
  }

  lemma IdsCons(nodes: seq<NodeId>)
    requires nodes != []
    ensures Ids(nodes) == (if nodes[0].Block? then {nodes[0].id} else {}) + Ids(nodes[1..])
  {
    forall b: nat
      ensures b in Ids(nodes) <==> b in (if nodes[0].Block? then {nodes[0].id} else {}) + Ids(nodes[1..])
    {
      InIds(nodes, b);
      InIds(nodes[1..], b);
      assert nodes == [nodes[0]] + nodes[1..];
    }
  }
}
