/** Three passes in the order `optimize_function` runs them: unreachable code, common subexpressions and
    dead stores, each on what the one before it left. */
module PassSequence {
  import opened Tacky
  import opened Semantics
  import opened Behaviour
  import opened ControlFlow
  import opened Effects
  import opened Paths
  import opened Preservation
  import opened MustAnalysis
  import opened AvailableExprs
  import opened SameExprs
  import opened Cse
  import opened CsePass
  import opened DeadStores
  import opened JumpThreading
  import opened UnreachableCode

  // ----- elimination keeps labels, jumps and Nops -----

  /** An instruction that stays, or one that only computes and becomes a copy. */
  predicate AlikeAt(i: Instr, j: Instr) {
    j == i || (Computes(i) && j.Copy?)
  }

  predicate Alike(p: seq<Instr>, q: seq<Instr>) {
    |p| == |q| && forall k :: 0 <= k < |p| ==> AlikeAt(p[k], q[k])
  }

  lemma AlikeTail(p: seq<Instr>, q: seq<Instr>, k: nat)
    requires Alike(p, q) && k <= |p|
    ensures Alike(p[k..], q[k..])
  {
    hide AlikeAt;
  }

  lemma {:induction false} AlikeAhead(p: seq<Instr>, q: seq<Instr>)
    requires Alike(p, q)
    ensures Ahead(p) == Ahead(q)
  {
    if p != [] {
      assert AlikeAt(p[0], q[0]);
      AlikeTail(p, q, 1);
      AlikeAhead(p[1..], q[1..]);
    }
  }

  lemma {:induction false} AlikeLabel(p: seq<Instr>, q: seq<Instr>, l: Name)
    requires Alike(p, q)
    ensures LabelIndex(p, l) == LabelIndex(q, l) && (Label(l) in p <==> Label(l) in q)
  {
    if p != [] {
      assert AlikeAt(p[0], q[0]);
      assert p == [p[0]] + p[1..] && q == [q[0]] + q[1..];
      AlikeTail(p, q, 1);
      AlikeLabel(p[1..], q[1..], l);
    }
  }

  lemma AlikeLabels(p: seq<Instr>, q: seq<Instr>)
    requires Alike(p, q)
    ensures Labels(p) == Labels(q)
  {
    assert forall k :: 0 <= k < |p| ==> AlikeAt(p[k], q[k]) && (p[k].Label? || q[k].Label? ==> p[k] == q[k]);
    hide AlikeAt;
  }

  lemma AlikeNext(p: seq<Instr>, q: seq<Instr>, l: Name)
    requires Alike(p, q) && IsDefined(p, l)
    ensures IsDefined(q, l) && NextJump(q, l) == NextJump(p, l)
  {
    AlikeLabel(p, q, l);
    LabelFound(p, l);
    hide LabelIndex, Ahead;
    AlikeTail(p, q, LabelIndex(p, l) + 1);
    AlikeAhead(p[LabelIndex(p, l) + 1..], q[LabelIndex(p, l) + 1..]);
  }

  lemma {:induction false} AlikeResolve(p: seq<Instr>, q: seq<Instr>, l: Name, visited: set<Name>)
    requires Alike(p, q)
    ensures Resolve(p, l, visited) == Resolve(q, l, visited)
    decreases Labels(p) - visited
  {
    hide Alike, NextJump;
    AlikeLabel(p, q, l);
    if l !in visited && IsDefined(p, l) {
      AlikeNext(p, q, l);
      assert l in Labels(p) - visited;
      if NextJump(p, l).Some? {
        AlikeResolve(p, q, NextJump(p, l).value, visited + {l});
      }
    }
  }

  lemma AlikeThreaded(p: seq<Instr>, q: seq<Instr>)
    requires Alike(p, q) && Threaded(p) == p
    ensures Threaded(q) == q
  {
    hide Resolve;
    forall k | 0 <= k < |q|
      ensures ThreadedInstr(q, q[k]) == q[k]
    {
      assert AlikeAt(p[k], q[k]);
      if IsJump(q[k]) {
        assert Threaded(p)[k] == p[k];
        AlikeResolve(p, q, q[k].target, {});
      }
    }
  }

  lemma AlikeRedundant(p: seq<Instr>, q: seq<Instr>)
    requires Alike(p, q)
    ensures Redundant(p) == Redundant(q)
  {
    if |p| > 1 {
      assert AlikeAt(p[0], q[0]) && AlikeAt(p[1], q[1]);
    }
  }

  lemma {:induction false} AlikeCleaned(p: seq<Instr>, q: seq<Instr>)
    requires Alike(p, q) && Cleaned(p) == p
    ensures Cleaned(q) == q
  {
    hide Redundant, AlikeAt;
    if p != [] {
      AlikeRedundant(p, q);
      AlikeTail(p, q, 1);
      CleanedDeleted(p[1..]);
      DeletedFacts(p[1..], Cleaned(p[1..]));
      assert Cleaned(p) == (if Redundant(p) then [] else [p[0]]) + Cleaned(p[1..]);
      assert Cleaned(p[1..]) == p[1..];
      AlikeCleaned(p[1..], q[1..]);
    }
  }

  lemma AlikeNops(p: seq<Instr>, q: seq<Instr>)
    requires Alike(p, q) && Nop !in p
    ensures Nop !in q
  {
    forall k | 0 <= k < |q|
      ensures q[k] != Nop
    {
      assert AlikeAt(p[k], q[k]) && p[k] in p;
    }
  }

  lemma {:induction false} AlikeFlat(p: Code, q: Code)
    requires |p| == |q| && forall b :: 0 <= b < |p| ==> Alike(p[b], q[b])
    ensures Alike(Flatten(p), Flatten(q))
  {
    if p != [] {
      AlikeFlat(p[1..], q[1..]);
      assert Alike(p[0], q[0]);
      hide AlikeAt;
    }
  }

  lemma ReplacementAlike(i: Instr, t: Table, aliased: set<Name>, statics: set<Name>, types: Types)
    requires OneHolder(t)
    ensures AlikeAt(i, Replacement(i, t, aliased, statics, types))
  {
  }

  lemma {:induction false} CseBlockAlike(instrs: seq<Instr>, t: Table, aliased: set<Name>, statics: set<Name>,
        types: Types)
    requires OneHolder(t)
    ensures Alike(instrs, CseBlock(instrs, t, aliased, statics, types))
  {
    if instrs != [] {
      var j := Replacement(instrs[0], t, aliased, statics, types);
      ReplacementAlike(instrs[0], t, aliased, statics, types);
      TransferOneHolder(j, t, aliased, statics, types);
      hide Replacement, TransferAvail, OneHolder, AlikeAt;
      CseBlockAlike(instrs[1..], TransferAvail(j, t, aliased, statics, types), aliased, statics, types);
    }
  }

  lemma EliminatedAlike(blocks: seq<BasicBlock>, out: seq<Table>, aliased: set<Name>, statics: set<Name>, types: Types)
    requires AllOneHolder(out)
    ensures Alike(Flatten(CodeOf(blocks)), Flatten(Eliminated(blocks, out, aliased, statics, types)))
  {
    var code, next := CodeOf(blocks), Eliminated(blocks, out, aliased, statics, types);
    hide Alike, AllOneHolder, OneHolder, Eliminated, Flatten;
    forall b | 0 <= b < |code|
      ensures Alike(code[b], next[b])
    {
      EliminatedBlock(blocks, out, aliased, statics, types, b);
      CseBlockAlike(blocks[b].instructions, Meet(blocks[b].predecessors, out), aliased, statics, types);
    }
    AlikeFlat(code, next);
  }

  // ----- a settled body is settled after elimination -----

  lemma SameCuts(p: Code, q: Code)
    requires CutsNeeded(p) && |p| == |q| && forall b :: 0 <= b < |p| ==> Alike(p[b], q[b])
    ensures CutsNeeded(q)
  {
    forall b | 0 < b < |q|
      ensures CutHere(q[b - 1], q[b])
    {
      assert CutHere(p[b - 1], p[b]) && Alike(p[b - 1], q[b - 1]) && Alike(p[b], q[b]);
      assert AlikeAt(p[b][0], q[b][0]) && AlikeAt(p[b - 1][|p[b - 1]| - 1], q[b - 1][|p[b - 1]| - 1]);
    }
  }

  lemma SameReaches(blocks: seq<BasicBlock>, code: Code)
    requires |code| == |blocks|
    ensures forall a, b :: Reaches(blocks, a, b) ==> Reaches(WithCode(blocks, code), a, b)
  {
    var r := WithCode(blocks, code);
    assert forall a, b :: HasEdge(blocks, a, b) ==> HasEdge(r, a, b);
    forall a, b | Reaches(blocks, a, b)
      ensures Reaches(r, a, b)
    {
      var path :| IsPath(blocks, path, a, b);
      assert IsPath(r, path, a, b);
    }
  }

  /** Elimination leaves nothing for the removal of unreachable code. */
  lemma EliminatedSettled(body: seq<Instr>, blocks: seq<BasicBlock>, out: seq<Table>, aliased: set<Name>,
        statics: set<Name>,
                          types: Types)
    requires Settled(body) && WellFormed(blocks) && MinimalCuts(CodeOf(blocks)) && Flatten(CodeOf(blocks)) == body
    requires AllOneHolder(out)
    ensures Settled(Flatten(Eliminated(blocks, out, aliased, statics, types)))
  {
    var next := Eliminated(blocks, out, aliased, statics, types);
    var result := Flatten(next);
    EliminatedAlike(blocks, out, aliased, statics, types);
    assert CutsNeeded(CodeOf(blocks));
    hide WellFormed, MinimalCuts, Flatten, Threaded, Cleaned, Alike, CutsNeeded, Eliminated, AllOneHolder,
      FullyReachable;
    AlikeThreaded(body, result);
    AlikeCleaned(body, result);
    AlikeNops(body, result);
    EliminatedReachable(body, blocks, out, aliased, statics, types);
  }

  lemma EliminatedReachable(body: seq<Instr>, blocks: seq<BasicBlock>, out: seq<Table>, aliased: set<Name>,
        statics: set<Name>,
                            types: Types)
    requires FullyReachable(body) && WellFormed(blocks) && MinimalCuts(CodeOf(blocks))
      && Flatten(CodeOf(blocks)) == body
    requires AllOneHolder(out)
    ensures FullyReachable(Flatten(Eliminated(blocks, out, aliased, statics, types)))
  {
    var next := Eliminated(blocks, out, aliased, statics, types);
    SettledReached(body, blocks);
    EliminatedSkeleton(blocks, out, aliased, statics, types);
    assert CutsNeeded(CodeOf(blocks));
    hide FullyReachable, WellFormed, MinimalCuts, Flatten, CutsNeeded, Eliminated, AllOneHolder, Reaches,
      SameSkeleton, Alike, OneHolder;
    SkeletonWellFormed(blocks, next);
    forall b | 0 <= b < |blocks|
      ensures Alike(CodeOf(blocks)[b], next[b])
    {
      EliminatedBlock(blocks, out, aliased, statics, types, b);
      CseBlockAlike(blocks[b].instructions, Meet(blocks[b].predecessors, out), aliased, statics, types);
    }
    SameCuts(CodeOf(blocks), next);
    SameReaches(blocks, next);
    AllReachable(WithCode(blocks, next));
  }

  lemma AllReachable(blocks: seq<BasicBlock>)
    requires WellFormed(blocks) && CutsNeeded(CodeOf(blocks)) && forall b: nat :: b < |blocks| ==> Reaches(blocks, 0, b)
    ensures FullyReachable(Flatten(CodeOf(blocks)))
  {
    hide WellFormed, CutsNeeded, Flatten, Reaches;
  }

  // ----- elimination keeps an occurrence of every taken address -----

  predicate NoKey(t: Table, k: Key) {
    forall a :: a in t ==> a.key != k
  }

  predicate Makes(i: Instr, k: Key, n: Scope) {
    ExprKey(i, n.types, n.aliased, n.statics) == Some(k)
  }

  lemma NoNewKey(i: Instr, t: Table, k: Key, n: Scope)
    requires NoKey(t, k) && !Makes(i, k, n)
    ensures NoKey(TransferAvail(i, t, n.aliased, n.statics, n.types), k)
  {
    hide ExprKey, IsReserved;
  }

  lemma {:induction false} NoNewKeys(instrs: seq<Instr>, t: Table, k: Key, n: Scope)
    requires NoKey(t, k) && forall j :: 0 <= j < |instrs| ==> !Makes(instrs[j], k, n)
    ensures NoKey(TransferAvails(instrs, t, n.aliased, n.statics, n.types), k)
  {
    hide TransferAvail, NoKey, Makes;
    if instrs != [] {
      NoNewKey(instrs[0], t, k, n);
      NoNewKeys(instrs[1..], TransferAvail(instrs[0], t, n.aliased, n.statics, n.types), k, n);
    }
  }

  lemma CopyMakesNothing(i: Instr, t: Table, k: Key, n: Scope)
    requires OneHolder(t) && !Makes(i, k, n)
    ensures !Makes(Replacement(i, t, n.aliased, n.statics, n.types), k, n)
  {
    hide IsReserved;
  }

  lemma FirstUse(i: Instr, t: Table, k: Key, n: Scope)
    requires OneHolder(t) && NoKey(t, k) && Makes(i, k, n)
    ensures Replacement(i, t, n.aliased, n.statics, n.types) == i
  {
    hide ExprKey;
  }

  /** The first computation of a key that is not available at the start of the block stays. */
  lemma {:induction false} FirstStays(instrs: seq<Instr>, t: Table, k: Key, n: Scope, last: nat) returns (j: nat)
    requires OneHolder(t) && NoKey(t, k) && last < |instrs| && Makes(instrs[last], k, n)
    ensures j < |instrs| && Makes(instrs[j], k, n) && CseBlock(instrs, t, n.aliased, n.statics, n.types)[j] == instrs[j]
    decreases |instrs|
  {
    hide NoKey, Makes, OneHolder, TransferAvail, Replacement;
    var i := Replacement(instrs[0], t, n.aliased, n.statics, n.types);
    TransferOneHolder(i, t, n.aliased, n.statics, n.types);
    if Makes(instrs[0], k, n) {
      FirstUse(instrs[0], t, k, n);
      j := 0;
    } else {
      CopyMakesNothing(instrs[0], t, k, n);
      NoNewKey(i, t, k, n);
      j := FirstStays(instrs[1..], TransferAvail(i, t, n.aliased, n.statics, n.types), k, n, last - 1);
      j := j + 1;
    }
  }

  lemma {:induction false} KeylessStays(instrs: seq<Instr>, t: Table, n: Scope, j: nat)
    requires OneHolder(t) && j < |instrs| && ExprKey(instrs[j], n.types, n.aliased, n.statics).None?
    ensures CseBlock(instrs, t, n.aliased, n.statics, n.types)[j] == instrs[j]
  {
    hide OneHolder, TransferAvail, ExprKey;
    var i := Replacement(instrs[0], t, n.aliased, n.statics, n.types);
    TransferOneHolder(i, t, n.aliased, n.statics, n.types);
    if j > 0 {
      hide Replacement;
      KeylessStays(instrs[1..], TransferAvail(i, t, n.aliased, n.statics, n.types), n, j - 1);
    }
  }

  predicate BlockMakes(blocks: seq<BasicBlock>, b: nat, k: Key, n: Scope) {
    b < |blocks| && exists j :: 0 <= j < |blocks[b].instructions| && Makes(blocks[b].instructions[j], k, n)
  }

  ghost predicate SolvedFor(blocks: seq<BasicBlock>, out: seq<Table>, n: Scope) {
    WellFormed(blocks) && AllOneHolder(out) && Solved(blocks, AvailTransfer(blocks, n.aliased, n.statics, n.types), out)
  }

  lemma OutNoKey(blocks: seq<BasicBlock>, out: seq<Table>, n: Scope, p: nat, k: Key)
    requires SolvedFor(blocks, out, n) && p < |blocks| && !BlockMakes(blocks, p, k, n)
    requires NoKey(Meet(blocks[p].predecessors, out), k)
    ensures |out| == |blocks| && NoKey(out[p], k)
  {
    hide WellFormed, AllOneHolder, Meet, NoKey, Makes, TransferAvails;
    assert out[p] == Outgoing(blocks, AvailTransfer(blocks, n.aliased, n.statics, n.types), out, p);
    NoNewKeys(blocks[p].instructions, Meet(blocks[p].predecessors, out), k, n);
  }

  lemma FirstNoKey(blocks: seq<BasicBlock>, out: seq<Table>, k: Key)
    requires WellFormed(blocks) && blocks != []
    ensures NoKey(Meet(blocks[0].predecessors, out), k)
  {
    assert Entry in blocks[0].predecessors;
    hide WellFormed;
  }

  /** A key that no block before computes is not available at the end of a path. */
  lemma {:induction false} NoKeyOnPath(blocks: seq<BasicBlock>, out: seq<Table>, n: Scope, path: seq<nat>, b: nat,
        k: Key)
    requires SolvedFor(blocks, out, n) && IsPath(blocks, path, 0, b)
    requires forall m :: 0 <= m < |path| - 1 ==> !BlockMakes(blocks, path[m], k, n)
    ensures b < |blocks| && NoKey(Meet(blocks[b].predecessors, out), k)
    decreases |path|
  {
    hide NoKey, BlockMakes, Meet, Solved, AllOneHolder;
    if |path| == 1 {
      FirstNoKey(blocks, out, k);
    } else {
      var p := path[|path| - 2];
      PathInit(blocks, path, 0, b);
      EdgeInto(blocks, p, b);
      hide WellFormed;
      NoKeyOnPath(blocks, out, n, path[..|path| - 1], p, k);
      OutNoKey(blocks, out, n, p, k);
      MeetBelowPredecessor(blocks[b].predecessors, out, p);
      FewerKeys(Meet(blocks[b].predecessors, out), out[p], k);
    }
  }

  lemma EdgeInto(blocks: seq<BasicBlock>, p: nat, b: nat)
    requires WellFormed(blocks) && HasEdge(blocks, p, b)
    ensures Block(p) in blocks[b].predecessors
  {
  }

  lemma FewerKeys(s: Table, t: Table, k: Key)
    requires s <= t && NoKey(t, k)
    ensures NoKey(s, k)
  {
  }

  /** Somewhere on a path to a computation of a key, the first computation of it stays. */
  lemma {:induction false} KeyStays(blocks: seq<BasicBlock>, out: seq<Table>, n: Scope, path: seq<nat>, b: nat, k: Key)
    returns (a: nat, j: nat)
    requires SolvedFor(blocks, out, n) && IsPath(blocks, path, 0, b) && BlockMakes(blocks, b, k, n)
    ensures a < |blocks| && j < |blocks[a].instructions| && Makes(blocks[a].instructions[j], k, n)
    ensures var next := Eliminated(blocks, out, n.aliased, n.statics, n.types);
      |next[a]| == |blocks[a].instructions| && next[a][j] == blocks[a].instructions[j]
    decreases |path|
  {
    hide WellFormed, Meet, Solved, AllOneHolder, NoKey, Makes, Eliminated, OneHolder, AvailTransfer;
    if m :| 0 <= m < |path| - 1 && BlockMakes(blocks, path[m], k, n) {
      assert IsPath(blocks, path[..m + 1], 0, path[m]);
      a, j := KeyStays(blocks, out, n, path[..m + 1], path[m], k);
    } else {
      NoKeyOnPath(blocks, out, n, path, b, k);
      EliminatedBlock(blocks, out, n.aliased, n.statics, n.types, b);
      var last: nat :| last < |blocks[b].instructions| && Makes(blocks[b].instructions[last], k, n);
      a := b;
      j := FirstStays(blocks[b].instructions, Meet(blocks[b].predecessors, out), k, n, last);
    }
  }

  /** Addresses taken by some instruction of the body. */
  lemma TakenIn(body: seq<Instr>, x: Name)
    ensures x in AddressTaken(body) <==> exists i :: i in body && i.GetAddress? && i.taken == x
  {
    if x in AddressTaken(body) {
      var k :| 0 <= k < |body| && body[k].GetAddress? && body[k].taken == x;
      assert body[k] in body;
    }
  }

  lemma MakesAddress(i: Instr, k: Key, n: Scope, x: Name, ty: CType)
    requires k == GetAddressKey(x, ty)
    ensures Makes(i, k, n) ==> i.GetAddress? && i.taken == x
  {
    hide IsReserved;
  }

  lemma AddressMakes(i: Instr, n: Scope)
    requires i.GetAddress?
    ensures ExprKey(i, n.types, n.aliased, n.statics).None? || exists ty :: Makes(i, GetAddressKey(i.taken, ty), n)
  {
    if ExprKey(i, n.types, n.aliased, n.statics).Some? {
      assert Makes(i, GetAddressKey(i.taken, TypeOf(n.types, i.dst)), n) by { hide IsReserved; }
    }
  }

  /** An address that reached code takes is still taken after elimination. */
  lemma StillTaken(blocks: seq<BasicBlock>, out: seq<Table>, n: Scope, b: nat, last: nat)
    requires SolvedFor(blocks, out, n) && b < |blocks| && Reaches(blocks, 0, b)
    requires last < |blocks[b].instructions| && blocks[b].instructions[last].GetAddress?
    ensures var next := Eliminated(blocks, out, n.aliased, n.statics, n.types);
      exists a, i :: 0 <= a < |next| && i in next[a] && i.GetAddress? && i.taken == blocks[b].instructions[last].taken
  {
    hide WellFormed, Meet, Solved, AllOneHolder, Makes, Eliminated, OneHolder, AvailTransfer, ExprKey;
    var i, next := blocks[b].instructions[last], Eliminated(blocks, out, n.aliased, n.statics, n.types);
    AddressMakes(i, n);
    if ExprKey(i, n.types, n.aliased, n.statics).None? {
      EliminatedBlock(blocks, out, n.aliased, n.statics, n.types, b);
      KeylessStays(blocks[b].instructions, Meet(blocks[b].predecessors, out), n, last);
      assert next[b][last] in next[b];
    } else {
      var ty :| Makes(i, GetAddressKey(i.taken, ty), n);
      var path :| IsPath(blocks, path, 0, b);
      assert BlockMakes(blocks, b, GetAddressKey(i.taken, ty), n);
      var a, j := KeyStays(blocks, out, n, path, b, GetAddressKey(i.taken, ty));
      MakesAddress(blocks[a].instructions[j], GetAddressKey(i.taken, ty), n, i.taken, ty);
      assert next[a][j] in next[a];
    }
  }

  /** Elimination in a body that is reached everywhere takes the same addresses. */
  lemma SameTaken(blocks: seq<BasicBlock>, out: seq<Table>, n: Scope)
    requires SolvedFor(blocks, out, n) && forall b: nat :: b < |blocks| ==> Reaches(blocks, 0, b)
    ensures AddressTaken(Flatten(Eliminated(blocks, out, n.aliased, n.statics, n.types)))
      == AddressTaken(Flatten(CodeOf(blocks)))
  {
    var code, next := CodeOf(blocks), Eliminated(blocks, out, n.aliased, n.statics, n.types);
    var p, q := Flatten(code), Flatten(next);
    EliminatedAlike(blocks, out, n.aliased, n.statics, n.types);
    FlattenMembers(code);
    FlattenMembers(next);
    hide WellFormed, Meet, Solved, AllOneHolder, Eliminated, OneHolder, AvailTransfer, Flatten, Reaches, AddressTaken;
    forall x
      ensures x in AddressTaken(p) <==> x in AddressTaken(q)
    {
      TakenIn(p, x);
      TakenIn(q, x);
      if x in AddressTaken(q) {
        var i :| i in q && i.GetAddress? && i.taken == x;
        var k :| 0 <= k < |q| && q[k] == i;
        assert AlikeAt(p[k], q[k]) && p[k] in p;
      }
      if x in AddressTaken(p) {
        var i :| i in p && i.GetAddress? && i.taken == x;
        var b :| 0 <= b < |code| && i in code[b];
        var last :| 0 <= last < |code[b]| && code[b][last] == i;
        StillTaken(blocks, out, n, b, last);
      }
    }
  }

  // ----- the sequence -----

  /** The three flags; folding, copy propagation and loop-invariant code motion are off. */
  datatype Flags = Flags(unreachable: bool, commonSubexpressions: bool, deadStores: bool)

  const MAX_CLEANUP_ITERATIONS := 8

  /** `run_post_transform_cleanup` */
  method RunPostTransformCleanup(body: seq<Instr>, flags: Flags) returns (result: seq<Instr>)
    requires UniqueLabels(body)
    ensures UniqueLabels(result)
    ensures if flags.unreachable && body != [] then Reduces(body, result) && Settled(result) else result == body
    ensures Settled(body) ==> result == body
  {
    hide Settled, Reduces, UniqueLabels;
    result := body;
    if !flags.unreachable {
      return;
    }
    ReducesSelf(body);
    for k := 0 to MAX_CLEANUP_ITERATIONS
      invariant Reduces(body, result) && (k > 0 ==> Settled(result)) && (k == 0 || Settled(body) ==> result == body)
      invariant body == [] ==> result == []
    {
      ReducesUnique(body, result);
      var changed := false;
      if result != [] {
        ghost var before := result;
        result, changed := UnreachableCodeElimination(result);
        ReducesTransitive(body, before, result);
      }
      if !changed || result == [] {
        break;
      }
    }
    ReducesUnique(body, result);
  }

  /** `function_aliased_vars` */
  method FunctionAliasedVars(body: seq<Instr>, params: set<Name>, statics: set<Name>) returns (aliased: set<Name>)
    ensures aliased == statics + AddressTaken(body) + params
  {
    aliased := FindAliasedVars(body, statics);
    aliased := aliased + params;
  }

  /** Common subexpressions in a body; in a settled one the result is settled and takes the same addresses. */
  method EliminateCommon(body: seq<Instr>, n: Scope) returns (result: seq<Instr>)
    requires UniqueLabels(body)
    ensures CsePreserved([body], [result], n.aliased, n.statics, n.types) && UniqueLabels(result)
    ensures Settled(body) ==> Settled(result) && AddressTaken(result) == AddressTaken(body)
  {
    hide Settled, CsePreserved, UniqueLabels, AddressTaken, Flatten, MinimalCuts, CutsNeeded;
    var cfg := new Cfg.Build(body);
    ghost var blocks := cfg.blocks;
    MinimalBuilt(blocks);
    hide WellFormed;
    var changed, out := CommonSubexpressionElimination(cfg, n.types, n.aliased, n.statics);
    result := cfg.IntoInstructions();
    ThroughGraph(blocks, cfg.blocks, n);
    if Settled(body) {
      EliminatedSettled(body, blocks, out, n.aliased, n.statics, n.types);
      ReachedWhenSettled(body, blocks);
      SameTaken(blocks, out, n);
    }
  }

  lemma ReachedWhenSettled(body: seq<Instr>, blocks: seq<BasicBlock>)
    requires Settled(body) && WellFormed(blocks) && MinimalCuts(CodeOf(blocks)) && Flatten(CodeOf(blocks)) == body
    ensures forall b: nat :: b < |blocks| ==> Reaches(blocks, 0, b)
  {
    hide WellFormed, MinimalCuts, Flatten, Threaded, Cleaned, FullyReachable, Reaches;
    SettledReached(body, blocks);
  }

  lemma ThroughGraph(was: seq<BasicBlock>, now: seq<BasicBlock>, n: Scope)
    requires WellFormed(was) && WellFormed(now) && CsePreserved(CodeOf(was), CodeOf(now), n.aliased, n.statics, n.types)
    ensures CsePreserved([Flatten(CodeOf(was))], [Flatten(CodeOf(now))], n.aliased, n.statics, n.types)
    ensures UniqueLabels(Flatten(CodeOf(now)))
  {
    hide CsePreserved, UniqueLabels;
    FlatCsePreserved(CodeOf(was), CodeOf(now), n.aliased, n.statics, n.types);
    UniqueInBody(CodeOf(now));
  }

  /** The functions the sequence may assume, once the addresses its code takes are known. */
  ghost predicate Allowed(c: Ctx, n: Scope) {
    Confined(c) && CseLawful(c.machine) && c.aliased == n.aliased && c.statics == n.statics && c.types == n.types
  }

  /** Allowed functions behave the same with both bodies. */
  ghost predicate Agrees(p: seq<Instr>, q: seq<Instr>, n: Scope) {
    forall c: Ctx, d: Data :: Allowed(c, n) && DataSafe(d, n.aliased) ==> Equivalent(c, [p], [q], d)
  }

  lemma AgreesTransitive(p: seq<Instr>, q: seq<Instr>, r: seq<Instr>, n: Scope)
    requires Agrees(p, q, n) && Agrees(q, r, n)
    ensures Agrees(p, r, n)
  {
    hide Allowed, DataSafe, Equivalent;
    forall c: Ctx, d: Data | Allowed(c, n) && DataSafe(d, n.aliased)
      ensures Equivalent(c, [p], [r], d)
    {
      EquivalentTransitive(c, [p], [q], [r], d);
    }
  }

  lemma AgreesSelf(p: seq<Instr>, n: Scope)
    ensures Agrees(p, p, n)
  {
    hide Allowed, DataSafe, Equivalent;
    forall c: Ctx, d: Data
      ensures Equivalent(c, [p], [p], d)
    {
      EquivalentReflexive(c, [p], d);
    }
  }

  lemma ReducesAgrees(p: seq<Instr>, q: seq<Instr>, n: Scope)
    requires Reduces(p, q)
    ensures Agrees(p, q, n)
  {
    hide Allowed, DataSafe, Equivalent, UniqueLabels, TargetsDefined;
  }

  lemma TakenConfined(p: seq<Instr>, a: set<Name>)
    requires AddressTaken(p) <= a
    ensures CodeConfined([p], a)
  {
    forall k | 0 <= k < |p| && p[k].GetAddress?
      ensures p[k].taken in a
    {
      assert p[k].taken in AddressTaken(p);
    }
  }

  lemma CseAgrees(p: seq<Instr>, q: seq<Instr>, n: Scope)
    requires CsePreserved([p], [q], n.aliased, n.statics, n.types) && AddressTaken(p) <= n.aliased
    ensures Agrees(p, q, n)
  {
    TakenConfined(p, n.aliased);
    hide DataSafe, Equivalent, Confined, CseLawful, CodeConfined, AddressTaken;
  }

  lemma StoresAgree(p: seq<Instr>, q: seq<Instr>, n: Scope)
    requires Preserved([p], [q], n.aliased, n.statics) && AddressTaken(p) <= n.aliased
    ensures Agrees(p, q, n)
  {
    TakenConfined(p, n.aliased);
    hide DataSafe, Equivalent, Confined, CseLawful, CodeConfined, AddressTaken;
  }

  /** `optimize_function` under these flags: the result behaves like the body in every function whose aliased
      variables are the parameters, the statics and what the body takes the address of once unreachable code is
      gone. Every pass recomputes the aliased variables; they come out the same, because elimination leaves
      nothing to clean up and an occurrence of every address. */
  method OptimizeFunction(body: seq<Instr>, params: set<Name>, types: Types, statics: set<Name>, flags: Flags)
    returns (result: seq<Instr>, ghost cleaned: seq<Instr>)
    requires UniqueLabels(body)
    ensures UniqueLabels(result)
    ensures if flags.unreachable && body != [] then Reduces(body, cleaned) && Settled(cleaned) else cleaned == body
    ensures flags.unreachable || !flags.commonSubexpressions || !flags.deadStores ==>
      Agrees(body, result, Scope(types, statics + AddressTaken(cleaned) + params, statics))
  {
    hide Settled, Reduces, UniqueLabels, AddressTaken, Agrees, CsePreserved, Preserved;
    result := RunPostTransformCleanup(body, flags);
    cleaned := result;
    ghost var n := Scope(types, statics + AddressTaken(cleaned) + params, statics);
    AgreesSelf(body, n);
    CleanupAgrees(body, result, flags, n);
    if body == [] {
      return;
    }
    if flags.commonSubexpressions && result != [] {
      var aliased := FunctionAliasedVars(result, params, statics);
      ghost var before := result;
      result := EliminateCommon(result, Scope(types, aliased, statics));
      CseAgrees(before, result, n);
      AgreesTransitive(body, before, result, n);
      ghost var after := result;
      result := RunPostTransformCleanup(result, flags);
      CleanupAgrees(after, result, flags, n);
      AgreesTransitive(body, after, result, n);
    }
    if flags.deadStores && result != [] {
      var aliased := FunctionAliasedVars(result, params, statics);
      ghost var same := flags.unreachable || !flags.commonSubexpressions;
      assert same ==> aliased == n.aliased;
      ghost var before := result;
      var changed;
      result, changed := RunDeadStoreElimination(result, aliased, statics);
      if same {
        StoresAgree(before, result, n);
        AgreesTransitive(body, before, result, n);
      }
      if changed && flags.unreachable {
        ghost var after := result;
        result := RunPostTransformCleanup(result, flags);
        CleanupAgrees(after, result, flags, n);
        AgreesTransitive(body, after, result, n);
      }
    }
  }

  lemma CleanupAgrees(p: seq<Instr>, q: seq<Instr>, flags: Flags, n: Scope)
    requires if flags.unreachable && p != [] then Reduces(p, q) else q == p
    ensures Agrees(p, q, n)
  {
    hide Reduces, Agrees;
    if q == p {
      AgreesSelf(p, n);
    } else {
      ReducesAgrees(p, q, n);
    }
  }
}
