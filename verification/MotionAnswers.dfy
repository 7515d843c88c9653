/** What loop-invariant code motion leaves: no instruction of a header whose operands its loop does not
    change, told by paths and positions. */
module MotionAnswers {
  import opened Tacky
  import opened Semantics
  import opened ControlFlow
  import opened Operands
  import opened Paths
  import opened Worklists
  import opened Dominators
  import opened Loops
  import opened HoistingRuns
  import opened Hoisting
  import opened LoopMotion

  // ----- loops and what is invariant in them -----

  predicate Assigns(i: Instr, x: Name) {
    Overwrites(i, x) || (i.CopyToOffset? && i.dstName == x)
  }

  /** Runs enter at block 0, or at a block without a predecessor block. */
  ghost predicate Enters(blocks: seq<BasicBlock>, r: nat) {
    r == 0 || forall p: nat :: !HasEdge(blocks, p, r)
  }

  /** An edge from `t` back to `h`, which every path to `t` passes. */
  ghost predicate LoopsBack(blocks: seq<BasicBlock>, h: nat, t: nat) {
    HasEdge(blocks, t, h) && forall r: nat, path {:trigger IsPath(blocks, path, r, t)} ::
      Enters(blocks, r) && IsPath(blocks, path, r, t) ==> h in path
  }

  /** The block is the header, or reaches the end of the loop without passing it. */
  ghost predicate Inside(blocks: seq<BasicBlock>, h: nat, t: nat, b: nat) {
    b == h || exists path :: IsPath(blocks, path, b, t) && h !in path
  }

  /** The header has one entry from outside the loop, listed once, in front of a block that leads nowhere else. */
  ghost predicate EnteredFrom(blocks: seq<BasicBlock>, h: nat, t: nat, p: nat) {
    && h < |blocks| && p < |blocks| && !Inside(blocks, h, t, p) && blocks[p].successors == [Block(h)]
    && exists j :: 0 <= j < |blocks[h].predecessors| && blocks[h].predecessors[j] == Block(p)
         && forall k :: 0 <= k < |blocks[h].predecessors| && k != j && blocks[h].predecessors[k].Block? ==>
              Inside(blocks, h, t, blocks[h].predecessors[k].id)
  }

  /** Computing it again changes nothing else, and cannot fail. */
  predicate Harmless(i: Instr) {
    || i.Copy? || i.Unary? || i.GetAddress? || i.CopyFromOffset? || i.AddPtr?
    || (i.Binary? && i.bop != Div && i.bop != Mod)
    || (i.Convert? && i.kind !in {DoubleToInt, FloatToInt, DoubleToUInt, FloatToUInt})
  }

  /** A compiler temporary that nobody else can reach. */
  ghost predicate Temporary(x: Name, lim: Limits) {
    && (("__rnqcc_tmp." <= x) || exists k :: 0 <= k <= |x| && ".__rnqcc_tmp." <= x[k..])
    && x !in lim.aliased && x !in lim.statics
    && (x in lim.types ==> lim.types[x] != Struct && lim.types[x] != Void && lim.types[x] != LongDouble)
  }

  ghost predicate AssignedIn(blocks: seq<BasicBlock>, h: nat, t: nat, x: Name) {
    exists b: nat, i :: b < |blocks| && Inside(blocks, h, t, b) && i in blocks[b].instructions && Assigns(i, x)
  }

  ghost predicate WritesMemoryIn(blocks: seq<BasicBlock>, h: nat, t: nat) {
    exists b: nat, i ::
      b < |blocks| && Inside(blocks, h, t, b) && i in blocks[b].instructions
        && (i.FunCall? || i.Store? || i.CopyToOffset?)
  }

  /** In the loop, nothing but the instruction at position `k` of block `c` assigns the variable. */
  ghost predicate OnlyAssignedAt(blocks: seq<BasicBlock>, h: nat, t: nat, c: nat, k: nat, x: Name) {
    forall b: nat, j: nat ::
      (b < |blocks| && Inside(blocks, h, t, b) && j < |blocks[b].instructions| && Assigns(blocks[b].instructions[j], x))
      ==> b == c && j == k
  }

  /** The instruction at position `k` of the header is the only one in the loop that assigns its temporary,
      and computes it from what the loop does not change. */
  ghost predicate Invariant(blocks: seq<BasicBlock>, h: nat, t: nat, k: nat, lim: Limits)
    requires h < |blocks| && k < |blocks[h].instructions|
  {
    var i := blocks[h].instructions[k];
    && Harmless(i) && (i.CopyFromOffset? ==> !WritesMemoryIn(blocks, h, t))
    && (exists x :: Overwrites(i, x) && Temporary(x, lim) && OnlyAssignedAt(blocks, h, t, h, k, x))
    && (i.GetAddress? || forall y :: ReadsVar(i, y) ==>
          y !in lim.aliased && y !in lim.statics && !AssignedIn(blocks, h, t, y))
  }

  /** No header with a block of its own in front has such an instruction. */
  ghost predicate NoInvariantLeft(blocks: seq<BasicBlock>, lim: Limits) {
    forall h: nat, t: nat, p: nat, k: nat ::
      LoopsBack(blocks, h, t) && EnteredFrom(blocks, h, t, p) && k < |blocks[h].instructions| ==>
      !Invariant(blocks, h, t, k, lim)
  }

  // ----- the loops are those of the pass -----

  lemma RootEnters(blocks: seq<BasicBlock>, r: nat)
    requires EdgesMatch(blocks) && IsRoot(blocks, r)
    ensures Enters(blocks, r)
  {
    forall p: nat | HasEdge(blocks, p, r)
      ensures p in Ids(blocks[r].predecessors)
    {
      InIds(blocks[r].predecessors, p);
    }
  }

  lemma LoopsBackDominates(blocks: seq<BasicBlock>, h: nat, t: nat)
    requires EdgesMatch(blocks) && LoopsBack(blocks, h, t)
    ensures Dominates(blocks, h, t)
  {
    hide EdgesMatch, Enters, IsRoot, IsPath, HasEdge;
    forall r: nat, path | IsRoot(blocks, r) && IsPath(blocks, path, r, t)
      ensures h in path
    {
      RootEnters(blocks, r);
    }
  }

  lemma InsideIsInLoop(blocks: seq<BasicBlock>, h: nat, t: nat, b: nat)
    ensures Inside(blocks, h, t, b) <==> InLoop(blocks, h, t, b)
    ensures h < |blocks| && Inside(blocks, h, t, b) ==> b < |blocks|
  {
  }

  ghost function Members(blocks: seq<BasicBlock>, h: nat, t: nat): (members: set<nat>)
    requires h < |blocks|
    ensures forall b: nat :: b in members <==> Inside(blocks, h, t, b)
  {
    assert forall b: nat :: Inside(blocks, h, t, b) ==> b < |blocks| by {
      forall b: nat
        ensures Inside(blocks, h, t, b) ==> b < |blocks|
      {
        InsideIsInLoop(blocks, h, t, b);
      }
    }
    set b | b in BlockSet(|blocks|) && Inside(blocks, h, t, b)
  }

  lemma IsTheBackEdge(blocks: seq<BasicBlock>, h: nat, t: nat)
    requires EdgesMatch(blocks) && LoopsBack(blocks, h, t)
    ensures h < |blocks| && IsBackEdge(blocks, BackEdge(h, t, Members(blocks, h, t)))
  {
    hide EdgesMatch, Dominates, Inside, InLoop;
    LoopsBackDominates(blocks, h, t);
    forall b: nat
      ensures Inside(blocks, h, t, b) <==> InLoop(blocks, h, t, b)
    {
      InsideIsInLoop(blocks, h, t, b);
    }
  }

  lemma {:induction false} OutsideNone(preds: seq<NodeId>, members: set<nat>)
    requires forall k :: 0 <= k < |preds| && preds[k].Block? ==> preds[k].id in members
    ensures Outside(preds, members) == []
  {
    if preds != [] {
      assert forall k :: 0 <= k < |preds[1..]| ==> preds[1..][k] == preds[k + 1];
      OutsideNone(preds[1..], members);
    }
  }

  lemma {:induction false} OutsideOne(preds: seq<NodeId>, members: set<nat>, j: nat, p: nat)
    requires j < |preds| && preds[j] == Block(p) && p !in members
    requires forall k :: 0 <= k < |preds| && k != j && preds[k].Block? ==> preds[k].id in members
    ensures Outside(preds, members) == [p]
  {
    assert forall k :: 0 <= k < |preds[1..]| ==> preds[1..][k] == preds[k + 1];
    if j == 0 {
      OutsideNone(preds[1..], members);
    } else {
      OutsideOne(preds[1..], members, j - 1, p);
    }
  }

  lemma IsThePreheader(blocks: seq<BasicBlock>, h: nat, t: nat, p: nat)
    requires EnteredFrom(blocks, h, t, p)
    ensures IsPreheader(blocks, h, Members(blocks, h, t), p)
  {
    hide Inside;
    var preds := blocks[h].predecessors;
    var j :| 0 <= j < |preds| && preds[j] == Block(p) && forall k :: 0 <= k < |preds| && k != j && preds[k].Block? ==>
      Inside(blocks, h, t, preds[k].id);
    OutsideOne(preds, Members(blocks, h, t), j, p);
  }

  // ----- counting -----

  lemma AssignsIsDefinition(i: Instr, x: Name)
    ensures Assigns(i, x) <==> DefinedVar(i) == Some(x)
  {
  }

  lemma {:induction false} CountNone(instrs: seq<Instr>, x: Name)
    requires forall j :: 0 <= j < |instrs| ==> DefinedVar(instrs[j]) != Some(x)
    ensures CountDefs(instrs, x) == 0
  {
    if instrs != [] {
      assert forall j :: 0 <= j < |instrs[1..]| ==> instrs[1..][j] == instrs[j + 1];
      CountNone(instrs[1..], x);
    }
  }

  lemma {:induction false} CountOne(instrs: seq<Instr>, k: nat, x: Name)
    requires k < |instrs| && DefinedVar(instrs[k]) == Some(x)
    requires forall j :: 0 <= j < |instrs| && j != k ==> DefinedVar(instrs[j]) != Some(x)
    ensures CountDefs(instrs, x) == 1
  {
    assert forall j :: 0 <= j < |instrs[1..]| ==> instrs[1..][j] == instrs[j + 1];
    if k == 0 {
      CountNone(instrs[1..], x);
    } else {
      CountOne(instrs[1..], k - 1, x);
    }
  }

  lemma {:induction false} LoopDefsNone(code: Code, members: set<nat>, x: Name, n: nat)
    requires n <= |code| && forall b :: b in members && b < n ==> CountDefs(code[b], x) == 0
    ensures LoopDefs(code, members, x, n) == 0
  {
    if n > 0 {
      LoopDefsNone(code, members, x, n - 1);
    }
  }

  lemma {:induction false} LoopDefsOne(code: Code, members: set<nat>, x: Name, n: nat, c: nat)
    requires n <= |code| && c in members && c < n && CountDefs(code[c], x) == 1
    requires forall b :: b in members && b < n && b != c ==> CountDefs(code[b], x) == 0
    ensures LoopDefs(code, members, x, n) == 1
  {
    if c == n - 1 {
      LoopDefsNone(code, members, x, n - 1);
    } else {
      LoopDefsOne(code, members, x, n - 1, c);
    }
  }

  ghost function AllAssigned(code: Code): set<Name> {
    set b, k | 0 <= b < |code| && 0 <= k < |code[b]| && DefinedVar(code[b][k]).Some? :: DefinedVar(code[b][k]).value
  }

  /** The counts of a loop exist. */
  lemma InfoExists(code: Code, members: set<nat>) returns (info: LoopInfo)
    ensures IsInfo(code, members, info)
  {
    var counts := map x | x in AllAssigned(code) && LoopDefs(code, members, x, |code|) > 0 ::
      LoopDefs(code, members, x, |code|);
    info := LoopInfo(counts, WritesMemory(code, members));
    forall x
      ensures CountOf(counts, x) == LoopDefs(code, members, x, |code|)
    {
      if x !in AllAssigned(code) {
        forall b | b in members && b < |code|
          ensures CountDefs(code[b], x) == 0
        {
          CountNone(code[b], x);
        }
        LoopDefsNone(code, members, x, |code|);
      }
    }
  }

  // ----- an invariant instruction can be moved -----

  lemma MoreDefs(lim: Limits, info: LoopInfo, i: Instr, defs: set<Name>)
    requires IsCandidate(lim, info, i, {})
    ensures IsCandidate(lim, info, i, defs)
  {
    hide IsPure, IsLicmTemporary, UntouchedType;
  }

  lemma {:induction false} CandidatePicked(lim: Limits, info: LoopInfo, instrs: seq<Instr>, k: nat, defs: set<Name>)
    requires k < |instrs| && IsCandidate(lim, info, instrs[k], {})
    ensures Picks(lim, info, instrs, defs) != []
  {
    hide IsCandidate;
    if k == 0 {
      MoreDefs(lim, info, instrs[0], defs);
    } else if !IsCandidate(lim, info, instrs[0], defs) {
      CandidatePicked(lim, info, instrs[1..], k - 1, defs);
    }
  }

  lemma {:induction false} SomethingHoisted(lim: Limits, info: LoopInfo, code: Code, chosen: set<nat>, n: nat, h: nat,
        k: nat)
    requires h < n <= |code| && h in chosen && k < |code[h]| && IsCandidate(lim, info, code[h][k], {})
    ensures HoistUpTo(lim, info, code, chosen, n).hoisted != []
    decreases n
  {
    hide IsCandidate, Picks, Keeps;
    if h == n - 1 {
      CandidatePicked(lim, info, code[h], k, HoistUpTo(lim, info, code, chosen, n - 1).defs);
    } else {
      SomethingHoisted(lim, info, code, chosen, n - 1, h, k);
    }
  }

  lemma TemporaryName(x: Name, lim: Limits)
    requires Temporary(x, lim)
    ensures IsLicmTemporary(x) && !UntouchedType(lim.types, x)
  {
    assert "." + TEMPORARY == ".__rnqcc_tmp.";
  }

  lemma AssignedOnce(blocks: seq<BasicBlock>, h: nat, t: nat, k: nat, x: Name, info: LoopInfo)
    requires h < |blocks| && k < |blocks[h].instructions| && Assigns(blocks[h].instructions[k], x)
    requires OnlyAssignedAt(blocks, h, t, h, k, x) && IsInfo(CodeOf(blocks), Members(blocks, h, t), info)
    ensures CountOf(info.counts, x) == 1
  {
    hide Inside, Assigns, CountDefs, LoopDefs;
    var code, members := CodeOf(blocks), Members(blocks, h, t);
    forall b | b in members && b < |code| && b != h
      ensures CountDefs(code[b], x) == 0
    {
      NotAssigned(blocks, h, t, h, k, b, x);
    }
    HeaderInside(blocks, h, t);
    forall j: nat | j < |code[h]|
      ensures DefinedVar(code[h][j]) == Some(x) <==> j == k
    {
      assert Assigns(blocks[h].instructions[j], x) ==> j == k;
      AssignsIsDefinition(code[h][j], x);
    }
    CountOne(code[h], k, x);
    LoopDefsOne(code, members, x, |code|, h);
  }

  lemma HeaderInside(blocks: seq<BasicBlock>, h: nat, t: nat)
    ensures Inside(blocks, h, t, h)
  {
  }

  lemma NotAssigned(blocks: seq<BasicBlock>, h: nat, t: nat, c: nat, k: nat, b: nat, x: Name)
    requires OnlyAssignedAt(blocks, h, t, c, k, x) && b < |blocks| && Inside(blocks, h, t, b) && b != c
    ensures CountDefs(CodeOf(blocks)[b], x) == 0
  {
    hide Inside, Assigns;
    var instrs := blocks[b].instructions;
    forall j | 0 <= j < |instrs|
      ensures DefinedVar(instrs[j]) != Some(x)
    {
      AssignsIsDefinition(instrs[j], x);
    }
    CountNone(instrs, x);
  }

  lemma NeverAssigned(blocks: seq<BasicBlock>, h: nat, t: nat, y: Name, info: LoopInfo)
    requires h < |blocks| && !AssignedIn(blocks, h, t, y) && IsInfo(CodeOf(blocks), Members(blocks, h, t), info)
    ensures CountOf(info.counts, y) == 0
  {
    hide Inside, Assigns, LoopDefs;
    var code, members := CodeOf(blocks), Members(blocks, h, t);
    forall b | b in members && b < |code|
      ensures CountDefs(code[b], y) == 0
    {
      forall j | 0 <= j < |code[b]|
        ensures DefinedVar(code[b][j]) != Some(y)
      {
        AssignsIsDefinition(code[b][j], y);
        assert code[b][j] in blocks[b].instructions;
      }
      CountNone(code[b], y);
    }
    LoopDefsNone(code, members, y, |code|);
  }

  lemma SameMemoryWrites(blocks: seq<BasicBlock>, h: nat, t: nat)
    requires h < |blocks|
    ensures WritesMemory(CodeOf(blocks), Members(blocks, h, t)) <==> WritesMemoryIn(blocks, h, t)
  {
    hide Inside;
    var code, members := CodeOf(blocks), Members(blocks, h, t);
    if b, i :| b in members && b < |code| && i in code[b] && IsMemoryWrite(i) {
      assert i in blocks[b].instructions && Inside(blocks, h, t, b);
    }
    if WritesMemoryIn(blocks, h, t) {
      var b: nat, i :| b < |blocks| && Inside(blocks, h, t, b) && i in blocks[b].instructions
        && (i.FunCall? || i.Store? || i.CopyToOffset?);
      assert b in members && i in code[b] && IsMemoryWrite(i);
    }
  }

  lemma InvariantIsCandidate(blocks: seq<BasicBlock>, h: nat, t: nat, k: nat, lim: Limits, info: LoopInfo)
    requires h < |blocks| && k < |blocks[h].instructions| && Invariant(blocks, h, t, k, lim)
    requires IsInfo(CodeOf(blocks), Members(blocks, h, t), info)
    ensures IsCandidate(lim, info, blocks[h].instructions[k], {})
  {
    hide IsInfo, Temporary, OnlyAssignedAt, AssignedIn, WritesMemoryIn, Members, IsLicmTemporary, UntouchedType;
    var i := blocks[h].instructions[k];
    var x :| Overwrites(i, x) && Temporary(x, lim) && OnlyAssignedAt(blocks, h, t, h, k, x);
    TemporaryName(x, lim);
    AssignedOnce(blocks, h, t, k, x, info);
    TemporaryReach(x, lim);
    ReadsAreSources(i, x);
    InfoMemory(blocks, h, t, info);
    if !i.GetAddress? {
      forall s | s in SourceVars(i)
        ensures OperandInvariant(lim, info, s, {})
      {
        ReadsAreSources(i, s);
        NeverAssigned(blocks, h, t, s, info);
      }
    }
    hide SourceVars, ReadsVar, Overwrites, OperandInvariant;
  }

  lemma TemporaryReach(x: Name, lim: Limits)
    requires Temporary(x, lim)
    ensures x !in lim.aliased && x !in lim.statics
  {
  }

  lemma InfoMemory(blocks: seq<BasicBlock>, h: nat, t: nat, info: LoopInfo)
    requires h < |blocks| && IsInfo(CodeOf(blocks), Members(blocks, h, t), info)
    ensures info.writesMemory <==> WritesMemoryIn(blocks, h, t)
  {
    hide WritesMemory, WritesMemoryIn, Members;
    SameMemoryWrites(blocks, h, t);
  }

  /** With an invariant instruction in a header there is a move. */
  lemma InvariantMoves(blocks: seq<BasicBlock>, h: nat, t: nat, p: nat, k: nat, lim: Limits) returns (mv: Move)
    requires EdgesMatch(blocks) && LoopsBack(blocks, h, t) && EnteredFrom(blocks, h, t, p)
    requires k < |blocks[h].instructions| && Invariant(blocks, h, t, k, lim)
    ensures IsMove(blocks, lim, mv)
  {
    hide EdgesMatch, LoopsBack, Invariant, IsBackEdge, IsPreheader, IsInfo, IsCandidate, HoistUpTo, Inside;
    var members := Members(blocks, h, t);
    IsTheBackEdge(blocks, h, t);
    IsThePreheader(blocks, h, t, p);
    var info := InfoExists(CodeOf(blocks), members);
    InvariantIsCandidate(blocks, h, t, k, lim, info);
    HeaderChosen(blocks, h, t);
    SomethingHoisted(lim, info, CodeOf(blocks), ChosenBlocks(blocks, members), |blocks|, h, k);
    mv := Move(BackEdge(h, t, members), p, info,
      HoistUpTo(lim, info, CodeOf(blocks), ChosenBlocks(blocks, members), |blocks|));
  }

  lemma HeaderChosen(blocks: seq<BasicBlock>, h: nat, t: nat)
    requires EdgesMatch(blocks) && LoopsBack(blocks, h, t)
    ensures h < |blocks| && h in ChosenBlocks(blocks, Members(blocks, h, t))
  {
    hide Inside, InLoop, Dominates, EdgesMatch;
    LoopsBackDominates(blocks, h, t);
    HeaderInside(blocks, h, t);
    forall b: nat | Inside(blocks, h, t, b)
      ensures Dominates(blocks, h, b)
    {
      InsideIsInLoop(blocks, h, t, b);
      HeaderDominatesLoop(blocks, h, t, b);
    }
  }

  /** Where no move is left, no invariant instruction is. */
  lemma NoMoveNoInvariant(blocks: seq<BasicBlock>, lim: Limits)
    requires EdgesMatch(blocks) && forall mv :: !IsMove(blocks, lim, mv)
    ensures NoInvariantLeft(blocks, lim)
  {
    hide EdgesMatch, LoopsBack, Invariant, IsMove, Inside;
    forall h: nat, t: nat, p: nat, k: nat
      | LoopsBack(blocks, h, t) && EnteredFrom(blocks, h, t, p) && k < |blocks[h].instructions|
      ensures !Invariant(blocks, h, t, k, lim)
    {
      if Invariant(blocks, h, t, k, lim) {
        var mv := InvariantMoves(blocks, h, t, p, k, lim);
      }
    }
  }
}
