/** What elimination of common subexpressions finds: exactly the computations whose value another
    variable has, told without its tables. */
module CseFinds {
  import opened Tacky
  import opened ControlFlow
  import opened CopyFacts
  import opened Operands
  import opened Paths
  import opened AvailableExprs
  import opened MustAnalysis
  import opened SameExprs
  import opened Cse

  // ----- keys are expressions -----

  lemma {:induction false} NamesOrdered(a: Name, b: Name)
    ensures !(NameLess(a, b) && NameLess(b, a)) && (a != b ==> NameLess(a, b) || NameLess(b, a))
    decreases |a|
  {
    if a != [] && b != [] {
      NamesOrdered(a[1..], b[1..]);
      assert a == [a[0]] + a[1..] && b == [b[0]] + b[1..];
    }
  }

  lemma ValuesOrdered(a: Val, b: Val)
    ensures !(ValLess(a, b) && ValLess(b, a)) && (a != b ==> ValLess(a, b) || ValLess(b, a))
  {
    if a.Var? && b.Var? {
      NamesOrdered(a.name, b.name);
    }
    hide NameLess;
  }

  lemma KeyReads(i: Instr, types: Types, x: Name)
    requires IsCandidate(i)
    ensures x in KeyVars(RawKey(i, types)) <==> OperandOf(i, x)
  {
    hide ValLess;
  }

  lemma KeyedIsComputation(i: Instr, s: Scope)
    ensures ExprKey(i, s.types, s.aliased, s.statics).Some? <==> Computation(i, s)
  {
    if IsCandidate(i) {
      forall x
        ensures x in KeyVars(RawKey(i, s.types)) <==> OperandOf(i, x)
      {
        KeyReads(i, s.types, x);
      }
    }
    hide RawKey, KeyVars, OperandOf;
  }

  lemma OrderFreeCommutes(op: BinaryOp, k: CType, l: CType)
    ensures IsCommutative(op, k, l) <==> OrderFree(op, k, l)
    ensures OrderFree(op, k, l) <==> OrderFree(op, l, k)
  {
  }

  /** The key of a binary instruction has its operands in order, where the order is free. */
  lemma OrderedKey(op: BinaryOp, v: Val, w: Val, types: Types, ty: CType) returns (a: Val, b: Val)
    ensures BinaryKeyOf(op, v, w, types, ty) == BinaryKey(op, a, b, ValType(types, a), ValType(types, b), ty)
    ensures if OrderFree(op, ValType(types, v), ValType(types, w)) && ValLess(w, v)
      then a == w && b == v else a == v && b == w
  {
    hide ValLess, ValType, IsCommutative, OrderFree;
    OrderFreeCommutes(op, ValType(types, v), ValType(types, w));
    if IsCommutative(op, ValType(types, v), ValType(types, w)) && ValLess(w, v) {
      a, b := w, v;
    } else {
      a, b := v, w;
    }
  }

  lemma SameBinaryKey(op: BinaryOp, v: Val, w: Val, op': BinaryOp, v': Val, w': Val, types: Types, ty: CType,
        ty': CType)
    ensures BinaryKeyOf(op, v, w, types, ty) == BinaryKeyOf(op', v', w', types, ty') <==>
      && op == op' && ty == ty'
      && ((v == v' && w == w') || (OrderFree(op, ValType(types, v), ValType(types, w)) && v == w' && w == v'))
  {
    hide *;
    var a, b := OrderedKey(op, v, w, types, ty);
    var a', b' := OrderedKey(op', v', w', types, ty');
    ValuesOrdered(v, w);
    OrderFreeCommutes(op, ValType(types, v), ValType(types, w));
  }

  lemma SameKey(i: Instr, j: Instr, s: Scope)
    requires IsCandidate(i) && IsCandidate(j)
    ensures RawKey(i, s.types) == RawKey(j, s.types) <==> SameExpression(i, j, s)
  {
    hide BinaryKeyOf, ValType, TypeOf, OrderFree;
    if i.Binary? && j.Binary? {
      SameBinaryKey(i.bop, i.left, i.right, j.bop, j.left, j.right, s.types, TypeOf(s.types, i.dst),
                    TypeOf(s.types, j.dst));
    }
    BinaryIsBinary(i, s.types);
    BinaryIsBinary(j, s.types);
  }

  lemma BinaryIsBinary(i: Instr, types: Types)
    requires IsCandidate(i)
    ensures RawKey(i, types).BinaryKey? <==> i.Binary?
  {
    hide ValLess;
  }

  // ----- one entry of a table, over one instruction and over many -----

  /** The entry for the expression of `i` with this holder. */
  function EntryOf(i: Instr, h: Name, s: Scope): Avail
    requires IsCandidate(i)
  {
    Avail(RawKey(i, s.types), h)
  }

  lemma DisturbsIs(j: Instr, i: Instr, h: Name, s: Scope)
    ensures Disturbs(j, i, h, s) <==>
      || j.FunCall? || j.Store? || j.CopyToOffset?
      || (DefinedVar(j).Some? && var x := DefinedVar(j).value;
          x == h || OperandOf(i, x) || (i.Load? && s.Reserves(x)))
  {
    hide OperandOf, DefinedVar, Overwrites, ReadsVar;
    if DefinedVar(j).Some? {
      ReadsAreSources(j, DefinedVar(j).value);
    }
    forall x | Overwrites(j, x)
      ensures DefinedVar(j) == Some(x)
    {
      ReadsAreSources(j, x);
    }
  }

  lemma KilledIsDisturbed(j: Instr, t: Table, i: Instr, h: Name, s: Scope)
    requires IsCandidate(i)
    ensures EntryOf(i, h, s) in KillFor(j, t, s.aliased, s.statics) <==>
      EntryOf(i, h, s) in t && !Disturbs(j, i, h, s)
  {
    hide RawKey, OperandOf, KeyVars, DefinedVar, Disturbs, IsCandidate;
    DisturbsIs(j, i, h, s);
    LoadKeys(i, s.types);
    if DefinedVar(j).Some? {
      KeyReads(i, s.types, DefinedVar(j).value);
    }
  }

  lemma LoadKeys(i: Instr, types: Types)
    requires IsCandidate(i)
    ensures RawKey(i, types).LoadKey? <==> i.Load?
  {
    hide ValLess;
  }

  lemma RepeatsIsSameKey(i: Instr, j: Instr, s: Scope)
    requires IsCandidate(i)
    ensures Repeats(i, j, s) <==> ExprKey(j, s.types, s.aliased, s.statics) == Some(RawKey(i, s.types))
  {
    hide RawKey, SameExpression, Computation, ExprKey;
    KeyedIsComputation(j, s);
    if ExprKey(j, s.types, s.aliased, s.statics).Some? {
      SameKey(i, j, s);
    }
  }

  /** The instruction puts the entry in, or leaves it alone. */
  lemma EntryStep(j: Instr, t: Table, i: Instr, h: Name, s: Scope)
    requires IsCandidate(i)
    ensures EntryOf(i, h, s) in TransferAvail(j, t, s.aliased, s.statics, s.types) <==>
      || (Repeats(i, j, s) && j.dst == h && !OperandOf(i, h))
      || (EntryOf(i, h, s) in t && !Disturbs(j, i, h, s) && !Repeats(i, j, s))
  {
    RepeatsIsSameKey(i, j, s);
    KilledIsDisturbed(j, t, i, h, s);
    KeyReads(i, s.types, h);
    if Repeats(i, j, s) {
      KeyReads(i, s.types, j.dst);
      ReadsAreSources(j, j.dst);
    }
    hide RawKey, KillFor, Repeats, OperandOf, KeyVars, ExprKey, ReadsVar;
  }

  lemma {:induction false} EntryThrough(instrs: seq<Instr>, t: Table, i: Instr, h: Name, s: Scope)
    requires IsCandidate(i)
    ensures EntryOf(i, h, s) in TransferAvails(instrs, t, s.aliased, s.statics, s.types) <==>
      || ComputedBy(instrs, |instrs|, i, h, s)
      || (EntryOf(i, h, s) in t && Quiet(instrs, 0, |instrs|, i, h, s))
  {
    hide EntryOf, Repeats, Disturbs, OperandOf, TransferAvail;
    if instrs != [] {
      var j, rest := instrs[0], instrs[1..];
      assert instrs == [j] + rest;
      EntryStep(j, t, i, h, s);
      EntryThrough(rest, TransferAvail(j, t, s.aliased, s.statics, s.types), i, h, s);
      QuietCons(j, rest, i, h, s);
      ComputedCons(j, rest, i, h, s);
      hide Quiet, ComputedBy;
    }
  }

  lemma QuietCons(j: Instr, rest: seq<Instr>, i: Instr, h: Name, s: Scope)
    ensures Quiet([j] + rest, 0, |rest| + 1, i, h, s) <==>
      !Disturbs(j, i, h, s) && !Repeats(i, j, s) && Quiet(rest, 0, |rest|, i, h, s)
  {
    hide Repeats, Disturbs;
    var instrs := [j] + rest;
    assert instrs[0] == j;
    assert forall k :: 0 <= k < |rest| ==> rest[k] == instrs[k + 1];
    assert forall k :: 0 < k < |instrs| ==> instrs[k] == rest[k - 1];
  }

  lemma QuietShift(j: Instr, rest: seq<Instr>, p: nat, n: nat, i: Instr, h: Name, s: Scope)
    ensures Quiet([j] + rest, p + 1, n + 1, i, h, s) <==> Quiet(rest, p, n, i, h, s)
  {
    hide Repeats, Disturbs;
    var instrs := [j] + rest;
    assert forall k :: 0 <= k < |rest| ==> rest[k] == instrs[k + 1];
    assert forall k :: 0 < k < |instrs| ==> instrs[k] == rest[k - 1];
  }

  lemma RepeatComputes(i: Instr, j: Instr, s: Scope)
    requires Repeats(i, j, s)
    ensures IsCandidate(j)
  {
  }

  lemma ComputedCons(j: Instr, rest: seq<Instr>, i: Instr, h: Name, s: Scope)
    ensures ComputedBy([j] + rest, |rest| + 1, i, h, s) <==>
      || ComputedBy(rest, |rest|, i, h, s)
      || (Repeats(i, j, s) && j.dst == h && !OperandOf(i, h) && Quiet(rest, 0, |rest|, i, h, s))
  {
    hide Repeats, OperandOf, Quiet;
    var instrs := [j] + rest;
    assert instrs[0] == j;
    QuietShift(j, rest, 0, |rest|, i, h, s);
    if p: nat :| ComputesAt(instrs, p, |instrs|, i, h, s) {
      if p > 0 {
        assert instrs[p] == rest[p - 1];
        QuietShift(j, rest, p, |rest|, i, h, s);
        assert ComputesAt(rest, p - 1, |rest|, i, h, s);
      }
    }
    if p: nat :| ComputesAt(rest, p, |rest|, i, h, s) {
      assert instrs[p + 1] == rest[p];
      QuietShift(j, rest, p + 1, |rest|, i, h, s);
      assert ComputesAt(instrs, p + 1, |instrs|, i, h, s);
    }
    if Repeats(i, j, s) && Quiet(rest, 0, |rest|, i, h, s) {
      RepeatComputes(i, j, s);
      assert j.dst == h && !OperandOf(i, h) ==> ComputesAt(instrs, 0, |instrs|, i, h, s);
    }
  }

  // ----- the rewritten block -----

  /** What the scan knows at a position follows from what it has emitted. */
  lemma {:induction false} EmittedFrom(instrs: seq<Instr>, t: Table, q: nat, s: Scope)
    requires OneHolder(t) && q < |instrs|
    ensures var r := CseBlock(instrs, t, s.aliased, s.statics, s.types);
      var u := TransferAvails(r[..q], t, s.aliased, s.statics, s.types);
      OneHolder(u) && r[q] == Replacement(instrs[q], u, s.aliased, s.statics, s.types)
  {
    hide Replacement, TransferAvail, OneHolder;
    var r := CseBlock(instrs, t, s.aliased, s.statics, s.types);
    if q == 0 {
      assert r[..0] == [];
    } else {
      var j := Replacement(instrs[0], t, s.aliased, s.statics, s.types);
      var t' := TransferAvail(j, t, s.aliased, s.statics, s.types);
      TransferOneHolder(j, t, s.aliased, s.statics, s.types);
      EmittedFrom(instrs[1..], t', q - 1, s);
      var rest := CseBlock(instrs[1..], t', s.aliased, s.statics, s.types);
      assert r == [j] + rest && r[..q] == [j] + rest[..q - 1];
      assert r[..q][1..] == rest[..q - 1];
    }
  }

  // ----- what holds where a block starts -----

  lemma MeetEntry(blocks: seq<BasicBlock>, out: seq<Table>, b: nat, a: Avail)
    requires WellFormed(blocks) && |out| == |blocks| && b < |blocks|
    ensures a in Meet(blocks[b].predecessors, out) <==>
      && 0 < b && (exists p: nat :: HasEdge(blocks, p, b))
      && forall p: nat :: HasEdge(blocks, p, b) ==> a in out[p]
  {
    var preds := blocks[b].predecessors;
    InMeet(preds, out, a);
    assert forall p: nat :: p < |blocks| ==> (Block(p) in preds <==> HasEdge(blocks, p, b));
    assert Entry in preds <==> b == 0;
    if p: nat :| HasEdge(blocks, p, b) {
      FirstPredExists(preds, out, p);
    }
    if FirstPred(preds, out).Some? {
      assert HasEdge(blocks, FirstPred(preds, out).value, b);
    }
    if EveryPredHas(a, preds, out) {
      forall p: nat | HasEdge(blocks, p, b)
        ensures a in out[p]
      {
        var j :| 0 <= j < |preds| && preds[j] == Block(p);
        assert a in out[preds[j].id];
      }
    }
    if forall p: nat :: HasEdge(blocks, p, b) ==> a in out[p] {
      forall j | 0 <= j < |preds| && preds[j].Block? && preds[j].id < |out|
        ensures a in out[preds[j].id]
      {
        assert preds[j] in preds;
        assert HasEdge(blocks, preds[j].id, b);
      }
    }
  }

  lemma OutEntry(blocks: seq<BasicBlock>, t: Table, b: nat, i: Instr, h: Name, s: Scope)
    requires b < |blocks| && IsCandidate(i)
    ensures EntryOf(i, h, s) in AvailTransfer(blocks, s.aliased, s.statics, s.types)(b, t) <==>
      || ComputedIn(blocks[b], i, h, s)
      || (EntryOf(i, h, s) in t && PassesQuiet(blocks[b], i, h, s))
  {
    hide EntryOf, ComputedBy, Quiet, TransferAvails;
    EntryThrough(blocks[b].instructions, t, i, h, s);
  }

  lemma {:induction false} WithinMore(blocks: seq<BasicBlock>, b: nat, i: Instr, h: Name, s: Scope, n: nat)
    requires ComputedWithin(blocks, b, i, h, s, n)
    ensures ComputedWithin(blocks, b, i, h, s, n + 1)
    decreases n
  {
    hide ComputedIn, PassesQuiet;
    forall p: nat | HasEdge(blocks, p, b) && !ComputedIn(blocks[p], i, h, s)
      ensures ComputedWithin(blocks, p, i, h, s, n)
    {
      WithinMore(blocks, p, i, h, s, n - 1);
    }
  }

  /** What every way back leads to is available at any solution. */
  lemma {:induction false} WithinIsAvailable(blocks: seq<BasicBlock>, out: seq<Table>, b: nat, i: Instr, h: Name,
        s: Scope, n: nat)
    requires WellFormed(blocks) && Solved(blocks, AvailTransfer(blocks, s.aliased, s.statics, s.types), out)
    requires IsCandidate(i) && ComputedWithin(blocks, b, i, h, s, n)
    ensures EntryOf(i, h, s) in Meet(blocks[b].predecessors, out)
    decreases n
  {
    hide ComputedIn, PassesQuiet, WellFormed, EntryOf, Meet, AvailTransfer;
    forall p: nat | HasEdge(blocks, p, b)
      ensures EntryOf(i, h, s) in out[p]
    {
      EdgeInside(blocks, p, b);
      OutEntry(blocks, Meet(blocks[p].predecessors, out), p, i, h, s);
      if !ComputedIn(blocks[p], i, h, s) {
        WithinIsAvailable(blocks, out, p, i, h, s, n - 1);
      }
    }
    MeetEntry(blocks, out, b, EntryOf(i, h, s));
  }

  lemma EdgeInside(blocks: seq<BasicBlock>, p: nat, b: nat)
    requires HasEdge(blocks, p, b)
    ensures p < |blocks| && b < |blocks|
  {
  }

  ghost predicate RoundFound(blocks: seq<BasicBlock>, out: seq<Table>, i: Instr, h: Name, s: Scope, n: nat)
    requires IsCandidate(i)
  {
    |out| == |blocks| && forall b: nat :: b < |blocks| && EntryOf(i, h, s) in out[b] ==>
      || ComputedIn(blocks[b], i, h, s)
      || (PassesQuiet(blocks[b], i, h, s) && ComputedWithin(blocks, b, i, h, s, n))
  }

  lemma MeetFound(blocks: seq<BasicBlock>, out: seq<Table>, b: nat, i: Instr, h: Name, s: Scope, n: nat)
    requires WellFormed(blocks) && IsCandidate(i) && b < |blocks| && RoundFound(blocks, out, i, h, s, n)
    requires EntryOf(i, h, s) in Meet(blocks[b].predecessors, out)
    ensures ComputedWithin(blocks, b, i, h, s, n + 1)
  {
    hide ComputedIn, PassesQuiet, WellFormed, EntryOf, HasEdge, Meet;
    MeetEntry(blocks, out, b, EntryOf(i, h, s));
    forall p: nat | HasEdge(blocks, p, b)
      ensures p < |blocks|
      ensures ComputedIn(blocks[p], i, h, s)
        || (PassesQuiet(blocks[p], i, h, s) && ComputedWithin(blocks, p, i, h, s, n))
    {
      EdgeInside(blocks, p, b);
    }
  }

  lemma RoundUpdates(blocks: seq<BasicBlock>, out: seq<Table>, b: nat, i: Instr, h: Name, s: Scope, n: nat)
    requires WellFormed(blocks) && IsCandidate(i) && b < |blocks| && RoundFound(blocks, out, i, h, s, n)
    ensures var transfer := AvailTransfer(blocks, s.aliased, s.statics, s.types);
      RoundFound(blocks, out[b := transfer(b, Meet(blocks[b].predecessors, out))], i, h, s, n + 1)
    ensures RoundFound(blocks, out, i, h, s, n + 1)
  {
    hide ComputedIn, PassesQuiet, WellFormed, EntryOf, Meet, AvailTransfer, ComputedWithin;
    OutEntry(blocks, Meet(blocks[b].predecessors, out), b, i, h, s);
    if EntryOf(i, h, s) in Meet(blocks[b].predecessors, out) {
      MeetFound(blocks, out, b, i, h, s, n);
    }
    forall c: nat | c < |blocks| && ComputedWithin(blocks, c, i, h, s, n)
      ensures ComputedWithin(blocks, c, i, h, s, n + 1)
    {
      WithinMore(blocks, c, i, h, s, n);
    }
  }

  lemma RoundKeepsFound(blocks: seq<BasicBlock>, state: Search<Avail>, i: Instr, h: Name, s: Scope, n: nat)
    requires WellFormed(blocks) && IsCandidate(i) && RoundFound(blocks, state.out, i, h, s, n)
    ensures RoundFound(blocks, Round(blocks, AvailTransfer(blocks, s.aliased, s.statics, s.types), state).out, i, h, s,
      n + 1)
  {
    hide RoundFound, AvailTransfer, WellFormed, Meet;
    FoundStays(blocks, state.out, i, h, s, n);
    if state.worklist != [] && state.worklist[0] < |blocks| {
      RoundUpdates(blocks, state.out, state.worklist[0], i, h, s, n);
    }
  }

  lemma NothingFound(blocks: seq<BasicBlock>, i: Instr, h: Name, s: Scope)
    requires IsCandidate(i)
    ensures RoundFound(blocks, NoFacts(|blocks|), i, h, s, 0)
  {
    hide ComputedIn, PassesQuiet, ComputedWithin;
  }

  /** What any number of rounds finds has a reason. */
  lemma {:induction false} RoundsFound(blocks: seq<BasicBlock>, i: Instr, h: Name, s: Scope, n: nat)
    requires WellFormed(blocks) && IsCandidate(i)
    ensures var transfer := AvailTransfer(blocks, s.aliased, s.statics, s.types);
      RoundFound(blocks, AfterRounds(blocks, transfer, n).out, i, h, s, n)
  {
    hide RoundFound, AvailTransfer, WellFormed, Round, IsCandidate;
    var transfer := AvailTransfer(blocks, s.aliased, s.statics, s.types);
    if n > 0 {
      RoundsFound(blocks, i, h, s, n - 1);
      NextAfter(blocks, transfer, n - 1);
      RoundKeepsFound(blocks, AfterRounds(blocks, transfer, n - 1), i, h, s, n - 1);
    } else {
      NothingFound(blocks, i, h, s);
    }
  }

  lemma FoundStays(blocks: seq<BasicBlock>, out: seq<Table>, i: Instr, h: Name, s: Scope, n: nat)
    requires IsCandidate(i) && RoundFound(blocks, out, i, h, s, n)
    ensures RoundFound(blocks, out, i, h, s, n + 1)
  {
    hide ComputedIn, PassesQuiet, EntryOf, ComputedWithin;
    forall c: nat | c < |blocks| && ComputedWithin(blocks, c, i, h, s, n)
      ensures ComputedWithin(blocks, c, i, h, s, n + 1)
    {
      WithinMore(blocks, c, i, h, s, n);
    }
  }

  /** Where a block starts, exactly what every way back leads to is available. */
  lemma AvailableIsComputedBefore(blocks: seq<BasicBlock>, out: seq<Table>, b: nat, i: Instr, h: Name, s: Scope)
    requires WellFormed(blocks) && IsCandidate(i) && b < |blocks|
    requires var transfer := AvailTransfer(blocks, s.aliased, s.statics, s.types);
      Solved(blocks, transfer, out) && RoundsEndIn(blocks, transfer, out)
    ensures EntryOf(i, h, s) in Meet(blocks[b].predecessors, out) <==> ComputedBefore(blocks, b, i, h, s)
  {
    hide WellFormed, AvailTransfer, EntryOf, Meet, ComputedWithin, RoundFound;
    var transfer := AvailTransfer(blocks, s.aliased, s.statics, s.types);
    if n: nat :| ComputedWithin(blocks, b, i, h, s, n) {
      WithinIsAvailable(blocks, out, b, i, h, s, n);
    }
    if EntryOf(i, h, s) in Meet(blocks[b].predecessors, out) {
      var n: nat :| AfterRounds(blocks, transfer, n).out == out && AfterRounds(blocks, transfer, n).worklist == [];
      RoundsFound(blocks, i, h, s, n);
      MeetFound(blocks, out, b, i, h, s, n);
    }
  }

  // ----- the rewritten graph -----

  /** What the scan knows of an expression at a position. */
  lemma KnownIsHeld(blocks: seq<BasicBlock>, out: seq<Table>, b: nat, rewritten: seq<Instr>, q: nat, i: Instr, h: Name,
        s: Scope)
    requires WellFormed(blocks) && IsCandidate(i) && b < |blocks| && q <= |rewritten|
    requires var transfer := AvailTransfer(blocks, s.aliased, s.statics, s.types);
      Solved(blocks, transfer, out) && RoundsEndIn(blocks, transfer, out)
    ensures var known := TransferAvails(rewritten[..q], Meet(blocks[b].predecessors, out), s.aliased, s.statics,
      s.types);
      EntryOf(i, h, s) in known <==> HoldsAt(blocks, b, rewritten, q, i, h, s)
  {
    hide WellFormed, AvailTransfer, EntryOf, Meet, ComputedBefore, TransferAvails, Solved, RoundsEndIn, IsCandidate;
    AvailableIsComputedBefore(blocks, out, b, i, h, s);
    EntryThrough(rewritten[..q], Meet(blocks[b].predecessors, out), i, h, s);
    PrefixQuiet(rewritten, q, i, h, s);
    hide ComputedBy, Quiet;
  }

  lemma PrefixQuiet(instrs: seq<Instr>, q: nat, i: Instr, h: Name, s: Scope)
    requires q <= |instrs|
    ensures Quiet(instrs[..q], 0, q, i, h, s) <==> Quiet(instrs, 0, q, i, h, s)
    ensures ComputedBy(instrs[..q], q, i, h, s) <==> ComputedBy(instrs, q, i, h, s)
  {
    hide Repeats, Disturbs, OperandOf;
    assert forall k :: 0 <= k < q ==> instrs[..q][k] == instrs[k];
    if p: nat :| ComputesAt(instrs, p, q, i, h, s) {
      assert ComputesAt(instrs[..q], p, q, i, h, s);
    }
    if p: nat :| ComputesAt(instrs[..q], p, q, i, h, s) {
      assert ComputesAt(instrs, p, q, i, h, s);
    }
  }

  /** What a replacement is, told by the entries for the expression. */
  lemma ReplacementBy(i: Instr, t: Table, s: Scope)
    requires OneHolder(t)
    ensures var r := Replacement(i, t, s.aliased, s.statics, s.types);
      if Computation(i, s) && IsCandidate(i) && exists h :: h != i.dst && EntryOf(i, h, s) in t
      then exists h :: h != i.dst && EntryOf(i, h, s) in t && r == Copy(Var(h), i.dst)
      else r == i
  {
    KeyedIsComputation(i, s);
    hide Computation, RawKey;
    if Computation(i, s) {
      var h := HolderOf(t, RawKey(i, s.types));
      if h.Some? {
        assert EntryOf(i, h.value, s) in t;
        assert forall g :: EntryOf(i, g, s) in t ==> EntryOf(i, g, s) == EntryOf(i, h.value, s);
      }
    }
  }

  lemma EmittedRightly(blocks: seq<BasicBlock>, out: seq<Table>, b: nat, q: nat, s: Scope)
    requires WellFormed(blocks) && AllOneHolder(out) && b < |blocks| && q < |blocks[b].instructions|
    requires var transfer := AvailTransfer(blocks, s.aliased, s.statics, s.types);
      Solved(blocks, transfer, out) && RoundsEndIn(blocks, transfer, out)
    ensures var rewritten := Eliminated(blocks, out, s.aliased, s.statics, s.types)[b];
      |rewritten| == |blocks[b].instructions|
      && RightlyEmitted(blocks, b, rewritten, q, blocks[b].instructions[q], s)
  {
    hide *;
    EliminatedBlock(blocks, out, s.aliased, s.statics, s.types, b);
    var i, incoming := blocks[b].instructions[q], Meet(blocks[b].predecessors, out);
    var rewritten := Eliminated(blocks, out, s.aliased, s.statics, s.types)[b];
    EmittedFrom(blocks[b].instructions, incoming, q, s);
    var known := TransferAvails(rewritten[..q], incoming, s.aliased, s.statics, s.types);
    ReplacementBy(i, known, s);
    if Computation(i, s) {
      ComputationComputes(i, s);
      forall h
        ensures EntryOf(i, h, s) in known <==> HoldsAt(blocks, b, rewritten, q, i, h, s)
      {
        KnownIsHeld(blocks, out, b, rewritten, q, i, h, s);
      }
    }
    FromEntries(blocks, b, rewritten, q, i, known, s);
  }

  lemma ComputationComputes(i: Instr, s: Scope)
    requires Computation(i, s)
    ensures IsCandidate(i)
  {
  }

  lemma FromEntries(blocks: seq<BasicBlock>, b: nat, rewritten: seq<Instr>, q: nat, i: Instr, known: Table, s: Scope)
    requires q < |rewritten| && (Computation(i, s) ==> IsCandidate(i))
    requires Computation(i, s) ==>
      forall h :: EntryOf(i, h, s) in known <==> HoldsAt(blocks, b, rewritten, q, i, h, s)
    requires if Computation(i, s) && IsCandidate(i) && exists h :: h != i.dst && EntryOf(i, h, s) in known
      then exists h :: h != i.dst && EntryOf(i, h, s) in known && rewritten[q] == Copy(Var(h), i.dst)
      else rewritten[q] == i
    ensures RightlyEmitted(blocks, b, rewritten, q, i, s)
  {
    hide Computation, HoldsAt, EntryOf;
  }

  /** The pass finds exactly the computations whose value another variable has. */
  lemma EliminationFinds(blocks: seq<BasicBlock>, out: seq<Table>, s: Scope)
    requires WellFormed(blocks) && AllOneHolder(out)
    requires var transfer := AvailTransfer(blocks, s.aliased, s.statics, s.types);
      Solved(blocks, transfer, out) && RoundsEndIn(blocks, transfer, out)
    ensures FindsRepeats(blocks, Eliminated(blocks, out, s.aliased, s.statics, s.types), s)
  {
    hide WellFormed, AllOneHolder, AvailTransfer, Solved, RoundsEndIn, RightlyEmitted;
    var next := Eliminated(blocks, out, s.aliased, s.statics, s.types);
    forall b, q | 0 <= b < |blocks| && 0 <= q < |blocks[b].instructions|
      ensures |next[b]| == |blocks[b].instructions|
      ensures RightlyEmitted(blocks, b, next[b], q, blocks[b].instructions[q], s)
    {
      EmittedRightly(blocks, out, b, q, s);
    }
    forall b | 0 <= b < |blocks|
      ensures |next[b]| == |blocks[b].instructions|
    {
      EliminatedBlock(blocks, out, s.aliased, s.statics, s.types, b);
    }
  }
}
