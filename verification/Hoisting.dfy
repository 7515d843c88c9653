/** Which instructions of a loop are hoisted, and what that choice guarantees. */
module Hoisting {
  import opened Tacky
  import opened Semantics
  import opened Effects
  import opened HoistingRuns

  predicate Contains(name: string, part: string) {
    exists k :: 0 <= k <= |name| && part <= name[k..]
  }

  const TEMPORARY := "__rnqcc_tmp."

  /** `is_licm_temporary` */
  predicate IsLicmTemporary(name: Name) {
    TEMPORARY <= name || Contains(name, "." + TEMPORARY)
  }

  /** `is_pure_licm_instr` */
  predicate IsPure(i: Instr) {
    match i
    case Copy(_, _) => true
    case Unary(_, _, _) => true
    case Convert(kind, _, _) => !(kind.DoubleToInt? || kind.FloatToInt? || kind.DoubleToUInt? || kind.FloatToUInt?)
    case Binary(op, _, _, _) => !(op.Div? || op.Mod?)
    case GetAddress(_, _) => true
    case CopyFromOffset(_, _, _) => true
    case AddPtr(_, _, _, _) => true
    case _ => false
  }

  /** `is_memory_write` */
  predicate IsMemoryWrite(i: Instr) {
    i.FunCall? || i.Store? || i.CopyToOffset?
  }

  /** What stays fixed while a function is optimized. */
  datatype Limits = Limits(types: Types, aliased: set<Name>, statics: set<Name>)

  /** What is known about one loop. */
  datatype LoopInfo = LoopInfo(counts: map<Name, nat>, writesMemory: bool)

  function CountOf(counts: map<Name, nat>, x: Name): nat {
    if x in counts then counts[x] else 0
  }

  predicate UntouchedType(types: Types, x: Name) {
    x in types && (types[x].Struct? || types[x].Void? || types[x].LongDouble?)
  }

  /** `is_loop_invariant_candidate` */
  predicate IsCandidate(lim: Limits, info: LoopInfo, i: Instr, defs: set<Name>) {
    && IsPure(i) && DefinedVar(i).Some?
    && var x := Dst(i);
    && IsLicmTemporary(x) && CountOf(info.counts, x) == 1
    && x !in lim.aliased && x !in lim.statics && !UntouchedType(lim.types, x)
    && !(info.writesMemory && i.CopyFromOffset?)
    && (i.GetAddress? || forall s :: s in SourceVars(i) ==> OperandInvariant(lim, info, s, defs))
  }

  predicate OperandInvariant(lim: Limits, info: LoopInfo, s: Name, defs: set<Name>) {
    s !in lim.aliased && s !in lim.statics && (CountOf(info.counts, s) == 0 || s in defs)
  }

  // ----- counting definitions -----

  function CountDefs(instrs: seq<Instr>, x: Name): nat {
    if instrs == [] then 0 else (if DefinedVar(instrs[0]) == Some(x) then 1 else 0) + CountDefs(instrs[1..], x)
  }

  function LoopDefs(code: Code, members: set<nat>, x: Name, n: nat): nat
    requires n <= |code|
  {
    if n == 0 then 0
    else LoopDefs(code, members, x, n - 1) + if n - 1 in members then CountDefs(code[n - 1], x) else 0
  }

  ghost predicate ExactCounts(code: Code, members: set<nat>, counts: map<Name, nat>) {
    forall x :: CountOf(counts, x) == LoopDefs(code, members, x, |code|)
  }

  lemma {:induction false} CountSnoc(instrs: seq<Instr>, i: Instr, x: Name)
    ensures CountDefs(instrs + [i], x) == CountDefs(instrs, x) + if DefinedVar(i) == Some(x) then 1 else 0
  {
    if instrs == [] {
      assert instrs + [i] == [i];
    } else {
      assert (instrs + [i])[1..] == instrs[1..] + [i];
      CountSnoc(instrs[1..], i, x);
    }
  }

  /** Add one block's definitions to the counts. */
  method CountBlock(counts: map<Name, nat>, instrs: seq<Instr>) returns (counts': map<Name, nat>)
    requires forall x :: x in counts ==> counts[x] > 0
    ensures forall x :: x in counts' ==> counts'[x] > 0
    ensures forall x :: CountOf(counts', x) == CountOf(counts, x) + CountDefs(instrs, x)
  {
    counts' := counts;
    for k := 0 to |instrs|
      invariant forall x :: x in counts' ==> counts'[x] > 0
      invariant forall x :: CountOf(counts', x) == CountOf(counts, x) + CountDefs(instrs[..k], x)
    {
      assert instrs[..k + 1] == instrs[..k] + [instrs[k]];
      forall x {
        CountSnoc(instrs[..k], instrs[k], x);
      }
      match DefinedVar(instrs[k])
      case Some(name) => counts' := counts'[name := CountOf(counts', name) + 1];
      case None =>
    }
    assert instrs[..|instrs|] == instrs;
  }

  /** `collect_loop_def_counts` */
  method CollectLoopDefCounts(code: Code, members: set<nat>) returns (counts: map<Name, nat>)
    ensures ExactCounts(code, members, counts) && forall x :: x in counts ==> counts[x] > 0
  {
    counts := map[];
    for b := 0 to |code|
      invariant forall x :: x in counts ==> counts[x] > 0
      invariant forall x :: CountOf(counts, x) == LoopDefs(code, members, x, b)
    {
      if b in members {
        counts := CountBlock(counts, code[b]);
      }
    }
  }

  lemma {:induction false} CountHas(instrs: seq<Instr>, i: Instr, x: Name)
    requires i in instrs && DefinedVar(i) == Some(x)
    ensures CountDefs(instrs, x) >= 1
  {
    if i != instrs[0] {
      CountHas(instrs[1..], i, x);
    }
  }

  lemma {:induction false} CountTwo(instrs: seq<Instr>, j: nat, k: nat, x: Name)
    requires j < k < |instrs| && DefinedVar(instrs[j]) == Some(x) && DefinedVar(instrs[k]) == Some(x)
    ensures CountDefs(instrs, x) >= 2
  {
    if j == 0 {
      assert instrs[1..][k - 1] == instrs[k];
      CountHas(instrs[1..], instrs[k], x);
    } else {
      CountTwo(instrs[1..], j - 1, k - 1, x);
    }
  }

  /** The total counts every block of the loop, and different blocks separately. */
  lemma {:induction false} LoopDefsAtLeast(code: Code, members: set<nat>, x: Name, n: nat, a: nat, b: nat)
    requires n <= |code| && a in members && b in members && a < n && b < n
    ensures LoopDefs(code, members, x, n) >= CountDefs(code[a], x)
    ensures a != b ==> LoopDefs(code, members, x, n) >= CountDefs(code[a], x) + CountDefs(code[b], x)
  {
    if a < n - 1 && b < n - 1 {
      LoopDefsAtLeast(code, members, x, n - 1, a, b);
    } else if a < n - 1 {
      LoopDefsAtLeast(code, members, x, n - 1, a, a);
    } else if b < n - 1 {
      LoopDefsAtLeast(code, members, x, n - 1, b, b);
    }
  }

  // ----- splitting a block -----

  /** What the scan of a block keeps, and what it takes out, with `defs` hoisted before. */
  function Keeps(lim: Limits, info: LoopInfo, instrs: seq<Instr>, defs: set<Name>): seq<Instr> {
    if instrs == [] then []
    else if IsCandidate(lim, info, instrs[0], defs) then Keeps(lim, info, instrs[1..], defs + {Dst(instrs[0])})
    else [instrs[0]] + Keeps(lim, info, instrs[1..], defs)
  }

  function Picks(lim: Limits, info: LoopInfo, instrs: seq<Instr>, defs: set<Name>): seq<Instr> {
    if instrs == [] then []
    else if IsCandidate(lim, info, instrs[0], defs)
      then [instrs[0]] + Picks(lim, info, instrs[1..], defs + {Dst(instrs[0])})
    else Picks(lim, info, instrs[1..], defs)
  }

  /** Each instruction of the list was a candidate after those before it. */
  predicate Chain(lim: Limits, info: LoopInfo, hoisted: seq<Instr>, defs: set<Name>) {
    hoisted == [] || (IsCandidate(lim, info, hoisted[0], defs)
      && Chain(lim, info, hoisted[1..], defs + {Dst(hoisted[0])}))
  }

  lemma {:induction false} SplitFacts(lim: Limits, info: LoopInfo, instrs: seq<Instr>, defs: set<Name>, x: Name)
    ensures CountDefs(instrs, x)
      == CountDefs(Keeps(lim, info, instrs, defs), x) + CountDefs(Picks(lim, info, instrs, defs), x)
  {
    if instrs != [] {
      var i, next := instrs[0], if IsCandidate(lim, info, instrs[0], defs) then defs + {Dst(instrs[0])} else defs;
      SplitFacts(lim, info, instrs[1..], next, x);
      if IsCandidate(lim, info, i, defs) {
        assert Picks(lim, info, instrs, defs)[1..] == Picks(lim, info, instrs[1..], next);
      } else {
        assert Keeps(lim, info, instrs, defs)[1..] == Keeps(lim, info, instrs[1..], next);
      }
      hide IsCandidate;
    }
  }

  lemma {:induction false} SplitMembers(lim: Limits, info: LoopInfo, instrs: seq<Instr>, defs: set<Name>)
    ensures forall i :: i in instrs <==> i in Keeps(lim, info, instrs, defs) || i in Picks(lim, info, instrs, defs)
    ensures |instrs| == |Keeps(lim, info, instrs, defs)| + |Picks(lim, info, instrs, defs)|
  {
    if instrs != [] {
      var next := if IsCandidate(lim, info, instrs[0], defs) then defs + {Dst(instrs[0])} else defs;
      SplitMembers(lim, info, instrs[1..], next);
      hide IsCandidate;
    }
  }

  lemma {:induction false} PicksChain(lim: Limits, info: LoopInfo, instrs: seq<Instr>, defs: set<Name>)
    ensures Chain(lim, info, Picks(lim, info, instrs, defs), defs)
  {
    if instrs != [] {
      if IsCandidate(lim, info, instrs[0], defs) {
        PicksChain(lim, info, instrs[1..], defs + {Dst(instrs[0])});
      } else {
        PicksChain(lim, info, instrs[1..], defs);
      }
    }
  }

  lemma {:induction false} KeepsIsFilter(lim: Limits, info: LoopInfo, instrs: seq<Instr>, defs: set<Name>,
        hoisted: seq<Instr>)
    requires forall i :: i in Picks(lim, info, instrs, defs) ==> i in hoisted
    requires forall i :: i in Keeps(lim, info, instrs, defs) ==> i !in hoisted
    ensures Keeps(lim, info, instrs, defs) == FilterOut(instrs, hoisted)
  {
    if instrs != [] {
      var i := instrs[0];
      if IsCandidate(lim, info, i, defs) {
        var next := defs + {Dst(i)};
        assert Picks(lim, info, instrs, defs) == [i] + Picks(lim, info, instrs[1..], next);
        KeepsIsFilter(lim, info, instrs[1..], next, hoisted);
      } else {
        assert Keeps(lim, info, instrs, defs) == [i] + Keeps(lim, info, instrs[1..], defs);
        KeepsIsFilter(lim, info, instrs[1..], defs, hoisted);
      }
      hide IsCandidate;
    }
  }

  /** The scan of one block. */
  method SplitBlock(lim: Limits, info: LoopInfo, instrs: seq<Instr>, defs: set<Name>, hoisted: seq<Instr>)
    returns (kept: seq<Instr>, defs': set<Name>, hoisted': seq<Instr>)
    ensures kept == Keeps(lim, info, instrs, defs)
    ensures hoisted' == hoisted + Picks(lim, info, instrs, defs)
    ensures defs' == defs + Dsts(Picks(lim, info, instrs, defs))
  {
    hide IsCandidate;
    kept, defs', hoisted' := [], defs, hoisted;
    assert instrs[0..] == instrs;
    for k := 0 to |instrs|
      invariant kept + Keeps(lim, info, instrs[k..], defs') == Keeps(lim, info, instrs, defs)
      invariant hoisted' + Picks(lim, info, instrs[k..], defs') == hoisted + Picks(lim, info, instrs, defs)
      invariant defs' + Dsts(Picks(lim, info, instrs[k..], defs')) == defs + Dsts(Picks(lim, info, instrs, defs))
    {
      var instr := instrs[k];
      SplitAt(lim, info, instrs, k, defs');
      hide Keeps, Picks, Dsts;
      if IsCandidate(lim, info, instr, defs') {
        CandidateDefines(lim, info, instr, defs');
        defs' := defs' + {Dst(instr)};
        hoisted' := hoisted' + [instr];
      } else {
        kept := kept + [instr];
      }
    }
    assert instrs[|instrs|..] == [];
    assert kept == kept + [] && hoisted' == hoisted' + [] && Dsts([]) == {};
  }

  lemma CandidateDefines(lim: Limits, info: LoopInfo, i: Instr, defs: set<Name>)
    requires IsCandidate(lim, info, i, defs)
    ensures DefinedVar(i).Some?
  {
  }

  lemma SplitAt(lim: Limits, info: LoopInfo, instrs: seq<Instr>, k: nat, defs: set<Name>)
    requires k < |instrs|
    ensures var i, rest := instrs[k], instrs[k + 1..];
      if IsCandidate(lim, info, i, defs) then
        DefinedVar(i).Some?
        && var next := defs + {Dst(i)};
        && Keeps(lim, info, instrs[k..], defs) == Keeps(lim, info, rest, next)
        && Picks(lim, info, instrs[k..], defs) == [i] + Picks(lim, info, rest, next)
        && defs + Dsts(Picks(lim, info, instrs[k..], defs)) == next + Dsts(Picks(lim, info, rest, next))
      else
        && Keeps(lim, info, instrs[k..], defs) == [i] + Keeps(lim, info, rest, defs)
        && Picks(lim, info, instrs[k..], defs) == Picks(lim, info, rest, defs)
  {
    assert instrs[k..][0] == instrs[k] && instrs[k..][1..] == instrs[k + 1..];
    if IsCandidate(lim, info, instrs[k], defs) {
      DstsCons(instrs[k], Picks(lim, info, instrs[k + 1..], defs + {Dst(instrs[k])}));
    }
    hide IsCandidate;
  }

  lemma DstsCons(i: Instr, rest: seq<Instr>)
    requires DefinedVar(i).Some?
    ensures Dsts([i] + rest) == {Dst(i)} + Dsts(rest)
  {
    var all := [i] + rest;
    forall x | x in Dsts(rest)
      ensures x in Dsts(all)
    {
      var k :| 0 <= k < |rest| && DefinedVar(rest[k]).Some? && Dst(rest[k]) == x;
      assert all[k + 1] == rest[k];
    }
    assert all[0] == i;
    forall x | x in Dsts(all)
      ensures x == Dst(i) || x in Dsts(rest)
    {
      var k :| 0 <= k < |all| && DefinedVar(all[k]).Some? && Dst(all[k]) == x;
      if k > 0 {
        assert rest[k - 1] == all[k];
      }
    }
  }

  // ----- what the choice guarantees -----

  lemma {:induction false} ChainItem(lim: Limits, info: LoopInfo, hoisted: seq<Instr>, defs: set<Name>, k: nat)
    requires Chain(lim, info, hoisted, defs) && k < |hoisted|
    ensures IsCandidate(lim, info, hoisted[k], defs + Dsts(hoisted[..k]))
  {
    if k == 0 {
      assert defs + Dsts(hoisted[..0]) == defs;
    } else {
      var i, tail := hoisted[0], hoisted[1..];
      ChainItem(lim, info, tail, defs + {Dst(i)}, k - 1);
      DstsCons(i, tail[..k - 1]);
      assert hoisted[..k] == [i] + tail[..k - 1];
      assert defs + Dsts(hoisted[..k]) == defs + {Dst(i)} + Dsts(tail[..k - 1]);
    }
  }

  /** The loop a choice is made for: exact counts, and the list the header yields. */
  ghost predicate Chosen(code: Code, members: set<nat>, header: nat, lim: Limits, info: LoopInfo, hoisted: seq<Instr>) {
    && header < |code| && header in members && ExactCounts(code, members, info.counts)
    && hoisted == Picks(lim, info, code[header], {})
  }

  /** A hoisted instruction: the only definition of its variable in the loop. */
  lemma ChosenItem(code: Code, members: set<nat>, header: nat, lim: Limits, info: LoopInfo, hoisted: seq<Instr>, k: nat)
    requires Chosen(code, members, header, lim, info, hoisted) && k < |hoisted|
    ensures IsCandidate(lim, info, hoisted[k], Dsts(hoisted[..k]))
    ensures LoopDefs(code, members, Dst(hoisted[k]), |code|) == 1
    ensures hoisted[k] in code[header]
  {
    PicksChain(lim, info, code[header], {});
    ChainItem(lim, info, hoisted, {}, k);
    assert {} + Dsts(hoisted[..k]) == Dsts(hoisted[..k]);
    SplitMembers(lim, info, code[header], {});
    assert CountOf(info.counts, Dst(hoisted[k])) == LoopDefs(code, members, Dst(hoisted[k]), |code|);
  }

  lemma ChosenLifts(c: Ctx, code: Code, members: set<nat>, header: nat, lim: Limits, info: LoopInfo,
        hoisted: seq<Instr>)
    requires Chosen(code, members, header, lim, info, hoisted) && c.aliased == lim.aliased
    ensures AllLift(c, hoisted)
  {
    forall k | 0 <= k < |hoisted|
      ensures Lifts(c, hoisted[k])
    {
      ChosenItem(code, members, header, lim, info, hoisted, k);
      CandidateLifts(c, lim, info, hoisted[k], Dsts(hoisted[..k]));
    }
  }

  lemma CandidateLifts(c: Ctx, lim: Limits, info: LoopInfo, i: Instr, defs: set<Name>)
    requires IsCandidate(lim, info, i, defs) && c.aliased == lim.aliased
    ensures Lifts(c, i)
    ensures forall s :: s in Needs(c, i) ==> OperandInvariant(lim, info, s, defs)
  {
  }

  /** No two definitions of a hoisted variable. */
  lemma DefinedOnce(code: Code, members: set<nat>, header: nat, lim: Limits, info: LoopInfo, hoisted: seq<Instr>,
        x: Name)
    requires Chosen(code, members, header, lim, info, hoisted) && LoopDefs(code, members, x, |code|) <= 1
    ensures CountDefs(Keeps(lim, info, code[header], {}), x) + CountDefs(hoisted, x) <= 1
    ensures forall b: nat ::
      b in members && b < |code| && b != header ==> CountDefs(code[b], x) + CountDefs(hoisted, x) <= 1
  {
    SplitFacts(lim, info, code[header], {}, x);
    LoopDefsAtLeast(code, members, x, |code|, header, header);
    forall b: nat | b in members && b < |code| && b != header
      ensures CountDefs(code[b], x) + CountDefs(hoisted, x) <= 1
    {
      LoopDefsAtLeast(code, members, x, |code|, header, b);
    }
  }

  lemma ChosenDistinct(code: Code, members: set<nat>, header: nat, lim: Limits, info: LoopInfo, hoisted: seq<Instr>,
        j: nat, k: nat)
    requires Chosen(code, members, header, lim, info, hoisted) && j < k < |hoisted|
    ensures DefinedVar(hoisted[j]) != DefinedVar(hoisted[k])
  {
    ChosenItem(code, members, header, lim, info, hoisted, k);
    CandidateDefines(lim, info, hoisted[k], Dsts(hoisted[..k]));
    var x := Dst(hoisted[k]);
    DefinedOnce(code, members, header, lim, info, hoisted, x);
    if DefinedVar(hoisted[j]) == Some(x) {
      CountTwo(hoisted, j, k, x);
    }
  }

  /** A hoisted instruction reads no variable hoisted at the same place or later. */
  lemma ChosenReadsBack(c: Ctx, code: Code, members: set<nat>, header: nat, lim: Limits, info: LoopInfo,
        hoisted: seq<Instr>, j: nat, k: nat)
    requires Chosen(code, members, header, lim, info, hoisted) && j <= k < |hoisted| && c.aliased == lim.aliased
    ensures DefinedVar(hoisted[k]).Some? && Dst(hoisted[k]) !in Needs(c, hoisted[j])
  {
    ChosenItem(code, members, header, lim, info, hoisted, j);
    ChosenItem(code, members, header, lim, info, hoisted, k);
    CandidateDefines(lim, info, hoisted[k], Dsts(hoisted[..k]));
    CandidateLifts(c, lim, info, hoisted[j], Dsts(hoisted[..j]));
    var x := Dst(hoisted[k]);
    hide IsCandidate, Needs, LoopDefs;
    if x in Needs(c, hoisted[j]) {
      assert OperandInvariant(lim, info, x, Dsts(hoisted[..j]));
      assert CountOf(info.counts, x) == LoopDefs(code, members, x, |code|);
      var o :| 0 <= o < j && DefinedVar(hoisted[..j][o]).Some? && Dst(hoisted[..j][o]) == x;
      ChosenDistinct(code, members, header, lim, info, hoisted, o, k);
    }
  }

  /** What stays in the loop defines neither a hoisted variable nor an operand of one. */
  lemma ChosenQuiet(c: Ctx, code: Code, members: set<nat>, header: nat, lim: Limits, info: LoopInfo,
        hoisted: seq<Instr>,
                    b: nat, i: Instr, k: nat)
    requires Chosen(code, members, header, lim, info, hoisted) && c.aliased == lim.aliased
    requires b in members && b < |code| && i in code[b] && i !in hoisted && DefinedVar(i).Some? && k < |hoisted|
    ensures DefinedVar(hoisted[k]).Some? && Dst(i) != Dst(hoisted[k]) && Dst(i) !in Needs(c, hoisted[k])
  {
    ChosenItem(code, members, header, lim, info, hoisted, k);
    CandidateDefines(lim, info, hoisted[k], Dsts(hoisted[..k]));
    CandidateLifts(c, lim, info, hoisted[k], Dsts(hoisted[..k]));
    var y := Dst(i);
    StaysDefines(code, members, header, lim, info, hoisted, b, i);
    hide IsCandidate, Needs, LoopDefs;
    NotBoth(code, members, header, lim, info, hoisted, b, i, k);
    if y in Needs(c, hoisted[k]) {
      assert OperandInvariant(lim, info, y, Dsts(hoisted[..k]));
      assert CountOf(info.counts, y) == LoopDefs(code, members, y, |code|);
      var o :| 0 <= o < k && DefinedVar(hoisted[..k][o]).Some? && Dst(hoisted[..k][o]) == y;
      NotBoth(code, members, header, lim, info, hoisted, b, i, o);
    }
  }

  lemma StaysDefines(code: Code, members: set<nat>, header: nat, lim: Limits, info: LoopInfo, hoisted: seq<Instr>,
        b: nat, i: Instr)
    requires Chosen(code, members, header, lim, info, hoisted)
    requires b in members && b < |code| && i in code[b] && DefinedVar(i).Some?
    ensures LoopDefs(code, members, Dst(i), |code|) >= 1
  {
    CountHas(code[b], i, Dst(i));
    LoopDefsAtLeast(code, members, Dst(i), |code|, b, b);
  }

  lemma NotBoth(code: Code, members: set<nat>, header: nat, lim: Limits, info: LoopInfo, hoisted: seq<Instr>, b: nat,
        i: Instr, k: nat)
    requires Chosen(code, members, header, lim, info, hoisted)
    requires b in members && b < |code| && i in code[b] && DefinedVar(i).Some? && k < |hoisted|
    requires b == header ==> i !in hoisted
    ensures DefinedVar(hoisted[k]).Some? && Dst(i) != Dst(hoisted[k])
  {
    ChosenItem(code, members, header, lim, info, hoisted, k);
    CandidateDefines(lim, info, hoisted[k], Dsts(hoisted[..k]));
    var x := Dst(hoisted[k]);
    DefinedOnce(code, members, header, lim, info, hoisted, x);
    CountHas(hoisted, hoisted[k], x);
    hide IsCandidate, LoopDefs;
    if Dst(i) == x {
      if b == header {
        SplitMembers(lim, info, code[header], {});
        CountHas(Keeps(lim, info, code[header], {}), i, x);
      } else {
        CountHas(code[b], i, x);
      }
    }
  }

  /** The choice fits the simulation, if the header defines what it hoists before reading it. */
  lemma ChosenFits(c: Ctx, code: Code, members: set<nat>, header: nat, preheader: nat, lim: Limits, info: LoopInfo,
        hoisted: seq<Instr>)
    requires Chosen(code, members, header, lim, info, hoisted) && c.aliased == lim.aliased
    requires DefinedFirst(c, code[header], hoisted)
    ensures LoopFits(c, code, Plan(header, preheader, members, hoisted))
    ensures Keeps(lim, info, code[header], {}) == FilterOut(code[header], hoisted)
  {
    ChosenLifts(c, code, members, header, lim, info, hoisted);
    assert InOrder(c, hoisted) by {
      forall j, k | 0 <= j <= k < |hoisted|
        ensures DefinedVar(hoisted[k]).Some? && Dst(hoisted[k]) !in Needs(c, hoisted[j])
      {
        ChosenReadsBack(c, code, members, header, lim, info, hoisted, j, k);
      }
      forall j, k | 0 <= j < k < |hoisted|
        ensures DefinedVar(hoisted[j]) != DefinedVar(hoisted[k])
      {
        ChosenDistinct(code, members, header, lim, info, hoisted, j, k);
      }
    }
    forall b, i | b in members && b < |code| && i in code[b] && i !in hoisted
      ensures Quiet(c, hoisted, i)
    {
      forall k | 0 <= k < |hoisted| && DefinedVar(hoisted[k]).Some? && DefinedVar(i).Some?
        ensures Dst(i) != Dst(hoisted[k]) && Dst(i) !in Needs(c, hoisted[k])
      {
        ChosenQuiet(c, code, members, header, lim, info, hoisted, b, i, k);
      }
    }
    ChosenOnlyInHeader(code, members, header, lim, info, hoisted);
    KeepsIsFilter(lim, info, code[header], {}, hoisted);
    hide IsCandidate, Needs, LoopDefs, Picks, Keeps, InOrder, AllLift, Quiet, DefinedFirst;
  }

  lemma ChosenOnlyInHeader(code: Code, members: set<nat>, header: nat, lim: Limits, info: LoopInfo, hoisted: seq<Instr>)
    requires Chosen(code, members, header, lim, info, hoisted)
    ensures forall b, i :: b in members && b < |code| && b != header && i in code[b] ==> i !in hoisted
    ensures forall i :: i in hoisted ==> i in code[header] && i !in Keeps(lim, info, code[header], {})
  {
    forall b, i | b in members && b < |code| && b != header && i in code[b]
      ensures i !in hoisted
    {
      if i in hoisted {
        var k :| 0 <= k < |hoisted| && hoisted[k] == i;
        ChosenItem(code, members, header, lim, info, hoisted, k);
        NotBoth(code, members, header, lim, info, hoisted, b, i, k);
      }
    }
    forall i | i in hoisted
      ensures i in code[header] && i !in Keeps(lim, info, code[header], {})
    {
      var k :| 0 <= k < |hoisted| && hoisted[k] == i;
      ChosenItem(code, members, header, lim, info, hoisted, k);
      CandidateDefines(lim, info, i, Dsts(hoisted[..k]));
      DefinedOnce(code, members, header, lim, info, hoisted, Dst(i));
      CountHas(hoisted, i, Dst(i));
      if i in Keeps(lim, info, code[header], {}) {
        CountHas(Keeps(lim, info, code[header], {}), i, Dst(i));
      }
    }
  }
}
