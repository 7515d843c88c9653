/** Inlining small straight-line functions: the copy in the caller does what a call in a
    frame of its own would do. */
module Inlining {
  import opened Tacky
  import opened Semantics
  import opened Effects
  import opened Mangling
  import opened Operands
  import opened SmallPrograms

  // ----- which functions are inlined -----

  /** A function, as far as the choice looks at it. `plainParams` stands for the absence of
      stack, memory and aggregate parameters. */
  datatype Function = Function(name: Name, isGlobal: bool, returnType: CType, plainParams: bool,
                               params: seq<Name>, body: seq<Instr>)

  datatype InlineCandidate = InlineCandidate(params: seq<Name>, body: seq<Instr>, returnValue: Val)

  /** `is_inline_safe_instr` */
  predicate IsInlineSafe(i: Instr) {
    i.Copy? || i.Unary? || i.Convert? || i.AddPtr? || i.Binary?
  }

  /** Instructions up to the only return; behind it there are Nops at most. */
  predicate StraightLine(instrs: seq<Instr>, body: seq<Instr>, value: Val) {
    instrs != [] &&
    if instrs[0].Nop? then StraightLine(instrs[1..], body, value)
    else if instrs[0].Return? then body == [] && instrs[0].val == value && forall i :: i in instrs[1..] ==> i.Nop?
    else IsInlineSafe(instrs[0]) && body != [] && body[0] == instrs[0] && StraightLine(instrs[1..], body[1..], value)
  }

  predicate KnownName(name: Name, types: Types, statics: set<Name>) {
    name in statics || name in types
  }

  predicate NamesKnown(cand: InlineCandidate, types: Types, statics: set<Name>) {
    && (forall k :: 0 <= k < |cand.params| ==> KnownName(cand.params[k], types, statics))
    && (forall k :: 0 <= k < |cand.body| ==> InstrKnown(cand.body[k], types, statics))
    && (forall x :: x in ValVars(cand.returnValue) ==> KnownName(x, types, statics))
  }

  predicate InstrKnown(i: Instr, types: Types, statics: set<Name>) {
    && (DefinedVar(i).Some? ==> DefinedVar(i).value !in statics && DefinedVar(i).value in types)
    && forall x :: x in SourceVars(i) ==> KnownName(x, types, statics)
  }

  /** What a candidate must be: local, scalar, short, straight-line, over known names. */
  predicate IsCandidateOf(f: Function, cand: InlineCandidate, types: Types, statics: set<Name>) {
    && !f.isGlobal && !f.returnType.Void? && !f.returnType.Struct? && !f.returnType.LongDouble? && f.plainParams
    && cand.params == f.params && |cand.body| <= 16
    && StraightLine(f.body, cand.body, cand.returnValue) && NamesKnown(cand, types, statics)
  }

  /** What the scan has found after `k` instructions. */
  ghost predicate Scanned(instrs: seq<Instr>, k: nat, body: seq<Instr>, value: Option<Val>) {
    k <= |instrs| &&
    forall b, v :: StraightLine(instrs, b, v) <==>
      if value.Some? then b == body && v == value.value && forall i :: i in instrs[k..] ==> i.Nop?
      else |b| >= |body| && b[..|body|] == body && StraightLine(instrs[k..], b[|body|..], v)
  }

  lemma ScanStarts(instrs: seq<Instr>)
    ensures Scanned(instrs, 0, [], None)
  {
    assert instrs[0..] == instrs;
    forall b: seq<Instr>, v
      ensures StraightLine(instrs, b, v) <==> |b| >= 0 && b[..0] == [] && StraightLine(instrs[0..], b[0..], v)
    {
      assert b[0..] == b;
    }
  }

  lemma ScanAppends(instrs: seq<Instr>, k: nat, body: seq<Instr>)
    requires k < |instrs| && Scanned(instrs, k, body, None) && IsInlineSafe(instrs[k])
    ensures Scanned(instrs, k + 1, body + [instrs[k]], None)
  {
    var next := body + [instrs[k]];
    assert instrs[k..][0] == instrs[k] && instrs[k..][1..] == instrs[k + 1..];
    forall b, v
      ensures StraightLine(instrs, b, v) <==>
        |b| >= |next| && b[..|next|] == next && StraightLine(instrs[k + 1..], b[|next|..], v)
    {
      if |b| > |body| && b[..|body|] == body {
        assert b[|body|..][0] == b[|body|] && b[|body|..][1..] == b[|next|..];
        assert b[..|next|] == b[..|body|] + [b[|body|]];
        if b[..|next|] == next {
          assert next[|body|] == instrs[k];
        }
      }
      if |b| >= |next| && b[..|next|] == next {
        assert b[..|body|] == next[..|body|] == body;
      }
    }
  }

  lemma ScanSkips(instrs: seq<Instr>, k: nat, body: seq<Instr>, value: Option<Val>)
    requires k < |instrs| && Scanned(instrs, k, body, value) && instrs[k].Nop?
    ensures Scanned(instrs, k + 1, body, value)
  {
    assert instrs[k..][0] == instrs[k] && instrs[k..][1..] == instrs[k + 1..];
    assert instrs[k..] == [instrs[k]] + instrs[k + 1..];
  }

  lemma ScanReturns(instrs: seq<Instr>, k: nat, body: seq<Instr>)
    requires k < |instrs| && Scanned(instrs, k, body, None) && instrs[k].Return?
    ensures Scanned(instrs, k + 1, body, Some(instrs[k].val))
  {
    assert instrs[k..][0] == instrs[k] && instrs[k..][1..] == instrs[k + 1..];
    forall b, v
      ensures StraightLine(instrs, b, v) <==>
              b == body && v == instrs[k].val && forall i :: i in instrs[k + 1..] ==> i.Nop?
    {
      if |b| >= |body| && b[..|body|] == body && b[|body|..] == [] {
        assert b == b[..|body|] + b[|body|..];
      }
      if b == body {
        assert b[..|body|] == body && b[|body|..] == [];
      }
    }
  }

  lemma ScanFails(instrs: seq<Instr>, k: nat, body: seq<Instr>, value: Option<Val>, b: seq<Instr>, v: Val)
    requires k < |instrs| && Scanned(instrs, k, body, value) && !instrs[k].Nop?
    requires value.Some? || (!instrs[k].Return? && !IsInlineSafe(instrs[k]))
    ensures !StraightLine(instrs, b, v)
  {
    assert instrs[k..][0] == instrs[k];
    assert instrs[k] in instrs[k..];
  }

  // ----- candidates, told by positions -----

  /** The instructions stand at these positions, in order, in front of the return at `r`; all else is Nop. */
  ghost predicate StandsAt(instrs: seq<Instr>, at: seq<nat>, r: nat, body: seq<Instr>, value: Val) {
    r < |instrs| && instrs[r] == Return(value) && InPlace(instrs, at, r, body) && ElseNops(instrs, at, r)
  }

  /** The body stands at increasing positions below `r`. */
  ghost predicate InPlace(instrs: seq<Instr>, at: seq<nat>, r: nat, body: seq<Instr>)
    requires r <= |instrs|
  {
    && |at| == |body| && (forall j :: 0 <= j < |at| ==> at[j] < r && instrs[at[j]] == body[j])
    && (forall i, j :: 0 <= i < j < |at| ==> at[i] < at[j])
  }

  /** Copies, operators and conversions: nothing that touches memory, calls, takes an address or jumps. */
  predicate Plain(i: Instr) {
    i.Copy? || i.Unary? || i.Binary? || i.Convert? || i.AddPtr?
  }

  /** What may be inlined: a local function of scalar type without memory parameters, whose body is at most
      sixteen plain instructions and one return behind them, over names that are static or typed. */
  ghost predicate Inlinable(f: Function, cand: InlineCandidate, types: Types, statics: set<Name>) {
    && !f.isGlobal && f.returnType !in {Void, Struct, LongDouble} && f.plainParams && cand.params == f.params
    && |cand.body| <= 16 && (forall i :: i in cand.body ==> Plain(i))
    && (exists at, r :: StandsAt(f.body, at, r, cand.body, cand.returnValue))
    && (forall x :: x in cand.params || cand.returnValue == Var(x) ==> x in statics || x in types)
    && (forall i, x :: i in cand.body && ReadsVar(i, x) ==> x in statics || x in types)
    && (forall i, x :: i in cand.body && Overwrites(i, x) ==> x !in statics && x in types)
  }

  /** All positions one further to the back, or to the front. */
  function Later(at: seq<nat>): (r: seq<nat>)
    ensures |r| == |at| && forall j :: 0 <= j < |at| ==> r[j] == at[j] + 1
  {
    seq(|at|, j requires 0 <= j < |at| => at[j] + 1)
  }

  function Sooner(at: seq<nat>): (r: seq<nat>)
    requires forall j :: 0 <= j < |at| ==> at[j] > 0
    ensures |r| == |at| && forall j :: 0 <= j < |at| ==> r[j] == at[j] - 1
  {
    seq(|at|, j requires 0 <= j < |at| => at[j] - 1)
  }

  /** All but the return and these positions is Nop. */
  ghost predicate ElseNops(instrs: seq<Instr>, at: seq<nat>, r: nat) {
    forall k :: 0 <= k < |instrs| && k != r ==> instrs[k].Nop? || (k < r && k in at)
  }

  lemma NopsLater(i: Instr, instrs: seq<Instr>, at: seq<nat>, all: seq<nat>, r: nat)
    requires ElseNops(instrs, at, r) && (forall k :: k in at ==> k + 1 in all) && (i.Nop? || 0 in all)
    ensures ElseNops([i] + instrs, all, r + 1)
  {
    var more := [i] + instrs;
    forall k | 0 <= k < |more| && k != r + 1
      ensures more[k].Nop? || (k < r + 1 && k in all)
    {
      if k > 0 {
        assert more[k] == instrs[k - 1];
      }
    }
  }

  lemma InLater(at: seq<nat>)
    ensures forall k :: k in at ==> k + 1 in Later(at)
  {
    forall k | k in at
      ensures k + 1 in Later(at)
    {
      var j :| 0 <= j < |at| && at[j] == k;
      assert Later(at)[j] == k + 1;
    }
  }

  lemma LaterSkips(i: Instr, instrs: seq<Instr>, at: seq<nat>, r: nat, body: seq<Instr>, value: Val)
    requires StandsAt(instrs, at, r, body, value) && i.Nop?
    ensures StandsAt([i] + instrs, Later(at), r + 1, body, value)
  {
    InLater(at);
    NopsLater(i, instrs, at, Later(at), r);
    hide Later, ElseNops;
  }

  lemma InPlaceLater(i: Instr, instrs: seq<Instr>, at: seq<nat>, r: nat, body: seq<Instr>)
    requires r <= |instrs| && InPlace(instrs, at, r, body)
    ensures InPlace([i] + instrs, Later(at), r + 1, body)
  {
    hide Later;
    assert forall k :: 0 <= k < |instrs| ==> ([i] + instrs)[k + 1] == instrs[k];
  }

  lemma InPlaceWith(instrs: seq<Instr>, at: seq<nat>, r: nat, body: seq<Instr>)
    requires 0 < r <= |instrs| && InPlace(instrs, at, r, body) && forall j :: 0 <= j < |at| ==> at[j] > 0
    ensures InPlace(instrs, [0] + at, r, [instrs[0]] + body)
  {
  }

  lemma LaterTakes(i: Instr, instrs: seq<Instr>, at: seq<nat>, r: nat, body: seq<Instr>, value: Val)
    requires StandsAt(instrs, at, r, body, value)
    ensures StandsAt([i] + instrs, [0] + Later(at), r + 1, [i] + body, value)
  {
    hide Later, ElseNops, InPlace;
    var all := [0] + Later(at);
    InLater(at);
    assert all[0] == 0 && forall k :: k in Later(at) ==> k in all;
    NopsLater(i, instrs, at, all, r);
    InPlaceLater(i, instrs, at, r, body);
    InPlaceWith([i] + instrs, Later(at), r + 1, body);
    assert ([i] + instrs)[0] == i && ([i] + instrs)[r + 1] == instrs[r];
  }

  lemma {:induction false} StraightStands(instrs: seq<Instr>, body: seq<Instr>, value: Val)
    returns (at: seq<nat>, r: nat)
    requires StraightLine(instrs, body, value)
    ensures StandsAt(instrs, at, r, body, value)
    decreases |instrs|
  {
    var i, rest := instrs[0], instrs[1..];
    assert instrs == [i] + rest;
    hide StandsAt;
    if i.Return? {
      at, r := [], 0;
      ReturnStands(i, rest, value);
    } else if i.Nop? {
      at, r := StraightStands(rest, body, value);
      LaterSkips(i, rest, at, r, body, value);
      at, r := Later(at), r + 1;
    } else {
      at, r := StraightStands(rest, body[1..], value);
      LaterTakes(i, rest, at, r, body[1..], value);
      assert [i] + body[1..] == body;
      at, r := [0] + Later(at), r + 1;
    }
  }

  lemma ReturnStands(i: Instr, rest: seq<Instr>, value: Val)
    requires i == Return(value) && forall j :: j in rest ==> j.Nop?
    ensures StandsAt([i] + rest, [], 0, [], value)
  {
    var all := [i] + rest;
    forall k | 0 < k < |all|
      ensures all[k].Nop?
    {
      assert all[k] == rest[k - 1];
    }
  }

  lemma NopsSooner(i: Instr, rest: seq<Instr>, at: seq<nat>, n: nat, r: nat)
    requires ElseNops([i] + rest, at, r) && r > 0 && n <= |at| && n <= 1 && (n == 1 ==> at[0] == 0)
    requires forall j :: n <= j < |at| ==> at[j] > 0
    ensures ElseNops(rest, Sooner(at[n..]), r - 1)
  {
    var all, some := [i] + rest, Sooner(at[n..]);
    forall k | 0 <= k < |rest| && k != r - 1
      ensures rest[k].Nop? || (k < r - 1 && k in some)
    {
      assert all[k + 1] == rest[k];
      if !rest[k].Nop? {
        var j :| 0 <= j < |at| && at[j] == k + 1;
        assert some[j - n] == k;
      }
    }
  }

  lemma InPlaceBehind(instrs: seq<Instr>, at: seq<nat>, n: nat, r: nat, body: seq<Instr>)
    requires r <= |instrs| && n <= |at| && InPlace(instrs, at, r, body)
    ensures InPlace(instrs, at[n..], r, body[n..])
  {
  }

  lemma InPlaceSooner(i: Instr, rest: seq<Instr>, at: seq<nat>, r: nat, body: seq<Instr>)
    requires 0 < r <= |rest| + 1 && InPlace([i] + rest, at, r, body) && forall j :: 0 <= j < |at| ==> at[j] > 0
    ensures InPlace(rest, Sooner(at), r - 1, body)
  {
    hide Sooner;
    assert forall k :: 0 < k < |rest| + 1 ==> ([i] + rest)[k] == rest[k - 1];
  }

  lemma SoonerStands(i: Instr, rest: seq<Instr>, at: seq<nat>, n: nat, r: nat, body: seq<Instr>, value: Val)
    requires StandsAt([i] + rest, at, r, body, value) && r > 0 && n <= |at| && n <= 1 && (n == 1 ==> at[0] == 0)
    requires forall j :: n <= j < |at| ==> at[j] > 0
    ensures n <= |body| && StandsAt(rest, Sooner(at[n..]), r - 1, body[n..], value)
  {
    assert |at| == |body|;
    hide ElseNops, Sooner, InPlace;
    NopsSooner(i, rest, at, n, r);
    InPlaceBehind([i] + rest, at, n, r, body);
    InPlaceSooner(i, rest, at[n..], r, body[n..]);
    assert rest[r - 1] == ([i] + rest)[r];
  }

  lemma FirstIsLeast(at: seq<nat>, j: nat)
    requires j < |at| && forall i, k :: 0 <= i < k < |at| ==> at[i] < at[k]
    ensures j > 0 ==> at[0] < at[j]
  {
  }

  lemma FirstTaken(i: Instr, rest: seq<Instr>, at: seq<nat>, r: nat, body: seq<Instr>, value: Val)
    requires StandsAt([i] + rest, at, r, body, value) && r > 0 && forall k :: k in body ==> Plain(k)
    ensures i.Nop? ==> forall j :: 0 <= j < |at| ==> at[j] > 0
    ensures !i.Nop? ==> |at| > 0 && at[0] == 0 && body[0] == i && forall j :: 1 <= j < |at| ==> at[j] > 0
  {
    assert ([i] + rest)[0] == i;
    if i.Nop? {
      forall j | 0 <= j < |at|
        ensures at[j] > 0
      {
        assert body[j] in body;
      }
    } else {
      var j :| 0 <= j < |at| && at[j] == 0;
      FirstIsLeast(at, j);
    }
  }

  lemma StraightReturn(instrs: seq<Instr>, value: Val)
    requires instrs != [] && instrs[0] == Return(value) && forall i :: i in instrs[1..] ==> i.Nop?
    ensures StraightLine(instrs, [], value)
  {
  }

  lemma StraightNop(instrs: seq<Instr>, body: seq<Instr>, value: Val)
    requires instrs != [] && instrs[0].Nop? && StraightLine(instrs[1..], body, value)
    ensures StraightLine(instrs, body, value)
  {
  }

  lemma StraightTakes(instrs: seq<Instr>, body: seq<Instr>, value: Val)
    requires instrs != [] && body != [] && body[0] == instrs[0] && Plain(instrs[0])
    requires StraightLine(instrs[1..], body[1..], value)
    ensures StraightLine(instrs, body, value)
  {
  }

  lemma {:induction false} StandsStraight(instrs: seq<Instr>, at: seq<nat>, r: nat, body: seq<Instr>, value: Val)
    requires StandsAt(instrs, at, r, body, value) && forall i :: i in body ==> Plain(i)
    ensures StraightLine(instrs, body, value)
    decreases |instrs|
  {
    hide StraightLine, InPlace, ElseNops, Sooner, Plain;
    var i, rest := instrs[0], instrs[1..];
    assert instrs == [i] + rest;
    if r == 0 {
      NothingInFront(instrs, at, body, value);
      StraightReturn(instrs, value);
    } else {
      FirstTaken(i, rest, at, r, body, value);
      hide StandsAt;
      if i.Nop? {
        SoonerStands(i, rest, at, 0, r, body, value);
        assert body[0..] == body;
        StandsStraight(rest, Sooner(at[0..]), r - 1, body, value);
        StraightNop(instrs, body, value);
      } else {
        SoonerStands(i, rest, at, 1, r, body, value);
        assert i in body;
        StandsStraight(rest, Sooner(at[1..]), r - 1, body[1..], value);
        StraightTakes(instrs, body, value);
      }
    }
  }

  lemma NothingInFront(instrs: seq<Instr>, at: seq<nat>, body: seq<Instr>, value: Val)
    requires StandsAt(instrs, at, 0, body, value)
    ensures body == [] && instrs[0] == Return(value) && forall i :: i in instrs[1..] ==> i.Nop?
  {
    NoneBelow(at, 0);
    forall i | i in instrs[1..]
      ensures i.Nop?
    {
      var k :| 0 <= k < |instrs[1..]| && instrs[1..][k] == i;
      assert instrs[k + 1] == i;
    }
  }

  lemma NoneBelow(at: seq<nat>, r: nat)
    requires forall j :: 0 <= j < |at| ==> at[j] < r
    ensures r == 0 ==> at == []
  {
    if at != [] {
      assert at[0] < r;
    }
  }

  lemma InstrWritten(i: Instr, types: Types, statics: set<Name>)
    requires Plain(i)
    ensures InstrKnown(i, types, statics) <==>
      && (forall x :: ReadsVar(i, x) ==> x in statics || x in types)
      && (forall x :: Overwrites(i, x) ==> x !in statics && x in types)
  {
    forall x
      ensures ReadsVar(i, x) <==> x in SourceVars(i)
      ensures Overwrites(i, x) <==> DefinedVar(i) == Some(x)
    {
      ReadsAreSources(i, x);
    }
    hide SourceVars, ReadsVar, Overwrites, DefinedVar;
    if DefinedVar(i).Some? {
      assert Overwrites(i, DefinedVar(i).value);
    }
  }

  lemma NamesWritten(cand: InlineCandidate, types: Types, statics: set<Name>)
    requires forall i :: i in cand.body ==> Plain(i)
    ensures NamesKnown(cand, types, statics) <==>
      && (forall x :: x in cand.params || cand.returnValue == Var(x) ==> x in statics || x in types)
      && (forall i, x :: i in cand.body && ReadsVar(i, x) ==> x in statics || x in types)
      && (forall i, x :: i in cand.body && Overwrites(i, x) ==> x !in statics && x in types)
  {
    hide ReadsVar, Overwrites, InstrKnown;
    forall i | i in cand.body
      ensures InstrKnown(i, types, statics) <==>
        && (forall x :: ReadsVar(i, x) ==> x in statics || x in types)
        && (forall x :: Overwrites(i, x) ==> x !in statics && x in types)
    {
      InstrWritten(i, types, statics);
    }
    assert forall x :: cand.returnValue == Var(x) <==> x in ValVars(cand.returnValue);
  }

  /** A function is a candidate exactly if it may be inlined. */
  lemma CandidatesAreInlinable(f: Function, cand: InlineCandidate, types: Types, statics: set<Name>)
    ensures IsCandidateOf(f, cand, types, statics) <==> Inlinable(f, cand, types, statics)
  {
    hide NamesKnown, StandsAt, ReadsVar, Overwrites;
    if StraightLine(f.body, cand.body, cand.returnValue) {
      var at, r := StraightStands(f.body, cand.body, cand.returnValue);
      StraightIsPlain(f.body, cand.body, cand.returnValue);
    }
    if forall i :: i in cand.body ==> Plain(i) {
      NamesWritten(cand, types, statics);
      if at, r :| StandsAt(f.body, at, r, cand.body, cand.returnValue) {
        StandsStraight(f.body, at, r, cand.body, cand.returnValue);
      }
    }
    hide StraightLine;
  }

  lemma {:induction false} StraightIsPlain(instrs: seq<Instr>, body: seq<Instr>, value: Val)
    requires StraightLine(instrs, body, value)
    ensures forall i :: i in body ==> Plain(i)
    decreases |instrs|
  {
    if instrs[0].Nop? {
      StraightIsPlain(instrs[1..], body, value);
    } else if !instrs[0].Return? {
      StraightIsPlain(instrs[1..], body[1..], value);
      assert body == [body[0]] + body[1..];
    }
  }

  /** `inline_candidate` */
  method FindCandidate(f: Function, types: Types, statics: set<Name>) returns (r: Option<InlineCandidate>)
    ensures forall cand :: IsCandidateOf(f, cand, types, statics) <==> r == Some(cand)
    ensures forall cand :: Inlinable(f, cand, types, statics) <==> r == Some(cand)
  {
    forall cand
      ensures IsCandidateOf(f, cand, types, statics) <==> Inlinable(f, cand, types, statics)
    {
      CandidatesAreInlinable(f, cand, types, statics);
    }
    hide StraightLine, NamesKnown, Scanned, Inlinable;
    if f.isGlobal || f.returnType.Void? || f.returnType.Struct? || f.returnType.LongDouble? || !f.plainParams {
      return None;
    }
    var body: seq<Instr> := [];
    var value: Option<Val> := None;
    ScanStarts(f.body);
    for k := 0 to |f.body|
      invariant Scanned(f.body, k, body, value)
    {
      match f.body[k]
      case Nop => ScanSkips(f.body, k, body, value);
      case Return(v) =>
        if value.Some? {
          NoCandidate(f, k, body, value);
          return None;
        }
        ScanReturns(f.body, k, body);
        value := Some(v);
      case _ =>
        if value.Some? || !IsInlineSafe(f.body[k]) {
          NoCandidate(f, k, body, value);
          return None;
        }
        ScanAppends(f.body, k, body);
        body := body + [f.body[k]];
    }
    ScanEnds(f.body, body, value);
    if |body| > 16 || value.None? {
      return None;
    }
    var cand := InlineCandidate(f.params, body, value.value);
    if !NamesKnown(cand, types, statics) {
      return None;
    }
    return Some(cand);
  }

  lemma NoCandidate(f: Function, k: nat, body: seq<Instr>, value: Option<Val>)
    requires k < |f.body| && Scanned(f.body, k, body, value) && !f.body[k].Nop?
    requires value.Some? || (!f.body[k].Return? && !IsInlineSafe(f.body[k]))
    ensures forall b, v :: !StraightLine(f.body, b, v)
  {
    forall b, v
      ensures !StraightLine(f.body, b, v)
    {
      ScanFails(f.body, k, body, value, b, v);
    }
  }

  lemma ScanEnds(instrs: seq<Instr>, body: seq<Instr>, value: Option<Val>)
    requires Scanned(instrs, |instrs|, body, value)
    ensures forall b, v :: StraightLine(instrs, b, v) <==> value == Some(v) && b == body
  {
    assert instrs[|instrs|..] == [];
  }

  // ----- fresh names -----

  const INLINE_PREFIX := "__rnqcc_inline."

  /** The name a variable of an inlined function gets at call `id`. */
  function InlineName(id: nat, x: Name): Name {
    INLINE_PREFIX + Show(id, 10) + "." + x
  }

  /** The text in front of the first dot. */
  lemma DotSplits(a: string, b: string, x: string, y: string)
    requires AllDecimal(a) && AllDecimal(b) && a + "." + x == b + "." + y
    ensures a == b && x == y
  {
    var s, t := a + "." + x, b + "." + y;
    assert s[|a|] == '.' && t[|b|] == '.' && !IsDigit('.', 10);
    assert forall k :: 0 <= k < |a| ==> s[k] == a[k] && s[k] != '.';
    assert forall k :: 0 <= k < |b| ==> t[k] == b[k] && t[k] != '.';
    assert a == s[..|a|] && b == t[..|b|] && x == s[|a| + 1..] && y == t[|b| + 1..];
  }

  /** Names are distinct across calls and across variables. */
  lemma InlineNamesDistinct(i: nat, x: Name, j: nat, y: Name)
    ensures InlineName(i, x) == InlineName(j, y) <==> i == j && x == y
  {
    if InlineName(i, x) == InlineName(j, y) {
      var s, t := Show(i, 10) + "." + x, Show(j, 10) + "." + y;
      assert InlineName(i, x) == INLINE_PREFIX + s && InlineName(j, y) == INLINE_PREFIX + t;
      assert s == (INLINE_PREFIX + s)[|INLINE_PREFIX|..] && t == (INLINE_PREFIX + t)[|INLINE_PREFIX|..];
      DotSplits(Show(i, 10), Show(j, 10), x, y);
      ParseShow(i, 10);
      ParseShow(j, 10);
    }
  }

  /** A variable of the function as call `id` sees it: statics keep their names. */
  function Renamed(id: nat, statics: set<Name>, x: Name): Name {
    if x in statics then x else InlineName(id, x)
  }

  function RenamedVal(id: nat, statics: set<Name>, v: Val): Val {
    if v.Var? then Var(Renamed(id, statics, v.name)) else v
  }

  function RenamedInstr(id: nat, statics: set<Name>, i: Instr): Instr {
    match i
    case Copy(v, x) => Copy(RenamedVal(id, statics, v), Renamed(id, statics, x))
    case Unary(op, v, x) => Unary(op, RenamedVal(id, statics, v), Renamed(id, statics, x))
    case Convert(kind, v, x) => Convert(kind, RenamedVal(id, statics, v), Renamed(id, statics, x))
    case Binary(op, v, w, x) => Binary(op, RenamedVal(id, statics, v), RenamedVal(id, statics, w),
      Renamed(id, statics, x))
    case AddPtr(v, w, scale, x) => AddPtr(RenamedVal(id, statics, v), RenamedVal(id, statics, w), scale,
      Renamed(id, statics, x))
    case _ => i
  }

  function ParamCopies(params: seq<Name>, args: seq<Val>, id: nat, statics: set<Name>): (r: seq<Instr>)
    requires |params| == |args|
    ensures |r| == |params|
  {
    seq(|params|, k requires 0 <= k < |params| => Copy(args[k], Renamed(id, statics, params[k])))
  }

  function RenamedBody(body: seq<Instr>, id: nat, statics: set<Name>): (r: seq<Instr>)
    ensures |r| == |body|
  {
    seq(|body|, k requires 0 <= k < |body| => RenamedInstr(id, statics, body[k]))
  }

  /** The instructions that take the place of a call. */
  function Expansion(cand: InlineCandidate, args: seq<Val>, dst: Name, id: nat, statics: set<Name>): seq<Instr>
    requires |cand.params| == |args|
  {
    ParamCopies(cand.params, args, id, statics) + RenamedBody(cand.body, id, statics)
    + [Copy(RenamedVal(id, statics, cand.returnValue), dst)]
  }

  /** The variables an instruction mentions. */
  function InstrVars(i: Instr): set<Name> {
    SourceVars(i) + if DefinedVar(i).Some? then {DefinedVar(i).value} else {}
  }

  function BodyVars(body: seq<Instr>): set<Name> {
    set k, x | 0 <= k < |body| && x in InstrVars(body[k]) :: x
  }

  function ParamNames(params: seq<Name>): set<Name> {
    set k | 0 <= k < |params| :: params[k]
  }

  /** The variables of a candidate. */
  function Mentioned(cand: InlineCandidate): set<Name> {
    ParamNames(cand.params) + BodyVars(cand.body) + ValVars(cand.returnValue)
  }

  /** The renames of call `id` that the symbol tables must hear of, each of them once. */
  ghost predicate Notes(metadata: seq<(Name, Name)>, cand: InlineCandidate, id: nat, statics: set<Name>, types: Types) {
    && (forall k :: 0 <= k < |metadata| ==> metadata[k].0 in types && metadata[k].1 == InlineName(id, metadata[k].0))
    && (forall x :: x in Mentioned(cand) && x !in statics && x in types ==> (x, InlineName(id, x)) in metadata)
    && (forall j, k :: 0 <= j < k < |metadata| ==> metadata[j] != metadata[k])
  }

  // ----- the expansion as it is built -----

  class InlineExpansion {
    const callId: nat
    const statics: set<Name>
    const types: Types
    var renames: map<Name, Name>
    var metadata: seq<(Name, Name)>

    /** The renames made so far, each noted once for the symbol tables. */
    ghost predicate Valid()
      reads this
    {
      && (forall x :: x in renames ==> x !in statics && renames[x] == InlineName(callId, x))
      && (forall x :: x in renames && x in types ==> (x, renames[x]) in metadata)
      && (forall k :: 0 <= k < |metadata| ==>
         metadata[k].0 in renames && metadata[k].0 in types && metadata[k].1 == InlineName(callId, metadata[k].0))
      && (forall j, k :: 0 <= j < k < |metadata| ==> metadata[j] != metadata[k])
    }

    constructor (id: nat, statics: set<Name>, types: Types)
      ensures Valid() && callId == id && this.statics == statics && this.types == types && renames == map[]
        && metadata == []
    {
      callId, this.statics, this.types, renames, metadata := id, statics, types, map[], [];
    }

    /** `rename_var` */
    method RenameVar(name: Name) returns (renamed: Name)
      requires Valid()
      modifies this
      ensures Valid() && renamed == Renamed(callId, statics, name)
      ensures renames.Keys == old(renames).Keys + if name in statics then {} else {name}
      ensures metadata == old(metadata) +
        if name in statics || name in old(renames) || name !in types then [] else [(name, renamed)]
    {
      if name in statics {
        return name;
      }
      if name in renames {
        return renames[name];
      }
      renamed := INLINE_PREFIX + Show(callId, 10) + "." + name;
      if name in types {
        metadata := metadata + [(name, renamed)];
      }
      renames := renames[name := renamed];
    }

    /** `rename_inline_val` */
    method RenameVal(v: Val) returns (r: Val)
      requires Valid()
      modifies this
      ensures Valid() && r == RenamedVal(callId, statics, v)
      ensures renames.Keys == old(renames).Keys + (ValVars(v) - statics)
    {
      r := v;
      if v.Var? {
        var name := RenameVar(v.name);
        r := Var(name);
      }
    }

    /** An operand and then the destination, as most instructions have them. */
    method RenameUse(v: Val, x: Name) returns (v': Val, x': Name)
      requires Valid()
      modifies this
      ensures Valid() && v' == RenamedVal(callId, statics, v) && x' == Renamed(callId, statics, x)
      ensures renames.Keys == old(renames).Keys + (ValVars(v) + {x} - statics)
    {
      hide Valid, RenamedVal, Renamed;
      v' := RenameVal(v);
      x' := RenameVar(x);
    }

    /** `rename_inline_instr`, on the instructions a candidate can have. */
    method RenameInstr(i: Instr) returns (r: Instr)
      requires Valid() && IsInlineSafe(i)
      modifies this
      ensures Valid() && r == RenamedInstr(callId, statics, i)
      ensures renames.Keys == old(renames).Keys + (InstrVars(i) - statics)
    {
      hide Valid, Renamed, RenamedVal, InlineName;
      hide KnownName, InstrKnown, ValVars;
      match i
      case Copy(v, x) =>
        var v', x' := RenameUse(v, x);
        r := Copy(v', x');
      case Unary(op, v, x) =>
        var v', x' := RenameUse(v, x);
        r := Unary(op, v', x');
      case Convert(kind, v, x) =>
        var v', x' := RenameUse(v, x);
        r := Convert(kind, v', x');
      case Binary(op, v, w, x) =>
        var v' := RenameVal(v);
        var w', x' := RenameUse(w, x);
        r := Binary(op, v', w', x');
      case AddPtr(v, w, scale, x) =>
        var v' := RenameVal(v);
        var w', x' := RenameUse(w, x);
        r := AddPtr(v', w', scale, x');
    }

    /** The copies of arguments to renamed parameters. */
    method RenameParams(params: seq<Name>, args: seq<Val>) returns (copies: seq<Instr>)
      requires Valid() && |params| == |args|
      modifies this
      ensures Valid() && copies == ParamCopies(params, args, callId, statics)
      ensures renames.Keys == old(renames).Keys + (ParamNames(params) - statics)
    {
      hide Valid, Renamed;
      copies := [];
      for k := 0 to |args|
        invariant Valid() && copies == ParamCopies(params, args, callId, statics)[..k]
        invariant renames.Keys == old(renames).Keys + (ParamNames(params[..k]) - statics)
      {
        assert params[..k + 1] == params[..k] + [params[k]];
        var param := RenameVar(params[k]);
        copies := copies + [Copy(args[k], param)];
      }
      assert params[..|args|] == params;
    }

    method RenameInstrs(body: seq<Instr>) returns (renamed: seq<Instr>)
      requires Valid() && forall k :: 0 <= k < |body| ==> IsInlineSafe(body[k])
      modifies this
      ensures Valid() && renamed == RenamedBody(body, callId, statics)
      ensures renames.Keys == old(renames).Keys + (BodyVars(body) - statics)
    {
      hide Valid, RenamedInstr, InstrVars, BodyVars;
      renamed := [];
      NoBodyVars();
      for k := 0 to |body|
        invariant Valid() && renamed == RenamedBody(body, callId, statics)[..k]
        invariant renames.Keys == old(renames).Keys + (BodyVars(body[..k]) - statics)
      {
        BodyVarsSnoc(body, k);
        var instr := RenameInstr(body[k]);
        renamed := renamed + [instr];
      }
      assert body[..|body|] == body;
    }
  }

  /** The three parts of `inline_call_instr`: parameters, body, result. */
  method ExpandCall(cand: InlineCandidate, args: seq<Val>, dst: Name, id: nat, statics: set<Name>, types: Types)
    returns (rewritten: seq<Instr>, metadata: seq<(Name, Name)>)
    requires |cand.params| == |args| && forall k :: 0 <= k < |cand.body| ==> IsInlineSafe(cand.body[k])
    ensures rewritten == Expansion(cand, args, dst, id, statics)
    ensures Notes(metadata, cand, id, statics, types)
  {
    var expansion := new InlineExpansion(id, statics, types);
    rewritten := expansion.RenameParams(cand.params, args);
    var body := expansion.RenameInstrs(cand.body);
    var value := expansion.RenameVal(cand.returnValue);
    rewritten := rewritten + body + [Copy(value, dst)];
    metadata := expansion.metadata;
    assert expansion.renames.Keys == Mentioned(cand) - statics;
  }

  lemma NoBodyVars()
    ensures BodyVars([]) == {}
  {
  }

  lemma BodyVarsSnoc(body: seq<Instr>, k: nat)
    requires k < |body|
    ensures BodyVars(body[..k + 1]) == BodyVars(body[..k]) + InstrVars(body[k])
  {
    assert body[..k + 1] == body[..k] + [body[k]];
    hide InstrVars;
  }

  /** A call whose candidate replaces it; calls with stack, variadic or hidden arguments are not
      part of the instruction set here. */
  predicate Replaces(instr: Instr, caller: Name, candidates: map<Name, InlineCandidate>, types: Types) {
    && instr.FunCall? && instr.callee != caller && !instr.indirect && instr.callee in candidates
    && |candidates[instr.callee].params| == |instr.args|
    && !(instr.dst in types && (types[instr.dst].Void? || types[instr.dst].Struct? || types[instr.dst].LongDouble?))
  }

  /** `inline_call_instr`, with the renames it adds for the symbol tables. */
  method InlineCallInstr(instr: Instr, caller: Name, candidates: map<Name, InlineCandidate>, statics: set<Name>,
                         types: Types, metadata: seq<(Name, Name)>, nextCallId: nat)
    returns (r: Option<seq<Instr>>, metadata': seq<(Name, Name)>, nextCallId': nat)
    requires forall f :: f in candidates ==> forall k ::
      0 <= k < |candidates[f].body| ==> IsInlineSafe(candidates[f].body[k])
    ensures r.Some? <==> Replaces(instr, caller, candidates, types)
    ensures r.Some? <==>
      && instr.FunCall? && !instr.indirect && instr.callee != caller && instr.callee in candidates
      && |instr.args| == |candidates[instr.callee].params|
      && (instr.dst in types ==> types[instr.dst] !in {Void, Struct, LongDouble})
    ensures r.Some? ==> r.value == Expansion(candidates[instr.callee], instr.args, instr.dst, nextCallId, statics)
    ensures nextCallId' == if r.Some? then nextCallId + 1 else nextCallId
    ensures metadata <= metadata' && (r.None? ==> metadata' == metadata)
    ensures r.Some? ==> Notes(metadata'[|metadata|..], candidates[instr.callee], nextCallId, statics, types)
  {
    if !Replaces(instr, caller, candidates, types) {
      return None, metadata, nextCallId;
    }
    var rewritten, more := ExpandCall(candidates[instr.callee], instr.args, instr.dst, nextCallId, statics, types);
    assert (metadata + more)[|metadata|..] == more;
    return Some(rewritten), metadata + more, nextCallId + 1;
  }

  // ----- the call in a frame of its own -----

  function ExecAll(c: Ctx, instrs: seq<Instr>, d: Data): Data
    decreases |instrs|
  {
    if instrs == [] then d else ExecAll(c, instrs[1..], Exec(c, instrs[0], d))
  }

  lemma {:induction false} ExecAppend(c: Ctx, p: seq<Instr>, q: seq<Instr>, d: Data)
    ensures ExecAll(c, p + q, d) == ExecAll(c, q, ExecAll(c, p, d))
    decreases |p|
  {
    if p == [] {
      assert p + q == q;
    } else {
      assert (p + q)[1..] == p[1..] + q;
      ExecAppend(c, p[1..], q, Exec(c, p[0], d));
    }
  }

  function PassedValue(c: Ctx, param: Name, arg: Val, d: Data): Value {
    c.machine.copy(ValClass(c.types, arg), TypeOf(c.types, param), EvalVal(arg, d.env))
  }

  /** The callee's frame: the statics it shares with the caller, and its parameters. */
  function Frame(c: Ctx, params: seq<Name>, args: seq<Val>, statics: set<Name>, d: Data): Data
    requires |params| == |args|
    decreases |params|
  {
    if params == [] then d.(env := map x | x in statics && x in d.env :: d.env[x])
    else
      var n := |params| - 1;
      var f := Frame(c, params[..n], args[..n], statics, d);
      f.(env := f.env[params[n] := PassedValue(c, params[n], args[n], d)])
  }

  /** The callee's state when it returns, and the value it returns. */
  function CalleeState(c: Ctx, cand: InlineCandidate, args: seq<Val>, statics: set<Name>, d: Data): Data
    requires |cand.params| == |args|
  {
    ExecAll(c, cand.body, Frame(c, cand.params, args, statics, d))
  }

  // ----- what the caller and the callee must look like -----

  /** No name of call `id` is in use outside. */
  predicate Outside(id: nat, y: Name) {
    !(INLINE_PREFIX + Show(id, 10) + "." <= y)
  }

  lemma OutsideNames(id: nat, y: Name, x: Name)
    requires Outside(id, y)
    ensures InlineName(id, x) != y
  {
    var p := INLINE_PREFIX + Show(id, 10) + ".";
    assert InlineName(id, x) == p + x;
  }

  /** Every variable is a static, a parameter, or assigned before it is read. */
  predicate ReadsAssigned(body: seq<Instr>, value: Val, ready: set<Name>, statics: set<Name>)
    decreases |body|
  {
    if body == [] then ValVars(value) <= ready + statics
    else
      SourceVars(body[0]) <= ready + statics
      && ReadsAssigned(body[1..], value,
         ready + (if DefinedVar(body[0]).Some? then {DefinedVar(body[0]).value} else {}), statics)
  }

  /** The variables that the symbol tables must know under their new names. */
  ghost predicate TypesCopied(types: Types, id: nat, statics: set<Name>, names: set<Name>) {
    forall x :: x in names && x !in statics ==> TypeOf(types, InlineName(id, x)) == TypeOf(types, x)
  }

  ghost predicate BodyFits(body: seq<Instr>, types: Types, id: nat, statics: set<Name>) {
    forall k :: 0 <= k < |body| ==>
      && IsInlineSafe(body[k]) && DefinedVar(body[k]).value !in statics
      && TypesCopied(types, id, statics, SourceVars(body[k]) + {DefinedVar(body[k]).value})
  }

  // ----- frame and caller side by side -----

  /** Assigned variables have the frame's values under their new names, statics under their own,
      and nothing else of the caller has changed. */
  ghost predicate SideBySide(id: nat, statics: set<Name>, ready: set<Name>, frame: Data, was: Data, d: Data) {
    && frame.mem == d.mem == was.mem && frame.trace == d.trace == was.trace
    && (forall x :: x in ready + statics ==> Read(d.env, Renamed(id, statics, x)) == Read(frame.env, x))
    && (forall y :: Outside(id, y) ==> Read(d.env, y) == Read(was.env, y))
    && (forall x :: x in statics ==> Read(frame.env, x) == Read(was.env, x))
  }

  lemma RenamedValue(id: nat, statics: set<Name>, ready: set<Name>, frame: Data, was: Data, d: Data, v: Val)
    requires SideBySide(id, statics, ready, frame, was, d) && ValVars(v) <= ready + statics
    ensures EvalVal(RenamedVal(id, statics, v), d.env) == EvalVal(v, frame.env)
  {
    if v.Var? {
      assert v.name in ValVars(v);
    }
  }

  lemma RenamedClass(types: Types, id: nat, statics: set<Name>, v: Val)
    requires TypesCopied(types, id, statics, ValVars(v))
    ensures ValClass(types, RenamedVal(id, statics, v)) == ValClass(types, v)
  {
    if v.Var? {
      assert v.name in ValVars(v);
    }
  }

  /** A renamed instruction computes in the caller what the instruction computes in the frame. */
  lemma RenamedResult(c: Ctx, id: nat, statics: set<Name>, ready: set<Name>, frame: Data, was: Data, d: Data, i: Instr)
    requires SideBySide(id, statics, ready, frame, was, d) && IsInlineSafe(i) && SourceVars(i) <= ready + statics
    requires DefinedVar(i).value !in statics && TypesCopied(c.types, id, statics, SourceVars(i) + {DefinedVar(i).value})
    ensures var j := RenamedInstr(id, statics, i);
      Computes(j) && DefinedVar(j) == Some(InlineName(id, DefinedVar(i).value))
        && Result(c, j, d) == Result(c, i, frame)
  {
    hide SideBySide, InlineName;
    if i.Binary? {
      RenamedValue(id, statics, ready, frame, was, d, i.left);
      RenamedValue(id, statics, ready, frame, was, d, i.right);
      RenamedClass(c.types, id, statics, i.left);
      RenamedClass(c.types, id, statics, i.right);
    } else if i.AddPtr? {
      RenamedValue(id, statics, ready, frame, was, d, i.ptr);
      RenamedValue(id, statics, ready, frame, was, d, i.index);
    } else {
      RenamedValue(id, statics, ready, frame, was, d, i.src);
      RenamedClass(c.types, id, statics, i.src);
    }
  }

  /** Assigning the same value to `x` in the frame and to its new name in the caller. */
  lemma AssignBoth(id: nat, statics: set<Name>, ready: set<Name>, frame: Data, was: Data, d: Data, x: Name, v: Value)
    requires SideBySide(id, statics, ready, frame, was, d) && x !in statics
    requires forall s :: s in statics ==> Outside(id, s)
    ensures SideBySide(id, statics, ready + {x}, frame.(env := frame.env[x := v]), was,
      d.(env := d.env[InlineName(id, x) := v]))
  {
    var frame', d' := frame.(env := frame.env[x := v]), d.(env := d.env[InlineName(id, x) := v]);
    forall y | y in ready + {x} + statics
      ensures Read(d'.env, Renamed(id, statics, y)) == Read(frame'.env, y)
    {
      if y in statics {
        OutsideNames(id, y, x);
      } else {
        InlineNamesDistinct(id, x, id, y);
      }
      hide InlineName, Outside;
    }
    forall y | Outside(id, y)
      ensures Read(d'.env, y) == Read(was.env, y)
    {
      OutsideNames(id, y, x);
    }
  }

  lemma BodyStep(c: Ctx, id: nat, statics: set<Name>, ready: set<Name>, frame: Data, was: Data, d: Data, i: Instr)
    requires SideBySide(id, statics, ready, frame, was, d) && forall s :: s in statics ==> Outside(id, s)
    requires IsInlineSafe(i) && DefinedVar(i).Some? && SourceVars(i) <= ready + statics
    requires DefinedVar(i).value !in statics && TypesCopied(c.types, id, statics, SourceVars(i) + {DefinedVar(i).value})
    ensures SideBySide(id, statics, ready + {DefinedVar(i).value}, Exec(c, i, frame), was,
      Exec(c, RenamedInstr(id, statics, i), d))
  {
    hide SideBySide, Exec, Result, RenamedInstr, InlineName, Outside, TypesCopied, SourceVars;
    RenamedResult(c, id, statics, ready, frame, was, d, i);
    AssignBoth(id, statics, ready, frame, was, d, DefinedVar(i).value, Result(c, i, frame));
    StepSideBySide(c, id, statics, frame, d, i);
  }

  lemma {:induction false} BodySideBySide(c: Ctx, id: nat, statics: set<Name>, ready: set<Name>, frame: Data,
        was: Data, d: Data,
                                          body: seq<Instr>, value: Val)
    requires SideBySide(id, statics, ready, frame, was, d) && forall s :: s in statics ==> Outside(id, s)
    requires ReadsAssigned(body, value, ready, statics) && BodyFits(body, c.types, id, statics)
    ensures exists last ::
      ValVars(value) <= last + statics
      && SideBySide(id, statics, last, ExecAll(c, body, frame), was, ExecAll(c, RenamedBody(body, id, statics), d))
    decreases |body|
  {
    hide SideBySide, Exec, Result, RenamedInstr, InlineName, Outside, TypesCopied, RenamedBody, BodyFits, SourceVars,
      IsInlineSafe, DefinedVar;
    BodyUnfolds(body, c.types, id, statics);
    if body == [] {
      assert ExecAll(c, RenamedBody(body, id, statics), d) == d;
    } else {
      var i := body[0];
      BodyStep(c, id, statics, ready, frame, was, d, i);
      BodySideBySide(c, id, statics, ready + {DefinedVar(i).value}, Exec(c, i, frame), was,
                     Exec(c, RenamedInstr(id, statics, i), d), body[1..], value);
    }
  }

  lemma BodyUnfolds(body: seq<Instr>, types: Types, id: nat, statics: set<Name>)
    requires BodyFits(body, types, id, statics)
    ensures body == [] ==> RenamedBody(body, id, statics) == []
    ensures body != [] ==>
      var i, renamed := body[0], RenamedBody(body, id, statics);
      && renamed != [] && renamed[0] == RenamedInstr(id, statics, i)
      && renamed[1..] == RenamedBody(body[1..], id, statics)
      && BodyFits(body[1..], types, id, statics)
      && IsInlineSafe(i) && DefinedVar(i).Some? && DefinedVar(i).value !in statics
      && TypesCopied(types, id, statics, SourceVars(i) + {DefinedVar(i).value})
  {
    hide TypesCopied, SourceVars, RenamedInstr;
    var renamed := RenamedBody(body, id, statics);
    if body != [] {
      assert renamed[1..] == RenamedBody(body[1..], id, statics);
    }
  }

  lemma StepSideBySide(c: Ctx, id: nat, statics: set<Name>, frame: Data, d: Data, i: Instr)
    requires IsInlineSafe(i) && Computes(RenamedInstr(id, statics, i))
    requires DefinedVar(RenamedInstr(id, statics, i)) == Some(InlineName(id, DefinedVar(i).value))
    requires Result(c, RenamedInstr(id, statics, i), d) == Result(c, i, frame)
    ensures Exec(c, i, frame) == frame.(env := frame.env[DefinedVar(i).value := Result(c, i, frame)])
    ensures Exec(c, RenamedInstr(id, statics, i), d)
         == d.(env := d.env[InlineName(id, DefinedVar(i).value) := Result(c, i, frame)])
  {
  }

  // ----- parameters, body, result -----

  ghost predicate ArgsFit(params: seq<Name>, args: seq<Val>, types: Types, id: nat, statics: set<Name>) {
    && |params| == |args|
    && (forall k :: 0 <= k < |params| ==> params[k] !in statics && TypesCopied(types, id, statics, {params[k]}))
    && (forall k, y :: 0 <= k < |args| && y in ValVars(args[k]) ==> Outside(id, y))
  }

  lemma NamesSnoc(params: seq<Name>, n: nat)
    requires |params| == n + 1
    ensures ParamNames(params) == ParamNames(params[..n]) + {params[n]}
  {
    assert params == params[..n] + [params[n]];
  }

  /** The start of the frame: statics have the caller's values. */
  lemma FrameStarts(id: nat, statics: set<Name>, d: Data)
    ensures SideBySide(id, statics, {}, d.(env := map x | x in statics && x in d.env :: d.env[x]), d, d)
  {
  }

  lemma PassOne(c: Ctx, id: nat, statics: set<Name>, ready: set<Name>, frame: Data, was: Data, d: Data, param: Name,
        arg: Val)
    requires SideBySide(id, statics, ready, frame, was, d) && forall s :: s in statics ==> Outside(id, s)
    requires param !in statics && TypesCopied(c.types, id, statics, {param}) && forall y ::
      y in ValVars(arg) ==> Outside(id, y)
    ensures SideBySide(id, statics, ready + {param},
      frame.(env := frame.env[param := PassedValue(c, param, arg, was)]), was,
                       Exec(c, Copy(arg, Renamed(id, statics, param)), d))
  {
    assert EvalVal(arg, d.env) == EvalVal(arg, was.env) by {
      if arg.Var? {
        assert arg.name in ValVars(arg);
      }
    }
    assert TypeOf(c.types, InlineName(id, param)) == TypeOf(c.types, param);
    AssignBoth(id, statics, ready, frame, was, d, param, PassedValue(c, param, arg, was));
    hide SideBySide, InlineName, Outside;
  }

  lemma {:induction false} ParamsSideBySide(c: Ctx, params: seq<Name>, args: seq<Val>, id: nat, statics: set<Name>,
        d: Data)
    requires ArgsFit(params, args, c.types, id, statics) && forall s :: s in statics ==> Outside(id, s)
    ensures SideBySide(id, statics, ParamNames(params), Frame(c, params, args, statics, d), d,
                       ExecAll(c, ParamCopies(params, args, id, statics), d))
    decreases |params|
  {
    hide SideBySide, InlineName, Outside, Exec, Renamed, Names, ParamCopies, ArgsFit, TypesCopied, PassedValue;
    ParamsUnfold(params, args, c.types, id, statics);
    if params == [] {
      FrameStarts(id, statics, d);
      assert ExecAll(c, ParamCopies(params, args, id, statics), d) == d;
    } else {
      var n := |params| - 1;
      var last, front := Copy(args[n], Renamed(id, statics, params[n])),
        ParamCopies(params[..n], args[..n], id, statics);
      ParamsSideBySide(c, params[..n], args[..n], id, statics, d);
      ExecAppend(c, front, [last], d);
      var frame, mid := Frame(c, params[..n], args[..n], statics, d), ExecAll(c, front, d);
      PassOne(c, id, statics, ParamNames(params[..n]), frame, d, mid, params[n], args[n]);
      ExecOne(c, last, mid);
    }
  }

  lemma ParamsUnfold(params: seq<Name>, args: seq<Val>, types: Types, id: nat, statics: set<Name>)
    requires ArgsFit(params, args, types, id, statics)
    ensures |params| == |args|
    ensures params == [] ==> ParamCopies(params, args, id, statics) == [] && ParamNames(params) == {}
    ensures params != [] ==>
      var n := |params| - 1;
      && ParamCopies(params, args, id, statics)
         == ParamCopies(params[..n], args[..n], id, statics) + [Copy(args[n], Renamed(id, statics, params[n]))]
      && ParamNames(params) == ParamNames(params[..n]) + {params[n]}
      && ArgsFit(params[..n], args[..n], types, id, statics)
      && params[n] !in statics && TypesCopied(types, id, statics, {params[n]})
      && forall y :: y in ValVars(args[n]) ==> Outside(id, y)
  {
    hide TypesCopied, Outside, Renamed;
    if params != [] {
      NamesSnoc(params, |params| - 1);
    }
  }

  lemma ExecOne(c: Ctx, i: Instr, d: Data)
    ensures ExecAll(c, [i], d) == Exec(c, i, d)
  {
    assert [i][1..] == [];
  }

  /** A call that is inlined under fresh names. */
  ghost predicate CallFits(c: Ctx, cand: InlineCandidate, args: seq<Val>, dst: Name, id: nat, statics: set<Name>) {
    && ArgsFit(cand.params, args, c.types, id, statics) && BodyFits(cand.body, c.types, id, statics)
    && TypesCopied(c.types, id, statics, ValVars(cand.returnValue))
    && ReadsAssigned(cand.body, cand.returnValue, ParamNames(cand.params), statics)
    && Outside(id, dst) && forall s :: s in statics ==> Outside(id, s)
  }

  lemma CalleeSideBySide(c: Ctx, cand: InlineCandidate, args: seq<Val>, dst: Name, id: nat, statics: set<Name>, d: Data)
    requires CallFits(c, cand, args, dst, id, statics)
    ensures exists ready ::
      ValVars(cand.returnValue) <= ready + statics
      && SideBySide(id, statics, ready, CalleeState(c, cand, args, statics, d), d,
           ExecAll(c, ParamCopies(cand.params, args, id, statics) + RenamedBody(cand.body, id, statics), d))
  {
    assert |cand.params| == |args|;
    hide SideBySide, InlineName, Outside, Exec, BodyFits, ArgsFit, ReadsAssigned, TypesCopied, RenamedBody, ParamCopies;
    var copies := ParamCopies(cand.params, args, id, statics);
    ParamsSideBySide(c, cand.params, args, id, statics, d);
    BodySideBySide(c, id, statics, ParamNames(cand.params), Frame(c, cand.params, args, statics, d), d,
      ExecAll(c, copies, d),
                   cand.body, cand.returnValue);
    ExecAppend(c, copies, RenamedBody(cand.body, id, statics), d);
  }

  lemma ReturnCopied(c: Ctx, id: nat, statics: set<Name>, ready: set<Name>, frame: Data, was: Data, d: Data,
        value: Val, dst: Name)
    requires SideBySide(id, statics, ready, frame, was, d) && ValVars(value) <= ready + statics
    requires TypesCopied(c.types, id, statics, ValVars(value))
    ensures var e := Exec(c, Copy(RenamedVal(id, statics, value), dst), d);
      && Read(e.env, dst) == c.machine.copy(ValClass(c.types, value), TypeOf(c.types, dst), EvalVal(value, frame.env))
      && (forall y :: y != dst && Outside(id, y) ==> Read(e.env, y) == Read(was.env, y))
      && e.mem == was.mem && e.trace == was.trace
  {
    RenamedValue(id, statics, ready, frame, was, d, value);
    RenamedClass(c.types, id, statics, value);
    hide InlineName, Outside, RenamedVal;
  }

  /** An inlined call puts into the destination what the callee returns from a frame of its own,
      and leaves memory, calls, statics and every other variable of the caller alone. */
  lemma InliningKeeps(c: Ctx, cand: InlineCandidate, args: seq<Val>, dst: Name, id: nat, statics: set<Name>, d: Data)
    requires CallFits(c, cand, args, dst, id, statics)
    ensures |cand.params| == |args|
    ensures var e, frame := ExecAll(c, Expansion(cand, args, dst, id, statics), d),
      CalleeState(c, cand, args, statics, d);
      && Read(e.env, dst) == c.machine.copy(ValClass(c.types, cand.returnValue), TypeOf(c.types, dst),
         EvalVal(cand.returnValue, frame.env))
      && (forall y :: y != dst && Outside(id, y) ==> Read(e.env, y) == Read(d.env, y))
      && e.mem == d.mem == frame.mem && e.trace == d.trace == frame.trace
      && (forall s :: s in statics ==> Read(frame.env, s) == Read(d.env, s))
  {
    CalleeSideBySide(c, cand, args, dst, id, statics, d);
    var front := ParamCopies(cand.params, args, id, statics) + RenamedBody(cand.body, id, statics);
    var last := Copy(RenamedVal(id, statics, cand.returnValue), dst);
    var frame, mid := CalleeState(c, cand, args, statics, d), ExecAll(c, front, d);
    ExecAppend(c, front, [last], d);
    ExecOne(c, last, mid);
    hide Outside, InlineName, ParamCopies, RenamedBody, Exec, CalleeState, BodyFits, ArgsFit, ReadsAssigned,
      TypesCopied, RenamedVal;
    var ready :| ValVars(cand.returnValue) <= ready + statics && SideBySide(id, statics, ready, frame, d, mid);
    ReturnCopied(c, id, statics, ready, frame, d, mid, cand.returnValue, dst);
  }

  // ----- from the choice and the renames to the conditions above -----

  /** The symbol table after `inline_functions` has entered the renames. */
  function WithRenames(types: Types, metadata: seq<(Name, Name)>): Types
    decreases |metadata|
  {
    if metadata == [] then types
    else
      var n := |metadata| - 1;
      var before := WithRenames(types, metadata[..n]);
      if metadata[n].0 in types then before[metadata[n].1 := types[metadata[n].0]] else before
  }

  /** No name of the program looks like one made for inlining. */
  predicate Ordinary(y: Name) {
    !(INLINE_PREFIX <= y)
  }

  lemma OrdinaryOutside(y: Name, id: nat)
    requires Ordinary(y)
    ensures Outside(id, y)
  {
    assert INLINE_PREFIX + Show(id, 10) + "." == INLINE_PREFIX + (Show(id, 10) + ".");
    LongerPrefix(INLINE_PREFIX, Show(id, 10) + ".", y);
  }

  lemma LongerPrefix(a: string, b: string, y: string)
    ensures a + b <= y ==> a <= y
  {
    if a + b <= y {
      assert (a + b)[..|a|] == a && y[..|a + b|] == a + b;
      assert y[..|a|] == y[..|a + b|][..|a|];
    }
  }

  /** Renames made by calls: of ordinary names, under the name the call gives them. */
  ghost predicate MadeByCalls(metadata: seq<(Name, Name)>) {
    forall k :: 0 <= k < |metadata| ==> Ordinary(metadata[k].0) && MadeByCall(metadata[k])
  }

  ghost predicate MadeByCall(entry: (Name, Name)) {
    exists id: nat :: entry.1 == InlineName(id, entry.0)
  }

  /** Entering renames leaves ordinary names alone and types each new name like the old one. */
  lemma {:induction false} RenamesTyped(types: Types, metadata: seq<(Name, Name)>, x: Name, id: nat)
    requires MadeByCalls(metadata) && Ordinary(x)
    ensures TypeOf(WithRenames(types, metadata), x) == TypeOf(types, x)
    ensures (x, InlineName(id, x)) in metadata && x in types ==>
      InlineName(id, x) in WithRenames(types, metadata) && WithRenames(types, metadata)[InlineName(id, x)] == types[x]
    decreases |metadata|
  {
    if metadata != [] {
      var n := |metadata| - 1;
      RenamesTyped(types, metadata[..n], x, id);
      assert metadata == metadata[..n] + [metadata[n]];
      assert MadeByCall(metadata[n]);
      var j: nat :| metadata[n].1 == InlineName(j, metadata[n].0);
      InlineNamesDistinct(id, x, j, metadata[n].0);
      OrdinaryOutside(x, j);
      OutsideNames(j, x, metadata[n].0);
      hide InlineName, Ordinary, Outside;
    }
  }

  /** The renames one call notes, among all that are entered, copy the types of its variables. */
  lemma NotesCopyTypes(types: Types, all: seq<(Name, Name)>, metadata: seq<(Name, Name)>, cand: InlineCandidate,
        id: nat,
                       statics: set<Name>, names: set<Name>)
    requires MadeByCalls(all) && Notes(metadata, cand, id, statics, types) && forall entry ::
      entry in metadata ==> entry in all
    requires names <= Mentioned(cand) && forall x :: x in names && x !in statics ==> x in types && Ordinary(x)
    ensures TypesCopied(WithRenames(types, all), id, statics, names)
  {
    hide InlineName, Ordinary, MadeByCalls, WithRenames, Mentioned;
    forall x | x in names && x !in statics
      ensures TypeOf(WithRenames(types, all), InlineName(id, x)) == TypeOf(WithRenames(types, all), x)
    {
      assert (x, InlineName(id, x)) in metadata;
      RenamesTyped(types, all, x, id);
    }
  }

  lemma {:induction false} StraightSafe(instrs: seq<Instr>, body: seq<Instr>, value: Val)
    requires StraightLine(instrs, body, value)
    ensures forall k :: 0 <= k < |body| ==> IsInlineSafe(body[k])
  {
    if instrs[0].Nop? {
      StraightSafe(instrs[1..], body, value);
    } else if !instrs[0].Return? {
      StraightSafe(instrs[1..], body[1..], value);
      assert body == [body[0]] + body[1..];
    }
  }

  /** What `InliningKeeps` asks of a body holds of every candidate, once its renames are entered. */
  lemma CandidateFits(f: Function, cand: InlineCandidate, types: Types, all: seq<(Name, Name)>,
        metadata: seq<(Name, Name)>,
                      id: nat, statics: set<Name>)
    requires IsCandidateOf(f, cand, types, statics)
    requires MadeByCalls(all) && Notes(metadata, cand, id, statics, types) && forall entry ::
      entry in metadata ==> entry in all
    requires forall x :: x in Mentioned(cand) ==> Ordinary(x)
    ensures BodyFits(cand.body, WithRenames(types, all), id, statics)
    ensures TypesCopied(WithRenames(types, all), id, statics, Mentioned(cand))
  {
    StraightSafe(f.body, cand.body, cand.returnValue);
    MentionedKnown(cand, types, statics);
    NotesCopyTypes(types, all, metadata, cand, id, statics, Mentioned(cand));
    assert NamesKnown(cand, types, statics);
    hide StraightLine, WithRenames, MadeByCalls, Notes, TypesCopied, Ordinary, Mentioned, SourceVars, IsCandidateOf,
      NamesKnown;
    forall k | 0 <= k < |cand.body|
      ensures IsInlineSafe(cand.body[k]) && DefinedVar(cand.body[k]).value !in statics
      ensures TypesCopied(WithRenames(types, all), id, statics,
        SourceVars(cand.body[k]) + {DefinedVar(cand.body[k]).value})
    {
      InstrMentioned(cand, types, statics, k);
      FewerTypes(WithRenames(types, all), id, statics, SourceVars(cand.body[k]) + {DefinedVar(cand.body[k]).value},
        Mentioned(cand));
    }
  }

  lemma InstrMentioned(cand: InlineCandidate, types: Types, statics: set<Name>, k: nat)
    requires k < |cand.body| && IsInlineSafe(cand.body[k]) && NamesKnown(cand, types, statics)
    ensures DefinedVar(cand.body[k]).Some? && DefinedVar(cand.body[k]).value !in statics
    ensures SourceVars(cand.body[k]) + {DefinedVar(cand.body[k]).value} <= Mentioned(cand)
  {
    hide SourceVars;
    assert InstrKnown(cand.body[k], types, statics);
    assert InstrVars(cand.body[k]) <= BodyVars(cand.body);
  }

  lemma FewerTypes(types: Types, id: nat, statics: set<Name>, names: set<Name>, more: set<Name>)
    requires TypesCopied(types, id, statics, more) && names <= more
    ensures TypesCopied(types, id, statics, names)
  {
  }

  lemma MentionedKnown(cand: InlineCandidate, types: Types, statics: set<Name>)
    requires NamesKnown(cand, types, statics)
    ensures forall x :: x in Mentioned(cand) && x !in statics ==> x in types
  {
    hide SourceVars;
    forall x | x in BodyVars(cand.body) && x !in statics
      ensures x in types
    {
      var k :| 0 <= k < |cand.body| && x in InstrVars(cand.body[k]);
      assert InstrKnown(cand.body[k], types, statics);
    }
  }

  /** A chosen candidate, called with as many arguments as it has parameters, in a program of ordinary
      names: what is left to ask is that parameters are no statics and locals are assigned before use. */
  lemma InlinedCallFits(c: Ctx, f: Function, cand: InlineCandidate, types: Types, all: seq<(Name, Name)>,
                        metadata: seq<(Name, Name)>, args: seq<Val>, dst: Name, id: nat, statics: set<Name>)
    requires IsCandidateOf(f, cand, types, statics) && c.types == WithRenames(types, all)
    requires MadeByCalls(all) && Notes(metadata, cand, id, statics, types) && forall entry ::
      entry in metadata ==> entry in all
    requires forall x :: x in Mentioned(cand) ==> Ordinary(x)
    requires Ordinary(dst) && (forall s :: s in statics ==> Ordinary(s))
    requires |cand.params| == |args| && forall k, y :: 0 <= k < |args| && y in ValVars(args[k]) ==> Ordinary(y)
    requires ParamNames(cand.params) !! statics
    requires ReadsAssigned(cand.body, cand.returnValue, ParamNames(cand.params), statics)
    ensures CallFits(c, cand, args, dst, id, statics)
  {
    CandidateFits(f, cand, types, all, metadata, id, statics);
    FewerTypes(c.types, id, statics, ValVars(cand.returnValue), Mentioned(cand));
    hide WithRenames, MadeByCalls, Notes, IsCandidateOf, BodyFits, ReadsAssigned, TypesCopied, Outside, Ordinary;
    forall k | 0 <= k < |cand.params|
      ensures cand.params[k] !in statics && TypesCopied(c.types, id, statics, {cand.params[k]})
    {
      assert cand.params[k] in ParamNames(cand.params);
      FewerTypes(c.types, id, statics, {cand.params[k]}, Mentioned(cand));
    }
    forall y | Ordinary(y)
      ensures Outside(id, y)
    {
      OrdinaryOutside(y, id);
    }
  }

  // ----- a local that is read before it is assigned -----

  /** A function that returns what `t` was and then sets it to 1. */
  function Recalling(): InlineCandidate {
    InlineCandidate([], [Copy(Var("t"), "s"), Copy(Constant(1), "t")], Var("s"))
  }

  lemma RecallingExpands(id: nat)
    ensures Expansion(Recalling(), [], "r", id, {})
         == [Copy(Var(InlineName(id, "t")), InlineName(id, "s")), Copy(Constant(1), InlineName(id, "t")),
           Copy(Var(InlineName(id, "s")), "r")]
  {
    hide InlineName;
    assert ParamCopies([], [], id, {}) == [];
    assert RenamedBody(Recalling().body, id, {})
        == [Copy(Var(InlineName(id, "t")), InlineName(id, "s")), Copy(Constant(1), InlineName(id, "t"))];
  }

  lemma ExecThree(c: Ctx, i: Instr, j: Instr, k: Instr, d: Data)
    ensures ExecAll(c, [i, j, k], d) == Exec(c, k, Exec(c, j, Exec(c, i, d)))
  {
    assert [i, j, k][1..] == [j, k] && [j, k][1..] == [k];
    hide Exec;
    ExecOne(c, k, Exec(c, j, Exec(c, i, d)));
  }

  /** One round of the expansion: the result is what `t` was, and `t` is 1 afterwards. */
  lemma RecallingRound(id: nat, d: Data)
    ensures var e := ExecAll(SimpleCtx(), Expansion(Recalling(), [], "r", id, {}), d);
      Read(e.env, "r") == Read(d.env, InlineName(id, "t")) && Read(e.env, InlineName(id, "t")) == Num(1)
  {
    var c, s, t := SimpleCtx(), InlineName(id, "s"), InlineName(id, "t");
    RecallingExpands(id);
    InlineNamesDistinct(id, "s", id, "t");
    OutsideNames(id, "r", "t");
    hide InlineName;
    ExecThree(c, Copy(Var(t), s), Copy(Constant(1), t), Copy(Var(s), "r"), d);
  }

  /** Called once more, in a loop say, a local that is read before it is assigned finds under its new name
      what the round before left there, where a frame of its own would start afresh. */
  lemma UnassignedReadFails(id: nat)
    ensures var cand, c, d := Recalling(), SimpleCtx(), Data(map[], map[], []);
      var code := Expansion(cand, [], "r", id, {});
      && !ReadsAssigned(cand.body, cand.returnValue, ParamNames(cand.params), {})
      && Read(ExecAll(c, code, ExecAll(c, code, d)).env, "r") == Num(1)
      && EvalVal(cand.returnValue, CalleeState(c, cand, [], {}, ExecAll(c, code, d)).env) == Num(0)
  {
    var cand, c, d := Recalling(), SimpleCtx(), Data(map[], map[], []);
    var once := ExecAll(c, Expansion(cand, [], "r", id, {}), d);
    RecallingRound(id, d);
    RecallingRound(id, once);
    hide InlineName, Expansion;
    var frame := Frame(c, [], [], {}, once);
    assert frame.env == map[];
    assert cand.body[1..] == [cand.body[1]];
    ExecOne(c, cand.body[1], Exec(c, cand.body[0], frame));
  }
}
