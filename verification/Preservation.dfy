/** What it means for a pass to preserve a function, composed over passes and over the
    graph and list forms of a body. */
module Preservation {
  import opened Tacky
  import opened Semantics
  import opened Behaviour
  import opened ControlFlow
  import opened CfgRuns
  import opened Effects

  /** The functions a pass may assume it runs in: the aliased set covers the addresses the
      code takes, and machine and callees invent no addresses. */
  ghost predicate Suitable(c: Ctx, code: Code, aliased: set<Name>, statics: set<Name>) {
    Confined(c) && CodeConfined(code, aliased) && c.aliased == aliased && c.statics == statics
  }

  /** Any suitable function behaves the same with code `p` and code `q`. */
  ghost predicate Preserved(p: Code, q: Code, aliased: set<Name>, statics: set<Name>) {
    forall c: Ctx, d: Data :: Suitable(c, p, aliased, statics) && DataSafe(d, aliased) ==> Equivalent(c, p, q, d)
  }

  lemma PreservedTransitive(p: Code, q: Code, r: Code, aliased: set<Name>, statics: set<Name>)
    requires Preserved(p, q, aliased, statics) && Preserved(q, r, aliased, statics)
    requires CodeConfined(p, aliased) ==> CodeConfined(q, aliased)
    ensures Preserved(p, r, aliased, statics)
  {
    forall c: Ctx, d: Data | Suitable(c, p, aliased, statics) && DataSafe(d, aliased)
      ensures Equivalent(c, p, r, d)
    {
      EquivalentTransitive(c, p, q, r, d);
    }
  }

  lemma {:induction false} Shrinks(p: Code, q: Code)
    requires |p| == |q| && forall b :: 0 <= b < |p| ==> |q[b]| <= |p[b]|
    ensures |Flatten(q)| <= |Flatten(p)|
    ensures (exists b :: 0 <= b < |p| && |q[b]| < |p[b]|) ==> |Flatten(q)| < |Flatten(p)|
  {
    if p != [] {
      Shrinks(p[1..], q[1..]);
      if b :| 0 <= b < |p| && |q[b]| < |p[b]| {
        if b > 0 {
          assert |q[1..][b - 1]| < |p[1..][b - 1]|;
        }
      }
    }
  }

  lemma PreservedReflexive(p: Code, aliased: set<Name>, statics: set<Name>)
    ensures Preserved(p, p, aliased, statics)
  {
    forall c: Ctx, d: Data
      ensures Equivalent(c, p, p, d)
    {
      EquivalentReflexive(c, p, d);
    }
  }

  lemma FlatConfined(code: Code, a: set<Name>)
    ensures CodeConfined([Flatten(code)], a) <==> CodeConfined(code, a)
  {
    FlattenMembers(code);
    var flat := Flatten(code);
    if CodeConfined([flat], a) {
      forall b, k | 0 <= b < |code| && 0 <= k < |code[b]| && code[b][k].GetAddress?
        ensures code[b][k].taken in a
      {
        assert code[b][k] in flat;
        var j :| 0 <= j < |flat| && flat[j] == code[b][k];
        assert [flat][0][j].taken in a;
      }
    }
    if CodeConfined(code, a) {
      forall k | 0 <= k < |flat| && flat[k].GetAddress?
        ensures flat[k].taken in a
      {
        assert flat[k] in flat;
        var b :| 0 <= b < |code| && flat[k] in code[b];
        var j :| 0 <= j < |code[b]| && code[b][j] == flat[k];
      }
    }
  }

  lemma {:induction false} FlattenMembers(code: Code)
    ensures forall i :: i in Flatten(code) <==> exists b :: 0 <= b < |code| && i in code[b]
  {
    if code != [] {
      FlattenMembers(code[1..]);
      forall i
        ensures i in Flatten(code) <==> exists b :: 0 <= b < |code| && i in code[b]
      {
        if b :| 0 <= b < |code| && i in code[b] {
          if b > 0 {
            assert i in code[1..][b - 1];
          }
        }
        if i in Flatten(code) && i !in code[0] {
          assert i in Flatten(code[1..]);
          var b :| 0 <= b < |code[1..]| && i in code[1..][b];
          assert i in code[b + 1];
        }
      }
    }
  }

  /** A graph and its flattening, in both directions. */
  lemma FlatPreserved(code: Code, aliased: set<Name>, statics: set<Name>)
    requires Partitioned(code) && UniqueBlockLabels(code)
    ensures Preserved(code, [Flatten(code)], aliased, statics)
    ensures Preserved([Flatten(code)], code, aliased, statics)
    ensures CodeConfined([Flatten(code)], aliased) <==> CodeConfined(code, aliased)
  {
    FlatConfined(code, aliased);
    forall c: Ctx, d: Data
      ensures Equivalent(c, code, [Flatten(code)], d) && Equivalent(c, [Flatten(code)], code, d)
    {
      FlatteningPreserves(c, code, d);
    }
  }
}
