/** Reaching copies: the facts, their transfer function, and the resolution of a variable
    through them. */
module CopyFacts {
  import opened Tacky

  /** `dst` currently holds `src` (a variable or a constant). */
  datatype CopyInstr = CopyInstr(src: Val, dst: Name)

  type Facts = set<CopyInstr>

  predicate Involves(k: CopyInstr, x: Name) {
    k.dst == x || k.src == Var(x)
  }

  /** `kill_copies_involving_var` */
  function KillVar(f: Facts, x: Name): Facts {
    set k | k in f && !Involves(k, x)
  }

  /** `kill_copies_involving_aliased_vars` */
  function KillAliased(f: Facts, aliased: set<Name>): Facts {
    set k | k in f && k.dst !in aliased && !(k.src.Var? && k.src.name in aliased)
  }

  /** `insert_reaching_copy` */
  function InsertCopy(f: Facts, k: CopyInstr): Facts {
    if k in f then f else KillVar(f, k.dst) + {k}
  }

  /** `insert_reaching_copy_unless_reverse` */
  function InsertUnlessReverse(f: Facts, k: CopyInstr, reverse: CopyInstr): Facts {
    if k in f || reverse in f then f else KillVar(f, k.dst) + {k}
  }

  function KillDefined(f: Facts, i: Instr): Facts {
    match DefinedVar(i) case Some(d) => KillVar(f, d) case None => f
  }

  /** `transfer_copy_instr` */
  function TransferCopy(i: Instr, f: Facts, aliased: set<Name>, types: Types): Facts {
    match i
    case Copy(Var(s), d) =>
      if SameType(TypeOf(types, s), TypeOf(types, d))
      then InsertUnlessReverse(f, CopyInstr(Var(s), d), CopyInstr(Var(d), s))
      else KillVar(f, d)
    case Copy(Constant(n), d) => InsertCopy(f, CopyInstr(Constant(n), d))
    case Copy(Int128Constant(n), d) =>
      if d in types && types[d] == Int128 then InsertCopy(f, CopyInstr(Int128Constant(n), d)) else KillVar(f, d)
    case Copy(UInt128Constant(n), d) =>
      if d in types && types[d] == UInt128 then InsertCopy(f, CopyInstr(UInt128Constant(n), d)) else KillVar(f, d)
    case Copy(DoubleConstant(n), d) =>
      if TypeOf(types, d) == Double then InsertCopy(f, CopyInstr(DoubleConstant(n), d)) else KillVar(f, d)
    case FunCall(_, _, d, _) => KillVar(KillAliased(f, aliased), d)
    case Store(_, _) => {}
    case _ => KillDefined(f, i)
  }

  /** `transfer_copies_out` as a fold. */
  function TransferCopies(instrs: seq<Instr>, f: Facts, aliased: set<Name>, types: Types): Facts {
    if instrs == [] then f
    else TransferCopies(instrs[1..], TransferCopy(instrs[0], f, aliased, types), aliased, types)
  }

  // ----- the shape of fact sets -----

  /** At most one source per destination. */
  ghost predicate Functional(f: Facts) {
    forall a, b :: a in f && b in f && a.dst == b.dst ==> a == b
  }

  /** Ranks fall along every copy between distinct variables. */
  ghost predicate Ranked(f: Facts, rank: Name -> nat) {
    forall k :: k in f && k.src.Var? && k.src.name != k.dst ==> rank(k.src.name) < rank(k.dst)
  }

  /** No cycle of copies, except of a variable onto itself. */
  ghost predicate Acyclic(f: Facts) {
    exists rank: Name -> nat :: Ranked(f, rank)
  }

  lemma InsertAcyclic(f: Facts, k: CopyInstr)
    requires Acyclic(f)
    ensures Acyclic(KillVar(f, k.dst) + {k})
  {
    var rank: Name -> nat :| Ranked(f, rank);
    var top := if k.src.Var? then rank(k.src.name) + 1 else 0;
    var next: Name -> nat := x => if x == k.dst then top else rank(x);
    assert Ranked(KillVar(f, k.dst) + {k}, next);
  }

  lemma SubsetShaped(f: Facts, g: Facts)
    requires Functional(g) && Acyclic(g) && f <= g
    ensures Functional(f) && Acyclic(f)
  {
    var rank: Name -> nat :| Ranked(g, rank);
    assert Ranked(f, rank);
  }

  /** Every transfer keeps reaching-copy sets functional and acyclic. */
  lemma TransferShaped(i: Instr, f: Facts, aliased: set<Name>, types: Types)
    requires Functional(f) && Acyclic(f)
    ensures var g := TransferCopy(i, f, aliased, types); Functional(g) && Acyclic(g)
  {
    var g := TransferCopy(i, f, aliased, types);
    if i.Copy? {
      var k := CopyInstr(i.src, i.dst);
      if !(g <= f) {
        assert g == KillVar(f, i.dst) + {k};
        InsertAcyclic(f, k);
      } else {
        SubsetShaped(g, f);
      }
    } else {
      SubsetShaped(g, f);
    }
  }

  lemma {:induction false} TransfersShaped(instrs: seq<Instr>, f: Facts, aliased: set<Name>, types: Types)
    requires Functional(f) && Acyclic(f)
    ensures var g := TransferCopies(instrs, f, aliased, types); Functional(g) && Acyclic(g)
  {
    if instrs != [] {
      TransferShaped(instrs[0], f, aliased, types);
      TransfersShaped(instrs[1..], TransferCopy(instrs[0], f, aliased, types), aliased, types);
    }
  }

  // ----- resolution -----

  /** Which sources a use site accepts. */
  datatype Use = AnySource | TypedSource(ty: CType) | NamedSource

  /** The three `can_use_src` closures. */
  predicate Usable(src: Val, use: Use) {
    match use
    case AnySource => true
    case NamedSource => src.Var?
    case TypedSource(ty) =>
      match src
      case Var(_) => true
      case Constant(_) => false
      case Int128Constant(_) => ty == Int128
      case UInt128Constant(_) => ty == UInt128
      case DoubleConstant(_) => ty == Double
  }

  /** The copy a use of `x` may go through; unique, because facts are functional. */
  function SelectReachingCopy(x: Name, f: Facts, use: Use): (k: Option<CopyInstr>)
    requires Functional(f)
    ensures k.Some? ==> k.value in f && k.value.dst == x && Usable(k.value.src, use)
    ensures k.None? ==> forall j :: j in f && j.dst == x ==> !Usable(j.src, use)
  {
    if exists j :: j in f && j.dst == x && Usable(j.src, use) then
      var j :| j in f && j.dst == x && Usable(j.src, use);
      Some(j)
    else None
  }

  predicate NameLess(a: Name, b: Name) {
    if b == [] then false
    else if a == [] then true
    else a[0] < b[0] || (a[0] == b[0] && NameLess(a[1..], b[1..]))
  }

  /** `better_reaching_copy`: prefer variables, and among them the smaller name. */
  function BetterReachingCopy(best: Option<CopyInstr>, candidate: CopyInstr): CopyInstr {
    match best
    case None => candidate
    case Some(current) =>
      if !candidate.src.Var? then current
      else if !current.src.Var? then candidate
      else if NameLess(candidate.src.name, current.src.name) then candidate
      else current
  }

  /** `select_reaching_copy`: a scan of the hash set in any order gives the same answer. */
  method SelectByScan(x: Name, f: Facts, use: Use) returns (best: Option<CopyInstr>)
    requires Functional(f)
    ensures best == SelectReachingCopy(x, f, use)
  {
    best := None;
    var left := f;
    while left != {}
      invariant left <= f
      invariant best.Some? ==> best.value in f && best.value.dst == x && Usable(best.value.src, use)
      invariant best.None? ==> forall j :: j in f - left && j.dst == x ==> !Usable(j.src, use)
      decreases left
    {
      var k :| k in left;
      left := left - {k};
      if k.dst == x && Usable(k.src, use) {
        best := Some(BetterReachingCopy(best, k));
      }
    }
  }

  function Destinations(f: Facts): set<Name> {
    set k | k in f :: k.dst
  }

  /** `resolve_reaching_value` */
  function Resolve(x: Name, f: Facts, use: Use, seen: set<Name>): Option<Val>
    requires Functional(f)
    decreases Destinations(f) - seen
  {
    if x in seen then None
    else match SelectReachingCopy(x, f, use)
      case None => None
      case Some(k) =>
        assert x in Destinations(f) - seen;
        match k.src
        case Var(s) =>
          if s == x then Some(Var(s))
          else (match Resolve(s, f, use, seen + {x}) case Some(v) => Some(v) case None => Some(Var(s)))
        case _ => Some(k.src)
  }

  /** A chain of `n` usable copies from `x` down to `v`. */
  ghost predicate Chain(f: Facts, x: Name, v: Val, use: Use, n: nat)
    decreases n, 0
  {
    if n == 0 then v == Var(x) else exists k :: Link(f, x, k, use) && ChainFrom(f, k.src, v, use, n - 1)
  }

  ghost predicate Link(f: Facts, x: Name, k: CopyInstr, use: Use) {
    k in f && k.dst == x && Usable(k.src, use)
  }

  ghost predicate ChainFrom(f: Facts, from: Val, v: Val, use: Use, n: nat)
    decreases n, 1
  {
    if from.Var? then Chain(f, from.name, v, use, n) else n == 0 && v == from
  }

  /** Nothing usable is left to follow from `v`. */
  ghost predicate ChainEnd(f: Facts, v: Val, use: Use) {
    v.Var? ==> forall k :: k in f && k.dst == v.name && Usable(k.src, use) ==> k.src == v
  }

  /** Along ranks, resolution never meets a variable it has seen, so it follows the copies
      to their end. */
  lemma {:induction false} ResolveReachesEnd(x: Name, f: Facts, use: Use, seen: set<Name>, rank: Name -> nat)
    requires Functional(f) && Ranked(f, rank)
    requires forall y :: y in seen ==> rank(x) < rank(y)
    ensures match Resolve(x, f, use, seen)
            case None => ChainEnd(f, Var(x), use)
            case Some(v) => ChainEnd(f, v, use) && exists n: nat :: n > 0 && Chain(f, x, v, use, n)
    decreases rank(x)
  {
    assert x !in seen;
    hide SelectReachingCopy, Chain, ChainFrom, ChainEnd, Usable, Link;
    match SelectReachingCopy(x, f, use)
    case None =>
    case Some(k) =>
      assert Link(f, x, k, use);
      if k.src.Var? && k.src.name != x {
        var s := k.src.name;
        ResolveReachesEnd(s, f, use, seen + {x}, rank);
        match Resolve(s, f, use, seen + {x})
        case None =>
          OneLink(f, x, k, use);
        case Some(v) =>
          var n: nat :| n > 0 && Chain(f, s, v, use, n);
          LongerChain(f, x, k, v, use, n);
      } else {
        OneLink(f, x, k, use);
      }
  }

  lemma LongerChain(f: Facts, x: Name, k: CopyInstr, v: Val, use: Use, n: nat)
    requires Link(f, x, k, use) && k.src.Var? && Chain(f, k.src.name, v, use, n)
    ensures Chain(f, x, v, use, n + 1)
  {
    assert ChainFrom(f, k.src, v, use, n);
  }

  lemma OneLink(f: Facts, x: Name, k: CopyInstr, use: Use)
    requires Link(f, x, k, use)
    ensures Chain(f, x, k.src, use, 1)
  {
    assert ChainFrom(f, k.src, k.src, use, 0) by {
      assert k.src.Var? ==> Chain(f, k.src.name, k.src, use, 0);
    }
  }

  /** `resolve_reaching_value` on the sets that arise: it returns the end of the chain of
      usable copies that starts at `x`, and nothing exactly when there is no usable copy. */
  lemma ResolveIsChainEnd(x: Name, f: Facts, use: Use)
    requires Functional(f) && Acyclic(f)
    ensures match Resolve(x, f, use, {})
            case None => forall k :: k in f && k.dst == x ==> !Usable(k.src, use)
            case Some(v) => ChainEnd(f, v, use) && exists n: nat :: n > 0 && Chain(f, x, v, use, n)
  {
    var rank: Name -> nat :| Ranked(f, rank);
    ResolveReachesEnd(x, f, use, {}, rank);
  }
}
