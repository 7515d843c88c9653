/** What a variable's value may still be read by, told over the paths of the graph. */
module LivePaths {
  import opened Tacky
  import opened ControlFlow
  import opened Operands
  import opened Paths

  /** All the instruction does is to compute into the variable. */
  predicate OnlyComputes(i: Instr, x: Name) {
    (Overwrites(i, x) && !i.FunCall?) || (i.CopyToOffset? && i.dstName == x)
  }

  /** From position `k` on, the variable is not overwritten before position `n`. */
  predicate ClearTo(instrs: seq<Instr>, k: nat, n: nat, x: Name) {
    forall p :: k <= p < n && p < |instrs| ==> !Overwrites(instrs[p], x)
  }

  /** From position `k` on, an instruction of the block reads the variable before one overwrites it. */
  ghost predicate ReadBelow(instrs: seq<Instr>, k: nat, x: Name) {
    exists j :: k <= j < |instrs| && ReadsVar(instrs[j], x) && ClearTo(instrs, k, j, x)
  }

  /** Along a path of blocks entered at their start, the last one reads the variable and none before
      overwrites it. */
  ghost predicate ReadAlong(blocks: seq<BasicBlock>, path: seq<nat>, x: Name) {
    && path != [] && (forall j :: 0 <= j < |path| ==> path[j] < |blocks|)
    && (forall j :: 0 < j < |path| ==> HasEdge(blocks, path[j - 1], path[j]))
    && (forall j :: 0 <= j < |path| - 1 ==>
          var instrs := blocks[path[j]].instructions; ClearTo(instrs, 0, |instrs|, x))
    && ReadBelow(blocks[path[|path| - 1]].instructions, 0, x)
  }

  /** From position `k` of block `b` some path leads to an instruction that reads the variable, before
      any that overwrites it. */
  ghost predicate NeededAt(blocks: seq<BasicBlock>, b: nat, k: nat, x: Name)
    requires b < |blocks|
  {
    var instrs := blocks[b].instructions;
    || ReadBelow(instrs, k, x)
    || (ClearTo(instrs, k, |instrs|, x)
        && exists path :: ReadAlong(blocks, path, x) && HasEdge(blocks, b, path[0]))
  }

  /** Nobody but the instructions that name the variable can read it: it is neither static nor aliased,
      and not an aggregate written in code that calls or stores. */
  ghost predicate Private(blocks: seq<BasicBlock>, x: Name, aliased: set<Name>, statics: set<Name>) {
    && x !in aliased && x !in statics
    && !(CallsOrStores(blocks) && WritesAggregate(blocks, x))
  }

  ghost predicate CallsOrStores(blocks: seq<BasicBlock>) {
    exists b, i :: 0 <= b < |blocks| && i in blocks[b].instructions && (i.FunCall? || i.Store?)
  }

  ghost predicate WritesAggregate(blocks: seq<BasicBlock>, x: Name) {
    exists b, i :: 0 <= b < |blocks| && i in blocks[b].instructions && i.CopyToOffset? && i.dstName == x
  }

  /** No instruction only computes into a private variable whose value no path reads. */
  ghost predicate NoDeadStores(blocks: seq<BasicBlock>, aliased: set<Name>, statics: set<Name>) {
    forall b, k, x :: (0 <= b < |blocks| && 0 <= k < |blocks[b].instructions|
      && OnlyComputes(blocks[b].instructions[k], x) && Private(blocks, x, aliased, statics)) ==>
      NeededAt(blocks, b, k + 1, x)
  }

  // ----- facts about paths -----

  /** One block further up. */
  lemma NeededThrough(blocks: seq<BasicBlock>, b: nat, t: nat, k: nat, x: Name)
    requires HasEdge(blocks, b, t) && NeededAt(blocks, t, 0, x)
    requires ClearTo(blocks[b].instructions, k, |blocks[b].instructions|, x)
    ensures NeededAt(blocks, b, k, x)
  {
    var path: seq<nat>;
    if ReadBelow(blocks[t].instructions, 0, x) {
      path := [t];
    } else {
      var rest :| ReadAlong(blocks, rest, x) && HasEdge(blocks, t, rest[0]);
      path := [t] + rest;
      forall j | 0 < j < |path|
        ensures HasEdge(blocks, path[j - 1], path[j])
      {
        assert path[j] == rest[j - 1] && (j > 1 ==> path[j - 1] == rest[j - 2]);
      }
      hide ReadBelow, HasEdge, ClearTo;
    }
    assert ReadAlong(blocks, path, x);
  }

  lemma ReadHere(instrs: seq<Instr>, k: nat, x: Name)
    requires k < |instrs| && ReadsVar(instrs[k], x)
    ensures ReadBelow(instrs, k, x)
  {
    assert ClearTo(instrs, k, k, x);
  }

  lemma ReadLater(instrs: seq<Instr>, k: nat, x: Name)
    requires k < |instrs| && !Overwrites(instrs[k], x) && ReadBelow(instrs, k + 1, x)
    ensures ReadBelow(instrs, k, x)
  {
    var j :| k + 1 <= j < |instrs| && ReadsVar(instrs[j], x) && ClearTo(instrs, k + 1, j, x);
    assert ClearTo(instrs, k, j, x);
  }
}
