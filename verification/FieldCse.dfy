/** Local elimination of repeated field reads, over an index of three maps. */
module FieldCse {
  import opened Tacky
  import opened Semantics
  import opened Behaviour
  import opened ControlFlow
  import opened CfgRuns
  import opened Effects
  import opened LocalSimulation
  import opened Preservation
  import opened AvailableExprs
  import opened CopyRewrite
  import opened SmallPrograms

  /** An aggregate and an offset in it. */
  type FieldKey = (Name, int)

  function Listed(lists: map<Name, set<FieldKey>>, name: Name): set<FieldKey> {
    if name in lists then lists[name] else {}
  }

  /** Taking a key off a list, and the list out of the map once it is empty. */
  function Unlisted(lists: map<Name, set<FieldKey>>, name: Name, key: FieldKey): (r: map<Name, set<FieldKey>>)
    ensures forall n :: Listed(r, n) == Listed(lists, n) - if n == name then {key} else {}
  {
    if name !in lists then lists
    else if lists[name] - {key} == {} then lists - {name}
    else lists[name := lists[name] - {key}]
  }

  // ----- the index as a value -----

  /** The entries, the keys on source lists, and the keys on holder lists. Lists may hold more than the
      entries: clearing empties `seen` only. */
  datatype Index = Index(seen: map<FieldKey, Name>, sources: set<FieldKey>, holders: set<(Name, FieldKey)>)

  const NO_ENTRIES := Index(map[], {}, {})

  function SourceKeys(s: Index, name: Name): set<FieldKey> {
    set key | key in s.sources && key.0 == name
  }

  function HolderKeys(s: Index, name: Name): set<FieldKey> {
    set entry | entry in s.holders && entry.0 == name :: entry.1
  }

  function Entries(s: Index, keys: set<FieldKey>): set<(Name, FieldKey)> {
    set key | key in keys && key in s.seen :: (s.seen[key], key)
  }

  function Dropped(s: Index, keys: set<FieldKey>): Index {
    Index(s.seen - keys, s.sources - keys, s.holders - Entries(s, keys))
  }

  /** Everything listed under `name` goes, whether its entry still mentions `name` or not. */
  function Invalidated(s: Index, name: Name): Index {
    Dropped(s.(holders := set entry | entry in s.holders && entry.0 != name), SourceKeys(s, name) + HolderKeys(s, name))
  }

  function Inserted(s: Index, key: FieldKey, holder: Name): Index {
    Index(s.seen[key := holder], s.sources + {key}, s.holders + {(holder, key)})
  }

  class FieldIndex {
    var seen: map<FieldKey, Name>
    var bySource: map<Name, set<FieldKey>>
    var byHolder: map<Name, set<FieldKey>>

    /** The maps hold what `s` says. */
    ghost predicate Shows(s: Index)
      reads this
    {
      && seen == s.seen
      && (forall name, key :: key in Listed(bySource, name) <==> key in s.sources && key.0 == name)
      && (forall name, key :: key in Listed(byHolder, name) <==> (name, key) in s.holders)
    }

    constructor ()
      ensures Shows(NO_ENTRIES)
    {
      seen, bySource, byHolder := map[], map[], map[];
    }

    /** `insert_copy_from_offset_entry` */
    method Insert(key: FieldKey, holder: Name, ghost s: Index)
      requires Shows(s)
      modifies this
      ensures Shows(Inserted(s, key, holder))
    {
      seen := seen[key := holder];
      bySource := bySource[key.0 := Listed(bySource, key.0) + {key}];
      byHolder := byHolder[holder := Listed(byHolder, holder) + {key}];
      assert forall n :: Listed(bySource, n) == Listed(old(bySource), n) + if n == key.0 then {key} else {};
      assert forall n :: Listed(byHolder, n) == Listed(old(byHolder), n) + if n == holder then {key} else {};
    }

    /** Entries may be dropped while their lists stay. */
    method Clear(ghost s: Index)
      requires Shows(s)
      modifies this`seen
      ensures Shows(s.(seen := map[]))
    {
      seen := map[];
    }

    /** `invalidate_copy_from_offset_key` */
    method InvalidateKey(key: FieldKey, ghost s: Index)
      requires Shows(s)
      modifies this
      ensures Shows(Dropped(s, {key}))
    {
      if key in seen {
        var holder := seen[key];
        seen := seen - {key};
        byHolder := Unlisted(byHolder, holder, key);
        assert Entries(s, {key}) == {(holder, key)};
      }
      bySource := Unlisted(bySource, key.0, key);
    }

    method InvalidateKeys(keys: set<FieldKey>, ghost s: Index)
      requires Shows(s)
      modifies this
      ensures Shows(Dropped(s, keys))
    {
      var left := keys;
      DropNothing(s);
      assert keys - left == {};
      while left != {}
        invariant left <= keys && Shows(Dropped(s, keys - left))
        decreases left
      {
        var key :| key in left;
        InvalidateKey(key, Dropped(s, keys - left));
        DropOne(s, keys - left, key);
        assert keys - (left - {key}) == keys - left + {key};
        left := left - {key};
      }
      assert keys - left == keys;
    }

    /** `invalidate_copy_from_offset_entries`: what the lists of `def` hold goes, and so no
        entry mentions `def` any more. */
    method Invalidate(def: Name, ghost s: Index)
      requires Shows(s) && Covering(s)
      modifies this
      ensures Shows(Invalidated(s, def)) && Covering(Invalidated(s, def))
      ensures forall key :: key in seen ==> key.0 != def && seen[key] != def
    {
      var keys := Listed(bySource, def) + Listed(byHolder, def);
      bySource := bySource - {def};
      byHolder := byHolder - {def};
      assert forall n :: Listed(bySource, n) == if n == def then {} else Listed(old(bySource), n);
      assert forall n :: Listed(byHolder, n) == if n == def then {} else Listed(old(byHolder), n);
      ListedKeys(s, def, keys);
      ghost var t := s.(sources := s.sources - SourceKeys(s, def), holders := set entry | entry in s.holders
            && entry.0 != def);
      InvalidateKeys(keys, t);
      DroppedTwice(s, def);
      InvalidatedCovers(s, def);
    }

    /** `invalidate_copy_from_offset_source` */
    method InvalidateSource(source: Name, ghost s: Index)
      requires Shows(s) && Covering(s)
      modifies this
      ensures Shows(Dropped(s, SourceKeys(s, source))) && Covering(Dropped(s, SourceKeys(s, source)))
      ensures forall key :: key in seen ==> key.0 != source
    {
      var keys := Listed(bySource, source);
      bySource := bySource - {source};
      assert forall n :: Listed(bySource, n) == if n == source then {} else Listed(old(bySource), n);
      assert keys == SourceKeys(s, source);
      ghost var t := s.(sources := s.sources - SourceKeys(s, source));
      InvalidateKeys(keys, t);
      assert Dropped(t, keys) == Dropped(s, keys);
      DroppedCovers(s, keys);
    }
  }

  lemma ListedKeys(s: Index, def: Name, keys: set<FieldKey>)
    requires forall key :: key in keys <==> key in SourceKeys(s, def) || (def, key) in s.holders
    ensures keys == SourceKeys(s, def) + HolderKeys(s, def)
  {
    assert forall key :: key in HolderKeys(s, def) <==> (def, key) in s.holders;
  }

  /** Every entry is listed under its source and its holder. */
  ghost predicate Covering(s: Index) {
    forall key :: key in s.seen ==> key in s.sources && (s.seen[key], key) in s.holders
  }

  lemma DropNothing(s: Index)
    ensures Dropped(s, {}) == s
  {
    assert Entries(s, {}) == {};
  }

  lemma DropOne(s: Index, keys: set<FieldKey>, key: FieldKey)
    requires key !in keys
    ensures Dropped(Dropped(s, keys), {key}) == Dropped(s, keys + {key})
  {
    assert Entries(s, keys + {key}) == Entries(s, keys) + Entries(Dropped(s, keys), {key});
  }

  lemma DroppedTwice(s: Index, def: Name)
    ensures Dropped(s.(sources := s.sources - SourceKeys(s, def), holders := set entry | entry in s.holders
      && entry.0 != def),
                    SourceKeys(s, def) + HolderKeys(s, def)) == Invalidated(s, def)
  {
  }

  lemma DroppedCovers(s: Index, keys: set<FieldKey>)
    requires Covering(s)
    ensures Covering(Dropped(s, keys))
  {
  }

  lemma InvalidatedCovers(s: Index, def: Name)
    requires Covering(s)
    ensures Covering(Invalidated(s, def))
    ensures forall key :: key in Invalidated(s, def).seen ==>
              key in s.seen && Invalidated(s, def).seen[key] == s.seen[key] && key.0 != def && s.seen[key] != def
  {
  }

  // ----- what an entry means -----

  /** An instruction that may change variable `x` or `h`. */
  predicate Disturbs(i: Instr, x: Name, h: Name) {
    i.Store? || i.FunCall? || DefinedVar(i) == Some(x) || DefinedVar(i) == Some(h)
  }

  /** Before position `k`, `h` was read from field `offset` of `x`, and neither was disturbed since. */
  predicate HoldsField(instrs: seq<Instr>, k: nat, x: Name, offset: int, h: Name) {
    exists j :: 0 <= j < k && j < |instrs| && instrs[j] == CopyFromOffset(x, offset, h)
      && forall m :: j < m < k && m < |instrs| ==> !Disturbs(instrs[m], x, h)
  }

  /** What may stand in place of instruction `k`: itself, or a copy from a holder of its field. */
  predicate Rewritten(instrs: seq<Instr>, k: nat, r: Instr)
    requires k < |instrs|
  {
    || r == instrs[k]
    || (instrs[k].CopyFromOffset? && r.Copy? && r.src.Var? && r.dst == instrs[k].dst
        && HoldsField(instrs, k, instrs[k].srcName, instrs[k].offset, r.src.name))
  }

  ghost predicate AllHold(instrs: seq<Instr>, k: nat, seen: map<FieldKey, Name>) {
    forall key :: key in seen ==> HoldsField(instrs, k, key.0, key.1, seen[key])
  }

  lemma StillHolds(instrs: seq<Instr>, k: nat, x: Name, offset: int, h: Name)
    requires k < |instrs| && HoldsField(instrs, k, x, offset, h) && !Disturbs(instrs[k], x, h)
    ensures HoldsField(instrs, k + 1, x, offset, h)
  {
    var j :| 0 <= j < k && instrs[j] == CopyFromOffset(x, offset, h) && forall m ::
      j < m < k && m < |instrs| ==> !Disturbs(instrs[m], x, h);
    assert forall m :: j < m < k + 1 && m < |instrs| ==> !Disturbs(instrs[m], x, h);
  }

  lemma NewlyHolds(instrs: seq<Instr>, k: nat)
    requires k < |instrs| && instrs[k].CopyFromOffset?
    ensures HoldsField(instrs, k + 1, instrs[k].srcName, instrs[k].offset, instrs[k].dst)
  {
  }

  /** What is left of the entries after instruction `k` has invalidated its share. */
  lemma EntriesMoveOn(instrs: seq<Instr>, k: nat, seen: map<FieldKey, Name>, seen': map<FieldKey, Name>)
    requires k < |instrs| && AllHold(instrs, k, seen)
    requires forall key :: key in seen' ==> key in seen && seen'[key] == seen[key]
    requires instrs[k].Store? || instrs[k].FunCall? ==> seen' == map[]
    requires forall x, key :: DefinedVar(instrs[k]) == Some(x) && key in seen' ==> key.0 != x && seen'[key] != x
    ensures AllHold(instrs, k + 1, seen')
  {
    hide HoldsField;
    forall key | key in seen'
      ensures HoldsField(instrs, k + 1, key.0, key.1, seen'[key])
    {
      assert HoldsField(instrs, k, key.0, key.1, seen[key]);
      assert !Disturbs(instrs[k], key.0, seen[key]);
      StillHolds(instrs, k, key.0, key.1, seen'[key]);
    }
  }

  // ----- the block scan -----

  /** What is left of the index when an instruction has invalidated its share. */
  function Cleared(s: Index, i: Instr): Index {
    var d := if DefinedVar(i).Some? then Invalidated(s, DefinedVar(i).value) else s;
    match i
    case CopyToOffset(_, x, _) => Dropped(d, SourceKeys(d, x))
    case Store(_, _) => d.(seen := map[])
    case FunCall(_, _, _, _) => d.(seen := map[])
    case _ => d
  }

  /** One instruction of the block: what it becomes, and the index after it. */
  function Shared(s: Index, i: Instr): (Instr, Index) {
    var t := Cleared(s, i);
    if !i.CopyFromOffset? then (i, t)
    else if (i.srcName, i.offset) in t.seen then (Copy(Var(t.seen[(i.srcName, i.offset)]), i.dst), t)
    else (i, Inserted(t, (i.srcName, i.offset), i.dst))
  }

  function IndexAt(instrs: seq<Instr>, k: nat): Index
    requires k <= |instrs|
  {
    if k == 0 then NO_ENTRIES else Shared(IndexAt(instrs, k - 1), instrs[k - 1]).1
  }

  /** The block after the scan. */
  function SharedBlock(instrs: seq<Instr>): (r: seq<Instr>)
    ensures |r| == |instrs|
    ensures forall k :: 0 <= k < |instrs| ==> r[k] == Shared(IndexAt(instrs, k), instrs[k]).0
  {
    seq(|instrs|, k requires 0 <= k < |instrs| => Shared(IndexAt(instrs, k), instrs[k]).0)
  }

  lemma ClearedKeeps(s: Index, i: Instr)
    requires Covering(s)
    ensures var t := Cleared(s, i);
      && Covering(t) && (forall key :: key in t.seen ==> key in s.seen && t.seen[key] == s.seen[key])
      && (i.Store? || i.FunCall? ==> t.seen == map[])
      && (forall x, key :: DefinedVar(i) == Some(x) && key in t.seen ==> key.0 != x && t.seen[key] != x)
  {
    hide Invalidated;
    if DefinedVar(i).Some? {
      InvalidatedCovers(s, DefinedVar(i).value);
    }
  }

  lemma InsertedKeeps(instrs: seq<Instr>, k: nat, s: Index)
    requires k < |instrs| && instrs[k].CopyFromOffset? && Covering(s) && AllHold(instrs, k + 1, s.seen)
    ensures var t := Inserted(s, (instrs[k].srcName, instrs[k].offset), instrs[k].dst);
      Covering(t) && AllHold(instrs, k + 1, t.seen)
  {
    NewlyHolds(instrs, k);
    hide HoldsField;
  }

  lemma SharedKeeps(instrs: seq<Instr>, k: nat, s: Index)
    requires k < |instrs| && Covering(s) && AllHold(instrs, k, s.seen)
    ensures var t := Shared(s, instrs[k]).1; Covering(t) && AllHold(instrs, k + 1, t.seen)
  {
    hide Cleared, HoldsField, Disturbs, Covering, AllHold, Inserted;
    ClearedKeeps(s, instrs[k]);
    EntriesMoveOn(instrs, k, s.seen, Cleared(s, instrs[k]).seen);
    if instrs[k].CopyFromOffset? {
      InsertedKeeps(instrs, k, Cleared(s, instrs[k]));
    }
  }

  lemma IndexNext(instrs: seq<Instr>, k: nat)
    requires k < |instrs|
    ensures IndexAt(instrs, k + 1) == Shared(IndexAt(instrs, k), instrs[k]).1
  {
  }

  /** Every entry names a variable read from its field, undisturbed since. */
  lemma {:induction false} IndexHolds(instrs: seq<Instr>, k: nat)
    requires k <= |instrs|
    ensures Covering(IndexAt(instrs, k)) && AllHold(instrs, k, IndexAt(instrs, k).seen)
  {
    if k == 0 {
      FirstIndex(instrs);
    } else {
      hide *;
      IndexHolds(instrs, k - 1);
      IndexNext(instrs, k - 1);
      SharedKeeps(instrs, k - 1, IndexAt(instrs, k - 1));
    }
  }

  /** So every instruction stays, or is a read that becomes a copy from a holder of its field. */
  lemma SharedRewrites(instrs: seq<Instr>, k: nat)
    requires k < |instrs|
    ensures Rewritten(instrs, k, SharedBlock(instrs)[k])
  {
    hide Cleared, HoldsField, IndexAt, SharedBlock, Covering;
    var s, i := IndexAt(instrs, k), instrs[k];
    IndexHolds(instrs, k);
    ClearedKeeps(s, i);
    if i.CopyFromOffset? && (i.srcName, i.offset) in Cleared(s, i).seen {
      assert HoldsField(instrs, k, i.srcName, i.offset, s.seen[(i.srcName, i.offset)]);
    }
  }

  /** What an instruction invalidates. */
  method InvalidateFor(index: FieldIndex, instr: Instr, ghost s: Index)
    requires index.Shows(s) && Covering(s)
    modifies index
    ensures index.Shows(Cleared(s, instr))
  {
    ghost var d := s;
    if DefinedVar(instr).Some? {
      index.Invalidate(DefinedVar(instr).value, s);
      d := Invalidated(s, DefinedVar(instr).value);
    }
    match instr
    case CopyToOffset(_, dstName, _) => index.InvalidateSource(dstName, d);
    case Store(_, _) => index.Clear(d);
    case FunCall(_, _, _, _) => index.Clear(d);
    case _ =>
  }

  /** One instruction of the block: invalidate, look up, remember. */
  method ShareOne(index: FieldIndex, instr: Instr, ghost s: Index) returns (r: Instr)
    requires index.Shows(s) && Covering(s)
    modifies index
    ensures r == Shared(s, instr).0 && index.Shows(Shared(s, instr).1)
  {
    hide Cleared, Inserted;
    r := instr;
    InvalidateFor(index, r, s);
    if r.CopyFromOffset? {
      var key := (r.srcName, r.offset);
      if key in index.seen {
        r := Copy(Var(index.seen[key]), r.dst);
      } else {
        index.Insert(key, r.dst, Cleared(s, instr));
      }
    }
  }

  /** `cse_copy_from_offset_block` */
  method CseCopyFromOffsetBlock(instructions: seq<Instr>) returns (rewritten: seq<Instr>)
    ensures rewritten == SharedBlock(instructions)
  {
    hide Shared, IndexAt, SharedBlock, Covering, AllHold;
    FirstIndex(instructions);
    var index := new FieldIndex();
    rewritten := [];
    for k := 0 to |instructions|
      invariant fresh(index) && index.Shows(IndexAt(instructions, k))
      invariant rewritten == SharedBlock(instructions)[..k]
    {
      IndexHolds(instructions, k);
      IndexNext(instructions, k);
      SharedPrefix(instructions, k);
      var r := ShareOne(index, instructions[k], IndexAt(instructions, k));
      rewritten := rewritten + [r];
    }
    assert SharedBlock(instructions)[..|instructions|] == SharedBlock(instructions);
  }

  lemma FirstIndex(instrs: seq<Instr>)
    ensures IndexAt(instrs, 0) == NO_ENTRIES
  {
  }

  lemma SharedPrefix(instrs: seq<Instr>, k: nat)
    requires k < |instrs|
    ensures SharedBlock(instrs)[..k + 1] == SharedBlock(instrs)[..k] + [Shared(IndexAt(instrs, k), instrs[k]).0]
  {
    hide *;
    var q := SharedBlock(instrs);
    assert q[..k + 1] == q[..k] + [q[k]];
  }

  // ----- meaning -----

  /** No shared read is replaced by a copy from the very aggregate it reads. */
  predicate ForeignHolders(instrs: seq<Instr>, shared: seq<Instr>)
    requires |shared| == |instrs|
  {
    forall k :: 0 <= k < |instrs| ==> Foreign(instrs[k], shared[k])
  }

  predicate Foreign(i: Instr, r: Instr) {
    r != i && i.CopyFromOffset? && r.Copy? ==> r.src != Var(i.srcName)
  }

  /** No read overwrites the aggregate it reads from. */
  predicate NoSelfRead(instrs: seq<Instr>) {
    forall i :: i in instrs && i.CopyFromOffset? ==> i.srcName != i.dst
  }

  /** All reads of one field go to variables of one type. */
  predicate OneTypePerField(types: Types, instrs: seq<Instr>) {
    forall i, j :: i in instrs && j in instrs && SameField(i, j) ==> TypeOf(types, i.dst) == TypeOf(types, j.dst)
  }

  predicate SameField(i: Instr, j: Instr) {
    i.CopyFromOffset? && j.CopyFromOffset? && i.srcName == j.srcName && i.offset == j.offset
  }

  ghost predicate FieldValue(c: Ctx, x: Name, offset: int, h: Name, d: Data) {
    Read(d.env, h) == c.machine.getField(Read(d.env, x), offset, TypeOf(c.types, h))
  }

  /** Every holder other than the aggregate itself really has the value of its field. */
  ghost predicate FieldsHold(c: Ctx, instrs: seq<Instr>, k: nat, d: Data) {
    forall x, offset, h :: h != x && HoldsField(instrs, k, x, offset, h) ==> FieldValue(c, x, offset, h, d)
  }

  /** An instruction that does not disturb two variables leaves both alone. */
  lemma Undisturbed(c: Ctx, i: Instr, x: Name, h: Name, d: Data)
    requires !Disturbs(i, x, h)
    ensures Read(Exec(c, i, d).env, x) == Read(d.env, x) && Read(Exec(c, i, d).env, h) == Read(d.env, h)
  {
  }

  lemma FieldsStep(c: Ctx, instrs: seq<Instr>, k: nat, d: Data)
    requires k < |instrs| && FieldsHold(c, instrs, k, d)
    ensures FieldsHold(c, instrs, k + 1, Exec(c, instrs[k], d))
  {
    var i, d' := instrs[k], Exec(c, instrs[k], d);
    forall x, offset, h | h != x && HoldsField(instrs, k + 1, x, offset, h)
      ensures FieldValue(c, x, offset, h, d')
    {
      var j :| 0 <= j < k + 1 && instrs[j] == CopyFromOffset(x, offset, h)
        && forall m :: j < m < k + 1 && m < |instrs| ==> !Disturbs(instrs[m], x, h);
      if j < k {
        assert HoldsField(instrs, k, x, offset, h);
        assert !Disturbs(instrs[k], x, h);
        hide Exec, Disturbs, HoldsField;
        Undisturbed(c, i, x, h, d);
      } else {
        assert i in instrs;
      }
    }
  }

  /** A copy from a holder leaves the state the read would have left. */
  lemma RewrittenSame(c: Ctx, instrs: seq<Instr>, k: nat, r: Instr, d: Data)
    requires k < |instrs| && Rewritten(instrs, k, r) && Foreign(instrs[k], r) && FieldsHold(c, instrs, k, d)
    requires OneTypePerField(c.types, instrs) && CseLawful(c.machine)
    ensures Exec(c, r, d) == Exec(c, instrs[k], d)
  {
    if r != instrs[k] {
      var i, h := instrs[k], r.src.name;
      assert FieldValue(c, i.srcName, i.offset, h, d);
      SameFieldType(c.types, instrs, k, h);
      assert MoveExact(c.machine, TypeOf(c.types, i.dst), Read(d.env, h));
    }
  }

  lemma SameFieldType(types: Types, instrs: seq<Instr>, k: nat, h: Name)
    requires k < |instrs| && instrs[k].CopyFromOffset? && OneTypePerField(types, instrs)
    requires HoldsField(instrs, k, instrs[k].srcName, instrs[k].offset, h)
    ensures TypeOf(types, h) == TypeOf(types, instrs[k].dst)
  {
    var i := instrs[k];
    var j :| 0 <= j < k && instrs[j] == CopyFromOffset(i.srcName, i.offset, h);
    assert instrs[j] in instrs && i in instrs && SameField(instrs[j], i);
  }

  /** A copy from the aggregate itself is right exactly where the part read is the whole. */
  lemma OwnHolderRight(c: Ctx, instrs: seq<Instr>, k: nat, r: Instr, d: Data)
    requires k < |instrs| && Rewritten(instrs, k, r) && !Foreign(instrs[k], r)
    requires OneTypePerField(c.types, instrs) && CseLawful(c.machine)
    ensures Exec(c, r, d) == Exec(c, instrs[k], d) <==>
      Read(d.env, instrs[k].srcName)
        == c.machine.getField(Read(d.env, instrs[k].srcName), instrs[k].offset, TypeOf(c.types, instrs[k].dst))
  {
    var i := instrs[k];
    SameFieldType(c.types, instrs, k, i.srcName);
    assert MoveExact(c.machine, TypeOf(c.types, i.dst), Read(d.env, i.srcName));
    hide CseLawful, HoldsField, OneTypePerField;
    ReadsBack(c, r, d);
    ReadsBack(c, i, d);
  }

  lemma ReadsBack(c: Ctx, i: Instr, d: Data)
    requires Computes(i)
    ensures Read(Exec(c, i, d).env, DefinedVar(i).value) == Result(c, i, d)
    ensures Exec(c, i, d) == d.(env := d.env[DefinedVar(i).value := Result(c, i, d)])
  {
    hide Result;
  }

  /** Without reads that overwrite their own aggregate no such copy is made. */
  lemma NoSelfReadForeign(instrs: seq<Instr>, k: nat, r: Instr)
    requires NoSelfRead(instrs) && k < |instrs| && Rewritten(instrs, k, r)
    ensures Foreign(instrs[k], r)
  {
    if r != instrs[k] {
      var h := r.src.name;
      var j :| 0 <= j < k && instrs[j] == CopyFromOffset(instrs[k].srcName, instrs[k].offset, h);
      assert instrs[j] in instrs;
    }
  }

  // ----- the whole code -----

  ghost predicate FieldsShared(p: Code, q: Code) {
    && |p| == |q|
    && forall b :: 0 <= b < |p| ==> |q[b]| == |p[b]| && forall k :: 0 <= k < |p[b]| ==> Rewritten(p[b], k, q[b][k])
  }

  ghost predicate FieldReadsFit(c: Ctx, p: Code, q: Code) {
    && CseLawful(c.machine) && |p| == |q|
    && forall b :: 0 <= b < |p| ==> |q[b]| == |p[b]| && ForeignHolders(p[b], q[b]) && OneTypePerField(c.types, p[b])
  }

  ghost predicate AtField(c: Ctx, p: Code, q: Code, b: nat, rest: seq<Instr>, rest': seq<Instr>, d: Data, e: Data) {
    && b < |p| && b < |q| && |q[b]| == |p[b]| && d == e && IsSuffix(rest, p[b])
    && rest' == q[b][|p[b]| - |rest|..] && FieldsHold(c, p[b], |p[b]| - |rest|, d)
  }

  ghost function FieldPoint(c: Ctx, p: Code, q: Code): Point {
    (b: nat, rest, rest', d, e) => AtField(c, p, q, b, rest, rest', d, e)
  }

  lemma FieldEntry(c: Ctx, p: Code, q: Code, b: nat, d: Data)
    requires FieldsShared(p, q) && b < |p|
    ensures AtField(c, p, q, b, p[b], q[b], d, d)
  {
    assert q[b][0..] == q[b] && p[b][0..] == p[b];
  }

  lemma FieldLeaves(c: Ctx, p: Code, q: Code, b: nat, d: Data)
    requires FieldsShared(p, q) && b < |p|
    ensures Leaves(c, p, q, FieldPoint(c, p, q), b, d, d)
  {
    hide AtField;
    forall t: nat | t < |p| && Block(t) in SuccessorsOf(p, b)
      ensures FieldPoint(c, p, q)(t, p[t], q[t], d, d)
    {
      FieldEntry(c, p, q, t, d);
    }
  }

  lemma RewrittenControl(instrs: seq<Instr>, k: nat, r: Instr)
    requires k < |instrs| && Rewritten(instrs, k, r)
    ensures SameControl(instrs[k], r) && (EndsBlock(instrs[k]) ==> r == instrs[k])
  {
  }

  lemma FieldNext(c: Ctx, p: Code, q: Code, b: nat, rest: seq<Instr>, rest': seq<Instr>, d: Data)
    requires FieldsShared(p, q) && FieldReadsFit(c, p, q) && AtField(c, p, q, b, rest, rest', d, d) && rest != []
    ensures rest' != [] && SameControl(rest[0], rest'[0]) && (EndsBlock(rest[0]) ==> rest'[0] == rest[0])
    ensures var d' := Exec(c, rest[0], d);
      Exec(c, rest'[0], d) == d' && AtField(c, p, q, b, rest[1..], rest'[1..], d', d')
  {
    var k := |p[b]| - |rest|;
    assert rest[0] == p[b][k] && rest'[0] == q[b][k] && rest'[1..] == q[b][k + 1..] && rest[1..] == p[b][k + 1..];
    assert ForeignHolders(p[b], q[b]) && OneTypePerField(c.types, p[b]) && Rewritten(p[b], k, q[b][k])
      && Foreign(p[b][k], q[b][k]);
    hide Exec, ForeignHolders, Foreign, OneTypePerField, Rewritten, FieldsHold, CseLawful;
    RewrittenControl(p[b], k, q[b][k]);
    RewrittenSame(c, p[b], k, q[b][k], d);
    FieldsStep(c, p[b], k, d);
  }

  lemma SteersSame(c: Ctx, i: Instr, d: Data)
    requires EndsBlock(i)
    ensures SteersAlike(c, i, i, d, d) && Exec(c, i, d) == d
  {
  }

  lemma FieldStep(c: Ctx, p: Code, q: Code, b: nat, rest: seq<Instr>, rest': seq<Instr>, d: Data, e: Data)
    requires Partitioned(p) && FieldsShared(p, q) && FieldReadsFit(c, p, q) && AtField(c, p, q, b, rest, rest', d, e)
    requires Standing(c, p, b, rest, d)
    ensures LocalStep(c, p, q, FieldPoint(c, p, q), b, rest, rest', d, e)
  {
    FieldLeaves(c, p, q, b, d);
    if rest != [] {
      FieldNext(c, p, q, b, rest, rest', d);
      if EndsBlock(rest[0]) {
        TerminatorEnding(p, Running(b, rest, d));
        assert |rest'| == 1;
        SteersSame(c, rest[0], d);
      }
      hide Exec, Leaves, Standing, SteersAlike, FieldsShared, FieldReadsFit, Partitioned;
    }
  }

  lemma {:induction false} FieldFrame(p: seq<Instr>, q: seq<Instr>)
    requires Shaped(p) && |p| == |q| && forall k :: 0 <= k < |p| ==> SameControl(p[k], q[k])
    ensures SameFrame(p, q)
  {
    if p != [] {
      assert p == [p[0]] + p[1..] && q == [q[0]] + q[1..];
      FieldFrame(p[1..], q[1..]);
      FrameCons(p[0], p[1..], q[0], q[1..]);
    }
  }

  lemma FieldSkeleton(p: Code, q: Code)
    requires Partitioned(p) && FieldsShared(p, q)
    ensures SameSkeleton(p, q)
  {
    forall b | 0 <= b < |p|
      ensures SameFrame(p[b], q[b])
    {
      forall k | 0 <= k < |p[b]|
        ensures SameControl(p[b][k], q[b][k])
      {
        RewrittenControl(p[b], k, q[b][k]);
      }
      FieldFrame(p[b], q[b]);
    }
    FramesMakeSkeleton(p, q);
  }

  /** Sharing field reads preserves behaviour; both codes pass through the same states. */
  lemma SharingPreserves(c: Ctx, p: Code, q: Code, d: Data)
    requires Partitioned(p) && UniqueBlockLabels(p) && Confined(c) && CodeConfined(p, c.aliased)
      && DataSafe(d, c.aliased)
    requires FieldsShared(p, q) && FieldReadsFit(c, p, q)
    ensures Equivalent(c, p, q, d)
  {
    var pt := FieldPoint(c, p, q);
    FieldSkeleton(p, q);
    if p != [] {
      FieldEntry(c, p, q, 0, d);
    }
    forall b, rest, rest', d, e | pt(b, rest, rest', d, e) && Standing(c, p, b, rest, d)
      ensures LocalStep(c, p, q, pt, b, rest, rest', d, e)
    {
      FieldStep(c, p, q, b, rest, rest', d, e);
    }
    hide LocalStep, Standing, AtField, SameSkeleton, FieldsShared, FieldReadsFit;
    LocalPassPreserves(c, p, q, pt, d);
  }

  /** A function on which the pass preserves behaviour: reads of one field share a type. */
  ghost predicate FieldSuitable(c: Ctx, body: seq<Instr>, aliased: set<Name>, statics: set<Name>) {
    Suitable(c, [body], aliased, statics) && CseLawful(c.machine) && OneTypePerField(c.types, body)
  }

  /** The blocks after the pass. */
  function SharedCode(p: Code): (q: Code)
    ensures |q| == |p| && forall b :: 0 <= b < |p| ==> q[b] == SharedBlock(p[b])
  {
    seq(|p|, b requires 0 <= b < |p| => SharedBlock(p[b]))
  }

  /** No block gets a copy of an aggregate in place of a part of it. */
  predicate NoOwnHolder(p: Code) {
    forall b :: 0 <= b < |p| ==> ForeignHolders(p[b], SharedBlock(p[b]))
  }

  lemma SharedCodeShares(p: Code)
    ensures FieldsShared(p, SharedCode(p))
  {
    hide SharedBlock, Rewritten;
    forall b, k | 0 <= b < |p| && 0 <= k < |p[b]|
      ensures Rewritten(p[b], k, SharedCode(p)[b][k])
    {
      SharedRewrites(p[b], k);
    }
  }

  lemma FlatFits(c: Ctx, code: Code)
    requires CseLawful(c.machine) && OneTypePerField(c.types, Flatten(code)) && NoOwnHolder(code)
    ensures FieldReadsFit(c, code, SharedCode(code))
  {
    FlattenMembers(code);
    hide SharedBlock, CseLawful;
    forall b | 0 <= b < |code|
      ensures OneTypePerField(c.types, code[b])
    {
      assert forall i :: i in code[b] ==> i in Flatten(code);
    }
  }

  /** Reads that do not overwrite their own aggregate are enough. */
  lemma NoSelfReadSuffices(p: Code)
    requires NoSelfRead(Flatten(p))
    ensures NoOwnHolder(p)
  {
    FlattenMembers(p);
    hide SharedBlock, Rewritten, Foreign;
    forall b, k | 0 <= b < |p| && 0 <= k < |p[b]|
      ensures Foreign(p[b][k], SharedBlock(p[b])[k])
    {
      assert forall i :: i in p[b] ==> i in Flatten(p);
      SharedRewrites(p[b], k);
      NoSelfReadForeign(p[b], k, SharedBlock(p[b])[k]);
    }
  }

  lemma SharedBody(c: Ctx, p: Code, aliased: set<Name>, statics: set<Name>, d: Data)
    requires Partitioned(p) && UniqueBlockLabels(p) && NoOwnHolder(p)
    requires FieldSuitable(c, Flatten(p), aliased, statics) && DataSafe(d, aliased)
    ensures Equivalent(c, [Flatten(p)], [Flatten(SharedCode(p))], d)
  {
    var q := SharedCode(p);
    FlatConfined(p, aliased);
    FieldUnfold(c, p, aliased, statics);
    hide *;
    FlatFits(c, p);
    SharedCodeShares(p);
    FieldSkeleton(p, q);
    SkeletonLabels(p, q);
    SkeletonShape(p, q);
    FlatteningPreserves(c, p, d);
    EquivalentSymmetric(c, p, [Flatten(p)], d);
    SharingPreserves(c, p, q, d);
    FlatteningPreserves(c, q, d);
    EquivalentTransitive(c, [Flatten(p)], p, q, d);
    EquivalentTransitive(c, [Flatten(p)], q, [Flatten(q)], d);
  }

  lemma SkeletonShape(p: Code, q: Code)
    requires SameSkeleton(p, q)
    ensures Partitioned(q)
  {
  }

  lemma FieldUnfold(c: Ctx, p: Code, aliased: set<Name>, statics: set<Name>)
    requires FieldSuitable(c, Flatten(p), aliased, statics)
    ensures Confined(c) && CodeConfined([Flatten(p)], aliased) && c.aliased == aliased
    ensures CseLawful(c.machine) && OneTypePerField(c.types, Flatten(p))
  {
  }

  /** The block loop of `cse_copy_from_offset`. */
  method ShareInBlocks(p: Code) returns (q: Code)
    ensures q == SharedCode(p)
  {
    q := [];
    hide SharedBlock;
    for b := 0 to |p|
      invariant |q| == b && forall a :: 0 <= a < b ==> q[a] == SharedBlock(p[a])
    {
      var rewritten := CseCopyFromOffsetBlock(p[b]);
      q := q + [rewritten];
    }
  }

  lemma {:induction false} SharedLength(p: Code)
    ensures |Flatten(SharedCode(p))| == |Flatten(p)|
  {
    if p != [] {
      var q := SharedCode(p);
      hide SharedBlock;
      assert q[1..] == SharedCode(p[1..]);
      SharedLength(p[1..]);
    }
  }

  /** `cse_copy_from_offset`: the blocks of the body, scanned one by one. Unless a copy of an aggregate
      takes the place of its part, the result behaves like the body; and none does when no read of the
      body overwrites the aggregate it reads from. */
  method CseCopyFromOffset(instructions: seq<Instr>, ghost aliased: set<Name>, ghost statics: set<Name>)
    returns (result: seq<Instr>, ghost blocks: Code)
    requires UniqueLabels(instructions)
    ensures MinimalCuts(blocks) && Flatten(blocks) == instructions && result == Flatten(SharedCode(blocks))
    ensures |result| == |instructions|
    ensures NoOwnHolder(blocks) ==>
      forall c: Ctx, d: Data :: FieldSuitable(c, instructions, aliased, statics) && DataSafe(d, aliased) ==>
        Equivalent(c, [instructions], [result], d)
    ensures NoSelfRead(instructions) ==>
      forall c: Ctx, d: Data :: FieldSuitable(c, instructions, aliased, statics) && DataSafe(d, aliased) ==>
        Equivalent(c, [instructions], [result], d)
  {
    var cfg := new Cfg.Build(instructions);
    blocks := CodeOf(cfg.blocks);
    assert Partitioned(blocks) && UniqueBlockLabels(blocks) && MinimalCuts(blocks);
    hide Flatten, WellFormed, Partitioned, UniqueBlockLabels, FieldSuitable, MinimalCuts, NoOwnHolder, SharedBlock;
    var code := ShareInBlocks(CodeOf(cfg.blocks));
    cfg.blocks := WithCode(cfg.blocks, code);
    result := cfg.IntoInstructions();
    SharedLength(blocks);
    if NoSelfRead(instructions) {
      NoSelfReadSuffices(blocks);
    }
    if NoOwnHolder(blocks) {
      forall c: Ctx, d: Data | FieldSuitable(c, instructions, aliased, statics) && DataSafe(d, aliased)
        ensures Equivalent(c, [instructions], [result], d)
      {
        SharedBody(c, blocks, aliased, statics, d);
      }
    }
  }

  // ----- why reads must not overwrite their own aggregate -----

  /** The first read replaces `x` by a part of itself; the second reads `x` again. */
  function SelfReading(): seq<Instr> {
    [CopyFromOffset("x", 0, "x"), CopyFromOffset("x", 0, "y"), Return(Var("y"))]
  }

  function SelfShared(): seq<Instr> {
    [CopyFromOffset("x", 0, "x"), Copy(Var("x"), "y"), Return(Var("y"))]
  }

  /** A machine whose aggregates are lists and whose reads take the first part. */
  function ListCtx(): Ctx {
    var m := SimpleMachine();
    SimpleCtx().(machine := m.(getField := (v: Value, n, ty) => if v.Agg? && v.parts != [] then v.parts[0] else Num(0),
                               binary := (op, k, l, ty, v, w) => Num(0)))
  }

  function Nested(): Data {
    Data(map["x" := Agg([Agg([Num(5)])])], map[], [])
  }

  lemma ThreeSteps(c: Ctx, body: seq<Instr>, d: Data)
    requires |body| == 3 && Computes(body[0]) && Computes(body[1]) && body[2] == Return(Var("y")) && c.statics == {}
    ensures var e := Exec(c, body[1], Exec(c, body[0], d));
      StopsFrom(c, [body], Start([body], d), Halted(Returned(Read(e.env, "y")), map[], e.mem, e.trace))
  {
    hide StopsFrom, Run;
    var d1 := Exec(c, body[0], d);
    var e := Exec(c, body[1], d1);
    var h := Halted(Returned(Read(e.env, "y")), map[], e.mem, e.trace);
    assert body[1..] == [body[1], body[2]] && body[1..][1..] == [body[2]];
    assert Step(c, [body], Running(0, body, d)) == Running(0, body[1..], d1) by { hide Exec; }
    assert Step(c, [body], Running(0, body[1..], d1)) == Running(0, [body[2]], e) by { hide Exec; }
    assert Step(c, [body], Running(0, [body[2]], e)) == h by { hide Exec; }
    hide Step, Exec;
    StopsNow(c, [body], h);
    StopsAfter(c, [body], Running(0, [body[2]], e), h, h);
    StopsAfter(c, [body], Running(0, body[1..], d1), Running(0, [body[2]], e), h);
    StopsAfter(c, [body], Running(0, body, d), Running(0, body[1..], d1), h);
  }

  /** The scan emits the copy: the read of its own source is on record as a holder of its field. */
  lemma SelfSharing()
    ensures SharedBlock(SelfReading()) == SelfShared()
  {
    SelfEmits();
    var q := SharedBlock(SelfReading());
    hide SharedBlock;
    assert q == [q[0], q[1], q[2]];
  }

  lemma SelfCode()
    ensures MinimalCuts([SelfReading()]) && SharedCode([SelfReading()]) == [SelfShared()]
      && !NoOwnHolder([SelfReading()])
  {
    var p := [SelfReading()];
    SelfSharing();
    hide SharedBlock;
    assert SharedCode(p) == [SharedBlock(p[0])];
    assert !Foreign(SelfReading()[1], SelfShared()[1]);
  }

  lemma SelfEmits()
    ensures var p, q := SelfReading(), SharedBlock(SelfReading());
      q[0] == p[0] && q[1] == Copy(Var("x"), "y") && q[2] == p[2]
  {
    var p := SelfReading();
    SelfIndex();
    hide SharedBlock, IndexAt;
    assert Covering(NO_ENTRIES);
    ClearedKeeps(NO_ENTRIES, p[0]);
    StillListed(IndexAt(p, 1), p[1]);
    hide Cleared;
  }

  /** A read to a variable that no entry mentions leaves the entries. */
  lemma StillListed(s: Index, i: Instr)
    requires i.CopyFromOffset? && s.seen == map[("x", 0) := "x"] && s.sources == {("x", 0)}
      && s.holders == {("x", ("x", 0))} && i.dst == "y"
    ensures Cleared(s, i).seen == s.seen
  {
  }

  lemma SelfIndex()
    ensures IndexAt(SelfReading(), 0) == NO_ENTRIES
    ensures IndexAt(SelfReading(), 1) == Index(map[("x", 0) := "x"], {("x", 0)}, {("x", ("x", 0))})
  {
    IndexNext(SelfReading(), 0);
    FirstIndex(SelfReading());
    hide IndexAt;
    assert Entries(NO_ENTRIES, {}) == {} && SourceKeys(NO_ENTRIES, "x") == {} && HolderKeys(NO_ENTRIES, "x") == {};
    assert Cleared(NO_ENTRIES, SelfReading()[0]) == NO_ENTRIES;
  }

  lemma ListLawful()
    ensures CseLawful(ListCtx().machine) && OneTypePerField(ListCtx().types, SelfReading()) && ListCtx().statics == {}
  {
    var m := ListCtx().machine;
    forall ty, v
      ensures MoveExact(m, ty, v)
    {
    }
    forall op, k, l, ty, v, w
      ensures Commutes(m, op, ClassOf(k), ClassOf(l), ty, v, w)
    {
    }
  }

  lemma PartOfPart()
    ensures var e := Exec(ListCtx(), SelfReading()[1], Exec(ListCtx(), SelfReading()[0], Nested()));
      Read(e.env, "y") == Num(5) && e.mem == map[] && e.trace == []
  {
  }

  lemma CopiedPart()
    ensures var e := Exec(ListCtx(), SelfShared()[1], Exec(ListCtx(), SelfShared()[0], Nested()));
      Read(e.env, "y") == Agg([Num(5)]) && e.mem == map[] && e.trace == []
  {
  }

  /** On such a body the pass puts in a copy of the part in place of the part's part. */
  lemma SelfReadFails()
    ensures MinimalCuts([SelfReading()]) && SharedCode([SelfReading()]) == [SelfShared()]
      && !NoOwnHolder([SelfReading()])
    ensures CseLawful(ListCtx().machine) && OneTypePerField(ListCtx().types, SelfReading())
    ensures !Equivalent(ListCtx(), [SelfReading()], [SelfShared()], Nested())
  {
    var c, p, q, d := ListCtx(), SelfReading(), SelfShared(), Nested();
    assert |p| == 3 && |q| == 3 && Computes(p[0]) && Computes(p[1]) && Computes(q[0]) && Computes(q[1]);
    assert p[2] == Return(Var("y")) && q[2] == Return(Var("y"));
    hide *;
    SelfCode();
    ListLawful();
    PartOfPart();
    CopiedPart();
    ThreeSteps(c, p, d);
    ThreeSteps(c, q, d);
    ToldApart(c, [p], [q], d, Halted(Returned(Num(5)), map[], map[], []),
      Halted(Returned(Agg([Num(5)])), map[], map[], []));
  }

  // ----- why reads of one field must share a type -----

  /** One field of a union, read as two types. */
  function TwoReads(): seq<Instr> {
    [CopyFromOffset("u", 0, "x"), CopyFromOffset("u", 0, "y"), Return(Var("y"))]
  }

  function TwoShared(): seq<Instr> {
    [CopyFromOffset("u", 0, "x"), Copy(Var("x"), "y"), Return(Var("y"))]
  }

  /** A machine on which a field shows as many bytes as it is read with. */
  function BytesCtx(): Ctx {
    var m := SimpleMachine();
    SimpleCtx().(machine := m.(getField := (v: Value, n, ty) => Num(Size(ty)),
      binary := (op, k, l, ty, v, w) => Num(0)),
                 types := map["x" := Int, "y" := Long])
  }

  lemma TwoIndex()
    ensures IndexAt(TwoReads(), 1) == Index(map[("u", 0) := "x"], {("u", 0)}, {("x", ("u", 0))})
  {
    IndexNext(TwoReads(), 0);
    FirstIndex(TwoReads());
    hide IndexAt;
    assert Entries(NO_ENTRIES, {}) == {} && SourceKeys(NO_ENTRIES, "x") == {} && HolderKeys(NO_ENTRIES, "x") == {};
    assert Cleared(NO_ENTRIES, TwoReads()[0]) == NO_ENTRIES;
  }

  lemma TwoStillListed(s: Index, i: Instr)
    requires i.CopyFromOffset? && s.seen == map[("u", 0) := "x"] && s.sources == {("u", 0)}
      && s.holders == {("x", ("u", 0))} && i.dst == "y"
    ensures Cleared(s, i).seen == s.seen
  {
  }

  lemma TwoEmits()
    ensures var p, q := TwoReads(), SharedBlock(TwoReads());
      q[0] == p[0] && q[1] == Copy(Var("x"), "y") && q[2] == p[2]
  {
    var p := TwoReads();
    TwoIndex();
    FirstIndex(p);
    hide SharedBlock, IndexAt;
    ClearedKeeps(NO_ENTRIES, p[0]);
    TwoStillListed(IndexAt(p, 1), p[1]);
    hide Cleared;
  }

  lemma TwoShape()
    ensures MinimalCuts([TwoReads()]) && NoSelfRead(TwoReads())
  {
  }

  lemma TwoTypes()
    ensures !OneTypePerField(BytesCtx().types, TwoReads())
  {
    assert TwoReads()[0] in TwoReads() && TwoReads()[1] in TwoReads() && SameField(TwoReads()[0], TwoReads()[1]);
    assert TypeOf(BytesCtx().types, "x") == Int && TypeOf(BytesCtx().types, "y") == Long;
    hide BytesCtx;
  }

  lemma TwoCode()
    ensures SharedCode([TwoReads()]) == [TwoShared()]
  {
    var p := [TwoReads()];
    TwoEmits();
    var q := SharedBlock(TwoReads());
    hide SharedBlock;
    assert q == [q[0], q[1], q[2]];
    assert SharedCode(p) == [SharedBlock(p[0])];
  }

  lemma BytesLawful()
    ensures CseLawful(BytesCtx().machine) && BytesCtx().statics == {}
  {
    var m := BytesCtx().machine;
    forall ty, v
      ensures MoveExact(m, ty, v)
    {
    }
    forall op, k, l, ty, v, w
      ensures Commutes(m, op, ClassOf(k), ClassOf(l), ty, v, w)
    {
    }
  }

  lemma EightBytes()
    ensures var e := Exec(BytesCtx(), TwoReads()[1], Exec(BytesCtx(), TwoReads()[0], Blank()));
      Read(e.env, "y") == Num(8) && e.mem == map[] && e.trace == []
  {
  }

  lemma FourBytes()
    ensures var e := Exec(BytesCtx(), TwoShared()[1], Exec(BytesCtx(), TwoShared()[0], Blank()));
      Read(e.env, "y") == Num(4) && e.mem == map[] && e.trace == []
  {
  }

  /** The pass looks at the field only, so a read as one type is replaced by what was read as another. */
  lemma TwoTypesFail()
    ensures MinimalCuts([TwoReads()]) && SharedCode([TwoReads()]) == [TwoShared()] && NoSelfRead(TwoReads())
    ensures CseLawful(BytesCtx().machine) && !OneTypePerField(BytesCtx().types, TwoReads())
    ensures !Equivalent(BytesCtx(), [TwoReads()], [TwoShared()], Blank())
  {
    var c, p, q, d := BytesCtx(), TwoReads(), TwoShared(), Blank();
    assert |p| == 3 && |q| == 3 && Computes(p[0]) && Computes(p[1]) && Computes(q[0]) && Computes(q[1]);
    assert p[2] == Return(Var("y")) && q[2] == Return(Var("y"));
    hide *;
    TwoShape();
    TwoTypes();
    TwoCode();
    BytesLawful();
    EightBytes();
    FourBytes();
    ThreeSteps(c, p, d);
    ThreeSteps(c, q, d);
    ToldApart(c, [p], [q], d, Halted(Returned(Num(8)), map[], map[], []), Halted(Returned(Num(4)), map[], map[], []));
  }
}
