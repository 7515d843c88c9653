/** Which repeated reads of a field are shared, and one that is not. */
module FieldAnswers {
  import opened Tacky
  import opened FieldCse

  /** An instruction before position `m` reads the field into `g`. */
  predicate ReadInto(instrs: seq<Instr>, m: nat, x: Name, offset: int, g: Name) {
    exists i :: 0 <= i < m && i < |instrs| && instrs[i] == CopyFromOffset(x, offset, g)
  }

  /** The instruction at `m` leaves the field as it is, and every variable the field was read into before. */
  ghost predicate LeavesField(instrs: seq<Instr>, m: nat, x: Name, offset: int)
    requires m < |instrs|
  {
    && !instrs[m].Store? && !instrs[m].FunCall? && DefinedVar(instrs[m]) != Some(x)
    && forall g :: ReadInto(instrs, m, x, offset, g) ==> DefinedVar(instrs[m]) != Some(g)
  }

  // ----- what the lists hold -----

  /** Every holder list is about variables that the field was read into. */
  ghost predicate ListsReaders(instrs: seq<Instr>, m: nat, s: Index) {
    forall entry :: entry in s.holders ==> ReadInto(instrs, m, entry.1.0, entry.1.1, entry.0)
  }

  lemma ClearedLists(s: Index, i: Instr)
    ensures Cleared(s, i).holders <= s.holders
  {
  }

  lemma ReadEarlier(instrs: seq<Instr>, m: nat, x: Name, offset: int, g: Name)
    requires ReadInto(instrs, m, x, offset, g)
    ensures ReadInto(instrs, m + 1, x, offset, g)
  {
  }

  lemma SharedLists(instrs: seq<Instr>, m: nat, s: Index)
    requires m < |instrs| && ListsReaders(instrs, m, s)
    ensures ListsReaders(instrs, m + 1, Shared(s, instrs[m]).1)
  {
    hide Cleared, ReadInto;
    ClearedLists(s, instrs[m]);
    forall entry | entry in Shared(s, instrs[m]).1.holders
      ensures ReadInto(instrs, m + 1, entry.1.0, entry.1.1, entry.0)
    {
      if entry in s.holders {
        ReadEarlier(instrs, m, entry.1.0, entry.1.1, entry.0);
      } else {
        JustRead(instrs, m);
      }
    }
  }

  lemma JustRead(instrs: seq<Instr>, m: nat)
    requires m < |instrs| && instrs[m].CopyFromOffset?
    ensures ReadInto(instrs, m + 1, instrs[m].srcName, instrs[m].offset, instrs[m].dst)
  {
  }

  lemma {:induction false} IndexListsReaders(instrs: seq<Instr>, m: nat)
    requires m <= |instrs|
    ensures ListsReaders(instrs, m, IndexAt(instrs, m))
  {
    hide Shared, ReadInto;
    if m == 0 {
      FirstIndex(instrs);
    } else {
      hide ListsReaders;
      IndexListsReaders(instrs, m - 1);
      IndexNext(instrs, m - 1);
      SharedLists(instrs, m - 1, IndexAt(instrs, m - 1));
    }
  }

  // ----- an entry survives -----

  lemma EntrySurvives(s: Index, i: Instr, key: FieldKey)
    requires key in s.seen && !i.Store? && !i.FunCall? && DefinedVar(i) != Some(key.0)
    requires forall g :: (g, key) in s.holders ==> DefinedVar(i) != Some(g)
    ensures key in Cleared(s, i).seen && Cleared(s, i).seen[key] == s.seen[key]
  {
  }

  lemma EntryStays(instrs: seq<Instr>, m: nat, x: Name, offset: int)
    requires m < |instrs| && (x, offset) in IndexAt(instrs, m).seen && LeavesField(instrs, m, x, offset)
    ensures (x, offset) in Cleared(IndexAt(instrs, m), instrs[m]).seen
    ensures (x, offset) in IndexAt(instrs, m + 1).seen
  {
    var s := IndexAt(instrs, m);
    IndexListsReaders(instrs, m);
    assert forall g :: (g, (x, offset)) in s.holders ==> ReadInto(instrs, m, x, offset, g);
    hide Cleared, IndexAt, ReadInto;
    EntrySurvives(s, instrs[m], (x, offset));
    IndexNext(instrs, m);
  }

  lemma ReadIsKnown(instrs: seq<Instr>, j: nat)
    requires j < |instrs| && instrs[j].CopyFromOffset?
    ensures (instrs[j].srcName, instrs[j].offset) in IndexAt(instrs, j + 1).seen
  {
    hide Cleared;
    IndexNext(instrs, j);
  }

  lemma {:induction false} KnownUntil(instrs: seq<Instr>, j: nat, k: nat, x: Name, offset: int)
    requires j <= k <= |instrs| && (x, offset) in IndexAt(instrs, j).seen
    requires forall m :: j <= m < k ==> LeavesField(instrs, m, x, offset)
    ensures (x, offset) in IndexAt(instrs, k).seen
    decreases k
  {
    if j < k {
      hide IndexAt, LeavesField;
      KnownUntil(instrs, j, k - 1, x, offset);
      EntryStays(instrs, k - 1, x, offset);
    }
  }

  /** Of two reads of one field the second becomes a copy, if in between and at it neither the field nor any
      variable the field was read into before is touched. */
  lemma LaterReadShared(instrs: seq<Instr>, j: nat, k: nat)
    requires j < k < |instrs| && instrs[j].CopyFromOffset? && instrs[k].CopyFromOffset?
    requires instrs[k].srcName == instrs[j].srcName && instrs[k].offset == instrs[j].offset
    requires forall m :: j < m <= k ==> LeavesField(instrs, m, instrs[j].srcName, instrs[j].offset)
    ensures var r := SharedBlock(instrs)[k];
      && r.Copy? && r.src.Var? && r.dst == instrs[k].dst
      && HoldsField(instrs, k, instrs[k].srcName, instrs[k].offset, r.src.name)
  {
    var x, offset := instrs[j].srcName, instrs[j].offset;
    hide IndexAt, LeavesField, Cleared, HoldsField;
    ReadIsKnown(instrs, j);
    KnownUntil(instrs, j + 1, k, x, offset);
    EntryStays(instrs, k, x, offset);
    SharedRewrites(instrs, k);
    var g := Cleared(IndexAt(instrs, k), instrs[k]).seen[(x, offset)];
    assert SharedBlock(instrs)[k] == Copy(Var(g), instrs[k].dst);
  }

  // ----- a read that is not shared -----

  /** The store forgets that `g` has the field, but leaves it on the list of `g`. */
  function StaleBlock(): seq<Instr> {
    [CopyFromOffset("x", 0, "g"), Store(Var("v"), Var("p")), CopyFromOffset("x", 0, "h"), Copy(Constant(5), "g"),
     CopyFromOffset("x", 0, "t")]
  }

  lemma StaleIndex()
    ensures var s := IndexAt(StaleBlock(), 3);
      ("x", 0) in s.seen && s.seen[("x", 0)] == "h" && ("g", ("x", 0)) in s.holders
  {
    var b := StaleBlock();
    var key: FieldKey := ("x", 0);
    FirstIndex(b);
    IndexNext(b, 0);
    IndexNext(b, 1);
    IndexNext(b, 2);
    hide IndexAt;
    assert Cleared(NO_ENTRIES, b[0]).seen == map[];
    assert IndexAt(b, 1).seen == map[key := "g"] && ("g", key) in IndexAt(b, 1).holders;
    assert IndexAt(b, 2).seen == map[] && ("g", key) in IndexAt(b, 2).holders;
  }

  /** Though `h` still has the field when it is read into `t`, the read stays: assigning `g`, which had it
      before the store, takes the entry of the field away. */
  lemma StaleListForgets()
    ensures SharedBlock(StaleBlock())[4] == CopyFromOffset("x", 0, "t")
    ensures HoldsField(StaleBlock(), 4, "x", 0, "h")
  {
    var b := StaleBlock();
    StaleIndex();
    assert HoldsField(b, 4, "x", 0, "h") by {
      assert b[2] == CopyFromOffset("x", 0, "h");
    }
    IndexNext(b, 3);
    hide IndexAt, HoldsField, Cleared;
    Forgotten(IndexAt(b, 3), b[3], "g", ("x", 0));
    NothingNew(IndexAt(b, 4), b[4], ("x", 0));
  }

  lemma Forgotten(s: Index, i: Instr, g: Name, key: FieldKey)
    requires i.Copy? && i.dst == g && (g, key) in s.holders
    ensures key !in Cleared(s, i).seen
  {
    assert key in HolderKeys(s, g);
  }

  lemma NothingNew(s: Index, i: Instr, key: FieldKey)
    requires key !in s.seen
    ensures key !in Cleared(s, i).seen
  {
  }
}
