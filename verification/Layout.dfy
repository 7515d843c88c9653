/** The layout of C structs and unions. */
module Layout {
  import opened Tacky
  import opened Arithmetic

  const USIZE_MAX: nat := 0xFFFF_FFFF_FFFF_FFFF
  const VLA_STATIC_SCALE_FALLBACK: nat := USIZE_MAX - 1
  const VLA_SIZE_ESTIMATE: nat := 16

  datatype LayoutError =
    | InvalidAlignment | TooLarge | UndefinedStruct | NotInteger | WiderThanStorage | NamedZeroWidth

  datatype Result<T> = Ok(value: T) | Err(error: LayoutError) {
    predicate IsFailure() { Err? }
    function PropagateFailure<U>(): Result<U> requires Err? { Err(error) }
    function Extract(): T requires Ok? { value }
  }

  datatype FullType =
    | ScalarType(scalar: CType)
    | PointerType(target: FullType)
    | FunctionType(returns_: FullType, params: seq<FullType>)
    | ArrayType(elem: FullType, count: nat)
    | VectorType(elem: FullType, lanes: nat)
    | StructType(tag: Name)

  datatype Declaration = Declaration(name: Name, memberType: CType, fullType: FullType, bitWidth: Option<nat>,
                                     flexible: bool, alignment: Option<nat>, packed: bool)

  datatype Member = Member(name: Name, memberType: CType, fullType: FullType, flexible: bool,
                           offset: nat, size: nat, bitWidth: Option<nat>, bitOffset: nat, reversed: bool)

  datatype StructDef = StructDef(tag: Name, members: seq<Member>, size: nat, alignment: nat, isUnion: bool)

  type Defs = map<Name, StructDef>

  // ----- arithmetic -----

  predicate IsPowerOfTwo(a: nat) {
    a == 1 || (a > 1 && a % 2 == 0 && IsPowerOfTwo(a / 2))
  }

  function CheckedAdd(a: nat, b: nat): Result<nat> {
    if a + b > USIZE_MAX then Err(TooLarge) else Ok(a + b)
  }

  /** `round_up_to`; clearing the low bits of a sum is taking off its remainder. */
  function RoundUpTo(value: nat, alignment: nat): Result<nat> {
    if alignment == 0 || !IsPowerOfTwo(alignment) then Err(InvalidAlignment)
    else
      var sum :- CheckedAdd(value, alignment - 1);
      Ok(sum - sum % alignment)
  }

  function Max(a: nat, b: nat): nat {
    if a < b then b else a
  }

  /** `member_size_align` */
  function SizeAlign(ft: FullType, defs: Defs): Result<(nat, nat)> {
    match ft
    case ScalarType(t) => Ok((Max(Size(t), 1), Max(Size(t), 1)))
    case PointerType(_) => Ok((8, 8))
    case FunctionType(_, _) => Ok((8, 8))
    case ArrayType(elem, count) =>
      var e :- SizeAlign(elem, defs);
      var n := if count == VLA_STATIC_SCALE_FALLBACK then VLA_SIZE_ESTIMATE else count;
      if e.0 * n > USIZE_MAX then Err(TooLarge) else Ok((e.0 * n, e.1))
    case VectorType(elem, lanes) =>
      var e :- SizeAlign(elem, defs);
      if e.0 * lanes > USIZE_MAX then Err(TooLarge) else Ok((e.0 * lanes, e.1))
    case StructType(tag) => if tag in defs then Ok((defs[tag].size, defs[tag].alignment)) else Err(UndefinedStruct)
  }

  predicate IsBitFieldType(ft: FullType) {
    ft.ScalarType? && !IsFloating(ft.scalar) && !ft.scalar.Pointer? && !ft.scalar.Struct? && !ft.scalar.Void?
  }

  // ----- the state of the layout loop -----

  /** The counters of the loop; what is laid out is kept in groups, one per declaration. */
  datatype State = State(offset: nat, maxAlign: nat, maxSize: nat, groups: seq<seq<Member>>,
                         unitOffset: nat, unitSize: nat, unitAlign: nat, nextBit: nat)

  datatype Options = Options(isUnion: bool, packed: bool, reversed: bool)

  const START := State(0, 1, 0, [], 0, 0, 1, 0)

  /** Where a bit-field is stored: size, alignment and type of its unit. */
  function StorageUnit(m: Declaration, width: nat, size: nat, align: nat, packed: bool): (nat, nat, CType) {
    if packed then (size, 1, m.memberType)
    else if size > 4 && width <= 32 then (4, 4, if IsSigned(m.memberType) then Int else UInt)
    else (size, align, m.memberType)
  }

  function BitMember(m: Declaration, unit: (nat, nat, CType), offset: nat, width: nat, at: nat,
        reversed: bool): seq<Member> {
    if m.name == "" then []
    else [Member(m.name, unit.2, m.fullType, m.flexible, offset, unit.0, Some(width),
                 if reversed && unit.0 * 8 >= at + width then unit.0 * 8 - at - width else at, reversed)]
  }

  /** A bit-field of width 0 closes the current unit. */
  function PlaceZeroWidth(s: State, m: Declaration, zeroAlign: nat, align: nat, o: Options): Result<State> {
    if m.name != "" then Err(NamedZeroWidth)
    else
      var offset :- if o.isUnion then Ok(s.offset) else RoundUpTo(s.offset, zeroAlign);
      Ok(s.(offset := offset, nextBit := 0, unitSize := 0, unitAlign := zeroAlign,
            maxAlign := Max(s.maxAlign, align), groups := s.groups + [[]]))
  }

  function PlaceUnionBits(s: State, m: Declaration, width: nat, unit: (nat, nat, CType), packed: bool,
        o: Options): State {
    var occupied := if packed then Max((width + 7) / 8, 1) else unit.0;
    var group := BitMember(m, unit, 0, width, 0, false);
    s.(groups := s.groups + [if group == [] then [] else [group[0].(reversed := o.reversed)]],
       maxSize := Max(s.maxSize, occupied), maxAlign := Max(s.maxAlign, unit.1))
  }

  predicate NeedsNewUnit(s: State, width: nat, unit: (nat, nat, CType)) {
    s.unitSize == 0 || s.unitSize != unit.0 || s.unitAlign != unit.1 || s.nextBit + width > unit.0 * 8
  }

  function PlaceStructBits(s: State, m: Declaration, width: nat, unit: (nat, nat, CType), o: Options): Result<State> {
    if s.nextBit + width > USIZE_MAX then Err(TooLarge)
    else if NeedsNewUnit(s, width, unit) then
      var start :- RoundUpTo(s.offset, unit.1);
      var end :- CheckedAdd(start, unit.0);
      Ok(s.(offset := end, unitOffset := start, unitSize := unit.0, unitAlign := unit.1, nextBit := width,
            maxAlign := Max(s.maxAlign, unit.1),
              groups := s.groups + [BitMember(m, unit, start, width, 0, o.reversed)]))
    else
      Ok(s.(nextBit := s.nextBit + width, maxAlign := Max(s.maxAlign, unit.1),
            groups := s.groups + [BitMember(m, unit, s.unitOffset, width, s.nextBit, o.reversed)]))
  }

  function PlaceBitField(s: State, m: Declaration, width: nat, size: nat, natural: nat, align: nat,
        o: Options): Result<State> {
    var packed := o.packed || m.packed;
    if !IsBitFieldType(m.fullType) then Err(NotInteger)
    else if size * 8 > USIZE_MAX then Err(TooLarge)
    else if width > size * 8 then Err(WiderThanStorage)
    else
      var unit := StorageUnit(m, width, size, align, packed);
      if width == 0 then PlaceZeroWidth(s, m, if packed then natural else unit.1, align, o)
      else if o.isUnion then Ok(PlaceUnionBits(s, m, width, unit, packed, o))
      else PlaceStructBits(s, m, width, unit, o)
  }

  function Shift(members: seq<Member>, delta: nat): seq<Member> {
    seq(|members|, k requires 0 <= k < |members| => members[k].(offset := members[k].offset + delta))
  }

  /** A plain member, or the members of an unnamed struct lifted to the enclosing one. */
  function PlainGroup(m: Declaration, defs: Defs, offset: nat, size: nat): Result<seq<Member>> {
    if m.name != "" then
      Ok([Member(m.name, m.memberType, m.fullType, m.flexible, offset, size, None, 0, false)])
    else if m.fullType.StructType? && m.fullType.tag in defs then
      var nested := defs[m.fullType.tag].members;
      if exists n :: n in nested && n.offset + offset > USIZE_MAX then Err(TooLarge) else Ok(Shift(nested, offset))
    else Ok([])
  }

  /** A plain member gives back the unused bytes of an open bit-field unit. */
  function PlacePlain(s: State, m: Declaration, defs: Defs, size: nat, align: nat, o: Options): Result<State> {
    var from :- if s.nextBit > 0 then CheckedAdd(s.unitOffset, (s.nextBit + 7) / 8) else Ok(s.offset);
    if o.isUnion then
      var group :- PlainGroup(m, defs, 0, size);
      Ok(s.(offset := from, nextBit := 0, unitSize := 0, groups := s.groups + [group],
            maxSize := Max(s.maxSize, size), maxAlign := Max(s.maxAlign, align)))
    else
      var start :- RoundUpTo(from, align);
      var group :- PlainGroup(m, defs, start, size);
      var end :- CheckedAdd(start, size);
      Ok(s.(offset := end, nextBit := 0, unitSize := 0, groups := s.groups + [group],
        maxAlign := Max(s.maxAlign, align)))
  }

  /** The body of the layout loop. */
  function Place(s: State, m: Declaration, defs: Defs, o: Options): Result<State> {
    var sa :- SizeAlign(m.fullType, defs);
    var layoutAlign := if o.packed || m.packed then 1 else sa.1;
    var align := if m.alignment.Some? then Max(m.alignment.value, layoutAlign) else layoutAlign;
    if m.bitWidth.Some? then PlaceBitField(s, m, m.bitWidth.value, sa.0, sa.1, align, o)
    else PlacePlain(s, m, defs, sa.0, align, o)
  }

  function Concat(groups: seq<seq<Member>>): seq<Member> {
    if groups == [] then [] else groups[0] + Concat(groups[1..])
  }

  /** The alignment and size the loop's counters end in. */
  function Finish(s: State, tag: Name, alignment: Option<nat>, o: Options): Result<StructDef> {
    var maxAlign := if alignment.Some? then Max(s.maxAlign, alignment.value) else s.maxAlign;
    var total :- RoundUpTo(if o.isUnion then s.maxSize else s.offset, maxAlign);
    Ok(StructDef(tag, Concat(s.groups), total, maxAlign, o.isUnion))
  }

  /** `StructDef::from_members_ex` */
  function LaidOut(s: State, members: seq<Declaration>, defs: Defs, o: Options): Result<State>
    decreases |members|
  {
    if members == [] then Ok(s)
    else
      var next :- Place(s, members[0], defs, o);
      LaidOut(next, members[1..], defs, o)
  }

  // ----- what a layout must satisfy -----

  function StartBit(m: Member): nat {
    m.offset * 8 + if m.bitWidth.Some? then m.bitOffset else 0
  }

  function EndBit(m: Member): nat {
    m.offset * 8 + if m.bitWidth.Some? then m.bitOffset + m.bitWidth.value else m.size * 8
  }

  /** A storage unit, or a plain member, stands where its own alignment asks for, and the
      aggregate's alignment is a multiple of that. */
  ghost predicate Aligned(m: Member, alignment: nat, defs: Defs) {
    if m.bitWidth.Some? then
      && m.size > 0 && IsPowerOfTwo(m.size) && m.offset % m.size == 0 && m.size <= alignment
      && 0 < m.bitWidth.value && m.bitOffset + m.bitWidth.value <= m.size * 8
    else
      var sa := SizeAlign(m.fullType, defs);
      && sa.Ok? && sa.value.1 > 0 && IsPowerOfTwo(sa.value.1) && m.offset % sa.value.1 == 0 && sa.value.1 <= alignment
  }

  ghost predicate GoodDef(def: StructDef, defs: Defs) {
    && def.alignment > 0 && IsPowerOfTwo(def.alignment) && def.size % def.alignment == 0
    && forall m :: m in def.members ==> Aligned(m, def.alignment, defs) && m.offset + m.size <= def.size
  }

  /** The members that a declaration stands for: itself, the lifted members of an unnamed struct, or
      nothing. */
  ghost predicate DeclaredBy(m: Declaration, defs: Defs, group: seq<Member>) {
    if m.name != "" then
      |group| == 1 && group[0].name == m.name && group[0].bitWidth == m.bitWidth
        && (m.bitWidth.None? ==> group[0].fullType == m.fullType)
    else if m.bitWidth.None? && m.fullType.StructType? && m.fullType.tag in defs then
      exists delta: nat :: group == Shift(defs[m.fullType.tag].members, delta)
    else group == []
  }

  ghost predicate GoodDefs(defs: Defs) {
    forall tag :: tag in defs ==> GoodDef(defs[tag], defs)
  }

  // ----- arithmetic of powers of two -----

  lemma {:induction false} PowersDivide(a: nat, b: nat)
    requires IsPowerOfTwo(a) && IsPowerOfTwo(b) && a <= b
    ensures a > 0 && b % a == 0
    decreases a
  {
    if a > 1 {
      PowersDivide(a / 2, b / 2);
      var k := (b / 2) / (a / 2);
      assert b / 2 == (a / 2) * k;
      assert b == 2 * (b / 2) && a == 2 * (a / 2);
      assert b == a * k;
      MultipleHasNoRemainder(a, k);
    }
  }

  lemma DividesTransitive(x: nat, b: nat, a: nat)
    requires a > 0 && b > 0 && x % b == 0 && b % a == 0
    ensures x % a == 0
  {
    var k, l := x / b, b / a;
    assert x == b * k && b == a * l;
    assert x == a * (l * k) by {
      assert (a * l) * k == a * (l * k);
    }
    MultipleHasNoRemainder(a, l * k);
  }

  lemma DividesSum(x: nat, y: nat, a: nat)
    requires a > 0 && x % a == 0 && y % a == 0
    ensures (x + y) % a == 0
  {
    var k, l := x / a, y / a;
    assert x == a * k && y == a * l;
    assert x + y == a * (k + l);
    MultipleHasNoRemainder(a, k + l);
  }

  /** Two different multiples of `a` are at least `a` apart. */
  lemma MultiplesApart(x: nat, y: nat, a: nat)
    requires a > 0 && x % a == 0 && y % a == 0 && x < y
    ensures x + a <= y
  {
    var k, l := x / a, y / a;
    assert x == a * k && y == a * l;
    assert y - x == a * (l - k);
    Multiple(a, l - k);
  }

  lemma RoundedDown(sum: nat, a: nat)
    requires a > 0
    ensures sum - a < sum - sum % a <= sum && (sum - sum % a) % a == 0
  {
    var q := sum / a;
    assert sum == a * q + sum % a;
    MultipleHasNoRemainder(a, q);
  }

  lemma RoundedUp(value: nat, alignment: nat)
    requires RoundUpTo(value, alignment).Ok?
    ensures var r := RoundUpTo(value, alignment).value;
      alignment > 0 && IsPowerOfTwo(alignment) && value <= r < value + alignment && r % alignment == 0
  {
    hide IsPowerOfTwo;
    RoundedDown(value + alignment - 1, alignment);
  }

  // ----- the loop invariant for structs -----

  /** All bits before this one may be in use. */
  function Used(s: State): nat {
    if s.nextBit > 0 then s.unitOffset * 8 + s.nextBit else s.offset * 8
  }

  /** The counters of an open unit fit together. */
  ghost predicate UnitOk(s: State) {
    && (s.unitSize != 0 ==> s.nextBit > 0)
    && (s.nextBit > 0 ==>
          && s.unitSize > 0 && IsPowerOfTwo(s.unitSize) && s.unitOffset % s.unitSize == 0 && s.unitSize <= s.maxAlign
          && s.offset == s.unitOffset + s.unitSize && s.nextBit <= s.unitSize * 8)
  }

  ghost predicate Separate(groups: seq<seq<Member>>) {
    forall a, b, m, n :: 0 <= a < b < |groups| && m in groups[a] && n in groups[b] ==> EndBit(m) <= StartBit(n)
  }

  ghost predicate Sound(s: State, defs: Defs) {
    && s.maxAlign > 0 && UnitOk(s) && Separate(s.groups)
    && forall a, m :: 0 <= a < |s.groups| && m in s.groups[a] ==> Aligned(m, s.maxAlign, defs) && EndBit(m) <= Used(s)
  }

  lemma AlignedMore(m: Member, a: nat, b: nat, defs: Defs)
    requires Aligned(m, a, defs) && a <= b
    ensures Aligned(m, b, defs)
  {
  }

  /** Adding a group behind everything in use keeps the invariant. */
  lemma AddGroup(s: State, t: State, group: seq<Member>, defs: Defs)
    requires Sound(s, defs) && UnitOk(t) && t.groups == s.groups + [group]
    requires s.maxAlign <= t.maxAlign && Used(s) <= Used(t)
    requires forall m :: m in group ==> Aligned(m, t.maxAlign, defs) && Used(s) <= StartBit(m) && EndBit(m) <= Used(t)
    ensures Sound(t, defs)
  {
    forall a, b, m, n | 0 <= a < b < |t.groups| && m in t.groups[a] && n in t.groups[b]
      ensures EndBit(m) <= StartBit(n)
    {
      assert t.groups[a] == s.groups[a];
      if b < |s.groups| {
        assert t.groups[b] == s.groups[b];
      }
    }
    forall a, m | 0 <= a < |t.groups| && m in t.groups[a]
      ensures Aligned(m, t.maxAlign, defs) && EndBit(m) <= Used(t)
    {
      if a < |s.groups| {
        assert m in s.groups[a];
        AlignedMore(m, s.maxAlign, t.maxAlign, defs);
      } else {
        assert m in group;
      }
    }
  }

  lemma {:induction false} NaturalAlignment(ft: FullType, defs: Defs)
    requires GoodDefs(defs) && SizeAlign(ft, defs).Ok?
    ensures SizeAlign(ft, defs).value.1 > 0 && IsPowerOfTwo(SizeAlign(ft, defs).value.1)
  {
    match ft
    case ArrayType(elem, _) => NaturalAlignment(elem, defs);
    case VectorType(elem, _) => NaturalAlignment(elem, defs);
    case ScalarType(t) => ScalarAlignment(t);
    case StructType(tag) => assert GoodDef(defs[tag], defs);
    case _ => assert IsPowerOfTwo(8);
  }

  lemma ScalarAlignment(t: CType)
    ensures IsPowerOfTwo(Max(Size(t), 1)) && Max(Size(t), 1) <= 16
  {
    assert IsPowerOfTwo(2) && IsPowerOfTwo(4) && IsPowerOfTwo(8) && IsPowerOfTwo(16);
  }

  // ----- each kind of member keeps the invariant -----

  /** The options the guarantees are about: sequential, unpacked, default bit order. */
  predicate Sequential(o: Options) {
    !o.isUnion && !o.packed && !o.reversed
  }

  /** The storage unit of an unpacked bit-field is no larger than its alignment. */
  lemma UnitFacts(m: Declaration, width: nat, defs: Defs, align: nat)
    requires IsBitFieldType(m.fullType) && SizeAlign(m.fullType, defs).Ok?
    requires SizeAlign(m.fullType, defs).value.1 <= align && width <= SizeAlign(m.fullType, defs).value.0 * 8
    ensures var unit := StorageUnit(m, width, SizeAlign(m.fullType, defs).value.0, align, false);
      && unit.0 > 0 && IsPowerOfTwo(unit.0) && unit.0 <= unit.1 && width <= unit.0 * 8
  {
    ScalarAlignment(m.fullType.scalar);
    assert IsPowerOfTwo(4);
  }

  lemma StructBitsSound(s: State, m: Declaration, width: nat, unit: (nat, nat, CType), defs: Defs, o: Options)
    requires Sound(s, defs) && Sequential(o) && width > 0
    requires unit.0 > 0 && IsPowerOfTwo(unit.0) && unit.0 <= unit.1 && width <= unit.0 * 8
    requires PlaceStructBits(s, m, width, unit, o).Ok?
    ensures Sound(PlaceStructBits(s, m, width, unit, o).value, defs)
  {
    var t := PlaceStructBits(s, m, width, unit, o).value;
    if NeedsNewUnit(s, width, unit) {
      RoundedUp(s.offset, unit.1);
      PowersDivide(unit.0, unit.1);
      DividesTransitive(t.unitOffset, unit.1, unit.0);
      hide RoundUpTo, IsPowerOfTwo, Separate;
      AddGroup(s, t, BitMember(m, unit, t.unitOffset, width, 0, false), defs);
    } else {
      hide RoundUpTo, IsPowerOfTwo, Separate;
      AddGroup(s, t, BitMember(m, unit, s.unitOffset, width, s.nextBit, false), defs);
    }
  }

  lemma ZeroWidthSound(s: State, m: Declaration, zeroAlign: nat, align: nat, defs: Defs, o: Options)
    requires Sound(s, defs) && Sequential(o) && PlaceZeroWidth(s, m, zeroAlign, align, o).Ok?
    ensures Sound(PlaceZeroWidth(s, m, zeroAlign, align, o).value, defs)
  {
    RoundedUp(s.offset, zeroAlign);
    hide RoundUpTo, IsPowerOfTwo, Separate;
    AddGroup(s, PlaceZeroWidth(s, m, zeroAlign, align, o).value, [], defs);
  }

  /** A member lifted out of an unnamed struct stays aligned and inside its place. */
  lemma LiftedMember(n: Member, nested: StructDef, defs: Defs, start: nat, align: nat, alignment: nat)
    requires GoodDef(nested, defs) && n in nested.members
    requires align > 0 && start % align == 0 && IsPowerOfTwo(align) && nested.alignment <= align <= alignment
    ensures var r := n.(offset := n.offset + start);
      Aligned(r, alignment, defs) && start * 8 <= StartBit(r) && EndBit(r) <= (start + nested.size) * 8
  {
    var own := if n.bitWidth.Some? then n.size else SizeAlign(n.fullType, defs).value.1;
    assert Aligned(n, nested.alignment, defs);
    assert IsPowerOfTwo(own) && 0 < own <= nested.alignment;
    PowersDivide(own, align);
    DividesTransitive(start, align, own);
    DividesSum(n.offset, start, own);
    hide IsPowerOfTwo;
  }

  /** A plain member with a name. */
  lemma NamedSound(m: Declaration, defs: Defs, start: nat, align: nat, alignment: nat)
    requires SizeAlign(m.fullType, defs).Ok? && SizeAlign(m.fullType, defs).value.1 > 0
    requires IsPowerOfTwo(SizeAlign(m.fullType, defs).value.1)
      && SizeAlign(m.fullType, defs).value.1 <= align <= alignment
    requires start % SizeAlign(m.fullType, defs).value.1 == 0
    ensures var size := SizeAlign(m.fullType, defs).value.0;
      var n := Member(m.name, m.memberType, m.fullType, m.flexible, start, size, None, 0, false);
      Aligned(n, alignment, defs) && start * 8 <= StartBit(n) && EndBit(n) <= (start + size) * 8
  {
    hide IsPowerOfTwo, SizeAlign;
  }

  /** The members of an unnamed struct. */
  lemma LiftedSound(m: Declaration, defs: Defs, start: nat, align: nat, alignment: nat)
    requires GoodDefs(defs) && m.fullType.StructType? && m.fullType.tag in defs
    requires align > 0 && start % align == 0 && IsPowerOfTwo(align)
      && defs[m.fullType.tag].alignment <= align <= alignment
    ensures forall n :: n in Shift(defs[m.fullType.tag].members, start) ==>
      Aligned(n, alignment, defs) && start * 8 <= StartBit(n) && EndBit(n) <= (start + defs[m.fullType.tag].size) * 8
  {
    var nested := defs[m.fullType.tag];
    var group := Shift(nested.members, start);
    hide IsPowerOfTwo, Aligned, GoodDef;
    forall n | n in group
      ensures Aligned(n, alignment, defs) && start * 8 <= StartBit(n) && EndBit(n) <= (start + nested.size) * 8
    {
      var k :| 0 <= k < |group| && group[k] == n;
      LiftedMember(nested.members[k], nested, defs, start, align, alignment);
    }
  }

  lemma PlainGroupSound(m: Declaration, defs: Defs, start: nat, align: nat, alignment: nat)
    requires GoodDefs(defs) && SizeAlign(m.fullType, defs).Ok?
    requires align > 0 && start % align == 0 && IsPowerOfTwo(align)
      && SizeAlign(m.fullType, defs).value.1 <= align <= alignment
    requires PlainGroup(m, defs, start, SizeAlign(m.fullType, defs).value.0).Ok?
    ensures var size := SizeAlign(m.fullType, defs).value.0;
      forall n :: n in PlainGroup(m, defs, start, size).value ==>
        Aligned(n, alignment, defs) && start * 8 <= StartBit(n) && EndBit(n) <= (start + size) * 8
  {
    NaturalAlignment(m.fullType, defs);
    var sa := SizeAlign(m.fullType, defs).value;
    PowersDivide(sa.1, align);
    DividesTransitive(start, align, sa.1);
    hide IsPowerOfTwo, Aligned, GoodDefs, Shift;
    if m.name != "" {
      NamedSound(m, defs, start, align, alignment);
    } else if m.fullType.StructType? && m.fullType.tag in defs {
      LiftedSound(m, defs, start, align, alignment);
    }
  }

  lemma PlainSound(s: State, m: Declaration, defs: Defs, align: nat, o: Options)
    requires Sound(s, defs) && Sequential(o) && GoodDefs(defs) && SizeAlign(m.fullType, defs).Ok?
    requires SizeAlign(m.fullType, defs).value.1 <= align
    requires PlacePlain(s, m, defs, SizeAlign(m.fullType, defs).value.0, align, o).Ok?
    ensures Sound(PlacePlain(s, m, defs, SizeAlign(m.fullType, defs).value.0, align, o).value, defs)
  {
    var size := SizeAlign(m.fullType, defs).value.0;
    var t := PlacePlain(s, m, defs, size, align, o).value;
    var from_ := if s.nextBit > 0 then s.unitOffset + (s.nextBit + 7) / 8 else s.offset;
    RoundedUp(from_, align);
    var start := RoundUpTo(from_, align).value;
    PlainGroupSound(m, defs, start, align, t.maxAlign);
    hide RoundUpTo, IsPowerOfTwo, Separate, PlainGroup, Aligned, SizeAlign;
    AddGroup(s, t, PlainGroup(m, defs, start, size).value, defs);
  }

  /** Every unpacked member keeps the invariant. */
  lemma PlaceSound(s: State, m: Declaration, defs: Defs, o: Options)
    requires Sound(s, defs) && Sequential(o) && GoodDefs(defs) && !m.packed && Place(s, m, defs, o).Ok?
    ensures Sound(Place(s, m, defs, o).value, defs)
  {
    var sa := SizeAlign(m.fullType, defs).value;
    var align := if m.alignment.Some? then Max(m.alignment.value, sa.1) else sa.1;
    if m.bitWidth.None? {
      PlainSound(s, m, defs, align, o);
    } else {
      var width := m.bitWidth.value;
      var unit := StorageUnit(m, width, sa.0, align, false);
      UnitFacts(m, width, defs, align);
      hide Sound, SizeAlign, PlaceStructBits, PlaceZeroWidth, IsPowerOfTwo;
      if width == 0 {
        ZeroWidthSound(s, m, unit.1, align, defs, o);
      } else {
        StructBitsSound(s, m, width, unit, defs, o);
      }
    }
  }

  // ----- the finished layout -----

  lemma {:induction false} ConcatMembers(groups: seq<seq<Member>>, m: Member)
    ensures m in Concat(groups) <==> exists a :: 0 <= a < |groups| && m in groups[a]
  {
    if groups != [] {
      ConcatMembers(groups[1..], m);
      if a :| 0 <= a < |groups| && m in groups[a] {
        if a > 0 {
          assert groups[1..][a - 1] == groups[a];
        }
      }
      if m in Concat(groups[1..]) {
        var a :| 0 <= a < |groups[1..]| && m in groups[1..][a];
        assert m in groups[a + 1];
      }
    }
  }

  /** A storage unit that has bits in use below the end lies inside, once the end is padded. */
  lemma UnitInside(m: Member, end: nat, total: nat, alignment: nat, defs: Defs)
    requires Aligned(m, alignment, defs) && m.bitWidth.Some? && EndBit(m) <= end * 8 && end <= total
    requires alignment > 0 && IsPowerOfTwo(alignment) && total % alignment == 0
    ensures m.offset + m.size <= total
  {
    PowersDivide(m.size, alignment);
    DividesTransitive(total, alignment, m.size);
    MultiplesApart(m.offset, total, m.size);
  }

  lemma FinishGood(s: State, tag: Name, alignment: Option<nat>, defs: Defs, o: Options)
    requires Sound(s, defs) && Sequential(o) && Finish(s, tag, alignment, o).Ok?
    ensures GoodDef(Finish(s, tag, alignment, o).value, defs)
  {
    var def := Finish(s, tag, alignment, o).value;
    RoundedUp(s.offset, def.alignment);
    hide IsPowerOfTwo, RoundUpTo;
    forall m | m in def.members
      ensures Aligned(m, def.alignment, defs) && m.offset + m.size <= def.size
    {
      ConcatMembers(s.groups, m);
      var a :| 0 <= a < |s.groups| && m in s.groups[a];
      AlignedMore(m, s.maxAlign, def.alignment, defs);
      assert EndBit(m) <= s.offset * 8;
      if m.bitWidth.Some? {
        UnitInside(m, s.offset, def.size, def.alignment, defs);
      }
    }
  }

  /** Members of different declarations have no bit in common. */
  ghost predicate Disjoint(groups: seq<seq<Member>>) {
    forall a, b, m, n :: 0 <= a < |groups| && 0 <= b < |groups| && a != b && m in groups[a] && n in groups[b] ==>
      EndBit(m) <= StartBit(n) || EndBit(n) <= StartBit(m)
  }

  // ----- unions -----

  predicate Overlaid(o: Options) {
    o.isUnion && !o.packed
  }

  /** Every member of a union fits the size collected so far. */
  ghost predicate UnionSound(s: State, defs: Defs) {
    && s.maxAlign > 0 && s.nextBit == 0
    && forall a, m :: 0 <= a < |s.groups| && m in s.groups[a] ==>
       Aligned(m, s.maxAlign, defs) && m.offset + m.size <= s.maxSize
  }

  lemma AddUnionGroup(s: State, t: State, group: seq<Member>, defs: Defs)
    requires UnionSound(s, defs) && t.groups == s.groups + [group] && t.nextBit == 0
    requires s.maxAlign <= t.maxAlign && s.maxSize <= t.maxSize
    requires forall m :: m in group ==> Aligned(m, t.maxAlign, defs) && m.offset + m.size <= t.maxSize
    ensures UnionSound(t, defs)
  {
    forall a, m | 0 <= a < |t.groups| && m in t.groups[a]
      ensures Aligned(m, t.maxAlign, defs) && m.offset + m.size <= t.maxSize
    {
      if a < |s.groups| {
        assert m in s.groups[a];
        AlignedMore(m, s.maxAlign, t.maxAlign, defs);
      } else {
        assert m in group;
      }
    }
  }

  lemma UnionGroupSound(m: Declaration, defs: Defs, align: nat, alignment: nat)
    requires GoodDefs(defs) && SizeAlign(m.fullType, defs).Ok?
      && SizeAlign(m.fullType, defs).value.1 <= align <= alignment
    requires PlainGroup(m, defs, 0, SizeAlign(m.fullType, defs).value.0).Ok?
    ensures var size := SizeAlign(m.fullType, defs).value.0;
      forall n :: n in PlainGroup(m, defs, 0, size).value ==> Aligned(n, alignment, defs) && n.offset + n.size <= size
  {
    NaturalAlignment(m.fullType, defs);
    var sa := SizeAlign(m.fullType, defs).value;
    var group := PlainGroup(m, defs, 0, sa.0).value;
    if m.name == "" && m.fullType.StructType? && m.fullType.tag in defs {
      var nested := defs[m.fullType.tag];
      assert GoodDef(nested, defs);
      forall n | n in group
        ensures Aligned(n, alignment, defs) && n.offset + n.size <= sa.0
      {
        var k :| 0 <= k < |group| && group[k] == n;
        assert n == nested.members[k];
        AlignedMore(n, nested.alignment, alignment, defs);
      }
    }
  }

  lemma PlaceUnionPlain(s: State, m: Declaration, defs: Defs, o: Options)
    requires UnionSound(s, defs) && Overlaid(o) && GoodDefs(defs) && !m.packed && Place(s, m, defs, o).Ok?
    requires m.bitWidth.None?
    ensures UnionSound(Place(s, m, defs, o).value, defs)
  {
    hide Aligned, SizeAlign, PlainGroup, IsPowerOfTwo, UnionSound, PlaceBitField, GoodDefs;
    var sa := SizeAlign(m.fullType, defs).value;
    var align := if m.alignment.Some? then Max(m.alignment.value, sa.1) else sa.1;
    var t := Place(s, m, defs, o).value;
    UnionGroupSound(m, defs, align, t.maxAlign);
    AddUnionGroup(s, t, PlainGroup(m, defs, 0, sa.0).value, defs);
  }

  lemma PlaceUnionSound(s: State, m: Declaration, defs: Defs, o: Options)
    requires UnionSound(s, defs) && Overlaid(o) && GoodDefs(defs) && !m.packed && Place(s, m, defs, o).Ok?
    ensures UnionSound(Place(s, m, defs, o).value, defs)
  {
    if m.bitWidth.None? {
      PlaceUnionPlain(s, m, defs, o);
    } else {
      hide SizeAlign, IsPowerOfTwo, PlainGroup;
      var sa := SizeAlign(m.fullType, defs).value;
      var align := if m.alignment.Some? then Max(m.alignment.value, sa.1) else sa.1;
      var t := Place(s, m, defs, o).value;
      UnitFacts(m, m.bitWidth.value, defs, align);
      AddUnionGroup(s, t, t.groups[|s.groups|], defs);
    }
  }

  lemma FinishUnion(s: State, tag: Name, alignment: Option<nat>, defs: Defs, o: Options)
    requires UnionSound(s, defs) && Overlaid(o) && Finish(s, tag, alignment, o).Ok?
    ensures GoodDef(Finish(s, tag, alignment, o).value, defs)
  {
    var def := Finish(s, tag, alignment, o).value;
    RoundedUp(s.maxSize, def.alignment);
    hide IsPowerOfTwo, RoundUpTo, Aligned;
    forall m | m in def.members
      ensures Aligned(m, def.alignment, defs) && m.offset + m.size <= def.size
    {
      ConcatMembers(s.groups, m);
      var a :| 0 <= a < |s.groups| && m in s.groups[a];
      AlignedMore(m, s.maxAlign, def.alignment, defs);
    }
  }

  /** The invariant of the loop, for either kind of aggregate. */
  ghost predicate Healthy(s: State, defs: Defs, o: Options) {
    (Sequential(o) ==> Sound(s, defs)) && (Overlaid(o) ==> UnionSound(s, defs))
  }

  lemma HealthyStep(s: State, m: Declaration, defs: Defs, o: Options)
    requires Healthy(s, defs, o) && GoodDefs(defs) && !m.packed && Place(s, m, defs, o).Ok?
    ensures Healthy(Place(s, m, defs, o).value, defs, o)
  {
    hide Sound, UnionSound, Place;
    if Sequential(o) {
      PlaceSound(s, m, defs, o);
    }
    if Overlaid(o) {
      PlaceUnionSound(s, m, defs, o);
    }
  }

  lemma HealthyEnd(s: State, tag: Name, alignment: Option<nat>, defs: Defs, o: Options)
    requires Healthy(s, defs, o) && Finish(s, tag, alignment, o).Ok?
    ensures Sequential(o) || Overlaid(o) ==> GoodDef(Finish(s, tag, alignment, o).value, defs)
    ensures Sequential(o) ==> Disjoint(s.groups)
  {
    if Sequential(o) {
      FinishGood(s, tag, alignment, defs, o);
      SoundDisjoint(s, defs);
    }
    if Overlaid(o) {
      FinishUnion(s, tag, alignment, defs, o);
    }
  }

  /** A size that is known stays when a new definition is added. */
  lemma {:induction false} SizeStays(ft: FullType, defs: Defs, tag: Name, def: StructDef)
    requires tag !in defs && SizeAlign(ft, defs).Ok?
    ensures SizeAlign(ft, defs[tag := def]) == SizeAlign(ft, defs)
  {
    match ft
    case ArrayType(elem, _) => SizeStays(elem, defs, tag, def);
    case VectorType(elem, _) => SizeStays(elem, defs, tag, def);
    case _ =>
  }

  lemma GoodDefStays(known: StructDef, defs: Defs, tag: Name, def: StructDef)
    requires tag !in defs && GoodDef(known, defs)
    ensures GoodDef(known, defs[tag := def])
  {
    hide SizeAlign, IsPowerOfTwo;
    forall m | m in known.members
      ensures Aligned(m, known.alignment, defs[tag := def])
    {
      assert Aligned(m, known.alignment, defs);
      if m.bitWidth.None? {
        SizeStays(m.fullType, defs, tag, def);
      }
    }
  }

  /** A good definition under a new tag may be nested in further ones. */
  lemma GoodDefsMore(defs: Defs, tag: Name, def: StructDef)
    requires GoodDefs(defs) && tag !in defs && GoodDef(def, defs)
    ensures GoodDefs(defs[tag := def])
  {
    hide GoodDef;
    GoodDefStays(def, defs, tag, def);
    forall other | other in defs
      ensures GoodDef(defs[other], defs[tag := def])
    {
      GoodDefStays(defs[other], defs, tag, def);
    }
  }

  // ----- where each declaration stands, told from the one before it -----

  /** The room a declaration takes: whole bytes, or the bits `first` to `past` of a storage unit. */
  datatype Slot =
    | Bytes(start: nat, size: nat, align: nat)
    | Bits(start: nat, size: nat, align: nat, first: nat, past: nat)

  const NOWHERE := Bytes(0, 0, 1)

  /** A storage unit begins behind the whole unit before it. */
  function PastUnit(slot: Slot): nat {
    slot.start + slot.size
  }

  /** A plain member begins behind the last byte in use of the unit before it. */
  function PastByte(slot: Slot): nat {
    if slot.Bits? then slot.start + (slot.past + 7) / 8 else slot.start + slot.size
  }

  /** `x` is the least multiple of `a` that is not below `bound`. */
  predicate LeastMultiple(x: nat, a: nat, bound: nat) {
    a > 0 && x % a == 0 && bound <= x < bound + a
  }

  predicate IsPacked(m: Declaration, o: Options) {
    o.packed || m.packed
  }

  /** An unpacked bit-field of at most 32 bits is kept in a word, even if its type is larger. */
  predicate InWord(m: Declaration, size: nat, o: Options) {
    !IsPacked(m, o) && size > 4 && m.bitWidth.Some? && m.bitWidth.value <= 32
  }

  predicate OfInteger(ft: FullType) {
    ft.ScalarType? &&
    ft.scalar in {Char, SChar, UChar, Bool, Short, UShort, Int, UInt, Long, ULong, Int128, UInt128}
  }

  /** The alignment a declaration asks for: that of its type, or 1 if packed, or more if it says so. */
  predicate AsksFor(m: Declaration, align: nat, natural: nat, o: Options) {
    var least := if IsPacked(m, o) then 1 else natural;
    && least <= align && (align == least || m.alignment == Some(align))
    && (m.alignment.Some? ==> m.alignment.value <= align)
  }

  /** The room fits a declaration whose type has this size and natural alignment. */
  predicate Shaped(m: Declaration, slot: Slot, size: nat, natural: nat, o: Options) {
    match m.bitWidth
    case None => slot.Bytes? && slot.size == size && AsksFor(m, slot.align, natural, o)
    case Some(width) =>
      && OfInteger(m.fullType) && width <= size * 8
      && if width == 0 then slot.Bytes? && slot.size == 0 && m.name == "" && AsksFor(m, slot.align, natural, o)
         else
           && slot.Bits? && slot.past == slot.first + width && slot.past <= slot.size * 8
           && if IsPacked(m, o) then slot.size == size && slot.align == 1
              else if InWord(m, size, o) then slot.size == 4 && slot.align == 4
              else slot.size == size && AsksFor(m, slot.align, natural, o)
  }

  /** In a struct a bit-field goes on where the one before it ended, if both have units of one kind
      and there is room for it; else it opens a new unit. A plain member takes back unused bytes. */
  predicate Follows(prev: Slot, slot: Slot, m: Declaration, size: nat, natural: nat, o: Options) {
    match m.bitWidth
    case None => LeastMultiple(slot.start, slot.align, PastByte(prev))
    case Some(width) =>
      if width == 0 then
        var a := if IsPacked(m, o) then natural else if InWord(m, size, o) then 4 else slot.align;
        LeastMultiple(slot.start, a, PastUnit(prev))
      else
        && slot.Bits?
        && if prev.Bits? && prev.size == slot.size && prev.align == slot.align && prev.past + width <= slot.size * 8
           then slot.start == prev.start && slot.first == prev.past
           else slot.first == 0 && LeastMultiple(slot.start, slot.align, PastUnit(prev))
  }

  /** In a union every declaration stands at the start. */
  predicate Overlies(slot: Slot) {
    slot.start == 0 && (slot.Bits? ==> slot.first == 0)
  }

  predicate Stands(prev: Slot, slot: Slot, m: Declaration, defs: Defs, o: Options) {
    SizeAlign(m.fullType, defs).Ok? &&
    var sa := SizeAlign(m.fullType, defs).value;
    && Shaped(m, slot, sa.0, sa.1, o)
    && if o.isUnion then Overlies(slot) else Follows(prev, slot, m, sa.0, sa.1, o)
  }

  /** The type of a bit-field's storage unit. */
  function WordType(m: Declaration, defs: Defs, o: Options): CType {
    var sa := SizeAlign(m.fullType, defs);
    if sa.Ok? && InWord(m, sa.value.0, o) then if IsSigned(m.memberType) then Int else UInt
    else m.memberType
  }

  /** The members a declaration gives lie in its room. */
  ghost predicate Fills(m: Declaration, slot: Slot, group: seq<Member>, defs: Defs, o: Options) {
    if m.name != "" then
      && |group| == 1 && group[0].offset == slot.start && group[0].size == slot.size
      && group[0].flexible == m.flexible && group[0].fullType == m.fullType && group[0].bitWidth == m.bitWidth
      && (slot.Bytes? ==> group[0].memberType == m.memberType)
      && (slot.Bits? ==>
            && group[0].reversed == o.reversed
            && group[0].memberType == WordType(m, defs, o)
            && group[0].bitOffset == if o.reversed && !o.isUnion then slot.size * 8 - slot.past else slot.first)
    else if m.bitWidth.None? && m.fullType.StructType? && m.fullType.tag in defs then
      var nested := defs[m.fullType.tag].members;
      && |group| == |nested|
      && forall j :: 0 <= j < |group| ==> group[j] == nested[j].(offset := nested[j].offset + slot.start)
    else group == []
  }

  /** What a union has to hold of a declaration. */
  function Extent(m: Declaration, slot: Slot, o: Options): nat {
    if slot.Bits? && IsPacked(m, o) then (slot.past + 7) / 8 else slot.size
  }

  function Before(slots: seq<Slot>, k: nat): Slot
    requires k <= |slots|
  {
    if k == 0 then NOWHERE else slots[k - 1]
  }

  ghost predicate AllStand(members: seq<Declaration>, slots: seq<Slot>, groups: seq<seq<Member>>, defs: Defs,
        o: Options) {
    && |slots| == |members| == |groups|
    && forall k {:trigger slots[k]} :: 0 <= k < |slots| ==>
       Stands(Before(slots, k), slots[k], members[k], defs, o) && Fills(members[k], slots[k], groups[k], defs, o)
  }

  /** The greatest alignment asked for, by a declaration or for the whole. */
  ghost predicate GreatestAlign(align: nat, slots: seq<Slot>, alignment: Option<nat>) {
    && 1 <= align && (forall slot :: slot in slots ==> slot.align <= align)
    && (alignment.Some? ==> alignment.value <= align)
    && (align == 1 || alignment == Some(align) || exists slot :: slot in slots && slot.align == align)
  }

  /** The end of everything laid out. */
  ghost predicate LeastEnd(end: nat, members: seq<Declaration>, slots: seq<Slot>, o: Options)
    requires |slots| == |members|
  {
    if o.isUnion then
      && (forall k :: 0 <= k < |slots| ==> Extent(members[k], slots[k], o) <= end)
      && (end == 0 || exists k :: 0 <= k < |slots| && Extent(members[k], slots[k], o) == end)
    else end == PastUnit(Before(slots, |slots|))
  }

  ghost predicate SizeHolds(size: nat, align: nat, members: seq<Declaration>, slots: seq<Slot>, o: Options)
    requires |slots| == |members|
  {
    exists end: nat :: LeastEnd(end, members, slots, o) && LeastMultiple(size, align, end)
  }

  /** The counters after a declaration that took this room. */
  predicate Tracks(s: State, last: Slot, o: Options) {
    if o.isUnion then s.nextBit == 0
    else
      && s.offset == PastUnit(last)
      && (last.Bytes? ==> s.nextBit == 0 && s.unitSize == 0)
      && (last.Bits? ==> s.nextBit == last.past > 0 && s.unitOffset == last.start && s.unitSize == last.size > 0
                         && s.unitAlign == last.align)
  }

  /** One round: a new room and its members, and what they add to the alignment and the size. */
  ghost predicate Extends(s: State, t: State, slot: Slot, m: Declaration, defs: Defs, o: Options) {
    && |t.groups| == |s.groups| + 1 && Fills(m, slot, t.groups[|s.groups|], defs, o) && Tracks(t, slot, o)
    && t.groups[..|s.groups|] == s.groups
    && t.maxAlign == Max(s.maxAlign, slot.align)
    && (o.isUnion ==> t.maxSize == Max(s.maxSize, Extent(m, slot, o)))
  }

  lemma PlainStands(s: State, prev: Slot, m: Declaration, defs: Defs, align: nat, o: Options) returns (slot: Slot)
    requires Tracks(s, prev, o) && m.bitWidth.None? && SizeAlign(m.fullType, defs).Ok?
    requires AsksFor(m, align, SizeAlign(m.fullType, defs).value.1, o)
    requires PlacePlain(s, m, defs, SizeAlign(m.fullType, defs).value.0, align, o).Ok?
    ensures Stands(prev, slot, m, defs, o)
    ensures Extends(s, PlacePlain(s, m, defs, SizeAlign(m.fullType, defs).value.0, align, o).value, slot, m, defs, o)
  {
    hide IsPowerOfTwo, SizeAlign, AsksFor, RoundUpTo, Fills, PlainGroup, Shift;
    var size := SizeAlign(m.fullType, defs).value.0;
    if o.isUnion {
      slot := Bytes(0, size, align);
    } else {
      RoundedUp(PastByte(prev), align);
      slot := Bytes(RoundUpTo(PastByte(prev), align).value, size, align);
    }
    PlainFills(m, slot, defs, o);
  }

  lemma PlainFills(m: Declaration, slot: Slot, defs: Defs, o: Options)
    requires slot.Bytes? && m.bitWidth.None? && PlainGroup(m, defs, slot.start, slot.size).Ok?
    ensures Fills(m, slot, PlainGroup(m, defs, slot.start, slot.size).value, defs, o)
  {
  }

  lemma ZeroStands(s: State, prev: Slot, m: Declaration, defs: Defs, align: nat, o: Options) returns (slot: Slot)
    requires Tracks(s, prev, o) && m.bitWidth == Some(0) && SizeAlign(m.fullType, defs).Ok?
    requires IsBitFieldType(m.fullType) && AsksFor(m, align, SizeAlign(m.fullType, defs).value.1, o)
    requires var sa := SizeAlign(m.fullType, defs).value;
      var unit := StorageUnit(m, 0, sa.0, align, IsPacked(m, o));
      PlaceZeroWidth(s, m, if IsPacked(m, o) then sa.1 else unit.1, align, o).Ok?
    ensures Stands(prev, slot, m, defs, o)
    ensures var sa := SizeAlign(m.fullType, defs).value;
      var unit := StorageUnit(m, 0, sa.0, align, IsPacked(m, o));
      Extends(s, PlaceZeroWidth(s, m, if IsPacked(m, o) then sa.1 else unit.1, align, o).value, slot, m, defs, o)
  {
    hide IsPowerOfTwo, AsksFor, RoundUpTo, SizeAlign;
    var sa := SizeAlign(m.fullType, defs).value;
    var a := if IsPacked(m, o) then sa.1 else StorageUnit(m, 0, sa.0, align, IsPacked(m, o)).1;
    if o.isUnion {
      slot := Bytes(0, 0, align);
    } else {
      RoundedUp(s.offset, a);
      slot := Bytes(RoundUpTo(s.offset, a).value, 0, align);
    }
  }

  lemma UnionBitsStand(s: State, prev: Slot, m: Declaration, defs: Defs, width: nat, align: nat, o: Options)
    returns (slot: Slot)
    requires Tracks(s, prev, o) && m.bitWidth == Some(width) && width > 0 && SizeAlign(m.fullType, defs).Ok?
    requires o.isUnion && IsBitFieldType(m.fullType) && width <= SizeAlign(m.fullType, defs).value.0 * 8
    requires AsksFor(m, align, SizeAlign(m.fullType, defs).value.1, o)
    ensures Stands(prev, slot, m, defs, o)
    ensures var unit := StorageUnit(m, width, SizeAlign(m.fullType, defs).value.0, align, IsPacked(m, o));
      Extends(s, PlaceUnionBits(s, m, width, unit, IsPacked(m, o), o), slot, m, defs, o)
  {
    hide IsPowerOfTwo, AsksFor, SizeAlign;
    var unit := StorageUnit(m, width, SizeAlign(m.fullType, defs).value.0, align, IsPacked(m, o));
    slot := Bits(0, unit.0, unit.1, 0, width);
  }

  lemma NewUnitStands(s: State, prev: Slot, m: Declaration, defs: Defs, width: nat, align: nat, o: Options)
    returns (slot: Slot)
    requires Tracks(s, prev, o) && m.bitWidth == Some(width) && width > 0 && SizeAlign(m.fullType, defs).Ok?
    requires !o.isUnion && IsBitFieldType(m.fullType) && width <= SizeAlign(m.fullType, defs).value.0 * 8
    requires AsksFor(m, align, SizeAlign(m.fullType, defs).value.1, o)
    requires var unit := StorageUnit(m, width, SizeAlign(m.fullType, defs).value.0, align, IsPacked(m, o));
      PlaceStructBits(s, m, width, unit, o).Ok? && NeedsNewUnit(s, width, unit)
    ensures Stands(prev, slot, m, defs, o)
    ensures var unit := StorageUnit(m, width, SizeAlign(m.fullType, defs).value.0, align, IsPacked(m, o));
      Extends(s, PlaceStructBits(s, m, width, unit, o).value, slot, m, defs, o)
  {
    hide IsPowerOfTwo, AsksFor, RoundUpTo, SizeAlign;
    var unit := StorageUnit(m, width, SizeAlign(m.fullType, defs).value.0, align, IsPacked(m, o));
    RoundedUp(s.offset, unit.1);
    slot := Bits(RoundUpTo(s.offset, unit.1).value, unit.0, unit.1, 0, width);
  }

  lemma OpenUnitStands(s: State, prev: Slot, m: Declaration, defs: Defs, width: nat, align: nat, o: Options)
    returns (slot: Slot)
    requires Tracks(s, prev, o) && m.bitWidth == Some(width) && width > 0 && SizeAlign(m.fullType, defs).Ok?
    requires !o.isUnion && IsBitFieldType(m.fullType) && width <= SizeAlign(m.fullType, defs).value.0 * 8
    requires AsksFor(m, align, SizeAlign(m.fullType, defs).value.1, o)
    requires var unit := StorageUnit(m, width, SizeAlign(m.fullType, defs).value.0, align, IsPacked(m, o));
      PlaceStructBits(s, m, width, unit, o).Ok? && !NeedsNewUnit(s, width, unit)
    ensures Stands(prev, slot, m, defs, o)
    ensures var unit := StorageUnit(m, width, SizeAlign(m.fullType, defs).value.0, align, IsPacked(m, o));
      Extends(s, PlaceStructBits(s, m, width, unit, o).value, slot, m, defs, o)
  {
    hide IsPowerOfTwo, AsksFor, RoundUpTo, SizeAlign;
    var unit := StorageUnit(m, width, SizeAlign(m.fullType, defs).value.0, align, IsPacked(m, o));
    slot := Bits(s.unitOffset, unit.0, unit.1, s.nextBit, s.nextBit + width);
  }

  lemma BitsStand(s: State, prev: Slot, m: Declaration, defs: Defs, align: nat, o: Options) returns (slot: Slot)
    requires Tracks(s, prev, o) && m.bitWidth.Some? && SizeAlign(m.fullType, defs).Ok?
    requires AsksFor(m, align, SizeAlign(m.fullType, defs).value.1, o)
    requires var sa := SizeAlign(m.fullType, defs).value;
      PlaceBitField(s, m, m.bitWidth.value, sa.0, sa.1, align, o).Ok?
    ensures Stands(prev, slot, m, defs, o)
    ensures var sa := SizeAlign(m.fullType, defs).value;
      Extends(s, PlaceBitField(s, m, m.bitWidth.value, sa.0, sa.1, align, o).value, slot, m, defs, o)
  {
    hide AsksFor, SizeAlign, IsBitFieldType, Stands, Extends, Tracks, StorageUnit, NeedsNewUnit;
    hide PlaceZeroWidth, PlaceUnionBits, PlaceStructBits;
    var width := m.bitWidth.value;
    if width == 0 {
      slot := ZeroStands(s, prev, m, defs, align, o);
    } else if o.isUnion {
      slot := UnionBitsStand(s, prev, m, defs, width, align, o);
    } else if NeedsNewUnit(s, width,
                           StorageUnit(m, width, SizeAlign(m.fullType, defs).value.0, align, IsPacked(m, o)))
    {
      slot := NewUnitStands(s, prev, m, defs, width, align, o);
    } else {
      slot := OpenUnitStands(s, prev, m, defs, width, align, o);
    }
  }

  lemma RoundStands(s: State, prev: Slot, m: Declaration, defs: Defs, o: Options) returns (slot: Slot)
    requires Tracks(s, prev, o) && Place(s, m, defs, o).Ok?
    ensures Stands(prev, slot, m, defs, o) && Extends(s, Place(s, m, defs, o).value, slot, m, defs, o)
  {
    hide PlacePlain, PlaceBitField, Extends, Stands, SizeAlign;
    var sa := SizeAlign(m.fullType, defs).value;
    var least := if IsPacked(m, o) then 1 else sa.1;
    var align := if m.alignment.Some? then Max(m.alignment.value, least) else least;
    if m.bitWidth.Some? {
      slot := BitsStand(s, prev, m, defs, align, o);
    } else {
      slot := PlainStands(s, prev, m, defs, align, o);
    }
  }

  /** What the loop's counters and groups record of the rooms taken so far. */
  ghost predicate Records(s: State, members: seq<Declaration>, slots: seq<Slot>, defs: Defs, o: Options) {
    && AllStand(members, slots, s.groups, defs, o) && GreatestAlign(s.maxAlign, slots, None)
    && Tracks(s, Before(slots, |slots|), o) && (o.isUnion ==> LeastEnd(s.maxSize, members, slots, o))
  }

  lemma StandsMore(members: seq<Declaration>, slots: seq<Slot>, groups: seq<seq<Member>>, m: Declaration, slot: Slot,
        group: seq<Member>, defs: Defs, o: Options)
    requires AllStand(members, slots, groups, defs, o)
    requires Stands(Before(slots, |slots|), slot, m, defs, o) && Fills(m, slot, group, defs, o)
    ensures AllStand(members + [m], slots + [slot], groups + [group], defs, o)
  {
    hide Stands, Fills;
    var slots' := slots + [slot];
    forall k {:trigger slots'[k]} | 0 <= k < |slots'|
      ensures Stands(Before(slots', k), slots'[k], (members + [m])[k], defs, o)
      ensures Fills((members + [m])[k], slots'[k], (groups + [group])[k], defs, o)
    {
      assert Before(slots', k) == Before(slots, k);
      assert k < |slots| ==> slots'[k] == slots[k];
    }
  }

  lemma EndsMore(end: nat, members: seq<Declaration>, slots: seq<Slot>, m: Declaration, slot: Slot, o: Options)
    requires o.isUnion && |slots| == |members| && LeastEnd(end, members, slots, o)
    ensures LeastEnd(Max(end, Extent(m, slot, o)), members + [m], slots + [slot], o)
  {
    hide Extent;
    var slots', members' := slots + [slot], members + [m];
    assert slots'[|slots|] == slot && members'[|slots|] == m;
    assert forall k :: 0 <= k < |slots| ==> slots'[k] == slots[k] && members'[k] == members[k];
  }

  lemma AlignsMore(align: nat, slots: seq<Slot>, slot: Slot)
    requires GreatestAlign(align, slots, None)
    ensures GreatestAlign(Max(align, slot.align), slots + [slot], None)
  {
    assert (slots + [slot])[|slots|] == slot;
    assert forall other :: other in slots ==> other in slots + [slot];
  }

  lemma RecordsMore(s: State, t: State, members: seq<Declaration>, slots: seq<Slot>, m: Declaration, slot: Slot,
        defs: Defs, o: Options)
    requires Records(s, members, slots, defs, o) && Extends(s, t, slot, m, defs, o)
    requires Stands(Before(slots, |slots|), slot, m, defs, o)
    ensures Records(t, members + [m], slots + [slot], defs, o)
  {
    hide Stands, Fills, Tracks, LeastEnd, GreatestAlign, AllStand, Extent;
    assert t.groups == s.groups + [t.groups[|s.groups|]];
    AlignsMore(s.maxAlign, slots, slot);
    if o.isUnion {
      assert |slots| == |members| by {
        assert AllStand(members, slots, s.groups, defs, o);
        SameLength(members, slots, s.groups, defs, o);
      }
      EndsMore(s.maxSize, members, slots, m, slot, o);
    }
    StandsMore(members, slots, s.groups, m, slot, t.groups[|s.groups|], defs, o);
  }

  lemma SameLength(members: seq<Declaration>, slots: seq<Slot>, groups: seq<seq<Member>>, defs: Defs, o: Options)
    requires AllStand(members, slots, groups, defs, o)
    ensures |slots| == |members| == |groups|
  {
  }

  /** The alignment and size of the whole, told from the rooms. */
  lemma WholeHolds(s: State, members: seq<Declaration>, slots: seq<Slot>, tag: Name, alignment: Option<nat>,
        defs: Defs, o: Options)
    requires Records(s, members, slots, defs, o) && |slots| == |members| && Finish(s, tag, alignment, o).Ok?
    ensures var def := Finish(s, tag, alignment, o).value;
      GreatestAlign(def.alignment, slots, alignment) && SizeHolds(def.size, def.alignment, members, slots, o)
  {
    hide Stands, Fills, Extent, IsPowerOfTwo, AllStand;
    var def := Finish(s, tag, alignment, o).value;
    var end := if o.isUnion then s.maxSize else s.offset;
    RoundedUp(end, def.alignment);
    hide RoundUpTo;
    assert LeastEnd(end, members, slots, o);
  }

  /** The member of a named declaration shows the room it takes. */
  lemma RoomShown(prev: Slot, slot: Slot, m: Declaration, n: Member, defs: Defs, o: Options)
    requires Stands(prev, slot, m, defs, o) && Fills(m, slot, [n], defs, o) && m.name != ""
    requires !o.isUnion && !o.reversed
    ensures n.offset == slot.start && n.size == slot.size && n.bitWidth == m.bitWidth
    ensures n.bitWidth.None? ==> slot.Bytes?
    ensures n.bitWidth.Some? ==>
      && slot.Bits? && n.bitOffset == slot.first && slot.past == slot.first + n.bitWidth.value
      && n.bitWidth.value > 0
  {
    hide SizeAlign, OfInteger, AsksFor, IsPacked, InWord, Follows;
  }

  /** Told from the members of two neighbouring named declarations of a struct: bits are packed
      while the unit has room, a plain member starts as early as its alignment allows. */
  lemma NeighboursPack(members: seq<Declaration>, slots: seq<Slot>, groups: seq<seq<Member>>, defs: Defs, o: Options,
        k: nat, a: Member, b: Member)
    requires AllStand(members, slots, groups, defs, o) && !o.isUnion && !o.reversed && k + 1 < |members|
    requires groups[k] == [a] && groups[k + 1] == [b] && members[k].name != "" && members[k + 1].name != ""
    ensures a.bitWidth.Some? && b.bitWidth.Some? ==>
      if a.size == b.size && slots[k].align == slots[k + 1].align
        && EndBit(a) + b.bitWidth.value <= (a.offset + a.size) * 8
      then b.offset == a.offset && StartBit(b) == EndBit(a)
      else b.bitOffset == 0 && LeastMultiple(b.offset, slots[k + 1].align, a.offset + a.size)
    ensures members[k + 1].bitWidth.None? ==> LeastMultiple(b.offset, slots[k + 1].align, (EndBit(a) + 7) / 8)
  {
    hide SizeAlign, OfInteger, AsksFor, IsPacked, InWord, Stands, Fills;
    RoomShown(Before(slots, k), slots[k], members[k], a, defs, o);
    RoomShown(Before(slots, k + 1), slots[k + 1], members[k + 1], b, defs, o);
    StandsFollows(slots[k], slots[k + 1], members[k + 1], defs, o);
  }

  lemma StandsFollows(prev: Slot, slot: Slot, m: Declaration, defs: Defs, o: Options)
    requires Stands(prev, slot, m, defs, o) && !o.isUnion
    ensures Follows(prev, slot, m, SizeAlign(m.fullType, defs).value.0, SizeAlign(m.fullType, defs).value.1, o)
  {
  }

  /** The room of each type as the platform lays it down. */
  lemma NaturalRoom(ft: FullType, defs: Defs)
    ensures ft.ScalarType? && ft.scalar in {Char, SChar, UChar, Bool} ==> SizeAlign(ft, defs) == Ok((1, 1))
    ensures ft.ScalarType? && ft.scalar in {Short, UShort} ==> SizeAlign(ft, defs) == Ok((2, 2))
    ensures ft.ScalarType? && ft.scalar in {Int, UInt, Float} ==> SizeAlign(ft, defs) == Ok((4, 4))
    ensures ft.ScalarType? && ft.scalar in {Long, ULong, Double, Pointer} ==> SizeAlign(ft, defs) == Ok((8, 8))
    ensures ft.ScalarType? && ft.scalar in {Int128, UInt128, LongDouble} ==> SizeAlign(ft, defs) == Ok((16, 16))
    ensures ft.PointerType? || ft.FunctionType? ==> SizeAlign(ft, defs) == Ok((8, 8))
    ensures ft.StructType? && ft.tag in defs ==>
      SizeAlign(ft, defs) == Ok((defs[ft.tag].size, defs[ft.tag].alignment))
    ensures ft.ArrayType? && ft.count != 0xFFFF_FFFF_FFFF_FFFE && SizeAlign(ft, defs).Ok? ==>
      && SizeAlign(ft.elem, defs).Ok?
      && SizeAlign(ft, defs).value.0 == SizeAlign(ft.elem, defs).value.0 * ft.count
      && SizeAlign(ft, defs).value.1 == SizeAlign(ft.elem, defs).value.1
  {
  }

  /** A bit-field that no layout accepts. */
  predicate Faulty(m: Declaration, error: LayoutError, defs: Defs) {
    && m.bitWidth.Some? && SizeAlign(m.fullType, defs).Ok?
    && match error
       case NotInteger => !OfInteger(m.fullType)
       case WiderThanStorage => OfInteger(m.fullType) && m.bitWidth.value > SizeAlign(m.fullType, defs).value.0 * 8
       case NamedZeroWidth => m.bitWidth.value == 0 && m.name != ""
       case _ => false
  }

  predicate OfBitFields(error: LayoutError) {
    error.NotInteger? || error.WiderThanStorage? || error.NamedZeroWidth?
  }

  lemma {:induction false} SizeErrors(ft: FullType, defs: Defs)
    ensures SizeAlign(ft, defs).Err? ==> !OfBitFields(SizeAlign(ft, defs).error)
  {
    match ft
    case ArrayType(elem, _) => SizeErrors(elem, defs);
    case VectorType(elem, _) => SizeErrors(elem, defs);
    case _ =>
  }

  lemma RoundFaulty(s: State, m: Declaration, defs: Defs, o: Options)
    requires Place(s, m, defs, o).Err? && OfBitFields(Place(s, m, defs, o).error)
    ensures Faulty(m, Place(s, m, defs, o).error, defs)
  {
    hide IsPowerOfTwo, SizeAlign, StorageUnit, Shift;
    SizeErrors(m.fullType, defs);
  }

  /** The loop of `from_members_ex`. On success, an unpacked struct in default bit order, or an
      unpacked union, is laid out well again, so it may be nested in further ones; and no two
      declarations of a struct share a bit, group by group of what each declares. Whatever the
      options, every declaration stands where the one before it leaves room, told by the rooms
      they take, and the aggregate is as aligned and as large as these ask for. */
  method FromMembersEx(tag: Name, members: seq<Declaration>, defs: Defs, alignment: Option<nat>, o: Options)
    returns (r: Result<StructDef>, groups: seq<seq<Member>>, ghost slots: seq<Slot>)
    requires GoodDefs(defs)
    ensures r == (var s := LaidOut(START, members, defs, o); if s.Err? then Err(s.error)
      else Finish(s.value, tag, alignment, o))
    ensures r.Ok? ==> groups == LaidOut(START, members, defs, o).value.groups && r.value.members == Concat(groups)
    ensures r.Ok? ==> AllStand(members, slots, groups, defs, o)
    ensures r.Ok? ==> GreatestAlign(r.value.alignment, slots, alignment)
    ensures r.Ok? ==> |slots| == |members| && SizeHolds(r.value.size, r.value.alignment, members, slots, o)
    ensures r.Err? && OfBitFields(r.error) ==> exists m :: m in members && Faulty(m, r.error, defs)
    ensures r.Ok? ==> |groups| == |members| && forall k ::
      0 <= k < |members| ==> DeclaredBy(members[k], defs, groups[k])
    ensures r.Ok? && (Sequential(o) || Overlaid(o)) && (forall m :: m in members ==> !m.packed) ==>
      GoodDef(r.value, defs)
    ensures r.Ok? && (Sequential(o) || Overlaid(o)) && (forall m :: m in members ==> !m.packed) && tag !in defs ==>
      GoodDefs(defs[tag := r.value])
    ensures r.Ok? && Sequential(o) && (forall m :: m in members ==> !m.packed) ==> Disjoint(groups)
  {
    var s := START;
    ghost var plain := forall m :: m in members ==> !m.packed;
    StartSound(defs, o);
    StartRecords(defs, o);
    hide Place, Healthy, Finish, SizeAlign, GoodDef, Disjoint, DeclaredBy;
    hide AllStand, GreatestAlign, SizeHolds, Faulty, Stands, Fills, Extends, Tracks, Records, Before;
    groups, slots := [], [];
    for k := 0 to |members|
      invariant |s.groups| == k && (plain ==> Healthy(s, defs, o))
      invariant Records(s, members[..k], slots, defs, o)
      invariant forall j :: 0 <= j < k ==> DeclaredBy(members[j], defs, s.groups[j])
      invariant LaidOut(START, members, defs, o) == LaidOut(s, members[k..], defs, o)
    {
      var next := Place(s, members[k], defs, o);
      assert members[k..][0] == members[k] && members[k..][1..] == members[k + 1..];
      PlaceAdds(s, members[k], defs, o);
      if next.Err? {
        if OfBitFields(next.error) {
          RoundFaulty(s, members[k], defs, o);
        }
        return Err(next.error), [], [];
      }
      if plain {
        HealthyStep(s, members[k], defs, o);
      }
      slots := RecordRound(s, members[..k], slots, members[k], defs, o);
      assert members[..k] + [members[k]] == members[..k + 1];
      s := next.value;
    }
    assert members[|members|..] == [] && members[..|members|] == members;
    r := Finish(s, tag, alignment, o);
    groups := s.groups;
    FinishMembers(s, tag, alignment, o);
    if r.Ok? {
      RecordsEnd(s, members, slots, tag, alignment, defs, o);
    }
    if plain && r.Ok? {
      HealthyEnd(s, tag, alignment, defs, o);
      if (Sequential(o) || Overlaid(o)) && tag !in defs {
        GoodDefsMore(defs, tag, r.value);
      }
    }
  }

  lemma StartRecords(defs: Defs, o: Options)
    ensures Records(START, [], [], defs, o)
  {
  }

  lemma RecordRound(s: State, members: seq<Declaration>, slots: seq<Slot>, m: Declaration, defs: Defs, o: Options)
    returns (more: seq<Slot>)
    requires Records(s, members, slots, defs, o) && Place(s, m, defs, o).Ok?
    ensures Records(Place(s, m, defs, o).value, members + [m], more, defs, o)
  {
    hide Stands, Extends, Place, AllStand, GreatestAlign, LeastEnd, Tracks, Before;
    var slot := RoundStands(s, Before(slots, |slots|), m, defs, o);
    more := slots + [slot];
    RecordsMore(s, Place(s, m, defs, o).value, members, slots, m, slot, defs, o);
  }

  lemma RecordsEnd(s: State, members: seq<Declaration>, slots: seq<Slot>, tag: Name, alignment: Option<nat>,
        defs: Defs, o: Options)
    requires Records(s, members, slots, defs, o)
    ensures AllStand(members, slots, s.groups, defs, o) && |slots| == |members|
    ensures Finish(s, tag, alignment, o).Ok? ==>
      var def := Finish(s, tag, alignment, o).value;
      GreatestAlign(def.alignment, slots, alignment) && SizeHolds(def.size, def.alignment, members, slots, o)
  {
    hide Stands, Fills, Finish, GreatestAlign, SizeHolds, LeastEnd;
    if Finish(s, tag, alignment, o).Ok? {
      WholeHolds(s, members, slots, tag, alignment, defs, o);
    }
  }

  lemma StartSound(defs: Defs, o: Options)
    ensures Healthy(START, defs, o)
  {
  }

  lemma SoundDisjoint(s: State, defs: Defs)
    requires Sound(s, defs)
    ensures Disjoint(s.groups)
  {
  }

  lemma FinishMembers(s: State, tag: Name, alignment: Option<nat>, o: Options)
    ensures var r := Finish(s, tag, alignment, o);
      if r.Ok? then r.value.members == Concat(s.groups) else !OfBitFields(r.error)
  {
  }

  ghost predicate Adds(s: State, t: State, m: Declaration, defs: Defs) {
    && |t.groups| == |s.groups| + 1 && t.groups[..|s.groups|] == s.groups
    && DeclaredBy(m, defs, t.groups[|s.groups|])
  }

  lemma PlaceBitsAdds(s: State, m: Declaration, defs: Defs, width: nat, size: nat, natural: nat, align: nat, o: Options)
    requires m.bitWidth == Some(width)
    ensures var t := PlaceBitField(s, m, width, size, natural, align, o); t.Ok? ==> Adds(s, t.value, m, defs)
  {
    hide IsPowerOfTwo, RoundUpTo, Shift, IsBitFieldType, StorageUnit, NeedsNewUnit;
  }

  lemma PlacePlainAdds(s: State, m: Declaration, defs: Defs, size: nat, align: nat, o: Options)
    requires m.bitWidth.None?
    ensures var t := PlacePlain(s, m, defs, size, align, o); t.Ok? ==> Adds(s, t.value, m, defs)
  {
    hide IsPowerOfTwo, RoundUpTo, Shift;
  }

  /** A round of the loop adds one group, of the members the declaration declares. */
  lemma PlaceAdds(s: State, m: Declaration, defs: Defs, o: Options)
    ensures Place(s, m, defs, o).Ok? ==> Adds(s, Place(s, m, defs, o).value, m, defs)
  {
    hide PlaceBitField, PlacePlain, SizeAlign, Adds;
    var sa := SizeAlign(m.fullType, defs);
    if sa.Ok? {
      var layoutAlign := if o.packed || m.packed then 1 else sa.value.1;
      var align := if m.alignment.Some? then Max(m.alignment.value, layoutAlign) else layoutAlign;
      if m.bitWidth.Some? {
        PlaceBitsAdds(s, m, defs, m.bitWidth.value, sa.value.0, sa.value.1, align, o);
      } else {
        PlacePlainAdds(s, m, defs, sa.value.0, align, o);
      }
    }
  }
}
