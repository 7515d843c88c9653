/** Assembly symbols: escaping arbitrary names into labels, and data offsets behind them. */
module Mangling {
  import opened Tacky

  predicate IsAlphanumeric(ch: char) {
    '0' <= ch <= '9' || 'a' <= ch <= 'z' || 'A' <= ch <= 'Z'
  }

  /** `is_assembly_label_char` */
  predicate IsLabelChar(ch: char) {
    IsAlphanumeric(ch) || ch == '_' || ch == '$' || ch == '.'
  }

  const PREFIX := "__rnqcc_u"

  predicate IsPlain(name: string) {
    (forall k :: 0 <= k < |name| ==> IsLabelChar(name[k])) && !(PREFIX <= name)
  }

  // ----- numbers as text -----

  function Digit(d: nat): (ch: char)
    requires d < 16
    ensures IsAlphanumeric(ch) && IsDigit(ch, 16) && DigitValue(ch) == d
    ensures d < 10 ==> IsDigit(ch, 10)
  {
    if d < 10 then ('0' as int + d) as char else ('a' as int + d - 10) as char
  }

  predicate IsDigit(ch: char, radix: nat) {
    '0' <= ch <= '9' || (radix == 16 && 'a' <= ch <= 'f')
  }

  function DigitValue(ch: char): (d: nat)
    requires IsDigit(ch, 16)
    ensures d < 16
  {
    if ch <= '9' then ch as int - '0' as int else ch as int - 'a' as int + 10
  }

  /** The digits of a number without leading zeros, as formatting prints them. */
  function Show(n: nat, radix: nat): (s: string)
    requires radix == 10 || radix == 16
    ensures s != [] && forall k :: 0 <= k < |s| ==> IsDigit(s[k], radix) && IsAlphanumeric(s[k])
  {
    if n < radix then [Digit(n)] else Show(n / radix, radix) + [Digit(n % radix)]
  }

  function Parse(s: string, radix: nat): nat
    requires radix == 10 || radix == 16
    requires forall k :: 0 <= k < |s| ==> IsDigit(s[k], 16)
  {
    if s == [] then 0 else Parse(s[..|s| - 1], radix) * radix + DigitValue(s[|s| - 1])
  }

  lemma {:induction false} ParseShow(n: nat, radix: nat)
    requires radix == 10 || radix == 16
    ensures Parse(Show(n, radix), radix) == n
  {
    var s := Show(n, radix);
    if n < radix {
      assert s[..0] == [];
    } else {
      ParseShow(n / radix, radix);
      assert s[..|s| - 1] == Show(n / radix, radix);
    }
  }

  // ----- escaping -----

  function EscapeChar(ch: char): string {
    if IsAlphanumeric(ch) then [ch]
    else if ch == '_' then "__"
    else "_x" + Show(ch as int, 16) + "_"
  }

  function Escape(name: string): string {
    if name == [] then [] else EscapeChar(name[0]) + Escape(name[1..])
  }

  newtype Byte = b: int | 0 <= b < 0x100

  /** The bytes of a character in UTF-8. */
  function Utf8(ch: char): seq<Byte> {
    var c := ch as int;
    if c < 0x80 then [c as Byte]
    else if c < 0x800 then [(0xC0 + c / 0x40) as Byte, (0x80 + c % 0x40) as Byte]
    else if c < 0x1_0000 then [(0xE0 + c / 0x1000) as Byte, (0x80 + c / 0x40 % 0x40) as Byte, (0x80 + c % 0x40) as Byte]
    else [(0xF0 + c / 0x4_0000) as Byte, (0x80 + c / 0x1000 % 0x40) as Byte, (0x80 + c / 0x40 % 0x40) as Byte,
          (0x80 + c % 0x40) as Byte]
  }

  function Bytes(name: string): seq<Byte> {
    if name == [] then [] else Utf8(name[0]) + Bytes(name[1..])
  }

  /** One round of the hash. */
  function HashStep(hash: bv64, byte: Byte): bv64 {
    (hash ^ (byte as bv64)) * 0x100000001b3
  }

  function HashFrom(hash: bv64, bytes: seq<Byte>): bv64
    decreases |bytes|
  {
    if bytes == [] then hash else HashFrom(HashStep(hash, bytes[0]), bytes[1..])
  }

  function PadLeft(s: string, n: nat): (r: string)
    ensures |r| >= n && |r| >= |s|
    decreases n - |s|
  {
    if |s| >= n then s else PadLeft("0" + s, n)
  }

  const BASIS: bv64 := 0xcbf29ce484222325

  /** The hash as sixteen hexadecimal digits. */
  function HashText(name: string): string {
    PadLeft(Show(HashFrom(BASIS, Bytes(name)) as int, 16), 16)
  }

  function Mangled(name: string): string {
    if IsPlain(name) then name else PREFIX + Escape(name) + "_h" + HashText(name)
  }

  /** The hash loop of `mangle_assembly_label`. */
  method Hash(name: string) returns (hash: bv64)
    ensures hash == HashFrom(BASIS, Bytes(name))
  {
    hide HashStep, Utf8;
    hash := BASIS;
    var bytes := Bytes(name);
    assert bytes[0..] == bytes;
    for k := 0 to |bytes|
      invariant HashFrom(hash, bytes[k..]) == HashFrom(BASIS, bytes)
    {
      assert bytes[k..][0] == bytes[k] && bytes[k..][1..] == bytes[k + 1..];
      hash := HashStep(hash, bytes[k]);
    }
    assert bytes[|bytes|..] == [];
  }

  lemma EscapeAt(name: string, k: nat)
    requires k < |name|
    ensures Escape(name[k..]) == EscapeChar(name[k]) + Escape(name[k + 1..])
  {
    assert name[k..][0] == name[k] && name[k..][1..] == name[k + 1..];
  }

  lemma EscapeSnoc(out: string, name: string, k: nat, more: string)
    requires k < |name| && more == EscapeChar(name[k])
    ensures out + Escape(name[k..]) == out + more + Escape(name[k + 1..])
  {
    EscapeAt(name, k);
  }

  /** The escaping loop of `mangle_assembly_label`. */
  method EscapeName(name: string) returns (out: string)
    ensures out == PREFIX + Escape(name)
  {
    hide Show, Escape;
    out := PREFIX;
    assert name[0..] == name;
    for k := 0 to |name|
      invariant out + Escape(name[k..]) == PREFIX + Escape(name)
    {
      var ch := name[k];
      EscapeSnoc(out, name, k, EscapeChar(ch));
      if IsAlphanumeric(ch) {
        out := out + [ch];
      } else if ch == '_' {
        out := out + "__";
      } else {
        out := out + ("_x" + Show(ch as int, 16) + "_");
      }
    }
    EscapeNothing(name);
  }

  // ----- what a symbol looks like -----

  /** The characters an assembler takes. */
  predicate Accepted(ch: char) {
    '0' <= ch <= '9' || 'a' <= ch <= 'z' || 'A' <= ch <= 'Z' || ch in {'_', '$', '.'}
  }

  /** Lower-case hexadecimal digits of this value. */
  predicate Hexadecimal(s: string, value: nat) {
    && (forall k :: 0 <= k < |s| ==> '0' <= s[k] <= '9' || 'a' <= s[k] <= 'f')
    && Parse(s, 16) == value
  }

  /** The text that stands for one character: letters and digits for themselves, an underscore
      doubled, anything else by its number. */
  ghost predicate StandsFor(piece: string, ch: char) {
    if '0' <= ch <= '9' || 'a' <= ch <= 'z' || 'A' <= ch <= 'Z' then piece == [ch]
    else if ch == '_' then piece == "__"
    else exists digits: string :: Hexadecimal(digits, ch as int) && piece == "_x" + digits + "_"
           && digits != [] && (digits[0] == '0' ==> |digits| == 1)
  }

  function Joined(pieces: seq<string>): string {
    if pieces == [] then [] else pieces[0] + Joined(pieces[1..])
  }

  ghost predicate SpelledOut(text: string, name: string) {
    exists pieces :: |pieces| == |name| && Joined(pieces) == text
      && forall k :: 0 <= k < |name| ==> StandsFor(pieces[k], name[k])
  }

  lemma {:induction false} ShowShape(n: nat, radix: nat)
    requires radix == 10 || radix == 16
    ensures Show(n, radix)[0] == '0' ==> n == 0 && |Show(n, radix)| == 1
  {
    if n >= radix {
      ShowShape(n / radix, radix);
    }
  }

  lemma CharStands(ch: char)
    ensures StandsFor(EscapeChar(ch), ch)
  {
    if !IsAlphanumeric(ch) && ch != '_' {
      ParseShow(ch as int, 16);
      ShowShape(ch as int, 16);
      assert Hexadecimal(Show(ch as int, 16), ch as int);
    }
  }

  lemma {:induction false} EscapeSpells(name: string)
    ensures SpelledOut(Escape(name), name) && |name| <= |Escape(name)|
  {
    hide StandsFor;
    if name == [] {
      assert Joined([]) == Escape(name);
      var none: seq<string> := [];
      assert |none| == |name| && Joined(none) == Escape(name);
    } else {
      EscapeSpells(name[1..]);
      CharStands(name[0]);
      var rest :| |rest| == |name[1..]| && Joined(rest) == Escape(name[1..])
        && forall k :: 0 <= k < |name[1..]| ==> StandsFor(rest[k], name[1..][k]);
      var pieces := [EscapeChar(name[0])] + rest;
      assert pieces[1..] == rest;
      forall k | 0 <= k < |name| ensures StandsFor(pieces[k], name[k]) {
        assert k > 0 ==> name[1..][k - 1] == name[k] && pieces[k] == rest[k - 1];
      }
    }
  }

  function Power16(k: nat): nat {
    if k == 0 then 1 else 16 * Power16(k - 1)
  }

  lemma {:induction false} ShowLength(n: nat, k: nat)
    requires k > 0 && n < Power16(k)
    ensures |Show(n, 16)| <= k
    decreases k
  {
    if n >= 16 {
      assert n / 16 < Power16(k - 1);
      ShowLength(n / 16, k - 1);
    }
  }

  lemma {:induction false} PadShape(s: string, n: nat)
    requires |s| <= n && forall k :: 0 <= k < |s| ==> '0' <= s[k] <= '9' || 'a' <= s[k] <= 'f'
    ensures |PadLeft(s, n)| == n && Hexadecimal(PadLeft(s, n), Parse(s, 16))
    decreases n - |s|
  {
    if |s| < n {
      ZeroInFront(s);
      PadShape("0" + s, n);
    }
  }

  lemma {:induction false} ZeroInFront(s: string)
    requires forall k :: 0 <= k < |s| ==> IsDigit(s[k], 16)
    ensures Parse("0" + s, 16) == Parse(s, 16)
    decreases |s|
  {
    var t := "0" + s;
    if s == [] {
      assert t[..0] == [];
    } else {
      ZeroInFront(s[..|s| - 1]);
      assert t[..|t| - 1] == "0" + s[..|s| - 1];
    }
  }

  lemma Power16OfHash()
    ensures Power16(16) == 0x1_0000_0000_0000_0000
  {
    assert Power16(4) == 0x1_0000;
    assert Power16(8) == 0x1_0000_0000;
    assert Power16(12) == 0x1_0000_0000_0000;
  }

  lemma HashShape(name: string)
    ensures |HashText(name)| == 16 && Hexadecimal(HashText(name), HashFrom(BASIS, Bytes(name)) as int)
  {
    var n := HashFrom(BASIS, Bytes(name)) as int;
    hide HashFrom, Bytes, PadLeft;
    Power16OfHash();
    hide Power16;
    ShowLength(n, 16);
    ParseShow(n, 16);
    PadShape(Show(n, 16), 16);
  }

  lemma HashOfBytes(hash: bv64, byte: Byte, bytes: seq<Byte>)
    ensures HashFrom(hash, [byte] + bytes) == HashFrom(HashStep(hash, byte), bytes)
  {
    assert ([byte] + bytes)[1..] == bytes;
  }

  lemma BytesOfChar(ch: char, rest: string)
    ensures Bytes([ch] + rest) == Utf8(ch) + Bytes(rest)
  {
    assert ([ch] + rest)[1..] == rest;
  }

  /** The published values of the hash, 64-bit FNV-1a, for the empty text and for "a". */
  lemma HashKnown()
    ensures HashFrom(BASIS, Bytes("")) == 0xcbf29ce484222325
    ensures HashFrom(BASIS, Bytes("a")) == 0xaf63dc4c8601ec8c
  {
    BytesOfChar('a', "");
    assert Bytes("a") == [0x61];
    hide Bytes, Utf8;
    assert HashStep(BASIS, 0x61) == 0xaf63dc4c8601ec8c;
    HashOfBytes(BASIS, 0x61, []);
    hide HashStep;
  }

  /** And for "foobar". */
  lemma HashOfFoobar()
    ensures HashFrom(BASIS, [0x66, 0x6f, 0x6f, 0x62, 0x61, 0x72]) == 0x85944171f73967e8
  {
    var b1: seq<Byte>, b2: seq<Byte>, b3: seq<Byte> := [0x72], [0x61, 0x72], [0x62, 0x61, 0x72];
    var b4: seq<Byte>, b5: seq<Byte> := [0x6f, 0x62, 0x61, 0x72], [0x6f, 0x6f, 0x62, 0x61, 0x72];
    assert [0x66, 0x6f, 0x6f, 0x62, 0x61, 0x72] == [0x66] + b5 && b5 == [0x6f] + b4 && b4 == [0x6f] + b3;
    assert b3 == [0x62] + b2 && b2 == [0x61] + b1 && b1 == [0x72] + [];
    HashOfBytes(BASIS, 0x66, b5);
    HashOfBytes(0xaf63db4c8601ead9, 0x6f, b4);
    HashOfBytes(0x08985907b541d342, 0x6f, b3);
    HashOfBytes(0xdcb27518fed9d577, 0x62, b2);
    HashOfBytes(0xdd120e790c2512af, 0x61, b1);
    HashOfBytes(0xcac165afa2fef40a, 0x72, []);
  }

  /** The six bits of a trailing byte. */
  function Trailing(b: Byte): int {
    b as int - 0x80
  }

  /** The number that bytes encode: what the leading byte adds to its mark, then six bits each. */
  function Encoded(b: seq<Byte>): int
    requires 1 <= |b| <= 4
  {
    if |b| == 1 then b[0] as int
    else if |b| == 2 then (b[0] as int - 0xC0) * 0x40 + Trailing(b[1])
    else if |b| == 3 then ((b[0] as int - 0xE0) * 0x40 + Trailing(b[1])) * 0x40 + Trailing(b[2])
    else (((b[0] as int - 0xF0) * 0x40 + Trailing(b[1])) * 0x40 + Trailing(b[2])) * 0x40 + Trailing(b[3])
  }

  lemma DigitsOf(c: nat)
    ensures c == c / 0x40 * 0x40 + c % 0x40
    ensures c / 0x40 == c / 0x1000 * 0x40 + c / 0x40 % 0x40
    ensures c / 0x1000 == c / 0x4_0000 * 0x40 + c / 0x1000 % 0x40
  {
    assert c / 0x40 / 0x40 == c / 0x1000;
    assert c / 0x1000 / 0x40 == c / 0x4_0000;
  }

  /** The bytes of a character are its UTF-8 encoding: as many as its number asks for, six bits in
      each trailing byte, and together the number. */
  lemma EncodedInUtf8(ch: char)
    ensures var c, b := ch as int, Utf8(ch);
      && |b| == (if c < 0x80 then 1 else if c < 0x800 then 2 else if c < 0x1_0000 then 3 else 4)
      && Encoded(b) == c
      && forall k :: 1 <= k < |b| ==> 0 <= Trailing(b[k]) < 0x40
  {
    DigitsOf(ch as int);
  }

  /** `mangle_assembly_label` */
  method MangleAssemblyLabel(name: string) returns (out: string)
    ensures out == Mangled(name)
    ensures out == name <==> (forall k :: 0 <= k < |name| ==> Accepted(name[k])) && !("__rnqcc_u" <= name)
    ensures out != name ==> exists text, hash ::
      && out == "__rnqcc_u" + text + "_h" + hash && SpelledOut(text, name)
      && |hash| == 16 && Hexadecimal(hash, HashFrom(BASIS, Bytes(name)) as int)
  {
    if IsPlain(name) {
      return name;
    }
    hide HashFrom, Bytes, Show, PadLeft, Escape, SpelledOut, Hexadecimal;
    var hash := Hash(name);
    out := EscapeName(name);
    out := out + "_h" + PadLeft(Show(hash as int, 16), 16);
    EscapeSpells(name);
    HashShape(name);
    assert |out| == 9 + |Escape(name)| + 2 + 16;
  }

  lemma EscapeNothing(name: string)
    ensures Escape(name[|name|..]) == []
  {
  }

  // ----- decoding -----

  /** The position of the first underscore. */
  function FirstUnderscore(s: string): (k: nat)
    ensures k <= |s| && (k < |s| ==> s[k] == '_') && forall j :: 0 <= j < k ==> s[j] != '_'
  {
    if s == [] || s[0] == '_' then 0 else 1 + FirstUnderscore(s[1..])
  }

  /** Read an escaped name from the front of `s`, up to the mark `_h`; nothing behind the mark
      is looked at. */
  function Decode(s: string): Option<string>
    decreases |s|
  {
    if s == [] then None
    else if s[0] != '_' then Prepend(s[0], Decode(s[1..]))
    else if |s| == 1 then None
    else if s[1] == 'h' then Some([])
    else if s[1] == '_' then Prepend('_', Decode(s[2..]))
    else if s[1] != 'x' then None
    else
      var digits := s[2..2 + FirstUnderscore(s[2..])];
      if 2 + |digits| < |s| && (forall k :: 0 <= k < |digits| ==> IsDigit(digits[k], 16)) then
        var code := Parse(digits, 16);
        if code < 0xD800 || 0xE000 <= code < 0x11_0000 then Prepend(code as char, Decode(s[3 + |digits|..])) else None
      else None
  }

  function Prepend(ch: char, rest: Option<string>): Option<string> {
    if rest.Some? then Some([ch] + rest.value) else None
  }

  lemma {:induction false} UnderscoreAfter(digits: string, rest: string)
    requires forall k :: 0 <= k < |digits| ==> digits[k] != '_'
    ensures FirstUnderscore(digits + "_" + rest) == |digits|
  {
    var s := digits + "_" + rest;
    if digits == [] {
      assert s[0] == '_';
    } else {
      assert s[1..] == digits[1..] + "_" + rest;
      UnderscoreAfter(digits[1..], rest);
    }
  }

  /** Taking a hexadecimal escape apart. */
  lemma HexParts(digits: string, rest: string)
    requires forall k :: 0 <= k < |digits| ==> digits[k] != '_'
    ensures var s := "_x" + digits + "_" + rest;
      && |s| > 2 + |digits| && s[0] == '_' && s[1] == 'x'
      && s[2..2 + FirstUnderscore(s[2..])] == digits && s[3 + |digits|..] == rest
  {
    var s := "_x" + digits + "_" + rest;
    assert s[2..] == digits + "_" + rest;
    UnderscoreAfter(digits, rest);
    hide FirstUnderscore;
    assert s[2..2 + |digits|] == digits;
    assert s[3 + |digits|..] == rest;
  }

  lemma ShownCode(ch: char)
    ensures var digits := Show(ch as int, 16);
      && Parse(digits, 16) == ch as int
      && forall k :: 0 <= k < |digits| ==> IsDigit(digits[k], 16) && digits[k] != '_'
  {
    ParseShow(ch as int, 16);
  }

  lemma DecodeHexChar(ch: char, rest: string)
    requires !IsAlphanumeric(ch) && ch != '_'
    ensures Decode(EscapeChar(ch) + rest) == Prepend(ch, Decode(rest))
  {
    var digits := Show(ch as int, 16);
    assert EscapeChar(ch) + rest == "_x" + digits + "_" + rest;
    hide Show, Parse, FirstUnderscore, EscapeChar, IsDigit;
    ShownCode(ch);
    HexParts(digits, rest);
  }

  lemma DecodeChar(ch: char, rest: string)
    ensures Decode(EscapeChar(ch) + rest) == Prepend(ch, Decode(rest))
  {
    var s := EscapeChar(ch) + rest;
    if IsAlphanumeric(ch) {
      assert s[1..] == rest;
    } else if ch == '_' {
      assert s[2..] == rest;
    } else {
      DecodeHexChar(ch, rest);
    }
  }

  /** Whatever follows the mark, the escaped name in front of it can be read back. */
  lemma {:induction false} DecodeEscape(name: string, tail: string)
    ensures Decode(Escape(name) + "_h" + tail) == Some(name)
  {
    if name != [] {
      assert Escape(name) + "_h" + tail == EscapeChar(name[0]) + (Escape(name[1..]) + "_h" + tail);
      hide Decode, Escape, EscapeChar;
      DecodeEscape(name[1..], tail);
      DecodeChar(name[0], Escape(name[1..]) + "_h" + tail);
      assert name == [name[0]] + name[1..];
    } else {
      assert Escape(name) + "_h" + tail == "_h" + tail;
      hide Escape;
    }
  }

  /** Names that are mangled and names that are kept never meet. */
  lemma RangesDisjoint(plain: string, name: string)
    requires IsPlain(plain) && !IsPlain(name)
    ensures Mangled(plain) != Mangled(name)
  {
    assert PREFIX <= Mangled(name);
  }

  /** A mangled name gives the name back. */
  lemma UnmangleMangled(name: string)
    requires !IsPlain(name)
    ensures |Mangled(name)| >= |PREFIX| && Decode(Mangled(name)[|PREFIX|..]) == Some(name)
  {
    var tail := HashText(name);
    assert Mangled(name) == PREFIX + (Escape(name) + "_h" + tail);
    hide *;
    DecodeEscape(name, tail);
    assert Mangled(name)[|PREFIX|..] == Escape(name) + "_h" + tail;
  }

  /** Mangling is injective on all names. */
  lemma MangledInjective(a: string, b: string)
    ensures Mangled(a) == Mangled(b) <==> a == b
  {
    if Mangled(a) == Mangled(b) {
      if IsPlain(a) && !IsPlain(b) {
        RangesDisjoint(a, b);
      } else if !IsPlain(a) && IsPlain(b) {
        RangesDisjoint(b, a);
      } else if !IsPlain(a) {
        UnmangleMangled(a);
        UnmangleMangled(b);
      }
    }
  }

  predicate IsLabel(s: string) {
    forall k :: 0 <= k < |s| ==> IsLabelChar(s[k])
  }

  lemma {:induction false} EscapeIsLabel(name: string)
    ensures IsLabel(Escape(name))
  {
    if name != [] {
      EscapeIsLabel(name[1..]);
      assert IsLabel(EscapeChar(name[0]));
    }
  }

  lemma {:induction false} PadIsLabel(s: string, n: nat)
    requires IsLabel(s)
    ensures IsLabel(PadLeft(s, n))
    decreases n - |s|
  {
    if |s| < n {
      PadIsLabel("0" + s, n);
    }
  }

  /** Every mangled name is an assembly label. */
  lemma MangledIsLabel(name: string)
    ensures IsLabel(Mangled(name))
  {
    if !IsPlain(name) {
      EscapeIsLabel(name);
      PadIsLabel(Show(HashFrom(BASIS, Bytes(name)) as int, 16), 16);
      hide PadLeft, Show, Escape, HashFrom, Bytes;
      assert IsLabel(PREFIX) && IsLabel("_h");
    }
  }

  // ----- data offsets -----

  const I64_MIN: int := -0x8000_0000_0000_0000
  const I64_MAX: int := 0x7FFF_FFFF_FFFF_FFFF

  /** `assembly_offset_suffix` */
  function OffsetSuffix(offset: int): string {
    if offset >= 0 then "+" + Show(offset, 10) else "-" + Show(-offset, 10)
  }

  predicate AllDecimal(s: string) {
    forall k :: 0 <= k < |s| ==> IsDigit(s[k], 10)
  }

  /** Parsing a signed 64-bit number that starts with its sign. */
  function ParseSigned(s: string): Option<int>
    requires s != [] && (s[0] == '+' || s[0] == '-')
  {
    if |s| == 1 || !AllDecimal(s[1..]) then None
    else
      var n: int := if s[0] == '-' then -(Parse(s[1..], 10) as int) else Parse(s[1..], 10);
      if I64_MIN <= n <= I64_MAX then Some(n) else None
  }

  /** The last sign that is not the first character, or 0. */
  function LastSign(name: string, n: nat): (k: nat)
    requires n <= |name|
    ensures k > 0 ==> k < n && (name[k] == '+' || name[k] == '-')
    ensures forall j :: (if k == 0 then 1 else k + 1) <= j < n ==> name[j] != '+' && name[j] != '-'
  {
    if n <= 1 then 0
    else if name[n - 1] == '+' || name[n - 1] == '-' then n - 1
    else LastSign(name, n - 1)
  }

  datatype DataOffset = DataOffset(base: string, offset: int)

  /** `split_data_offset` */
  function SplitDataOffset(name: string): Option<DataOffset> {
    var pos := LastSign(name, |name|);
    if pos == 0 then None
    else
      var offset := ParseSigned(name[pos..]);
      if offset.None? then None else Some(DataOffset(name[..pos], offset.value))
  }

  lemma {:induction false} SignStandsLast(base: string, sign: char, digits: string, n: nat)
    requires base != [] && (sign == '+' || sign == '-') && AllDecimal(digits)
    requires |base| < n <= |base| + 1 + |digits|
    ensures LastSign(base + [sign] + digits, n) == |base|
    decreases n
  {
    var name := base + [sign] + digits;
    if n == |base| + 1 {
      assert name[n - 1] == sign;
    } else {
      assert name[n - 1] == digits[n - |base| - 2];
      SignStandsLast(base, sign, digits, n - 1);
    }
  }

  function Signed(sign: char, n: nat): int {
    if sign == '-' then -(n as int) else n as int
  }

  /** A base, a sign and the decimal digits of a 64-bit offset. */
  predicate Composed(name: string, d: DataOffset, sign: char, digits: string) {
    && name == d.base + [sign] + digits && d.base != [] && (sign == '+' || sign == '-')
    && digits != [] && AllDecimal(digits)
    && d.offset == Signed(sign, Parse(digits, 10)) && I64_MIN <= d.offset <= I64_MAX
  }

  lemma ComposedSplits(name: string, d: DataOffset, sign: char, digits: string)
    requires Composed(name, d, sign, digits)
    ensures SplitDataOffset(name) == Some(d)
  {
    SignStandsLast(d.base, sign, digits, |name|);
    hide LastSign, Parse;
    assert name[|d.base|..] == [sign] + digits && name[..|d.base|] == d.base;
    assert ([sign] + digits)[1..] == digits;
  }

  /** A name splits exactly if it is composed like that. */
  lemma SplitsExactly(name: string, d: DataOffset)
    ensures SplitDataOffset(name) == Some(d) <==> exists sign, digits :: Composed(name, d, sign, digits)
  {
    hide Parse;
    if SplitDataOffset(name) == Some(d) {
      var pos := LastSign(name, |name|);
      var digits := name[pos + 1..];
      assert name[pos..][1..] == digits && name == name[..pos] + [name[pos]] + digits;
      assert Composed(name, d, name[pos], digits);
    }
    if sign, digits :| Composed(name, d, sign, digits) {
      ComposedSplits(name, d, sign, digits);
    }
  }

  lemma SuffixComposes(base: string, offset: int)
    requires base != [] && I64_MIN <= offset <= I64_MAX
    ensures SplitDataOffset(base + OffsetSuffix(offset)) == Some(DataOffset(base, offset))
  {
    hide Show, Parse, SplitDataOffset;
    var sign, n := if offset >= 0 then '+' else '-', if offset >= 0 then offset else -offset;
    ParseShow(n, 10);
    assert base + OffsetSuffix(offset) == base + [sign] + Show(n, 10);
    ComposedSplits(base + OffsetSuffix(offset), DataOffset(base, offset), sign, Show(n, 10));
  }

  /** Splitting undoes appending an offset exactly when the base is not empty. */
  lemma SplitUndoesSuffix(base: string, offset: int)
    requires I64_MIN <= offset <= I64_MAX
    ensures SplitDataOffset(base + OffsetSuffix(offset)) == Some(DataOffset(base, offset)) <==> base != []
  {
    if base != [] {
      SuffixComposes(base, offset);
    } else {
      assert base + OffsetSuffix(offset) == OffsetSuffix(offset);
      assert LastSign(OffsetSuffix(offset), |OffsetSuffix(offset)|) == 0;
    }
  }
}
