/**
 RFC 8259 as a grammar of written documents, apart from any reader or printer: what each
 piece is spelled as and what it denotes.  `ReadsExactly` says that the strict reader
 accepts the spellings of admissible values, each with the value it denotes, and nothing else.
 */
module JsonGrammar {
  import opened Bytes
  import opened JsonValue
  import opened JsonReader
  import C = Ccj1
  import Utf8

  // ---- Strings (section 7) ----

  /** One character of a string as written: as it stands, as a two-character escape, or in hex digits of either case;
      a scalar above U+FFFF takes a surrogate pair. */
  datatype Unit = Raw(c: byte) | Short(c: byte) | Coded(r: int, upper: seq<bool>)

  predicate UnitOk(u: Unit) {
    match u
    case Raw(c) => c >= 0x20 && c != 0x22 && c != 0x5C
    case Short(c) => c == 0x22 || c == 0x5C || c == 0x2F || c == 0x08 || c == 0x0C || c == 0x0A || c == 0x0D || c == 0x09
    case Coded(r, upper) => Utf8.IsScalar(r) && |upper| == if r < 0x10000 then 4 else 8
  }

  /** The letter after the backslash: b, f, n, r, t, or the character itself. */
  function Letter(c: byte): byte {
    if c == 0x08 then 0x62
    else if c == 0x0C then 0x66
    else if c == 0x0A then 0x6E
    else if c == 0x0D then 0x72
    else if c == 0x09 then 0x74
    else c
  }

  function Digit(d: int, upper: bool): byte
    requires 0 <= d < 16
  {
    if d < 10 then (0x30 + d) as byte else if upper then (0x41 + d - 10) as byte else (0x61 + d - 10) as byte
  }

  function Code(n: int, upper: seq<bool>): bytes
    requires 0 <= n < 0x10000 && |upper| == 4
  {
    [0x5C, 0x75, Digit(n / 0x1000, upper[0]), Digit(n / 0x100 % 0x10, upper[1]), Digit(n / 0x10 % 0x10, upper[2]), Digit(n % 0x10, upper[3])]
  }

  /** The pair of a scalar above U+FFFF, as in section 2.1 of RFC 2781. */
  function High(r: int): int {
    0xD800 + (r - 0x10000) / 0x400
  }

  function Low(r: int): int {
    0xDC00 + (r - 0x10000) % 0x400
  }

  function SpellUnit(u: Unit): (s: bytes)
    requires UnitOk(u)
    ensures s != []
  {
    match u
    case Raw(c) => [c]
    case Short(c) => [0x5C, Letter(c)]
    case Coded(r, upper) =>
      if r < 0x10000 then Code(r, upper) else Code(High(r), upper[..4]) + Code(Low(r), upper[4..])
  }

  function DenoteUnit(u: Unit): bytes
    requires UnitOk(u)
  {
    if u.Coded? then Utf8.Encode(u.r) else [u.c]
  }

  predicate UnitsOk(us: seq<Unit>) {
    forall u :: u in us ==> UnitOk(u)
  }

  function Spell(us: seq<Unit>): bytes
    requires UnitsOk(us)
  {
    if us == [] then [] else SpellUnit(us[0]) + Spell(us[1..])
  }

  function Denote(us: seq<Unit>): bytes
    requires UnitsOk(us)
  {
    if us == [] then [] else DenoteUnit(us[0]) + Denote(us[1..])
  }

  predicate NoCodedNul(us: seq<Unit>) {
    forall u :: u in us ==> !(u.Coded? && u.r == 0)
  }

  lemma HexOfDigit(d: int, upper: bool)
    requires 0 <= d < 16
    ensures HexValue(Digit(d, upper)) == Some(d)
  {
  }

  lemma CodeIsRead(n: int, upper: seq<bool>, rest: bytes)
    requires 0 <= n < 0x10000 && |upper| == 4
    ensures Hex4(Code(n, upper)[2..] + rest) == Some(n)
    ensures (Code(n, upper) + rest)[2..] == Code(n, upper)[2..] + rest && (Code(n, upper)[2..] + rest)[4..] == rest
  {
    HexOfDigit(n / 0x1000, upper[0]);
    HexOfDigit(n / 0x100 % 0x10, upper[1]);
    HexOfDigit(n / 0x10 % 0x10, upper[2]);
    HexOfDigit(n % 0x10, upper[3]);
    hide HexValue, Digit;
    Base16(n);
  }

  lemma Base16(n: int)
    requires 0 <= n < 0x10000
    ensures ((n / 0x1000 * 16 + n / 0x100 % 0x10) * 16 + n / 0x10 % 0x10) * 16 + n % 0x10 == n
  {
    assert n / 0x100 == n / 0x10 / 0x10 && n / 0x1000 == n / 0x100 / 0x10;
  }

  lemma PairIsRead(r: int, upper: seq<bool>, rest: bytes, nul: bool)
    requires 0x10000 <= r <= 0x10FFFF && |upper| == 8
    ensures ReadUnicodeEscape((Code(High(r), upper[..4]) + Code(Low(r), upper[4..]))[2..] + rest, nul) == Done(Utf8.Encode(r), rest)
  {
    var lo := Code(Low(r), upper[4..]);
    var s := (Code(High(r), upper[..4]) + lo)[2..] + rest;
    CodeIsRead(High(r), upper[..4], lo + rest);
    CodeIsRead(Low(r), upper[4..], rest);
    hide Hex4;
    assert s == Code(High(r), upper[..4])[2..] + (lo + rest);
    assert s[4..] == lo + rest && s[6..] == lo[2..] + rest && s[10..] == rest;
    assert s[4] == lo[0] && s[5] == lo[1];
    assert FromSurrogates(High(r), Low(r)) == r;
  }

  /** Each spelling of a character is read as that character; only a written U+0000 may be refused. */
  lemma UnitIsRead(u: Unit, rest: bytes, nul: bool)
    requires UnitOk(u)
    ensures ReadChar(SpellUnit(u) + rest, nul) ==
            if !nul && u.Coded? && u.r == 0 then Fail else Done(Some(DenoteUnit(u)), rest)
  {
    var s := SpellUnit(u) + rest;
    match u
    case Raw(c) => assert s[1..] == rest;
    case Short(c) => assert s[1..][1..] == rest;
    case Coded(r, upper) => CodedIsRead(u, rest, nul);
  }

  lemma CodedIsRead(u: Unit, rest: bytes, nul: bool)
    requires UnitOk(u) && u.Coded?
    ensures ReadChar(SpellUnit(u) + rest, nul) == if !nul && u.r == 0 then Fail else Done(Some(Utf8.Encode(u.r)), rest)
  {
    var code := SpellUnit(u);
    var s, t := code + rest, code[2..] + rest;
    assert s[0] == 0x5C && s[1] == 0x75 && s[1..][1..] == t && s[1..][0] == s[1];
    assert ReadUnicodeEscape(t, nul) == if !nul && u.r == 0 then Fail else Done(Utf8.Encode(u.r), rest) by {
      if u.r < 0x10000 {
        CodeIsRead(u.r, u.upper, rest);
      } else {
        PairIsRead(u.r, u.upper, rest, nul);
      }
    }
    hide ReadUnicodeEscape, SpellUnit, Code;
  }

  /** Every spelling of a text is read as that text. */
  lemma {:induction false} TextIsRead(us: seq<Unit>, rest: bytes, nul: bool)
    requires UnitsOk(us)
    ensures ReadString(Spell(us) + [0x22] + rest, nul) == if nul || NoCodedNul(us) then Done(Denote(us), rest) else Fail
    decreases |us|
  {
    var s := Spell(us) + [0x22] + rest;
    if us == [] {
      assert s[1..] == rest;
    } else {
      var tail := Spell(us[1..]) + [0x22] + rest;
      assert s == SpellUnit(us[0]) + tail;
      UnitIsRead(us[0], tail, nul);
      TextIsRead(us[1..], rest, nul);
      assert NoCodedNul(us) <==> !(us[0].Coded? && us[0].r == 0) && NoCodedNul(us[1..]);
    }
  }

  // ---- And whatever is read was spelled ----

  lemma DigitOfHex(c: byte) returns (upper: bool)
    requires HexValue(c).Some?
    ensures Digit(HexValue(c).value, upper) == c
  {
    upper := c < 0x60;
  }

  lemma ReadCode(s: bytes) returns (upper: seq<bool>)
    requires Hex4(s).Some?
    ensures |upper| == 4 && [0x5C, 0x75] + s == Code(Hex4(s).value, upper) + s[4..]
  {
    var a := DigitOfHex(s[0]);
    var b := DigitOfHex(s[1]);
    var c := DigitOfHex(s[2]);
    var d := DigitOfHex(s[3]);
    upper := [a, b, c, d];
    var n := Hex4(s).value;
    DigitsOf(HexValue(s[0]).value, HexValue(s[1]).value, HexValue(s[2]).value, HexValue(s[3]).value);
    hide HexValue, Digit;
    assert s == s[..4] + s[4..] && s[..4] == [s[0], s[1], s[2], s[3]];
  }

  lemma DigitsOf(a: int, b: int, c: int, d: int)
    requires 0 <= a < 16 && 0 <= b < 16 && 0 <= c < 16 && 0 <= d < 16
    ensures var n := ((a * 16 + b) * 16 + c) * 16 + d;
            n / 0x1000 == a && n / 0x100 % 0x10 == b && n / 0x10 % 0x10 == c && n % 0x10 == d
  {
  }

  lemma ReadCoded(s: bytes, nul: bool) returns (u: Unit)
    requires ReadUnicodeEscape(s, nul).Done?
    ensures UnitOk(u) && u.Coded? && DenoteUnit(u) == ReadUnicodeEscape(s, nul).value
    ensures [0x5C, 0x75] + s == SpellUnit(u) + ReadUnicodeEscape(s, nul).rest
  {
    var hi := Hex4(s).value;
    hide Hex4, Code;
    if 0xD800 <= hi <= 0xDBFF {
      u := ReadPair(s, nul);
    } else {
      var upper := ReadCode(s);
      u := Coded(hi, upper);
    }
  }

  lemma PairOf(hi: int, lo: int)
    requires 0xD800 <= hi <= 0xDBFF && 0xDC00 <= lo <= 0xDFFF
    ensures High(FromSurrogates(hi, lo)) == hi && Low(FromSurrogates(hi, lo)) == lo
  {
  }

  lemma ReadPair(s: bytes, nul: bool) returns (u: Unit)
    requires ReadUnicodeEscape(s, nul).Done? && 0xD800 <= Hex4(s).value <= 0xDBFF
    ensures UnitOk(u) && u.Coded? && DenoteUnit(u) == ReadUnicodeEscape(s, nul).value
    ensures [0x5C, 0x75] + s == SpellUnit(u) + ReadUnicodeEscape(s, nul).rest
  {
    var hi, lo := Hex4(s).value, Hex4(s[6..]).value;
    var upper := ReadCode(s);
    var lower := ReadCode(s[6..]);
    PairOf(hi, lo);
    SecondCode(s);
    hide Hex4, Code, FromSurrogates, High, Low;
    u := Coded(FromSurrogates(hi, lo), upper + lower);
    Halves(upper, lower);
    Reassociate(Code(hi, upper), Code(lo, lower), s[10..]);
  }

  lemma SecondCode(s: bytes)
    requires |s| >= 10 && s[4] == 0x5C && s[5] == 0x75
    ensures s[4..] == [0x5C, 0x75] + s[6..] && s[6..][4..] == s[10..]
  {
  }

  lemma Halves(a: seq<bool>, b: seq<bool>)
    requires |a| == |b| == 4
    ensures (a + b)[..4] == a && (a + b)[4..] == b
  {
  }

  lemma ReadUnit(s: bytes, nul: bool) returns (u: Unit)
    requires ReadChar(s, nul).Done? && ReadChar(s, nul).value.Some?
    ensures UnitOk(u) && DenoteUnit(u) == ReadChar(s, nul).value.value && s == SpellUnit(u) + ReadChar(s, nul).rest
  {
    if s[0] != 0x5C {
      u := Raw(s[0]);
    } else if s[1] == 0x75 {
      u := ReadCoded(s[2..], nul);
      assert s == [0x5C, 0x75] + s[2..] && s[1..][1..] == s[2..];
    } else {
      u := Short(SimpleEscape(s[1]).value);
      assert s == [0x5C, s[1]] + s[2..] && s[1..][1..] == s[2..];
    }
  }

  lemma {:induction false} ReadText(s: bytes, nul: bool) returns (us: seq<Unit>)
    requires ReadString(s, nul).Done?
    ensures UnitsOk(us) && Denote(us) == ReadString(s, nul).value && s == Spell(us) + [0x22] + ReadString(s, nul).rest
    decreases |s|
  {
    var first := ReadChar(s, nul);
    if first.value.None? {
      us := [];
    } else {
      var u := ReadUnit(s, nul);
      var more := ReadText(first.rest, nul);
      us := [u] + more;
      hide ReadChar;
      assert s == SpellUnit(u) + (Spell(more) + [0x22] + ReadString(s, nul).rest);
    }
  }

  // ---- Values (sections 2 to 6) ----

  datatype Tree =
    | Word(v: Value)
    | Numeral(n: int)
    | Text(us: seq<Unit>)
    | List(blank: bytes, items: seq<Element>)
    | Dict(blank: bytes, fields: seq<Field>)

  /** A value between whitespace. */
  datatype Element = Element(before: bytes, tree: Tree, after: bytes)

  datatype Field = Field(lead: bytes, key: seq<Unit>, gap: bytes, item: Element)

  predicate White(b: bytes) {
    forall c :: c in b ==> c == 0x20 || c == 0x09 || c == 0x0A || c == 0x0D
  }

  predicate TreeOk(t: Tree) {
    match t
    case Word(v) => v.Null? || v.Bool?
    case Numeral(_) => true
    case Text(us) => UnitsOk(us)
    case List(blank, items) => White(blank) && (items == [] || blank == []) && ElementsOk(items)
    case Dict(blank, fields) => White(blank) && (fields == [] || blank == []) && FieldsOk(fields)
  }

  predicate ElementOk(e: Element) {
    White(e.before) && TreeOk(e.tree) && White(e.after)
  }

  predicate FieldOk(f: Field) {
    White(f.lead) && UnitsOk(f.key) && White(f.gap) && ElementOk(f.item)
  }

  predicate ElementsOk(items: seq<Element>) {
    forall e :: e in items ==> ElementOk(e)
  }

  predicate FieldsOk(fields: seq<Field>) {
    forall f :: f in fields ==> FieldOk(f)
  }

  function SpellWord(v: Value): bytes
    requires v.Null? || v.Bool?
  {
    if v.Null? then [0x6E, 0x75, 0x6C, 0x6C] else if v.flag then [0x74, 0x72, 0x75, 0x65] else [0x66, 0x61, 0x6C, 0x73, 0x65]
  }

  function SpellTree(t: Tree): bytes
    requires TreeOk(t)
  {
    match t
    case Word(v) => SpellWord(v)
    case Numeral(n) => C.PrintInt(n)
    case Text(us) => [0x22] + Spell(us) + [0x22]
    case List(blank, items) => [0x5B] + blank + SpellElements(items) + [0x5D]
    case Dict(blank, fields) => [0x7B] + blank + SpellFields(fields) + [0x7D]
  }

  function SpellElement(e: Element): bytes
    requires ElementOk(e)
  {
    e.before + SpellTree(e.tree) + e.after
  }

  function SpellElements(items: seq<Element>): bytes
    requires ElementsOk(items)
  {
    if items == [] then [] else SpellElement(items[0]) + SpellMoreElements(items[1..])
  }

  function SpellMoreElements(items: seq<Element>): bytes
    requires ElementsOk(items)
  {
    if items == [] then [] else [0x2C] + SpellElement(items[0]) + SpellMoreElements(items[1..])
  }

  function SpellField(f: Field): bytes
    requires FieldOk(f)
  {
    f.lead + ([0x22] + Spell(f.key) + [0x22]) + f.gap + [0x3A] + SpellElement(f.item)
  }

  function SpellFields(fields: seq<Field>): bytes
    requires FieldsOk(fields)
  {
    if fields == [] then [] else SpellField(fields[0]) + SpellMoreFields(fields[1..])
  }

  function SpellMoreFields(fields: seq<Field>): bytes
    requires FieldsOk(fields)
  {
    if fields == [] then [] else [0x2C] + SpellField(fields[0]) + SpellMoreFields(fields[1..])
  }

  function ValueOf(t: Tree): Value
    requires TreeOk(t)
  {
    match t
    case Word(v) => v
    case Numeral(n) => Int(n)
    case Text(us) => Str(Denote(us))
    case List(_, items) => Arr(ValuesOf(items))
    case Dict(_, fields) => Obj(MembersOf(fields))
  }

  function ValuesOf(items: seq<Element>): seq<Value>
    requires ElementsOk(items)
  {
    if items == [] then []
    else
      assert ElementOk(items[0]);
      [ValueOf(items[0].tree)] + ValuesOf(items[1..])
  }

  function MemberOf(f: Field): Member
    requires FieldOk(f)
  {
    assert ElementOk(f.item);
    Member(Denote(f.key), ValueOf(f.item.tree))
  }

  function MembersOf(fields: seq<Field>): seq<Member>
    requires FieldsOk(fields)
  {
    if fields == [] then [] else [MemberOf(fields[0])] + MembersOf(fields[1..])
  }

  /** A whole document: a value between whitespace. */
  ghost predicate Spells(e: Element, data: bytes, v: Value) {
    ElementOk(e) && SpellElement(e) == data && ValueOf(e.tree) == v
  }
}
