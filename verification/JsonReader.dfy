/**
 The language of the strict JSON reader (fragment/json.go): RFC 8259 narrowed to
 unique keys and integers within 2^53-1.  Each function reads from the front of a
 suffix and says what value stands there and what follows it; the imperative parser
 of `JsonParser` is proved equal to these functions.
 */
module JsonReader {
  import opened Bytes
  import opened JsonValue
  import Utf8

  datatype ReadResult = Ok(value: Value) | InvalidUtf8 | SyntaxError

  /** An array element or object member, and whether a comma follows it. */
  datatype Item<+T> = Item(value: T, more: bool)

  const TRUE_WORD: bytes := [116, 114, 117, 101]
  const FALSE_WORD: bytes := [102, 97, 108, 115, 101]
  const NULL_WORD: bytes := [110, 117, 108, 108]

  /** RFC 8259 section 2: a JSON text is one value between insignificant whitespace. */
  function ReadDocument(data: bytes): ReadResult {
    if !Utf8.Valid(data) then InvalidUtf8
    else
      match ReadValue(SkipSpace(data), 0)
      case Fail => SyntaxError
      case Done(v, rest) => if SkipSpace(rest) == [] then Ok(v) else SyntaxError
  }

  function SkipSpace(s: bytes): (r: bytes)
    ensures |r| <= |s|
    decreases |s|
  {
    if s != [] && IsSpace(s[0]) then SkipSpace(s[1..]) else s
  }

  // ---- Strings (RFC 8259 section 7) ----

  /** A string body from just after the opening quote; `nul` admits an escaped U+0000. */
  function ReadString(s: bytes, nul: bool): (r: Parsed<bytes>)
    ensures r.Done? ==> |r.rest| < |s|
    decreases |s|
  {
    match ReadChar(s, nul)
    case Fail => Fail
    case Done(None, rest) => Done([], rest)
    case Done(Some(out), rest) => Prepend(out, ReadString(rest, nul))
  }

  /** The octets one character or escape stands for, or None for the closing quote. */
  function ReadChar(s: bytes, nul: bool): (r: Parsed<Option<bytes>>)
    ensures r.Done? ==> |r.rest| < |s|
  {
    if s == [] then Fail
    else if s[0] == QUOTE then Done(None, s[1..])
    else if s[0] < 0x20 then Fail
    else if s[0] == BACKSLASH then
      match ReadEscape(s[1..], nul)
      case Fail => Fail
      case Done(out, rest) => Done(Some(out), rest)
    else Done(Some([s[0]]), s[1..])
  }

  function Prepend(out: bytes, r: Parsed<bytes>): Parsed<bytes> {
    match r
    case Fail => Fail
    case Done(t, rest) => Done(out + t, rest)
  }

  /** An escape from just after the backslash. */
  function ReadEscape(s: bytes, nul: bool): (r: Parsed<bytes>)
    ensures r.Done? ==> |r.rest| < |s|
  {
    if s == [] then Fail
    else if s[0] == 117 then ReadUnicodeEscape(s[1..], nul)
    else
      match SimpleEscape(s[0])
      case None => Fail
      case Some(c) => Done([c], s[1..])
  }

  function SimpleEscape(e: byte): Option<byte> {
    if e == QUOTE || e == BACKSLASH || e == SLASH then Some(e)
    else if e == 98 then Some(8)
    else if e == 102 then Some(12)
    else if e == 110 then Some(LF)
    else if e == 114 then Some(CR)
    else if e == 116 then Some(TAB)
    else None
  }

  /** The hex digits of a `\u` escape; a surrogate pair is decoded as in RFC 2781 section 2.2. */
  function ReadUnicodeEscape(s: bytes, nul: bool): (r: Parsed<bytes>)
    ensures r.Done? ==> |r.rest| <= |s|
  {
    match Hex4(s)
    case None => Fail
    case Some(u) =>
      if u == 0 && !nul then Fail
      else if 0xD800 <= u <= 0xDBFF then
        if |s| < 6 || s[4] != BACKSLASH || s[5] != 117 then Fail
        else
          match Hex4(s[6..])
          case None => Fail
          case Some(lo) =>
            if 0xDC00 <= lo <= 0xDFFF then Done(Utf8.Encode(FromSurrogates(u, lo)), s[10..]) else Fail
      else if 0xDC00 <= u <= 0xDFFF then Fail
      else Done(Utf8.Encode(u), s[4..])
  }

  function FromSurrogates(hi: int, lo: int): (r: int)
    requires 0xD800 <= hi <= 0xDBFF && 0xDC00 <= lo <= 0xDFFF
    ensures Utf8.IsScalar(r) && r >= 0x10000
  {
    0x10000 + (hi - 0xD800) * 0x400 + (lo - 0xDC00)
  }

  function HexValue(c: byte): (r: Option<int>)
    ensures r.Some? ==> 0 <= r.value < 16
  {
    if IsDigit(c) then Some((c - ZERO) as int)
    else if 97 <= c <= 102 then Some((c - 97) as int + 10)
    else if 65 <= c <= 70 then Some((c - 65) as int + 10)
    else None
  }

  /** The value of the four hex digits at the front. */
  function Hex4(s: bytes): (r: Option<int>)
    ensures r.Some? ==> |s| >= 4 && 0 <= r.value < 0x10000
  {
    if |s| < 4 then None
    else
      var a, b, c, d := HexValue(s[0]), HexValue(s[1]), HexValue(s[2]), HexValue(s[3]);
      if a.None? || b.None? || c.None? || d.None? then None
      else Some(((a.value * 16 + b.value) * 16 + c.value) * 16 + d.value)
  }

  // ---- Integers (RFC 8259 section 6, integers only) ----

  function DigitRun(s: bytes): (n: nat)
    ensures n <= |s|
    ensures forall i :: 0 <= i < n ==> IsDigit(s[i])
    ensures n < |s| ==> !IsDigit(s[n])
    decreases |s|
  {
    if s == [] || !IsDigit(s[0]) then 0 else 1 + DigitRun(s[1..])
  }

  predicate AllDigits(s: bytes) {
    forall c :: c in s ==> IsDigit(c)
  }

  /** The number a digit string denotes in base ten. */
  function Decimal(s: bytes): nat
    requires AllDigits(s)
    decreases |s|
  {
    if s == [] then 0
    else
      assert s[|s| - 1] in s;
      Decimal(s[..|s| - 1]) * 10 + (s[|s| - 1] - ZERO) as nat
  }

  function ReadInt(s: bytes): (r: Parsed<int>)
    ensures r.Done? ==> |r.rest| < |s|
  {
    var neg := s != [] && s[0] == MINUS;
    match ReadMagnitude(if neg then s[1..] else s)
    case Fail => Fail
    case Done(m, rest) => if neg && m == 0 then Fail else Done(if neg then -m else m, rest)
  }

  /** An integer part without a leading zero, with no fraction or exponent after it. */
  function ReadMagnitude(d: bytes): (r: Parsed<int>)
    ensures r.Done? ==> |r.rest| < |d| && 0 <= r.value <= MAX_SAFE_INT
  {
    var n := DigitRun(d);
    if n == 0 || (d[0] == ZERO && n > 1) then Fail
    else if n < |d| && (d[n] == DOT || d[n] == 101 || d[n] == 69) then Fail
    else if n > 16 || Decimal(d[..n]) > MAX_SAFE_INT then Fail
    else Done(Decimal(d[..n]), d[n..])
  }

  // ---- Values ----

  function ReadWord(s: bytes, word: bytes, v: Value): (r: Parsed<Value>)
    requires word != []
    ensures r.Done? ==> |r.rest| < |s|
  {
    if |s| < |word| || s[..|word|] != word then Fail else Done(v, s[|word|..])
  }

  /** One value at the front, met at the given nesting depth. */
  function ReadValue(s: bytes, depth: nat): (r: Parsed<Value>)
    ensures r.Done? ==> |r.rest| < |s|
    decreases |s|, 0
  {
    if depth >= MAX_DEPTH || s == [] then Fail
    else if s[0] == LBRACE then ReadObject(s[1..], depth)
    else if s[0] == LBRACKET then ReadArray(s[1..], depth)
    else if s[0] == QUOTE then
      match ReadString(s[1..], true)
      case Fail => Fail
      case Done(t, rest) => Done(Str(t), rest)
    else if s[0] == TRUE_WORD[0] then ReadWord(s, TRUE_WORD, Bool(true))
    else if s[0] == FALSE_WORD[0] then ReadWord(s, FALSE_WORD, Bool(false))
    else if s[0] == NULL_WORD[0] then ReadWord(s, NULL_WORD, Null)
    else if s[0] == MINUS || IsDigit(s[0]) then
      match ReadInt(s)
      case Fail => Fail
      case Done(n, rest) => Done(Int(n), rest)
    else Fail
  }

  /** An object from just after its opening brace. */
  function ReadObject(s: bytes, depth: nat): (r: Parsed<Value>)
    ensures r.Done? ==> |r.rest| < |s|
    decreases |s|, 2
  {
    var t := SkipSpace(s);
    if t != [] && t[0] == RBRACE then Done(Obj([]), t[1..])
    else
      match ReadMembers(s, depth, {})
      case Fail => Fail
      case Done(ms, rest) => Done(Obj(ms), rest)
  }

  /** The members up to the closing brace, none of them with a key already seen. */
  function ReadMembers(s: bytes, depth: nat, seen: set<bytes>): (r: Parsed<seq<Member>>)
    ensures r.Done? ==> |r.rest| < |s|
    decreases |s|, 1
  {
    match ReadMember(s, depth, seen)
    case Fail => Fail
    case Done(Item(m, more), rest) =>
      if more then WithMembers([m], ReadMembers(rest, depth, seen + {m.key})) else Done([m], rest)
  }

  /** One member and the comma or closing brace after it. */
  function ReadMember(s: bytes, depth: nat, seen: set<bytes>): (r: Parsed<Item<Member>>)
    ensures r.Done? ==> |r.rest| < |s|
    decreases |s|, 0
  {
    match ReadKey(s, seen)
    case Fail => Fail
    case Done(key, r1) =>
      match ReadValue(SkipSpace(r1), depth + 1)
      case Fail => Fail
      case Done(v, r2) =>
        match ReadSeparator(r2, RBRACE)
        case Fail => Fail
        case Done(more, rest) => Done(Item(Member(key, v), more), rest)
  }

  /** True for a comma, false for the closing octet. */
  function ReadSeparator(s: bytes, close: byte): (r: Parsed<bool>)
    ensures r.Done? ==> |r.rest| < |s|
  {
    var t := SkipSpace(s);
    if t == [] then Fail
    else if t[0] == COMMA then Done(true, t[1..])
    else if t[0] == close then Done(false, t[1..])
    else Fail
  }

  function WithMembers(ms: seq<Member>, r: Parsed<seq<Member>>): Parsed<seq<Member>> {
    match r
    case Fail => Fail
    case Done(more, rest) => Done(ms + more, rest)
  }

  /** A fresh key and its colon. */
  function ReadKey(s: bytes, seen: set<bytes>): (r: Parsed<bytes>)
    ensures r.Done? ==> |r.rest| < |s|
  {
    var t := SkipSpace(s);
    if t == [] || t[0] != QUOTE then Fail
    else
      match ReadString(t[1..], true)
      case Fail => Fail
      case Done(key, r1) =>
        var u := SkipSpace(r1);
        if key in seen || u == [] || u[0] != COLON then Fail else Done(key, u[1..])
  }

  /** An array from just after its opening bracket. */
  function ReadArray(s: bytes, depth: nat): (r: Parsed<Value>)
    ensures r.Done? ==> |r.rest| < |s|
    decreases |s|, 3
  {
    var t := SkipSpace(s);
    if t != [] && t[0] == RBRACKET then Done(Arr([]), t[1..])
    else
      match ReadElems(s, depth)
      case Fail => Fail
      case Done(es, rest) => Done(Arr(es), rest)
  }

  function ReadElems(s: bytes, depth: nat): (r: Parsed<seq<Value>>)
    ensures r.Done? ==> |r.rest| < |s|
    decreases |s|, 2
  {
    match ReadElem(s, depth)
    case Fail => Fail
    case Done(Item(v, more), rest) =>
      if more then WithElems([v], ReadElems(rest, depth)) else Done([v], rest)
  }

  function ReadElem(s: bytes, depth: nat): (r: Parsed<Item<Value>>)
    ensures r.Done? ==> |r.rest| < |s|
    decreases |s|, 1
  {
    match ReadValue(SkipSpace(s), depth + 1)
    case Fail => Fail
    case Done(v, r1) =>
      match ReadSeparator(r1, RBRACKET)
      case Fail => Fail
      case Done(more, rest) => Done(Item(v, more), rest)
  }

  function WithElems(es: seq<Value>, r: Parsed<seq<Value>>): Parsed<seq<Value>> {
    match r
    case Fail => Fail
    case Done(more, rest) => Done(es + more, rest)
  }

  // ---- Powers of ten bound what a numeral of some length may be ----

  function PowerOfTen(k: nat): nat {
    if k == 0 then 1 else 10 * PowerOfTen(k - 1)
  }

  lemma {:induction false} PowersGrow(a: nat, b: nat)
    requires a <= b
    ensures PowerOfTen(a) <= PowerOfTen(b)
  {
    if a < b {
      PowersGrow(a, b - 1);
    }
  }

  lemma TenToSixteen()
    ensures PowerOfTen(16) == 10_000_000_000_000_000
  {
    assert PowerOfTen(4) == 10_000;
    assert PowerOfTen(8) == 10_000 * PowerOfTen(4);
    assert PowerOfTen(12) == 10_000 * PowerOfTen(8);
  }
}
