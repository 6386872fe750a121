/**
 The tokenizer of the member wire reader (memberwire/lex.go).  `Lex` says what token
 list and which faults an input has; the methods below are the loops of the source,
 proved to compute it.
 */
module WireLexer {
  import opened Bytes
  import P = JsonParser
  import R = JsonReader
  import opened JsonValue
  import Utf8

  datatype Token =
    | BraceOpen | BraceClose | BracketOpen | BracketClose | Colon | Comma
    | StrToken(text: bytes)
    | NumToken(n: int)
    | TrueToken | FalseToken | NullToken

  /** Faults are recorded and judged only after encoding and grammar have been. */
  datatype Faults = Faults(bounds: bool, schema: bool) {
    function Or(f: Faults): Faults { Faults(bounds || f.bounds, schema || f.schema) }
  }

  const NO_FAULTS := Faults(false, false)

  datatype Lexed = BadEncoding | Lexed(tokens: seq<Token>, faults: Faults)

  /** One turn of the scan: no token for whitespace and comments, otherwise one. */
  datatype Lexeme = NoLexeme | Lexeme(tokens: seq<Token>, faults: Faults, rest: bytes)

  const STRING_LIMIT: nat := 4096

  const NAN_WORD: bytes := [78, 97, 78]
  const INFINITY_WORD: bytes := [73, 110, 102, 105, 110, 105, 116, 121]

  function Lex(s: bytes): Lexed
    decreases |s|
  {
    if s == [] then Lexed([], NO_FAULTS)
    else
      match NextLexeme(s)
      case NoLexeme => BadEncoding
      case Lexeme(ts, f, rest) => Joined(ts, f, Lex(rest))
  }

  function Joined(ts: seq<Token>, f: Faults, later: Lexed): Lexed {
    match later
    case BadEncoding => BadEncoding
    case Lexed(us, g) => Lexed(ts + us, f.Or(g))
  }

  function NextLexeme(s: bytes): (r: Lexeme)
    requires s != []
    ensures r.Lexeme? ==> |r.rest| < |s|
  {
    if IsSpace(s[0]) then Lexeme([], NO_FAULTS, s[1..])
    else if Punctuation(s[0]).Some? then Lexeme([Punctuation(s[0]).value], NO_FAULTS, s[1..])
    else if s[0] == QUOTE then
      match R.ReadString(s[1..], false)
      case Fail => NoLexeme
      case Done(t, rest) => Lexeme([StrToken(t)], Faults(|t| > STRING_LIMIT, false), rest)
    else if s[0] == SLASH && |s| > 1 && s[1] == SLASH then
      Lexeme([], Faults(false, true), SkipLine(s[2..]))
    else if s[0] == SLASH && |s| > 1 && s[1] == 42 then
      match CommentEnd(s[2..])
      case None => NoLexeme
      case Some(end) => Lexeme([], Faults(false, true), s[end + 4..])
    else NextWord(s)
  }

  /** A bare word is what stands where no other lexeme does. */
  function NextWord(s: bytes): (r: Lexeme)
    ensures r.Lexeme? ==> |r.rest| < |s|
  {
    var n := WordLength(s);
    if n == 0 then NoLexeme
    else
      match WordToken(s[..n])
      case None => NoLexeme
      case Some((t, f)) => Lexeme([t], f, s[n..])
  }

  function Punctuation(c: byte): Option<Token> {
    if c == LBRACE then Some(BraceOpen)
    else if c == RBRACE then Some(BraceClose)
    else if c == LBRACKET then Some(BracketOpen)
    else if c == RBRACKET then Some(BracketClose)
    else if c == COLON then Some(Colon)
    else if c == COMMA then Some(Comma)
    else None
  }

  predicate Delimiter(c: byte) {
    IsSpace(c) || Punctuation(c).Some? || c == SLASH
  }

  function SkipLine(s: bytes): (r: bytes)
    ensures |r| <= |s|
    decreases |s|
  {
    if s == [] || s[0] == LF then s else SkipLine(s[1..])
  }

  /** Where the first comment terminator begins. */
  function CommentEnd(s: bytes): (r: Option<nat>)
    ensures r.Some? ==> r.value + 2 <= |s|
    decreases |s|
  {
    if |s| < 2 then None
    else if s[0] == 42 && s[1] == SLASH then Some(0)
    else
      match CommentEnd(s[1..])
      case None => None
      case Some(i) => Some(i + 1)
  }

  function WordLength(s: bytes): (n: nat)
    ensures n <= |s|
    ensures forall i :: 0 <= i < n ==> !Delimiter(s[i])
    ensures n < |s| ==> Delimiter(s[n])
    decreases |s|
  {
    if s == [] || Delimiter(s[0]) then 0 else 1 + WordLength(s[1..])
  }

  function WordToken(w: bytes): Option<(Token, Faults)>
    requires w != []
  {
    if w == R.TRUE_WORD then Some((TrueToken, NO_FAULTS))
    else if w == R.FALSE_WORD then Some((FalseToken, NO_FAULTS))
    else if w == R.NULL_WORD then Some((NullToken, NO_FAULTS))
    else if NumberLike(w) then Some((NumToken(WordValue(w)), Faults(Overflows(w), !IsNumeral(w))))
    else None
  }

  predicate NumberLike(w: bytes)
    requires w != []
  {
    IsDigit(w[0]) || w[0] == MINUS || w[0] == PLUS || w[0] == DOT || w == NAN_WORD || w == INFINITY_WORD
  }

  predicate IsNumeral(w: bytes) {
    w != [] && !(|w| > 1 && w[0] == ZERO) && R.AllDigits(w)
  }

  predicate Overflows(w: bytes) {
    IsNumeral(w) && R.Decimal(w) > MAX_SAFE_INT
  }

  function WordValue(w: bytes): int {
    if IsNumeral(w) && !Overflows(w) then R.Decimal(w) else 0
  }

  // ---- The scan as written ----

  method Tokenize(raw: bytes) returns (r: Lexed)
    ensures r == Lex(raw)
  {
    var out: seq<Token>, f, i := [], NO_FAULTS, 0;
    assert raw[0..] == raw;
    JoinedNothing(Lex(raw));
    while i < |raw|
      invariant i <= |raw|
      invariant Joined(out, f, Lex(raw[i..])) == Lex(raw)
    {
      var e := ScanLexeme(raw, i);
      if e.NoLexeme? {
        return BadEncoding;
      }
      ghost var next := |raw| - |e.rest|;
      assert raw[next..] == e.rest;
      JoinedJoined(out, f, e.tokens, e.faults, Lex(e.rest));
      out, f, i := out + e.tokens, f.Or(e.faults), |raw| - |e.rest|;
    }
    assert out + [] == out;
    return Lexed(out, f);
  }

  /** One turn of the scan, starting at `i`; the new index is where `rest` begins. */
  method ScanLexeme(raw: bytes, i: nat) returns (r: Lexeme)
    requires i < |raw|
    ensures r == NextLexeme(raw[i..])
    ensures r.Lexeme? ==> i < |raw| - |r.rest| <= |raw| && raw[|raw| - |r.rest|..] == r.rest
  {
    ghost var s := raw[i..];
    var c := raw[i];
    if IsSpace(c) {
      return Lexeme([], NO_FAULTS, raw[i + 1..]);
    }
    if Punctuation(c).Some? {
      return Lexeme([Punctuation(c).value], NO_FAULTS, raw[i + 1..]);
    }
    if c == QUOTE {
      var t, end, ok := StringToken(raw, i);
      return if ok then Lexeme([StrToken(t)], Faults(|t| > STRING_LIMIT, false), raw[end..]) else NoLexeme;
    }
    if c == SLASH && i + 1 < |raw| && (raw[i + 1] == SLASH || raw[i + 1] == 42) {
      var end := ScanComment(raw, i);
      return if end.None? then NoLexeme else Lexeme([], Faults(false, true), raw[end.value..]);
    }
    r := ScanWordToken(raw, i);
  }

  method ScanWordToken(raw: bytes, i: nat) returns (r: Lexeme)
    requires i < |raw|
    ensures r == NextWord(raw[i..])
    ensures r.Lexeme? ==> i < |raw| - |r.rest| <= |raw| && raw[|raw| - |r.rest|..] == r.rest
  {
    var end := ScanWord(raw, i);
    if end == i {
      return NoLexeme;
    }
    var w := raw[i..end];
    assert w == raw[i..][..end - i] && raw[i..][end - i..] == raw[end..];
    if w == R.TRUE_WORD {
      return Lexeme([TrueToken], NO_FAULTS, raw[end..]);
    }
    if w == R.FALSE_WORD {
      return Lexeme([FalseToken], NO_FAULTS, raw[end..]);
    }
    if w == R.NULL_WORD {
      return Lexeme([NullToken], NO_FAULTS, raw[end..]);
    }
    if !NumberLike(w) {
      return NoLexeme;
    }
    var n, lexical, overflow := NumberToken(w);
    return Lexeme([NumToken(n)], Faults(overflow, !lexical), raw[end..]);
  }

  method ScanComment(raw: bytes, i: nat) returns (end: Option<nat>)
    requires i + 1 < |raw| && raw[i] == SLASH && (raw[i + 1] == SLASH || raw[i + 1] == 42)
    ensures end.Some? ==> i + 2 <= end.value <= |raw|
    ensures raw[i + 1] == SLASH ==> end.Some? && raw[end.value..] == SkipLine(raw[i + 2..])
    ensures raw[i + 1] == 42 && CommentEnd(raw[i + 2..]).None? ==> end.None?
    ensures raw[i + 1] == 42 && CommentEnd(raw[i + 2..]).Some? ==>
              end == Some(i + 4 + CommentEnd(raw[i + 2..]).value)
  {
    var j := i + 2;
    if raw[i + 1] == SLASH {
      while j < |raw| && raw[j] != LF
        invariant i + 2 <= j <= |raw|
        invariant SkipLine(raw[j..]) == SkipLine(raw[i + 2..])
      {
        assert raw[j..][1..] == raw[j + 1..];
        j := j + 1;
      }
      return Some(j);
    }
    while j + 1 < |raw|
      invariant i + 2 <= j <= |raw|
      invariant CommentEnd(raw[i + 2..]) ==
                match CommentEnd(raw[j..])
                case None => None
                case Some(k) => Some(k + (j - (i + 2)))
    {
      if raw[j] == 42 && raw[j + 1] == SLASH {
        return Some(j + 2);
      }
      assert raw[j..][1..] == raw[j + 1..];
      j := j + 1;
    }
    return None;
  }

  method ScanWord(raw: bytes, start: nat) returns (i: nat)
    requires start < |raw|
    ensures i == start + WordLength(raw[start..])
  {
    i := start;
    while i < |raw| && !Delimiter(raw[i])
      invariant start <= i <= |raw|
      invariant i + WordLength(raw[i..]) == start + WordLength(raw[start..])
    {
      assert raw[i..][1..] == raw[i + 1..];
      i := i + 1;
    }
  }

  /** The accumulation of lex.go: the overflow test keeps `n` within the safe range throughout. */
  method NumberToken(w: bytes) returns (n: int, lexical: bool, overflow: bool)
    ensures lexical == IsNumeral(w) && overflow == Overflows(w) && n == WordValue(w)
  {
    if |w| == 0 || (|w| > 1 && w[0] == ZERO) {
      return 0, false, false;
    }
    for i := 0 to |w|
      invariant forall k :: 0 <= k < i ==> IsDigit(w[k])
    {
      if !IsDigit(w[i]) {
        assert w[i] in w;
        return 0, false, false;
      }
    }
    n := 0;
    for i := 0 to |w|
      invariant n == R.Decimal(w[..i]) && n <= MAX_SAFE_INT
    {
      var d := (w[i] - ZERO) as int;
      assert w[..i + 1][..i] == w[..i];
      if n > (MAX_SAFE_INT - d) / 10 {
        assert R.Decimal(w[..i + 1]) > MAX_SAFE_INT;
        DecimalGrows(w, i + 1);
        return 0, true, true;
      }
      n := n * 10 + d;
    }
    assert w[..|w|] == w;
    return n, true, false;
  }

  lemma {:induction false} DecimalGrows(w: bytes, k: nat)
    requires k <= |w| && R.AllDigits(w)
    ensures R.Decimal(w[..k]) <= R.Decimal(w)
    decreases |w|
  {
    if k < |w| {
      var p := w[..|w| - 1];
      assert p[..k] == w[..k] && w[|w| - 1] in w;
      DecimalGrows(p, k);
      assert R.Decimal(w) == R.Decimal(p) * 10 + (w[|w| - 1] - ZERO) as nat;
    } else {
      assert w[..k] == w;
    }
  }

  method StringToken(raw: bytes, start: nat) returns (text: bytes, end: nat, ok: bool)
    requires start < |raw|
    ensures ok <==> R.ReadString(raw[start + 1..], false).Done?
    ensures ok ==> start < end <= |raw| && R.ReadString(raw[start + 1..], false) == Done(text, raw[end..])
  {
    ghost var body := R.ReadString(raw[start + 1..], false);
    var b: bytes, i := [], start + 1;
    P.PrependNothing(body);
    while i < |raw|
      invariant start < i <= |raw|
      invariant R.Prepend(b, R.ReadString(raw[i..], false)) == body
    {
      var c := raw[i];
      ghost var s := raw[i..];
      assert s[1..] == raw[i + 1..];
      i := i + 1;
      if c == QUOTE {
        assert b + [] == b;
        return b, i, true;
      }
      if c < 0x20 {
        return [], 0, false;
      }
      if c != BACKSLASH {
        P.PrependPrepend(b, [c], R.ReadString(raw[i..], false));
        b := b + [c];
        continue;
      }
      var out, next, valid := EscapeToken(raw, i);
      if !valid {
        return [], 0, false;
      }
      P.PrependPrepend(b, out, R.ReadString(raw[next..], false));
      b, i := b + out, next;
    }
    return [], 0, false;
  }

  /** The escape after a backslash at `i - 1`. */
  method EscapeToken(raw: bytes, i: nat) returns (out: bytes, next: nat, ok: bool)
    requires i <= |raw|
    ensures ok <==> R.ReadEscape(raw[i..], false).Done?
    ensures ok ==> i < next <= |raw| && R.ReadEscape(raw[i..], false) == Done(out, raw[next..])
  {
    if i >= |raw| {
      return [], 0, false;
    }
    var c := raw[i];
    ghost var s := raw[i + 1..];
    assert raw[i..][1..] == s;
    if c != 117 {
      var e := R.SimpleEscape(c);
      if e.None? {
        return [], 0, false;
      }
      return [e.value], i + 1, true;
    }
    var u := HexQuad(raw, i + 1);
    if u.None? || u.value == 0 {
      return [], 0, false;
    }
    var j := i + 5;
    assert raw[j..] == s[4..];
    var scalar := u.value;
    if 0xD800 <= u.value <= 0xDBFF {
      if j + 6 > |raw| || raw[j] != BACKSLASH || raw[j + 1] != 117 {
        HexQuadShort(s);
        return [], 0, false;
      }
      assert raw[j + 2..] == s[6..];
      var low := HexQuad(raw, j + 2);
      if low.None? || low.value < 0xDC00 || low.value > 0xDFFF {
        return [], 0, false;
      }
      j := j + 6;
      assert raw[j..] == s[10..];
      scalar := R.FromSurrogates(u.value, low.value);
    } else if 0xDC00 <= u.value <= 0xDFFF {
      return [], 0, false;
    }
    return Utf8.Encode(scalar), j, true;
  }

  lemma HexQuadShort(s: bytes)
    ensures |s| >= 6 && |s| < 10 ==> R.Hex4(s[6..]).None?
  {
  }

  method HexQuad(raw: bytes, i: nat) returns (r: Option<int>)
    requires i <= |raw|
    ensures r == R.Hex4(raw[i..])
  {
    if i + 4 > |raw| {
      return None;
    }
    var n := 0;
    ghost var s := raw[i..];
    for k := 0 to 4
      invariant forall j :: 0 <= j < k ==> R.HexValue(s[j]).Some?
      invariant k == 0 ==> n == 0
      invariant k == 1 ==> n == R.HexValue(s[0]).value
      invariant k == 2 ==> n == R.HexValue(s[0]).value * 16 + R.HexValue(s[1]).value
      invariant k == 3 ==> n == (R.HexValue(s[0]).value * 16 + R.HexValue(s[1]).value) * 16 + R.HexValue(s[2]).value
      invariant k == 4 ==> R.Hex4(s) == Some(n)
    {
      var d := R.HexValue(raw[i + k]);
      assert raw[i + k] == s[k];
      if d.None? {
        return None;
      }
      n := n * 16 + d.value;
    }
    return Some(n);
  }

  lemma JoinedNothing(l: Lexed)
    ensures Joined([], NO_FAULTS, l) == l
  {
    if l.Lexed? {
      assert [] + l.tokens == l.tokens;
    }
  }

  lemma JoinedJoined(a: seq<Token>, f: Faults, b: seq<Token>, g: Faults, l: Lexed)
    ensures Joined(a, f, Joined(b, g, l)) == Joined(a + b, f.Or(g), l)
  {
    if l.Lexed? {
      assert a + (b + l.tokens) == a + b + l.tokens;
    }
  }
}
