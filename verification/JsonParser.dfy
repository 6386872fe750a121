/**
 The strict JSON reader as fragment/json.go writes it: a parser object whose methods
 move a position over the input.  Every method is proved equal to the function of
 `JsonReader` that reads from the current position.
 */
module JsonParser {
  import opened Bytes
  import opened JsonValue
  import opened JsonReader
  import Utf8

  method ParseJson(data: bytes) returns (r: ReadResult)
    ensures r == ReadDocument(data)
  {
    if !Utf8.Valid(data) {
      return InvalidUtf8;
    }
    var p := new Parser(data);
    assert data[0..] == data;
    p.SkipWhitespace();
    var v := p.ParseValue(0);
    if v.None? {
      return SyntaxError;
    }
    p.SkipWhitespace();
    if p.pos != |p.data| {
      return SyntaxError;
    }
    return Ok(v.value);
  }

  class Parser {
    const data: bytes
    var pos: nat

    constructor (data: bytes)
      ensures this.data == data && pos == 0
    {
      this.data := data;
      pos := 0;
    }

    ghost predicate Valid()
      reads this
    {
      pos <= |data|
    }

    /** What is left to read. */
    ghost function Rest(): bytes
      reads this
      requires Valid()
    {
      data[pos..]
    }

    /** The outcome `r` and the new position are what reading `spec` from the old position says. */
    ghost predicate Matches<T(!new)>(r: Option<T>, spec: Parsed<T>)
      reads this
    {
      && Valid()
      && match spec
         case Fail => r.None?
         case Done(v, rest) => r == Some(v) && Rest() == rest
    }

    method SkipWhitespace()
      requires Valid()
      modifies this
      ensures Valid() && old(pos) <= pos
      ensures Rest() == SkipSpace(old(Rest()))
    {
      while pos < |data| && IsSpace(data[pos])
        invariant old(pos) <= pos <= |data|
        invariant SkipSpace(data[pos..]) == SkipSpace(old(Rest()))
      {
        assert data[pos..][1..] == data[pos + 1..];
        pos := pos + 1;
      }
    }

    method ParseValue(depth: nat) returns (r: Option<Value>)
      requires Valid()
      modifies this
      ensures Matches(r, ReadValue(old(Rest()), depth))
      decreases |data| - pos, 1
    {
      if depth >= MAX_DEPTH || pos >= |data| {
        return None;
      }
      var c := data[pos];
      if c == LBRACE {
        r := ParseObject(depth);
      } else if c == LBRACKET {
        r := ParseArray(depth);
      } else if c == QUOTE {
        var s := ParseString();
        if s.None? {
          return None;
        }
        r := Some(Str(s.value));
      } else if c == TRUE_WORD[0] {
        r := ParseLiteral(TRUE_WORD, Bool(true));
      } else if c == FALSE_WORD[0] {
        r := ParseLiteral(FALSE_WORD, Bool(false));
      } else if c == NULL_WORD[0] {
        r := ParseLiteral(NULL_WORD, Null);
      } else if c == MINUS || IsDigit(c) {
        r := ParseNumber();
      } else {
        r := None;
      }
    }

    method ParseLiteral(word: bytes, v: Value) returns (r: Option<Value>)
      requires Valid() && word != []
      modifies this
      ensures Matches(r, ReadWord(old(Rest()), word, v))
    {
      if |data| - pos < |word| || data[pos..pos + |word|] != word {
        assert |data| - pos >= |word| ==> data[pos..][..|word|] == data[pos..pos + |word|];
        return None;
      }
      assert data[pos..][..|word|] == data[pos..pos + |word|];
      pos := pos + |word|;
      return Some(v);
    }

    method ParseObject(depth: nat) returns (r: Option<Value>)
      requires Valid() && pos < |data|
      modifies this
      ensures Matches(r, ReadObject(old(Rest())[1..], depth))
      decreases |data| - pos, 0
    {
      ghost var body := data[pos + 1..];
      pos := pos + 1;
      SkipWhitespace();
      if pos < |data| && data[pos] == RBRACE {
        pos := pos + 1;
        return Some(Obj([]));
      }
      var members: seq<Member> := [];
      var seen: set<bytes> := {};
      var more := true;
      ReadMembersSkips(body, depth, seen);
      WithNoMembers(ReadMembers(body, depth, seen));
      while more
        invariant Valid() && old(pos) < pos
        invariant more ==> WithMembers(members, ReadMembers(Rest(), depth, seen)) == ReadMembers(body, depth, {})
        invariant !more ==> Done(members, Rest()) == ReadMembers(body, depth, {})
        decreases more, |data| - pos
      {
        var item := ParseMember(depth, seen);
        if item.None? {
          return None;
        }
        var Item(m, comma) := item.value;
        MembersAssociate(members, [m], ReadMembers(Rest(), depth, seen + {m.key}));
        members, seen, more := members + [m], seen + {m.key}, comma;
      }
      return Some(Obj(members));
    }

    method ParseMember(depth: nat, seen: set<bytes>) returns (r: Option<Item<Member>>)
      requires Valid()
      modifies this
      ensures Matches(r, ReadMember(old(Rest()), depth, seen))
      decreases |data| - pos, 2
    {
      var key := ParseKey(seen);
      if key.None? {
        return None;
      }
      SkipWhitespace();
      var v := ParseValue(depth + 1);
      if v.None? {
        return None;
      }
      var more := ParseSeparator(RBRACE);
      return if more.None? then None else Some(Item(Member(key.value, v.value), more.value));
    }

    /** A member's key, not met before in this object, up to and over its colon. */
    method ParseKey(seen: set<bytes>) returns (r: Option<bytes>)
      requires Valid()
      modifies this
      ensures Matches(r, ReadKey(old(Rest()), seen))
    {
      SkipWhitespace();
      if pos >= |data| || data[pos] != QUOTE {
        return None;
      }
      var key := ParseString();
      if key.None? || key.value in seen {
        return None;
      }
      SkipWhitespace();
      if pos >= |data| || data[pos] != COLON {
        return None;
      }
      pos := pos + 1;
      return key;
    }

    method ParseSeparator(close: byte) returns (more: Option<bool>)
      requires Valid()
      modifies this
      ensures Matches(more, ReadSeparator(old(Rest()), close))
    {
      SkipWhitespace();
      if pos >= |data| {
        return None;
      }
      if data[pos] == COMMA {
        pos := pos + 1;
        return Some(true);
      }
      if data[pos] == close {
        pos := pos + 1;
        return Some(false);
      }
      return None;
    }

    method ParseArray(depth: nat) returns (r: Option<Value>)
      requires Valid() && pos < |data|
      modifies this
      ensures Matches(r, ReadArray(old(Rest())[1..], depth))
      decreases |data| - pos, 0
    {
      ghost var body := data[pos + 1..];
      pos := pos + 1;
      SkipWhitespace();
      if pos < |data| && data[pos] == RBRACKET {
        pos := pos + 1;
        return Some(Arr([]));
      }
      var elems: seq<Value> := [];
      var more := true;
      ReadElemsSkips(body, depth);
      WithNoElems(ReadElems(body, depth));
      while more
        invariant Valid() && old(pos) < pos
        invariant more ==> WithElems(elems, ReadElems(Rest(), depth)) == ReadElems(body, depth)
        invariant !more ==> Done(elems, Rest()) == ReadElems(body, depth)
        decreases more, |data| - pos
      {
        var item := ParseElem(depth);
        if item.None? {
          return None;
        }
        var Item(v, comma) := item.value;
        ElemsAssociate(elems, [v], ReadElems(Rest(), depth));
        elems, more := elems + [v], comma;
      }
      return Some(Arr(elems));
    }

    method ParseElem(depth: nat) returns (r: Option<Item<Value>>)
      requires Valid()
      modifies this
      ensures Matches(r, ReadElem(old(Rest()), depth))
      decreases |data| - pos, 2
    {
      SkipWhitespace();
      var v := ParseValue(depth + 1);
      if v.None? {
        return None;
      }
      var more := ParseSeparator(RBRACKET);
      return if more.None? then None else Some(Item(v.value, more.value));
    }

    method ParseNumber() returns (r: Option<Value>)
      requires Valid() && pos < |data| && (data[pos] == MINUS || IsDigit(data[pos]))
      modifies this
      ensures Matches(r, match ReadInt(old(Rest()))
                         case Fail => Fail
                         case Done(n, rest) => Done(Int(n), rest))
    {
      var neg := data[pos] == MINUS;
      if neg {
        pos := pos + 1;
      }
      var m := ParseMagnitude();
      if m.None? || (neg && m.value == 0) {
        return None;
      }
      return Some(Int(if neg then -m.value else m.value));
    }

    method ParseMagnitude() returns (r: Option<int>)
      requires Valid()
      modifies this
      ensures Matches(r, ReadMagnitude(old(Rest())))
    {
      var start := pos;
      ghost var d := Rest();
      var ok := ScanDigits();
      if !ok {
        return None;
      }
      assert pos < |data| ==> data[pos] == d[DigitRun(d)];
      if pos < |data| && (data[pos] == DOT || data[pos] == 101 || data[pos] == 69) {
        return None;
      }
      var digits := data[start..pos];
      assert digits == d[..DigitRun(d)];
      if |digits| > 16 {
        return None;
      }
      var magnitude := DigitsValue(digits);
      return if magnitude > MAX_SAFE_INT then None else Some(magnitude);
    }

    /** Moves over an integer part: one digit, or several without a leading zero. */
    method ScanDigits() returns (ok: bool)
      requires Valid()
      modifies this
      ensures Valid() && old(pos) <= pos
      ensures ok == var d := old(Rest()); var n := DigitRun(d); n > 0 && !(d[0] == ZERO && n > 1)
      ensures ok ==> pos == old(pos) + DigitRun(old(Rest()))
    {
      ghost var d := Rest();
      if pos >= |data| || !IsDigit(data[pos]) {
        return false;
      }
      var zero := data[pos] == ZERO;
      pos := pos + 1;
      assert d[1..] == data[pos..];
      if zero {
        return pos >= |data| || !IsDigit(data[pos]);
      }
      while pos < |data| && IsDigit(data[pos])
        invariant old(pos) < pos <= |data|
        invariant pos - old(pos) + DigitRun(data[pos..]) == DigitRun(d)
      {
        assert data[pos..][1..] == data[pos + 1..];
        pos := pos + 1;
      }
      return true;
    }

    method ParseString() returns (r: Option<bytes>)
      requires Valid() && pos < |data|
      modifies this
      ensures Matches(r, ReadString(old(Rest())[1..], true))
    {
      hide ReadChar;
      ghost var body := data[pos + 1..];
      pos := pos + 1;
      var out: bytes := [];
      PrependNothing(ReadString(body, true));
      while true
        invariant Valid() && old(pos) < pos
        invariant Prepend(out, ReadString(Rest(), true)) == ReadString(body, true)
        decreases |data| - pos
      {
        var c := ParseChar();
        if c.None? {
          return None;
        }
        if c.value.None? {
          assert out + [] == out;
          return Some(out);
        }
        PrependPrepend(out, c.value.value, ReadString(Rest(), true));
        out := out + c.value.value;
      }
    }

    /** One turn of the string loop: a raw octet, an escape, or the closing quote. */
    method ParseChar() returns (r: Option<Option<bytes>>)
      requires Valid()
      modifies this
      ensures Matches(r, ReadChar(old(Rest()), true))
    {
      if pos >= |data| {
        return None;
      }
      var c := data[pos];
      if c == QUOTE {
        pos := pos + 1;
        return Some(None);
      }
      if c < 0x20 {
        return None;
      }
      pos := pos + 1;
      if c != BACKSLASH {
        return Some(Some([c]));
      }
      var e := ParseEscape();
      return if e.None? then None else Some(e);
    }

    method ParseEscape() returns (r: Option<bytes>)
      requires Valid()
      modifies this
      ensures Matches(r, ReadEscape(old(Rest()), true)) && old(pos) <= pos
    {
      if pos >= |data| {
        return None;
      }
      var e := data[pos];
      ghost var s := data[pos + 1..];
      pos := pos + 1;
      if e != 117 {
        var c := SimpleEscape(e);
        return if c.None? then None else Some([c.value]);
      }
      var u := ParseHex4();
      if u.None? {
        return None;
      }
      var scalar := u.value;
      if 0xD800 <= u.value <= 0xDBFF {
        if pos + 1 >= |data| || data[pos] != BACKSLASH || data[pos + 1] != 117 {
          return None;
        }
        pos := pos + 2;
        assert data[pos..] == s[6..];
        var lo := ParseHex4();
        if lo.None? || !(0xDC00 <= lo.value <= 0xDFFF) {
          return None;
        }
        scalar := FromSurrogates(u.value, lo.value);
      } else if 0xDC00 <= u.value <= 0xDFFF {
        return None;
      }
      return Some(Utf8.Encode(scalar));
    }

    method ParseHex4() returns (r: Option<int>)
      requires Valid()
      modifies this
      ensures Valid() && r == Hex4(old(Rest()))
      ensures pos == if r.Some? then old(pos) + 4 else old(pos)
    {
      if |data| - pos < 4 {
        return None;
      }
      var acc := 0;
      ghost var s := Rest();
      for i := 0 to 4
        invariant pos == old(pos)
        invariant forall k :: 0 <= k < i ==> HexValue(s[k]).Some?
        invariant i == 0 ==> acc == 0
        invariant i == 1 ==> acc == HexValue(s[0]).value
        invariant i == 2 ==> acc == HexValue(s[0]).value * 16 + HexValue(s[1]).value
        invariant i == 3 ==> acc == (HexValue(s[0]).value * 16 + HexValue(s[1]).value) * 16 + HexValue(s[2]).value
        invariant i == 4 ==> Hex4(s) == Some(acc)
      {
        var d := HexValue(data[pos + i]);
        assert data[pos + i] == s[i];
        if d.None? {
          return None;
        }
        acc := acc * 16 + d.value;
      }
      pos := pos + 4;
      return Some(acc);
    }
  }

  /** The decimal accumulation loop; sixteen digits keep it inside an int64. */
  method DigitsValue(digits: bytes) returns (n: int)
    requires AllDigits(digits) && |digits| <= 16
    ensures n == Decimal(digits) && n < 0x8000_0000_0000_0000
  {
    n := 0;
    for i := 0 to |digits|
      invariant n == Decimal(digits[..i]) && n < PowerOfTen(i)
    {
      assert digits[..i + 1][..i] == digits[..i];
      assert digits[i] in digits;
      n := n * 10 + (digits[i] - ZERO) as int;
    }
    assert digits[..|digits|] == digits;
    PowersGrow(|digits|, 16);
    assert PowerOfTen(16) == 10_000_000_000_000_000 by { TenToSixteen(); }
  }

  // ---- One turn of each loop, on the specification side ----

  lemma PrependPrepend(a: bytes, b: bytes, r: Parsed<bytes>)
    ensures Prepend(a, Prepend(b, r)) == Prepend(a + b, r)
  {
    if r.Done? {
      assert a + (b + r.value) == a + b + r.value;
    }
  }

  lemma MembersAssociate(a: seq<Member>, b: seq<Member>, r: Parsed<seq<Member>>)
    ensures WithMembers(a, WithMembers(b, r)) == WithMembers(a + b, r)
  {
    if r.Done? {
      assert a + (b + r.value) == a + b + r.value;
    }
  }

  lemma ElemsAssociate(a: seq<Value>, b: seq<Value>, r: Parsed<seq<Value>>)
    ensures WithElems(a, WithElems(b, r)) == WithElems(a + b, r)
  {
    if r.Done? {
      assert a + (b + r.value) == a + b + r.value;
    }
  }

  lemma PrependNothing(r: Parsed<bytes>)
    ensures Prepend([], r) == r
  {
    if r.Done? {
      assert [] + r.value == r.value;
    }
  }

  lemma WithNoMembers(r: Parsed<seq<Member>>)
    ensures WithMembers([], r) == r
  {
    if r.Done? {
      assert [] + r.value == r.value;
    }
  }

  lemma WithNoElems(r: Parsed<seq<Value>>)
    ensures WithElems([], r) == r
  {
    if r.Done? {
      assert [] + r.value == r.value;
    }
  }

  lemma SkipTwice(s: bytes)
    ensures SkipSpace(SkipSpace(s)) == SkipSpace(s)
  {
  }

  lemma ReadElemsSkips(s: bytes, depth: nat)
    ensures ReadElems(SkipSpace(s), depth) == ReadElems(s, depth)
  {
    SkipTwice(s);
  }

  lemma ReadMembersSkips(s: bytes, depth: nat, seen: set<bytes>)
    ensures ReadMembers(SkipSpace(s), depth, seen) == ReadMembers(s, depth, seen)
  {
    SkipTwice(s);
  }
}
