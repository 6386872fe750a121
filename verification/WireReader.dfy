/**
 The member wire reader as a whole (memberwire/lex.go parseObject), and its relation to
 the strict reader of fragment/json.go: it accepts exactly the documents the strict
 reader reads as an object that keeps the wire limits, and both denote the same tree.
 */
module WireReader {
  import opened Bytes
  import opened JsonValue
  import opened WireLexer
  import opened WireGrammar
  import opened WireMachine
  import opened JsonCanonical
  import R = JsonReader
  import G = JsonGrammar
  import E = JsonGrammarExact
  import JsonRange
  import Utf8

  const REQUEST_LIMIT: nat := 65536

  const BOM: bytes := [0xEF, 0xBB, 0xBF]

  datatype WireResult =
    | Accepted(fields: map<bytes, Meaning>)
    | EncodingInvalid
    | BoundsExceeded
    | SchemaInvalid

  /** What the reader answers: encoding and grammar come first, then bounds, then schema. */
  function Judge(raw: bytes): WireResult {
    if |raw| > REQUEST_LIMIT then BoundsExceeded
    else if !Utf8.Valid(raw) || BOM <= raw || 0 in raw then EncodingInvalid
    else
      match Lex(raw)
      case BadEncoding => EncodingInvalid
      case Lexed(ts, f) =>
        match Take(ts)
        case NoTree => EncodingInvalid
        case Tree(v, rest) =>
          if rest != [] || !v.Obj? then EncodingInvalid
          else if f.bounds || !Within(v) then BoundsExceeded
          else if f.schema || !Distinct(v) then SchemaInvalid
          else Accepted(MeansMap(v.members))
  }

  method ParseObject(raw: bytes) returns (r: WireResult)
    ensures r == Judge(raw)
  {
    if |raw| > REQUEST_LIMIT {
      return BoundsExceeded;
    }
    if !Utf8.Valid(raw) || BOM <= raw || 0 in raw {
      return EncodingInvalid;
    }
    var lexed := Tokenize(raw);
    if lexed.BadEncoding? {
      return EncodingInvalid;
    }
    var tokens := lexed.tokens;
    var verdict := Grammar(tokens, lexed.faults);
    if tokens != [] && tokens[0] == BraceOpen {
      GrammarExact(tokens, lexed.faults);
    }
    if verdict.None? {
      return EncodingInvalid;
    }
    if verdict.value.bounds {
      return BoundsExceeded;
    }
    if verdict.value.schema {
      return SchemaInvalid;
    }
    ghost var v := Take(tokens).value;
    FlattenTake(tokens);
    assert tokens[0..] == tokens;
    var built, end := BuildValue(tokens, 0, v, []);
    return Accepted(built.fields);
  }

  // ---- Which refusal is given ----

  /** The octets are text for this reader. */
  predicate Encoded(raw: bytes) {
    Utf8.Valid(raw) && !(BOM <= raw) && 0 !in raw
  }

  /** The tokens are just those of this object. */
  predicate Written(raw: bytes, v: Value) {
    Encoded(raw) && Lex(raw).Lexed? && v.Obj? && Lex(raw).tokens == Flatten(v)
  }

  predicate BreaksBounds(raw: bytes, v: Value)
    requires Written(raw, v)
  {
    Lex(raw).faults.bounds || Nesting(v) > DEPTH_LIMIT || Count(v) > NODE_LIMIT
  }

  predicate BreaksSchema(raw: bytes, v: Value)
    requires Written(raw, v)
  {
    Lex(raw).faults.schema || !Distinct(v)
  }

  /** A document too long breaks the bounds whatever it says; otherwise one that no object is written as is refused for
      its encoding, then one that breaks the bounds, whatever else it breaks, then one that breaks the schema. */
  lemma JudgedExactly(raw: bytes)
    ensures Judge(raw).EncodingInvalid? <==> |raw| <= REQUEST_LIMIT && !exists v :: Written(raw, v)
    ensures Judge(raw).BoundsExceeded? <==> |raw| > REQUEST_LIMIT || exists v :: Written(raw, v) && BreaksBounds(raw, v)
    ensures Judge(raw).SchemaInvalid? <==>
            |raw| <= REQUEST_LIMIT && exists v :: Written(raw, v) && !BreaksBounds(raw, v) && BreaksSchema(raw, v)
    ensures forall v :: |raw| <= REQUEST_LIMIT && Written(raw, v) && !BreaksBounds(raw, v) && !BreaksSchema(raw, v) ==>
              Judge(raw) == Accepted(MeansMap(v.members))
  {
    if Encoded(raw) && Lex(raw).Lexed? {
      var ts := Lex(raw).tokens;
      forall v | ts == Flatten(v)
        ensures Take(ts) == Tree(v, [])
      {
        TakeFlatten(v, []);
        assert Flatten(v) + [] == Flatten(v);
      }
      if Take(ts).Tree? && Take(ts).rest == [] {
        FlattenTake(ts);
        assert Flatten(Take(ts).value) + [] == Flatten(Take(ts).value);
        assert Take(ts).value.Obj? ==> Written(raw, Take(ts).value);
      }
    }
  }

  // ---- The wire limits on a value tree ----

  /** Every string, key or value, is free of U+0000 and within the string limit; no integer is negative. */
  predicate Plain(v: Value) {
    match v
    case Int(n) => n >= 0
    case Str(t) => PlainText(t)
    case Arr(es) => forall e :: e in es ==> Plain(e)
    case Obj(ms) => forall m :: m in ms ==> PlainText(m.key) && Plain(m.value)
    case _ => true
  }

  predicate PlainText(t: bytes) {
    0 !in t && |t| <= STRING_LIMIT
  }

  // ---- The scan over a clean input ----

  predicate Clean(l: Lexed, ts: seq<Token>) {
    l == Lexed(ts, NO_FAULTS)
  }

  lemma {:induction false} LexSkipsSpace(s: bytes)
    ensures Lex(R.SkipSpace(s)) == Lex(s)
    decreases |s|
  {
    if s != [] && IsSpace(s[0]) {
      LexSkipsSpace(s[1..]);
      JoinedNothing(Lex(s[1..]));
    }
  }

  /** With no fault recorded, the first token is the first lexeme after whitespace. */
  lemma LexHead(s: bytes, ts: seq<Token>)
    requires Clean(Lex(s), ts) && ts != []
    ensures var t := R.SkipSpace(s);
            && t != [] && !IsSpace(t[0])
            && NextLexeme(t).Lexeme? && NextLexeme(t).tokens == [ts[0]] && NextLexeme(t).faults == NO_FAULTS
            && Clean(Lex(NextLexeme(t).rest), ts[1..])
  {
    LexSkipsSpace(s);
    var t := R.SkipSpace(s);
    SkipSpaceStops(s);
    var e := NextLexeme(t);
    var Lexed(us, g) := Lex(e.rest);
    assert ts == e.tokens + us;
    assert ts[1..] == us;
  }

  lemma {:induction false} SkipSpaceStops(s: bytes)
    ensures R.SkipSpace(s) != [] ==> !IsSpace(R.SkipSpace(s)[0])
    decreases |s|
  {
    if s != [] && IsSpace(s[0]) {
      SkipSpaceStops(s[1..]);
    }
  }

  /** A punctuation token comes from its own octet. */
  lemma LexPunctuation(s: bytes, ts: seq<Token>)
    requires Clean(Lex(s), ts) && ts != []
    ensures var t := R.SkipSpace(s);
            && t != []
            && (Punctuation(t[0]) == Some(ts[0]) || Punctuation(t[0]) == None)
            && (Punctuation(t[0]).Some? ==> Clean(Lex(t[1..]), ts[1..]))
            && (Punctuation(t[0]).None? ==>
                  ts[0] != BraceOpen && ts[0] != BraceClose && ts[0] != BracketOpen && ts[0] != BracketClose
                  && ts[0] != Colon && ts[0] != Comma)
  {
    LexHead(s, ts);
  }

  /** A string token comes from a quoted string the strict reader reads alike. */
  lemma LexString(s: bytes, ts: seq<Token>)
    requires Clean(Lex(s), ts) && ts != [] && ts[0].StrToken?
    ensures var t := R.SkipSpace(s);
            && t != [] && t[0] == QUOTE && |ts[0].text| <= STRING_LIMIT
            && R.ReadString(t[1..], true).Done? && R.ReadString(t[1..], true).value == ts[0].text
            && Clean(Lex(R.ReadString(t[1..], true).rest), ts[1..])
  {
    LexHead(s, ts);
    var t := R.SkipSpace(s);
    ReadStringNul(t[1..]);
  }

  // ---- Strings: the two readers differ only over U+0000 ----

  lemma {:induction false} ReadStringNul(s: bytes)
    ensures R.ReadString(s, false).Done? ==> R.ReadString(s, true) == R.ReadString(s, false)
    ensures R.ReadString(s, true).Done? && 0 !in R.ReadString(s, true).value ==>
              R.ReadString(s, false) == R.ReadString(s, true)
    decreases |s|
  {
    ReadCharNul(s);
    var c := R.ReadChar(s, true);
    if c.Done? && c.value.Some? {
      ReadStringNul(c.rest);
      var later := R.ReadString(c.rest, true);
      if later.Done? {
        assert R.ReadString(s, true).value == c.value.value + later.value;
      }
    }
  }

  lemma ReadCharNul(s: bytes)
    ensures R.ReadChar(s, false).Done? ==> R.ReadChar(s, true) == R.ReadChar(s, false)
    ensures var c := R.ReadChar(s, true);
            c.Done? && (c.value.Some? ==> 0 !in c.value.value) ==> R.ReadChar(s, false) == c
  {
    if s != [] && s[0] == BACKSLASH && |s| > 1 && s[1] == 117 {
      var h := s[1..][1..];
      if R.Hex4(h) == Some(0) {
        assert Utf8.Encode(0) == [0];
        assert 0 in [0 as byte];
      }
    }
  }

  // ---- Numbers and words ----

  lemma WordDigits(t: bytes)
    requires R.AllDigits(t[..WordLength(t)])
    ensures R.DigitRun(t) == WordLength(t)
  {
    var n := WordLength(t);
    forall i | 0 <= i < n
      ensures IsDigit(t[i])
    {
      assert t[i] == t[..n][i];
    }
  }

  lemma {:induction false} LongNumeral(w: bytes)
    requires R.AllDigits(w) && |w| >= 1 && w[0] != ZERO
    ensures R.Decimal(w) >= R.PowerOfTen(|w| - 1)
    decreases |w|
  {
    var p := w[..|w| - 1];
    assert w[0] in w && w[|w| - 1] in w;
    if |w| > 1 {
      assert forall c :: c in p ==> c in w;
      LongNumeral(p);
    } else {
      assert p == [];
    }
  }

  lemma SafeNumeralLength(w: bytes)
    requires IsNumeral(w) && R.Decimal(w) <= MAX_SAFE_INT
    ensures |w| <= 16
  {
    if |w| > 16 {
      LongNumeral(w);
      R.PowersGrow(16, |w| - 1);
      assert R.PowerOfTen(16) > MAX_SAFE_INT by { R.TenToSixteen(); }
    }
  }

  /** A number token comes from a numeral the strict reader reads alike. */
  lemma LexNumber(s: bytes, ts: seq<Token>)
    requires Clean(Lex(s), ts) && ts != [] && ts[0].NumToken?
    ensures var t := R.SkipSpace(s);
            && t != [] && IsDigit(t[0])
            && R.ReadInt(t).Done? && R.ReadInt(t).value == ts[0].n >= 0
            && Clean(Lex(R.ReadInt(t).rest), ts[1..])
  {
    LexHead(s, ts);
    hide Lex, R.SkipSpace;
    NumberHead(R.SkipSpace(s));
  }

  lemma NumberHead(t: bytes)
    requires t != [] && NextLexeme(t).Lexeme? && NextLexeme(t).faults == NO_FAULTS
    requires |NextLexeme(t).tokens| == 1 && NextLexeme(t).tokens[0].NumToken?
    ensures IsDigit(t[0])
    ensures R.ReadInt(t).Done? && R.ReadInt(t).value == NextLexeme(t).tokens[0].n >= 0
    ensures R.ReadInt(t).rest == NextLexeme(t).rest
  {
    var n := WordLength(t);
    var w := t[..n];
    assert NextLexeme(t) == NextWord(t);
    assert IsNumeral(w) && !Overflows(w);
    hide NextLexeme, NextWord;
    assert w[0] in w;
    WordDigits(t);
    SafeNumeralLength(w);
  }

  lemma LexWord(s: bytes, ts: seq<Token>, word: bytes, v: Value)
    requires Clean(Lex(s), ts) && ts != []
    requires (ts[0] == TrueToken && word == R.TRUE_WORD) || (ts[0] == FalseToken && word == R.FALSE_WORD)
             || (ts[0] == NullToken && word == R.NULL_WORD)
    ensures var t := R.SkipSpace(s);
            && t != [] && t[0] == word[0]
            && R.ReadWord(t, word, v).Done? && R.ReadWord(t, word, v).value == v
            && Clean(Lex(R.ReadWord(t, word, v).rest), ts[1..])
  {
    LexHead(s, ts);
    hide Lex, R.SkipSpace;
    var t := R.SkipSpace(s);
    assert NextLexeme(t) == NextWord(t);
    assert t[..WordLength(t)] == word;
    assert t[0] == word[0];
  }

  // ---- Whatever the scan finds clean, the strict reader reads ----

  /** If the clean token list starts with the tokens of `v`, the strict reader reads `v` there. */
  lemma {:induction false} ReadLexed(v: Value, s: bytes, later: seq<Token>, depth: nat)
    requires Clean(Lex(s), Flatten(v) + later)
    requires Distinct(v) && depth + Height(v) <= MAX_DEPTH
    ensures var r := R.ReadValue(R.SkipSpace(s), depth);
            r.Done? && r.value == v && Plain(v) && Clean(Lex(r.rest), later)
    decreases v, 0
  {
    hide Lex, R.SkipSpace, R.ReadObject, R.ReadArray, R.ReadString, R.ReadInt, R.ReadWord, PlainText;
    var ts := Flatten(v) + later;
    var t := R.SkipSpace(s);
    match v
    case Arr(es) =>
      LexPunctuation(s, ts);
      assert ts[1..] == FlattenElems(es) + [BracketClose] + later;
      ReadLexedArray(es, t[1..], later, depth);
    case Obj(ms) =>
      LexPunctuation(s, ts);
      assert ts[1..] == FlattenMembers(ms) + [BraceClose] + later;
      ReadLexedObject(ms, t[1..], later, depth);
    case _ =>
      ReadLexedScalar(v, s, later, depth);
  }

  lemma ReadLexedScalar(v: Value, s: bytes, later: seq<Token>, depth: nat)
    requires Clean(Lex(s), Flatten(v) + later) && !v.Arr? && !v.Obj? && depth < MAX_DEPTH
    ensures var r := R.ReadValue(R.SkipSpace(s), depth);
            r.Done? && r.value == v && Plain(v) && Clean(Lex(r.rest), later)
  {
    var ts := Flatten(v) + later;
    assert ts[1..] == later;
    hide Lex;
    match v
    case Null => LexWord(s, ts, R.NULL_WORD, Null);
    case Bool(b) => LexWord(s, ts, if b then R.TRUE_WORD else R.FALSE_WORD, v);
    case Int(n) => LexNumber(s, ts);
    case Str(x) =>
      LexString(s, ts);
      LexStringPlain(s, ts);
  }

  lemma LexStringPlain(s: bytes, ts: seq<Token>)
    requires Clean(Lex(s), ts) && ts != [] && ts[0].StrToken?
    ensures PlainText(ts[0].text)
  {
    LexHead(s, ts);
    var t := R.SkipSpace(s);
    ReadStringNoNul(t[1..]);
  }

  lemma {:induction false} ReadStringNoNul(s: bytes)
    requires R.ReadString(s, false).Done?
    ensures 0 !in R.ReadString(s, false).value
    decreases |s|
  {
    var c := R.ReadChar(s, false);
    if c.value.Some? {
      ReadStringNoNul(c.rest);
      ReadCharNoNul(s);
    }
  }

  lemma ReadCharNoNul(s: bytes)
    requires R.ReadChar(s, false).Done? && R.ReadChar(s, false).value.Some?
    ensures 0 !in R.ReadChar(s, false).value.value
  {
    if s[0] == BACKSLASH && s[1] == 117 {
      var h := s[1..][1..];
      var u := R.Hex4(h).value;
      if 0xD800 <= u <= 0xDBFF {
        Utf8.EncodeDecode(R.FromSurrogates(u, R.Hex4(h[6..]).value));
      } else {
        Utf8.EncodeDecode(u);
      }
    }
  }

  lemma {:induction false} ReadLexedArray(es: seq<Value>, s: bytes, later: seq<Token>, depth: nat)
    requires Clean(Lex(s), FlattenElems(es) + [BracketClose] + later)
    requires (forall e :: e in es ==> Distinct(e)) && depth + 1 + ElemsHeight(es) <= MAX_DEPTH
    ensures var r := R.ReadArray(s, depth);
            r.Done? && r.value == Arr(es) && Plain(Arr(es)) && Clean(Lex(r.rest), later)
    decreases es, 2
  {
    var ts := FlattenElems(es) + [BracketClose] + later;
    ElemsHead(es, later);
    LexPunctuation(s, ts);
    if es == [] {
      assert ts[1..] == later;
    } else {
      ReadLexedElems(es, s, later, depth);
    }
  }

  lemma {:induction false} ReadLexedElems(es: seq<Value>, s: bytes, later: seq<Token>, depth: nat)
    requires es != [] && Clean(Lex(s), FlattenElems(es) + [BracketClose] + later)
    requires (forall e :: e in es ==> Distinct(e)) && depth + 1 + ElemsHeight(es) <= MAX_DEPTH
    ensures var r := R.ReadElems(s, depth);
            r.Done? && r.value == es && (forall e :: e in es ==> Plain(e)) && Clean(Lex(r.rest), later)
    decreases es, 1
  {
    hide Lex, R.ReadValue;
    var tail := SplitElems(es, later);
    ReadLexed(es[0], s, tail, depth + 1);
    var r1 := R.ReadValue(R.SkipSpace(s), depth + 1).rest;
    LexSeparator(r1, tail, BracketClose, RBRACKET);
    if |es| > 1 {
      ElemsTailMore(es, tail, later);
      ReadLexedElems(es[1..], R.SkipSpace(r1)[1..], later, depth);
      assert es == [es[0]] + es[1..];
    } else {
      ElemsTailLast(es, tail, later);
      assert es == [es[0]];
    }
  }

  lemma ElemsTailMore(es: seq<Value>, tail: seq<Token>, later: seq<Token>)
    requires |es| > 1 && FlattenElems(es) + [BracketClose] + later == Flatten(es[0]) + tail
    ensures tail != [] && tail[0] == Comma && tail[1..] == FlattenElems(es[1..]) + [BracketClose] + later
  {
    Associate(Flatten(es[0]), FlattenMoreElems(es[1..]), [BracketClose], later);
    assert tail == (Flatten(es[0]) + tail)[|Flatten(es[0])|..];
    MoreElems(es[1..], later);
  }

  lemma ElemsTailLast(es: seq<Value>, tail: seq<Token>, later: seq<Token>)
    requires |es| == 1 && FlattenElems(es) + [BracketClose] + later == Flatten(es[0]) + tail
    ensures tail != [] && tail[0] == BracketClose && tail[1..] == later
  {
    assert tail == (Flatten(es[0]) + tail)[|Flatten(es[0])|..];
  }

  /** A comma or closing token is a separator to the strict reader. */
  lemma LexSeparator(r1: bytes, tail: seq<Token>, closing: Token, close: byte)
    requires Clean(Lex(r1), tail) && tail != [] && (tail[0] == Comma || tail[0] == closing)
    requires (closing == BracketClose && close == RBRACKET) || (closing == BraceClose && close == RBRACE)
    ensures var t := R.SkipSpace(r1);
            t != [] && R.ReadSeparator(r1, close) == Done(tail[0] == Comma, t[1..]) && Clean(Lex(t[1..]), tail[1..])
  {
    LexPunctuation(r1, tail);
  }

  lemma {:induction false} ReadLexedObject(ms: seq<Member>, s: bytes, later: seq<Token>, depth: nat)
    requires Clean(Lex(s), FlattenMembers(ms) + [BraceClose] + later)
    requires UniqueKeys(ms) && (forall m :: m in ms ==> Distinct(m.value)) && depth + 1 + MembersHeight(ms) <= MAX_DEPTH
    ensures var r := R.ReadObject(s, depth);
            r.Done? && r.value == Obj(ms) && Plain(Obj(ms)) && Clean(Lex(r.rest), later)
    decreases ms, 2
  {
    var ts := FlattenMembers(ms) + [BraceClose] + later;
    MembersHead(ms, later);
    LexPunctuation(s, ts);
    if ms == [] {
      assert ts[1..] == later;
    } else {
      ReadLexedMembers(ms, s, later, depth, {});
    }
  }

  lemma {:induction false} ReadLexedMembers(ms: seq<Member>, s: bytes, later: seq<Token>, depth: nat, seen: set<bytes>)
    requires ms != [] && Clean(Lex(s), FlattenMembers(ms) + [BraceClose] + later)
    requires UniqueKeys(ms) && (forall m :: m in ms ==> Distinct(m.value)) && depth + 1 + MembersHeight(ms) <= MAX_DEPTH
    requires forall m :: m in ms ==> m.key !in seen
    ensures var r := R.ReadMembers(s, depth, seen);
            && r.Done? && r.value == ms && Clean(Lex(r.rest), later)
            && forall m :: m in ms ==> PlainText(m.key) && Plain(m.value)
    decreases ms, 1
  {
    hide Lex, R.ReadValue, R.ReadKey;
    var ts := FlattenMembers(ms) + [BraceClose] + later;
    var m := ms[0];
    var tail := SplitMembers(ms, later);
    MembersColon(ms, later);
    LexKey(s, ts, seen);
    var r1 := R.ReadKey(s, seen).rest;
    ReadLexed(m.value, r1, tail, depth + 1);
    var r2 := R.ReadValue(R.SkipSpace(r1), depth + 1).rest;
    if |ms| > 1 {
      MembersTailMore(ms, tail, later);
      LexSeparator(r2, tail, BraceClose, RBRACE);
      ReadLexedMembers(ms[1..], R.SkipSpace(r2)[1..], later, depth, seen + {m.key});
      assert ms == [m] + ms[1..];
    } else {
      MembersTailLast(ms, tail, later);
      LexSeparator(r2, tail, BraceClose, RBRACE);
      assert ms == [m];
    }
  }

  lemma MembersColon(ms: seq<Member>, later: seq<Token>)
    requires ms != []
    ensures var ts := FlattenMembers(ms) + [BraceClose] + later;
            |ts| >= 2 && ts[0] == StrToken(ms[0].key) && ts[1] == Colon && |FlattenMembers(ms)| > 2
  {
    assert FlattenMembers(ms) == FlattenMember(ms[0]) + FlattenMoreMembers(ms[1..]);
  }

  lemma MembersTailMore(ms: seq<Member>, tail: seq<Token>, later: seq<Token>)
    requires |ms| > 1 && |FlattenMembers(ms)| > 2
    requires (FlattenMembers(ms) + [BraceClose] + later)[2..] == Flatten(ms[0].value) + tail
    ensures tail != [] && tail[0] == Comma && tail[1..] == FlattenMembers(ms[1..]) + [BraceClose] + later
  {
    var more := FlattenMoreMembers(ms[1..]) + [BraceClose] + later;
    Associate(FlattenMember(ms[0]), FlattenMoreMembers(ms[1..]), [BraceClose], later);
    MembersTokens(ms[0], more);
    SameTail(Flatten(ms[0].value), tail, more);
    MoreMembers(ms[1..], later);
  }

  lemma MembersTailLast(ms: seq<Member>, tail: seq<Token>, later: seq<Token>)
    requires |ms| == 1 && |FlattenMembers(ms)| > 2
    requires (FlattenMembers(ms) + [BraceClose] + later)[2..] == Flatten(ms[0].value) + tail
    ensures tail != [] && tail[0] == BraceClose && tail[1..] == later
  {
    var more := FlattenMoreMembers(ms[1..]) + [BraceClose] + later;
    Associate(FlattenMember(ms[0]), FlattenMoreMembers(ms[1..]), [BraceClose], later);
    MembersTokens(ms[0], more);
    SameTail(Flatten(ms[0].value), tail, more);
  }

  lemma SameTail(a: seq<Token>, b: seq<Token>, c: seq<Token>)
    requires a + b == a + c
    ensures b == c
  {
    assert (a + b)[|a|..] == b && (a + c)[|a|..] == c;
  }

  lemma LexKey(s: bytes, ts: seq<Token>, seen: set<bytes>)
    requires Clean(Lex(s), ts) && |ts| >= 2 && ts[0].StrToken? && ts[1] == Colon && ts[0].text !in seen
    ensures var r := R.ReadKey(s, seen);
            r.Done? && r.value == ts[0].text && PlainText(ts[0].text) && Clean(Lex(r.rest), ts[2..])
  {
    LexString(s, ts);
    LexStringPlain(s, ts);
    var r1 := R.ReadString(R.SkipSpace(s)[1..], true).rest;
    LexPunctuation(r1, ts[1..]);
    assert ts[1..][1..] == ts[2..];
  }

  // ---- Whatever the strict reader reads, the scan finds ----

  /** Where a word or number may end. */
  predicate Ends(r: bytes) {
    r == [] || Delimiter(r[0])
  }

  lemma WordEnds(s: bytes, n: nat)
    requires 0 < n <= |s| && Ends(s[n..]) && forall i :: 0 <= i < n ==> !Delimiter(s[i])
    ensures WordLength(s) == n
  {
    if n < |s| {
      assert s[n] == s[n..][0];
    }
  }

  lemma LexReadInt(s: bytes)
    requires R.ReadInt(s).Done? && R.ReadInt(s).value >= 0 && Ends(R.ReadInt(s).rest)
    ensures NextLexeme(s) == Lexeme([NumToken(R.ReadInt(s).value)], NO_FAULTS, R.ReadInt(s).rest)
  {
    var n := R.DigitRun(s);
    assert s[0] != MINUS;
    WordEnds(s, n);
    var w := s[..n];
    assert IsNumeral(w);
    assert NextLexeme(s) == NextWord(s);
  }

  lemma LexReadWord(s: bytes, word: bytes, v: Value)
    requires (word == R.TRUE_WORD && v == Bool(true)) || (word == R.FALSE_WORD && v == Bool(false))
             || (word == R.NULL_WORD && v == Null)
    requires R.ReadWord(s, word, v).Done? && Ends(R.ReadWord(s, word, v).rest)
    ensures NextLexeme(s) == Lexeme(Flatten(v), NO_FAULTS, R.ReadWord(s, word, v).rest)
  {
    var n := |word|;
    forall i | 0 <= i < n
      ensures !Delimiter(s[i])
    {
      assert s[i] == s[..n][i] == word[i];
    }
    WordEnds(s, n);
    assert s[0] == word[0];
    assert NextLexeme(s) == NextWord(s);
  }

  lemma LexReadString(s: bytes)
    requires s != [] && s[0] == QUOTE && R.ReadString(s[1..], true).Done?
    requires PlainText(R.ReadString(s[1..], true).value)
    ensures NextLexeme(s) ==
            Lexeme([StrToken(R.ReadString(s[1..], true).value)], NO_FAULTS, R.ReadString(s[1..], true).rest)
  {
    ReadStringNul(s[1..]);
  }

  lemma LexStep(s: bytes, ts: seq<Token>, r: bytes)
    requires s != [] && NextLexeme(s) == Lexeme(ts, NO_FAULTS, r)
    ensures Lex(s) == Joined(ts, NO_FAULTS, Lex(r))
  {
  }

  /** If the strict reader reads a plain value, the scan yields exactly its tokens there. */
  lemma {:induction false} LexRead(s: bytes, depth: nat)
    requires R.ReadValue(s, depth).Done? && Plain(R.ReadValue(s, depth).value) && Ends(R.ReadValue(s, depth).rest)
    ensures Lex(s) == Joined(Flatten(R.ReadValue(s, depth).value), NO_FAULTS, Lex(R.ReadValue(s, depth).rest))
    decreases |s|, 0
  {
    var Done(v, r) := R.ReadValue(s, depth);
    if s[0] == LBRACE {
      LexStep(s, [BraceOpen], s[1..]);
      LexReadObject(s[1..], depth);
      Unbracket(BraceOpen, FlattenMembers(v.members), BraceClose, Lex(r));
    } else if s[0] == LBRACKET {
      LexStep(s, [BracketOpen], s[1..]);
      LexReadArray(s[1..], depth);
      Unbracket(BracketOpen, FlattenElems(v.elems), BracketClose, Lex(r));
    } else {
      LexReadScalar(s, depth);
    }
  }

  lemma LexReadScalar(s: bytes, depth: nat)
    requires R.ReadValue(s, depth).Done? && Plain(R.ReadValue(s, depth).value) && Ends(R.ReadValue(s, depth).rest)
    requires s[0] != LBRACE && s[0] != LBRACKET
    ensures Lex(s) == Joined(Flatten(R.ReadValue(s, depth).value), NO_FAULTS, Lex(R.ReadValue(s, depth).rest))
  {
    var Done(v, r) := R.ReadValue(s, depth);
    if s[0] == QUOTE {
      LexReadString(s);
    } else if s[0] == MINUS || IsDigit(s[0]) {
      LexReadInt(s);
    } else {
      LexReadWord(s, if s[0] == R.TRUE_WORD[0] then R.TRUE_WORD else if s[0] == R.FALSE_WORD[0] then R.FALSE_WORD else R.NULL_WORD, v);
    }
    LexStep(s, Flatten(v), r);
  }

  lemma Unbracket(open: Token, ts: seq<Token>, close: Token, l: Lexed)
    ensures Joined([open], NO_FAULTS, Joined(ts + [close], NO_FAULTS, l)) == Joined([open] + ts + [close], NO_FAULTS, l)
  {
    JoinedJoined([open], NO_FAULTS, ts + [close], NO_FAULTS, l);
    assert [open] + (ts + [close]) == [open] + ts + [close];
  }

  /** A separator after optional whitespace. */
  lemma LexReadSeparator(r1: bytes, close: byte)
    requires R.ReadSeparator(r1, close).Done? && (close == RBRACKET || close == RBRACE)
    ensures Ends(r1)
    ensures var Done(more, r) := R.ReadSeparator(r1, close);
            Lex(r1) == Joined([if more then Comma else if close == RBRACKET then BracketClose else BraceClose], NO_FAULTS, Lex(r))
  {
    var t := R.SkipSpace(r1);
    LexSkipsSpace(r1);
    LexStep(t, [Punctuation(t[0]).value], t[1..]);
  }

  lemma {:induction false} LexReadArray(s: bytes, depth: nat)
    requires R.ReadArray(s, depth).Done? && Plain(R.ReadArray(s, depth).value)
    ensures var Done(v, r) := R.ReadArray(s, depth);
            v.Arr? && Lex(s) == Joined(FlattenElems(v.elems) + [BracketClose], NO_FAULTS, Lex(r))
    decreases |s|, 3
  {
    hide Lex, R.ReadElems, R.ReadValue, R.SkipSpace;
    var t := R.SkipSpace(s);
    if t != [] && t[0] == RBRACKET {
      LexSkipsSpace(s);
      LexStep(t, [BracketClose], t[1..]);
    } else {
      LexReadElems(s, depth);
    }
  }

  lemma {:induction false} LexReadElems(s: bytes, depth: nat)
    requires R.ReadElems(s, depth).Done? && forall e :: e in R.ReadElems(s, depth).value ==> Plain(e)
    ensures var Done(es, r) := R.ReadElems(s, depth);
            es != [] && Lex(s) == Joined(FlattenElems(es) + [BracketClose], NO_FAULTS, Lex(r))
    decreases |s|, 2
  {
    hide Lex, R.ReadValue, R.ReadSeparator;
    var Done(v, r1) := R.ReadValue(R.SkipSpace(s), depth + 1);
    var Done(more, r2) := R.ReadSeparator(r1, RBRACKET);
    var es := R.ReadElems(s, depth).value;
    assert v == es[0];
    LexSkipsSpace(s);
    LexReadSeparator(r1, RBRACKET);
    LexRead(R.SkipSpace(s), depth + 1);
    if more {
      LexReadElems(r2, depth);
      var later := R.ReadElems(r2, depth).value;
      assert es == [v] + later;
      JoinElems(v, later, Lex(R.ReadElems(r2, depth).rest));
    } else {
      assert es == [v];
      JoinedJoined(Flatten(v), NO_FAULTS, [BracketClose], NO_FAULTS, Lex(r2));
      assert FlattenElems([v]) == Flatten(v) + [];
    }
  }

  lemma JoinElems(v: Value, es: seq<Value>, l: Lexed)
    requires es != []
    ensures Joined(Flatten(v), NO_FAULTS, Joined([Comma], NO_FAULTS, Joined(FlattenElems(es) + [BracketClose], NO_FAULTS, l)))
            == Joined(FlattenElems([v] + es) + [BracketClose], NO_FAULTS, l)
  {
    assert ([v] + es)[1..] == es;
    MoreElems(es, []);
    var tail := FlattenMoreElems(es) + [BracketClose] + [];
    assert tail == FlattenMoreElems(es) + [BracketClose];
    assert FlattenElems(es) + [BracketClose] + [] == FlattenElems(es) + [BracketClose];
    assert [Comma] + tail[1..] == tail;
    JoinedJoined([Comma], NO_FAULTS, tail[1..], NO_FAULTS, l);
    JoinedJoined(Flatten(v), NO_FAULTS, tail, NO_FAULTS, l);
    assert Flatten(v) + tail == FlattenElems([v] + es) + [BracketClose];
  }

  lemma {:induction false} LexReadObject(s: bytes, depth: nat)
    requires R.ReadObject(s, depth).Done? && Plain(R.ReadObject(s, depth).value)
    ensures var Done(v, r) := R.ReadObject(s, depth);
            v.Obj? && Lex(s) == Joined(FlattenMembers(v.members) + [BraceClose], NO_FAULTS, Lex(r))
    decreases |s|, 3
  {
    hide Lex, R.ReadMembers, R.ReadValue, R.SkipSpace;
    var t := R.SkipSpace(s);
    if t != [] && t[0] == RBRACE {
      LexSkipsSpace(s);
      LexStep(t, [BraceClose], t[1..]);
    } else {
      LexReadMembers(s, depth, {});
    }
  }

  lemma LexReadKey(s: bytes, seen: set<bytes>)
    requires R.ReadKey(s, seen).Done? && PlainText(R.ReadKey(s, seen).value)
    ensures Lex(s) == Joined([StrToken(R.ReadKey(s, seen).value), Colon], NO_FAULTS, Lex(R.ReadKey(s, seen).rest))
  {
    hide Lex, R.ReadString;
    var t := R.SkipSpace(s);
    LexSkipsSpace(s);
    LexReadString(t);
    var Done(key, r1) := R.ReadString(t[1..], true);
    LexStep(t, [StrToken(key)], r1);
    LexReadColon(r1);
    var rest := R.SkipSpace(r1)[1..];
    JoinedJoined([StrToken(key)], NO_FAULTS, [Colon], NO_FAULTS, Lex(rest));
  }

  lemma LexReadColon(r1: bytes)
    requires R.SkipSpace(r1) != [] && R.SkipSpace(r1)[0] == COLON
    ensures Lex(r1) == Joined([Colon], NO_FAULTS, Lex(R.SkipSpace(r1)[1..]))
  {
    LexSkipsSpace(r1);
    var u := R.SkipSpace(r1);
    LexStep(u, [Colon], u[1..]);
  }

  lemma {:induction false} LexReadMembers(s: bytes, depth: nat, seen: set<bytes>)
    requires R.ReadMembers(s, depth, seen).Done?
    requires forall m :: m in R.ReadMembers(s, depth, seen).value ==> PlainText(m.key) && Plain(m.value)
    ensures var Done(ms, r) := R.ReadMembers(s, depth, seen);
            ms != [] && Lex(s) == Joined(FlattenMembers(ms) + [BraceClose], NO_FAULTS, Lex(r))
    decreases |s|, 2
  {
    hide Lex, R.ReadValue, R.ReadSeparator, R.ReadKey;
    var Done(key, r0) := R.ReadKey(s, seen);
    var Done(v, r1) := R.ReadValue(R.SkipSpace(r0), depth + 1);
    var Done(more, r2) := R.ReadSeparator(r1, RBRACE);
    var ms := R.ReadMembers(s, depth, seen).value;
    var m := Member(key, v);
    assert m == ms[0];
    LexReadKey(s, seen);
    LexSkipsSpace(r0);
    LexReadSeparator(r1, RBRACE);
    LexRead(R.SkipSpace(r0), depth + 1);
    JoinedJoined([StrToken(key), Colon], NO_FAULTS, Flatten(v), NO_FAULTS, Lex(r1));
    if more {
      LexReadMembers(r2, depth, seen + {key});
      var later := R.ReadMembers(r2, depth, seen + {key}).value;
      assert ms == [m] + later;
      JoinMembers(m, later, Lex(R.ReadMembers(r2, depth, seen + {key}).rest));
    } else {
      assert ms == [m];
      JoinedJoined(FlattenMember(m), NO_FAULTS, [BraceClose], NO_FAULTS, Lex(r2));
      assert FlattenMembers([m]) == FlattenMember(m) + [];
    }
  }

  lemma JoinMembers(m: Member, ms: seq<Member>, l: Lexed)
    requires ms != []
    ensures Joined(FlattenMember(m), NO_FAULTS, Joined([Comma], NO_FAULTS, Joined(FlattenMembers(ms) + [BraceClose], NO_FAULTS, l)))
            == Joined(FlattenMembers([m] + ms) + [BraceClose], NO_FAULTS, l)
  {
    assert ([m] + ms)[1..] == ms;
    MoreMembers(ms, []);
    var tail := FlattenMoreMembers(ms) + [BraceClose] + [];
    assert tail == FlattenMoreMembers(ms) + [BraceClose];
    assert FlattenMembers(ms) + [BraceClose] + [] == FlattenMembers(ms) + [BraceClose];
    assert [Comma] + tail[1..] == tail;
    JoinedJoined([Comma], NO_FAULTS, tail[1..], NO_FAULTS, l);
    JoinedJoined(FlattenMember(m), NO_FAULTS, tail, NO_FAULTS, l);
    assert FlattenMember(m) + tail == FlattenMembers([m] + ms) + [BraceClose];
  }

  // ---- The remaining differences are never met on accepted input ----

  lemma {:induction false} ReadStringSkipsNul(s: bytes)
    requires R.ReadString(s, false).Done? && 0 in s
    ensures 0 in R.ReadString(s, false).rest
    decreases |s|
  {
    var c := R.ReadChar(s, false);
    ReadCharSkipsNul(s);
    if c.value.Some? {
      ReadStringSkipsNul(c.rest);
    }
  }

  lemma ReadCharSkipsNul(s: bytes)
    requires R.ReadChar(s, false).Done? && 0 in s
    ensures 0 in R.ReadChar(s, false).rest
  {
    if s[0] == BACKSLASH {
      var e := s[1..];
      assert 0 in e;
      if e[0] == 117 {
        var h := e[1..];
        assert 0 in h;
        DropNonNul(h, 4);
        if 0xD800 <= R.Hex4(h).value <= 0xDBFF {
          DropNonNul(h, 10);
        }
      }
    }
  }

  lemma DropNonNul(h: bytes, k: nat)
    requires k <= |h| && 0 in h && forall i :: 0 <= i < k ==> h[i] != 0
    ensures 0 in h[k..]
  {
    var i :| 0 <= i < |h| && h[i] == 0;
    assert h[k..][i - k] == 0;
  }

  /** An input that scans clean holds no NUL octet. */
  lemma {:induction false} CleanHasNoNul(s: bytes)
    requires Lex(s).Lexed? && Lex(s).faults == NO_FAULTS
    ensures 0 !in s
    decreases |s|
  {
    if s != [] {
      var e := NextLexeme(s);
      CleanHasNoNul(e.rest);
      if s[0] == QUOTE {
        if 0 in s[1..] {
          ReadStringSkipsNul(s[1..]);
        }
      } else if IsSpace(s[0]) || Punctuation(s[0]).Some? {
      } else {
        WordHasNoNul(s);
      }
    }
  }

  lemma WordHasNoNul(s: bytes)
    requires s != [] && !IsSpace(s[0]) && Punctuation(s[0]).None? && s[0] != QUOTE
    requires NextLexeme(s).Lexeme? && NextLexeme(s).faults == NO_FAULTS && 0 !in NextLexeme(s).rest
    ensures 0 !in s
  {
    assert NextLexeme(s) == NextWord(s);
    var n := WordLength(s);
    var w := s[..n];
    assert 0 !in w;
    assert s == w + s[n..];
  }

  lemma {:induction false} StrictDistinct(v: Value)
    requires Strict(v)
    ensures Distinct(v)
    decreases v
  {
    if v.Arr? {
      forall e | e in v.elems
        ensures Distinct(e)
      {
        StrictDistinct(e);
      }
    } else if v.Obj? {
      forall m | m in v.members
        ensures Distinct(m.value)
      {
        StrictDistinct(m.value);
      }
    }
  }

  lemma {:induction false} HeightNesting(v: Value)
    ensures Height(v) <= Nesting(v) + 1
    decreases v, 0
  {
    match v
    case Arr(es) => ElemsHeightNesting(es);
    case Obj(ms) => MembersHeightNesting(ms);
    case _ =>
  }

  lemma {:induction false} ElemsHeightNesting(es: seq<Value>)
    ensures ElemsHeight(es) <= ElemsNesting(es) + 1
    decreases es, 1
  {
    if es != [] {
      HeightNesting(es[0]);
      ElemsHeightNesting(es[1..]);
    }
  }

  lemma {:induction false} MembersHeightNesting(ms: seq<Member>)
    ensures MembersHeight(ms) <= MembersNesting(ms) + 1
    decreases ms, 1
  {
    if ms != [] {
      HeightNesting(ms[0].value);
      MembersHeightNesting(ms[1..]);
    }
  }

  lemma CleanEmpty(s: bytes)
    requires Clean(Lex(s), [])
    ensures R.SkipSpace(s) == []
  {
    LexSkipsSpace(s);
    SkipSpaceStops(s);
    var t := R.SkipSpace(s);
    assert t == [] || !Clean(Lex(t), []);
  }

  // ---- Main result ----

  /** What the wire format asks of a document beyond the strict reader. */
  predicate WireDocument(raw: bytes, v: Value) {
    && R.ReadDocument(raw) == R.Ok(v)
    && v.Obj? && Plain(v) && Within(v)
    && |raw| <= REQUEST_LIMIT
  }

  lemma AcceptedIsRead(raw: bytes)
    requires Judge(raw).Accepted?
    ensures exists v :: WireDocument(raw, v) && Judge(raw).fields == MeansMap(v.members)
  {
    var ts := Lex(raw).tokens;
    var v := Take(ts).value;
    FlattenTake(ts);
    HeightNesting(v);
    ReadLexed(v, raw, [], 0);
    CleanEmpty(R.ReadValue(R.SkipSpace(raw), 0).rest);
    assert WireDocument(raw, v);
  }

  lemma ReadIsAccepted(raw: bytes, v: Value)
    requires WireDocument(raw, v)
    ensures Judge(raw) == Accepted(MeansMap(v.members))
  {
    hide Take, Flatten, R.ReadValue, Utf8.Valid, MeansMap, Within, Distinct, Plain;
    var s := R.SkipSpace(raw);
    var r := R.ReadValue(s, 0).rest;
    LexSkipsSpace(raw);
    LexSkipsSpace(r);
    LexRead(s, 0);
    assert Flatten(v) + [] == Flatten(v);
    TakeFlatten(v, []);
    CleanHasNoNul(raw);
    JsonCanonical.ReadAdmissible(raw);
    StrictDistinct(v);
  }

  /** The two readers agree: the wire reader accepts an input exactly when the strict reader reads it as an
      object within the wire limits, and then both denote the same fields. */
  lemma ReadersAgree(raw: bytes, fields: map<bytes, Meaning>)
    ensures Judge(raw) == Accepted(fields) <==> exists v :: WireDocument(raw, v) && fields == MeansMap(v.members)
  {
    if Judge(raw) == Accepted(fields) {
      AcceptedIsRead(raw);
    }
    if exists v :: WireDocument(raw, v) && fields == MeansMap(v.members) {
      var v :| WireDocument(raw, v) && fields == MeansMap(v.members);
      ReadIsAccepted(raw, v);
    }
  }

  /** The document spells an admissible object within the wire limits. */
  ghost predicate WireSpelling(raw: bytes, e: G.Element, v: Value) {
    && G.Spells(e, raw, v) && Admissible(v)
    && v.Obj? && Plain(v) && Within(v) && |raw| <= REQUEST_LIMIT
  }

  /** So the wire reader accepts exactly the spellings of such objects, with what they denote. */
  lemma AcceptsExactlySpellings(raw: bytes, fields: map<bytes, Meaning>)
    ensures Judge(raw) == Accepted(fields) <==> exists e, v :: WireSpelling(raw, e, v) && fields == MeansMap(v.members)
  {
    ReadersAgree(raw, fields);
    if Judge(raw) == Accepted(fields) {
      var v :| WireDocument(raw, v) && fields == MeansMap(v.members);
      E.ReadsExactly(raw, v);
      var e :| G.Spells(e, raw, v);
      assert WireSpelling(raw, e, v);
    }
    forall e, v | WireSpelling(raw, e, v)
      ensures WireDocument(raw, v)
    {
      E.ReadsExactly(raw, v);
    }
  }
}
