/**
 The strict reader and the CCJ-1 printer undo each other: printing any value the reader
 can produce and reading the bytes gives that value back, and the values the reader can
 produce are exactly the admissible ones.
 */
module JsonRoundTrip {
  import opened Bytes
  import opened JsonValue
  import opened JsonReader
  import opened Ccj1
  import Utf8

  // ---- Integers ----

  lemma {:induction false} PrintNatDigits(n: nat)
    ensures AllDigits(PrintNat(n)) && Decimal(PrintNat(n)) == n
    ensures PrintNat(n) != [] && (n > 0 ==> PrintNat(n)[0] != ZERO) && (n < 10 ==> |PrintNat(n)| == 1)
  {
    if n >= 10 {
      PrintNatDigits(n / 10);
      var p := PrintNat(n / 10);
      var s := p + [(48 + n % 10) as byte];
      assert s[..|s| - 1] == p;
      forall c | c in s
        ensures IsDigit(c)
      {
        assert c in p || c == (48 + n % 10) as byte;
      }
    }
  }

  lemma {:induction false} PrintNatLength(n: nat, k: nat)
    requires k >= 1 && n < PowerOfTen(k)
    ensures |PrintNat(n)| <= k
  {
    if n >= 10 {
      PrintNatLength(n / 10, k - 1);
    }
  }

  lemma SafeIntLength(n: nat)
    requires n <= MAX_SAFE_INT
    ensures |PrintNat(n)| <= 16
  {
    TenToSixteen();
    PrintNatLength(n, 16);
  }

  lemma {:induction false} DigitRunOf(a: bytes, rest: bytes)
    requires AllDigits(a) && (rest == [] || !IsDigit(rest[0]))
    ensures DigitRun(a + rest) == |a|
    decreases |a|
  {
    if a == [] {
      assert a + rest == rest;
    } else {
      assert a[0] in a;
      assert (a + rest)[1..] == a[1..] + rest;
      DigitRunOf(a[1..], rest);
    }
  }

  /** What may follow a printed value: the end, whitespace, a comma or a closing octet. */
  predicate Terminated(rest: bytes) {
    rest == [] || IsSpace(rest[0]) || rest[0] == COMMA || rest[0] == RBRACE || rest[0] == RBRACKET
  }

  lemma ReadPrintedNat(n: nat, rest: bytes)
    requires n <= MAX_SAFE_INT && Terminated(rest)
    ensures ReadMagnitude(PrintNat(n) + rest) == Done(n, rest)
  {
    var a := PrintNat(n);
    var s := a + rest;
    PrintNatDigits(n);
    SafeIntLength(n);
    DigitRunOf(a, rest);
    assert s[..|a|] == a && s[|a|..] == rest;
    if rest != [] {
      assert s[|a|] == rest[0];
    }
  }

  lemma PrintIntHead(n: int)
    ensures PrintInt(n) != [] && (PrintInt(n)[0] == MINUS || IsDigit(PrintInt(n)[0]))
    ensures n >= 0 ==> PrintInt(n)[0] != MINUS
  {
    if n >= 0 {
      PrintNatDigits(n);
      assert PrintNat(n)[0] in PrintNat(n);
    }
  }

  lemma ReadPrintedInt(n: int, rest: bytes)
    requires -MAX_SAFE_INT <= n <= MAX_SAFE_INT && Terminated(rest)
    ensures ReadInt(PrintInt(n) + rest) == Done(n, rest)
  {
    var s := PrintInt(n) + rest;
    PrintIntHead(n);
    assert s[0] == PrintInt(n)[0];
    var d := PrintNat(if n < 0 then -n else n) + rest;
    assert n < 0 ==> s == [MINUS] + d;
    assert d == if s[0] == MINUS then s[1..] else s;
    ReadPrintedNat(if n < 0 then -n else n, rest);
  }

  // ---- Strings ----

  lemma ReadPrintedOctet(c: byte, rest: bytes)
    ensures ReadChar(EscapeOctet(c) + rest, true) == Done(Some([c]), rest)
  {
    var s := EscapeOctet(c) + rest;
    if c == QUOTE || c == BACKSLASH || c == 8 || c == 12 || c == LF || c == CR || c == TAB {
      assert s[1..][1..] == rest;
    } else if c < 0x20 {
      var h := s[2..];
      assert s[1..][1..] == h;
      assert h == [ZERO, ZERO, HexDigit(c / 16), HexDigit(c % 16)] + rest;
      assert h[4..] == rest;
      assert Hex4(h) == Some(c as int);
    } else {
      assert s[1..] == rest;
    }
  }

  lemma {:induction false} ReadPrintedText(t: bytes, rest: bytes)
    ensures ReadString(EscapeAll(t) + [QUOTE] + rest, true) == Done(t, rest)
    decreases |t|
  {
    var s := EscapeAll(t) + [QUOTE] + rest;
    if t == [] {
      assert s[1..] == rest;
    } else {
      var tail := EscapeAll(t[1..]) + [QUOTE] + rest;
      assert s == EscapeOctet(t[0]) + tail;
      ReadPrintedOctet(t[0], tail);
      ReadPrintedText(t[1..], rest);
      assert [t[0]] + t[1..] == t;
    }
  }

  // ---- Values ----

  lemma PrintHead(v: Value)
    ensures Print(v) != [] && !IsSpace(Print(v)[0]) && Print(v)[0] != RBRACKET
  {
    if v.Int? {
      var m: nat := if v.n < 0 then -v.n else v.n;
      PrintNatDigits(m);
      assert PrintNat(m)[0] in PrintNat(m);
    }
  }

  /** Reading what was printed gives the value back and stops where it ended. */
  lemma {:induction false} ReadPrinted(v: Value, rest: bytes, depth: nat)
    requires Strict(v) && depth + Height(v) <= MAX_DEPTH && Terminated(rest)
    ensures ReadValue(Print(v) + rest, depth) == Done(v, rest)
    decreases v, 0
  {
    var s := Print(v) + rest;
    PrintHead(v);
    assert s[0] == Print(v)[0];
    match v
    case Arr(es) =>
      Regroup([LBRACKET], PrintElems(es), [RBRACKET], rest);
      assert s[1..] == PrintElems(es) + [RBRACKET] + rest;
      ReadPrintedArray(es, rest, depth);
    case Obj(ms) =>
      Regroup([LBRACE], PrintMembers(ms), [RBRACE], rest);
      assert s[1..] == PrintMembers(ms) + [RBRACE] + rest;
      ReadPrintedObject(ms, rest, depth);
    case _ => ReadPrintedScalar(v, rest, depth);
  }

  lemma ReadPrintedScalar(v: Value, rest: bytes, depth: nat)
    requires Strict(v) && !v.Arr? && !v.Obj? && depth < MAX_DEPTH && Terminated(rest)
    ensures ReadValue(Print(v) + rest, depth) == Done(v, rest)
  {
    var s := Print(v) + rest;
    PrintHead(v);
    assert s[0] == Print(v)[0];
    match v
    case Int(n) =>
      PrintIntHead(n);
      hide ReadInt, PrintInt;
      ReadPrintedInt(n, rest);
    case Str(t) =>
      hide ReadString;
      assert s[1..] == EscapeAll(t) + [QUOTE] + rest;
      ReadPrintedText(t, rest);
    case Bool(b) =>
      ReadPrintedWord(if b then TRUE_WORD else FALSE_WORD, v, rest);
    case Null =>
      ReadPrintedWord(NULL_WORD, v, rest);
  }

  lemma ReadPrintedWord(word: bytes, v: Value, rest: bytes)
    requires word != []
    ensures ReadWord(word + rest, word, v) == Done(v, rest) && (word + rest)[0] == word[0]
  {
    assert (word + rest)[..|word|] == word && (word + rest)[|word|..] == rest;
  }

  lemma {:induction false} ReadPrintedArray(es: seq<Value>, rest: bytes, depth: nat)
    requires StrictElems(es) && depth + 1 + ElemsHeight(es) <= MAX_DEPTH
    ensures ReadArray(PrintElems(es) + [RBRACKET] + rest, depth) == Done(Arr(es), rest)
    decreases es, 1
  {
    var s := PrintElems(es) + [RBRACKET] + rest;
    if es == [] {
      assert s[1..] == rest;
    } else {
      PrintHead(es[0]);
      assert s[0] == Print(es[0])[0];
      ReadPrintedElems(es, rest, depth);
    }
  }

  lemma {:induction false} ReadPrintedElems(es: seq<Value>, rest: bytes, depth: nat)
    requires es != [] && StrictElems(es) && depth + 1 + ElemsHeight(es) <= MAX_DEPTH
    ensures ReadElems(PrintElems(es) + [RBRACKET] + rest, depth) == Done(es, rest)
    decreases es, 0
  {
    hide PrintElems, Print, ReadValue;
    var s := PrintElems(es) + [RBRACKET] + rest;
    var tail := SplitElems(es, rest);
    PrintHead(es[0]);
    assert SkipSpace(s) == s;
    ReadPrinted(es[0], tail, depth + 1);
    ElemRead(s, depth, es[0], tail);
    if |es| > 1 {
      ReadPrintedElems(es[1..], rest, depth);
      assert es == [es[0]] + es[1..];
    } else {
      assert es == [es[0]];
      assert ReadElem(s, depth) == Done(Item(es[0], false), rest);
    }
  }

  /** The first element printed, and what comes after it. */
  lemma SplitElems(es: seq<Value>, rest: bytes) returns (tail: bytes)
    requires es != []
    ensures PrintElems(es) + [RBRACKET] + rest == Print(es[0]) + tail
    ensures |es| == 1 ==> tail == [RBRACKET] + rest && tail[1..] == rest
    ensures |es| > 1 ==> tail != [] && tail[0] == COMMA && tail[1..] == PrintElems(es[1..]) + [RBRACKET] + rest
  {
    var first, more := Print(es[0]), PrintMoreElems(es[1..]);
    tail := more + [RBRACKET] + rest;
    Regroup(first, more, [RBRACKET], rest);
    if |es| > 1 {
      var next, later := Print(es[1]), PrintMoreElems(es[1..][1..]);
      assert PrintElems(es[1..]) == next + later;
      RegroupComma(next, later, [RBRACKET], rest);
    }
  }

  lemma Regroup(a: bytes, b: bytes, c: bytes, d: bytes)
    ensures a + b + c + d == a + (b + c + d)
  {
  }

  lemma RegroupComma(a: bytes, b: bytes, c: bytes, d: bytes)
    ensures [COMMA] + a + b + c + d == [COMMA] + (a + b + c + d)
  {
  }

  lemma ElemRead(s: bytes, depth: nat, v: Value, tail: bytes)
    requires ReadValue(SkipSpace(s), depth + 1) == Done(v, tail)
    requires tail != [] && (tail[0] == COMMA || tail[0] == RBRACKET)
    ensures ReadElem(s, depth) == Done(Item(v, tail[0] == COMMA), tail[1..])
  {
  }

  lemma {:induction false} ReadPrintedObject(ms: seq<Member>, rest: bytes, depth: nat)
    requires StrictMembers(ms) && UniqueKeys(ms) && depth + 1 + MembersHeight(ms) <= MAX_DEPTH
    ensures ReadObject(PrintMembers(ms) + [RBRACE] + rest, depth) == Done(Obj(ms), rest)
    decreases ms, 1
  {
    var s := PrintMembers(ms) + [RBRACE] + rest;
    if ms == [] {
      assert s[1..] == rest;
    } else {
      assert PrintMember(ms[0])[0] == QUOTE;
      assert s[0] == PrintMember(ms[0])[0];
      ReadPrintedMembers(ms, rest, depth, {});
    }
  }

  lemma {:induction false} ReadPrintedMembers(ms: seq<Member>, rest: bytes, depth: nat, seen: set<bytes>)
    requires ms != [] && StrictMembers(ms) && UniqueKeys(ms) && depth + 1 + MembersHeight(ms) <= MAX_DEPTH
    requires forall m :: m in ms ==> m.key !in seen
    ensures ReadMembers(PrintMembers(ms) + [RBRACE] + rest, depth, seen) == Done(ms, rest)
    decreases ms, 0
  {
    hide PrintMembers, Print, ReadKey, ReadValue;
    var s := PrintMembers(ms) + [RBRACE] + rest;
    var tail := SplitMembers(ms, rest);
    var m := ms[0];
    ReadPrintedKey(m, tail, seen);
    PrintHead(m.value);
    var value := Print(m.value) + tail;
    assert SkipSpace(value) == value;
    ReadPrinted(m.value, tail, depth + 1);
    MemberRead(s, depth, seen, m, value, tail);
    if |ms| > 1 {
      ReadPrintedMembers(ms[1..], rest, depth, seen + {m.key});
      assert ms == [m] + ms[1..];
    } else {
      assert ms == [m];
      assert ReadMember(s, depth, seen) == Done(Item(m, false), rest);
    }
  }

  lemma SplitMembers(ms: seq<Member>, rest: bytes) returns (tail: bytes)
    requires ms != []
    ensures PrintMembers(ms) + [RBRACE] + rest == PrintMember(ms[0]) + tail
    ensures |ms| == 1 ==> tail == [RBRACE] + rest && tail[1..] == rest
    ensures |ms| > 1 ==> tail != [] && tail[0] == COMMA && tail[1..] == PrintMembers(ms[1..]) + [RBRACE] + rest
  {
    var first, more := PrintMember(ms[0]), PrintMoreMembers(ms[1..]);
    tail := more + [RBRACE] + rest;
    Regroup(first, more, [RBRACE], rest);
    if |ms| > 1 {
      var next, later := PrintMember(ms[1]), PrintMoreMembers(ms[1..][1..]);
      assert PrintMembers(ms[1..]) == next + later;
      RegroupComma(next, later, [RBRACE], rest);
    }
  }

  lemma MemberRead(s: bytes, depth: nat, seen: set<bytes>, m: Member, value: bytes, tail: bytes)
    requires ReadKey(s, seen) == Done(m.key, value)
    requires ReadValue(SkipSpace(value), depth + 1) == Done(m.value, tail)
    requires tail != [] && (tail[0] == COMMA || tail[0] == RBRACE)
    ensures ReadMember(s, depth, seen) == Done(Item(m, tail[0] == COMMA), tail[1..])
  {
  }

  lemma ReadPrintedKey(m: Member, tail: bytes, seen: set<bytes>)
    requires m.key !in seen
    ensures ReadKey(PrintMember(m) + tail, seen) == Done(m.key, Print(m.value) + tail)
  {
    hide ReadString, Print;
    var s := PrintMember(m) + tail;
    var r1 := [COLON] + Print(m.value) + tail;
    assert s[1..] == EscapeAll(m.key) + [QUOTE] + r1;
    ReadPrintedText(m.key, r1);
    assert r1[1..] == Print(m.value) + tail;
  }
}
