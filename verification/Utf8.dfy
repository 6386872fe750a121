/**
 UTF-8 as RFC 3629 section 4 defines it: a well-formed string is a run of
 UTF8-char productions.  Validity is decided here by a finite automaton, so that
 it composes over concatenation; `ValidIsWellFormed` ties it to the grammar.
 */
module Utf8 {
  import opened Bytes

  datatype State =
    | Start | Need1 | Need2 | Need3
    | AfterE0 | AfterED | AfterF0 | AfterF4
    | Bad

  predicate IsTail(b: byte) { 0x80 <= b <= 0xBF }

  function Step(q: State, b: byte): State {
    match q
    case Start =>
      if b < 0x80 then Start
      else if 0xC2 <= b <= 0xDF then Need1
      else if b == 0xE0 then AfterE0
      else if b == 0xED then AfterED
      else if 0xE1 <= b <= 0xEF then Need2
      else if b == 0xF0 then AfterF0
      else if 0xF1 <= b <= 0xF3 then Need3
      else if b == 0xF4 then AfterF4
      else Bad
    case Need1 => if IsTail(b) then Start else Bad
    case Need2 => if IsTail(b) then Need1 else Bad
    case Need3 => if IsTail(b) then Need2 else Bad
    case AfterE0 => if 0xA0 <= b <= 0xBF then Need1 else Bad
    case AfterED => if 0x80 <= b <= 0x9F then Need1 else Bad
    case AfterF0 => if 0x90 <= b <= 0xBF then Need2 else Bad
    case AfterF4 => if 0x80 <= b <= 0x8F then Need2 else Bad
    case Bad => Bad
  }

  function Run(q: State, s: bytes): State
    decreases |s|
  {
    if s == [] then q else Run(Step(q, s[0]), s[1..])
  }

  predicate Valid(s: bytes) { Run(Start, s) == Start }

  lemma {:induction false} RunConcat(q: State, a: bytes, b: bytes)
    ensures Run(q, a + b) == Run(Run(q, a), b)
    decreases |a|
  {
    if a == [] {
      assert a + b == b;
    } else {
      assert (a + b)[1..] == a[1..] + b;
      RunConcat(Step(q, a[0]), a[1..], b);
    }
  }

  lemma {:induction false} BadIsFinal(s: bytes)
    ensures Run(Bad, s) == Bad
  {
    if s != [] {
      BadIsFinal(s[1..]);
    }
  }

  /** An ASCII octet can only be met between characters. */
  lemma AsciiAtBoundary(q: State, s: bytes)
    requires s != [] && s[0] < 0x80 && Run(q, s) == Start
    ensures q == Start && Run(Start, s[1..]) == Start
  {
    BadIsFinal(s[1..]);
  }

  lemma ValidConcat(a: bytes, b: bytes)
    requires Valid(a)
    ensures Valid(a + b) <==> Valid(b)
  {
    RunConcat(Start, a, b);
  }

  // ---- The RFC 3629 grammar ----

  predicate IsThreeLead(a: byte, b: byte) {
    || (a == 0xE0 && 0xA0 <= b <= 0xBF)
    || (0xE1 <= a <= 0xEC && IsTail(b))
    || (a == 0xED && 0x80 <= b <= 0x9F)
    || (0xEE <= a <= 0xEF && IsTail(b))
  }

  predicate IsFourLead(a: byte, b: byte) {
    || (a == 0xF0 && 0x90 <= b <= 0xBF)
    || (0xF1 <= a <= 0xF3 && IsTail(b))
    || (a == 0xF4 && 0x80 <= b <= 0x8F)
  }

  /** UTF8-char = UTF8-1 / UTF8-2 / UTF8-3 / UTF8-4 */
  predicate IsChar(c: bytes) {
    || (|c| == 1 && c[0] <= 0x7F)
    || (|c| == 2 && 0xC2 <= c[0] <= 0xDF && IsTail(c[1]))
    || (|c| == 3 && IsThreeLead(c[0], c[1]) && IsTail(c[2]))
    || (|c| == 4 && IsFourLead(c[0], c[1]) && IsTail(c[2]) && IsTail(c[3]))
  }

  /** UTF8-octets = *( UTF8-char ) */
  ghost predicate WellFormed(s: bytes)
    decreases |s|
  {
    s == [] || exists n :: 1 <= n <= |s| && IsChar(s[..n]) && WellFormed(s[n..])
  }

  lemma RunChar(c: bytes)
    requires IsChar(c)
    ensures Run(Start, c) == Start
  {
    var q := Step(Start, c[0]);
    if |c| >= 2 {
      var q2 := Step(q, c[1]);
      assert Run(q, c[1..]) == Run(q2, c[2..]);
      if |c| >= 3 {
        var q3 := Step(q2, c[2]);
        assert Run(q2, c[2..]) == Run(q3, c[3..]);
        if |c| == 4 {
          assert Run(q3, c[3..]) == Run(Step(q3, c[3]), c[4..]);
        }
      }
    }
  }

  /** A valid non-empty string begins with a character. */
  lemma FirstChar(s: bytes) returns (n: nat)
    requires s != [] && Valid(s)
    ensures 1 <= n <= |s| && IsChar(s[..n]) && Valid(s[n..])
  {
    var q := Step(Start, s[0]);
    n := 1;
    BadIsFinal(s[1..]);
    while q != Start
      invariant 1 <= n <= 4 && n <= |s|
      invariant q != Bad && Run(q, s[n..]) == Start
      invariant q == Start ==> IsChar(s[..n])
      invariant q != Start ==> n < 4
      invariant q.Need1? ==>
                  || (n == 1 && 0xC2 <= s[0] <= 0xDF)
                  || (n == 2 && IsThreeLead(s[0], s[1]))
                  || (n == 3 && IsFourLead(s[0], s[1]) && IsTail(s[2]))
      invariant q.Need2? ==>
                  || (n == 1 && (0xE1 <= s[0] <= 0xEC || 0xEE <= s[0] <= 0xEF))
                  || (n == 2 && IsFourLead(s[0], s[1]))
      invariant q.Need3? ==> n == 1 && 0xF1 <= s[0] <= 0xF3
      invariant q.AfterE0? ==> n == 1 && s[0] == 0xE0
      invariant q.AfterED? ==> n == 1 && s[0] == 0xED
      invariant q.AfterF0? ==> n == 1 && s[0] == 0xF0
      invariant q.AfterF4? ==> n == 1 && s[0] == 0xF4
      decreases 4 - n
    {
      assert s[n..] != [];
      BadIsFinal(s[n + 1..]);
      assert s[n..][1..] == s[n + 1..];
      q := Step(q, s[n]);
      n := n + 1;
    }
  }

  /** The automaton accepts exactly the strings of RFC 3629 section 4. */
  lemma {:induction false} ValidIsWellFormed(s: bytes)
    ensures Valid(s) <==> WellFormed(s)
    decreases |s|
  {
    if s != [] {
      if Valid(s) {
        var n := FirstChar(s);
        ValidIsWellFormed(s[n..]);
      }
      if WellFormed(s) {
        var n :| 1 <= n <= |s| && IsChar(s[..n]) && WellFormed(s[n..]);
        ValidIsWellFormed(s[n..]);
        RunChar(s[..n]);
        assert s == s[..n] + s[n..];
        ValidConcat(s[..n], s[n..]);
      }
    }
  }

  // ---- Encoding one scalar value ----

  predicate IsScalar(r: int) { 0 <= r <= 0x10FFFF && !(0xD800 <= r <= 0xDFFF) }

  function Encode(r: int): (c: bytes)
    requires IsScalar(r)
    ensures 1 <= |c| <= 4
  {
    if r < 0x80 then [r as byte]
    else if r < 0x800 then [(0xC0 + r / 64) as byte, (0x80 + r % 64) as byte]
    else if r < 0x10000 then
      [(0xE0 + r / 4096) as byte, (0x80 + r / 64 % 64) as byte, (0x80 + r % 64) as byte]
    else
      [(0xF0 + r / 262144) as byte, (0x80 + r / 4096 % 64) as byte,
       (0x80 + r / 64 % 64) as byte, (0x80 + r % 64) as byte]
  }

  function Decode(c: bytes): int
    requires IsChar(c)
  {
    if |c| == 1 then c[0] as int
    else if |c| == 2 then (c[0] as int - 0xC0) * 64 + (c[1] as int - 0x80)
    else if |c| == 3 then (c[0] as int - 0xE0) * 4096 + (c[1] as int - 0x80) * 64 + (c[2] as int - 0x80)
    else (c[0] as int - 0xF0) * 262144 + (c[1] as int - 0x80) * 4096 + (c[2] as int - 0x80) * 64 + (c[3] as int - 0x80)
  }

  /** Encoding gives one character of the grammar, and decoding it gives the scalar back. */
  lemma EncodeDecode(r: int)
    requires IsScalar(r)
    ensures IsChar(Encode(r)) && Decode(Encode(r)) == r && Valid(Encode(r))
    ensures r != 0 ==> 0 !in Encode(r)
  {
    EncodeIsChar(r);
    RunChar(Encode(r));
    var q := r / 64;
    assert r / 4096 == q / 64 && r / 262144 == q / 64 / 64;
  }

  lemma EncodeIsChar(r: int)
    requires IsScalar(r)
    ensures IsChar(Encode(r))
  {
  }
}
