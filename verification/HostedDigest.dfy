/**
 The content digest of a hosted payload (hosted/digest.go) and the tail of BuildPayload
 that stores it (hosted/payload.go): the emitted object carries the digest of itself.
 SHA-256 is a parameter; encoding/json is a parameter with the contract `Faithful`.
 */
module HostedDigest {
  import opened Bytes
  import opened JsonValue
  import opened JsonReader
  import opened JsonCanonical
  import C = Ccj1
  import P = JsonParser
  import Utf8

  /** "content_digest" */
  const DIGEST_KEY: bytes := [99, 111, 110, 116, 101, 110, 116, 95, 100, 105, 103, 101, 115, 116]

  /** "sha256:" */
  const DIGEST_PREFIX: bytes := [115, 104, 97, 50, 53, 54, 58]

  const WIRE_LIMIT: nat := 1048576
  const DEPTH_LIMIT: nat := 16
  const ARGV_LIMIT: nat := 262144
  const DATA_LIMIT: nat := 65536

  type Hash = bytes -> bytes

  datatype DigestResult = Digest(text: bytes) | NotJson | NotObject

  datatype SealResult = Sealed(wire: bytes) | Refused

  function Hex(s: bytes): bytes {
    if s == [] then [] else [C.HexDigit(s[0] / 16), C.HexDigit(s[0] % 16)] + Hex(s[1..])
  }

  function DigestText(hash: Hash, canonical: bytes): bytes {
    DIGEST_PREFIX + Hex(hash(canonical))
  }

  /** The digest over the canonical bytes of an object without its own digest member. */
  function ContentDigest(hash: Hash, payload: bytes): DigestResult {
    match ReadDocument(payload)
    case Ok(v) =>
      if v.Obj? then Digest(DigestText(hash, C.Canonical(Obj(C.Without(v.members, DIGEST_KEY))))) else NotObject
    case _ => NotJson
  }

  method ComputeContentDigest(hash: Hash, payload: bytes) returns (r: DigestResult)
    ensures r == ContentDigest(hash, payload)
  {
    var read := P.ParseJson(payload);
    if !read.Ok? {
      return NotJson;
    }
    if !read.value.Obj? {
      return NotObject;
    }
    var ms := read.value.members;
    var stripped: seq<Member> := [];
    assert ms[0..] == ms;
    for i := 0 to |ms|
      invariant stripped + C.Without(ms[i..], DIGEST_KEY) == C.Without(ms, DIGEST_KEY)
    {
      assert ms[i..][1..] == ms[i + 1..];
      if ms[i].key == DIGEST_KEY {
        continue;
      }
      stripped := stripped + [ms[i]];
    }
    assert ms[|ms|..] == [];
    assert stripped == C.Without(ms, DIGEST_KEY);
    ReadAdmissible(payload);
    C.WithoutStrict(ms, DIGEST_KEY);
    var canonical := C.WriteCanonical(Obj(stripped));
    return Digest(DigestText(hash, canonical));
  }

  /** The deepest level a value reaches, counting the given depth for its root. */
  method ValueDepth(v: Value, depth: nat) returns (deepest: nat)
    ensures deepest == depth + Height(v) - 1
    decreases v, 1
  {
    deepest := depth;
    if v.Arr? {
      deepest := ElemsDepth(v.elems, depth, v);
    } else if v.Obj? {
      deepest := MembersDepth(v.members, depth, v);
    }
  }

  method ElemsDepth(es: seq<Value>, depth: nat, ghost v: Value) returns (deepest: nat)
    requires v == Arr(es)
    ensures deepest == depth + ElemsHeight(es)
    decreases v, 0
  {
    deepest := depth;
    assert es[0..] == es;
    for i := 0 to |es|
      invariant deepest >= depth
      invariant Max(deepest, depth + ElemsHeight(es[i..])) == depth + ElemsHeight(es)
    {
      var d := ValueDepth(es[i], depth + 1);
      assert es[i..][1..] == es[i + 1..];
      if d > deepest {
        deepest := d;
      }
    }
    assert es[|es|..] == [];
  }

  method MembersDepth(ms: seq<Member>, depth: nat, ghost v: Value) returns (deepest: nat)
    requires v == Obj(ms)
    ensures deepest == depth + MembersHeight(ms)
    decreases v, 0
  {
    deepest := depth;
    assert ms[0..] == ms;
    for i := 0 to |ms|
      invariant deepest >= depth
      invariant Max(deepest, depth + MembersHeight(ms[i..])) == depth + MembersHeight(ms)
    {
      var d := ValueDepth(ms[i].value, depth + 1);
      assert ms[i..][1..] == ms[i + 1..];
      if d > deepest {
        deepest := d;
      }
    }
    assert ms[|ms|..] == [];
  }

  // ---- Limits on encoded parts ----

  const PROCESS: bytes := [112, 114, 111, 99, 101, 115, 115]
  const ARGV: bytes := [97, 114, 103, 118]
  const EXEC_GUARD: bytes := [101, 120, 101, 99, 95, 103, 117, 97, 114, 100]
  const DATA: bytes := [100, 97, 116, 97]
  const RESTART: bytes := [114, 101, 115, 116, 97, 114, 116]
  const POLICY: bytes := [112, 111, 108, 105, 99, 121]

  /** "effective_native_policy" */
  const EFFECTIVE: bytes :=
    [101, 102, 102, 101, 99, 116, 105, 118, 101, 95, 110, 97, 116, 105, 118, 101, 95, 112, 111, 108, 105, 99, 121]

  /** The member of an object, or nothing. */
  function Get(v: Value, key: bytes): Option<Value> {
    if v.Obj? then Find(v.members, key) else None
  }

  function Find(ms: seq<Member>, key: bytes): Option<Value> {
    if ms == [] then None else if ms[0].key == key then Some(ms[0].value) else Find(ms[1..], key)
  }

  function GetIn(v: Option<Value>, key: bytes): Option<Value> {
    if v.Some? then Get(v.value, key) else None
  }

  predicate Fits(v: Option<Value>, limit: nat) {
    v.Some? && |C.Canonical(v.value)| <= limit
  }

  /** Where a value is found, the canonical bytes of each bounded part fit. */
  predicate WithinEncodedLimits(wire: Value) {
    var process, policy := Get(wire, PROCESS), Get(wire, POLICY);
    var effective := GetIn(policy, EFFECTIVE);
    && GetIn(process, ARGV).Some? && GetIn(process, ARGV).value.Arr?
    && Fits(GetIn(process, ARGV), ARGV_LIMIT)
    && Fits(GetIn(GetIn(process, EXEC_GUARD), DATA), DATA_LIMIT)
    && Fits(GetIn(Get(wire, RESTART), DATA), DATA_LIMIT)
    && policy.Some?
    && (effective.Some? && !effective.value.Null? ==> Fits(GetIn(effective, DATA), DATA_LIMIT))
  }

  method CheckFits(v: Option<Value>, limit: nat) returns (ok: bool)
    requires v.Some? ==> Strict(v.value)
    ensures ok == Fits(v, limit)
  {
    if v.None? {
      return false;
    }
    var canonical := C.WriteCanonical(v.value);
    return |canonical| <= limit;
  }

  lemma {:induction false} FindStrict(ms: seq<Member>, key: bytes)
    requires StrictMembers(ms)
    ensures Find(ms, key).Some? ==> Strict(Find(ms, key).value)
    decreases |ms|
  {
    if ms != [] {
      FindStrict(ms[1..], key);
    }
  }

  lemma GetStrict(v: Option<Value>, key: bytes)
    requires v.Some? ==> Strict(v.value)
    ensures GetIn(v, key).Some? ==> Strict(GetIn(v, key).value)
  {
    if v.Some? && v.value.Obj? {
      FindStrict(v.value.members, key);
    }
  }

  method CheckEncodedLimits(wire: Value) returns (ok: bool)
    requires Strict(wire)
    ensures ok == WithinEncodedLimits(wire)
  {
    var w := Some(wire);
    var process := GetIn(w, PROCESS);
    var argv := GetIn(process, ARGV);
    GetStrict(w, PROCESS);
    GetStrict(process, ARGV);
    if argv.None? || !argv.value.Arr? {
      return false;
    }
    ok := CheckFits(argv, ARGV_LIMIT);
    if !ok {
      return;
    }
    var guard := GetIn(process, EXEC_GUARD);
    GetStrict(process, EXEC_GUARD);
    GetStrict(guard, DATA);
    ok := CheckFits(GetIn(guard, DATA), DATA_LIMIT);
    if !ok {
      return;
    }
    var restart := GetIn(w, RESTART);
    GetStrict(w, RESTART);
    GetStrict(restart, DATA);
    ok := CheckFits(GetIn(restart, DATA), DATA_LIMIT);
    if !ok {
      return;
    }
    var policy := GetIn(w, POLICY);
    if policy.None? {
      return false;
    }
    var effective := GetIn(policy, EFFECTIVE);
    GetStrict(w, POLICY);
    GetStrict(policy, EFFECTIVE);
    GetStrict(effective, DATA);
    if effective.Some? && !effective.value.Null? {
      ok := CheckFits(GetIn(effective, DATA), DATA_LIMIT);
    }
  }

  /** `marshal(d)` is the payload struct encoded with its digest field set to `d`. */
  type Encoder = bytes -> bytes

  /** Seal the payload: digest it with the field empty, set the field, encode again and canonicalize. */
  function Seal(hash: Hash, marshal: Encoder): SealResult {
    match ContentDigest(hash, marshal([]))
    case Digest(d) =>
      (match ReadDocument(marshal(d))
       case Ok(v) =>
         if |C.Canonical(v)| > WIRE_LIMIT || Height(v) - 1 > DEPTH_LIMIT || !WithinEncodedLimits(v) then Refused
         else Sealed(C.Canonical(v))
       case _ => Refused)
    case _ => Refused
  }

  method SealPayload(hash: Hash, marshal: Encoder) returns (r: SealResult)
    ensures r == Seal(hash, marshal)
  {
    var digest := ComputeContentDigest(hash, marshal([]));
    if !digest.Digest? {
      return Refused;
    }
    var encoded := marshal(digest.text);
    var read := P.ParseJson(encoded);
    if !read.Ok? {
      return Refused;
    }
    ReadAdmissible(encoded);
    var wire := C.WriteCanonical(read.value);
    var depth := ValueDepth(read.value, 0);
    if |wire| > WIRE_LIMIT || depth > DEPTH_LIMIT {
      return Refused;
    }
    var limits := CheckEncodedLimits(read.value);
    if !limits {
      return Refused;
    }
    return Sealed(wire);
  }

  // ---- What the encoder promises ----

  ghost predicate HasField(ms: seq<Member>, key: bytes, v: Value) {
    Member(key, v) in ms
  }

  /** Changing the digest field from one UTF-8 text to another changes only that member of the encoded object, and
      it is encoded as its text.  Nothing is asked of texts that are not UTF-8, which json.Marshal rewrites. */
  ghost predicate Faithful(marshal: Encoder) {
    forall d, e ::
      Utf8.Valid(d) && Utf8.Valid(e) && ReadDocument(marshal(d)).Ok? && ReadDocument(marshal(e)).Ok? ==>
        var a, b := ReadDocument(marshal(d)).value, ReadDocument(marshal(e)).value;
        && a.Obj? && b.Obj?
        && C.Without(a.members, DIGEST_KEY) == C.Without(b.members, DIGEST_KEY)
        && HasField(b.members, DIGEST_KEY, Str(e))
  }

  // ---- Dropping a member, seen on the meaning ----

  lemma {:induction false} WithoutMeans(ms: seq<Member>, key: bytes)
    ensures MeansMap(C.Without(ms, key)) == MeansMap(ms) - {key}
  {
    if ms != [] {
      WithoutMeans(ms[1..], key);
      var ws := C.Without(ms[1..], key);
      if ms[0].key != key {
        assert ([ms[0]] + ws)[1..] == ws;
      }
    }
  }

  lemma WithoutAdmissible(ms: seq<Member>, key: bytes)
    requires Admissible(Obj(ms))
    ensures Admissible(Obj(C.Without(ms, key)))
  {
    C.WithoutStrict(ms, key);
    WithoutHeight(ms, key);
  }

  /** The canonical bytes the digest is over are a function of the meaning without digest and "sig". */
  lemma DigestedBytesExactly(x: seq<Member>, y: seq<Member>)
    requires Admissible(Obj(x)) && Admissible(Obj(y))
    ensures C.Canonical(Obj(C.Without(x, DIGEST_KEY))) == C.Canonical(Obj(C.Without(y, DIGEST_KEY)))
            <==> MeansMap(x) - {DIGEST_KEY, C.SIG} == MeansMap(y) - {DIGEST_KEY, C.SIG}
  {
    var a, b := C.Without(x, DIGEST_KEY), C.Without(y, DIGEST_KEY);
    WithoutAdmissible(x, DIGEST_KEY);
    WithoutAdmissible(y, DIGEST_KEY);
    CanonicalExactly(Obj(a), Obj(b));
    WithoutMeans(x, DIGEST_KEY);
    WithoutMeans(y, DIGEST_KEY);
    WithoutMeans(a, C.SIG);
    WithoutMeans(b, C.SIG);
    TwiceWithout(MeansMap(x));
    TwiceWithout(MeansMap(y));
  }

  lemma TwiceWithout(m: map<bytes, Meaning>)
    ensures m - {DIGEST_KEY} - {C.SIG} == m - {DIGEST_KEY, C.SIG}
  {
  }

  // ---- Digest texts are plain ASCII ----

  lemma {:induction false} HexAscii(s: bytes)
    ensures forall c :: c in Hex(s) ==> c < 0x80
    decreases |s|
  {
    if s != [] {
      HexAscii(s[1..]);
      assert C.HexDigit(s[0] / 16) < 0x80 && C.HexDigit(s[0] % 16) < 0x80;
    }
  }

  lemma EmptyValid()
    ensures Utf8.Valid([])
  {
  }

  /** So the encoder is asked only about texts it keeps. */
  lemma DigestTextValid(hash: Hash, canonical: bytes)
    ensures Utf8.Valid(DigestText(hash, canonical))
  {
    HexAscii(hash(canonical));
    assert forall c :: c in DIGEST_PREFIX ==> c < 0x80;
    AsciiValid(DigestText(hash, canonical));
  }

  // ---- Main results ----

  /** The two encodings of a seal, before and after its digest is known. */
  lemma Encodings(marshal: Encoder, d: bytes)
    requires Faithful(marshal) && Utf8.Valid(d) && ReadDocument(marshal([])).Ok? && ReadDocument(marshal(d)).Ok?
    ensures var v0, v1 := ReadDocument(marshal([])).value, ReadDocument(marshal(d)).value;
            && v0.Obj? && v1.Obj? && Admissible(v0) && Admissible(v1)
            && C.Without(v0.members, DIGEST_KEY) == C.Without(v1.members, DIGEST_KEY)
            && HasField(v1.members, DIGEST_KEY, Str(d))
  {
    EmptyValid();
    ReadAdmissible(marshal([]));
    ReadAdmissible(marshal(d));
    hide ReadDocument, Admissible, C.Without, Utf8.Valid;
  }

  /** Apart from the digest member, what the wire reads back to digests like what was digested. */
  lemma WireDigestsAlike(v0: seq<Member>, v1: seq<Member>)
    requires Admissible(Obj(v0)) && Admissible(Obj(v1)) && C.Without(v0, DIGEST_KEY) == C.Without(v1, DIGEST_KEY)
    ensures var w := C.Norm(C.StripSig(Obj(v1)));
            && w.Obj? && Admissible(w)
            && C.Canonical(Obj(C.Without(w.members, DIGEST_KEY))) == C.Canonical(Obj(C.Without(v0, DIGEST_KEY)))
  {
    var w := C.Norm(C.StripSig(Obj(v1)));
    CanonicalReadsBack(Obj(v1));
    ReadAdmissible(C.Canonical(Obj(v1)));
    WireMeans(v1);
    WithoutMeans(v0, DIGEST_KEY);
    WithoutMeans(v1, DIGEST_KEY);
    hide MeansMap, C.Without, C.Norm, C.StripSig, Admissible;
    TwiceWithout(MeansMap(v0));
    TwiceWithout(MeansMap(v1));
    assert MeansMap(w.members) - {DIGEST_KEY, C.SIG} == MeansMap(v1) - {DIGEST_KEY, C.SIG};
    DigestedBytesExactly(w.members, v0);
  }

  /** The sealed object verifies itself: the digest recomputed over the emitted bytes is the one stored in them. */
  lemma SealVerifiesItself(hash: Hash, marshal: Encoder)
    requires Faithful(marshal) && Seal(hash, marshal).Sealed?
    ensures var wire := Seal(hash, marshal).wire;
            && ReadDocument(wire).Ok? && ReadDocument(wire).value.Obj?
            && ContentDigest(hash, wire).Digest?
            && HasField(ReadDocument(wire).value.members, DIGEST_KEY, Str(ContentDigest(hash, wire).text))
  {
    hide MeansMap, C.Without, C.Norm, C.StripSig, C.Canonical, WithinEncodedLimits, Admissible, Utf8.Valid, DigestText, Faithful;
    var d := ContentDigest(hash, marshal([])).text;
    DigestTextValid(hash, C.Canonical(Obj(C.Without(ReadDocument(marshal([])).value.members, DIGEST_KEY))));
    Encodings(marshal, d);
    hide ReadDocument;
    var v0, v1 := ReadDocument(marshal([])).value, ReadDocument(marshal(d)).value;
    CanonicalReadsBack(v1);
    WireDigestsAlike(v0.members, v1.members);
    FieldSurvives(v1.members, Str(d));
  }

  /** Reading canonical bytes back gives the meaning without "sig". */
  lemma WireMeans(ms: seq<Member>)
    requires Admissible(Obj(ms))
    ensures var w := C.Norm(C.StripSig(Obj(ms))); w.Obj? && MeansMap(w.members) == MeansMap(ms) - {C.SIG}
  {
    CanonicalReadsBack(Obj(ms));
    WithoutMeans(ms, C.SIG);
  }

  lemma FieldSurvives(ms: seq<Member>, v: Value)
    requires HasField(ms, DIGEST_KEY, v) && v.Str?
    ensures var w := C.Norm(C.StripSig(Obj(ms))); w.Obj? && HasField(w.members, DIGEST_KEY, v)
  {
    var m := Member(DIGEST_KEY, v);
    C.WithoutMembership(ms, C.SIG, m);
    NormMembersIn(C.Without(ms, C.SIG), m);
    C.SortMembership(C.NormMembers(C.Without(ms, C.SIG)), m);
  }

  /** Two lower-case digits an octet, the high one first: decoding gives the octets back. */
  lemma {:induction false} HexDecodes(s: bytes)
    ensures |Hex(s)| == 2 * |s|
    ensures forall c :: c in Hex(s) ==> HexValue(c).Some? && !(65 <= c <= 70)
    ensures forall i :: 0 <= i < |s| ==>
              HexValue(Hex(s)[2 * i]).Some? && HexValue(Hex(s)[2 * i + 1]).Some?
              && HexValue(Hex(s)[2 * i]).value * 16 + HexValue(Hex(s)[2 * i + 1]).value == s[i] as int
    decreases |s|
  {
    if s != [] {
      HexDecodes(s[1..]);
      var h, more := Hex(s), Hex(s[1..]);
      assert h == [C.HexDigit(s[0] / 16), C.HexDigit(s[0] % 16)] + more;
      HexPair(s[0]);
      hide HexValue, C.HexDigit;
      forall i | 0 <= i < |s|
        ensures HexValue(h[2 * i]).Some? && HexValue(h[2 * i + 1]).Some?
        ensures HexValue(h[2 * i]).value * 16 + HexValue(h[2 * i + 1]).value == s[i] as int
      {
        if i > 0 {
          assert h[2 * i] == more[2 * (i - 1)] && h[2 * i + 1] == more[2 * (i - 1) + 1] && s[i] == s[1..][i - 1];
        }
      }
    }
  }

  lemma HexPair(b: byte)
    ensures var x, y := C.HexDigit(b / 16), C.HexDigit(b % 16);
            && HexValue(x).Some? && HexValue(y).Some? && !(65 <= x <= 70) && !(65 <= y <= 70)
            && HexValue(x).value * 16 + HexValue(y).value == b as int
  {
  }

  lemma {:induction false} HexInjective(a: bytes, b: bytes)
    requires Hex(a) == Hex(b)
    ensures a == b
    decreases |a|
  {
    if a != [] && b != [] {
      assert Hex(a)[0] == Hex(b)[0] && Hex(a)[1] == Hex(b)[1];
      assert Hex(a)[2..] == Hex(a[1..]) && Hex(b)[2..] == Hex(b[1..]);
      HexInjective(a[1..], b[1..]);
      assert a[0] == b[0];
      assert a == [a[0]] + a[1..] && b == [b[0]] + b[1..];
    }
  }

  /** The hash tells the two digested byte strings apart if they differ. */
  ghost predicate NoCollision(hash: Hash, x: seq<Member>, y: seq<Member>) {
    var p, q := C.Canonical(Obj(C.Without(x, DIGEST_KEY))), C.Canonical(Obj(C.Without(y, DIGEST_KEY)));
    hash(p) == hash(q) ==> p == q
  }

  /** Where the hash does not collide, equal digests mean equal content, digest and "sig" aside; and conversely. */
  lemma DigestExactly(hash: Hash, a: bytes, b: bytes)
    requires ReadDocument(a).Ok? && ReadDocument(a).value.Obj?
    requires ReadDocument(b).Ok? && ReadDocument(b).value.Obj?
    requires NoCollision(hash, ReadDocument(a).value.members, ReadDocument(b).value.members)
    ensures ContentDigest(hash, a) == ContentDigest(hash, b) <==>
            MeansMap(ReadDocument(a).value.members) - {DIGEST_KEY, C.SIG} ==
            MeansMap(ReadDocument(b).value.members) - {DIGEST_KEY, C.SIG}
  {
    var x, y := ReadDocument(a).value.members, ReadDocument(b).value.members;
    ReadAdmissible(a);
    ReadAdmissible(b);
    DigestedBytesExactly(x, y);
    var p, q := C.Canonical(Obj(C.Without(x, DIGEST_KEY))), C.Canonical(Obj(C.Without(y, DIGEST_KEY)));
    if DigestText(hash, p) == DigestText(hash, q) {
      assert DigestText(hash, p)[|DIGEST_PREFIX|..] == Hex(hash(p));
      assert DigestText(hash, q)[|DIGEST_PREFIX|..] == Hex(hash(q));
      HexInjective(hash(p), hash(q));
    }
  }
}
