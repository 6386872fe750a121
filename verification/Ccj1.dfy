/**
 The CCJ-1 printer (fragment/ccj1.go): keys sorted by octet order, no insignificant
 whitespace, the shortest escapes and integers, a top-level "sig" dropped.
 `Print` writes a tree as it stands; `Canonical` sorts first.
 */
module Ccj1 {
  import opened Bytes
  import opened JsonValue
  import opened TextOrder
  import R = JsonReader

  const SIG: bytes := [115, 105, 103]

  // ---- Printing a tree in its own member order ----

  function Print(v: Value): bytes {
    match v
    case Null => R.NULL_WORD
    case Bool(b) => if b then R.TRUE_WORD else R.FALSE_WORD
    case Int(n) => PrintInt(n)
    case Str(t) => PrintString(t)
    case Arr(es) => [LBRACKET] + PrintElems(es) + [RBRACKET]
    case Obj(ms) => [LBRACE] + PrintMembers(ms) + [RBRACE]
  }

  function PrintElems(es: seq<Value>): bytes {
    if es == [] then [] else Print(es[0]) + PrintMoreElems(es[1..])
  }

  function PrintMoreElems(es: seq<Value>): bytes {
    if es == [] then [] else [COMMA] + Print(es[0]) + PrintMoreElems(es[1..])
  }

  function PrintMembers(ms: seq<Member>): bytes {
    if ms == [] then [] else PrintMember(ms[0]) + PrintMoreMembers(ms[1..])
  }

  function PrintMoreMembers(ms: seq<Member>): bytes {
    if ms == [] then [] else [COMMA] + PrintMember(ms[0]) + PrintMoreMembers(ms[1..])
  }

  function PrintMember(m: Member): bytes {
    PrintString(m.key) + [COLON] + Print(m.value)
  }

  function PrintNat(n: nat): (s: bytes) {
    if n < 10 then [(48 + n) as byte] else PrintNat(n / 10) + [(48 + n % 10) as byte]
  }

  function PrintInt(n: int): bytes {
    if n < 0 then [MINUS] + PrintNat(-n) else PrintNat(n)
  }

  function PrintString(t: bytes): bytes {
    [QUOTE] + EscapeAll(t) + [QUOTE]
  }

  function EscapeAll(t: bytes): bytes
    decreases |t|
  {
    if t == [] then [] else EscapeOctet(t[0]) + EscapeAll(t[1..])
  }

  function EscapeOctet(c: byte): bytes {
    if c == QUOTE || c == BACKSLASH then [BACKSLASH, c]
    else if c == 8 then [BACKSLASH, 98]
    else if c == 12 then [BACKSLASH, 102]
    else if c == LF then [BACKSLASH, 110]
    else if c == CR then [BACKSLASH, 114]
    else if c == TAB then [BACKSLASH, 116]
    else if c < 0x20 then [BACKSLASH, 117, ZERO, ZERO, HexDigit(c / 16), HexDigit(c % 16)]
    else [c]
  }

  function HexDigit(d: byte): byte
    requires d < 16
  {
    if d < 10 then ZERO + d else 87 + d
  }

  // ---- Normal form: members sorted by key at every level ----

  function Norm(v: Value): Value {
    match v
    case Arr(es) => Arr(NormElems(es))
    case Obj(ms) => Obj(Sort(NormMembers(ms)))
    case _ => v
  }

  function NormElems(es: seq<Value>): seq<Value> {
    if es == [] then [] else [Norm(es[0])] + NormElems(es[1..])
  }

  function NormMembers(ms: seq<Member>): seq<Member> {
    if ms == [] then [] else [Member(ms[0].key, Norm(ms[0].value))] + NormMembers(ms[1..])
  }

  function Sort(ms: seq<Member>): seq<Member> {
    if ms == [] then [] else Insert(ms[0], Sort(ms[1..]))
  }

  function Insert(m: Member, ms: seq<Member>): seq<Member> {
    if ms == [] || Less(m.key, ms[0].key) then [m] + ms else [ms[0]] + Insert(m, ms[1..])
  }

  /** A top-level "sig" member is dropped; nested ones stay. */
  function StripSig(v: Value): Value {
    if v.Obj? then Obj(Without(v.members, SIG)) else v
  }

  function Without(ms: seq<Member>, key: bytes): seq<Member> {
    if ms == [] then []
    else if ms[0].key == key then Without(ms[1..], key)
    else [ms[0]] + Without(ms[1..], key)
  }

  function Canonical(v: Value): bytes {
    Print(Norm(StripSig(v)))
  }

  // ---- The printer as written: growing a buffer ----

  method WriteCanonical(v: Value) returns (b: bytes)
    requires Strict(v)
    ensures b == Canonical(v)
  {
    var top := v;
    if v.Obj? {
      var members: seq<Member> := [];
      for i := 0 to |v.members|
        invariant members + Without(v.members[i..], SIG) == Without(v.members, SIG)
      {
        assert v.members[i..][1..] == v.members[i + 1..];
        if v.members[i].key != SIG {
          members := members + [v.members[i]];
        }
      }
      assert v.members[|v.members|..] == [];
      top := Obj(members);
      assert members == Without(v.members, SIG);
      WithoutStrict(v.members, SIG);
    }
    b := AppendCanonical([], top);
  }

  method AppendCanonical(b0: bytes, v: Value) returns (b: bytes)
    requires Strict(v)
    ensures b == b0 + Print(Norm(v))
    decreases v, 0
  {
    match v
    case Null => return b0 + R.NULL_WORD;
    case Bool(f) => return b0 + if f then R.TRUE_WORD else R.FALSE_WORD;
    case Int(n) => return b0 + PrintInt(n);
    case Str(t) => b := AppendString(b0, t);
    case Arr(es) => b := AppendArray(b0, es);
    case Obj(ms) => b := AppendObject(b0, ms);
  }

  method AppendArray(b0: bytes, es: seq<Value>) returns (b: bytes)
    requires StrictElems(es)
    ensures b == b0 + ([LBRACKET] + PrintElems(NormElems(es)) + [RBRACKET])
    decreases es, 0
  {
    b := b0 + [LBRACKET];
    for i := 0 to |es|
      invariant b + LeftElems(i, NormElems(es[i..])) == b0 + [LBRACKET] + PrintElems(NormElems(es))
    {
      ghost var b1 := b;
      if i > 0 {
        b := b + [COMMA];
      }
      ghost var b2 := b;
      b := AppendCanonical(b, es[i]);
      assert es[i..][1..] == es[i + 1..];
      ElemsTurn(i, es[i..], b1, b2, b);
    }
    assert es[|es|..] == [];
    assert b + LeftElems(|es|, []) == b;
    b := b + [RBRACKET];
    assert b == b0 + ([LBRACKET] + PrintElems(NormElems(es)) + [RBRACKET]);
  }

  /** What the loop still has to write: a comma comes first unless nothing was written yet. */
  ghost function LeftElems(i: nat, es: seq<Value>): bytes {
    if i > 0 then PrintMoreElems(es) else PrintElems(es)
  }

  lemma ElemsTurn(i: nat, es: seq<Value>, b1: bytes, b2: bytes, b3: bytes)
    requires es != []
    requires b2 == if i > 0 then b1 + [COMMA] else b1
    requires b3 == b2 + Print(Norm(es[0]))
    ensures b3 + LeftElems(i + 1, NormElems(es[1..])) == b1 + LeftElems(i, NormElems(es))
  {
    var ns, p := NormElems(es), Print(Norm(es[0]));
    assert ns[0] == Norm(es[0]) && ns[1..] == NormElems(es[1..]);
    Shift(i, b1, b2, p, PrintMoreElems(ns[1..]));
  }

  lemma Associate(a: bytes, b: bytes, c: bytes, d: bytes)
    ensures a + b + c + d == a + (b + c + d)
  {
  }

  lemma Shift(i: nat, b1: bytes, b2: bytes, p: bytes, more: bytes)
    requires b2 == if i > 0 then b1 + [COMMA] else b1
    ensures i > 0 ==> b2 + p + more == b1 + ([COMMA] + p + more)
    ensures i == 0 ==> b2 + p + more == b1 + (p + more)
  {
  }

  method AppendObject(b0: bytes, ms: seq<Member>) returns (b: bytes)
    requires StrictMembers(ms) && UniqueKeys(ms)
    ensures b == b0 + ([LBRACE] + PrintMembers(Sort(NormMembers(ms))) + [RBRACE])
    decreases ms, 1
  {
    var keys, byKey := IndexMembers(ms);
    keys := SortKeys(keys);
    SortedKeySeq(ms);
    ghost var sorted := Sort(ms);
    b := b0 + [LBRACE];
    for i := 0 to |keys|
      invariant b + LeftMembers(i, NormMembers(sorted[i..])) == b0 + [LBRACE] + PrintMembers(NormMembers(sorted))
    {
      SortMembership(ms, sorted[i]);
      hide Sort, KeySeq, SortKeys, PrintMembers, NormMembers, LeftMembers, StrictMembers, UniqueKeys;
      ghost var b1 := b;
      if i > 0 {
        b := b + [COMMA];
      }
      ghost var b2 := b;
      b := AppendMember(b, keys[i], byKey[keys[i]], sorted[i]);
      assert sorted[i..][1..] == sorted[i + 1..];
      MembersTurn(i, sorted[i..], b1, b2, b);
    }
    assert sorted[|sorted|..] == [];
    assert b + LeftMembers(|keys|, []) == b;
    b := b + [RBRACE];
    SortNormMembers(ms);
    assert b == b0 + ([LBRACE] + PrintMembers(Sort(NormMembers(ms))) + [RBRACE]);
  }

  /** A key, a colon and its value. */
  method AppendMember(b0: bytes, key: bytes, value: Value, ghost m: Member) returns (b: bytes)
    requires m == Member(key, value) && Strict(value)
    ensures b == b0 + PrintMember(Member(key, Norm(value)))
    decreases m, 1
  {
    b := AppendString(b0, key);
    b := b + [COLON];
    b := AppendCanonical(b, value);
    Associate(b0, PrintString(key), [COLON], Print(Norm(value)));
  }

  /** The key list and the key-to-value map the printer takes from an object. */
  method IndexMembers(ms: seq<Member>) returns (keys: seq<bytes>, byKey: map<bytes, Value>)
    requires UniqueKeys(ms)
    ensures keys == KeySeq(ms)
    ensures forall m :: m in ms ==> m.key in byKey && byKey[m.key] == m.value
  {
    keys, byKey := [], map[];
    for i := 0 to |ms|
      invariant keys == KeySeq(ms[..i])
      invariant forall j :: 0 <= j < i ==> ms[j].key in byKey && byKey[ms[j].key] == ms[j].value
    {
      KeySeqSnoc(ms[..i], ms[i]);
      assert ms[..i + 1] == ms[..i] + [ms[i]];
      keys := keys + [ms[i].key];
      byKey := byKey[ms[i].key := ms[i].value];
    }
    assert ms[..|ms|] == ms;
  }

  ghost function LeftMembers(i: nat, ms: seq<Member>): bytes {
    if i > 0 then PrintMoreMembers(ms) else PrintMembers(ms)
  }

  lemma MembersTurn(i: nat, ms: seq<Member>, b1: bytes, b2: bytes, b3: bytes)
    requires ms != []
    requires b2 == if i > 0 then b1 + [COMMA] else b1
    requires b3 == b2 + PrintMember(Member(ms[0].key, Norm(ms[0].value)))
    ensures b3 + LeftMembers(i + 1, NormMembers(ms[1..])) == b1 + LeftMembers(i, NormMembers(ms))
  {
    NormMembersHead(ms);
    Shift(i, b1, b2, PrintMember(NormMembers(ms)[0]), PrintMoreMembers(NormMembers(ms)[1..]));
  }

  lemma NormMembersHead(ms: seq<Member>)
    requires ms != []
    ensures NormMembers(ms) != []
    ensures NormMembers(ms)[0] == Member(ms[0].key, Norm(ms[0].value))
    ensures NormMembers(ms)[1..] == NormMembers(ms[1..])
  {
  }

  method AppendString(b0: bytes, t: bytes) returns (b: bytes)
    ensures b == b0 + PrintString(t)
  {
    b := b0 + [QUOTE];
    for i := 0 to |t|
      invariant b + EscapeAll(t[i..]) == b0 + [QUOTE] + EscapeAll(t)
    {
      assert t[i..][1..] == t[i + 1..];
      ghost var b1 := b;
      b := b + EscapeOctet(t[i]);
      assert b + EscapeAll(t[i + 1..]) == b1 + (EscapeOctet(t[i]) + EscapeAll(t[i + 1..]));
    }
    assert b == b0 + [QUOTE] + EscapeAll(t);
    b := b + [QUOTE];
  }

  // ---- Sorting keys apart from their values ----

  function KeySeq(ms: seq<Member>): seq<bytes> {
    if ms == [] then [] else [ms[0].key] + KeySeq(ms[1..])
  }

  /** sort.Strings on the keys. */
  function SortKeys(keys: seq<bytes>): seq<bytes> {
    if keys == [] then [] else InsertKey(keys[0], SortKeys(keys[1..]))
  }

  function InsertKey(k: bytes, keys: seq<bytes>): seq<bytes> {
    if keys == [] || Less(k, keys[0]) then [k] + keys else [keys[0]] + InsertKey(k, keys[1..])
  }

  lemma {:induction false} KeySeqSnoc(ms: seq<Member>, m: Member)
    ensures KeySeq(ms + [m]) == KeySeq(ms) + [m.key]
  {
    if ms != [] {
      assert (ms + [m])[1..] == ms[1..] + [m];
      KeySeqSnoc(ms[1..], m);
    }
  }

  lemma {:induction false} InsertKeySeq(m: Member, ms: seq<Member>)
    ensures KeySeq(Insert(m, ms)) == InsertKey(m.key, KeySeq(ms))
  {
    if ms != [] && !Less(m.key, ms[0].key) {
      InsertKeySeq(m, ms[1..]);
      assert ([ms[0]] + Insert(m, ms[1..]))[1..] == Insert(m, ms[1..]);
    } else {
      assert ([m] + ms)[1..] == ms;
    }
  }

  lemma {:induction false} SortedKeySeq(ms: seq<Member>)
    ensures KeySeq(Sort(ms)) == SortKeys(KeySeq(ms))
    ensures |Sort(ms)| == |SortKeys(KeySeq(ms))|
    ensures forall i :: 0 <= i < |Sort(ms)| ==> Sort(ms)[i].key == SortKeys(KeySeq(ms))[i]
  {
    KeySeqAt(Sort(ms));
    if ms != [] {
      SortedKeySeq(ms[1..]);
      InsertKeySeq(ms[0], Sort(ms[1..]));
    }
  }

  lemma {:induction false} KeySeqAt(ms: seq<Member>)
    ensures |KeySeq(ms)| == |ms|
    ensures forall i :: 0 <= i < |ms| ==> KeySeq(ms)[i] == ms[i].key
  {
    if ms != [] {
      KeySeqAt(ms[1..]);
    }
  }

  // ---- Facts about Without, Insert and Sort ----

  lemma {:induction false} WithoutMembership(ms: seq<Member>, key: bytes, m: Member)
    ensures m in Without(ms, key) <==> m in ms && m.key != key
  {
    if ms != [] {
      WithoutMembership(ms[1..], key, m);
      assert m in ms <==> m == ms[0] || m in ms[1..];
    }
  }

  lemma {:induction false} WithoutUnique(ms: seq<Member>, key: bytes)
    requires UniqueKeys(ms)
    ensures UniqueKeys(Without(ms, key))
  {
    if ms != [] {
      WithoutUnique(ms[1..], key);
      forall m | m in Without(ms[1..], key)
        ensures m.key != ms[0].key
      {
        WithoutMembership(ms[1..], key, m);
      }
    }
  }

  lemma WithoutStrict(ms: seq<Member>, key: bytes)
    requires StrictMembers(ms) && UniqueKeys(ms)
    ensures StrictMembers(Without(ms, key)) && UniqueKeys(Without(ms, key))
  {
    WithoutUnique(ms, key);
    forall m | m in Without(ms, key)
      ensures m in ms
    {
      WithoutMembership(ms, key, m);
    }
  }

  lemma {:induction false} InsertMembership(m: Member, ms: seq<Member>, x: Member)
    ensures x in Insert(m, ms) <==> x == m || x in ms
  {
    if ms != [] && !Less(m.key, ms[0].key) {
      InsertMembership(m, ms[1..], x);
      assert x in ms <==> x == ms[0] || x in ms[1..];
    }
  }

  lemma {:induction false} SortMembership(ms: seq<Member>, x: Member)
    ensures x in Sort(ms) <==> x in ms
  {
    if ms != [] {
      SortMembership(ms[1..], x);
      InsertMembership(ms[0], Sort(ms[1..]), x);
      assert x in ms <==> x == ms[0] || x in ms[1..];
    }
  }

  lemma {:induction false} InsertNorm(m: Member, ms: seq<Member>)
    ensures NormMembers(Insert(m, ms)) == Insert(Member(m.key, Norm(m.value)), NormMembers(ms))
  {
    var n := Member(m.key, Norm(m.value));
    if ms == [] || Less(m.key, ms[0].key) {
      assert ([m] + ms)[1..] == ms;
    } else {
      InsertNorm(m, ms[1..]);
      assert ([ms[0]] + Insert(m, ms[1..]))[1..] == Insert(m, ms[1..]);
      assert NormMembers(ms)[1..] == NormMembers(ms[1..]);
    }
  }

  lemma {:induction false} SortNormMembers(ms: seq<Member>)
    ensures NormMembers(Sort(ms)) == Sort(NormMembers(ms))
  {
    if ms != [] {
      SortNormMembers(ms[1..]);
      InsertNorm(ms[0], Sort(ms[1..]));
      assert NormMembers(ms)[1..] == NormMembers(ms[1..]);
    }
  }
}
