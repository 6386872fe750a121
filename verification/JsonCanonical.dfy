/**
 What CCJ-1 canonicalization is for: canonical bytes read back to the same value with its
 members sorted and a top-level "sig" gone, and two values share canonical bytes exactly
 when they mean the same apart from member order and that "sig".
 */
module JsonCanonical {
  import opened Bytes
  import opened JsonValue
  import opened JsonReader
  import opened Ccj1
  import opened TextOrder
  import opened JsonRoundTrip
  import opened JsonRange
  import Utf8

  /** A value with its objects taken as maps. */
  datatype Meaning =
    | NullMeaning
    | BoolMeaning(flag: bool)
    | IntMeaning(n: int)
    | TextMeaning(text: bytes)
    | ListMeaning(elems: seq<Meaning>)
    | MapMeaning(fields: map<bytes, Meaning>)

  function Means(v: Value): Meaning {
    match v
    case Null => NullMeaning
    case Bool(b) => BoolMeaning(b)
    case Int(n) => IntMeaning(n)
    case Str(t) => TextMeaning(t)
    case Arr(es) => ListMeaning(MeansAll(es))
    case Obj(ms) => MapMeaning(MeansMap(ms))
  }

  function MeansAll(es: seq<Value>): seq<Meaning> {
    if es == [] then [] else [Means(es[0])] + MeansAll(es[1..])
  }

  function MeansMap(ms: seq<Member>): map<bytes, Meaning> {
    if ms == [] then map[] else MeansMap(ms[1..])[ms[0].key := Means(ms[0].value)]
  }

  // ---- Printed bytes are valid UTF-8 ----

  lemma {:induction false} AsciiValid(s: bytes)
    requires forall c :: c in s ==> c < 0x80
    ensures Utf8.Valid(s)
    decreases |s|
  {
    if s != [] {
      assert s[0] in s && forall c :: c in s[1..] ==> c in s;
      AsciiValid(s[1..]);
    }
  }

  lemma {:induction false} EscapeAllValid(q: Utf8.State, t: bytes)
    requires Utf8.Run(q, t) == Utf8.Start
    ensures Utf8.Run(q, EscapeAll(t)) == Utf8.Start
    decreases |t|
  {
    if t != [] {
      var e := EscapeOctet(t[0]);
      EscapeAllValid(Utf8.Step(q, t[0]), t[1..]);
      Utf8.RunConcat(q, e, EscapeAll(t[1..]));
      if t[0] < 0x80 {
        Utf8.AsciiAtBoundary(q, t);
        AsciiValid(e);
      } else {
        assert e[1..] == [];
      }
    }
  }

  lemma ValidParts(a: bytes, b: bytes, c: bytes)
    requires Utf8.Valid(a) && Utf8.Valid(b) && Utf8.Valid(c)
    ensures Utf8.Valid(a + b + c)
  {
    Utf8.ValidConcat(a, b);
    Utf8.ValidConcat(a + b, c);
  }

  lemma PrintStringValid(t: bytes)
    requires Utf8.Valid(t)
    ensures Utf8.Valid(PrintString(t))
  {
    EscapeAllValid(Utf8.Start, t);
    AsciiValid([QUOTE]);
    ValidParts([QUOTE], EscapeAll(t), [QUOTE]);
  }

  lemma {:induction false} PrintValid(v: Value)
    requires Strict(v)
    ensures Utf8.Valid(Print(v))
    decreases v, 0
  {
    match v
    case Int(n) => PrintIntValid(n);
    case Str(t) => PrintStringValid(t);
    case Arr(es) =>
      if es != [] {
        PrintValid(es[0]);
        PrintMoreElemsValid(es[1..]);
        Utf8.ValidConcat(Print(es[0]), PrintMoreElems(es[1..]));
      }
      AsciiValid([LBRACKET]);
      AsciiValid([RBRACKET]);
      ValidParts([LBRACKET], PrintElems(es), [RBRACKET]);
    case Obj(ms) =>
      if ms != [] {
        PrintMemberValid(ms[0]);
        PrintMoreMembersValid(ms[1..]);
        Utf8.ValidConcat(PrintMember(ms[0]), PrintMoreMembers(ms[1..]));
      }
      AsciiValid([LBRACE]);
      AsciiValid([RBRACE]);
      ValidParts([LBRACE], PrintMembers(ms), [RBRACE]);
    case _ => AsciiValid(Print(v));
  }

  lemma PrintIntValid(n: int)
    ensures Utf8.Valid(PrintInt(n))
  {
    PrintNatDigits(if n < 0 then -n else n);
    forall c | c in PrintInt(n)
      ensures c < 0x80
    {
      assert c == MINUS || c in PrintNat(if n < 0 then -n else n);
    }
    AsciiValid(PrintInt(n));
  }

  lemma {:induction false} PrintMoreElemsValid(es: seq<Value>)
    requires StrictElems(es)
    ensures Utf8.Valid(PrintMoreElems(es))
    decreases es, 1
  {
    if es != [] {
      AsciiValid([COMMA]);
      PrintValid(es[0]);
      PrintMoreElemsValid(es[1..]);
      ValidParts([COMMA], Print(es[0]), PrintMoreElems(es[1..]));
    }
  }

  lemma {:induction false} PrintMemberValid(m: Member)
    requires Utf8.Valid(m.key) && Strict(m.value)
    ensures Utf8.Valid(PrintMember(m))
    decreases m, 1
  {
    AsciiValid([COLON]);
    PrintStringValid(m.key);
    PrintValid(m.value);
    ValidParts(PrintString(m.key), [COLON], Print(m.value));
  }

  lemma {:induction false} PrintMoreMembersValid(ms: seq<Member>)
    requires StrictMembers(ms)
    ensures Utf8.Valid(PrintMoreMembers(ms))
    decreases ms, 1
  {
    if ms != [] {
      AsciiValid([COMMA]);
      PrintMemberValid(ms[0]);
      PrintMoreMembersValid(ms[1..]);
      ValidParts([COMMA], PrintMember(ms[0]), PrintMoreMembers(ms[1..]));
    }
  }

  // ---- Reading inverts printing ----

  /** Printing any admissible value and reading the bytes gives exactly that value. */
  lemma ReadInvertsPrint(v: Value)
    requires Admissible(v)
    ensures ReadDocument(Print(v)) == Ok(v)
  {
    PrintValid(v);
    PrintHead(v);
    ReadPrinted(v, [], 0);
    assert Print(v) + [] == Print(v);
  }

  /** Printing is injective on what the reader produces. */
  lemma PrintInjective(a: Value, b: Value)
    requires Admissible(a) && Admissible(b) && Print(a) == Print(b)
    ensures a == b
  {
    ReadInvertsPrint(a);
    ReadInvertsPrint(b);
  }

  lemma ReadAdmissible(data: bytes)
    requires ReadDocument(data).Ok?
    ensures Admissible(ReadDocument(data).value)
  {
    SkipSpaceValid(data);
    ReadValueAdmissible(SkipSpace(data), 0);
  }

  /** The reader's range: exactly the admissible values come out of some document. */
  lemma ReaderRange(v: Value)
    ensures Admissible(v) <==> exists data :: ReadDocument(data) == Ok(v)
  {
    if Admissible(v) {
      ReadInvertsPrint(v);
    }
    if exists data :: ReadDocument(data) == Ok(v) {
      var data :| ReadDocument(data) == Ok(v);
      ReadAdmissible(data);
    }
  }

  // ---- Sorting ----

  predicate Sorted(ms: seq<Member>) {
    forall i, j :: 0 <= i < j < |ms| ==> Less(ms[i].key, ms[j].key)
  }

  lemma {:induction false} InsertSorted(m: Member, ms: seq<Member>)
    requires Sorted(ms) && forall x :: x in ms ==> x.key != m.key
    ensures Sorted(Insert(m, ms))
  {
    if ms != [] {
      LessTotal(m.key, ms[0].key);
      assert ms[0] in ms;
      if Less(m.key, ms[0].key) {
        forall j | 0 <= j < |ms|
          ensures Less(m.key, ms[j].key)
        {
          if j > 0 {
            LessTransitive(m.key, ms[0].key, ms[j].key);
          }
        }
      } else {
        InsertSorted(m, ms[1..]);
        forall x | x in Insert(m, ms[1..])
          ensures Less(ms[0].key, x.key)
        {
          InsertMembership(m, ms[1..], x);
        }
      }
    }
  }

  lemma {:induction false} SortSorted(ms: seq<Member>)
    requires UniqueKeys(ms)
    ensures Sorted(Sort(ms))
  {
    if ms != [] {
      SortSorted(ms[1..]);
      forall x | x in Sort(ms[1..])
        ensures x.key != ms[0].key
      {
        SortMembership(ms[1..], x);
      }
      InsertSorted(ms[0], Sort(ms[1..]));
    }
  }

  lemma SortedUnique(ms: seq<Member>)
    requires Sorted(ms)
    ensures UniqueKeys(ms)
  {
    forall i, j | 0 <= i < j < |ms|
      ensures ms[i].key != ms[j].key
    {
      LessIrreflexive(ms[i].key);
    }
  }

  /** A sorted list is determined by its members. */
  lemma {:induction false} SortedDetermined(a: seq<Member>, b: seq<Member>)
    requires Sorted(a) && Sorted(b) && forall x :: x in a <==> x in b
    ensures a == b
  {
    if a == [] || b == [] {
      EmptyMembership(a, b);
      EmptyMembership(b, a);
    } else {
      SortedHead(a, b);
      SortedTail(a);
      SortedTail(b);
      forall x
        ensures x in a[1..] <==> x in b[1..]
      {
        assert x in a <==> x == a[0] || x in a[1..];
        assert x in b <==> x == b[0] || x in b[1..];
      }
      SortedDetermined(a[1..], b[1..]);
      assert a == [a[0]] + a[1..] && b == [b[0]] + b[1..];
    }
  }

  lemma EmptyMembership(a: seq<Member>, b: seq<Member>)
    requires forall x :: x in a ==> x in b
    ensures b == [] ==> a == []
  {
    if a != [] {
      assert a[0] in b;
    }
  }

  lemma SortedHead(a: seq<Member>, b: seq<Member>)
    requires Sorted(a) && Sorted(b) && a != [] && b != []
    requires forall x :: x in a <==> x in b
    ensures a[0] == b[0]
  {
    assert a[0] in b && b[0] in a;
    if a[0] != b[0] {
      LessTransitive(a[0].key, b[0].key, a[0].key);
      LessIrreflexive(a[0].key);
    }
  }

  lemma SortedTail(a: seq<Member>)
    requires Sorted(a) && a != []
    ensures a[0] !in a[1..]
  {
    LessIrreflexive(a[0].key);
  }

  // ---- The normal form ----

  lemma {:induction false} NormMembersAt(ms: seq<Member>)
    ensures |NormMembers(ms)| == |ms|
    ensures forall i :: 0 <= i < |ms| ==> NormMembers(ms)[i] == Member(ms[i].key, Norm(ms[i].value))
  {
    if ms != [] {
      NormMembersAt(ms[1..]);
    }
  }

  lemma {:induction false} MeansMapOf(ms: seq<Member>)
    requires UniqueKeys(ms)
    ensures MeansMap(ms).Keys == Keys(ms)
    ensures forall m :: m in ms ==> MeansMap(ms)[m.key] == Means(m.value)
  {
    if ms != [] {
      MeansMapOf(ms[1..]);
      assert forall m :: m in ms <==> m == ms[0] || m in ms[1..];
    }
  }

  lemma {:induction false} MeansAllAt(es: seq<Value>)
    ensures |MeansAll(es)| == |es|
    ensures forall i :: 0 <= i < |es| ==> MeansAll(es)[i] == Means(es[i])
  {
    if es != [] {
      MeansAllAt(es[1..]);
    }
  }

  lemma {:induction false} NormElemsAt(es: seq<Value>)
    ensures |NormElems(es)| == |es|
    ensures forall i :: 0 <= i < |es| ==> NormElems(es)[i] == Norm(es[i])
  {
    if es != [] {
      NormElemsAt(es[1..]);
    }
  }

  /** Values with the same meaning have the same normal form. */
  lemma {:induction false} SameMeaningSameNorm(a: Value, b: Value)
    requires Strict(a) && Strict(b) && Means(a) == Means(b)
    ensures Norm(a) == Norm(b)
    decreases a
  {
    if a.Arr? {
      MeansAllAt(a.elems);
      MeansAllAt(b.elems);
      NormElemsAt(a.elems);
      NormElemsAt(b.elems);
      forall i | 0 <= i < |a.elems|
        ensures NormElems(a.elems)[i] == NormElems(b.elems)[i]
      {
        assert Means(a.elems[i]) == MeansAll(a.elems)[i] == MeansAll(b.elems)[i];
        SameMeaningSameNorm(a.elems[i], b.elems[i]);
      }
    } else if a.Obj? {
      var x, y := a.members, b.members;
      forall m | m in x
        ensures Member(m.key, Norm(m.value)) in NormMembers(y)
      {
        var m' := SameField(x, y, m);
        SameMeaningSameNorm(m.value, m'.value);
        NormMembersIn(y, m');
      }
      forall m | m in y
        ensures Member(m.key, Norm(m.value)) in NormMembers(x)
      {
        var m' := SameField(y, x, m);
        SameMeaningSameNorm(m'.value, m.value);
        NormMembersIn(x, m');
      }
      SameMembersSameSort(x, y);
    }
  }

  lemma SameField(x: seq<Member>, y: seq<Member>, m: Member) returns (m': Member)
    requires UniqueKeys(x) && UniqueKeys(y) && MeansMap(x) == MeansMap(y) && m in x
    ensures m' in y && m'.key == m.key && Means(m'.value) == Means(m.value)
  {
    MeansMapOf(x);
    MeansMapOf(y);
    assert m.key in MeansMap(y).Keys;
    m' :| m' in y && m'.key == m.key;
  }

  lemma NormMembersIn(ms: seq<Member>, m: Member)
    requires m in ms
    ensures Member(m.key, Norm(m.value)) in NormMembers(ms)
  {
    NormMembersAt(ms);
    var i :| 0 <= i < |ms| && ms[i] == m;
    assert NormMembers(ms)[i] == Member(m.key, Norm(m.value));
  }

  lemma SameMembersSameSort(x: seq<Member>, y: seq<Member>)
    requires UniqueKeys(x) && UniqueKeys(y)
    requires forall m :: m in x ==> Member(m.key, Norm(m.value)) in NormMembers(y)
    requires forall m :: m in y ==> Member(m.key, Norm(m.value)) in NormMembers(x)
    ensures Sort(NormMembers(x)) == Sort(NormMembers(y))
  {
    NormMembersAt(x);
    NormMembersAt(y);
    SortSorted(NormMembers(x));
    SortSorted(NormMembers(y));
    NormMembersAmong(x, NormMembers(y));
    NormMembersAmong(y, NormMembers(x));
    hide Sort, NormMembers;
    forall n
      ensures n in Sort(NormMembers(x)) <==> n in Sort(NormMembers(y))
    {
      SortMembership(NormMembers(x), n);
      SortMembership(NormMembers(y), n);
    }
    SortedDetermined(Sort(NormMembers(x)), Sort(NormMembers(y)));
  }

  lemma NormMembersAmong(x: seq<Member>, ns: seq<Member>)
    requires forall m :: m in x ==> Member(m.key, Norm(m.value)) in ns
    ensures forall n :: n in NormMembers(x) ==> n in ns
  {
    NormMembersAt(x);
    forall n | n in NormMembers(x)
      ensures n in ns
    {
      var i :| 0 <= i < |x| && NormMembers(x)[i] == n;
      assert x[i] in x;
    }
  }

  /** Sorting keeps the meaning and the strictness. */
  lemma {:induction false} NormKeeps(v: Value)
    requires Strict(v)
    ensures Means(Norm(v)) == Means(v) && Strict(Norm(v)) && Height(Norm(v)) == Height(v)
    decreases v
  {
    if v.Arr? {
      var es, ns := v.elems, NormElems(v.elems);
      NormElemsAt(es);
      MeansAllAt(es);
      MeansAllAt(ns);
      forall i | 0 <= i < |es|
        ensures MeansAll(ns)[i] == MeansAll(es)[i] && Strict(ns[i]) && Height(ns[i]) == Height(es[i])
      {
        NormKeeps(es[i]);
      }
      ElemsHeightCongruent(es, ns);
    } else if v.Obj? {
      forall m | m in v.members
        ensures Means(Norm(m.value)) == Means(m.value) && Strict(Norm(m.value)) && Height(Norm(m.value)) == Height(m.value)
      {
        NormKeeps(m.value);
      }
      NormMembersKeeps(v.members);
    }
  }

  lemma NormMembersKeeps(ms: seq<Member>)
    requires StrictMembers(ms) && UniqueKeys(ms)
    requires forall m :: m in ms ==>
               Means(Norm(m.value)) == Means(m.value) && Strict(Norm(m.value)) && Height(Norm(m.value)) == Height(m.value)
    ensures MeansMap(Sort(NormMembers(ms))) == MeansMap(ms)
    ensures StrictMembers(Sort(NormMembers(ms))) && UniqueKeys(Sort(NormMembers(ms)))
    ensures MembersHeight(Sort(NormMembers(ms))) == MembersHeight(ms)
  {
    var ns := NormMembers(ms);
    NormMembersAt(ms);
    SortSorted(ns);
    SortedUnique(Sort(ns));
    SortMeans(ns);
    SortHeight(ns);
    MembersHeightCongruent(ms, ns);
    MembersMeansCongruent(ms, ns);
    forall m | m in Sort(ns)
      ensures Utf8.Valid(m.key) && Strict(m.value)
    {
      SortMembership(ns, m);
      var i :| 0 <= i < |ns| && ns[i] == m;
      assert ms[i] in ms;
    }
  }

  lemma {:induction false} MembersMeansCongruent(ms: seq<Member>, ns: seq<Member>)
    requires |ms| == |ns|
    requires forall i :: 0 <= i < |ms| ==> ns[i].key == ms[i].key && Means(ns[i].value) == Means(ms[i].value)
    ensures MeansMap(ns) == MeansMap(ms)
  {
    if ms != [] {
      MembersMeansCongruent(ms[1..], ns[1..]);
    }
  }

  lemma {:induction false} MembersHeightCongruent(ms: seq<Member>, ns: seq<Member>)
    requires |ms| == |ns| && forall i :: 0 <= i < |ms| ==> Height(ns[i].value) == Height(ms[i].value)
    ensures MembersHeight(ns) == MembersHeight(ms)
  {
    if ms != [] {
      MembersHeightCongruent(ms[1..], ns[1..]);
    }
  }

  lemma {:induction false} ElemsHeightCongruent(es: seq<Value>, ns: seq<Value>)
    requires |es| == |ns| && forall i :: 0 <= i < |es| ==> Height(ns[i]) == Height(es[i])
    ensures ElemsHeight(ns) == ElemsHeight(es)
  {
    if es != [] {
      ElemsHeightCongruent(es[1..], ns[1..]);
    }
  }

  lemma {:induction false} InsertHeight(m: Member, ms: seq<Member>)
    ensures MembersHeight(Insert(m, ms)) == Max(Height(m.value), MembersHeight(ms))
  {
    if ms == [] || Less(m.key, ms[0].key) {
      assert ([m] + ms)[1..] == ms;
    } else {
      InsertHeight(m, ms[1..]);
      assert ([ms[0]] + Insert(m, ms[1..]))[1..] == Insert(m, ms[1..]);
    }
  }

  lemma {:induction false} SortHeight(ms: seq<Member>)
    ensures MembersHeight(Sort(ms)) == MembersHeight(ms)
  {
    if ms != [] {
      SortHeight(ms[1..]);
      InsertHeight(ms[0], Sort(ms[1..]));
    }
  }

  lemma SortMeans(ms: seq<Member>)
    requires UniqueKeys(ms)
    ensures MeansMap(Sort(ms)) == MeansMap(ms)
  {
    SortSorted(ms);
    SortedUnique(Sort(ms));
    MeansMapOf(ms);
    MeansMapOf(Sort(ms));
    forall m
      ensures m in Sort(ms) <==> m in ms
    {
      SortMembership(ms, m);
    }
    var a, b := MeansMap(Sort(ms)), MeansMap(ms);
    assert a.Keys == b.Keys;
    forall k | k in a
      ensures a[k] == b[k]
    {
      var m :| m in ms && m.key == k;
    }
  }

  lemma {:induction false} WithoutHeight(ms: seq<Member>, key: bytes)
    ensures MembersHeight(Without(ms, key)) <= MembersHeight(ms)
  {
    if ms != [] {
      WithoutHeight(ms[1..], key);
      assert ms[0].key != key ==> ([ms[0]] + Without(ms[1..], key))[1..] == Without(ms[1..], key);
    }
  }

  lemma StripSigAdmissible(v: Value)
    requires Admissible(v)
    ensures Admissible(StripSig(v))
  {
    if v.Obj? {
      WithoutStrict(v.members, SIG);
      WithoutHeight(v.members, SIG);
    }
  }

  // ---- Main results ----

  /** Canonical bytes read back to the value sorted and without its top-level "sig". */
  lemma CanonicalReadsBack(v: Value)
    requires Admissible(v)
    ensures ReadDocument(Canonical(v)) == Ok(Norm(StripSig(v)))
    ensures Means(Norm(StripSig(v))) == Means(StripSig(v))
  {
    StripSigAdmissible(v);
    NormKeeps(StripSig(v));
    ReadInvertsPrint(Norm(StripSig(v)));
  }

  /** Reading canonical bytes and printing again changes nothing. */
  lemma CanonicalIdempotent(v: Value)
    requires Admissible(v)
    ensures ReadDocument(Canonical(v)).Ok?
    ensures Canonical(ReadDocument(Canonical(v)).value) == Canonical(v)
  {
    CanonicalReadsBack(v);
    var s := StripSig(v);
    var n := Norm(s);
    StripSigAdmissible(v);
    NormKeeps(s);
    SameMeaningSameNorm(n, s);
    if v.Obj? {
      NormNoSig(v.members);
    }
  }

  lemma NormNoSig(ms: seq<Member>)
    requires StrictMembers(ms) && UniqueKeys(ms)
    ensures var n := Norm(Obj(Without(ms, SIG))); StripSig(n) == n
  {
    var s := Without(ms, SIG);
    NormMembersAt(s);
    forall m | m in Sort(NormMembers(s))
      ensures m.key != SIG
    {
      SortMembership(NormMembers(s), m);
      var i :| 0 <= i < |s| && NormMembers(s)[i] == m;
      WithoutMembership(ms, SIG, s[i]);
    }
    WithoutAbsent(Sort(NormMembers(s)), SIG);
  }

  lemma {:induction false} WithoutAbsent(ms: seq<Member>, key: bytes)
    requires forall m :: m in ms ==> m.key != key
    ensures Without(ms, key) == ms
  {
    if ms != [] {
      assert ms[0] in ms;
      WithoutAbsent(ms[1..], key);
      assert [ms[0]] + ms[1..] == ms;
    }
  }

  /** At every level the keys ascend: of two keys the earlier one ends first, or has the smaller octet where they part. */
  ghost predicate Ascending(v: Value) {
    match v
    case Arr(es) => forall e :: e in es ==> Ascending(e)
    case Obj(ms) => KeysAscend(ms) && forall m :: m in ms ==> Ascending(m.value)
    case _ => true
  }

  ghost predicate KeysAscend(ms: seq<Member>) {
    forall i, j :: 0 <= i < j < |ms| ==> Precedes(ms[i].key, ms[j].key)
  }

  /** The members of every object are printed in ascending order of their keys. */
  lemma {:induction false} NormAscends(v: Value)
    requires Strict(v)
    ensures Ascending(Norm(v))
    decreases v
  {
    if v.Arr? {
      NormElemsAt(v.elems);
      forall i | 0 <= i < |v.elems|
        ensures Ascending(NormElems(v.elems)[i])
      {
        NormAscends(v.elems[i]);
      }
    } else if v.Obj? {
      var ns := NormMembers(v.members);
      NormMembersAt(v.members);
      forall i | 0 <= i < |v.members|
        ensures Ascending(ns[i].value)
      {
        NormAscends(v.members[i].value);
      }
      forall m | m in Sort(ns)
        ensures Ascending(m.value)
      {
        SortMembership(ns, m);
      }
      SortSorted(ns);
      forall i, j | 0 <= i < j < |Sort(ns)|
        ensures Precedes(Sort(ns)[i].key, Sort(ns)[j].key)
      {
        LessExactly(Sort(ns)[i].key, Sort(ns)[j].key);
      }
    }
  }

  /** Canonical bytes read to a tree with every object's keys in ascending order. */
  lemma CanonicalAscends(v: Value)
    requires Admissible(v)
    ensures ReadDocument(Canonical(v)).Ok? && Ascending(ReadDocument(Canonical(v)).value)
  {
    CanonicalReadsBack(v);
    StripSigAdmissible(v);
    NormAscends(StripSig(v));
  }

  /** Two readable values share canonical bytes exactly when, "sig" aside, they mean the same. */
  lemma CanonicalExactly(a: Value, b: Value)
    requires Admissible(a) && Admissible(b)
    ensures Canonical(a) == Canonical(b) <==> Means(StripSig(a)) == Means(StripSig(b))
  {
    CanonicalReadsBack(a);
    CanonicalReadsBack(b);
    StripSigAdmissible(a);
    StripSigAdmissible(b);
    if Means(StripSig(a)) == Means(StripSig(b)) {
      SameMeaningSameNorm(StripSig(a), StripSig(b));
    }
  }
}
