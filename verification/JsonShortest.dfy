/**
 CCJ-1 bytes are the shortest document with their meaning: no whitespace, the shortest
 escape of every character, and lower-case hex digits where only digits will do.
 */
module JsonShortest {
  import opened Bytes
  import opened JsonValue
  import opened JsonReader
  import opened JsonCanonical
  import opened JsonGrammar
  import opened JsonGrammarExact
  import opened Ccj1
  import opened TextOrder
  import Utf8

  /** No longer than the other; and if as long, and that one is in lower case, the same. */
  predicate Plainer(a: bytes, b: bytes, lower: bool) {
    |a| <= |b| && (lower && |a| == |b| ==> a == b)
  }

  lemma PlainerJoin(a: bytes, b: bytes, c: bytes, d: bytes, lower: bool)
    requires Plainer(a, b, lower) && Plainer(c, d, lower)
    ensures Plainer(a + c, b + d, lower)
  {
  }

  lemma PlainerThree(a: bytes, b: bytes, c: bytes, d: bytes, e: bytes, f: bytes, lower: bool)
    requires Plainer(a, b, lower) && Plainer(c, d, lower) && Plainer(e, f, lower)
    ensures Plainer(a + c + e, b + d + f, lower)
  {
    PlainerJoin(a, b, c, d, lower);
    PlainerJoin(a + c, b + d, e, f, lower);
  }

  lemma PlainerBlank(b: bytes, lower: bool)
    ensures Plainer([], b, lower)
  {
  }

  // ---- Lower case ----

  predicate LowerUnits(us: seq<Unit>) {
    forall u :: u in us && u.Coded? ==> forall x :: x in u.upper ==> !x
  }

  predicate LowerTree(t: Tree) {
    match t
    case Text(us) => LowerUnits(us)
    case List(_, items) => forall e :: e in items ==> LowerTree(e.tree)
    case Dict(_, fields) => forall f :: f in fields ==> LowerUnits(f.key) && LowerTree(f.item.tree)
    case _ => true
  }

  // ---- Strings ----

  lemma {:induction false} EscapeAllConcat(a: bytes, b: bytes)
    ensures EscapeAll(a + b) == EscapeAll(a) + EscapeAll(b)
    decreases |a|
  {
    if a == [] {
      assert a + b == b;
    } else {
      assert (a + b)[1..] == a[1..] + b;
      EscapeAllConcat(a[1..], b);
    }
  }

  lemma EscapeOne(c: byte)
    ensures EscapeAll([c]) == EscapeOctet(c)
  {
    assert EscapeAll([c][1..]) == [];
  }

  lemma {:induction false} EscapeHigh(s: bytes)
    requires forall c :: c in s ==> c >= 0x80
    ensures EscapeAll(s) == s
    decreases |s|
  {
    if s != [] {
      assert s[0] in s && forall c :: c in s[1..] ==> c in s;
      EscapeHigh(s[1..]);
    }
  }

  lemma UnitIsPlain(u: Unit, lower: bool)
    requires UnitOk(u) && (lower && u.Coded? ==> forall x :: x in u.upper ==> !x)
    ensures Plainer(EscapeAll(DenoteUnit(u)), SpellUnit(u), lower)
  {
    match u
    case Raw(c) => EscapeOne(c);
    case Short(c) => EscapeOne(c);
    case Coded(r, upper) =>
      if r < 0x80 {
        EscapeOne(r as byte);
        CodeOfAscii(r, upper);
        assert lower ==> forall i :: 0 <= i < 4 ==> upper[i] in upper;
      } else {
        EscapeHigh(Utf8.Encode(r));
      }
  }

  lemma CodeOfAscii(r: int, upper: seq<bool>)
    requires 0 <= r < 0x80 && |upper| == 4
    ensures |Code(r, upper)| == 6 >= |EscapeOctet(r as byte)|
    ensures |EscapeOctet(r as byte)| == 6 && !upper[2] && !upper[3] ==> EscapeOctet(r as byte) == Code(r, upper)
  {
    assert r / 0x1000 == 0 && r / 0x100 % 0x10 == 0 && r / 0x10 % 0x10 == r / 0x10;
  }

  lemma {:induction false} TextIsPlain(us: seq<Unit>, lower: bool)
    requires UnitsOk(us) && (lower ==> LowerUnits(us))
    ensures Plainer(EscapeAll(Denote(us)), Spell(us), lower)
  {
    if us != [] {
      UnitIsPlain(us[0], lower);
      TextIsPlain(us[1..], lower);
      EscapeAllConcat(DenoteUnit(us[0]), Denote(us[1..]));
      PlainerJoin(EscapeAll(DenoteUnit(us[0])), SpellUnit(us[0]), EscapeAll(Denote(us[1..])), Spell(us[1..]), lower);
    }
  }

  lemma QuotedIsPlain(us: seq<Unit>, lower: bool)
    requires UnitsOk(us) && (lower ==> LowerUnits(us))
    ensures Plainer(PrintString(Denote(us)), [0x22] + Spell(us) + [0x22], lower)
  {
    TextIsPlain(us, lower);
    PlainerThree([0x22], [0x22], EscapeAll(Denote(us)), Spell(us), [0x22], [0x22], lower);
  }

  // ---- Values ----

  lemma {:induction false} TreeIsPlain(t: Tree, lower: bool)
    requires TreeOk(t) && (lower ==> LowerTree(t))
    ensures Plainer(Print(ValueOf(t)), SpellTree(t), lower)
    decreases t, 0
  {
    match t
    case Word(_) =>
    case Numeral(_) =>
    case Text(us) => QuotedIsPlain(us, lower);
    case List(blank, items) =>
      if items != [] {
        ElementsArePlain(items, lower);
      }
      PlainerBlank(blank, lower);
      PlainerJoin([0x5B], [0x5B], [], blank, lower);
      assert [0x5B] + [] == [0x5B];
      PlainerThree([0x5B], [0x5B] + blank, PrintElems(ValuesOf(items)), SpellElements(items), [0x5D], [0x5D], lower);
    case Dict(blank, fields) =>
      if fields != [] {
        FieldsArePlain(fields, lower);
      }
      PlainerBlank(blank, lower);
      PlainerJoin([0x7B], [0x7B], [], blank, lower);
      assert [0x7B] + [] == [0x7B];
      PlainerThree([0x7B], [0x7B] + blank, PrintMembers(MembersOf(fields)), SpellFields(fields), [0x7D], [0x7D], lower);
  }

  lemma {:induction false} ElementIsPlain(e: Element, lower: bool)
    requires ElementOk(e) && (lower ==> LowerTree(e.tree))
    ensures Plainer(Print(ValueOf(e.tree)), SpellElement(e), lower)
    decreases e, 1
  {
    var p := Print(ValueOf(e.tree));
    TreeIsPlain(e.tree, lower);
    PlainerBlank(e.before, lower);
    PlainerBlank(e.after, lower);
    PlainerThree([], e.before, p, SpellTree(e.tree), [], e.after, lower);
    assert [] + p + [] == p;
  }

  lemma {:induction false} ElementsArePlain(items: seq<Element>, lower: bool)
    requires items != [] && ElementsOk(items) && (lower ==> forall e :: e in items ==> LowerTree(e.tree))
    ensures Plainer(PrintElems(ValuesOf(items)), SpellElements(items), lower)
    ensures Plainer(PrintMoreElems(ValuesOf(items)), SpellMoreElements(items), lower)
    decreases items, 2
  {
    var e, vs := items[0], ValuesOf(items);
    assert ElementOk(e) && vs[0] == ValueOf(e.tree) && vs[1..] == ValuesOf(items[1..]);
    ElementIsPlain(e, lower);
    if |items| > 1 {
      ElementsArePlain(items[1..], lower);
    }
    var p, q := PrintMoreElems(vs[1..]), SpellMoreElements(items[1..]);
    PlainerJoin(Print(vs[0]), SpellElement(e), p, q, lower);
    PlainerThree([0x2C], [0x2C], Print(vs[0]), SpellElement(e), p, q, lower);
  }

  lemma {:induction false} FieldIsPlain(f: Field, lower: bool)
    requires FieldOk(f) && (lower ==> LowerUnits(f.key) && LowerTree(f.item.tree))
    ensures Plainer(PrintMember(MemberOf(f)), SpellField(f), lower)
    decreases f, 2
  {
    var key, name := PrintString(Denote(f.key)), [0x22] + Spell(f.key) + [0x22];
    QuotedIsPlain(f.key, lower);
    ElementIsPlain(f.item, lower);
    PlainerBlank(f.lead, lower);
    PlainerBlank(f.gap, lower);
    PlainerThree([], f.lead, key, name, [], f.gap, lower);
    assert [] + key + [] == key;
    PlainerThree(key, f.lead + name + f.gap, [0x3A], [0x3A], Print(MemberOf(f).value), SpellElement(f.item), lower);
  }

  lemma {:induction false} FieldsArePlain(fields: seq<Field>, lower: bool)
    requires fields != [] && FieldsOk(fields)
    requires lower ==> forall f :: f in fields ==> LowerUnits(f.key) && LowerTree(f.item.tree)
    ensures Plainer(PrintMembers(MembersOf(fields)), SpellFields(fields), lower)
    ensures Plainer(PrintMoreMembers(MembersOf(fields)), SpellMoreFields(fields), lower)
    decreases fields, 3
  {
    var f, ms := fields[0], MembersOf(fields);
    assert FieldOk(f) && ms[0] == MemberOf(f) && ms[1..] == MembersOf(fields[1..]);
    FieldIsPlain(f, lower);
    if |fields| > 1 {
      FieldsArePlain(fields[1..], lower);
    }
    var p, q := PrintMoreMembers(ms[1..]), SpellMoreFields(fields[1..]);
    PlainerJoin(PrintMember(ms[0]), SpellField(f), p, q, lower);
    PlainerThree([0x2C], [0x2C], PrintMember(ms[0]), SpellField(f), p, q, lower);
  }

  /** No document that reads to a value is shorter than its printed form, and none in lower case that is as short is another. */
  lemma PrintIsShortest(data: bytes, e: Element)
    requires ReadDocument(data).Ok? && Spells(e, data, ReadDocument(data).value)
    ensures |Print(ReadDocument(data).value)| <= |data|
    ensures LowerTree(e.tree) && |Print(ReadDocument(data).value)| == |data| ==> Print(ReadDocument(data).value) == data
  {
    ElementIsPlain(e, LowerTree(e.tree));
  }

  // ---- Sorting keeps the length ----

  function MembersLength(ms: seq<Member>): nat {
    if ms == [] then 0 else 1 + |PrintMember(ms[0])| + MembersLength(ms[1..])
  }

  lemma {:induction false} PrintedLength(ms: seq<Member>)
    ensures |PrintMoreMembers(ms)| == MembersLength(ms)
    ensures ms != [] ==> |PrintMembers(ms)| + 1 == MembersLength(ms)
  {
    if ms != [] {
      PrintedLength(ms[1..]);
    }
  }

  lemma {:induction false} InsertLength(m: Member, ms: seq<Member>)
    ensures MembersLength(Insert(m, ms)) == 1 + |PrintMember(m)| + MembersLength(ms)
  {
    if ms == [] || Less(m.key, ms[0].key) {
      assert ([m] + ms)[1..] == ms;
    } else {
      InsertLength(m, ms[1..]);
      assert ([ms[0]] + Insert(m, ms[1..]))[1..] == Insert(m, ms[1..]);
    }
  }

  lemma {:induction false} SortLength(ms: seq<Member>)
    ensures MembersLength(Sort(ms)) == MembersLength(ms) && (Sort(ms) == [] <==> ms == [])
  {
    if ms != [] {
      SortLength(ms[1..]);
      InsertLength(ms[0], Sort(ms[1..]));
    }
  }

  lemma {:induction false} NormLength(v: Value)
    ensures |Print(Norm(v))| == |Print(v)|
    decreases v, 0
  {
    match v
    case Arr(es) => NormElemsLength(es);
    case Obj(ms) =>
      NormMembersLength(ms);
      SortLength(NormMembers(ms));
      PrintedLength(ms);
      PrintedLength(Sort(NormMembers(ms)));
    case _ =>
  }

  lemma {:induction false} NormElemsLength(es: seq<Value>)
    ensures |PrintElems(NormElems(es))| == |PrintElems(es)| && |PrintMoreElems(NormElems(es))| == |PrintMoreElems(es)|
    decreases es, 1
  {
    if es != [] {
      NormLength(es[0]);
      NormElemsLength(es[1..]);
      assert NormElems(es)[0] == Norm(es[0]) && NormElems(es)[1..] == NormElems(es[1..]);
    }
  }

  lemma {:induction false} NormMembersLength(ms: seq<Member>)
    ensures MembersLength(NormMembers(ms)) == MembersLength(ms) && (NormMembers(ms) == [] <==> ms == [])
    decreases ms, 1
  {
    if ms != [] {
      NormLength(ms[0].value);
      NormMembersLength(ms[1..]);
      NormMembersHead(ms);
    }
  }

  /** Canonical bytes are no longer than any document that means the same. */
  lemma CanonicalIsShortest(v: Value, data: bytes)
    requires Admissible(v) && ReadDocument(data).Ok? && Means(ReadDocument(data).value) == Means(StripSig(v))
    ensures |Canonical(v)| <= |data|
  {
    var w := ReadDocument(data).value;
    ReadAdmissible(data);
    StripSigAdmissible(v);
    SameMeaningSameNorm(w, StripSig(v));
    NormLength(w);
    var e := DocumentSpelled(data);
    PrintIsShortest(data, e);
  }
}
