/** Every spelling of an admissible value is read as that value. */
module JsonGrammarRead {
  import opened Bytes
  import opened JsonValue
  import opened JsonReader
  import opened JsonRoundTrip
  import opened JsonGrammar
  import C = Ccj1

  lemma {:induction false} SkipWhite(b: bytes, rest: bytes)
    requires White(b) && (rest == [] || !IsSpace(rest[0]))
    ensures SkipSpace(b + rest) == rest
    decreases |b|
  {
    if b == [] {
      assert b + rest == rest;
    } else {
      assert b[0] in b && forall c :: c in b[1..] ==> c in b;
      assert (b + rest)[1..] == b[1..] + rest;
      SkipWhite(b[1..], rest);
    }
  }

  lemma TreeHead(t: Tree)
    requires TreeOk(t)
    ensures SpellTree(t) != [] && !IsSpace(SpellTree(t)[0]) && SpellTree(t)[0] != 0x5D
  {
    if t.Numeral? {
      PrintIntHead(t.n);
    }
  }

  /** What comes after a value, whitespace first. */
  lemma AfterValue(after: bytes, x: byte, rest: bytes)
    requires White(after) && (x == 0x2C || x == 0x5D || x == 0x7D)
    ensures Terminated(after + [x] + rest) && SkipSpace(after + [x] + rest) == [x] + rest
  {
    Reassociate(after, [x], rest);
    SkipWhite(after, [x] + rest);
    if after != [] {
      assert after[0] in after;
    }
  }

  lemma SeparatorIsRead(after: bytes, x: byte, close: byte, rest: bytes)
    requires White(after) && (close == 0x5D || close == 0x7D) && (x == 0x2C || x == close)
    ensures ReadSeparator(after + [x] + rest, close) == Done(x == 0x2C, rest)
  {
    AfterValue(after, x, rest);
    assert ([x] + rest)[1..] == rest;
  }

  lemma {:induction false} TreeIsRead(t: Tree, rest: bytes, depth: nat)
    requires TreeOk(t) && Strict(ValueOf(t)) && depth + Height(ValueOf(t)) <= MAX_DEPTH && Terminated(rest)
    ensures ReadValue(SpellTree(t) + rest, depth) == Done(ValueOf(t), rest)
    decreases t, 0
  {
    var s := SpellTree(t) + rest;
    TreeHead(t);
    assert s[0] == SpellTree(t)[0];
    match t
    case Word(v) =>
      ReadPrintedWord(SpellWord(v), v, rest);
    case Numeral(n) =>
      PrintIntHead(n);
      hide ReadInt, C.PrintInt;
      ReadPrintedInt(n, rest);
    case Text(us) =>
      hide ReadString;
      Regroup([0x22], Spell(us), [0x22], rest);
      assert s[1..] == Spell(us) + [0x22] + rest;
      TextIsRead(us, rest, true);
    case List(blank, items) =>
      Opened(0x5B, blank, SpellElements(items), 0x5D, rest);
      ListIsRead(blank, items, rest, depth);
    case Dict(blank, fields) =>
      Opened(0x7B, blank, SpellFields(fields), 0x7D, rest);
      DictIsRead(blank, fields, rest, depth);
  }

  lemma Opened(open: byte, blank: bytes, body: bytes, close: byte, rest: bytes)
    ensures ([open] + blank + body + [close] + rest)[1..] == blank + (body + [close] + rest)
  {
  }

  lemma {:induction false} ListIsRead(blank: bytes, items: seq<Element>, rest: bytes, depth: nat)
    requires White(blank) && (items == [] || blank == []) && ElementsOk(items)
    requires StrictElems(ValuesOf(items)) && depth + 1 + ElemsHeight(ValuesOf(items)) <= MAX_DEPTH
    ensures ReadArray(blank + (SpellElements(items) + [0x5D] + rest), depth) == Done(Arr(ValuesOf(items)), rest)
    decreases items, 2
  {
    var body := SpellElements(items) + [0x5D] + rest;
    if items == [] {
      assert body == [0x5D] + rest && body[1..] == rest;
      SkipWhite(blank, body);
    } else {
      assert blank + body == body;
      var e := items[0];
      ElementHead(e, SpellMoreElements(items[1..]) + [0x5D] + rest);
      Regroup(SpellElement(e), SpellMoreElements(items[1..]), [0x5D], rest);
      ElementsAreRead(items, rest, depth);
    }
  }

  /** A value's whitespace is skipped, and it does not begin like a closing bracket. */
  lemma ElementHead(e: Element, rest: bytes)
    requires ElementOk(e)
    ensures SkipSpace(SpellElement(e) + rest) == SpellTree(e.tree) + (e.after + rest)
    ensures (SpellTree(e.tree) + (e.after + rest))[0] != 0x5D
  {
    TreeHead(e.tree);
    Regroup(e.before, SpellTree(e.tree), e.after, rest);
    Reassociate(SpellTree(e.tree), e.after, rest);
    SkipWhite(e.before, SpellTree(e.tree) + (e.after + rest));
  }

  lemma {:induction false} ElementIsRead(e: Element, x: byte, close: byte, rest: bytes, depth: nat)
    requires ElementOk(e) && Strict(ValueOf(e.tree)) && depth + Height(ValueOf(e.tree)) <= MAX_DEPTH
    requires (close == 0x5D || close == 0x7D) && (x == 0x2C || x == close)
    ensures ReadValue(SkipSpace(SpellElement(e) + [x] + rest), depth) == Done(ValueOf(e.tree), e.after + [x] + rest)
    ensures ReadSeparator(e.after + [x] + rest, close) == Done(x == 0x2C, rest)
    decreases e, 1
  {
    hide ReadValue, SpellElement, SpellTree, ReadSeparator;
    ElementHead(e, [x] + rest);
    Reassociate(SpellElement(e), [x], rest);
    Reassociate(e.after, [x], rest);
    AfterValue(e.after, x, rest);
    TreeIsRead(e.tree, e.after + [x] + rest, depth);
    SeparatorIsRead(e.after, x, close, rest);
  }

  lemma {:induction false} ElementsAreRead(items: seq<Element>, rest: bytes, depth: nat)
    requires items != [] && ElementsOk(items)
    requires StrictElems(ValuesOf(items)) && depth + 1 + ElemsHeight(ValuesOf(items)) <= MAX_DEPTH
    ensures ReadElems(SpellElements(items) + [0x5D] + rest, depth) == Done(ValuesOf(items), rest)
    decreases items, 1
  {
    var e, vs := items[0], ValuesOf(items);
    var x, tail := NextElement(items, rest);
    assert ElementOk(e) && vs[0] == ValueOf(e.tree) && vs[1..] == ValuesOf(items[1..]);
    FirstValue(vs);
    hide *;
    assert |vs| == |items| by {
      CountValues(items);
    }
    ElementIsRead(e, x, 0x5D, tail, depth + 1);
    var s := SpellElements(items) + [0x5D] + rest;
    assert ReadElem(s, depth) == Done(Item(vs[0], x == 0x2C), tail) by {
      ElementWhole(s, depth, vs[0], e.after + [x] + tail);
    }
    if |items| > 1 {
      assert ElementsOk(items[1..]) by {
        ElementsTailOk(items);
      }
      ElementsAreRead(items[1..], rest, depth);
      ElementsOn(s, depth, vs, tail);
    } else {
      ElementsEnd(s, depth, vs, tail);
    }
  }

  lemma ElementsTailOk(items: seq<Element>)
    requires ElementsOk(items) && items != []
    ensures ElementsOk(items[1..])
  {
  }

  lemma {:induction false} CountValues(items: seq<Element>)
    requires ElementsOk(items)
    ensures |ValuesOf(items)| == |items|
  {
    if items != [] {
      CountValues(items[1..]);
    }
  }

  lemma FirstValue(vs: seq<Value>)
    requires vs != [] && StrictElems(vs)
    ensures Strict(vs[0]) && StrictElems(vs[1..])
    ensures Height(vs[0]) <= ElemsHeight(vs) && ElemsHeight(vs[1..]) <= ElemsHeight(vs)
  {
    assert vs[0] in vs;
  }

  lemma ElementWhole(s: bytes, depth: nat, v: Value, r: bytes)
    requires ReadValue(SkipSpace(s), depth + 1) == Done(v, r) && ReadSeparator(r, 0x5D).Done?
    ensures ReadElem(s, depth) == Done(Item(v, ReadSeparator(r, 0x5D).value), ReadSeparator(r, 0x5D).rest)
  {
  }

  lemma ElementsOn(s: bytes, depth: nat, vs: seq<Value>, tail: bytes)
    requires vs != [] && ReadElem(s, depth) == Done(Item(vs[0], true), tail)
    requires ReadElems(tail, depth).Done? && ReadElems(tail, depth).value == vs[1..]
    ensures ReadElems(s, depth) == Done(vs, ReadElems(tail, depth).rest)
  {
    assert vs == [vs[0]] + vs[1..];
  }

  lemma ElementsEnd(s: bytes, depth: nat, vs: seq<Value>, tail: bytes)
    requires |vs| == 1 && ReadElem(s, depth) == Done(Item(vs[0], false), tail)
    ensures ReadElems(s, depth) == Done(vs, tail)
  {
    assert vs == [vs[0]];
  }

  /** The octet after the first element, and what follows it. */
  lemma NextElement(items: seq<Element>, rest: bytes) returns (x: byte, tail: bytes)
    requires items != [] && ElementsOk(items)
    ensures SpellElements(items) + [0x5D] + rest == SpellElement(items[0]) + [x] + tail
    ensures if |items| == 1 then x == 0x5D && tail == rest
            else x == 0x2C && tail == SpellElements(items[1..]) + [0x5D] + rest
  {
    hide SpellElement;
    var first := SpellElement(items[0]);
    if |items| == 1 {
      x, tail := 0x5D, rest;
      assert SpellElements(items) == first;
    } else {
      x, tail := 0x2C, SpellElements(items[1..]) + [0x5D] + rest;
      Following(first, SpellElement(items[1]), SpellMoreElements(items[1..][1..]), 0x5D, rest);
    }
  }

  lemma Following(first: bytes, second: bytes, more: bytes, close: byte, rest: bytes)
    ensures first + ([0x2C] + second + more) + [close] + rest == first + [0x2C] + (second + more + [close] + rest)
  {
  }

  lemma {:induction false} DictIsRead(blank: bytes, fields: seq<Field>, rest: bytes, depth: nat)
    requires White(blank) && (fields == [] || blank == []) && FieldsOk(fields)
    requires var ms := MembersOf(fields);
             StrictMembers(ms) && UniqueKeys(ms) && depth + 1 + MembersHeight(ms) <= MAX_DEPTH
    ensures ReadObject(blank + (SpellFields(fields) + [0x7D] + rest), depth) == Done(Obj(MembersOf(fields)), rest)
    decreases fields, 2
  {
    var body := SpellFields(fields) + [0x7D] + rest;
    if fields == [] {
      assert body == [0x7D] + rest && body[1..] == rest;
      SkipWhite(blank, body);
    } else {
      assert blank + body == body;
      Regroup(SpellField(fields[0]), SpellMoreFields(fields[1..]), [0x7D], rest);
      FieldHead(fields[0], SpellMoreFields(fields[1..]) + [0x7D] + rest);
      FieldsAreRead(fields, rest, depth, {});
    }
  }

  function FieldRest(f: Field): bytes
    requires FieldOk(f)
  {
    f.gap + [0x3A] + SpellElement(f.item)
  }

  lemma FieldHead(f: Field, rest: bytes)
    requires FieldOk(f)
    ensures SkipSpace(SpellField(f) + rest) == [0x22] + (Spell(f.key) + [0x22] + (FieldRest(f) + rest))
  {
    hide SpellElement, Spell;
    var key := [0x22] + Spell(f.key) + [0x22];
    FieldParts(f.lead, Spell(f.key), f.gap, SpellElement(f.item), rest);
    SkipWhite(f.lead, [0x22] + (Spell(f.key) + [0x22] + (FieldRest(f) + rest)));
  }

  lemma FieldParts(lead: bytes, key: bytes, gap: bytes, item: bytes, rest: bytes)
    ensures lead + ([0x22] + key + [0x22]) + gap + [0x3A] + item + rest == lead + ([0x22] + (key + [0x22] + (gap + [0x3A] + item + rest)))
  {
  }

  lemma KeyIsRead(f: Field, rest: bytes, seen: set<bytes>)
    requires FieldOk(f) && Denote(f.key) !in seen
    ensures ReadKey(SpellField(f) + rest, seen) == Done(Denote(f.key), SpellElement(f.item) + rest)
  {
    hide ReadString, SpellField, SpellElement, Spell;
    var s := SpellField(f) + rest;
    FieldHead(f, rest);
    var t := SkipSpace(s);
    assert t[1..] == Spell(f.key) + [0x22] + (FieldRest(f) + rest);
    TextIsRead(f.key, FieldRest(f) + rest, true);
    var u := [0x3A] + (SpellElement(f.item) + rest);
    assert FieldRest(f) + rest == f.gap + u by {
      Regroup(f.gap, [0x3A], SpellElement(f.item), rest);
      Reassociate([0x3A], SpellElement(f.item), rest);
    }
    SkipWhite(f.gap, u);
    assert u[1..] == SpellElement(f.item) + rest;
  }

  lemma {:induction false} FieldsAreRead(fields: seq<Field>, rest: bytes, depth: nat, seen: set<bytes>)
    requires fields != [] && FieldsOk(fields)
    requires var ms := MembersOf(fields);
             && StrictMembers(ms) && UniqueKeys(ms) && depth + 1 + MembersHeight(ms) <= MAX_DEPTH
             && forall m :: m in ms ==> m.key !in seen
    ensures ReadMembers(SpellFields(fields) + [0x7D] + rest, depth, seen) == Done(MembersOf(fields), rest)
    decreases fields, 1
  {
    var f, ms := fields[0], MembersOf(fields);
    assert FieldOk(f) && ms[0] == MemberOf(f) && ms[1..] == MembersOf(fields[1..]) && ms[0] in ms;
    var x, tail := NextField(fields, rest);
    hide *;
    assert |ms| == |fields| by {
      CountMembers(fields);
    }
    FirstMember(ms);
    FieldIsRead(f, x, tail, depth, seen);
    if |fields| > 1 {
      assert FieldsOk(fields[1..]) by {
        TailOk(fields);
      }
      FieldsAreRead(fields[1..], rest, depth, seen + {ms[0].key});
      MembersOn(SpellFields(fields) + [0x7D] + rest, depth, seen, ms, tail);
    } else {
      MembersEnd(SpellFields(fields) + [0x7D] + rest, depth, seen, ms, tail);
    }
  }

  lemma TailOk(fields: seq<Field>)
    requires FieldsOk(fields) && fields != []
    ensures FieldsOk(fields[1..])
  {
  }

  lemma {:induction false} CountMembers(fields: seq<Field>)
    requires FieldsOk(fields)
    ensures |MembersOf(fields)| == |fields|
  {
    if fields != [] {
      CountMembers(fields[1..]);
    }
  }

  lemma FirstMember(ms: seq<Member>)
    requires ms != [] && StrictMembers(ms) && UniqueKeys(ms)
    ensures Strict(ms[0].value) && StrictMembers(ms[1..]) && UniqueKeys(ms[1..])
    ensures Height(ms[0].value) <= MembersHeight(ms) && MembersHeight(ms[1..]) <= MembersHeight(ms)
    ensures forall m :: m in ms[1..] ==> m.key != ms[0].key && m in ms
  {
    assert ms[0] in ms;
  }

  lemma MembersOn(s: bytes, depth: nat, seen: set<bytes>, ms: seq<Member>, tail: bytes)
    requires ms != [] && ReadMember(s, depth, seen) == Done(Item(ms[0], true), tail)
    requires ReadMembers(tail, depth, seen + {ms[0].key}).Done? && ReadMembers(tail, depth, seen + {ms[0].key}).value == ms[1..]
    ensures ReadMembers(s, depth, seen) == Done(ms, ReadMembers(tail, depth, seen + {ms[0].key}).rest)
  {
    assert ms == [ms[0]] + ms[1..];
  }

  lemma MembersEnd(s: bytes, depth: nat, seen: set<bytes>, ms: seq<Member>, tail: bytes)
    requires |ms| == 1 && ReadMember(s, depth, seen) == Done(Item(ms[0], false), tail)
    ensures ReadMembers(s, depth, seen) == Done(ms, tail)
  {
    assert ms == [ms[0]];
  }

  lemma {:induction false} FieldIsRead(f: Field, x: byte, tail: bytes, depth: nat, seen: set<bytes>)
    requires FieldOk(f) && MemberOf(f).key !in seen && (x == 0x2C || x == 0x7D)
    requires Strict(MemberOf(f).value) && depth + 1 + Height(MemberOf(f).value) <= MAX_DEPTH
    ensures ReadMember(SpellField(f) + [x] + tail, depth, seen) == Done(Item(MemberOf(f), x == 0x2C), tail)
    decreases f, 1
  {
    hide ReadValue, ReadSeparator, ReadKey, SpellElement, SpellField;
    Reassociate(SpellField(f), [x], tail);
    KeyIsRead(f, [x] + tail, seen);
    Reassociate(SpellElement(f.item), [x], tail);
    ElementIsRead(f.item, x, 0x7D, tail, depth + 1);
  }

  lemma NextField(fields: seq<Field>, rest: bytes) returns (x: byte, tail: bytes)
    requires fields != [] && FieldsOk(fields)
    ensures SpellFields(fields) + [0x7D] + rest == SpellField(fields[0]) + [x] + tail
    ensures if |fields| == 1 then x == 0x7D && tail == rest
            else x == 0x2C && tail == SpellFields(fields[1..]) + [0x7D] + rest
  {
    hide SpellField;
    var first := SpellField(fields[0]);
    if |fields| == 1 {
      x, tail := 0x7D, rest;
      assert SpellFields(fields) == first;
    } else {
      x, tail := 0x2C, SpellFields(fields[1..]) + [0x7D] + rest;
      Following(first, SpellField(fields[1]), SpellMoreFields(fields[1..][1..]), 0x7D, rest);
    }
  }
}
