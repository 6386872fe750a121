/**
 Whatever the strict reader reads was spelled by the grammar, so the two agree on every
 document; and CCJ-1 bytes are the shortest spelling there is.
 */
module JsonGrammarExact {
  import opened Bytes
  import opened JsonValue
  import opened JsonReader
  import opened JsonRoundTrip
  import opened JsonCanonical
  import opened JsonGrammar
  import opened JsonGrammarRead
  import C = Ccj1
  import Utf8

  // ---- What is read was spelled ----

  lemma {:induction false} SplitWhite(s: bytes) returns (b: bytes)
    ensures White(b) && s == b + SkipSpace(s)
    decreases |s|
  {
    if s != [] && IsSpace(s[0]) {
      var more := SplitWhite(s[1..]);
      b := [s[0]] + more;
      WhiteMore(s[0], more);
      hide White;
      Uncons(s);
      Reassociate([s[0]], more, SkipSpace(s));
    } else {
      b := [];
    }
  }

  lemma WhiteMore(c: byte, b: bytes)
    requires IsSpace(c) && White(b)
    ensures White([c] + b)
  {
  }

  lemma {:induction false} DecimalPositive(d: bytes)
    requires AllDigits(d) && d != [] && d[0] != ZERO
    ensures Decimal(d) >= 1
    decreases |d|
  {
    assert d[|d| - 1] in d;
    if |d| > 1 {
      DecimalPositive(d[..|d| - 1]);
    } else {
      assert d[..0] == [];
    }
  }

  /** A numeral without a leading zero is the printed form of its number. */
  lemma {:induction false} PrintDecimal(d: bytes)
    requires AllDigits(d) && d != [] && (d[0] == ZERO ==> |d| == 1)
    ensures C.PrintNat(Decimal(d)) == d
    decreases |d|
  {
    var init, last := d[..|d| - 1], d[|d| - 1];
    assert last in d;
    if |d| == 1 {
      assert init == [] && d == [last];
    } else {
      DecimalPositive(init);
      PrintDecimal(init);
      assert Decimal(d) / 10 == Decimal(init) && Decimal(d) % 10 == (last - ZERO) as nat;
      assert d == init + [last];
    }
  }

  lemma ReadDigits(d: bytes)
    requires ReadMagnitude(d).Done?
    ensures d == C.PrintNat(ReadMagnitude(d).value) + ReadMagnitude(d).rest
  {
    var n := DigitRun(d);
    assert d == d[..n] + d[n..];
    PrintDecimal(d[..n]);
  }

  lemma ReadNumeral(s: bytes)
    requires ReadInt(s).Done?
    ensures s == C.PrintInt(ReadInt(s).value) + ReadInt(s).rest
  {
    hide C.PrintNat, ReadMagnitude;
    if s[0] == MINUS {
      ReadDigits(s[1..]);
      assert s == [MINUS] + s[1..];
    } else {
      ReadDigits(s);
    }
  }

  lemma ReadWritten(s: bytes, word: bytes, v: Value)
    requires word != [] && ReadWord(s, word, v).Done?
    ensures s == word + ReadWord(s, word, v).rest
  {
  }

  lemma {:induction false} ReadTree(s: bytes, depth: nat) returns (t: Tree)
    requires ReadValue(s, depth).Done?
    ensures TreeOk(t) && ValueOf(t) == ReadValue(s, depth).value && s == SpellTree(t) + ReadValue(s, depth).rest
    decreases |s|, 0
  {
    var rest := ReadValue(s, depth).rest;
    assert s == [s[0]] + s[1..];
    if s[0] == LBRACE {
      t := ReadDict(s[1..], depth);
      Within(0x7B, t.blank, SpellFields(t.fields), 0x7D, rest);
    } else if s[0] == LBRACKET {
      t := ReadList(s[1..], depth);
      Within(0x5B, t.blank, SpellElements(t.items), 0x5D, rest);
    } else if s[0] == QUOTE {
      var us := ReadText(s[1..], true);
      t := Text(us);
      Regroup([0x22], Spell(us), [0x22], rest);
    } else if s[0] == MINUS || IsDigit(s[0]) {
      ReadNumeral(s);
      t := Numeral(ReadInt(s).value);
    } else {
      t := Word(ReadValue(s, depth).value);
      ReadWritten(s, SpellWord(t.v), t.v);
    }
  }

  lemma Within(open: byte, blank: bytes, body: bytes, close: byte, rest: bytes)
    ensures [open] + (blank + body + [close] + rest) == [open] + blank + body + [close] + rest
  {
  }

  lemma {:induction false} ReadList(s: bytes, depth: nat) returns (t: Tree)
    requires ReadArray(s, depth).Done?
    ensures t.List? && TreeOk(t) && ValueOf(t) == ReadArray(s, depth).value
    ensures s == t.blank + SpellElements(t.items) + [0x5D] + ReadArray(s, depth).rest
    decreases |s|, 4
  {
    var blank := SplitWhite(s);
    var u := SkipSpace(s);
    if u != [] && u[0] == RBRACKET {
      t := List(blank, []);
      EmptyBody(blank, u);
    } else {
      var items := ReadListed(s, depth);
      t := List([], items);
      NoBlank(SpellElements(items));
    }
  }

  lemma Uncons(s: bytes)
    requires s != []
    ensures s == [s[0]] + s[1..]
  {
  }

  lemma EmptyBody(blank: bytes, u: bytes)
    requires u != []
    ensures blank + u == blank + [] + [u[0]] + u[1..]
  {
  }

  lemma NoBlank(body: bytes)
    ensures [] + body == body
  {
  }

  lemma {:induction false} ReadListed(s: bytes, depth: nat) returns (items: seq<Element>)
    requires ReadElems(s, depth).Done?
    ensures items != [] && ElementsOk(items) && ValuesOf(items) == ReadElems(s, depth).value
    ensures s == SpellElements(items) + [0x5D] + ReadElems(s, depth).rest
    decreases |s|, 3
  {
    var item := ReadElem(s, depth);
    var e := ReadElement(s, depth);
    if item.value.more {
      var more := ReadListed(item.rest, depth);
      items := [e] + more;
      assert items[1..] == more;
      More(SpellElement(e), SpellElement(more[0]), SpellMoreElements(more[1..]), 0x5D, ReadElems(s, depth).rest);
    } else {
      items := [e];
      assert ReadElems(s, depth).value == [item.value.value];
      assert SpellElements(items) == SpellElement(e);
    }
  }

  lemma More(first: bytes, second: bytes, more: bytes, close: byte, rest: bytes)
    ensures first + [0x2C] + (second + more + [close] + rest) == first + ([0x2C] + second + more) + [close] + rest
  {
  }

  /** A value between whitespace, up to the octet that ends it. */
  lemma {:induction false} ReadBetween(s: bytes, close: byte, depth: nat) returns (e: Element)
    requires ReadValue(SkipSpace(s), depth).Done?
    requires ReadSeparator(ReadValue(SkipSpace(s), depth).rest, close).Done?
    ensures ElementOk(e) && ValueOf(e.tree) == ReadValue(SkipSpace(s), depth).value
    ensures var r := ReadSeparator(ReadValue(SkipSpace(s), depth).rest, close);
            s == SpellElement(e) + [if r.value then 0x2C else close] + r.rest
    decreases |s|, 1
  {
    var before := SplitWhite(s);
    var t := ReadTree(SkipSpace(s), depth);
    var r1 := ReadValue(SkipSpace(s), depth).rest;
    var after := SplitWhite(r1);
    e := Element(before, t, after);
    hide ReadValue, SpellTree, TreeOk;
    var u := SkipSpace(r1);
    Uncons(u);
    Reassociate(before, SpellTree(t), after + u);
    Reassociate(before + SpellTree(t), after, u);
    Reassociate(SpellTree(t), after, u);
    Reassociate(SpellElement(e), [u[0]], u[1..]);
  }

  lemma {:induction false} ReadElement(s: bytes, depth: nat) returns (e: Element)
    requires ReadElem(s, depth).Done?
    ensures ElementOk(e) && ValueOf(e.tree) == ReadElem(s, depth).value.value
    ensures s == SpellElement(e) + [if ReadElem(s, depth).value.more then 0x2C else 0x5D] + ReadElem(s, depth).rest
    decreases |s|, 2
  {
    e := ReadBetween(s, 0x5D, depth + 1);
  }

  lemma {:induction false} ReadDict(s: bytes, depth: nat) returns (t: Tree)
    requires ReadObject(s, depth).Done?
    ensures t.Dict? && TreeOk(t) && ValueOf(t) == ReadObject(s, depth).value
    ensures s == t.blank + SpellFields(t.fields) + [0x7D] + ReadObject(s, depth).rest
    decreases |s|, 4
  {
    var blank := SplitWhite(s);
    var u := SkipSpace(s);
    if u != [] && u[0] == RBRACE {
      t := Dict(blank, []);
      EmptyBody(blank, u);
    } else {
      hide ReadMembers;
      var fields := ReadFields(s, depth, {});
      t := Dict([], fields);
      NoBlank(SpellFields(fields));
    }
  }

  lemma {:induction false} ReadFields(s: bytes, depth: nat, seen: set<bytes>) returns (fields: seq<Field>)
    requires ReadMembers(s, depth, seen).Done?
    ensures fields != [] && FieldsOk(fields) && MembersOf(fields) == ReadMembers(s, depth, seen).value
    ensures s == SpellFields(fields) + [0x7D] + ReadMembers(s, depth, seen).rest
    decreases |s|, 3
  {
    var item := ReadMember(s, depth, seen);
    var f := ReadField(s, depth, seen);
    if item.value.more {
      var more := ReadFields(item.rest, depth, seen + {item.value.value.key});
      fields := [f] + more;
      assert fields[1..] == more;
      More(SpellField(f), SpellField(more[0]), SpellMoreFields(more[1..]), 0x7D, ReadMembers(s, depth, seen).rest);
    } else {
      fields := [f];
      assert SpellFields(fields) == SpellField(f);
    }
  }

  lemma {:induction false} ReadField(s: bytes, depth: nat, seen: set<bytes>) returns (f: Field)
    requires ReadMember(s, depth, seen).Done?
    ensures FieldOk(f) && MemberOf(f) == ReadMember(s, depth, seen).value.value
    ensures s == SpellField(f) + [if ReadMember(s, depth, seen).value.more then 0x2C else 0x7D] + ReadMember(s, depth, seen).rest
    decreases |s|, 2
  {
    var r1 := ReadKey(s, seen).rest;
    var lead, key, gap := ReadName(s, seen);
    var e := ReadBetween(r1, 0x7D, depth + 1);
    f := Field(lead, key, gap, e);
    var m := ReadMember(s, depth, seen);
    assert m.value.value == MemberOf(f);
    FieldSpelled(lead, Spell(key), gap, SpellElement(e), [if m.value.more then 0x2C else 0x7D], m.rest);
  }

  lemma FieldSpelled(lead: bytes, key: bytes, gap: bytes, item: bytes, x: bytes, rest: bytes)
    ensures lead + ([0x22] + key + [0x22]) + gap + [0x3A] + (item + x + rest)
         == lead + ([0x22] + key + [0x22]) + gap + [0x3A] + item + x + rest
  {
  }

  lemma ReadName(s: bytes, seen: set<bytes>) returns (lead: bytes, key: seq<Unit>, gap: bytes)
    requires ReadKey(s, seen).Done?
    ensures White(lead) && UnitsOk(key) && White(gap) && Denote(key) == ReadKey(s, seen).value
    ensures s == lead + ([0x22] + Spell(key) + [0x22]) + gap + [0x3A] + ReadKey(s, seen).rest
  {
    lead := SplitWhite(s);
    var t := SkipSpace(s);
    key := ReadText(t[1..], true);
    var r1 := ReadString(t[1..], true).rest;
    gap := SplitWhite(r1);
    var u := SkipSpace(r1);
    Uncons(t);
    Uncons(u);
    hide ReadString, SkipSpace;
    NameParts(lead, Spell(key), gap, u[1..]);
  }

  lemma NameParts(lead: bytes, key: bytes, gap: bytes, rest: bytes)
    ensures lead + ([0x22] + (key + [0x22] + (gap + ([0x3A] + rest)))) == lead + ([0x22] + key + [0x22]) + gap + [0x3A] + rest
  {
  }

  // ---- The reader and the grammar agree ----

  lemma AsciiRun(q: Utf8.State, a: bytes)
    requires a != [] && forall c :: c in a ==> c < 0x80
    ensures Utf8.Run(q, a) == if q == Utf8.Start then Utf8.Start else Utf8.Bad
  {
    assert a[0] in a;
    AsciiValid(a);
    if q != Utf8.Start {
      Utf8.BadIsFinal(a[1..]);
    }
  }

  lemma EncodedRun(q: Utf8.State, r: int)
    requires Utf8.IsScalar(r)
    ensures Utf8.Run(q, Utf8.Encode(r)) == if q == Utf8.Start then Utf8.Start else Utf8.Bad
  {
    Utf8.EncodeDecode(r);
    var c := Utf8.Encode(r);
    if q != Utf8.Start {
      assert Utf8.Step(q, c[0]) == Utf8.Bad;
      Utf8.BadIsFinal(c[1..]);
    }
  }

  lemma CodeAscii(n: int, upper: seq<bool>)
    requires 0 <= n < 0x10000 && |upper| == 4
    ensures forall c :: c in Code(n, upper) ==> c < 0x80
  {
  }

  /** Escapes may stand only where a character may, and so may what they denote. */
  lemma UnitRun(q: Utf8.State, u: Unit)
    requires UnitOk(u)
    ensures Utf8.Run(q, SpellUnit(u)) == Utf8.Run(q, DenoteUnit(u))
  {
    match u
    case Raw(_) =>
    case Short(c) =>
      AsciiRun(q, [0x5C, Letter(c)]);
      AsciiRun(q, [c]);
    case Coded(r, upper) =>
      EncodedRun(q, r);
      if r < 0x10000 {
        CodeAscii(r, upper);
      } else {
        CodeAscii(High(r), upper[..4]);
        CodeAscii(Low(r), upper[4..]);
      }
      hide Code;
      AsciiRun(q, SpellUnit(u));
  }

  lemma {:induction false} SpellRun(q: Utf8.State, us: seq<Unit>)
    requires UnitsOk(us)
    ensures Utf8.Run(q, Spell(us)) == Utf8.Run(q, Denote(us))
    decreases |us|
  {
    if us != [] {
      UnitRun(q, us[0]);
      Utf8.RunConcat(q, SpellUnit(us[0]), Spell(us[1..]));
      Utf8.RunConcat(q, DenoteUnit(us[0]), Denote(us[1..]));
      SpellRun(Utf8.Run(q, SpellUnit(us[0])), us[1..]);
    }
  }

  lemma TextValid(us: seq<Unit>)
    requires UnitsOk(us) && Utf8.Valid(Denote(us))
    ensures Utf8.Valid([0x22] + Spell(us) + [0x22])
  {
    SpellRun(Utf8.Start, us);
    AsciiValid([0x22]);
    ValidParts([0x22], Spell(us), [0x22]);
  }

  lemma WhiteValid(b: bytes)
    requires White(b)
    ensures Utf8.Valid(b)
  {
    AsciiValid(b);
  }

  lemma {:induction false} TreeValid(t: Tree)
    requires TreeOk(t) && Strict(ValueOf(t))
    ensures Utf8.Valid(SpellTree(t))
    decreases t, 0
  {
    match t
    case Word(v) => AsciiValid(SpellWord(v));
    case Numeral(n) => PrintIntValid(n);
    case Text(us) => TextValid(us);
    case List(blank, items) =>
      if items != [] {
        ElementsValid(items);
      }
      WhiteValid(blank);
      AsciiValid([0x5B]);
      AsciiValid([0x5D]);
      Utf8.ValidConcat([0x5B], blank);
      ValidParts([0x5B] + blank, SpellElements(items), [0x5D]);
    case Dict(blank, fields) =>
      if fields != [] {
        FieldsValid(fields);
      }
      WhiteValid(blank);
      AsciiValid([0x7B]);
      AsciiValid([0x7D]);
      Utf8.ValidConcat([0x7B], blank);
      ValidParts([0x7B] + blank, SpellFields(fields), [0x7D]);
  }

  lemma {:induction false} ElementValid(e: Element)
    requires ElementOk(e) && Strict(ValueOf(e.tree))
    ensures Utf8.Valid(SpellElement(e))
    decreases e, 1
  {
    WhiteValid(e.before);
    WhiteValid(e.after);
    TreeValid(e.tree);
    ValidParts(e.before, SpellTree(e.tree), e.after);
  }

  lemma {:induction false} ElementsValid(items: seq<Element>)
    requires items != [] && ElementsOk(items) && StrictElems(ValuesOf(items))
    ensures Utf8.Valid(SpellElements(items)) && Utf8.Valid(SpellMoreElements(items))
    decreases items, 2
  {
    var vs := ValuesOf(items);
    assert ElementOk(items[0]) && vs[0] == ValueOf(items[0].tree) && vs[1..] == ValuesOf(items[1..]) && vs[0] in vs;
    ElementValid(items[0]);
    AsciiValid([0x2C]);
    if |items| > 1 {
      ElementsValid(items[1..]);
    }
    Utf8.ValidConcat(SpellElement(items[0]), SpellMoreElements(items[1..]));
    ValidParts([0x2C], SpellElement(items[0]), SpellMoreElements(items[1..]));
  }

  lemma {:induction false} FieldValid(f: Field)
    requires FieldOk(f) && Utf8.Valid(MemberOf(f).key) && Strict(MemberOf(f).value)
    ensures Utf8.Valid(SpellField(f))
    decreases f, 2
  {
    WhiteValid(f.lead);
    WhiteValid(f.gap);
    TextValid(f.key);
    ElementValid(f.item);
    AsciiValid([0x3A]);
    ValidParts(f.lead, [0x22] + Spell(f.key) + [0x22], f.gap);
    ValidParts(f.lead + ([0x22] + Spell(f.key) + [0x22]) + f.gap, [0x3A], SpellElement(f.item));
  }

  lemma {:induction false} FieldsValid(fields: seq<Field>)
    requires fields != [] && FieldsOk(fields) && StrictMembers(MembersOf(fields))
    ensures Utf8.Valid(SpellFields(fields)) && Utf8.Valid(SpellMoreFields(fields))
    decreases fields, 3
  {
    var ms := MembersOf(fields);
    assert FieldOk(fields[0]) && ms[0] == MemberOf(fields[0]) && ms[1..] == MembersOf(fields[1..]) && ms[0] in ms;
    FieldValid(fields[0]);
    AsciiValid([0x2C]);
    if |fields| > 1 {
      FieldsValid(fields[1..]);
    }
    Utf8.ValidConcat(SpellField(fields[0]), SpellMoreFields(fields[1..]));
    ValidParts([0x2C], SpellField(fields[0]), SpellMoreFields(fields[1..]));
  }

  /** The strict reader reads a document as a value exactly when the document is a spelling of it and it is admissible:
      valid UTF-8, unique keys, safe integers, bounded depth. */
  lemma ReadsExactly(data: bytes, v: Value)
    ensures ReadDocument(data) == Ok(v) <==> Admissible(v) && exists e :: Spells(e, data, v)
  {
    if ReadDocument(data) == Ok(v) {
      var e := DocumentSpelled(data);
      ReadAdmissible(data);
      assert Spells(e, data, v);
    }
    if Admissible(v) && exists e :: Spells(e, data, v) {
      var e :| Spells(e, data, v);
      SpelledIsRead(e);
    }
  }

  lemma DocumentSpelled(data: bytes) returns (e: Element)
    requires ReadDocument(data).Ok?
    ensures Spells(e, data, ReadDocument(data).value)
  {
    var before := SplitWhite(data);
    var t := ReadTree(SkipSpace(data), 0);
    var rest := ReadValue(SkipSpace(data), 0).rest;
    var after := SplitWhite(rest);
    assert after + [] == after;
    e := Element(before, t, after);
    Reassociate(before, SpellTree(t), after);
  }

  lemma SpelledIsRead(e: Element)
    requires ElementOk(e) && Admissible(ValueOf(e.tree))
    ensures ReadDocument(SpellElement(e)) == Ok(ValueOf(e.tree))
  {
    ElementValid(e);
    ElementHead(e, []);
    assert SpellElement(e) + [] == SpellElement(e) && e.after + [] == e.after;
    if e.after != [] {
      assert e.after[0] in e.after;
    }
    TreeIsRead(e.tree, e.after, 0);
    SkipWhite(e.after, []);
  }

  /** A document that is one string: read as what its characters denote, whichever way they are written. */
  lemma TextsAreRead(us: seq<Unit>)
    requires UnitsOk(us)
    ensures ReadDocument([0x22] + Spell(us) + [0x22]) == if Utf8.Valid(Denote(us)) then Ok(Str(Denote(us))) else InvalidUtf8
  {
    var data := [0x22] + Spell(us) + [0x22];
    if Utf8.Valid(Denote(us)) {
      var e := Element([], Text(us), []);
      assert SpellElement(e) == data;
      SpelledIsRead(e);
    } else {
      Utf8.RunConcat(Utf8.Start, [0x22], Spell(us) + [0x22]);
      Utf8.RunConcat(Utf8.Start, Spell(us), [0x22]);
      SpellRun(Utf8.Start, us);
      Reassociate([0x22], Spell(us), [0x22]);
      AsciiValid([0x22]);
      AsciiRun(Utf8.Run(Utf8.Start, Spell(us)), [0x22]);
    }
  }
}
