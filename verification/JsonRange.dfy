/** Everything the strict reader produces is admissible, and it never leaves a broken character behind. */
module JsonRange {
  import opened Bytes
  import opened JsonValue
  import opened JsonReader
  import Utf8

  lemma {:induction false} DropAscii(s: bytes, k: nat)
    requires k <= |s| && Utf8.Valid(s) && forall i :: 0 <= i < k ==> s[i] < 0x80
    ensures Utf8.Valid(s[k..])
    decreases k
  {
    if k == 0 {
      assert s[0..] == s;
    } else {
      Utf8.AsciiAtBoundary(Utf8.Start, s);
      DropAscii(s[1..], k - 1);
      assert s[1..][k - 1..] == s[k..];
    }
  }

  lemma {:induction false} SkipSpaceValid(s: bytes)
    requires Utf8.Valid(s)
    ensures Utf8.Valid(SkipSpace(s))
    decreases |s|
  {
    if s != [] && IsSpace(s[0]) {
      DropAscii(s, 1);
      SkipSpaceValid(s[1..]);
    }
  }

  lemma Hex4Ascii(s: bytes)
    requires Hex4(s).Some?
    ensures forall i :: 0 <= i < 4 ==> s[i] < 0x80
  {
  }

  lemma ReadUnicodeEscapeValid(s: bytes, nul: bool)
    requires Utf8.Valid(s) && ReadUnicodeEscape(s, nul).Done?
    ensures Utf8.Valid(ReadUnicodeEscape(s, nul).value) && Utf8.Valid(ReadUnicodeEscape(s, nul).rest)
    ensures !nul ==> 0 !in ReadUnicodeEscape(s, nul).value
  {
    Hex4Ascii(s);
    DropAscii(s, 4);
    var u := Hex4(s).value;
    if 0xD800 <= u <= 0xDBFF {
      DropAscii(s[4..], 2);
      assert s[4..][2..] == s[6..];
      Hex4Ascii(s[6..]);
      DropAscii(s[6..], 4);
      assert s[6..][4..] == s[10..];
      Utf8.EncodeDecode(FromSurrogates(u, Hex4(s[6..]).value));
    } else {
      Utf8.EncodeDecode(u);
    }
  }

  lemma ReadEscapeValid(s: bytes, nul: bool)
    requires Utf8.Valid(s) && ReadEscape(s, nul).Done?
    ensures Utf8.Valid(ReadEscape(s, nul).value) && Utf8.Valid(ReadEscape(s, nul).rest)
    ensures !nul ==> 0 !in ReadEscape(s, nul).value
  {
    DropAscii(s, 1);
    if s[0] == 117 {
      ReadUnicodeEscapeValid(s[1..], nul);
    } else {
      assert Utf8.Run(Utf8.Start, [SimpleEscape(s[0]).value]) == Utf8.Start;
    }
  }

  /** The text continues a character begun before it, if one was begun, and breaks none. */
  lemma {:induction false} ReadStringValid(q: Utf8.State, s: bytes, nul: bool)
    requires Utf8.Run(q, s) == Utf8.Start && ReadString(s, nul).Done?
    ensures Utf8.Run(q, ReadString(s, nul).value) == Utf8.Start
    ensures Utf8.Valid(ReadString(s, nul).rest)
    ensures !nul ==> 0 !in ReadString(s, nul).value
    decreases |s|
  {
    if s[0] == QUOTE {
      Utf8.AsciiAtBoundary(q, s);
    } else if s[0] == BACKSLASH {
      Utf8.AsciiAtBoundary(q, s);
      ReadEscapeValid(s[1..], nul);
      var Done(out, rest) := ReadEscape(s[1..], nul);
      ReadStringValid(Utf8.Start, rest, nul);
      Utf8.RunConcat(q, out, ReadString(rest, nul).value);
    } else {
      ReadStringValid(Utf8.Step(q, s[0]), s[1..], nul);
      var t := ReadString(s[1..], nul).value;
      assert ([s[0]] + t)[1..] == t;
    }
  }

  lemma ReadIntValid(s: bytes)
    requires Utf8.Valid(s) && ReadInt(s).Done?
    ensures -MAX_SAFE_INT <= ReadInt(s).value <= MAX_SAFE_INT && Utf8.Valid(ReadInt(s).rest)
  {
    var d := if s[0] == MINUS then s[1..] else s;
    if s[0] == MINUS {
      DropAscii(s, 1);
    }
    DropAscii(d, DigitRun(d));
  }

  lemma ReadWordValid(s: bytes, word: bytes, v: Value)
    requires Utf8.Valid(s) && word != [] && ReadWord(s, word, v).Done? && forall c :: c in word ==> c < 0x80
    ensures Utf8.Valid(ReadWord(s, word, v).rest)
  {
    forall i | 0 <= i < |word|
      ensures s[i] < 0x80
    {
      assert s[i] == s[..|word|][i];
      assert word[i] in word;
    }
    DropAscii(s, |word|);
  }

  lemma ReadSeparatorValid(s: bytes, close: byte)
    requires Utf8.Valid(s) && ReadSeparator(s, close).Done? && close < 0x80
    ensures Utf8.Valid(ReadSeparator(s, close).rest)
  {
    SkipSpaceValid(s);
    DropAscii(SkipSpace(s), 1);
  }

  lemma ReadKeyValid(s: bytes, seen: set<bytes>)
    requires Utf8.Valid(s) && ReadKey(s, seen).Done?
    ensures Utf8.Valid(ReadKey(s, seen).value) && Utf8.Valid(ReadKey(s, seen).rest)
    ensures ReadKey(s, seen).value !in seen
  {
    var t := SkipSpace(s);
    SkipSpaceValid(s);
    DropAscii(t, 1);
    ReadStringValid(Utf8.Start, t[1..], true);
    var r1 := ReadString(t[1..], true).rest;
    SkipSpaceValid(r1);
    DropAscii(SkipSpace(r1), 1);
  }

  lemma {:induction false} ReadValueAdmissible(s: bytes, depth: nat)
    requires Utf8.Valid(s) && ReadValue(s, depth).Done?
    ensures Strict(ReadValue(s, depth).value) && depth + Height(ReadValue(s, depth).value) <= MAX_DEPTH
    ensures Utf8.Valid(ReadValue(s, depth).rest)
    decreases |s|, 0
  {
    DropAsciiHead(s, depth);
    if s[0] == LBRACE {
      ReadObjectAdmissible(s[1..], depth);
    } else if s[0] == LBRACKET {
      ReadArrayAdmissible(s[1..], depth);
    } else if s[0] == QUOTE {
      ReadStringValid(Utf8.Start, s[1..], true);
    } else if s[0] == MINUS || IsDigit(s[0]) {
      ReadIntValid(s);
    } else {
      var word := if s[0] == TRUE_WORD[0] then TRUE_WORD else if s[0] == FALSE_WORD[0] then FALSE_WORD else NULL_WORD;
      ReadWordValid(s, word, ReadValue(s, depth).value);
    }
  }

  lemma DropAsciiHead(s: bytes, depth: nat)
    requires Utf8.Valid(s) && ReadValue(s, depth).Done?
    ensures s[0] < 0x80 && Utf8.Valid(s[1..])
  {
    DropAscii(s, 1);
  }

  lemma {:induction false} ReadObjectAdmissible(s: bytes, depth: nat)
    requires Utf8.Valid(s) && ReadObject(s, depth).Done? && depth < MAX_DEPTH
    ensures Strict(ReadObject(s, depth).value) && depth + Height(ReadObject(s, depth).value) <= MAX_DEPTH
    ensures Utf8.Valid(ReadObject(s, depth).rest)
    decreases |s|, 3
  {
    var t := SkipSpace(s);
    SkipSpaceValid(s);
    if t != [] && t[0] == RBRACE {
      DropAscii(t, 1);
    } else {
      ReadMembersAdmissible(s, depth, {});
    }
  }

  lemma {:induction false} ReadMembersAdmissible(s: bytes, depth: nat, seen: set<bytes>)
    requires Utf8.Valid(s) && ReadMembers(s, depth, seen).Done? && depth < MAX_DEPTH
    ensures var ms := ReadMembers(s, depth, seen).value;
            && StrictMembers(ms) && UniqueKeys(ms)
            && (forall m :: m in ms ==> m.key !in seen)
            && depth + 1 + MembersHeight(ms) <= MAX_DEPTH
    ensures Utf8.Valid(ReadMembers(s, depth, seen).rest)
    decreases |s|, 2
  {
    ReadMemberAdmissible(s, depth, seen);
    var Done(Item(m, more), rest) := ReadMember(s, depth, seen);
    if more {
      ReadMembersAdmissible(rest, depth, seen + {m.key});
      var ms := ReadMembers(rest, depth, seen + {m.key}).value;
      assert ([m] + ms)[1..] == ms;
      assert m.key in seen + {m.key};
    } else {
      assert [m][1..] == [];
    }
  }

  lemma {:induction false} ReadMemberAdmissible(s: bytes, depth: nat, seen: set<bytes>)
    requires Utf8.Valid(s) && ReadMember(s, depth, seen).Done? && depth < MAX_DEPTH
    ensures var m := ReadMember(s, depth, seen).value.value;
            Utf8.Valid(m.key) && Strict(m.value) && m.key !in seen && depth + 1 + Height(m.value) <= MAX_DEPTH
    ensures Utf8.Valid(ReadMember(s, depth, seen).rest)
    decreases |s|, 1
  {
    ReadKeyValid(s, seen);
    var r1 := ReadKey(s, seen).rest;
    SkipSpaceValid(r1);
    ReadValueAdmissible(SkipSpace(r1), depth + 1);
    ReadSeparatorValid(ReadValue(SkipSpace(r1), depth + 1).rest, RBRACE);
  }

  lemma {:induction false} ReadArrayAdmissible(s: bytes, depth: nat)
    requires Utf8.Valid(s) && ReadArray(s, depth).Done? && depth < MAX_DEPTH
    ensures Strict(ReadArray(s, depth).value) && depth + Height(ReadArray(s, depth).value) <= MAX_DEPTH
    ensures Utf8.Valid(ReadArray(s, depth).rest)
    decreases |s|, 3
  {
    var t := SkipSpace(s);
    SkipSpaceValid(s);
    if t != [] && t[0] == RBRACKET {
      DropAscii(t, 1);
    } else {
      ReadElemsAdmissible(s, depth);
    }
  }

  lemma {:induction false} ReadElemsAdmissible(s: bytes, depth: nat)
    requires Utf8.Valid(s) && ReadElems(s, depth).Done? && depth < MAX_DEPTH
    ensures StrictElems(ReadElems(s, depth).value)
    ensures depth + 1 + ElemsHeight(ReadElems(s, depth).value) <= MAX_DEPTH
    ensures Utf8.Valid(ReadElems(s, depth).rest)
    decreases |s|, 2
  {
    SkipSpaceValid(s);
    ReadValueAdmissible(SkipSpace(s), depth + 1);
    ReadSeparatorValid(ReadValue(SkipSpace(s), depth + 1).rest, RBRACKET);
    var Done(Item(v, more), rest) := ReadElem(s, depth);
    if more {
      ReadElemsAdmissible(rest, depth);
      var es := ReadElems(rest, depth).value;
      assert ([v] + es)[1..] == es;
    } else {
      assert [v][1..] == [];
    }
  }
}
