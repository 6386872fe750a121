/** Cutting an entry at its first equals sign, as strings.Cut does. */
module Text {
  import opened Bytes

  const EQ: char := '='

  /** The text before the first equals sign, and the value after it. */
  function Cut(arg: string): (string, Option<string>) {
    if arg == [] then ([], None)
    else if arg[0] == EQ then ([], Some(arg[1..]))
    else
      var (flag, value) := Cut(arg[1..]);
      ([arg[0]] + flag, value)
  }

  function Join(name: string, value: string): string {
    name + [EQ] + value
  }

  /** The parts spell the text, and the name has no equals sign. */
  lemma {:induction false} CutParts(arg: string)
    ensures EQ !in Cut(arg).0
    ensures arg == match Cut(arg).1 case None => Cut(arg).0 case Some(value) => Join(Cut(arg).0, value)
    decreases |arg|
  {
    if arg != [] {
      assert arg == [arg[0]] + arg[1..];
      if arg[0] != EQ {
        CutParts(arg[1..]);
      }
    }
  }

  lemma {:induction false} CutNothing(name: string)
    requires EQ !in name
    ensures Cut(name) == (name, None)
    decreases |name|
  {
    if name != [] {
      assert name == [name[0]] + name[1..];
      CutNothing(name[1..]);
    }
  }

  /** A joined entry cuts back into its parts. */
  lemma {:induction false} CutJoin(name: string, value: string)
    requires EQ !in name
    ensures Cut(Join(name, value)) == (name, Some(value))
    decreases |name|
  {
    var arg := Join(name, value);
    if name == [] {
      assert arg[1..] == value;
    } else {
      assert arg[1..] == Join(name[1..], value);
      assert name == [name[0]] + name[1..];
      CutJoin(name[1..], value);
    }
  }
}
