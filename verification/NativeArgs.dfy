/**
 The check of a native argument tail under a filtering gateway
 (internal/network/native_args.go): a short scan that skips one argument after some
 options.  Beside it, a full option parser with the four value shapes; the scan refuses
 exactly what that parser cannot read with admitted options.
 */
module NativeArgs {
  import opened Bytes
  import opened Text

  datatype Shape = Switch | Required | Optional | Variadic

  /** The option tables and the words dispatched on outside the option parser. */
  datatype Tables = Tables(
    long: map<string, Shape>, short: map<string, Shape>,
    reserved: set<string>, prefixes: set<string>, beforeTerminator: set<string>)

  datatype Kind = ReservedWord | NotAdmitted | SwitchWithValue | NoValue

  datatype Refusal = Refusal(at: nat, kind: Kind)

  const TERMINATOR: string := "--"

  predicate LooksLikeOption(arg: string) {
    |arg| > 1 && arg[0] == '-'
  }

  datatype Found = Found(flag: string, inline: Option<string>, shape: Option<Shape>)

  function At(table: map<string, Shape>, name: string): Option<Shape> {
    if name in table then Some(table[name]) else None
  }

  /** Long options may carry a value after an equals sign; short ones stand alone. */
  function Lookup(t: Tables, arg: string): Found {
    if TERMINATOR <= arg then
      var (flag, value) := Cut(arg);
      Found(flag, value, At(t.long, flag))
    else Found(arg, None, At(t.short, arg))
  }

  /** A word that begins with two dashes is looked up by its name among the long options, a value after an equals sign
      set apart; any other word is looked up whole among the short ones. */
  lemma LookedUp(t: Tables, name: string, value: string)
    ensures TERMINATOR <= name && EQ !in name ==>
              && Lookup(t, name) == Found(name, None, At(t.long, name))
              && Lookup(t, name + [EQ] + value) == Found(name, Some(value), At(t.long, name))
    ensures !(TERMINATOR <= name) ==> Lookup(t, name) == Found(name, None, At(t.short, name))
  {
    if TERMINATOR <= name && EQ !in name {
      CutJoin(name, value);
      CutNothing(name);
      assert TERMINATOR <= name + [EQ] + value;
    }
  }

  predicate Reserved(t: Tables, arg: string) {
    arg in t.reserved || exists p :: p in t.prefixes && p <= arg
  }

  /** Whether the word at i refuses: the first raw terminator never does, and frees some words after it. */
  predicate ReservedAt(t: Tables, args: seq<string>, i: nat)
    requires i < |args|
  {
    var terminated := TERMINATOR in args[..i];
    !(args[i] == TERMINATOR && !terminated) && (Reserved(t, args[i]) || (!terminated && args[i] in t.beforeTerminator))
  }

  // ---- The full parser ----

  datatype Item =
    | Operand(arg: string)
    | Alone(arg: string)
    | Inline(arg: string, value: string)
    | With(arg: string, values: seq<string>)

  datatype End = Finished | Terminated(rest: seq<string>) | Fault(refusal: Refusal)

  datatype Parsed = Parsed(items: seq<Item>, end: End)

  function Cons(item: Item, p: Parsed): Parsed {
    Parsed([item] + p.items, p.end)
  }

  /** How many arguments a list goes on for. */
  function Run(args: seq<string>): (n: nat)
    ensures n <= |args|
    ensures forall i :: 0 <= i < n ==> !LooksLikeOption(args[i])
    ensures n < |args| ==> LooksLikeOption(args[n])
  {
    if args == [] || LooksLikeOption(args[0]) then 0 else 1 + Run(args[1..])
  }

  /** The values an option without an equals sign takes; None where one is missing. */
  function Values(shape: Shape, next: seq<string>): (n: Option<nat>)
    ensures n.Some? ==> n.value <= |next|
  {
    match shape
    case Switch => Some(0)
    case Required => if next == [] then None else Some(1)
    case Optional => if next == [] || LooksLikeOption(next[0]) then Some(0) else Some(1)
    case Variadic => if next == [] then None else Some(1 + Run(next[1..]))
  }

  function Words(item: Item): (w: seq<string>)
    ensures w != []
  {
    match item
    case With(arg, values) => [arg] + values
    case _ => [item.arg]
  }

  /** Every option is admitted and has the values its shape allows; a value that looks like an option is a
      required one or the first of a list. */
  predicate ItemOk(t: Tables, item: Item) {
    if item.Operand? then !LooksLikeOption(item.arg)
    else
      var f := Lookup(t, item.arg);
      && LooksLikeOption(item.arg) && item.arg != TERMINATOR && f.shape.Some?
      && match item
         case Alone(_) => f.shape == Some(Switch) && f.inline.None?
         case Inline(_, value) => f.shape != Some(Switch) && f.inline == Some(value)
         case With(_, values) =>
           && f.inline.None? && f.shape != Some(Switch)
           && (f.shape == Some(Required) ==> |values| == 1)
           && (f.shape == Some(Optional) ==> |values| <= 1)
           && (f.shape == Some(Variadic) ==> |values| >= 1)
           && forall i :: 0 <= i < |values| && LooksLikeOption(values[i]) ==> i == 0 && f.shape != Some(Optional)
  }

  datatype Turn = Stop(kind: Kind) | Take(item: Item)

  /** The item that starts here. */
  function NextItem(t: Tables, args: seq<string>): (r: Turn)
    requires args != [] && args[0] != TERMINATOR
    ensures r.Take? ==> Words(r.item) <= args && ItemOk(t, r.item)
    ensures r.Stop? ==> r.kind != ReservedWord
  {
    if !LooksLikeOption(args[0]) then Take(Operand(args[0]))
    else
      var f := Lookup(t, args[0]);
      if f.shape.None? then Stop(NotAdmitted)
      else if f.inline.Some? then
        if f.shape.value == Switch then Stop(SwitchWithValue) else Take(Inline(args[0], f.inline.value))
      else
        match Values(f.shape.value, args[1..])
        case None => Stop(NoValue)
        case Some(n) => Take(if f.shape.value == Switch then Alone(args[0]) else With(args[0], args[1..1 + n]))
  }

  function Parse(t: Tables, args: seq<string>, k: nat): Parsed
    decreases |args|
  {
    if args == [] then Parsed([], Finished)
    else if args[0] == TERMINATOR then Parsed([], Terminated(args[1..]))
    else
      match NextItem(t, args)
      case Stop(kind) => Parsed([], Fault(Refusal(k, kind)))
      case Take(item) =>
        var n := |Words(item)|;
        Cons(item, Parse(t, args[n..], k + n))
  }

  function Unparse(items: seq<Item>): seq<string> {
    if items == [] then [] else Words(items[0]) + Unparse(items[1..])
  }

  /** The positions of the options among the words of the items. */
  function OptionsAt(items: seq<Item>, k: nat): seq<nat> {
    if items == [] then []
    else (if items[0].Operand? then [] else [k]) + OptionsAt(items[1..], k + |Words(items[0])|)
  }

  /** Everything the parser looked at as an option, the one it refused included. */
  function Seen(p: Parsed, k: nat): seq<nat> {
    OptionsAt(p.items, k) + (if p.end.Fault? then [p.end.refusal.at] else [])
  }

  /** What the parser read is what was there. */
  predicate Spells(p: Parsed, args: seq<string>, k: nat) {
    match p.end
    case Finished => Unparse(p.items) == args
    case Terminated(rest) => Unparse(p.items) + ([TERMINATOR] + rest) == args
    case Fault(r) => Unparse(p.items) <= args && r.at == k + |Unparse(p.items)| < k + |args| && r.kind != ReservedWord
  }

  /** The parser loses no word. */
  lemma {:induction false} ParseSpells(t: Tables, args: seq<string>, k: nat)
    ensures Spells(Parse(t, args, k), args, k)
    decreases |args|
  {
    if args != [] && args[0] != TERMINATOR && NextItem(t, args).Take? {
      hide NextItem, ItemOk, Words, Unparse, Spells;
      var item := NextItem(t, args).item;
      var n := |Words(item)|;
      ParseSpells(t, args[n..], k + n);
      ConsSpells(item, Parse(t, args[n..], k + n), args, k);
    }
  }

  lemma ConsSpells(item: Item, p: Parsed, args: seq<string>, k: nat)
    requires Words(item) <= args && Spells(p, args[|Words(item)|..], k + |Words(item)|)
    ensures Spells(Cons(item, p), args, k)
  {
    UnparseCons(item, p.items);
    hide Words, Unparse;
    Front(Words(item), Unparse(p.items), args);
    if p.end.Terminated? {
      Reassociate(Words(item), Unparse(p.items), [TERMINATOR] + p.end.rest);
      Front(Words(item), Unparse(p.items) + ([TERMINATOR] + p.end.rest), args);
    }
  }

  lemma UnparseCons(item: Item, items: seq<Item>)
    ensures Unparse([item] + items) == Words(item) + Unparse(items)
  {
    assert ([item] + items)[1..] == items;
  }

  lemma Front<T>(w: seq<T>, u: seq<T>, args: seq<T>)
    requires w <= args
    ensures u == args[|w|..] ==> w + u == args
    ensures u <= args[|w|..] ==> w + u <= args
  {
    assert args == w + args[|w|..];
    if u <= args[|w|..] {
      assert args[|w|..] == u + args[|w|..][|u|..];
    }
  }

  // ---- What a readable tail is, without a parser ----

  /** An optional value left out, or a list, is followed by nothing that could be one more value. */
  predicate Greedy(t: Tables, item: Item, next: seq<string>) {
    item.With? && (item.values == [] || Lookup(t, item.arg).shape == Some(Variadic)) ==> next == [] || LooksLikeOption(next[0])
  }

  /** Well-formed items, then the end or a terminator. */
  predicate WellFormed(t: Tables, items: seq<Item>, tail: seq<string>) {
    if items == [] then tail == [] || tail[0] == TERMINATOR
    else
      && ItemOk(t, items[0])
      && Greedy(t, items[0], Unparse(items[1..]) + tail)
      && WellFormed(t, items[1..], tail)
  }

  function EndOf(tail: seq<string>): End {
    if tail == [] then Finished else Terminated(tail[1..])
  }

  lemma RunExactly(args: seq<string>, n: nat)
    requires n <= |args| && (forall i :: 0 <= i < n ==> !LooksLikeOption(args[i]))
    requires n < |args| ==> LooksLikeOption(args[n])
    ensures Run(args) == n
  {
  }

  lemma ValuesWritten(t: Tables, item: Item, next: seq<string>)
    requires item.With? && ItemOk(t, item) && Greedy(t, item, next)
    ensures Values(Lookup(t, item.arg).shape.value, item.values + next) == Some(|item.values|)
  {
    hide Lookup;
    var args := item.values + next;
    if Lookup(t, item.arg).shape == Some(Variadic) {
      assert args[1..] == item.values[1..] + next;
      RunExactly(args[1..], |item.values| - 1);
    }
  }

  lemma TailOf<T>(a: T, values: seq<T>, next: seq<T>)
    ensures (([a] + values) + next)[1..] == values + next
    ensures (([a] + values) + next)[1..1 + |values|] == values
  {
    Reassociate([a], values, next);
  }

  /** The next item of well-formed words is the one that was written. */
  lemma NextIsWritten(t: Tables, item: Item, next: seq<string>)
    requires ItemOk(t, item) && Greedy(t, item, next)
    ensures var args := Words(item) + next; args[0] != TERMINATOR && NextItem(t, args) == Take(item)
  {
    var args := Words(item) + next;
    assert args[0] == item.arg;
    if item.With? {
      ValuesWritten(t, item, next);
      TailOf(item.arg, item.values, next);
      hide Lookup, Values, Greedy;
    } else {
      hide Lookup, Greedy;
    }
  }

  lemma ParseStep(t: Tables, args: seq<string>, k: nat)
    requires args != [] && args[0] != TERMINATOR && NextItem(t, args).Take?
    ensures var item := NextItem(t, args).item;
            Parse(t, args, k) == Cons(item, Parse(t, args[|Words(item)|..], k + |Words(item)|))
  {
    hide NextItem, Words, ItemOk, Cons;
  }

  lemma ParseTakes(t: Tables, item: Item, next: seq<string>, k: nat)
    requires ItemOk(t, item) && Greedy(t, item, next)
    ensures Parse(t, Words(item) + next, k) == Cons(item, Parse(t, next, k + |Words(item)|))
  {
    hide NextItem, Words, ItemOk, Greedy, Parse, Cons;
    NextIsWritten(t, item, next);
    ParseStep(t, Words(item) + next, k);
    assert (Words(item) + next)[|Words(item)|..] == next;
  }

  lemma {:induction false} ParseReads(t: Tables, items: seq<Item>, tail: seq<string>, k: nat)
    requires WellFormed(t, items, tail)
    ensures Parse(t, Unparse(items) + tail, k) == Parsed(items, EndOf(tail))
    decreases |items|
  {
    if items == [] {
      assert Unparse(items) + tail == tail;
    } else {
      var w, rest := Words(items[0]), Unparse(items[1..]);
      assert Unparse(items) == w + rest;
      hide NextItem, Words, ItemOk, Greedy, Unparse, Parse;
      ParseReads(t, items[1..], tail, k + |w|);
      hide WellFormed;
      Reassociate(w, rest, tail);
      ParseTakes(t, items[0], rest + tail, k);
      assert items == [items[0]] + items[1..];
    }
  }

  /** What the parser reads is well formed. */
  lemma {:induction false} ParsedWellFormed(t: Tables, args: seq<string>, k: nat)
    requires !Parse(t, args, k).end.Fault?
    ensures exists tail :: WellFormed(t, Parse(t, args, k).items, tail) && Unparse(Parse(t, args, k).items) + tail == args
    decreases |args|
  {
    if args == [] || args[0] == TERMINATOR {
      assert Unparse([]) + args == args && WellFormed(t, [], args);
    } else {
      var item := NextItem(t, args).item;
      var w := Words(item);
      NextIsGreedy(t, args);
      hide NextItem, Words, ItemOk, Greedy;
      ParsedWellFormed(t, args[|w|..], k + |w|);
      var p := Parse(t, args[|w|..], k + |w|);
      var tail :| WellFormed(t, p.items, tail) && Unparse(p.items) + tail == args[|w|..];
      UnparseCons(item, p.items);
      assert ([item] + p.items)[1..] == p.items;
      assert WellFormed(t, [item] + p.items, tail);
      Front(w, Unparse(p.items) + tail, args);
      Reassociate(w, Unparse(p.items), tail);
      assert Unparse([item] + p.items) + tail == args;
    }
  }

  lemma NextIsGreedy(t: Tables, args: seq<string>)
    requires args != [] && args[0] != TERMINATOR && NextItem(t, args).Take?
    ensures Greedy(t, NextItem(t, args).item, args[|Words(NextItem(t, args).item)|..])
  {
    var item := NextItem(t, args).item;
    if item.With? {
      assert args[1..][|item.values|..] == args[|Words(item)|..];
      if Lookup(t, item.arg).shape == Some(Variadic) {
        assert args[1..][1..][|item.values| - 1..] == args[|Words(item)|..];
      }
    }
  }

  /** The parser finds no fault exactly in the tails some well-formed items spell, and then reads those. */
  lemma ReadableExactly(t: Tables, args: seq<string>)
    ensures !Parse(t, args, 0).end.Fault? <==>
              exists items: seq<Item>, tail: seq<string> :: WellFormed(t, items, tail) && Unparse(items) + tail == args
  {
    if !Parse(t, args, 0).end.Fault? {
      ParsedWellFormed(t, args, 0);
    }
    if items, tail :| WellFormed(t, items, tail) && Unparse(items) + tail == args {
      ParseReads(t, items, tail, 0);
    }
  }

  // ---- The scan ----

  datatype Scanned = Scanned(seen: seq<nat>, refusal: Option<Refusal>)

  /** The scan from position i: an option of a required or list shape hides the next argument, nothing else does. */
  function Scan(t: Tables, args: seq<string>, k: nat): Scanned
    decreases |args|
  {
    if args == [] || args[0] == TERMINATOR then Scanned([], None)
    else if !LooksLikeOption(args[0]) then Scan(t, args[1..], k + 1)
    else
      var f := Lookup(t, args[0]);
      if f.shape.None? then Scanned([k], Some(Refusal(k, NotAdmitted)))
      else if f.shape.value == Switch && f.inline.Some? then Scanned([k], Some(Refusal(k, SwitchWithValue)))
      else if (f.shape.value == Required || f.shape.value == Variadic) && f.inline.None? then
        if |args| < 2 then Scanned([k], Some(Refusal(k, NoValue))) else See(k, Scan(t, args[2..], k + 2))
      else See(k, Scan(t, args[1..], k + 1))
  }

  function See(k: nat, s: Scanned): Scanned {
    Scanned([k] + s.seen, s.refusal)
  }

  /** Arguments that do not look like options are passed over, whoever takes them. */
  lemma {:induction false} ScanSkips(t: Tables, args: seq<string>, k: nat, n: nat)
    requires n <= |args| && forall i :: 0 <= i < n ==> !LooksLikeOption(args[i])
    ensures Scan(t, args, k) == Scan(t, args[n..], k + n)
    decreases n
  {
    if n == 0 {
      assert args[0..] == args;
    } else {
      ScanSkips(t, args[1..], k + 1, n - 1);
      assert args[1..][n - 1..] == args[n..];
    }
  }

  lemma ScanOption(t: Tables, args: seq<string>, k: nat)
    requires args != [] && args[0] != TERMINATOR && LooksLikeOption(args[0])
    requires Lookup(t, args[0]).inline.None? && Lookup(t, args[0]).shape.Some?
    ensures var shape := Lookup(t, args[0]).shape.value;
            if shape == Switch || shape == Optional then Scan(t, args, k) == See(k, Scan(t, args[1..], k + 1))
            else |args| >= 2 ==> Scan(t, args, k) == See(k, Scan(t, args[2..], k + 2))
  {
    hide Lookup, LooksLikeOption;
  }

  /** An option's values are hidden or do not look like options. */
  lemma ScanValues(t: Tables, args: seq<string>, k: nat, n: nat)
    requires args != [] && args[0] != TERMINATOR && LooksLikeOption(args[0])
    requires Lookup(t, args[0]).inline.None? && Lookup(t, args[0]).shape.Some?
    requires Values(Lookup(t, args[0]).shape.value, args[1..]) == Some(n)
    ensures Scan(t, args, k) == See(k, Scan(t, args[1 + n..], k + 1 + n))
  {
    ScanOption(t, args, k);
    hide Lookup, LooksLikeOption, Scan, Run;
    match Lookup(t, args[0]).shape.value
    case Switch =>
    case Required =>
    case Optional => ScanSkipsFrom(t, args, k, 1, n);
    case Variadic =>
      assert args[1..][1..] == args[2..];
      ScanSkipsFrom(t, args, k, 2, n - 1);
  }

  lemma ScanSkipsFrom(t: Tables, args: seq<string>, k: nat, m: nat, n: nat)
    requires m + n <= |args| && forall i :: 0 <= i < n ==> !LooksLikeOption(args[m..][i])
    ensures Scan(t, args[m..], k + m) == Scan(t, args[m + n..], k + m + n)
  {
    hide Scan, LooksLikeOption;
    ScanSkips(t, args[m..], k + m, n);
    assert args[m..][n..] == args[m + n..];
  }

  lemma ScanTurn(t: Tables, args: seq<string>, k: nat)
    requires args != [] && args[0] != TERMINATOR
    ensures match NextItem(t, args)
            case Stop(kind) => Scan(t, args, k) == Scanned([k], Some(Refusal(k, kind)))
            case Take(item) =>
              var rest := Scan(t, args[|Words(item)|..], k + |Words(item)|);
              Scan(t, args, k) == if item.Operand? then rest else See(k, rest)
  {
    var f := Lookup(t, args[0]);
    hide Lookup, ItemOk;
    if LooksLikeOption(args[0]) && f.shape.Some? && f.inline.None? && Values(f.shape.value, args[1..]).Some? {
      ScanValues(t, args, k, Values(f.shape.value, args[1..]).value);
      hide Scan, Values;
    } else {
      ScanOther(t, args, k);
      hide Scan;
    }
  }

  lemma ScanOther(t: Tables, args: seq<string>, k: nat)
    requires args != [] && args[0] != TERMINATOR
    ensures var f := Lookup(t, args[0]);
            if !LooksLikeOption(args[0]) then Scan(t, args, k) == Scan(t, args[1..], k + 1)
            else if f.shape.None? then Scan(t, args, k) == Scanned([k], Some(Refusal(k, NotAdmitted)))
            else if f.inline.Some? then
              Scan(t, args, k) == if f.shape.value == Switch then Scanned([k], Some(Refusal(k, SwitchWithValue)))
                                  else See(k, Scan(t, args[1..], k + 1))
            else |args| == 1 && (f.shape.value == Required || f.shape.value == Variadic) ==>
              Scan(t, args, k) == Scanned([k], Some(Refusal(k, NoValue)))
  {
    hide Lookup;
  }

  /** The same options seen, the same one refused. */
  predicate Agree(s: Scanned, p: Parsed, k: nat) {
    && s.seen == Seen(p, k)
    && s.refusal == (if p.end.Fault? then Some(p.end.refusal) else None)
  }

  lemma AgreeCons(item: Item, s: Scanned, p: Parsed, k: nat)
    requires Agree(s, p, k + |Words(item)|)
    ensures Agree(if item.Operand? then s else See(k, s), Cons(item, p), k)
  {
    var head := if item.Operand? then [] else [k];
    var tail := if p.end.Fault? then [p.end.refusal.at] else [];
    assert Cons(item, p).items[1..] == p.items;
    assert (head + OptionsAt(p.items, k + |Words(item)|)) + tail == head + (OptionsAt(p.items, k + |Words(item)|) + tail);
  }

  lemma AgreeStopped(k: nat, kind: Kind)
    ensures Agree(Scanned([k], Some(Refusal(k, kind))), Parsed([], Fault(Refusal(k, kind))), k)
  {
  }

  lemma AgreeAtEnd(t: Tables, args: seq<string>, k: nat)
    requires args == [] || args[0] == TERMINATOR
    ensures Agree(Scan(t, args, k), Parse(t, args, k), k)
  {
  }

  /** The scan is the parser, seen from its options. */
  lemma {:induction false} ScanIsParser(t: Tables, args: seq<string>, k: nat)
    ensures Agree(Scan(t, args, k), Parse(t, args, k), k)
    decreases |args|
  {
    hide Agree, Scan, NextItem, Words, ItemOk;
    if args == [] || args[0] == TERMINATOR {
      AgreeAtEnd(t, args, k);
    } else {
      ScanTurn(t, args, k);
      match NextItem(t, args)
      case Stop(kind) =>
        AgreeStopped(k, kind);
      case Take(item) =>
        var n := |Words(item)|;
        ParseStep(t, args, k);
        hide Parse;
        ScanIsParser(t, args[n..], k + n);
        AgreeCons(item, Scan(t, args[n..], k + n), Parse(t, args[n..], k + n), k);
    }
  }

  // ---- The check as written ----

  /** Refuses the first reserved word, else what the parser faults at, else nothing. */
  method NativeArgsConflict(t: Tables, args: seq<string>) returns (refusal: Option<Refusal>)
    ensures refusal.None? <==>
              && (forall i :: 0 <= i < |args| ==> !ReservedAt(t, args, i))
              && !Parse(t, args, 0).end.Fault?
    ensures refusal.Some? && refusal.value.kind == ReservedWord ==>
              && refusal.value.at < |args| && ReservedAt(t, args, refusal.value.at)
              && forall i :: 0 <= i < refusal.value.at ==> !ReservedAt(t, args, i)
    ensures refusal.Some? && refusal.value.kind != ReservedWord ==>
              Parse(t, args, 0).end == Fault(refusal.value) && forall i :: 0 <= i < |args| ==> !ReservedAt(t, args, i)
  {
    var terminated := false;
    for i := 0 to |args|
      invariant terminated <==> TERMINATOR in args[..i]
      invariant forall j :: 0 <= j < i ==> !ReservedAt(t, args, j)
    {
      var arg := args[i];
      assert args[..i + 1] == args[..i] + [arg];
      if arg == TERMINATOR && !terminated {
        terminated := true;
        continue;
      }
      if Reserved(t, arg) || (!terminated && arg in t.beforeTerminator) {
        assert ReservedAt(t, args, i);
        return Some(Refusal(i, ReservedWord));
      }
    }
    refusal := AdmitOptions(t, args);
    ScanIsParser(t, args, 0);
    ParseSpells(t, args, 0);
  }

  method AdmitOptions(t: Tables, args: seq<string>) returns (refusal: Option<Refusal>)
    ensures refusal == Scan(t, args, 0).refusal
  {
    var i := 0;
    assert args[0..] == args;
    while i < |args|
      invariant i <= |args|
      invariant Scan(t, args[i..], i).refusal == Scan(t, args, 0).refusal
    {
      var arg := args[i];
      if arg == TERMINATOR {
        return None;
      }
      if LooksLikeOption(arg) {
        var f := Lookup(t, arg);
        if f.shape.None? {
          return Some(Refusal(i, NotAdmitted));
        }
        match f.shape.value {
          case Switch =>
            if f.inline.Some? {
              return Some(Refusal(i, SwitchWithValue));
            }
          case Optional =>
          case Required =>
            if f.inline.None? {
              if i + 1 >= |args| {
                return Some(Refusal(i, NoValue));
              }
              i := i + 1;
            }
          case Variadic =>
            if f.inline.None? {
              if i + 1 >= |args| {
                return Some(Refusal(i, NoValue));
              }
              i := i + 1;
            }
        }
      }
      i := i + 1;
    }
    return None;
  }
}
