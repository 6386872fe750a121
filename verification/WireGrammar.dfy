/**
 The grammar machine of the member wire reader (memberwire/lex.go): an explicit stack of
 frames, each with a kind, a state and the member names met so far.  It is proved to be
 a recursive descent over the token list: it accepts exactly the flattenings of one
 object tree, and the faults it raises are exactly the tree's.
 */
module WireGrammar {
  import opened Bytes
  import opened JsonValue
  import opened WireLexer

  const DEPTH_LIMIT: nat := 16
  const NODE_LIMIT: nat := 8192

  // ---- A tree as its token list ----

  function Flatten(v: Value): (ts: seq<Token>)
    ensures ts != []
  {
    match v
    case Null => [NullToken]
    case Bool(b) => [if b then TrueToken else FalseToken]
    case Int(n) => [NumToken(n)]
    case Str(t) => [StrToken(t)]
    case Arr(es) => [BracketOpen] + FlattenElems(es) + [BracketClose]
    case Obj(ms) => [BraceOpen] + FlattenMembers(ms) + [BraceClose]
  }

  function FlattenElems(es: seq<Value>): seq<Token> {
    if es == [] then [] else Flatten(es[0]) + FlattenMoreElems(es[1..])
  }

  function FlattenMoreElems(es: seq<Value>): seq<Token> {
    if es == [] then [] else [Comma] + Flatten(es[0]) + FlattenMoreElems(es[1..])
  }

  function FlattenMember(m: Member): seq<Token> {
    [StrToken(m.key), Colon] + Flatten(m.value)
  }

  function FlattenMembers(ms: seq<Member>): seq<Token> {
    if ms == [] then [] else FlattenMember(ms[0]) + FlattenMoreMembers(ms[1..])
  }

  function FlattenMoreMembers(ms: seq<Member>): seq<Token> {
    if ms == [] then [] else [Comma] + FlattenMember(ms[0]) + FlattenMoreMembers(ms[1..])
  }

  // ---- What the bounds and duplicate checks are about ----

  /** Container nesting: a scalar nests nothing, a container one more than its deepest child. */
  function Nesting(v: Value): nat {
    match v
    case Arr(es) => 1 + ElemsNesting(es)
    case Obj(ms) => 1 + MembersNesting(ms)
    case _ => 0
  }

  function ElemsNesting(es: seq<Value>): nat {
    if es == [] then 0 else Max(Nesting(es[0]), ElemsNesting(es[1..]))
  }

  function MembersNesting(ms: seq<Member>): nat {
    if ms == [] then 0 else Max(Nesting(ms[0].value), MembersNesting(ms[1..]))
  }

  /** The number of values in a tree, itself included; member names are not values. */
  function Count(v: Value): (n: nat)
    ensures n >= 1
  {
    match v
    case Arr(es) => 1 + ElemsCount(es)
    case Obj(ms) => 1 + MembersCount(ms)
    case _ => 1
  }

  function ElemsCount(es: seq<Value>): nat {
    if es == [] then 0 else Count(es[0]) + ElemsCount(es[1..])
  }

  function MembersCount(ms: seq<Member>): nat {
    if ms == [] then 0 else Count(ms[0].value) + MembersCount(ms[1..])
  }

  /** No object of the tree repeats a key. */
  predicate Distinct(v: Value) {
    match v
    case Arr(es) => forall e :: e in es ==> Distinct(e)
    case Obj(ms) => UniqueKeys(ms) && forall m :: m in ms ==> Distinct(m.value)
    case _ => true
  }

  predicate Within(v: Value) {
    Nesting(v) <= DEPTH_LIMIT && Count(v) <= NODE_LIMIT
  }

  // ---- Recursive descent over tokens ----

  datatype Taken<+T> = NoTree | Tree(value: T, rest: seq<Token>)

  function Take(ts: seq<Token>): (r: Taken<Value>)
    ensures r.Tree? ==> |r.rest| < |ts|
    decreases |ts|, 0
  {
    if ts == [] then NoTree
    else
      match ts[0]
      case BraceOpen =>
        if |ts| > 1 && ts[1] == BraceClose then Tree(Obj([]), ts[2..])
        else
          (match TakeMembers(ts[1..])
           case NoTree => NoTree
           case Tree(ms, rest) => Tree(Obj(ms), rest))
      case BracketOpen =>
        if |ts| > 1 && ts[1] == BracketClose then Tree(Arr([]), ts[2..])
        else
          (match TakeElems(ts[1..])
           case NoTree => NoTree
           case Tree(es, rest) => Tree(Arr(es), rest))
      case StrToken(t) => Tree(Str(t), ts[1..])
      case NumToken(n) => Tree(Int(n), ts[1..])
      case TrueToken => Tree(Bool(true), ts[1..])
      case FalseToken => Tree(Bool(false), ts[1..])
      case NullToken => Tree(Null, ts[1..])
      case _ => NoTree
  }

  function TakeElems(ts: seq<Token>): (r: Taken<seq<Value>>)
    ensures r.Tree? ==> |r.rest| < |ts| && r.value != []
    decreases |ts|, 1
  {
    match Take(ts)
    case NoTree => NoTree
    case Tree(v, r1) =>
      if r1 == [] then NoTree
      else if r1[0] == BracketClose then Tree([v], r1[1..])
      else if r1[0] == Comma then
        (match TakeElems(r1[1..])
         case NoTree => NoTree
         case Tree(es, rest) => Tree([v] + es, rest))
      else NoTree
  }

  function TakeMembers(ts: seq<Token>): (r: Taken<seq<Member>>)
    ensures r.Tree? ==> |r.rest| < |ts| && r.value != []
    decreases |ts|, 1
  {
    if |ts| < 2 || !ts[0].StrToken? || ts[1] != Colon then NoTree
    else
      match Take(ts[2..])
      case NoTree => NoTree
      case Tree(v, r1) =>
        var m := Member(ts[0].text, v);
        if r1 == [] then NoTree
        else if r1[0] == BraceClose then Tree([m], r1[1..])
        else if r1[0] == Comma then
          (match TakeMembers(r1[1..])
           case NoTree => NoTree
           case Tree(ms, rest) => Tree([m] + ms, rest))
        else NoTree
  }

  /** A tree can be taken off its own flattening, whatever follows. */
  lemma {:induction false} TakeFlatten(v: Value, rest: seq<Token>)
    ensures Take(Flatten(v) + rest) == Tree(v, rest)
    decreases v, 0
  {
    var ts := Flatten(v) + rest;
    match v
    case Arr(es) =>
      assert ts[1..] == FlattenElems(es) + [BracketClose] + rest;
      if es == [] {
        assert ts[2..] == rest;
      } else {
        TakeFlattenElems(es, rest);
        FlattenHead(es[0]);
        assert ts[1] == Flatten(es[0])[0];
      }
    case Obj(ms) =>
      assert ts[1..] == FlattenMembers(ms) + [BraceClose] + rest;
      if ms == [] {
        assert ts[2..] == rest;
      } else {
        assert ts[1] == StrToken(ms[0].key);
        TakeFlattenMembers(ms, rest);
      }
    case _ => assert ts[1..] == rest;
  }

  lemma FlattenHead(v: Value)
    ensures Flatten(v)[0] != BracketClose
  {
  }

  lemma {:induction false} TakeFlattenElems(es: seq<Value>, rest: seq<Token>)
    requires es != []
    ensures TakeElems(FlattenElems(es) + [BracketClose] + rest) == Tree(es, rest)
    decreases es, 1
  {
    var ts := FlattenElems(es) + [BracketClose] + rest;
    var tail := FlattenMoreElems(es[1..]) + [BracketClose] + rest;
    assert ts == Flatten(es[0]) + tail;
    TakeFlatten(es[0], tail);
    if |es| > 1 {
      MoreElems(es[1..], rest);
      TakeFlattenElems(es[1..], rest);
      assert es == [es[0]] + es[1..];
    } else {
      assert tail[1..] == rest && es == [es[0]];
    }
  }

  lemma MembersTokens(m: Member, tail: seq<Token>)
    ensures var ts := FlattenMember(m) + tail;
            |ts| >= 2 && ts[0] == StrToken(m.key) && ts[1] == Colon && ts[2..] == Flatten(m.value) + tail
  {
  }

  lemma MoreElems(es: seq<Value>, rest: seq<Token>)
    requires es != []
    ensures var tail := FlattenMoreElems(es) + [BracketClose] + rest;
            tail != [] && tail[0] == Comma && tail[1..] == FlattenElems(es) + [BracketClose] + rest
  {
    Regroup(Flatten(es[0]), FlattenMoreElems(es[1..]), [BracketClose], rest);
  }

  lemma MoreMembers(ms: seq<Member>, rest: seq<Token>)
    requires ms != []
    ensures var tail := FlattenMoreMembers(ms) + [BraceClose] + rest;
            tail != [] && tail[0] == Comma && tail[1..] == FlattenMembers(ms) + [BraceClose] + rest
  {
    Regroup(FlattenMember(ms[0]), FlattenMoreMembers(ms[1..]), [BraceClose], rest);
  }

  lemma Regroup(a: seq<Token>, b: seq<Token>, c: seq<Token>, d: seq<Token>)
    ensures [Comma] + a + b + c + d == [Comma] + (a + b + c + d)
  {
  }

  lemma {:induction false} TakeFlattenMembers(ms: seq<Member>, rest: seq<Token>)
    requires ms != []
    ensures TakeMembers(FlattenMembers(ms) + [BraceClose] + rest) == Tree(ms, rest)
    decreases ms, 1
  {
    var ts := FlattenMembers(ms) + [BraceClose] + rest;
    var tail := FlattenMoreMembers(ms[1..]) + [BraceClose] + rest;
    MembersTokens(ms[0], tail);
    Associate(FlattenMember(ms[0]), FlattenMoreMembers(ms[1..]), [BraceClose], rest);
    assert ts == FlattenMember(ms[0]) + tail;
    hide Flatten, FlattenMember, FlattenMembers, FlattenMoreMembers;
    TakeFlatten(ms[0].value, tail);
    if |ms| > 1 {
      MoreMembers(ms[1..], rest);
      TakeFlattenMembers(ms[1..], rest);
      assert ms == [ms[0]] + ms[1..];
    } else {
      assert tail[1..] == rest && ms == [ms[0]];
    }
  }

  /** Whatever is taken is the flattening of the tree taken. */
  lemma {:induction false} FlattenTake(ts: seq<Token>)
    requires Take(ts).Tree?
    ensures ts == Flatten(Take(ts).value) + Take(ts).rest
    decreases |ts|, 0
  {
    match ts[0]
    case BraceOpen =>
      if !(|ts| > 1 && ts[1] == BraceClose) {
        FlattenTakeMembers(ts[1..]);
        assert ts == [BraceOpen] + ts[1..];
      }
    case BracketOpen =>
      if !(|ts| > 1 && ts[1] == BracketClose) {
        FlattenTakeElems(ts[1..]);
        assert ts == [BracketOpen] + ts[1..];
      }
    case _ =>
  }

  lemma {:induction false} FlattenTakeElems(ts: seq<Token>)
    requires TakeElems(ts).Tree?
    ensures ts == FlattenElems(TakeElems(ts).value) + [BracketClose] + TakeElems(ts).rest
    decreases |ts|, 1
  {
    FlattenTake(ts);
    var Tree(v, r1) := Take(ts);
    if r1[0] == Comma {
      FlattenTakeElems(r1[1..]);
      var Tree(es, rest) := TakeElems(r1[1..]);
      ElemsJoin(ts, v, es, r1, rest);
    } else {
      assert r1 == [BracketClose] + r1[1..];
      assert FlattenElems([v]) == Flatten(v) + [];
    }
  }

  lemma {:induction false} ElemsJoin(ts: seq<Token>, v: Value, es: seq<Value>, r1: seq<Token>, rest: seq<Token>)
    requires es != [] && r1 != [] && r1[0] == Comma && ts == Flatten(v) + r1
    requires r1[1..] == FlattenElems(es) + [BracketClose] + rest
    ensures ts == FlattenElems([v] + es) + [BracketClose] + rest
  {
    MoreElems(es, rest);
    assert r1 == [Comma] + r1[1..];
    assert ([v] + es)[1..] == es;
    assert FlattenElems([v] + es) == Flatten(v) + FlattenMoreElems(es);
    hide Flatten, FlattenElems, FlattenMoreElems;
    assert r1 == FlattenMoreElems(es) + [BracketClose] + rest;
    Associate(Flatten(v), FlattenMoreElems(es), [BracketClose], rest);
  }

  lemma Associate(a: seq<Token>, b: seq<Token>, c: seq<Token>, d: seq<Token>)
    ensures a + b + c + d == a + (b + c + d)
  {
  }

  lemma {:induction false} FlattenTakeMembers(ts: seq<Token>)
    requires TakeMembers(ts).Tree?
    ensures ts == FlattenMembers(TakeMembers(ts).value) + [BraceClose] + TakeMembers(ts).rest
    decreases |ts|, 1
  {
    FlattenTake(ts[2..]);
    var Tree(v, r1) := Take(ts[2..]);
    MemberHead(ts, v, r1);
    var m := Member(ts[0].text, v);
    if r1[0] == Comma {
      FlattenTakeMembers(r1[1..]);
      var Tree(ms, rest) := TakeMembers(r1[1..]);
      MembersJoin(ts, m, ms, r1, rest);
    } else {
      assert r1 == [BraceClose] + r1[1..];
      assert FlattenMembers([m]) == FlattenMember(m) + [];
    }
  }

  lemma {:induction false} MembersJoin(ts: seq<Token>, m: Member, ms: seq<Member>, r1: seq<Token>, rest: seq<Token>)
    requires ms != [] && r1 != [] && r1[0] == Comma && ts == FlattenMember(m) + r1
    requires r1[1..] == FlattenMembers(ms) + [BraceClose] + rest
    ensures ts == FlattenMembers([m] + ms) + [BraceClose] + rest
  {
    MoreMembers(ms, rest);
    assert r1 == [Comma] + r1[1..];
    assert ([m] + ms)[1..] == ms;
    assert FlattenMembers([m] + ms) == FlattenMember(m) + FlattenMoreMembers(ms);
    hide FlattenMember, FlattenMembers, FlattenMoreMembers;
    assert r1 == FlattenMoreMembers(ms) + [BraceClose] + rest;
    Associate(FlattenMember(m), FlattenMoreMembers(ms), [BraceClose], rest);
  }

  lemma MemberHead(ts: seq<Token>, v: Value, r1: seq<Token>)
    requires |ts| >= 2 && ts[0].StrToken? && ts[1] == Colon && ts[2..] == Flatten(v) + r1
    ensures ts == FlattenMember(Member(ts[0].text, v)) + r1
  {
    assert ts == [ts[0], ts[1]] + ts[2..];
  }

  /** Flattening is injective: a token list has at most one tree. */
  lemma FlattenInjective(a: Value, b: Value)
    requires Flatten(a) == Flatten(b)
    ensures a == b
  {
    TakeFlatten(a, []);
    TakeFlatten(b, []);
    assert Flatten(a) + [] == Flatten(b) + [];
  }
}
