/**
 The explicit-stack machine itself, its agreement with the recursive descent of
 `WireGrammar`, and the tree builder that runs after it.
 */
module WireMachine {
  import opened Bytes
  import opened JsonValue
  import opened WireLexer
  import opened WireGrammar
  import opened JsonCanonical

  /** `state` is as in the source: 0 start, 1 after a key, 2 value due, 3 after a value, 4 after a comma. */
  datatype Frame = Frame(isObject: bool, state: nat, names: set<bytes>)

  datatype Turn = Reject | Turn(stack: seq<Frame>, nodes: nat, faults: Faults)

  function Top(stack: seq<Frame>): Frame
    requires stack != []
  {
    stack[|stack| - 1]
  }

  function Pop(stack: seq<Frame>): seq<Frame>
    requires stack != []
  {
    stack[..|stack| - 1]
  }

  function SetTop(stack: seq<Frame>, f: Frame): seq<Frame>
    requires stack != []
  {
    Pop(stack) + [f]
  }

  /** One token against the top frame. */
  function Advance(stack: seq<Frame>, t: Token, nodes: nat, f: Faults): Turn
    requires stack != []
  {
    var top := Top(stack);
    if (top.state == 0 || top.state == 4) && top.isObject then
      if t == BraceClose && top.state == 0 then Turn(Pop(stack), nodes, f)
      else if !t.StrToken? then Reject
      else
        Turn(SetTop(stack, top.(state := 1, names := top.names + {t.text})), nodes,
             f.Or(Faults(false, t.text in top.names)))
    else if top.state == 0 && t == BracketClose then Turn(Pop(stack), nodes, f)
    else if top.state == 1 then
      if t != Colon then Reject else Turn(SetTop(stack, top.(state := 2)), nodes, f)
    else if top.state == 3 then
      if t == (if top.isObject then BraceClose else BracketClose) then Turn(Pop(stack), nodes, f)
      else if t != Comma then Reject
      else Turn(SetTop(stack, top.(state := 4)), nodes, f)
    else TakeValue(SetTop(stack, top.(state := 3)), t, nodes + 1, f)
  }

  /** The common value step: a container opens a frame, a scalar only counts. */
  function TakeValue(stack: seq<Frame>, t: Token, nodes: nat, f: Faults): Turn {
    var full := Faults(nodes > NODE_LIMIT, false);
    match t
    case BraceOpen => Turn(stack + [Frame(true, 0, {})], nodes, f.Or(full).Or(Faults(|stack| + 1 > DEPTH_LIMIT, false)))
    case BracketOpen => Turn(stack + [Frame(false, 0, {})], nodes, f.Or(full).Or(Faults(|stack| + 1 > DEPTH_LIMIT, false)))
    case StrToken(_) => Turn(stack, nodes, f.Or(full))
    case NumToken(_) => Turn(stack, nodes, f.Or(full))
    case TrueToken => Turn(stack, nodes, f.Or(full))
    case FalseToken => Turn(stack, nodes, f.Or(full))
    case NullToken => Turn(stack, nodes, f.Or(full))
    case _ => Reject
  }

  /** The machine's verdict on the tokens still to come. */
  function Machine(stack: seq<Frame>, ts: seq<Token>, nodes: nat, f: Faults): Option<Faults>
    decreases |ts|
  {
    if stack == [] then (if ts == [] then Some(f) else None)
    else if ts == [] then None
    else
      match Advance(stack, ts[0], nodes, f)
      case Reject => None
      case Turn(stack', nodes', f') => Machine(stack', ts[1..], nodes', f')
  }

  // ---- The machine as written ----

  method Grammar(tokens: seq<Token>, f0: Faults) returns (r: Option<Faults>)
    ensures r == if tokens == [] || tokens[0] != BraceOpen then None
                 else Machine([Frame(true, 0, {})], tokens[1..], 1, f0)
  {
    if |tokens| == 0 || tokens[0] != BraceOpen {
      return None;
    }
    var stack, nodes, i, f := [Frame(true, 0, {})], 1, 1, f0;
    while |stack| > 0
      invariant 1 <= i <= |tokens|
      invariant Machine(stack, tokens[i..], nodes, f) == Machine([Frame(true, 0, {})], tokens[1..], 1, f0)
      decreases |tokens| - i
    {
      if i >= |tokens| {
        return None;
      }
      ghost var ts := tokens[i..];
      assert ts[0] == tokens[i] && ts[1..] == tokens[i + 1..];
      var turn := GrammarTurn(stack, tokens[i], nodes, f);
      if turn.Reject? {
        return None;
      }
      stack, nodes, f := turn.stack, turn.nodes, turn.faults;
      i := i + 1;
    }
    return if i == |tokens| then Some(f) else None;
  }

  method GrammarTurn(stack: seq<Frame>, t: Token, nodes: nat, f0: Faults) returns (r: Turn)
    requires stack != []
    ensures r == Advance(stack, t, nodes, f0)
  {
    var f := f0;
    var top := stack[|stack| - 1];
    var below := stack[..|stack| - 1];
    if top.state == 0 || top.state == 4 {
      if top.isObject {
        if t == BraceClose && top.state == 0 {
          return Turn(below, nodes, f);
        }
        if !t.StrToken? {
          return Reject;
        }
        if t.text in top.names {
          f := f.(schema := true);
        }
        return Turn(below + [Frame(true, 1, top.names + {t.text})], nodes, f);
      }
      if t == BracketClose && top.state == 0 {
        return Turn(below, nodes, f);
      }
    } else if top.state == 1 {
      if t != Colon {
        return Reject;
      }
      return Turn(below + [top.(state := 2)], nodes, f);
    } else if top.state == 3 {
      if (top.isObject && t == BraceClose) || (!top.isObject && t == BracketClose) {
        return Turn(below, nodes, f);
      }
      if t != Comma {
        return Reject;
      }
      return Turn(below + [top.(state := 4)], nodes, f);
    }
    var grown := below + [top.(state := 3)];
    if t == BraceOpen || t == BracketOpen {
      grown := grown + [Frame(t == BraceOpen, 0, {})];
      if |grown| > DEPTH_LIMIT {
        f := f.(bounds := true);
      }
    } else if !(t.StrToken? || t.NumToken? || t == TrueToken || t == FalseToken || t == NullToken) {
      return Reject;
    }
    if nodes + 1 > NODE_LIMIT {
      f := f.(bounds := true);
    }
    return Turn(grown, nodes + 1, f);
  }

  // ---- The machine is the recursive descent ----

  /** A frame that takes a value next: an object after a colon, an array where no bracket closes it. */
  predicate ValueDue(stack: seq<Frame>, ts: seq<Token>) {
    && stack != []
    && var top := Top(stack);
       if top.isObject then top.state == 2
       else top.state == 4 || (top.state == 0 && ts != [] && ts[0] != BracketClose)
  }

  predicate MemberDue(stack: seq<Frame>, ts: seq<Token>) {
    && stack != []
    && var top := Top(stack);
       top.isObject && (top.state == 4 || (top.state == 0 && ts != [] && ts[0] != BraceClose))
  }

  /** Object keys of the list met before, or met twice, or repeated inside a member's value. */
  predicate Repeats(ms: seq<Member>, names: set<bytes>) {
    ms != [] && (ms[0].key in names || !Distinct(ms[0].value) || Repeats(ms[1..], names + {ms[0].key}))
  }

  predicate ElemsRepeat(es: seq<Value>) {
    es != [] && (!Distinct(es[0]) || ElemsRepeat(es[1..]))
  }

  function ValueFaults(v: Value, depth: nat, nodes: nat): Faults {
    Faults((Nesting(v) > 0 && depth + Nesting(v) > DEPTH_LIMIT) || nodes + Count(v) > NODE_LIMIT, !Distinct(v))
  }

  function ElemsFaults(es: seq<Value>, depth: nat, nodes: nat): Faults {
    Faults((ElemsNesting(es) > 0 && depth + ElemsNesting(es) > DEPTH_LIMIT) || (es != [] && nodes + ElemsCount(es) > NODE_LIMIT),
           ElemsRepeat(es))
  }

  function MembersFaults(ms: seq<Member>, depth: nat, nodes: nat, names: set<bytes>): Faults {
    Faults((MembersNesting(ms) > 0 && depth + MembersNesting(ms) > DEPTH_LIMIT) || (ms != [] && nodes + MembersCount(ms) > NODE_LIMIT),
           Repeats(ms, names))
  }

  /** With a value due, the machine takes what the recursive descent takes and goes on after it. */
  lemma {:induction false} MachineValue(stack: seq<Frame>, ts: seq<Token>, nodes: nat, f: Faults)
    requires ValueDue(stack, ts)
    ensures Machine(stack, ts, nodes, f) ==
            match Take(ts)
            case NoTree => None
            case Tree(v, rest) =>
              Machine(SetTop(stack, Top(stack).(state := 3)), rest, nodes + Count(v), f.Or(ValueFaults(v, |stack|, nodes)))
    decreases |ts|, 1
  {
    if ts != [] {
      var s3 := SetTop(stack, Top(stack).(state := 3));
      match ts[0]
      case BraceOpen => MachineObject(stack, ts, nodes, f, s3);
      case BracketOpen => MachineArray(stack, ts, nodes, f, s3);
      case _ =>
    }
  }

  /** An opening token pushes a frame and counts one value. */
  lemma MachineOpen(stack: seq<Frame>, ts: seq<Token>, nodes: nat, f: Faults)
    requires ValueDue(stack, ts) && ts != [] && (ts[0] == BraceOpen || ts[0] == BracketOpen)
    ensures Machine(stack, ts, nodes, f) ==
            Machine(Opened(stack, ts[0] == BraceOpen), ts[1..], nodes + 1, f.Or(OpenFaults(|stack|, nodes)))
  {
    var s3 := SetTop(stack, Top(stack).(state := 3));
    assert Advance(stack, ts[0], nodes, f) == TakeValue(s3, ts[0], nodes + 1, f);
  }

  lemma MachineStarved(stack: seq<Frame>, nodes: nat, f: Faults)
    requires stack != []
    ensures Machine(stack, [], nodes, f) == None
  {
  }

  /** A container closed as soon as it was opened. */
  lemma MachineEmpty(stack: seq<Frame>, ts: seq<Token>, nodes: nat, f: Faults)
    requires stack != [] && Top(stack).state == 0 && ts != []
    requires ts[0] == if Top(stack).isObject then BraceClose else BracketClose
    ensures Machine(stack, ts, nodes, f) == Machine(Pop(stack), ts[1..], nodes, f)
  {
    assert Advance(stack, ts[0], nodes, f) == Turn(Pop(stack), nodes, f);
  }

  /** After a value only the closing token or a comma goes on. */
  lemma MachineSeparator(s3: seq<Frame>, ts: seq<Token>, nodes: nat, f: Faults)
    requires s3 != [] && Top(s3).state == 3
    ensures Machine(s3, ts, nodes, f) ==
            if ts == [] then None
            else if ts[0] == (if Top(s3).isObject then BraceClose else BracketClose) then Machine(Pop(s3), ts[1..], nodes, f)
            else if ts[0] == Comma then Machine(SetTop(s3, Top(s3).(state := 4)), ts[1..], nodes, f)
            else None
  {
  }

  lemma OrAssociates(f: Faults, g: Faults, h: Faults)
    ensures f.Or(g).Or(h) == f.Or(g.Or(h))
  {
  }

  function Opened(stack: seq<Frame>, isObject: bool): seq<Frame>
    requires stack != []
  {
    SetTop(stack, Top(stack).(state := 3)) + [Frame(isObject, 0, {})]
  }

  function OpenFaults(depth: nat, nodes: nat): Faults {
    Faults(nodes + 1 > NODE_LIMIT || depth + 1 > DEPTH_LIMIT, false)
  }

  lemma {:induction false} MachineObject(stack: seq<Frame>, ts: seq<Token>, nodes: nat, f: Faults, s3: seq<Frame>)
    requires ValueDue(stack, ts) && ts != [] && ts[0] == BraceOpen && s3 == SetTop(stack, Top(stack).(state := 3))
    ensures Machine(stack, ts, nodes, f) ==
            match Take(ts)
            case NoTree => None
            case Tree(v, rest) => Machine(s3, rest, nodes + Count(v), f.Or(ValueFaults(v, |stack|, nodes)))
    decreases |ts|, 0
  {
    hide Machine, ValueFaults;
    var inner, f1 := Opened(stack, true), f.Or(OpenFaults(|stack|, nodes));
    MachineOpen(stack, ts, nodes, f);
    assert Pop(inner) == s3;
    if |ts| == 1 {
      assert ts[1..] == [];
      MachineStarved(inner, nodes + 1, f1);
    } else if ts[1] == BraceClose {
      MachineEmpty(inner, ts[1..], nodes + 1, f1);
      ObjectFaults([], |stack|, nodes);
      assert Take(ts).Tree?;
    } else {
      MachineMembers(inner, ts[1..], nodes + 1, f1);
      if TakeMembers(ts[1..]).Tree? {
        ObjectFaults(TakeMembers(ts[1..]).value, |stack|, nodes);
        OrAssociates(f, OpenFaults(|stack|, nodes), MembersFaults(TakeMembers(ts[1..]).value, |stack| + 1, nodes + 1, {}));
      }
    }
  }

  lemma ObjectFaults(ms: seq<Member>, depth: nat, nodes: nat)
    ensures OpenFaults(depth, nodes).Or(MembersFaults(ms, depth + 1, nodes + 1, {})) == ValueFaults(Obj(ms), depth, nodes)
  {
    RepeatsDistinct(ms, {});
    var a := OpenFaults(depth, nodes).Or(MembersFaults(ms, depth + 1, nodes + 1, {}));
    var b := ValueFaults(Obj(ms), depth, nodes);
    assert Distinct(Obj(ms)) == (UniqueKeys(ms) && forall m :: m in ms ==> Distinct(m.value));
    assert a.schema == b.schema;
    assert Nesting(Obj(ms)) == 1 + MembersNesting(ms) && Count(Obj(ms)) == 1 + MembersCount(ms);
    assert a.bounds == b.bounds;
  }

  lemma ArrayFaults(es: seq<Value>, depth: nat, nodes: nat)
    ensures OpenFaults(depth, nodes).Or(ElemsFaults(es, depth + 1, nodes + 1)) == ValueFaults(Arr(es), depth, nodes)
  {
    ElemsRepeatDistinct(es);
    var a := OpenFaults(depth, nodes).Or(ElemsFaults(es, depth + 1, nodes + 1));
    var b := ValueFaults(Arr(es), depth, nodes);
    assert Distinct(Arr(es)) == forall e :: e in es ==> Distinct(e);
    assert a.schema == b.schema;
    assert Nesting(Arr(es)) == 1 + ElemsNesting(es) && Count(Arr(es)) == 1 + ElemsCount(es);
    assert a.bounds == b.bounds;
  }

  lemma {:induction false} MachineArray(stack: seq<Frame>, ts: seq<Token>, nodes: nat, f: Faults, s3: seq<Frame>)
    requires ValueDue(stack, ts) && ts != [] && ts[0] == BracketOpen && s3 == SetTop(stack, Top(stack).(state := 3))
    ensures Machine(stack, ts, nodes, f) ==
            match Take(ts)
            case NoTree => None
            case Tree(v, rest) => Machine(s3, rest, nodes + Count(v), f.Or(ValueFaults(v, |stack|, nodes)))
    decreases |ts|, 0
  {
    hide Machine, ValueFaults;
    var inner, f1 := Opened(stack, false), f.Or(OpenFaults(|stack|, nodes));
    MachineOpen(stack, ts, nodes, f);
    assert Pop(inner) == s3;
    if |ts| == 1 {
      assert ts[1..] == [];
      MachineStarved(inner, nodes + 1, f1);
    } else if ts[1] == BracketClose {
      MachineEmpty(inner, ts[1..], nodes + 1, f1);
      ArrayFaults([], |stack|, nodes);
      assert Take(ts).Tree?;
    } else {
      MachineElems(inner, ts[1..], nodes + 1, f1);
      if TakeElems(ts[1..]).Tree? {
        ArrayFaults(TakeElems(ts[1..]).value, |stack|, nodes);
        OrAssociates(f, OpenFaults(|stack|, nodes), ElemsFaults(TakeElems(ts[1..]).value, |stack| + 1, nodes + 1));
      }
    }
  }

  lemma {:induction false} MachineElems(stack: seq<Frame>, ts: seq<Token>, nodes: nat, f: Faults)
    requires ValueDue(stack, ts) && !Top(stack).isObject
    ensures Machine(stack, ts, nodes, f) ==
            match TakeElems(ts)
            case NoTree => None
            case Tree(es, rest) =>
              Machine(Pop(stack), rest, nodes + ElemsCount(es), f.Or(ElemsFaults(es, |stack|, nodes)))
    decreases |ts|, 2
  {
    NoElemsTaken(ts);
    hide Machine, TakeElems, Take, ElemsFaults, ValueFaults, ElemsCount, Count;
    MachineValue(stack, ts, nodes, f);
    if Take(ts).Tree? {
      var Tree(v, r1) := Take(ts);
      var s3 := SetTop(stack, Top(stack).(state := 3));
      assert Pop(s3) == Pop(stack);
      MachineMoreElems(s3, r1, nodes + Count(v), f.Or(ValueFaults(v, |stack|, nodes)));
      TakenElems(ts, v, r1, |stack|, nodes, f);
    }
  }

  lemma NoElemsTaken(ts: seq<Token>)
    ensures Take(ts).NoTree? ==> TakeElems(ts) == NoTree
  {
  }

  /** What the recursive descent makes of a first element, and the faults it accounts for. */
  lemma TakenElems(ts: seq<Token>, v: Value, r1: seq<Token>, depth: nat, nodes: nat, f: Faults)
    requires Take(ts) == Tree(v, r1)
    ensures r1 != [] && r1[0] == BracketClose ==>
              && TakeElems(ts) == Tree([v], r1[1..]) && ElemsCount([v]) == Count(v)
              && f.Or(ElemsFaults([v], depth, nodes)) == f.Or(ValueFaults(v, depth, nodes))
    ensures r1 != [] && r1[0] == Comma && TakeElems(r1[1..]).Tree? ==>
              var Tree(es, rest) := TakeElems(r1[1..]);
              && TakeElems(ts) == Tree([v] + es, rest) && ElemsCount([v] + es) == Count(v) + ElemsCount(es)
              && f.Or(ElemsFaults([v] + es, depth, nodes)) ==
                 f.Or(ValueFaults(v, depth, nodes)).Or(ElemsFaults(es, depth, nodes + Count(v)))
    ensures r1 == [] || (r1[0] != BracketClose && r1[0] != Comma) || (r1[0] == Comma && TakeElems(r1[1..]).NoTree?) ==>
              TakeElems(ts) == NoTree
  {
    hide Take;
    if r1 != [] && r1[0] == BracketClose {
      ElemsFaultsOne(v, depth, nodes);
    } else if r1 != [] && r1[0] == Comma && TakeElems(r1[1..]).Tree? {
      ElemsFaultsCons(v, TakeElems(r1[1..]).value, depth, nodes, f);
    }
  }

  /** After an element: the end of the array, or a comma and the elements that follow. */
  lemma {:induction false} MachineMoreElems(s3: seq<Frame>, r1: seq<Token>, nodes: nat, f: Faults)
    requires s3 != [] && !Top(s3).isObject && Top(s3).state == 3
    ensures Machine(s3, r1, nodes, f) ==
            if r1 == [] then None
            else if r1[0] == BracketClose then Machine(Pop(s3), r1[1..], nodes, f)
            else if r1[0] != Comma then None
            else
              match TakeElems(r1[1..])
              case NoTree => None
              case Tree(es, rest) =>
                Machine(Pop(s3), rest, nodes + ElemsCount(es), f.Or(ElemsFaults(es, |s3|, nodes)))
    decreases |r1|, 3
  {
    hide Machine, MembersFaults, ElemsFaults, Take, TakeMembers, TakeElems;
    MachineSeparator(s3, r1, nodes, f);
    if r1 != [] && r1[0] == Comma {
      var s4 := SetTop(s3, Top(s3).(state := 4));
      assert Pop(s4) == Pop(s3);
      MachineElems(s4, r1[1..], nodes, f);
    }
  }

  lemma ElemsFaultsOne(v: Value, depth: nat, nodes: nat)
    ensures ElemsFaults([v], depth, nodes) == ValueFaults(v, depth, nodes) && ElemsCount([v]) == Count(v)
  {
    assert [v][1..] == [];
    assert !ElemsRepeat([]) && ElemsNesting([]) == 0 && ElemsCount([]) == 0;
    assert ElemsNesting([v]) == Nesting(v) && ElemsCount([v]) == Count(v);
    var a, b := ElemsFaults([v], depth, nodes), ValueFaults(v, depth, nodes);
    assert a.schema == b.schema && a.bounds == b.bounds;
  }

  lemma ElemsFaultsCons(v: Value, es: seq<Value>, depth: nat, nodes: nat, f: Faults)
    ensures ElemsCount([v] + es) == Count(v) + ElemsCount(es)
    ensures f.Or(ElemsFaults([v] + es, depth, nodes)) ==
            f.Or(ValueFaults(v, depth, nodes)).Or(ElemsFaults(es, depth, nodes + Count(v)))
  {
    assert ([v] + es)[1..] == es;
    var a, b := ElemsFaults([v] + es, depth, nodes), ValueFaults(v, depth, nodes).Or(ElemsFaults(es, depth, nodes + Count(v)));
    assert a.schema == b.schema && a.bounds == b.bounds;
  }

  lemma {:induction false} MachineMembers(stack: seq<Frame>, ts: seq<Token>, nodes: nat, f: Faults)
    requires MemberDue(stack, ts)
    ensures Machine(stack, ts, nodes, f) ==
            match TakeMembers(ts)
            case NoTree => None
            case Tree(ms, rest) =>
              Machine(Pop(stack), rest, nodes + MembersCount(ms), f.Or(MembersFaults(ms, |stack|, nodes, Top(stack).names)))
    decreases |ts|, 2
  {
    NoMembersTaken(ts);
    hide Machine, TakeMembers, Take, MembersFaults, ValueFaults, MembersCount, Count;
    MachineKey(stack, ts, nodes, f);
    if |ts| >= 2 && ts[0].StrToken? && ts[1] == Colon {
      var key, names := ts[0].text, Top(stack).names;
      var s2 := SetTop(stack, Frame(true, 2, names + {key}));
      var f2 := f.Or(Faults(false, key in names));
      MachineValue(s2, ts[2..], nodes, f2);
      if Take(ts[2..]).Tree? {
        var Tree(v, r1) := Take(ts[2..]);
        var s3 := SetTop(s2, Frame(true, 3, names + {key}));
        assert Pop(s3) == Pop(stack);
        var f3 := f2.Or(ValueFaults(v, |stack|, nodes));
        MachineMore(s3, r1, nodes + Count(v), f3);
        TakenMembers(ts, Member(key, v), r1, |stack|, nodes, names, f);
      }
    }
  }

  lemma NoMembersTaken(ts: seq<Token>)
    ensures |ts| < 2 || !ts[0].StrToken? || ts[1] != Colon || Take(ts[2..]).NoTree? ==> TakeMembers(ts) == NoTree
  {
  }

  /** A key and its colon bring the frame to the value. */
  lemma MachineKey(stack: seq<Frame>, ts: seq<Token>, nodes: nat, f: Faults)
    requires MemberDue(stack, ts)
    ensures Machine(stack, ts, nodes, f) ==
            if |ts| < 2 || !ts[0].StrToken? || ts[1] != Colon then None
            else
              Machine(SetTop(stack, Frame(true, 2, Top(stack).names + {ts[0].text})), ts[2..], nodes,
                      f.Or(Faults(false, ts[0].text in Top(stack).names)))
  {
    if ts != [] && ts[0].StrToken? {
      var names := Top(stack).names + {ts[0].text};
      var s1 := SetTop(stack, Frame(true, 1, names));
      var f1 := f.Or(Faults(false, ts[0].text in Top(stack).names));
      assert Advance(stack, ts[0], nodes, f) == Turn(s1, nodes, f1);
      if |ts| >= 2 && ts[1] == Colon {
        assert SetTop(s1, Frame(true, 2, names)) == SetTop(stack, Frame(true, 2, names));
        assert Advance(s1, ts[1], nodes, f1) == Turn(SetTop(stack, Frame(true, 2, names)), nodes, f1);
        assert ts[1..][1..] == ts[2..];
      }
    }
  }

  /** After a member: the end of the object, or a comma and the members that follow. */
  lemma {:induction false} MachineMore(s3: seq<Frame>, r1: seq<Token>, nodes: nat, f: Faults)
    requires s3 != [] && Top(s3).isObject && Top(s3).state == 3
    ensures Machine(s3, r1, nodes, f) ==
            if r1 == [] then None
            else if r1[0] == BraceClose then Machine(Pop(s3), r1[1..], nodes, f)
            else if r1[0] != Comma then None
            else
              match TakeMembers(r1[1..])
              case NoTree => None
              case Tree(ms, rest) =>
                Machine(Pop(s3), rest, nodes + MembersCount(ms), f.Or(MembersFaults(ms, |s3|, nodes, Top(s3).names)))
    decreases |r1|, 3
  {
    hide Machine, MembersFaults, ElemsFaults, Take, TakeMembers, TakeElems;
    MachineSeparator(s3, r1, nodes, f);
    if r1 != [] && r1[0] == Comma {
      var s4 := SetTop(s3, Top(s3).(state := 4));
      assert Pop(s4) == Pop(s3);
      MachineMembers(s4, r1[1..], nodes, f);
    }
  }

  /** What the recursive descent makes of a first member, and the faults it accounts for. */
  lemma TakenMembers(ts: seq<Token>, m: Member, r1: seq<Token>, depth: nat, nodes: nat, names: set<bytes>, f: Faults)
    requires |ts| >= 2 && ts[0] == StrToken(m.key) && ts[1] == Colon && Take(ts[2..]) == Tree(m.value, r1)
    ensures r1 != [] && r1[0] == BraceClose ==>
              && TakeMembers(ts) == Tree([m], r1[1..]) && MembersCount([m]) == Count(m.value)
              && f.Or(MembersFaults([m], depth, nodes, names)) ==
                 f.Or(Faults(false, m.key in names)).Or(ValueFaults(m.value, depth, nodes))
    ensures r1 != [] && r1[0] == Comma && TakeMembers(r1[1..]).Tree? ==>
              var Tree(ms, rest) := TakeMembers(r1[1..]);
              && TakeMembers(ts) == Tree([m] + ms, rest) && MembersCount([m] + ms) == Count(m.value) + MembersCount(ms)
              && f.Or(MembersFaults([m] + ms, depth, nodes, names)) ==
                 f.Or(Faults(false, m.key in names)).Or(ValueFaults(m.value, depth, nodes))
                   .Or(MembersFaults(ms, depth, nodes + Count(m.value), names + {m.key}))
    ensures r1 == [] || (r1[0] != BraceClose && r1[0] != Comma) || (r1[0] == Comma && TakeMembers(r1[1..]).NoTree?) ==>
              TakeMembers(ts) == NoTree
  {
    hide Take;
    if r1 != [] && r1[0] == BraceClose {
      MembersFaultsOne(m, depth, nodes, names);
    } else if r1 != [] && r1[0] == Comma && TakeMembers(r1[1..]).Tree? {
      MembersFaultsCons(m, TakeMembers(r1[1..]).value, depth, nodes, names);
    }
  }

  lemma MembersFaultsOne(m: Member, depth: nat, nodes: nat, names: set<bytes>)
    ensures MembersCount([m]) == Count(m.value)
    ensures MembersFaults([m], depth, nodes, names) == Faults(false, m.key in names).Or(ValueFaults(m.value, depth, nodes))
  {
    assert [m][1..] == [];
    assert !Repeats([], names + {m.key}) && MembersNesting([]) == 0 && MembersCount([]) == 0;
    assert MembersNesting([m]) == Nesting(m.value) && MembersCount([m]) == Count(m.value);
    var a, b := MembersFaults([m], depth, nodes, names), Faults(false, m.key in names).Or(ValueFaults(m.value, depth, nodes));
    assert a.schema == b.schema && a.bounds == b.bounds;
  }

  lemma MembersFaultsCons(m: Member, ms: seq<Member>, depth: nat, nodes: nat, names: set<bytes>)
    ensures MembersCount([m] + ms) == Count(m.value) + MembersCount(ms)
    ensures MembersFaults([m] + ms, depth, nodes, names) ==
            Faults(false, m.key in names).Or(ValueFaults(m.value, depth, nodes))
              .Or(MembersFaults(ms, depth, nodes + Count(m.value), names + {m.key}))
  {
    assert ([m] + ms)[1..] == ms;
    var a := MembersFaults([m] + ms, depth, nodes, names);
    var b := Faults(false, m.key in names).Or(ValueFaults(m.value, depth, nodes))
               .Or(MembersFaults(ms, depth, nodes + Count(m.value), names + {m.key}));
    assert a.schema == b.schema && a.bounds == b.bounds;
  }

  lemma {:induction false} RepeatsDistinct(ms: seq<Member>, names: set<bytes>)
    ensures !Repeats(ms, names) <==>
            UniqueKeys(ms) && (forall m :: m in ms ==> Distinct(m.value) && m.key !in names)
  {
    if ms != [] {
      RepeatsDistinct(ms[1..], names + {ms[0].key});
      assert forall m :: m in ms <==> m == ms[0] || m in ms[1..];
      if UniqueKeys(ms) {
        assert forall m :: m in ms[1..] ==> m.key != ms[0].key;
      }
      if UniqueKeys(ms[1..]) && forall m :: m in ms[1..] ==> m.key != ms[0].key {
        assert forall i :: 1 <= i < |ms| ==> ms[i] in ms[1..];
      }
    }
  }

  lemma {:induction false} ElemsRepeatDistinct(es: seq<Value>)
    ensures !ElemsRepeat(es) <==> forall e :: e in es ==> Distinct(e)
  {
    if es == [] {
      assert !ElemsRepeat(es);
    } else {
      ElemsRepeatDistinct(es[1..]);
      assert ElemsRepeat(es) == (!Distinct(es[0]) || ElemsRepeat(es[1..]));
      assert forall e :: e in es <==> e == es[0] || e in es[1..];
    }
  }

  /** The verdict of the whole machine: a token list is accepted exactly when it is the flattening of
      one object tree, and the faults it adds are exactly that tree's. */
  lemma GrammarExact(tokens: seq<Token>, f: Faults)
    requires tokens != [] && tokens[0] == BraceOpen
    ensures Machine([Frame(true, 0, {})], tokens[1..], 1, f) ==
            match Take(tokens)
            case NoTree => None
            case Tree(v, rest) =>
              if rest != [] then None else Some(f.Or(Faults(!Within(v), !Distinct(v))))
  {
    if |tokens| > 1 {
      if tokens[1] == BraceClose {
        GrammarEmpty(tokens, f);
      } else {
        GrammarMembers(tokens, f);
      }
    }
  }

  lemma GrammarEmpty(tokens: seq<Token>, f: Faults)
    requires |tokens| > 1 && tokens[0] == BraceOpen && tokens[1] == BraceClose
    ensures Take(tokens) == Tree(Obj([]), tokens[2..])
    ensures Machine([Frame(true, 0, {})], tokens[1..], 1, f) ==
            if tokens[2..] != [] then None else Some(f.Or(Faults(!Within(Obj([])), !Distinct(Obj([])))))
  {
    var stack := [Frame(true, 0, {})];
    assert Pop(stack) == [];
    assert Advance(stack, tokens[1], 1, f) == Turn([], 1, f);
    assert tokens[1..][1..] == tokens[2..];
  }

  lemma GrammarMembers(tokens: seq<Token>, f: Faults)
    requires |tokens| > 1 && tokens[0] == BraceOpen && tokens[1] != BraceClose
    ensures Machine([Frame(true, 0, {})], tokens[1..], 1, f) ==
            match Take(tokens)
            case NoTree => None
            case Tree(v, rest) =>
              if rest != [] then None else Some(f.Or(Faults(!Within(v), !Distinct(v))))
  {
    var stack := [Frame(true, 0, {})];
    assert Pop(stack) == [];
    MachineMembers(stack, tokens[1..], 1, f);
    if TakeMembers(tokens[1..]).Tree? {
      RootFaults(TakeMembers(tokens[1..]).value);
      RootDone(TakeMembers(tokens[1..]).rest, 1 + MembersCount(TakeMembers(tokens[1..]).value),
               f.Or(MembersFaults(TakeMembers(tokens[1..]).value, 1, 1, {})));
    }
    hide Machine, MembersFaults, Within, Distinct, TakeMembers, MembersCount;
  }

  lemma RootDone(rest: seq<Token>, nodes: nat, f: Faults)
    ensures Machine([], rest, nodes, f) == if rest != [] then None else Some(f)
  {
  }

  lemma RootFaults(ms: seq<Member>)
    ensures MembersFaults(ms, 1, 1, {}) == Faults(!Within(Obj(ms)), !Distinct(Obj(ms)))
  {
    RepeatsDistinct(ms, {});
    assert ms == [] ==> MembersCount(ms) == 0 && MembersNesting(ms) == 0;
    assert Count(Obj(ms)) == 1 + MembersCount(ms) && Nesting(Obj(ms)) == 1 + MembersNesting(ms);
  }

  /** The same in terms of flattening alone. */
  lemma AcceptsExactlyTrees(tokens: seq<Token>, f: Faults)
    requires tokens != [] && tokens[0] == BraceOpen
    ensures Machine([Frame(true, 0, {})], tokens[1..], 1, f).Some? <==> exists v: Value :: v.Obj? && tokens == Flatten(v)
    ensures forall v :: tokens == Flatten(v) ==>
              Machine([Frame(true, 0, {})], tokens[1..], 1, f) == Some(f.Or(Faults(!Within(v), !Distinct(v))))
  {
    GrammarExact(tokens, f);
    if Take(tokens).Tree? && Take(tokens).rest == [] {
      FlattenTake(tokens);
      var v := Take(tokens).value;
      assert tokens == Flatten(v) + [] == Flatten(v);
    }
    forall v | tokens == Flatten(v)
      ensures Take(tokens) == Tree(v, [])
    {
      TakeFlatten(v, []);
      assert Flatten(v) + [] == tokens;
    }
  }

  // ---- The tree builder ----

  /** Runs on accepted tokens only, and so indexes without checks; `v` is the tree they flatten. */
  method BuildValue(tokens: seq<Token>, i: nat, ghost v: Value, ghost rest: seq<Token>) returns (m: Meaning, j: nat)
    requires i <= |tokens| && tokens[i..] == Flatten(v) + rest && Distinct(v)
    ensures m == Means(v)
    ensures i < j <= |tokens| && tokens[j..] == rest
    decreases v, 0
  {
    assert tokens[i] == Flatten(v)[0];
    var t := tokens[i];
    if t == BraceOpen {
      assert tokens[i + 1..] == FlattenMembers(v.members) + [BraceClose] + rest;
      m, j := BuildObject(tokens, i + 1, v.members, rest);
    } else if t == BracketOpen {
      assert tokens[i + 1..] == FlattenElems(v.elems) + [BracketClose] + rest;
      m, j := BuildArray(tokens, i + 1, v.elems, rest);
    } else {
      m := if t.StrToken? then TextMeaning(t.text)
           else if t.NumToken? then IntMeaning(t.n)
           else if t == TrueToken then BoolMeaning(true)
           else if t == FalseToken then BoolMeaning(false)
           else NullMeaning;
      j := i + 1;
    }
  }

  method BuildObject(tokens: seq<Token>, i: nat, ghost ms: seq<Member>, ghost rest: seq<Token>) returns (m: Meaning, j: nat)
    requires i <= |tokens| && tokens[i..] == FlattenMembers(ms) + [BraceClose] + rest
    requires UniqueKeys(ms) && forall x :: x in ms ==> Distinct(x.value)
    ensures m == MapMeaning(MeansMap(ms))
    ensures i < j <= |tokens| && tokens[j..] == rest
    decreases ms, 2
  {
    var o: map<bytes, Meaning> := map[];
    j := i;
    ghost var k := 0;
    assert MeansMap([]) == map[];
    hide FlattenMembers, MeansMap;
    assert ms[0..] == ms && ms[..0] == [];
    MembersHead(ms, rest);
    assert tokens[j] == tokens[j..][0];
    while tokens[j] != BraceClose
      invariant i <= j < |tokens| && k <= |ms|
      invariant tokens[j..] == FlattenMembers(ms[k..]) + [BraceClose] + rest
      invariant tokens[j] == BraceClose <==> k == |ms|
      invariant o == MeansMap(ms[..k])
      decreases |ms| - k
    {
      var key, field, next := BuildMember(tokens, j, ms[k..], rest);
      MembersPrefix(ms, k);
      assert ms[k..][1..] == ms[k + 1..];
      MembersHead(ms[k + 1..], rest);
      assert tokens[next] == tokens[next..][0];
      o, j, k := o[key := field], next, k + 1;
    }
    assert ms[..|ms|] == ms;
    assert tokens[j..][1..] == tokens[j + 1..] == rest;
    return MapMeaning(o), j + 1;
  }

  lemma MembersPrefix(ms: seq<Member>, k: nat)
    requires k < |ms| && UniqueKeys(ms)
    ensures MeansMap(ms[..k + 1]) == MeansMap(ms[..k])[ms[k].key := Means(ms[k].value)]
  {
    assert ms[..k + 1] == ms[..k] + [ms[k]];
    MeansMapSnoc(ms[..k], ms[k]);
  }

  /** One turn of the object loop: key, colon, value, and the comma if one follows. */
  method BuildMember(tokens: seq<Token>, i: nat, ghost ms: seq<Member>, ghost rest: seq<Token>)
    returns (key: bytes, field: Meaning, j: nat)
    requires ms != [] && i < |tokens| && tokens[i..] == FlattenMembers(ms) + [BraceClose] + rest
    requires forall x :: x in ms ==> Distinct(x.value)
    ensures key == ms[0].key && field == Means(ms[0].value)
    ensures i < j < |tokens| && tokens[j..] == FlattenMembers(ms[1..]) + [BraceClose] + rest
    decreases ms, 1
  {
    ghost var tail := SplitMembers(ms, rest);
    assert tokens[i] == tokens[i..][0] && tokens[i + 2..] == tokens[i..][2..];
    key := tokens[i].text;
    field, j := BuildValue(tokens, i + 2, ms[0].value, tail);
    assert tokens[j] == tokens[j..][0] && tokens[j..][1..] == tokens[j + 1..];
    if tokens[j] == Comma {
      j := j + 1;
    }
  }

  method BuildArray(tokens: seq<Token>, i: nat, ghost es: seq<Value>, ghost rest: seq<Token>) returns (m: Meaning, j: nat)
    requires i <= |tokens| && tokens[i..] == FlattenElems(es) + [BracketClose] + rest
    requires forall x :: x in es ==> Distinct(x)
    ensures m == ListMeaning(MeansAll(es))
    ensures i < j <= |tokens| && tokens[j..] == rest
    decreases es, 2
  {
    var a: seq<Meaning> := [];
    j := i;
    ghost var k := 0;
    assert es[0..] == es && es[..0] == [];
    ElemsHead(es, rest);
    while tokens[j] != BracketClose
      invariant i <= j < |tokens| && k <= |es|
      invariant tokens[j..] == FlattenElems(es[k..]) + [BracketClose] + rest
      invariant tokens[j] == BracketClose <==> k == |es|
      invariant a == MeansAll(es[..k])
      decreases |es| - k
    {
      var elem, next := BuildElem(tokens, j, es[k..], rest);
      MeansAllSnoc(es[..k], es[k]);
      assert es[..k + 1] == es[..k] + [es[k]] && es[k..][1..] == es[k + 1..];
      ElemsHead(es[k + 1..], rest);
      a, j, k := a + [elem], next, k + 1;
    }
    assert es[..|es|] == es;
    assert tokens[j..][1..] == tokens[j + 1..] == rest;
    return ListMeaning(a), j + 1;
  }

  method BuildElem(tokens: seq<Token>, i: nat, ghost es: seq<Value>, ghost rest: seq<Token>) returns (elem: Meaning, j: nat)
    requires es != [] && i < |tokens| && tokens[i..] == FlattenElems(es) + [BracketClose] + rest
    requires forall x :: x in es ==> Distinct(x)
    ensures elem == Means(es[0])
    ensures i < j < |tokens| && tokens[j..] == FlattenElems(es[1..]) + [BracketClose] + rest
    decreases es, 1
  {
    ghost var tail := SplitElems(es, rest);
    elem, j := BuildValue(tokens, i, es[0], tail);
    assert tokens[j] == tokens[j..][0] && tokens[j..][1..] == tokens[j + 1..];
    if tokens[j] == Comma {
      j := j + 1;
    }
  }

  lemma MembersHead(ms: seq<Member>, rest: seq<Token>)
    ensures var ts := FlattenMembers(ms) + [BraceClose] + rest;
            ts[0] == if ms == [] then BraceClose else StrToken(ms[0].key)
  {
  }

  lemma ElemsHead(es: seq<Value>, rest: seq<Token>)
    ensures var ts := FlattenElems(es) + [BracketClose] + rest;
            if es == [] then ts[0] == BracketClose else ts[0] == Flatten(es[0])[0] != BracketClose
  {
    if es != [] {
      FlattenHead(es[0]);
    }
  }

  /** The first member's tokens, and what comes after them. */
  lemma SplitMembers(ms: seq<Member>, rest: seq<Token>) returns (tail: seq<Token>)
    requires ms != []
    ensures var ts := FlattenMembers(ms) + [BraceClose] + rest;
            ts[0] == StrToken(ms[0].key) && ts[2..] == Flatten(ms[0].value) + tail
    ensures tail != [] && if tail[0] == Comma then tail[1..] == FlattenMembers(ms[1..]) + [BraceClose] + rest
                          else tail == FlattenMembers(ms[1..]) + [BraceClose] + rest
  {
    var more := FlattenMoreMembers(ms[1..]);
    tail := more + [BraceClose] + rest;
    Associate(FlattenMember(ms[0]), more, [BraceClose], rest);
    MembersTokens(ms[0], tail);
    if |ms| > 1 {
      MoreMembers(ms[1..], rest);
    }
  }

  lemma SplitElems(es: seq<Value>, rest: seq<Token>) returns (tail: seq<Token>)
    requires es != []
    ensures FlattenElems(es) + [BracketClose] + rest == Flatten(es[0]) + tail
    ensures tail != [] && if tail[0] == Comma then tail[1..] == FlattenElems(es[1..]) + [BracketClose] + rest
                          else tail == FlattenElems(es[1..]) + [BracketClose] + rest
  {
    var more := FlattenMoreElems(es[1..]);
    tail := more + [BracketClose] + rest;
    Associate(Flatten(es[0]), more, [BracketClose], rest);
    if |es| > 1 {
      MoreElems(es[1..], rest);
    }
  }

  lemma {:induction false} MeansMapSnoc(ms: seq<Member>, m: Member)
    requires UniqueKeys(ms + [m])
    ensures MeansMap(ms + [m]) == MeansMap(ms)[m.key := Means(m.value)]
  {
    if ms == [] {
      assert ([] + [m])[1..] == [];
    } else {
      assert (ms + [m])[1..] == ms[1..] + [m];
      assert (ms + [m])[0] == ms[0] && (ms + [m])[|ms|] == m;
      MeansMapSnoc(ms[1..], m);
    }
  }

  lemma {:induction false} MeansAllSnoc(es: seq<Value>, e: Value)
    ensures MeansAll(es + [e]) == MeansAll(es) + [Means(e)]
  {
    if es != [] {
      assert (es + [e])[1..] == es[1..] + [e];
      MeansAllSnoc(es[1..], e);
    }
  }
}
