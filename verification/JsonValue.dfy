/** The value tree of the strict JSON reader (fragment/json.go) and what its readers admit. */
module JsonValue {
  import opened Bytes
  import Utf8

  datatype Member = Member(key: bytes, value: Value)

  /** Objects keep their members in source order. */
  datatype Value =
    | Null
    | Bool(flag: bool)
    | Int(n: int)
    | Str(text: bytes)
    | Arr(elems: seq<Value>)
    | Obj(members: seq<Member>)

  /** 2^53-1 */
  const MAX_SAFE_INT: int := 9007199254740991

  const MAX_DEPTH: nat := 64

  predicate UniqueKeys(ms: seq<Member>) {
    forall i, j :: 0 <= i < j < |ms| ==> ms[i].key != ms[j].key
  }

  function Keys(ms: seq<Member>): set<bytes> {
    set m | m in ms :: m.key
  }

  /** Unique keys at every level, valid UTF-8 in every string, every integer within the safe range. */
  predicate Strict(v: Value) {
    match v
    case Null => true
    case Bool(_) => true
    case Int(n) => -MAX_SAFE_INT <= n <= MAX_SAFE_INT
    case Str(t) => Utf8.Valid(t)
    case Arr(es) => StrictElems(es)
    case Obj(ms) => StrictMembers(ms) && UniqueKeys(ms)
  }

  predicate StrictElems(es: seq<Value>) {
    forall e :: e in es ==> Strict(e)
  }

  predicate StrictMembers(ms: seq<Member>) {
    forall m :: m in ms ==> Utf8.Valid(m.key) && Strict(m.value)
  }

  /** A scalar has height 1; a container is one higher than its highest child. */
  function Height(v: Value): (h: nat)
    ensures h >= 1
  {
    match v
    case Arr(es) => 1 + ElemsHeight(es)
    case Obj(ms) => 1 + MembersHeight(ms)
    case _ => 1
  }

  function ElemsHeight(es: seq<Value>): nat {
    if es == [] then 0 else Max(Height(es[0]), ElemsHeight(es[1..]))
  }

  function MembersHeight(ms: seq<Member>): nat {
    if ms == [] then 0 else Max(Height(ms[0].value), MembersHeight(ms[1..]))
  }

  function Max(a: nat, b: nat): nat { if a < b then b else a }

  /** What the reader can produce: see `JsonCanonical.ReaderRange`. */
  predicate Admissible(v: Value) {
    Strict(v) && Height(v) <= MAX_DEPTH
  }
}
