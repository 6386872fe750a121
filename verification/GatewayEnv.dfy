/**
 The environment of a launch under the filtering gateway: composition
 (internal/composition/composition.go), the gateway's patch and final check
 (internal/network/gateway.go), and the inherited names it removes
 (internal/network/settings_guard.go).  The end-to-end question is whether what the
 composition builds always passes the gateway's own last check.
 */
module GatewayEnv {
  import opened Bytes
  import opened Text

  type Env = map<string, string>

  /** What the tables of names say; `fold` is how two names compare without case. */
  datatype Catalog = Catalog(refused: string -> bool, proxy: string -> bool, fold: string -> string, fixed: seq<string>)

  datatype Pair = Pair(name: string, value: string)

  datatype Patch = Patch(unset: seq<string>, pairs: seq<Pair>)

  const BASE_URL: string := "ANTHROPIC_BASE_URL"
  const HEADERS: string := "ANTHROPIC_CUSTOM_HEADERS"
  const TRAFFIC: string := "CLAUDE_CODE_DISABLE_NONESSENTIAL_TRAFFIC"

  /** The pairs the registration owns. */
  function Owned(base: string, header: string): Env {
    map[BASE_URL := base, HEADERS := header, TRAFFIC := "1"]
  }

  // ---- Environment lists ----

  /** Later entries win; what has no equals sign is dropped. */
  function EnvMap(values: seq<string>): Env {
    if values == [] then map[]
    else Put(EnvMap(values[..|values| - 1]), values[|values| - 1])
  }

  function Put(m: Env, entry: string): Env {
    var (name, value) := Cut(entry);
    if value.Some? then m[name := value.value] else m
  }

  predicate Named(m: Env) {
    forall n :: n in m ==> EQ !in n
  }

  lemma {:induction false} EnvMapNamed(values: seq<string>)
    ensures Named(EnvMap(values))
    decreases |values|
  {
    if values != [] {
      EnvMapNamed(values[..|values| - 1]);
      CutParts(values[|values| - 1]);
    }
  }

  lemma EnvMapAppend(values: seq<string>, entry: string)
    ensures EnvMap(values + [entry]) == Put(EnvMap(values), entry)
  {
    assert (values + [entry])[..|values|] == values;
  }

  method BuildEnvMap(values: seq<string>) returns (out: Env)
    ensures out == EnvMap(values) && Named(out)
  {
    out := map[];
    for i := 0 to |values|
      invariant out == EnvMap(values[..i])
    {
      assert values[..i + 1] == values[..i] + [values[i]];
      EnvMapAppend(values[..i], values[i]);
      var (name, value) := Cut(values[i]);
      if value.Some? {
        out := out[name := value.value];
      }
    }
    assert values[..|values|] == values;
    EnvMapNamed(values);
  }

  predicate Holds(m: Env, entry: string) {
    var (name, value) := Cut(entry);
    value.Some? && name in m && m[name] == value.value
  }

  /** The list holds each pair of the map once, in some order. */
  predicate Lists(list: seq<string>, m: Env) {
    && (forall e :: e in list ==> Holds(m, e))
    && (forall i, j :: 0 <= i < j < |list| ==> Cut(list[i]).0 != Cut(list[j]).0)
    && EnvMap(list) == m
  }

  /** Any order of the names: the source ranges over a map, or sorts. */
  method ListEnv(m: Env) returns (list: seq<string>)
    requires Named(m)
    ensures Lists(list, m)
  {
    list := [];
    var left := m.Keys;
    ghost var done: Env := map[];
    while left != {}
      invariant left <= m.Keys && done.Keys == m.Keys - left && forall n :: n in done ==> done[n] == m[n]
      invariant Lists(list, done)
      decreases |left|
    {
      var n :| n in left;
      ListsAppend(list, done, n, m[n]);
      list := list + [Join(n, m[n])];
      done := done[n := m[n]];
      left := left - {n};
    }
    assert done == m;
  }

  lemma ListsAppend(list: seq<string>, m: Env, n: string, v: string)
    requires Lists(list, m) && n !in m && EQ !in n
    ensures Lists(list + [Join(n, v)], m[n := v])
  {
    CutJoin(n, v);
    EnvMapAppend(list, Join(n, v));
    hide Cut;
    forall e | e in list
      ensures Holds(m[n := v], e) && Cut(e).0 != n
    {
      assert Holds(m, e);
    }
    assert forall e :: e in list + [Join(n, v)] <==> e in list || e == Join(n, v);
  }

  // ---- The patch ----

  /** Unset names match without case, set names exactly. */
  predicate Removes(c: Catalog, p: Patch, name: string) {
    || (exists u :: u in p.unset && c.fold(u) == c.fold(name))
    || (exists s :: s in p.pairs && s.name == name)
  }

  /** The library's Apply, as its contract states it: removal, then the set pairs. */
  function Apply(c: Catalog, p: Patch, values: seq<string>): seq<string> {
    Kept(c, p, values) + SetEntries(p.pairs)
  }

  function Kept(c: Catalog, p: Patch, values: seq<string>): seq<string> {
    if values == [] then []
    else
      var last := values[|values| - 1];
      Kept(c, p, values[..|values| - 1]) + (if Removes(c, p, Cut(last).0) then [] else [last])
  }

  function SetEntries(pairs: seq<Pair>): seq<string> {
    if pairs == [] then []
    else SetEntries(pairs[..|pairs| - 1]) + [Join(pairs[|pairs| - 1].name, pairs[|pairs| - 1].value)]
  }

  function SetAll(m: Env, pairs: seq<Pair>): Env {
    if pairs == [] then m
    else SetAll(m, pairs[..|pairs| - 1])[pairs[|pairs| - 1].name := pairs[|pairs| - 1].value]
  }

  function Left(c: Catalog, p: Patch, m: Env): Env {
    map n | n in m && !Removes(c, p, n) :: m[n]
  }

  function Patched(c: Catalog, p: Patch, m: Env): Env {
    SetAll(Left(c, p, m), p.pairs)
  }

  lemma LeftPut(c: Catalog, p: Patch, m: Env, entry: string)
    ensures Left(c, p, Put(m, entry)) == if Removes(c, p, Cut(entry).0) then Left(c, p, m) else Put(Left(c, p, m), entry)
  {
    hide Cut, Removes;
  }

  /** Removing entries from the list removes names from the map. */
  lemma {:induction false} KeptMap(c: Catalog, p: Patch, values: seq<string>)
    ensures EnvMap(Kept(c, p, values)) == Left(c, p, EnvMap(values))
    decreases |values|
  {
    if values != [] {
      hide Cut, Removes, Left, Put;
      var init, last := values[..|values| - 1], values[|values| - 1];
      KeptMap(c, p, init);
      LeftPut(c, p, EnvMap(init), last);
      EnvMapAppend(Kept(c, p, init), last);
      assert Kept(c, p, init) + [] == Kept(c, p, init);
    } else {
      assert Left(c, p, map[]) == map[];
    }
  }

  lemma {:induction false} SetMap(values: seq<string>, pairs: seq<Pair>)
    requires forall s :: s in pairs ==> EQ !in s.name
    ensures EnvMap(values + SetEntries(pairs)) == SetAll(EnvMap(values), pairs)
    decreases |pairs|
  {
    if pairs == [] {
      assert values + [] == values;
    } else {
      var init, last := pairs[..|pairs| - 1], pairs[|pairs| - 1];
      SetMap(values, init);
      assert values + SetEntries(pairs) == (values + SetEntries(init)) + [Join(last.name, last.value)];
      EnvMapAppend(values + SetEntries(init), Join(last.name, last.value));
      CutJoin(last.name, last.value);
    }
  }

  /** Through a list in any order and back: the patch acts on the map name by name. */
  method ApplyToMap(c: Catalog, p: Patch, m: Env) returns (out: Env)
    requires Named(m) && forall s :: s in p.pairs ==> EQ !in s.name
    ensures out == Patched(c, p, m) && Named(out)
  {
    var entries := ListEnv(m);
    out := BuildEnvMap(Apply(c, p, entries));
    KeptMap(c, p, entries);
    SetMap(Kept(c, p, entries), p.pairs);
  }

  // ---- Composition ----

  /** What a launch brings: the plan's environment and arguments, the names it owns, two overlays and the lookups;
      `muse` says that the fragment is for that environment, which has a policy of its own. */
  datatype Launch = Launch(
    planEnv: seq<string>, ownEnv: seq<string>, frag: Env, prompt: Env, lookups: seq<string>,
    planArgv: seq<string>, promptArgv: seq<string>, native: seq<string>, muse: bool)

  /** `overridden` and `replaced` are the names warned about: an own name an overlay sets, a lookup a literal answers. */
  datatype Value = Value(
    env: seq<string>, literals: Env, names: seq<string>, argv: seq<string>, overridden: set<string>, replaced: set<string>)

  type MusePolicy = (Launch, Patch) -> bool

  /** The names in order, each once, that no literal covers. */
  function Uncovered(names: seq<string>, literals: Env): (r: seq<string>)
    ensures forall n :: n in r <==> n in names && n !in literals
  {
    if names == [] then []
    else
      var init, last := Uncovered(names[..|names| - 1], literals), names[|names| - 1];
      if last in literals || last in init then init else init + [last]
  }

  function Covered(names: seq<string>, literals: Env): set<string> {
    set n | n in names && n in literals
  }

  function Overlaid(own: seq<string>, l: Launch): Env {
    EnvMap(own) + l.frag + l.prompt
  }

  predicate NamesProxy(c: Catalog, l: Launch) {
    || (exists n :: n in l.frag && c.proxy(n))
    || (exists n :: n in l.prompt && c.proxy(n))
    || (exists n :: n in l.lookups && c.proxy(n))
  }

  predicate Empty(p: Patch) {
    p.unset == [] && p.pairs == []
  }

  lemma PutOver(m: Env, done: Env, n: string, v: string)
    ensures (m + done)[n := v] == m + done[n := v]
  {
  }

  lemma OverNothing(m: Env)
    ensures m + map[] == m
  {
  }

  /** Which part of the layer is done. */
  ghost predicate Part(done: Env, layer: Env, left: set<string>) {
    left <= layer.Keys && done.Keys == layer.Keys - left && forall n :: n in done ==> done[n] == layer[n]
  }

  lemma PartMore(done: Env, layer: Env, left: set<string>, n: string)
    requires Part(done, layer, left) && n in left
    ensures n in layer && Part(done[n := layer[n]], layer, left - {n})
  {
  }

  lemma PartAll(done: Env, layer: Env)
    requires Part(done, layer, {})
    ensures done == layer
  {
  }

  function Also(overridden: set<string>, own: Env, n: string): set<string> {
    if n in own then overridden + {n} else overridden
  }

  lemma AlsoMore(before: set<string>, own: Env, done: Env, n: string, v: string)
    ensures Also(before + own.Keys * done.Keys, own, n) == before + own.Keys * done[n := v].Keys
  {
  }

  /** Name by name over the layer, into both maps. */
  method OverlayMaps(own: Env, env0: Env, literals0: Env, overridden0: set<string>, layer: Env)
    returns (env: Env, literals: Env, overridden: set<string>)
    ensures env == env0 + layer && literals == literals0 + layer && overridden == overridden0 + (own.Keys * layer.Keys)
  {
    env, literals, overridden := env0, literals0, overridden0;
    var left := layer.Keys;
    ghost var done: Env := map[];
    OverNothing(env);
    OverNothing(literals);
    assert Part(done, layer, left) && overridden == overridden0 + own.Keys * done.Keys;
    hide Part, Also;
    while left != {}
      invariant Part(done, layer, left)
      invariant env == env0 + done && literals == literals0 + done
      invariant overridden == overridden0 + own.Keys * done.Keys
      decreases |left|
    {
      var n :| n in left;
      PartMore(done, layer, left, n);
      PutOver(env0, done, n, layer[n]);
      PutOver(literals0, done, n, layer[n]);
      AlsoMore(overridden0, own, done, n, layer[n]);
      overridden := Also(overridden, own, n);
      env, literals := env[n := layer[n]], literals[n := layer[n]];
      done := done[n := layer[n]];
      left := left - {n};
    }
    PartAll(done, layer);
  }

  class Composition {
    const own: Env
    var env: Env
    var literals: Env
    var names: seq<string>
    var overridden: set<string>
    var replaced: set<string>

    constructor (planEnv: Env, ownEnv: Env)
      ensures own == ownEnv && env == planEnv && literals == ownEnv && names == [] && overridden == {} && replaced == {}
    {
      own, env, literals, names, overridden, replaced := ownEnv, planEnv, ownEnv, [], {}, {};
    }

    method Overlay(layer: Env)
      modifies this
      ensures env == old(env) + layer && literals == old(literals) + layer
      ensures names == old(names) && replaced == old(replaced)
      ensures overridden == old(overridden) + (own.Keys * layer.Keys)
    {
      env, literals, overridden := OverlayMaps(own, env, literals, overridden, layer);
    }

    method Lookups(lookups: seq<string>)
      requires names == []
      modifies this`names, this`replaced
      ensures names == Uncovered(lookups, literals)
      ensures replaced == old(replaced) + Covered(lookups, literals)
    {
      for i := 0 to |lookups|
        invariant names == Uncovered(lookups[..i], literals)
        invariant replaced == old(replaced) + Covered(lookups[..i], literals)
      {
        assert lookups[..i + 1][..i] == lookups[..i] && lookups[..i + 1] == lookups[..i] + [lookups[i]];
        if lookups[i] in literals {
          replaced := replaced + {lookups[i]};
        } else if lookups[i] !in names {
          names := names + [lookups[i]];
        }
      }
      assert lookups[..|lookups|] == lookups;
    }

    /** Patches both maps, then drops the lookups a patch literal now answers. */
    method ApplyNetworkPatch(c: Catalog, p: Patch)
      requires Named(env) && Named(literals) && forall s :: s in p.pairs ==> EQ !in s.name
      modifies this
      ensures env == Patched(c, p, old(env)) && literals == Patched(c, p, old(literals)) && Named(env)
      ensures names == Uncovered(old(names), literals) && overridden == old(overridden)
      ensures replaced == old(replaced) + Covered(old(names), literals)
    {
      env := ApplyToMap(c, p, env);
      literals := ApplyToMap(c, p, literals);
      var all := names;
      names := [];
      Lookups(all);
    }
  }

  /** What the composition returns: overlays, then the patch if there is one, and the names each step warned about. */
  ghost predicate Composed(c: Catalog, l: Launch, p: Patch, v: Value) {
    && v.literals == (if Empty(p) then Overlaid(l.ownEnv, l) else Patched(c, p, Overlaid(l.ownEnv, l)))
    && Lists(v.env, if Empty(p) then Overlaid(l.planEnv, l) else Patched(c, p, Overlaid(l.planEnv, l)))
    && (forall n :: n in v.names <==> n in l.lookups && n !in Overlaid(l.ownEnv, l) && n !in v.literals)
    && v.argv == l.planArgv + l.promptArgv + l.native
    && v.overridden == EnvMap(l.ownEnv).Keys * (l.frag.Keys + l.prompt.Keys)
    && v.replaced == set n | n in l.lookups && (n in Overlaid(l.ownEnv, l) || n in v.literals)
  }

  /** Both maps with the overlays, and the lookups no literal answers so far. */
  method ComposeOverlays(l: Launch) returns (v: Composition)
    requires Named(l.frag) && Named(l.prompt)
    ensures fresh(v) && v.own == EnvMap(l.ownEnv)
    ensures v.env == Overlaid(l.planEnv, l) && v.literals == Overlaid(l.ownEnv, l) && Named(v.env) && Named(v.literals)
    ensures v.names == Uncovered(l.lookups, v.literals) && v.replaced == Covered(l.lookups, v.literals)
    ensures v.overridden == EnvMap(l.ownEnv).Keys * (l.frag.Keys + l.prompt.Keys)
  {
    hide EnvMap, Uncovered, Covered;
    var own := BuildEnvMap(l.ownEnv);
    var plan := BuildEnvMap(l.planEnv);
    v := new Composition(plan, own);
    v.Overlay(l.frag);
    v.Overlay(l.prompt);
    Warned(own, l.frag.Keys, l.prompt.Keys);
    v.Lookups(l.lookups);
  }

  method ComposeWithNetwork(c: Catalog, museAllows: MusePolicy, l: Launch, p: Patch) returns (r: Option<Value>)
    requires Named(l.frag) && Named(l.prompt) && forall s :: s in p.pairs ==> EQ !in s.name
    ensures r.None? <==> (!Empty(p) && NamesProxy(c, l)) || (l.muse && !museAllows(l, p))
    ensures r.Some? ==> Composed(c, l, p, r.value)
  {
    hide Patched, EnvMap, Uncovered, Covered, NamesProxy, Lists, Named, Overlaid;
    if !Empty(p) && NamesProxy(c, l) {
      return None;
    }
    if l.muse && !museAllows(l, p) {
      return None;
    }
    var v := ComposeOverlays(l);
    ghost var literals := v.literals;
    if !Empty(p) {
      v.ApplyNetworkPatch(c, p);
    }
    TwoRounds(l.lookups, literals, v.literals);
    var list := ListEnv(v.env);
    return Some(Value(list, v.literals, v.names, l.planArgv + l.promptArgv + l.native, v.overridden, v.replaced));
  }

  lemma TwoRounds(lookups: seq<string>, before: Env, after: Env)
    ensures Covered(lookups, before) + Covered(Uncovered(lookups, before), after)
         == set n | n in lookups && (n in before || n in after)
    ensures before == after ==> Covered(lookups, before) == set n | n in lookups && (n in before || n in after)
  {
  }

  lemma Warned(own: Env, a: set<string>, b: set<string>)
    ensures {} + (own.Keys * a) + (own.Keys * b) == own.Keys * (a + b)
  {
  }

  /** No name that is unset but for case survives in what a launch is given, unless the patch sets it; and of the pairs
      for one name the last counts. */
  lemma NothingUnsetSurvives(c: Catalog, l: Launch, p: Patch, v: Value, n: string)
    requires Composed(c, l, p, v) && !Empty(p)
    ensures n in v.literals || n in EnvMap(v.env) ==>
              || (exists s :: s in p.pairs && s.name == n)
              || (forall u :: u in p.unset ==> c.fold(u) != c.fold(n))
    ensures forall i :: 0 <= i < |p.pairs| && p.pairs[i].name == n && (forall j :: i < j < |p.pairs| ==> p.pairs[j].name != n) ==>
              && n in v.literals && v.literals[n] == p.pairs[i].value
              && n in EnvMap(v.env) && EnvMap(v.env)[n] == p.pairs[i].value
  {
    SetLast(Left(c, p, Overlaid(l.planEnv, l)), p.pairs, n);
    SetLast(Left(c, p, Overlaid(l.ownEnv, l)), p.pairs, n);
  }

  lemma {:induction false} SetLast(m: Env, pairs: seq<Pair>, n: string)
    ensures n in SetAll(m, pairs) <==> n in m || exists s :: s in pairs && s.name == n
    ensures forall i :: 0 <= i < |pairs| && pairs[i].name == n && (forall j :: i < j < |pairs| ==> pairs[j].name != n) ==>
              n in SetAll(m, pairs) && SetAll(m, pairs)[n] == pairs[i].value
    decreases |pairs|
  {
    if pairs != [] {
      var init, last := pairs[..|pairs| - 1], pairs[|pairs| - 1];
      SetLast(m, init, n);
      assert forall s :: s in pairs <==> s in init || s == last;
      forall i | 0 <= i < |pairs| && pairs[i].name == n && (forall j :: i < j < |pairs| ==> pairs[j].name != n)
        ensures n in SetAll(m, pairs) && SetAll(m, pairs)[n] == pairs[i].value
      {
        if i < |init| {
          assert pairs[|init|].name != n;
          assert init[i] == pairs[i] && forall j :: i < j < |init| ==> init[j] == pairs[j];
        }
      }
    }
  }

  // ---- The gateway's patch and its last check ----

  /** The refused names an environment list sets. */
  predicate Inherits(c: Catalog, values: seq<string>, name: string) {
    c.refused(name) && exists e :: e in values && Cut(e).0 == name && Cut(e).1.Some?
  }

  method InheritedRouteNames(c: Catalog, values: seq<string>) returns (out: seq<string>)
    ensures forall n :: n in out <==> Inherits(c, values, n)
    ensures forall i, j :: 0 <= i < j < |out| ==> out[i] != out[j]
  {
    out := [];
    var seen: set<string> := {};
    for i := 0 to |values|
      invariant seen == set n | n in out
      invariant forall n :: n in out <==> Inherits(c, values[..i], n)
      invariant forall j, k :: 0 <= j < k < |out| ==> out[j] != out[k]
    {
      assert values[..i + 1] == values[..i] + [values[i]];
      assert forall e :: e in values[..i + 1] <==> e in values[..i] || e == values[i];
      var (name, value) := Cut(values[i]);
      if value.Some? && name !in seen && c.refused(name) {
        seen := seen + {name};
        out := out + [name];
      }
    }
    assert values[..|values|] == values;
  }

  function GatewayPatch(c: Catalog, base: string, header: string, inherited: seq<string>): Patch {
    Patch(c.fixed + inherited, [Pair(BASE_URL, base), Pair(HEADERS, header), Pair(TRAFFIC, "1")])
  }

  predicate Fits(c: Catalog, owned: Env, name: string, value: string) {
    if name in owned then value == owned[name] else !c.refused(name)
  }

  predicate EntriesFit(c: Catalog, owned: Env, list: seq<string>) {
    && (forall e :: e in list ==> Cut(e).1.Some? && Fits(c, owned, Cut(e).0, Cut(e).1.value))
    && (forall i, j :: 0 <= i < j < |list| && Cut(list[i]).0 == Cut(list[j]).0 ==> Cut(list[i]).0 !in owned)
  }

  predicate LiteralsFit(c: Catalog, owned: Env, literals: Env) {
    forall n :: n in literals ==> Fits(c, owned, n, literals[n])
  }

  function OwnedSeen(owned: Env, list: seq<string>): set<string> {
    set e | e in list && Cut(e).0 in owned :: Cut(e).0
  }

  /** The admitted contract: each owned pair once and unchanged, in the list and among the literals; nothing else refused. */
  predicate Admitted(c: Catalog, owned: Env, v: Value) {
    && EntriesFit(c, owned, v.env)
    && LiteralsFit(c, owned, v.literals)
    && (forall n :: n in v.names ==> !c.refused(n))
    && (forall n :: n in owned ==> n in OwnedSeen(owned, v.env) && n in v.literals && v.literals[n] == owned[n])
  }

  method CheckComposed(c: Catalog, owned: Env, v: Value) returns (ok: bool)
    ensures ok <==> Admitted(c, owned, v)
  {
    var fits, seen := CheckEntries(c, owned, v.env);
    if !fits {
      return false;
    }
    var left := v.literals.Keys;
    while left != {}
      invariant left <= v.literals.Keys
      invariant forall n :: n in v.literals && n !in left ==> Fits(c, owned, n, v.literals[n])
      decreases |left|
    {
      var n :| n in left;
      if !Fits(c, owned, n, v.literals[n]) {
        return false;
      }
      left := left - {n};
    }
    for i := 0 to |v.names|
      invariant forall n :: n in v.names[..i] ==> !c.refused(n)
    {
      assert v.names[..i + 1] == v.names[..i] + [v.names[i]];
      if c.refused(v.names[i]) {
        return false;
      }
    }
    assert v.names[..|v.names|] == v.names;
    ok := AllOwned(owned, seen, v.literals);
  }

  method CheckEntries(c: Catalog, owned: Env, list: seq<string>) returns (ok: bool, seen: set<string>)
    ensures ok <==> EntriesFit(c, owned, list)
    ensures ok ==> seen == OwnedSeen(owned, list)
  {
    seen := {};
    for i := 0 to |list|
      invariant EntriesFit(c, owned, list[..i])
      invariant seen == OwnedSeen(owned, list[..i])
    {
      var (name, value) := Cut(list[i]);
      assert list[i] in list;
      EntriesGrow(c, owned, list, i);
      if value.None? {
        return false, seen;
      }
      if name in owned {
        if name in seen || value.value != owned[name] {
          return false, seen;
        }
        seen := seen + {name};
      } else if c.refused(name) {
        return false, seen;
      }
    }
    assert list[..|list|] == list;
    return true, seen;
  }

  /** One more entry fits when it fits by itself and repeats no owned name. */
  lemma EntriesGrow(c: Catalog, owned: Env, list: seq<string>, i: nat)
    requires i < |list| && EntriesFit(c, owned, list[..i])
    ensures var (name, value) := Cut(list[i]);
            && (EntriesFit(c, owned, list[..i + 1]) <==>
                  value.Some? && Fits(c, owned, name, value.value) && name !in OwnedSeen(owned, list[..i]))
            && (!EntriesFit(c, owned, list[..i + 1]) ==> !EntriesFit(c, owned, list))
            && OwnedSeen(owned, list[..i + 1]) == OwnedSeen(owned, list[..i]) + (if name in owned then {name} else {})
  {
    var (name, value) := Cut(list[i]);
    var before := list[..i];
    hide Cut, Fits;
    assert list[..i + 1] == before + [list[i]];
    assert forall e :: e in list[..i + 1] <==> e in before || e == list[i];
    assert forall e :: e in list[..i + 1] ==> e in list;
    if name in OwnedSeen(owned, before) {
      var e :| e in before && Cut(e).0 == name;
      var j :| 0 <= j < i && before[j] == e;
      assert list[..i + 1][j] == e && list[..i + 1][i] == list[i];
      assert list[j] == e;
    }
    assert forall j :: 0 <= j < i ==> before[j] in before;
  }

  method AllOwned(owned: Env, seen: set<string>, literals: Env) returns (ok: bool)
    ensures ok <==> forall n :: n in owned ==> n in seen && n in literals && literals[n] == owned[n]
  {
    var names := owned.Keys;
    while names != {}
      invariant names <= owned.Keys
      invariant forall n :: n in owned && n !in names ==> n in seen && n in literals && literals[n] == owned[n]
      decreases |names|
    {
      var n :| n in names;
      if n !in seen || n !in literals || literals[n] != owned[n] {
        return false;
      }
      names := names - {n};
    }
    return true;
  }

  // ---- From the early refusal to the last check ----

  /** What the gateway refuses before it registers: a refused name in an overlay or a lookup. */
  predicate EarlyPasses(c: Catalog, l: Launch) {
    && (forall n :: n in l.frag ==> !c.refused(n))
    && (forall n :: n in l.prompt ==> !c.refused(n))
    && (forall n :: n in l.lookups ==> !c.refused(n))
  }

  lemma {:induction false} EnvMapSource(values: seq<string>, n: string)
    requires n in EnvMap(values)
    ensures exists e :: e in values && Cut(e).0 == n && Cut(e).1.Some?
    decreases |values|
  {
    var init, last := values[..|values| - 1], values[|values| - 1];
    if Cut(last).0 == n && Cut(last).1.Some? {
      assert last in values;
    } else {
      EnvMapSource(init, n);
      var e :| e in init && Cut(e).0 == n && Cut(e).1.Some?;
      assert e in values;
    }
  }

  /** The patch leaves what it does not remove and sets the owned pairs. */
  lemma GatewayPatched(c: Catalog, base: string, header: string, inherited: seq<string>, m: Env, n: string)
    ensures var p := GatewayPatch(c, base, header, inherited);
            var owned := Owned(base, header);
            && (n in Patched(c, p, m) <==> n in owned || (n in m && !Removes(c, p, n)))
            && (n in owned ==> Patched(c, p, m)[n] == owned[n] && Removes(c, p, n))
            && (n in m && !Removes(c, p, n) ==> Patched(c, p, m)[n] == m[n])
  {
    var p := GatewayPatch(c, base, header, inherited);
    var kept := Left(c, p, m);
    SetThree(kept, p.pairs[0], p.pairs[1], p.pairs[2]);
    assert p.pairs == [p.pairs[0], p.pairs[1], p.pairs[2]];
    DifferentNames();
    assert p.pairs[0].name == BASE_URL && p.pairs[1].name == HEADERS && p.pairs[2].name == TRAFFIC;
    assert forall s :: s in p.pairs ==> s.name == BASE_URL || s.name == HEADERS || s.name == TRAFFIC;
    assert n in Owned(base, header) <==> n == BASE_URL || n == HEADERS || n == TRAFFIC;
  }

  lemma DifferentNames()
    ensures BASE_URL != HEADERS && HEADERS != TRAFFIC && BASE_URL != TRAFFIC
  {
    assert |BASE_URL| == 18 && |HEADERS| == 24 && |TRAFFIC| == 40;
  }

  lemma SetThree(m: Env, x: Pair, y: Pair, z: Pair)
    ensures SetAll(m, [x, y, z]) == m[x.name := x.value][y.name := y.value][z.name := z.value]
  {
    assert [x][..0] == [] && [x, y][..1] == [x] && [x, y, z][..2] == [x, y];
    assert SetAll(m, [x]) == m[x.name := x.value];
    assert SetAll(m, [x, y]) == m[x.name := x.value][y.name := y.value];
  }

  /** The composed list fits: an inherited refused name is unset by its own name. */
  lemma ListFits(c: Catalog, l: Launch, base: string, header: string, inherited: seq<string>, v: Value)
    requires EarlyPasses(c, l) && Composed(c, l, GatewayPatch(c, base, header, inherited), v)
    requires forall n :: Inherits(c, l.planEnv, n) ==> n in inherited
    ensures EntriesFit(c, Owned(base, header), v.env)
    ensures forall n :: n in Owned(base, header) ==> n in OwnedSeen(Owned(base, header), v.env)
  {
    var p, owned := GatewayPatch(c, base, header, inherited), Owned(base, header);
    var m := Overlaid(l.planEnv, l);
    assert !Empty(p);
    hide Cut, GatewayPatch, Patched;
    forall n | n in Patched(c, p, m)
      ensures Fits(c, owned, n, Patched(c, p, m)[n])
    {
      GatewayPatched(c, base, header, inherited, m, n);
      if n !in owned && c.refused(n) {
        EnvMapSource(l.planEnv, n);
        InheritedIsUnset(c, base, header, inherited, n);
        assert false;
      }
    }
    assert forall e :: e in v.env ==> Holds(Patched(c, p, m), e);
    forall n | n in owned
      ensures n in OwnedSeen(owned, v.env)
    {
      GatewayPatched(c, base, header, inherited, m, n);
      EnvMapSource(v.env, n);
    }
  }

  lemma InheritedIsUnset(c: Catalog, base: string, header: string, inherited: seq<string>, n: string)
    requires n in inherited
    ensures Removes(c, GatewayPatch(c, base, header, inherited), n)
  {
    assert n in GatewayPatch(c, base, header, inherited).unset;
  }

  /** The composed launch is admitted exactly when the patch removes every refused name the launch calls its own. */
  lemma AdmittedExactly(c: Catalog, l: Launch, base: string, header: string, inherited: seq<string>, v: Value)
    requires EarlyPasses(c, l) && Composed(c, l, GatewayPatch(c, base, header, inherited), v)
    requires forall n :: Inherits(c, l.planEnv, n) ==> n in inherited
    ensures Admitted(c, Owned(base, header), v) <==>
              forall n :: n in EnvMap(l.ownEnv) && c.refused(n) ==> Removes(c, GatewayPatch(c, base, header, inherited), n)
  {
    var p, owned := GatewayPatch(c, base, header, inherited), Owned(base, header);
    var m := Overlaid(l.ownEnv, l);
    ListFits(c, l, base, header, inherited, v);
    assert !Empty(p);
    hide GatewayPatch, Patched, EntriesFit, OwnedSeen;
    forall n: string
      ensures n in owned ==> n in v.literals && v.literals[n] == owned[n]
      ensures (n in v.literals && !Fits(c, owned, n, v.literals[n])) <==> n in EnvMap(l.ownEnv) && c.refused(n) && !Removes(c, p, n)
    {
      GatewayPatched(c, base, header, inherited, m, n);
    }
    assert LiteralsFit(c, owned, v.literals) <==> forall n :: n in EnvMap(l.ownEnv) && c.refused(n) ==> Removes(c, p, n);
  }

  /** Owned names taken from the environments the gateway looked at are always covered. */
  lemma OwnNamesAreCovered(c: Catalog, l: Launch, base: string, header: string, parentEnv: seq<string>, inherited: seq<string>, v: Value)
    requires EarlyPasses(c, l) && Composed(c, l, GatewayPatch(c, base, header, inherited), v)
    requires forall n :: n in inherited <==> Inherits(c, parentEnv + l.planEnv, n)
    requires forall n :: n in EnvMap(l.ownEnv) ==> n in EnvMap(parentEnv) || n in EnvMap(l.planEnv)
    ensures Admitted(c, Owned(base, header), v)
  {
    forall n | Inherits(c, l.planEnv, n)
      ensures n in inherited
    {
      assert forall e :: e in l.planEnv ==> e in parentEnv + l.planEnv;
    }
    AdmittedExactly(c, l, base, header, inherited, v);
    forall n | n in EnvMap(l.ownEnv) && c.refused(n)
      ensures Removes(c, GatewayPatch(c, base, header, inherited), n)
    {
      if n in EnvMap(parentEnv) {
        EnvMapSource(parentEnv, n);
      } else {
        EnvMapSource(l.planEnv, n);
      }
      assert Inherits(c, parentEnv + l.planEnv, n);
      InheritedIsUnset(c, base, header, inherited, n);
    }
  }

  lemma PatchNamed(c: Catalog, base: string, header: string, inherited: seq<string>)
    ensures forall s :: s in GatewayPatch(c, base, header, inherited).pairs ==> EQ !in s.name
    ensures !Empty(GatewayPatch(c, base, header, inherited))
  {
    NoEquals(BASE_URL);
    NoEquals(HEADERS);
    NoEquals(TRAFFIC);
    var p := GatewayPatch(c, base, header, inherited);
    assert forall s :: s in p.pairs ==> s == p.pairs[0] || s == p.pairs[1] || s == p.pairs[2];
  }

  lemma NoEquals(name: string)
    requires name in {BASE_URL, HEADERS, TRAFFIC}
    ensures EQ !in name
  {
    if name == BASE_URL {
      assert forall i :: 0 <= i < |BASE_URL| ==> BASE_URL[i] != EQ;
    } else if name == HEADERS {
      assert forall i :: 0 <= i < |HEADERS| ==> HEADERS[i] != EQ;
    } else {
      assert forall i :: 0 <= i < |TRAFFIC| ==> TRAFFIC[i] != EQ;
    }
  }

  lemma NoProxy(c: Catalog, l: Launch)
    requires EarlyPasses(c, l) && forall n :: c.proxy(n) ==> c.refused(n)
    ensures !NamesProxy(c, l)
  {
  }

  /** From a passed early refusal to the last check composition refuses nothing and the check passes; the gateway
      supports no Muse launch. */
  method Run(c: Catalog, museAllows: MusePolicy, l: Launch, base: string, header: string, parentEnv: seq<string>)
    returns (admitted: bool, v: Option<Value>)
    requires Named(l.frag) && Named(l.prompt) && EarlyPasses(c, l) && !l.muse
    requires forall n :: c.proxy(n) ==> c.refused(n)
    requires forall n :: n in EnvMap(l.ownEnv) ==> n in EnvMap(parentEnv) || n in EnvMap(l.planEnv)
    ensures admitted && v.Some?
    ensures Admitted(c, Owned(base, header), v.value)
  {
    var inherited := InheritedRouteNames(c, parentEnv + l.planEnv);
    var p := GatewayPatch(c, base, header, inherited);
    PatchNamed(c, base, header, inherited);
    NoProxy(c, l);
    hide NamesProxy, Empty, Composed, GatewayPatch, Patched, Lists, Overlaid, Admitted, Owned, EnvMap, Inherits, EarlyPasses;
    v := ComposeWithNetwork(c, museAllows, l, p);
    OwnNamesAreCovered(c, l, base, header, parentEnv, inherited, v.value);
    admitted := CheckComposed(c, Owned(base, header), v.value);
  }
}
