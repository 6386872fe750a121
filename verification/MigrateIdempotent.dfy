/**
 After a successful migration nothing is lost: the bytes of every file there was before
 are still at its path or in its backup.  And there is nothing left to do, planning again
 plans no change, exactly when the layers that share a destination agree on what goes there.
 */
module MigrateIdempotent {
  import opened Bytes
  import opened MigratePlan
  import opened MigrateApply
  import opened MigrateTransaction

  const DEFAULTS: string := "defaults.json"
  const LAUNCHER: string := "launcher.json"

  function Base(path: Path): string
    requires path != []
  {
    path[|path| - 1]
  }

  /** The schema files a migration may rewrite on the way. */
  predicate Schema(name: string) {
    name == DEFAULTS || name == LAUNCHER
  }

  /** The names whose bytes a migration may replace or remove. */
  predicate Rewritable(name: string) {
    name == AX || Schema(name)
  }

  /** What Run's own derivation of a layer guarantees: retired policies left out, only the two schema files
      rewritten, and nothing out of nothing. */
  ghost predicate SoundLayer(layer: Layer) {
    && (forall data :: layer.derive(data).Some? ==> forall s :: s in layer.derive(data).value ==> SoundSource(s))
    && (layer.derive(map[]).Some? ==> layer.derive(map[]).value == [])
  }

  predicate SoundSource(s: Source) {
    !IsAxName(s.name) && (s.original != s.desired ==> Schema(s.name))
  }

  ghost predicate Sound(layers: seq<Layer>) {
    forall l :: l in layers ==> SoundLayer(l)
  }

  // ---- What a plan always is ----

  /** Once the plan is applied, `path` will hold `data`. */
  predicate Settled(files: Files, names: map<Path, bytes>, path: Path, data: bytes) {
    if path in names then names[path] == data else Read(files, path) == Data(data)
  }

  /** A planned change is as found; what it replaces is a retired policy or a rewritten file, and is kept in the
      backup; and it is beside a retired policy or away from every legacy home. */
  predicate ChangeOk(setup: Setup, files: Files, names: map<Path, bytes>, c: Change) {
    && c.path != [] && c.path in names && names[c.path] == c.data && Rechecked(files, c)
    && (c.remove <==> Base(c.path) == AX)
    && (c.remove ==> c.before.Some?)
    && (c.before.Some? ==> Rewritable(Base(c.path)) && Settled(files, names, Backup(c.path), c.before.value))
    && (if IsAxName(Base(c.path)) then Parent(c.path) + [AX] in files else Separate(setup, Parent(c.path)))
  }

  ghost predicate PlanOk(setup: Setup, files: Files, p: Plan) {
    && DistinctPaths(p.changes)
    && p.names.Keys == Paths(p.changes)
    && forall c :: c in p.changes ==> ChangeOk(setup, files, p.names, c)
  }

  function Extend(p: Plan, c: Change): Plan {
    Plan(p.changes + [c], p.names[c.path := c.data])
  }

  lemma BackupBase(path: Path)
    requires path != []
    ensures Backup(path) != [] && Base(Backup(path)) == Base(path) + BAK && Parent(Backup(path)) == Parent(path)
    ensures !Rewritable(Base(Backup(path)))
    ensures Base(path) != AX ==> !IsAxName(Base(Backup(path)))
  {
    var b := Base(path);
    assert (b + BAK)[|b + BAK| - 1] == 'k' && AX[|AX| - 1] == 'n' && DEFAULTS[|DEFAULTS| - 1] == 'n' && LAUNCHER[|LAUNCHER| - 1] == 'n';
    assert b + BAK == AX + BAK ==> (b + BAK)[..|b|] == b && (AX + BAK)[..|AX|] == AX && |b| == |AX|;
  }

  lemma AddedChange(cs: seq<Change>, c: Change)
    ensures Paths(cs + [c]) == Paths(cs) + {c.path}
    ensures forall x :: x in cs + [c] <==> x in cs || x == c
  {
  }

  /** Planning a path not planned before keeps every backup that was settled. */
  lemma ExtendKeeps(setup: Setup, files: Files, p: Plan, c: Change, x: Change)
    requires ChangeOk(setup, files, p.names, x) && c.path !in p.names
    requires ChangeOk(setup, files, Extend(p, c).names, c)
    ensures ChangeOk(setup, files, Extend(p, c).names, x) && x.path != c.path
  {
    BackupBase(x.path);
  }

  lemma ExtendOk(setup: Setup, files: Files, p: Plan, c: Change)
    requires PlanOk(setup, files, p) && c.path !in p.names
    requires ChangeOk(setup, files, Extend(p, c).names, c)
    ensures PlanOk(setup, files, Extend(p, c))
  {
    AddedChange(p.changes, c);
    forall x | x in p.changes
      ensures ChangeOk(setup, files, Extend(p, c).names, x) && x.path != c.path
    {
      ExtendKeeps(setup, files, p, c, x);
    }
  }

  /** Planning a plain path that is not there. */
  lemma AddAbsentOk(setup: Setup, files: Files, p: Plan, path: Path, data: bytes)
    requires PlanOk(setup, files, p) && Add(files, p, path, data).Ok? && path != [] && Base(path) != AX && path !in files
    requires if IsAxName(Base(path)) then Parent(path) + [AX] in files else Separate(setup, Parent(path))
    ensures PlanOk(setup, files, Add(files, p, path, data).plan)
    ensures path in Add(files, p, path, data).plan.names && Add(files, p, path, data).plan.names[path] == data
  {
    if path !in p.names {
      ExtendOk(setup, files, p, Change(path, data, None, false));
    }
  }

  /** A planned path was absent, unless it is rewritten. */
  lemma PlannedNew(setup: Setup, files: Files, p: Plan, path: Path)
    requires PlanOk(setup, files, p) && path != [] && !Rewritable(Base(path))
    ensures path in p.names ==> path !in files
  {
    if path in p.names {
      assert path in Paths(p.changes);
      var c :| c in p.changes && c.path == path;
      assert ChangeOk(setup, files, p.names, c);
    }
  }

  lemma AddBackupOk(setup: Setup, files: Files, p: Plan, path: Path, original: bytes)
    requires PlanOk(setup, files, p) && path != [] && AddBackup(files, p, path, original).Ok?
    requires if Base(path) == AX then Parent(path) + [AX] in files else Separate(setup, Parent(path))
    ensures var q := AddBackup(files, p, path, original).plan;
            PlanOk(setup, files, q) && Settled(files, q.names, Backup(path), original)
  {
    BackupBase(path);
    if Read(files, Backup(path)).Absent? {
      AddAbsentOk(setup, files, p, Backup(path), original);
    } else {
      PlannedNew(setup, files, p, Backup(path));
    }
  }

  // ---- Retired policies ----

  /** While retired policies are planned, the last change removes one. */
  ghost predicate HomesOk(setup: Setup, files: Files, p: Plan) {
    && PlanOk(setup, files, p)
    && (p.changes != [] ==> p.changes[|p.changes| - 1].remove)
    && (forall x :: x in p.names ==> x != [] && IsAxName(Base(x)))
  }

  lemma MarkedTwice(p: Plan)
    requires p.changes != [] ==> p.changes[|p.changes| - 1].remove
    ensures MarkLast(p) == p
  {
  }

  lemma MarkAdded(files: Files, p: Plan, path: Path, d: bytes)
    requires path !in p.names && Read(files, path) == Data(d)
    ensures Add(files, p, path, d).Ok? && MarkLast(Add(files, p, path, d).plan) == Extend(p, Change(path, d, Some(d), true))
  {
    var q := Add(files, p, path, d).plan;
    assert MarkLast(q).changes == p.changes + [Change(path, d, Some(d), true)];
  }

  /** A retired policy is planned once, however often its directory is listed. */
  lemma RetireAxOk(setup: Setup, files: Files, p: Plan, dir: Path, writable: bool)
    requires HomesOk(setup, files, p) && RetireAx(files, p, dir, writable).Ok?
    ensures var q := RetireAx(files, p, dir, writable).plan;
            HomesOk(setup, files, q) && p.names.Keys <= q.names.Keys
            && (Read(files, dir + [AX]).Data? && writable ==> dir + [AX] in q.names)
  {
    var path := dir + [AX];
    if Read(files, path).Data? && writable {
      var d := Read(files, path).data;
      assert Parent(path) == dir && Base(path) == AX;
      AddBackupOk(setup, files, p, path, d);
      BackupBase(path);
      if path in p.names {
        assert path in Paths(p.changes);
        var c :| c in p.changes && c.path == path;
        assert ChangeOk(setup, files, p.names, c);
        MarkedTwice(p);
      } else {
        var p1 := AddBackup(files, p, path, d).plan;
        assert path !in p1.names;
        MarkAdded(files, p1, path, d);
        RetireNewOk(setup, files, p1, path, d);
      }
    }
  }

  lemma RetireNewOk(setup: Setup, files: Files, p: Plan, path: Path, d: bytes)
    requires PlanOk(setup, files, p) && path != [] && Base(path) == AX && path !in p.names && Read(files, path) == Data(d)
    requires Settled(files, p.names, Backup(path), d) && forall x :: x in p.names ==> x != [] && IsAxName(Base(x))
    ensures HomesOk(setup, files, Extend(p, Change(path, d, Some(d), true)))
  {
    BackupBase(path);
    assert Parent(path) + [AX] == path;
    ExtendOk(setup, files, p, Change(path, d, Some(d), true));
  }

  lemma {:induction false} PlanHomesOk(setup: Setup, files: Files, p: Plan, homes: seq<Home>)
    requires HomesOk(setup, files, p) && PlanHomes(files, p, homes).Ok?
    ensures var q := PlanHomes(files, p, homes).plan;
            && HomesOk(setup, files, q) && p.names.Keys <= q.names.Keys
            && forall h :: h in homes && Read(files, h.dir + [AX]).Data? && h.writable ==> h.dir + [AX] in q.names
    decreases |homes|
  {
    if homes != [] {
      RetireAxOk(setup, files, p, homes[0].dir, homes[0].writable);
      PlanHomesOk(setup, files, RetireAx(files, p, homes[0].dir, homes[0].writable).plan, homes[1..]);
      assert forall h :: h in homes <==> h == homes[0] || h in homes[1..];
    }
  }

  // ---- Copies: the layers' sources in one list ----

  /** One source on its way to a destination directory. */
  datatype Copying = Copying(dest: Path, source: Source)

  function Target(k: Copying): Path {
    k.dest + [k.source.name]
  }

  function OfSources(dest: Path, ss: seq<Source>): seq<Copying> {
    if ss == [] then [] else [Copying(dest, ss[0])] + OfSources(dest, ss[1..])
  }

  function OfLayer(setup: Setup, files: Files, l: Layer): seq<Copying> {
    match DeriveSources(setup, files, l)
    case Sources(ss) => OfSources(l.dest, ss)
    case _ => []
  }

  function Copies(setup: Setup, files: Files, layers: seq<Layer>): seq<Copying> {
    if layers == [] then [] else OfLayer(setup, files, layers[0]) + Copies(setup, files, layers[1..])
  }

  function CopyOne(files: Files, p: Plan, k: Copying): Planned {
    Copy(files, p, Target(k), k.source.original, k.source.desired)
  }

  function PlanCopies(files: Files, p: Plan, ks: seq<Copying>): Planned
    decreases |ks|
  {
    if ks == [] then Ok(p)
    else
      match CopyOne(files, p, ks[0])
      case Refused(q) => Refused(q)
      case Ok(p') => PlanCopies(files, p', ks[1..])
  }

  /** Layers that share a destination derive the same bytes for every name they both derive. */
  ghost predicate Agree(ks: seq<Copying>) {
    forall a, b :: a in ks && b in ks && Target(a) == Target(b) ==> a.source.desired == b.source.desired
  }

  /** Every layer reads back. */
  ghost predicate AllValid(setup: Setup, files: Files, layers: seq<Layer>) {
    forall l :: l in layers ==> !DeriveSources(setup, files, l).Invalid?
  }

  lemma {:induction false} PlanSourcesCopies(files: Files, p: Plan, dest: Path, ss: seq<Source>, rest: seq<Copying>)
    ensures PlanCopies(files, p, OfSources(dest, ss) + rest) ==
              match PlanSources(files, p, dest, ss)
              case Refused(q) => Planned.Refused(q)
              case Ok(p') => PlanCopies(files, p', rest)
    decreases |ss|
  {
    if ss == [] {
      assert OfSources(dest, ss) + rest == rest;
    } else {
      var ks := OfSources(dest, ss) + rest;
      assert ks[0] == Copying(dest, ss[0]) && ks[1..] == OfSources(dest, ss[1..]) + rest;
      match Copy(files, p, dest + [ss[0].name], ss[0].original, ss[0].desired)
      case Refused(_) =>
      case Ok(p') => PlanSourcesCopies(files, p', dest, ss[1..], rest);
    }
  }

  /** Planning the layers is planning their copies, once every layer reads back. */
  lemma {:induction false} PlanLayersCopies(setup: Setup, files: Files, p: Plan, layers: seq<Layer>)
    ensures PlanLayers(setup, files, p, layers).Ok? ==> AllValid(setup, files, layers)
    ensures AllValid(setup, files, layers) ==>
              PlanLayers(setup, files, p, layers).Ok? == PlanCopies(files, p, Copies(setup, files, layers)).Ok?
    ensures PlanLayers(setup, files, p, layers).Ok? ==>
              PlanLayers(setup, files, p, layers) == PlanCopies(files, p, Copies(setup, files, layers))
    decreases |layers|
  {
    if layers != [] {
      assert forall l :: l in layers <==> l == layers[0] || l in layers[1..];
      var rest := Copies(setup, files, layers[1..]);
      match DeriveSources(setup, files, layers[0])
      case Invalid =>
      case Nothing =>
        assert [] + rest == rest;
        PlanLayersCopies(setup, files, p, layers[1..]);
      case Sources(ss) =>
        PlanSourcesCopies(files, p, layers[0].dest, ss, rest);
        match PlanSources(files, p, layers[0].dest, ss) {
          case Refused(_) =>
          case Ok(p') => PlanLayersCopies(setup, files, p', layers[1..]);
        }
    }
  }

  /** What is copied goes to a place apart from every legacy home. */
  ghost predicate Sane(setup: Setup, ks: seq<Copying>) {
    forall k :: k in ks ==> SoundSource(k.source) && Separate(setup, k.dest)
  }

  lemma {:induction false} OfSourcesSane(setup: Setup, dest: Path, ss: seq<Source>)
    requires (forall s :: s in ss ==> SoundSource(s)) && (ss != [] ==> Separate(setup, dest))
    ensures Sane(setup, OfSources(dest, ss))
    decreases |ss|
  {
    if ss != [] {
      OfSourcesSane(setup, dest, ss[1..]);
    }
  }

  lemma LayerSane(setup: Setup, files: Files, layer: Layer)
    requires SoundLayer(layer)
    ensures Sane(setup, OfLayer(setup, files, layer))
  {
    if DeriveSources(setup, files, layer).Sources? {
      var dir := layer.legacy.value;
      var entries := Entries(files, dir);
      var ss := DeriveSources(setup, files, layer).sources;
      if entries != map[] {
        var n :| n in entries;
        var path := dir + [n];
        assert path in files && |path| == |dir| + 1 && path[..|dir|] == dir;
      } else {
        assert AllData(entries).value == map[];
      }
      OfSourcesSane(setup, layer.dest, ss);
    }
  }

  lemma {:induction false} CopiesSane(setup: Setup, files: Files, layers: seq<Layer>)
    requires Sound(layers)
    ensures Sane(setup, Copies(setup, files, layers))
    decreases |layers|
  {
    if layers != [] {
      LayerSane(setup, files, layers[0]);
      CopiesSane(setup, files, layers[1..]);
    }
  }

  // ---- What planning copies keeps and settles ----

  /** A rewritten destination: its backup is settled first, then the new bytes are planned. */
  lemma CopyOk(setup: Setup, files: Files, p: Plan, k: Copying)
    requires PlanOk(setup, files, p) && Separate(setup, k.dest) && SoundSource(k.source) && CopyOne(files, p, k).Ok?
    ensures PlanOk(setup, files, CopyOne(files, p, k).plan)
    ensures (Schema(k.source.name) && Target(k) in p.names ==> p.names[Target(k)] == k.source.desired) ==>
              Settled(files, CopyOne(files, p, k).plan.names, Target(k), k.source.desired)
  {
    var path, s := Target(k), k.source;
    assert Parent(path) == k.dest && Base(path) == s.name;
    BackupBase(path);
    if !Schema(s.name) {
      PlannedNew(setup, files, p, path);
    }
    if Read(files, path) != Data(s.desired) {
      var p1 := p;
      if s.original != s.desired {
        AddBackupOk(setup, files, p, path, s.original);
        p1 := AddBackup(files, p, path, s.original).plan;
      }
      if path !in files {
        AddAbsentOk(setup, files, p1, path, s.desired);
      } else if path !in p1.names {
        ExtendOk(setup, files, p1, Change(path, s.desired, Some(s.original), false));
      }
    }
  }

  /** A copy plans at most its destination and the backup, and unsettles no path it means no other bytes for. */
  lemma CopyKeeps(files: Files, p: Plan, k: Copying, path: Path, data: bytes)
    requires SoundSource(k.source) && CopyOne(files, p, k).Ok? && path != []
    ensures var q := CopyOne(files, p, k).plan;
            && p.names.Keys <= q.names.Keys && |p.changes| <= |q.changes|
            && (path in p.names ==> q.names[path] == p.names[path])
            && (path in q.names && Schema(Base(path)) && path !in p.names ==> path == Target(k) && q.names[path] == k.source.desired)
            && ((path == Target(k) ==> k.source.desired == data) && Settled(files, p.names, path, data) ==>
                  Settled(files, q.names, path, data))
  {
    BackupBase(Target(k));
  }

  /** The copies that aim at the path mean these bytes for it. */
  ghost predicate Meant(ks: seq<Copying>, path: Path, data: bytes) {
    forall k :: k in ks && Target(k) == path ==> k.source.desired == data
  }

  lemma {:induction false} CopiesKeep(setup: Setup, files: Files, p: Plan, ks: seq<Copying>, path: Path, data: bytes)
    requires Sane(setup, ks) && Meant(ks, path, data) && path != [] && PlanCopies(files, p, ks).Ok?
    ensures Settled(files, p.names, path, data) ==> Settled(files, PlanCopies(files, p, ks).plan.names, path, data)
    decreases |ks|
  {
    if ks != [] {
      assert ks[0] in ks && forall k :: k in ks[1..] ==> k in ks;
      CopyKeeps(files, p, ks[0], path, data);
      CopiesKeep(setup, files, CopyOne(files, p, ks[0]).plan, ks[1..], path, data);
    }
  }

  lemma {:induction false} CopiesOk(setup: Setup, files: Files, p: Plan, ks: seq<Copying>)
    requires PlanOk(setup, files, p) && Sane(setup, ks) && PlanCopies(files, p, ks).Ok?
    ensures var q := PlanCopies(files, p, ks).plan;
            PlanOk(setup, files, q) && p.names.Keys <= q.names.Keys && |p.changes| <= |q.changes|
    decreases |ks|
  {
    if ks != [] {
      assert ks[0] in ks && forall k :: k in ks[1..] ==> k in ks;
      CopyOk(setup, files, p, ks[0]);
      CopyKeeps(files, p, ks[0], Target(ks[0]), []);
      CopiesOk(setup, files, CopyOne(files, p, ks[0]).plan, ks[1..]);
    }
  }

  /** What is planned for a schema file is what the copies still to come mean for it. */
  ghost predicate Foreseen(p: Plan, ks: seq<Copying>) {
    forall k :: k in ks && Schema(k.source.name) && Target(k) in p.names ==> p.names[Target(k)] == k.source.desired
  }

  lemma ForeseenNext(files: Files, p: Plan, ks: seq<Copying>)
    requires ks != [] && Foreseen(p, ks) && Agree(ks) && SoundSource(ks[0].source) && CopyOne(files, p, ks[0]).Ok?
    ensures Foreseen(CopyOne(files, p, ks[0]).plan, ks[1..])
  {
    forall k | k in ks[1..] && Schema(k.source.name)
      ensures var q := CopyOne(files, p, ks[0]).plan; Target(k) in q.names ==> q.names[Target(k)] == k.source.desired
    {
      assert Base(Target(k)) == k.source.name && k in ks && ks[0] in ks;
      CopyKeeps(files, p, ks[0], Target(k), []);
    }
  }

  /** Where the copies agree, each of them is settled in the end. */
  lemma {:induction false} CopiesSettled(setup: Setup, files: Files, p: Plan, ks: seq<Copying>)
    requires PlanOk(setup, files, p) && Sane(setup, ks) && PlanCopies(files, p, ks).Ok?
    requires Agree(ks) && Foreseen(p, ks)
    ensures forall k :: k in ks ==> Settled(files, PlanCopies(files, p, ks).plan.names, Target(k), k.source.desired)
    decreases |ks|
  {
    if ks != [] {
      var k, rest := ks[0], ks[1..];
      assert forall x :: x in ks <==> x == k || x in rest;
      var p1 := CopyOne(files, p, k).plan;
      CopyOk(setup, files, p, k);
      ForeseenNext(files, p, ks);
      CopiesSettled(setup, files, p1, rest);
      CopiesKeep(setup, files, p1, rest, Target(k), k.source.desired);
    }
  }

  /** Copies that plan nothing find their bytes in place. */
  lemma {:induction false} CopiesInPlace(setup: Setup, files: Files, ks: seq<Copying>)
    requires Sane(setup, ks)
    ensures PlanCopies(files, EMPTY, ks) == Planned.Ok(EMPTY) <==>
              forall k :: k in ks ==> Read(files, Target(k)) == Data(k.source.desired)
    decreases |ks|
  {
    if ks != [] {
      var k, rest := ks[0], ks[1..];
      assert forall x :: x in ks <==> x == k || x in rest;
      CopyInPlace(files, k);
      if PlanCopies(files, EMPTY, ks) == Planned.Ok(EMPTY) {
        var p1 := CopyOne(files, EMPTY, k).plan;
        CopiesGrow(setup, files, p1, rest);
        assert p1 == EMPTY;
      }
      CopiesInPlace(setup, files, rest);
    }
  }

  lemma CopyInPlace(files: Files, k: Copying)
    ensures CopyOne(files, EMPTY, k) == Planned.Ok(EMPTY) <==> Read(files, Target(k)) == Data(k.source.desired)
  {
  }

  lemma {:induction false} CopiesGrow(setup: Setup, files: Files, p: Plan, ks: seq<Copying>)
    requires Sane(setup, ks) && PlanCopies(files, p, ks).Ok?
    ensures var q := PlanCopies(files, p, ks).plan; p.names.Keys <= q.names.Keys && |p.changes| <= |q.changes|
    decreases |ks|
  {
    if ks != [] {
      assert ks[0] in ks && forall k :: k in ks[1..] ==> k in ks;
      CopyKeeps(files, p, ks[0], Target(ks[0]), []);
      CopiesGrow(setup, files, CopyOne(files, p, ks[0]).plan, ks[1..]);
    }
  }

  // ---- After the apply ----

  /** The content of a path once the plan is applied. */
  lemma {:induction false} AppliedAt(files: Files, cs: seq<Change>, path: Path)
    requires DistinctPaths(cs)
    ensures path !in Paths(cs) ==> (path in Applied(files, cs) <==> path in files)
                                   && (path in files ==> Applied(files, cs)[path] == files[path])
    ensures forall c :: c in cs && c.path == path ==>
              if c.remove then path !in Applied(files, cs) else path in Applied(files, cs) && Applied(files, cs)[path] == Regular(c.data)
    decreases |cs|
  {
    if cs != [] {
      var init := cs[..|cs| - 1];
      assert cs == init + [cs[|cs| - 1]];
      AppliedAt(files, init, path);
    }
  }

  lemma SettledIsThere(setup: Setup, files: Files, p: Plan, path: Path, data: bytes)
    requires PlanOk(setup, files, p) && path != [] && Base(path) != AX && Settled(files, p.names, path, data)
    ensures Read(Applied(files, p.changes), path) == Data(data)
  {
    AppliedAt(files, p.changes, path);
    if path in p.names {
      assert path in Paths(p.changes);
      var c :| c in p.changes && c.path == path;
      assert ChangeOk(setup, files, p.names, c);
    }
  }

  lemma PlannedAxIsGone(setup: Setup, files: Files, p: Plan, path: Path)
    requires PlanOk(setup, files, p) && path != [] && Base(path) == AX && path in p.names
    ensures path !in Applied(files, p.changes)
  {
    AppliedAt(files, p.changes, path);
    assert path in Paths(p.changes);
    var c :| c in p.changes && c.path == path;
    assert ChangeOk(setup, files, p.names, c);
  }

  /** A legacy home loses retired policies and gains only their backups. */
  lemma LegacyUnchanged(setup: Setup, files: Files, p: Plan, dir: Path)
    requires PlanOk(setup, files, p)
    requires exists i :: 0 <= i < |setup.layers| && setup.layers[i].legacy == Some(dir)
    ensures Entries(Applied(files, p.changes), dir) == Entries(files, dir)
    ensures Occupied(Applied(files, p.changes), dir) ==> Occupied(files, dir)
  {
    var files' := Applied(files, p.changes);
    forall path: Path | path != [] && Parent(path) == dir
      ensures !IsAxName(Base(path)) ==> path !in Paths(p.changes)
      ensures path in Paths(p.changes) ==> dir + [AX] in files
    {
      if path in Paths(p.changes) {
        var c :| c in p.changes && c.path == path;
        assert ChangeOk(setup, files, p.names, c);
      }
    }
    forall name | !IsAxName(name)
      ensures dir + [name] in files' <==> dir + [name] in files
      ensures dir + [name] in files ==> files'[dir + [name]] == files[dir + [name]]
    {
      assert Parent(dir + [name]) == dir && Base(dir + [name]) == name;
      AppliedAt(files, p.changes, dir + [name]);
    }
    SameEntries(files, files', dir);
    if Occupied(files', dir) {
      var path :| path in files' && |path| == |dir| + 1 && path[..|dir|] == dir;
      AppliedAt(files, p.changes, path);
      var ax := dir + [AX];
      assert |ax| == |dir| + 1 && ax[..|dir|] == dir;
      assert path in files || ax in files;
    }
  }

  lemma SameEntries(a: Files, b: Files, dir: Path)
    requires forall name :: !IsAxName(name) ==> (dir + [name] in a <==> dir + [name] in b)
    requires forall name :: !IsAxName(name) && dir + [name] in a ==> a[dir + [name]] == b[dir + [name]]
    ensures Entries(a, dir) == Entries(b, dir)
  {
    assert EntryNames(a, dir) == EntryNames(b, dir);
  }

  // ---- Planning again ----

  const EMPTY: Plan := Plan([], map[])

  lemma {:induction false} HomesAgain(setup: Setup, files: Files, p: Plan, homes: seq<Home>)
    requires PlanOk(setup, files, p)
    requires forall h :: h in homes && Read(files, h.dir + [AX]).Data? && h.writable ==> h.dir + [AX] in p.names
    ensures PlanHomes(Applied(files, p.changes), EMPTY, homes) == Planned.Ok(EMPTY)
    decreases |homes|
  {
    if homes != [] {
      var path := homes[0].dir + [AX];
      assert Base(path) == AX;
      if path in p.names {
        PlannedAxIsGone(setup, files, p, path);
      } else {
        AppliedAt(files, p.changes, path);
      }
      HomesAgain(setup, files, p, homes[1..]);
    }
  }

  /** The applied plan leaves every layer's derivation as it was. */
  lemma LayerAgain(setup: Setup, files: Files, p: Plan, l: Layer)
    requires PlanOk(setup, files, p) && l in setup.layers && !DeriveSources(setup, files, l).Invalid?
    ensures DeriveSources(setup, Applied(files, p.changes), l) == DeriveSources(setup, files, l)
  {
    if l.legacy.Some? {
      LegacyUnchanged(setup, files, p, l.legacy.value);
    }
  }

  lemma {:induction false} CopiesAgain(setup: Setup, files: Files, p: Plan, layers: seq<Layer>)
    requires PlanOk(setup, files, p) && AllValid(setup, files, layers) && forall l :: l in layers ==> l in setup.layers
    ensures AllValid(setup, Applied(files, p.changes), layers)
    ensures Copies(setup, Applied(files, p.changes), layers) == Copies(setup, files, layers)
    decreases |layers|
  {
    if layers != [] {
      LayerAgain(setup, files, p, layers[0]);
      CopiesAgain(setup, files, p, layers[1..]);
      assert forall l :: l in layers <==> l == layers[0] || l in layers[1..];
    }
  }

  lemma PlanAllOk(setup: Setup, files: Files, plan: Plan)
    requires Sound(setup.layers) && PlanAll(setup, files) == Planned.Ok(plan)
    ensures PlanOk(setup, files, plan) && AllValid(setup, files, setup.layers)
    ensures forall h :: h in setup.homes && Read(files, h.dir + [AX]).Data? && h.writable ==> h.dir + [AX] in plan.names
    ensures var ks := Copies(setup, files, setup.layers);
            Agree(ks) ==> forall k :: k in ks ==> Settled(files, plan.names, Target(k), k.source.desired)
  {
    PlanHomesOk(setup, files, EMPTY, setup.homes);
    var p := PlanHomes(files, EMPTY, setup.homes).plan;
    var ks := Copies(setup, files, setup.layers);
    PlanLayersCopies(setup, files, p, setup.layers);
    CopiesSane(setup, files, setup.layers);
    CopiesOk(setup, files, p, ks);
    if Agree(ks) {
      OnlyAxForeseen(p, ks);
      CopiesSettled(setup, files, p, ks);
    }
  }

  lemma OnlyAxForeseen(p: Plan, ks: seq<Copying>)
    requires forall x :: x in p.names ==> x != [] && IsAxName(Base(x))
    ensures Foreseen(p, ks)
  {
    assert forall k: Copying :: Base(Target(k)) == k.source.name;
  }

  /** Migrating twice is migrating once exactly when the layers agree: planning again on the applied plan plans
      nothing if, and only if, no two layers mean different bytes for one destination. */
  lemma MigrationIsIdempotent(setup: Setup, files: Files, plan: Plan)
    requires Sound(setup.layers) && PlanAll(setup, files) == Planned.Ok(plan)
    ensures PlanAll(setup, Applied(files, plan.changes)) == Planned.Ok(Plan([], map[]))
            <==> Agree(Copies(setup, files, setup.layers))
  {
    var after, ks := Applied(files, plan.changes), Copies(setup, files, setup.layers);
    PlanAllOk(setup, files, plan);
    HomesAgain(setup, files, plan, setup.homes);
    CopiesAgain(setup, files, plan, setup.layers);
    CopiesSane(setup, files, setup.layers);
    if Agree(ks) {
      AgreedInPlace(setup, files, plan, ks);
    }
    hide Applied, Copies, PlanHomes, PlanOk, Settled, AllValid, Sound;
    PlanLayersCopies(setup, after, EMPTY, setup.layers);
    hide PlanLayers;
    CopiesInPlace(setup, after, ks);
  }

  lemma AgreedInPlace(setup: Setup, files: Files, plan: Plan, ks: seq<Copying>)
    requires PlanOk(setup, files, plan) && Sane(setup, ks)
    requires forall k :: k in ks ==> Settled(files, plan.names, Target(k), k.source.desired)
    ensures forall k :: k in ks ==> Read(Applied(files, plan.changes), Target(k)) == Data(k.source.desired)
  {
    hide PlanOk, Settled, Applied;
    forall k | k in ks
      ensures Read(Applied(files, plan.changes), Target(k)) == Data(k.source.desired)
    {
      assert Base(Target(k)) == k.source.name && SoundSource(k.source);
      SettledIsThere(setup, files, plan, Target(k), k.source.desired);
    }
  }

  /** Destinations apart from each other are enough: then only one layer means anything for a path. */
  lemma ApartLayersAgree(setup: Setup, files: Files)
    requires forall i, j :: 0 <= i < j < |setup.layers| ==> setup.layers[i].dest != setup.layers[j].dest
    requires forall l :: l in setup.layers ==> DistinctNames(DeriveSources(setup, files, l))
    ensures Agree(Copies(setup, files, setup.layers))
  {
    forall a, b | a in Copies(setup, files, setup.layers) && b in Copies(setup, files, setup.layers) && Target(a) == Target(b)
      ensures a.source.desired == b.source.desired
    {
      var i := CopyFrom(setup, files, setup.layers, a);
      var j := CopyFrom(setup, files, setup.layers, b);
      assert a.dest == Parent(Target(a)) && b.dest == Parent(Target(b));
      assert a.source.name == Base(Target(a)) && b.source.name == Base(Target(b));
      assert i == j;
    }
  }

  // ---- Where two layers share a destination ----

  /** Both configuration roots at one place, as XDG_CONFIG_HOME=/etc puts them. */
  const SHARED: Path := ["etc", "swarma", "launcher"]
  const RETIRED: Path := ["etc", "curator-run"]

  /** The defaults lose their hosts in both layers; only the system layer writes the host mode they gave. */
  function DeriveShared(merges: bool, data: map<string, bytes>): Option<seq<Source>> {
    if DEFAULTS in data && LAUNCHER in data then
      Some([Source(DEFAULTS, data[DEFAULTS], data[DEFAULTS] + [0]),
            Source(LAUNCHER, data[LAUNCHER], if merges then data[LAUNCHER] + [0] else data[LAUNCHER])])
    else Some([])
  }

  function SharedSetup(): Setup {
    Setup([], [Layer(SHARED, Some(RETIRED), true, data => DeriveShared(true, data)),
               Layer(SHARED, Some(RETIRED), true, data => DeriveShared(false, data))])
  }

  /** A launcher.json already copied by hand. */
  function SharedFiles(): Files {
    map[RETIRED + [DEFAULTS] := Regular([1]), RETIRED + [LAUNCHER] := Regular([2]), SHARED + [LAUNCHER] := Regular([2])]
  }

  function SharedCopies(): seq<Copying> {
    [Copying(SHARED, Source(DEFAULTS, [1], [1, 0])), Copying(SHARED, Source(LAUNCHER, [2], [2, 0])),
     Copying(SHARED, Source(DEFAULTS, [1], [1, 0])), Copying(SHARED, Source(LAUNCHER, [2], [2]))]
  }

  lemma SharedIsSound()
    ensures Sound(SharedSetup().layers)
  {
  }

  lemma SchemaNames()
    ensures DEFAULTS != LAUNCHER && !IsAxName(DEFAULTS) && !IsAxName(LAUNCHER)
    ensures DEFAULTS + BAK != LAUNCHER && LAUNCHER + BAK != DEFAULTS && DEFAULTS + BAK != LAUNCHER + BAK
  {
    assert DEFAULTS[0] == 'd' && LAUNCHER[0] == 'l' && AX[0] == 'a';
    assert (DEFAULTS + BAK)[0] == 'd' && (LAUNCHER + BAK)[0] == 'l' && (AX + BAK)[0] == 'a';
  }

  lemma EntriesOfTwo(dir: Path, a: string, b: string, elsewhere: Path, x: Node, y: Node, z: Node)
    requires a != b && !IsAxName(a) && !IsAxName(b) && |elsewhere| != |dir| + 1
    ensures Entries(map[dir + [a] := x, dir + [b] := y, elsewhere := z], dir) == map[a := x, b := y]
  {
    var files := map[dir + [a] := x, dir + [b] := y, elsewhere := z];
    forall n: string
      ensures Base(dir + [n]) == n && (dir + [n] in files <==> n == a || n == b)
    {
      assert Base(dir + [n]) == n && Base(dir + [a]) == a && Base(dir + [b]) == b;
    }
    assert dir + [a] != dir + [b];
    assert EntryNames(files, dir) == {a, b};
  }

  lemma SharedEntries()
    ensures AllData(Entries(SharedFiles(), RETIRED)) == Some(map[DEFAULTS := [1], LAUNCHER := [2]])
  {
    SchemaNames();
    EntriesOfTwo(RETIRED, DEFAULTS, LAUNCHER, SHARED + [LAUNCHER], Regular([1]), Regular([2]), Regular([2]));
    TwoData(DEFAULTS, LAUNCHER, [1], [2]);
  }

  lemma TwoData(a: string, b: string, x: bytes, y: bytes)
    requires a != b
    ensures AllData(map[a := Regular(x), b := Regular(y)]) == Some(map[a := x, b := y])
  {
    var entries := map[a := Regular(x), b := Regular(y)];
    assert AllData(entries).value == map[a := x, b := y];
  }

  lemma SharedIsSeparate()
    ensures Separate(SharedSetup(), SHARED)
  {
    assert SHARED[1] != RETIRED[1] by {
      assert |SHARED[1]| == 6 && |RETIRED[1]| == 11;
    }
  }

  lemma SharedDerives(i: nat)
    requires i < 2
    ensures var l := SharedSetup().layers[i];
            && DeriveSources(SharedSetup(), SharedFiles(), l).Sources?
            && OfLayer(SharedSetup(), SharedFiles(), l) == (if i == 0 then SharedCopies()[..2] else SharedCopies()[2..])
  {
    SharedEntries();
    SharedIsSeparate();
    hide Entries, AllData, Separate, Occupied;
    var data: map<string, bytes> := map[DEFAULTS := [1], LAUNCHER := [2]];
    SchemaNames();
    var l := SharedSetup().layers[i];
    var d := DeriveSources(SharedSetup(), SharedFiles(), l);
    assert d == Sources(DeriveShared(i == 0, data).value);
    var ss := d.sources;
    var one: bytes, two: bytes := [1], [2];
    assert one + [0] == [1, 0] && two + [0] == [2, 0];
    assert ss == [Source(DEFAULTS, [1], [1, 0]), Source(LAUNCHER, [2], if i == 0 then [2, 0] else [2])];
    OfTwoSources(SHARED, ss[0], ss[1]);
  }

  lemma OfTwoSources(dest: Path, a: Source, b: Source)
    ensures OfSources(dest, [a, b]) == [Copying(dest, a), Copying(dest, b)]
  {
    assert [a, b][1..] == [b] && [b][1..] == [];
    assert OfSources(dest, [b]) == [Copying(dest, b)];
  }

  lemma CopiesOfTwo(setup: Setup, files: Files, a: Layer, b: Layer)
    ensures Copies(setup, files, [a, b]) == OfLayer(setup, files, a) + OfLayer(setup, files, b)
  {
    hide OfLayer;
    assert [a, b][1..] == [b] && [b][1..] == [];
    assert Copies(setup, files, [b]) == OfLayer(setup, files, b) + [];
  }

  lemma SharedCopying()
    ensures AllValid(SharedSetup(), SharedFiles(), SharedSetup().layers)
    ensures Copies(SharedSetup(), SharedFiles(), SharedSetup().layers) == SharedCopies()
  {
    SharedDerives(0);
    SharedDerives(1);
    hide DeriveSources, OfLayer, Copies, SharedFiles, SharedCopies;
    var ls := SharedSetup().layers;
    assert ls == [ls[0], ls[1]];
    CopiesOfTwo(SharedSetup(), SharedFiles(), ls[0], ls[1]);
    Halves(SharedCopies(), 2);
  }

  lemma Halves(ks: seq<Copying>, i: nat)
    ensures i <= |ks| ==> ks[..i] + ks[i..] == ks
  {
  }

  /** One turn of planning a list of copies. */
  lemma CopiesTurn(files: Files, p: Plan, k: Copying, rest: seq<Copying>, p1: Plan)
    requires CopyOne(files, p, k) == Planned.Ok(p1)
    ensures PlanCopies(files, p, [k] + rest) == PlanCopies(files, p1, rest)
  {
    assert ([k] + rest)[1..] == rest;
  }

  /** Two names of one destination, neither the other's backup; only the second is there, and not its backup. */
  predicate TwoNames(files: Files, dest: Path, d: string, l: string, y: bytes) {
    && d != l && d + BAK != l && l + BAK != d && d + BAK != l + BAK && d + BAK != d && l + BAK != l
    && dest + [d] !in files && dest + [d + BAK] !in files && dest + [l + BAK] !in files
    && Read(files, dest + [l]) == Data(y)
  }

  lemma SiblingPaths(dest: Path, a: string, b: string)
    ensures dest + [a] == dest + [b] <==> a == b
    ensures Backup(dest + [a]) == dest + [a + BAK]
  {
    assert Base(dest + [a]) == a && Base(dest + [b]) == b;
  }

  lemma RewriteAbsent(files: Files, dest: Path, d: string, x: bytes, x': bytes)
    requires dest + [d] !in files && dest + [d + BAK] !in files && x != x' && d + BAK != d
    ensures var r := CopyOne(files, EMPTY, Copying(dest, Source(d, x, x')));
            r.Ok? && r.plan.names == map[dest + [d + BAK] := x, dest + [d] := x']
  {
    SiblingPaths(dest, d, d + BAK);
  }

  lemma RewritePresent(files: Files, p: Plan, dest: Path, l: string, y: bytes, y': bytes)
    requires Read(files, dest + [l]) == Data(y) && dest + [l + BAK] !in files && y != y' && l + BAK != l
    requires dest + [l] !in p.names && dest + [l + BAK] !in p.names
    ensures var r := CopyOne(files, p, Copying(dest, Source(l, y, y')));
            r.Ok? && r.plan.names == p.names[dest + [l + BAK] := y][dest + [l] := y']
  {
    SiblingPaths(dest, l, l + BAK);
  }

  lemma RewriteAgain(files: Files, p: Plan, dest: Path, d: string, x: bytes, x': bytes)
    requires dest + [d] !in files && dest + [d + BAK] !in files
    requires dest + [d] in p.names && p.names[dest + [d]] == x' && dest + [d + BAK] in p.names && p.names[dest + [d + BAK]] == x
    ensures CopyOne(files, p, Copying(dest, Source(d, x, x'))) == Planned.Ok(p)
  {
    SiblingPaths(dest, d, d);
  }

  lemma TwoLayersPlan(files: Files, dest: Path, d: string, l: string, x: bytes, x': bytes, y: bytes, y': bytes) returns (plan: Plan)
    requires TwoNames(files, dest, d, l, y) && x != x' && y != y'
    ensures PlanCopies(files, EMPTY, [Copying(dest, Source(d, x, x')), Copying(dest, Source(l, y, y')),
                                      Copying(dest, Source(d, x, x')), Copying(dest, Source(l, y, y))]) == Planned.Ok(plan)
    ensures dest + [d] in plan.names && plan.names[dest + [d]] == x'
    ensures dest + [l] in plan.names && plan.names[dest + [l]] == y'
  {
    var a, b, c := Copying(dest, Source(d, x, x')), Copying(dest, Source(l, y, y')), Copying(dest, Source(l, y, y));
    SiblingPaths(dest, d, l);
    SiblingPaths(dest, d + BAK, l);
    SiblingPaths(dest, d, l + BAK);
    SiblingPaths(dest, d + BAK, l + BAK);
    SiblingPaths(dest, d, d + BAK);
    SiblingPaths(dest, l, l + BAK);
    RewriteAbsent(files, dest, d, x, x');
    var p1 := CopyOne(files, EMPTY, a).plan;
    RewritePresent(files, p1, dest, l, y, y');
    plan := CopyOne(files, p1, b).plan;
    RewriteAgain(files, plan, dest, d, x, x');
    assert CopyOne(files, plan, c) == Planned.Ok(plan);
    hide CopyOne;
    CopiesTurn(files, EMPTY, a, [b, a, c], p1);
    CopiesTurn(files, p1, b, [a, c], plan);
    CopiesTurn(files, plan, a, [c], plan);
    CopiesTurn(files, plan, c, [], plan);
    assert [a, b, a, c] == [a] + [b, a, c] && [b, a, c] == [b] + [a, c] && [a, c] == [a] + [c] && [c] == [c] + [];
  }

  lemma SharedPlans() returns (plan: Plan)
    ensures PlanCopies(SharedFiles(), EMPTY, SharedCopies()) == Planned.Ok(plan)
    ensures SHARED + [DEFAULTS] in plan.names && plan.names[SHARED + [DEFAULTS]] == [1, 0]
    ensures SHARED + [LAUNCHER] in plan.names && plan.names[SHARED + [LAUNCHER]] == [2, 0]
  {
    SharedNames();
    plan := TwoLayersPlan(SharedFiles(), SHARED, DEFAULTS, LAUNCHER, [1], [1, 0], [2], [2, 0]);
  }

  lemma SharedNames()
    ensures TwoNames(SharedFiles(), SHARED, DEFAULTS, LAUNCHER, [2])
  {
    SchemaNames();
    forall n: string
      ensures SHARED + [n] in SharedFiles() <==> n == LAUNCHER
    {
      SiblingPaths(SHARED, n, LAUNCHER);
      assert |SHARED + [n]| == 4 && |RETIRED + [DEFAULTS]| == 3 && |RETIRED + [LAUNCHER]| == 3;
    }
    assert |BAK| == 4 && |DEFAULTS + BAK| != |DEFAULTS| && |LAUNCHER + BAK| != |LAUNCHER|;
  }

  /** There the first migration succeeds and the second refuses: the user layer finds what the system layer wrote,
      which is neither its own result nor what it started from. */
  lemma SharedDestinationFails() returns (plan: Plan)
    ensures Sound(SharedSetup().layers)
    ensures PlanAll(SharedSetup(), SharedFiles()) == Planned.Ok(plan)
    ensures PlanAll(SharedSetup(), Applied(SharedFiles(), plan.changes)).Refused?
    ensures !Agree(Copies(SharedSetup(), SharedFiles(), SharedSetup().layers))
  {
    SharedIsSound();
    SharedCopying();
    plan := SharedPlans();
    SharedRefuses(plan);
  }

  lemma SharedRefuses(plan: Plan)
    requires AllValid(SharedSetup(), SharedFiles(), SharedSetup().layers) && Sound(SharedSetup().layers)
    requires Copies(SharedSetup(), SharedFiles(), SharedSetup().layers) == SharedCopies()
    requires PlanCopies(SharedFiles(), EMPTY, SharedCopies()) == Planned.Ok(plan)
    requires SHARED + [DEFAULTS] in plan.names && plan.names[SHARED + [DEFAULTS]] == [1, 0]
    requires SHARED + [LAUNCHER] in plan.names && plan.names[SHARED + [LAUNCHER]] == [2, 0]
    ensures PlanAll(SharedSetup(), SharedFiles()) == Planned.Ok(plan)
    ensures PlanAll(SharedSetup(), Applied(SharedFiles(), plan.changes)).Refused?
    ensures !Agree(Copies(SharedSetup(), SharedFiles(), SharedSetup().layers))
  {
    var setup, files := SharedSetup(), SharedFiles();
    var after := Applied(files, plan.changes);
    PlanLayersCopies(setup, files, EMPTY, setup.layers);
    assert PlanAll(setup, files) == Planned.Ok(plan) by {
      assert setup.homes == [];
    }
    PlanAllOk(setup, files, plan);
    SchemaNames();
    assert Base(SHARED + [DEFAULTS]) == DEFAULTS && Base(SHARED + [LAUNCHER]) == LAUNCHER;
    SettledIsThere(setup, files, plan, SHARED + [DEFAULTS], [1, 0]);
    SettledIsThere(setup, files, plan, SHARED + [LAUNCHER], [2, 0]);
    CopiesAgain(setup, files, plan, setup.layers);
    SharedRefusesAgain(after);
    PlanLayersCopies(setup, after, EMPTY, setup.layers);
    var ks := SharedCopies();
    assert ks[1] in ks && ks[3] in ks && Target(ks[1]) == Target(ks[3]) && ks[1].source.desired != ks[3].source.desired;
  }

  lemma SharedRefusesAgain(after: Files)
    requires Read(after, SHARED + [DEFAULTS]) == Data([1, 0]) && Read(after, SHARED + [LAUNCHER]) == Data([2, 0])
    ensures PlanCopies(after, EMPTY, SharedCopies()).Refused?
  {
    var ks := SharedCopies();
    CopiesTurn(after, EMPTY, ks[0], ks[1..], EMPTY);
    CopiesTurn(after, EMPTY, ks[1], ks[2..], EMPTY);
    CopiesTurn(after, EMPTY, ks[2], ks[3..], EMPTY);
    assert CopyOne(after, EMPTY, ks[3]).Refused?;
    assert ks == [ks[0]] + ks[1..] && ks[1..] == [ks[1]] + ks[2..] && ks[2..] == [ks[2]] + ks[3..] && ks[3..] == [ks[3]];
  }

  predicate DistinctNames(d: Derived) {
    d.Sources? ==> forall i, j :: 0 <= i < j < |d.sources| ==> d.sources[i].name != d.sources[j].name
  }

  lemma {:induction false} CopyFrom(setup: Setup, files: Files, layers: seq<Layer>, k: Copying) returns (i: nat)
    requires k in Copies(setup, files, layers)
    ensures i < |layers| && k.dest == layers[i].dest
    ensures DeriveSources(setup, files, layers[i]).Sources? && k.source in DeriveSources(setup, files, layers[i]).sources
    decreases |layers|
  {
    if k in OfLayer(setup, files, layers[0]) {
      i := 0;
      SourceFrom(layers[0].dest, DeriveSources(setup, files, layers[0]).sources, k);
    } else {
      i := CopyFrom(setup, files, layers[1..], k);
      i := i + 1;
    }
  }

  lemma {:induction false} SourceFrom(dest: Path, ss: seq<Source>, k: Copying)
    requires k in OfSources(dest, ss)
    ensures k.dest == dest && k.source in ss
    decreases |ss|
  {
    if k != Copying(dest, ss[0]) {
      SourceFrom(dest, ss[1..], k);
    }
  }

  /** Every file is still there with its bytes, or its bytes are in its backup. */
  lemma NothingIsLost(setup: Setup, files: Files, plan: Plan, path: Path)
    requires Sound(setup.layers) && PlanAll(setup, files) == Planned.Ok(plan) && path in files && path != []
    ensures var after := Applied(files, plan.changes);
            if path in after && after[path] == files[path] then true
            else files[path].Regular? && Read(after, Backup(path)) == Data(files[path].data)
  {
    PlanAllOk(setup, files, plan);
    AppliedAt(files, plan.changes, path);
    if path in Paths(plan.changes) {
      var c :| c in plan.changes && c.path == path;
      assert ChangeOk(setup, files, plan.names, c);
      BackupBase(path);
      SettledIsThere(setup, files, plan, Backup(path), c.before.value);
    }
  }

  /** The copy rewrites its source, and its destination does not hold the result yet. */
  predicate Rewrites(files: Files, k: Copying) {
    k.source.original != k.source.desired && Read(files, Target(k)) != Data(k.source.desired)
  }

  lemma CopyBacksUp(setup: Setup, files: Files, p: Plan, k: Copying)
    requires PlanOk(setup, files, p) && Separate(setup, k.dest) && SoundSource(k.source)
    requires CopyOne(files, p, k).Ok? && Rewrites(files, k)
    ensures Settled(files, CopyOne(files, p, k).plan.names, Backup(Target(k)), k.source.original)
  {
    assert Parent(Target(k)) == k.dest && Base(Target(k)) == k.source.name;
    BackupBase(Target(k));
    AddBackupOk(setup, files, p, Target(k), k.source.original);
  }

  /** What a copy finds settled at a path that is no schema file stays settled. */
  lemma CopyKeepsBackup(files: Files, p: Plan, k: Copying, path: Path, data: bytes)
    requires SoundSource(k.source) && CopyOne(files, p, k).Ok? && path != [] && !Schema(Base(path))
    requires Settled(files, p.names, path, data)
    ensures Settled(files, CopyOne(files, p, k).plan.names, path, data)
  {
    assert Base(Target(k)) == k.source.name;
    BackupBase(Target(k));
  }

  lemma {:induction false} CopiesKeepBackup(setup: Setup, files: Files, p: Plan, ks: seq<Copying>, path: Path, data: bytes)
    requires Sane(setup, ks) && PlanCopies(files, p, ks).Ok? && path != [] && !Schema(Base(path))
    requires Settled(files, p.names, path, data)
    ensures Settled(files, PlanCopies(files, p, ks).plan.names, path, data)
    decreases |ks|
  {
    if ks != [] {
      assert ks[0] in ks && forall k :: k in ks[1..] ==> k in ks;
      CopyKeepsBackup(files, p, ks[0], path, data);
      CopiesKeepBackup(setup, files, CopyOne(files, p, ks[0]).plan, ks[1..], path, data);
    }
  }

  lemma {:induction false} CopiesBackUp(setup: Setup, files: Files, p: Plan, ks: seq<Copying>)
    requires PlanOk(setup, files, p) && Sane(setup, ks) && PlanCopies(files, p, ks).Ok?
    ensures forall k :: k in ks && Rewrites(files, k) ==>
              Settled(files, PlanCopies(files, p, ks).plan.names, Backup(Target(k)), k.source.original)
    decreases |ks|
  {
    if ks != [] {
      var k, rest := ks[0], ks[1..];
      assert forall x :: x in ks <==> x == k || x in rest;
      var p1 := CopyOne(files, p, k).plan;
      CopyOk(setup, files, p, k);
      CopiesBackUp(setup, files, p1, rest);
      if Rewrites(files, k) {
        CopyBacksUp(setup, files, p, k);
        BackupBase(Target(k));
        CopiesKeepBackup(setup, files, p1, rest, Backup(Target(k)), k.source.original);
      }
    }
  }

  /** Policies retired, rewritten files kept, derived files in place. */
  ghost predicate Arrived(setup: Setup, files: Files, after: Files) {
    && (forall h :: h in setup.homes && h.writable && Read(files, h.dir + [AX]).Data? ==>
          h.dir + [AX] !in after && Read(after, Backup(h.dir + [AX])) == Read(files, h.dir + [AX]))
    && (forall k :: k in Copies(setup, files, setup.layers) && Rewrites(files, k) ==>
          Read(after, Backup(Target(k))) == Data(k.source.original))
    && (Agree(Copies(setup, files, setup.layers)) ==>
          forall k :: k in Copies(setup, files, setup.layers) ==> Read(after, Target(k)) == Data(k.source.desired))
  }

  /** Everything a migration is for is done: each retired policy is gone and its bytes are in its backup; what a layer
      rewrites is kept in a backup as it was; and where the layers agree, every derived file is at its destination. */
  lemma EverythingArrives(setup: Setup, files: Files, plan: Plan)
    requires Sound(setup.layers) && PlanAll(setup, files) == Planned.Ok(plan)
    ensures Arrived(setup, files, Applied(files, plan.changes))
  {
    var after, ks := Applied(files, plan.changes), Copies(setup, files, setup.layers);
    PlanAllOk(setup, files, plan);
    CopiesSane(setup, files, setup.layers);
    if Agree(ks) {
      AgreedInPlace(setup, files, plan, ks);
    }
    AllBackedUp(setup, files, plan);
    hide Applied, PlanAll, Copies, Sane, Agree, Rewrites;
    forall k | k in ks && Rewrites(files, k)
      ensures Read(after, Backup(Target(k))) == Data(k.source.original)
    {
      BackupBase(Target(k));
      SettledIsThere(setup, files, plan, Backup(Target(k)), k.source.original);
    }
    forall h | h in setup.homes && h.writable && Read(files, h.dir + [AX]).Data?
      ensures h.dir + [AX] !in after && Read(after, Backup(h.dir + [AX])) == Read(files, h.dir + [AX])
    {
      PolicyRetired(setup, files, plan, h.dir + [AX]);
    }
  }

  lemma AllBackedUp(setup: Setup, files: Files, plan: Plan)
    requires Sound(setup.layers) && PlanAll(setup, files) == Planned.Ok(plan)
    ensures forall k :: k in Copies(setup, files, setup.layers) && Rewrites(files, k) ==>
              Settled(files, plan.names, Backup(Target(k)), k.source.original)
  {
    PlanHomesOk(setup, files, EMPTY, setup.homes);
    var p := PlanHomes(files, EMPTY, setup.homes).plan;
    PlanLayersCopies(setup, files, p, setup.layers);
    CopiesSane(setup, files, setup.layers);
    CopiesBackUp(setup, files, p, Copies(setup, files, setup.layers));
  }

  lemma PolicyRetired(setup: Setup, files: Files, plan: Plan, path: Path)
    requires PlanOk(setup, files, plan) && path != [] && Base(path) == AX && path in plan.names
    ensures path !in Applied(files, plan.changes)
    ensures Read(Applied(files, plan.changes), Backup(path)) == Read(files, path)
  {
    PlannedAxIsGone(setup, files, plan, path);
    assert path in Paths(plan.changes);
    var c :| c in plan.changes && c.path == path;
    assert ChangeOk(setup, files, plan.names, c);
    BackupBase(path);
    hide Applied;
    SettledIsThere(setup, files, plan, Backup(path), c.before.value);
  }

  /** What apply asks of a plan. */
  lemma PlansCanBeApplied(setup: Setup, files: Files, plan: Plan)
    requires Sound(setup.layers) && PlanAll(setup, files) == Planned.Ok(plan)
    ensures DistinctPaths(plan.changes) && forall c :: c in plan.changes ==> c.path != [] && Rechecked(files, c)
  {
    PlanAllOk(setup, files, plan);
    assert forall c :: c in plan.changes ==> ChangeOk(setup, files, plan.names, c);
  }

  // ---- The whole command ----

  /** A retired policy that is not a regular file is left for its owner to remove. */
  predicate NeedsOwner(files: Files, homes: seq<Home>) {
    exists h :: h in homes && Read(files, h.dir + [AX]).Unreadable?
  }

  /** Plans, then applies: a failure leaves everything as it was, a success loses nothing, and leaves nothing to do
      exactly when the layers agree. */
  method Run(setup: Setup, fs: FileSystem, dryRun: bool) returns (ok: bool, restored: bool)
    requires Tree(fs.files, fs.dirs) && Sound(setup.layers)
    modifies fs
    ensures dryRun || (!ok && restored) ==> fs.files == old(fs.files) && fs.dirs == old(fs.dirs)
    ensures ok ==> PlanAll(setup, old(fs.files)).Ok?
    ensures fs.reliable ==> restored || ok
    ensures fs.reliable && PlanAll(setup, old(fs.files)).Ok? && Applicable(old(fs.files), PlanAll(setup, old(fs.files)).plan.changes) ==>
              (ok <==> dryRun || !NeedsOwner(old(fs.files), setup.homes))
    ensures ok && !dryRun ==> !NeedsOwner(old(fs.files), setup.homes)
    ensures ok && !dryRun ==>
              (PlanAll(setup, fs.files) == Planned.Ok(Plan([], map[])) <==> Agree(Copies(setup, old(fs.files), setup.layers)))
    ensures ok && !dryRun ==> Arrived(setup, old(fs.files), fs.files)
    ensures ok && !dryRun ==> forall path :: path in old(fs.files) && !(path in fs.files && fs.files[path] == old(fs.files[path])) ==>
                Read(fs.files, Backup(path)) == Read(old(fs.files), path)
  {
    var t := new Transaction();
    var refusal := t.Run(setup, fs.files);
    if refusal.Some? {
      return false, true;
    }
    ghost var files0, plan := fs.files, t.AsPlan();
    PlansCanBeApplied(setup, files0, plan);
    MigrationIsIdempotent(setup, files0, plan);
    EverythingArrives(setup, files0, plan);
    if dryRun {
      return true, true;
    }
    if NeedsOwner(fs.files, setup.homes) {
      return false, true;
    }
    ok, restored := fs.Apply(t.changes);
    if ok {
      forall path | path in files0 && !(path in fs.files && fs.files[path] == files0[path])
        ensures Read(fs.files, Backup(path)) == Read(files0, path)
      {
        NothingIsLost(setup, files0, plan, path);
      }
    }
  }
}
