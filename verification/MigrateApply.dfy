/**
 Applying a migration plan (internal/migrate): each change is rechecked, written and
 remembered; any failure walks the remembered changes and created directories backwards.
 Every write may fail and leave anything at its path; `restored` is false once a
 restoring call itself failed.
 */
module MigrateApply {
  import opened Bytes
  import opened MigratePlan

  function Parent(path: Path): Path
    requires path != []
  {
    path[..|path| - 1]
  }

  /** The content after a run of changes. */
  function Applied(files: Files, cs: seq<Change>): Files
    decreases |cs|
  {
    if cs == [] then files else ApplyOne(Applied(files, cs[..|cs| - 1]), cs[|cs| - 1])
  }

  function ApplyOne(files: Files, c: Change): Files {
    if c.remove then files - {c.path} else files[c.path := Regular(c.data)]
  }

  ghost predicate DistinctPaths(cs: seq<Change>) {
    forall i, j :: 0 <= i < j < |cs| ==> cs[i].path != cs[j].path
  }

  function Paths(cs: seq<Change>): set<Path> {
    set c | c in cs :: c.path
  }

  /** Every entry lies in a directory, and no path is both. */
  ghost predicate Tree(files: Files, dirs: set<Path>) {
    && [] in dirs
    && (forall p :: p in files ==> p != [] && Parent(p) in dirs && p !in dirs)
    && (forall d :: d in dirs && d != [] ==> Parent(d) in dirs)
  }

  function AsSet(ds: seq<Path>): set<Path> {
    set d | d in ds
  }

  /** Directories created one by one, parents first, none of them there before. */
  ghost predicate Chain(dirs: set<Path>, created: seq<Path>) {
    forall k :: 0 <= k < |created| ==>
      created[k] != [] && created[k] !in dirs + AsSet(created[..k]) && Parent(created[k]) in dirs + AsSet(created[..k])
  }

  ghost predicate AgreesOutside(a: Files, b: Files, paths: set<Path>) {
    forall p :: p !in paths ==> Read(a, p) == Read(b, p) && (p in a <==> p in b) && (p in a ==> a[p] == b[p])
  }

  /** What the change found when it was rechecked. */
  predicate Rechecked(files: Files, c: Change) {
    if c.before.Some? then c.path in files && files[c.path] == Regular(c.before.value) else c.path !in files
  }

  /** No file stands where a directory is needed. */
  predicate ClearWay(files: Files, dir: Path) {
    forall n :: 0 <= n <= |dir| ==> dir[..n] !in files
  }

  /** Nothing has changed since the plan, and every change finds or can make its directories. */
  predicate Applicable(files: Files, cs: seq<Change>) {
    && (forall c :: c in cs ==> c.path != [] && Rechecked(files, c) && ClearWay(files, Parent(c.path)))
    && (forall c, d :: c in cs && d in cs ==> Above(c, d))
  }

  predicate Above(c: Change, d: Change) {
    d.path != [] && forall n :: 0 <= n <= |Parent(d.path)| ==> Parent(d.path)[..n] != c.path
  }

  /** On a reliable file system no call fails but for its arguments. */
  class FileSystem {
    const reliable: bool
    var files: Files
    var dirs: set<Path>

    method Works() returns (ok: bool)
      ensures reliable ==> ok
    {
      ok := *;
      ok := ok || reliable;
    }

    /** A write either puts the bytes there or fails and leaves anything. */
    method WriteFile(path: Path, data: bytes) returns (ok: bool)
      modifies this
      ensures dirs == old(dirs)
      ensures ok ==> files == old(files)[path := Regular(data)]
      ensures reliable ==> ok
      ensures AgreesOutside(files, old(files), {path})
    {
      ok := Works();
      var left: Option<Node> := *;
      files := if ok then files[path := Regular(data)]
               else if left.Some? then files[path := left.value] else files - {path};
    }

    method RemoveFile(path: Path) returns (ok: bool)
      modifies this
      ensures dirs == old(dirs)
      ensures ok ==> files == old(files) - {path}
      ensures reliable ==> ok
      ensures AgreesOutside(files, old(files), {path})
    {
      ok := Works();
      var left: Option<Node> := *;
      files := if !ok && left.Some? then files[path := left.value] else files - {path};
    }

    method MakeDirectories(path: Path, created0: seq<Path>, ghost dirs0: set<Path>) returns (created: seq<Path>, ok: bool)
      requires [] in dirs0 && Chain(dirs0, created0) && dirs == dirs0 + AsSet(created0)
      modifies this`dirs
      ensures created0 <= created && Chain(dirs0, created) && dirs == dirs0 + AsSet(created)
      ensures ok ==> path in dirs
      ensures forall d :: d in dirs && d !in old(dirs) ==> |d| <= |path|
      ensures reliable && ClearWay(files, path) ==> ok
      decreases |path|
    {
      created := created0;
      if path in dirs {
        return created, true;
      }
      ParentClear(files, path);
      if path in files {
        return created, false;
      }
      assert path != [];
      hide Chain, AsSet, ClearWay;
      created, ok := MakeDirectories(Parent(path), created, dirs0);
      var made := Works();
      if !ok || !made || path in dirs {
        return created, false;
      }
      ChainMore(dirs0, created, path);
      dirs := dirs + {path};
      created := created + [path];
      ok := Works();
    }

    /** Walks the changes backwards, then the directories. */
    method Rollback(applied: seq<Change>, created: seq<Path>, ghost files0: Files, ghost dirs0: set<Path>) returns (restored: bool)
      requires Tree(files0, dirs0) && Chain(dirs0, created) && dirs == dirs0 + AsSet(created)
      requires AgreesOutside(files, files0, Paths(applied))
      requires forall c :: c in applied ==> Rechecked(files0, c)
      modifies this
      ensures restored ==> files == files0 && dirs == dirs0
      ensures reliable ==> restored
    {
      var files1 := RestoreFiles(applied, files0);
      var dirs1 := RemoveDirectories(created, files0, dirs0);
      return files1 && dirs1;
    }

    method RestoreFiles(applied: seq<Change>, ghost files0: Files) returns (restored: bool)
      requires AgreesOutside(files, files0, Paths(applied))
      requires forall c :: c in applied ==> Rechecked(files0, c)
      modifies this
      ensures dirs == old(dirs)
      ensures restored ==> files == files0
      ensures reliable ==> restored
    {
      restored := true;
      assert applied[..|applied|] == applied;
      hide AgreesOutside, Paths, Rechecked;
      for i := |applied| downto 0
        invariant dirs == old(dirs)
        invariant restored ==> AgreesOutside(files, files0, Paths(applied[..i]))
        invariant reliable ==> restored
      {
        var c := applied[i];
        ghost var before := files;
        var ok: bool;
        if c.before.Some? {
          ok := WriteFile(c.path, c.before.value);
        } else {
          ok := RemoveFile(c.path);
        }
        if ok {
          RestoredOne(files, before, files0, applied, i);
        }
        restored := restored && ok;
      }
      SameFiles(files, files0, applied[..0], restored);
    }

    method RemoveDirectories(created: seq<Path>, ghost files0: Files, ghost dirs0: set<Path>) returns (restored: bool)
      requires Tree(files0, dirs0) && Chain(dirs0, created) && dirs == dirs0 + AsSet(created)
      modifies this`dirs
      ensures restored && files == files0 ==> dirs == dirs0
      ensures reliable && files == files0 ==> restored
    {
      restored := true;
      assert created[..|created|] == created;
      for i := |created| downto 0
        invariant restored && files == files0 ==> dirs == dirs0 + AsSet(created[..i])
        invariant reliable && files == files0 ==> restored
      {
        if restored && files == files0 {
          CreatedIsEmpty(files0, dirs0, created, i);
        }
        var ok := RemoveDirectory(created[i]);
        restored := restored && ok;
      }
      assert AsSet(created[..0]) == {};
    }

    /** Removing a directory works only if it is empty. */
    method RemoveDirectory(dir: Path) returns (ok: bool)
      modifies this`dirs
      ensures ok ==> dirs == old(dirs) - {dir}
      ensures reliable ==> (ok <==> Empty(files, old(dirs), dir))
    {
      ok := Works();
      if Empty(files, dirs, dir) && ok {
        dirs := dirs - {dir};
      } else {
        ok := false;
      }
    }

    /** One change: rechecked, its directories made, then written or removed; `begun` once the path may have changed. */
    method ApplyChange(c: Change, created0: seq<Path>, ghost dirs0: set<Path>) returns (created: seq<Path>, begun: bool, ok: bool)
      requires [] in dirs0 && c.path != [] && Chain(dirs0, created0) && dirs == dirs0 + AsSet(created0)
      modifies this
      ensures Chain(dirs0, created) && dirs == dirs0 + AsSet(created)
      ensures AgreesOutside(files, old(files), {c.path})
      ensures begun ==> Rechecked(old(files), c)
      ensures !begun ==> files == old(files) && !ok
      ensures ok ==> files == ApplyOne(old(files), c)
      ensures reliable && Rechecked(old(files), c) && ClearWay(old(files), Parent(c.path)) ==> ok
    {
      created, begun, ok := created0, false, false;
      var now := Read(files, c.path);
      if now.Unreadable? || now != (if c.before.Some? then Data(c.before.value) else Absent) {
        return;
      }
      assert Rechecked(files, c);
      hide Chain, AsSet;
      var made: bool;
      created, made := MakeDirectories(Parent(c.path), created, dirs0);
      if !made {
        return;
      }
      begun := true;
      if c.remove {
        ok := RemoveFile(c.path);
      } else {
        ok := WriteFile(c.path, c.data);
      }
    }

    /** Rolls back what was begun. */
    method Undo(changes: seq<Change>, i: nat, begun: bool, created: seq<Path>, ghost files0: Files, ghost dirs0: set<Path>)
      returns (restored: bool)
      requires i < |changes|
      requires Tree(files0, dirs0) && Chain(dirs0, created) && dirs == dirs0 + AsSet(created)
      requires AgreesOutside(files, files0, Paths(if begun then changes[..i + 1] else changes[..i]))
      requires forall c :: c in changes[..i] ==> Rechecked(files0, c)
      requires begun ==> Rechecked(files0, changes[i])
      modifies this
      ensures restored ==> files == files0 && dirs == dirs0
      ensures reliable ==> restored
    {
      hide Tree, Chain, AsSet, AgreesOutside, Rechecked;
      NextPaths(changes, i);
      restored := Rollback(if begun then changes[..i + 1] else changes[..i], created, files0, dirs0);
    }

    /** All or nothing: every planned change, or with working restores exactly what was there before. */
    method Apply(changes: seq<Change>) returns (ok: bool, restored: bool)
      requires Tree(files, dirs) && DistinctPaths(changes) && forall c :: c in changes ==> c.path != []
      modifies this
      ensures ok ==> files == Applied(old(files), changes) && old(dirs) <= dirs
      ensures !ok && restored ==> files == old(files) && dirs == old(dirs)
      ensures reliable ==> (ok || restored) && (Applicable(old(files), changes) ==> ok)
    {
      ghost var files0, dirs0 := files, dirs;
      var created: seq<Path> := [];
      assert [] in dirs0;
      assert AsSet([]) == {} && Applied(files0, changes[..0]) == files0 && Chain(dirs0, created) && Paths(changes[..0]) == {};
      hide Applied, Chain, AsSet, Paths, Rechecked, AgreesOutside, Tree, Applicable, ClearWay;
      for i := 0 to |changes|
        invariant Chain(dirs0, created) && dirs == dirs0 + AsSet(created)
        invariant files == Applied(files0, changes[..i])
        invariant AgreesOutside(files, files0, Paths(changes[..i]))
        invariant forall c :: c in changes[..i] ==> Rechecked(files0, c)
      {
        NextPaths(changes, i);
        AppliedNext(files0, changes, i);
        AsBefore(files, files0, changes, i);
        StillApplicable(files, files0, changes, i);
        ghost var files1 := files;
        var begun: bool;
        created, begun, ok := ApplyChange(changes[i], created, dirs0);
        AgreesMore(files, files1, files0, Paths(changes[..i]), changes[i].path);
        if !ok {
          restored := Undo(changes, i, begun, created, files0, dirs0);
          return false, restored;
        }
      }
      assert changes[..|changes|] == changes;
      return true, true;
    }
  }

  /** Giving one path back what it had leaves one path less to restore. */
  lemma RestoredOne(files: Files, before: Files, files0: Files, applied: seq<Change>, i: nat)
    requires i < |applied| && Rechecked(files0, applied[i])
    requires var c := applied[i]; files == if c.before.Some? then before[c.path := Regular(c.before.value)] else before - {c.path}
    ensures AgreesOutside(before, files0, Paths(applied[..i + 1])) ==> AgreesOutside(files, files0, Paths(applied[..i]))
  {
    NextPaths(applied, i);
    hide Paths;
  }

  lemma AgreesMore(a: Files, b: Files, c: Files, paths: set<Path>, path: Path)
    requires AgreesOutside(a, b, {path}) && AgreesOutside(b, c, paths)
    ensures AgreesOutside(a, c, paths + {path})
  {
  }

  /** A path not changed yet is as it was at the start. */
  lemma AsBefore(files: Files, files0: Files, cs: seq<Change>, i: nat)
    requires i < |cs| && DistinctPaths(cs) && AgreesOutside(files, files0, Paths(cs[..i]))
    ensures Rechecked(files, cs[i]) ==> Rechecked(files0, cs[i])
  {
    NotYetChanged(cs, i);
    assert Read(files, cs[i].path) == Read(files0, cs[i].path);
  }

  lemma ParentClear(files: Files, path: Path)
    ensures ClearWay(files, path) ==> path !in files && (path != [] ==> ClearWay(files, Parent(path)))
  {
    assert path[..|path|] == path;
    assert path != [] ==> forall n :: 0 <= n <= |path| - 1 ==> Parent(path)[..n] == path[..n];
  }

  lemma ChainMore(dirs: set<Path>, created: seq<Path>, path: Path)
    requires Chain(dirs, created) && path != [] && path !in dirs + AsSet(created) && Parent(path) in dirs + AsSet(created)
    ensures Chain(dirs, created + [path]) && AsSet(created + [path]) == AsSet(created) + {path}
  {
    var longer := created + [path];
    hide AsSet;
    forall k | 0 <= k < |longer|
      ensures longer[k] != [] && longer[k] !in dirs + AsSet(longer[..k]) && Parent(longer[k]) in dirs + AsSet(longer[..k])
    {
      Shorter(created, path, k);
    }
    assert AsSet(longer) == AsSet(created) + {path} by {
      SetMore(created, path);
    }
  }

  lemma Shorter(created: seq<Path>, path: Path, k: nat)
    requires k <= |created|
    ensures (created + [path])[..k] == created[..k]
    ensures (created + [path])[k] == if k < |created| then created[k] else path
  {
  }

  lemma SetMore(created: seq<Path>, path: Path)
    ensures AsSet(created + [path]) == AsSet(created) + {path}
  {
  }

  lemma StillApplicable(files: Files, files0: Files, cs: seq<Change>, i: nat)
    requires i < |cs| && DistinctPaths(cs) && AgreesOutside(files, files0, Paths(cs[..i])) && cs[i].path != []
    ensures Applicable(files0, cs) ==> Rechecked(files, cs[i]) && ClearWay(files, Parent(cs[i].path))
  {
    NotYetChanged(cs, i);
    if Applicable(files0, cs) {
      var c := cs[i];
      assert c in cs && Read(files, c.path) == Read(files0, c.path);
      forall n | 0 <= n <= |Parent(c.path)|
        ensures Parent(c.path)[..n] !in files
      {
        forall d | d in cs[..i]
          ensures d.path != Parent(c.path)[..n]
        {
          assert d in cs && Above(d, c);
        }
        assert Parent(c.path)[..n] !in Paths(cs[..i]);
      }
    }
  }

  lemma NextPaths(cs: seq<Change>, i: nat)
    requires i < |cs|
    ensures Paths(cs[..i + 1]) == Paths(cs[..i]) + {cs[i].path}
    ensures forall c :: c in cs[..i + 1] <==> c in cs[..i] || c == cs[i]
  {
    assert cs[..i + 1] == cs[..i] + [cs[i]];
  }

  predicate Empty(files: Files, dirs: set<Path>, dir: Path) {
    && (forall p :: p in files && p != [] ==> Parent(p) != dir)
    && (forall d :: d in dirs && d != [] ==> Parent(d) != dir)
  }

  lemma AppliedNext(files: Files, cs: seq<Change>, i: nat)
    requires i < |cs|
    ensures Applied(files, cs[..i + 1]) == ApplyOne(Applied(files, cs[..i]), cs[i])
  {
    assert cs[..i + 1][..i] == cs[..i];
  }

  lemma NotYetChanged(cs: seq<Change>, i: nat)
    requires i < |cs| && DistinctPaths(cs)
    ensures cs[i].path !in Paths(cs[..i])
  {
  }

  lemma SameFiles(a: Files, b: Files, cs: seq<Change>, restored: bool)
    requires cs == [] && (restored ==> AgreesOutside(a, b, Paths(cs)))
    ensures restored ==> a == b
  {
  }

  /** A directory the apply created holds nothing once the files are back and later directories are gone. */
  lemma CreatedIsEmpty(files: Files, dirs: set<Path>, created: seq<Path>, i: nat)
    requires Tree(files, dirs) && Chain(dirs, created) && i < |created|
    ensures Empty(files, dirs + AsSet(created[..i + 1]), created[i])
    ensures dirs + AsSet(created[..i + 1]) - {created[i]} == dirs + AsSet(created[..i])
  {
    var d := created[i];
    assert created[..i + 1] == created[..i] + [d];
    assert d !in dirs + AsSet(created[..i]);
    forall e | e in dirs + AsSet(created[..i + 1]) && e != []
      ensures Parent(e) != d
    {
      if e !in dirs {
        var j :| 0 <= j <= i && created[j] == e;
        assert Parent(created[j]) in dirs + AsSet(created[..j]);
        assert AsSet(created[..j]) <= AsSet(created[..i]);
      }
    }
  }
}
