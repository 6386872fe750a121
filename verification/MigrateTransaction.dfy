/** The migration transaction as internal/migrate writes it, growing in place; see `MigratePlan`. */
module MigrateTransaction {
  import opened Bytes
  import opened MigratePlan
  import P = MigratePlan

  class Transaction {
    var changes: seq<Change>
    var names: map<Path, bytes>

    constructor ()
      ensures AsPlan() == Plan([], map[])
    {
      changes, names := [], map[];
    }

    ghost function AsPlan(): Plan
      reads this
    {
      Plan(changes, names)
    }

    /** The call did what `spec` says: grew the plan to it, or refused there. */
    ghost predicate Follows(refusal: Option<Path>, spec: Planned)
      reads this
    {
      match spec
      case Ok(p) => refusal.None? && AsPlan() == p
      case Refused(q) => refusal == Some(q)
    }

    method Add(files: Files, path: Path, data: bytes) returns (refusal: Option<Path>)
      modifies this
      ensures Follows(refusal, P.Add(files, old(AsPlan()), path, data))
    {
      if path in names {
        return if names[path] == data then None else Some(path);
      }
      var found := Read(files, path);
      if found.Unreadable? {
        return Some(path);
      }
      var before := if found.Data? then Some(found.data) else None;
      names := names[path := data];
      changes := changes + [Change(path, data, before, false)];
      return None;
    }

    method AddBackup(files: Files, path: Path, original: bytes) returns (refusal: Option<Path>)
      requires path != []
      modifies this
      ensures Follows(refusal, P.AddBackup(files, old(AsPlan()), path, original))
    {
      var backup := Backup(path);
      var found := Read(files, backup);
      if found.Unreadable? || (found.Data? && found.data != original) {
        return Some(backup);
      }
      if found.Absent? {
        refusal := Add(files, backup, original);
        return;
      }
      return None;
    }

    method Copy(files: Files, path: Path, original: bytes, desired: bytes) returns (refusal: Option<Path>)
      requires path != []
      modifies this
      ensures Follows(refusal, P.Copy(files, old(AsPlan()), path, original, desired))
    {
      var existing := Read(files, path);
      if existing.Unreadable? {
        return Some(path);
      }
      if existing.Data? && existing.data == desired {
        return None;
      }
      if existing.Data? && existing.data != original {
        return Some(path);
      }
      if original != desired {
        refusal := AddBackup(files, path, original);
        if refusal.Some? {
          return;
        }
      }
      refusal := Add(files, path, desired);
    }

    method RetiredAx(files: Files, homes: seq<Home>) returns (refusal: Option<Path>)
      modifies this
      ensures Follows(refusal, PlanHomes(files, old(AsPlan()), homes))
    {
      assert homes[0..] == homes;
      for i := 0 to |homes|
        invariant PlanHomes(files, AsPlan(), homes[i..]) == PlanHomes(files, old(AsPlan()), homes)
      {
        var home := homes[i];
        assert homes[i..][0] == home && homes[i..][1..] == homes[i + 1..];
        var path := home.dir + [AX];
        var found := Read(files, path);
        if !found.Data? || !home.writable {
          continue;
        }
        refusal := AddBackup(files, path, found.data);
        if refusal.Some? {
          return;
        }
        refusal := Add(files, path, found.data);
        if refusal.Some? {
          return;
        }
        if changes != [] {
          changes := changes[|changes| - 1 := changes[|changes| - 1].(remove := true)];
        }
      }
      return None;
    }

    method CopyAll(files: Files, dest: Path, sources: seq<Source>) returns (refusal: Option<Path>)
      modifies this
      ensures Follows(refusal, PlanSources(files, old(AsPlan()), dest, sources))
    {
      assert sources[0..] == sources;
      for i := 0 to |sources|
        invariant PlanSources(files, AsPlan(), dest, sources[i..]) == PlanSources(files, old(AsPlan()), dest, sources)
      {
        var src := sources[i];
        assert sources[i..][0] == src && sources[i..][1..] == sources[i + 1..];
        refusal := Copy(files, dest + [src.name], src.original, src.desired);
        if refusal.Some? {
          return;
        }
      }
      return None;
    }

    method Run(setup: Setup, files: Files) returns (refusal: Option<Path>)
      requires AsPlan() == Plan([], map[])
      modifies this
      ensures Follows(refusal, PlanAll(setup, files))
    {
      refusal := RetiredAx(files, setup.homes);
      if refusal.Some? {
        return;
      }
      var layers := setup.layers;
      ghost var p0 := AsPlan();
      assert layers[0..] == layers;
      for i := 0 to |layers|
        invariant PlanLayers(setup, files, AsPlan(), layers[i..]) == PlanLayers(setup, files, p0, layers)
      {
        assert layers[i..][0] == layers[i] && layers[i..][1..] == layers[i + 1..];
        var derived := DeriveSources(setup, files, layers[i]);
        if derived.Invalid? {
          return Some(layers[i].dest);
        }
        if derived.Sources? {
          refusal := CopyAll(files, layers[i].dest, derived.sources);
          if refusal.Some? {
            return;
          }
        }
      }
      return None;
    }
  }
}
