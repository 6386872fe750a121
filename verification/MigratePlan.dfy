/**
 Planning the migration of the legacy configuration home (internal/migrate): retired
 ax.json files are backed up and removed, other files copied, conflicts found before
 anything is written.  These functions say what each planning call adds.
 */
module MigratePlan {
  import opened Bytes

  type Path = seq<string>

  /** A directory entry; what is not a regular file is never opened. */
  datatype Node = Regular(data: bytes) | Special

  type Files = map<Path, Node>

  datatype Reading = Absent | Data(data: bytes) | Unreadable

  /** `before` is the content the path had when it was planned, if it was there. */
  datatype Change = Change(path: Path, data: bytes, before: Option<bytes>, remove: bool)

  datatype Plan = Plan(changes: seq<Change>, names: map<Path, bytes>)

  datatype Planned = Ok(plan: Plan) | Refused(path: Path)

  const AX: string := "ax.json"
  const BAK: string := ".bak"

  function Read(files: Files, path: Path): Reading {
    if path !in files then Absent
    else if files[path].Regular? then Data(files[path].data)
    else Unreadable
  }

  function Backup(path: Path): Path
    requires path != []
  {
    path[..|path| - 1] + [path[|path| - 1] + BAK]
  }

  /** A path is planned once; planning it again with other bytes is a conflict. */
  function Add(files: Files, p: Plan, path: Path, data: bytes): Planned {
    if path in p.names then (if p.names[path] == data then Ok(p) else Refused(path))
    else
      match Read(files, path)
      case Unreadable => Refused(path)
      case Absent => Ok(Plan(p.changes + [Change(path, data, None, false)], p.names[path := data]))
      case Data(d) => Ok(Plan(p.changes + [Change(path, data, Some(d), false)], p.names[path := data]))
  }

  /** The backup of a path: kept if it already holds the bytes, refused if it holds others, planned if absent. */
  function AddBackup(files: Files, p: Plan, path: Path, original: bytes): Planned
    requires path != []
  {
    match Read(files, Backup(path))
    case Unreadable => Refused(Backup(path))
    case Data(d) => if d == original then Ok(p) else Refused(Backup(path))
    case Absent => Add(files, p, Backup(path), original)
  }

  function Copy(files: Files, p: Plan, path: Path, original: bytes, desired: bytes): Planned
    requires path != []
  {
    match Read(files, path)
    case Unreadable => Refused(path)
    case Data(d) =>
      if d == desired then Ok(p)
      else if d != original then Refused(path)
      else CopyOver(files, p, path, original, desired)
    case Absent => CopyOver(files, p, path, original, desired)
  }

  /** A rewritten copy keeps the bytes before the rewrite, even where the destination did not exist yet. */
  function CopyOver(files: Files, p: Plan, path: Path, original: bytes, desired: bytes): Planned
    requires path != []
  {
    if original == desired then Add(files, p, path, desired)
    else
      match AddBackup(files, p, path, original)
      case Refused(q) => Refused(q)
      case Ok(p') => Add(files, p', path, desired)
  }

  function MarkLast(p: Plan): Plan {
    if p.changes == [] then p
    else p.(changes := p.changes[|p.changes| - 1 := p.changes[|p.changes| - 1].(remove := true)])
  }

  /** One possible retired policy: a special file or a protected directory leaves it where it is. */
  function RetireAx(files: Files, p: Plan, dir: Path, writable: bool): Planned {
    var path := dir + [AX];
    match Read(files, path)
    case Absent => Ok(p)
    case Unreadable => Ok(p)
    case Data(d) =>
      if !writable then Ok(p)
      else
        match AddBackup(files, p, path, d)
        case Refused(q) => Refused(q)
        case Ok(p1) =>
          match Add(files, p1, path, d)
          case Refused(q) => Refused(q)
          case Ok(p2) => Ok(MarkLast(p2))
  }

  // ---- The whole plan ----

  datatype Source = Source(name: string, original: bytes, desired: bytes)

  /** `derive` is what Run computes from a legacy directory: its files, hosts stripped and host mode merged. */
  datatype Layer = Layer(dest: Path, legacy: Option<Path>, canCopy: bool, derive: map<string, bytes> -> Option<seq<Source>>)

  datatype Home = Home(dir: Path, writable: bool)

  datatype Setup = Setup(homes: seq<Home>, layers: seq<Layer>)

  /** The files of a directory that Run looks at: retired policies and their backups are passed over. */
  function Entries(files: Files, dir: Path): map<string, Node> {
    map name | name in EntryNames(files, dir) :: files[dir + [name]]
  }

  function EntryNames(files: Files, dir: Path): (names: set<string>)
    ensures forall n :: n in names <==> dir + [n] in files && !IsAxName(n)
  {
    NamesExtend(files, dir);
    set path | path in files && |path| == |dir| + 1 && path[..|dir|] == dir && !IsAxName(path[|dir|]) :: path[|dir|]
  }

  lemma NamesExtend(files: Files, dir: Path)
    ensures forall path: Path :: |path| == |dir| + 1 && path[..|dir|] == dir ==> path == dir + [path[|dir|]]
    ensures forall n: string :: (dir + [n])[..|dir|] == dir && (dir + [n])[|dir|] == n
  {
  }

  /** Anything at all lies in the directory, retired policies included. */
  predicate Occupied(files: Files, dir: Path) {
    exists path :: path in files && |path| == |dir| + 1 && path[..|dir|] == dir
  }

  predicate IsAxName(name: string) {
    name == AX || name == AX + BAK
  }

  function AllData(entries: map<string, Node>): Option<map<string, bytes>> {
    if forall n :: n in entries ==> entries[n].Regular? then Some(map n | n in entries :: entries[n].data) else None
  }

  predicate Overlaps(a: Path, b: Path) {
    a <= b || b <= a
  }

  /** Migration must never write into a legacy home. */
  predicate Separate(setup: Setup, dest: Path) {
    forall i :: 0 <= i < |setup.layers| && setup.layers[i].legacy.Some? ==> !Overlaps(dest, setup.layers[i].legacy.value)
  }

  function PlanHomes(files: Files, p: Plan, homes: seq<Home>): Planned
    decreases |homes|
  {
    if homes == [] then Ok(p)
    else
      match RetireAx(files, p, homes[0].dir, homes[0].writable)
      case Refused(q) => Refused(q)
      case Ok(p') => PlanHomes(files, p', homes[1..])
  }

  function PlanSources(files: Files, p: Plan, dest: Path, sources: seq<Source>): Planned
    decreases |sources|
  {
    if sources == [] then Ok(p)
    else
      match Copy(files, p, dest + [sources[0].name], sources[0].original, sources[0].desired)
      case Refused(q) => Refused(q)
      case Ok(p') => PlanSources(files, p', dest, sources[1..])
  }

  /** The sources a layer copies, or None where it copies nothing; a refusal reads back as one. */
  datatype Derived = Nothing | Sources(sources: seq<Source>) | Invalid

  function DeriveSources(setup: Setup, files: Files, layer: Layer): Derived {
    if layer.legacy.None? then Nothing
    else
      var entries := Entries(files, layer.legacy.value);
      if layer.canCopy && Occupied(files, layer.legacy.value) && !Separate(setup, layer.dest) then Invalid
      else
        match AllData(entries)
        case None => Invalid
        case Some(data) =>
          match layer.derive(data)
          case None => Invalid
          case Some(sources) => if layer.canCopy then Sources(sources) else Nothing
  }

  function PlanLayers(setup: Setup, files: Files, p: Plan, layers: seq<Layer>): Planned
    decreases |layers|
  {
    if layers == [] then Ok(p)
    else
      match DeriveSources(setup, files, layers[0])
      case Invalid => Refused(layers[0].dest)
      case Nothing => PlanLayers(setup, files, p, layers[1..])
      case Sources(sources) =>
        match PlanSources(files, p, layers[0].dest, sources)
        case Refused(q) => Refused(q)
        case Ok(p') => PlanLayers(setup, files, p', layers[1..])
  }

  /** Retired policies first, then the layers. */
  function PlanAll(setup: Setup, files: Files): Planned {
    match PlanHomes(files, Plan([], map[]), setup.homes)
    case Refused(q) => Refused(q)
    case Ok(p) => PlanLayers(setup, files, p, setup.layers)
  }
}
