/**
 What an acquisition or a recheck of a member collection looks at, in which order, and
 what it must find: an account to be compared with the kernel's record.
 */
module CustodyAccount {
  import opened Bytes
  import opened MemberProject
  import opened Descriptors

  datatype Owned = Owned(digest: string, length: nat, fd: int, observed: Observation)

  datatype Declaration = Declaration(digest: string, length: nat)

  /** What fstat on the handle and on the name reported. */
  datatype Look = Look(now: Option<Observation>, entry: Option<Observation>)

  predicate SameEntry(entry: Observation, o: Observation) {
    && entry.device == o.device && entry.inode == o.inode && entry.mode == o.mode
    && entry.uid == o.uid && entry.links == 1 && entry.size == o.size
  }

  /** Still as observed, still acceptable, still under its name. */
  predicate Same(p: Platform, look: Look, o: Owned) {
    && look.now == Some(o.observed) && ObjectFault(p, o.observed, o.length).None?
    && look.entry.Some? && SameEntry(look.entry.value, o.observed)
  }

  predicate AllSame(p: Platform, looks: seq<Look>, objects: seq<Owned>) {
    |looks| == |objects| && forall i :: 0 <= i < |looks| ==> Same(p, looks[i], objects[i])
  }

  predicate Exactly(names: seq<string>, digests: set<string>) {
    NoRepeats(names) && Members(names) == digests
  }

  function ObjectDigests(objects: seq<Owned>): set<string> {
    set o | o in objects :: o.digest
  }

  // ---- What an acquisition or a recheck looks at ----

  /** One object: opened, looked at, read to its end and looked at again; or read again between two looks. */
  datatype Visit =
    | First(pieces: seq<Sight>, after: Look)
    | Again(before: Look, pieces: seq<Sight>, raw: bytes, after: Look)

  /** Everything looked at, in its order; a listing goes by the descriptor opened for it. */
  datatype Findings = Findings(
    rootBefore: Option<Observation>, fdBefore: int, namesBefore: seq<string>,
    visits: seq<Visit>, last: seq<Look>,
    fdAfter: int, namesAfter: seq<string>, rootAfter: Option<Observation>)

  function Listing(root: int, fd: int, names: seq<string>): seq<Sight> {
    [Opened(root, SELF, fd), Listed(fd, Some(names))]
  }

  function Looked(root: int, o: Owned, look: Look): seq<Sight> {
    [Stated(o.fd, look.now), Named(root, o.digest, look.entry)]
  }

  function LookedAll(root: int, objects: seq<Owned>, looks: seq<Look>): seq<Sight>
    requires |looks| == |objects|
  {
    if objects == [] then []
    else LookedAll(root, objects[..|objects| - 1], looks[..|looks| - 1]) + Looked(root, objects[|objects| - 1], looks[|looks| - 1])
  }

  function SinceOpened(root: int, o: Owned, v: Visit): seq<Sight> {
    [Stated(o.fd, Some(o.observed))] + v.pieces + Looked(root, o, v.after)
  }

  function Visited(root: int, o: Owned, v: Visit): seq<Sight> {
    match v
    case First(_, _) => [Opened(root, o.digest, o.fd)] + SinceOpened(root, o, v)
    case Again(before, pieces, _, after) => Looked(root, o, before) + pieces + Looked(root, o, after)
  }

  function VisitedAll(root: int, objects: seq<Owned>, visits: seq<Visit>): seq<Sight>
    requires |visits| == |objects|
  {
    if objects == [] then []
    else
      VisitedAll(root, objects[..|objects| - 1], visits[..|visits| - 1])
      + Visited(root, objects[|objects| - 1], visits[|visits| - 1])
  }

  /** The record of the whole, between its two looks at the root. */
  function Account(root: int, objects: seq<Owned>, f: Findings): seq<Sight>
    requires |f.visits| == |objects| == |f.last|
  {
    [Stated(root, f.rootBefore)] + Listing(root, f.fdBefore, f.namesBefore)
    + VisitedAll(root, objects, f.visits) + LookedAll(root, objects, f.last)
    + Listing(root, f.fdAfter, f.namesAfter) + [Stated(root, f.rootAfter)]
  }

  /** What was read was the snapshot's, or hashes to the same, and the looks around it agree. */
  ghost predicate VisitOk(p: Platform, v: Visit, o: Owned, s: Snapshot) {
    match v
    case First(pieces, after) => WholeRead(pieces, o.fd, s.raw) && Same(p, after, o)
    case Again(before, pieces, raw, after) =>
      Same(p, before, o) && WholeRead(pieces, o.fd, raw) && |raw| == o.length && p.sha256(raw) == s.sum && Same(p, after, o)
  }

  ghost predicate VisitsOk(p: Platform, visits: seq<Visit>, objects: seq<Owned>, snapshots: map<string, Snapshot>, first: bool) {
    |visits| == |objects| && forall i :: 0 <= i < |objects| ==>
      && objects[i].digest in snapshots && visits[i].First? == first
      && VisitOk(p, visits[i], objects[i], snapshots[objects[i].digest])
  }

  /** Root, names and every object were found as they were first seen, at each of the looks. */
  ghost predicate Untouched(
    p: Platform, f: Findings, root: Observation, objects: seq<Owned>, snapshots: map<string, Snapshot>, first: bool)
  {
    && f.rootBefore == Some(root) == f.rootAfter && ValidRoot(p, root)
    && Exactly(f.namesBefore, ObjectDigests(objects)) && Exactly(f.namesAfter, ObjectDigests(objects))
    && VisitsOk(p, f.visits, objects, snapshots, first) && AllSame(p, f.last, objects)
  }

  predicate SnapshotOf(p: Platform, o: Owned, s: Snapshot) {
    s.sum == o.digest == p.sha256(s.raw) && |s.raw| == o.length
  }

  predicate SnapshotsOf(p: Platform, objects: seq<Owned>, snapshots: map<string, Snapshot>) {
    forall o :: o in objects ==> o.digest in snapshots && SnapshotOf(p, o, snapshots[o.digest])
  }

  lemma SnapshotsMore(p: Platform, objects: seq<Owned>, before: map<string, Snapshot>, after: map<string, Snapshot>, o: Owned)
    requires SnapshotsOf(p, objects, before) && o.digest in after && SnapshotOf(p, o, after[o.digest])
    requires forall d :: d in before ==> d in after && after[d] == before[d]
    ensures SnapshotsOf(p, objects + [o], after)
  {
    assert forall x :: x in objects + [o] <==> x in objects || x == o;
  }

  lemma VisitsMore(p: Platform, visits: seq<Visit>, objects: seq<Owned>, before: map<string, Snapshot>, after: map<string, Snapshot>,
                   first: bool, v: Visit, o: Owned)
    requires VisitsOk(p, visits, objects, before, first)
    requires o.digest in after && v.First? == first && VisitOk(p, v, o, after[o.digest])
    requires forall d :: d in before ==> d in after && after[d] == before[d]
    ensures VisitsOk(p, visits + [v], objects + [o], after, first)
  {
    hide VisitOk;
  }

  /** The record, grown look by look, has grown by the account. */
  lemma Accounted(before: seq<Sight>, root: int, objects: seq<Owned>, f: Findings)
    requires |f.visits| == |objects| == |f.last|
    ensures before + [Stated(root, f.rootBefore)] + Listing(root, f.fdBefore, f.namesBefore)
            + VisitedAll(root, objects, f.visits) + LookedAll(root, objects, f.last)
            + Listing(root, f.fdAfter, f.namesAfter) + [Stated(root, f.rootAfter)] == before + Account(root, objects, f)
  {
    hide Listing, VisitedAll, LookedAll;
    var a, b := [Stated(root, f.rootBefore)], Listing(root, f.fdBefore, f.namesBefore);
    var v, l := VisitedAll(root, objects, f.visits), LookedAll(root, objects, f.last);
    var d, e := Listing(root, f.fdAfter, f.namesAfter), [Stated(root, f.rootAfter)];
    Reassociate(before, a, b);
    Reassociate(before, a + b, v);
    Reassociate(before, a + b + v, l);
    Reassociate(before, a + b + v + l, d);
    Reassociate(before, a + b + v + l + d, e);
  }

  lemma UntouchedOf(p: Platform, f: Findings, root: Observation, objects: seq<Owned>, snapshots: map<string, Snapshot>, first: bool)
    requires f.rootBefore == Some(root) == f.rootAfter && ValidRoot(p, root)
    requires Exactly(f.namesBefore, ObjectDigests(objects)) && Exactly(f.namesAfter, ObjectDigests(objects))
    requires VisitsOk(p, f.visits, objects, snapshots, first) && AllSame(p, f.last, objects)
    ensures Untouched(p, f, root, objects, snapshots, first) && |f.visits| == |objects| == |f.last|
  {
  }

  lemma LookedMore(root: int, objects: seq<Owned>, looks: seq<Look>, o: Owned, look: Look)
    requires |looks| == |objects|
    ensures LookedAll(root, objects + [o], looks + [look]) == LookedAll(root, objects, looks) + Looked(root, o, look)
  {
    assert (objects + [o])[..|objects|] == objects && (looks + [look])[..|looks|] == looks;
  }

  lemma VisitedMore(root: int, objects: seq<Owned>, visits: seq<Visit>, o: Owned, v: Visit)
    requires |visits| == |objects|
    ensures VisitedAll(root, objects + [o], visits + [v]) == VisitedAll(root, objects, visits) + Visited(root, o, v)
  {
    assert (objects + [o])[..|objects|] == objects && (visits + [v])[..|visits|] == visits;
  }

  lemma VisitsMatch(p: Platform, visits: seq<Visit>, objects: seq<Owned>, snapshots: map<string, Snapshot>, first: bool)
    requires VisitsOk(p, visits, objects, snapshots, first)
    ensures |visits| == |objects|
  {
  }

  lemma OneMoreVisit(before: seq<Sight>, root: int, visits: seq<Visit>, objects: seq<Owned>, v: Visit, o: Owned)
    requires |visits| == |objects|
    ensures before + VisitedAll(root, objects, visits) + Visited(root, o, v) == before + VisitedAll(root, objects + [o], visits + [v])
  {
    VisitedMore(root, objects, visits, o, v);
    hide VisitedAll, Visited;
    Reassociate(before, VisitedAll(root, objects, visits), Visited(root, o, v));
  }

  lemma OneMoreLook(before: seq<Sight>, root: int, looks: seq<Look>, objects: seq<Owned>, look: Look, o: Owned)
    requires |looks| == |objects|
    ensures before + LookedAll(root, objects, looks) + Looked(root, o, look) == before + LookedAll(root, objects + [o], looks + [look])
  {
    LookedMore(root, objects, looks, o, look);
    hide LookedAll, Looked;
    Reassociate(before, LookedAll(root, objects, looks), Looked(root, o, look));
  }

  lemma OneMore<T>(s: seq<T>, i: nat)
    requires i < |s|
    ensures s[..i + 1] == s[..i] + [s[i]] && (i + 1 == |s| ==> s == s[..i] + [s[i]])
  {
  }

  // ---- An undisturbed directory ----

  /** A file that can be acquired for the declaration. */
  predicate FileOk(p: Platform, t: Tree, d: Declaration) {
    && d.digest in t.files
    && ObjectFault(p, t.files[d.digest].native, d.length).None?
    && |t.files[d.digest].data| == d.length && p.sha256(t.files[d.digest].data) == d.digest
  }

  predicate FilesOk(p: Platform, t: Tree, ds: seq<Declaration>) {
    forall i :: 0 <= i < |ds| ==> FileOk(p, t, ds[i])
  }

  /** The directory is the caller's own and holds just the declared files. */
  predicate TreeOk(p: Platform, t: Tree, lengths: Lengths) {
    ValidRoot(p, t.root) && t.files.Keys == lengths.Keys && forall d :: d in lengths ==> FileOk(p, t, Declaration(d, lengths[d]))
  }

  lemma AgainBySum(p: Platform, v: Visit, o: Owned, s: Snapshot)
    requires v.Again? && VisitOk(p, v, o, Snapshot([], s.sum))
    ensures VisitOk(p, v, o, s)
  {
  }

  const NOTHING: Findings := Findings(None, -1, [], [], [], -1, [], None)
}
