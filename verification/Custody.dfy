/**
 Descriptor custody of a member collection (internal/memberobjects): what acquisition,
 rechecking and closing do to the process's descriptors over every early exit, and what
 they looked at before they say yes.
 */
module Custody {
  import opened Bytes
  import opened MemberProject
  import opened Descriptors
  import opened CustodyAccount

  function Fds(objects: seq<Owned>): (fds: seq<int>)
    ensures |fds| == |objects| && forall i :: 0 <= i < |fds| ==> fds[i] == objects[i].fd
  {
    seq(|objects|, i requires 0 <= i < |objects| => objects[i].fd)
  }

  function AsSet(s: seq<int>): set<int> {
    set x | x in s
  }

  /** Between two logs each of the descriptors was closed exactly n times. */
  predicate Closed(before: seq<int>, after: seq<int>, fds: seq<int>, n: nat) {
    before <= after && forall fd :: fd in fds ==> multiset(after[|before|..])[fd] == n
  }

  lemma ClosedSum(a: seq<int>, b: seq<int>, c: seq<int>, fds: seq<int>, m: nat, n: nat)
    requires Closed(a, b, fds, m) && Closed(b, c, fds, n)
    ensures Closed(a, c, fds, m + n)
  {
    assert c[|a|..] == b[|a|..] + c[|b|..];
  }

  lemma ClosedOnce(before: seq<int>, fds: seq<int>)
    requires NoRepeats(fds)
    ensures Closed(before, before + fds, fds, 1)
  {
    assert (before + fds)[|before|..] == fds;
    forall fd | fd in fds
      ensures multiset(fds)[fd] == 1
    {
      OnlyOnce(fds, fd);
    }
  }

  lemma {:induction false} OnlyOnce(fds: seq<int>, fd: int)
    requires NoRepeats(fds)
    ensures multiset(fds)[fd] == if fd in fds then 1 else 0
    decreases |fds|
  {
    if fds != [] {
      assert fds == [fds[0]] + fds[1..];
      OnlyOnce(fds[1..], fd);
    }
  }

  lemma ClosedOther(before: seq<int>, x: int, fds: seq<int>)
    requires x !in fds
    ensures Closed(before, before + [x], fds, 0)
  {
    assert (before + [x])[|before|..] == [x];
  }

  lemma HandleAt(handles: seq<int>, i: nat)
    requires i < |handles| && NoRepeats(handles)
    ensures handles[i] in handles && handles[i] !in AsSet(handles[..i])
    ensures handles[..i + 1] == handles[..i] + [handles[i]]
    ensures AsSet(handles[..i + 1]) == AsSet(handles[..i]) + {handles[i]}
  {
  }

  class Retained {
    const k: Kernel
    const p: Platform
    var root: int
    var observed: Observation
    var objects: seq<Owned>

    constructor (kernel: Kernel, platform: Platform, fd: int, o: Observation)
      ensures k == kernel && p == platform && root == fd && observed == o && objects == []
    {
      k, p, root, observed, objects := kernel, platform, fd, o, [];
    }

    ghost function Handles(): seq<int>
      reads this
    {
      Fds(objects) + [root]
    }

    /** Every handle is open, and none is held twice. */
    ghost predicate Holds()
      reads this, k`open
    {
      NoRepeats(Handles()) && forall fd :: fd in Handles() ==> fd >= 0 && fd in k.open
    }

    /** In an undisturbed directory the handle is the file's, and it is as it was observed. */
    ghost predicate Mirrors(o: Owned)
      reads this, k`names
    {
      k.tree.Some? ==>
        && o.fd in k.names && k.names[o.fd] == o.digest != SELF
        && FileOk(p, k.tree.value, Declaration(o.digest, o.length)) && o.observed == k.tree.value.files[o.digest].native
    }

    ghost predicate AllMirror()
      reads this, k`names
    {
      forall o :: o in objects ==> Mirrors(o)
    }

    ghost predicate RootNamed()
      reads this, k`names
    {
      k.tree.Some? ==> root in k.names && k.names[root] == SELF
    }

    /** An undisturbed directory that was acquired as a whole. */
    ghost predicate Quiet()
      reads this, k`names
    {
      && AllMirror() && RootNamed()
      && (k.tree.Some? ==>
            && observed == k.tree.value.root
            && ValidRoot(p, observed) && k.tree.value.files.Keys == ObjectDigests(objects))
    }

    ghost predicate Dropped()
      reads this
    {
      forall fd :: fd in Handles() ==> fd == -1
    }

    method CloseObject(i: nat) returns (ok: bool)
      requires i < |objects| && objects[i].fd >= 0 && objects[i].fd in k.open
      modifies this`objects, k`open, k`log
      ensures objects == old(objects)[i := old(objects)[i].(fd := -1)]
      ensures k.open == old(k.open) - {old(objects)[i].fd} && k.log == old(k.log) + [old(objects)[i].fd]
    {
      var fd := objects[i].fd;
      objects := objects[i := objects[i].(fd := -1)];
      ok := k.CloseFD(fd);
    }

    method CloseObjects() returns (failed: bool)
      requires Holds()
      modifies this`objects, k`open, k`log
      ensures |objects| == |old(objects)| && forall o :: o in objects ==> o.fd == -1
      ensures k.open == old(k.open) - AsSet(old(Handles())[..|objects|])
      ensures k.log == old(k.log) + old(Handles())[..|objects|]
    {
      ghost var handles := Handles();
      failed := false;
      for i := 0 to |objects|
        invariant |objects| == |old(objects)|
        invariant forall j :: 0 <= j < i ==> objects[j].fd == -1
        invariant forall j :: i <= j < |objects| ==> objects[j] == old(objects)[j]
        invariant k.open == old(k.open) - AsSet(handles[..i])
        invariant k.log == old(k.log) + handles[..i]
      {
        HandleAt(handles, i);
        assert handles[i] == objects[i].fd;
        if objects[i].fd >= 0 {
          var ok := CloseObject(i);
          failed := failed || !ok;
        }
      }
    }

    /** Gives every handle up, each by one close, whatever the closes report. */
    method Close() returns (failed: bool)
      requires Holds()
      modifies this, k`open, k`log
      ensures Dropped() && |objects| == |old(objects)|
      ensures k.open == old(k.open) - AsSet(old(Handles()))
      ensures k.log == old(k.log) + old(Handles())
    {
      hide NoRepeats;
      ghost var handles := Handles();
      HandleAt(handles, |objects|);
      assert handles[|objects|] == root && handles[..|objects| + 1] == handles;
      failed := CloseObjects();
      var fd := root;
      root := -1;
      if fd >= 0 {
        var ok := k.CloseFD(fd);
        failed := failed || !ok;
      }
      Reassociate(old(k.log), handles[..|objects|], [fd]);
    }

    method EntryMatches(o: Owned) returns (matches: bool, ghost entry: Option<Observation>)
      modifies k`record
      ensures k.record == old(k.record) + [Named(root, o.digest, entry)]
      ensures matches <==> entry.Some? && SameEntry(entry.value, o.observed)
      ensures Mirrors(o) && k.tree.Some? ==> matches
    {
      var s := k.ObserveEntry(root, o.digest);
      matches := s.Some? && s.value.device == o.observed.device && s.value.inode == o.observed.inode
                 && s.value.mode == o.observed.mode && s.value.uid == o.observed.uid
                 && s.value.links == 1 && s.value.size == o.observed.size;
      entry := s;
    }

    /** The names of the directory are exactly the declared digests; a temporary handle is opened and closed. */
    method Enumerate(digests: set<string>) returns (error: Option<Error>, ghost listing: int, ghost found: seq<string>)
      requires Holds()
      modifies k
      ensures error.None? ==> Exactly(found, digests) && k.record == old(k.record) + Listing(root, listing, found)
      ensures k.open == old(k.open) && Holds() && Closed(old(k.log), k.log, Handles(), 0)
      ensures old(AllMirror()) ==> AllMirror()
      ensures old(Quiet()) ==> Quiet()
      ensures old(RootNamed()) ==> RootNamed()
      ensures k.tree.Some? ==> (error.None? <==> k.tree.value.files.Keys == digests)
    {
      ObjectHandles();
      hide FileOk;
      found := [];
      var fd := k.OpenAt(root, SELF);
      listing := fd;
      if fd == -1 {
        error := Some(InputMismatch);
        return;
      }
      assert fd !in Handles();
      ClosedOther(k.log, fd, Handles());
      var named := k.Works();
      if !named {
        var _ := k.CloseFD(fd);
        error := Some(InputMismatch);
        return;
      }
      var names := k.ListNames(fd, |digests| + 1);
      if names.None? || |names.value| != |digests| {
        error := Some(InputMismatch);
      } else {
        found := names.value;
        var matches := MatchNames(names.value, digests);
        error := if matches then None else Some(InputMismatch);
      }
      if names.Some? && k.tree.Some? {
        CountMembers(names.value);
      }
      var ok := k.CloseFD(fd);
      if !ok && error.None? {
        error := Some(InputMismatch);
      }
    }

    /** The object is still what was observed and is still the entry of its name. */
    method Unchanged(o: Owned) returns (error: Option<Error>, ghost look: Look)
      modifies k`record
      ensures error.None? <==> Same(p, look, o)
      ensures error.None? ==> k.record == old(k.record) + Looked(root, o, look)
      ensures Mirrors(o) && k.tree.Some? ==> error.None?
    {
      var now, fault := InspectObject(k, p, o.fd, o.length);
      look := Look(now, None);
      if now.None? {
        error := Some(fault);
        return;
      }
      var matches: bool;
      ghost var entry: Option<Observation>;
      matches, entry := EntryMatches(o);
      look := Look(now, entry);
      error := if now.value != o.observed || !matches then Some(InputMismatch) else None;
    }

    method AllUnchanged() returns (error: Option<Error>, ghost looks: seq<Look>)
      modifies k`record
      ensures error.None? ==> AllSame(p, looks, objects) && k.record == old(k.record) + LookedAll(root, objects, looks)
      ensures k.tree.Some? && AllMirror() ==> error.None?
    {
      looks := [];
      for i := 0 to |objects|
        invariant AllSame(p, looks, objects[..i])
        invariant k.record == old(k.record) + LookedAll(root, objects[..i], looks)
      {
        ghost var look: Look;
        error, look := Unchanged(objects[i]);
        if error.Some? {
          return;
        }
        OneMoreLook(old(k.record), root, looks, objects[..i], look, objects[i]);
        OneMore(objects, i);
        looks := looks + [look];
      }
      assert objects[..|objects|] == objects;
      error := None;
    }

    /** A snapshot per object: as long as declared and with the declared hash. */
    ghost predicate Snapshots(snapshots: map<string, Snapshot>)
      reads this
    {
      SnapshotsOf(p, objects, snapshots)
    }

    /** The handles are what was opened since. */
    ghost predicate OpenedSince(base: set<int>)
      reads this, k`open
    {
      Holds() && base !! AsSet(Handles()) && k.open == base + AsSet(Handles())
    }

    /** Opens and takes custody at once, whatever follows. */
    method OpenObject(d: Declaration, ghost base: set<int>) returns (found: bool)
      requires OpenedSince(base) && d.digest != SELF
      modifies this`objects, k`open, k`names, k`record
      ensures OpenedSince(base)
      ensures old(RootNamed()) ==> RootNamed()
      ensures !found ==> objects == old(objects)
      ensures found ==>
                && |objects| == |old(objects)| + 1 && objects[..|old(objects)|] == old(objects)
                && var o := objects[|old(objects)|];
                   && o.digest == d.digest && o.length == d.length && o.fd in k.names && k.names[o.fd] == d.digest
                   && k.record == old(k.record) + [Opened(root, d.digest, o.fd)]
      ensures old(AllMirror()) ==> forall o :: o in old(objects) ==> Mirrors(o)
      ensures k.tree.Some? ==> (found <==> d.digest in k.tree.value.files)
    {
      ghost var handles := Handles();
      ObjectHandles();
      var fd := k.OpenAt(root, d.digest);
      if fd == -1 {
        return false;
      }
      var unseen: Observation := *;
      objects := objects + [Owned(d.digest, d.length, fd, unseen)];
      HoldsOneMore(handles, Handles(), fd);
      return true;
    }

    /** Inspects the object just opened, reads it and inspects it again. */
    method ReadObject(d: Declaration, ghost base: set<int>) returns (s: Option<Snapshot>, error: Error, ghost visit: Visit)
      requires OpenedSince(base) && objects != []
      requires var o := objects[|objects| - 1];
               o.digest == d.digest != SELF && o.length == d.length && o.fd in k.names && k.names[o.fd] == d.digest
      modifies this`objects, k`record
      ensures OpenedSince(base) && |objects| == |old(objects)|
      ensures var i := |objects| - 1;
              objects[..i] == old(objects)[..i] && objects[i] == old(objects)[i].(observed := objects[i].observed)
      ensures s.Some? ==>
                var o := objects[|objects| - 1];
                && Mirrors(o) && visit.First? && VisitOk(p, visit, o, s.value) && SnapshotOf(p, o, s.value)
                && k.record == old(k.record) + SinceOpened(root, o, visit)
      ensures k.tree.Some? && d.digest in k.tree.value.files ==> (s.Some? <==> FileOk(p, k.tree.value, d))
    {
      visit := First([], Look(None, None));
      hide WholeRead, NoRepeats;
      var i := |objects| - 1;
      var fd := objects[i].fd;
      var o, fault := InspectObject(k, p, fd, d.length);
      if o.None? {
        return None, fault, visit;
      }
      ghost var handles := Handles();
      objects := objects[i := objects[i].(observed := o.value)];
      assert Handles() == handles;
      ghost var pieces: seq<Sight>;
      s, error, pieces := ReadObserved(k, p, fd, d.length);
      if s.None? {
        return;
      }
      if s.value.sum != d.digest {
        return None, InputMismatch, visit;
      }
      var changed: Option<Error>;
      ghost var look: Look;
      changed, look := Unchanged(objects[i]);
      if changed.Some? {
        return None, changed.value, visit;
      }
      visit := First(pieces, look);
      assert k.record == old(k.record) + ([Stated(fd, o)] + pieces + Looked(root, objects[i], look));
    }

    /** Opens, inspects, reads and inspects again; the handle stays held on a refusal. */
    method AcquireObject(d: Declaration, ghost base: set<int>) returns (s: Option<Snapshot>, error: Error, ghost visit: Visit)
      requires OpenedSince(base) && d.digest != SELF
      modifies this`objects, k`open, k`names, k`record
      ensures OpenedSince(base)
      ensures old(RootNamed()) ==> RootNamed()
      ensures s.Some? && old(AllMirror()) ==> AllMirror()
      ensures s.Some? ==>
                && |objects| == |old(objects)| + 1 && objects[..|old(objects)|] == old(objects)
                && var o := objects[|old(objects)|];
                   && o.digest == d.digest && o.length == d.length
                   && visit.First? && VisitOk(p, visit, o, s.value) && SnapshotOf(p, o, s.value)
                   && k.record == old(k.record) + Visited(root, o, visit)
      ensures k.tree.Some? ==> (s.Some? <==> FileOk(p, k.tree.value, d))
    {
      visit := First([], Look(None, None));
      hide WholeRead, NoRepeats, ObjectFault, VisitOk, SnapshotOf, Same;
      var found := OpenObject(d, base);
      if !found {
        return None, InputMismatch, visit;
      }
      s, error, visit := ReadObject(d, base);
      if s.Some? {
        ghost var o := objects[|old(objects)|];
        Reassociate(old(k.record), [Opened(root, d.digest, o.fd)], SinceOpened(root, o, visit));
        assert objects == old(objects) + [o];
      }
    }

    /** Looks, reads and looks again. */
    method RecheckObject(o: Owned, sum: string) returns (error: Option<Error>, ghost visit: Visit)
      modifies k`record
      ensures error.None? ==>
                && visit.Again? && VisitOk(p, visit, o, Snapshot([], sum))
                && k.record == old(k.record) + Visited(root, o, visit)
      ensures k.tree.Some? && Mirrors(o) ==> (error.None? <==> sum == o.digest)
    {
      hide WholeRead;
      visit := First([], Look(None, None));
      ghost var before, pieces, after;
      error, before := Unchanged(o);
      if error.Some? {
        return;
      }
      var s, fault;
      s, fault, pieces := ReadObserved(k, p, o.fd, o.length);
      if s.None? {
        error := Some(fault);
        return;
      }
      if s.value.sum != sum {
        error := Some(InputMismatch);
        return;
      }
      error, after := Unchanged(o);
      visit := Again(before, pieces, s.value.raw, after);
    }

    lemma InCustody(snapshots: map<string, Snapshot>, o: Owned)
      requires Snapshots(snapshots) && o in objects
      ensures o.digest in snapshots && snapshots[o.digest].sum == o.digest && (AllMirror() ==> Mirrors(o))
    {
    }

    method RecheckObjects(snapshots: map<string, Snapshot>) returns (error: Option<Error>, ghost visits: seq<Visit>)
      requires Snapshots(snapshots)
      modifies k`record
      ensures error.None? ==>
                && VisitsOk(p, visits, objects, snapshots, false)
                && k.record == old(k.record) + VisitedAll(root, objects, visits)
      ensures k.tree.Some? && AllMirror() ==> error.None?
    {
      visits := [];
      assert VisitsOk(p, visits, objects[..0], snapshots, false);
      assert VisitedAll(root, objects[..0], visits) == [];
      hide *;
      for i := 0 to |objects|
        invariant |visits| == i && VisitsOk(p, visits, objects[..i], snapshots, false)
        invariant k.record == old(k.record) + VisitedAll(root, objects[..i], visits)
      {
        var o := objects[i];
        ghost var visit: Visit;
        InCustody(snapshots, o);
        error, visit := RecheckObject(o, snapshots[o.digest].sum);
        if error.Some? {
          return;
        }
        AgainBySum(p, visit, o, snapshots[o.digest]);
        OneMoreVisit(old(k.record), root, visits, objects[..i], visit, o);
        VisitsMore(p, visits, objects[..i], snapshots, snapshots, false, visit, o);
        OneMore(objects, i);
        visits := visits + [visit];
      }
      assert objects[..|objects|] == objects;
      error := None;
    }

    lemma QuietTells()
      ensures Quiet() ==> AllMirror()
      ensures RootNamed() && k.tree.Some? ==> k.Behind(root) == Some(k.tree.value.root)
      ensures Quiet() && k.tree.Some? ==>
                k.Behind(root) == Some(observed) && ValidRoot(p, observed) && k.tree.value.files.Keys == ObjectDigests(objects)
    {
    }

    lemma BecomesQuiet()
      requires AllMirror() && RootNamed() && ValidRoot(p, observed)
      requires k.tree.Some? ==> observed == k.tree.value.root && k.tree.value.files.Keys == ObjectDigests(objects)
      ensures Quiet()
    {
    }

    /** Every object with its bytes, and every object once more. */
    method LookThrough(snapshots: map<string, Snapshot>) returns (error: Option<Error>, ghost visits: seq<Visit>, ghost last: seq<Look>)
      requires Snapshots(snapshots)
      modifies k`record
      ensures error.None? ==>
                && VisitsOk(p, visits, objects, snapshots, false) && AllSame(p, last, objects)
                && |visits| == |objects| == |last|
                && k.record == old(k.record) + VisitedAll(root, objects, visits) + LookedAll(root, objects, last)
      ensures k.tree.Some? && AllMirror() ==> error.None?
    {
      hide *;
      last := [];
      error, visits := RecheckObjects(snapshots);
      if error.Some? {
        return;
      }
      VisitsMatch(p, visits, objects, snapshots, false);
      error, last := AllUnchanged();
    }

    /** Looks at everything again, at each object before and after its bytes and once more at the end, and closes none
        of the handles. */
    method Recheck(snapshots: map<string, Snapshot>) returns (error: Option<Error>, ghost f: Findings)
      requires Holds() && Snapshots(snapshots)
      modifies k
      ensures k.open == old(k.open) && Holds() && Snapshots(snapshots)
      ensures Closed(old(k.log), k.log, Handles(), 0)
      ensures error.None? ==>
                && Untouched(p, f, observed, objects, snapshots, false)
                && k.record == old(k.record) + Account(root, objects, f)
      ensures old(Quiet()) ==> Quiet() && (k.tree.Some? ==> error.None?)
    {
      f := NOTHING;
      QuietTells();
      ghost var handles, log := Handles(), k.log;
      assert Closed(log, log, handles, 0) by {
        assert log[|log|..] == [];
      }
      hide *;
      var now := k.Observe(root);
      ghost var rootBefore := now;
      if now.None? || now.value != observed || !ValidRoot(p, now.value) {
        error := Some(InputMismatch);
        return;
      }
      ghost var fdBefore, namesBefore, fdAfter, namesAfter, visits, last;
      var digests := ObjectDigests(objects);
      error, fdBefore, namesBefore := Enumerate(digests);
      if error.Some? {
        return;
      }
      ghost var log1 := k.log;
      error, visits, last := LookThrough(snapshots);
      if error.Some? {
        return;
      }
      error, fdAfter, namesAfter := Enumerate(digests);
      ClosedSum(log, log1, k.log, handles, 0, 0);
      if error.Some? {
        return;
      }
      QuietTells();
      now := k.Observe(root);
      if now.None? || now.value != observed {
        error := Some(InputMismatch);
        return;
      }
      f := Findings(rootBefore, fdBefore, namesBefore, visits, last, fdAfter, namesAfter, now);
      UntouchedOf(p, f, observed, objects, snapshots, false);
      Accounted(old(k.record), root, objects, f);
    }

    lemma ObjectHandles()
      ensures forall i :: 0 <= i < |objects| ==> objects[i].fd in Handles()
    {
      forall i | 0 <= i < |objects|
        ensures objects[i].fd in Handles()
      {
        assert Handles()[i] == objects[i].fd;
      }
    }
  }

  lemma HoldsOneMore(before: seq<int>, after: seq<int>, fd: int)
    requires before != [] && NoRepeats(before) && fd !in before
    requires after == before[..|before| - 1] + [fd] + [before[|before| - 1]]
    ensures NoRepeats(after) && forall x :: x in after <==> x in before || x == fd
  {
    assert before == before[..|before| - 1] + [before[|before| - 1]];
  }

  /** As many names as there are digests, each one a digest and struck out once: the same set. */
  method MatchNames(names: seq<string>, digests: set<string>) returns (matches: bool)
    requires |names| == |digests|
    ensures matches <==> Exactly(names, digests)
  {
    var want := digests;
    for i := 0 to |names|
      invariant NoRepeats(names[..i])
      invariant (set n | n in names[..i]) + want == digests && (set n | n in names[..i]) !! want
    {
      assert names[..i + 1] == names[..i] + [names[i]];
      if names[i] !in want {
        assert names[i] in names;
        return false;
      }
      want := want - {names[i]};
    }
    assert names[..|names|] == names;
    if want != {} {
      return false;
    }
    return true;
  }

  // ---- The collection ----

  class Collection {
    const custody: Retained
    const snapshots: map<string, Snapshot>
    var closed: bool
    var closeFailed: bool
    ghost const handles: seq<int>

    constructor (r: Retained, snaps: map<string, Snapshot>)
      requires r.Holds() && r.Snapshots(snaps) && r.Quiet()
      ensures Valid() && !closed && custody == r && snapshots == snaps && handles == r.Handles()
    {
      custody, snapshots, closed, closeFailed := r, snaps, false, false;
      handles := r.Handles();
    }

    ghost predicate Valid()
      reads this, custody, custody.k`open, custody.k`names
    {
      && NoRepeats(handles)
      && if closed then custody.Dropped()
         else custody.Holds() && custody.Handles() == handles && custody.Snapshots(snapshots) && custody.Quiet()
    }

    /** A refusal invalidates the collection and gives every handle up. */
    method Recheck() returns (error: Option<Error>, ghost f: Findings)
      requires Valid()
      modifies this, custody, custody.k
      ensures Valid()
      ensures old(closed) ==> error == Some(InputMismatch)
      ensures error.None? ==>
                && Untouched(custody.p, f, custody.observed, custody.objects, snapshots, false)
                && custody.k.record == old(custody.k.record) + Account(custody.root, custody.objects, f)
      ensures custody.k.tree.Some? && !old(closed) ==> error.None?
      ensures closed <==> old(closed) || error.Some?
      ensures old(closed) ==> custody.k.open == old(custody.k.open) && closeFailed == old(closeFailed)
      ensures !old(closed) ==> custody.k.open == old(custody.k.open) - (if closed then AsSet(handles) else {})
      ensures Closed(old(custody.k.log), custody.k.log, handles, if closed && !old(closed) then 1 else 0)
    {
      ghost var log := custody.k.log;
      assert log[|log|..] == [];
      f := NOTHING;
      if closed {
        error := Some(InputMismatch);
        return;
      }
      error, f := custody.Recheck(snapshots);
      if error.Some? {
        ghost var log1 := custody.k.log;
        closed := true;
        closeFailed := custody.Close();
        ClosedOnce(log1, handles);
        ClosedSum(log, log1, custody.k.log, handles, 0, 1);
      }
    }

    /** The first call closes every handle; later calls repeat its result and close nothing. */
    method Close() returns (failed: bool)
      requires Valid()
      modifies this, custody, custody.k
      ensures Valid() && closed && failed == closeFailed
      ensures old(closed) ==> failed == old(closeFailed) && custody.k.open == old(custody.k.open)
      ensures !old(closed) ==> custody.k.open == old(custody.k.open) - AsSet(handles)
      ensures Closed(old(custody.k.log), custody.k.log, handles, if old(closed) then 0 else 1)
    {
      ghost var log := custody.k.log;
      assert log[|log|..] == [];
      if !closed {
        closed := true;
        closeFailed := custody.Close();
        ClosedOnce(log, handles);
      }
      return closeFailed;
    }
  }

  datatype Use = DoRecheck | DoClose

  /** After any calls, every handle was closed exactly once if the collection is closed, and not at all if not. */
  method CallAll(c: Collection, uses: seq<Use>)
    requires c.Valid() && !c.closed && AsSet(c.handles) <= c.custody.k.open
    modifies c, c.custody, c.custody.k
    ensures c.Valid()
    ensures c.custody.k.open == old(c.custody.k.open) - (if c.closed then AsSet(c.handles) else {})
    ensures Closed(old(c.custody.k.log), c.custody.k.log, c.handles, if c.closed then 1 else 0)
    ensures DoClose in uses ==> c.closed
  {
    ghost var log := c.custody.k.log;
    assert log[|log|..] == [];
    for i := 0 to |uses|
      invariant c.Valid()
      invariant c.custody.k.open == old(c.custody.k.open) - (if c.closed then AsSet(c.handles) else {})
      invariant Closed(log, c.custody.k.log, c.handles, if c.closed then 1 else 0)
      invariant DoClose in uses[..i] ==> c.closed
    {
      ghost var before, was := c.custody.k.log, c.closed;
      assert uses[..i + 1] == uses[..i] + [uses[i]];
      match uses[i] {
        case DoRecheck =>
          ghost var f: Findings;
          var error: Option<Error>;
          error, f := c.Recheck();
        case DoClose =>
          var _ := c.Close();
      }
      ClosedSum(log, before, c.custody.k.log, c.handles, if was then 1 else 0, if c.closed && !was then 1 else 0);
    }
    assert uses[..|uses|] == uses;
  }

  // ---- Acquisition ----

  /** An independent handle on the caller's directory; whatever fails, nothing stays open. */
  method OpenRoot(k: Kernel, p: Platform, directory: int) returns (r: Retained?, initial: Observation)
    modifies k
    ensures r == null ==> k.open == old(k.open)
    ensures r != null ==>
              && fresh(r) && r.k == k && r.p == p && r.objects == [] && r.OpenedSince(old(k.open))
              && ValidRoot(p, initial) && r.RootNamed()
              && k.record == old(k.record) + [Stated(directory, Some(initial)), Opened(directory, SELF, r.root)]
    ensures k.tree.Some? && old(k.IsDirectory(directory)) ==>
              && (r != null <==> ValidRoot(p, k.tree.value.root))
              && (r != null ==> initial == k.tree.value.root)
  {
    var root, refused := -1, false;
    var seen := k.Observe(directory);
    initial :| true;
    if seen.None? || !ValidRoot(p, seen.value) {
      refused := true;
    } else {
      initial := seen.value;
      root := k.OpenAt(directory, SELF);
      refused := root == -1;
    }
    var controlled := k.Works();
    if !controlled || refused {
      if root >= 0 {
        var _ := k.CloseFD(root);
      }
      return null, initial;
    }
    r := new Retained(k, p, root, initial);
  }

  function Digests(ds: seq<Declaration>): set<string> {
    set d | d in ds :: d.digest
  }

  predicate DistinctDigests(ds: seq<Declaration>) {
    forall i, j :: 0 <= i < j < |ds| ==> ds[i].digest != ds[j].digest
  }

  lemma DigestsAppend(ds: seq<Declaration>, d: Declaration)
    ensures DistinctDigests(ds) && d.digest !in Digests(ds) ==> DistinctDigests(ds + [d])
    ensures DistinctDigests(ds + [d]) ==> d.digest !in Digests(ds)
    ensures Digests(ds + [d]) == Digests(ds) + {d.digest}
  {
    var all := ds + [d];
    assert forall x :: x in all <==> x in ds || x == d;
    assert forall i :: 0 <= i < |ds| ==> all[i] == ds[i];
    assert all[|ds|] == d;
  }

  /** Each declaration is one of the lengths. */
  predicate Declares(ds: seq<Declaration>, lengths: Lengths) {
    forall i :: 0 <= i < |ds| ==> ds[i].digest in lengths && lengths[ds[i].digest] == ds[i].length
  }

  lemma DeclaresAppend(ds: seq<Declaration>, lengths: Lengths, digest: string)
    requires Declares(ds, lengths) && digest in lengths
    ensures Declares(ds + [Declaration(digest, lengths[digest])], lengths)
  {
  }

  method ListDeclarations(lengths: Lengths) returns (ds: seq<Declaration>)
    ensures |ds| == |lengths| && Digests(ds) == lengths.Keys && DistinctDigests(ds) && Declares(ds, lengths)
  {
    ds := [];
    var left := lengths.Keys;
    assert Digests(ds) == {} && DistinctDigests(ds) && Declares(ds, lengths) && |left| == |lengths|;
    hide Digests, DistinctDigests, Declares;
    while left != {}
      invariant left <= lengths.Keys && |ds| + |left| == |lengths|
      invariant Digests(ds) == lengths.Keys - left && DistinctDigests(ds) && Declares(ds, lengths)
      decreases |left|
    {
      var digest :| digest in left;
      DigestsAppend(ds, Declaration(digest, lengths[digest]));
      DeclaresAppend(ds, lengths, digest);
      ds := ds + [Declaration(digest, lengths[digest])];
      left := left - {digest};
    }
  }

  predicate Matches(objects: seq<Owned>, ds: seq<Declaration>) {
    |objects| == |ds| && forall i :: 0 <= i < |ds| ==> objects[i].digest == ds[i].digest && objects[i].length == ds[i].length
  }

  /** What the next declaration adds to those before it. */
  lemma Prefix(r: Retained, ds: seq<Declaration>, i: nat)
    requires i < |ds| && DistinctDigests(ds) && Apart(ds)
    ensures ds[i].digest !in Digests(ds[..i]) && Digests(ds[..i + 1]) == Digests(ds[..i]) + {ds[i].digest}
    ensures ds[i].digest != SELF
    ensures r.k.tree.Some? ==>
              var t := r.k.tree.value;
              && (FilesOk(r.p, t, ds) ==> FileOk(r.p, t, ds[i]))
              && (FilesOk(r.p, t, ds[..i]) && FileOk(r.p, t, ds[i]) ==> FilesOk(r.p, t, ds[..i + 1]))
  {
    hide FileOk;
    assert ds[..i + 1] == ds[..i] + [ds[i]];
    assert DistinctDigests(ds[..i + 1]);
    DigestsAppend(ds[..i], ds[i]);
  }

  lemma MatchesMore(objects: seq<Owned>, ds: seq<Declaration>, o: Owned, d: Declaration)
    requires Matches(objects, ds) && o.digest == d.digest && o.length == d.length
    ensures Matches(objects + [o], ds + [d])
  {
  }

  /** What was acquired for the first declarations, and how the record grew since it stood at `before`. */
  ghost predicate Acquired(
    p: Platform, root: int, objects: seq<Owned>, ds: seq<Declaration>,
    snapshots: map<string, Snapshot>, visits: seq<Visit>, before: seq<Sight>, record: seq<Sight>)
  {
    && SnapshotsOf(p, objects, snapshots) && snapshots.Keys == Digests(ds) && Matches(objects, ds)
    && VisitsOk(p, visits, objects, snapshots, true)
    && record == before + VisitedAll(root, objects, visits)
  }

  lemma AcquiredMore(
    p: Platform, root: int, objects: seq<Owned>, ds: seq<Declaration>,
    snapshots: map<string, Snapshot>, visits: seq<Visit>, before: seq<Sight>, record: seq<Sight>,
    o: Owned, s: Snapshot, visit: Visit, d: Declaration)
    requires Acquired(p, root, objects, ds, snapshots, visits, before, record)
    requires o.digest == d.digest && d.digest !in Digests(ds) && o.length == d.length
    requires visit.First? && VisitOk(p, visit, o, s) && SnapshotOf(p, o, s)
    ensures Acquired(p, root, objects + [o], ds + [d], snapshots[d.digest := s], visits + [visit],
                     before, record + Visited(root, o, visit))
  {
    var after := snapshots[d.digest := s];
    hide VisitsOk, VisitOk, SnapshotOf, Visited, VisitedAll, SnapshotsOf, Matches, Digests;
    assert after.Keys == Digests(ds + [d]) by {
      DigestsAppend(ds, d);
    }
    assert Matches(objects + [o], ds + [d]) by {
      MatchesMore(objects, ds, o, d);
    }
    assert VisitsOk(p, visits + [visit], objects + [o], after, true) by {
      VisitsMore(p, visits, objects, snapshots, after, true, visit, o);
    }
    assert SnapshotsOf(p, objects + [o], after) by {
      SnapshotsMore(p, objects, snapshots, after, o);
    }
    assert record + Visited(root, o, visit) == before + VisitedAll(root, objects + [o], visits + [visit]) by {
      VisitsMatch(p, visits, objects, snapshots, true);
      OneMoreVisit(before, root, visits, objects, visit, o);
    }
  }

  method AcquireNext(
    r: Retained, ds: seq<Declaration>, i: nat, snapshots0: map<string, Snapshot>,
    ghost visits0: seq<Visit>, ghost base: set<int>, ghost before: seq<Sight>)
    returns (snapshots: map<string, Snapshot>, error: Option<Error>, ghost visits: seq<Visit>)
    requires i < |ds| && DistinctDigests(ds) && Apart(ds)
    requires r.OpenedSince(base) && r.AllMirror() && Acquired(r.p, r.root, r.objects, ds[..i], snapshots0, visits0, before, r.k.record)
    modifies r`objects, r.k`open, r.k`names, r.k`record
    ensures r.OpenedSince(base)
    ensures error.None? ==> r.AllMirror() && Acquired(r.p, r.root, r.objects, ds[..i + 1], snapshots, visits, before, r.k.record)
    ensures old(r.RootNamed()) ==> r.RootNamed()
    ensures r.k.tree.Some? ==> (error.None? <==> FileOk(r.p, r.k.tree.value, ds[i]))
  {
    snapshots, error, visits := snapshots0, None, visits0;
    Prefix(r, ds, i);
    ghost var objects, record := r.objects, r.k.record;
    OneMore(ds, i);
    hide *;
    var s, fault;
    ghost var visit;
    s, fault, visit := r.AcquireObject(ds[i], base);
    if s.None? {
      error := Some(fault);
      return;
    }
    ghost var o := r.objects[|objects|];
    snapshots, visits := snapshots0[ds[i].digest := s.value], visits0 + [visit];
    assert Acquired(r.p, r.root, r.objects, ds[..i + 1], snapshots, visits, before, r.k.record) by {
      OneMore(r.objects, |objects|);
      AcquiredMore(r.p, r.root, objects, ds[..i], snapshots0, visits0, before, record, o, s.value, visit, ds[i]);
    }
  }

  /** Acquires the objects one by one; on a refusal the handles so far are still held. */
  method AcquireObjects(r: Retained, ds: seq<Declaration>, ghost base: set<int>)
    returns (snapshots: map<string, Snapshot>, error: Option<Error>, ghost visits: seq<Visit>)
    requires r.OpenedSince(base) && r.objects == [] && DistinctDigests(ds) && Apart(ds)
    modifies r`objects, r.k`open, r.k`names, r.k`record
    ensures r.OpenedSince(base)
    ensures error.None? ==> r.AllMirror() && Acquired(r.p, r.root, r.objects, ds, snapshots, visits, old(r.k.record), r.k.record)
    ensures old(r.RootNamed()) ==> r.RootNamed()
    ensures r.k.tree.Some? ==> (error.None? <==> FilesOk(r.p, r.k.tree.value, ds))
  {
    snapshots, visits := map[], [];
    hide *;
    NothingAcquired(r, ds);
    for i := 0 to |ds|
      invariant r.OpenedSince(base) && r.AllMirror()
      invariant Acquired(r.p, r.root, r.objects, ds[..i], snapshots, visits, old(r.k.record), r.k.record)
      invariant old(r.RootNamed()) ==> r.RootNamed()
      invariant r.k.tree.Some? ==> FilesOk(r.p, r.k.tree.value, ds[..i])
    {
      Prefix(r, ds, i);
      snapshots, error, visits := AcquireNext(r, ds, i, snapshots, visits, base, old(r.k.record));
      if error.Some? {
        return;
      }
    }
    Whole(ds);
    error := None;
  }

  lemma NothingAcquired(r: Retained, ds: seq<Declaration>)
    requires r.objects == []
    ensures r.AllMirror() && Acquired(r.p, r.root, r.objects, ds[..0], map[], [], r.k.record, r.k.record)
    ensures r.k.tree.Some? ==> FilesOk(r.p, r.k.tree.value, ds[..0])
  {
  }

  lemma Whole(ds: seq<Declaration>)
    ensures ds[..|ds|] == ds
  {
  }

  /** No digest is the name of the directory itself. */
  predicate Apart(ds: seq<Declaration>) {
    forall i :: 0 <= i < |ds| ==> ds[i].digest != SELF
  }

  /** Every object acquired, and every object looked at once more. */
  method AcquireThrough(r: Retained, ds: seq<Declaration>, ghost base: set<int>)
    returns (snapshots: map<string, Snapshot>, error: Option<Error>, ghost visits: seq<Visit>, ghost last: seq<Look>)
    requires r.OpenedSince(base) && r.objects == [] && DistinctDigests(ds) && Apart(ds)
    modifies r`objects, r.k`open, r.k`names, r.k`record
    ensures r.OpenedSince(base) && r.Holds()
    ensures error.None? ==>
              && r.Snapshots(snapshots) && Matches(r.objects, ds) && r.AllMirror()
              && VisitsOk(r.p, visits, r.objects, snapshots, true) && AllSame(r.p, last, r.objects)
              && |visits| == |r.objects| == |last|
              && r.k.record == old(r.k.record) + VisitedAll(r.root, r.objects, visits) + LookedAll(r.root, r.objects, last)
    ensures old(r.RootNamed()) ==> r.RootNamed()
    ensures r.k.tree.Some? ==> (error.None? <==> FilesOk(r.p, r.k.tree.value, ds))
  {
    last := [];
    snapshots, error, visits := AcquireObjects(r, ds, base);
    if error.Some? {
      return;
    }
    hide *;
    VisitsMatch(r.p, visits, r.objects, snapshots, true);
    error, last := r.AllUnchanged();
  }

  /** The opened root is the caller's directory. */
  method TakeRoot(r: Retained, initial: Observation, ghost base: set<int>) returns (ok: bool)
    requires r.OpenedSince(base) && r.RootNamed()
    modifies r`observed, r.k`record
    ensures r.OpenedSince(base) && r.Holds() && r.RootNamed()
    ensures ok ==>
              && ValidRoot(r.p, r.observed) && SameNative(initial, r.observed)
              && r.k.record == old(r.k.record) + [Stated(r.root, Some(r.observed))]
              && (r.k.tree.Some? ==> r.observed == r.k.tree.value.root)
    ensures r.k.tree.Some? && initial == r.k.tree.value.root ==> (ok <==> ValidRoot(r.p, initial))
  {
    var seen := r.k.Observe(r.root);
    if seen.None? || !ValidRoot(r.p, seen.value) || !SameNative(initial, seen.value) {
      return false;
    }
    r.observed := seen.value;
    return true;
  }

  /** Under an open root: two enumerations around the objects, and everything looked at again before the collection is given out. */
  method AcquireUnder(r: Retained, initial: Observation, ds: seq<Declaration>, ghost base: set<int>)
    returns (snapshots: map<string, Snapshot>, error: Option<Error>, ghost f: Findings)
    requires r.OpenedSince(base) && r.RootNamed() && r.objects == [] && DistinctDigests(ds) && Apart(ds)
    modifies r`objects, r`observed, r.k
    ensures r.OpenedSince(base)
    ensures error.None? ==>
              && r.Snapshots(snapshots) && Matches(r.objects, ds) && r.Quiet()
              && SameNative(initial, r.observed) && Untouched(r.p, f, r.observed, r.objects, snapshots, true)
              && r.k.record == old(r.k.record) + Account(r.root, r.objects, f)
    ensures r.k.tree.Some? && initial == r.k.tree.value.root ==>
              (error.None? <==>
                 ValidRoot(r.p, initial) && r.k.tree.value.files.Keys == Digests(ds) && FilesOk(r.p, r.k.tree.value, ds))
  {
    snapshots, f := map[], NOTHING;
    hide *;
    var taken := TakeRoot(r, initial, base);
    if !taken {
      error := Some(DescriptorInvalid);
      return;
    }
    ghost var fdBefore, namesBefore, fdAfter, namesAfter, visits, last;
    error, fdBefore, namesBefore := r.Enumerate(Digests(ds));
    if error.Some? {
      return;
    }
    snapshots, error, visits, last := AcquireThrough(r, ds, base);
    if error.Some? {
      return;
    }
    error, fdAfter, namesAfter := r.Enumerate(Digests(ds));
    if error.Some? {
      return;
    }
    r.QuietTells();
    var after := r.k.Observe(r.root);
    if after.None? || after.value != r.observed {
      error := Some(InputMismatch);
      return;
    }
    MatchedDigests(r.objects, ds);
    r.BecomesQuiet();
    f := Findings(Some(r.observed), fdBefore, namesBefore, visits, last, fdAfter, namesAfter, after);
    UntouchedOf(r.p, f, r.observed, r.objects, snapshots, true);
    Accounted(old(r.k.record), r.root, r.objects, f);
  }

  lemma MatchedDigests(objects: seq<Owned>, ds: seq<Declaration>)
    requires Matches(objects, ds)
    ensures ObjectDigests(objects) == Digests(ds)
  {
    forall i | 0 <= i < |ds|
      ensures ds[i].digest in ObjectDigests(objects) && objects[i].digest in Digests(ds)
    {
      assert objects[i] in objects && ds[i] in ds;
    }
  }

  lemma MatchedLengths(objects: seq<Owned>, ds: seq<Declaration>, lengths: Lengths)
    requires Matches(objects, ds) && |ds| == |lengths| && Declares(ds, lengths)
    ensures |objects| == |lengths| && forall o :: o in objects ==> o.digest in lengths && lengths[o.digest] == o.length
  {
  }

  lemma FilesDeclared(p: Platform, t: Tree, ds: seq<Declaration>, lengths: Lengths)
    requires Digests(ds) == lengths.Keys && Declares(ds, lengths)
    ensures FilesOk(p, t, ds) <==> forall d :: d in lengths ==> FileOk(p, t, Declaration(d, lengths[d]))
  {
    forall i | 0 <= i < |ds|
      ensures ds[i].digest in lengths && ds[i] == Declaration(ds[i].digest, lengths[ds[i].digest])
    {
    }
    forall d | d in lengths
      ensures exists i :: 0 <= i < |ds| && ds[i] == Declaration(d, lengths[d])
    {
      assert d in Digests(ds);
      var e :| e in ds && e.digest == d;
      var i :| 0 <= i < |ds| && ds[i] == e;
    }
  }

  lemma DigestsApart(refs: seq<Reference>, ds: seq<Declaration>)
    requires Declarable(refs) && Declares(ds, DigestLengths(refs))
    ensures Apart(ds)
  {
    forall i | 0 <= i < |ds|
      ensures ds[i].digest != SELF
    {
      DeclaredFirst(refs, ds[i].digest);
      var k :| 0 <= k < |refs| && refs[k].digest == ds[i].digest;
      assert refs[k] in refs;
    }
  }

  /** Reads a whole collection, or refuses leaving every descriptor as it was. */
  method Acquire(k: Kernel, p: Platform, directory: Option<int>, refs: seq<Reference>)
    returns (c: Collection?, error: Error, ghost initial: Observation, ghost f: Findings)
    modifies k
    ensures c == null ==> k.open == old(k.open)
    ensures c != null ==>
              && fresh(c) && fresh(c.custody) && c.custody.k == k && c.Valid() && !c.closed
              && Declarable(refs)
              && AsSet(c.handles) !! old(k.open) && k.open == old(k.open) + AsSet(c.handles)
              && |c.handles| == 1 + |DigestLengths(refs)|
    ensures c != null ==>
              forall o :: o in c.custody.objects ==> o.digest in DigestLengths(refs) && DigestLengths(refs)[o.digest] == o.length
    ensures c != null ==>
              && directory.Some? && ValidRoot(p, initial) && SameNative(initial, c.custody.observed)
              && ObjectDigests(c.custody.objects) == DigestLengths(refs).Keys
              && Untouched(p, f, c.custody.observed, c.custody.objects, c.snapshots, true)
              && k.record == old(k.record)
                             + [Stated(directory.value, Some(initial)), Opened(directory.value, SELF, c.custody.root)]
                             + Account(c.custody.root, c.custody.objects, f)
    ensures k.tree.Some? && directory.Some? && old(k.IsDirectory(directory.value)) ==>
              (c != null <==> Declarable(refs) && TreeOk(p, k.tree.value, DigestLengths(refs)))
  {
    c, error, f := null, InputMismatch, NOTHING;
    initial :| true;
    var lengths, fault := Project(refs);
    if fault.Some? {
      error := fault.value;
      return;
    }
    if directory.None? {
      error := DescriptorInvalid;
      return;
    }
    var r, first := OpenRoot(k, p, directory.value);
    initial := first;
    if r == null {
      error := DescriptorInvalid;
      return;
    }
    var ds := ListDeclarations(lengths);
    DigestsApart(refs, ds);
    hide Declarable, DigestLengths, VisitsOk, Account;
    var snapshots, refusal;
    snapshots, refusal, f := AcquireUnder(r, first, ds, old(k.open));
    if k.tree.Some? {
      FilesDeclared(p, k.tree.value, ds, lengths);
    }
    if refusal.Some? {
      var _ := r.Close();
      error := refusal.value;
      return;
    }
    MatchedLengths(r.objects, ds, lengths);
    MatchedDigests(r.objects, ds);
    hide Matches, DistinctDigests, Digests, NoRepeats;
    c := new Collection(r, snapshots);
  }
}
