/**
 The descriptors of a process as internal/memberobjects uses them.  Each system call may
 fail or answer anything, and leaves its answer in a record that only the kernel writes; a
 close gives its descriptor up even when it reports an error.
 */
module Descriptors {
  import opened Bytes
  import opened MemberProject

  predicate NoRepeats<T(==)>(s: seq<T>) {
    forall i, j :: 0 <= i < j < |s| ==> s[i] != s[j]
  }

  /** What fstat and fcntl report. */
  datatype Observation = Observation(
    device: nat, inode: nat, uid: nat, mode: nat, links: nat, size: int, flags: nat, modified: int, changed: int)

  const DIRECTORY_0700: nat := 16832
  const REGULAR_0400: nat := 33024
  const REGULAR_0600: nat := 33152

  datatype Snapshot = Snapshot(raw: bytes, sum: string)

  /** The platform's reading of open flags, the process's user, and the hash. */
  datatype Platform = Platform(readable: nat -> bool, uid: nat, sha256: bytes -> string)

  predicate ValidRoot(p: Platform, o: Observation) {
    o.mode == DIRECTORY_0700 && o.uid == p.uid && p.readable(o.flags)
  }

  predicate SameNative(a: Observation, b: Observation) {
    a.(flags := 0) == b.(flags := 0)
  }

  function ObjectFault(p: Platform, o: Observation, length: nat): Option<Error> {
    if o.uid != p.uid || o.links != 1 || (o.mode != REGULAR_0400 && o.mode != REGULAR_0600) || !p.readable(o.flags) || o.size < 0
      then Some(InputMismatch)
    else if o.size > OBJECT_LIMIT then Some(BoundsExceeded)
    else if o.size != length then Some(InputMismatch)
    else None
  }

  /** What a system call was asked and answered. */
  datatype Sight =
    | Opened(at: int, name: string, fd: int)
    | Stated(fd: int, o: Option<Observation>)
    | Named(at: int, name: string, o: Option<Observation>)
    | Listed(fd: int, names: Option<seq<string>>)
    | Piece(fd: int, off: nat, got: Option<bytes>)

  const SELF: string := "."

  datatype Stored = Stored(native: Observation, data: bytes)

  /** A directory nobody disturbs. */
  datatype Tree = Tree(root: Observation, files: map<string, Stored>)

  /** The process's descriptors; `log` lists every close attempt and `record` every other answer.  Without a `tree`
      the answers are anything at all; with one they are what that directory holds, and no call fails. */
  class Kernel {
    const tree: Option<Tree>
    var open: set<int>
    var names: map<int, string>
    var log: seq<int>
    ghost var record: seq<Sight>

    /** A new descriptor, or -1. */
    method OpenAt(at: int, name: string) returns (fd: int)
      modifies this`open, this`names, this`record
      ensures fd == -1 || (fd >= 0 && fd !in old(open))
      ensures open == old(open) + (if fd == -1 then {} else {fd})
      ensures names == if fd == -1 then old(names) else old(names)[fd := name]
      ensures record == old(record) + [Opened(at, name, fd)]
      ensures tree.Some? ==> (fd != -1 <==> name == SELF || name in tree.value.files)
    {
      fd := *;
      if tree.Some? && (name == SELF || name in tree.value.files) {
        SomeUnused(open);
        fd :| fd >= 0 && fd !in open;
      } else if tree.Some? || fd < 0 || fd in open {
        fd := -1;
      }
      if fd != -1 {
        open, names := open + {fd}, names[fd := name];
      }
      record := record + [Opened(at, name, fd)];
    }

    method CloseFD(fd: int) returns (ok: bool)
      requires fd in open
      modifies this`open, this`log
      ensures open == old(open) - {fd} && log == old(log) + [fd]
      ensures tree.Some? ==> ok
    {
      open, log := open - {fd}, log + [fd];
      ok := Works();
    }

    /** Whatever else can fail, fails anywhere but in an undisturbed directory. */
    method Works() returns (ok: bool)
      ensures tree.Some? ==> ok
    {
      ok := *;
      ok := ok || tree.Some?;
    }

    /** What fstat and fcntl report of a descriptor; the caller's own is the directory. */
    function Behind(fd: int): Option<Observation>
      reads this`names
      requires tree.Some?
    {
      if IsDirectory(fd) then Some(tree.value.root)
      else if names[fd] in tree.value.files then Some(tree.value.files[names[fd]].native)
      else None
    }

    predicate IsDirectory(fd: int)
      reads this`names
    {
      fd !in names || names[fd] == SELF
    }

    method Observe(fd: int) returns (o: Option<Observation>)
      modifies this`record
      ensures record == old(record) + [Stated(fd, o)]
      ensures tree.Some? ==> o == Behind(fd)
    {
      o := *;
      if tree.Some? {
        o := Behind(fd);
      }
      record := record + [Stated(fd, o)];
    }

    method ObserveEntry(at: int, name: string) returns (o: Option<Observation>)
      modifies this`record
      ensures record == old(record) + [Named(at, name, o)]
      ensures tree.Some? && name in tree.value.files ==> o == Some(tree.value.files[name].native)
    {
      o := *;
      if tree.Some? && name in tree.value.files {
        o := Some(tree.value.files[name].native);
      }
      record := record + [Named(at, name, o)];
    }

    /** The names of a directory, but no more than asked for. */
    method ListNames(fd: int, most: nat) returns (found: Option<seq<string>>)
      modifies this`record
      ensures record == old(record) + [Listed(fd, found)]
      ensures found.Some? ==> |found.value| <= most
      ensures tree.Some? ==>
                && found.Some? && NoRepeats(found.value)
                && (|tree.value.files| < most ==> Members(found.value) == tree.value.files.Keys)
                && (|tree.value.files| >= most ==> |found.value| == most)
    {
      found := *;
      if tree.Some? {
        var names := ListKeys(tree.value.files.Keys, most);
        found := Some(names);
      } else if found.Some? && |found.value| > most {
        found := None;
      }
      record := record + [Listed(fd, found)];
    }

    function Content(fd: int): bytes
      reads this`names
      requires tree.Some?
    {
      if fd in names && names[fd] in tree.value.files then tree.value.files[names[fd]].data else []
    }

    /** A positional read: an error, an impossible count, or a piece. */
    method PRead(fd: int, want: nat, off: nat) returns (n: int, data: bytes, failed: bool)
      requires want > 0
      modifies this`record
      ensures 0 <= n <= want ==> |data| == n
      ensures record == old(record) + [Piece(fd, off, if failed || !(0 <= n <= want) then None else Some(data))]
      ensures tree.Some? && off <= |Content(fd)| ==>
                && !failed && 0 <= n <= want && off + n <= |Content(fd)| && data == Content(fd)[off..off + n]
                && (n == 0 ==> off == |Content(fd)|)
    {
      n, data, failed := *, *, *;
      if tree.Some? && off <= |Content(fd)| {
        var left := |Content(fd)| - off;
        failed := false;
        if !(0 < n <= want && n <= left) {
          n := if left == 0 then 0 else 1;
        }
        data := Content(fd)[off..off + n];
      } else if 0 <= n <= want && |data| != n {
        n := -1;
      }
      record := record + [Piece(fd, off, if failed || !(0 <= n <= want) then None else Some(data))];
    }
  }

  lemma {:induction false} SomeUnused(open: set<int>)
    ensures exists fd :: fd >= 0 && fd !in open
  {
    if forall fd :: fd >= 0 ==> fd in open {
      var first := seq(|open| + 1, i => i as int);
      NoRepeatsSize(first, open);
    }
  }

  lemma {:induction false} NoRepeatsSize<T>(s: seq<T>, all: set<T>)
    requires NoRepeats(s) && forall x :: x in s ==> x in all
    ensures |s| <= |all|
    decreases |s|
  {
    if s != [] {
      var last := s[|s| - 1];
      assert forall x :: x in s[..|s| - 1] ==> x in all - {last};
      NoRepeatsSize(s[..|s| - 1], all - {last});
    }
  }

  function Members(names: seq<string>): set<string> {
    set n | n in names
  }

  lemma OneMoreName(names: seq<string>, name: string)
    ensures NoRepeats(names) && name !in Members(names) ==> NoRepeats(names + [name])
    ensures Members(names + [name]) == Members(names) + {name}
    ensures NoRepeats<string>([]) && Members([]) == {}
  {
  }

  /** The keys in some order, each once, until there are enough. */
  method ListKeys(keys: set<string>, most: nat) returns (names: seq<string>)
    ensures NoRepeats(names) && |names| <= most
    ensures |keys| < most ==> Members(names) == keys
    ensures |keys| >= most ==> |names| == most
  {
    names := [];
    var left := keys;
    hide NoRepeats, Members;
    OneMoreName([], "");
    while left != {} && |names| < most
      invariant |names| <= most && |names| + |left| == |keys|
      invariant left != {} || |names| == |keys|
      invariant NoRepeats(names) && Members(names) == keys - left && left <= keys
      decreases |left|
    {
      var name :| name in left;
      OneMoreName(names, name);
      names := names + [name];
      left := left - {name};
    }
  }

  method InspectObject(k: Kernel, p: Platform, fd: int, length: nat) returns (o: Option<Observation>, error: Error)
    modifies k`record
    ensures o.Some? ==> ObjectFault(p, o.value, length).None? && k.record == old(k.record) + [Stated(fd, o)]
    ensures k.tree.Some? ==>
              o == if k.Behind(fd).Some? && ObjectFault(p, k.Behind(fd).value, length).None? then k.Behind(fd) else None
  {
    o := k.Observe(fd);
    error := InputMismatch;
    if o.Some? {
      var fault := ObjectFault(p, o.value, length);
      if fault.Some? {
        return None, fault.value;
      }
    }
  }

  /** The pieces read one after another from the start make up the data. */
  ghost predicate Gathered(pieces: seq<Sight>, fd: int, data: bytes)
    decreases |pieces|
  {
    if pieces == [] then data == []
    else
      var last := pieces[|pieces| - 1];
      && last.Piece? && last.fd == fd && last.got.Some? && |last.got.value| <= |data|
      && last.off == |data| - |last.got.value| && data[last.off..] == last.got.value
      && Gathered(pieces[..|pieces| - 1], fd, data[..last.off])
  }

  /** And then there was no more. */
  ghost predicate WholeRead(pieces: seq<Sight>, fd: int, data: bytes) {
    && pieces != [] && pieces[|pieces| - 1] == Piece(fd, |data|, Some([]))
    && Gathered(pieces[..|pieces| - 1], fd, data)
  }

  lemma GatheredMore(pieces: seq<Sight>, fd: int, data: bytes, more: bytes)
    requires Gathered(pieces, fd, data)
    ensures Gathered(pieces + [Piece(fd, |data|, Some(more))], fd, data + more)
  {
    assert (data + more)[..|data|] == data && (data + more)[|data|..] == more;
    assert (pieces + [Piece(fd, |data|, Some(more))])[..|pieces|] == pieces;
  }

  /** A snapshot is what was read from the start to the end, exactly as long as declared, however the reads were cut. */
  method ReadObserved(k: Kernel, p: Platform, fd: int, size: nat) returns (s: Option<Snapshot>, error: Error, ghost pieces: seq<Sight>)
    modifies k`record
    ensures s.Some? ==>
              && k.record == old(k.record) + pieces && WholeRead(pieces, fd, s.value.raw)
              && |s.value.raw| == size && s.value.sum == p.sha256(s.value.raw)
    ensures s.None? && error == BoundsExceeded ==> size == OBJECT_LIMIT
    ensures k.tree.Some? ==> (s.Some? <==> |k.Content(fd)| == size) && (s.Some? ==> s.value.raw == k.Content(fd))
  {
    var raw: bytes := [];
    error, pieces := InputMismatch, [];
    assert Gathered([], fd, []);
    hide Gathered;
    while |raw| < size
      invariant |raw| <= size
      invariant k.record == old(k.record) + pieces && Gathered(pieces, fd, raw)
      invariant k.tree.Some? ==> raw <= k.Content(fd)
      decreases size - |raw|
    {
      var n, data, failed := k.PRead(fd, size - |raw|, |raw|);
      if n < 0 || n > size - |raw| || failed || n == 0 {
        return None, InputMismatch, pieces;
      }
      GatheredMore(pieces, fd, raw, data);
      pieces := pieces + [Piece(fd, |raw|, Some(data))];
      raw := raw + data;
    }
    var n, data, failed := k.PRead(fd, 1, |raw|);
    if n < 0 || n > 1 {
      return None, InputMismatch, pieces;
    }
    if n > 0 {
      if |raw| == OBJECT_LIMIT {
        return None, BoundsExceeded, pieces;
      }
      return None, InputMismatch, pieces;
    }
    if failed {
      return None, InputMismatch, pieces;
    }
    ghost var all := pieces + [Piece(fd, |raw|, Some([]))];
    assert all[..|all| - 1] == pieces;
    return Some(Snapshot(raw, p.sha256(raw))), InputMismatch, all;
  }

  lemma {:induction false} CountMembers(names: seq<string>)
    requires NoRepeats(names)
    ensures |Members(names)| == |names|
    decreases |names|
  {
    if names != [] {
      var init, last := names[..|names| - 1], names[|names| - 1];
      CountMembers(init);
      assert Members(names) == Members(init) + {last} && last !in Members(init);
    }
  }
}
