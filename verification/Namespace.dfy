/**
 The journal's operations as internal/recoveryjournal writes them: under the namespace
 lock, one system call after another, returning at the first failure.  Every call is one
 event of `Journal`; its result is whatever the environment answers.  Between calls the
 clock moves, the kernel may write back, and callers already holding a permit may use it.
 */
module RecoveryNamespace {
  import opened Bytes
  import opened Journal
  import opened JournalSafety

  datatype PrepareResult = PreparedOk | Existing | PrepareFailed

  datatype IssueResult = Registered | NotIssued | IssueUnknown

  /** What RecoverExact reports: service confirmation apart from committed local evidence. */
  datatype Cleanup = Cleanup(confirmed: bool, outcome: Option<Outcome>, receipt: Option<Outcome>)

  datatype Removal = Removal(secretRemoved: bool, receiptRemoved: bool)

  /** Callers see the same, and a crash may leave nothing it could not leave before. */
  predicate Steady<T(==)>(before: Slot<T>, after: Slot<T>) {
    after.live == before.live && after.disk <= before.disk + {before.live}
  }

  /** Time, others' requests and the kernel's write-back touch neither the phase nor what callers see. */
  lemma Meddling(c: Config, s: State, e: Event)
    requires e.Tick? || e.Send? || e.Drop? || e.WriteBack?
    ensures var t := Step(c, s, e);
            && t.phase == s.phase && t.boot == s.boot && t.now >= s.now
            && Steady(s.secret, t.secret) && Steady(s.receipt, t.receipt)
  {
    hide Without;
  }

  lemma TemporaryStep(c: Config, m: State)
    requires m.phase.Publishing?
    ensures var w, t := m.phase.work, m.phase.temp;
            && Step(c, m, Write) == m.(phase := Publishing(w, t.(written := true)))
            && (t.written ==> Step(c, m, SyncFile) == m.(phase := Publishing(w, t.(synced := true))))
            && (t.synced ==> Step(c, m, Close) == m.(phase := Publishing(w, t.(closed := true))))
  {
  }

  class Namespace {
    const c: Config
    /** Whether every call works; without it each may fail. */
    const calm: bool
    var s: State
    ghost var log: seq<Event>

    constructor (sha: Receipt -> string, budget: nat, works: bool)
      ensures Valid() && s == Initial() && Free() && log == [] && calm == works
    {
      c, calm := Config(sha, budget), works;
      s := Initial();
      log := [];
    }

    /** The state is the one the logged run reaches. */
    ghost predicate Valid()
      reads this
    {
      s == Exec(c, Initial(), log)
    }

    /** Nobody holds the namespace lock. */
    predicate Free()
      reads this
    {
      s.phase.Idle?
    }

    /** The run went on and undertook nothing. */
    ghost predicate Continues(before: seq<Event>)
      reads this
    {
      before <= log && Undertaken(log) == Undertaken(before)
    }

    /** The run went on and undertook just `more`. */
    ghost predicate Adds(before: seq<Event>, more: seq<Event>)
      reads this
    {
      before <= log && Undertaken(log) == Undertaken(before) + more
    }

    lemma Safe()
      requires Valid()
      ensures Evidence(c, s) && (c.budget <= WEEK ==> Claims(c, s))
    {
      InitialInv(c);
      RunEvidence(c, Initial(), log);
      if c.budget <= WEEK {
        RunClaims(c, Initial(), log);
      }
    }

    /** Every state on the way was safe too, and what callers see is among what a crash may leave. */
    lemma SafeAt(i: nat)
      requires Valid() && i <= |log|
      ensures Evidence(c, Exec(c, Initial(), log[..i]))
    {
      InitialInv(c);
      RunEvidence(c, Initial(), log[..i]);
    }

    lemma InDisk()
      requires Valid()
      ensures s.secret.live in s.secret.disk && s.receipt.live in s.receipt.disk
    {
      Safe();
    }

    method Do(e: Event)
      requires Valid()
      modifies this
      ensures Valid() && s == Step(c, old(s), e) && log == old(log) + [e]
      ensures if Undertakes(e) then Adds(old(log), [e]) else Continues(old(log))
    {
      ExecSnoc(c, Initial(), log, e);
      UndertakenSnoc(log, e);
      s := Step(c, s, e);
      log := log + [e];
    }

    method Works() returns (ok: bool)
      ensures calm ==> ok
    {
      ok := *;
      ok := ok || calm;
    }

    /** What others may do while the lock is held elsewhere. */
    method Interfere()
      requires Valid()
      modifies this
      ensures Valid() && Continues(old(log))
      ensures s.phase == old(s.phase) && s.boot == old(s.boot) && s.now >= old(s.now)
      ensures Steady(old(s.secret), s.secret) && Steady(old(s.receipt), s.receipt)
    {
      hide Undertaken, Exec, Step;
      var rounds: nat := *;
      while rounds > 0
        invariant Valid() && Continues(old(log))
        invariant s.phase == old(s.phase) && s.boot == old(s.boot) && s.now >= old(s.now)
        invariant Steady(old(s.secret), s.secret) && Steady(old(s.receipt), s.receipt)
      {
        var choice: nat := *;
        var argument: nat := *;
        var secrets: bool := *;
        var e := if choice == 0 then Tick(argument) else if choice == 1 then Send(argument)
                 else if choice == 2 then Drop(argument) else WriteBack(secrets);
        Meddling(c, s, e);
        Do(e);
        rounds := rounds - 1;
      }
    }

    /** One system call, after whatever happened since the last one; `m` is the state it met. */
    method Call(e: Event) returns (ghost m: State)
      requires Valid()
      modifies this
      ensures Valid() && (if Undertakes(e) then Adds(old(log), [e]) else Continues(old(log)))
      ensures |log| > |old(log)| && log[|log| - 1] == e && m == Exec(c, Initial(), log[..|log| - 1])
      ensures m.phase == old(s.phase) && m.boot == old(s.boot) && m.now >= old(s.now)
      ensures Steady(old(s.secret), m.secret) && Steady(old(s.receipt), m.receipt)
      ensures s == Step(c, m, e)
    {
      hide Undertaken, Exec;
      Interfere();
      m := s;
      Do(e);
    }

    /** Gives the lock back after a failure. */
    method Fail()
      requires Valid()
      modifies this
      ensures Valid() && Continues(old(log)) && Free()
      ensures s == old(s).(phase := Idle)
    {
      Do(Abort);
    }

    /** Write the record to its exclusive temporary and sync the file. */
    method WriteTemporary() returns (ok: bool)
      requires Valid() && s.phase.Publishing? && s.phase.temp == Temp(false, false, false)
      modifies this
      ensures Valid() && Continues(old(log))
      ensures if ok then s.phase == Publishing(old(s.phase.work), Temp(true, true, false)) else Free()
      ensures Steady(old(s.secret), s.secret) && Steady(old(s.receipt), s.receipt)
      ensures s.boot == old(s.boot) && s.now >= old(s.now) && (calm ==> ok)
    {
      hide Undertaken, Exec, Step;
      ghost var m: State;
      var able := Works();
      if !able {
        Fail();
        return false;
      }
      m := Call(Write);
      TemporaryStep(c, m);
      able := Works();
      if !able {
        Fail();
        return false;
      }
      m := Call(SyncFile);
      TemporaryStep(c, m);
      return true;
    }

    /** The same, and close it. */
    method FillTemporary() returns (ok: bool)
      requires Valid() && s.phase.Publishing? && s.phase.temp == Temp(false, false, false)
      modifies this
      ensures Valid() && Continues(old(log))
      ensures if ok then s.phase == Publishing(old(s.phase.work), Temp(true, true, true)) else Free()
      ensures Steady(old(s.secret), s.secret) && Steady(old(s.receipt), s.receipt)
      ensures s.boot == old(s.boot) && s.now >= old(s.now) && (calm ==> ok)
    {
      hide Undertaken, Exec, Step;
      ok := WriteTemporary();
      if !ok {
        return;
      }
      ok := Works();
      if !ok {
        Fail();
        return;
      }
      ghost var m := Call(Close);
      TemporaryStep(c, m);
    }

    /** Rename the finished temporary into place, then sync the directory; false at the first failure. */
    method PublishRecord() returns (ok: bool)
      requires Valid() && s.phase.Publishing? && s.phase.temp == Temp(false, false, false)
      modifies this
      ensures Valid() && Continues(old(log))
      ensures if ok then s.phase == AfterPublish(old(s.phase.work)) else Free()
      ensures old(s.phase.work).StoreReceipt? ==> Steady(old(s.secret), s.secret)
      ensures ok && old(s.phase.work).StoreTerminal? ==> s.secret.live == Some(File(old(s.phase.work).ended, true))
      ensures s.boot == old(s.boot) && s.now >= old(s.now) && (calm ==> ok)
    {
      hide Undertaken, Exec;
      NothingInTheWay();
      ok := FillTemporary();
      if !ok {
        return;
      }
      ghost var m: State;
      var effect: bool := *;
      var reported := Works();
      m := Call(Rename(effect, reported));
      if !s.phase.Published? {
        return false;
      }
      var synced := Works();
      m := Call(SyncDirectory(synced));
      return synced;
    }

    /** An envelope or a receipt is only published where there is none. */
    lemma NothingInTheWay()
      requires Valid() && s.phase.Publishing?
      ensures s.phase.work.StoreEnvelope? ==> s.secret.live.None?
      ensures s.phase.work.StoreReceipt? ==> s.receipt.live.None?
    {
      Safe();
    }

    // ---- Prepare and Issue ----

    method Prepare(env: Envelope, deadline: nat) returns (r: PrepareResult)
      requires Valid() && Free()
      modifies this
      ensures Valid() && Free()
      ensures Continues(old(log)) || Adds(old(log), [BeginPrepare(env, deadline)])
      ensures r == PreparedOk ==>
                && old(s.secret.live.None?)
                && Adds(old(log), [BeginPrepare(env, deadline)])
                && s.permits != [] && Last(s).env == env && Last(s).deadline == deadline
                && Holds(s.secret, env)
      ensures r == Existing ==> log == old(log)
      ensures r == Existing <==> old(s.secret.live.Some?)
      ensures calm && old(s.secret.live.None?) ==> (r == PreparedOk <==> deadline <= old(s.now) + c.budget)
    {
      hide Undertaken, Exec;
      if s.secret.live.Some? {
        return Existing;
      }
      if deadline > s.now + c.budget {
        return PrepareFailed;
      }
      Do(BeginPrepare(env, deadline));
      var ok := PublishRecord();
      if !ok {
        return PrepareFailed;
      }
      var verified := Works();
      if !verified {
        Fail();
        return PrepareFailed;
      }
      StoredHolds(env);
      Do(Grant);
      return PreparedOk;
    }

    lemma StoredHolds(env: Envelope)
      requires Valid() && s.phase.Stored? && s.phase.env == env
      ensures Holds(s.secret, env)
    {
      Safe();
    }

    /** The register request itself, or none if the permit ran out or the caller was closed meanwhile. */
    method Register(deadline: nat) returns (r: IssueResult)
      requires Valid() && Free() && s.permits != [] && Last(s).deadline == deadline && Holds(s.secret, Last(s).env)
      modifies this
      ensures Valid() && Free() && Continues(old(log)) && r != NotIssued
      ensures s.secret == old(s.secret)
      ensures r == Registered ==> s.sent == old(s.sent) + [old(Last(s).env)]
      ensures s.sent == old(s.sent) || s.sent == old(s.sent) + [old(Last(s).env)]
    {
      hide Undertaken, Exec;
      var waited: nat := *;
      Do(Tick(waited));
      var i := |s.permits| - 1;
      var usable: bool := *;
      if s.now >= deadline || !usable {
        Do(Drop(i));
        return IssueUnknown;
      }
      Do(Send(i));
      var answered: bool := *;
      return if answered then Registered else IssueUnknown;
    }

    /** One attempt at a preparation and one register request at most, and that only after a durable preparation. */
    method Issue(env: Envelope, deadline: nat) returns (r: IssueResult)
      requires Valid() && Free()
      modifies this
      ensures Valid() && Free()
      ensures Continues(old(log)) || Adds(old(log), [BeginPrepare(env, deadline)])
      ensures r != NotIssued ==> old(s.secret.live.None?) && Adds(old(log), [BeginPrepare(env, deadline)]) && Holds(s.secret, env)
      ensures c.budget <= WEEK ==> Requests(c, old(s), log[|old(log)|..]) <= 1
      ensures c.budget <= WEEK && r == Registered ==> s.sent == [env] && Requests(c, old(s), log[|old(log)|..]) == 1
      ensures calm && old(s.secret.live.None?) && deadline <= old(s.now) + c.budget ==> r != NotIssued
    {
      hide Undertaken, Exec, Requests;
      Absent();
      var prepared := Prepare(env, deadline);
      r := NotIssued;
      if prepared == PreparedOk {
        r := Register(deadline);
        OneRequest(env);
        RequestsBounded(old(log), [BeginPrepare(env, deadline)]);
      } else if Continues(old(log)) {
        assert Adds(old(log), []);
        RequestsBounded(old(log), []);
      } else {
        RequestsBounded(old(log), [BeginPrepare(env, deadline)]);
      }
    }

    /** Where no entry is there, no request is outstanding. */
    lemma Absent()
      requires Valid()
      ensures c.budget <= WEEK && s.secret.live.None? ==> s.sent == []
    {
      Safe();
      if c.budget <= WEEK && s.secret.live.None? {
        AbsentIsUnclaimed(c, s);
      }
    }

    lemma OneRequest(env: Envelope)
      requires Valid()
      ensures c.budget <= WEEK && s.sent != [] && s.sent[|s.sent| - 1] == env ==> s.sent == [env]
    {
      Safe();
    }

    /** While nothing is unlinked, the requests that left since are those added to `sent`, so one at most. */
    lemma RequestsBounded(before: seq<Event>, more: seq<Event>)
      requires Valid() && Adds(before, more) && !Unlinks(more)
      ensures var s0 := Exec(c, Initial(), before);
              && |s.sent| == |s0.sent| + Requests(c, s0, log[|before|..])
              && (c.budget <= WEEK ==> Requests(c, s0, log[|before|..]) <= 1)
    {
      var after := log[|before|..];
      assert log == before + after;
      UndertakenSince(before, after, more);
      Safe();
      hide Exec, Requests, Evidence, Undertaken, ClaimantOk;
      ExecConcat(c, Initial(), before, after);
      RequestsAreSent(c, Exec(c, Initial(), before), after);
    }

    // ---- Receipt and terminal record ----

    /** Publishes the receipt, or re-syncs the one that is there; afterwards it is durable. */
    method CommitReceipt() returns (ok: bool)
      requires Valid()
      requires (s.phase.Publishing? && s.phase.work.StoreReceipt? && s.phase.temp == Temp(false, false, false))
               || (s.phase.Resyncing? && !s.phase.fileSynced)
      modifies this
      ensures Valid() && Continues(old(log))
      ensures !ok ==> Free()
      ensures Steady(old(s.secret), s.secret)
      ensures ok ==>
                && s.phase.Committed? && Firm(s.receipt, s.phase.raw)
                && Records(s.phase.raw, s.phase.entry.env, s.phase.want.launch, s.phase.want.outcome)
                && (if old(s.phase.Publishing?)
                    then s.phase.recovering && s.phase.want == old(s.phase.work.want) && s.phase.entry == old(s.phase.work.entry)
                    else s.phase.recovering == old(s.phase.recovering) && s.phase.want == old(s.phase.want)
                         && s.phase.entry == old(s.phase.entry))
      ensures s.boot == old(s.boot) && s.now >= old(s.now) && (calm ==> ok)
    {
      hide Undertaken, Exec;
      if s.phase.Publishing? {
        ok := PublishRecord();
      } else {
        ok := ResyncReceipt();
      }
      Committedly();
    }

    method ResyncReceipt() returns (ok: bool)
      requires Valid() && s.phase.Resyncing? && !s.phase.fileSynced
      modifies this
      ensures Valid() && Continues(old(log))
      ensures Steady(old(s.secret), s.secret)
      ensures if ok then
                && s.phase.Committed? && s.phase.recovering == old(s.phase.recovering)
                && s.phase.want == old(s.phase.want) && s.phase.entry == old(s.phase.entry)
              else Free()
      ensures s.boot == old(s.boot) && s.now >= old(s.now) && (calm ==> ok)
    {
      hide Undertaken, Exec;
      ReceiptIsThere();
      ghost var m: State;
      var synced := Works();
      if !synced {
        Fail();
        return false;
      }
      m := Call(SyncFile);
      synced := Works();
      m := Call(SyncDirectory(synced));
      return s.phase.Committed?;
    }

    lemma ReceiptIsThere()
      requires Valid()
      ensures s.phase.Resyncing? ==> s.receipt.live.Some?
    {
      Safe();
    }

    lemma Committedly()
      requires Valid()
      ensures s.phase.Committed? ==>
                Firm(s.receipt, s.phase.raw) && Records(s.phase.raw, s.phase.entry.env, s.phase.want.launch, s.phase.want.outcome)
    {
      Safe();
    }

    /** The receipt first; then the clock, read with the receipt durable and the entry as it was; then the terminal record. */
    method CommitEvidence() returns (ok: bool, ghost clockAt: nat)
      requires Valid() && RecoveryConfirmed(s.phase)
      modifies this
      ensures Valid() && Continues(old(log))
      ensures if ok then s.phase == Recovered(Wanted(old(s.phase))) else Free()
      ensures ok ==> s.secret.live.Some? && s.secret.live.value.value.env == old(ConfirmedEntry(s.phase).env)
      ensures ok ==> |old(log)| <= clockAt < |log| && log[clockAt] == ReadClock
      ensures ok ==>
                var m := Exec(c, Initial(), log[..clockAt]);
                && m.receipt.live.Some? && Firm(m.receipt, m.receipt.live.value.value)
                && m.secret.live == old(s.secret.live)
      ensures calm && !ok ==>
                var entry := old(ConfirmedEntry(s.phase));
                entry.Ended? && old(s.now) < entry.retention.anchor
    {
      hide Undertaken, Exec;
      clockAt := 0;
      ok := CommitReceipt();
      if !ok {
        return;
      }
      ghost var m: State;
      m := Call(ReadClock);
      clockAt := |log| - 1;
      CommittedAt(clockAt);
      ghost var log1 := log;
      if s.phase.Idle? {
        RefusedClock(clockAt);
        ok := false;
        return;
      }
      ok := PublishRecord();
      assert log[..clockAt] == log1[..clockAt];
    }

    /** The clock is refused only for an ended entry, when it stands before the anchor. */
    lemma RefusedClock(i: nat)
      requires Valid() && i <= |log| && Exec(c, Initial(), log[..i]).phase.Committed?
      ensures var m := Exec(c, Initial(), log[..i]);
              NextRetention(c, m.phase.entry, m.phase.raw, m.now, m.boot).None? ==>
                m.phase.entry.Ended? && m.now < m.phase.entry.retention.anchor
    {
      SafeAt(i);
    }

    lemma CommittedAt(i: nat)
      requires Valid() && i <= |log| && Exec(c, Initial(), log[..i]).phase.Committed?
      ensures var m := Exec(c, Initial(), log[..i]);
              m.receipt.live.Some? && Firm(m.receipt, m.receipt.live.value.value)
    {
      SafeAt(i);
    }

    /** Reads the entry and asks the service; an answer the entry contradicts, outcome or launch, is refused. */
    method AskService() returns (confirmed: Option<Outcome>)
      requires Valid() && Free() && s.secret.live.Some?
      modifies this
      ensures Valid() && Adds(old(log), [BeginRecover])
      ensures s.secret.live == old(s.secret.live)
      ensures if confirmed.Some? then RecoveryConfirmed(s.phase) && Wanted(s.phase).outcome == confirmed.value else Free()
      ensures var entry, e := old(s.secret.live.value.value), log[|log| - 1];
              && s.now >= old(s.now)
              && e.Confirm?
              && (confirmed.Some? <==>
                    && Acceptable(entry, e.launch, e.outcome)
                    && (old(s.receipt.live.None?) || Records(old(s.receipt.live.value.value), entry.env, e.launch, e.outcome)))
      ensures confirmed.Some? ==>
                && ConfirmedEntry(s.phase) == old(s.secret.live.value.value)
                && log[|log| - 1] == Confirm(Wanted(s.phase).launch, confirmed.value, Wanted(s.phase).observed)
      ensures confirmed.Some? && old(s.secret.live.value.value.Ended?) ==>
                && confirmed.value == old(s.secret.live.value.value.outcome)
                && Wanted(s.phase).launch == old(s.secret.live.value.value.launch)
      ensures confirmed.Some? ==>
                match Wanted(s.phase).launch
                case None => confirmed.value == CancelledBeforeIssue
                case Some(l) => confirmed.value == Revoked && l != old(s.secret.live.value.value.env.proof)
    {
      hide Undertaken, Exec;
      ghost var m: State;
      Do(BeginRecover);
      var launch: Option<string>, outcome: Outcome, observed: string := *, *, *;
      m := Call(Confirm(launch, outcome, observed));
      return if s.phase.Idle? then None else Some(outcome);
    }

    method RecoverExact() returns (obs: Cleanup, failed: bool)
      requires Valid() && Free()
      modifies this
      ensures Valid() && Free()
      ensures if old(s.secret.live.Some?) then Adds(old(log), [BeginRecover]) else Continues(old(log))
      ensures failed <==> obs.receipt.None?
      ensures obs.confirmed <==> obs.outcome.Some?
      ensures obs.receipt.Some? ==>
                && obs.receipt == obs.outcome && old(s.secret.live.Some?)
                && DurablyEnded(s, old(s.secret.live.value.value.env), obs.receipt.value)
      ensures obs.confirmed && old(s.secret.live.Some? && s.secret.live.value.value.Ended?) ==>
                obs.outcome == Some(old(s.secret.live.value.value.outcome))
      ensures calm && obs.confirmed && failed ==>
                old(s.secret.live.Some? && s.secret.live.value.value.Ended?) && old(s.now) < old(s.secret.live.value.value.retention.anchor)
    {
      hide Undertaken, Exec;
      obs, failed := Cleanup(false, None, None), true;
      if s.secret.live.None? {
        return;
      }
      var confirmed := AskService();
      if confirmed.None? {
        return;
      }
      obs := obs.(confirmed := true, outcome := confirmed);
      var ok := CommitConfirmed();
      if !ok {
        return;
      }
      var unlocked := Works();
      if unlocked {
        obs, failed := obs.(receipt := confirmed), false;
      }
    }

    method CommitConfirmed() returns (ok: bool)
      requires Valid() && RecoveryConfirmed(s.phase)
      modifies this
      ensures Valid() && Free() && Continues(old(log))
      ensures ok ==> DurablyEnded(s, old(ConfirmedEntry(s.phase).env), old(Wanted(s.phase).outcome))
      ensures calm && !ok ==>
                var entry := old(ConfirmedEntry(s.phase));
                entry.Ended? && old(s.now) < entry.retention.anchor
    {
      hide Undertaken, Exec;
      ghost var clockAt: nat;
      ok, clockAt := CommitEvidence();
      if ok {
        Ended();
        Do(Return);
      }
    }

    lemma Ended()
      requires Valid() && s.phase.Recovered?
      ensures s.secret.live.Some? && DurablyEnded(s, s.secret.live.value.value.env, s.phase.want.outcome)
    {
      Safe();
    }

    // ---- The driver (network/gateway_recovery.go) ----

    /** The completion callback of a lease or of a failed issue: success only on committed evidence. */
    method Complete() returns (verdict: bool)
      requires Valid() && Free()
      modifies this
      ensures Valid() && Free()
      ensures if old(s.secret.live.Some?) then Adds(old(log), [BeginRecover]) else Continues(old(log))
      ensures verdict ==> old(s.secret.live.Some?) && exists outcome :: DurablyEnded(s, old(s.secret.live.value.value.env), outcome)
    {
      hide Undertaken, Exec;
      var obs, failed := RecoverExact();
      var written: bool := *;
      if !failed && obs.confirmed && obs.receipt == obs.outcome && written {
        assert DurablyEnded(s, old(s.secret.live.value.value.env), obs.receipt.value);
        return true;
      }
      return false;
    }

    /** One issue, never repeated; an unknown one, or a lease that cannot be made, is reconciled once. */
    method RegisterGateway(env: Envelope, deadline: nat) returns (lease: bool)
      requires Valid() && Free()
      modifies this
      ensures Valid() && Free()
      ensures lease ==> Adds(old(log), [BeginPrepare(env, deadline)]) && Holds(s.secret, env)
      ensures !lease ==>
                || Continues(old(log))
                || Adds(old(log), [BeginPrepare(env, deadline)])
                || Adds(old(log), [BeginPrepare(env, deadline), BeginRecover])
      ensures c.budget <= WEEK ==> Requests(c, old(s), log[|old(log)|..]) <= 1
      ensures c.budget <= WEEK && lease ==> s.sent == [env]
    {
      hide Undertaken, Exec, Requests;
      lease := false;
      var issued := Issue(env, deadline);
      if issued == IssueUnknown {
        lease := Reconcile(old(log), env, deadline);
      } else if issued == Registered {
        lease := Works();
        if !lease {
          lease := Reconcile(old(log), env, deadline);
        }
      }
      var prepare, recover := BeginPrepare(env, deadline), BeginRecover;
      if Continues(old(log)) {
        assert Adds(old(log), []);
        RequestsBounded(old(log), []);
      } else if Adds(old(log), [prepare]) {
        RequestsBounded(old(log), [prepare]);
      } else {
        RequestsBounded(old(log), [prepare, recover]);
      }
    }

    /** An issue whose result cannot be used is reconciled once and gives no lease. */
    method Reconcile(ghost before: seq<Event>, env: Envelope, deadline: nat) returns (lease: bool)
      requires Valid() && Free() && Adds(before, [BeginPrepare(env, deadline)])
      modifies this
      ensures Valid() && Free() && !lease
      ensures Adds(before, [BeginPrepare(env, deadline)]) || Adds(before, [BeginPrepare(env, deadline), BeginRecover])
    {
      hide Undertaken, Exec;
      var verdict := Complete();
      assert Undertaken(before) + [BeginPrepare(env, deadline)] + [BeginRecover]
          == Undertaken(before) + [BeginPrepare(env, deadline), BeginRecover];
      return false;
    }

    // ---- Pruning ----

    /** There is a terminal entry, and its retention interval is over in this boot. */
    predicate Elapsed()
      reads this
    {
      && s.secret.live.Some? && s.secret.live.value.value.Ended?
      && RetentionElapsed(s.secret.live.value.value.retention, s.now, s.boot)
    }

    /** Whatever was removed stays reported, even if giving the lock back fails. */
    method PruneExact() returns (obs: Removal, failed: bool)
      requires Valid() && Free()
      modifies this
      ensures Valid() && Free() && old(log) <= log
      ensures obs.receiptRemoved ==> obs.secretRemoved
      ensures obs.secretRemoved ==>
                && old(s.secret.live.Some? && s.secret.live.value.value.Ended?)
                && s.secret == Slot(None, {None})
      ensures obs.receiptRemoved ==> s.receipt == Slot(None, {None})
      ensures !failed ==> obs.secretRemoved == obs.receiptRemoved
      ensures calm && old(Elapsed()) ==> !failed && obs.receiptRemoved
    {
      obs, failed := PruneLocked();
      var unlocked := Works();
      failed := failed || !unlocked;
    }

    method PruneLocked() returns (obs: Removal, failed: bool)
      requires Valid() && Free()
      modifies this
      ensures Valid() && Free() && old(log) <= log
      ensures obs.receiptRemoved ==> obs.secretRemoved
      ensures obs.secretRemoved ==>
                && old(s.secret.live.Some? && s.secret.live.value.value.Ended?)
                && s.secret == Slot(None, {None})
      ensures obs.receiptRemoved ==> s.receipt == Slot(None, {None})
      ensures !failed ==> obs.secretRemoved == obs.receiptRemoved
      ensures calm && old(Elapsed()) ==> !failed && obs.receiptRemoved
    {
      hide Undertaken, Exec;
      obs, failed := Removal(false, false), true;
      if s.secret.live.None? {
        return;
      }
      if s.secret.live.value.value.Prepared? {
        return obs, false;
      }
      Do(BeginPrune);
      var ok := SyncEvidence();
      if !ok {
        return;
      }
      ghost var m: State;
      m := Call(ReadClock);
      if calm && old(Elapsed()) {
        KeptRetention(|log| - 1);
      }
      if s.phase.Publishing? {
        ok := PublishRecord();
        return obs, !ok;
      }
      if !s.phase.Eligible? {
        failed := *;
        return;
      }
      ok := RemoveSecret();
      if !ok {
        return;
      }
      obs := obs.(secretRemoved := true);
      ok := RemoveReceipt();
      return obs.(receiptRemoved := ok), !ok;
    }

    /** Where the interval is over the anchor is kept. */
    lemma KeptRetention(i: nat)
      requires Valid() && i <= |log| && Exec(c, Initial(), log[..i]).phase.Committed?
      ensures var m := Exec(c, Initial(), log[..i]);
              var entry := m.phase.entry;
              entry.Ended? && RetentionElapsed(entry.retention, m.now, m.boot) ==>
                NextRetention(c, entry, m.phase.raw, m.now, m.boot) == Some(entry.retention)
    {
      SafeAt(i);
    }

    /** Re-syncs the exact terminal entry, then its receipt, before any age is considered: both are durable. */
    method SyncEvidence() returns (ok: bool)
      requires Valid() && s.phase.EntrySyncing? && !s.phase.fileSynced
      modifies this
      ensures Valid() && Continues(old(log))
      ensures !ok ==> Free()
      ensures ok ==>
                && s.phase.Committed? && !s.phase.recovering && s.phase.entry == old(s.phase.entry)
                && s.secret.live == old(s.secret.live) && s.secret.disk == {s.secret.live}
                && Firm(s.receipt, s.phase.raw)
      ensures s.boot == old(s.boot) && s.now >= old(s.now) && (calm ==> ok)
    {
      hide Undertaken, Exec;
      EntryHasReceipt();
      ghost var m: State;
      var synced := Works();
      if !synced {
        Fail();
        return false;
      }
      m := Call(SyncFile);
      synced := Works();
      m := Call(SyncDirectory(synced));
      if s.phase.Idle? {
        return false;
      }
      ok := CommitReceipt();
      InDisk();
    }

    lemma EntryHasReceipt()
      requires Valid() && s.phase.EntrySyncing?
      ensures s.receipt.live.Some? && SameReceiptOutcome(s.receipt.live.value.value, ExpectedOrSelf(s.phase.entry))
    {
      Safe();
    }

    /** Unlink the secret, then sync its directory even if the unlink reported an error. */
    method RemoveSecret() returns (ok: bool)
      requires Valid() && s.phase.Eligible?
      modifies this
      ensures Valid() && old(log) <= log
      ensures if ok then s.phase.SecretGone? && s.secret == Slot(None, {None}) else Free()
      ensures calm ==> ok
    {
      hide Undertaken, Exec;
      ghost var m: State;
      var effect: bool := *;
      var reported := Works();
      m := Call(Unlink(effect, reported));
      var synced := Works();
      m := Call(SyncDirectory(synced));
      Gone();
      return s.phase.SecretGone?;
    }

    lemma Gone()
      requires Valid()
      ensures s.phase.SecretGone? || s.phase.ReceiptUnlinked? ==> s.secret == Slot(None, {None})
    {
      Safe();
    }

    /** The same for the receipt, with the secret durably gone. */
    method RemoveReceipt() returns (ok: bool)
      requires Valid() && s.phase.SecretGone?
      modifies this
      ensures Valid() && Free() && old(log) <= log
      ensures s.secret == Slot(None, {None})
      ensures ok ==> s.receipt == Slot(None, {None})
      ensures calm ==> ok
    {
      hide Undertaken, Exec;
      ghost var m: State;
      var effect: bool := *;
      var reported := Works();
      m := Call(Unlink(effect, reported));
      var synced := Works();
      Gone();
      m := Call(SyncDirectory(synced));
      InDisk();
      ok := reported && synced;
    }
  }

  lemma UndertakenSince(before: seq<Event>, after: seq<Event>, more: seq<Event>)
    requires Undertaken(before + after) == Undertaken(before) + more && !Unlinks(more)
    ensures !Unlinks(after)
  {
    UndertakenConcat(before, after);
    assert Undertaken(after) == Undertaken(before + after)[|Undertaken(before)|..] == more;
    NoUnlinkUndertaken(after);
  }

  /** The service's answer was accepted and the receipt is to be committed. */
  predicate RecoveryConfirmed(p: Phase) {
    || (p.Publishing? && p.work.StoreReceipt? && p.temp == Temp(false, false, false))
    || (p.Resyncing? && !p.fileSynced && p.recovering)
  }

  function Wanted(p: Phase): Receipt
    requires RecoveryConfirmed(p)
  {
    if p.Publishing? then p.work.want else p.want
  }

  /** The entry the answer is about. */
  function ConfirmedEntry(p: Phase): Secret
    requires RecoveryConfirmed(p)
  {
    if p.Publishing? then p.work.entry else p.entry
  }

  /** The receipt is about this envelope and records this launch and outcome, field by field. */
  predicate Records(r: Receipt, env: Envelope, launch: Option<string>, outcome: Outcome) {
    About(r, env) && r.launch == launch && r.outcome == outcome
  }

  function AfterPublish(w: Work): Phase {
    match w
    case StoreEnvelope(env, start, deadline) => Stored(env, start, deadline)
    case StoreReceipt(entry, want) => Committed(entry, want, want, true)
    case StoreTerminal(_, _, want, recovering) => if recovering then Recovered(want) else Idle
  }

  function Last(s: State): Permit
    requires s.permits != []
  {
    s.permits[|s.permits| - 1]
  }

  /** Receipt and terminal entry are durable in every crash view and record this outcome of this envelope. */
  predicate DurablyEnded(s: State, env: Envelope, outcome: Outcome) {
    && s.secret.live.Some? && s.secret.disk == {s.secret.live}
    && s.secret.live.value.value.Ended?
    && s.secret.live.value.value.env == env && s.secret.live.value.value.outcome == outcome
    && s.receipt.live.Some? && Firm(s.receipt, s.receipt.live.value.value)
    && Records(s.receipt.live.value.value, env, s.secret.live.value.value.launch, outcome)
  }
}
