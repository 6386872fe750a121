/**
 The recovery-capable gateway lease (internal/netproxy/lease.go) as interleaved steps:
 any number of Started callers and Finish callers, and whatever background goroutines the
 Started callers spawn.  A channel is named after the caller that made it, so nothing
 here says by construction that there is one; `Step` ignores an event that cannot happen.
 */
module Lease {
  import opened Bytes

  /** When the register request was made, the activation window, and the two periods, on one monotonic clock. */
  datatype Config = Config(registered: nat, window: nat, retry: nat, renew: nat)

  function Deadline(c: Config): nat {
    c.registered + c.window
  }

  /** A pause of no length still lasts one tick. */
  function Period(d: nat): (p: nat)
    ensures p >= 1
  {
    if d == 0 then 1 else d
  }

  function Min(a: nat, b: nat): nat {
    if a < b then a else b
  }

  datatype Holder = StartHolder(i: nat) | FinishHolder(i: nat)

  /** A Started caller: waiting for the mutex, inside it, having stored the channels, about to spawn, back. */
  datatype Starter = StartWaits | StartIn | StartStored | StartSpawns | StartBack

  /** A Finish caller; `done` is the channel it read under the mutex. */
  datatype Finisher =
    | FinishWaits
    | FinishIn
    | FinishClosed
    | FinishMarked(done: Option<nat>)
    | FinishJoins(done: Option<nat>)
    | FinishPassed(done: Option<nat>)
    | FinishCompletes(done: Option<nat>)
    | FinishBack(done: Option<nat>, verdict: Verdict)

  datatype Verdict = Completed | Failed

  /** The background goroutine: `until` is when its timer fires. */
  datatype Duty =
    | Checking
    | Activating
    | RetryPause(until: nat)
    | RenewPause(until: nat)
    | Renewing
    | Reactivating
    | Ending
    | EndPause(until: nat)
    | Exiting
    | Gone

  datatype Once = Fresh | Running(runner: nat) | Ran(result: Verdict)

  datatype Reply = Accepted | UnknownToken | NotActive | OtherFailure

  datatype Wake = Timer | StopClosed | Cancelled

  /** Calls made to the service, and the one answer that matters to timing. */
  datatype Entry =
    | Activate(at: nat, again: bool)
    | Renew(at: nat)
    | Unregister(at: nat)
    | FoundPending(at: nat)

  /** The lease's own fields; `stopCloses` and `completions` count what must happen once. */
  datatype Fields = Fields(
    mu: Option<Holder>,
    stopped: Option<nat>,
    done: Option<nat>,
    finished: bool,
    once: Once,
    stopCloses: seq<nat>,
    completions: nat)

  datatype Background = Background(duties: map<nat, Duty>, doneCloses: seq<nat>, log: seq<Entry>)

  datatype State = State(now: nat, lease: Fields, starters: map<nat, Starter>, finishers: map<nat, Finisher>, back: Background)

  datatype Event =
    | Tick(d: nat)
    | StartStep(i: nat)
    | FinishStep(i: nat, verdict: Verdict)
    | DutyStep(i: nat, reply: Reply, wake: Wake)

  function Step(c: Config, s: State, e: Event): State {
    match e
    case Tick(d) => s.(now := s.now + d)
    case StartStep(i) =>
      var p := if i in s.starters then s.starters[i] else StartWaits;
      var (l, q) := StartNext(s.lease, i, p);
      var back := if p.StartSpawns? then s.back.(duties := s.back.duties[i := Checking]) else s.back;
      s.(lease := l, starters := s.starters[i := q], back := back)
    case FinishStep(i, v) =>
      var p := if i in s.finishers then s.finishers[i] else FinishWaits;
      var (l, q) := FinishNext(s.lease, i, p, s.back.doneCloses, v);
      s.(lease := l, finishers := s.finishers[i := q])
    case DutyStep(i, r, w) =>
      if i in s.back.duties then s.(back := DutyNext(c, s.now, s.lease.stopCloses, s.back, i, r, w)) else s
  }

  function Exec(c: Config, s: State, es: seq<Event>): State
    decreases |es|
  {
    if es == [] then s else Step(c, Exec(c, s, es[..|es| - 1]), es[|es| - 1])
  }

  function StartNext(l: Fields, i: nat, p: Starter): (Fields, Starter) {
    match p
    case StartWaits => if l.mu.None? then (l.(mu := Some(StartHolder(i))), StartIn) else (l, p)
    case StartIn =>
      if l.stopped.Some? || l.finished then (l.(mu := None), StartBack) else (l.(stopped := Some(i), done := Some(i)), StartStored)
    case StartStored => (l.(mu := None), StartSpawns)
    case StartSpawns => (l, StartBack)
    case StartBack => (l, p)
  }

  function FinishNext(l: Fields, i: nat, p: Finisher, doneCloses: seq<nat>, v: Verdict): (Fields, Finisher) {
    match p
    case FinishWaits => if l.mu.None? then (l.(mu := Some(FinishHolder(i))), FinishIn) else (l, p)
    case FinishIn =>
      (if l.stopped.Some? && !l.finished then l.(stopCloses := l.stopCloses + [l.stopped.value]) else l, FinishClosed)
    case FinishClosed => (l.(finished := true), FinishMarked(l.done))
    case FinishMarked(d) => (l.(mu := None), FinishJoins(d))
    case FinishJoins(d) => if d.None? || d.value in doneCloses then (l, FinishPassed(d)) else (l, p)
    case FinishPassed(d) => EnterOnce(l, i, d)
    case FinishCompletes(d) => (l.(once := Ran(v)), FinishBack(d, v))
    case FinishBack(_, _) => (l, p)
  }

  /** The first caller runs the completion, the others wait until it has run. */
  function EnterOnce(l: Fields, i: nat, d: Option<nat>): (Fields, Finisher) {
    match l.once
    case Fresh => (l.(once := Running(i), completions := l.completions + 1), FinishCompletes(d))
    case Running(_) => (l, FinishPassed(d))
    case Ran(v) => (l, FinishBack(d, v))
  }

  function SetDuty(b: Background, i: nat, d: Duty): Background {
    b.(duties := b.duties[i := d])
  }

  function Call(b: Background, i: nat, d: Duty, entries: seq<Entry>): Background {
    b.(duties := b.duties[i := d], log := b.log + entries)
  }

  /** What a paused goroutine may be woken by. */
  predicate Wakes(now: nat, stopCloses: seq<nat>, i: nat, until: nat, w: Wake) {
    match w
    case Timer => now >= until
    case StopClosed => i in stopCloses
    case Cancelled => true
  }

  function DutyNext(c: Config, now: nat, stopCloses: seq<nat>, b: Background, i: nat, r: Reply, w: Wake): Background
    requires i in b.duties
  {
    var end := Call(b, i, Ending, [Unregister(now)]);
    var renewLater := SetDuty(b, i, RenewPause(now + Period(c.renew)));
    match b.duties[i]
    case Checking => if now < Deadline(c) then Call(b, i, Activating, [Activate(now, false)]) else end
    case Activating =>
      if r.Accepted? then renewLater
      else if r.UnknownToken? then end
      else if now < Deadline(c) then SetDuty(b, i, RetryPause(now + Period(Min(c.retry, Deadline(c) - now))))
      else SetDuty(b, i, Checking)
    case RetryPause(until) =>
      if !Wakes(now, stopCloses, i, until, w) then b else if w.Timer? then SetDuty(b, i, Checking) else end
    case RenewPause(until) =>
      if !Wakes(now, stopCloses, i, until, w) then b
      else if w.Timer? then Call(b, i, Renewing, [Renew(now)]) else SetDuty(b, i, Exiting)
    case Renewing =>
      if r.UnknownToken? then SetDuty(b, i, Exiting)
      else if r.NotActive? then Call(b, i, Reactivating, [FoundPending(now), Activate(now, true)])
      else renewLater
    case Reactivating => if r.UnknownToken? then end else renewLater
    case Ending => if r.Accepted? then SetDuty(b, i, Exiting) else SetDuty(b, i, EndPause(now + Period(c.retry)))
    case EndPause(until) =>
      if !Wakes(now, stopCloses, i, until, w) then b else if w.Timer? then end else SetDuty(b, i, Exiting)
    case Exiting => SetDuty(b, i, Gone).(doneCloses := b.doneCloses + [i])
    case Gone => b
  }

  function Start(now: nat): State {
    State(now, Fields(None, None, None, false, Fresh, [], 0), map[], map[], Background(map[], [], []))
  }

  // ---- The invariant ----

  predicate HasPassed(f: Finisher) {
    f.FinishPassed? || f.FinishCompletes? || f.FinishBack?
  }

  predicate HasRead(f: Finisher) {
    f.FinishMarked? || f.FinishJoins? || HasPassed(f)
  }

  predicate Made(p: Starter) {
    p.StartStored? || p.StartSpawns?
  }

  /** The mutex has one holder. */
  predicate MutexInv(s: State) {
    && (forall i :: i in s.starters && (s.starters[i].StartIn? || s.starters[i].StartStored?) ==> s.lease.mu == Some(StartHolder(i)))
    && (forall i :: i in s.finishers && (s.finishers[i].FinishIn? || s.finishers[i].FinishClosed? || s.finishers[i].FinishMarked?)
          ==> s.lease.mu == Some(FinishHolder(i)))
  }

  /** The channels are made once, and only their maker spawns a goroutine. */
  predicate SpawnInv(s: State) {
    && s.lease.stopped == s.lease.done
    && (forall i :: i in s.starters && Made(s.starters[i]) ==> s.lease.stopped == Some(i) && i !in s.back.duties)
    && (forall i :: i in s.back.duties ==> s.lease.stopped == Some(i) && i in s.starters && s.starters[i].StartBack?)
  }

  /** Each channel is closed at most once. */
  predicate CloseInv(s: State) {
    && (s.lease.stopCloses == [] || (s.lease.stopped.Some? && s.lease.stopCloses == [s.lease.stopped.value]))
    && (s.lease.stopCloses != [] ==> s.lease.finished || exists i :: i in s.finishers && s.finishers[i].FinishClosed?)
    && (s.back.doneCloses == [] || (s.lease.stopped.Some? && s.back.doneCloses == [s.lease.stopped.value]))
    && (forall i :: i in s.back.duties ==> (s.back.duties[i].Gone? <==> i in s.back.doneCloses))
    && (forall i :: i in s.back.doneCloses ==> i in s.back.duties)
  }

  /** Finishing is for good: every caller read the same channel, and passed only once it was closed. */
  predicate FinishInv(s: State) {
    forall i :: i in s.finishers && HasRead(s.finishers[i]) ==>
      && s.lease.finished
      && s.finishers[i].done == s.lease.done
      && (HasPassed(s.finishers[i]) && s.lease.done.Some? ==> s.lease.done.value in s.back.doneCloses)
  }

  /** The completion runs once, after some caller passed, and its verdict is everyone's. */
  predicate OnceInv(s: State) {
    && s.lease.completions == (if s.lease.once.Fresh? then 0 else 1)
    && (forall i :: i in s.finishers && s.finishers[i].FinishCompletes? ==> s.lease.once == Running(i))
    && (forall i :: i in s.finishers && s.finishers[i].FinishBack? ==> s.lease.once == Ran(s.finishers[i].verdict))
    && (!s.lease.once.Fresh? ==> exists i :: i in s.finishers && HasPassed(s.finishers[i]))
  }

  ghost predicate Inv(s: State) {
    MutexInv(s) && SpawnInv(s) && CloseInv(s) && FinishInv(s) && OnceInv(s)
  }

  lemma StartKeepsSpawn(c: Config, s: State, i: nat)
    requires MutexInv(s) && SpawnInv(s)
    ensures MutexInv(Step(c, s, StartStep(i))) && SpawnInv(Step(c, s, StartStep(i)))
  {
  }

  lemma StartKeepsRest(c: Config, s: State, i: nat)
    requires SpawnInv(s) && CloseInv(s) && FinishInv(s) && OnceInv(s)
    ensures var t := Step(c, s, StartStep(i)); CloseInv(t) && FinishInv(t) && OnceInv(t)
  {
    var t := Step(c, s, StartStep(i));
    assert t.finishers == s.finishers && t.lease.finished == s.lease.finished && t.lease.once == s.lease.once;
    assert OnceInv(t);
    assert t.back.doneCloses == s.back.doneCloses && t.lease.stopCloses == s.lease.stopCloses;
  }

  lemma FinishKeepsMutex(c: Config, s: State, i: nat, v: Verdict)
    requires MutexInv(s)
    ensures MutexInv(Step(c, s, FinishStep(i, v)))
  {
  }

  lemma FinishKeepsSpawn(c: Config, s: State, i: nat, v: Verdict)
    requires SpawnInv(s)
    ensures SpawnInv(Step(c, s, FinishStep(i, v)))
  {
  }

  lemma FinishKeepsFinish(c: Config, s: State, i: nat, v: Verdict)
    requires FinishInv(s)
    ensures FinishInv(Step(c, s, FinishStep(i, v)))
  {
  }

  /** Two callers cannot both close the stop channel: the second finds the lease finished. */
  lemma FinishKeepsClose(c: Config, s: State, i: nat, v: Verdict)
    requires MutexInv(s) && CloseInv(s)
    ensures CloseInv(Step(c, s, FinishStep(i, v)))
  {
    var t := Step(c, s, FinishStep(i, v));
    if t.lease.stopCloses != [] && !t.lease.finished {
      if s.lease.stopCloses == [] {
        assert i in t.finishers && t.finishers[i].FinishClosed?;
      } else {
        var j :| j in s.finishers && s.finishers[j].FinishClosed?;
        assert j in t.finishers && t.finishers[j].FinishClosed?;
      }
    }
  }

  lemma FinishKeepsOnce(c: Config, s: State, i: nat, v: Verdict)
    requires OnceInv(s)
    ensures OnceInv(Step(c, s, FinishStep(i, v)))
  {
    var t := Step(c, s, FinishStep(i, v));
    if !t.lease.once.Fresh? {
      if s.lease.once.Fresh? {
        assert i in t.finishers && HasPassed(t.finishers[i]);
      } else {
        var j :| j in s.finishers && HasPassed(s.finishers[j]);
        assert j in t.finishers && HasPassed(t.finishers[j]);
      }
    }
  }

  /** A goroutine changes its own duty and the log, and closes the done channel as it goes. */
  lemma DutyFrame(c: Config, now: nat, stopCloses: seq<nat>, b: Background, i: nat, r: Reply, w: Wake)
    requires i in b.duties
    ensures var t := DutyNext(c, now, stopCloses, b, i, r, w);
            && i in t.duties && t.duties == b.duties[i := t.duties[i]]
            && (t.duties[i].Gone? <==> b.duties[i].Gone? || b.duties[i].Exiting?)
            && t.doneCloses == (if b.duties[i].Exiting? then b.doneCloses + [i] else b.doneCloses)
            && (b.duties[i].Gone? ==> t == b)
  {
    assert b.duties[i := b.duties[i]] == b.duties;
  }

  lemma DutyKeeps(c: Config, s: State, i: nat, r: Reply, w: Wake)
    requires Inv(s) && i in s.back.duties
    ensures Inv(Step(c, s, DutyStep(i, r, w)))
  {
    DutyFrame(c, s.now, s.lease.stopCloses, s.back, i, r, w);
    hide DutyNext;
    var t := Step(c, s, DutyStep(i, r, w));
    assert i in s.back.doneCloses <==> s.back.duties[i].Gone?;
    assert MutexInv(t) && SpawnInv(t) && OnceInv(t);
    assert CloseInv(t) && FinishInv(t);
  }

  lemma StepKeeps(c: Config, s: State, e: Event)
    requires Inv(s)
    ensures Inv(Step(c, s, e))
  {
    match e
    case Tick(d) => assert OnceInv(Step(c, s, e));
    case StartStep(i) =>
      hide Step, MutexInv, SpawnInv, CloseInv, FinishInv, OnceInv;
      StartKeepsSpawn(c, s, i);
      StartKeepsRest(c, s, i);
    case FinishStep(i, v) =>
      hide Step, MutexInv, SpawnInv, CloseInv, FinishInv, OnceInv;
      FinishKeepsMutex(c, s, i, v);
      FinishKeepsSpawn(c, s, i, v);
      FinishKeepsFinish(c, s, i, v);
      FinishKeepsClose(c, s, i, v);
      FinishKeepsOnce(c, s, i, v);
    case DutyStep(i, r, w) =>
      if i in s.back.duties {
        DutyKeeps(c, s, i, r, w);
      }
  }

  lemma {:induction false} Always(c: Config, now: nat, es: seq<Event>)
    ensures Inv(Exec(c, Start(now), es))
    decreases |es|
  {
    if es != [] {
      Always(c, now, es[..|es| - 1]);
      StepKeeps(c, Exec(c, Start(now), es[..|es| - 1]), es[|es| - 1]);
    }
  }

  // ---- What holds in every interleaving ----

  /** One stop, one goroutine, one completion, one verdict. */
  lemma AtMostOnce(c: Config, now: nat, es: seq<Event>)
    ensures var s := Exec(c, Start(now), es);
            && |s.lease.stopCloses| <= 1 && |s.back.doneCloses| <= 1 && s.lease.completions <= 1
            && (forall i, j :: i in s.back.duties && j in s.back.duties ==> i == j)
            && (forall i, j :: i in s.finishers && j in s.finishers && s.finishers[i].FinishBack? && s.finishers[j].FinishBack?
                  ==> s.finishers[i].verdict == s.finishers[j].verdict && s.lease.completions == 1)
  {
    Always(c, now, es);
  }

  /** Nothing in the background can run any more. */
  predicate Quiet(s: State) {
    && (forall i :: i in s.back.duties ==> s.back.duties[i].Gone?)
    && (forall i :: i in s.starters ==> !Made(s.starters[i]))
    && s.lease.finished
  }

  ghost predicate SomePassed(s: State) {
    exists i :: i in s.finishers && HasPassed(s.finishers[i])
  }

  lemma PassedIsQuiet(s: State)
    requires Inv(s) && SomePassed(s)
    ensures Quiet(s)
  {
    var i :| i in s.finishers && HasPassed(s.finishers[i]);
    assert HasRead(s.finishers[i]);
    forall k | k in s.back.doneCloses
      ensures k in s.back.duties && s.back.duties[k].Gone?
    {
    }
  }

  /** A passed caller stays so, and what it returned stays so. */
  predicate Later(s: State, t: State) {
    && t.back.log == s.back.log
    && (forall i :: i in s.finishers && HasPassed(s.finishers[i]) ==> i in t.finishers && HasPassed(t.finishers[i]))
    && (forall i :: i in s.finishers && s.finishers[i].FinishBack? ==> i in t.finishers && t.finishers[i] == s.finishers[i])
  }

  lemma LaterLater(s: State, t: State, u: State)
    requires Later(s, t) && Later(t, u)
    ensures Later(s, u)
  {
  }

  /** Other steps add no call, and nobody comes back from having passed. */
  lemma PassedStays(c: Config, s: State, e: Event)
    requires Quiet(s) && SomePassed(s) && !e.DutyStep?
    ensures Later(s, Step(c, s, e)) && SomePassed(Step(c, s, e))
  {
    var t := Step(c, s, e);
    assert t.back.log == s.back.log;
    forall i | i in s.finishers && HasPassed(s.finishers[i])
      ensures i in t.finishers && HasPassed(t.finishers[i])
      ensures s.finishers[i].FinishBack? ==> t.finishers[i] == s.finishers[i]
    {
    }
    var i :| i in s.finishers && HasPassed(s.finishers[i]);
    assert i in t.finishers && HasPassed(t.finishers[i]);
  }

  lemma QuietStep(c: Config, s: State, e: Event)
    requires Inv(s) && SomePassed(s)
    ensures Later(s, Step(c, s, e)) && SomePassed(Step(c, s, e))
  {
    PassedIsQuiet(s);
    if e.DutyStep? {
      if e.i in s.back.duties {
        DutyFrame(c, s.now, s.lease.stopCloses, s.back, e.i, e.reply, e.wake);
      }
      hide DutyNext, Inv, EnterOnce;
      assert Step(c, s, e) == s;
    } else {
      hide DutyNext, Inv, SomePassed;
      PassedStays(c, s, e);
    }
  }

  /** Once any Finish has passed its wait no call of any kind starts again, whatever happens. */
  lemma {:induction false} QuietAfterFinish(c: Config, now: nat, before: seq<Event>, after: seq<Event>)
    requires SomePassed(Exec(c, Start(now), before))
    ensures Later(Exec(c, Start(now), before), Exec(c, Start(now), before + after))
    ensures SomePassed(Exec(c, Start(now), before + after))
    decreases |after|
  {
    hide Step, Later, SomePassed, Inv;
    if after == [] {
      assert before + after == before;
      LaterSelf(Exec(c, Start(now), before));
    } else {
      var init := after[..|after| - 1];
      var s, t := Exec(c, Start(now), before), Exec(c, Start(now), before + init);
      QuietAfterFinish(c, now, before, init);
      assert (before + after)[..|before + after| - 1] == before + init;
      Always(c, now, before + init);
      QuietStep(c, t, after[|after| - 1]);
      LaterLater(s, t, Step(c, t, after[|after| - 1]));
    }
  }

  lemma LaterSelf(s: State)
    ensures Later(s, s)
  {
  }

  /** The completion never runs beside a goroutine. */
  lemma CompletesAlone(c: Config, now: nat, es: seq<Event>)
    ensures var s := Exec(c, Start(now), es); !s.lease.once.Fresh? ==> Quiet(s)
  {
    Always(c, now, es);
    var s := Exec(c, Start(now), es);
    if !s.lease.once.Fresh? {
      PassedIsQuiet(s);
    }
  }

  // ---- The activation window ----

  predicate InWindow(c: Config, log: seq<Entry>) {
    forall k :: 0 <= k < |log| && log[k].Activate? ==> log[k].at < Deadline(c)
  }

  predicate FoundLate(c: Config, log: seq<Entry>) {
    exists k :: 0 <= k < |log| && log[k].FoundPending? && log[k].at >= Deadline(c)
  }

  /** The first activation keeps to the window; the other attempts follow a session found pending, at once. */
  predicate LogInv(c: Config, log: seq<Entry>) {
    forall k :: 0 <= k < |log| ==> EntryOk(c, log, k)
  }

  predicate EntryOk(c: Config, log: seq<Entry>, k: nat)
    requires k < |log|
  {
    && (log[k].Activate? && !log[k].again ==> log[k].at < Deadline(c))
    && (log[k].Activate? && log[k].again ==> k > 0 && log[k - 1] == FoundPending(log[k].at))
    && (log[k].FoundPending? ==> k + 1 < |log| && log[k + 1] == Activate(log[k].at, true))
  }

  /** What one step of a goroutine may say. */
  predicate Speech(c: Config, added: seq<Entry>) {
    || added == []
    || (|added| == 1 && !added[0].FoundPending? && (added[0].Activate? ==> !added[0].again && added[0].at < Deadline(c)))
    || (|added| == 2 && added[0].FoundPending? && added[1] == Activate(added[0].at, true))
  }

  lemma SpeechKeeps(c: Config, log: seq<Entry>, added: seq<Entry>)
    requires LogInv(c, log) && Speech(c, added)
    ensures LogInv(c, log + added)
  {
    var all := log + added;
    forall k | 0 <= k < |all|
      ensures EntryOk(c, all, k)
    {
      if k < |log| {
        assert EntryOk(c, log, k) && all[k] == log[k];
      } else {
        assert all[k] == added[k - |log|];
      }
    }
  }

  lemma DutySays(c: Config, now: nat, stopCloses: seq<nat>, b: Background, i: nat, r: Reply, w: Wake) returns (added: seq<Entry>)
    requires i in b.duties
    ensures DutyNext(c, now, stopCloses, b, i, r, w).log == b.log + added && Speech(c, added)
  {
    var log := DutyNext(c, now, stopCloses, b, i, r, w).log;
    assert b.log + [] == b.log;
    added := log[|b.log|..];
  }

  lemma LogStep(c: Config, s: State, e: Event)
    requires LogInv(c, s.back.log)
    ensures LogInv(c, Step(c, s, e).back.log)
  {
    if e.DutyStep? && e.i in s.back.duties {
      var added := DutySays(c, s.now, s.lease.stopCloses, s.back, e.i, e.reply, e.wake);
      SpeechKeeps(c, s.back.log, added);
    }
  }

  lemma {:induction false} LogAlways(c: Config, now: nat, es: seq<Event>)
    ensures LogInv(c, Exec(c, Start(now), es).back.log)
    decreases |es|
  {
    if es != [] {
      LogAlways(c, now, es[..|es| - 1]);
      LogStep(c, Exec(c, Start(now), es[..|es| - 1]), es[|es| - 1]);
    }
  }

  /** Every attempt starts inside the window exactly when no renewal finds the session pending after it. */
  lemma WindowExactly(c: Config, now: nat, es: seq<Event>)
    ensures var log := Exec(c, Start(now), es).back.log; InWindow(c, log) <==> !FoundLate(c, log)
  {
    LogAlways(c, now, es);
    var log := Exec(c, Start(now), es).back.log;
    if !InWindow(c, log) {
      var k :| 0 <= k < |log| && log[k].Activate? && log[k].at >= Deadline(c);
      assert EntryOk(c, log, k);
      assert log[k - 1].FoundPending?;
    }
    if FoundLate(c, log) {
      var k :| 0 <= k < |log| && log[k].FoundPending? && log[k].at >= Deadline(c);
      assert EntryOk(c, log, k);
      assert log[k + 1].Activate?;
    }
  }

  /** A renewal is at least one period after the registration. */
  predicate RenewInv(c: Config, s: State) {
    && s.now >= c.registered
    && (forall i :: i in s.back.duties && s.back.duties[i].RenewPause? ==> s.back.duties[i].until >= c.registered + c.renew)
    && (forall i :: i in s.back.duties && s.back.duties[i].Renewing? ==> s.now >= c.registered + c.renew)
    && (forall k :: 0 <= k < |s.back.log| && s.back.log[k].FoundPending? ==> s.back.log[k].at >= c.registered + c.renew)
  }

  lemma RenewDuty(c: Config, s: State, i: nat, r: Reply, w: Wake)
    requires RenewInv(c, s) && i in s.back.duties
    ensures RenewInv(c, s.(back := DutyNext(c, s.now, s.lease.stopCloses, s.back, i, r, w)))
  {
  }

  lemma RenewStep(c: Config, s: State, e: Event)
    requires RenewInv(c, s)
    ensures RenewInv(c, Step(c, s, e))
  {
    if e.DutyStep? {
      if e.i in s.back.duties {
        RenewDuty(c, s, e.i, e.reply, e.wake);
      }
      hide DutyNext, RenewInv;
    } else {
      hide DutyNext, StartNext, FinishNext;
    }
  }

  lemma {:induction false} RenewAlways(c: Config, now: nat, es: seq<Event>)
    requires c.registered <= now
    ensures RenewInv(c, Exec(c, Start(now), es))
    decreases |es|
  {
    if es != [] {
      RenewAlways(c, now, es[..|es| - 1]);
      RenewStep(c, Exec(c, Start(now), es[..|es| - 1]), es[|es| - 1]);
    }
  }

  /** With a window no longer than the renewal period, exactly the first activation's attempts are inside it. */
  lemma OnlyFirstActivationInWindow(c: Config, now: nat, es: seq<Event>, k: nat)
    requires c.registered <= now && c.window <= c.renew
    requires k < |Exec(c, Start(now), es).back.log| && Exec(c, Start(now), es).back.log[k].Activate?
    ensures var a := Exec(c, Start(now), es).back.log[k]; a.at < Deadline(c) <==> !a.again
  {
    LogAlways(c, now, es);
    RenewAlways(c, now, es);
    var log := Exec(c, Start(now), es).back.log;
    assert EntryOk(c, log, k);
    if log[k].again {
      assert log[k - 1].FoundPending?;
    }
  }

  /** So the window is not kept in every run: one activation, one long pause, one renewal that finds the session pending. */
  function LateRun(c: Config): seq<Event> {
    [StartStep(0), StartStep(0), StartStep(0), StartStep(0), StartStep(0),
     DutyStep(0, Accepted, Timer), DutyStep(0, Accepted, Timer), Tick(c.window + Period(c.renew)),
     DutyStep(0, Accepted, Timer), DutyStep(0, NotActive, Timer)]
  }

  lemma LateActivation(c: Config, now: nat)
    requires c.registered <= now < Deadline(c)
    ensures !InWindow(c, Exec(c, Start(now), LateRun(c)).back.log)
  {
    var es := LateRun(c);
    var s0 := Start(now);
    var s1 := Step(c, s0, es[0]);
    var s2 := Step(c, s1, es[1]);
    var s3 := Step(c, s2, es[2]);
    var s4 := Step(c, s3, es[3]);
    var s5 := Step(c, s4, es[4]);
    assert s5.back.duties == map[0 := Checking];
    var s6 := Step(c, s5, es[5]);
    var s7 := Step(c, s6, es[6]);
    assert s7.back.duties[0] == RenewPause(now + Period(c.renew));
    var s8 := Step(c, s7, es[7]);
    var s9 := Step(c, s8, es[8]);
    var s10 := Step(c, s9, es[9]);
    assert s10.back.log == [Activate(now, false), Renew(s8.now), FoundPending(s8.now), Activate(s8.now, true)];
    ExecTen(c, s0, es);
    assert s10.back.log[3].at >= Deadline(c);
  }

  lemma ExecTen(c: Config, s: State, es: seq<Event>)
    requires |es| == 10
    ensures Exec(c, s, es) == Step(c, Step(c, Step(c, Step(c, Step(c, Step(c, Step(c, Step(c, Step(c, Step(c, s,
              es[0]), es[1]), es[2]), es[3]), es[4]), es[5]), es[6]), es[7]), es[8]), es[9])
  {
    hide Step;
    ExecPrefix(c, s, es, 0);
    ExecPrefix(c, s, es, 1);
    ExecPrefix(c, s, es, 2);
    ExecPrefix(c, s, es, 3);
    ExecPrefix(c, s, es, 4);
    ExecPrefix(c, s, es, 5);
    ExecPrefix(c, s, es, 6);
    ExecPrefix(c, s, es, 7);
    ExecPrefix(c, s, es, 8);
    ExecPrefix(c, s, es, 9);
    assert es[..10] == es && es[..0] == [];
  }

  lemma ExecPrefix(c: Config, s: State, es: seq<Event>, k: nat)
    requires k < |es|
    ensures Exec(c, s, es[..k + 1]) == Step(c, Exec(c, s, es[..k]), es[k])
  {
    assert es[..k + 1][..k] == es[..k];
  }

  /** A goroutine that starts after the window does nothing but end the session. */
  predicate TooLate(c: Config, s: State) {
    && s.now >= Deadline(c)
    && (forall i :: i in s.back.duties ==>
          var d := s.back.duties[i]; d.Checking? || d.Ending? || d.EndPause? || d.Exiting? || d.Gone?)
    && (forall k :: 0 <= k < |s.back.log| ==> s.back.log[k].Unregister?)
  }

  lemma {:induction false} TooLateAlways(c: Config, now: nat, es: seq<Event>)
    requires now >= Deadline(c)
    ensures TooLate(c, Exec(c, Start(now), es))
    decreases |es|
  {
    if es != [] {
      TooLateAlways(c, now, es[..|es| - 1]);
      TooLateStep(c, Exec(c, Start(now), es[..|es| - 1]), es[|es| - 1]);
    }
  }

  lemma TooLateStep(c: Config, s: State, e: Event)
    requires TooLate(c, s)
    ensures TooLate(c, Step(c, s, e))
  {
  }

  /** All runs from a moment keep the window exactly when it is already over there. */
  lemma WindowKeptFrom(c: Config, now: nat)
    requires c.registered <= now
    ensures (forall es :: InWindow(c, Exec(c, Start(now), es).back.log)) <==> now >= Deadline(c)
  {
    if now >= Deadline(c) {
      forall es
        ensures InWindow(c, Exec(c, Start(now), es).back.log)
      {
        TooLateAlways(c, now, es);
      }
    } else {
      LateActivation(c, now);
    }
  }

  /** So the documented claim holds of a configuration exactly when its window is empty. */
  lemma WindowKeptExactly(c: Config)
    ensures (forall now: nat, es :: c.registered <= now ==> InWindow(c, Exec(c, Start(now), es).back.log)) <==> c.window == 0
  {
    WindowKeptFrom(c, c.registered);
    if c.window == 0 {
      forall now: nat, es | c.registered <= now
        ensures InWindow(c, Exec(c, Start(now), es).back.log)
      {
        WindowKeptFrom(c, now);
      }
    }
  }
}
