/**
 Finish does what it is for: it closes the stop channel, and from every reachable state
 every caller of it can return in a bounded number of steps, without the clock moving and
 whatever the service still answers.
 */
module LeaseReturns {
  import opened Bytes
  import opened Lease

  // ---- What the invariant of Lease leaves open ----

  /** Once a Finish caller has read the channels, the stop channel is closed if there is one. */
  predicate Stops(s: State) {
    && (s.lease.finished ==> Closed(s.lease))
    && (forall i :: i in s.finishers && s.finishers[i].FinishClosed? ==> Closed(s.lease))
  }

  predicate Closed(l: Fields) {
    l.stopped.Some? ==> l.stopCloses == [l.stopped.value]
  }

  /** Whoever has the mutex is at a step that leads to its release. */
  predicate HolderIsAt(s: State) {
    match s.lease.mu
    case None => true
    case Some(StartHolder(i)) => i in s.starters && (s.starters[i].StartIn? || s.starters[i].StartStored?)
    case Some(FinishHolder(i)) =>
      i in s.finishers && (s.finishers[i].FinishIn? || s.finishers[i].FinishClosed? || s.finishers[i].FinishMarked?)
  }

  /** The maker of the channels has spawned its goroutine or still will. */
  predicate Spawns(s: State) {
    s.lease.stopped.Some? ==>
      var k := s.lease.stopped.value;
      k in s.back.duties || (k in s.starters && Made(s.starters[k]))
  }

  /** A completion under way has its caller. */
  predicate Runs(s: State) {
    s.lease.once.Running? ==> s.lease.once.runner in s.finishers && s.finishers[s.lease.once.runner].FinishCompletes?
  }

  ghost predicate Live(s: State) {
    Inv(s) && Stops(s) && HolderIsAt(s) && Spawns(s) && Runs(s)
  }

  lemma StartKeepsLive(c: Config, s: State, i: nat)
    requires MutexInv(s) && SpawnInv(s) && Stops(s) && HolderIsAt(s) && Spawns(s) && Runs(s)
    ensures var t := Step(c, s, StartStep(i)); Stops(t) && HolderIsAt(t) && Spawns(t) && Runs(t)
  {
  }

  lemma FinishKeepsStops(c: Config, s: State, i: nat, v: Verdict)
    requires MutexInv(s) && CloseInv(s) && Stops(s)
    ensures Stops(Step(c, s, FinishStep(i, v)))
  {
  }

  lemma FinishKeepsLive(c: Config, s: State, i: nat, v: Verdict)
    requires MutexInv(s) && OnceInv(s) && HolderIsAt(s) && Spawns(s) && Runs(s)
    ensures var t := Step(c, s, FinishStep(i, v)); HolderIsAt(t) && Spawns(t) && Runs(t)
  {
  }

  lemma LiveStep(c: Config, s: State, e: Event)
    requires Live(s)
    ensures Live(Step(c, s, e))
  {
    StepKeeps(c, s, e);
    match e
    case Tick(_) =>
    case StartStep(i) =>
      StartKeepsLive(c, s, i);
    case FinishStep(i, v) =>
      FinishKeepsStops(c, s, i, v);
      FinishKeepsLive(c, s, i, v);
    case DutyStep(i, r, w) =>
      if i in s.back.duties {
        DutyFrame(c, s.now, s.lease.stopCloses, s.back, i, r, w);
      }
  }

  lemma {:induction false} AlwaysLive(c: Config, now: nat, es: seq<Event>)
    ensures Live(Exec(c, Start(now), es))
    decreases |es|
  {
    if es != [] {
      AlwaysLive(c, now, es[..|es| - 1]);
      LiveStep(c, Exec(c, Start(now), es[..|es| - 1]), es[|es| - 1]);
    }
  }

  /** A Finish caller that has read the channels left the stop channel closed, if Started ever made one. */
  lemma FinishStops(c: Config, now: nat, es: seq<Event>, i: nat)
    requires var s := Exec(c, Start(now), es); i in s.finishers && HasRead(s.finishers[i]) && s.lease.stopped.Some?
    ensures var s := Exec(c, Start(now), es); s.lease.stopCloses == [s.lease.stopped.value]
  {
    AlwaysLive(c, now, es);
  }

  // ---- How far a caller is from its return ----

  /** Steps a stopped goroutine may still take, whatever it is answered. */
  function DutyRank(c: Config, now: nat, d: Duty): nat {
    match d
    case Gone => 0
    case Exiting => 1
    case EndPause(_) => 2
    case RenewPause(_) => 2
    case Ending => 3
    case Reactivating => 4
    case RetryPause(_) => 4
    case Renewing => 5
    case Activating => 5
    case Checking => if now < Deadline(c) then 6 else 4
  }

  /** Once its stop channel is closed, every step of a goroutine that its timer does not start brings it nearer its end. */
  lemma StopShortens(c: Config, now: nat, stopCloses: seq<nat>, b: Background, k: nat, r: Reply)
    requires k in b.duties && !b.duties[k].Gone? && k in stopCloses
    ensures var t := DutyNext(c, now, stopCloses, b, k, r, StopClosed);
            k in t.duties && DutyRank(c, now, t.duties[k]) < DutyRank(c, now, b.duties[k])
  {
  }

  /** What is left before the done channel is closed. */
  function GoroutineRank(c: Config, s: State): nat {
    match s.lease.done
    case None => 0
    case Some(k) =>
      if k in s.back.duties then DutyRank(c, s.now, s.back.duties[k])
      else if k in s.starters && s.starters[k].StartSpawns? then 7
      else 8
  }

  /** What is left before the mutex is free; a Started caller inside may still make a goroutine. */
  function HolderRank(s: State): nat {
    match s.lease.mu
    case None => 0
    case Some(StartHolder(i)) =>
      if i in s.starters && s.starters[i].StartIn? && s.lease.stopped.None? && !s.lease.finished then 10 else 1
    case Some(FinishHolder(i)) =>
      if i !in s.finishers then 0
      else if s.finishers[i].FinishIn? then 3
      else if s.finishers[i].FinishClosed? then 2
      else 1
  }

  function Caller(s: State, i: nat): Finisher {
    if i in s.finishers then s.finishers[i] else FinishWaits
  }

  function Rank(c: Config, s: State, i: nat): nat {
    match Caller(s, i)
    case FinishBack(_, _) => 0
    case FinishCompletes(_) => 1
    case FinishPassed(_) => if s.lease.once.Ran? then 1 else 2
    case FinishJoins(_) => 3 + GoroutineRank(c, s)
    case FinishMarked(_) => 4 + GoroutineRank(c, s)
    case FinishClosed => 5 + GoroutineRank(c, s)
    case FinishIn => 6 + GoroutineRank(c, s)
    case FinishWaits => 7 + GoroutineRank(c, s) + HolderRank(s)
  }

  /** The step that brings the caller nearer its return: its own, or that of whomever it waits for. */
  function Nearer(s: State, i: nat, r: Reply, v: Verdict): Event {
    match Caller(s, i)
    case FinishWaits =>
      (match s.lease.mu
       case None => FinishStep(i, v)
       case Some(StartHolder(j)) => StartStep(j)
       case Some(FinishHolder(j)) => FinishStep(j, v))
    case FinishJoins(Some(k)) =>
      if k in s.back.doneCloses then FinishStep(i, v)
      else if k in s.back.duties then DutyStep(k, r, StopClosed)
      else StartStep(k)
    case FinishPassed(_) => if s.lease.once.Running? then FinishStep(s.lease.once.runner, v) else FinishStep(i, v)
    case _ => FinishStep(i, v)
  }

  lemma NearerWaiting(c: Config, s: State, i: nat, r: Reply, v: Verdict)
    requires Live(s) && Caller(s, i).FinishWaits?
    ensures Rank(c, Step(c, s, Nearer(s, i, r, v)), i) < Rank(c, s, i)
  {
    hide DutyRank, DutyNext;
    if s.lease.mu.Some? {
      HolderLeaves(c, s, i, v);
    }
  }

  lemma HolderLeaves(c: Config, s: State, i: nat, v: Verdict)
    requires Live(s) && Caller(s, i).FinishWaits? && s.lease.mu.Some?
    ensures var e := if s.lease.mu.value.StartHolder? then StartStep(s.lease.mu.value.i) else FinishStep(s.lease.mu.value.i, v);
            var t := Step(c, s, e);
            && Caller(t, i).FinishWaits?
            && GoroutineRank(c, t) + HolderRank(t) < GoroutineRank(c, s) + HolderRank(s)
  {
    hide DutyRank, DutyNext;
  }

  lemma NearerJoining(c: Config, s: State, i: nat, r: Reply, v: Verdict)
    requires Live(s) && Caller(s, i).FinishJoins?
    ensures Rank(c, Step(c, s, Nearer(s, i, r, v)), i) < Rank(c, s, i)
  {
    var d := s.finishers[i].done;
    if d.Some? && d.value !in s.back.doneCloses && d.value in s.back.duties {
      StopShortens(c, s.now, s.lease.stopCloses, s.back, d.value, r);
    }
  }

  lemma NearerOtherwise(c: Config, s: State, i: nat, r: Reply, v: Verdict)
    requires Live(s) && !Caller(s, i).FinishWaits? && !Caller(s, i).FinishJoins? && !Caller(s, i).FinishBack?
    ensures Rank(c, Step(c, s, Nearer(s, i, r, v)), i) < Rank(c, s, i)
  {
    hide DutyRank, DutyNext;
  }

  predicate CalmStep(e: Event, r: Reply) {
    !e.Tick? && (e.DutyStep? ==> e.wake == StopClosed && e.reply == r)
  }

  /** No time passes, no goroutine is cancelled or woken by its timer, and calls are answered as given. */
  predicate Calm(es: seq<Event>, answers: nat -> Reply) {
    forall j: nat :: j < |es| ==> CalmStep(es[j], answers(j))
  }

  lemma {:induction false} Returns(c: Config, s: State, i: nat, answers: nat -> Reply, v: Verdict) returns (es: seq<Event>)
    requires Live(s)
    ensures |es| <= Rank(c, s, i) && Calm(es, answers)
    ensures Caller(Exec(c, s, es), i).FinishBack?
    decreases Rank(c, s, i)
  {
    if Caller(s, i).FinishBack? {
      es := [];
    } else {
      var e := Nearer(s, i, answers(0), v);
      NearerIsNearer(c, s, i, answers(0), v);
      LiveStep(c, s, e);
      hide Live, Step, Rank, Nearer, Calm, Caller;
      var rest := Returns(c, Step(c, s, e), i, (j: nat) => answers(j + 1), v);
      es := [e] + rest;
      ExecFrom(c, s, e, rest);
      CalmFrom(e, rest, answers);
    }
  }

  lemma NearerIsNearer(c: Config, s: State, i: nat, r: Reply, v: Verdict)
    requires Live(s) && !Caller(s, i).FinishBack?
    ensures Rank(c, Step(c, s, Nearer(s, i, r, v)), i) < Rank(c, s, i)
    ensures CalmStep(Nearer(s, i, r, v), r)
  {
    hide Live, Step, Rank;
    if Caller(s, i).FinishWaits? {
      NearerWaiting(c, s, i, r, v);
    } else if Caller(s, i).FinishJoins? {
      NearerJoining(c, s, i, r, v);
    } else {
      NearerOtherwise(c, s, i, r, v);
    }
  }

  lemma CalmFrom(e: Event, es: seq<Event>, answers: nat -> Reply)
    requires CalmStep(e, answers(0)) && Calm(es, (j: nat) => answers(j + 1))
    ensures Calm([e] + es, answers)
  {
    var all := [e] + es;
    assert forall j :: 1 <= j < |all| ==> all[j] == es[j - 1];
  }

  lemma {:induction false} ExecFrom(c: Config, s: State, e: Event, es: seq<Event>)
    ensures Exec(c, s, [e] + es) == Exec(c, Step(c, s, e), es)
    decreases |es|
  {
    hide Step;
    if es == [] {
      assert [e] + es == [e];
    } else {
      assert ([e] + es)[..|es|] == [e] + es[..|es| - 1];
      ExecFrom(c, s, e, es[..|es| - 1]);
    }
  }

  lemma RankBound(c: Config, s: State, i: nat)
    requires Live(s)
    ensures Rank(c, s, i) <= 17
  {
  }

  /** From every reachable state every Finish caller, a new one included, can return within seventeen steps of its own
      and of those it waits for, with the clock standing still and whatever the service answers. */
  lemma FinishReturns(c: Config, now: nat, before: seq<Event>, i: nat, answers: nat -> Reply, v: Verdict) returns (es: seq<Event>)
    ensures |es| <= 17 && Calm(es, answers)
    ensures Caller(Exec(c, Exec(c, Start(now), before), es), i).FinishBack?
  {
    AlwaysLive(c, now, before);
    RankBound(c, Exec(c, Start(now), before), i);
    es := Returns(c, Exec(c, Start(now), before), i, answers, v);
  }
}
