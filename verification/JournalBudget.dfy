/**
 The register deadline against the retention interval: the journal's register guarantee
 holds for every run exactly when no caller of Issue may wait longer than the seven awake
 days after which pruning removes a terminal entry.
 */
module JournalBudget {
  import opened Bytes
  import opened Journal
  import opened JournalSafety

  /** One more event, on the run and on the state it reached. */
  lemma Next(c: Config, es: seq<Event>, s: State, e: Event) returns (es': seq<Event>, s': State)
    requires Exec(c, Initial(), es) == s
    ensures es' == es + [e] && s' == Step(c, s, e) && Exec(c, Initial(), es') == s'
  {
    ExecSnoc(c, Initial(), es, e);
    es', s' := es + [e], Step(c, s, e);
  }

  function Kept<T(==)>(v: T): Slot<T> {
    Slot(Some(File(v, true)), {Some(File(v, true))})
  }

  /** A record published without a failure. */
  function Publication(s: State, w: Work): State {
    match w
    case StoreEnvelope(env, start, deadline) => s.(secret := Kept(Prepared(env)), phase := Stored(env, start, deadline))
    case StoreReceipt(entry, want) => s.(receipt := Kept(want), phase := Committed(entry, want, want, true))
    case StoreTerminal(_, ended, want, recovering) =>
      s.(secret := Kept(ended), phase := if recovering then Recovered(want) else Idle)
  }

  lemma Renamed(c: Config, s: State, w: Work)
    requires s.phase == Publishing(w, Temp(true, true, true))
    requires w.StoreEnvelope? ==> s.secret.live.None?
    requires w.StoreReceipt? ==> s.receipt.live.None?
    ensures Step(c, Step(c, s, Rename(true, true)), SyncDirectory(true)) == Publication(s, w)
  {
  }

  /** The calls that publish a record: write, sync, close, rename, directory sync. */
  lemma Publish(c: Config, es: seq<Event>, s: State, w: Work) returns (es': seq<Event>, s': State)
    requires Exec(c, Initial(), es) == s
    requires s.phase == Publishing(w, Temp(false, false, false))
    requires w.StoreEnvelope? ==> s.secret.live.None?
    requires w.StoreReceipt? ==> s.receipt.live.None?
    ensures Exec(c, Initial(), es') == s' && s' == Publication(s, w)
  {
    hide Exec;
    es', s' := Next(c, es, s, Write);
    es', s' := Next(c, es', s', SyncFile);
    es', s' := Next(c, es', s', Close);
    assert s' == s.(phase := Publishing(w, Temp(true, true, true)));
    Renamed(c, s', w);
    hide Step;
    es', s' := Next(c, es', s', Rename(true, true));
    es', s' := Next(c, es', s', SyncDirectory(true));
  }

  function SampleEnvelope(): Envelope { Envelope("proof", "registry", "session", "runtime") }

  function SampleReceipt(): Receipt { NewReceipt(SampleEnvelope(), None, CancelledBeforeIssue, "boot") }

  function SampleEnded(c: Config): Secret {
    Ended(SampleEnvelope(), CancelledBeforeIssue, None, Retention(c.sha(SampleReceipt()), 0, 0))
  }

  lemma Issued(c: Config) returns (es: seq<Event>, s: State)
    ensures Exec(c, Initial(), es) == s
    ensures s == Initial().(secret := Kept(Prepared(SampleEnvelope())), permits := [Permit(SampleEnvelope(), 0, c.budget)])
  {
    assert Exec(c, Initial(), []) == Initial();
    hide Exec;
    es, s := Next(c, [], Initial(), BeginPrepare(SampleEnvelope(), c.budget));
    es, s := Publish(c, es, s, StoreEnvelope(SampleEnvelope(), 0, c.budget));
    es, s := Next(c, es, s, Grant);
  }

  lemma ReceiptCommitted(c: Config) returns (es: seq<Event>, s: State)
    ensures Exec(c, Initial(), es) == s
    ensures s == Initial().(secret := Kept(Prepared(SampleEnvelope())), receipt := Kept(SampleReceipt()),
                            permits := [Permit(SampleEnvelope(), 0, c.budget)],
                            phase := Committed(Prepared(SampleEnvelope()), SampleReceipt(), SampleReceipt(), true))
  {
    es, s := Issued(c);
    hide Exec;
    es, s := Next(c, es, s, BeginRecover);
    es, s := Next(c, es, s, Confirm(None, CancelledBeforeIssue, "boot"));
    es, s := Publish(c, es, s, StoreReceipt(Prepared(SampleEnvelope()), SampleReceipt()));
  }

  lemma RecoveredEarly(c: Config) returns (es: seq<Event>, s: State)
    ensures Exec(c, Initial(), es) == s
    ensures s == Initial().(secret := Kept(SampleEnded(c)), receipt := Kept(SampleReceipt()),
                            permits := [Permit(SampleEnvelope(), 0, c.budget)])
  {
    es, s := ReceiptCommitted(c);
    hide Exec;
    es, s := Next(c, es, s, ReadClock);
    es, s := Publish(c, es, s, StoreTerminal(Prepared(SampleEnvelope()), SampleEnded(c), SampleReceipt(), true));
    es, s := Next(c, es, s, Return);
  }

  lemma PruneBegun(c: Config) returns (es: seq<Event>, s: State)
    ensures Exec(c, Initial(), es) == s
    ensures s == Initial().(secret := Kept(SampleEnded(c)), receipt := Kept(SampleReceipt()), now := WEEK,
                            permits := [Permit(SampleEnvelope(), 0, c.budget)],
                            phase := Resyncing(SampleEnded(c), ExpectedReceipt(SampleEnded(c)), false, false))
  {
    es, s := RecoveredEarly(c);
    hide Exec;
    es, s := Next(c, es, s, Tick(WEEK));
    es, s := Next(c, es, s, BeginPrune);
    es, s := Next(c, es, s, SyncFile);
    es, s := Next(c, es, s, SyncDirectory(true));
  }

  lemma EligibleLate(c: Config) returns (es: seq<Event>, s: State)
    ensures Exec(c, Initial(), es) == s
    ensures s == Initial().(secret := Kept(SampleEnded(c)), receipt := Kept(SampleReceipt()), now := WEEK,
                            permits := [Permit(SampleEnvelope(), 0, c.budget)], phase := Eligible(SampleEnded(c)))
  {
    es, s := PruneBegun(c);
    hide Exec;
    es, s := Next(c, es, s, SyncFile);
    es, s := Next(c, es, s, SyncDirectory(true));
    es, s := Next(c, es, s, ReadClock);
  }

  /** A caller allowed to wait longer than the retention interval can register after its entry was pruned. */
  lemma LateRegister(c: Config) returns (es: seq<Event>)
    requires c.budget > WEEK
    ensures !SentIsStored(Exec(c, Initial(), es))
  {
    var s: State;
    es, s := EligibleLate(c);
    es, s := Next(c, es, s, Unlink(true, true));
    es, s := Next(c, es, s, SyncDirectory(true));
    assert s.secret == Slot(None, {None});
    es, s := Next(c, es, s, Send(0));
    assert s.sent == [SampleEnvelope()];
    assert None in s.secret.disk;
    assert !Holds(s.secret, s.sent[0]);
  }

  /** The register guarantee holds over all runs if and only if the longest deadline is within the interval. */
  lemma RegisterGuaranteeExactly(c: Config)
    ensures (forall es :: SentIsStored(Exec(c, Initial(), es))) <==> c.budget <= WEEK
  {
    if c.budget <= WEEK {
      forall es
        ensures SentIsStored(Exec(c, Initial(), es))
      {
        RegisterIsBacked(c, es);
      }
    } else {
      var es := LateRegister(c);
    }
  }

  /** The launcher's own callers are within it. */
  lemma LauncherIsWithin(sha: Receipt -> string, es: seq<Event>)
    ensures SentIsStored(Exec(Config(sha, COMPLETION_BUDGET), Initial(), es))
  {
    RegisterGuaranteeExactly(Config(sha, COMPLETION_BUDGET));
  }
}
