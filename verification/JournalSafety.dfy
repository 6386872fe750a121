/**
 What holds in every state of every run of `Journal`, whatever fails, dies or crashes,
 and in every view a crash could leave behind.
 */
module JournalSafety {
  import opened Bytes
  import opened Journal

  // ---- What the promises are about ----

  /** Every view of the entry a crash may leave holds the envelope, safely on disk. */
  predicate Holds(secret: Slot<Secret>, env: Envelope) {
    forall p :: p in secret.disk ==> p.Some? && p.value.synced && p.value.value.env == env
  }

  /** The receipt is there in every view, and is `r`. */
  predicate Firm(receipt: Slot<Receipt>, r: Receipt) {
    receipt.live == Some(File(r, true)) && receipt.disk == {receipt.live}
  }

  /** The receipt is about the envelope's registration, field by field. */
  predicate About(r: Receipt, env: Envelope) {
    r.registry == env.registry && r.session == env.session && r.runtime == env.runtime
  }

  /** An ended entry and its receipt record the same result of the same launch. */
  predicate Matches(c: Config, e: Secret, r: Receipt) {
    && e.Ended?
    && About(r, e.env) && r.launch == e.launch && r.outcome == e.outcome
    && e.retention.receiptHash == c.sha(r)
  }

  predicate Active(p: Permit, now: nat) {
    now < p.deadline
  }

  /** A register request was sent, so the exact envelope is durable. */
  predicate SentIsStored(s: State) {
    forall i :: 0 <= i < |s.sent| ==> Holds(s.secret, s.sent[i])
  }

  /** A terminal entry in any crash view has its matching receipt in every crash view. */
  predicate TerminalHasReceipt(c: Config, s: State) {
    forall p :: p in s.secret.disk && p.Some? && p.value.value.Ended? ==>
      s.receipt.live.Some? && Firm(s.receipt, s.receipt.live.value.value)
      && Matches(c, p.value.value, s.receipt.live.value.value)
  }

  // ---- The evidence invariant: it needs no bound on any deadline ----

  predicate SlotsOk(s: State) {
    && s.secret.live in s.secret.disk && s.receipt.live in s.receipt.disk
    && (forall p :: p in s.secret.disk && p.Some? ==> p.value.synced)
    && (forall p :: p in s.receipt.disk && p.Some? ==> p.value.synced)
  }

  predicate LiveIs(s: State, entry: Secret) {
    s.secret.live.Some? && s.secret.live.value.value == entry
  }

  predicate NoTerminal(s: State) {
    forall p :: p in s.secret.disk && p.Some? ==> p.value.value.Prepared?
  }

  predicate TempOk(t: Temp) {
    t.closed ==> t.synced
  }

  predicate WantOk(entry: Secret, want: Receipt) {
    && About(want, entry.env)
    && (entry.Ended? ==> entry.outcome == want.outcome && entry.launch == want.launch)
  }

  predicate WorkOk(c: Config, s: State, w: Work) {
    match w
    case StoreEnvelope(_, _, _) => true
    case StoreReceipt(entry, want) => LiveIs(s, entry) && WantOk(entry, want) && NoTerminal(s)
    case StoreTerminal(entry, ended, want, recovering) =>
      && ended.Ended? && ended.env == entry.env
      && About(want, ended.env) && ended.outcome == want.outcome && ended.launch == want.launch
      && s.receipt.live.Some? && Firm(s.receipt, s.receipt.live.value.value)
      && Matches(c, ended, s.receipt.live.value.value)
  }

  predicate PhaseOk(c: Config, s: State) {
    match s.phase
    case Idle => true
    case Publishing(w, t) =>
      && WorkOk(c, s, w) && TempOk(t)
      && (w.StoreEnvelope? ==> s.secret.live.None?)
      && (w.StoreReceipt? ==> s.receipt.live.None?)
      && (w.StoreTerminal? ==> LiveIs(s, w.entry))
    case Published(w) =>
      && WorkOk(c, s, w)
      && (w.StoreEnvelope? ==> s.secret.live == Some(File(Prepared(w.env), true)))
      && (w.StoreReceipt? ==> s.receipt.live == Some(File(w.want, true)))
      && (w.StoreTerminal? ==> s.secret.live == Some(File(w.ended, true)))
    case Stored(env, _, _) => s.secret.live == Some(File(Prepared(env), true)) && s.secret.disk == {s.secret.live}
    case Confirming(entry) => LiveIs(s, entry)
    case Resyncing(entry, want, _, recovering) =>
      && LiveIs(s, entry) && WantOk(entry, want) && (!recovering ==> entry.Ended?)
      && s.receipt.live.Some? && SameReceiptOutcome(s.receipt.live.value.value, want)
    case Committed(entry, want, raw, recovering) =>
      && LiveIs(s, entry) && WantOk(entry, want) && (!recovering ==> entry.Ended?)
      && Firm(s.receipt, raw) && SameReceiptOutcome(raw, want)
    case Recovered(want) =>
      && s.secret.disk == {s.secret.live}
      && s.secret.live.Some? && s.secret.live.value.synced && s.secret.live.value.value.Ended?
      && About(want, s.secret.live.value.value.env)
      && s.secret.live.value.value.outcome == want.outcome && s.secret.live.value.value.launch == want.launch
    case EntrySyncing(entry, _) => LiveIs(s, entry) && entry.Ended?
    case Eligible(entry) =>
      LiveIs(s, entry) && entry.Ended? && RetentionElapsed(entry.retention, s.now, s.boot)
    case SecretUnlinked(_) => true
    case SecretGone => s.secret.live.None? && s.secret.disk == {s.secret.live}
    case ReceiptUnlinked(_) => s.secret.live.None? && s.secret.disk == {s.secret.live}
  }

  predicate Evidence(c: Config, s: State) {
    SlotsOk(s) && TerminalHasReceipt(c, s) && PhaseOk(c, s)
  }

  // ---- The claims invariant: who may still register ----

  /** An ended record written in this boot is anchored no earlier than the caller's start. */
  predicate AnchoredAfter(e: Secret, start: nat, boot: nat) {
    e.Ended? && e.retention.boot == boot ==> e.retention.anchor >= start
  }

  predicate PermitOk(c: Config, s: State, p: Permit) {
    && p.deadline <= p.start + c.budget && p.start <= s.now
    && (Active(p, s.now) ==>
          && s.sent == []
          && Holds(s.secret, p.env)
          && (forall q :: q in s.secret.disk && q.Some? ==> AnchoredAfter(q.value.value, p.start, s.boot))
          && (s.phase.Publishing? && s.phase.work.StoreTerminal? ==> AnchoredAfter(s.phase.work.ended, p.start, s.boot)))
  }

  predicate ClaimsOk(c: Config, s: State) {
    && |s.sent| <= 1
    && SentIsStored(s)
    && (forall i :: 0 <= i < |s.permits| ==> PermitOk(c, s, s.permits[i]))
    && (forall i, j :: 0 <= i < j < |s.permits| ==> !(Active(s.permits[i], s.now) && Active(s.permits[j], s.now)))
  }

  /** Nobody has a claim on the attempt. */
  predicate Unclaimed(s: State) {
    s.sent == [] && forall i :: 0 <= i < |s.permits| ==> !Active(s.permits[i], s.now)
  }

  predicate StartOk(c: Config, s: State, start: nat, deadline: nat) {
    Unclaimed(s) && start <= s.now && deadline <= start + c.budget
  }

  /** While an envelope is stored or an entry is gone, nobody else has a claim. */
  predicate ClaimantOk(c: Config, s: State) {
    match s.phase
    case Publishing(w, _) => w.StoreEnvelope? ==> StartOk(c, s, w.start, w.deadline)
    case Published(w) => w.StoreEnvelope? ==> StartOk(c, s, w.start, w.deadline)
    case Stored(_, start, deadline) => StartOk(c, s, start, deadline)
    case SecretUnlinked(reported) => reported ==> Unclaimed(s)
    case SecretGone => Unclaimed(s)
    case ReceiptUnlinked(_) => Unclaimed(s)
    case _ => true
  }

  predicate Claims(c: Config, s: State) {
    ClaimsOk(c, s) && ClaimantOk(c, s)
  }

  lemma InitialInv(c: Config)
    ensures Evidence(c, Initial()) && Claims(c, Initial())
  {
  }

  // ---- Every step keeps the evidence ----

  lemma TimeEvidence(c: Config, s: State, e: Event)
    requires Evidence(c, s) && (e.Tick? || e.Drop? || e.Send?)
    ensures Evidence(c, Step(c, s, e))
  {
  }

  lemma YieldEvidence(c: Config, s: State, e: Event)
    requires Evidence(c, s) && (e.Abort? || e.Return? || e.Grant?)
    ensures Evidence(c, Step(c, s, e))
  {
  }

  lemma WriteBackSecretEvidence(c: Config, s: State)
    requires Evidence(c, s)
    ensures Evidence(c, s.(secret := Flush(s.secret)))
  {
    assert Flush(s.secret).disk <= s.secret.disk;
  }

  lemma WriteBackReceiptEvidence(c: Config, s: State)
    requires Evidence(c, s)
    ensures Evidence(c, s.(receipt := Flush(s.receipt)))
  {
  }

  lemma WriteBackEvidence(c: Config, s: State, e: Event)
    requires Evidence(c, s) && e.WriteBack?
    ensures Evidence(c, Step(c, s, e))
  {
    hide Evidence;
    WriteBackSecretEvidence(c, s);
    WriteBackReceiptEvidence(c, s);
  }

  lemma TempEvidence(c: Config, s: State, e: Event)
    requires Evidence(c, s) && (e.Close? || e.Write? || e.SyncFile?)
    ensures Evidence(c, Step(c, s, e))
  {
  }

  lemma CrashEvidence(c: Config, s: State, e: Event)
    requires Evidence(c, s) && e.Crash?
    ensures Evidence(c, Step(c, s, e))
  {
  }

  lemma BeginEvidence(c: Config, s: State, e: Event)
    requires Evidence(c, s) && (e.BeginPrepare? || e.BeginRecover? || e.BeginPrune?)
    ensures Evidence(c, Step(c, s, e))
  {
  }

  lemma ConfirmEvidence(c: Config, s: State, e: Event)
    requires Evidence(c, s) && e.Confirm?
    ensures Evidence(c, Step(c, s, e))
  {
  }

  lemma RenameEnvelopeEvidence(c: Config, s: State, e: Event)
    requires Evidence(c, s) && e.Rename? && s.phase.Publishing? && s.phase.work.StoreEnvelope?
    ensures Evidence(c, Step(c, s, e))
  {
  }

  lemma RenameReceiptEvidence(c: Config, s: State, e: Event)
    requires Evidence(c, s) && e.Rename? && s.phase.Publishing? && s.phase.work.StoreReceipt?
    ensures Evidence(c, Step(c, s, e))
  {
  }

  lemma RenameTerminalEvidence(c: Config, s: State, e: Event)
    requires Evidence(c, s) && e.Rename? && s.phase.Publishing? && s.phase.work.StoreTerminal?
    ensures Evidence(c, Step(c, s, e))
  {
  }

  lemma RenameEvidence(c: Config, s: State, e: Event)
    requires Evidence(c, s) && e.Rename?
    ensures Evidence(c, Step(c, s, e))
  {
    hide Evidence, Claims;
    if !s.phase.Publishing? {
      assert Step(c, s, e) == s;
    } else {
      hide Step;
      match s.phase.work
      case StoreEnvelope(_, _, _) => RenameEnvelopeEvidence(c, s, e);
      case StoreReceipt(_, _) => RenameReceiptEvidence(c, s, e);
      case StoreTerminal(_, _, _, _) => RenameTerminalEvidence(c, s, e);
    }
  }

  lemma SyncPublishedEvidence(c: Config, s: State, e: Event)
    requires Evidence(c, s) && e.SyncDirectory? && s.phase.Published?
    ensures Evidence(c, Step(c, s, e))
  {
  }

  lemma ResyncReceiptEvidence(c: Config, s: State, e: Event)
    requires Evidence(c, s) && e.SyncDirectory? && s.phase.Resyncing?
    ensures Evidence(c, Step(c, s, e))
  {
  }

  lemma ResyncEntryEvidence(c: Config, s: State, e: Event)
    requires Evidence(c, s) && e.SyncDirectory? && s.phase.EntrySyncing?
    ensures Evidence(c, Step(c, s, e))
  {
  }

  lemma SyncRemovalEvidence(c: Config, s: State, e: Event)
    requires Evidence(c, s) && e.SyncDirectory? && !s.phase.Published? && !s.phase.Resyncing? && !s.phase.EntrySyncing?
    ensures Evidence(c, Step(c, s, e))
  {
  }

  lemma ReadClockEvidence(c: Config, s: State, e: Event)
    requires Evidence(c, s) && e.ReadClock?
    ensures Evidence(c, Step(c, s, e))
  {
  }

  lemma UnlinkEvidence(c: Config, s: State, e: Event)
    requires Evidence(c, s) && e.Unlink?
    ensures Evidence(c, Step(c, s, e))
  {
  }

  lemma StepEvidence(c: Config, s: State, e: Event)
    requires Evidence(c, s)
    ensures Evidence(c, Step(c, s, e))
  {
    hide Step, Evidence;
    match e
    case Tick(_) => TimeEvidence(c, s, e);
    case Drop(_) => TimeEvidence(c, s, e);
    case Send(_) => TimeEvidence(c, s, e);
    case Crash(_, _, _, _, _) => CrashEvidence(c, s, e);
    case Abort => YieldEvidence(c, s, e);
    case Return => YieldEvidence(c, s, e);
    case Grant => YieldEvidence(c, s, e);
    case WriteBack(_) => WriteBackEvidence(c, s, e);
    case Write => TempEvidence(c, s, e);
    case SyncFile => TempEvidence(c, s, e);
    case Close => TempEvidence(c, s, e);
    case BeginPrepare(_, _) => BeginEvidence(c, s, e);
    case BeginRecover => BeginEvidence(c, s, e);
    case BeginPrune => BeginEvidence(c, s, e);
    case Confirm(_, _, _) => ConfirmEvidence(c, s, e);
    case Rename(_, _) => RenameEvidence(c, s, e);
    case SyncDirectory(_) =>
      if s.phase.Published? {
        SyncPublishedEvidence(c, s, e);
      } else if s.phase.Resyncing? {
        ResyncReceiptEvidence(c, s, e);
      } else if s.phase.EntrySyncing? {
        ResyncEntryEvidence(c, s, e);
      } else {
        SyncRemovalEvidence(c, s, e);
      }
    case ReadClock => ReadClockEvidence(c, s, e);
    case Unlink(_, _) => UnlinkEvidence(c, s, e);
  }

  lemma {:induction false} RunEvidence(c: Config, s: State, es: seq<Event>)
    requires Evidence(c, s)
    ensures Evidence(c, Exec(c, s, es))
    decreases |es|
  {
    if es != [] {
      StepEvidence(c, s, es[0]);
      RunEvidence(c, Step(c, s, es[0]), es[1..]);
    }
  }

  // ---- Every step keeps the claims ----

  lemma TickClaims(c: Config, s: State, e: Event)
    requires Evidence(c, s) && Claims(c, s) && e.Tick?
    ensures Claims(c, Step(c, s, e))
  {
  }

  lemma DropClaims(c: Config, s: State, e: Event)
    requires Evidence(c, s) && Claims(c, s) && e.Drop?
    ensures Claims(c, Step(c, s, e))
  {
  }

  /** Sending uses up the one live permit, whose envelope is durable. */
  lemma SendClaims(c: Config, s: State, e: Event)
    requires Evidence(c, s) && Claims(c, s) && e.Send?
    ensures Claims(c, Step(c, s, e))
  {
    if e.index < |s.permits| {
      assert PermitOk(c, s, s.permits[e.index]);
    }
  }

  lemma YieldClaims(c: Config, s: State, e: Event)
    requires Evidence(c, s) && Claims(c, s) && (e.Abort? || e.Return? || e.Grant?)
    ensures Claims(c, Step(c, s, e))
  {
  }

  lemma WriteBackClaims(c: Config, s: State, e: Event)
    requires Evidence(c, s) && Claims(c, s) && e.WriteBack?
    ensures Claims(c, Step(c, s, e))
  {
  }

  lemma TempClaims(c: Config, s: State, e: Event)
    requires Evidence(c, s) && Claims(c, s) && (e.Close? || e.Write? || e.SyncFile?)
    ensures Claims(c, Step(c, s, e))
  {
  }

  lemma CrashClaims(c: Config, s: State, e: Event)
    requires Evidence(c, s) && Claims(c, s) && e.Crash?
    ensures Claims(c, Step(c, s, e))
  {
  }

  /** An absent entry means that nobody has a claim on the attempt. */
  lemma AbsentIsUnclaimed(c: Config, s: State)
    requires Evidence(c, s) && Claims(c, s) && s.secret.live.None?
    ensures Unclaimed(s)
  {
    assert s.sent != [] ==> Holds(s.secret, s.sent[0]);
  }

  lemma BeginClaims(c: Config, s: State, e: Event)
    requires Evidence(c, s) && Claims(c, s) && (e.BeginPrepare? || e.BeginRecover? || e.BeginPrune?)
    ensures Claims(c, Step(c, s, e))
  {
    if s.secret.live.None? {
      AbsentIsUnclaimed(c, s);
    }
  }

  lemma ConfirmClaims(c: Config, s: State, e: Event)
    requires Evidence(c, s) && Claims(c, s) && e.Confirm?
    ensures Claims(c, Step(c, s, e))
  {
  }

  lemma RenameEnvelopeClaims(c: Config, s: State, e: Event)
    requires Evidence(c, s) && Claims(c, s) && e.Rename? && s.phase.Publishing? && s.phase.work.StoreEnvelope?
    ensures Claims(c, Step(c, s, e))
  {
  }

  lemma RenameReceiptClaims(c: Config, s: State, e: Event)
    requires Evidence(c, s) && Claims(c, s) && e.Rename? && s.phase.Publishing? && s.phase.work.StoreReceipt?
    ensures Claims(c, Step(c, s, e))
  {
  }

  lemma RenameTerminalClaims(c: Config, s: State, e: Event)
    requires Evidence(c, s) && Claims(c, s) && e.Rename? && s.phase.Publishing? && s.phase.work.StoreTerminal?
    ensures Claims(c, Step(c, s, e))
  {
  }

  lemma RenameClaims(c: Config, s: State, e: Event)
    requires Evidence(c, s) && Claims(c, s) && e.Rename?
    ensures Claims(c, Step(c, s, e))
  {
    hide Evidence, Claims;
    if !s.phase.Publishing? {
      assert Step(c, s, e) == s;
    } else {
      hide Step;
      match s.phase.work
      case StoreEnvelope(_, _, _) => RenameEnvelopeClaims(c, s, e);
      case StoreReceipt(_, _) => RenameReceiptClaims(c, s, e);
      case StoreTerminal(_, _, _, _) => RenameTerminalClaims(c, s, e);
    }
  }

  lemma SyncPublishedClaims(c: Config, s: State, e: Event)
    requires Evidence(c, s) && Claims(c, s) && e.SyncDirectory? && s.phase.Published?
    ensures Claims(c, Step(c, s, e))
  {
  }

  lemma ResyncClaims(c: Config, s: State, e: Event)
    requires Evidence(c, s) && Claims(c, s) && e.SyncDirectory? && (s.phase.Resyncing? || s.phase.EntrySyncing?)
    ensures Claims(c, Step(c, s, e))
  {
  }

  lemma SyncRemovalClaims(c: Config, s: State, e: Event)
    requires Evidence(c, s) && Claims(c, s) && e.SyncDirectory? && !s.phase.Published? && !s.phase.Resyncing? && !s.phase.EntrySyncing?
    ensures Claims(c, Step(c, s, e))
  {
  }

  /** The anchor a commit writes is no older than any caller still allowed to register. */
  lemma AnchorIsRecent(c: Config, s: State, entry: Secret, raw: Receipt)
    requires Evidence(c, s) && Claims(c, s) && LiveIs(s, entry)
    ensures var r := NextRetention(c, entry, raw, s.now, s.boot);
            r.Some? ==>
              && r.value.receiptHash == c.sha(raw)
              && forall i :: 0 <= i < |s.permits| && Active(s.permits[i], s.now) && r.value.boot == s.boot ==>
                   r.value.anchor >= s.permits[i].start
  {
    forall i | 0 <= i < |s.permits| && Active(s.permits[i], s.now)
      ensures AnchoredAfter(entry, s.permits[i].start, s.boot) && s.permits[i].start <= s.now
    {
      assert PermitOk(c, s, s.permits[i]);
    }
  }

  lemma ReadClockClaims(c: Config, s: State, e: Event)
    requires Evidence(c, s) && Claims(c, s) && e.ReadClock?
    ensures Claims(c, Step(c, s, e))
  {
    if s.phase.Committed? {
      AnchorIsRecent(c, s, s.phase.entry, s.phase.raw);
    }
  }

  /** Seven awake days after its anchor no caller that could still register is left. */
  lemma UnlinkClaims(c: Config, s: State, e: Event)
    requires Evidence(c, s) && Claims(c, s) && e.Unlink? && c.budget <= WEEK
    ensures Claims(c, Step(c, s, e))
  {
  }

  lemma StepClaims(c: Config, s: State, e: Event)
    requires Evidence(c, s) && Claims(c, s) && c.budget <= WEEK
    ensures Claims(c, Step(c, s, e))
  {
    hide Step, Evidence, Claims;
    match e
    case Tick(_) => TickClaims(c, s, e);
    case Drop(_) => DropClaims(c, s, e);
    case Send(_) => SendClaims(c, s, e);
    case Crash(_, _, _, _, _) => CrashClaims(c, s, e);
    case Abort => YieldClaims(c, s, e);
    case Return => YieldClaims(c, s, e);
    case Grant => YieldClaims(c, s, e);
    case WriteBack(_) => WriteBackClaims(c, s, e);
    case Write => TempClaims(c, s, e);
    case SyncFile => TempClaims(c, s, e);
    case Close => TempClaims(c, s, e);
    case BeginPrepare(_, _) => BeginClaims(c, s, e);
    case BeginRecover => BeginClaims(c, s, e);
    case BeginPrune => BeginClaims(c, s, e);
    case Confirm(_, _, _) => ConfirmClaims(c, s, e);
    case Rename(_, _) => RenameClaims(c, s, e);
    case SyncDirectory(_) =>
      if s.phase.Published? {
        SyncPublishedClaims(c, s, e);
      } else if s.phase.Resyncing? || s.phase.EntrySyncing? {
        ResyncClaims(c, s, e);
      } else {
        SyncRemovalClaims(c, s, e);
      }
    case ReadClock => ReadClockClaims(c, s, e);
    case Unlink(_, _) => UnlinkClaims(c, s, e);
  }

  lemma {:induction false} RunClaims(c: Config, s: State, es: seq<Event>)
    requires Evidence(c, s) && Claims(c, s) && c.budget <= WEEK
    ensures Claims(c, Exec(c, s, es))
    decreases |es|
  {
    if es != [] {
      StepEvidence(c, s, es[0]);
      StepClaims(c, s, es[0]);
      RunClaims(c, Step(c, s, es[0]), es[1..]);
    }
  }

  // ---- Main results ----

  /** In every run: a register request is sent only with its exact envelope durable, the envelope stays durable in
      every crash view until a prune takes the terminal entry out, and at most one request is sent in between. */
  lemma RegisterIsBacked(c: Config, es: seq<Event>)
    requires c.budget <= WEEK
    ensures SentIsStored(Exec(c, Initial(), es)) && |Exec(c, Initial(), es).sent| <= 1
  {
    InitialInv(c);
    RunClaims(c, Initial(), es);
  }

  /** In every run and every crash view, whatever stands at the attempt's names was synced before it got there. */
  lemma NoTornEntry(c: Config, es: seq<Event>)
    ensures var s := Exec(c, Initial(), es);
            && (forall p :: p in s.secret.disk && p.Some? ==> p.value.synced)
            && (forall p :: p in s.receipt.disk && p.Some? ==> p.value.synced)
  {
    InitialInv(c);
    RunEvidence(c, Initial(), es);
  }

  /** In every run and every crash view, a terminal entry has its durable matching receipt. */
  lemma TerminalIsBacked(c: Config, es: seq<Event>)
    ensures TerminalHasReceipt(c, Exec(c, Initial(), es))
  {
    InitialInv(c);
    RunEvidence(c, Initial(), es);
  }

  /** When recovery reports success, receipt and terminal record are both durable with the confirmed result. */
  lemma RecoveredIsDurable(c: Config, es: seq<Event>)
    requires Exec(c, Initial(), es).phase.Recovered?
    ensures var s := Exec(c, Initial(), es);
            var want := s.phase.want;
            && s.receipt.live.Some? && Firm(s.receipt, s.receipt.live.value.value)
            && s.secret.live.Some? && s.secret.disk == {s.secret.live}
            && Matches(c, s.secret.live.value.value, s.receipt.live.value.value)
            && About(want, s.secret.live.value.value.env)
            && s.secret.live.value.value.outcome == want.outcome && s.secret.live.value.value.launch == want.launch
  {
    InitialInv(c);
    RunEvidence(c, Initial(), es);
  }

  // ---- A recorded outcome is final ----

  predicate RemovesReceipt(s: State, e: Event) {
    s.phase.SecretGone? && e.Unlink?
  }

  predicate KeepsReceipt(c: Config, s: State, es: seq<Event>)
    decreases |es|
  {
    es == [] || (!RemovesReceipt(s, es[0]) && KeepsReceipt(c, Step(c, s, es[0]), es[1..]))
  }

  /** Only pruning, after the secret is durably gone, touches a durable receipt. */
  lemma FirmReceiptStays(c: Config, s: State, e: Event, r: Receipt)
    requires Evidence(c, s) && Firm(s.receipt, r) && !RemovesReceipt(s, e)
    ensures Firm(Step(c, s, e).receipt, r)
  {
  }

  lemma {:induction false} FirmReceiptStaysOverRuns(c: Config, s: State, es: seq<Event>, r: Receipt)
    requires Evidence(c, s) && Firm(s.receipt, r) && KeepsReceipt(c, s, es)
    ensures Firm(Exec(c, s, es).receipt, r)
    decreases |es|
  {
    if es != [] {
      StepEvidence(c, s, es[0]);
      FirmReceiptStays(c, s, es[0], r);
      FirmReceiptStaysOverRuns(c, Step(c, s, es[0]), es[1..], r);
    }
  }

  /** Whatever an attempt's terminal entry records in some crash view, every terminal entry of every later crash
      view records the same outcome and launch, until pruning removes the receipt. */
  lemma OutcomeIsFinal(c: Config, before: seq<Event>, after: seq<Event>, p: Option<File<Secret>>, q: Option<File<Secret>>)
    requires var s := Exec(c, Initial(), before);
             && p in s.secret.disk && p.Some? && p.value.value.Ended?
             && KeepsReceipt(c, s, after)
             && q in Exec(c, s, after).secret.disk && q.Some? && q.value.value.Ended?
    ensures q.value.value.outcome == p.value.value.outcome && q.value.value.launch == p.value.value.launch
  {
    var s := Exec(c, Initial(), before);
    InitialInv(c);
    RunEvidence(c, Initial(), before);
    RunEvidence(c, s, after);
    FirmReceiptStaysOverRuns(c, s, after, s.receipt.live.value.value);
  }
}
