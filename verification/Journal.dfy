/**
 The recovery journal of one gateway attempt (internal/recoveryjournal) as a state
 machine over single system calls.  A directory entry has a live view, which callers see,
 and the set of views a crash may leave behind; only a directory sync makes the two one.
 An event carries the result of the call it stands for, so every failure, uncertain
 effect, process death and crash is some sequence of events.  `Step` ignores an event
 the current phase does not perform; the namespace lock is the single phase.
 */
module Journal {
  import opened Bytes

  /** Seven awake days in nanoseconds. */
  const WEEK: nat := 604800000000000

  /** The recovery completion budget, thirty seconds in nanoseconds. */
  const COMPLETION_BUDGET: nat := 30000000000

  /** The frozen issuance request; the proof is its capability. */
  datatype Envelope = Envelope(proof: string, registry: string, session: string, runtime: string)

  datatype Outcome = Revoked | CancelledBeforeIssue

  /** `observed` stands for service boot, operation and time: whatever a later call may see differently. */
  datatype Receipt = Receipt(
    registry: string, session: string, runtime: string,
    launch: Option<string>, outcome: Outcome, observed: string)

  datatype Retention = Retention(receiptHash: string, boot: nat, anchor: nat)

  datatype Secret =
    | Prepared(env: Envelope)
    | Ended(env: Envelope, outcome: Outcome, launch: Option<string>, retention: Retention)

  /** A file reached by a directory entry; without a file sync its content may not survive a crash. */
  datatype File<T> = File(value: T, synced: bool)

  datatype Slot<!T(==)> = Slot(live: Option<File<T>>, disk: set<Option<File<T>>>)

  /** The exclusive temporary a record is written to before it is renamed into place. */
  datatype Temp = Temp(written: bool, synced: bool, closed: bool)

  datatype Work =
    | StoreEnvelope(env: Envelope, start: nat, deadline: nat)
    | StoreReceipt(entry: Secret, want: Receipt)
    | StoreTerminal(entry: Secret, ended: Secret, want: Receipt, recovering: bool)

  /** Where the holder of the namespace lock stands. */
  datatype Phase =
    | Idle
    | Publishing(work: Work, temp: Temp)
    | Published(work: Work)
    | Stored(env: Envelope, start: nat, deadline: nat)
    | Confirming(entry: Secret)
    | Resyncing(entry: Secret, want: Receipt, fileSynced: bool, recovering: bool)
    | Committed(entry: Secret, want: Receipt, raw: Receipt, recovering: bool)
    | Recovered(want: Receipt)
    | EntrySyncing(entry: Secret, fileSynced: bool)
    | Eligible(entry: Secret)
    | SecretUnlinked(reported: bool)
    | SecretGone
    | ReceiptUnlinked(reported: bool)

  /** A caller whose Prepare returned and who may still register before its deadline. */
  datatype Permit = Permit(env: Envelope, start: nat, deadline: nat)

  /** `sent` lists the register requests sent since the entry was last removed by pruning. */
  datatype State = State(
    secret: Slot<Secret>, receipt: Slot<Receipt>,
    phase: Phase, permits: seq<Permit>, sent: seq<Envelope>,
    now: nat, boot: nat)

  /** What the model leaves open: the receipt hash, and the longest deadline a caller of Issue may set. */
  datatype Config = Config(sha: Receipt -> string, budget: nat)

  datatype Event =
    | Tick(elapsed: nat)
    | Crash(secret: Option<File<Secret>>, receipt: Option<File<Receipt>>, tornSecret: Secret, tornReceipt: Receipt, uptime: nat)
    | WriteBack(secrets: bool)
    | Abort
    | Drop(index: nat)
    | Send(index: nat)
    | BeginPrepare(env: Envelope, deadline: nat)
    | BeginRecover
    | BeginPrune
    | Write
    | SyncFile
    | Close
    | Rename(effect: bool, reported: bool)
    | SyncDirectory(ok: bool)
    | Grant
    | Confirm(launch: Option<string>, outcome: Outcome, observed: string)
    | ReadClock
    | Unlink(effect: bool, reported: bool)
    | Return

  // ---- Directory entries ----

  function Put<T(==)>(s: Slot<T>, f: Option<File<T>>): Slot<T> {
    Slot(f, s.disk + {f})
  }

  function Flush<T(==)>(s: Slot<T>): Slot<T> {
    Slot(s.live, {s.live})
  }

  /** After a crash one of the possible views is there, and a file never synced holds anything. */
  function Survive<T(==)>(s: Slot<T>, choice: Option<File<T>>, torn: T): Slot<T> {
    var view := if choice in s.disk then choice else s.live;
    var f := if view.Some? && !view.value.synced then Some(File(torn, true)) else view;
    Slot(f, {f})
  }

  // ---- Records ----

  function NewReceipt(e: Envelope, launch: Option<string>, outcome: Outcome, observed: string): Receipt {
    Receipt(e.registry, e.session, e.runtime, launch, outcome, observed)
  }

  /** The receipt an ended entry must have, up to what was observed. */
  function ExpectedReceipt(entry: Secret): Receipt
    requires entry.Ended?
  {
    NewReceipt(entry.env, entry.launch, entry.outcome, "")
  }

  predicate SameReceiptOutcome(got: Receipt, want: Receipt) {
    got.(observed := want.observed) == want
  }

  /** The service's answer is one the journal accepts for this entry. */
  predicate Acceptable(entry: Secret, launch: Option<string>, outcome: Outcome) {
    && (outcome == Revoked ==> launch.Some? && launch.value != entry.env.proof)
    && (outcome == CancelledBeforeIssue ==> launch.None?)
    && (entry.Ended? ==> entry.outcome == outcome && entry.launch == launch)
  }

  /** A same-boot anchor is kept, another boot restarts it; a changed receipt or a clock gone back is refused. */
  function NextRetention(c: Config, entry: Secret, raw: Receipt, now: nat, boot: nat): Option<Retention> {
    var restarted := Retention(c.sha(raw), boot, now);
    if entry.Prepared? then Some(restarted)
    else if entry.retention.receiptHash != restarted.receiptHash then None
    else if entry.retention.boot != boot then Some(restarted)
    else if now < entry.retention.anchor then None
    else Some(entry.retention)
  }

  predicate RetentionElapsed(r: Retention, now: nat, boot: nat) {
    r.boot == boot && now >= r.anchor && now - r.anchor >= WEEK
  }

  // ---- Steps ----

  function Step(c: Config, s: State, e: Event): State {
    match e
    case Tick(d) => s.(now := s.now + d)
    case Crash(sc, rc, ts, tr, up) =>
      s.(secret := Survive(s.secret, sc, ts), receipt := Survive(s.receipt, rc, tr),
         phase := Idle, permits := [], now := up, boot := s.boot + 1)
    case WriteBack(secrets) =>
      if secrets then s.(secret := Flush(s.secret)) else s.(receipt := Flush(s.receipt))
    case Abort => s.(phase := Idle)
    case Drop(i) => if i < |s.permits| then s.(permits := Without(s.permits, i)) else s
    case Send(i) =>
      if i < |s.permits| && s.now < s.permits[i].deadline then
        s.(permits := Without(s.permits, i), sent := s.sent + [s.permits[i].env])
      else s
    case BeginPrepare(env, deadline) =>
      if s.phase.Idle? && s.secret.live.None? && deadline <= s.now + c.budget then
        s.(phase := Publishing(StoreEnvelope(env, s.now, deadline), Temp(false, false, false)))
      else s
    case BeginRecover =>
      if s.phase.Idle? && s.secret.live.Some? then s.(phase := Confirming(s.secret.live.value.value)) else s
    case BeginPrune =>
      if s.phase.Idle? && s.secret.live.Some? && s.secret.live.value.value.Ended? then
        s.(phase := EntrySyncing(s.secret.live.value.value, false))
      else s
    case Write => if s.phase.Publishing? then s.(phase := s.phase.(temp := s.phase.temp.(written := true))) else s
    case SyncFile => StepSyncFile(s)
    case Close =>
      if s.phase.Publishing? && s.phase.temp.synced then s.(phase := s.phase.(temp := s.phase.temp.(closed := true))) else s
    case Rename(effect, reported) => StepRename(s, effect, reported)
    case SyncDirectory(ok) => StepSyncDirectory(s, ok)
    case Grant =>
      if s.phase.Stored? then
        s.(permits := s.permits + [Permit(s.phase.env, s.phase.start, s.phase.deadline)], phase := Idle)
      else s
    case Confirm(launch, outcome, observed) => StepConfirm(s, launch, outcome, observed)
    case ReadClock => StepReadClock(c, s)
    case Unlink(effect, reported) => StepUnlink(s, effect, reported)
    case Return => if s.phase.Recovered? then s.(phase := Idle) else s
  }

  function Without(ps: seq<Permit>, i: nat): seq<Permit>
    requires i < |ps|
  {
    ps[..i] + ps[i + 1..]
  }

  function StepSyncFile(s: State): State {
    match s.phase
    case Publishing(_, t) => if t.written then s.(phase := s.phase.(temp := t.(synced := true))) else s
    case Resyncing(entry, want, _, recovering) => s.(phase := Resyncing(entry, want, true, recovering))
    case EntrySyncing(entry, _) => s.(phase := EntrySyncing(entry, true))
    case _ => s
  }

  /** An envelope or receipt never replaces an entry; a terminal record does. */
  function StepRename(s: State, effect: bool, reported: bool): State {
    if !s.phase.Publishing? || !s.phase.temp.closed then s
    else
      var t := s.phase.temp;
      var next := if reported then Published(s.phase.work) else Idle;
      match s.phase.work
      case StoreEnvelope(env, _, _) =>
        if s.secret.live.Some? then s.(phase := Idle)
        else if effect || reported then s.(secret := Put(s.secret, Some(File(Prepared(env), t.synced))), phase := next)
        else s.(phase := next)
      case StoreReceipt(_, want) =>
        if s.receipt.live.Some? then s.(phase := Idle)
        else if effect || reported then s.(receipt := Put(s.receipt, Some(File(want, t.synced))), phase := next)
        else s.(phase := next)
      case StoreTerminal(_, ended, _, _) =>
        if effect || reported then s.(secret := Put(s.secret, Some(File(ended, t.synced))), phase := next)
        else s.(phase := next)
  }

  function StepSyncDirectory(s: State, ok: bool): State {
    match s.phase
    case Published(work) =>
      if !ok then s.(phase := Idle)
      else
        (match work
         case StoreEnvelope(env, start, deadline) => s.(secret := Flush(s.secret), phase := Stored(env, start, deadline))
         case StoreReceipt(entry, want) => s.(receipt := Flush(s.receipt), phase := Committed(entry, want, want, true))
         case StoreTerminal(_, _, want, recovering) =>
           s.(secret := Flush(s.secret), phase := if recovering then Recovered(want) else Idle))
    case Resyncing(entry, want, fileSynced, recovering) =>
      if !fileSynced then s
      else if !ok || s.receipt.live.None? then s.(phase := Idle)
      else s.(receipt := Flush(s.receipt), phase := Committed(entry, want, s.receipt.live.value.value, recovering))
    case EntrySyncing(entry, fileSynced) =>
      if !fileSynced then s
      else if !ok then s.(phase := Idle)
      else BeginResync(s.(secret := Flush(s.secret)), entry, ExpectedOrSelf(entry), false)
    case SecretUnlinked(reported) =>
      if !ok then s.(phase := Idle)
      else
        s.(secret := Flush(s.secret), phase := if reported && s.secret.live.None? then SecretGone else Idle)
    case ReceiptUnlinked(_) => if ok then s.(receipt := Flush(s.receipt), phase := Idle) else s.(phase := Idle)
    case _ => s
  }

  function ExpectedOrSelf(entry: Secret): Receipt {
    if entry.Ended? then ExpectedReceipt(entry) else NewReceipt(entry.env, None, CancelledBeforeIssue, "")
  }

  /** An existing receipt is only re-synced, and only if it records the same outcome. */
  function BeginResync(s: State, entry: Secret, want: Receipt, recovering: bool): State {
    if s.receipt.live.Some? && SameReceiptOutcome(s.receipt.live.value.value, want) then
      s.(phase := Resyncing(entry, want, false, recovering))
    else s.(phase := Idle)
  }

  function StepConfirm(s: State, launch: Option<string>, outcome: Outcome, observed: string): State {
    if !s.phase.Confirming? then s
    else
      var entry := s.phase.entry;
      var want := NewReceipt(entry.env, launch, outcome, observed);
      if !Acceptable(entry, launch, outcome) then s.(phase := Idle)
      else if s.receipt.live.None? then s.(phase := Publishing(StoreReceipt(entry, want), Temp(false, false, false)))
      else BeginResync(s, entry, want, true)
  }

  /** The clock is read only after the receipt is durable. */
  function StepReadClock(c: Config, s: State): State {
    if !s.phase.Committed? then s
    else
      var Committed(entry, want, raw, recovering) := s.phase;
      match NextRetention(c, entry, raw, s.now, s.boot)
      case None => s.(phase := Idle)
      case Some(r) =>
        if recovering then
          s.(phase := Publishing(StoreTerminal(entry, Ended(entry.env, want.outcome, want.launch, r), want, true),
                                 Temp(false, false, false)))
        else if entry.Prepared? then s.(phase := Idle)
        else if r.boot != entry.retention.boot then
          s.(phase := Publishing(StoreTerminal(entry, Ended(entry.env, raw.outcome, raw.launch, r), raw, false),
                                 Temp(false, false, false)))
        else if RetentionElapsed(r, s.now, s.boot) then s.(phase := Eligible(entry))
        else s.(phase := Idle)
  }

  /** The secret is unlinked first; `sent` starts over with its removal, not with an attempt that removed nothing. */
  function StepUnlink(s: State, effect: bool, reported: bool): State {
    match s.phase
    case Eligible(_) =>
      s.(secret := if effect || reported then Put(s.secret, None) else s.secret,
         phase := SecretUnlinked(reported), sent := if effect || reported then [] else s.sent)
    case SecretGone =>
      s.(receipt := if effect || reported then Put(s.receipt, None) else s.receipt,
         phase := ReceiptUnlinked(reported))
    case _ => s
  }

  function Initial(): State {
    State(Slot(None, {None}), Slot(None, {None}), Idle, [], [], 0, 0)
  }

  function Exec(c: Config, s: State, es: seq<Event>): State
    decreases |es|
  {
    if es == [] then s else Exec(c, Step(c, s, es[0]), es[1..])
  }

  lemma {:induction false} ExecSnoc(c: Config, s: State, es: seq<Event>, e: Event)
    ensures Exec(c, s, es + [e]) == Step(c, Exec(c, s, es), e)
    decreases |es|
  {
    hide Step;
    if es == [] {
      assert [] + [e] == [e] && [e][1..] == [];
      assert Exec(c, Step(c, s, e), []) == Step(c, s, e);
    } else {
      assert (es + [e])[1..] == es[1..] + [e];
      ExecSnoc(c, Step(c, s, es[0]), es[1..], e);
    }
  }

  lemma {:induction false} ExecConcat(c: Config, s: State, a: seq<Event>, b: seq<Event>)
    ensures Exec(c, s, a + b) == Exec(c, Exec(c, s, a), b)
    decreases |a|
  {
    hide Step;
    if a == [] {
      assert a + b == b;
    } else {
      assert (a + b)[1..] == a[1..] + b;
      ExecConcat(c, Step(c, s, a[0]), a[1..], b);
    }
  }

  // ---- What a run undertakes, and the requests it sends ----

  /** The events by which a caller starts something; the lock makes them one caller's. */
  predicate Undertakes(e: Event) {
    e.BeginPrepare? || e.BeginRecover? || e.BeginPrune? || e.Unlink?
  }

  function Undertaken(es: seq<Event>): seq<Event> {
    if es == [] then []
    else Undertaken(es[..|es| - 1]) + (if Undertakes(es[|es| - 1]) then [es[|es| - 1]] else [])
  }

  lemma UndertakenSnoc(es: seq<Event>, e: Event)
    ensures Undertaken(es + [e]) == Undertaken(es) + (if Undertakes(e) then [e] else [])
  {
    assert (es + [e])[..|es|] == es;
  }

  lemma {:induction false} UndertakenConcat(a: seq<Event>, b: seq<Event>)
    ensures Undertaken(a + b) == Undertaken(a) + Undertaken(b)
    decreases |b|
  {
    if b == [] {
      assert a + b == a;
    } else {
      var init, last := b[..|b| - 1], b[|b| - 1];
      assert a + b == (a + init) + [last];
      UndertakenSnoc(a + init, last);
      UndertakenConcat(a, init);
      Reassociate(Undertaken(a), Undertaken(init), if Undertakes(last) then [last] else []);
    }
  }

  lemma {:induction false} NoUnlinkUndertaken(es: seq<Event>)
    requires !Unlinks(Undertaken(es))
    ensures !Unlinks(es)
    decreases |es|
  {
    if es != [] {
      var init, last := es[..|es| - 1], es[|es| - 1];
      assert es == init + [last];
      assert forall e :: e in Undertaken(init) ==> e in Undertaken(es);
      assert Undertakes(last) ==> last in Undertaken(es);
      NoUnlinkUndertaken(init);
    }
  }

  /** The register requests that left during a run. */
  function Requests(c: Config, s: State, es: seq<Event>): nat
    decreases |es|
  {
    if es == [] then 0
    else
      (if es[0].Send? && es[0].index < |s.permits| && s.now < s.permits[es[0].index].deadline then 1 else 0)
      + Requests(c, Step(c, s, es[0]), es[1..])
  }

  predicate Unlinks(es: seq<Event>) {
    exists e :: e in es && e.Unlink?
  }

  /** Without an unlink every request that left is still in `sent`. */
  lemma {:induction false} RequestsAreSent(c: Config, s: State, es: seq<Event>)
    requires !Unlinks(es)
    ensures |Exec(c, s, es).sent| == |s.sent| + Requests(c, s, es)
    decreases |es|
  {
    if es != [] {
      assert es[0] in es && forall e :: e in es[1..] ==> e in es;
      SentBy(c, s, es[0]);
      RequestsAreSent(c, Step(c, s, es[0]), es[1..]);
    }
  }

  lemma SentBy(c: Config, s: State, e: Event)
    requires !e.Unlink?
    ensures |Step(c, s, e).sent| ==
            |s.sent| + (if e.Send? && e.index < |s.permits| && s.now < s.permits[e.index].deadline then 1 else 0)
  {
  }
}
