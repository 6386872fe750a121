/**
 Signals held around a gateway launch (cmd/curator-run/lease_owner.go and runNative in
 main.go): an eight-slot queue, the watcher that takes a signal and puts it back, and the
 boundary checks before the child starts, in every interleaving.
 */
module LeaseOwner {
  import opened Bytes

  const SLOTS: nat := 8

  datatype Signal = Interrupt | Terminate

  /** A watcher holding a signal has cancelled its context and is about to put the signal back. */
  datatype Watcher = Waiting | Holding(sig: Signal) | Exited

  /** Sections that run under a watcher. */
  datatype Section = Prepare | Recheck | Resolve

  /** The launching thread: a section, its stop function, the check that follows it, the child. */
  datatype Main =
    | Working(section: Section)
    | Joining(section: Section, failed: bool)
    | AtCheck(section: Section)
    | Ready
    | Child
    | Refused

  /** Which optional sections this launch has. */
  datatype Launch = Launch(rechecks: bool, resolves: bool)

  /** `arrived` counts signals delivered to the process; `checked` is that count at the last check. */
  datatype State = State(
    queue: seq<Signal>, watcher: Watcher, done: bool, main: Main,
    arrived: nat, checked: Option<nat>)

  /** `late` says that a waiting watcher with both a signal and a closed done channel picks the latter. */
  datatype Event = Arrive(sig: Signal) | Watch(late: bool) | Proceed(fails: bool)

  function Start(): State {
    State([], Waiting, false, Working(Prepare), 0, None)
  }

  /** A send that never blocks. */
  function Offer(queue: seq<Signal>, sig: Signal): seq<Signal> {
    if |queue| < SLOTS then queue + [sig] else queue
  }

  function Step(l: Launch, s: State, e: Event): State {
    match e
    case Arrive(sig) => s.(queue := Offer(s.queue, sig), arrived := s.arrived + 1)
    case Watch(late) => s.(queue := Watched(s, late).0, watcher := Watched(s, late).1)
    case Proceed(fails) => Proceeded(l, s, fails)
  }

  function Watched(s: State, late: bool): (seq<Signal>, Watcher) {
    match s.watcher
    case Waiting =>
      if s.queue != [] && !(late && s.done) then (s.queue[1..], Holding(s.queue[0]))
      else if s.done then (s.queue, Exited)
      else (s.queue, Waiting)
    case Holding(sig) => (Offer(s.queue, sig), Exited)
    case Exited => (s.queue, Exited)
  }

  function Under(s: State, section: Section): State {
    s.(main := Working(section), watcher := Waiting, done := false)
  }

  function Proceeded(l: Launch, s: State, fails: bool): State {
    match s.main
    case Working(section) => s.(main := Joining(section, fails), done := true)
    case Joining(section, failed) =>
      if !s.watcher.Exited? then s else if failed then s.(main := Refused) else s.(main := AtCheck(section))
    case AtCheck(section) => Checked(l, s, section, fails)
    case Ready => if fails then s.(main := Refused) else s.(main := Child)
    case Child => s
    case Refused => s
  }

  /** Receiving without blocking: any held signal refuses the launch. */
  function Checked(l: Launch, s: State, section: Section, fails: bool): State {
    if section == Prepare && fails then s.(main := Refused)
    else if s.queue != [] then s.(queue := s.queue[1..], main := Refused, checked := Some(s.arrived))
    else
      var t := s.(checked := Some(s.arrived));
      if section == Prepare && l.rechecks then Under(t, Recheck)
      else if section != Resolve && l.resolves then Under(t, Resolve)
      else t.(main := Ready)
  }

  function Exec(l: Launch, es: seq<Event>): State
    decreases |es|
  {
    if es == [] then Start() else Step(l, Exec(l, es[..|es| - 1]), es[|es| - 1])
  }

  /** A signal that arrived is in the queue or in the watcher's hand, until the launch is refused. */
  predicate Held(s: State) {
    s.arrived > 0 ==> s.queue != [] || s.watcher.Holding? || s.main.Refused?
  }

  predicate Inv(s: State) {
    && Held(s)
    && (s.arrived == 0 ==> s.queue == [] && !s.watcher.Holding?)
    && |s.queue| <= SLOTS
    && (s.main.AtCheck? || s.main.Ready? || s.main.Child? ==> s.watcher.Exited?)
    && (s.main.Ready? || s.main.Child? ==> s.checked == Some(0))
    && (s.checked.Some? && !s.main.Refused? ==> s.checked == Some(0))
    && (s.main.Joining? ==> s.done)
  }

  lemma StepKeeps(l: Launch, s: State, e: Event)
    requires Inv(s)
    ensures Inv(Step(l, s, e))
  {
  }

  lemma {:induction false} Always(l: Launch, es: seq<Event>)
    ensures Inv(Exec(l, es))
    decreases |es|
  {
    if es != [] {
      Always(l, es[..|es| - 1]);
      StepKeeps(l, Exec(l, es[..|es| - 1]), es[|es| - 1]);
    }
  }

  /** No child starts after a signal that arrived before the last check, and one that arrived since is still queued. */
  lemma NoSignalLost(l: Launch, es: seq<Event>)
    ensures var s := Exec(l, es);
            s.main.Child? ==> s.checked == Some(0) && (s.arrived > 0 ==> s.queue != [])
  {
    Always(l, es);
  }

  /** A check refuses exactly when a signal has arrived. */
  lemma CheckExactly(l: Launch, es: seq<Event>)
    requires Exec(l, es).main.AtCheck?
    ensures var s := Exec(l, es);
            var t := Step(l, s, Proceed(false)); t.main.Refused? <==> s.arrived > 0
  {
    Always(l, es);
  }

  /** Stopping a watch never hangs: two steps of the watcher end it, whatever arrives between them. */
  lemma WatchEnds(l: Launch, es: seq<Event>, late: bool, sig: Signal, late2: bool)
    requires Exec(l, es).main.Joining?
    ensures Step(l, Step(l, Step(l, Exec(l, es), Watch(late)), Arrive(sig)), Watch(late2)).watcher.Exited?
  {
    Always(l, es);
  }

  /** A watcher may hold the only signal while the queue is empty, so a check must wait for it. */
  lemma WatcherMayHoldIt(l: Launch, sig: Signal)
    ensures var s := Exec(l, [Arrive(sig), Watch(false)]);
            s.arrived == 1 && s.queue == [] && s.watcher == Holding(sig) && !s.main.AtCheck?
  {
    var es := [Arrive(sig), Watch(false)];
    assert es[..1] == [Arrive(sig)] && es[..1][..0] == [];
    assert Exec(l, es[..1]) == Step(l, Start(), Arrive(sig));
  }
}
