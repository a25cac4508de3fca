/** Finite waits: which timeout bounds each phase, and the deadline that fires once per entry into it. */
module TransferControl {
  import opened Common

  datatype Phase =
    | Created | Preflight | Accepted | SendingManifest | Transferring | Receiving | AwaitingAck
    | Paused | WaitingReconnect | Verifying | Finalizing | Cancelled
    | Completed | Failed | Purged

  datatype TimeoutName = PreflightTimeout | ManifestAck | WindowAck | NoProgress | ReconnectWait | FinalCompleteAck

  datatype Timeouts = Timeouts(preflight: real, manifestAck: real, windowAck: real, noProgress: real,
                               reconnectWait: real, finalCompleteAck: real)

  predicate ValidTimeouts(t: Timeouts) {
    && 0.0 < t.preflight && 0.0 < t.manifestAck && 0.0 < t.windowAck && 0.0 < t.noProgress
    && 0.0 < t.reconnectWait && 0.0 < t.finalCompleteAck
  }

  /** The timeout that bounds the wait in a phase. Three phases wait for nothing. */
  function NameFor(phase: Phase): Option<TimeoutName> {
    match phase
    case Created => Some(PreflightTimeout)
    case Preflight => Some(PreflightTimeout)
    case Accepted => Some(PreflightTimeout)
    case SendingManifest => Some(ManifestAck)
    case Transferring => Some(NoProgress)
    case Receiving => Some(NoProgress)
    case AwaitingAck => Some(WindowAck)
    case Paused => Some(ReconnectWait)
    case WaitingReconnect => Some(ReconnectWait)
    case Verifying => Some(FinalCompleteAck)
    case Finalizing => Some(FinalCompleteAck)
    case Cancelled => Some(FinalCompleteAck)
    case Completed => None
    case Failed => None
    case Purged => None
  }

  function Seconds(t: Timeouts, name: TimeoutName): real {
    match name
    case PreflightTimeout => t.preflight
    case ManifestAck => t.manifestAck
    case WindowAck => t.windowAck
    case NoProgress => t.noProgress
    case ReconnectWait => t.reconnectWait
    case FinalCompleteAck => t.finalCompleteAck
  }

  predicate Bounded(phase: Phase) {
    NameFor(phase).Some?
  }

  datatype Tracker = Tracker(phase: Phase, deadline: Option<real>, fired: Option<TimeoutName>)

  datatype Call = Enter(phase: Phase, now: real) | Progress(now: real) | Check(now: real)

  function DeadlineAt(t: Timeouts, phase: Phase, now: real): Option<real> {
    if NameFor(phase).None? then None else Some(now + Seconds(t, NameFor(phase).value))
  }

  function Entered(t: Timeouts, phase: Phase, now: real): Tracker {
    Tracker(phase, DeadlineAt(t, phase, now), None)
  }

  /** Activity moves the deadline but leaves a timeout that already fired recorded. */
  function Progressed(t: Timeouts, k: Tracker, now: real): Tracker {
    k.(deadline := DeadlineAt(t, k.phase, now))
  }

  function Checked(k: Tracker, now: real): (Tracker, Option<TimeoutName>) {
    if k.deadline.None? || k.fired.Some? || now < k.deadline.value || NameFor(k.phase).None? then (k, None)
    else (k.(fired := NameFor(k.phase)), NameFor(k.phase))
  }

  function Step(t: Timeouts, k: Tracker, c: Call): (Tracker, Option<TimeoutName>) {
    match c
    case Enter(phase, now) => (Entered(t, phase, now), None)
    case Progress(now) => (Progressed(t, k, now), None)
    case Check(now) => Checked(k, now)
  }

  /** A deadline exists exactly in the phases that wait. */
  ghost predicate Sane(k: Tracker) {
    (k.deadline.Some? <==> Bounded(k.phase)) && (k.fired.Some? ==> k.fired == NameFor(k.phase))
  }

  lemma StepKeepsSane(t: Timeouts, k: Tracker, c: Call)
    requires Sane(k)
    ensures Sane(Step(t, k, c).0)
  {
  }

  /** How many timeouts the calls report. */
  function Firings(t: Timeouts, k: Tracker, calls: seq<Call>): nat
    decreases |calls|
  {
    if calls == [] then 0
    else
      var (k', r) := Step(t, k, calls[0]);
      (if r.Some? then 1 else 0) + Firings(t, k', calls[1..])
  }

  function Entries(calls: seq<Call>): nat {
    if calls == [] then 0 else (if calls[0].Enter? then 1 else 0) + Entries(calls[1..])
  }

  /** Whatever is called in whatever order, a wait times out at most once until the tracker enters a
      phase again; recording progress does not let it time out a second time. */
  lemma {:induction false} AtMostOneFiringPerEntry(t: Timeouts, k: Tracker, calls: seq<Call>)
    ensures Firings(t, k, calls) <= Entries(calls) + (if k.fired.None? then 1 else 0)
    decreases |calls|
  {
    if calls != [] {
      AtMostOneFiringPerEntry(t, Step(t, k, calls[0]).0, calls[1..]);
    }
  }

  /** Progress after a firing does not arm a new deadline: the next timeout is never reported,
      however late it is checked, although the deadline itself has moved. */
  lemma ProgressDoesNotRearm(t: Timeouts, k: Tracker, active: real, later: real)
    requires k.fired.Some?
    ensures Checked(Progressed(t, k, active), later).1.None?
  {
  }

  lemma FiresWhenDue(t: Timeouts, k: Tracker, now: real)
    requires Sane(k)
    ensures Checked(k, now).1 == if k.fired.None? && Bounded(k.phase) && now >= k.deadline.value then NameFor(k.phase) else None
  {
  }

  /** The tracker after a run of calls. */
  function Run(t: Timeouts, k: Tracker, calls: seq<Call>): Tracker
    decreases |calls|
  {
    if calls == [] then k else Run(t, Step(t, k, calls[0]).0, calls[1..])
  }

  /** When activity was last seen in a wait that began at `start`. */
  function LastActive(start: real, calls: seq<Call>): real
    decreases |calls|
  {
    if calls == [] then start
    else LastActive(match calls[0] case Enter(_, now) => now case Progress(now) => now case Check(_) => start, calls[1..])
  }

  /** What is known of the tracker after any calls within one wait. */
  lemma {:induction false} WithinOneWait(t: Timeouts, k: Tracker, phase: Phase, start: real, calls: seq<Call>)
    requires Sane(k) && k.phase == phase && k.deadline == DeadlineAt(t, phase, start)
    requires forall c :: c in calls ==> !c.Enter?
    ensures var r := Run(t, k, calls);
      && Sane(r) && r.phase == phase && r.deadline == DeadlineAt(t, phase, LastActive(start, calls))
      && (r.fired.None? <==> k.fired.None? && Firings(t, k, calls) == 0)
    decreases |calls|
  {
    if calls != [] {
      var c := calls[0];
      StepKeepsSane(t, k, c);
      WithinOneWait(t, Step(t, k, c).0, phase, if c.Progress? then c.now else start, calls[1..]);
    }
  }

  /** A wait times out exactly once, at the first check that comes when nothing has happened for the whole
      time its phase allows: after any calls within the wait, a check reports the phase's timeout if and
      only if no check before it did and that much time has passed since the last activity. With positive
      times a wait in which something just happened never times out. */
  lemma FiresExactlyWhenDue(t: Timeouts, phase: Phase, start: real, calls: seq<Call>, now: real)
    requires forall c :: c in calls ==> !c.Enter?
    ensures var k := Entered(t, phase, start); var r := Checked(Run(t, k, calls), now).1;
      var (name, allowed) :=
        if phase in {Created, Preflight, Accepted} then (PreflightTimeout, t.preflight)
        else if phase == SendingManifest then (ManifestAck, t.manifestAck)
        else if phase == AwaitingAck then (WindowAck, t.windowAck)
        else if phase in {Transferring, Receiving} then (NoProgress, t.noProgress)
        else if phase in {Paused, WaitingReconnect} then (ReconnectWait, t.reconnectWait)
        else (FinalCompleteAck, t.finalCompleteAck);
      && (r.Some? <==> phase !in {Completed, Failed, Purged} && Firings(t, k, calls) == 0 && now >= LastActive(start, calls) + allowed)
      && (r.Some? ==> r.value == name)
      && (ValidTimeouts(t) && now <= LastActive(start, calls) ==> r.None?)
  {
    WithinOneWait(t, Entered(t, phase, start), phase, start, calls);
    FiresWhenDue(t, Run(t, Entered(t, phase, start), calls), now);
  }

  // ---------------------------------------------------------------- the receiving stage

  /** The waits a receiving stage can be in. */
  predicate StageWait(p: Phase) {
    p in {Preflight, Receiving, Paused, WaitingReconnect, Finalizing, Cancelled, Completed, Failed, Purged}
  }

  /** What an expired wait turns into: acceptance without payload and an unacknowledged cancel are
      purged, silence while receiving is a pause, and the other waits end in a retryable failure. */
  function AfterTimeout(p: Phase): Phase
    requires StageWait(p) && Bounded(p)
  {
    match p
    case Preflight => Purged
    case Cancelled => Purged
    case Receiving => Paused
    case Paused => Failed
    case WaitingReconnect => Failed
    case Finalizing => Failed
  }

  /** How many timeouts a stage that hears nothing more can still have. */
  function Rank(p: Phase): nat {
    if p == Receiving then 2 else if Bounded(p) then 1 else 0
  }

  lemma TimeoutsLowerRank(p: Phase)
    requires StageWait(p) && Bounded(p)
    ensures StageWait(AfterTimeout(p)) && Rank(AfterTimeout(p)) < Rank(p) <= 2
    ensures Rank(AfterTimeout(p)) == 0 <==> !Bounded(AfterTimeout(p))
  {
  }

  class DeadlineTracker {
    const timeouts: Timeouts
    var phase: Phase
    var deadline: Option<real>
    var fired: Option<TimeoutName>

    ghost function Abs(): Tracker
      reads this
    {
      Tracker(phase, deadline, fired)
    }

    constructor (timeouts: Timeouts, phase: Phase, now: real)
      ensures this.timeouts == timeouts && Abs() == Entered(timeouts, phase, now) && Sane(Abs())
    {
      this.timeouts := timeouts;
      this.phase, fired, deadline := phase, None, None;
      new;
      Progress(now);
    }

    method Enter(phase: Phase, now: real)
      modifies this
      ensures Abs() == Entered(timeouts, phase, now) && Sane(Abs())
    {
      this.phase := phase;
      fired := None;
      Progress(now);
    }

    method Progress(now: real)
      modifies this`deadline
      ensures Abs() == Progressed(timeouts, old(Abs()), now) && (old(Sane(Abs())) ==> Sane(Abs()))
    {
      if Sane(Abs()) {
        StepKeepsSane(timeouts, Abs(), Call.Progress(now));
      }
      var name := NameFor(phase);
      deadline := if name.None? then None else Some(now + Seconds(timeouts, name.value));
    }

    method Check(now: real) returns (r: Option<TimeoutName>)
      requires Sane(Abs())
      modifies this`fired
      ensures (Abs(), r) == Checked(old(Abs()), now) && Sane(Abs())
    {
      if deadline.None? || fired.Some? {
        return None;
      }
      if now >= deadline.value {
        fired := NameFor(phase);
        return fired;
      }
      return None;
    }
  }
}
