/**
 The extension's agent-fill poll loop: an armed flag, one timer, and asynchronous poll
 bodies that any other callback may interleave with at each await.
 */
module AgentFill {
  import opened Wrappers

  const POLL_MS := 1000
  const STATUS_EVERY_POLLS := 15
  const MAX_POLL_FAILURES := 3
  const BACKOFF_LADDER_MS := [0, 60_000, 300_000, 900_000]

  // --- The module variables and what each callback does to them -------------------------

  // `timer` is the time the scheduled poll is due.
  datatype Poller = Poller(
    armed: bool,
    armedUntil: int,
    timer: Option<int>,
    pollsSinceStatus: nat,
    pollFailures: nat,
    busy: bool,
    backoffStep: nat,
    backoffUntil: int
  )

  // A reply that leaves `available` or `locked` out counts as available and unlocked.
  datatype Reply = Status(available: bool, locked: bool, secs: Option<int>) | OtherReply

  datatype TakeReply = FillIntent | Locked | NoFillIntent

  // What a callback does last before it gives up the thread.
  datatype Next = Done | AwaitStatus | AwaitTake | AwaitRedeem | AwaitRefresh

  const INITIAL := Poller(false, 0, None, 0, 0, false, 0, 0)

  predicate Opens(reply: Reply) {
    reply.Status? && reply.secs.Some? && reply.secs.value > 0 && !reply.locked
  }

  function Scheduled(p: Poller, delay: nat, now: int): Poller {
    p.(timer := if p.armed then Some(now + delay) else None)
  }

  function Disarmed(p: Poller): Poller {
    p.(timer := None, armed := false, armedUntil := if p.armed then 0 else p.armedUntil)
  }

  function Armed(p: Poller, secs: int, now: int): Poller {
    var extended := p.(armedUntil := now + secs * 1000);
    if p.armed then extended
    else Scheduled(extended.(armed := true, pollFailures := 0, pollsSinceStatus := 0), 0, now)
  }

  function Noted(p: Poller, reply: Reply, now: int): Poller {
    if !reply.Status? then p else if Opens(reply) then Armed(p, reply.secs.value, now) else Disarmed(p)
  }

  function HostFailed(p: Poller, now: int): Poller {
    var step := if p.backoffStep < |BACKOFF_LADDER_MS| - 1 then p.backoffStep + 1 else p.backoffStep;
    var delay := if step < |BACKOFF_LADDER_MS| then BACKOFF_LADDER_MS[step] else 0;
    p.(backoffStep := step, backoffUntil := now + delay)
  }

  // The end of refreshStatus; no reply when the host request was rejected.
  function Refreshed(p: Poller, reply: Option<Reply>, now: int): (Poller, bool) {
    if reply.None? then (HostFailed(p, now), false)
    else if reply.value.Status? && !reply.value.available then (Disarmed(HostFailed(p, now)), false)
    else (Noted(p.(backoffStep := 0, backoffUntil := 0), reply.value, now), true)
  }

  function Finished(p: Poller, now: int): (Poller, Next) {
    (Scheduled(p.(busy := false), POLL_MS, now), Done)
  }

  // The timer callback, up to the first await of pollOnce.
  function Polled(p: Poller, now: int): (Poller, Next) {
    var fired := p.(timer := None);
    if !p.armed then (fired, Done)
    else if now >= p.armedUntil then (Disarmed(fired), AwaitRefresh)
    else if p.busy then (Scheduled(fired, POLL_MS, now), Done)
    else if p.pollsSinceStatus >= STATUS_EVERY_POLLS then (fired.(busy := true, pollsSinceStatus := 0), AwaitStatus)
    else (fired.(busy := true, pollsSinceStatus := p.pollsSinceStatus + 1), AwaitTake)
  }

  // pollOnce after its status read.
  function Reread(p: Poller, ok: bool, now: int): (Poller, Next) {
    if !ok || !p.armed then Finished(p, now)
    else (p.(pollsSinceStatus := p.pollsSinceStatus + 1), AwaitTake)
  }

  // pollOnce after the take request; no reply when it was rejected.
  function Took(p: Poller, reply: Option<TakeReply>, now: int): (Poller, Next) {
    match reply
    case None =>
      var failed := p.(pollFailures := p.pollFailures + 1);
      Finished(if failed.pollFailures >= MAX_POLL_FAILURES then HostFailed(Disarmed(failed), now) else failed, now)
    case Some(FillIntent) => (p.(pollFailures := 0), AwaitRedeem)
    case Some(Locked) => Finished(Disarmed(p.(pollFailures := 0)), now)
    case Some(NoFillIntent) => Finished(p.(pollFailures := 0), now)
  }

  function HeartbeatNext(p: Poller, now: int): Next {
    if p.armed || now < p.backoffUntil then Done else AwaitRefresh
  }

  // --- The callbacks as they run -----------------------------------------------------------

  class LivePoller {
    var armed: bool
    var armedUntil: int
    var pollTimer: Option<int>
    var pollsSinceStatus: nat
    var pollFailures: nat
    var busy: bool
    var backoffStep: nat
    var backoffUntil: int

    function Value(): Poller
      reads this
    {
      Poller(armed, armedUntil, pollTimer, pollsSinceStatus, pollFailures, busy, backoffStep, backoffUntil)
    }

    constructor ()
      ensures Value() == INITIAL
    {
      armed, armedUntil, pollTimer, pollsSinceStatus := false, 0, None, 0;
      pollFailures, busy, backoffStep, backoffUntil := 0, false, 0, 0;
    }

    method NoteStatus(reply: Reply, now: int)
      modifies this
      ensures Value() == Noted(old(Value()), reply, now)
    {
      if !reply.Status? {
        return;
      }
      if reply.secs.Some? && reply.secs.value > 0 && !reply.locked {
        Arm(reply.secs.value, now);
      } else {
        Disarm();
      }
    }

    method Arm(secs: int, now: int)
      modifies this
      ensures Value() == Armed(old(Value()), secs, now)
    {
      armedUntil := now + secs * 1000;
      if armed {
        return;
      }
      armed := true;
      pollFailures := 0;
      pollsSinceStatus := 0;
      SchedulePoll(0, now);
    }

    method Disarm()
      modifies this
      ensures Value() == Disarmed(old(Value()))
    {
      pollTimer := None;
      if !armed {
        return;
      }
      armed := false;
      armedUntil := 0;
    }

    method SchedulePoll(delay: nat, now: int)
      modifies this
      ensures Value() == Scheduled(old(Value()), delay, now)
    {
      pollTimer := None;
      if !armed {
        return;
      }
      pollTimer := Some(now + delay);
    }

    method PollOnce(now: int) returns (next: Next)
      modifies this
      ensures (Value(), next) == Polled(old(Value()), now)
    {
      pollTimer := None;
      if !armed {
        return Done;
      }
      if now >= armedUntil {
        Disarm();
        return AwaitRefresh;
      }
      if busy {
        SchedulePoll(POLL_MS, now);
        return Done;
      }
      busy := true;
      if pollsSinceStatus >= STATUS_EVERY_POLLS {
        pollsSinceStatus := 0;
        return AwaitStatus;
      }
      pollsSinceStatus := pollsSinceStatus + 1;
      return AwaitTake;
    }

    method AfterReread(ok: bool, now: int) returns (next: Next)
      modifies this
      ensures (Value(), next) == Reread(old(Value()), ok, now)
    {
      if !ok || !armed {
        next := Finish(now);
      } else {
        pollsSinceStatus := pollsSinceStatus + 1;
        next := AwaitTake;
      }
    }

    method AfterTake(reply: Option<TakeReply>, now: int) returns (next: Next)
      modifies this
      ensures (Value(), next) == Took(old(Value()), reply, now)
    {
      if reply.None? {
        pollFailures := pollFailures + 1;
        if pollFailures >= MAX_POLL_FAILURES {
          Disarm();
          NoteHostFailure(now);
        }
        next := Finish(now);
      } else {
        pollFailures := 0;
        if reply.value.FillIntent? {
          return AwaitRedeem;
        } else if reply.value.Locked? {
          Disarm();
        }
        next := Finish(now);
      }
    }

    // The finally block of pollOnce.
    method Finish(now: int) returns (next: Next)
      modifies this
      ensures (Value(), next) == Finished(old(Value()), now)
    {
      busy := false;
      SchedulePoll(POLL_MS, now);
      next := Done;
    }

    method AfterRefresh(reply: Option<Reply>, now: int) returns (ok: bool)
      modifies this
      ensures (Value(), ok) == Refreshed(old(Value()), reply, now)
    {
      if reply.None? {
        NoteHostFailure(now);
        return false;
      }
      if reply.value.Status? && !reply.value.available {
        NoteHostFailure(now);
        Disarm();
        return false;
      }
      backoffStep := 0;
      backoffUntil := 0;
      NoteStatus(reply.value, now);
      ok := true;
    }

    method NoteHostFailure(now: int)
      modifies this
      ensures Value() == HostFailed(old(Value()), now)
    {
      if backoffStep < |BACKOFF_LADDER_MS| - 1 {
        backoffStep := backoffStep + 1;
      }
      backoffUntil := now + if backoffStep < |BACKOFF_LADDER_MS| then BACKOFF_LADDER_MS[backoffStep] else 0;
    }
  }

  // --- Everything that can happen, in any order ------------------------------------------------

  // Where a poll body waits. After the status reply the body resumes in a later
  // microtask, so other callbacks may run in between.
  datatype Body = InStatus | StatusRead(ok: bool) | InTake | InRedeem

  // The poll bodies under way, the status reads nobody waits for, the clock, and the
  // times of the take requests sent since the window was last opened.
  datatype Loop = Loop(poller: Poller, bodies: seq<Body>, refreshes: nat, clock: int, takes: seq<int>)

  datatype Event =
    | TimerFires
    | BodyStatus(body: nat, reply: Option<Reply>)
    | BodyResumes(body: nat)
    | BodyTake(body: nat, taken: Option<TakeReply>)
    | BodyRedeemed(body: nat)
    | RefreshEnds(reply: Option<Reply>)
    | PopupStatus(noted: Reply)
    | Heartbeat
    | Wakes  // worker start, browser start, install

  // `now` is the clock reading of the callback; timers never fire early.
  datatype Timed = Timed(now: int, event: Event)

  predicate Enabled(l: Loop, t: Timed) {
    && l.clock <= t.now
    && match t.event
       case TimerFires => l.poller.timer.Some? && l.poller.timer.value <= t.now
       case BodyStatus(i, _) => i < |l.bodies| && l.bodies[i].InStatus?
       case BodyResumes(i) => i < |l.bodies| && l.bodies[i].StatusRead?
       case BodyTake(i, _) => i < |l.bodies| && l.bodies[i].InTake?
       case BodyRedeemed(i) => i < |l.bodies| && l.bodies[i].InRedeem?
       case RefreshEnds(_) => l.refreshes > 0
       case PopupStatus(_) => true
       case Heartbeat => true
       case Wakes => true
  }

  function Waiting(next: Next): seq<Body> {
    match next
    case Done => []
    case AwaitRefresh => []
    case AwaitStatus => [InStatus]
    case AwaitTake => [InTake]
    case AwaitRedeem => [InRedeem]
  }

  // A callback ran at `now`, leaving `others` and what it awaits itself.
  function After(l: Loop, others: seq<Body>, r: (Poller, Next), now: int): Loop {
    var window := if r.0.armed && !l.poller.armed then [] else l.takes;
    Loop(
      r.0,
      others + Waiting(r.1),
      l.refreshes + if r.1.AwaitRefresh? then 1 else 0,
      now,
      window + if r.1.AwaitTake? then [now] else []
    )
  }

  function Without(bodies: seq<Body>, i: nat): seq<Body>
    requires i < |bodies|
  {
    bodies[..i] + bodies[i + 1..]
  }

  function Step(l: Loop, t: Timed): Loop
    requires Enabled(l, t)
  {
    match t.event
    case TimerFires => After(l, l.bodies, Polled(l.poller, t.now), t.now)
    case BodyStatus(i, reply) =>
      var (p, ok) := Refreshed(l.poller, reply, t.now);
      After(l, l.bodies[i := StatusRead(ok)], (p, Done), t.now)
    case BodyResumes(i) => After(l, Without(l.bodies, i), Reread(l.poller, l.bodies[i].ok, t.now), t.now)
    case BodyTake(i, taken) => After(l, Without(l.bodies, i), Took(l.poller, taken, t.now), t.now)
    case BodyRedeemed(i) => After(l, Without(l.bodies, i), Finished(l.poller, t.now), t.now)
    case RefreshEnds(reply) =>
      After(l.(refreshes := l.refreshes - 1), l.bodies, (Refreshed(l.poller, reply, t.now).0, Done), t.now)
    case PopupStatus(reply) => After(l, l.bodies, (Noted(l.poller, reply, t.now), Done), t.now)
    case Heartbeat => After(l, l.bodies, (l.poller, HeartbeatNext(l.poller, t.now)), t.now)
    case Wakes => After(l, l.bodies, (l.poller, AwaitRefresh), t.now)
  }

  datatype Run = Run(states: seq<Loop>, events: seq<Timed>) {
    ghost predicate Follows(i: nat)
      requires i < |events| < |states|
    {
      Enabled(states[i], events[i]) && states[i + 1] == Step(states[i], events[i])
    }

    ghost predicate Valid() {
      && |states| == |events| + 1
      && states[0] == Loop(INITIAL, [], 0, states[0].clock, [])
      && forall i: nat | i < |events| :: Follows(i)
    }
  }

  // --- What every interleaving keeps ----------------------------------------------------------

  ghost predicate Apart(takes: seq<int>) {
    forall i, j | 0 <= i < j < |takes| :: takes[i] + POLL_MS <= takes[j]
  }

  ghost predicate Past(takes: seq<int>, clock: int) {
    forall i | 0 <= i < |takes| :: takes[i] <= clock
  }

  ghost predicate Inv(l: Loop) {
    var p := l.poller;
    // at most one poll or redemption is under way, and `busy` says which
    && |l.bodies| <= 1
    && (p.busy <==> |l.bodies| == 1)
    // disarmed: no poll is scheduled; armed: the next one cannot be forgotten
    && (!p.armed ==> p.timer.None?)
    && (p.armed ==> p.timer.Some? || p.busy)
    && (p.timer.Some? ==> p.timer.value <= l.clock + POLL_MS)
    && (p.armed ==> p.pollFailures < MAX_POLL_FAILURES)
    && p.pollsSinceStatus <= STATUS_EVERY_POLLS
    && p.backoffStep < |BACKOFF_LADDER_MS|
    // polls of one window are a poll interval apart
    && Apart(l.takes) && Past(l.takes, l.clock)
    && (p.armed && !p.busy && l.takes != [] ==> l.takes[|l.takes| - 1] + POLL_MS <= p.timer.value)
    // a poll that reads the status first starts no sooner than its take request may
    && (p.busy && (l.bodies[0].InStatus? || l.bodies[0].StatusRead?) ==>
          p.pollsSinceStatus == 0 && (l.takes != [] ==> l.takes[|l.takes| - 1] + POLL_MS <= l.clock))
  }

  lemma OneMoreApart(takes: seq<int>, now: int)
    requires Apart(takes) && Past(takes, now) && (takes != [] ==> takes[|takes| - 1] + POLL_MS <= now)
    ensures Apart(takes + [now]) && Past(takes + [now], now)
  {
    var all, n := takes + [now], |takes|;
    forall i, j | 0 <= i < j < |all| ensures all[i] + POLL_MS <= all[j] {
      if j == n && i < n - 1 {
        assert takes[i] + POLL_MS <= takes[n - 1];
      }
    }
  }

  // No new take request, in a window that stays or is opened.
  lemma TakesStay(takes: seq<int>, clock: int, now: int)
    requires Past(takes, clock) && clock <= now
    ensures Past(takes, now) && Apart([]) && Past([], now)
  {
  }

  lemma TimerKeepsInv(l: Loop, t: Timed)
    requires Inv(l) && Enabled(l, t) && t.event.TimerFires?
    ensures Inv(Step(l, t))
  {
    hide Apart, Past;
    var (p, next) := Polled(l.poller, t.now);
    TakesStay(l.takes, l.clock, t.now);
    if next.AwaitTake? {
      OneMoreApart(l.takes, t.now);
      assert Step(l, t).takes == l.takes + [t.now] && Step(l, t).bodies == [InTake];
    } else {
      assert Step(l, t).takes == l.takes;
      if next.AwaitStatus? {
        assert Step(l, t).bodies == [InStatus];
      } else {
        assert Step(l, t).bodies == l.bodies;
      }
    }
  }

  lemma BodyStatusKeepsInv(l: Loop, t: Timed)
    requires Inv(l) && Enabled(l, t) && t.event.BodyStatus?
    ensures Inv(Step(l, t))
  {
    hide Apart, Past;
    TakesStay(l.takes, l.clock, t.now);
    assert Step(l, t).takes == l.takes || Step(l, t).takes == [];
  }

  lemma RefreshKeepsInv(l: Loop, t: Timed)
    requires Inv(l) && Enabled(l, t) && t.event.RefreshEnds?
    ensures Inv(Step(l, t))
  {
    hide Apart, Past;
    TakesStay(l.takes, l.clock, t.now);
    assert Step(l, t).takes == l.takes || Step(l, t).takes == [];
  }

  lemma PopupKeepsInv(l: Loop, t: Timed)
    requires Inv(l) && Enabled(l, t) && t.event.PopupStatus?
    ensures Inv(Step(l, t))
  {
    hide Apart, Past;
    TakesStay(l.takes, l.clock, t.now);
    assert Step(l, t).takes == l.takes || Step(l, t).takes == [];
  }

  lemma ResumeKeepsInv(l: Loop, t: Timed)
    requires Inv(l) && Enabled(l, t) && t.event.BodyResumes?
    ensures Inv(Step(l, t))
  {
    hide Apart, Past;
    TakesStay(l.takes, l.clock, t.now);
    if Step(l, t).takes != l.takes {
      OneMoreApart(l.takes, t.now);
    }
    assert Without(l.bodies, t.event.body) == [];
  }

  lemma TakeKeepsInv(l: Loop, t: Timed)
    requires Inv(l) && Enabled(l, t) && t.event.BodyTake?
    ensures Inv(Step(l, t))
  {
    hide Apart, Past;
    TakesStay(l.takes, l.clock, t.now);
    assert Without(l.bodies, t.event.body) == [];
    assert Step(l, t).takes == l.takes;
    if t.event.taken == Some(FillIntent) {
      assert Step(l, t).bodies == [InRedeem];
    } else {
      assert Step(l, t).bodies == [];
    }
  }

  lemma RedeemedKeepsInv(l: Loop, t: Timed)
    requires Inv(l) && Enabled(l, t) && t.event.BodyRedeemed?
    ensures Inv(Step(l, t))
  {
    hide Apart, Past;
    TakesStay(l.takes, l.clock, t.now);
    assert Without(l.bodies, t.event.body) == [];
    assert Step(l, t).takes == l.takes;
  }

  lemma StepKeepsInv(l: Loop, t: Timed)
    requires Inv(l) && Enabled(l, t)
    ensures Inv(Step(l, t))
  {
    hide Inv, Step, Enabled;
    match t.event
    case TimerFires => TimerKeepsInv(l, t);
    case BodyStatus(_, _) => BodyStatusKeepsInv(l, t);
    case BodyResumes(_) => ResumeKeepsInv(l, t);
    case BodyTake(_, _) => TakeKeepsInv(l, t);
    case BodyRedeemed(_) => RedeemedKeepsInv(l, t);
    case RefreshEnds(_) => RefreshKeepsInv(l, t);
    case PopupStatus(_) => PopupKeepsInv(l, t);
    case Heartbeat => WakingKeepsInv(l, t);
    case Wakes => WakingKeepsInv(l, t);
  }

  lemma WakingKeepsInv(l: Loop, t: Timed)
    requires Inv(l) && Enabled(l, t) && (t.event.Heartbeat? || t.event.Wakes?)
    ensures Inv(Step(l, t))
  {
    hide Apart, Past;
    TakesStay(l.takes, l.clock, t.now);
    assert Step(l, t).takes == l.takes && Step(l, t).bodies == l.bodies && Step(l, t).poller == l.poller;
  }

  lemma {:induction false} OnePollAndNoLostWakeup(run: Run, n: nat)
    requires run.Valid() && n <= |run.events|
    ensures Inv(run.states[n])
    ensures var (p, running) := (run.states[n].poller, |run.states[n].bodies|);
            && running <= 1 && (p.timer.Some? ==> p.armed) && (p.armed ==> p.timer.Some? || running == 1)
            && (p.timer.Some? ==> p.timer.value <= run.states[n].clock + POLL_MS)
  {
    if n > 0 {
      OnePollAndNoLostWakeup(run, n - 1);
      assert run.Follows(n - 1);
      StepKeepsInv(run.states[n - 1], run.events[n - 1]);
    }
  }

  // Nothing waits for anything but its own answer: whatever is under way may go on with
  // any answer at any time, and the popup, the heartbeat and a wake-up may always come.
  lemma NothingIsHeldUp(l: Loop, now: int, status: Option<Reply>, taken: Option<TakeReply>, noted: Reply)
    requires Inv(l) && l.clock <= now
    ensures Enabled(l, Timed(now, PopupStatus(noted)))
    ensures Enabled(l, Timed(now, Heartbeat)) && Enabled(l, Timed(now, Wakes))
    ensures l.refreshes > 0 ==> Enabled(l, Timed(now, RefreshEnds(status)))
    ensures l.poller.timer.Some? && l.poller.timer.value <= now ==> Enabled(l, Timed(now, TimerFires))
    ensures l.poller.busy ==>
              || Enabled(l, Timed(now, BodyStatus(0, status))) || Enabled(l, Timed(now, BodyResumes(0)))
              || Enabled(l, Timed(now, BodyTake(0, taken))) || Enabled(l, Timed(now, BodyRedeemed(0)))
  {
  }

  // --- Polling needs an open window -----------------------------------------------------------

  function StatusIn(e: Event): Option<Reply> {
    match e
    case BodyStatus(_, reply) => reply
    case RefreshEnds(reply) => reply
    case PopupStatus(reply) => Some(reply)
    case _ => None
  }

  // A status reply with seconds left, from an unlocked daemon. A reply to a read of the
  // loop's own must not say that the daemon is unavailable; the popup's is not asked.
  predicate Opening(t: Timed) {
    match t.event
    case PopupStatus(Status(_, locked, secs)) => secs.Some? && secs.value > 0 && !locked
    case BodyStatus(_, Some(Status(available, locked, secs))) => available && secs.Some? && secs.value > 0 && !locked
    case RefreshEnds(Some(Status(available, locked, secs))) => available && secs.Some? && secs.value > 0 && !locked
    case _ => false
  }

  // Any other status reply, a take request answered by a locked daemon, the deadline,
  // or the third take request in a row to be rejected.
  predicate Closing(l: Loop, t: Timed) {
    match t.event
    case PopupStatus(Status(_, locked, secs)) => locked || secs.None? || secs.value <= 0
    case BodyStatus(_, Some(Status(available, locked, secs))) =>
      !available || locked || secs.None? || secs.value <= 0
    case RefreshEnds(Some(Status(available, locked, secs))) =>
      !available || locked || secs.None? || secs.value <= 0
    case BodyTake(_, Some(Locked)) => true
    case BodyTake(_, None) => l.poller.pollFailures + 1 >= MAX_POLL_FAILURES
    case TimerFires => l.poller.armed && t.now >= l.poller.armedUntil
    case _ => false
  }

  function OpenUntil(t: Timed): int
    requires Opening(t)
  {
    t.now + StatusIn(t.event).value.secs.value * 1000
  }

  // A take request goes out.
  predicate Asks(l: Loop, t: Timed) {
    Enabled(l, t) && InTake !in l.bodies && InTake in Step(l, t).bodies
  }

  // The window is open after an event exactly if the event opened it or it was open and
  // the event did not close it; which deadline then stands; and a window just opened is
  // polled at once.
  lemma OpenAfter(l: Loop, t: Timed)
    requires Enabled(l, t)
    ensures Step(l, t).poller.armed <==> Opening(t) || (l.poller.armed && !Closing(l, t))
    ensures Step(l, t).poller.armed ==>
              Step(l, t).poller.armedUntil == if Opening(t) then OpenUntil(t) else l.poller.armedUntil
    ensures Step(l, t).poller.armed && !l.poller.armed ==>
              Step(l, t).poller.timer == Some(t.now)
  {
  }

  // Whenever the loop is armed, a status reply said so, the latest deadline stands, and
  // nothing has closed the window since.
  lemma {:induction false} ArmedSince(run: Run, n: nat) returns (j: nat)
    requires run.Valid() && n <= |run.events| && run.states[n].poller.armed
    ensures j < n && Opening(run.events[j]) && run.states[n].poller.armedUntil == OpenUntil(run.events[j])
    ensures forall k | j < k <= n :: run.states[k].poller.armed
    ensures forall k | j < k < n :: !Opening(run.events[k]) && !Closing(run.states[k], run.events[k])
  {
    assert run.Follows(n - 1);
    OpenAfter(run.states[n - 1], run.events[n - 1]);
    if Opening(run.events[n - 1]) {
      j := n - 1;
    } else {
      j := ArmedSince(run, n - 1);
    }
  }

  // From an event that closes the window on, no timer is set and no take request is
  // started until a status reply opens the window again.
  lemma ClosedUntilReopened(run: Run, i: nat, n: nat)
    requires run.Valid() && i < n <= |run.events| && Closing(run.states[i], run.events[i])
    requires forall k | i < k < n :: !Opening(run.events[k])
    ensures !run.states[n].poller.armed && run.states[n].poller.timer.None?
    ensures n < |run.events| ==> !Asks(run.states[n], run.events[n])
  {
    OnePollAndNoLostWakeup(run, n);
    if run.states[n].poller.armed {
      var j := ArmedSince(run, n);
    }
    if n < |run.events| && Asks(run.states[n], run.events[n]) {
      AsksExactly(run.states[n], run.events[n]);
    }
  }

  lemma OthersDoNotAsk(l: Loop, t: Timed)
    requires Inv(l) && Enabled(l, t) && !t.event.TimerFires? && !t.event.BodyResumes?
    ensures InTake in Step(l, t).bodies ==> InTake in l.bodies
  {
    if t.event.BodyTake? || t.event.BodyRedeemed? {
      assert Without(l.bodies, t.event.body) == [];
    }
  }

  // The timer fires inside the window, with no poll or redemption under way.
  predicate PollDue(l: Loop, t: Timed) {
    t.event.TimerFires? && l.poller.armed && t.now < l.poller.armedUntil && l.bodies == []
  }

  // A take request goes out exactly when a poll is due that need not read the status
  // first, or when one has read it, the daemon answered, and the window is still open.
  lemma AsksExactly(l: Loop, t: Timed)
    requires Inv(l) && Enabled(l, t)
    ensures Asks(l, t) <==>
              || (PollDue(l, t) && l.poller.pollsSinceStatus < STATUS_EVERY_POLLS)
              || (t.event.BodyResumes? && l.bodies[t.event.body].ok && l.poller.armed)
  {
    if t.event.BodyResumes? {
      assert Without(l.bodies, t.event.body) == [];
    } else if t.event.TimerFires? {
      assert Step(l, t).bodies == l.bodies + Waiting(Polled(l.poller, t.now).1);
    } else {
      OthersDoNotAsk(l, t);
    }
  }

  lemma TimerRereads(l: Loop, t: Timed)
    requires Inv(l) && Enabled(l, t) && t.event.TimerFires?
    ensures Rereads(l, t) <==> PollDue(l, t) && l.poller.pollsSinceStatus >= STATUS_EVERY_POLLS
  {
    assert Step(l, t).bodies == l.bodies + Waiting(Polled(l.poller, t.now).1);
    hide Apart, Past;
  }

  lemma OthersDoNotReread(l: Loop, t: Timed)
    requires Inv(l) && Enabled(l, t) && !t.event.TimerFires?
    ensures !Rereads(l, t)
  {
    if t.event.BodyResumes? || t.event.BodyTake? || t.event.BodyRedeemed? {
      assert Without(l.bodies, t.event.body) == [];
    }
    hide Apart, Past;
  }

  // A poll that is due reads the status first exactly if fifteen went by without.
  lemma RereadsExactly(l: Loop, t: Timed)
    requires Inv(l) && Enabled(l, t)
    ensures Rereads(l, t) <==> PollDue(l, t) && l.poller.pollsSinceStatus >= STATUS_EVERY_POLLS
  {
    hide Rereads, Step, Inv, Enabled;
    if t.event.TimerFires? {
      TimerRereads(l, t);
    } else {
      OthersDoNotReread(l, t);
    }
  }

  // It then goes by whether the daemon answered.
  lemma ReadIsNoted(l: Loop, t: Timed)
    requires Inv(l) && Enabled(l, t) && t.event.BodyStatus?
    ensures Step(l, t).bodies == l.bodies[t.event.body := StatusRead(!Unanswered(t.event.reply))]
  {
    hide Apart, Past, Noted, Disarmed, HostFailed;
  }

  // The status is read outside a poll exactly when the timer finds the window past its
  // deadline, on a wake-up, and on a heartbeat that is neither needed nor held back.
  lemma RefreshesExactly(l: Loop, t: Timed)
    requires Inv(l) && Enabled(l, t)
    ensures Step(l, t).refreshes == l.refreshes - (if t.event.RefreshEnds? then 1 else 0) +
              if || (t.event.TimerFires? && l.poller.armed && t.now >= l.poller.armedUntil)
                 || t.event.Wakes?
                 || (t.event.Heartbeat? && !l.poller.armed && t.now >= l.poller.backoffUntil)
              then 1 else 0
  {
  }

  // An intent that was taken is redeemed, with no other poll under way; any other answer
  // ends the poll.
  lemma RedeemsExactly(l: Loop, t: Timed)
    requires Inv(l) && Enabled(l, t) && t.event.BodyTake?
    ensures Step(l, t).bodies == if t.event.taken == Some(FillIntent) then [InRedeem] else []
    ensures Step(l, t).poller.busy <==> t.event.taken == Some(FillIntent)
  {
    assert Without(l.bodies, t.event.body) == [];
  }

  // No take request goes out unless a status reply opened the window and nothing has
  // closed it since; one the timer starts goes out before the announced deadline.
  lemma PollsOnlyInOpenWindow(run: Run, n: nat) returns (j: nat)
    requires run.Valid() && n < |run.events| && Asks(run.states[n], run.events[n])
    ensures j < n && Opening(run.events[j]) && forall k | j < k <= n :: run.states[k].poller.armed
    ensures run.events[n].event.TimerFires? ==> run.events[n].now < OpenUntil(run.events[j])
  {
    OnePollAndNoLostWakeup(run, n);
    AsksExactly(run.states[n], run.events[n]);
    j := ArmedSince(run, n);
  }

  lemma StepTakes(l: Loop, t: Timed)
    requires Inv(l) && Enabled(l, t) && l.poller.armed
    ensures l.takes <= Step(l, t).takes
    ensures Asks(l, t) ==> Step(l, t).takes == l.takes + [t.now]
  {
    if t.event.BodyResumes? || t.event.BodyTake? || t.event.BodyRedeemed? {
      assert Without(l.bodies, t.event.body) == [];
    }
  }

  lemma NextTakes(run: Run, n: nat)
    requires run.Valid() && n < |run.events| && run.states[n].poller.armed
    ensures run.states[n].takes <= run.states[n + 1].takes
    ensures Asks(run.states[n], run.events[n]) ==> run.states[n + 1].takes == run.states[n].takes + [run.events[n].now]
  {
    OnePollAndNoLostWakeup(run, n);
    assert run.Follows(n);
    StepTakes(run.states[n], run.events[n]);
  }

  lemma {:induction false} TakesKept(run: Run, j: nat, n: nat)
    requires run.Valid() && j <= n <= |run.events|
    requires forall k | j <= k < n :: run.states[k].poller.armed
    ensures run.states[j].takes <= run.states[n].takes
  {
    if j < n {
      TakesKept(run, j, n - 1);
      NextTakes(run, n - 1);
    }
  }

  // Two take requests of one window are at least a poll interval apart, however the
  // status replies and the popup extend it.
  lemma PollsApart(run: Run, j: nat, n: nat)
    requires run.Valid() && j < n < |run.events|
    requires Asks(run.states[j], run.events[j]) && Asks(run.states[n], run.events[n])
    requires forall k | j <= k <= n :: run.states[k].poller.armed
    ensures run.events[j].now + POLL_MS <= run.events[n].now
  {
    hide Step, Enabled, Asks;
    OnePollAndNoLostWakeup(run, n + 1);
    NextTakes(run, j);
    NextTakes(run, n);
    TakesKept(run, j + 1, n);
    var takes := run.states[n + 1].takes;
    assert takes[|run.states[j].takes|] == run.events[j].now && takes[|takes| - 1] == run.events[n].now;
  }

  // --- What the counters count ---------------------------------------------------------------------

  // A status reply arrives.
  predicate Reports(e: Event) {
    e.BodyStatus? || e.RefreshEnds? || e.PopupStatus?
  }

  // The window opens, and so the counters start again.
  predicate Arms(l: Loop, t: Timed) {
    Enabled(l, t) && !l.poller.armed && Step(l, t).poller.armed
  }

  // A poll that reads the status first.
  predicate Rereads(l: Loop, t: Timed) {
    Enabled(l, t) && InStatus !in l.bodies && InStatus in Step(l, t).bodies
  }

  // The host is known not to answer: a status read failed or found no daemon, or a
  // third take request in a row was rejected.
  predicate FailsHost(l: Loop, t: Timed) {
    match t.event
    case BodyStatus(_, reply) => Unanswered(reply)
    case RefreshEnds(reply) => Unanswered(reply)
    case BodyTake(_, taken) => taken.None? && l.poller.pollFailures + 1 >= MAX_POLL_FAILURES
    case _ => false
  }

  predicate Unanswered(reply: Option<Reply>) {
    reply.None? || (reply.value.Status? && !reply.value.available)
  }

  predicate ReadsStatus(e: Event) {
    e.BodyStatus? || e.RefreshEnds?
  }

  // Take requests rejected in a row, within one window.
  ghost function Rejections(run: Run, n: nat): nat
    requires run.Valid() && n <= |run.events|
  {
    if n == 0 then 0 else
    var l, t := run.states[n - 1], run.events[n - 1];
    if Arms(l, t) then 0
    else if t.event.BodyTake? then (if t.event.taken.None? then Rejections(run, n - 1) + 1 else 0)
    else Rejections(run, n - 1)
  }

  // Take requests sent since the last poll that read the status, or since the window opened.
  ghost function Polls(run: Run, n: nat): nat
    requires run.Valid() && n <= |run.events|
  {
    if n == 0 then 0 else
    PollsAfter(run.states[n - 1], run.events[n - 1], Polls(run, n - 1))
  }

  function PollsAfter(l: Loop, t: Timed, polls: nat): nat {
    if Arms(l, t) || Rereads(l, t) then 0 else polls + if Asks(l, t) then 1 else 0
  }

  // Host failures since the last status read that was answered.
  ghost function HostFailures(run: Run, n: nat): nat
    requires run.Valid() && n <= |run.events|
  {
    if n == 0 then 0 else
    var l, t := run.states[n - 1], run.events[n - 1];
    if FailsHost(l, t) then HostFailures(run, n - 1) + 1
    else if ReadsStatus(t.event) then 0
    else HostFailures(run, n - 1)
  }

  ghost predicate RejectionsStep(l: Loop, t: Timed)
    requires Enabled(l, t)
  {
    Step(l, t).poller.pollFailures ==
      if Arms(l, t) then 0
      else if t.event.BodyTake? then (if t.event.taken.None? then l.poller.pollFailures + 1 else 0)
      else l.poller.pollFailures
  }

  ghost predicate PollsStep(l: Loop, t: Timed)
    requires Enabled(l, t)
  {
    Step(l, t).poller.pollsSinceStatus == PollsAfter(l, t, l.poller.pollsSinceStatus)
  }

  ghost predicate BackoffStep(l: Loop, t: Timed)
    requires Enabled(l, t)
  {
    var p, q := l.poller, Step(l, t).poller;
    if FailsHost(l, t) then
      var step := Least(p.backoffStep + 1, 3);
      q.backoffStep == step && q.backoffUntil == t.now + BACKOFF_LADDER_MS[step]
    else if ReadsStatus(t.event) then q.backoffStep == 0 && q.backoffUntil == 0
    else q.backoffStep == p.backoffStep && q.backoffUntil == p.backoffUntil
  }

  function Least(a: nat, b: nat): nat {
    if a < b then a else b
  }

  lemma StatusCounts(l: Loop, t: Timed)
    requires Inv(l) && Enabled(l, t) && Reports(t.event)
    ensures RejectionsStep(l, t) && PollsStep(l, t)
  {
  }

  lemma WindowKeepsBackoff(p: Poller, reply: Reply, now: int)
    ensures var q := Noted(p, reply, now); q.backoffStep == p.backoffStep && q.backoffUntil == p.backoffUntil
  {
  }

  lemma StatusBacksOff(l: Loop, t: Timed)
    requires Inv(l) && Enabled(l, t) && Reports(t.event)
    ensures BackoffStep(l, t)
  {
    hide Noted, Apart, Past;
    var answered := l.poller.(backoffStep := 0, backoffUntil := 0);
    match t.event
    case BodyStatus(_, Some(reply)) => WindowKeepsBackoff(answered, reply, t.now);
    case RefreshEnds(Some(reply)) => WindowKeepsBackoff(answered, reply, t.now);
    case PopupStatus(reply) => WindowKeepsBackoff(l.poller, reply, t.now);
    case _ =>
  }

  lemma OtherCounts(l: Loop, t: Timed)
    requires Inv(l) && Enabled(l, t) && !Reports(t.event)
    ensures RejectionsStep(l, t)
  {
  }

  lemma BodyPolls(l: Loop, t: Timed)
    requires Inv(l) && Enabled(l, t) && (t.event.BodyResumes? || t.event.BodyTake? || t.event.BodyRedeemed?)
    ensures PollsStep(l, t)
  {
    assert Without(l.bodies, t.event.body) == [];
  }

  lemma OtherPolls(l: Loop, t: Timed)
    requires Inv(l) && Enabled(l, t) && !Reports(t.event)
    requires !t.event.BodyResumes? && !t.event.BodyTake? && !t.event.BodyRedeemed?
    ensures PollsStep(l, t)
  {
  }

  lemma OtherBacksOff(l: Loop, t: Timed)
    requires Inv(l) && Enabled(l, t) && !Reports(t.event)
    ensures BackoffStep(l, t)
  {
  }

  lemma StepCounts(l: Loop, t: Timed)
    requires Inv(l) && Enabled(l, t)
    ensures RejectionsStep(l, t) && PollsStep(l, t) && BackoffStep(l, t)
  {
    if Reports(t.event) {
      StatusCounts(l, t);
      StatusBacksOff(l, t);
    } else {
      OtherCounts(l, t);
      OtherBacksOff(l, t);
      if t.event.BodyResumes? || t.event.BodyTake? || t.event.BodyRedeemed? {
        BodyPolls(l, t);
      } else {
        OtherPolls(l, t);
      }
    }
  }

  // A third rejection in a row disarms, and nothing else that is rejected does.
  lemma {:induction false} RejectionsCounted(run: Run, n: nat)
    requires run.Valid() && n <= |run.events|
    ensures run.states[n].poller.pollFailures == Rejections(run, n)
    ensures n > 0 && run.events[n - 1].event.BodyTake? && run.events[n - 1].event.taken.None?
            && run.states[n - 1].poller.armed ==>
              (run.states[n].poller.armed <==> Rejections(run, n) < MAX_POLL_FAILURES)
  {
    if n > 0 {
      RejectionsCounted(run, n - 1);
      OnePollAndNoLostWakeup(run, n - 1);
      assert run.Follows(n - 1);
      StepCounts(run.states[n - 1], run.events[n - 1]);
    }
  }

  lemma NextPolls(run: Run, n: nat)
    requires run.Valid() && n < |run.events|
    ensures run.states[n + 1].poller.pollsSinceStatus
         == PollsAfter(run.states[n], run.events[n], run.states[n].poller.pollsSinceStatus)
  {
    OnePollAndNoLostWakeup(run, n);
    assert run.Follows(n);
    StepCounts(run.states[n], run.events[n]);
  }

  lemma PollsWithin(run: Run, n: nat)
    requires run.Valid() && n <= |run.events|
    ensures run.states[n].poller.pollsSinceStatus <= STATUS_EVERY_POLLS
  {
    OnePollAndNoLostWakeup(run, n);
  }

  // No more than fifteen polls in a row go by without a status read.
  lemma {:induction false} PollsCounted(run: Run, n: nat)
    requires run.Valid() && n <= |run.events|
    ensures run.states[n].poller.pollsSinceStatus == Polls(run, n) <= STATUS_EVERY_POLLS
  {
    hide PollsAfter, Inv, Step, Enabled;
    PollsWithin(run, n);
    if n > 0 {
      PollsCounted(run, n - 1);
      NextPolls(run, n - 1);
    }
  }

  // The heartbeat's backoff is the rung for the failures since the last answer, counted
  // from the latest of them.
  lemma {:induction false} BackoffFollowsFailures(run: Run, n: nat) returns (m: nat)
    requires run.Valid() && n <= |run.events|
    ensures run.states[n].poller.backoffStep == Least(HostFailures(run, n), 3)
    ensures HostFailures(run, n) == 0 ==> run.states[n].poller.backoffUntil == 0
    ensures HostFailures(run, n) > 0 ==>
              && m < n && FailsHost(run.states[m], run.events[m]) && HostFailures(run, m + 1) == HostFailures(run, n)
              && run.states[n].poller.backoffUntil ==
                   run.events[m].now + BACKOFF_LADDER_MS[Least(HostFailures(run, n), 3)]
  {
    m := 0;
    if n > 0 {
      m := BackoffFollowsFailures(run, n - 1);
      OnePollAndNoLostWakeup(run, n - 1);
      assert run.Follows(n - 1);
      StepCounts(run.states[n - 1], run.events[n - 1]);
      if FailsHost(run.states[n - 1], run.events[n - 1]) {
        m := n - 1;
      }
    }
  }
}
