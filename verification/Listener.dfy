/**
 One listen window for nearby sync: the accept loop that serves it, and the daemon's
 bookkeeping of windows.
 */
module Listener {
  import opened Wrappers
  import opened Nearby
  import Daemon

  const MAX_FAILED_HANDSHAKES := 8
  const ACCEPT_POLL_MS := 100

  // --- The accept loop ---------------------------------------------------------------------

  // How a connection handed to the handshake ends.
  datatype Session = NotAuthenticated | Broken | Completed

  datatype Incoming = WouldBlock | Interrupted | AcceptFailed | Connected(peer: IpAddr, session: Session)

  // What the loop finds each time round: the stop flag, the clock, and the socket.
  datatype Moment = Moment(stop: bool, now: int, accept: Incoming)

  type Environment = nat -> Moment

  datatype ListenEnd = Synced | Failed | ListenerFailed | Expired | Stopped | TooManyFailures

  // A connection and what was done with it.
  datatype Attempt = TurnedAway(peer: IpAddr) | Handshook(peer: IpAddr, session: Session)

  // The clock does not go back, and a poll that finds nobody sleeps.
  ghost predicate Ticks(env: Environment, i: nat) {
    env(i).now + (if env(i).accept.WouldBlock? then ACCEPT_POLL_MS else 0) <= env(i + 1).now
  }

  ghost predicate Calm(env: Environment, i: nat) {
    !env(i).accept.Interrupted?
  }

  predicate Refused(a: Attempt) {
    a.TurnedAway? || a.session.NotAuthenticated?
  }

  // The connections of the first k rounds, in order: only local peers get a handshake.
  function Attempts(env: Environment, k: nat): seq<Attempt> {
    if k == 0 then [] else
    var m := env(k - 1);
    Attempts(env, k - 1) +
    if !m.accept.Connected? then []
    else if IsLocalAddress(m.accept.peer) then [Handshook(m.accept.peer, m.accept.session)]
    else [TurnedAway(m.accept.peer)]
  }

  // How the loop ends, k rounds having begun and passed the first two checks.
  ghost predicate EndsAs(env: Environment, until: int, k: nat, log: seq<Attempt>, end: ListenEnd) {
    match end
    case Stopped => env(k).stop
    case Expired => !env(k).stop && env(k).now >= until
    case ListenerFailed => k > 0 && env(k - 1).accept.AcceptFailed?
    case Synced => log != [] && log[|log| - 1].Handshook? && log[|log| - 1].session.Completed?
    case Failed => log != [] && log[|log| - 1].Handshook? && log[|log| - 1].session.Broken?
    case TooManyFailures => |log| == MAX_FAILED_HANDSHAKES && Refused(log[|log| - 1])
  }

  // Terminates when interruptions stop at some point, `calm`; every round but the last
  // went on, so no peer is served once the window is stopped or over.
  method Serve(env: Environment, until: int, ghost calm: nat) returns (end: ListenEnd, log: seq<Attempt>, rounds: nat)
    requires forall i: nat :: Ticks(env, i)
    requires forall i: nat | i >= calm :: Calm(env, i)
    ensures log == Attempts(env, rounds) && EndsAs(env, until, rounds, log, end)
    ensures forall i: nat | i < rounds :: !env(i).stop && env(i).now < until
    ensures |log| <= MAX_FAILED_HANDSHAKES
    ensures forall i | 0 <= i < |log| - 1 :: Refused(log[i])
    ensures !end.Synced? && !end.Failed? ==> forall i | 0 <= i < |log| :: Refused(log[i])
  {
    var failures := 0;
    rounds, log := 0, [];
    while true
      invariant failures == |log| < MAX_FAILED_HANDSHAKES
      invariant log == Attempts(env, rounds)
      invariant forall i: nat | i < rounds :: !env(i).stop && env(i).now < until
      invariant forall i | 0 <= i < |log| :: Refused(log[i])
      decreases if rounds < calm then calm - rounds else 0, MAX_FAILED_HANDSHAKES - failures, until - env(rounds).now
    {
      var m := env(rounds);
      if m.stop {
        return Stopped, log, rounds;
      }
      if m.now >= until {
        return Expired, log, rounds;
      }
      assert Ticks(env, rounds);
      assert rounds >= calm ==> Calm(env, rounds);
      rounds := rounds + 1;
      match m.accept {
        case WouldBlock =>
        case Interrupted =>
        case AcceptFailed =>
          return ListenerFailed, log, rounds;
        case Connected(peer, session) =>
          if !IsLocalAddress(peer) {
            log := log + [TurnedAway(peer)];
            failures := failures + 1;
          } else {
            log := log + [Handshook(peer, session)];
            match session {
              case Completed =>
                return Synced, log, rounds;
              case Broken =>
                return Failed, log, rounds;
              case NotAuthenticated =>
                failures := failures + 1;
            }
          }
          if failures >= MAX_FAILED_HANDSHAKES {
            return TooManyFailures, log, rounds;
          }
      }
    }
  }

  // Connections before round k.
  ghost function Connections(env: Environment, k: nat): nat {
    if k == 0 then 0 else Connections(env, k - 1) + if env(k - 1).accept.Connected? then 1 else 0
  }

  // Each connection is dealt with once, in its turn: turned away or given the handshake
  // that its session tells of.
  lemma {:induction false} ServedInTurn(env: Environment, k: nat, i: nat)
    requires i < k && env(i).accept.Connected?
    ensures |Attempts(env, k)| == Connections(env, k) && Connections(env, i) < Connections(env, k)
    ensures var m, a := env(i).accept, Attempts(env, k)[Connections(env, i)];
            a == TurnedAway(m.peer) || a == Handshook(m.peer, m.session)
  {
    AllServed(env, k - 1);
    if i < k - 1 {
      ServedInTurn(env, k - 1, i);
    }
  }

  lemma {:induction false} AllServed(env: Environment, k: nat)
    ensures |Attempts(env, k)| == Connections(env, k)
  {
    if k > 0 {
      AllServed(env, k - 1);
    }
  }

  // Nobody outside the policy's networks gets as far as a handshake.
  lemma {:induction false} HandshakesAreLocal(env: Environment, k: nat)
    ensures forall a :: a in Attempts(env, k) ==> (a.Handshook? <==> OnLocalNetwork(a.peer))
  {
    if k > 0 {
      HandshakesAreLocal(env, k - 1);
      if env(k - 1).accept.Connected? {
        PolicyIsTheNetworks(env(k - 1).accept.peer);
      }
    }
  }

  // --- Windows -------------------------------------------------------------------------------

  // The flags a window's job shares with the state.
  datatype Job = Job(until: nat, stop: bool, running: bool)

  // Every job ever handed out, and the one the state holds a handle to.
  datatype Windows = Windows(listen: Option<nat>, jobs: seq<Job>)

  predicate Live(j: Job, now: nat) {
    j.running && !j.stop && now < j.until
  }

  predicate Listening(n: Windows, now: nat) {
    n.listen.Some? && n.listen.value < |n.jobs| && Live(n.jobs[n.listen.value], now)
  }

  function Closed(n: Windows): Windows {
    if n.listen.Some? && n.listen.value < |n.jobs|
    then Windows(None, n.jobs[n.listen.value := n.jobs[n.listen.value].(stop := true)])
    else n.(listen := None)
  }

  function Opened(n: Windows, window: nat, checkAt: nat, openAt: nat): Windows {
    if Listening(n, checkAt) then n
    else Windows(Some(|n.jobs|), n.jobs + [Job(openAt + window, false, true)])
  }

  function JobDropped(n: Windows, i: nat): Windows {
    if i < |n.jobs| then n.(jobs := n.jobs[i := n.jobs[i].(running := false)]) else n
  }

  class NearbyState {
    var listen: Option<nat>
    var jobs: seq<Job>

    function Value(): Windows
      reads this
    {
      Windows(listen, jobs)
    }

    ghost predicate Valid()
      reads this
    {
      listen.Some? ==> listen.value < |jobs|
    }

    constructor ()
      ensures Value() == Windows(None, []) && Valid()
    {
      listen, jobs := None, [];
    }

    method IsListening(now: nat) returns (open: bool)
      requires Valid()
      ensures open == Listening(Value(), now)
    {
      if listen.None? {
        return false;
      }
      var h := jobs[listen.value];
      return h.running && !h.stop && now < h.until;
    }

    method StopListening()
      requires Valid()
      modifies this
      ensures Valid() && Value() == Closed(old(Value()))
    {
      if listen.Some? {
        jobs := jobs[listen.value := jobs[listen.value].(stop := true)];
        listen := None;
      }
    }

    method Open(window: nat, checkAt: nat, openAt: nat) returns (job: Option<nat>)
      requires Valid()
      modifies this
      ensures Valid() && Value() == Opened(old(Value()), window, checkAt, openAt)
      ensures job == if Listening(old(Value()), checkAt) then None else Some(|old(jobs)|)
    {
      var open := IsListening(checkAt);
      if open {
        return None;
      }
      job := Some(|jobs|);
      jobs := jobs + [Job(openAt + window, false, true)];
      listen := job;
    }

    method DropJob(i: nat)
      requires Valid() && i < |jobs|
      modifies this
      ensures Valid() && Value() == JobDropped(old(Value()), i)
    {
      jobs := jobs[i := jobs[i].(running := false)];
    }
  }

  // --- At most one window is open ---------------------------------------------------------------

  // Opening reads the clock twice.
  datatype Event = Opens(window: nat, openAt: nat) | Stops | Drops(job: nat)

  datatype Timed = Timed(now: nat, event: Event)

  function Step(n: Windows, t: Timed): Windows {
    match t.event
    case Opens(window, openAt) => Opened(n, window, t.now, openAt)
    case Stops => Closed(n)
    case Drops(job) => JobDropped(n, job)
  }

  datatype Run = Run(states: seq<Windows>, events: seq<Timed>) {
    ghost predicate Follows(i: nat)
      requires i < |events| < |states|
    {
      && states[i + 1] == Step(states[i], events[i])
      && (events[i].event.Opens? ==> events[i].now <= events[i].event.openAt)
      && (i + 1 < |events| ==> events[i].now <= events[i + 1].now)
    }

    ghost predicate Valid() {
      && |states| == |events| + 1
      && states[0] == Windows(None, [])
      && forall i: nat | i < |events| :: Follows(i)
    }
  }

  // Only the job that the state still has a handle to can be open.
  ghost predicate OnlyHeld(n: Windows, now: nat) {
    && (n.listen.Some? ==> n.listen.value < |n.jobs| && !n.jobs[n.listen.value].stop)
    && forall i: nat | i < |n.jobs| :: Live(n.jobs[i], now) ==> n.listen == Some(i)
  }

  lemma StepKeepsHeld(n: Windows, t: Timed)
    requires OnlyHeld(n, t.now)
    ensures OnlyHeld(Step(n, t), t.now)
  {
  }

  // However windows are opened, closed, locked away, expired and dropped, two jobs are
  // never open at the same time.
  lemma {:induction false} OneOpenWindow(run: Run, k: nat, now: nat)
    requires run.Valid() && k <= |run.events| && (k > 0 ==> run.events[k - 1].now <= now)
    ensures OnlyHeld(run.states[k], now)
  {
    if k > 0 {
      assert run.Follows(k - 1);
      if k > 1 {
        assert run.Follows(k - 2);
      }
      OneOpenWindow(run, k - 1, run.events[k - 1].now);
      StepKeepsHeld(run.states[k - 1], run.events[k - 1]);
      LaterHeld(run.states[k], run.events[k - 1].now, now);
    }
  }

  lemma LaterHeld(n: Windows, now: nat, later: nat)
    requires OnlyHeld(n, now) && now <= later
    ensures OnlyHeld(n, later)
  {
  }

  // --- The daemon's summary of its windows ------------------------------------------------------

  function Summary(n: Windows): Option<Daemon.Listen> {
    if n.listen.Some? && n.listen.value < |n.jobs|
    then Some(Daemon.Listen(n.listen.value, n.jobs[n.listen.value].until, n.jobs[n.listen.value].running))
    else None
  }

  ghost predicate Represents(s: Daemon.State, n: Windows) {
    s.listen == Summary(n) && s.jobs == |n.jobs|
  }

  // The daemon's one held window, as the request handlers see it, is exact: it opens,
  // closes and ends with the shared flags behind it.
  lemma SummaryIsExact(s: Daemon.State, n: Windows, window: nat, w: Daemon.World, job: nat)
    requires Represents(s, n) && OnlyHeld(n, w.checkAt)
    ensures Daemon.Listening(s, w.checkAt) <==> Listening(n, w.checkAt)
    ensures Represents(Daemon.Locked(s), Closed(n))
    ensures s.session.Some? && w.accepted ==>
              Represents(Daemon.ListenOpened(s, window, w).0, Opened(n, window, w.checkAt, w.workAt))
    ensures job < s.jobs ==> Represents(Daemon.Step(s, Daemon.JobEnded(job)), JobDropped(n, job))
  {
  }
}
