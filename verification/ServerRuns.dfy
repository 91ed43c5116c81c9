/**
 Runs of the server seen as runs of the daemon, so that what holds of every daemon run
 holds of the connections that make it up.
 */
module ServerRuns {
  import opened Wrappers
  import opened Hex
  import opened Daemon
  import opened Server
  import D = DaemonRuns
  import L = DaemonLaws

  // --- The daemon's part of a server run ----------------------------------------------------

  // What an action is to the daemon, if anything.
  function EventOf(s: System, a: Action): Option<Event>
    requires Enabled(s, a)
  {
    match a
    case Accept(_) => None
    case HandleRequest(id, request, grant, world) =>
      Some(Requested(request, Context(s.connections[id].active, grant), world))
    case Flag(_) => None
    case Close(id) => if s.connections[id].active then Some(EndAgentSession) else None
    case Background(e) => Some(e)
  }

  lemma ActIsStep(s: System, a: Action)
    requires Enabled(s, a)
    ensures Act(s, a).daemon == if EventOf(s, a).Some? then Step(s.daemon, EventOf(s, a).value) else s.daemon
  {
  }

  function Extended(run: D.Run, e: Event): D.Run
    requires run.states != []
  {
    var s := run.states[|run.states| - 1];
    D.Run(run.states + [Step(s, e)], run.events + [e], run.answers + [if e.Requested? then D.AnswerOf(s, e) else Pong])
  }

  lemma ExtendedFollows(run: D.Run, e: Event, i: nat)
    requires run.Shaped() && i < |run.events| && run.Follows(i)
    ensures Extended(run, e).Follows(i)
  {
    var more := Extended(run, e);
    assert more.states[i] == run.states[i] && more.states[i + 1] == run.states[i + 1];
    assert more.events[i] == run.events[i] && more.answers[i] == run.answers[i];
  }

  lemma ExtendedLast(run: D.Run, e: Event)
    requires run.Shaped()
    ensures Extended(run, e).Follows(|run.events|)
  {
    var more, n := Extended(run, e), |run.events|;
    assert more.states[n] == run.states[n] && more.events[n] == e;
  }

  lemma ExtendedIsValid(run: D.Run, e: Event)
    requires run.Valid()
    ensures Extended(run, e).Valid()
  {
    forall i: nat | i < |run.events| + 1 ensures Extended(run, e).Follows(i) {
      if i < |run.events| {
        ExtendedFollows(run, e, i);
      } else {
        ExtendedLast(run, e);
      }
    }
    assert Extended(run, e).states[0] == run.states[0];
  }

  // The daemon's run during the first n actions.
  ghost function Projected(run: Run, n: nat): (p: D.Run)
    requires run.Valid() && n <= |run.actions|
    ensures p.states != []
  {
    if n == 0 then D.Run([run.states[0].daemon], [], []) else
    assert run.Follows(n - 1);
    var p, e := Projected(run, n - 1), EventOf(run.states[n - 1], run.actions[n - 1]);
    if e.Some? then Extended(p, e.value) else p
  }

  // It is a run of the daemon, and ends in the server's daemon.
  lemma {:induction false} ProjectedIsValid(run: Run, n: nat)
    requires run.Valid() && n <= |run.actions|
    ensures var p := Projected(run, n); p.Valid() && p.states[|p.events|] == run.states[n].daemon
  {
    if n > 0 {
      assert run.Follows(n - 1);
      ProjectedIsValid(run, n - 1);
      var s, a := run.states[n - 1], run.actions[n - 1];
      ActIsStep(s, a);
      if EventOf(s, a).Some? {
        ExtendedIsValid(Projected(run, n - 1), EventOf(s, a).value);
      }
    }
  }

  lemma {:induction false} ProjectedGrows(run: Run, i: nat, n: nat)
    requires run.Valid() && i <= n <= |run.actions|
    ensures var p, q := Projected(run, i), Projected(run, n);
            p.states <= q.states && p.events <= q.events && p.answers <= q.answers
  {
    if i < n {
      ProjectedGrows(run, i, n - 1);
      assert run.Follows(n - 1);
    }
  }

  // Action i is event number p of the daemon's run up to n.
  ghost predicate IsEvent(run: Run, n: nat, i: nat, p: nat)
    requires run.Valid() && i < n <= |run.actions|
  {
    var daemon := Projected(run, n);
    && Enabled(run.states[i], run.actions[i]) && p < |daemon.events| && |daemon.states| > p + 1
    && EventOf(run.states[i], run.actions[i]) == Some(daemon.events[p])
    && daemon.states[p] == run.states[i].daemon && daemon.states[p + 1] == run.states[i + 1].daemon
  }

  lemma ActionIsEvent(run: Run, n: nat, i: nat)
    requires run.Valid() && i < n <= |run.actions|
    requires Enabled(run.states[i], run.actions[i]) && EventOf(run.states[i], run.actions[i]).Some?
    ensures IsEvent(run, n, i, |Projected(run, i).events|)
  {
    assert run.Follows(i);
    ProjectedIsValid(run, i);
    ProjectedIsValid(run, i + 1);
    ProjectedIsValid(run, n);
    ProjectedGrows(run, i + 1, n);
    var p := |Projected(run, i).events|;
    var here := Projected(run, i + 1);
    assert here == Extended(Projected(run, i), EventOf(run.states[i], run.actions[i]).value);
    assert here.events[p] == Projected(run, n).events[p];
    assert here.states[p] == Projected(run, n).states[p] && here.states[p + 1] == Projected(run, n).states[p + 1];
  }

  lemma {:induction false} EventIsAction(run: Run, n: nat, p: nat) returns (i: nat)
    requires run.Valid() && n <= |run.actions| && p < |Projected(run, n).events|
    ensures i < n && IsEvent(run, n, i, p) && p == |Projected(run, i).events|
    decreases n
  {
    assert run.Follows(n - 1);
    if p < |Projected(run, n - 1).events| {
      i := EventIsAction(run, n - 1, p);
    } else {
      i := n - 1;
      ProjectedIsValid(run, n - 1);
    }
    ActionIsEvent(run, n, i);
  }

  // The daemon keeps its session through the actions that lie between two events.
  lemma SessionBetween(run: Run, i: nat, l: nat, n: nat, session: Option<nat>)
    requires run.Valid() && i <= l <= n < |run.actions|
    requires var daemon := Projected(run, n + 1); var p, q := |Projected(run, i).events|, |Projected(run, n).events|;
             q < |daemon.states| && forall k | p <= k <= q :: daemon.states[k].session == session
    ensures run.states[l].daemon.session == session
  {
    ProjectedIsValid(run, l);
    ProjectedGrows(run, i, l);
    ProjectedGrows(run, l, n);
    ProjectedGrows(run, l, n + 1);
  }

  // --- Who consented ----------------------------------------------------------------------------

  // A request handled on a connection, and what it was answered.
  ghost predicate Asks(run: Run, n: nat)
    requires run.Valid() && n < |run.actions|
  {
    run.actions[n].HandleRequest? && Enabled(run.states[n], run.actions[n])
  }

  function AnswerAt(s: System, a: Action): Response
    requires Enabled(s, a) && a.HandleRequest?
  {
    Handle(s.daemon, a.request, Context(s.connections[a.id].active, a.grant), a.world).1.response
  }

  lemma ReadingIsActive(s: System, a: Action)
    requires Enabled(s, a) && a.HandleRequest?
    ensures IsRegistered(s.connections[a.id]) <==> s.connections[a.id].active
  {
  }

  // While a registered connection is open on an unlocked daemon, a consent or change
  // request that is not refused came on a connection that has not registered; its grant
  // was earned by a right password on a connection that had not registered either, less
  // than the grant's lifetime ago and with no lock since.
  lemma ConsentCameFromElsewhere(run: Run, n: nat) returns (m: nat, g: Grant)
    requires run.Valid() && n < |run.actions| && Asks(run, n) && NeedsPresence(run.actions[n].request)
    requires run.states[n].daemon.session.Some? && Registered(run.states[n].connections) != {}
    requires var answer := AnswerAt(run.states[n], run.actions[n]); !answer.PresenceRequired? && !answer.WrongProfile?
    ensures !IsRegistered(run.states[n].connections[run.actions[n].id])
    ensures run.actions[n].grant.Some? && HexDecode(run.actions[n].grant.value) == Some(g.token)
    ensures m < n && MintsAt(run, m, g) && !IsRegistered(run.states[m].connections[run.actions[m].id])
    ensures run.actions[n].world.gateAt < run.actions[m].world.workAt + PRESENCE_GRANT_MS
    ensures forall l | m <= l <= n :: run.states[l].daemon.session == run.states[n].daemon.session
  {
    var q;
    m, q, g := ConsentTraced(run, n);
    ReadingIsActive(run.states[n], run.actions[n]);
    ReadingIsActive(run.states[m], run.actions[m]);
    forall l | m <= l <= n ensures run.states[l].daemon.session == run.states[n].daemon.session {
      SessionBetween(run, m, l, n, run.states[n].daemon.session);
    }
  }

  lemma AnswerRecorded(daemon: D.Run, q: nat)
    requires daemon.Valid() && q < |daemon.events| && daemon.events[q].Requested?
    ensures daemon.answers[q] == D.AnswerOf(daemon.states[q], daemon.events[q])
  {
    assert daemon.Follows(q);
  }

  lemma AnswerIsTheEvents(s: System, a: Action)
    requires Enabled(s, a) && a.HandleRequest?
    ensures EventOf(s, a).Some? && EventOf(s, a).value.Requested?
    ensures AnswerAt(s, a) == D.AnswerOf(s.daemon, EventOf(s, a).value)
  {
  }

  lemma AnswerOfAction(run: Run, n: nat, i: nat, p: nat)
    requires run.Valid() && i < n <= |run.actions| && Asks(run, i) && IsEvent(run, n, i, p)
    requires Projected(run, n).Valid()
    ensures Projected(run, n).answers[p] == AnswerAt(run.states[i], run.actions[i])
  {
    AnswerIsTheEvents(run.states[i], run.actions[i]);
    AnswerRecorded(Projected(run, n), p);
  }

  // The action that minted a grant.
  ghost predicate MintsAt(run: Run, m: nat, g: Grant)
    requires run.Valid() && m < |run.actions|
  {
    && Asks(run, m) && run.actions[m].request.ConfirmPresence? && run.actions[m].world.check.Right?
    && !run.states[m].connections[run.actions[m].id].active
    && AnswerAt(run.states[m], run.actions[m]) == PresenceGrant(HexEncode(g.token))
  }

  lemma MintingAction(run: Run, daemon: D.Run, n: nat, m: nat, q: nat, g: Grant)
    requires run.Valid() && m < n <= |run.actions| && IsEvent(run, n, m, q)
    requires daemon == Projected(run, n) && daemon.Valid() && q < |daemon.events|
    requires D.Mints(daemon.states[q], daemon.events[q], daemon.answers[q], g)
    ensures MintsAt(run, m, g) && daemon.events[q].world == run.actions[m].world
  {
    AnswerOfAction(run, n, m, q);
  }

  // An action that asks, as the last event of the daemon's run.
  lemma AskedEvent(run: Run, n: nat)
    requires run.Valid() && n < |run.actions| && Asks(run, n)
    ensures var daemon, p := Projected(run, n + 1), |Projected(run, n).events|;
            var s, a := run.states[n], run.actions[n];
            && daemon.Valid() && p < |daemon.events|
            && daemon.events[p] == Requested(a.request, Context(s.connections[a.id].active, a.grant), a.world)
            && daemon.states[p] == s.daemon && daemon.answers[p] == AnswerAt(s, a)
    ensures run.states[n].daemon.agentSessions == |Registered(run.states[n].connections)|
  {
    hide Handle, Step, Act, D.AnswerOf, Projected;
    ProjectedIsValid(run, n + 1);
    ActionIsEvent(run, n + 1, n);
    AnswerOfAction(run, n + 1, n, |Projected(run, n).events|);
    AgentSessionsAreConnections(run, n);
  }

  // The daemon's account of an action that passed the gate.
  lemma ConsentInDaemon(run: Run, daemon: D.Run, n: nat) returns (q: nat, g: Grant)
    requires run.Valid() && n < |run.actions| && Asks(run, n) && NeedsPresence(run.actions[n].request)
    requires run.states[n].daemon.session.Some? && Registered(run.states[n].connections) != {}
    requires var answer := AnswerAt(run.states[n], run.actions[n]); !answer.PresenceRequired? && !answer.WrongProfile?
    requires daemon == Projected(run, n + 1)
    ensures daemon.Valid() && q < |Projected(run, n).events| < |daemon.events|
    ensures D.Mints(daemon.states[q], daemon.events[q], daemon.answers[q], g)
    ensures !run.states[n].connections[run.actions[n].id].active
    ensures run.actions[n].grant.Some? && HexDecode(run.actions[n].grant.value) == Some(g.token)
    ensures run.actions[n].world.gateAt < daemon.events[q].world.workAt + PRESENCE_GRANT_MS
    ensures forall k | q <= k <= |Projected(run, n).events| :: daemon.states[k].session == run.states[n].daemon.session
  {
    AskedEvent(run, n);
    q, g := D.PresencePassed(daemon, |Projected(run, n).events|);
  }

  lemma ConsentTraced(run: Run, n: nat) returns (m: nat, q: nat, g: Grant)
    requires run.Valid() && n < |run.actions| && Asks(run, n) && NeedsPresence(run.actions[n].request)
    requires run.states[n].daemon.session.Some? && Registered(run.states[n].connections) != {}
    requires var answer := AnswerAt(run.states[n], run.actions[n]); !answer.PresenceRequired? && !answer.WrongProfile?
    ensures !run.states[n].connections[run.actions[n].id].active
    ensures run.actions[n].grant.Some? && HexDecode(run.actions[n].grant.value) == Some(g.token)
    ensures m < n && q == |Projected(run, m).events| && MintsAt(run, m, g)
    ensures run.actions[n].world.gateAt < run.actions[m].world.workAt + PRESENCE_GRANT_MS
    ensures var daemon, p := Projected(run, n + 1), |Projected(run, n).events|;
            p < |daemon.states| && forall k | q <= k <= p :: daemon.states[k].session == run.states[n].daemon.session
  {
    var daemon := Projected(run, n + 1);
    q, g := ConsentInDaemon(run, daemon, n);
    m := Earlier(run, n, q);
    MintingAction(run, daemon, n + 1, m, q, g);
  }

  lemma Earlier(run: Run, n: nat, q: nat) returns (m: nat)
    requires run.Valid() && n < |run.actions| && Asks(run, n) && q < |Projected(run, n).events|
    ensures m < n && q == |Projected(run, m).events| && IsEvent(run, n + 1, m, q)
  {
    ProjectedGrows(run, n, n + 1);
    m := EventIsAction(run, n + 1, q);
  }

  // Once registered, a connection stays so until it closes; so one that has not
  // registered never did.
  lemma {:induction false} RegisteredStays(run: Run, i: nat, j: nat, id: nat)
    requires run.Valid() && i <= j <= |run.actions| && forall k | i <= k <= j :: id in run.states[k].connections
    requires IsRegistered(run.states[i].connections[id])
    ensures IsRegistered(run.states[j].connections[id])
  {
    if i < j {
      RegisteredStays(run, i, j - 1, id);
      assert run.Follows(j - 1);
    }
  }

  // --- What a registered connection cannot do ---------------------------------------------------

  // Asked on a connection that has registered, whatever grant it shows.
  ghost predicate AgentAsks(run: Run, n: nat)
    requires run.Valid() && n < |run.actions|
  {
    Asks(run, n) && IsRegistered(run.states[n].connections[run.actions[n].id])
  }

  lemma AgentCounted(run: Run, n: nat)
    requires run.Valid() && n < |run.actions| && AgentAsks(run, n)
    ensures run.states[n].daemon.agentSessions > 0 && run.states[n].connections[run.actions[n].id].active
    ensures var (s, a) := (run.states[n], run.actions[n]);
            run.states[n + 1].daemon == Handle(s.daemon, a.request, Context(true, a.grant), a.world).0
  {
    AgentSessionsAreConnections(run, n);
    ReadingIsActive(run.states[n], run.actions[n]);
    assert run.actions[n].id in Registered(run.states[n].connections);
    assert run.Follows(n);
    hide Handle;
  }

  // In every run, nothing asked on a registered connection opens a fill, pairing or
  // nearby window; changes, trust and shares asked there are not done.
  lemma AgentGainsNothing(run: Run, n: nat)
    requires run.Valid() && n < |run.actions| && AgentAsks(run, n)
    ensures !L.OpensWindow(run.states[n].daemon, run.states[n + 1].daemon)
    ensures var r, answer := run.actions[n].request, AnswerAt(run.states[n], run.actions[n]);
            r == VaultCall(true) || r.TrustDevice? || r == NearbyConnect(true) ==>
              answer.PresenceRequired? || answer.IsLocked? || answer.WrongProfile? ||
              (r.TrustDevice? && run.states[n].daemon.session.None? && answer.UsageError?)
  {
    AgentCounted(run, n);
    var a := run.actions[n];
    L.AgentOpensNoWindow(run.states[n].daemon, a.request, Context(true, a.grant), a.world);
    if a.request == VaultCall(true) || a.request.TrustDevice? || a.request == NearbyConnect(true) {
      L.AgentRefused(run.states[n].daemon, a.request, Context(true, a.grant), a.world);
    }
    hide Handle;
  }

  // The status reply says whether a registered connection is open.
  lemma StatusTellsConnections(run: Run, n: nat)
    requires run.Valid() && n < |run.actions| && Asks(run, n)
    requires run.actions[n].request.Status? && run.actions[n].world.sameProfile
    ensures var answer := AnswerAt(run.states[n], run.actions[n]);
            answer.StatusReply? && (answer.agentSession <==> Registered(run.states[n].connections) != {})
  {
    AgentSessionsAreConnections(run, n);
    var a := run.actions[n];
    var c := Context(run.states[n].connections[a.id].active, a.grant);
    L.StatusIsTrue(run.states[n].daemon, a.request.keepalive, c, a.world);
    hide Handle;
  }
}
