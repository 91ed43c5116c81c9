/**
 The server around the engine: worker threads that take the mutex one request at a
 time, the guard that ends a connection's agent session, and the reaper.
 */
module Server {
  import opened Wrappers
  import opened Daemon
  import opened Engine

  // --- Interleaved workers ----------------------------------------------------------

  // A worker is reading from its client, or has handled a request and not yet
  // looked at what the engine told it about agent sessions.
  datatype Phase = Reading | Answering(began: bool)

  datatype Connection = Connection(active: bool, phase: Phase)

  datatype System = System(daemon: State, connections: map<nat, Connection>)

  datatype Action =
    | Accept(id: nat)
    | HandleRequest(id: nat, request: Request, grant: Option<string>, world: World)
    | Flag(id: nat)
    | Close(id: nat)
    | Background(event: Event)  // a reaper tick or an ended listen job

  predicate Enabled(s: System, a: Action) {
    match a
    case Accept(id) => id !in s.connections
    case HandleRequest(id, _, _, _) => id in s.connections && s.connections[id].phase.Reading?
    case Flag(id) => id in s.connections && s.connections[id].phase.Answering?
    case Close(id) => id in s.connections && s.connections[id].phase.Reading?
    case Background(e) => e.Reap? || e.JobEnded?
  }

  // The engine is told whether the connection is already flagged; the guard's drop
  // ends the agent session only of a flagged connection.
  function Act(s: System, a: Action): System
    requires Enabled(s, a)
  {
    match a
    case Accept(id) => s.(connections := s.connections[id := Connection(false, Reading)])
    case HandleRequest(id, request, grant, world) =>
      var c := s.connections[id];
      var (daemon, handled) := Handle(s.daemon, request, Context(c.active, grant), world);
      System(daemon, s.connections[id := c.(phase := Answering(handled.beganAgentSession))])
    case Flag(id) =>
      var c := s.connections[id];
      s.(connections := s.connections[id := Connection(c.active || c.phase.began, Reading)])
    case Close(id) =>
      System(if s.connections[id].active then EndedAgentSession(s.daemon) else s.daemon, s.connections - {id})
    case Background(e) => s.(daemon := Step(s.daemon, e))
  }

  // The open connections whose registration the engine has accepted.
  function Registered(connections: map<nat, Connection>): set<nat> {
    set id | id in connections && (connections[id].active || connections[id].phase == Answering(true))
  }

  ghost predicate CountsMatch(s: System) {
    s.daemon.agentSessions == |Registered(s.connections)|
  }

  lemma ServedAgentSessions(s: State, r: Request, c: Context, w: World)
    requires !r.Ping? && !r.Shutdown?
    ensures Served(s, r, c, w).0.agentSessions ==
              s.agentSessions + if r.BeginAgentSession? && !c.agentConnection then 1 else 0
  {
  }

  // Only an accepted registration on a connection not yet flagged raises the count.
  lemma HandleAgentSessions(s: State, r: Request, c: Context, w: World)
    ensures Handle(s, r, c, w).0.agentSessions ==
              s.agentSessions + if Handle(s, r, c, w).1.beganAgentSession && !c.agentConnection then 1 else 0
  {
    if !r.Ping? && !r.Shutdown? {
      ServedAgentSessions(Gated(Swept(s, w.sweepAt), r, c, w).0, r, c, w);
    }
  }

  lemma RegisteredUpdate(connections: map<nat, Connection>, id: nat, c: Connection)
    requires id in connections || !(c.active || c.phase == Answering(true))
    ensures var before, after := Registered(connections), Registered(connections[id := c]);
            after == if c.active || c.phase == Answering(true) then before + {id} else before - {id}
  {
  }

  lemma RegisteredRemove(connections: map<nat, Connection>, id: nat)
    ensures Registered(connections - {id}) == Registered(connections) - {id}
  {
  }

  lemma HandleKeepsCounts(s: System, a: Action)
    requires Enabled(s, a) && CountsMatch(s) && a.HandleRequest?
    ensures CountsMatch(Act(s, a))
  {
    var c := s.connections[a.id];
    HandleAgentSessions(s.daemon, a.request, Context(c.active, a.grant), a.world);
    SetChanged(s.connections, a.id, Act(s, a).connections[a.id]);
  }

  lemma FlagKeepsCounts(s: System, a: Action)
    requires Enabled(s, a) && CountsMatch(s) && a.Flag?
    ensures CountsMatch(Act(s, a))
  {
    SetChanged(s.connections, a.id, Act(s, a).connections[a.id]);
  }

  lemma CloseKeepsCounts(s: System, a: Action)
    requires Enabled(s, a) && CountsMatch(s) && a.Close?
    ensures CountsMatch(Act(s, a)) && !Saturates(s, a)
  {
    var before := Registered(s.connections);
    RegisteredRemove(s.connections, a.id);
    assert a.id in before <==> s.connections[a.id].active;
    assert a.id !in before ==> before - {a.id} == before;
  }

  predicate IsRegistered(c: Connection) {
    c.active || c.phase == Answering(true)
  }

  // How one connection's new standing changes the number of registered ones.
  lemma SetChanged(connections: map<nat, Connection>, id: nat, c: Connection)
    requires id in connections
    ensures |Registered(connections[id := c])| == |Registered(connections)|
              + (if IsRegistered(c) then 1 else 0) - (if IsRegistered(connections[id]) then 1 else 0)
  {
    var before := Registered(connections);
    RegisteredUpdate(connections, id, c);
    assert id in before ==> before + {id} == before;
    assert id !in before ==> before - {id} == before;
  }

  lemma ActKeepsCounts(s: System, a: Action)
    requires Enabled(s, a) && CountsMatch(s)
    ensures CountsMatch(Act(s, a)) && !Saturates(s, a)
  {
    match a
    case Accept(id) =>
      RegisteredUpdate(s.connections, id, Connection(false, Reading));
      assert Registered(s.connections) - {id} == Registered(s.connections);
    case HandleRequest(_, _, _, _) => HandleKeepsCounts(s, a);
    case Flag(_) => FlagKeepsCounts(s, a);
    case Close(_) => CloseKeepsCounts(s, a);
    case Background(e) =>
  }

  // A closing connection that would decrement a count of zero.
  predicate Saturates(s: System, a: Action) {
    Enabled(s, a) && a.Close? && s.connections[a.id].active && s.daemon.agentSessions == 0
  }

  // A registration that the engine accepts.
  predicate Registers(a: Action, id: nat) {
    a.HandleRequest? && a.id == id && a.request.BeginAgentSession? && a.world.sameProfile
  }

  // Which connections are open, and which of them have registered, before the worker has
  // seen the engine's answer as well as after.
  lemma ConnectionsFollow(s: System, a: Action, id: nat)
    requires Enabled(s, a)
    ensures id in Act(s, a).connections <==> a == Accept(id) || (id in s.connections && a != Close(id))
    ensures id in Act(s, a).connections ==>
              (IsRegistered(Act(s, a).connections[id]) <==>
                 Registers(a, id) || (id in s.connections && IsRegistered(s.connections[id])))
    ensures a.Flag? && id == a.id && IsRegistered(s.connections[id]) ==> Act(s, a).connections[id].active
  {
    if a.HandleRequest? {
      RegistrationTold(s.daemon, a.request, Context(s.connections[a.id].active, a.grant), a.world);
    }
    hide Handle;
  }

  lemma RegistrationTold(s: State, r: Request, c: Context, w: World)
    ensures Handle(s, r, c, w).1.beganAgentSession <==> r.BeginAgentSession? && w.sameProfile
  {
    hide Served, Swept;
  }

  // Workers wait for nobody: a new client may come, one that has been read from may ask
  // anything or leave, one that was answered is read from again, and the reaper and an
  // ended listen job may come at any time.
  lemma NobodyWaits(s: System, id: nat, request: Request, grant: Option<string>, w: World, at: Instant, job: nat)
    ensures Enabled(s, Background(Reap(at))) && Enabled(s, Background(JobEnded(job)))
    ensures id !in s.connections ==>
              && Enabled(s, Accept(id))
              && Enabled(Act(s, Accept(id)), HandleRequest(id, request, grant, w))
    ensures id in s.connections && s.connections[id].phase.Reading? ==>
              && Enabled(s, Close(id)) && Enabled(s, HandleRequest(id, request, grant, w))
              && Enabled(Act(s, HandleRequest(id, request, grant, w)), Flag(id))
    ensures id in s.connections && s.connections[id].phase.Answering? ==>
              Enabled(s, Flag(id)) && Enabled(Act(s, Flag(id)), HandleRequest(id, request, grant, w))
  {
    hide Handle;
  }

  datatype Run = Run(states: seq<System>, actions: seq<Action>) {
    ghost predicate Follows(i: nat)
      requires i < |actions| < |states|
    {
      Enabled(states[i], actions[i]) && states[i + 1] == Act(states[i], actions[i])
    }

    ghost predicate Valid() {
      && |states| == |actions| + 1
      && states[0] == System(Fresh(states[0].daemon.autolock, states[0].daemon.lastActivity), map[])
      && forall i: nat | i < |actions| :: Follows(i)
    }
  }

  // In every interleaving of workers the daemon counts exactly the open connections
  // that registered, once each, and the decrement of a closing one never saturates.
  lemma {:induction false} AgentSessionsAreConnections(run: Run, n: nat)
    requires run.Valid() && n <= |run.actions|
    ensures CountsMatch(run.states[n])
    ensures n < |run.actions| ==> !Saturates(run.states[n], run.actions[n])
  {
    if n > 0 {
      AgentSessionsAreConnections(run, n - 1);
      assert run.Follows(n - 1);
      ActKeepsCounts(run.states[n - 1], run.actions[n - 1]);
    } else {
      assert Registered(map[]) == {};
    }
    if n < |run.actions| {
      assert run.Follows(n);
      ActKeepsCounts(run.states[n], run.actions[n]);
    }
  }

  // While any registered connection is open on an unlocked daemon, a consent or
  // change request without a live grant is refused on every connection, and on
  // the registered one with any grant at all; once none is open, none is.
  lemma GateFollowsConnections(run: Run, n: nat, request: Request, c: Context, w: World)
    requires run.Valid() && n <= |run.actions|
    requires NeedsPresence(request) && w.sameProfile
    ensures var s := run.states[n];
            var live := LiveGrants(s.daemon.grants, w.gateAt);
            Handle(s.daemon, request, c, w).1.response.PresenceRequired? <==>
              s.daemon.session.Some? && Registered(s.connections) != {}
              && (c.agentConnection || !Granted(live, c.presenceGrant))
  {
    AgentSessionsAreConnections(run, n);
    var d := run.states[n].daemon;
    var (gated, refused) := Gated(Swept(d, w.sweepAt), request, c, w);
    if !refused {
      ServedNeverRefuses(gated, request, c, w);
    }
  }

  lemma ServedNeverRefuses(s: State, r: Request, c: Context, w: World)
    requires !r.Ping? && !r.Shutdown?
    ensures !Served(s, r, c, w).1.PresenceRequired?
  {
  }

  // --- One worker on the live state ------------------------------------------------------

  datatype Incoming =
    | Frame(request: Request, grant: Option<string>, world: World, written: bool)
    | Unparseable(written: bool)
    | TransportError

  // What a worker writes for one frame.
  datatype Reply = Answer(response: Response) | NotUnderstood

  function Ended(s: State, active: bool): State {
    if active then EndedAgentSession(s) else s
  }

  // What one frame does: the daemon, the connection's flag, what is written, and
  // whether the connection goes on.
  datatype Turn = Turn(daemon: State, active: bool, replies: seq<Reply>, connected: bool)

  function TakeFrame(s: State, active: bool, i: Incoming): Turn {
    match i
    case TransportError => Turn(s, active, [], false)
    case Unparseable(written) => Turn(s, active, [NotUnderstood], written)
    case Frame(request, grant, world, written) =>
      var (t, handled) := Handle(s, request, Context(active, grant), world);
      Turn(t, active || handled.beganAgentSession, [Answer(handled.response)], written && !handled.shutdown)
  }

  // The connection ends when the frames run out (a clean close), at a transport
  // error, when a reply cannot be written, or after a shutdown; then the guard
  // ends an agent session that the connection holds.
  function Worked(s: State, active: bool, incoming: seq<Incoming>): (State, seq<Reply>)
    decreases |incoming|
  {
    if incoming == [] then (Ended(s, active), []) else
    var t := TakeFrame(s, active, incoming[0]);
    if !t.connected then (Ended(t.daemon, t.active), t.replies) else
    var (u, replies) := Worked(t.daemon, t.active, incoming[1..]);
    (u, t.replies + replies)
  }

  method ServeFrame(state: LiveState, active: bool, i: Incoming)
    returns (flagged: bool, replies: seq<Reply>, connected: bool)
    modifies state
    ensures Turn(state.Value(), flagged, replies, connected) == TakeFrame(old(state.Value()), active, i)
  {
    flagged := active;
    match i
    case TransportError =>
      replies, connected := [], false;
    case Unparseable(written) =>
      replies, connected := [NotUnderstood], written;
    case Frame(request, grant, world, written) =>
      var handled := state.HandleWith(request, Context(active, grant), world);
      if handled.beganAgentSession && !active {
        flagged := true;
      }
      replies, connected := [Answer(handled.response)], written && !handled.shutdown;
  }

  method ServeConnection(state: LiveState, incoming: seq<Incoming>) returns (replies: seq<Reply>)
    modifies state
    ensures (state.Value(), replies) == Worked(old(state.Value()), false, incoming)
  {
    var active, connected := false, true;
    var rest := incoming;
    replies := [];
    ghost var all := Worked(state.Value(), false, incoming);
    while connected && rest != []
      invariant !connected ==> all == (Ended(state.Value(), active), replies)
      invariant connected ==> all.0 == Worked(state.Value(), active, rest).0
      invariant connected ==> all.1 == replies + Worked(state.Value(), active, rest).1
      decreases |rest|
    {
      var written;
      active, written, connected := ServeFrame(state, active, rest[0]);
      replies := replies + written;
      rest := rest[1..];
    }
    if active {
      state.EndAgentSession();
    }
    assert replies + [] == replies;
  }

  // However the connection ends, it leaves the agent-session count as it was, and
  // it has answered every frame it took, in order, until it stopped.
  lemma {:induction false} WorkedBalances(s: State, active: bool, incoming: seq<Incoming>)
    requires active ==> s.agentSessions > 0
    ensures var (t, replies) := Worked(s, active, incoming);
            && t.agentSessions == s.agentSessions - (if active then 1 else 0)
            && |replies| <= |incoming|
            && forall i | 0 <= i < |replies| ::
                 !incoming[i].TransportError? && (replies[i].NotUnderstood? <==> incoming[i].Unparseable?)
    decreases |incoming|
  {
    if incoming != [] {
      TurnBalances(s, active, incoming[0]);
      var t := TakeFrame(s, active, incoming[0]);
      if t.connected {
        WorkedBalances(t.daemon, t.active, incoming[1..]);
      }
    }
  }

  lemma TurnBalances(s: State, active: bool, i: Incoming)
    requires active ==> s.agentSessions > 0
    ensures var t := TakeFrame(s, active, i);
            && t.daemon.agentSessions - (if t.active then 1 else 0) == s.agentSessions - (if active then 1 else 0)
            && (t.active ==> t.daemon.agentSessions > 0)
            && (t.connected ==> |t.replies| == 1)
            && (if i.TransportError? then t.replies == [] && !t.connected
                else |t.replies| == 1 && (t.replies[0].NotUnderstood? <==> i.Unparseable?))
  {
    if i.Frame? {
      HandleAgentSessions(s, i.request, Context(active, i.grant), i.world);
    }
  }

  // The worker reads on: the reply went out and was not to a shutdown.
  predicate ReadsOn(i: Incoming) {
    !i.TransportError? && i.written && !(i.Frame? && i.request.Shutdown?)
  }

  // The daemon and the connection's flag when a worker takes frame k, if it gets there.
  function BeforeFrame(s: State, active: bool, incoming: seq<Incoming>, k: nat): (State, bool)
    requires k <= |incoming|
    decreases k
  {
    if k == 0 then (s, active)
    else if !incoming[0].Frame? then BeforeFrame(s, active, incoming[1..], k - 1)
    else
      var (t, handled) := Handle(s, incoming[0].request, Context(active, incoming[0].grant), incoming[0].world);
      BeforeFrame(t, active || handled.beganAgentSession, incoming[1..], k - 1)
  }

  // What is due for frame k: the daemon's own answer to it, given the connection's flag.
  function Due(s: State, active: bool, incoming: seq<Incoming>, k: nat): Reply
    requires k < |incoming|
  {
    var (t, flag) := BeforeFrame(s, active, incoming, k);
    match incoming[k]
    case Frame(request, grant, world, _) => Answer(Handle(t, request, Context(flag, grant), world).1.response)
    case _ => NotUnderstood
  }

  // These are the daemon's own answers to the frames, in order, up to the first transport
  // error, lost reply or shutdown, with nothing after it, and the agent session then over.
  ghost predicate AnsweredAs(s: State, active: bool, incoming: seq<Incoming>, replies: seq<Reply>, t: State) {
    var n := |replies|;
    && n <= |incoming|
    && (forall k: nat | k < n :: replies[k] == Due(s, active, incoming, k) && !incoming[k].TransportError?)
    && (forall k: nat | k + 1 < n :: ReadsOn(incoming[k]))
    && (n < |incoming| ==> incoming[n].TransportError? || (n > 0 && !ReadsOn(incoming[n - 1])))
    && var (u, flag) := BeforeFrame(s, active, incoming, n);
       t == if flag then EndedAgentSession(u) else u
  }

  // A connection gets the daemon's own answer to each frame it takes and stops where it
  // must; then, and only then or when the frames run out, its agent session ends.
  lemma {:induction false} WorkedAnswers(s: State, active: bool, incoming: seq<Incoming>)
    ensures var (t, replies) := Worked(s, active, incoming); AnsweredAs(s, active, incoming, replies, t)
    decreases |incoming|
  {
    if incoming != [] {
      var turn, rest := TakeFrame(s, active, incoming[0]), incoming[1..];
      TurnConnected(s, active, incoming[0]);
      if turn.connected {
        var (t, replies) := Worked(turn.daemon, turn.active, rest);
        WorkedAnswers(turn.daemon, turn.active, rest);
        AnswersPrepended(s, active, incoming, replies, t);
      } else {
        TurnStops(s, active, incoming);
      }
      hide Handle, AnsweredAs;
    }
  }

  lemma TurnStops(s: State, active: bool, incoming: seq<Incoming>)
    requires incoming != [] && !ReadsOn(incoming[0])
    ensures var turn := TakeFrame(s, active, incoming[0]);
            AnsweredAs(s, active, incoming, turn.replies, Ended(turn.daemon, turn.active))
  {
    hide Handle;
  }

  lemma AnswersPrepended(s: State, active: bool, incoming: seq<Incoming>, replies: seq<Reply>, t: State)
    requires incoming != [] && ReadsOn(incoming[0])
    requires var turn := TakeFrame(s, active, incoming[0]);
             AnsweredAs(turn.daemon, turn.active, incoming[1..], replies, t)
    ensures AnsweredAs(s, active, incoming, TakeFrame(s, active, incoming[0]).replies + replies, t)
  {
    hide Handle;
    var turn, rest := TakeFrame(s, active, incoming[0]), incoming[1..];
    forall k: nat | k <= |rest|
      ensures BeforeFrame(s, active, incoming, k + 1) == BeforeFrame(turn.daemon, turn.active, rest, k)
    {
    }
    forall k: nat | k < |replies| ensures Due(s, active, incoming, k + 1) == replies[k] {
      assert replies[k] == Due(turn.daemon, turn.active, rest, k) && rest[k] == incoming[k + 1];
    }
    var all := turn.replies + replies;
    assert |turn.replies| == 1 && forall k: nat | 0 < k < |all| :: all[k] == replies[k - 1];
    assert forall k: nat | 0 < k < |incoming| :: incoming[k] == rest[k - 1];
  }

  lemma TurnConnected(s: State, active: bool, i: Incoming)
    ensures TakeFrame(s, active, i).connected <==> ReadsOn(i)
    ensures |TakeFrame(s, active, i).replies| == if i.TransportError? then 0 else 1
  {
    hide Served, Gated, Swept;
  }
}
