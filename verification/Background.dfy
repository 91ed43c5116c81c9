/**
 The extension's native-messaging bridge: replies carry no id, so they are matched
 to requests first in, first out, a timed-out request staying in the queue as a
 tombstone. `Environment` is the browser and the hosts behind the ports.
 */
module Background {
  import opened Wrappers

  // --- The bridge -------------------------------------------------------------------

  // `pending` has the ids whose promise is open; `inflight` the ids sent, oldest
  // first, that no reply has been matched to.
  datatype Bridge = Bridge(port: Option<nat>, nextId: nat, pending: set<nat>, inflight: seq<nat>)

  // A reply names the request that the host was answering.
  datatype Outcome = Resolved(answers: nat) | Unavailable | TimedOut

  datatype Settlement = Settlement(id: nat, outcome: Outcome)

  function Initial(): Bridge {
    Bridge(None, 1, {}, [])
  }

  // A request whose port is live or was just connected as `newPort`.
  function Sent(b: Bridge, newPort: nat, posted: bool): (Bridge, seq<Settlement>) {
    var port := if b.port.Some? then b.port.value else newPort;
    var id := b.nextId;
    if posted
    then (Bridge(Some(port), id + 1, b.pending + {id}, b.inflight + [id]), [])
    else (b.(port := None, nextId := id + 1), [Settlement(id, Unavailable)])
  }

  function Received(b: Bridge, answers: nat): (Bridge, seq<Settlement>) {
    if b.inflight == [] then (b, []) else
    var id := b.inflight[0];
    var shifted := b.(inflight := b.inflight[1..]);
    if id in b.pending
    then (shifted.(pending := b.pending - {id}), [Settlement(id, Resolved(answers))])
    else (shifted, [])
  }

  function Expired(b: Bridge, id: nat): (Bridge, seq<Settlement>) {
    if id in b.pending then (b.(pending := b.pending - {id}), [Settlement(id, TimedOut)]) else (b, [])
  }

  function Rejections(ids: seq<nat>, pending: set<nat>): seq<Settlement> {
    if ids == [] then [] else
    var front, id := ids[..|ids| - 1], ids[|ids| - 1];
    Rejections(front, pending) + if id in pending && id !in front then [Settlement(id, Unavailable)] else []
  }

  function Disconnected(b: Bridge): (Bridge, seq<Settlement>) {
    (Bridge(None, b.nextId, b.pending - set id | id in b.inflight, []), Rejections(b.inflight, b.pending))
  }

  // --- The listeners as they run --------------------------------------------------------

  class LiveBridge {
    var port: Option<nat>
    var nextId: nat
    var pending: set<nat>
    var inflight: seq<nat>

    function Value(): Bridge
      reads this
    {
      Bridge(port, nextId, pending, inflight)
    }

    constructor ()
      ensures Value() == Initial() && Valid()
    {
      port, nextId, pending, inflight := None, 1, {}, [];
    }

    // Every id in the queue or the map has been issued.
    ghost predicate Valid()
      reads this
    {
      && (forall i | 0 <= i < |inflight| :: inflight[i] < nextId)
      && forall id :: id in pending ==> id < nextId
    }

    // connectNative gives `newPort`; postMessage throws unless `posted`.
    method HostRequest(newPort: nat, posted: bool) returns (out: seq<Settlement>)
      requires Valid()
      modifies this
      ensures Valid()
      ensures (Value(), out) == Sent(old(Value()), newPort, posted)
    {
      if port.None? {
        port := Some(newPort);
      }
      var id := nextId;
      nextId := nextId + 1;
      pending := pending + {id};
      inflight := inflight + [id];
      out := [];
      if !posted {
        pending := pending - {id};
        var idx := IndexOf(inflight, id);
        assert inflight[|old(inflight)|] == id;
        assert forall k | 0 <= k < |old(inflight)| :: inflight[k] == old(inflight)[k];
        assert idx == |old(inflight)|;
        assert pending == old(pending) && inflight[..idx] + inflight[idx + 1..] == old(inflight);
        inflight := inflight[..idx] + inflight[idx + 1..];
        port := None;
        out := [Settlement(id, Unavailable)];
      }
    }

    method OnMessage(answers: nat) returns (out: seq<Settlement>)
      requires Valid()
      modifies this
      ensures Valid()
      ensures (Value(), out) == Received(old(Value()), answers)
    {
      if inflight == [] {
        return [];
      }
      var id := inflight[0];
      inflight := inflight[1..];
      if id !in pending {
        return [];
      }
      pending := pending - {id};
      out := [Settlement(id, Resolved(answers))];
    }

    method OnTimeout(id: nat) returns (out: seq<Settlement>)
      requires Valid()
      modifies this
      ensures Valid()
      ensures (Value(), out) == Expired(old(Value()), id)
    {
      out := [];
      if id in pending {
        pending := pending - {id};
        out := [Settlement(id, TimedOut)];
      }
    }

    method OnDisconnect() returns (out: seq<Settlement>)
      requires Valid()
      modifies this
      ensures Valid()
      ensures (Value(), out) == Disconnected(old(Value()))
    {
      port := None;
      var ids := inflight;
      inflight := [];
      out := [];
      for i := 0 to |ids|
        invariant port == None && nextId == old(nextId) && inflight == []
        invariant pending == old(pending) - set id | id in ids[..i]
        invariant out == Rejections(ids[..i], old(pending))
      {
        assert ids[..i + 1][..i] == ids[..i] && ids[..i + 1] == ids[..i] + [ids[i]];
        if ids[i] in pending {
          pending := pending - {ids[i]};
          out := out + [Settlement(ids[i], Unavailable)];
        }
      }
      assert ids[..|ids|] == ids;
    }
  }

  method IndexOf(s: seq<nat>, x: nat) returns (i: nat)
    requires x in s
    ensures i < |s| && s[i] == x && x !in s[..i]
  {
    i := 0;
    while s[i] != x
      invariant i < |s| && x !in s[..i] && x in s[i..]
      decreases |s| - i
    {
      i := i + 1;
    }
  }

  // --- The browser and the hosts --------------------------------------------------------------

  // Every port whose disconnect listener has not run yet, with the requests posted
  // to its host and not answered, oldest first; and all settlements so far.
  datatype Environment = Environment(bridge: Bridge, ports: map<nat, seq<nat>>, nextPort: nat, log: seq<Settlement>)

  datatype Event =
    | NoHost                  // connectNative throws: the promise is rejected, nothing changes
    | Send(posted: bool)
    | Reply(port: nat)        // a host answers its oldest request
    | Timeout(id: nat)
    | Disconnect(port: nat)   // a dead port's listener runs

  predicate Enabled(e: Environment, v: Event) {
    match v
    case NoHost => e.bridge.port.None?
    case Send(_) => true
    case Reply(port) => port in e.ports && e.ports[port] != []
    case Timeout(_) => true
    case Disconnect(port) => port in e.ports
  }

  function Start(): Environment {
    Environment(Initial(), map[], 0, [])
  }

  function Logged(e: Environment, r: (Bridge, seq<Settlement>)): Environment {
    e.(bridge := r.0, log := e.log + r.1)
  }

  function Next(e: Environment, v: Event): Environment
    requires Enabled(e, v)
  {
    match v
    case NoHost => e
    case Send(posted) =>
      var connected :=
        if e.bridge.port.Some? then e else e.(ports := e.ports[e.nextPort := []], nextPort := e.nextPort + 1);
      var port := if e.bridge.port.Some? then e.bridge.port.value else e.nextPort;
      var queue := if port in connected.ports then connected.ports[port] else [];
      var delivered :=
        if posted then connected.(ports := connected.ports[port := queue + [e.bridge.nextId]]) else connected;
      Logged(delivered, Sent(e.bridge, e.nextPort, posted))
    case Reply(port) =>
      Logged(e.(ports := e.ports[port := e.ports[port][1..]]), Received(e.bridge, e.ports[port][0]))
    case Timeout(id) => Logged(e, Expired(e.bridge, id))
    case Disconnect(port) => Logged(e.(ports := e.ports - {port}), Disconnected(e.bridge))
  }

  datatype Run = Run(states: seq<Environment>, events: seq<Event>) {
    ghost predicate Follows(i: nat)
      requires i < |events| < |states|
    {
      Enabled(states[i], events[i]) && states[i + 1] == Next(states[i], events[i])
    }

    ghost predicate From(e: Environment) {
      && |states| == |events| + 1
      && states[0] == e
      && forall i: nat | i < |events| :: Follows(i)
    }

    ghost predicate Valid() {
      From(Start())
    }
  }

  // --- Every run: no promise is lost and none settles twice ------------------------------------------

  function Ids(log: seq<Settlement>): seq<nat> {
    seq(|log|, i requires 0 <= i < |log| => log[i].id)
  }

  ghost predicate Distinct(s: seq<nat>) {
    forall i, j | 0 <= i < j < |s| :: s[i] != s[j]
  }

  ghost predicate Accounted(e: Environment) {
    && 1 <= e.bridge.nextId
    && Distinct(Ids(e.log))
    && (forall id :: id in e.bridge.pending ==> id !in Ids(e.log))
    && (forall id: nat :: 1 <= id < e.bridge.nextId <==> id in e.bridge.pending || id in Ids(e.log))
    && (forall id :: id in e.bridge.pending ==> id in e.bridge.inflight)
    && (forall i | 0 <= i < |e.bridge.inflight| :: 1 <= e.bridge.inflight[i] < e.bridge.nextId)
    && (forall p :: p in e.ports ==> p < e.nextPort)
    && (e.bridge.port.Some? ==> e.bridge.port.value in e.ports)
  }

  lemma IdsConcat(a: seq<Settlement>, b: seq<Settlement>)
    ensures Ids(a + b) == Ids(a) + Ids(b)
  {
  }

  lemma {:induction false} RejectionsExact(ids: seq<nat>, pending: set<nat>)
    ensures Distinct(Ids(Rejections(ids, pending)))
    ensures forall id :: id in Ids(Rejections(ids, pending)) <==> id in pending && id in ids
    ensures forall r :: r in Rejections(ids, pending) ==> r.outcome == Unavailable
  {
    if ids != [] {
      var front, id := ids[..|ids| - 1], ids[|ids| - 1];
      RejectionsExact(front, pending);
      assert ids == front + [id];
      var last := if id in pending && id !in front then [Settlement(id, Unavailable)] else [];
      IdsConcat(Rejections(front, pending), last);
      assert Ids(Rejections(ids, pending)) == Ids(Rejections(front, pending)) + Ids(last);
      assert last != [] ==> Ids(last) == [id];
    }
  }

  // One more settlement, of an open or a just issued promise.
  lemma LogOne(log: seq<Settlement>, r: Settlement)
    requires Distinct(Ids(log)) && r.id !in Ids(log)
    ensures Distinct(Ids(log + [r]))
    ensures forall id :: id in Ids(log + [r]) <==> id in Ids(log) || id == r.id
  {
    IdsConcat(log, [r]);
    var before, after := Ids(log), Ids(log + [r]);
    assert Ids([r]) == [r.id];
    assert after == before + [r.id];
    assert forall i | 0 <= i < |before| :: after[i] == before[i] && before[i] in before;
    assert after[|before|] == r.id;
  }

  lemma LogMany(log: seq<Settlement>, more: seq<Settlement>)
    requires Distinct(Ids(log)) && Distinct(Ids(more)) && forall id :: id in Ids(more) ==> id !in Ids(log)
    ensures Distinct(Ids(log + more))
    ensures forall id :: id in Ids(log + more) <==> id in Ids(log) || id in Ids(more)
  {
    IdsConcat(log, more);
    var before, between, after := Ids(log), Ids(more), Ids(log + more);
    assert forall i | 0 <= i < |before| :: after[i] == before[i] && before[i] in before;
    assert forall i | |before| <= i < |after| :: after[i] == between[i - |before|] && after[i] in between;
  }

  lemma SendAccounts(e: Environment, posted: bool)
    requires Accounted(e)
    ensures Accounted(Next(e, Send(posted)))
  {
    var next := Next(e, Send(posted));
    if posted {
      assert next.log == e.log;
      assert next.bridge.inflight[|e.bridge.inflight|] == e.bridge.nextId;
      forall id | id in next.bridge.pending ensures id in next.bridge.inflight {
        if id != e.bridge.nextId {
          var k :| 0 <= k < |e.bridge.inflight| && e.bridge.inflight[k] == id;
          assert next.bridge.inflight[k] == id;
        }
      }
    } else {
      LogOne(e.log, Settlement(e.bridge.nextId, Unavailable));
      assert next.log == e.log + [Settlement(e.bridge.nextId, Unavailable)];
    }
  }

  lemma ReplyAccounts(e: Environment, port: nat)
    requires Accounted(e) && Enabled(e, Reply(port))
    ensures Accounted(Next(e, Reply(port)))
  {
    var next := Next(e, Reply(port));
    if e.bridge.inflight != [] {
      var id := e.bridge.inflight[0];
      assert e.bridge.inflight == [id] + next.bridge.inflight;
      if id in e.bridge.pending {
        LogOne(e.log, Settlement(id, Resolved(e.ports[port][0])));
      } else {
        assert next.log == e.log;
      }
    } else {
      assert next.log == e.log;
    }
  }

  lemma TimeoutAccounts(e: Environment, id: nat)
    requires Accounted(e)
    ensures Accounted(Next(e, Timeout(id)))
  {
    if id in e.bridge.pending {
      LogOne(e.log, Settlement(id, TimedOut));
    } else {
      assert Next(e, Timeout(id)).log == e.log;
    }
  }

  lemma DisconnectAccounts(e: Environment, port: nat)
    requires Accounted(e) && port in e.ports
    ensures Accounted(Next(e, Disconnect(port)))
  {
    RejectionsExact(e.bridge.inflight, e.bridge.pending);
    LogMany(e.log, Rejections(e.bridge.inflight, e.bridge.pending));
  }

  lemma NextAccounts(e: Environment, v: Event)
    requires Accounted(e) && Enabled(e, v)
    ensures Accounted(Next(e, v))
  {
    match v
    case NoHost =>
    case Send(posted) => SendAccounts(e, posted);
    case Reply(port) => ReplyAccounts(e, port);
    case Timeout(id) => TimeoutAccounts(e, id);
    case Disconnect(port) => DisconnectAccounts(e, port);
  }

  // Whatever the ports do, every issued promise is open or settled, and settles at
  // most once.
  lemma {:induction false} SettlesAtMostOnce(run: Run, n: nat)
    requires run.Valid() && n <= |run.events|
    ensures Accounted(run.states[n])
  {
    if n > 0 {
      SettlesAtMostOnce(run, n - 1);
      assert run.Follows(n - 1);
      NextAccounts(run.states[n - 1], run.events[n - 1]);
    }
  }

  // --- What settles a promise ----------------------------------------------------------------------

  ghost predicate Settled(e: Environment, id: nat) {
    id in Ids(e.log)
  }

  // Every promise issued so far.
  ghost predicate AllSettled(e: Environment) {
    forall id: nat | 1 <= id < e.bridge.nextId :: Settled(e, id)
  }

  // Whatever happened before, after its timer has fired a promise is settled; if nothing
  // settled it before, it is as timed out, and its id keeps its place in the queue.
  lemma SettledAfterTimer(run: Run, n: nat)
    requires run.Valid() && n < |run.events| && run.events[n].Timeout?
    requires 1 <= run.events[n].id < run.states[n].bridge.nextId
    ensures Settled(run.states[n + 1], run.events[n].id)
    ensures !Settled(run.states[n], run.events[n].id) ==>
              run.states[n + 1].log == run.states[n].log + [Settlement(run.events[n].id, TimedOut)]
    ensures run.states[n + 1].bridge.inflight == run.states[n].bridge.inflight
  {
    SettlesAtMostOnce(run, n);
    SettlesAtMostOnce(run, n + 1);
    assert run.Follows(n);
  }

  // A disconnect leaves no issued promise open, and nothing to be matched.
  lemma SettledAfterDisconnect(run: Run, n: nat)
    requires run.Valid() && n < |run.events| && run.events[n].Disconnect?
    ensures AllSettled(run.states[n + 1])
    ensures run.states[n + 1].bridge == Bridge(None, run.states[n].bridge.nextId, {}, [])
  {
    SettlesAtMostOnce(run, n);
    SettlesAtMostOnce(run, n + 1);
    assert run.Follows(n);
    assert run.states[n + 1].bridge.pending == {};
  }

  // A settlement says what settled it: its own timer, a reply, or a port that refused
  // the message or went away.
  ghost predicate SettledBy(e: Environment, v: Event, r: Settlement) {
    match r.outcome
    case TimedOut => v == Timeout(r.id)
    case Resolved(answers) =>
      && v.Reply? && v.port in e.ports && e.ports[v.port] != [] && answers == e.ports[v.port][0]
      && e.bridge.inflight != [] && r.id == e.bridge.inflight[0]
    case Unavailable =>
      (v == Send(false) && r.id == e.bridge.nextId) || (v.Disconnect? && r.id in e.bridge.inflight)
  }

  lemma NextSettles(e: Environment, v: Event, r: Settlement)
    requires Enabled(e, v) && r in Next(e, v).log
    ensures r in e.log || SettledBy(e, v, r)
  {
    if v.Disconnect? {
      RejectionsExact(e.bridge.inflight, e.bridge.pending);
      if r !in e.log {
        var settled := Rejections(e.bridge.inflight, e.bridge.pending);
        var k :| 0 <= k < |settled| && settled[k] == r;
        assert Ids(settled)[k] == r.id;
      }
    }
  }

  lemma {:induction false} SettledByItsEvent(run: Run, n: nat, r: Settlement) returns (m: nat)
    requires run.Valid() && n <= |run.events| && r in run.states[n].log
    ensures m < n && SettledBy(run.states[m], run.events[m], r)
  {
    assert run.Follows(n - 1);
    if r in run.states[n - 1].log {
      m := SettledByItsEvent(run, n - 1, r);
    } else {
      NextSettles(run.states[n - 1], run.events[n - 1], r);
      m := n - 1;
    }
  }

  // A reply settles the oldest id in the queue, with that very reply if it is not settled
  // yet, and takes it out of the queue either way; with an empty queue it is dropped.
  lemma SettledAfterReply(run: Run, n: nat)
    requires run.Valid() && n < |run.events| && run.events[n].Reply?
    ensures var (e, next) := (run.states[n], run.states[n + 1]);
            if e.bridge.inflight == [] then next.log == e.log && next.bridge == e.bridge
            else
              var id := e.bridge.inflight[0];
              && next.bridge.inflight == e.bridge.inflight[1..] && Settled(next, id)
              && next.bridge.pending == e.bridge.pending - {id}
              && (!Settled(e, id) ==>
                    var port := run.events[n].port;
                    && port in e.ports && e.ports[port] != []
                    && next.log == e.log + [Settlement(id, Resolved(e.ports[port][0]))])
  {
    SettlesAtMostOnce(run, n);
    SettlesAtMostOnce(run, n + 1);
    assert run.Follows(n);
  }

  // --- Correlation ---------------------------------------------------------------------------------

  // The queue holds, in order, the ids posted to the one port there is and not
  // answered yet, tombstones included.
  ghost predicate Aligned(e: Environment) {
    && (forall p, q | p in e.ports && q in e.ports :: p == q)
    && (forall p | p in e.ports :: e.ports[p] == e.bridge.inflight)
    && (e.ports == map[] ==> e.bridge.inflight == [])
  }

  predicate OwnReply(r: Settlement) {
    r.outcome.Resolved? ==> r.outcome.answers == r.id
  }

  ghost predicate Faithful(log: seq<Settlement>) {
    forall r :: r in log ==> OwnReply(r)
  }

  predicate Connects(e: Environment, v: Event) {
    v.Send? && e.bridge.port.None?
  }

  // A new port is opened only once every earlier port's disconnect listener has run.
  predicate Prompt(e: Environment, v: Event) {
    Connects(e, v) ==> e.ports == map[]
  }

  ghost predicate Correlated(e: Environment) {
    Accounted(e) && Aligned(e) && Faithful(e.log)
  }

  lemma SendAligns(e: Environment, posted: bool)
    requires Correlated(e) && Prompt(e, Send(posted))
    ensures Aligned(Next(e, Send(posted))) && Faithful(Next(e, Send(posted)).log)
  {
    var next := Next(e, Send(posted));
    var port := if e.bridge.port.Some? then e.bridge.port.value else e.nextPort;
    assert forall p | p in next.ports :: p == port;
    assert next.ports[port] == next.bridge.inflight;
    assert forall r | r in next.log :: r in e.log || r.outcome == Unavailable;
  }

  lemma ReplyAligns(e: Environment, port: nat)
    requires Correlated(e) && Enabled(e, Reply(port))
    ensures Aligned(Next(e, Reply(port))) && Faithful(Next(e, Reply(port)).log)
  {
  }

  lemma DisconnectAligns(e: Environment, port: nat)
    requires Correlated(e) && port in e.ports
    ensures Aligned(Next(e, Disconnect(port))) && Faithful(Next(e, Disconnect(port)).log)
  {
    RejectionsExact(e.bridge.inflight, e.bridge.pending);
    assert Next(e, Disconnect(port)).ports == map[];
  }

  lemma NextCorrelates(e: Environment, v: Event)
    requires Correlated(e) && Enabled(e, v) && Prompt(e, v)
    ensures Correlated(Next(e, v))
  {
    NextAccounts(e, v);
    match v
    case NoHost =>
    case Send(posted) => SendAligns(e, posted);
    case Reply(port) => ReplyAligns(e, port);
    case Timeout(id) =>
    case Disconnect(port) => DisconnectAligns(e, port);
  }

  // With prompt disconnects every promise resolves only with the reply to its own
  // payload, in whatever order sends, replies, timeouts and disconnects come.
  lemma {:induction false} ResolvesWithOwnReply(run: Run, n: nat)
    requires run.Valid() && n <= |run.events|
    requires forall i: nat | i < n :: Prompt(run.states[i], run.events[i])
    ensures Correlated(run.states[n])
  {
    if n > 0 {
      ResolvesWithOwnReply(run, n - 1);
      assert run.Follows(n - 1);
      NextCorrelates(run.states[n - 1], run.events[n - 1]);
    }
  }

  // Connecting at once keeps the queue aligned exactly when no listener is owed.
  lemma ConnectAlignsIffPrompt(e: Environment)
    requires Correlated(e) && e.bridge.port.None?
    ensures Aligned(Next(e, Send(true))) <==> e.ports == map[]
  {
    if e.ports == map[] {
      SendAligns(e, true);
    } else {
      var p :| p in e.ports;
      assert p in Next(e, Send(true)).ports && e.nextPort in Next(e, Send(true)).ports;
    }
  }

  // The late listener takes the new port's request out of the queue, not out of its host.
  lemma ListenerEmptiesQueue(e: Environment, p: nat)
    requires Accounted(e) && e.bridge.port.None? && p in e.ports
    ensures p in Next(e, Send(true)).ports
    ensures var after := Next(Next(e, Send(true)), Disconnect(p));
            && after.bridge.port.None? && after.bridge.inflight == []
            && after.bridge.nextId == e.bridge.nextId + 1
            && after.nextPort == e.nextPort + 1
            && e.nextPort in after.ports && after.ports[e.nextPort] == [e.bridge.nextId]
  {
  }

  // The host behind a port whose request is not in the queue answers the next request.
  lemma StaleReply(e: Environment, q: nat, c: nat)
    requires e.bridge.port.None? && e.bridge.inflight == [] && q < e.nextPort && q in e.ports && e.ports[q] == [c]
    ensures var sent := Next(e, Send(true));
            && Enabled(sent, Reply(q))
            && Settlement(e.bridge.nextId, Resolved(c)) in Next(sent, Reply(q)).log
  {
    var sent := Next(e, Send(true));
    assert sent.bridge.inflight == [e.bridge.nextId] && sent.ports[q] == [c];
    var log := Next(sent, Reply(q)).log;
    assert log == sent.log + [Settlement(e.bridge.nextId, Resolved(c))];
    assert log[|sent.log|] == Settlement(e.bridge.nextId, Resolved(c));
  }

  lemma FourSteps(e: Environment, v0: Event, v1: Event, v2: Event, v3: Event) returns (run: Run)
    requires Enabled(e, v0) && Enabled(Next(e, v0), v1) && Enabled(Next(Next(e, v0), v1), v2)
    requires Enabled(Next(Next(Next(e, v0), v1), v2), v3)
    ensures run.From(e) && run.events == [v0, v1, v2, v3]
    ensures run.states[4] == Next(Next(Next(Next(e, v0), v1), v2), v3)
  {
    var e1 := Next(e, v0);
    var e2 := Next(e1, v1);
    var e3 := Next(e2, v2);
    run := Run([e, e1, e2, e3, Next(e3, v3)], [v0, v1, v2, v3]);
    assert run.Follows(0) && run.Follows(1) && run.Follows(2) && run.Follows(3);
  }

  // Wherever a listener is owed, connecting at once can resolve a promise with the
  // reply to another request: the late listener empties the queue of the new port.
  lemma LateListenerMisdelivers(e: Environment, p: nat) returns (run: Run)
    requires Accounted(e) && e.bridge.port.None? && p in e.ports
    ensures run.From(e) && |run.events| == 4 && Connects(e, run.events[0])
    ensures !Faithful(run.states[4].log)
  {
    var c, q := e.bridge.nextId, e.nextPort;
    ListenerEmptiesQueue(e, p);
    StaleReply(Next(Next(e, Send(true)), Disconnect(p)), q, c);
    run := FourSteps(e, Send(true), Disconnect(p), Send(true), Reply(q));
    assert !OwnReply(Settlement(c + 1, Resolved(c)));
  }

  // Such states occur: a port that refuses a message is forgotten at once, its
  // listener still owed. Here the first promise gets the third one's reply.
  lemma RefusedMessageMisdelivers() returns (run: Run)
    ensures run.Valid() && run.events == [Send(true), Send(false), Send(true), Reply(1)]
    ensures Settlement(1, Resolved(3)) in run.states[4].log
  {
    var e1 := Next(Start(), Send(true));
    var e2 := Next(e1, Send(false));
    var e3 := Next(e2, Send(true));
    var e4 := Next(e3, Reply(1));
    RefusedMessageSteps();
    hide Next;
    run := Run([Start(), e1, e2, e3, e4], [Send(true), Send(false), Send(true), Reply(1)]);
    assert run.Follows(0) && run.Follows(1) && run.Follows(2) && run.Follows(3);
    assert e4.log[|e4.log| - 1] == Settlement(1, Resolved(3));
  }

  lemma RefusedMessageSteps()
    ensures var e3 := Next(Next(Next(Start(), Send(true)), Send(false)), Send(true));
            && Enabled(e3, Reply(1)) && var log := Next(e3, Reply(1)).log;
            log != [] && log[|log| - 1] == Settlement(1, Resolved(3))
  {
    var e1 := Next(Start(), Send(true));
    assert e1.bridge == Bridge(Some(0), 2, {1}, [1]) && e1.nextPort == 1;
    var e2 := Next(e1, Send(false));
    assert e2.bridge == Bridge(None, 3, {1}, [1]) && e2.nextPort == 1;
    var e3 := Next(e2, Send(true));
    assert e3.bridge.inflight == [1, 3] && 1 in e3.bridge.pending && e3.ports[1] == [3];
  }
}
