/**
 The daemon's state as the object the server guards with its mutex. Every method
 does what the value-level step of the same name in `Daemon` says.
 */
module Engine {
  import opened Wrappers
  import opened Hex
  import opened Daemon

  class LiveState {
    var session: Option<nat>
    var sessions: nat
    var autolock: nat
    var lastActivity: Instant
    var pairingUntil: Option<Instant>
    var agentFill: Option<FillWindow>
    var pendingFill: Option<PendingFill>
    var agentFillWindow: nat
    var fillIntentTtl: nat
    var agentSessions: nat
    var grants: seq<Grant>
    var failures: nat
    var presenceTtl: nat
    var listen: Option<Listen>
    var jobs: nat

    function Value(): State
      reads this
    {
      State(session, sessions, autolock, lastActivity, pairingUntil, agentFill, pendingFill, agentFillWindow,
            fillIntentTtl, agentSessions, grants, failures, presenceTtl, listen, jobs)
    }

    constructor (autolock: nat, now: Instant)
      ensures Value() == Fresh(autolock, now)
    {
      this.session, this.sessions := None, 0;
      this.autolock, this.lastActivity := autolock, now;
      this.pairingUntil, this.agentFill, this.pendingFill := None, None, None;
      this.agentFillWindow, this.fillIntentTtl := AGENT_FILL_WINDOW_MS, FILL_INTENT_TTL_MS;
      this.agentSessions := 0;
      this.grants, this.failures, this.presenceTtl := [], 0, PRESENCE_GRANT_MS;
      this.listen, this.jobs := None, 0;
    }

    // --- State operations ------------------------------------------------------------

    method Lock()
      modifies this
      ensures Value() == Locked(old(Value()))
    {
      session := None;
      agentFill := None;
      pendingFill := None;
      grants := [];
      failures := 0;
      listen := None;
    }

    method Hold()
      modifies this
      ensures Value() == Opened(old(Value()))
    {
      Lock();
      session := Some(sessions);
      sessions := sessions + 1;
    }

    method EndAgentSession()
      modifies this
      ensures Value() == EndedAgentSession(old(Value()))
    {
      if agentSessions > 0 {
        agentSessions := agentSessions - 1;
      }
    }

    method IssuePresenceGrant(now: Instant, token: Token) returns (hex: string)
      modifies this
      ensures Value() == WithGrant(old(Value()), now, token)
      ensures hex == HexEncode(token)
    {
      grants := LiveGrants(grants, now);
      if |grants| >= MAX_PRESENCE_GRANTS {
        grants := grants[1..];
      }
      grants := grants + [Grant(token, now + presenceTtl)];
      hex := HexEncode(token);
    }

    method PresenceGranted(presented: Option<string>, now: Instant) returns (hit: bool)
      modifies this
      ensures Value() == old(Value()).(grants := LiveGrants(old(grants), now))
      ensures hit <==> Granted(grants, presented)
    {
      grants := LiveGrants(grants, now);
      hit := false;
      if presented.Some? {
        var token := HexDecode(presented.value);
        if token.Some? {
          hit := AnyGrant(grants, token.value);
        }
      }
    }

    method MaybeAutolock(now: Instant) returns (locked: bool)
      modifies this
      ensures Value() == Reaped(old(Value()), now)
      ensures locked <==> AutolockDue(old(Value()), now)
    {
      locked := session.Some? && autolock != 0 && now >= lastActivity + autolock;
      if locked {
        Lock();
      }
    }

    method SweepAgentFill(now: Instant)
      modifies this
      ensures Value() == Swept(old(Value()), now)
    {
      if agentFill.Some? && now >= agentFill.value.until {
        agentFill := None;
        pendingFill := None;
      }
    }

    method JobEnded(job: nat)
      modifies this
      ensures Value() == Step(old(Value()), Event.JobEnded(job))
    {
      if listen.Some? && listen.value.job == job {
        listen := Some(listen.value.(running := false));
      }
    }

    // --- Handlers -------------------------------------------------------------------------

    method ConfirmPresence(c: Context, w: World) returns (r: Response)
      modifies this
      ensures (Value(), r) == ConfirmedPresence(old(Value()), c, w)
    {
      if c.agentConnection {
        return UsageError;
      }
      if session.None? {
        return IsLocked;
      }
      match w.check
      case Right =>
        failures := 0;
        var hex := IssuePresenceGrant(w.workAt, w.token);
        r := PresenceGrant(hex);
      case Wrong =>
        failures := failures + 1;
        if failures >= MAX_PRESENCE_FAILURES {
          Lock();
        }
        r := AuthError;
      case NoSecretKey =>
        r := UsageError;
      case Broken =>
        r := UsageError;
    }

    method Unlock(autolock: Option<nat>, w: World) returns (r: Response)
      modifies this
      ensures (Value(), r) == Unlocked(old(Value()), autolock, w)
    {
      match w.check
      case Right =>
        Hold();
        if autolock.Some? {
          this.autolock := autolock.value;
        }
        r := Done;
      case Wrong =>
        r := AuthError;
      case NoSecretKey =>
        r := UsageError;
      case Broken =>
        r := UsageError;
    }

    method SetAgentFillMode(on: bool, items: seq<string>, w: World) returns (r: Response)
      modifies this
      ensures (Value(), r) == FillModeSet(old(Value()), on, items, w)
    {
      if session.None? {
        return IsLocked;
      }
      if !on {
        agentFill, pendingFill := None, None;
        return Done;
      }
      if items == [] {
        return UsageError;
      }
      var ids: set<string> := {};
      for i := 0 to |items|
        invariant ResolveAll(items[..i], w.resolve) == Ok(ids)
      {
        assert items[..i + 1][..i] == items[..i];
        match w.resolve(items[i])
        case Item(id) =>
          ids := ids + {id};
        case Refused(reason) =>
          ResolveStops(items, i, w.resolve, FillRefused(reason));
          return FillRefused(reason);
        case StorageError =>
          ResolveStops(items, i, w.resolve, UsageError);
          return UsageError;
      }
      assert items[..|items|] == items;
      agentFill := Some(FillWindow(w.workAt + agentFillWindow, ids));
      pendingFill := None;
      r := Done;
    }

    method ArmFillIntent(request: Request, w: World) returns (r: Response)
      requires request.ArmFillIntent?
      modifies this
      ensures (Value(), r) == IntentArmed(old(Value()), request, w)
    {
      if session.None? {
        return IsLocked;
      }
      if !(agentFill.Some? && w.gateAt < agentFill.value.until) {
        return FillRefused(NotArmed);
      }
      match w.resolve(request.item)
      case StorageError =>
        r := UsageError;
      case Refused(reason) =>
        r := FillRefused(reason);
      case Item(id) =>
        if !(agentFill.Some? && w.checkAt < agentFill.value.until && id in agentFill.value.items) {
          return FillRefused(ItemNotArmed);
        }
        if !w.originMatches {
          return FillRefused(OriginMismatch);
        }
        pendingFill := Some(PendingFill(id, request.tabId, request.origin, request.overwrite,
                                        w.workAt + fillIntentTtl, false, None));
        r := FillIntentArmed(id);
    }

    method TakeFillIntent(w: World) returns (r: Response)
      modifies this
      ensures (Value(), r) == IntentTaken(old(Value()), w)
    {
      if session.None? {
        return IsLocked;
      }
      if pendingFill.None? || pendingFill.value.taken || w.workAt >= pendingFill.value.expiresAt {
        return NoFillIntent;
      }
      var i := pendingFill.value;
      pendingFill := Some(i.(taken := true));
      r := FillIntent(i.itemId, i.tabId, i.origin, i.overwrite);
    }

    method ReportFillOutcome(itemId: string, outcome: FillReport) returns (r: Response)
      modifies this
      ensures (Value(), r) == OutcomeReported(old(Value()), itemId, outcome)
    {
      if session.None? {
        return IsLocked;
      }
      if pendingFill.Some? && pendingFill.value.taken && pendingFill.value.itemId == itemId {
        pendingFill := Some(pendingFill.value.(report := Some(outcome)));
        return Done;
      }
      r := UsageError;
    }

    method NearbyListen(window: nat, w: World) returns (r: Response)
      modifies this
      ensures (Value(), r) == ListenOpened(old(Value()), window, w)
    {
      if session.None? {
        return IsLocked;
      }
      if !w.accepted || Listening(Value(), w.checkAt) {
        return UsageError;
      }
      listen := Some(Listen(jobs, w.workAt + window, true));
      jobs := jobs + 1;
      r := Done;
    }

    method WithSession(w: World) returns (r: Response)
      ensures (Value(), r) == Delegated(Value(), w)
    {
      r := if session.None? then IsLocked else if w.accepted then Done else UsageError;
    }

    method Serve(request: Request, c: Context, w: World) returns (r: Response)
      requires !request.Ping? && !request.Shutdown?
      modifies this
      ensures (Value(), r) == Served(old(Value()), request, c, w)
    {
      match request
      case Lock =>
        Lock();
        r := Done;
      case BeginAgentSession =>
        if !c.agentConnection {
          agentSessions := agentSessions + 1;
        }
        r := Done;
      case ConfirmPresence =>
        r := ConfirmPresence(c, w);
      case Unlock(autolock) =>
        r := Unlock(autolock, w);
      case CreateAccount =>
        if !w.check.Right? {
          return UsageError;
        }
        Hold();
        r := Done;
      case SetPairingMode(enabled) =>
        if session.None? {
          return IsLocked;
        }
        pairingUntil := if enabled then Some(w.workAt + PAIRING_WINDOW_MS) else None;
        r := Done;
      case SetAgentFillMode(on, items) =>
        r := SetAgentFillMode(on, items, w);
      case ArmFillIntent(_, _, _, _) =>
        r := ArmFillIntent(request, w);
      case TakeFillIntent =>
        r := TakeFillIntent(w);
      case ReportFillOutcome(itemId, outcome) =>
        r := ReportFillOutcome(itemId, outcome);
      case NearbyListen(window) =>
        r := NearbyListen(window, w);
      case NearbyStop =>
        listen := None;
        r := Done;
      case Status(_) =>
        r := StatusReply(session.Some?, agentSessions > 0, agentFill.Some? && w.workAt < agentFill.value.until);
      case PollFillOutcome =>
        r := if session.None? then IsLocked else FillOutcome(StatusOf(pendingFill, w.workAt));
      case TrustDevice =>
        if pairingUntil.None? || w.checkAt >= pairingUntil.value {
          return UsageError;
        }
        r := WithSession(w);
      case NearbyConnect(_) =>
        r := if session.None? then IsLocked else UsageError;
      case NearbyStatus =>
        r := if session.None? then IsLocked else Done;
      case VaultCall(_) =>
        r := WithSession(w);
    }

    method PresenceMissing(request: Request, c: Context, w: World) returns (refused: bool)
      modifies this
      ensures (Value(), refused) == Gated(old(Value()), request, c, w)
    {
      refused := false;
      if NeedsPresence(request) && agentSessions > 0 && session.Some? {
        if c.agentConnection {
          return true;
        }
        var granted := PresenceGranted(c.presenceGrant, w.gateAt);
        refused := !granted;
      }
    }

    // One request, as the worker runs it under the mutex.
    method HandleWith(request: Request, c: Context, w: World) returns (h: Handled)
      modifies this
      ensures (Value(), h) == Handle(old(Value()), request, c, w)
    {
      if request.Ping? {
        return Reply(Pong);
      }
      if request.Shutdown? {
        Lock();
        return Handled(Done, true, false);
      }
      if CarriesProfile(request) && !w.sameProfile {
        return Reply(WrongProfile);
      }
      SweepAgentFill(w.sweepAt);
      var refused := PresenceMissing(request, c, w);
      if refused {
        return Reply(PresenceRequired);
      }
      var response := Serve(request, c, w);
      if CountsAsActivity(request) && ResponseCountsAsActivity(response) {
        lastActivity := w.touchAt;
      }
      h := Handled(response, false, request.BeginAgentSession?);
    }
  }

  // Looks at every grant, whether or not one has already matched.
  method AnyGrant(grants: seq<Grant>, token: Token) returns (hit: bool)
    ensures hit <==> exists g :: g in grants && g.token == token
  {
    hit := false;
    for i := 0 to |grants|
      invariant hit <==> exists g :: g in grants[..i] && g.token == token
    {
      var equal := ConstantTimeEqual(grants[i].token, token);
      assert grants[..i + 1] == grants[..i] + [grants[i]];
      hit := hit || equal;
    }
    assert grants[..|grants|] == grants;
  }

  // The first reference that does not resolve decides the answer.
  lemma {:induction false} ResolveStops(items: seq<string>, i: nat, resolve: string -> Resolution, answer: Response)
    requires i < |items| && ResolveAll(items[..i], resolve).Ok?
    requires resolve(items[i]) == (if answer.FillRefused? then Refused(answer.reason) else StorageError)
    requires answer.FillRefused? || answer.UsageError?
    ensures ResolveAll(items, resolve) == Err(answer)
    decreases |items|
  {
    if i == |items| - 1 {
      assert items[..|items| - 1] == items[..i];
    } else {
      var front := items[..|items| - 1];
      assert front[..i] == items[..i];
      ResolveStops(front, i, resolve, answer);
    }
  }
}
