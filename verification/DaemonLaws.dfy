/**
 What one request of each kind does and is answered, said of the state and the world
 it meets rather than of the gates it goes through; and what follows for whole runs.
 */
module DaemonLaws {
  import opened Wrappers
  import opened Hex
  import opened Daemon
  import opened DaemonRuns

  // --- The agent's own connection ----------------------------------------------------------

  // The token presented is that of a grant that is live at the time.
  ghost predicate Presents(s: State, c: Context, now: Instant) {
    exists g :: g in s.grants && now < g.expiresAt
                && c.presenceGrant.Some? && HexDecode(c.presenceGrant.value) == Some(g.token)
  }

  // The requests that a person must consent to.
  predicate Consents(r: Request) {
    || r == VaultCall(true) || r.TrustDevice? || r == NearbyConnect(true)
    || r.NearbyListen? || r == SetPairingMode(true) || (r.SetAgentFillMode? && r.on)
  }

  lemma GateLooks(s: State, c: Context, now: Instant)
    ensures Granted(LiveGrants(s.grants, now), c.presenceGrant) <==> Presents(s, c, now)
  {
  }

  lemma GateRefuses(s: State, r: Request, c: Context, w: World)
    ensures Gated(s, r, c, w).1 <==>
              s.session.Some? && s.agentSessions > 0 && (c.agentConnection || !Presents(s, c, w.gateAt)) && Consents(r)
  {
    GateLooks(s, c, w.gateAt);
    hide Granted, LiveGrants, Presents;
  }

  lemma HandledPast(s: State, r: Request, c: Context, w: World)
    ensures !r.Ping? && !r.Shutdown? && w.sameProfile ==>
              var (gated, refused) := Gated(Swept(s, w.sweepAt), r, c, w);
              Answer(s, r, c, w) == if refused then PresenceRequired else Served(gated, r, c, w).1
  {
    hide Gated, Served, Swept;
  }

  // Presence is missing exactly for these six kinds of request, while an agent session
  // is open on an unlocked daemon, and always on the agent's own connection. Everything
  // that only reads or narrows is never refused this way.
  lemma PresenceMissing(s: State, r: Request, c: Context, w: World)
    ensures Answer(s, r, c, w).PresenceRequired? <==>
              && w.sameProfile && s.session.Some? && s.agentSessions > 0
              && (c.agentConnection || !Presents(s, c, w.gateAt))
              && (|| r == VaultCall(true) || r.TrustDevice? || r == NearbyConnect(true)
                  || r.NearbyListen? || r == SetPairingMode(true) || (r.SetAgentFillMode? && r.on))
  {
    hide Handle, Served, Gated, Presents;
    var swept := Swept(s, w.sweepAt);
    GateRefuses(swept, r, c, w);
    PresentedWhenSwept(s, c, w);
    HandledPast(s, r, c, w);
    if r.Ping? || r.Shutdown? || !w.sameProfile {
      NeverMissingEarly(s, r, c, w);
    } else if !Gated(swept, r, c, w).1 {
      ServedActivity(Gated(swept, r, c, w).0, r, c, w);
    }
  }

  lemma PresentedWhenSwept(s: State, c: Context, w: World)
    ensures Presents(Swept(s, w.sweepAt), c, w.gateAt) <==> Presents(s, c, w.gateAt)
  {
  }

  lemma NeverMissingEarly(s: State, r: Request, c: Context, w: World)
    requires r.Ping? || r.Shutdown? || !w.sameProfile
    ensures !Answer(s, r, c, w).PresenceRequired?
  {
    if r.Lock? {
      ServedActivity(Gated(Swept(s, w.sweepAt), r, c, w).0, r, c, w);
    }
    hide Served, Granted, LiveGrants;
  }

  // A fill, pairing or nearby window is there that was not there before.
  ghost predicate OpensWindow(s: State, t: State) {
    || (t.agentFill.Some? && t.agentFill != s.agentFill)
    || (t.pairingUntil.Some? && t.pairingUntil != s.pairingUntil)
    || (t.listen.Some? && t.listen != s.listen)
  }

  // The state a request leaves, by how far it gets.
  lemma HandledState(s: State, r: Request, c: Context, w: World)
    ensures var t := Handle(s, r, c, w).0;
            var (gated, refused) := Gated(Swept(s, w.sweepAt), r, c, w);
            if r.Ping? then t == s
            else if r.Shutdown? then t == Locked(s)
            else if CarriesProfile(r) && !w.sameProfile then t == s
            else if refused then t == gated
            else t == Served(gated, r, c, w).0.(lastActivity := t.lastActivity)
  {
    hide Gated, Served, Swept, Locked;
  }

  lemma ServedOpensNoWindow(s: State, r: Request, c: Context, w: World)
    requires !r.Ping? && !r.Shutdown? && (s.session.None? || !Consents(r))
    ensures !OpensWindow(s, Served(s, r, c, w).0)
  {
    hide ResolveAll, LiveGrants;
  }

  // Nothing that comes on the agent's own connection opens a window, whatever it asks
  // for and whatever grant it shows, unlocked or not.
  lemma AgentOpensNoWindow(s: State, r: Request, c: Context, w: World)
    requires c.agentConnection && s.agentSessions > 0
    ensures !OpensWindow(s, Handle(s, r, c, w).0)
  {
    hide Handle, Served, Gated, Swept, Presents, Consents;
    HandledState(s, r, c, w);
    var (gated, refused) := Gated(Swept(s, w.sweepAt), r, c, w);
    GateOpensNoWindow(s, r, c, w);
    if !r.Ping? && !r.Shutdown? && !refused {
      ServedOpensNoWindow(gated, r, c, w);
    }
  }

  // The gate lets nothing through on the agent's connection that needs consent.
  lemma GateOpensNoWindow(s: State, r: Request, c: Context, w: World)
    requires c.agentConnection && s.agentSessions > 0
    ensures var (gated, refused) := Gated(Swept(s, w.sweepAt), r, c, w);
            !OpensWindow(s, gated) && (!refused ==> gated.session.None? || !Consents(r))
  {
    GateRefuses(Swept(s, w.sweepAt), r, c, w);
    hide Granted, LiveGrants, Consents;
  }

  // A change, trust or share asked on the agent's own connection is not done.
  lemma AgentRefused(s: State, r: Request, c: Context, w: World)
    requires c.agentConnection && s.agentSessions > 0
    requires r == VaultCall(true) || r.TrustDevice? || r == NearbyConnect(true)
    ensures var answer := Answer(s, r, c, w);
            if !w.sameProfile then answer.WrongProfile?
            else if s.session.Some? then answer.PresenceRequired?
            else answer.IsLocked? || (r.TrustDevice? && answer.UsageError?)
  {
    PresenceMissing(s, r, c, w);
    hide ResolveAll, LiveGrants, Granted;
  }

  // --- Presence checks -----------------------------------------------------------------------

  // Every answer to a presence check, and when it is given. A wrong password is counted,
  // a right one forgets the count and mints the token it answers.
  lemma PresenceChecked(s: State, c: Context, w: World)
    requires w.sameProfile
    ensures var answer, t := Answer(s, ConfirmPresence, c, w), Handle(s, ConfirmPresence, c, w).0;
            var asked := !c.agentConnection && s.session.Some?;
            && (answer.UsageError? <==> c.agentConnection || (asked && (w.check.NoSecretKey? || w.check.Broken?)))
            && (answer.IsLocked? <==> !c.agentConnection && s.session.None?)
            && (answer.AuthError? <==> asked && w.check.Wrong?)
            && (answer.PresenceGrant? <==> asked && w.check.Right?)
            && (asked && w.check.Right? ==>
                  && answer == PresenceGrant(HexEncode(w.token)) && t.failures == 0 && t.session == s.session
                  && Grant(w.token, w.workAt + s.presenceTtl) in t.grants)
            && (asked && w.check.Wrong? ==>
                  if s.failures + 1 < MAX_PRESENCE_FAILURES
                  then t.failures == s.failures + 1 && t.session == s.session && t.grants == s.grants
                  else t.session.None?)
  {
    hide LiveGrants, Granted, ResolveAll;
  }

  // --- The fill window -------------------------------------------------------------------------

  // Item k is the first of those named that the look-up does not give, and this answer
  // says why.
  ghost predicate FirstRefused(items: seq<string>, resolve: string -> Resolution, answer: Response, k: int) {
    && 0 <= k < |items| && (forall i | 0 <= i < k :: resolve(items[i]).Item?)
    && match resolve(items[k])
       case Item(_) => false
       case Refused(reason) => answer == FillRefused(reason)
       case StorageError => answer.UsageError?
  }

  ghost predicate Resolved(items: seq<string>, resolve: string -> Resolution, ids: set<string>) {
    && (forall i | 0 <= i < |items| :: resolve(items[i]).Item? && resolve(items[i]).id in ids)
    && (forall id | id in ids :: exists i :: 0 <= i < |items| && resolve(items[i]) == Item(id))
  }

  lemma ResolvedOneMore(front: seq<string>, item: string, resolve: string -> Resolution, ids: set<string>)
    requires Resolved(front, resolve, ids) && resolve(item).Item?
    ensures Resolved(front + [item], resolve, ids + {resolve(item).id})
  {
    var items := front + [item];
    assert items[|front|] == item;
    forall id | id in ids + {resolve(item).id} ensures exists i :: 0 <= i < |items| && resolve(items[i]) == Item(id) {
      if id in ids {
        var i :| 0 <= i < |front| && resolve(front[i]) == Item(id);
        assert items[i] == front[i];
      }
    }
  }

  lemma RefusedStill(front: seq<string>, item: string, resolve: string -> Resolution, answer: Response, k: int)
    requires FirstRefused(front, resolve, answer, k)
    ensures FirstRefused(front + [item], resolve, answer, k)
  {
    assert (front + [item])[k] == front[k];
  }

  // Resolving every item named gives exactly their ids, or the answer for the first that
  // has none.
  lemma {:induction false} ResolvedExactly(items: seq<string>, resolve: string -> Resolution)
    ensures var r := ResolveAll(items, resolve);
            if r.Ok? then Resolved(items, resolve, r.value) else exists k :: FirstRefused(items, resolve, r.error, k)
  {
    if items != [] {
      var front, item := items[..|items| - 1], items[|items| - 1];
      assert items == front + [item];
      ResolvedExactly(front, resolve);
      var r := ResolveAll(front, resolve);
      if r.Err? {
        var k :| FirstRefused(front, resolve, r.error, k);
        RefusedStill(front, item, resolve, r.error, k);
      } else if resolve(item).Item? {
        ResolvedOneMore(front, item, resolve, r.value);
      } else {
        assert FirstRefused(items, resolve, ResolveAll(items, resolve).error, |front|);
      }
    }
  }

  // Switching agent fill on, past the gates: a window of the set length that covers
  // exactly the items named, or the refusal of the first one that cannot be found, or
  // of an empty list, which leaves everything as it was.
  lemma FillModeOn(s: State, items: seq<string>, w: World)
    requires s.session.Some?
    ensures var (t, answer) := FillModeSet(s, true, items, w);
            if answer.Done? then
              && items != [] && t == s.(agentFill := t.agentFill, pendingFill := None)
              && t.agentFill.Some? && t.agentFill.value.until == w.workAt + s.agentFillWindow
              && Resolved(items, w.resolve, t.agentFill.value.items)
            else
              && t == s
              && ((items == [] && answer.UsageError?) || exists k :: FirstRefused(items, w.resolve, answer, k))
  {
    ResolvedExactly(items, w.resolve);
    hide Resolved, FirstRefused;
  }

  // A window switch that took effect.
  ghost predicate SwitchesFill(run: Run, i: nat, on: bool)
    requires run.Shaped()
  {
    run.Requests(i) && run.events[i].request.SetAgentFillMode? && run.events[i].request.on == on && run.answers[i].Done?
  }

  lemma ServedWindow(s: State, r: Request, c: Context, w: World)
    requires !r.Ping? && !r.Shutdown?
    ensures var (t, answer) := Served(s, r, c, w);
            if r.SetAgentFillMode? && answer.Done? then
              if r.on then
                && t.agentFill.Some? && t.agentFill.value.until == w.workAt + s.agentFillWindow
                && Resolved(r.items, w.resolve, t.agentFill.value.items) && t.session == s.session
              else t.agentFill.None? && t.pendingFill.None?
            else t.agentFill.Some? ==> t.agentFill == s.agentFill && t.session == s.session
  {
    if r.SetAgentFillMode? && r.on && s.session.Some? {
      FillModeOn(s, r.items, w);
    }
    hide ResolveAll, LiveGrants, Resolved;
  }

  lemma StepWindow(run: Run, i: nat)
    requires run.Valid() && i < |run.events| && run.states[i + 1].agentFill.Some?
    ensures !SwitchesFill(run, i, false)
    ensures run.states[i + 1].session == run.states[i].session
    ensures if SwitchesFill(run, i, true) then OpensFill(run, i, run.states[i + 1].agentFill.value)
            else run.states[i + 1].agentFill == run.states[i].agentFill
  {
    assert run.Follows(i);
    RunKeepsInv(run, i);
    RunKeepsInv(run, i + 1);
    match run.events[i]
    case Requested(r, c, w) =>
      if !r.Ping? && !r.Shutdown? && (CarriesProfile(r) ==> w.sameProfile) {
        GateLeaves(run.states[i], r, c, w);
        var (gated, refused) := Gated(Swept(run.states[i], w.sweepAt), r, c, w);
        if !refused {
          ServedWindow(gated, r, c, w);
        }
      }
      hide Served, LiveGrants, Granted, Resolved;
    case _ =>
  }

  // The switch at event i opened this window.
  ghost predicate OpensFill(run: Run, i: nat, window: FillWindow)
    requires run.Shaped()
  {
    && SwitchesFill(run, i, true)
    && window.until == run.events[i].world.workAt + AGENT_FILL_WINDOW_MS
    && Resolved(run.events[i].request.items, run.events[i].world.resolve, window.items)
  }

  // A fill window goes back to the latest switch, in the same session; it covers exactly
  // the items named then and lasts three minutes from there.
  lemma {:induction false} WindowOpenedAt(run: Run, n: nat) returns (i: nat)
    requires run.Valid() && n <= |run.events| && run.states[n].agentFill.Some?
    ensures i < n && OpensFill(run, i, run.states[n].agentFill.value)
    ensures forall l | i < l < n :: !SwitchesFill(run, l, true) && !SwitchesFill(run, l, false)
    ensures run.states[i].session == run.states[n].session
  {
    StepWindow(run, n - 1);
    if SwitchesFill(run, n - 1, true) {
      i := n - 1;
    } else {
      i := WindowOpenedAt(run, n - 1);
    }
  }

  // --- Fill intents ---------------------------------------------------------------------------

  ghost predicate InWindow(s: State, at: Instant) {
    s.agentFill.Some? && at < s.agentFill.value.until
  }

  // What the sweep and the first gate see, past the profile check.
  ghost predicate Armable(s: State, w: World) {
    w.sameProfile && s.session.Some? && InWindow(s, w.sweepAt) && InWindow(s, w.gateAt)
  }

  ghost predicate Covers(s: State, found: Resolution, at: Instant) {
    found.Item? && InWindow(s, at) && found.id in s.agentFill.value.items
  }

  // An intent is armed exactly for an item that the look-up gave, that the open window
  // covers and whose origin matches.
  lemma ArmedExactly(s: State, r: Request, c: Context, w: World)
    requires r.ArmFillIntent?
    ensures Answer(s, r, c, w).FillIntentArmed? <==>
              Armable(s, w) && Covers(s, w.resolve(r.item), w.checkAt) && w.originMatches
    ensures Answer(s, r, c, w).FillIntentArmed? ==> w.resolve(r.item) == Item(Answer(s, r, c, w).itemId)
  {
    hide ResolveAll, LiveGrants, Granted;
  }

  // The exact condition of every refusal.
  lemma ArmingRefused(s: State, r: Request, c: Context, w: World)
    requires r.ArmFillIntent?
    ensures var answer, found := Answer(s, r, c, w), w.resolve(r.item);
            && (answer.WrongProfile? <==> !w.sameProfile)
            && (answer.IsLocked? <==> w.sameProfile && s.session.None?)
            && (answer.UsageError? <==> Armable(s, w) && found.StorageError?)
            && (forall reason :: answer == FillRefused(reason) <==>
                  || (Armable(s, w) && found == Refused(reason))
                  || (reason.NotArmed? && w.sameProfile && s.session.Some? && !Armable(s, w))
                  || (reason.ItemNotArmed? && Armable(s, w) && found.Item? && !Covers(s, found, w.checkAt))
                  || (reason.OriginMismatch? && Armable(s, w) && Covers(s, found, w.checkAt) && !w.originMatches))
  {
    hide ResolveAll, LiveGrants, Granted;
  }

  // A take hands out exactly what is pending, unexpired and not yet taken.
  lemma TakenExactly(s: State, c: Context, w: World)
    ensures var answer := Answer(s, TakeFillIntent, c, w);
            && (answer.FillIntent? <==>
                  && w.sameProfile && s.session.Some? && s.pendingFill.Some?
                  && !(s.agentFill.Some? && !InWindow(s, w.sweepAt))
                  && !s.pendingFill.value.taken && w.workAt < s.pendingFill.value.expiresAt)
            && (answer.NoFillIntent? <==> w.sameProfile && s.session.Some? && !answer.FillIntent?)
  {
    hide ResolveAll, LiveGrants, Granted;
  }

  // The event leaves the window alone: it does not set the fill mode, and the window
  // has not lapsed when it is swept.
  ghost predicate LeavesWindow(s: State, e: Event) {
    e.Requested? ==>
      && (e.request.SetAgentFillMode? ==> !AnswerOf(s, e).Done?)
      && InWindow(s, e.world.sweepAt)
  }

  lemma ServedKeepsIntent(s: State, r: Request, c: Context, w: World)
    requires Inv(s) && !r.Ping? && !r.Shutdown? && s.pendingFill.Some?
    requires Served(s, r, c, w).0.session == s.session && (r.SetAgentFillMode? ==> !Served(s, r, c, w).1.Done?)
    ensures Served(s, r, c, w).0.pendingFill.Some?
  {
    hide ResolveAll, LiveGrants;
  }

  lemma IntentSurvives(s: State, e: Event)
    requires Inv(s) && s.pendingFill.Some? && LeavesWindow(s, e) && Step(s, e).session == s.session
    ensures Step(s, e).pendingFill.Some?
  {
    match e
    case Requested(r, c, w) =>
      if !r.Ping? && !r.Shutdown? && (CarriesProfile(r) ==> w.sameProfile) {
        GatedIntent(s, r, c, w);
        var (gated, refused) := Gated(Swept(s, w.sweepAt), r, c, w);
        if !refused {
          assert gated.pendingFill.Some?;
          ServedKeepsIntent(gated, r, c, w);
        }
      }
      hide Served;
    case _ =>
  }

  // Nothing took the intent that event i armed, and nothing dropped it.
  ghost predicate Waits(run: Run, i: nat, j: nat)
    requires run.Shaped() && i < j <= |run.events|
  {
    && run.states[i + 1].session == run.states[j].session
    && forall l | i < l < j :: !ArmsAt(run, l) && !HandsOutAt(run, l) && LeavesWindow(run.states[l], run.events[l])
  }

  lemma {:induction false} WaitingIntent(run: Run, i: nat, j: nat)
    requires run.Valid() && i < j <= |run.events| && ArmsAt(run, i) && Waits(run, i, j)
    ensures run.states[j].pendingFill.Some? && !run.states[j].pendingFill.value.taken
    ensures run.states[i + 1].pendingFill.Some?
            && SameIntent(run.states[i + 1].pendingFill.value, run.states[j].pendingFill.value)
    ensures run.states[i].agentFill == run.states[j].agentFill && run.states[j].session.Some?
  {
    StepArms(run, i);
    RunKeepsInv(run, i + 1);
    if i + 1 < j {
      SessionUnbroken(run, i + 1, j - 1, j);
      WaitingIntent(run, i, j - 1);
      RunKeepsInv(run, j - 1);
      assert run.Follows(j - 1);
      IntentSurvives(run.states[j - 1], run.events[j - 1]);
      StepIntent(run, j - 1);
    }
  }

  // An armed intent that nothing took or dropped is handed out to the first who asks
  // within its lifetime, with the contents it was armed with.
  lemma ArmedIsHandedOut(run: Run, i: nat, j: nat)
    requires run.Valid() && i < j && ArmsAt(run, i) && run.Requests(j) && Waits(run, i, j)
    requires run.events[j].request.TakeFillIntent? && run.events[j].world.sameProfile
    requires InWindow(run.states[i], run.events[j].world.sweepAt)
    requires run.events[j].world.workAt < run.events[i].world.workAt + FILL_INTENT_TTL_MS
    ensures var arm := run.events[i].request;
            arm.ArmFillIntent? &&
            run.answers[j] == FillIntent(run.answers[i].itemId, arm.tabId, arm.origin, arm.overwrite)
  {
    WaitingIntent(run, i, j);
    StepArms(run, i);
    assert run.Follows(j);
    var e := run.events[j];
    TakenExactly(run.states[j], e.context, e.world);
    RunKeepsInv(run, j);
    HandOut(run.states[j], e.request, e.context, e.world);
  }

  // A report is accepted exactly for the item of a pending intent that was handed out.
  lemma ReportAcceptedExactly(s: State, r: Request, c: Context, w: World)
    requires r.ReportFillOutcome?
    ensures var answer := Answer(s, r, c, w);
            && (answer.Done? <==>
                  && w.sameProfile && s.session.Some? && s.pendingFill.Some?
                  && !(s.agentFill.Some? && !InWindow(s, w.sweepAt))
                  && s.pendingFill.value.taken && s.pendingFill.value.itemId == r.itemId)
            && (answer.UsageError? <==> w.sameProfile && s.session.Some? && !answer.Done?)
  {
    hide ResolveAll, LiveGrants, Granted;
  }

  // The outcome polled at event j is what happened since the latest arming.
  lemma OutcomeTold(run: Run, j: nat) returns (i: nat)
    requires run.Valid() && run.Requests(j) && run.events[j].request.PollFillOutcome? && run.answers[j].FillOutcome?
    ensures run.answers[j].status.NoIntent? <==>
              run.states[j].pendingFill.None? || !InWindow(run.states[j], run.events[j].world.sweepAt)
    ensures !run.answers[j].status.NoIntent? ==>
              && i < j && ArmsAt(run, i) && forall l | i < l < j :: !ArmsAt(run, l)
    ensures !run.answers[j].status.NoIntent? ==>
              (run.answers[j].status.Reported? <==> exists l :: i < l < j && ReportsAt(run, l))
    ensures !run.answers[j].status.NoIntent? && !run.answers[j].status.Reported? ==>
              (run.answers[j].status.Expired? <==>
                 run.events[j].world.workAt >= run.events[i].world.workAt + FILL_INTENT_TTL_MS)
    ensures run.answers[j].status.Taken? ==> exists l :: i < l < j && HandsOutAt(run, l)
    ensures run.answers[j].status.Pending? ==> forall l | i < l < j :: !HandsOutAt(run, l)
  {
    i := 0;
    RunKeepsInv(run, j);
    assert run.Follows(j);
    PolledOutcome(run.states[j], run.events[j].context, run.events[j].world);
    if run.states[j].pendingFill.Some? {
      i := IntentArmedAt(run, j);
      StepArms(run, i);
    }
  }

  lemma PolledOutcome(s: State, c: Context, w: World)
    requires Inv(s) && Answer(s, PollFillOutcome, c, w).FillOutcome?
    ensures Answer(s, PollFillOutcome, c, w).status ==
              if s.pendingFill.None? || !InWindow(s, w.sweepAt) then NoIntent else StatusOf(s.pendingFill, w.workAt)
  {
    hide ResolveAll, LiveGrants, Granted;
  }

  // --- The idle timer ----------------------------------------------------------------------------

  // Requests that only watch, and answers that gave the caller nothing.
  predicate Watches(r: Request) {
    || r.Ping? || r.Shutdown? || r == Status(false) || r.TakeFillIntent? || r.PollFillOutcome?
    || r.NearbyStatus? || r.BeginAgentSession?
  }

  predicate Denied(answer: Response) {
    answer.IsLocked? || answer.WrongProfile? || answer.AuthError? || answer.PresenceRequired?
  }

  // These leave the idle timer as it is; every other request sets it to its own time.
  lemma TimerSet(s: State, r: Request, c: Context, w: World)
    ensures var answer := Answer(s, r, c, w);
            Handle(s, r, c, w).0.lastActivity ==
              if || r.Ping? || r.Shutdown? || r == Status(false) || r.TakeFillIntent? || r.PollFillOutcome?
                 || r.NearbyStatus? || r.BeginAgentSession?
                 || answer.IsLocked? || answer.WrongProfile? || answer.AuthError? || answer.PresenceRequired?
              then s.lastActivity else w.touchAt
  {
    GateKeepsTimer(s, r, c, w);
    if !r.Ping? && !r.Shutdown? {
      ServedActivity(Gated(Swept(s, w.sweepAt), r, c, w).0, r, c, w);
    }
    hide Served, Gated, Swept;
  }

  lemma GateKeepsTimer(s: State, r: Request, c: Context, w: World)
    ensures Gated(Swept(s, w.sweepAt), r, c, w).0.lastActivity == s.lastActivity
  {
    hide Granted, LiveGrants;
  }

  // Every way in which a held session ends or gives way to another.
  ghost predicate EndsSession(s: State, e: Event) {
    match e
    case Reap(at) => s.autolock > 0 && at >= s.lastActivity + s.autolock
    case Requested(r, c, w) =>
      || r.Shutdown? || r.Lock?
      || (w.sameProfile && w.check.Right? && (r.Unlock? || r.CreateAccount?))
      || (w.sameProfile && w.check.Wrong? && r.ConfirmPresence? && !c.agentConnection
          && s.failures + 1 >= MAX_PRESENCE_FAILURES)
    case _ => false
  }

  lemma ServedSessionEnds(s: State, r: Request, c: Context, w: World)
    requires Inv(s) && s.session.Some? && w.sameProfile && !r.Ping? && !r.Shutdown?
    ensures Served(s, r, c, w).0.session == s.session <==> !EndsSession(s, Requested(r, c, w))
    ensures !EndsSession(s, Requested(r, c, w)) ==> Served(s, r, c, w).0.autolock == s.autolock
  {
    hide ResolveAll, LiveGrants;
  }

  lemma GateLeaves(s: State, r: Request, c: Context, w: World)
    requires Inv(s)
    ensures var g := Gated(Swept(s, w.sweepAt), r, c, w).0;
            && Inv(g) && g.session == s.session && g.failures == s.failures && g.autolock == s.autolock
            && g.lastActivity == s.lastActivity && g.listen == s.listen && g.jobs == s.jobs
  {
    hide Granted;
  }

  // A session ends exactly by the reaper, with autolock on and the timeout passed, by a
  // lock, by a shutdown, by an unlock or a new account, or by the fifth wrong password;
  // with autolock off no time ends it. Nothing but these changes the timeout.
  lemma SessionEndsExactly(s: State, e: Event)
    requires Inv(s) && s.session.Some?
    ensures Step(s, e).session == s.session <==> !EndsSession(s, e)
    ensures !EndsSession(s, e) ==> Step(s, e).autolock == s.autolock
  {
    match e
    case Requested(r, c, w) =>
      if !r.Ping? && !r.Shutdown? && !r.Lock? && w.sameProfile {
        GateLeaves(s, r, c, w);
        var (gated, refused) := Gated(Swept(s, w.sweepAt), r, c, w);
        if !refused {
          ServedSessionEnds(gated, r, c, w);
        } else {
          GateRefuses(Swept(s, w.sweepAt), r, c, w);
        }
        hide Served, Gated, Swept;
      }
    case _ =>
  }

  // Whatever only watches or is denied changes neither session nor timer, as often as it
  // likes, unless it locks.
  lemma {:induction false} WatchingPostponesNothing(run: Run, i: nat, n: nat)
    requires run.Valid() && i <= n <= |run.events|
    requires forall k | i <= k < n :: run.Requests(k) ==> Watches(run.events[k].request) || Denied(run.answers[k])
    ensures run.states[n].session.Some? ==>
              && run.states[n].session == run.states[i].session && run.states[n].autolock == run.states[i].autolock
              && run.states[n].lastActivity == run.states[i].lastActivity
  {
    if i < n {
      WatchingPostponesNothing(run, i, n - 1);
      assert run.Follows(n - 1);
      var s, e := run.states[n - 1], run.events[n - 1];
      RunKeepsInv(run, n - 1);
      if run.states[n].session.Some? {
        StepOpens(run, n - 1);
        SessionEndsExactly(s, e);
        if e.Requested? {
          TimerSet(s, e.request, e.context, e.world);
        }
      }
    }
  }

  // So the reaper's first tick at the timeout finds the vault locked or locks it, if there
  // was nothing but such requests since the latest activity.
  lemma LocksOnTime(run: Run, i: nat, n: nat)
    requires run.Valid() && i <= n < |run.events| && run.events[n].Reap?
    requires run.states[i].autolock > 0 && run.events[n].at >= run.states[i].lastActivity + run.states[i].autolock
    requires forall k | i <= k < n && run.Requests(k) ::
               var r, answer := run.events[k].request, run.answers[k];
               || r.Ping? || r.Shutdown? || r == Status(false) || r.TakeFillIntent? || r.PollFillOutcome?
               || r.NearbyStatus? || r.BeginAgentSession?
               || answer.IsLocked? || answer.WrongProfile? || answer.AuthError? || answer.PresenceRequired?
    ensures run.states[n + 1].session.None?
  {
    WatchingPostponesNothing(run, i, n);
    assert run.Follows(n);
    RunKeepsInv(run, n);
    RunKeepsInv(run, n + 1);
    if run.states[n].session.Some? {
      SessionEndsExactly(run.states[n], run.events[n]);
    }
  }

  // An unlock or a new account succeeds exactly on the right check, in any state; it
  // starts a new session with nothing left of an earlier one, and sets the timeout that
  // was asked for.
  lemma OpensExactly(s: State, r: Request, c: Context, w: World)
    requires r.Unlock? || r.CreateAccount?
    ensures Answer(s, r, c, w).Done? <==> w.sameProfile && w.check.Right?
    ensures w.sameProfile && w.check.Right? ==>
              var t := Handle(s, r, c, w).0;
              && t.session == Some(s.sessions) && t.sessions == s.sessions + 1
              && t.agentFill.None? && t.pendingFill.None? && t.grants == [] && t.failures == 0 && t.listen.None?
              && t.agentSessions == s.agentSessions
              && t.autolock == if r.Unlock? && r.autolock.Some? then r.autolock.value else s.autolock
  {
    hide ResolveAll, LiveGrants, Granted;
  }

  // --- Locked or done -----------------------------------------------------------------------------

  // The requests a locked daemon answers all the same.
  predicate NeedsNoVault(s: State, r: Request, c: Context, w: World) {
    || r.Ping? || r.Shutdown? || r.Lock? || r.Status? || r.BeginAgentSession? || r.Unlock? || r.CreateAccount?
    || r.NearbyStop?
    || (r.ConfirmPresence? && c.agentConnection)
    || (r.TrustDevice? && !(s.pairingUntil.Some? && w.checkAt < s.pairingUntil.value))
  }

  // Locked is what a daemon without a session answers to every other request, and what
  // one that holds a session never does.
  lemma LockedExactly(s: State, r: Request, c: Context, w: World)
    ensures Answer(s, r, c, w).IsLocked? <==> w.sameProfile && s.session.None? && !NeedsNoVault(s, r, c, w)
  {
    if !r.Ping? && !r.Shutdown? && (CarriesProfile(r) ==> w.sameProfile) {
      var swept := Swept(s, w.sweepAt);
      GateRefuses(swept, r, c, w);
      ServedLocked(Gated(swept, r, c, w).0, r, c, w);
    }
    hide Served, LiveGrants, Granted;
  }

  lemma ServedLocked(s: State, r: Request, c: Context, w: World)
    requires !r.Ping? && !r.Shutdown?
    ensures Served(s, r, c, w).1.IsLocked? <==> s.session.None? && !NeedsNoVault(s, r, c, w)
  {
    if r.SetAgentFillMode? && r.on && s.session.Some? {
      FillModeOn(s, r.items, w);
    }
    hide LiveGrants, ResolveAll, Resolved;
  }

  predicate OpenAt(listen: Option<Listen>, now: Instant) {
    listen.Some? && listen.value.running && now < listen.value.until
  }

  // When a request that is neither about presence nor about agent fill is done, past the
  // profile check and unless presence is missing.
  lemma DoneExactly(s: State, r: Request, c: Context, w: World)
    requires w.sameProfile && !Answer(s, r, c, w).PresenceRequired?
    requires !r.ConfirmPresence? && !r.SetAgentFillMode? && !r.ReportFillOutcome?
    ensures Answer(s, r, c, w).Done? <==>
              || r.Shutdown? || r.Lock? || r.BeginAgentSession? || r.NearbyStop?
              || ((r.Unlock? || r.CreateAccount?) && w.check.Right?)
              || (s.session.Some?
                  && (|| r.SetPairingMode? || r.NearbyStatus?
                      || (r.VaultCall? && w.accepted)
                      || (r.NearbyListen? && w.accepted && !OpenAt(s.listen, w.checkAt))
                      || (r.TrustDevice? && w.accepted && s.pairingUntil.Some? && w.checkAt < s.pairingUntil.value)))
  {
    if !r.Ping? && !r.Shutdown? {
      var swept := Swept(s, w.sweepAt);
      HandledPast(s, r, c, w);
      ServedDone(Gated(swept, r, c, w).0, r, c, w);
    }
    hide Served, LiveGrants, Granted;
  }

  lemma ServedDone(s: State, r: Request, c: Context, w: World)
    requires !r.Ping? && !r.Shutdown? && !r.ConfirmPresence? && !r.SetAgentFillMode? && !r.ReportFillOutcome?
    ensures Served(s, r, c, w).1.Done? <==>
              || r.Lock? || r.BeginAgentSession? || r.NearbyStop?
              || ((r.Unlock? || r.CreateAccount?) && w.check.Right?)
              || (s.session.Some?
                  && (|| r.SetPairingMode? || r.NearbyStatus?
                      || (r.VaultCall? && w.accepted)
                      || (r.NearbyListen? && w.accepted && !OpenAt(s.listen, w.checkAt))
                      || (r.TrustDevice? && w.accepted && s.pairingUntil.Some? && w.checkAt < s.pairingUntil.value)))
  {
    hide LiveGrants, ResolveAll;
  }

  // What a request makes of the nearby window: listening that is done opens a new one,
  // for the time asked; a stop, and whatever ends the session, leaves none; nothing else
  // changes it.
  lemma ListenChanges(s: State, r: Request, c: Context, w: World)
    requires Inv(s)
    ensures var (t, answer) := (Handle(s, r, c, w).0, Answer(s, r, c, w));
            t.listen ==
              if r.NearbyListen? && answer.Done? then Some(Listen(s.jobs, w.workAt + r.window, true))
              else if (r.NearbyStop? && w.sameProfile) || t.session != s.session then None
              else s.listen
  {
    hide Handle, Served, Gated, Swept;
    HandledState(s, r, c, w);
    HandledPast(s, r, c, w);
    if !r.Ping? && !r.Shutdown? && (CarriesProfile(r) ==> w.sameProfile) {
      GateLeaves(s, r, c, w);
      var (gated, refused) := Gated(Swept(s, w.sweepAt), r, c, w);
      if !refused {
        ServedListen(gated, r, c, w);
        AnsweredWhenServed(s, r, c, w);
      } else {
        GatedAnswers(s, r, c, w);
      }
    } else {
      NotServed(s, r, c, w);
    }
  }

  lemma AnsweredWhenServed(s: State, r: Request, c: Context, w: World)
    requires !r.Ping? && !r.Shutdown? && (CarriesProfile(r) ==> w.sameProfile)
    requires !Gated(Swept(s, w.sweepAt), r, c, w).1
    ensures Answer(s, r, c, w) == Served(Gated(Swept(s, w.sweepAt), r, c, w).0, r, c, w).1
  {
    hide Served, Gated, Swept;
  }

  // A request that is not let in is never one to listen or to stop; a shutdown locks.
  lemma NotServed(s: State, r: Request, c: Context, w: World)
    requires r.Ping? || r.Shutdown? || (CarriesProfile(r) && !w.sameProfile)
    ensures r.NearbyListen? ==> !Answer(s, r, c, w).Done?
    ensures r.Shutdown? ==> Handle(s, r, c, w).0 == Locked(s)
  {
    hide Served, Gated, Swept;
  }

  lemma ServedListen(s: State, r: Request, c: Context, w: World)
    requires Inv(s) && !r.Ping? && !r.Shutdown?
    ensures var (t, answer) := Served(s, r, c, w);
            t.listen ==
              if r.NearbyListen? && answer.Done? then Some(Listen(s.jobs, w.workAt + r.window, true))
              else if r.NearbyStop? || t.session != s.session then None
              else s.listen
  {
    hide LiveGrants, ResolveAll;
  }

  // --- A grant is honoured ---------------------------------------------------------------------------

  // At most k grants lie behind one like g.
  ghost predicate Behind(grants: seq<Grant>, g: Grant, k: int) {
    exists i :: 0 <= i < |grants| && grants[i] == g && |grants| - 1 - i <= k
  }

  lemma {:induction false} LiveKeepsBehind(grants: seq<Grant>, g: Grant, k: int, now: Instant)
    requires Behind(grants, g, k) && now < g.expiresAt
    ensures Behind(LiveGrants(grants, now), g, k)
  {
    var i :| 0 <= i < |grants| && grants[i] == g && |grants| - 1 - i <= k;
    var rest := LiveGrants(grants[1..], now);
    var head := if now < grants[0].expiresAt then [grants[0]] else [];
    assert LiveGrants(grants, now) == head + rest && |rest| <= |grants| - 1;
    hide LiveGrants;
    if i == 0 {
      assert (head + rest)[0] == g;
    } else {
      assert grants[1..][i - 1] == g;
      LiveKeepsBehind(grants[1..], g, k, now);
      var j :| 0 <= j < |rest| && rest[j] == g && |rest| - 1 - j <= k;
      assert (head + rest)[|head| + j] == g;
    }
  }

  lemma OneMoreBehind(live: seq<Grant>, g: Grant, k: nat, dropped: nat, last: Grant)
    requires Behind(live, g, k) && dropped + k < |live|
    ensures Behind(live[dropped..] + [last], g, k + 1)
  {
    var i :| 0 <= i < |live| && live[i] == g && |live| - 1 - i <= k;
    assert (live[dropped..] + [last])[i - dropped] == g;
  }

  // Minting adds one at the end, and makes room only by dropping the oldest of eight.
  lemma MintKeepsBehind(s: State, g: Grant, k: nat, now: Instant, token: Token)
    requires Behind(s.grants, g, k) && now < g.expiresAt && k + 1 < MAX_PRESENCE_GRANTS
    ensures Behind(WithGrant(s, now, token).grants, g, k + 1)
  {
    LiveKeepsBehind(s.grants, g, k, now);
    var live := LiveGrants(s.grants, now);
    var dropped := if |live| >= MAX_PRESENCE_GRANTS then 1 else 0;
    var last := Grant(token, now + s.presenceTtl);
    assert WithGrant(s, now, token).grants == live[dropped..] + [last];
    var kept := if k < |live| then k else |live| - 1;
    assert Behind(live, g, kept);
    OneMoreBehind(live, g, kept, dropped, last);
    hide LiveGrants, WithGrant;
  }

  ghost predicate MintsOne(run: Run, i: nat)
    requires run.Shaped()
  {
    run.Requests(i) && run.answers[i].PresenceGrant?
  }

  ghost function Minted(run: Run, i: nat, j: nat): nat
    requires run.Shaped() && i <= j <= |run.events|
  {
    if i == j then 0 else Minted(run, i, j - 1) + if MintsOne(run, j - 1) then 1 else 0
  }

  // Looked at only before it expires.
  ghost predicate Before(e: Event, expiresAt: Instant) {
    e.Requested? ==> e.world.gateAt < expiresAt && e.world.workAt < expiresAt
  }

  lemma ServedKeepsBehind(s: State, r: Request, c: Context, w: World, g: Grant, k: nat)
    requires !r.Ping? && !r.Shutdown? && Inv(s) && s.session.Some?
    requires Behind(s.grants, g, k) && w.workAt < g.expiresAt && Served(s, r, c, w).0.session == s.session
    requires Served(s, r, c, w).1.PresenceGrant? ==> k + 1 < MAX_PRESENCE_GRANTS
    ensures Behind(Served(s, r, c, w).0.grants, g, k + if Served(s, r, c, w).1.PresenceGrant? then 1 else 0)
  {
    if r.ConfirmPresence? && !c.agentConnection && w.check.Right? {
      MintKeepsBehind(s.(failures := 0), g, k, w.workAt, w.token);
    }
    hide ResolveAll, LiveGrants, Behind, WithGrant;
  }

  lemma StepKeepsBehind(s: State, e: Event, g: Grant, k: nat)
    requires Inv(s) && s.session.Some? && Behind(s.grants, g, k) && Before(e, g.expiresAt)
    requires Step(s, e).session == s.session
    requires e.Requested? && AnswerOf(s, e).PresenceGrant? ==> k + 1 < MAX_PRESENCE_GRANTS
    ensures Behind(Step(s, e).grants, g, k + if e.Requested? && AnswerOf(s, e).PresenceGrant? then 1 else 0)
  {
    match e
    case Requested(r, c, w) =>
      hide Handle, Served, Gated, Swept, Behind;
      HandledState(s, r, c, w);
      if !r.Ping? && !r.Shutdown? && (CarriesProfile(r) ==> w.sameProfile) {
        GateLeaves(s, r, c, w);
        GateKeepsBehind(s, r, c, w, g, k);
        var (gated, refused) := Gated(Swept(s, w.sweepAt), r, c, w);
        if !refused {
          AnsweredWhenServed(s, r, c, w);
          ServedKeepsBehind(gated, r, c, w, g, k);
        } else {
          GatedAnswers(s, r, c, w);
        }
      } else {
        NoGrantUnserved(s, r, c, w);
      }
    case _ =>
  }

  lemma GateKeepsBehind(s: State, r: Request, c: Context, w: World, g: Grant, k: nat)
    requires Behind(s.grants, g, k) && w.gateAt < g.expiresAt
    ensures Behind(Gated(Swept(s, w.sweepAt), r, c, w).0.grants, g, k)
  {
    LiveKeepsBehind(s.grants, g, k, w.gateAt);
    hide LiveGrants, Granted, Behind;
  }

  lemma NoGrantUnserved(s: State, r: Request, c: Context, w: World)
    requires r.Ping? || r.Shutdown? || (CarriesProfile(r) && !w.sameProfile)
    ensures !Answer(s, r, c, w).PresenceGrant?
  {
    hide Served, Gated, Swept;
  }

  lemma {:induction false} GrantKept(run: Run, m: nat, n: nat, g: Grant)
    requires run.Valid() && m < n <= |run.events| && run.Requests(m)
    requires Mints(run.states[m], run.events[m], run.answers[m], g)
    requires run.states[m].session == run.states[n].session
    requires Minted(run, m + 1, n) < MAX_PRESENCE_GRANTS
    requires forall l | m < l < n :: Before(run.events[l], g.expiresAt)
    ensures Behind(run.states[n].grants, g, Minted(run, m + 1, n))
  {
    RunKeepsInv(run, n - 1);
    assert run.Follows(n - 1);
    if m + 1 < n {
      SessionUnbroken(run, m, n - 1, n);
      GrantKept(run, m, n - 1, g);
      StepKeepsBehind(run.states[n - 1], run.events[n - 1], g, Minted(run, m + 1, n - 1));
    } else {
      MintedLast(run.states[m], run.events[m], g);
    }
  }

  lemma MintedLast(s: State, e: Event, g: Grant)
    requires e.Requested? && Mints(s, e, AnswerOf(s, e), g) && s.presenceTtl == PRESENCE_GRANT_MS
    ensures Behind(Step(s, e).grants, g, 0)
  {
    var grants := Step(s, e).grants;
    assert grants[|grants| - 1] == g;
    hide LiveGrants;
  }

  // The token that a right password earned opens the gate on every connection but the
  // agent's, for its lifetime, as long as there is no lock and fewer than eight newer
  // grants.
  lemma FreshGrantHonoured(run: Run, m: nat, n: nat, g: Grant)
    requires run.Valid() && m < n && run.Requests(m) && run.Requests(n)
    requires Mints(run.states[m], run.events[m], run.answers[m], g)
    requires run.states[m].session == run.states[n].session
    requires Minted(run, m + 1, n) < MAX_PRESENCE_GRANTS
    requires forall l | m < l <= n :: Before(run.events[l], g.expiresAt)
    requires !run.events[n].context.agentConnection
    requires run.events[n].context.presenceGrant == Some(run.answers[m].token)
    ensures !run.answers[n].PresenceRequired?
  {
    GrantKept(run, m, n, g);
    HexRoundTrip(run.answers[m].token, g.token);
    var e := run.events[n];
    assert run.Follows(n) && Before(e, g.expiresAt);
    PresenceMissing(run.states[n], e.request, e.context, e.world);
    assert Presents(run.states[n], e.context, e.world.gateAt);
  }

  // --- What status tells ----------------------------------------------------------------------------

  // The flags of a status reply say what other requests would be answered.
  lemma StatusIsTrue(s: State, keepalive: bool, c: Context, w: World)
    requires w.sameProfile
    ensures var answer := Answer(s, Status(keepalive), c, w);
            && answer.StatusReply?
            && (answer.unlocked <==> !Answer(s, VaultCall(false), c, w).IsLocked?)
            && (answer.agentSession <==> s.agentSessions > 0)
            && (answer.unlocked && answer.agentSession <==>
                  Answer(s, VaultCall(true), Context(true, None), w).PresenceRequired?)
            && (answer.agentFill <==> InWindow(s, w.sweepAt) && InWindow(s, w.workAt))
  {
    PresenceMissing(s, VaultCall(true), Context(true, None), w);
    hide LiveGrants, Granted, ResolveAll;
  }

  // --- Pairing ---------------------------------------------------------------------------------------

  // A pairing mode switch that took effect.
  ghost predicate Pairs(run: Run, i: nat, enabled: bool)
    requires run.Shaped()
  {
    run.Requests(i) && run.events[i].request == SetPairingMode(enabled) && run.answers[i].Done?
  }

  lemma ServedPairing(s: State, r: Request, c: Context, w: World)
    requires !r.Ping? && !r.Shutdown?
    ensures Served(s, r, c, w).0.pairingUntil ==
              if r.SetPairingMode? && Served(s, r, c, w).1.Done?
              then (if r.enabled then Some(w.workAt + PAIRING_WINDOW_MS) else None) else s.pairingUntil
  {
    hide ResolveAll, LiveGrants;
  }

  lemma StepPairing(run: Run, i: nat)
    requires run.Valid() && i < |run.events|
    ensures run.states[i + 1].pairingUntil ==
              if Pairs(run, i, true) then Some(run.events[i].world.workAt + PAIRING_WINDOW_MS)
              else if Pairs(run, i, false) then None
              else run.states[i].pairingUntil
  {
    assert run.Follows(i);
    match run.events[i]
    case Requested(r, c, w) =>
      if !r.Ping? && !r.Shutdown? {
        ServedPairing(Gated(Swept(run.states[i], w.sweepAt), r, c, w).0, r, c, w);
      }
      hide Served, LiveGrants, Granted;
    case _ =>
  }

  lemma {:induction false} PairingSince(run: Run, n: nat) returns (i: nat)
    requires run.Valid() && n <= |run.events| && run.states[n].pairingUntil.Some?
    ensures i < n && Pairs(run, i, true)
    ensures run.states[n].pairingUntil == Some(run.events[i].world.workAt + PAIRING_WINDOW_MS)
    ensures forall l | i < l < n :: !Pairs(run, l, true) && !Pairs(run, l, false)
  {
    StepPairing(run, n - 1);
    if Pairs(run, n - 1, true) {
      i := n - 1;
    } else {
      i := PairingSince(run, n - 1);
    }
  }

  // A device is trusted only inside the pairing window that the latest switch opened,
  // less than three minutes ago, and only by an unlocked daemon.
  lemma TrustNeedsPairing(run: Run, n: nat) returns (i: nat)
    requires run.Valid() && run.Requests(n) && run.events[n].request.TrustDevice? && run.answers[n].Done?
    ensures i < n && Pairs(run, i, true) && forall l | i < l < n :: !Pairs(run, l, false)
    ensures run.events[n].world.checkAt < run.events[i].world.workAt + PAIRING_WINDOW_MS
    ensures run.states[n].session.Some?
  {
    assert run.Follows(n);
    TrustAnswered(run.states[n], run.events[n].context, run.events[n].world);
    i := PairingSince(run, n);
  }

  lemma TrustAnswered(s: State, c: Context, w: World)
    requires Answer(s, TrustDevice, c, w).Done?
    ensures s.session.Some? && s.pairingUntil.Some? && w.checkAt < s.pairingUntil.value
  {
    hide LiveGrants, Granted;
  }
}
