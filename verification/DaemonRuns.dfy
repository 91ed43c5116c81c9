/**
 What every run of the daemon keeps: any interleaving of requests from any
 connections, reaper ticks, closed agent connections and ended listen jobs.
 */
module DaemonRuns {
  import opened Wrappers
  import opened Hex
  import opened Daemon

  // --- Runs --------------------------------------------------------------------------

  function AnswerOf(s: State, e: Event): Response
    requires e.Requested?
  {
    Handle(s, e.request, e.context, e.world).1.response
  }

  // The states before and after each event, and the answer to each request.
  datatype Run = Run(states: seq<State>, events: seq<Event>, answers: seq<Response>) {
    ghost predicate Shaped() {
      |states| == |events| + 1 && |answers| == |events|
    }

    ghost predicate Follows(i: nat)
      requires Shaped() && i < |events|
    {
      && states[i + 1] == Step(states[i], events[i])
      && (events[i].Requested? ==> answers[i] == AnswerOf(states[i], events[i]))
    }

    ghost predicate Valid() {
      && Shaped()
      && states[0] == Fresh(states[0].autolock, states[0].lastActivity)
      && forall i: nat | i < |events| :: Follows(i)
    }

    ghost predicate Requests(i: nat)
      requires Shaped()
    {
      i < |events| && events[i].Requested?
    }
  }

  // --- A lock erases everything ----------------------------------------------------------

  ghost predicate Inv(s: State) {
    && (s.session.None? ==>
          s.agentFill.None? && s.pendingFill.None? && s.grants == [] && s.failures == 0 && s.listen.None?)
    && (s.session.Some? ==> s.session.value < s.sessions)
    && (s.pendingFill.Some? ==> s.agentFill.Some? && s.pendingFill.value.itemId in s.agentFill.value.items)
    && (s.pendingFill.Some? && s.pendingFill.value.report.Some? ==> s.pendingFill.value.taken)
    && |s.grants| <= MAX_PRESENCE_GRANTS
    && s.failures < MAX_PRESENCE_FAILURES
    && s.presenceTtl == PRESENCE_GRANT_MS && s.fillIntentTtl == FILL_INTENT_TTL_MS
    && s.agentFillWindow == AGENT_FILL_WINDOW_MS
  }

  lemma ServedKeepsInv(s: State, r: Request, c: Context, w: World)
    requires Inv(s) && !r.Ping? && !r.Shutdown?
    ensures Inv(Served(s, r, c, w).0)
  {
    hide LiveGrants, ResolveAll;
  }

  lemma StepKeepsInv(s: State, e: Event)
    requires Inv(s)
    ensures Inv(Step(s, e))
  {
    match e
    case Requested(r, c, w) =>
      if !r.Ping? && !r.Shutdown? {
        ServedKeepsInv(Gated(Swept(s, w.sweepAt), r, c, w).0, r, c, w);
      }
    case _ =>
  }

  // In every run, a locked daemon holds no fill window, intent, grant, failure count
  // or listen window; a pending intent lies inside the armed scope; and at most
  // eight grants and four failures are ever held.
  lemma {:induction false} RunKeepsInv(run: Run, n: nat)
    requires run.Valid() && n <= |run.events|
    ensures Inv(run.states[n])
  {
    if n > 0 {
      RunKeepsInv(run, n - 1);
      assert run.Follows(n - 1);
      StepKeepsInv(run.states[n - 1], run.events[n - 1]);
    }
  }

  // --- Sessions ----------------------------------------------------------------------------

  // A later state holds the same session, none, or one that was never held before.
  ghost predicate SessionMoves(s: State, t: State) {
    s.sessions <= t.sessions
    && (t.session == s.session || t.session.None? || (t.session == Some(s.sessions) && t.sessions == s.sessions + 1))
  }

  lemma ServedSession(s: State, r: Request, c: Context, w: World)
    requires !r.Ping? && !r.Shutdown?
    ensures SessionMoves(s, Served(s, r, c, w).0)
  {
  }

  lemma StepSession(run: Run, i: nat)
    requires run.Valid() && i < |run.events|
    ensures SessionMoves(run.states[i], run.states[i + 1])
  {
    assert run.Follows(i);
    match run.events[i]
    case Requested(r, c, w) =>
      if !r.Ping? && !r.Shutdown? {
        ServedSession(Gated(Swept(run.states[i], w.sweepAt), r, c, w).0, r, c, w);
      }
    case _ =>
  }

  lemma {:induction false} SessionsGrow(run: Run, i: nat, j: nat)
    requires run.Valid() && i <= j <= |run.events|
    ensures run.states[i].sessions <= run.states[j].sessions
  {
    if i < j {
      SessionsGrow(run, i, j - 1);
      StepSession(run, j - 1);
    }
  }

  // A session once dropped is never held again: equal sessions mean that there was
  // no lock, and no other session, in between.
  lemma {:induction false} SessionUnbroken(run: Run, i: nat, l: nat, j: nat)
    requires run.Valid() && i <= l <= j <= |run.events|
    requires run.states[i].session.Some? && run.states[i].session == run.states[j].session
    ensures run.states[l].session == run.states[i].session
  {
    if l < j {
      RunKeepsInv(run, i);
      SessionsGrow(run, i, j - 1);
      StepSession(run, j - 1);
      SessionUnbroken(run, i, l, j - 1);
    }
  }

  // --- Presence grants ---------------------------------------------------------------------------

  // A right password on a connection that is not the agent's, answered with grant g.
  ghost predicate Mints(s: State, e: Event, answer: Response, g: Grant) {
    && e.Requested? && e.request.ConfirmPresence?
    && !e.context.agentConnection && e.world.check.Right?
    && answer == PresenceGrant(HexEncode(g.token))
    && g == Grant(e.world.token, e.world.workAt + PRESENCE_GRANT_MS)
    && s.session.Some?
  }

  lemma ServedGrant(s: State, r: Request, c: Context, w: World, g: Grant)
    requires Inv(s) && !r.Ping? && !r.Shutdown? && g in Served(s, r, c, w).0.grants
    ensures Served(s, r, c, w).0.session == s.session && s.session.Some?
    ensures g in s.grants || Mints(s, Requested(r, c, w), Served(s, r, c, w).1, g)
  {
    ServedGrants(s, r, c, w);
    hide Served, WithGrant, LiveGrants;
    if Served(s, r, c, w).0.grants != s.grants {
      WithGrantHolds(s.(failures := 0), w.workAt, w.token, g);
    }
  }

  // Grants come only from a right password.
  lemma ServedGrants(s: State, r: Request, c: Context, w: World)
    requires Inv(s) && !r.Ping? && !r.Shutdown?
    ensures var (t, answer) := Served(s, r, c, w);
            || t.grants == []
            || (t.grants == s.grants && t.session == s.session)
            || (r.ConfirmPresence? && !c.agentConnection && w.check.Right? && s.session.Some? && t.session == s.session
                && answer == PresenceGrant(HexEncode(w.token))
                && t.grants == WithGrant(s.(failures := 0), w.workAt, w.token).grants)
  {
    hide LiveGrants, ResolveAll;
  }

  lemma WithGrantHolds(s: State, now: Instant, token: Token, g: Grant)
    requires g in WithGrant(s, now, token).grants
    ensures g in s.grants || g == Grant(token, now + s.presenceTtl)
  {
  }

  // A grant held after an event was held before it or minted by it, in the same session.
  lemma StepGrant(run: Run, i: nat, g: Grant)
    requires run.Valid() && i < |run.events| && g in run.states[i + 1].grants
    ensures run.states[i + 1].session == run.states[i].session && run.states[i].session.Some?
    ensures g in run.states[i].grants || Mints(run.states[i], run.events[i], run.answers[i], g)
  {
    RunKeepsInv(run, i);
    assert run.Follows(i);
    StepGrantOf(run.states[i], run.events[i], g);
  }

  lemma StepGrantOf(s: State, e: Event, g: Grant)
    requires Inv(s) && g in Step(s, e).grants
    ensures Step(s, e).session == s.session && s.session.Some?
    ensures g in s.grants || (e.Requested? && Mints(s, e, AnswerOf(s, e), g))
  {
    match e
    case Requested(r, c, w) =>
      if !r.Ping? && !r.Shutdown? && (CarriesProfile(r) ==> w.sameProfile) {
        var swept := Swept(s, w.sweepAt);
        GatedGrants(swept, r, c, w);
        if !Gated(swept, r, c, w).1 {
          ServedGrant(Gated(swept, r, c, w).0, r, c, w, g);
        }
      }
    case _ =>
  }

  lemma GatedGrants(s: State, r: Request, c: Context, w: World)
    requires Inv(s)
    ensures Inv(Gated(s, r, c, w).0) && Gated(s, r, c, w).0.session == s.session
    ensures forall g :: g in Gated(s, r, c, w).0.grants ==> g in s.grants
  {
  }

  lemma {:induction false} GrantMinted(run: Run, n: nat, g: Grant) returns (m: nat)
    requires run.Valid() && n <= |run.events| && g in run.states[n].grants
    ensures m < n && Mints(run.states[m], run.events[m], run.answers[m], g)
    ensures run.states[m].session == run.states[n].session
  {
    StepGrant(run, n - 1, g);
    if g in run.states[n - 1].grants {
      m := GrantMinted(run, n - 1, g);
    } else {
      m := n - 1;
    }
  }

  // Past the presence gate while unlocked with an agent session open: the request
  // came on another connection than the agent's, with the token of a grant that a
  // right password earned less than the grant's lifetime ago, in this same session
  // (so with no lock since).
  lemma PresencePassed(run: Run, n: nat) returns (m: nat, g: Grant)
    requires run.Valid() && run.Requests(n) && NeedsPresence(run.events[n].request)
    requires run.states[n].session.Some? && run.states[n].agentSessions > 0
    requires !run.answers[n].PresenceRequired? && !run.answers[n].WrongProfile?
    ensures !run.events[n].context.agentConnection
    ensures run.events[n].context.presenceGrant.Some?
            && HexDecode(run.events[n].context.presenceGrant.value) == Some(g.token)
    ensures m < n && Mints(run.states[m], run.events[m], run.answers[m], g)
    ensures run.events[n].world.gateAt < run.events[m].world.workAt + PRESENCE_GRANT_MS
    ensures forall l | m <= l <= n :: run.states[l].session == run.states[n].session
  {
    assert run.Follows(n);
    g := PassedGrant(run.states[n], run.events[n]);
    m := GrantMinted(run, n, g);
    forall l | m <= l <= n ensures run.states[l].session == run.states[n].session {
      SessionUnbroken(run, m, l, n);
    }
  }

  lemma PassedGrant(s: State, e: Event) returns (g: Grant)
    requires e.Requested? && NeedsPresence(e.request) && s.session.Some? && s.agentSessions > 0
    requires !AnswerOf(s, e).PresenceRequired? && !AnswerOf(s, e).WrongProfile?
    ensures !e.context.agentConnection && e.context.presenceGrant.Some?
    ensures HexDecode(e.context.presenceGrant.value) == Some(g.token)
    ensures g in s.grants && e.world.gateAt < g.expiresAt
  {
    var swept := Swept(s, e.world.sweepAt);
    var (gated, refused) := Gated(swept, e.request, e.context, e.world);
    assert !refused;
    g :| g in gated.grants && g.token == HexDecode(e.context.presenceGrant.value).value;
  }

  // --- Wrong passwords ------------------------------------------------------------------------------

  // A presence check that the daemon actually makes, with the given outcome.
  predicate Checks(s: State, e: Event, outcome: Check) {
    && e.Requested? && e.request.ConfirmPresence? && !e.context.agentConnection
    && e.world.sameProfile && s.session.Some? && e.world.check == outcome
  }

  // Wrong answers among events i to j.
  ghost function WrongAnswers(run: Run, i: nat, j: nat): nat
    requires run.Shaped() && i <= j <= |run.events|
  {
    if i == j then 0
    else WrongAnswers(run, i, j - 1) + if Checks(run.states[j - 1], run.events[j - 1], Wrong) then 1 else 0
  }

  ghost predicate NoRightAnswer(run: Run, i: nat, j: nat)
    requires run.Shaped() && i <= j <= |run.events|
  {
    forall l | i <= l < j :: !Checks(run.states[l], run.events[l], Right)
  }

  lemma ServedFailures(s: State, r: Request, c: Context, w: World)
    requires Inv(s) && s.session.Some? && !r.Ping? && !r.Shutdown? && Served(s, r, c, w).0.session == s.session
    ensures Served(s, r, c, w).0.failures ==
              if r.ConfirmPresence? && !c.agentConnection && w.check.Right? then 0
              else if r.ConfirmPresence? && !c.agentConnection && w.check.Wrong? then s.failures + 1
              else s.failures
  {
  }

  // Within one session, failures count the wrong answers since the last right one.
  lemma StepFailures(s: State, e: Event)
    requires Inv(s) && s.session.Some? && Step(s, e).session == s.session
    ensures Step(s, e).failures ==
              if Checks(s, e, Right) then 0
              else if Checks(s, e, Wrong) then s.failures + 1
              else s.failures
  {
    match e
    case Requested(r, c, w) =>
      if !r.Ping? && !r.Shutdown? && (CarriesProfile(r) ==> w.sameProfile) {
        var swept := Swept(s, w.sweepAt);
        GatedGrants(swept, r, c, w);
        if !Gated(swept, r, c, w).1 {
          ServedFailures(Gated(swept, r, c, w).0, r, c, w);
        }
      }
    case _ =>
  }

  lemma {:induction false} FailuresCount(run: Run, i: nat, j: nat)
    requires run.Valid() && i <= j <= |run.events|
    requires run.states[i].session.Some? && run.states[j].session == run.states[i].session
    requires NoRightAnswer(run, i, j)
    ensures run.states[j].failures >= WrongAnswers(run, i, j)
  {
    if i < j {
      SessionUnbroken(run, i, j - 1, j);
      FailuresCount(run, i, j - 1);
      RunKeepsInv(run, j - 1);
      assert run.Follows(j - 1);
      StepFailures(run.states[j - 1], run.events[j - 1]);
    }
  }

  // Five wrong passwords, with no right one and no lock among them, leave the vault
  // locked right after the fifth, whatever else happened in between.
  lemma FiveWrongPasswordsLock(run: Run, i: nat, j: nat)
    requires run.Valid() && i < j <= |run.events| && NoRightAnswer(run, i, j)
    requires WrongAnswers(run, i, j) >= MAX_PRESENCE_FAILURES
    requires Checks(run.states[j - 1], run.events[j - 1], Wrong)
    requires run.states[i].session == run.states[j - 1].session
    ensures run.states[j].session.None?
  {
    RunKeepsInv(run, j);
    StepSession(run, j - 1);
    RunKeepsInv(run, j - 1);
    assert run.Follows(j - 1);
    CheckOpensNothing(run.states[j - 1], run.events[j - 1]);
    if run.states[j].session == run.states[i].session {
      FailuresCount(run, i, j);
    }
  }

  lemma CheckOpensNothing(s: State, e: Event)
    requires Checks(s, e, Wrong)
    ensures Step(s, e).session == s.session || Step(s, e).session.None?
  {
  }

  // --- Fill intents ------------------------------------------------------------------------------------

  ghost predicate ArmsAt(run: Run, i: nat)
    requires run.Shaped()
  {
    run.Requests(i) && run.answers[i].FillIntentArmed?
  }

  ghost predicate HandsOutAt(run: Run, i: nat)
    requires run.Shaped()
  {
    run.Requests(i) && run.answers[i].FillIntent?
  }

  predicate SameIntent(p: PendingFill, q: PendingFill) {
    p.itemId == q.itemId && p.tabId == q.tabId && p.origin == q.origin && p.overwrite == q.overwrite
    && p.expiresAt == q.expiresAt
  }

  // A report that was accepted.
  ghost predicate ReportsAt(run: Run, i: nat)
    requires run.Shaped()
  {
    run.Requests(i) && run.events[i].request.ReportFillOutcome? && run.answers[i].Done?
  }

  // What an event that arms nothing can do to a pending intent besides dropping it:
  // hand it out for the first and only time, or attach a report for its item once
  // it has been handed out. The window stays as it is.
  ghost predicate IntentMoves(s: State, r: Request, answer: Response, t: State) {
    t.pendingFill.Some? ==>
      && s.pendingFill.Some? && t.session == s.session && t.agentFill == s.agentFill
      && var p, q := s.pendingFill.value, t.pendingFill.value;
      && SameIntent(p, q)
      && q.taken == (p.taken || answer.FillIntent?)
      && (answer.FillIntent? ==> !p.taken)
      && if r.ReportFillOutcome? && answer.Done?
         then p.taken && r.itemId == p.itemId && q.report == Some(r.outcome)
         else q.report == p.report
  }

  lemma ServedIntent(s: State, r: Request, c: Context, w: World)
    requires Inv(s) && !r.Ping? && !r.Shutdown? && !Served(s, r, c, w).1.FillIntentArmed?
    ensures IntentMoves(s, r, Served(s, r, c, w).1, Served(s, r, c, w).0)
  {
  }

  lemma GatedIntent(s: State, r: Request, c: Context, w: World)
    requires Inv(s)
    ensures var g := Gated(Swept(s, w.sweepAt), r, c, w).0;
            && Inv(g) && g.session == s.session
            && (g.pendingFill.Some? ==> g.pendingFill == s.pendingFill && g.agentFill == s.agentFill)
  {
  }

  lemma HandledIntent(s: State, r: Request, c: Context, w: World)
    requires Inv(s) && !Handle(s, r, c, w).1.response.FillIntentArmed?
    ensures IntentMoves(s, r, Handle(s, r, c, w).1.response, Handle(s, r, c, w).0)
  {
    hide Served, Gated, Swept;
    GatedIntent(s, r, c, w);
    if !r.Ping? && !r.Shutdown? && (CarriesProfile(r) ==> w.sameProfile) {
      var (gated, refused) := Gated(Swept(s, w.sweepAt), r, c, w);
      if !refused {
        ServedIntent(gated, r, c, w);
      } else {
        GatedAnswers(s, r, c, w);
      }
    }
  }

  lemma GatedAnswers(s: State, r: Request, c: Context, w: World)
    requires !r.Ping? && !r.Shutdown? && (CarriesProfile(r) ==> w.sameProfile)
    requires Gated(Swept(s, w.sweepAt), r, c, w).1
    ensures Handle(s, r, c, w).1.response.PresenceRequired?
    ensures !r.ReportFillOutcome? && !r.NearbyStop?
    ensures Handle(s, r, c, w).0 == Gated(Swept(s, w.sweepAt), r, c, w).0
  {
    hide Served;
  }

  // The same for one event of a run.
  lemma StepIntent(run: Run, i: nat)
    requires run.Valid() && i < |run.events| && !ArmsAt(run, i) && run.states[i + 1].pendingFill.Some?
    ensures run.states[i].pendingFill.Some? && run.states[i + 1].session == run.states[i].session
    ensures run.states[i + 1].agentFill == run.states[i].agentFill
    ensures var p, q := run.states[i].pendingFill.value, run.states[i + 1].pendingFill.value;
            && SameIntent(p, q)
            && q.taken == (p.taken || HandsOutAt(run, i)) && (HandsOutAt(run, i) ==> !p.taken)
            && if ReportsAt(run, i)
               then p.taken && run.events[i].request.itemId == p.itemId
                    && q.report == Some(run.events[i].request.outcome)
               else q.report == p.report
  {
    RunKeepsInv(run, i);
    assert run.Follows(i);
    match run.events[i]
    case Requested(r, c, w) => HandledIntent(run.states[i], r, c, w);
    case _ =>
  }

  // The request's own look-up gave the item, the window covered it at that time, and
  // the item's origin is the one asked for.
  ghost predicate Permitted(s: State, r: Request, itemId: string, w: World) {
    && r.ArmFillIntent? && w.resolve(r.item) == Item(itemId) && w.originMatches
    && s.agentFill.Some? && itemId in s.agentFill.value.items && w.checkAt < s.agentFill.value.until
  }

  lemma ServedArms(s: State, r: Request, c: Context, w: World)
    requires !r.Ping? && !r.Shutdown? && Served(s, r, c, w).1.FillIntentArmed?
    ensures r.ArmFillIntent? && s.session.Some?
    ensures Served(s, r, c, w).0.session == s.session && Served(s, r, c, w).0.agentFill == s.agentFill
    ensures Permitted(s, r, Served(s, r, c, w).1.itemId, w)
    ensures Served(s, r, c, w).0.pendingFill ==
              Some(PendingFill(Served(s, r, c, w).1.itemId, r.tabId, r.origin, r.overwrite,
                               w.workAt + s.fillIntentTtl, false, None))
  {
  }

  lemma StepArms(run: Run, i: nat)
    requires run.Valid() && ArmsAt(run, i)
    ensures run.events[i].request.ArmFillIntent? && run.states[i + 1].session == run.states[i].session
    ensures run.states[i + 1].agentFill == run.states[i].agentFill
    ensures Permitted(run.states[i], run.events[i].request, run.answers[i].itemId, run.events[i].world)
    ensures var arm := run.events[i].request;
            run.states[i + 1].pendingFill ==
              Some(PendingFill(run.answers[i].itemId, arm.tabId, arm.origin, arm.overwrite,
                               run.events[i].world.workAt + FILL_INTENT_TTL_MS, false, None))
  {
    RunKeepsInv(run, i);
    assert run.Follows(i);
    HandledArms(run.states[i], run.events[i].request, run.events[i].context, run.events[i].world);
  }

  lemma HandledArms(s: State, r: Request, c: Context, w: World)
    requires Inv(s) && Handle(s, r, c, w).1.response.FillIntentArmed?
    ensures r.ArmFillIntent?
    ensures Handle(s, r, c, w).0.session == s.session && Handle(s, r, c, w).0.agentFill == s.agentFill
    ensures Permitted(s, r, Handle(s, r, c, w).1.response.itemId, w)
    ensures Handle(s, r, c, w).0.pendingFill ==
              Some(PendingFill(Handle(s, r, c, w).1.response.itemId, r.tabId, r.origin, r.overwrite,
                               w.workAt + FILL_INTENT_TTL_MS, false, None))
  {
    GatedIntent(s, r, c, w);
    ServedArms(Gated(Swept(s, w.sweepAt), r, c, w).0, r, c, w);
  }

  // The pending intent goes back to the latest arming, in the same session and window;
  // it is taken exactly if it was handed out since, and reported exactly if a report
  // was accepted since.
  lemma {:induction false} IntentArmedAt(run: Run, n: nat) returns (i: nat)
    requires run.Valid() && n <= |run.events| && run.states[n].pendingFill.Some?
    ensures i < n && ArmsAt(run, i) && run.states[i + 1].pendingFill.Some?
    ensures SameIntent(run.states[i + 1].pendingFill.value, run.states[n].pendingFill.value)
    ensures run.states[i + 1].session == run.states[n].session && run.states[i].agentFill == run.states[n].agentFill
    ensures forall l | i < l < n :: !ArmsAt(run, l)
    ensures run.states[n].pendingFill.value.taken <==> exists l :: i < l < n && HandsOutAt(run, l)
    ensures run.states[n].pendingFill.value.report.Some? <==> exists l :: i < l < n && ReportsAt(run, l)
  {
    if ArmsAt(run, n - 1) {
      StepArms(run, n - 1);
      i := n - 1;
    } else {
      StepIntent(run, n - 1);
      i := IntentArmedAt(run, n - 1);
    }
  }

  // What holds when an intent is handed out at event j: it was armed at an earlier
  // event i with these very contents, for the item that this request's own look-up
  // gave and whose origin matched; nothing was armed or handed out in between; its own
  // deadline has not passed; and the vault is unlocked, in the session it was armed in,
  // with the window it was armed in, which covers the item and is open at the sweep.
  lemma HandedOut(run: Run, j: nat) returns (i: nat)
    requires run.Valid() && HandsOutAt(run, j)
    ensures i < j && ArmsAt(run, i) && run.events[i].request.ArmFillIntent?
    ensures var arm := run.events[i].request;
            run.answers[j] == FillIntent(run.answers[i].itemId, arm.tabId, arm.origin, arm.overwrite)
    ensures run.events[i].world.resolve(run.events[i].request.item) == Item(run.answers[j].itemId)
            && run.events[i].world.originMatches
    ensures run.events[j].world.workAt < run.events[i].world.workAt + FILL_INTENT_TTL_MS
    ensures forall l | i < l < j :: !ArmsAt(run, l) && !HandsOutAt(run, l)
    ensures run.states[j].session.Some? && run.states[i + 1].session == run.states[j].session
    ensures run.states[i].agentFill == run.states[j].agentFill && run.states[j].agentFill.Some?
    ensures var window := run.states[j].agentFill.value;
            && run.answers[j].itemId in window.items
            && run.events[i].world.checkAt < window.until && run.events[j].world.sweepAt < window.until
  {
    RunKeepsInv(run, j);
    assert run.Follows(j);
    HandOut(run.states[j], run.events[j].request, run.events[j].context, run.events[j].world);
    i := IntentArmedAt(run, j);
    StepArms(run, i);
  }

  lemma ServedHandOut(s: State, r: Request, c: Context, w: World)
    requires Inv(s) && !r.Ping? && !r.Shutdown? && Served(s, r, c, w).1.FillIntent?
    ensures s.session.Some? && Takeable(s.pendingFill, w.workAt)
    ensures var p := s.pendingFill.value; Served(s, r, c, w).1 == FillIntent(p.itemId, p.tabId, p.origin, p.overwrite)
  {
  }

  lemma HandOut(s: State, r: Request, c: Context, w: World)
    requires Inv(s) && Handle(s, r, c, w).1.response.FillIntent?
    ensures s.session.Some? && Takeable(s.pendingFill, w.workAt)
    ensures WindowOpen(s.agentFill, w.sweepAt)
    ensures var p := s.pendingFill.value;
            Handle(s, r, c, w).1.response == FillIntent(p.itemId, p.tabId, p.origin, p.overwrite)
  {
    GatedIntent(s, r, c, w);
    ServedHandOut(Gated(Swept(s, w.sweepAt), r, c, w).0, r, c, w);
  }

  // Single use: between any two hand-outs an intent was armed anew.
  lemma HandedOutOnce(run: Run, j: nat, k: nat) returns (i: nat)
    requires run.Valid() && j < k && HandsOutAt(run, j) && HandsOutAt(run, k)
    ensures j < i < k && ArmsAt(run, i)
  {
    i := HandedOut(run, k);
  }

  function Rank(s: FillStatus): nat {
    match s
    case NoIntent => 0
    case Pending => 1
    case Taken => 2
    case Expired => 3
    case Reported => 4
  }

  // One intent, watched at any two instants, only ever moves on: pending, taken,
  // expired, reported.
  lemma {:induction false} StatusOnlyAdvances(run: Run, i: nat, j: nat, t: Instant, u: Instant)
    requires run.Valid() && i <= j <= |run.events| && t <= u
    requires forall l | i <= l < j :: !ArmsAt(run, l)
    requires run.states[j].pendingFill.Some?
    ensures run.states[i].pendingFill.Some?
    ensures SameIntent(run.states[i].pendingFill.value, run.states[j].pendingFill.value)
    ensures Rank(StatusOf(run.states[i].pendingFill, t)) <= Rank(StatusOf(run.states[j].pendingFill, u))
  {
    if i < j {
      StepIntent(run, j - 1);
      StatusOnlyAdvances(run, i, j - 1, t, u);
    }
  }

  // --- The idle timer --------------------------------------------------------------------------------------

  // A request that got past the early gates and passes both activity tests.
  ghost predicate CountedAt(run: Run, i: nat)
    requires run.Shaped()
  {
    && run.Requests(i)
    && !run.events[i].request.Ping? && !run.events[i].request.Shutdown?
    && !run.answers[i].PresenceRequired?
    && CountsAsActivity(run.events[i].request) && ResponseCountsAsActivity(run.answers[i])
  }

  lemma ServedActivity(s: State, r: Request, c: Context, w: World)
    requires !r.Ping? && !r.Shutdown?
    ensures Served(s, r, c, w).0.lastActivity == s.lastActivity
    ensures !Served(s, r, c, w).1.PresenceRequired?
  {
  }

  lemma StepActivity(run: Run, i: nat)
    requires run.Valid() && i < |run.events|
    ensures run.states[i + 1].lastActivity ==
              if CountedAt(run, i) then run.events[i].world.touchAt else run.states[i].lastActivity
  {
    assert run.Follows(i);
    match run.events[i]
    case Requested(r, c, w) =>
      if !r.Ping? && !r.Shutdown? {
        ServedActivity(Gated(Swept(run.states[i], w.sweepAt), r, c, w).0, r, c, w);
      }
    case _ =>
  }

  // The idle timer shows the latest counted request, or the start if there is none.
  lemma {:induction false} LatestActivity(run: Run, n: nat) returns (m: int)
    requires run.Valid() && n <= |run.events|
    ensures -1 <= m < n
    ensures m >= 0 ==> CountedAt(run, m) && run.states[n].lastActivity == run.events[m].world.touchAt
    ensures m < 0 ==> run.states[n].lastActivity == run.states[0].lastActivity
    ensures forall l: nat | m < l < n :: !CountedAt(run, l)
  {
    if n == 0 {
      m := -1;
    } else {
      StepActivity(run, n - 1);
      if CountedAt(run, n - 1) {
        m := n - 1;
      } else {
        m := LatestActivity(run, n - 1);
      }
    }
  }

  ghost predicate Opens(r: Request, w: World, answer: Response) {
    (r.Unlock? || r.CreateAccount?) && w.check.Right? && answer.Done?
  }

  lemma ServedOpens(s: State, r: Request, c: Context, w: World)
    requires !r.Ping? && !r.Shutdown? && Served(s, r, c, w).0.session.Some?
    ensures Served(s, r, c, w).0.session == s.session || Opens(r, w, Served(s, r, c, w).1)
  {
  }

  lemma StepOpens(run: Run, i: nat)
    requires run.Valid() && i < |run.events| && run.states[i + 1].session.Some?
    ensures run.states[i + 1].session == run.states[i].session ||
              (run.Requests(i) && Opens(run.events[i].request, run.events[i].world, run.answers[i]))
  {
    assert run.Follows(i);
    match run.events[i]
    case Requested(r, c, w) =>
      if !r.Ping? && !r.Shutdown? && (CarriesProfile(r) ==> w.sameProfile) {
        var (gated, refused) := Gated(Swept(run.states[i], w.sweepAt), r, c, w);
        if !refused {
          ServedOpens(gated, r, c, w);
        }
      }
    case _ =>
  }

  // A held session was opened by an unlock or a new account, which itself counts.
  lemma {:induction false} SessionOpenedAt(run: Run, n: nat) returns (u: nat)
    requires run.Valid() && n <= |run.events| && run.states[n].session.Some?
    ensures u < n && CountedAt(run, u) && Opens(run.events[u].request, run.events[u].world, run.answers[u])
    ensures run.states[u + 1].session == run.states[n].session
  {
    StepOpens(run, n - 1);
    if run.states[n - 1].session == run.states[n].session {
      u := SessionOpenedAt(run, n - 1);
    } else {
      u := n - 1;
    }
  }

  // A vault still unlocked after a reaper tick, with autolock on, has had a counted
  // request in its present session less than the timeout ago. Anything else,
  // however often it is repeated, cannot hold the vault open.
  lemma UnlockedAfterReap(run: Run, n: nat) returns (m: nat)
    requires run.Valid() && n < |run.events| && run.events[n].Reap?
    requires run.states[n + 1].session.Some? && run.states[n + 1].autolock > 0
    ensures m < n && CountedAt(run, m) && run.states[m + 1].session == run.states[n + 1].session
    ensures run.events[n].at < run.events[m].world.touchAt + run.states[n + 1].autolock
  {
    assert run.Follows(n);
    var u := SessionOpenedAt(run, n);
    var l := LatestActivity(run, n);
    m := l;
    SessionUnbroken(run, u + 1, m + 1, n);
  }

  // --- Usage errors --------------------------------------------------------------------------------------

  function Answer(s: State, r: Request, c: Context, w: World): Response {
    Handle(s, r, c, w).1.response
  }

  // The answer came from a live session: had none been held, the same request would
  // have been told that the vault is locked.
  predicate FromSession(s: State, r: Request, c: Context, w: World) {
    s.session.Some? && Answer(s.(session := None), r, c, w).IsLocked?
  }

  // The requests that are refused with a usage error before any session is looked for.
  predicate RefusedUnseen(s: State, r: Request, c: Context, w: World) {
    match r
    case Unlock(_) => w.check.NoSecretKey? || w.check.Broken?
    case CreateAccount => !w.check.Right?
    case TrustDevice => s.pairingUntil.None? || w.checkAt >= s.pairingUntil.value
    case ConfirmPresence => c.agentConnection
    case _ => false
  }

  predicate PastGates(s: State, r: Request, c: Context, w: World) {
    && !r.Ping? && !r.Shutdown? && (CarriesProfile(r) ==> w.sameProfile)
    && !Gated(Swept(s, w.sweepAt), r, c, w).1
  }

  lemma ServedUsageError(s: State, r: Request, c: Context, w: World)
    requires !r.Ping? && !r.Shutdown?
    ensures RefusedUnseen(s, r, c, w) ==>
              Served(s, r, c, w).1.UsageError? && Served(s.(session := None), r, c, w).1.UsageError?
    ensures Served(s, r, c, w).1.UsageError? && !RefusedUnseen(s, r, c, w) ==>
              s.session.Some? && Served(s.(session := None), r, c, w).1.IsLocked?
    ensures Served(s, r, c, w).1.UsageError? ==> CountsAsActivity(r)
  {
  }

  lemma GatesWithoutSession(s: State, r: Request, c: Context, w: World)
    requires PastGates(s, r, c, w)
    ensures PastGates(s.(session := None), r, c, w)
    ensures var seen := Gated(Swept(s, w.sweepAt), r, c, w).0;
            seen.session == s.session && seen.pairingUntil == s.pairingUntil
    ensures Answer(s, r, c, w) == Served(Gated(Swept(s, w.sweepAt), r, c, w).0, r, c, w).1
  {
  }

  lemma GrantsUnseen(s: State, t: State, r: Request, c: Context, w: World)
    requires !r.Ping? && !r.Shutdown? && t == s.(grants := t.grants)
    ensures Served(s, r, c, w).1.IsLocked? <==> Served(t, r, c, w).1.IsLocked?
  {
  }

  // Every usage error resets the idle timer.
  lemma UsageErrorCounts(s: State, r: Request, c: Context, w: World)
    requires Answer(s, r, c, w).UsageError?
    ensures Handle(s, r, c, w).0.lastActivity == w.touchAt
  {
    GatesWithoutSession(s, r, c, w);
    ServedUsageError(Gated(Swept(s, w.sweepAt), r, c, w).0, r, c, w);
  }

  // A usage error that no live session gave is exactly that of a failed unlock or new
  // account that came to no wrong password, of trust outside pairing mode, or of a
  // presence check on the agent's own connection, past the gates. Every other one
  // came from a live session.
  lemma UsageErrorWithoutSession(s: State, r: Request, c: Context, w: World)
    ensures Answer(s, r, c, w).UsageError? && !FromSession(s, r, c, w) <==>
              PastGates(s, r, c, w) && RefusedUnseen(s, r, c, w)
  {
    if PastGates(s, r, c, w) {
      var seen := Gated(Swept(s, w.sweepAt), r, c, w).0;
      var unseen := Gated(Swept(s.(session := None), w.sweepAt), r, c, w).0;
      GatesWithoutSession(s, r, c, w);
      GatesWithoutSession(s.(session := None), r, c, w);
      ServedUsageError(seen, r, c, w);
      GrantsUnseen(unseen, seen.(session := None), r, c, w);
      ServedUsageError(unseen, r, c, w);
    }
  }

  // An unseen refusal, or a reaper tick that comes within the timeout of the latest
  // activity; any number of either, in any order.
  ghost predicate Idles(run: Run, i: nat, k: nat)
    requires run.Shaped() && i <= k < |run.events|
  {
    match run.events[k]
    case Requested(r, c, w) => PastGates(run.states[k], r, c, w) && RefusedUnseen(run.states[k], r, c, w)
    case Reap(at) => at < run.states[k].lastActivity + run.states[i].autolock
    case _ => false
  }

  lemma RefusedUnseenStep(s: State, r: Request, c: Context, w: World)
    requires PastGates(s, r, c, w) && RefusedUnseen(s, r, c, w)
    ensures var t := Handle(s, r, c, w).0;
            t.session == s.session && t.autolock == s.autolock && t.lastActivity == w.touchAt
  {
    UsageErrorWithoutSession(s, r, c, w);
    UsageErrorCounts(s, r, c, w);
  }

  // Such refusals alone, without a password or a session, hold an unlocked vault open
  // through every reaper tick, for as long as they go on: each puts the timer back to
  // its own time, and a tick changes nothing.
  lemma {:induction false} RefusalsHoldVaultOpen(run: Run, i: nat, n: nat)
    requires run.Valid() && i <= n <= |run.events|
    requires forall k | i <= k < n :: Idles(run, i, k)
    ensures run.states[n].session == run.states[i].session && run.states[n].autolock == run.states[i].autolock
    ensures forall k | i <= k < n ::
              run.states[k + 1].lastActivity ==
                if run.events[k].Requested? then run.events[k].world.touchAt else run.states[k].lastActivity
  {
    if n > i {
      RefusalsHoldVaultOpen(run, i, n - 1);
      assert Idles(run, i, n - 1);
      assert run.Follows(n - 1);
      var s, e := run.states[n - 1], run.events[n - 1];
      if e.Requested? {
        RefusedUnseenStep(s, e.request, e.context, e.world);
      }
    }
  }

  // --- Such a run --------------------------------------------------------------------------------------------

  const REAP_MS := 200

  function WorldAt(check: Check, now: Instant): World {
    World(true, now, now, now, now, now, check, seq(32, _ => 0), (_: string) => StorageError, false, false)
  }

  // How many reaper ticks there were before one of the agent's events, and how many
  // of them since it last asked.
  datatype Clock = Clock(ticks: nat, since: nat) {
    function Next(every: nat): Clock {
      if since >= every then Clock(ticks, 0) else Clock(ticks + 1, since + 1)
    }
  }

  function ClockAt(every: nat, k: nat): (clock: Clock)
    ensures clock.since <= every && (clock.since <= clock.ticks || clock == Clock(0, every))
  {
    if k == 0 then Clock(0, every) else ClockAt(every, k - 1).Next(every)
  }

  // The agent asks to confirm presence on its own connection, once in so many ticks;
  // the reaper ticks at every interval.
  function IdleEvent(every: nat, clock: Clock): Event {
    if clock.since >= every
    then Requested(ConfirmPresence, Context(true, None), WorldAt(Broken, REAP_MS * clock.ticks))
    else Reap(REAP_MS * (clock.ticks + 1))
  }

  // A person unlocks and an agent registers; then there is nobody but the agent.
  function AgentEvent(autolock: nat, every: nat, k: nat): Event {
    if k == 0 then Requested(Unlock(Some(autolock)), Context(false, None), WorldAt(Right, 0))
    else if k == 1 then Requested(BeginAgentSession, Context(false, None), WorldAt(Broken, 0))
    else IdleEvent(every, ClockAt(every, k - 2))
  }

  function AgentState(autolock: nat, every: nat, k: nat): State {
    if k == 0 then Fresh(autolock, 0) else Step(AgentState(autolock, every, k - 1), AgentEvent(autolock, every, k - 1))
  }

  ghost predicate AgentActs(run: Run, autolock: nat, every: nat, k: nat)
    requires k < |run.events|
  {
    run.events[k] == AgentEvent(autolock, every, k)
  }

  ghost predicate IsAgentRun(run: Run, autolock: nat, every: nat) {
    && run.Valid() && run.states[0] == Fresh(autolock, 0)
    && forall k: nat | k < |run.events| :: AgentActs(run, autolock, every, k)
  }

  function AgentAnswer(autolock: nat, every: nat, k: nat): Response {
    var e := AgentEvent(autolock, every, k);
    if e.Requested? then AnswerOf(AgentState(autolock, every, k), e) else Pong
  }

  lemma AgentRunExists(autolock: nat, every: nat, n: nat) returns (run: Run)
    ensures IsAgentRun(run, autolock, every) && |run.events| == n
  {
    run := Run(
      seq(n + 1, k requires 0 <= k => AgentState(autolock, every, k)),
      seq(n, k requires 0 <= k => AgentEvent(autolock, every, k)),
      seq(n, k requires 0 <= k => AgentAnswer(autolock, every, k)));
    assert run.states[0] == Fresh(autolock, 0);
    forall i: nat | i < n ensures run.Follows(i) && AgentActs(run, autolock, every, i) {
      assert run.states[i + 1] == Step(run.states[i], run.events[i]);
    }
  }

  // Every tick of the reaper is among its events.
  lemma {:induction false} EveryTick(autolock: nat, every: nat, t: nat) returns (k: nat)
    requires every > 0 && t > 0
    ensures 2 < k <= 2 + 2 * t && AgentEvent(autolock, every, k) == Reap(REAP_MS * t)
    ensures ClockAt(every, k - 2).ticks == t - 1
  {
    if t == 1 {
      k := 3;
      assert ClockAt(every, 0) == Clock(0, every) && ClockAt(every, 1) == Clock(0, 0);
    } else {
      var before := EveryTick(autolock, every, t - 1);
      var next := ClockAt(every, before - 1);
      assert next == ClockAt(every, before - 2).Next(every) && next.ticks == t - 1;
      k := before + 1;
      if next.since >= every {
        assert ClockAt(every, before) == next.Next(every);
        k := before + 2;
      }
    }
  }

  lemma AgentRunOpens(run: Run, autolock: nat, every: nat)
    requires autolock > 0 && IsAgentRun(run, autolock, every) && |run.events| >= 2
    ensures run.states[1].session.Some? && run.states[2].session.Some?
    ensures run.states[2].autolock == autolock && run.states[2].lastActivity == 0
  {
    assert run.Follows(0) && run.Follows(1);
    assert AgentActs(run, autolock, every, 0) && AgentActs(run, autolock, every, 1);
  }

  lemma AgentAsks(s: State, now: Instant)
    ensures var c, w := Context(true, None), WorldAt(Broken, now);
            PastGates(s, ConfirmPresence, c, w) && RefusedUnseen(s, ConfirmPresence, c, w)
  {
  }

  // The timer shows when the agent last asked.
  ghost predicate TimerAt(s: State, clock: Clock, every: nat) {
    clock != Clock(0, every) ==> s.lastActivity == REAP_MS * (clock.ticks - clock.since)
  }

  lemma AgentIdles(run: Run, autolock: nat, every: nat, k: nat)
    requires autolock > REAP_MS * every && run.Shaped() && 2 <= k < |run.events|
    requires run.states[2].autolock == autolock && AgentActs(run, autolock, every, k)
    requires TimerAt(run.states[k], ClockAt(every, k - 2), every)
    ensures Idles(run, 2, k)
  {
    var clock := ClockAt(every, k - 2);
    if clock.since >= every {
      AgentAsks(run.states[k], REAP_MS * clock.ticks);
    }
  }

  lemma {:induction false} AgentIdlesUntil(run: Run, autolock: nat, every: nat, n: nat)
    requires autolock > REAP_MS * every && every > 0 && IsAgentRun(run, autolock, every) && 2 <= n <= |run.events|
    requires run.states[2].autolock == autolock
    ensures TimerAt(run.states[n], ClockAt(every, n - 2), every)
    ensures forall k | 2 <= k < n :: Idles(run, 2, k)
  {
    if n > 2 {
      AgentIdlesUntil(run, autolock, every, n - 1);
      assert AgentActs(run, autolock, every, n - 1);
      AgentIdles(run, autolock, every, n - 1);
      RefusalsHoldVaultOpen(run, 2, n);
    }
  }

  // An agent that only asks to confirm presence, which it may not, and only once in so
  // many reaper ticks as fit into the timeout, keeps the vault from locking for any
  // number of ticks; nobody else is there after the unlock.
  lemma AgentHoldsVaultOpen(run: Run, autolock: nat, every: nat)
    requires autolock > REAP_MS * every && every > 0 && IsAgentRun(run, autolock, every)
    ensures forall k | 1 <= k <= |run.events| :: run.states[k].session.Some?
  {
    if |run.events| >= 2 {
      AgentRunOpens(run, autolock, every);
      AgentIdlesUntil(run, autolock, every, |run.events|);
      forall k | 2 <= k <= |run.events| ensures run.states[k].session.Some? {
        RefusalsHoldVaultOpen(run, 2, k);
      }
    } else if |run.events| == 1 {
      assert run.Follows(0);
      assert AgentActs(run, autolock, every, 0);
    }
  }
}
