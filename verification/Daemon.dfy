/**
 The daemon's guarded state as a value, and what one request, one reaper tick or
 one closed connection makes of it. Everything the engine learns from outside
 (clock readings, password checks, item lookups, random tokens) is in `World`.
 */
module Daemon {
  import opened Wrappers
  import opened Hex

  const MAX_PRESENCE_FAILURES := 5
  const MAX_PRESENCE_GRANTS := 8
  const PRESENCE_GRANT_MS := 300_000
  const PAIRING_WINDOW_MS := 180_000
  const AGENT_FILL_WINDOW_MS := 180_000
  const FILL_INTENT_TTL_MS := 30_000

  type Instant = nat

  datatype Grant = Grant(token: Token, expiresAt: Instant)

  datatype FillWindow = FillWindow(until: Instant, items: set<string>)

  datatype FillReport = FillReport(filled: bool, detail: nat)

  datatype PendingFill = PendingFill(
    itemId: string, tabId: Option<nat>, origin: string, overwrite: bool,
    expiresAt: Instant, taken: bool, report: Option<FillReport>)

  // An open nearby-sync window, with the flag its job clears when it ends.
  datatype Listen = Listen(job: nat, until: Instant, running: bool)

  // `session` names the held session by how many sessions were opened before it.
  datatype State = State(
    session: Option<nat>, sessions: nat,
    autolock: nat, lastActivity: Instant,
    pairingUntil: Option<Instant>,
    agentFill: Option<FillWindow>, pendingFill: Option<PendingFill>,
    agentFillWindow: nat, fillIntentTtl: nat,
    agentSessions: nat,
    grants: seq<Grant>, failures: nat, presenceTtl: nat,
    listen: Option<Listen>, jobs: nat)

  function Fresh(autolock: nat, now: Instant): State {
    State(None, 0, autolock, now, None, None, None, AGENT_FILL_WINDOW_MS, FILL_INTENT_TTL_MS,
          0, [], 0, PRESENCE_GRANT_MS, None, 0)
  }

  // --- Requests, the world and responses ------------------------------------------------

  datatype Request =
    | Ping
    | Shutdown
    | Lock
    | Status(keepalive: bool)
    | BeginAgentSession
    | ConfirmPresence
    | Unlock(autolock: Option<nat>)
    | CreateAccount
    | SetPairingMode(enabled: bool)
    | SetAgentFillMode(on: bool, items: seq<string>)
    | ArmFillIntent(item: string, tabId: Option<nat>, origin: string, overwrite: bool)
    | TakeFillIntent
    | ReportFillOutcome(itemId: string, outcome: FillReport)
    | PollFillOutcome
    | TrustDevice
    | NearbyListen(window: nat)
    | NearbyConnect(shares: bool)
    | NearbyStatus
    | NearbyStop
    | VaultCall(changes: bool)  // every request that only runs against the session

  datatype Context = Context(agentConnection: bool, presenceGrant: Option<string>)

  // The outcome of checking a password (or creating an account).
  datatype Check = NoSecretKey | Right | Wrong | Broken

  datatype Refusal = NotArmed | ItemNotFound | AmbiguousItem | ItemNotArmed | OriginMismatch

  datatype Resolution = Item(id: string) | Refused(reason: Refusal) | StorageError

  datatype World = World(
    sameProfile: bool,
    sweepAt: Instant, gateAt: Instant, checkAt: Instant, workAt: Instant, touchAt: Instant,
    check: Check, token: Token,
    resolve: string -> Resolution, originMatches: bool,
    accepted: bool)  // whether a delegated call or a listen or dial request is valid

  datatype FillStatus = NoIntent | Pending | Taken | Expired | Reported

  datatype Response =
    | Pong
    | Done
    | StatusReply(unlocked: bool, agentSession: bool, agentFill: bool)
    | WrongProfile
    | PresenceRequired
    | IsLocked
    | AuthError
    | UsageError
    | PresenceGrant(token: string)
    | FillRefused(reason: Refusal)
    | FillIntentArmed(itemId: string)
    | FillIntent(itemId: string, tabId: Option<nat>, origin: string, overwrite: bool)
    | NoFillIntent
    | FillOutcome(status: FillStatus)

  datatype Handled = Handled(response: Response, shutdown: bool, beganAgentSession: bool)

  function Reply(r: Response): Handled {
    Handled(r, false, false)
  }

  predicate CarriesProfile(r: Request) {
    !r.Ping? && !r.Lock? && !r.Shutdown?
  }

  predicate NeedsPresence(r: Request) {
    match r
    case SetAgentFillMode(on, _) => on
    case SetPairingMode(enabled) => enabled
    case NearbyConnect(shares) => shares
    case NearbyListen(_) => true
    case TrustDevice => true
    case VaultCall(changes) => changes
    case _ => false
  }

  predicate CountsAsActivity(r: Request) {
    match r
    case Status(keepalive) => keepalive
    case TakeFillIntent => false
    case PollFillOutcome => false
    case NearbyStatus => false
    case BeginAgentSession => false
    case _ => true
  }

  predicate ResponseCountsAsActivity(r: Response) {
    !r.IsLocked? && !r.WrongProfile? && !r.AuthError?
  }

  // --- State operations ----------------------------------------------------------------

  function Locked(s: State): State {
    s.(session := None, agentFill := None, pendingFill := None, grants := [], failures := 0, listen := None)
  }

  // Hold a new session in place of any other.
  function Opened(s: State): State {
    Locked(s).(session := Some(s.sessions), sessions := s.sessions + 1)
  }

  function EndedAgentSession(s: State): State {
    s.(agentSessions := if s.agentSessions > 0 then s.agentSessions - 1 else 0)
  }

  function LiveGrants(grants: seq<Grant>, now: Instant): (live: seq<Grant>)
    ensures |live| <= |grants|
    ensures forall g :: g in live <==> g in grants && now < g.expiresAt
  {
    if grants == [] then [] else
    (if now < grants[0].expiresAt then [grants[0]] else []) + LiveGrants(grants[1..], now)
  }

  function WithGrant(s: State, now: Instant, token: Token): State {
    var live := LiveGrants(s.grants, now);
    var room := if |live| >= MAX_PRESENCE_GRANTS then live[1..] else live;
    s.(grants := room + [Grant(token, now + s.presenceTtl)])
  }

  predicate Granted(grants: seq<Grant>, presented: Option<string>) {
    presented.Some? && HexDecode(presented.value).Some?
    && exists g :: g in grants && g.token == HexDecode(presented.value).value
  }

  predicate AutolockDue(s: State, now: Instant) {
    s.session.Some? && s.autolock != 0 && now >= s.lastActivity + s.autolock
  }

  function Reaped(s: State, now: Instant): State {
    if AutolockDue(s, now) then Locked(s) else s
  }

  predicate WindowOpen(w: Option<FillWindow>, now: Instant) {
    w.Some? && now < w.value.until
  }

  // A lapsed window is cleared, and its intent with it.
  function Swept(s: State, now: Instant): State {
    if s.agentFill.Some? && now >= s.agentFill.value.until
    then s.(agentFill := None, pendingFill := None)
    else s
  }

  predicate Takeable(p: Option<PendingFill>, now: Instant) {
    p.Some? && !p.value.taken && now < p.value.expiresAt
  }

  function StatusOf(p: Option<PendingFill>, now: Instant): FillStatus {
    match p
    case None => NoIntent
    case Some(i) =>
      if i.report.Some? then Reported
      else if now >= i.expiresAt then Expired
      else if i.taken then Taken
      else Pending
  }

  predicate Listening(s: State, now: Instant) {
    s.listen.Some? && s.listen.value.running && now < s.listen.value.until
  }

  // --- Handlers --------------------------------------------------------------------------

  function ConfirmedPresence(s: State, c: Context, w: World): (State, Response) {
    if c.agentConnection then (s, UsageError)
    else if s.session.None? then (s, IsLocked)
    else match w.check
    case Right => (WithGrant(s.(failures := 0), w.workAt, w.token), PresenceGrant(HexEncode(w.token)))
    case Wrong =>
      var failed := s.(failures := s.failures + 1);
      (if failed.failures >= MAX_PRESENCE_FAILURES then Locked(failed) else failed, AuthError)
    case _ => (s, UsageError)
  }

  function Unlocked(s: State, autolock: Option<nat>, w: World): (State, Response) {
    match w.check
    case Right =>
      var held := Opened(s);
      (if autolock.Some? then held.(autolock := autolock.value) else held, Done)
    case Wrong => (s, AuthError)
    case _ => (s, UsageError)
  }

  function CreatedAccount(s: State, w: World): (State, Response) {
    if w.check.Right? then (Opened(s), Done) else (s, UsageError)
  }

  // The ids of every named item, or the answer for the first that has none.
  function ResolveAll(items: seq<string>, resolve: string -> Resolution): (r: Result<set<string>, Response>)
    ensures r.Err? ==> r.error.FillRefused? || r.error.UsageError?
  {
    if items == [] then Ok({}) else
    match ResolveAll(items[..|items| - 1], resolve)
    case Err(answer) => Err(answer)
    case Ok(ids) =>
      match resolve(items[|items| - 1])
      case Item(id) => Ok(ids + {id})
      case Refused(reason) => Err(FillRefused(reason))
      case StorageError => Err(UsageError)
  }

  function FillModeSet(s: State, on: bool, items: seq<string>, w: World): (State, Response) {
    if s.session.None? then (s, IsLocked)
    else if !on then (s.(agentFill := None, pendingFill := None), Done)
    else if items == [] then (s, UsageError)
    else match ResolveAll(items, w.resolve)
    case Err(answer) => (s, answer)
    case Ok(ids) => (s.(agentFill := Some(FillWindow(w.workAt + s.agentFillWindow, ids)), pendingFill := None), Done)
  }

  function IntentArmed(s: State, r: Request, w: World): (State, Response)
    requires r.ArmFillIntent?
  {
    if s.session.None? then (s, IsLocked)
    else if !WindowOpen(s.agentFill, w.gateAt) then (s, FillRefused(NotArmed))
    else match w.resolve(r.item)
    case StorageError => (s, UsageError)
    case Refused(reason) => (s, FillRefused(reason))
    case Item(id) =>
      if !(WindowOpen(s.agentFill, w.checkAt) && id in s.agentFill.value.items) then (s, FillRefused(ItemNotArmed))
      else if !w.originMatches then (s, FillRefused(OriginMismatch))
      else
        var intent := PendingFill(id, r.tabId, r.origin, r.overwrite, w.workAt + s.fillIntentTtl, false, None);
        (s.(pendingFill := Some(intent)), FillIntentArmed(id))
  }

  function IntentTaken(s: State, w: World): (State, Response) {
    if s.session.None? then (s, IsLocked)
    else if !Takeable(s.pendingFill, w.workAt) then (s, NoFillIntent)
    else
      var i := s.pendingFill.value;
      (s.(pendingFill := Some(i.(taken := true))), FillIntent(i.itemId, i.tabId, i.origin, i.overwrite))
  }

  function OutcomeReported(s: State, itemId: string, outcome: FillReport): (State, Response) {
    if s.session.None? then (s, IsLocked)
    else if s.pendingFill.Some? && s.pendingFill.value.taken && s.pendingFill.value.itemId == itemId
    then (s.(pendingFill := Some(s.pendingFill.value.(report := Some(outcome)))), Done)
    else (s, UsageError)
  }

  function ListenOpened(s: State, window: nat, w: World): (State, Response) {
    if s.session.None? then (s, IsLocked)
    else if !w.accepted || Listening(s, w.checkAt) then (s, UsageError)
    else (s.(listen := Some(Listen(s.jobs, w.workAt + window, true)), jobs := s.jobs + 1), Done)
  }

  // A call that only runs against the held session.
  function Delegated(s: State, w: World): (State, Response) {
    (s, if s.session.None? then IsLocked else if w.accepted then Done else UsageError)
  }

  // The request behind the early gates.
  function Served(s: State, r: Request, c: Context, w: World): (State, Response)
    requires !r.Ping? && !r.Shutdown?
  {
    match r
    case Lock => (Locked(s), Done)
    case Status(_) => (s, StatusReply(s.session.Some?, s.agentSessions > 0, WindowOpen(s.agentFill, w.workAt)))
    case BeginAgentSession =>
      (if c.agentConnection then s else s.(agentSessions := s.agentSessions + 1), Done)
    case ConfirmPresence => ConfirmedPresence(s, c, w)
    case Unlock(autolock) => Unlocked(s, autolock, w)
    case CreateAccount => CreatedAccount(s, w)
    case SetPairingMode(enabled) =>
      if s.session.None? then (s, IsLocked)
      else (s.(pairingUntil := if enabled then Some(w.workAt + PAIRING_WINDOW_MS) else None), Done)
    case SetAgentFillMode(on, items) => FillModeSet(s, on, items, w)
    case ArmFillIntent(_, _, _, _) => IntentArmed(s, r, w)
    case TakeFillIntent => IntentTaken(s, w)
    case ReportFillOutcome(itemId, outcome) => OutcomeReported(s, itemId, outcome)
    case PollFillOutcome =>
      (s, if s.session.None? then IsLocked else FillOutcome(StatusOf(s.pendingFill, w.workAt)))
    case TrustDevice =>
      if s.pairingUntil.Some? && w.checkAt < s.pairingUntil.value then Delegated(s, w) else (s, UsageError)
    case NearbyListen(window) => ListenOpened(s, window, w)
    // The dial runs with the mutex released; its result replaces this provisional answer.
    case NearbyConnect(_) => (s, if s.session.None? then IsLocked else UsageError)
    case NearbyStatus => (s, if s.session.None? then IsLocked else Done)
    case NearbyStop => (s.(listen := None), Done)
    case VaultCall(_) => Delegated(s, w)
  }

  // The presence gate: the state it leaves and whether the request is refused.
  // An agent connection is refused before the grants are looked at.
  function Gated(s: State, r: Request, c: Context, w: World): (State, bool) {
    if !(NeedsPresence(r) && s.agentSessions > 0 && s.session.Some?) then (s, false)
    else if c.agentConnection then (s, true)
    else
      var looked := s.(grants := LiveGrants(s.grants, w.gateAt));
      (looked, !Granted(looked.grants, c.presenceGrant))
  }

  function Handle(s: State, r: Request, c: Context, w: World): (State, Handled) {
    if r.Ping? then (s, Reply(Pong))
    else if r.Shutdown? then (Locked(s), Handled(Done, true, false))
    else if CarriesProfile(r) && !w.sameProfile then (s, Reply(WrongProfile))
    else
      var swept := Swept(s, w.sweepAt);
      var (gated, refused) := Gated(swept, r, c, w);
      if refused then (gated, Reply(PresenceRequired)) else
      var (served, response) := Served(gated, r, c, w);
      var touched :=
        if CountsAsActivity(r) && ResponseCountsAsActivity(response) then served.(lastActivity := w.touchAt)
        else served;
      (touched, Handled(response, false, r.BeginAgentSession?))
  }

  // --- Events ---------------------------------------------------------------------------------

  datatype Event =
    | Requested(request: Request, context: Context, world: World)
    | Reap(at: Instant)
    | EndAgentSession
    | JobEnded(job: nat)

  function Step(s: State, e: Event): State {
    match e
    case Requested(r, c, w) => Handle(s, r, c, w).0
    case Reap(at) => Reaped(s, at)
    case EndAgentSession => EndedAgentSession(s)
    case JobEnded(job) =>
      if s.listen.Some? && s.listen.value.job == job
      then s.(listen := Some(s.listen.value.(running := false)))
      else s
  }
}
