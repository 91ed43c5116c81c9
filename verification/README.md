# LocalPass: a verified model of its protocols and codecs

LocalPass is a local password manager: a daemon that holds an unlocked vault, a command
line, a native-messaging host, and a browser extension. This project models the parts
whose correctness is hard to see from the code and proves what they promise, in Dafny
4.11. `dafny verify dfyconfig.toml` checks everything.

## What is modelled

- **The daemon** (`Hex`, `Daemon`, `DaemonRuns`, `DaemonLaws`, `Engine`, `Server`,
  `ServerRuns`). `Daemon` is the engine's state and one atomic step under the mutex as
  functions on values: the session, idle timer, agent sessions, presence grants, the
  agent-fill window and its one pending intent, and the nearby window. `Engine.LiveState` is
  the object whose methods update those fields; each method equals its function.
  `DaemonRuns` proves what every run keeps, in any interleaving of requests, reaper ticks,
  closed agent connections and ended listen jobs. `DaemonLaws` says of each kind of request
  when it is refused, what it may change and what it is answered, and draws the conclusions
  for runs. `Server` adds worker threads and connections, and `ServerRuns` reads each of its
  runs as a run of the daemon, so that what holds there holds of connections. A run supplies
  every clock reading, the verdict on each password, random tokens, and the answers of vault
  look-ups.
- **The extension** (`Background`, `AgentFill`, `Redeem`). The native-messaging bridge, which
  matches untagged replies first in, first out; the agent-fill poll loop, whose flags other
  callbacks see at every await; and the redemption of one fill intent, with the function
  that runs in the page.
- **The Secret Key** (`Text`, `Crc32`, `Blocks`, `Base32`, `SecretKey`, `Syndromes`,
  `Changes`, `Bursts`, `Typos`): base32 regrouping, the reflected CRC-32 and the forgiving
  decoder, up to the theorems that say which changes of neighbouring bits and symbols are
  noticed, that one wrong symbol always is, and that no single edit of the display form
  leads to another key.
- **The calendar** (`Timestamp`, `TimestampText`): days to civil dates against the Gregorian
  rules, and the text rendered from an instant.
- **Streams** (`Wire`, `Streams`, `Framing`, `Host`, `Frame`): both length-prefixed framings
  over streams that deliver their bytes in arbitrary pieces, are interrupted, end or break
  anywhere; and the native host's loop over a writer that may fail in any write or flush.
- **Nearby sync** (`Nearby`, `Listener`): the address policy, the accept loop of one listen
  window, and the bookkeeping of windows.
- **Parsers and samplers** (`Strings`, `Suffixes`, `Origin`, `Reference`, `Generate`): the
  registrable domain and URL matching, percent-decoded secret references, and password
  generation by rejection sampling.

`Wrappers` holds the two datatypes for absent values and failures. A state machine is a
function on values; a run is a datatype of states and events whose `Follows` ties each state
to the next. Where the source updates an object in place, a class does, and each of its
methods is proved equal to the function.

## Where the code and its comments differ

The model follows the code.

- `background.js` says that leaving a timed-out id in the queue keeps the FIFO alignment
  exact. It does if no port is opened while an older port's disconnect listener is still to
  run (`Background.ResolvesWithOwnReply`). A port that refuses a message is forgotten at
  once, so the next request can open one too early; the late listener then empties the queue
  of the new port. `Background.RefusedMessageMisdelivers` is such a run, and
  `Background.LateListenerMisdelivers` shows that every state which owes a listener
  leads to one.
- The comment on `response_counts_as_activity` (`engine.rs:1610-1614`) says that a usage
  error counts as activity because its caller was authenticated and had reached a live
  session. The code counts every usage error (`DaemonRuns.UsageErrorCounts`), and four
  requests get one before any session is looked for: an unlock whose account or Secret Key
  is missing or broken, a refused new account, trust outside pairing mode, and a presence
  check on the agent's own connection. `DaemonRuns.UsageErrorWithoutSession` shows that
  these are exactly the exceptions. Repeated within the timeout, they alone keep an unlocked
  vault from locking, through every reaper tick (`DaemonRuns.RefusalsHoldVaultOpen`), and an
  agent can do so by itself (`DaemonRuns.AgentHoldsVaultOpen`).
- `host_of` is documented to take a bare host. It reads one, with whatever stands around
  it, if no `://` follows; otherwise it reads the host behind the first `://`
  (`Origin.BareHostIsRead`). So a login saved for `bank.com/?next=https://evil.com` matches
  the pages of `evil.com` and not those of `bank.com` (`Origin.SavedForBank`).
- `secretkey.rs:37-40` says that the checksum catches all burst errors up to 32 bits. The
  payload has its highest bits first and the CRC is reflected, so it is 29 bits
  (`Bursts.BurstCaught`). Of the changes within thirty neighbouring bits exactly one is
  accepted, from bit 113 on (`Bursts.ThirtyBits`), and it turns every key into another
  (`Bursts.EveryKeyEscapes`). In the text, up to six neighbouring symbols may be mistyped
  in any way and that is noticed; with seven it need not be (`Bursts.NeighboursMistyped`,
  `Bursts.SevenMistyped`).

## Model

| member | source | states |
|---|---|---|
| DaemonRuns.RunKeepsInv | crates/lp-daemon/src/engine.rs:292-304 | In every run a locked daemon has no fill window, intent, grant, failure count or listen window; a pending intent lies inside the armed scope; at most eight grants and four failures are held |
| DaemonRuns.SessionUnbroken | crates/lp-daemon/src/engine.rs:292-297 | A session once dropped is never held again: seeing the same session twice means no lock and no other session in between |
| DaemonRuns.GrantMinted | crates/lp-daemon/src/engine.rs:328-342 | Every grant held goes back to an earlier right password on a connection that is not the agent's, in the same session |
| DaemonRuns.PresencePassed | crates/lp-daemon/src/engine.rs:834-843 | A consent request past the gate, unlocked with an agent session open, came on another connection than the agent's, with the token of a grant minted less than its lifetime ago and no lock since |
| DaemonRuns.FiveWrongPasswordsLock | crates/lp-daemon/src/engine.rs:2166-2206 | Within one session, five wrong presence passwords with no right one among them leave the vault locked right after the fifth, whatever other requests come in between |
| DaemonRuns.IntentArmedAt | crates/lp-daemon/src/engine.rs:479-499 | The pending intent is the one the latest arming made, with its contents, in the same session and window; it is taken exactly if it was handed out since, and reported exactly if a report was accepted since |
| DaemonRuns.HandedOut | crates/lp-daemon/src/engine.rs:517-532 | An intent handed out has the contents it was armed with, for the item that the arming request's own look-up gave and whose origin matched then; it was not handed out before, is within its own deadline, and the vault is unlocked in the same session with the same window, still open, covering the item |
| DaemonRuns.HandedOutOnce | crates/lp-daemon/src/engine.rs:2041-2057 | Between any two hand-outs there is an arming |
| DaemonRuns.StatusOnlyAdvances | crates/lp-daemon/src/engine.rs:546-574 | One intent's reported status only moves from pending over taken and expired to reported |
| DaemonRuns.LatestActivity | crates/lp-daemon/src/engine.rs:1465-1477 | The idle timer shows exactly the latest request that got past the gates and passed both activity tests, or the start |
| DaemonRuns.SessionOpenedAt | crates/lp-daemon/src/engine.rs:2120-2154 | Every held session was opened by an unlock or a new account, itself counted as activity |
| DaemonRuns.UnlockedAfterReap | crates/lp-daemon/src/engine.rs:359-368 | A vault still unlocked after a reaper tick has had a counted request in its present session within the timeout |
| DaemonRuns.UsageErrorCounts | crates/lp-daemon/src/engine.rs:1602-1620 | Every usage error, on any request in any state, sets the idle timer to the time of the request |
| DaemonRuns.UsageErrorWithoutSession | crates/lp-daemon/src/engine.rs:1610-1614 | A usage error is one that a locked daemon would not have given, except exactly for the four requests that are refused before a session is looked for, past the gates |
| DaemonRuns.RefusalsHoldVaultOpen | crates/lp-daemon/src/engine.rs:359-368 | Such refusals alone, any number of them among any number of reaper ticks that each come within the timeout of the latest, keep the session for as long as they go on; each sets the timer, no tick does |
| DaemonRuns.AgentRunExists | crates/lp-daemon/src/engine.rs:2167-2172 | There is a run of any length in which, after one unlock and one registration, the reaper ticks at its interval and only the agent's connection asks to confirm presence, once in a given number of ticks |
| DaemonRuns.EveryTick | crates/lp-daemon/src/server.rs:50 | No tick of the reaper is missing in it: every multiple of 200 ms is one |
| DaemonRuns.AgentHoldsVaultOpen | crates/lp-daemon/src/engine.rs:2167-2172 | In that run the vault is unlocked after every event, if the ticks between two requests take less than the timeout |
| DaemonLaws.PresenceMissing | crates/lp-daemon/src/protocol.rs:986-1009 | Presence is missing exactly for changes, trust, shares, listening and switching pairing or agent fill on, while an agent session is open on an unlocked daemon: on the agent's connection always, elsewhere without the token of a live grant; no read and nothing that narrows is ever refused this way |
| DaemonLaws.AgentOpensNoWindow | crates/lp-daemon/src/engine.rs:834-843 | No request of any kind on the agent's connection brings a fill, pairing or nearby window into being, unlocked or not |
| DaemonLaws.AgentRefused | crates/lp-daemon/src/engine.rs:834-843 | A change, trust or share asked there is answered that presence is required, or that the daemon is locked |
| DaemonLaws.PresenceChecked | crates/lp-daemon/src/engine.rs:2166-2206 | Every answer to a presence check with its exact condition, and what it does to grants, failures and session |
| DaemonLaws.FillModeOn | crates/lp-daemon/src/engine.rs:1940-1980 | Agent fill switched on covers exactly the items named, for the set length; otherwise nothing changes and the first item that cannot be found, or the empty list, decides the answer |
| DaemonLaws.WindowOpenedAt | crates/lp-daemon/src/engine.rs:422-436 | In every run a fill window goes back to the latest switch, in the same session: it covers exactly the items named then and ends three minutes later |
| DaemonLaws.ArmedExactly | crates/lp-daemon/src/engine.rs:1994-2033 | An intent is armed exactly for the item its own look-up gave, covered by the open window, with a matching origin |
| DaemonLaws.ArmingRefused | crates/lp-daemon/src/engine.rs:1994-2033 | The exact condition of every refusal of an arming |
| DaemonLaws.TakenExactly | crates/lp-daemon/src/engine.rs:517-532 | A take hands out exactly what is pending, unexpired and untaken in a window that has not lapsed |
| DaemonLaws.ArmedIsHandedOut | crates/lp-daemon/src/engine.rs:517-532 | In every run an armed intent that nothing took, replaced or dropped is handed out, with its contents, to the first who asks within its lifetime |
| DaemonLaws.ReportAcceptedExactly | crates/lp-daemon/src/engine.rs:534-544 | A report is accepted exactly for the item of a pending intent that was handed out |
| DaemonLaws.OutcomeTold | crates/lp-daemon/src/engine.rs:546-574 | A polled outcome is what happened since the latest arming: reported, expired, handed out, or none of these |
| DaemonLaws.TimerSet | crates/lp-daemon/src/engine.rs:1583-1620 | The idle timer stays for a ping, a shutdown, a status that is no keep-alive, the two agent-fill polls, the nearby status and a registration, and for the answers locked, wrong profile, authentication failed and presence required; everything else sets it to its own time |
| DaemonLaws.LocksOnTime | crates/lp-daemon/src/engine.rs:1587-1597 | In every run, if there was nothing but such requests since the latest activity, the first reaper tick at the timeout leaves the vault locked |
| DaemonLaws.SessionEndsExactly | crates/lp-daemon/src/engine.rs:292-368 | A session ends exactly by the reaper with autolock on and the timeout passed, a lock, a shutdown, an unlock, a new account, or the fifth wrong password; with autolock off no time ends it |
| DaemonLaws.OpensExactly | crates/lp-daemon/src/engine.rs:2120-2154 | An unlock or new account succeeds exactly on the right check; nothing of an earlier session is left, and the timeout asked for is set |
| DaemonLaws.LockedExactly | crates/lp-daemon/src/engine.rs:1628-1639 | Locked is what a daemon without a session answers to every request that needs the vault, and what one with a session never answers |
| DaemonLaws.DoneExactly | crates/lp-daemon/src/engine.rs:1180-1345 | When each kind of request that is neither about presence nor about agent fill is done |
| DaemonLaws.ListenChanges | crates/lp-daemon/src/engine.rs:1717-1783 | Only listening that is done opens a nearby window, for the time asked; a stop and the end of the session leave none; nothing else changes it |
| DaemonLaws.FreshGrantHonoured | crates/lp-daemon/src/engine.rs:328-354 | In every run the token a right password earned passes the gate on every connection but the agent's, until it expires, there is a lock, or eight newer ones were issued |
| DaemonLaws.StatusIsTrue | crates/lp-daemon/src/engine.rs:853-878 | The flags of a status reply are what a vault request, a change on the agent's connection and an arming would meet |
| DaemonLaws.TrustNeedsPairing | crates/lp-daemon/src/engine.rs:1221-1236 | In every run a device is trusted only in the pairing window that the latest switch opened less than three minutes ago |
| Engine.LiveState.constructor | crates/lp-daemon/src/engine.rs:195-219 | A new state is locked and empty |
| Engine.LiveState.Lock | crates/lp-daemon/src/engine.rs:292-304 | The whole new state of a lock |
| Engine.LiveState.EndAgentSession | crates/lp-daemon/src/engine.rs:315-317 | The saturating decrement |
| Engine.LiveState.IssuePresenceGrant | crates/lp-daemon/src/engine.rs:328-342 | Lapsed grants go, the oldest goes at the limit, the new one is last |
| Engine.LiveState.PresenceGranted | crates/lp-daemon/src/engine.rs:345-354 | True exactly for the token of a live grant; lapsed grants go |
| Engine.LiveState.MaybeAutolock | crates/lp-daemon/src/engine.rs:359-368 | Locks exactly when unlocked, autolock is on and the timeout has passed |
| Engine.LiveState.SweepAgentFill | crates/lp-daemon/src/engine.rs:1828-1838 | A lapsed window goes, with its intent |
| Engine.LiveState.ConfirmPresence | crates/lp-daemon/src/engine.rs:2166-2206 | The whole new state and answer of a presence check |
| Engine.LiveState.Unlock | crates/lp-daemon/src/engine.rs:2120-2154 | The whole new state and answer of an unlock |
| Engine.LiveState.SetAgentFillMode | crates/lp-daemon/src/engine.rs:1940-1980 | The window, with its items resolved in order up to the first failure |
| Engine.LiveState.ArmFillIntent | crates/lp-daemon/src/engine.rs:1994-2033 | The refusals in order, and the intent armed |
| Engine.LiveState.TakeFillIntent | crates/lp-daemon/src/engine.rs:2041-2057 | What is handed out and marked as taken |
| Engine.LiveState.ReportFillOutcome | crates/lp-daemon/src/engine.rs:2073-2093 | A report attaches only to a taken intent of the same item |
| Engine.LiveState.NearbyListen | crates/lp-daemon/src/engine.rs:1717-1783 | A window opens only when none is open |
| Engine.LiveState.HandleWith | crates/lp-daemon/src/engine.rs:796-843 | The gates, the dispatch and the activity accounting of one request, as the one atomic step of the runs |
| Engine.AnyGrant | crates/lp-daemon/src/engine.rs:351-354 | Folding over all grants without stopping is membership |
| Hex.HexRoundTrip | crates/lp-daemon/src/engine.rs:2211-2233 | A text decodes to a token exactly if it spells the token's hex text, each letter in either case |
| Hex.ConstantTimeEqual | crates/lp-daemon/src/engine.rs:2237-2243 | The folded difference is zero exactly for equal tokens |
| Server.AgentSessionsAreConnections | crates/lp-daemon/src/server.rs:238-259 | In every interleaving of workers the count is exactly the number of open connections whose registration was accepted, once each, and the closing decrement never saturates |
| Server.GateFollowsConnections | crates/lp-daemon/src/engine.rs:834-843 | While a registered connection is open, consent requests without a live grant are refused everywhere and on that connection always; when none is open, never |
| Server.HandleAgentSessions | crates/lp-daemon/src/engine.rs:880-894 | One request raises the count exactly for a first registration on its connection |
| Server.ConnectionsFollow | crates/lp-daemon/src/server.rs:298-318 | Which connections are open after a step, and which have registered: exactly those that had, and the one whose registration was just accepted |
| Server.NobodyWaits | crates/lp-daemon/src/server.rs:263-342 | A client may come at any time, and ask or leave whenever its worker reads; an answered one is read from again; the reaper and ended jobs may come at any time |
| Server.ServeFrame | crates/lp-daemon/src/server.rs:271-342 | What one frame does to the daemon, the connection's flag and its reply |
| Server.ServeConnection | crates/lp-daemon/src/server.rs:263-342 | The loop and its guard do what the recursive account of a connection says |
| Server.WorkedBalances | crates/lp-daemon/src/server.rs:246-259 | However a connection ends it leaves the count as it was, having answered its frames in order |
| Server.WorkedAnswers | crates/lp-daemon/src/server.rs:263-342 | A connection gets the daemon's own answer to each frame, in order, up to the first transport error, lost reply or shutdown and nothing after it; then its agent session ends |
| ServerRuns.ProjectedIsValid | crates/lp-daemon/src/server.rs:298-318 | What a run of workers and connections does to the daemon is a run of the daemon, ending in the same state |
| ServerRuns.ConsentCameFromElsewhere | crates/lp-daemon/src/engine.rs:834-843 | With a registered connection open, a consent request that is not refused came on a connection that had not registered, with a grant that a right password earned on a connection that had not registered, less than its lifetime ago and with no lock since |
| ServerRuns.RegisteredStays | crates/lp-daemon/src/server.rs:238-259 | A connection once registered stays so for as long as it is open |
| ServerRuns.AgentGainsNothing | crates/lp-daemon/src/protocol.rs:986-1009 | In every run of workers and connections nothing asked on a registered connection opens a fill, pairing or nearby window, and no change, trust or share asked there is done |
| ServerRuns.StatusTellsConnections | crates/lp-daemon/src/engine.rs:853-878 | A status reply says that an agent session is open exactly if a registered connection is |
| Background.LiveBridge.HostRequest | apps/extension/background.js:98-134 | The bookkeeping of a request, including one the port refuses |
| Background.LiveBridge.OnMessage | apps/extension/background.js:56-65 | A reply settles the oldest id unless it is a tombstone |
| Background.LiveBridge.OnTimeout | apps/extension/background.js:109-115 | A timeout settles its promise and leaves the id in the queue |
| Background.LiveBridge.OnDisconnect | apps/extension/background.js:67-84 | A disconnect rejects every open promise of the queue once, in order |
| Background.RejectionsExact | apps/extension/background.js:77-84 | Exactly the queued ids that are still pending are rejected, each once |
| Background.SettlesAtMostOnce | apps/extension/background.js:98-134 | Whatever ports, replies and timers do, every issued promise is pending or settled, never twice, and pending ids are queued |
| Background.SettledAfterTimer | apps/extension/background.js:109-115 | In every run, after its timer a promise is settled, as timed out if nothing settled it before; its id stays queued |
| Background.SettledAfterDisconnect | apps/extension/background.js:67-84 | After a disconnect every promise issued so far is settled and the queue is empty |
| Background.SettledAfterReply | apps/extension/background.js:56-65 | After a reply the oldest queued promise is settled, with that reply if it was open, and is out of the queue; nothing else changes |
| Background.SettledByItsEvent | apps/extension/background.js:56-134 | Every settlement goes back to its cause: a time-out to its own timer, an answer to the host's reply, a rejection to a refused message or a disconnect |
| Background.ResolvesWithOwnReply | apps/extension/background.js:21-35 | If no port is opened while a listener is owed, the queue is exactly what the one host still has to answer, tombstones included, and every promise resolves with the reply to its own payload |
| Background.ConnectAlignsIffPrompt | apps/extension/background.js:44-88 | Opening a port keeps the queue aligned exactly when no disconnect listener is owed |
| Background.LateListenerMisdelivers | apps/extension/background.js:67-84 | From every state that owes a listener, connecting at once can resolve a promise with another request's reply |
| Background.RefusedMessageMisdelivers | apps/extension/background.js:122-132 | A run from the start in which a refused message leads to such a misdelivery |
| AgentFill.LivePoller.NoteStatus | apps/extension/agentfill.js:109-117 | Which status replies open, extend and close the window |
| AgentFill.LivePoller.Arm | apps/extension/agentfill.js:119-127 | An open window is only extended; a new one resets the counters and schedules a poll |
| AgentFill.LivePoller.Disarm | apps/extension/agentfill.js:134-143 | No timer and no window are left |
| AgentFill.LivePoller.SchedulePoll | apps/extension/agentfill.js:145-152 | One timer, and only while armed |
| AgentFill.LivePoller.PollOnce | apps/extension/agentfill.js:155-181 | The timer callback up to its first await |
| AgentFill.LivePoller.AfterReread | apps/extension/agentfill.js:178-182 | The body after its status read |
| AgentFill.LivePoller.AfterTake | apps/extension/agentfill.js:184-204 | The body after its take request |
| AgentFill.LivePoller.AfterRefresh | apps/extension/agentfill.js:213-230 | The end of a status read, with its backoff |
| AgentFill.LivePoller.NoteHostFailure | apps/extension/agentfill.js:232-235 | The backoff ladder |
| AgentFill.OnePollAndNoLostWakeup | apps/extension/agentfill.js:145-208 | In every interleaving at most one poll or redemption runs and `busy` says so; disarmed means no timer; armed means a timer, at most a poll interval away, or a running body; failures, status reads and backoff stay within their limits |
| AgentFill.OpenAfter | apps/extension/agentfill.js:109-230 | The window is open after a callback exactly if a status reply with seconds left from an unlocked daemon came, or it was open and there was no other status reply, locked or third rejected take request, or deadline; and which deadline then stands |
| AgentFill.ArmedSince | apps/extension/agentfill.js:109-127 | While armed, a status reply opened the window, the latest deadline stands, and nothing closed it since |
| AgentFill.ClosedUntilReopened | apps/extension/agentfill.js:109-143 | From any event that closes the window on, no timer is set and no take request starts until a status reply opens it again |
| AgentFill.PollsOnlyInOpenWindow | apps/extension/agentfill.js:129-133 | A take request goes out only inside a window that a status reply opened and nothing closed; one the timer starts, before the announced deadline |
| AgentFill.AsksExactly | apps/extension/agentfill.js:155-184 | A take request goes out exactly when the timer fires in the window with nothing under way and the status was read within fifteen polls, or after a status read that was answered while the window is open |
| AgentFill.RereadsExactly | apps/extension/agentfill.js:174-182 | A poll reads the status first exactly after fifteen that did not |
| AgentFill.ReadIsNoted | apps/extension/agentfill.js:178-182 | What such a poll goes by afterwards is whether the daemon answered |
| AgentFill.RefreshesExactly | apps/extension/agentfill.js:158-166 | The status is read outside a poll exactly when the timer finds the window past its deadline, on a wake-up, or on a heartbeat while closed and past the backoff |
| AgentFill.RedeemsExactly | apps/extension/agentfill.js:196-208 | Exactly a take that was answered with an intent is followed by a redemption; the poll stays busy for exactly that |
| AgentFill.NothingIsHeldUp | apps/extension/agentfill.js:155-241 | Whatever is under way may end with any answer at any time, and popup, heartbeat and wake-up may always come |
| AgentFill.PollsApart | apps/extension/agentfill.js:43-44 | Two take requests of one window are at least a poll interval apart |
| AgentFill.RejectionsCounted | apps/extension/agentfill.js:184-195 | The failure counter is exactly the take requests rejected in a row in this window, and a rejection disarms exactly if it is the third |
| AgentFill.PollsCounted | apps/extension/agentfill.js:174-182 | The poll counter is exactly the take requests since a poll last read the status or the window opened, and never passes fifteen |
| AgentFill.BackoffFollowsFailures | apps/extension/agentfill.js:213-241 | The heartbeat's backoff is the rung for the host failures since the last answered status read, counted from the latest failure |
| Redeem.TargetIsTheOnlyMatch | apps/extension/agentfill.js:268-281 | Without a tab id a tab is chosen exactly if it is the only open one of that origin; it is not found exactly if there is none, ambiguous exactly if there are more |
| Redeem.NamedTabExactly | apps/extension/agentfill.js:255-267 | With a tab id that tab is chosen exactly if it shows the intent's origin; it is not found exactly if the browser has none, and the origin changed exactly if it shows another |
| Redeem.Redeem | apps/extension/agentfill.js:465-572 | The awaited steps, in order, and the page as they leave it |
| Redeem.ReportsExactlyOnce | apps/extension/agentfill.js:594-604 | A malformed intent has no effect; any other is reported exactly once, last but for the notification |
| Redeem.AsksOnceAfterEveryCheck | apps/extension/agentfill.js:457-464 | The credential is asked for exactly when the browser shows one such tab at the intent's origin, access is granted, and its page has a form whose password may be written; once, for the intent's item and origin, after a probe of that tab |
| Redeem.InjectsOnceIntoTheSameTab | apps/extension/agentfill.js:537-552 | A password is injected exactly when it was disclosed and the browser shows the same tab at the intent's origin a second time; once, with that credential |
| Redeem.InjectsOnlyAtTheOrigin | apps/extension/agentfill.js:537-552 | Whatever is injected goes into a tab that the browser's latest answer shows at the intent's origin: the tab named, or else the only one of that origin |
| Redeem.ReasonsExactly | apps/extension/agentfill.js:465-572 | The exact condition of `filled` and of every refusal after the target |
| Redeem.TargetReasonsExactly | apps/extension/agentfill.js:477-541 | The exact condition of the three refusals about the target, before and after the disclosure |
| Redeem.ProbeOnlyLooks | apps/extension/agentfill.js:300-419 | Without a password the injected function leaves the page alone and tells which fields are filled |
| Redeem.RefusedTells | apps/extension/agentfill.js:482-572 | What is told of an exchange that wrote nothing is nothing, or what the probe or the last look found |
| Redeem.FilledMeansWritten | apps/extension/agentfill.js:300-419 | `filled` is reported exactly when the page took the password; states reported are those before and after; otherwise the page is untouched |
| Redeem.NeverClobbers | apps/extension/agentfill.js:387-403 | A password already in the field survives unless the intent says otherwise, even one typed after the probe |
| Redeem.ReportsTellOnlyEmptiness | apps/extension/agentfill.js:16-22 | Report and notification depend on field values and credential only through which of them are empty |
| Crc32.Compute | crates/lp-crypto/src/secretkey.rs:102-115 | The nested loops compute the register function |
| Crc32.CheckValue | crates/lp-crypto/src/secretkey.rs:99-115 | The digits 1 to 9 give 0xCBF43926, the check value of CRC-32/IEEE |
| Crc32.BurstDetected | crates/lp-crypto/src/secretkey.rs:102-115 | A change within four consecutive bytes always changes the checksum |
| Base32.BytesOfSymbols | crates/lp-crypto/src/secretkey.rs:72-84 | Regrouping bytes into symbols loses nothing |
| Base32.SymbolsOfBytes | crates/lp-crypto/src/secretkey.rs:72-84 | Only the canonical symbols give the bytes they give |
| Base32.BytesExactly | crates/lp-crypto/src/secretkey.rs:72-84 | Decoding succeeds exactly on symbols that leave fewer than five bits over, all zero |
| SecretKey.Encode | crates/lp-crypto/src/secretkey.rs:118-143 | The buffers hold tag, dashes and symbols of key and checksum |
| SecretKey.Decode | crates/lp-crypto/src/secretkey.rs:147-190 | The checks in order, with their errors |
| SecretKey.RoundTrip | crates/lp-crypto/src/secretkey.rs:118-190 | Decoding an encoded key gives the key, for every key |
| SecretKey.ParsedExactly | crates/lp-crypto/src/secretkey.rs:147-190 | Decoding gives a key exactly for the spellings of that key's own text behind the tag |
| SecretKey.LayoutIgnored | crates/lp-crypto/src/secretkey.rs:88-97 | A dash or a space anywhere changes nothing |
| SecretKey.CaseIgnored | crates/lp-crypto/src/secretkey.rs:88-97 | Neither does the case of any letter |
| SecretKey.ConfusablesIgnored | crates/lp-crypto/src/secretkey.rs:88-97 | Behind the tag, O reads as 0, and I and L as 1, in any mixture with layout and case |
| SecretKey.ConfusedLetterReads | crates/lp-crypto/src/secretkey.rs:84-97 | An O in either case for a 0, or an I or L for a 1, anywhere behind the tag, reads the same |
| SecretKey.DisplayShape | crates/lp-crypto/src/secretkey.rs:118-143 | The display form is 42 characters: the tag, and the 32 symbols in their order in groups of five between single dashes |
| SecretKey.ErrorsExactly | crates/lp-crypto/src/secretkey.rs:147-190 | The exact condition of each error: no tag; a character outside the alphabet or symbols that spell no whole bytes; another number of symbols than 32; 32 that are no key's |
| Syndromes.TailAndSyndrome | crates/lp-crypto/src/secretkey.rs:102-115 | A change within the last t bits of four bytes whose effect on the checksum is confined to its first 30 - t bits is none, save one, for every t |
| Bursts.ThirtyBits | crates/lp-crypto/src/secretkey.rs:37-40 | For every key, a payload changed within any thirty neighbouring bits fails the checksum, except for one pattern from bit 113 on, which reads as one other key |
| Bursts.EveryKeyEscapes | crates/lp-crypto/src/secretkey.rs:37-40 | That pattern is a change within thirty bits and does lead every key to another |
| Bursts.BurstCaught | crates/lp-crypto/src/secretkey.rs:37-40 | Every change within any twenty-nine neighbouring bits of a payload fails the checksum |
| Bursts.SymbolBits | crates/lp-crypto/src/secretkey.rs:72-84 | Symbols and the bytes they spell have the same bits in the same order |
| Bursts.SixSymbols | crates/lp-crypto/src/secretkey.rs:147-190 | For every key, any change within any six neighbouring symbols fails the checksum |
| Bursts.SevenSymbols | crates/lp-crypto/src/secretkey.rs:147-190 | For every key, another key's symbols differ from its own in seven neighbouring places alone |
| Bursts.NeighboursMistyped | crates/lp-crypto/src/secretkey.rs:12-14 | A text that is a key's but for six neighbouring characters, whatever its layout and case, gives that key exactly if they fold to the same, and fails otherwise |
| Bursts.SevenMistyped | crates/lp-crypto/src/secretkey.rs:12-14 | With seven, every key's text can be mistyped as another key's, which decodes |
| Typos.SymbolTypo | crates/lp-crypto/src/secretkey.rs:147-190 | For every key, any other symbol in any one of the 32 places is rejected |
| Typos.OneCharacterChanged | crates/lp-crypto/src/secretkey.rs:147-190 | One symbol behind the tag replaced by any character at all: the key comes back exactly if it folds to the old symbol, and decoding fails otherwise |
| Typos.OneEdit | crates/lp-crypto/src/secretkey.rs:12-14 | One character of the display form replaced, deleted or inserted, anywhere, tag and dashes included: the same key comes back or decoding fails |
| Timestamp.EpochIs1970 | crates/lp-cli/src/timestamp.rs:44-60 | Day 0 is 1970-01-01 |
| Timestamp.CivilSuccessor | crates/lp-cli/src/timestamp.rs:44-60 | For every integer day the code's next date is the Gregorian successor |
| Timestamp.DaysInvertCivil | crates/lp-cli/src/timestamp.rs:148-157 | Every day number gives a valid date that leads back to it |
| Timestamp.CivilInvertsDays | crates/lp-cli/src/timestamp.rs:148-157 | Every valid date is the date of its day number |
| Timestamp.NotedRanges | crates/lp-cli/src/timestamp.rs:44-60 | The ranges noted beside the bindings hold for every day number |
| Timestamp.NoOverflow | crates/lp-cli/src/timestamp.rs:24-60 | For every 64-bit millisecond count, the code run in 64-bit arithmetic that stops at an overflow, with its casts of month and day to 32 bits, gives the very date, hour and minute |
| TimestampText.TextReadsBack | crates/lp-cli/src/timestamp.rs:24-38 | The text, read field by field, is the civil date, hour and minute, which together are the instant to the minute |
| TimestampText.SameTextSameMinute | crates/lp-cli/src/timestamp.rs:24-38 | Two instants render alike exactly when they lie in the same minute |
| Wire.CutFramed | crates/lp-native-host/src/framing.rs:78-102 | A frame within the cap is read back whole, whatever follows |
| Wire.CutIsFramed | crates/lp-native-host/src/framing.rs:78-102 | What is read as a frame is the frame of its body |
| Wire.CutBroken | crates/lp-native-host/src/framing.rs:131-150 | No proper prefix of a frame is read as anything |
| Framing.ReadExactOrEof | crates/lp-native-host/src/framing.rs:133-150 | The outcome, buffer and rest depend on the data and its ending alone, not on pieces or interruptions; the loop ends |
| Framing.ReadMessage | crates/lp-native-host/src/framing.rs:78-102 | One message, a clean end, or the error, as a function of the stream's bytes |
| Framing.WriteMessage | crates/lp-native-host/src/framing.rs:110-117 | The frame is written and flushed, or as much of it as fits; a failing write or flush is the error |
| Host.Run | crates/lp-native-host/src/host.rs:38-73 | What is written is what the writer takes of the answers due, and the result says how it ended; a failing writer ends it with its error |
| Host.DeliveredIsPrefix | crates/lp-native-host/src/host.rs:70-72 | Whatever the writer takes is a prefix of the answers' frames in order, and all of them unless a write or flush fails |
| Host.DeliveredExactly | crates/lp-native-host/src/framing.rs:110-117 | With a writer that fails after so many bytes or flushes: which bytes are written, and that all went well exactly if there was room for every byte and a flush for every answer |
| Host.OversizedAnswerEnds | crates/lp-native-host/src/host.rs:61-72 | An answer too long for a prefix ends the run before a byte of it is written |
| Host.FramesAreAnswered | crates/lp-native-host/src/host.rs:44-72 | Complete frames get exactly one response each, in order, before anything that follows them |
| Host.BoundaryEndsWell | crates/lp-native-host/src/host.rs:46-50 | A stream of frames is answered and ends well |
| Host.CutFrameIsTruncated | crates/lp-native-host/src/host.rs:51-57 | A stream cut inside a frame, at any byte, ends as truncated after all earlier answers |
| Host.DoneIffOnBoundary | crates/lp-native-host/src/host.rs:38-73 | The run ends well exactly when the bytes were whole frames and the stream ended there |
| Frame.ReadExactOrEof | crates/lp-daemon/src/frame.rs:81-99 | As for the host, with a disconnect before the first byte counted as a close |
| Frame.ReadFrame | crates/lp-daemon/src/frame.rs:48-62 | One frame, a close, or the error, as a function of the stream's bytes |
| Frame.WriteFrame | crates/lp-daemon/src/frame.rs:27-36 | Oversized bodies are refused before a byte is written; otherwise the frame is written and flushed, or as much of it as fits |
| Frame.FramesRoundTrip | crates/lp-daemon/src/frame.rs:27-99 | What one side writes the other reads, in order; ending between frames, or being reset there, is a close; ending inside a frame is an error |
| Nearby.PolicyIsTheNetworks | crates/lp-daemon/src/nearby.rs:66-90 | The masks accept exactly the named networks, given as ranges of address numbers, an IPv4-mapped address by the IPv4 address inside |
| Listener.Serve | crates/lp-daemon/src/nearby.rs:228-271 | The loop ends; it served the connections of its rounds in order, none once stopped or over; at most eight refusals; only the last attempt got past its handshake |
| Listener.ServedInTurn | crates/lp-daemon/src/nearby.rs:252-266 | Each connection of the rounds is dealt with once, in its turn, by a refusal or its handshake |
| Listener.HandshakesAreLocal | crates/lp-daemon/src/nearby.rs:252-256 | A peer gets a handshake exactly if it is on a named network |
| Listener.NearbyState.IsListening | crates/lp-daemon/src/nearby.rs:336-342 | Running, not stopped, not expired |
| Listener.NearbyState.StopListening | crates/lp-daemon/src/nearby.rs:346-350 | The held job is told to stop and let go |
| Listener.NearbyState.Open | crates/lp-daemon/src/nearby.rs:378-415 | A new job, unless one is open |
| Listener.NearbyState.DropJob | crates/lp-daemon/src/nearby.rs:447-453 | A dropped job no longer runs |
| Listener.OneOpenWindow | crates/lp-daemon/src/nearby.rs:333-415 | In every run of openings, stops and dropped jobs only the held job can be open at any time |
| Listener.SummaryIsExact | crates/lp-daemon/src/engine.rs:1717-1783 | The daemon's one held window opens, closes and ends with the shared flags behind it |
| Suffixes.SuffixesEndInLetters | crates/lp-daemon/src/origin.rs:94-162 | No listed suffix could be the end of an address |
| Origin.KnownSuffix | crates/lp-daemon/src/origin.rs:168-175 | The longest listed suffix on a label boundary, if there is any |
| Origin.KnownSuffixIsTail | crates/lp-daemon/src/origin.rs:168-175 | It is what is left when labels are stripped until the rest is listed |
| Origin.AddressExactly | crates/lp-daemon/src/origin.rs:255-263 | A host is taken for an IPv4 address exactly if it is four numbers up to 255, each perhaps behind a plus sign and zeros |
| Origin.DomainIsSuffixAndOneLabel | crates/lp-daemon/src/origin.rs:294-317 | The registrable domain is one label more than the public suffix; there is none exactly for addresses, localhost and public suffixes |
| Origin.DomainIsRead | crates/lp-daemon/src/origin.rs:294-317 | What is read of a URL or bare host is the public suffix of its host and one label more, or nothing for an address, localhost or a public suffix |
| Origin.DomainIsStable | crates/lp-daemon/src/origin.rs:294-317 | The registrable domain of a URL or bare host is not listed itself, and fed back it is its own registrable domain |
| Origin.HostIsRead | crates/lp-daemon/src/origin.rs:200-242 | Behind a scheme, `//` or nothing, whatever user, letter case, trailing dots, port and path surround it, the host is what is read, and the scheme is |
| Origin.SpaceAroundIsIgnored | crates/lp-daemon/src/origin.rs:200-204 | Whitespace around a text changes neither host nor scheme |
| Origin.HostIsItself | crates/lp-daemon/src/origin.rs:194-197 | A host by itself is read as itself |
| Origin.BareHostIsRead | crates/lp-daemon/src/origin.rs:206-209 | A text without a scheme of its own is read as its host if no `://` follows; otherwise the host behind the first `://` is read, so it is right exactly if that is the same host |
| Origin.HostBeforeSchemeIsIgnored | crates/lp-daemon/src/origin.rs:206-209 | Whatever stands before the first `://`, a host with a port, path or query included, is not read; the host behind it is, and there is a scheme exactly if what stands before is one |
| Origin.AddressHasNoDomain | crates/lp-daemon/src/origin.rs:222-224 | A URL or bare text of a bracketed address has no registrable domain, whatever port and path follow |
| Origin.StrangePortHasNoDomain | crates/lp-daemon/src/origin.rs:226-237 | A colon behind a host that no port of digits follows stays in the host, and there is no registrable domain |
| Origin.SchemeExactly | crates/lp-daemon/src/origin.rs:180-192 | What counts as a scheme is a letter followed by letters, digits, plus signs, hyphens and dots |
| Origin.MatchIffSameDomain | crates/lp-daemon/src/origin.rs:331-339 | Two URLs or bare hosts match exactly when both have a registrable domain, it is the same label by label, and it is not https down to http |
| Origin.TextMatchesHostBehindScheme | crates/lp-daemon/src/origin.rs:331-339 | A stored text whose first `://` does not end a scheme matches a page exactly by the domain behind it, over either scheme |
| Origin.SavedForBank | crates/lp-daemon/src/origin.rs:331-339 | With the built-in table, a login saved for `bank.com/?next=https://evil.com` matches `http://evil.com` and not `https://bank.com` |
| Origin.NeighboursNeverMatch | crates/lp-daemon/src/origin.rs:61-71 | Two different names right under one listed suffix never match |
| Origin.BuiltInDomainIsStable | crates/lp-daemon/src/origin.rs:94-175 | With the built-in table, a registrable domain is not listed and is its own |
| Origin.BuiltInMatchIffSameDomain | crates/lp-daemon/src/origin.rs:94-175 | With the built-in table, the match is exactly the same domain and no downgrade |
| Reference.PercentDecode | crates/lp-cli/src/dotenv.rs:102-119 | The loop decodes every escape and keeps stray percent signs; it fails exactly on what is not UTF-8 |
| Reference.DecodedOfEncoded | crates/lp-cli/src/dotenv.rs:95-129 | A text without slashes decodes to a name exactly if it spells it, each byte as an escape in either case or as itself, stray percent signs included |
| Reference.UnescapedIsItself | crates/lp-cli/src/dotenv.rs:95-97 | A text decodes to itself exactly if no escape begins anywhere in it |
| Reference.Utf8Exactly | crates/lp-cli/src/dotenv.rs:118-119 | The check accepts exactly the UTF-8 encodings of sequences of scalar values |
| Reference.EveryNameCanBeWritten | crates/lp-cli/src/reference.rs:14-16 | Every name has a written form |
| Reference.ReferenceRoundTrip | crates/lp-cli/src/reference.rs:70-124 | Any three names written into a reference, behind either scheme, come back |
| Reference.ParsedExactly | crates/lp-cli/src/reference.rs:70-124 | Parsing succeeds exactly on a scheme and three non-empty segments that decode to text, and gives that text |
| Reference.ErrorsBySlashes | crates/lp-cli/src/reference.rs:70-124 | Which usage error a reference gets, by the scheme and the number of slashes behind it |
| Reference.ErrorsOfThree | crates/lp-cli/src/reference.rs:86-109 | With three segments, the exact condition of each error and of success |
| Generate.UniformBelow | crates/lp-cli/src/generate.rs:47-59 | The residue of the first accepted word, and the words left over |
| Generate.Password | crates/lp-cli/src/generate.rs:67-88 | The characters that the first accepted words select, or an error |
| Generate.AcceptedInTurn | crates/lp-cli/src/generate.rs:51-58 | A word anywhere in the source is accepted in its turn exactly if it is below the zone |
| Generate.ZoneIsWholeRounds | crates/lp-cli/src/generate.rs:49-50 | The zone is a multiple of n and at least half of all words |
| Generate.ResiduesAreEquallyLikely | crates/lp-cli/src/generate.rs:44-59 | Every residue comes from exactly zone / n accepted words |
| Generate.CharsetIsDistinct | crates/lp-cli/src/generate.rs:24-29 | 62 or 85 different characters |
| Generate.DrawsAreExact | crates/lp-cli/src/generate.rs:79-82 | The counted sequences are exactly those of accepted words that select the password |
| Generate.PasswordsAreEquallyLikely | crates/lp-cli/src/generate.rs:67-88 | Every password over the character set comes from the same number of sequences of accepted words |

## Left out

- Background.ResolvesWithOwnReply: assumes a host that answers its own requests in order, as the
  native host's loop does, and that no port is opened while a listener is owed; without the
  latter the property is false, as shown above.
- AgentFill.PollsApart: assumes a clock that does not go back, as do the runs of the poll loop it
  speaks of (`Enabled`); the source reads `Date.now()`, which may.
- Listener.Serve: assumes a clock that does not go back and interruptions that stop at some point.
- Vault storage, sync merge, key derivation, ciphers and signatures: a password check and an
  unlock are verdicts supplied from outside.
- JSON, command-line definitions, audit record texts, masking and the graphical parts: frames
  are opaque bodies and answers are datatypes.
- Requests that only delegate to the session (items, vaults, attachments, QR codes, folder
  sync): one request that is served or refused stands for them.
- Sockets, pipes, threads as such, file permissions, zeroization and timing: the mutex makes a
  request one step, and steps interleave.
- The default and the clamp of a listen window's length, and the display of addresses: the
  window's length is a parameter.
- `dial`, `parse_peer_address` and the exchange behind a handshake: a session is one of three
  outcomes.
- The answer to a nearby connect request: the provisional answer that the server replaces is
  modelled, not the dial's own outcome.
- The shared flags of a listen job are entries of a table numbered by job, so sharing by
  reference is not modelled.
- The data-encoding library is modelled as base32 from the most significant bit, without
  padding, refusing non-zero trailing bits.
- Field finding in the page: the function that runs there is given the fields it would find.
- Reading a URL's origin in the browser: a tab's origin is supplied.
- The notification's text and the title look-up for it: that a notification follows is modelled.
- `passphrase` and the entropy figure: the same sampler with another table.
- `uniform_below` runs until a word is accepted; here the source of words may end, which is the
  randomness error.
- TOTP codes, `.env` file lines, name resolution and field flattening: short and independent of
  the above.
