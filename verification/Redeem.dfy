/**
 Redeeming one fill intent: the awaited steps of `redeem`, from the target checks to
 the reported outcome, and the function it injects into the page.
 */
module Redeem {
  import opened Wrappers

  // --- What the browser, the page and the daemon answer ---------------------------------

  // A tab's origin is None when its URL is not an http(s) URL.
  datatype Tab = Tab(id: Option<int>, origin: Option<string>)

  // What tabs.get and tabs.query give when asked; None when they throw.
  datatype Tabs = Tabs(got: Option<Tab>, queried: Option<seq<Tab>>)

  datatype Intent = Intent(itemId: Option<string>, origin: Option<string>, tabId: Option<int>, overwrite: bool)

  // The fields the injected function finds, with their values.
  datatype Page = NoForm | Form(password: string, username: Option<string>)

  datatype FillReply =
    | Rejected
    | Credential(username: string, password: string)
    | LockedReply
    | OriginMismatchReply
    | OtherReply

  // One answer for each await of `redeem`, in order. A page is None when the script
  // cannot be injected.
  datatype World = World(
    first: Tabs,
    permitted: Option<bool>,
    probed: Option<Page>,
    fill: FillReply,
    second: Tabs,
    page: Option<Page>
  )

  datatype Reason =
    | TabNotFound | AmbiguousTab | OriginChanged | PageAccessDenied | InjectionFailed
    | NoLoginForm | FieldNotEmpty | Locked | OriginMismatch

  // Whether each field is filled, where its state is reported.
  datatype FieldStates = FieldStates(password: Option<bool>, username: Option<bool>)

  datatype Field = UsernameField | PasswordField

  datatype PageResult = PageResult(
    ok: bool, reason: Option<Reason>, before: FieldStates, after: FieldStates, fields: seq<Field>)

  datatype Report = Report(
    filled: bool, fields: seq<Field>, before: FieldStates, after: FieldStates, reason: Option<Reason>)

  datatype Action =
    | Injected(tab: int, username: Option<string>, password: Option<string>)
    | AskedCredential(item: string, origin: string)
    | Reported(item: string, report: Report)
    | Notified(filled: bool)

  const NO_STATES := FieldStates(None, None)

  // --- The target tab ---------------------------------------------------------------------

  datatype Target = Found(tab: int) | Refusal(reason: Reason)

  predicate Matches(tab: Tab, intent: Intent) {
    && tab.id.Some?
    && tab.origin.Some? && tab.origin == intent.origin
  }

  function Matching(tabs: seq<Tab>, intent: Intent): (matches: seq<Tab>)
    ensures forall t :: t in matches ==> Matches(t, intent)
  {
    if tabs == [] then []
    else (if Matches(tabs[0], intent) then [tabs[0]] else []) + Matching(tabs[1..], intent)
  }

  function ResolveTarget(intent: Intent, tabs: Tabs): Target {
    if intent.tabId.Some? then
      if tabs.got.None? || tabs.got.value.id.None? then Refusal(TabNotFound)
      else if !Matches(tabs.got.value, intent) then Refusal(OriginChanged)
      else Found(tabs.got.value.id.value)
    else if tabs.queried.None? then Refusal(TabNotFound)
    else
      var matches := Matching(tabs.queried.value, intent);
      if |matches| == 0 then Refusal(TabNotFound)
      else if |matches| > 1 then Refusal(AmbiguousTab)
      else
        assert matches[0] in matches;
        Found(matches[0].id.value)
  }

  // A tab that can be told apart and shows a page of the intent's origin.
  ghost predicate ShowsOrigin(tab: Tab, intent: Intent) {
    tab.id.Some? && tab.origin.Some? && tab.origin == intent.origin
  }

  // The one index of a tab of that origin.
  ghost predicate OnlyMatch(tabs: seq<Tab>, intent: Intent, i: int) {
    && 0 <= i < |tabs| && ShowsOrigin(tabs[i], intent)
    && forall j | 0 <= j < |tabs| && j != i :: !ShowsOrigin(tabs[j], intent)
  }

  lemma {:induction false} MatchingNone(tabs: seq<Tab>, intent: Intent)
    ensures Matching(tabs, intent) == [] <==> forall j | 0 <= j < |tabs| :: !ShowsOrigin(tabs[j], intent)
  {
    if tabs != [] {
      MatchingNone(tabs[1..], intent);
      assert forall j | 0 < j < |tabs| :: tabs[j] == tabs[1..][j - 1];
    }
  }

  lemma {:induction false} MatchingOne(tabs: seq<Tab>, intent: Intent)
    ensures |Matching(tabs, intent)| == 1 <==> exists i :: OnlyMatch(tabs, intent, i)
    ensures forall i :: OnlyMatch(tabs, intent, i) ==> Matching(tabs, intent) == [tabs[i]]
  {
    if tabs != [] {
      var rest := tabs[1..];
      MatchingOne(rest, intent);
      MatchingNone(rest, intent);
      assert forall j | 0 < j < |tabs| :: tabs[j] == rest[j - 1];
      if Matches(tabs[0], intent) {
        if Matching(rest, intent) == [] {
          assert OnlyMatch(tabs, intent, 0);
        }
        assert forall i :: OnlyMatch(tabs, intent, i) ==> i == 0 && Matching(rest, intent) == [];
      } else {
        forall i ensures OnlyMatch(tabs, intent, i) <==> OnlyMatch(rest, intent, i - 1) {
          if OnlyMatch(rest, intent, i - 1) {
            assert ShowsOrigin(tabs[i], intent);
          }
          if OnlyMatch(tabs, intent, i) {
            assert rest[i - 1] == tabs[i];
            assert forall j | 0 <= j < |rest| && j != i - 1 :: rest[j] == tabs[j + 1];
          }
        }
        assert Matching(tabs, intent) == Matching(rest, intent);
        if exists i :: OnlyMatch(rest, intent, i) {
          var i :| OnlyMatch(rest, intent, i);
          assert OnlyMatch(tabs, intent, i + 1);
        }
      }
    }
  }

  // The tabs that were found open; none if the browser would not say.
  function OpenTabs(tabs: Tabs): seq<Tab> {
    if tabs.queried.Some? then tabs.queried.value else []
  }

  // Without a tab id, a tab is chosen exactly if it is the only open tab of the origin,
  // and every other case has its refusal.
  lemma TargetIsTheOnlyMatch(intent: Intent, tabs: Tabs, tab: int)
    requires intent.tabId.None?
    ensures var target, open := ResolveTarget(intent, tabs), OpenTabs(tabs);
            && (target == Found(tab) <==> exists i :: OnlyMatch(open, intent, i) && open[i].id == Some(tab))
            && (target == Refusal(TabNotFound) <==> forall i | 0 <= i < |open| :: !ShowsOrigin(open[i], intent))
            && (target == Refusal(AmbiguousTab) <==>
                  exists i, j :: 0 <= i < j < |open| && ShowsOrigin(open[i], intent) && ShowsOrigin(open[j], intent))
  {
    var open := OpenTabs(tabs);
    MatchingNone(open, intent);
    MatchingOne(open, intent);
    if ResolveTarget(intent, tabs) == Found(tab) {
      var i :| OnlyMatch(open, intent, i);
    }
    if i :| 0 <= i < |open| && ShowsOrigin(open[i], intent) {
      assert OnlyMatch(open, intent, i) <==> forall j | 0 <= j < |open| && j != i :: !ShowsOrigin(open[j], intent);
    }
  }

  // With a tab id, that tab is chosen if it still shows the origin, and every other case
  // has its refusal.
  lemma NamedTabExactly(intent: Intent, tabs: Tabs)
    requires intent.tabId.Some?
    ensures var target, got := ResolveTarget(intent, tabs), tabs.got;
            && (target == Refusal(TabNotFound) <==> got.None? || got.value.id.None?)
            && (target == Refusal(OriginChanged) <==>
                  got.Some? && got.value.id.Some? && (got.value.origin.None? || got.value.origin != intent.origin))
            && (target.Found? <==> got.Some? && got.value.id.Some? && got.value.origin.Some?
                                   && got.value.origin == intent.origin)
            && (target.Found? ==> got.value.id == Some(target.tab))
  {
  }

  // The browser's answer has this tab, and it shows the intent's origin: it is the tab
  // named, or else the only one there is of that origin.
  ghost predicate Holds(tabs: Tabs, intent: Intent, tab: int) {
    if intent.tabId.Some? then
      && tabs.got.Some? && tabs.got.value.id == Some(tab)
      && tabs.got.value.origin.Some? && tabs.got.value.origin == intent.origin
    else exists i :: OnlyMatch(OpenTabs(tabs), intent, i) && OpenTabs(tabs)[i].id == Some(tab)
  }

  lemma FoundHolds(intent: Intent, tabs: Tabs, tab: int)
    ensures ResolveTarget(intent, tabs) == Found(tab) <==> Holds(tabs, intent, tab)
  {
    if intent.tabId.Some? {
      NamedTabExactly(intent, tabs);
    } else {
      TargetIsTheOnlyMatch(intent, tabs, tab);
    }
  }

  // --- In the page --------------------------------------------------------------------------

  function StatesOf(page: Page): FieldStates
    requires page.Form?
  {
    FieldStates(Some(page.password != ""), if page.username.Some? then Some(page.username.value != "") else None)
  }

  // Probes without a password; otherwise fills, unless that would clobber a password.
  function InPage(page: Page, username: Option<string>, password: Option<string>, overwrite: bool)
    : (PageResult, Page)
  {
    if page.NoForm? then (PageResult(false, Some(NoLoginForm), NO_STATES, NO_STATES, []), page)
    else
      var before := StatesOf(page);
      if password.None? then (PageResult(true, None, before, NO_STATES, []), page)
      else if !overwrite && before.password == Some(true) then
        (PageResult(false, Some(FieldNotEmpty), before, NO_STATES, []), page)
      else
        var fillsUser := page.username.Some? && username.Some?;
        var filled := Form(password.value, if fillsUser then username else page.username);
        var fields := (if fillsUser then [UsernameField] else []) + [PasswordField];
        (PageResult(true, None, before, StatesOf(filled), fields), filled)
  }

  // --- The whole exchange ----------------------------------------------------------------------

  function Refused(reason: Reason, before: FieldStates): Report {
    Report(false, [], before, NO_STATES, Some(reason))
  }

  function Finish(item: string, report: Report): seq<Action> {
    [Reported(item, report), Notified(report.filled)]
  }

  function Username(fill: FillReply): Option<string>
    requires fill.Credential?
  {
    if fill.username == "" then None else Some(fill.username)
  }

  predicate WellFormed(intent: Intent) {
    intent.itemId.Some? && intent.origin.Some?
  }

  // The tab may be probed.
  predicate Admitted(intent: Intent, w: World) {
    ResolveTarget(intent, w.first).Found? && w.permitted == Some(true)
  }

  // Every check that can refuse has passed.
  predicate Checked(intent: Intent, w: World) {
    && WellFormed(intent)
    && Admitted(intent, w)
    && w.probed.Some? && w.probed.value.Form?
    && (intent.overwrite || w.probed.value.password == "")
  }

  // The daemon disclosed the credential and the target is still the same tab.
  predicate Cleared(intent: Intent, w: World) {
    Checked(intent, w) && w.fill.Credential? && ResolveTarget(intent, w.second) == ResolveTarget(intent, w.first)
  }

  // What happens before the report.
  function Steps(intent: Intent, w: World): seq<Action>
    requires WellFormed(intent)
  {
    if !Admitted(intent, w) then [] else
    var tab := ResolveTarget(intent, w.first).tab;
    var probe := Injected(tab, None, None);
    var ask := AskedCredential(intent.itemId.value, intent.origin.value);
    if !Checked(intent, w) then [probe]
    else if !Cleared(intent, w) then [probe, ask]
    else [probe, ask, Injected(tab, Username(w.fill), Some(w.fill.password))]
  }

  // Why nothing may be asked for.
  function Objection(intent: Intent, w: World): Report
    requires WellFormed(intent) && !Checked(intent, w)
  {
    var target := ResolveTarget(intent, w.first);
    if target.Refusal? then Refused(target.reason, NO_STATES)
    else if w.permitted != Some(true) then Refused(PageAccessDenied, NO_STATES)
    else if w.probed.None? then Refused(InjectionFailed, NO_STATES)
    else if w.probed.value.NoForm? then Refused(NoLoginForm, NO_STATES)
    else Refused(FieldNotEmpty, StatesOf(w.probed.value))
  }

  // Why the credential may not be injected.
  function Withheld(intent: Intent, w: World): Report
    requires Checked(intent, w) && !Cleared(intent, w)
  {
    var before := StatesOf(w.probed.value);
    match w.fill
    case Rejected => Report(false, [], before, NO_STATES, None)
    case OtherReply => Report(false, [], before, NO_STATES, None)
    case LockedReply => Refused(Locked, before)
    case OriginMismatchReply => Refused(OriginMismatch, before)
    case Credential(_, _) =>
      var recheck := ResolveTarget(intent, w.second);
      Refused(if recheck.Refusal? then recheck.reason else OriginChanged, before)
  }

  // The outcome of the injection, and the page as it leaves it.
  function Verdict(intent: Intent, w: World): (Report, Option<Page>)
    requires WellFormed(intent)
  {
    if !Checked(intent, w) then (Objection(intent, w), w.page)
    else if !Cleared(intent, w) then (Withheld(intent, w), w.page)
    else if w.page.None? then (Refused(InjectionFailed, StatesOf(w.probed.value)), None)
    else
      var (result, page) := InPage(w.page.value, Username(w.fill), Some(w.fill.password), intent.overwrite);
      (if result.ok then Report(true, result.fields, result.before, result.after, None)
       else Refused(if result.reason.Some? then result.reason.value else NoLoginForm, result.before),
       Some(page))
  }

  // What `redeem` does, and the page as it leaves it.
  function Redeemed(intent: Intent, w: World): (seq<Action>, Option<Page>) {
    if !WellFormed(intent) then ([], w.page)
    else
      var (report, page) := Verdict(intent, w);
      (Steps(intent, w) + Finish(intent.itemId.value, report), page)
  }

  // The same as it runs, one await after the other.
  method Redeem(intent: Intent, w: World) returns (done: seq<Action>, page: Option<Page>)
    ensures (done, page) == Redeemed(intent, w)
  {
    done, page := [], w.page;
    if intent.itemId.None? || intent.origin.None? {
      return;
    }
    var item, origin := intent.itemId.value, intent.origin.value;
    var target := ResolveTarget(intent, w.first);
    if target.Refusal? {
      done := done + Finish(item, Refused(target.reason, NO_STATES));
      return;
    }
    var tab := target.tab;
    if w.permitted != Some(true) {
      done := done + Finish(item, Refused(PageAccessDenied, NO_STATES));
      return;
    }
    done := done + [Injected(tab, None, None)];
    assert done == [Injected(tab, None, None)];
    if w.probed.None? {
      done := done + Finish(item, Refused(InjectionFailed, NO_STATES));
      return;
    }
    var probe := InPage(w.probed.value, None, None, intent.overwrite).0;
    if !probe.ok {
      var reason := if probe.reason.Some? then probe.reason.value else NoLoginForm;
      done := done + Finish(item, Refused(reason, probe.before));
      return;
    }
    if !intent.overwrite && probe.before.password == Some(true) {
      done := done + Finish(item, Refused(FieldNotEmpty, probe.before));
      return;
    }
    done := done + [AskedCredential(item, origin)];
    assert done == [Injected(tab, None, None), AskedCredential(item, origin)];
    if !w.fill.Credential? {
      var report := if w.fill.LockedReply? then Refused(Locked, probe.before)
                    else if w.fill.OriginMismatchReply? then Refused(OriginMismatch, probe.before)
                    else Report(false, [], probe.before, NO_STATES, None);
      done := done + Finish(item, report);
      return;
    }
    var recheck := ResolveTarget(intent, w.second);
    if recheck.Refusal? || recheck.tab != tab {
      done := done + Finish(item, Refused(if recheck.Refusal? then recheck.reason else OriginChanged, probe.before));
      return;
    }
    done := done + [Injected(tab, Username(w.fill), Some(w.fill.password))];
    assert done == Steps(intent, w);
    if w.page.None? {
      done := done + Finish(item, Refused(InjectionFailed, probe.before));
      return;
    }
    var (result, after) := InPage(w.page.value, Username(w.fill), Some(w.fill.password), intent.overwrite);
    page := Some(after);
    if !result.ok {
      var reason := if result.reason.Some? then result.reason.value else NoLoginForm;
      done := done + Finish(item, Refused(reason, result.before));
      return;
    }
    done := done + Finish(item, Report(true, result.fields, result.before, result.after, None));
  }

  // --- What holds of every exchange -----------------------------------------------------------------

  predicate IsReport(a: Action) {
    a.Reported? || a.Notified?
  }

  // A malformed intent has no effect; any other is reported exactly once, and then the
  // user is told, whatever happened.
  lemma ReportsExactlyOnce(intent: Intent, w: World)
    ensures var (done, page) := Redeemed(intent, w);
            if !WellFormed(intent) then done == [] && page == w.page
            else
              var n := |done| - 2;
              && n >= 0 && done[n].Reported? && done[n].item == intent.itemId.value
              && done[n + 1] == Notified(done[n].report.filled)
              && forall i | 0 <= i < n :: !IsReport(done[i])
  {
  }

  predicate InjectsPassword(a: Action) {
    a.Injected? && a.password.Some?
  }

  // The browser showed this tab at the intent's origin, and the user has granted access.
  ghost predicate MayProbe(intent: Intent, w: World, tab: int) {
    intent.itemId.Some? && intent.origin.Some? && Holds(w.first, intent, tab) && w.permitted == Some(true)
  }

  // And its page has a login form with a password field that may be written.
  ghost predicate MayAsk(intent: Intent, w: World, tab: int) {
    && MayProbe(intent, w, tab) && w.probed.Some? && w.probed.value.Form?
    && (intent.overwrite || w.probed.value.password == "")
  }

  // And the daemon disclosed the credential, and it is the same tab at that origin still.
  ghost predicate MayFill(intent: Intent, w: World, tab: int) {
    MayAsk(intent, w, tab) && w.fill.Credential? && Holds(w.second, intent, tab)
  }

  lemma StepsAllowed(intent: Intent, w: World, tab: int)
    requires WellFormed(intent)
    ensures MayProbe(intent, w, tab) <==> Admitted(intent, w) && ResolveTarget(intent, w.first) == Found(tab)
    ensures MayAsk(intent, w, tab) <==> Checked(intent, w) && ResolveTarget(intent, w.first) == Found(tab)
    ensures MayFill(intent, w, tab) <==> Cleared(intent, w) && ResolveTarget(intent, w.first) == Found(tab)
  {
    FoundHolds(intent, w.first, tab);
    FoundHolds(intent, w.second, tab);
    hide ResolveTarget, Holds;
  }

  // The credential is asked for exactly when target, permission, probe and field allow
  // it, once, for the intent's own item and origin, after probing that tab without a
  // password.
  lemma AsksOnceAfterEveryCheck(intent: Intent, w: World)
    ensures var done := Redeemed(intent, w).0;
            && ((exists k :: 0 <= k < |done| && done[k].AskedCredential?) <==> exists tab :: MayAsk(intent, w, tab))
            && forall k | 0 <= k < |done| && done[k].AskedCredential? ::
                 && k == 1 && intent.itemId.Some? && intent.origin.Some?
                 && done[1] == AskedCredential(intent.itemId.value, intent.origin.value)
                 && done[0].Injected? && MayAsk(intent, w, done[0].tab) && done[0].password.None?
  {
    if WellFormed(intent) {
      forall tab
        ensures MayAsk(intent, w, tab) <==> Checked(intent, w) && ResolveTarget(intent, w.first) == Found(tab)
      {
        StepsAllowed(intent, w, tab);
      }
    }
    var done := Redeemed(intent, w).0;
    if Checked(intent, w) {
      assert done[1].AskedCredential? && MayAsk(intent, w, ResolveTarget(intent, w.first).tab);
    }
    hide MayAsk, ResolveTarget, Verdict;
  }

  // A password is injected exactly when it was disclosed and the browser shows the same
  // tab at the intent's origin a second time: into that tab, once, and it is the
  // daemon's answer to that request.
  lemma InjectsOnceIntoTheSameTab(intent: Intent, w: World)
    ensures var done := Redeemed(intent, w).0;
            && ((exists k :: 0 <= k < |done| && InjectsPassword(done[k])) <==> exists tab :: MayFill(intent, w, tab))
            && forall k | 0 <= k < |done| && InjectsPassword(done[k]) ::
                 && k == 2 && w.fill.Credential? && MayFill(intent, w, done[2].tab)
                 && done[2].password == Some(w.fill.password)
                 && done[2].username == (if w.fill.username == "" then None else Some(w.fill.username))
  {
    if WellFormed(intent) {
      forall tab
        ensures MayFill(intent, w, tab) <==> Cleared(intent, w) && ResolveTarget(intent, w.first) == Found(tab)
      {
        StepsAllowed(intent, w, tab);
      }
    }
    var done := Redeemed(intent, w).0;
    if Cleared(intent, w) {
      assert InjectsPassword(done[2]) && MayFill(intent, w, ResolveTarget(intent, w.first).tab);
    }
    hide MayFill, ResolveTarget, Verdict;
  }

  // Nothing is ever injected into a tab of another origin than the intent's: the probe
  // goes by what the browser answered first, the password by what it answered again
  // after the disclosure.
  lemma InjectsOnlyAtTheOrigin(intent: Intent, w: World, k: nat)
    requires var done := Redeemed(intent, w).0; k < |done| && done[k].Injected?
    ensures var a := Redeemed(intent, w).0[k];
            Holds(if a.password.Some? then w.second else w.first, intent, a.tab)
  {
    var tab := Redeemed(intent, w).0[k].tab;
    FoundHolds(intent, w.first, tab);
    FoundHolds(intent, w.second, tab);
    hide Verdict, Holds, ResolveTarget;
  }

  function ReportOf(done: seq<Action>): Option<Report> {
    if |done| >= 2 && done[|done| - 2].Reported? then Some(done[|done| - 2].report) else None
  }

  // Which of the fields there are on the page are filled.
  predicate Tells(states: FieldStates, page: Page) {
    && page.Form?
    && (states.password == if page.password == "" then Some(false) else Some(true))
    && match page.username
       case None => states.username.None?
       case Some(name) => states.username == if name == "" then Some(false) else Some(true)
  }

  // Without a password the injected function only looks: it says whether there is a
  // form, and which of its fields are filled.
  lemma ProbeOnlyLooks(page: Page, username: Option<string>, overwrite: bool)
    ensures var (result, after) := InPage(page, username, None, overwrite);
            && after == page && result.fields == [] && result.after == NO_STATES
            && (if page.Form? then result.ok && result.reason.None? && Tells(result.before, page)
                else !result.ok && result.reason == Some(NoLoginForm) && result.before == NO_STATES)
  {
  }

  // What is told of a page that was looked at and not written.
  lemma RefusedTells(intent: Intent, w: World)
    requires WellFormed(intent) && !ReportOf(Redeemed(intent, w).0).value.filled
    ensures var before := ReportOf(Redeemed(intent, w).0).value.before;
            || before == NO_STATES
            || (w.probed.Some? && Tells(before, w.probed.value))
            || (w.page.Some? && Tells(before, w.page.value))
    ensures (exists tab :: MayAsk(intent, w, tab)) && !(exists tab :: MayFill(intent, w, tab)) ==>
              Tells(ReportOf(Redeemed(intent, w).0).value.before, w.probed.value)
  {
    forall t ensures MayAsk(intent, w, t) <==> Checked(intent, w) && ResolveTarget(intent, w.first) == Found(t)
             ensures MayFill(intent, w, t) <==> Cleared(intent, w) && ResolveTarget(intent, w.first) == Found(t)
    {
      StepsAllowed(intent, w, t);
    }
    hide MayAsk, MayFill, ResolveTarget;
  }

  // `filled` is reported exactly when the page took the daemon's password, and the
  // states reported with it are those of the page before and after.
  lemma FilledMeansWritten(intent: Intent, w: World)
    requires WellFormed(intent)
    ensures var (done, page) := Redeemed(intent, w);
            var report := ReportOf(done).value;
            if report.filled then
              && w.fill.Credential? && w.page.Some? && w.page.value.Form? && page.value.Form?
              && page.value.password == w.fill.password
              && page.value.username == (if w.page.value.username.Some? && w.fill.username != ""
                                         then Some(w.fill.username) else w.page.value.username)
              && report.fields == (if w.page.value.username.Some? && w.fill.username != ""
                                   then [UsernameField, PasswordField] else [PasswordField])
              && Tells(report.before, w.page.value) && Tells(report.after, page.value)
            else page == w.page && report.fields == [] && report.after == NO_STATES
  {
  }

  predicate Writable(page: Page, overwrite: bool) {
    page.Form? && (overwrite || page.password == "")
  }

  predicate Held(page: Page, overwrite: bool) {
    page.Form? && !overwrite && page.password != ""
  }

  // Why an exchange ended as it did.
  lemma ReasonsExactly(intent: Intent, w: World)
    requires WellFormed(intent)
    ensures var report := ReportOf(Redeemed(intent, w).0).value;
            var reason := report.reason;
            var probe := exists tab :: MayProbe(intent, w, tab);
            var ask := exists tab :: MayAsk(intent, w, tab);
            var fill := exists tab :: MayFill(intent, w, tab);
            && (report.filled <==> fill && w.page.Some? && Writable(w.page.value, intent.overwrite))
            && (reason.None? <==> report.filled || (ask && (w.fill.Rejected? || w.fill.OtherReply?)))
            && (reason == Some(PageAccessDenied) <==>
                  (exists tab :: Holds(w.first, intent, tab)) && w.permitted != Some(true))
            && (reason == Some(InjectionFailed) <==> (probe && w.probed.None?) || (fill && w.page.None?))
            && (reason == Some(NoLoginForm) <==>
                  (probe && w.probed == Some(NoForm)) || (fill && w.page == Some(NoForm)))
            && (reason == Some(FieldNotEmpty) <==>
                  || (probe && w.probed.Some? && Held(w.probed.value, intent.overwrite))
                  || (fill && w.page.Some? && Held(w.page.value, intent.overwrite)))
            && (reason == Some(Locked) <==> ask && w.fill.LockedReply?)
            && (reason == Some(OriginMismatch) <==> ask && w.fill.OriginMismatchReply?)
  {
    var tab := if ResolveTarget(intent, w.first).Found? then ResolveTarget(intent, w.first).tab else 0;
    forall t ensures MayProbe(intent, w, t) <==> Admitted(intent, w) && ResolveTarget(intent, w.first) == Found(t)
             ensures MayAsk(intent, w, t) <==> Checked(intent, w) && ResolveTarget(intent, w.first) == Found(t)
             ensures MayFill(intent, w, t) <==> Cleared(intent, w) && ResolveTarget(intent, w.first) == Found(t)
             ensures Holds(w.first, intent, t) <==> ResolveTarget(intent, w.first) == Found(t)
    {
      StepsAllowed(intent, w, t);
      FoundHolds(intent, w.first, t);
    }
    hide MayProbe, MayAsk, MayFill, Holds;
    assert Admitted(intent, w) ==> MayProbe(intent, w, tab);
  }

  // The other three reasons are about the target, when it is first looked for or again
  // after the disclosure.
  lemma TargetReasonsExactly(intent: Intent, w: World)
    requires WellFormed(intent)
    ensures var reason := ReportOf(Redeemed(intent, w).0).value.reason;
            var first, second := ResolveTarget(intent, w.first), ResolveTarget(intent, w.second);
            var disclosed := w.fill.Credential? && exists tab :: MayAsk(intent, w, tab);
            && (forall r | r in {TabNotFound, AmbiguousTab} ::
                  reason == Some(r) <==> first == Refusal(r) || (disclosed && second == Refusal(r)))
            && (reason == Some(OriginChanged) <==>
                  || first == Refusal(OriginChanged)
                  || (disclosed && second == Refusal(OriginChanged))
                  || (disclosed && second.Found? && second != first))
  {
    if ResolveTarget(intent, w.first).Found? {
      StepsAllowed(intent, w, ResolveTarget(intent, w.first).tab);
    }
    forall t ensures MayAsk(intent, w, t) ==> Checked(intent, w) {
      StepsAllowed(intent, w, t);
    }
    hide MayAsk, MayFill, MayProbe, Holds, Matching;
  }

  // A password already in the field survives unless the intent says otherwise, even one
  // typed between the probe and the injection.
  lemma NeverClobbers(intent: Intent, w: World)
    requires !intent.overwrite && w.page.Some? && w.page.value.Form? && w.page.value.password != ""
    ensures Redeemed(intent, w).1 == w.page
    ensures ReportOf(Redeemed(intent, w).0).Some? ==> !ReportOf(Redeemed(intent, w).0).value.filled
  {
  }

  // --- What never crosses back out ---------------------------------------------------------------------

  function Blur(value: string): string {
    if value == "" then "" else "x"
  }

  function BlurPage(page: Option<Page>): Option<Page> {
    match page
    case Some(Form(password, username)) =>
      Some(Form(Blur(password), if username.Some? then Some(Blur(username.value)) else None))
    case Some(NoForm) => page
    case None => None
  }

  // The same answers with every field value and credential reduced to its emptiness.
  function BlurWorld(w: World): World {
    w.(probed := BlurPage(w.probed),
       page := BlurPage(w.page),
       fill := if w.fill.Credential? then Credential(Blur(w.fill.username), Blur(w.fill.password)) else w.fill)
  }

  function Reports(done: seq<Action>): seq<Action> {
    if |done| >= 2 then done[|done| - 2..] else []
  }

  // What is reported and shown depends on field values and credential only through
  // which of them are empty: two exchanges that differ otherwise report the same.
  lemma ReportsTellOnlyEmptiness(intent: Intent, w1: World, w2: World)
    requires BlurWorld(w1) == BlurWorld(w2)
    ensures Reports(Redeemed(intent, w1).0) == Reports(Redeemed(intent, w2).0)
  {
    ReportsBlurred(intent, w1);
    ReportsBlurred(intent, w2);
  }

  lemma ReportsBlurred(intent: Intent, w: World)
    ensures Reports(Redeemed(intent, w).0) == Reports(Redeemed(intent, BlurWorld(w)).0)
  {
    if WellFormed(intent) {
      VerdictBlurred(intent, w);
    }
  }

  lemma InPageBlurred(page: Page, fill: FillReply, overwrite: bool)
    requires fill.Credential?
    ensures var blurred := Credential(Blur(fill.username), Blur(fill.password));
            InPage(page, Username(fill), Some(fill.password), overwrite).0 ==
            InPage(BlurPage(Some(page)).value, Username(blurred), Some(blurred.password), overwrite).0
  {
  }

  lemma ChecksBlurred(intent: Intent, w: World)
    ensures Checked(intent, w) <==> Checked(intent, BlurWorld(w))
    ensures Cleared(intent, w) <==> Cleared(intent, BlurWorld(w))
  {
  }

  lemma VerdictBlurred(intent: Intent, w: World)
    requires WellFormed(intent)
    ensures Verdict(intent, w).0 == Verdict(intent, BlurWorld(w)).0
  {
    ChecksBlurred(intent, w);
    if Cleared(intent, w) && w.page.Some? {
      InPageBlurred(w.page.value, w.fill, intent.overwrite);
    }
  }
}
