/**
 What every call on the page does and answers, exactly: which tab is selected, when a fill writes, when an observation
 carries a transaction on, when a click is issued, and the code of every refusal.
 */
module PageOutcomes {
  import opened Basics
  import opened BrowserPage
  import opened P = PageTransaction

  // ----- Selection -----

  predicate AuthTab(s: Sites, w: World, p: PageId) {
    !w.tab(p).closed && s.authentication(w.tab(p).url)
  }

  predicate ChatTab(s: Sites, w: World, p: PageId) {
    !w.tab(p).closed && s.configured(w.tab(p).url)
  }

  predicate HandoffTab(s: Sites, w: World, p: PageId) {
    !w.tab(p).closed && w.tab(p).handoff && s.externalSso(w.tab(p).url)
  }

  predicate LastAt(ps: seq<PageId>, kind: PageId -> bool, i: nat) {
    i < |ps| && kind(ps[i]) && forall j | i < j < |ps| :: !kind(ps[j])
  }

  /** The last tab of the kind, in the order of the context. */
  predicate IsLast(ps: seq<PageId>, kind: PageId -> bool, p: PageId) {
    exists i: nat | i < |ps| :: ps[i] == p && LastAt(ps, kind, i)
  }

  predicate AtLeastTwo(ps: seq<PageId>, kind: PageId -> bool) {
    exists i, j | 0 <= i < j < |ps| :: kind(ps[i]) && kind(ps[j])
  }

  lemma FilterEmpty(ps: seq<PageId>, kind: PageId -> bool)
    ensures Filter(ps, kind) == [] <==> forall p | p in ps :: !kind(p)
  {
    if Filter(ps, kind) != [] { assert Filter(ps, kind)[0] in Filter(ps, kind); }
  }

  lemma {:induction false} FilterLast(ps: seq<PageId>, kind: PageId -> bool) returns (i: nat)
    requires Filter(ps, kind) != []
    ensures LastAt(ps, kind, i) && ps[i] == Last(Filter(ps, kind)).value
  {
    var (n, front) := (|ps| - 1, ps[..|ps| - 1]);
    if kind(ps[n]) {
      i := n;
    } else {
      i := FilterLast(front, kind);
      forall j | i < j < |ps| ensures !kind(ps[j]) {
        if j < n { assert ps[j] == front[j]; }
      }
    }
  }

  lemma {:induction false} FilterAgrees(ps: seq<PageId>, one: PageId -> bool, other: PageId -> bool)
    requires forall p | p in ps :: one(p) == other(p)
    ensures Filter(ps, one) == Filter(ps, other)
  {
    if ps != [] { FilterAgrees(ps[..|ps| - 1], one, other); }
  }

  lemma {:induction false} FilterTwo(ps: seq<PageId>, kind: PageId -> bool)
    ensures |Filter(ps, kind)| > 1 <==> AtLeastTwo(ps, kind)
  {
    if ps != [] {
      var (n, front) := (|ps| - 1, ps[..|ps| - 1]);
      FilterTwo(front, kind);
      FilterEmpty(front, kind);
      TwoSplits(ps, kind);
    }
  }

  lemma TwoSplits(ps: seq<PageId>, kind: PageId -> bool)
    requires ps != []
    ensures var front := ps[..|ps| - 1];
            AtLeastTwo(ps, kind) <==>
            AtLeastTwo(front, kind) || (kind(ps[|ps| - 1]) && exists p | p in front :: kind(p))
  {
    var (n, front) := (|ps| - 1, ps[..|ps| - 1]);
    if AtLeastTwo(ps, kind) {
      var i, j :| 0 <= i < j < |ps| && kind(ps[i]) && kind(ps[j]);
      assert front[i] in front;
      if j < n { assert kind(front[i]) && kind(front[j]); }
    }
    if AtLeastTwo(front, kind) {
      var i, j :| 0 <= i < j < |front| && kind(front[i]) && kind(front[j]);
      assert kind(ps[i]) && kind(ps[j]);
    }
    if kind(ps[n]) && exists p | p in front :: kind(p) {
      var p :| p in front && kind(p);
      var i :| 0 <= i < |front| && front[i] == p;
      assert kind(ps[i]) && kind(ps[n]);
    }
  }

  predicate NoTab(w: World, kind: PageId -> bool) {
    forall p | p in w.pages :: !kind(p)
  }

  function Auth(s: Sites, w: World): PageId -> bool { (p: PageId) => AuthTab(s, w, p) }

  function Handoff(s: Sites, w: World): PageId -> bool { (p: PageId) => HandoffTab(s, w, p) }

  function Chat(s: Sites, w: World): PageId -> bool { (p: PageId) => ChatTab(s, w, p) }

  function Open(w: World): PageId -> bool { (p: PageId) => !w.tab(p).closed }

  lemma ListsExactly(s: Sites, w: World)
    ensures Authentication(s, w) == Filter(w.pages, Auth(s, w))
    ensures ExternalHandoff(s, w) == Filter(w.pages, Handoff(s, w))
    ensures Configured(s, w) == Filter(w.pages, Chat(s, w))
  {
    FilterAgrees(w.pages, (p: PageId) => !w.tab(p).closed && s.authentication(w.tab(p).url), Auth(s, w));
    FilterAgrees(w.pages, (p: PageId) => !w.tab(p).closed && w.tab(p).handoff && s.externalSso(w.tab(p).url),
                 Handoff(s, w));
    FilterAgrees(w.pages, (p: PageId) => !w.tab(p).closed && s.configured(w.tab(p).url), Chat(s, w));
  }

  lemma FilterChoosesLast(ps: seq<PageId>, kind: PageId -> bool)
    ensures Filter(ps, kind) == [] <==> forall p | p in ps :: !kind(p)
    ensures Filter(ps, kind) != [] ==> IsLast(ps, kind, Last(Filter(ps, kind)).value)
  {
    FilterEmpty(ps, kind);
    if Filter(ps, kind) != [] { var i := FilterLast(ps, kind); }
  }

  /**
   Which tab owns the surface, exactly: the last authenticating one; else the last one of a manual handoff; else the
   only chat, and none if there are several; else the preferred one if it is open, or the last open one.
   */
  lemma {:induction false} SelectionExactly(s: Sites, w: World, preferred: PageId)
    ensures var (auth, handoff, chat, open) := (Auth(s, w), Handoff(s, w), Chat(s, w), Open(w));
            var got := SelectCurrent(s, w, preferred);
            && (!NoTab(w, auth) ==> got.Selected? && IsLast(w.pages, auth, got.page))
            && (NoTab(w, auth) && !NoTab(w, handoff) ==> got.Selected? && IsLast(w.pages, handoff, got.page))
            && (NoTab(w, auth) && NoTab(w, handoff) ==>
                  && (AtLeastTwo(w.pages, chat) <==> got == Selection.Refused("AMBIGUOUS_COPILOT_PAGE"))
                  && (!AtLeastTwo(w.pages, chat) && !NoTab(w, chat) ==>
                        got.Selected? && IsLast(w.pages, chat, got.page))
                  && (NoTab(w, chat) && open(preferred) ==> got == Selected(preferred))
                  && (NoTab(w, chat) && !open(preferred) && !NoTab(w, open) ==>
                        got.Selected? && IsLast(w.pages, open, got.page))
                  && (NoTab(w, chat) && !open(preferred) && NoTab(w, open) <==>
                        got == Selection.Refused("EDGE_PAGE_MISSING")))
  {
    ListsExactly(s, w);
    FilterChoosesLast(w.pages, Auth(s, w));
    FilterChoosesLast(w.pages, Handoff(s, w));
    FilterChoosesLast(w.pages, Chat(s, w));
    FilterTwo(w.pages, Chat(s, w));
    var open := (p: PageId) => !w.tab(p).closed;
    FilterAgrees(w.pages, open, Open(w));
    FilterChoosesLast(w.pages, Open(w));
  }

  // ----- The checks of a transaction -----

  /** The check after a fill passes exactly while nothing recorded of the page has changed, and says what went wrong. */
  lemma FilledCheckExactly(s: Policy, w: World, pin: Pin)
    ensures FilledCheck(s, w, pin).None? <==> Unchanged(s, w, pin)
    ensures !Unchanged(s, w, pin) ==>
              var chosen := s.select(w, pin.page);
              FilledCheck(s, w, pin) ==
              Some(if chosen.Selected? then "ACTIVE_PAGE_CHANGED_AFTER_FILL" else chosen.code)
  {
  }

  /** The active page is still the selected one, and as the last observation saw it, without any dialog. */
  predicate AsObserved(s: Policy, x: State, w: World) {
    && x.observed.Some? && x.observed.value.dialogEpoch == 0 && w.dialogEpoch == 0
    && s.select(w, x.activePage) == Selected(x.activePage) && !w.tab(x.activePage).closed
    && w.tab(x.activePage).url == x.observed.value.url && w.tab(x.activePage).epoch == x.observed.value.epoch
  }

  function ObservedCode(s: Policy, x: State, w: World): string {
    var chosen := s.select(w, x.activePage);
    if chosen.Selected? then "ACTIVE_PAGE_CHANGED_BEFORE_ACTION" else chosen.code
  }

  lemma ObservedCheckExactly(s: Policy, x: State, w: World)
    ensures var check := ObservedCheck(s, w, x.activePage, x.observed);
            && (check.None? <==> AsObserved(s, x, w)) && (check.Some? ==> check.value == ObservedCode(s, x, w))
  {
  }

  // ----- Fill -----

  /** Every guard of a fill passes: the page is as it was observed, before it is located and right before the write. */
  predicate Writes(s: Policy, x: State, env: FillEnv) {
    && !x.revoked && AsObserved(s, x, env.before) && env.located.None? && env.guard.adapter.None?
    && AsObserved(s, x, env.guard.world)
  }

  /** The write returned, and did not move the page. */
  predicate WrittenInPlace(x: State, env: FillEnv) {
    && x.observed.Some? && env.written && !env.after.tab(x.activePage).closed
    && SeenIn(env.after, x.activePage) == x.observed.value
  }

  /**
   A fill writes exactly if every guard passes. It succeeds exactly if the write also returned on an unmoved page,
   and then pins page, URL, epochs and text for the click; a refused fill changes nothing and names the guard.
   */
  lemma {:induction false} FillExactly(s: Policy, x: State, value: string, env: FillEnv)
    ensures var out := Fill(s, x, value, env);
            && (out.result.RefusedBeforeDispatch? <==> !Writes(s, x, env))
            && (out.result.Done? <==> Writes(s, x, env) && WrittenInPlace(x, env))
            && (!Writes(s, x, env) ==>
                  && out.state == x
                  && out.result.code ==
                     if x.revoked then "BROWSER_OPERATION_TIMEOUT"
                     else if !AsObserved(s, x, env.before) then ObservedCode(s, x, env.before)
                     else if env.located.Some? then env.located.value
                     else if env.guard.adapter.Some? then env.guard.adapter.value
                     else ObservedCode(s, x, env.guard.world))
            && (out.result.Done? ==>
                  var pin := Pin(x.activePage, x.observed.value, value);
                  out.state == x.(filled := Some(pin), postFillSeen := false, log := x.log + [Filled(pin)]))
            && (Writes(s, x, env) && env.written && !WrittenInPlace(x, env) ==> out.state.filled.None?)
  {
    ObservedCheckExactly(s, x, env.before);
    ObservedCheckExactly(s, x, env.guard.world);
  }

  // ----- Observation -----

  /** The observation that a click needs after its fill. */
  predicate CarriesOn(s: Policy, x: State, w: World) {
    && !x.revoked && w.dialogEpoch == 0 && !s.handoff(w)
    && x.filled.Some? && !x.postFillSeen && Unchanged(s, w, x.filled.value)
  }

  /**
   An observation carries a filled transaction on exactly if nothing changed since the fill; one that finds a change
   ends it, and so does every further one.
   */
  lemma {:induction false} ObservationExactly(s: Policy, x: State, w: World, focus: Focus)
    requires x.filled.Some?
    ensures var out := CurrentUrl(s, x, w, focus);
            && (out.state.filled.Some? && out.state.postFillSeen && !x.postFillSeen <==> CarriesOn(s, x, w))
            && (CarriesOn(s, x, w) ==>
                  && out.result == Url(w.tab(x.filled.value.page).url) && out.state.filled == x.filled
                  && out.state.activePage == x.filled.value.page
                  && out.state.observed == Some(SeenIn(w, x.filled.value.page)))
            && (x.revoked ==> out == Out(x, ReadFailed("BROWSER_OPERATION_TIMEOUT")))
            && (!x.revoked && w.dialogEpoch == 0 && s.handoff(w) ==> out == Out(x, ReadFailed("MANUAL_SSO_HANDOFF")))
            && (!x.revoked && w.dialogEpoch == 0 && !s.handoff(w) && !CarriesOn(s, x, w) ==> out.state.filled.None?)
  {
    FilledCheckExactly(s, w, x.filled.value);
  }

  /** Without a transaction an observation records the page that discovery gives, and forgets another one's record. */
  lemma {:induction false} FreshObservationExactly(s: Policy, x: State, w: World, focus: Focus)
    requires !x.revoked && x.filled.None? && w.dialogEpoch == 0 && !s.handoff(w)
    ensures var out := CurrentUrl(s, x, w, focus);
            && (out.result.Url? <==> focus.Focused? && (focus.page == x.activePage || focus.fronted))
            && (out.result.Url? ==>
                  && out.result.url == focus.world.tab(focus.page).url && out.state.activePage == focus.page
                  && out.state.observed == Some(SeenIn(focus.world, focus.page)))
            && (focus.Focused? && !out.result.Url? ==> out.state.observed.None? && out.state.activePage == focus.page)
            && (focus.FocusFailed? ==> out == Out(x, ReadFailed(focus.code)))
  {
  }

  /** A dialog that was ever raised is recorded by every observation, so that no fill passes its check again. */
  lemma {:induction false} DialogStopsFills(s: Policy, x: State, w: World, focus: Focus, value: string, env: FillEnv)
    requires !x.revoked && w.dialogEpoch > 0
    ensures Fill(s, CurrentUrl(s, x, w, focus).state, value, env).result.RefusedBeforeDispatch?
  {
    FillExactly(s, CurrentUrl(s, x, w, focus).state, value, env);
  }

  // ----- Click -----

  /** The guards before the delegate is asked to click. */
  predicate Begins(s: Policy, x: State, env: ClickEnv) {
    && !x.revoked && x.filled.Some? && x.postFillSeen && Unchanged(s, env.before, x.filled.value)
    && env.composer.Some? && ContentPresent(env.composer.value, x.filled.value.value)
    && Unchanged(s, env.again, x.filled.value)
  }

  /** The delegate's own guards. */
  predicate Activates(s: Policy, pin: Pin, env: ClickEnv) {
    && env.located.None? && env.first.adapter.None? && Unchanged(s, env.first.world, pin) && env.preflight.Actionable?
    && env.second.adapter.None? && Unchanged(s, env.second.world, pin)
  }

  /** Every guard passes, up to the moment the click guard is being installed. */
  predicate Armed(s: Policy, x: State, env: ClickEnv) {
    Begins(s, x, env) && Activates(s, x.filled.value, env)
  }

  /** The last deadline assertion before the installation passes. */
  predicate InTime(t: Timing) {
    t.lastCheck < t.deadline && t.lastCheck < t.fired
  }

  /** The click is issued: armed, in time, with its guard installed before the browser goes. */
  predicate Issues(s: Policy, x: State, env: ClickEnv) {
    Armed(s, x, env) && InTime(env.timing) && env.install.Installed? && env.timing.installDone < env.timing.teardown
  }

  /** The click comes back before deadline and timer, proved, on a page that has not changed. */
  predicate ComesBack(s: Policy, pin: Pin, env: ClickEnv) {
    && env.timing.installDone <= env.timing.fired
    && env.timing.finished < env.timing.deadline && env.timing.finished <= env.timing.fired
    && env.proved && Unchanged(s, env.after, pin)
  }

  /** The click succeeds: it is issued and comes back. */
  predicate Succeeds(s: Policy, x: State, env: ClickEnv) {
    Issues(s, x, env) && ComesBack(s, x.filled.value, env)
  }

  lemma {:induction false} ArmedClickDispatches(s: Policy, x: State, env: ClickEnv)
    requires Armed(s, x, env)
    ensures Click(s, x, env) == Dispatch(s, Log(x, ComposerRead(env.composer.value, env.again)), x.filled.value, env)
  {
    FilledCheckExactly(s, env.before, x.filled.value);
    FilledCheckExactly(s, env.again, x.filled.value);
    FilledCheckExactly(s, env.first.world, x.filled.value);
    FilledCheckExactly(s, env.second.world, x.filled.value);
  }

  lemma {:induction false} DispatchCounts(s: Policy, x: State, pin: Pin, env: ClickEnv)
    ensures var issued := InTime(env.timing) && env.install.Installed? && env.timing.installDone < env.timing.teardown;
            var after := if issued then Log(x, Dispatched(env.second.world)) else x;
            Dispatch(s, x, pin, env).state.log == Clear(after).log
  {
  }

  lemma DispatchSucceeds(s: Policy, x: State, pin: Pin, env: ClickEnv)
    ensures Dispatch(s, x, pin, env).result.Done? <==>
            && InTime(env.timing) && env.install.Installed? && env.timing.installDone < env.timing.teardown
            && ComesBack(s, pin, env)
  {
    FilledCheckExactly(s, env.after, pin);
  }

  lemma {:induction false} DispatchExactly(s: Policy, x: State, pin: Pin, env: ClickEnv)
    ensures var (out, t) := (Dispatch(s, x, pin, env), env.timing);
            var issued := InTime(t) && env.install.Installed? && t.installDone < t.teardown;
            && Dispatches(out.state.log) == Dispatches(x.log) + (if issued then 1 else 0)
            && (out.result.Done? <==> issued && ComesBack(s, pin, env))
  {
    DispatchCounts(s, x, pin, env);
    DispatchSucceeds(s, x, pin, env);
    DispatchesClear(x);
    DispatchesLog(x, Dispatched(env.second.world));
    DispatchesClear(Log(x, Dispatched(env.second.world)));
  }

  /** The code with which a check after a fill fails. */
  function MovedCode(s: Policy, w: World, pin: Pin): string {
    var chosen := s.select(w, pin.page);
    if chosen.Selected? then "ACTIVE_PAGE_CHANGED_AFTER_FILL" else chosen.code
  }

  /** What a click answers that does not begin: the code of the guard that fails first. */
  function RefusalToBegin(s: Policy, x: State, env: ClickEnv): string {
    if x.revoked then "BROWSER_OPERATION_TIMEOUT"
    else if x.filled.None? || !x.postFillSeen then "POST_FILL_OBSERVATION_REQUIRED"
    else if !Unchanged(s, env.before, x.filled.value) then MovedCode(s, env.before, x.filled.value)
    else if env.composer.None? then "PRE_ACTIVATION_GUARD_FAILED"
    else if !ContentPresent(env.composer.value, x.filled.value.value) then "COMPOSER_CONTENT_CHANGED_BEFORE_SUBMIT"
    else MovedCode(s, env.again, x.filled.value)
  }

  /** What the delegate answers before it installs its guard; only a preflight that threw is a failure. */
  function RefusalToActivate(s: Policy, pin: Pin, env: ClickEnv): Action {
    if env.located.Some? then RefusedBeforeDispatch(env.located.value)
    else if env.first.adapter.Some? then RefusedBeforeDispatch(env.first.adapter.value)
    else if !Unchanged(s, env.first.world, pin) then RefusedBeforeDispatch(MovedCode(s, env.first.world, pin))
    else if env.preflight.NotActionable? then RefusedBeforeDispatch("ACTIONABLE_ELEMENT_CHANGED_BEFORE_DISPATCH")
    else if env.preflight.PreflightThrew? then Failed
    else if env.second.adapter.Some? then RefusedBeforeDispatch(env.second.adapter.value)
    else RefusedBeforeDispatch(MovedCode(s, env.second.world, pin))
  }

  lemma {:induction false} NotBegunAnswers(s: Policy, x: State, env: ClickEnv)
    requires !Begins(s, x, env)
    ensures var out := Click(s, x, env);
            && Dispatches(out.state.log) == Dispatches(x.log)
            && out.result == RefusedBeforeDispatch(RefusalToBegin(s, x, env))
  {
    DispatchesClear(x);
    if x.filled.Some? {
      FilledCheckExactly(s, env.before, x.filled.value);
      FilledCheckExactly(s, env.again, x.filled.value);
    }
  }

  lemma {:induction false} BegunActivates(s: Policy, x: State, env: ClickEnv)
    requires Begins(s, x, env)
    ensures Click(s, x, env) == Activate(s, Log(x, ComposerRead(env.composer.value, env.again)), x.filled.value, env)
  {
    FilledCheckExactly(s, env.before, x.filled.value);
    FilledCheckExactly(s, env.again, x.filled.value);
  }

  lemma {:induction false} NotActivatedAnswers(s: Policy, x: State, pin: Pin, env: ClickEnv)
    requires !Activates(s, pin, env)
    ensures var out := Activate(s, x, pin, env);
            Dispatches(out.state.log) == Dispatches(x.log) && out.result == RefusalToActivate(s, pin, env)
  {
    DispatchesClear(x);
    FilledCheckExactly(s, env.first.world, pin);
    FilledCheckExactly(s, env.second.world, pin);
  }

  /** An unarmed click is not issued, and answers with the guard that fails first. */
  lemma {:induction false} UnarmedClickAnswers(s: Policy, x: State, env: ClickEnv)
    requires !Armed(s, x, env)
    ensures var out := Click(s, x, env);
            && Dispatches(out.state.log) == Dispatches(x.log)
            && out.result == if Begins(s, x, env) then RefusalToActivate(s, x.filled.value, env)
                             else RefusedBeforeDispatch(RefusalToBegin(s, x, env))
  {
    if Begins(s, x, env) {
      BegunActivates(s, x, env);
      DispatchesLog(x, ComposerRead(env.composer.value, env.again));
      NotActivatedAnswers(s, Log(x, ComposerRead(env.composer.value, env.again)), x.filled.value, env);
    } else {
      NotBegunAnswers(s, x, env);
    }
  }

  /** What an armed click answers: refused while it is not under way for the caller, and a failure from then on. */
  lemma {:induction false} ArmedClickAnswers(s: Policy, x: State, env: ClickEnv)
    requires Armed(s, x, env) && !Succeeds(s, x, env)
    ensures var (out, t) := (Click(s, x, env), env.timing);
            out.result ==
            if !InTime(t) || t.fired < t.installDone then RefusedBeforeDispatch("BROWSER_OPERATION_TIMEOUT")
            else if env.install.Installed? then Failed
            else if t.deadline <= t.installDone then RefusedBeforeDispatch("BROWSER_OPERATION_TIMEOUT")
            else if env.install.InstallThrew? then Failed
            else RefusedBeforeDispatch("ACTIONABLE_ELEMENT_CHANGED_BEFORE_DISPATCH")
  {
    ArmedClickDispatches(s, x, env);
    FilledCheckExactly(s, env.after, x.filled.value);
  }

  /**
   A click is issued exactly if every guard passes, the last deadline assertion is in time and the guard is installed
   before the browser goes; it succeeds exactly if it is also back in time, proved, and the page has not changed.
   */
  lemma {:induction false} ClickExactly(s: Policy, x: State, env: ClickEnv)
    ensures var out := Click(s, x, env);
            && Dispatches(out.state.log) == Dispatches(x.log) + (if Issues(s, x, env) then 1 else 0)
            && (out.result.Done? <==> Succeeds(s, x, env))
  {
    if Armed(s, x, env) {
      ArmedClickDispatches(s, x, env);
      var y := Log(x, ComposerRead(env.composer.value, env.again));
      DispatchesLog(x, ComposerRead(env.composer.value, env.again));
      DispatchExactly(s, y, x.filled.value, env);
    } else {
      UnarmedClickAnswers(s, x, env);
    }
  }
}
