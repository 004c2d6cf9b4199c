/**
 `ContextSemanticPage` as the object it is: the pins of observation and fill are fields updated in place.

 Each method does exactly what the function of `PageTransaction` with the same role says, so what is proved there
 about all runs holds of this object. The ghost log is never read back.
 */
module ContextPage {
  import opened Basics
  import opened BrowserPage
  import opened P = PageTransaction

  class ContextSemanticPage {
    const policy: Policy
    var activePage: PageId
    var observed: Option<Seen>
    var filled: Option<Pin>
    var postFillObservationSeen: bool
    var operationTimedOut: bool
    ghost var log: seq<Event>

    ghost function Model(): State
      reads this
    {
      State(activePage, observed, filled, postFillObservationSeen, operationTimedOut, log)
    }

    constructor (policy: Policy, page: PageId)
      ensures this.policy == policy && Model() == Initial(page)
    {
      this.policy := policy;
      activePage, observed, filled, postFillObservationSeen, operationTimedOut := page, None, None, false, false;
      log := [];
    }

    method ClearFilledPagePin()
      modifies this`filled, this`postFillObservationSeen, this`log
      ensures Model() == Clear(old(Model()))
    {
      filled, postFillObservationSeen := None, false;
      log := log + [Cleared];
    }

    /** Throws when the filled page is not what it was, and then drops the pin. */
    method VerifiedFilledPage(w: World) returns (failure: Option<string>)
      requires filled.Some?
      modifies this`filled, this`postFillObservationSeen, this`log
      ensures failure == FilledCheck(policy, w, old(filled).value)
      ensures Model() == if failure.Some? then Clear(old(Model())) else old(Model())
    {
      var pin := filled.value;
      var selected := policy.select(w, pin.page);
      if selected.Refused? {
        ClearFilledPagePin();
        return Some(selected.code);
      }
      if selected.page != pin.page || w.tab(pin.page).closed || pin.at.dialogEpoch != 0
         || SeenIn(w, pin.page) != pin.at {
        ClearFilledPagePin();
        return Some("ACTIVE_PAGE_CHANGED_AFTER_FILL");
      }
      return None;
    }

    method CurrentUrl(w: World, focus: Focus) returns (read: Read)
      modifies this
      ensures Out(Model(), read) == P.CurrentUrl(policy, old(Model()), w, focus)
    {
      if operationTimedOut { return ReadFailed("BROWSER_OPERATION_TIMEOUT"); }
      if w.dialogEpoch > 0 {
        observed := Some(SeenIn(w, activePage));
        return Url(w.tab(activePage).url);
      }
      if policy.handoff(w) { return ReadFailed("MANUAL_SSO_HANDOFF"); }
      if filled.Some? && !postFillObservationSeen {
        var page := filled.value.page;
        var failure := VerifiedFilledPage(w);
        if failure.Some? { return ReadFailed(failure.value); }
        activePage := page;
        observed := Some(SeenIn(w, page));
        postFillObservationSeen := true;
        log := log + [PostFillObserved(w)];
        return Url(w.tab(page).url);
      }
      if filled.Some? { ClearFilledPagePin(); }
      match focus {
        case FocusFailed(code) => return ReadFailed(code);
        case Focused(page, fronted, after) =>
          if page != activePage {
            activePage := page;
            observed := None;
            if !fronted { return ReadFailed("FOCUS_FAILED"); }
          }
          observed := Some(SeenIn(after, page));
          return Url(after.tab(page).url);
      }
    }

    method Fill(value: string, env: FillEnv) returns (action: Action)
      modifies this
      ensures Out(Model(), action) == P.Fill(policy, old(Model()), value, env)
    {
      if operationTimedOut { return RefusedBeforeDispatch("BROWSER_OPERATION_TIMEOUT"); }
      var page := activePage;
      var failure := ObservedCheck(policy, env.before, page, observed);
      if failure.Some? { return RefusedBeforeDispatch(failure.value); }
      var expected := observed.value;
      if env.located.Some? { return RefusedBeforeDispatch(env.located.value); }
      if env.guard.adapter.Some? { return RefusedBeforeDispatch(env.guard.adapter.value); }
      failure := ObservedCheck(policy, env.guard.world, page, observed);
      if failure.Some? { return RefusedBeforeDispatch(failure.value); }
      if !env.written { return Failed; }
      if env.after.tab(page).closed || SeenIn(env.after, page) != expected {
        ClearFilledPagePin();
        return Failed;
      }
      filled := Some(Pin(page, expected, value));
      postFillObservationSeen := false;
      log := log + [Filled(filled.value)];
      return Done;
    }

    /** `#verifiedActivationPage` */
    method VerifiedActivationPage(env: ClickEnv) returns (failure: Option<string>)
      requires !operationTimedOut
      modifies this`filled, this`postFillObservationSeen, this`log
      ensures failure.Some? ==> Out(Model(), RefusedBeforeDispatch(failure.value)) == P.Click(policy, old(Model()), env)
      ensures failure.None? ==>
                && filled == old(filled) && filled.Some?
                && P.Click(policy, old(Model()), env) == Activate(policy, Model(), filled.value, env)
    {
      if filled.None? || !postFillObservationSeen { return Some("POST_FILL_OBSERVATION_REQUIRED"); }
      var pin := filled.value;
      failure := VerifiedFilledPage(env.before);
      if failure.Some? { return; }
      if env.composer.None? { return Some("PRE_ACTIVATION_GUARD_FAILED"); }
      if !ContentPresent(env.composer.value, pin.value) {
        ClearFilledPagePin();
        return Some("COMPOSER_CONTENT_CHANGED_BEFORE_SUBMIT");
      }
      failure := VerifiedFilledPage(env.again);
      if failure.None? { log := log + [ComposerRead(env.composer.value, env.again)]; }
    }

    method Click(env: ClickEnv) returns (action: Action)
      modifies this
      ensures Out(Model(), action) == P.Click(policy, old(Model()), env)
    {
      if operationTimedOut { return RefusedBeforeDispatch("BROWSER_OPERATION_TIMEOUT"); }
      var failure := VerifiedActivationPage(env);
      if failure.Some? { return RefusedBeforeDispatch(failure.value); }
      action := DelegateClick(filled.value, env);
      ClearFilledPagePin();
    }

    /** The delegate's part of a click, up to and including its dispatch; `Click` drops the pin afterwards. */
    method DelegateClick(pin: Pin, env: ClickEnv) returns (action: Action)
      modifies this`log, this`operationTimedOut
      ensures var out := Activate(policy, old(Model()), pin, env); action == out.result && Clear(Model()) == out.state
    {
      if env.located.Some? { return RefusedBeforeDispatch(env.located.value); }
      var failure := GuardCheck(policy, env.first, pin);
      if failure.Some? { return RefusedBeforeDispatch(failure.value); }
      match env.preflight {
        case NotActionable => return RefusedBeforeDispatch("ACTIONABLE_ELEMENT_CHANGED_BEFORE_DISPATCH");
        case PreflightThrew => return Failed;
        case Actionable =>
      }
      failure := GuardCheck(policy, env.second, pin);
      if failure.Some? { return RefusedBeforeDispatch(failure.value); }
      var t := env.timing;
      if t.deadline <= t.lastCheck || t.fired <= t.lastCheck {
        operationTimedOut := true;
        return RefusedBeforeDispatch("BROWSER_OPERATION_TIMEOUT");
      }
      if env.install.Installed? && t.installDone < t.teardown { log := log + [Dispatched(env.second.world)]; }
      if t.fired < t.installDone {
        operationTimedOut := true;
        return RefusedBeforeDispatch("BROWSER_OPERATION_TIMEOUT");
      }
      if !env.install.Installed? {
        if t.deadline <= t.installDone {
          operationTimedOut := true;
          return RefusedBeforeDispatch("BROWSER_OPERATION_TIMEOUT");
        }
        return if env.install.InstallThrew? then Failed
               else RefusedBeforeDispatch("ACTIONABLE_ELEMENT_CHANGED_BEFORE_DISPATCH");
      }
      if t.deadline <= t.finished || t.fired < t.finished {
        operationTimedOut := true;
        return Failed;
      }
      var after := FilledCheck(policy, env.after, pin);
      return if t.installDone < t.teardown && env.proved && after.None? then Done else Failed;
    }
  }

  /** A whole run of calls on one new page object: every click it dispatches is licensed by a fill of its own. */
  method Serve(policy: Policy, start: PageId, calls: seq<Call>) returns (page: ContextSemanticPage)
    ensures page.policy == policy && page.Model() == Run(policy, start, calls)
    ensures forall i | 0 <= i < |page.log| && page.log[i].Dispatched? ::
              exists fill, observation, read :: Licensed(policy, page.log, i, fill, observation, read)
  {
    page := new ContextSemanticPage(policy, start);
    for i := 0 to |calls|
      invariant page.policy == policy && page.Model() == Run(policy, start, calls[..i])
    {
      assert calls[..i + 1][..i] == calls[..i];
      match calls[i] {
        case CurrentUrlCall(w, focus) => var read := page.CurrentUrl(w, focus);
        case FillCall(value, env) => var action := page.Fill(value, env);
        case ClickCall(env) => var action := page.Click(env);
        case Expire => page.operationTimedOut := true;
      }
    }
    assert calls[..|calls|] == calls;
    forall i | 0 <= i < |page.log| && page.log[i].Dispatched?
      ensures exists fill, observation, read :: Licensed(policy, page.log, i, fill, observation, read)
    {
      var fill, observation, read := EveryClickIsLicensed(policy, start, calls, i);
    }
  }
}
