/**
 `ContextSemanticPage`: one filled draft licenses at most one click, on the page that received it.

 Between any two awaits tabs may open, close, navigate or raise dialogs. A `World` is what the browser context
 looks like at one synchronous point; every call takes as parameters the worlds at its points and the answers of
 the page delegate. The readiness-only overrides of setup are not part of this model.
 */
module PageTransaction {
  import opened Basics
  import opened BrowserPage

  type PageId = nat

  /** `handoff`: the tab has the provenance of a manual authentication handoff. */
  datatype Tab = Tab(url: string, closed: bool, epoch: nat, handoff: bool)

  datatype World = World(pages: seq<PageId>, tab: PageId -> Tab, dialogEpoch: nat)

  /** The URL classes of the configuration; URL parsing is foreign. */
  datatype Sites = Sites(authentication: string -> bool, configured: string -> bool, externalSso: string -> bool)

  datatype Selection = Selected(page: PageId) | Refused(code: string)

  /** What the transaction uses of page selection: who owns the surface, and whether a handoff is under way. */
  datatype Policy = Policy(select: (World, PageId) -> Selection, handoff: World -> bool)

  // ----- Which tab owns the surface -----

  function Filter(ps: seq<PageId>, keep: PageId -> bool): (r: seq<PageId>)
    ensures forall p :: p in r <==> p in ps && keep(p)
    ensures |r| <= |ps|
  {
    if ps == [] then [] else Filter(ps[..|ps| - 1], keep) + if keep(ps[|ps| - 1]) then [ps[|ps| - 1]] else []
  }

  function Last(ps: seq<PageId>): (r: Option<PageId>)
    ensures r.None? <==> ps == []
    ensures r.Some? ==> r.value in ps
  {
    if ps == [] then None else Some(ps[|ps| - 1])
  }

  function Authentication(s: Sites, w: World): seq<PageId> {
    Filter(w.pages, (p: PageId) => !w.tab(p).closed && s.authentication(w.tab(p).url))
  }

  function Configured(s: Sites, w: World): seq<PageId> {
    Filter(w.pages, (p: PageId) => !w.tab(p).closed && s.configured(w.tab(p).url))
  }

  /** Open tabs of a manual handoff that left for an external identity provider. */
  function ExternalHandoff(s: Sites, w: World): seq<PageId> {
    Filter(w.pages, (p: PageId) => !w.tab(p).closed && w.tab(p).handoff && s.externalSso(w.tab(p).url))
  }

  /** `selectActiveCopilotPage` */
  function SelectActive(s: Sites, w: World, preferred: PageId): Selection {
    if Authentication(s, w) != [] then Selected(Last(Authentication(s, w)).value)
    else if |Configured(s, w)| > 1 then Refused("AMBIGUOUS_COPILOT_PAGE")
    else if |Configured(s, w)| == 1 then Selected(Configured(s, w)[0])
    else if !w.tab(preferred).closed then Selected(preferred)
    else
      var open := Filter(w.pages, (p: PageId) => !w.tab(p).closed);
      if open != [] then Selected(Last(open).value) else Refused("EDGE_PAGE_MISSING")
  }

  /** `#selectCurrentPage` */
  function SelectCurrent(s: Sites, w: World, preferred: PageId): Selection {
    if Authentication(s, w) == [] && ExternalHandoff(s, w) != [] then Selected(Last(ExternalHandoff(s, w)).value)
    else SelectActive(s, w, preferred)
  }

  /** A selected chat tab has no rival: nothing is authenticating, and no other open tab is a chat. */
  lemma SelectedChatIsAlone(s: Sites, w: World, preferred: PageId, p: PageId)
    requires SelectCurrent(s, w, preferred) == Selected(p) && s.configured(w.tab(p).url)
    requires !s.authentication(w.tab(p).url) && !s.externalSso(w.tab(p).url)
    ensures forall o | o in w.pages && !w.tab(o).closed && o != p ::
              && !s.authentication(w.tab(o).url) && !s.configured(w.tab(o).url)
              && !(w.tab(o).handoff && s.externalSso(w.tab(o).url))
  {
    forall o | o in w.pages && !w.tab(o).closed && o != p
      ensures !s.authentication(w.tab(o).url) && !s.configured(w.tab(o).url)
              && !(w.tab(o).handoff && s.externalSso(w.tab(o).url))
    {
      assert (o in Authentication(s, w)) == s.authentication(w.tab(o).url);
      assert (o in ExternalHandoff(s, w)) == (w.tab(o).handoff && s.externalSso(w.tab(o).url));
      assert (o in Configured(s, w)) == s.configured(w.tab(o).url);
    }
  }

  function PolicyOf(s: Sites): Policy {
    Policy((w: World, preferred: PageId) => SelectCurrent(s, w, preferred), (w: World) => ExternalHandoff(s, w) != [])
  }

  // ----- The transaction -----

  /** What the last observation recorded of the active page. */
  datatype Seen = Seen(url: string, epoch: nat, dialogEpoch: nat)

  /** What a fill recorded: page, URL, navigation and dialog epochs, and the text. */
  datatype Pin = Pin(page: PageId, at: Seen, value: string)

  datatype Element = Element(visible: bool, enabled: bool, value: string, text: string)

  /** `Dispatched` is a click that was issued to the browser; whether it arrives in time is the browser's affair. */
  datatype Event =
    | Filled(pin: Pin)
    | PostFillObserved(world: World)
    | ComposerRead(elements: seq<Element>, world: World)
    | Dispatched(world: World)
    | Cleared

  datatype State = State(
    activePage: PageId, observed: Option<Seen>, filled: Option<Pin>, postFillSeen: bool, revoked: bool, log: seq<Event>)

  datatype Out<T> = Out(state: State, result: T)

  function SeenIn(w: World, p: PageId): Seen {
    Seen(w.tab(p).url, w.tab(p).epoch, w.dialogEpoch)
  }

  /** `#verifiedFilledPage`: the diagnostic code of the failure, or none. */
  function FilledCheck(s: Policy, w: World, pin: Pin): Option<string> {
    match s.select(w, pin.page)
    case Refused(code) => Some(code)
    case Selected(p) =>
      if p != pin.page || w.tab(p).closed || pin.at.dialogEpoch != 0 || SeenIn(w, p) != pin.at
      then Some("ACTIVE_PAGE_CHANGED_AFTER_FILL") else None
  }

  /** `#assertObservedPageCurrent` */
  function ObservedCheck(s: Policy, w: World, active: PageId, observed: Option<Seen>): Option<string> {
    match s.select(w, active)
    case Refused(code) => Some(code)
    case Selected(p) =>
      if p != active || w.tab(p).closed || observed.None? || observed.value.dialogEpoch != 0
         || SeenIn(w, p) != observed.value
      then Some("ACTIVE_PAGE_CHANGED_BEFORE_ACTION") else None
  }

  function Log(x: State, e: Event): State {
    x.(log := x.log + [e])
  }

  function Clear(x: State): State {
    Log(x.(filled := None, postFillSeen := false), Cleared)
  }

  datatype Read = Url(url: string) | ReadFailed(code: string)

  /** `focusActivePage`: page discovery answers with any page; `world` is the context when it returns. */
  datatype Focus = FocusFailed(code: string) | Focused(page: PageId, fronted: bool, world: World)

  /** `currentUrl` opens an observation. */
  function CurrentUrl(s: Policy, x: State, w: World, focus: Focus): Out<Read> {
    if x.revoked then Out(x, ReadFailed("BROWSER_OPERATION_TIMEOUT"))
    else if w.dialogEpoch > 0 then
      Out(x.(observed := Some(SeenIn(w, x.activePage))), Url(w.tab(x.activePage).url))
    else if s.handoff(w) then Out(x, ReadFailed("MANUAL_SSO_HANDOFF"))
    else if x.filled.Some? && !x.postFillSeen then
      var pin := x.filled.value;
      match FilledCheck(s, w, pin)
      case Some(code) => Out(Clear(x), ReadFailed(code))
      case None =>
        var y := x.(activePage := pin.page, observed := Some(SeenIn(w, pin.page)), postFillSeen := true);
        Out(Log(y, PostFillObserved(w)), Url(w.tab(pin.page).url))
    else FocusAnew(if x.filled.Some? then Clear(x) else x, focus)
  }

  function FocusAnew(x: State, focus: Focus): Out<Read> {
    match focus
    case FocusFailed(code) => Out(x, ReadFailed(code))
    case Focused(p, fronted, w) =>
      var y := if p != x.activePage then x.(activePage := p, observed := None) else x;
      if p != x.activePage && !fronted then Out(y, ReadFailed("FOCUS_FAILED"))
      else Out(y.(observed := Some(SeenIn(w, p))), Url(w.tab(p).url))
  }

  /** One evaluation of the guard composed by this class: the adapter's guard, then the pinned state, in this world. */
  datatype Guard = Guard(adapter: Option<string>, world: World)

  /** Filling: locate, guard, write. `written` is false when the write threw. */
  datatype FillEnv = FillEnv(before: World, located: Option<string>, guard: Guard, written: bool, after: World)

  function Fill(s: Policy, x: State, value: string, env: FillEnv): Out<Action> {
    var page := x.activePage;
    if x.revoked then Out(x, RefusedBeforeDispatch("BROWSER_OPERATION_TIMEOUT"))
    else match ObservedCheck(s, env.before, page, x.observed)
      case Some(code) => Out(x, RefusedBeforeDispatch(code))
      case None =>
        if env.located.Some? then Out(x, RefusedBeforeDispatch(env.located.value))
        else if env.guard.adapter.Some? then Out(x, RefusedBeforeDispatch(env.guard.adapter.value))
        else match ObservedCheck(s, env.guard.world, page, x.observed)
          case Some(code) => Out(x, RefusedBeforeDispatch(code))
          case None =>
            if !env.written then Out(x, Failed)
            else if env.after.tab(page).closed || SeenIn(env.after, page) != x.observed.value then Out(Clear(x), Failed)
            else
              var pin := Pin(page, x.observed.value, value);
              Out(Log(x.(filled := Some(pin), postFillSeen := false), Filled(pin)), Done)
  }

  // ----- Click -----

  predicate Sentinel(ch: char) {
    ch == '\U{200B}' || ch == '\U{200C}'
  }

  /** The editor appends zero-width sentinels after an unchanged fill; only trailing ones are dropped. */
  function StripSentinels(text: string): (r: string)
    ensures |r| <= |text| && r == text[..|r|]
    ensures r != [] ==> !Sentinel(r[|r| - 1])
    ensures forall i | |r| <= i < |text| :: Sentinel(text[i])
  {
    if text != [] && Sentinel(text[|text| - 1]) then StripSentinels(text[..|text| - 1]) else text
  }

  predicate HoldsValue(e: Element, value: string) {
    e.visible && e.enabled && (e.value == value || e.text == value || StripSentinels(e.text) == value)
  }

  predicate ContentPresent(elements: seq<Element>, value: string) {
    exists e | e in elements :: HoldsValue(e, value)
  }

  datatype Preflight = Actionable | NotActionable | PreflightThrew

  datatype Install = Installed | NotInstalled | InstallThrew

  /**
   The end of a click in time, on the one event loop: `lastCheck` is the last deadline assertion before the click
   guard is installed, `fired` the moment the deadline timer or an abort listener runs, `installDone` the answer
   of the installation, `teardown` the moment the browser stops taking commands, and `finished` the return of the
   click with its proof, all in milliseconds. What never happens lies after everything else.
   */
  datatype Timing = Timing(
    deadline: real, lastCheck: real, fired: real, installDone: real, teardown: real, finished: real)

  datatype ClickEnv = ClickEnv(
    before: World, composer: Option<seq<Element>>, again: World, located: Option<string>,
    first: Guard, preflight: Preflight, second: Guard, install: Install, proved: bool, after: World, timing: Timing)

  /** The timeout given to the click itself, in milliseconds: what is left of the deadline, and never less than one. */
  function ClickAllowance(t: Timing): int {
    var left := -(t.installDone - t.deadline).Floor;
    if left < 1 then 1 else left
  }

  /** The guard of `click`: nothing, or the code it refuses with. */
  function GuardCheck(s: Policy, g: Guard, pin: Pin): Option<string> {
    if g.adapter.Some? then g.adapter else FilledCheck(s, g.world, pin)
  }

  function Click(s: Policy, x: State, env: ClickEnv): Out<Action> {
    if x.revoked then Out(x, RefusedBeforeDispatch("BROWSER_OPERATION_TIMEOUT"))
    else if x.filled.None? || !x.postFillSeen then Out(x, RefusedBeforeDispatch("POST_FILL_OBSERVATION_REQUIRED"))
    else
      var pin := x.filled.value;
      match FilledCheck(s, env.before, pin)
      case Some(code) => Out(Clear(x), RefusedBeforeDispatch(code))
      case None =>
        if env.composer.None? then Out(x, RefusedBeforeDispatch("PRE_ACTIVATION_GUARD_FAILED"))
        else if !ContentPresent(env.composer.value, pin.value) then
          Out(Clear(x), RefusedBeforeDispatch("COMPOSER_CONTENT_CHANGED_BEFORE_SUBMIT"))
        else match FilledCheck(s, env.again, pin)
          case Some(code) => Out(Clear(x), RefusedBeforeDispatch(code))
          case None => Activate(s, Log(x, ComposerRead(env.composer.value, env.again)), pin, env)
  }

  /** The delegate's click; the transaction pin is dropped however it ends. */
  function Activate(s: Policy, x: State, pin: Pin, env: ClickEnv): Out<Action> {
    if env.located.Some? then Out(Clear(x), RefusedBeforeDispatch(env.located.value))
    else match GuardCheck(s, env.first, pin)
      case Some(code) => Out(Clear(x), RefusedBeforeDispatch(code))
      case None =>
        if env.preflight.NotActionable? then
          Out(Clear(x), RefusedBeforeDispatch("ACTIONABLE_ELEMENT_CHANGED_BEFORE_DISPATCH"))
        else if env.preflight.PreflightThrew? then Out(Clear(x), Failed)
        else match GuardCheck(s, env.second, pin)
          case Some(code) => Out(Clear(x), RefusedBeforeDispatch(code))
          case None => Dispatch(s, x, pin, env)
  }

  function Revoke(x: State): State {
    x.(revoked := true)
  }

  /**
   From the last deadline assertion on. A timer that fires before the guard is installed has answered the caller
   with `dispatchAttempted === false`; the installation goes on, and the click is issued after it unless the browser
   is gone by then.
   */
  function Dispatch(s: Policy, x: State, pin: Pin, env: ClickEnv): Out<Action> {
    var t := env.timing;
    var y := if env.install.Installed? && t.installDone < t.teardown then Log(x, Dispatched(env.second.world)) else x;
    if t.deadline <= t.lastCheck || t.fired <= t.lastCheck then
      Out(Revoke(Clear(x)), RefusedBeforeDispatch("BROWSER_OPERATION_TIMEOUT"))
    else if t.fired < t.installDone then
      Out(Revoke(Clear(y)), RefusedBeforeDispatch("BROWSER_OPERATION_TIMEOUT"))
    else if env.install.Installed? then
      var late := t.deadline <= t.finished || t.fired < t.finished;
      Out(if late then Revoke(Clear(y)) else Clear(y),
          if !late && t.installDone < t.teardown && env.proved && FilledCheck(s, env.after, pin).None?
          then Done else Failed)
    else if t.deadline <= t.installDone then
      Out(Revoke(Clear(x)), RefusedBeforeDispatch("BROWSER_OPERATION_TIMEOUT"))
    else
      Out(Clear(x), if env.install.InstallThrew? then Failed
                    else RefusedBeforeDispatch("ACTIONABLE_ELEMENT_CHANGED_BEFORE_DISPATCH"))
  }

  // ----- The discipline of the log -----

  /** How far a transaction has come. */
  datatype Phase = Idle | AfterFill(pin: Pin) | AfterObservation(pin: Pin) | AfterRead(pin: Pin)

  function Next(s: Policy, phase: Phase, e: Event): Option<Phase> {
    match e
    case Filled(pin) => Some(AfterFill(pin))
    case Cleared => Some(Idle)
    case PostFillObserved(w) =>
      if phase.AfterFill? && FilledCheck(s, w, phase.pin).None? then Some(AfterObservation(phase.pin)) else None
    case ComposerRead(elements, w) =>
      if phase.AfterObservation? && FilledCheck(s, w, phase.pin).None? && ContentPresent(elements, phase.pin.value)
      then Some(AfterRead(phase.pin)) else None
    case Dispatched(w) =>
      if phase.AfterRead? && FilledCheck(s, w, phase.pin).None? then Some(Idle) else None
  }

  /** The phase after a log that keeps the discipline; no phase after one that does not. */
  function Replay(s: Policy, log: seq<Event>): Option<Phase> {
    if log == [] then Some(Idle)
    else match Replay(s, log[..|log| - 1])
      case None => None
      case Some(phase) => Next(s, phase, log[|log| - 1])
  }

  lemma ReplayLog(s: Policy, x: State, e: Event)
    ensures Replay(s, Log(x, e).log) == match Replay(s, x.log) case None => None case Some(phase) => Next(s, phase, e)
  {
    assert (x.log + [e])[..|x.log|] == x.log;
  }

  predicate Inv(s: Policy, x: State) {
    Replay(s, x.log) == Some(if x.filled.None? then Idle
                             else if x.postFillSeen then AfterObservation(x.filled.value)
                             else AfterFill(x.filled.value))
  }

  lemma ClearKeepsInv(s: Policy, x: State)
    requires Replay(s, x.log).Some?
    ensures Inv(s, Clear(x))
  {
    ReplayLog(s, x.(filled := None, postFillSeen := false), Cleared);
  }

  lemma CurrentUrlKeepsInv(s: Policy, x: State, w: World, focus: Focus)
    requires Inv(s, x)
    ensures Inv(s, CurrentUrl(s, x, w, focus).state)
  {
    ClearKeepsInv(s, x);
    if x.filled.Some? {
      var pin := x.filled.value;
      ReplayLog(s, x.(activePage := pin.page, observed := Some(SeenIn(w, pin.page)), postFillSeen := true),
                PostFillObserved(w));
    }
  }

  lemma FillKeepsInv(s: Policy, x: State, value: string, env: FillEnv)
    requires Inv(s, x)
    ensures Inv(s, Fill(s, x, value, env).state)
  {
    ClearKeepsInv(s, x);
    if x.observed.Some? {
      var pin := Pin(x.activePage, x.observed.value, value);
      ReplayLog(s, x.(filled := Some(pin), postFillSeen := false), Filled(pin));
    }
  }

  lemma ClickKeepsInv(s: Policy, x: State, env: ClickEnv)
    requires Inv(s, x)
    ensures Inv(s, Click(s, x, env).state)
  {
    ClearKeepsInv(s, x);
    if x.filled.Some? && x.postFillSeen && env.composer.Some? && FilledCheck(s, env.again, x.filled.value).None?
       && ContentPresent(env.composer.value, x.filled.value.value) {
      var y := Log(x, ComposerRead(env.composer.value, env.again));
      ReplayLog(s, x, ComposerRead(env.composer.value, env.again));
      ClearKeepsInv(s, y);
      if GuardCheck(s, env.second, x.filled.value).None? {
        ReplayLog(s, y, Dispatched(env.second.world));
        ClearKeepsInv(s, Log(y, Dispatched(env.second.world)));
      }
    }
  }

  // ----- All runs -----

  /** A call, or a delegate deadline that passes and revokes the page. */
  datatype Call =
    | CurrentUrlCall(world: World, focus: Focus)
    | FillCall(value: string, fillEnv: FillEnv)
    | ClickCall(clickEnv: ClickEnv)
    | Expire

  function Perform(s: Policy, x: State, call: Call): State {
    match call
    case CurrentUrlCall(w, focus) => CurrentUrl(s, x, w, focus).state
    case FillCall(value, env) => Fill(s, x, value, env).state
    case ClickCall(env) => Click(s, x, env).state
    case Expire => Revoke(x)
  }

  function Initial(page: PageId): State {
    State(page, None, None, false, false, [])
  }

  function RunFrom(s: Policy, x: State, calls: seq<Call>): State {
    if calls == [] then x else Perform(s, RunFrom(s, x, calls[..|calls| - 1]), calls[|calls| - 1])
  }

  /** A run of a new object. */
  function Run(s: Policy, page: PageId, calls: seq<Call>): State {
    RunFrom(s, Initial(page), calls)
  }

  lemma RunKeepsInv(s: Policy, page: PageId, calls: seq<Call>)
    ensures Inv(s, Run(s, page, calls))
  {
    RunFromKeepsInv(s, Initial(page), calls);
  }

  lemma {:induction false} RunFromKeepsInv(s: Policy, start: State, calls: seq<Call>)
    requires Inv(s, start)
    ensures Inv(s, RunFrom(s, start, calls))
  {
    if calls == [] {
    } else {
      var x := RunFrom(s, start, calls[..|calls| - 1]);
      RunFromKeepsInv(s, start, calls[..|calls| - 1]);
      match calls[|calls| - 1]
      case CurrentUrlCall(w, focus) => CurrentUrlKeepsInv(s, x, w, focus);
      case FillCall(value, env) => FillKeepsInv(s, x, value, env);
      case ClickCall(env) => ClickKeepsInv(s, x, env);
      case Expire =>
    }
  }

  predicate Disciplined(s: Policy, log: seq<Event>) {
    Replay(s, log).Some?
  }

  lemma {:induction false} PrefixIsDisciplined(s: Policy, log: seq<Event>, n: nat)
    requires Disciplined(s, log) && n <= |log|
    ensures Disciplined(s, log[..n])
  {
    if n < |log| {
      PrefixIsDisciplined(s, log[..|log| - 1], n);
      assert log[..|log| - 1][..n] == log[..n];
    } else {
      assert log[..n] == log;
    }
  }

  /** Between a fill and a later event of its transaction, nothing ends the transaction or starts another one. */
  predicate Uninterrupted(log: seq<Event>, from: nat, n: nat)
    requires n <= |log|
  {
    forall k | from < k < n :: !log[k].Filled? && !log[k].Cleared? && !log[k].Dispatched?
  }

  /** A log that ends inside a transaction holds its fill, and what it went through since, in order. */
  lemma {:induction false} TransactionSoFar(s: Policy, log: seq<Event>) returns (fill: nat, observation: nat, read: nat)
    requires Disciplined(s, log) && !Replay(s, log).value.Idle?
    ensures var phase := Replay(s, log).value;
            && fill < |log| && log[fill] == Filled(phase.pin) && Uninterrupted(log, fill, |log|)
            && (!phase.AfterFill? ==>
                  fill < observation < |log| && log[observation].PostFillObserved?
                  && FilledCheck(s, log[observation].world, phase.pin).None?)
            && (phase.AfterRead? ==>
                  observation < read < |log| && log[read].ComposerRead?
                  && ContentPresent(log[read].elements, phase.pin.value)
                  && FilledCheck(s, log[read].world, phase.pin).None?)
  {
    var last := |log| - 1;
    var before := log[..last];
    fill, observation, read := last, last, last;
    if !log[last].Filled? {
      fill, observation, read := TransactionSoFar(s, before);
      if log[last].PostFillObserved? { observation := last; }
      if log[last].ComposerRead? { read := last; }
    }
  }

  /** Everything the fill recorded still holds, no dialog was ever raised, and the page is the current selection. */
  predicate Unchanged(s: Policy, w: World, pin: Pin) {
    && s.select(w, pin.page) == Selected(pin.page) && !w.tab(pin.page).closed
    && w.tab(pin.page).url == pin.at.url && w.tab(pin.page).epoch == pin.at.epoch
    && w.dialogEpoch == 0 && pin.at.dialogEpoch == 0
  }

  /** What licenses a click: one fill, observed again and read back on the same page, and guarded before dispatch. */
  predicate Licensed(s: Policy, log: seq<Event>, i: nat, fill: nat, observation: nat, read: nat) {
    && fill < observation < read < i < |log| && log[fill].Filled? && log[i].Dispatched?
    && var pin := log[fill].pin;
       && log[observation].PostFillObserved? && Unchanged(s, log[observation].world, pin)
       && log[read].ComposerRead? && Unchanged(s, log[read].world, pin) && ContentPresent(log[read].elements, pin.value)
       && Unchanged(s, log[i].world, pin)
       && Uninterrupted(log, fill, i)
  }

  /** The fill/click transaction: in every run, every dispatched click is licensed. */
  lemma {:induction false} EveryClickIsLicensed(s: Policy, page: PageId, calls: seq<Call>, i: nat)
    returns (fill: nat, observation: nat, read: nat)
    requires var log := Run(s, page, calls).log; i < |log| && log[i].Dispatched?
    ensures Licensed(s, Run(s, page, calls).log, i, fill, observation, read)
  {
    var log := Run(s, page, calls).log;
    RunKeepsInv(s, page, calls);
    PrefixIsDisciplined(s, log, i + 1);
    assert log[..i + 1][..i] == log[..i];
    fill, observation, read := TransactionSoFar(s, log[..i]);
  }

  /** Each fill licenses at most one click: the fill of a later click comes after the earlier click. */
  lemma {:induction false} OneClickPerFill(s: Policy, page: PageId, calls: seq<Call>, i: nat, j: nat)
    returns (first: nat, second: nat)
    requires var log := Run(s, page, calls).log; i < j < |log| && log[i].Dispatched? && log[j].Dispatched?
    ensures var log := Run(s, page, calls).log;
            first < i < second < j && log[first].Filled? && log[second].Filled?
            && Uninterrupted(log, first, i) && Uninterrupted(log, second, j)
  {
    var observation, read;
    first, observation, read := EveryClickIsLicensed(s, page, calls, i);
    second, observation, read := EveryClickIsLicensed(s, page, calls, j);
  }

  // ----- What a refusal means -----

  function Dispatches(log: seq<Event>): nat {
    if log == [] then 0 else Dispatches(log[..|log| - 1]) + if log[|log| - 1].Dispatched? then 1 else 0
  }

  lemma DispatchesLog(x: State, e: Event)
    ensures Dispatches(Log(x, e).log) == Dispatches(x.log) + if e.Dispatched? then 1 else 0
  {
    assert (x.log + [e])[..|x.log|] == x.log;
  }

  /** The transaction is in order up to a guard that gets installed. */
  predicate ReachesInstall(s: Policy, x: State, env: ClickEnv) {
    && !x.revoked && x.filled.Some? && x.postFillSeen && FilledCheck(s, env.before, x.filled.value).None?
    && env.composer.Some? && ContentPresent(env.composer.value, x.filled.value.value)
    && FilledCheck(s, env.again, x.filled.value).None? && env.located.None?
    && GuardCheck(s, env.first, x.filled.value).None? && env.preflight.Actionable?
    && GuardCheck(s, env.second, x.filled.value).None? && env.install.Installed?
  }

  /** The timer fires between the last deadline assertion and the end of the installation, which beats the teardown. */
  predicate Slips(t: Timing) {
    t.lastCheck < t.deadline && t.lastCheck < t.fired < t.installDone < t.teardown
  }

  lemma {:induction false} RefusedYetIssued(s: Policy, x: State, env: ClickEnv)
    ensures var (out, t) := (Click(s, x, env), env.timing);
            && (out.result.RefusedBeforeDispatch? && Dispatches(out.state.log) != Dispatches(x.log)
                <==> ReachesInstall(s, x, env) && Slips(t))
            && (ReachesInstall(s, x, env) && Slips(t) ==> out.state.revoked)
  {
    DispatchesClear(x);
    if env.composer.Some? {
      var y := Log(x, ComposerRead(env.composer.value, env.again));
      DispatchesLog(x, ComposerRead(env.composer.value, env.again));
      DispatchesClear(y);
      DispatchesLog(y, Dispatched(env.second.world));
      DispatchesClear(Log(y, Dispatched(env.second.world)));
    }
  }

  lemma SlippedClickAllowance(t: Timing)
    requires Slips(t)
    ensures t.deadline <= t.fired ==> ClickAllowance(t) == 1
    ensures t.installDone < t.deadline ==> t.deadline <= t.installDone + ClickAllowance(t) as real
  {
  }

  /**
   A click reports `dispatchAttempted === false` and is issued all the same exactly when the timer fires after the
   last deadline assertion, before the guard is installed, and the guard is installed before the browser is torn
   down; with a prompt timer, when lastCheck < deadline < installDone < teardown. The page is then revoked. After
   the deadline such a click has one millisecond left; after an abort before the deadline it has all that remains.
   */
  lemma {:induction false} RefusedClickDispatchedExactlyWhen(s: Policy, x: State, env: ClickEnv)
    ensures var (out, t) := (Click(s, x, env), env.timing);
            && (out.result.RefusedBeforeDispatch? && Dispatches(out.state.log) != Dispatches(x.log)
                <==> ReachesInstall(s, x, env) && Slips(t))
            && (t.fired == t.deadline ==> (Slips(t) <==> t.lastCheck < t.deadline < t.installDone < t.teardown))
            && (ReachesInstall(s, x, env) && Slips(t) ==> out.state.revoked)
            && (Slips(t) && t.deadline <= t.fired ==> ClickAllowance(t) == 1)
            && (Slips(t) && t.installDone < t.deadline ==> t.deadline <= t.installDone + ClickAllowance(t) as real)
  {
    RefusedYetIssued(s, x, env);
    if Slips(env.timing) { SlippedClickAllowance(env.timing); }
  }

  lemma DispatchesClear(x: State)
    ensures Dispatches(Clear(x).log) == Dispatches(x.log)
  {
    DispatchesLog(x.(filled := None, postFillSeen := false), Cleared);
  }

  /** One click dispatches at most once; if it does and is reported as refused, the page is revoked. */
  lemma {:induction false} ClickDispatchesAtMostOnce(s: Policy, x: State, env: ClickEnv)
    ensures var (out, before) := (Click(s, x, env), Dispatches(x.log));
            && before <= Dispatches(out.state.log) <= before + 1
            && (x.revoked ==> out.state == x)
            && (Dispatches(out.state.log) > before && out.result.RefusedBeforeDispatch? ==> out.state.revoked)
  {
    DispatchesClear(x);
    if env.composer.Some? {
      var y := Log(x, ComposerRead(env.composer.value, env.again));
      DispatchesLog(x, ComposerRead(env.composer.value, env.again));
      DispatchesClear(y);
      DispatchesLog(y, Dispatched(env.second.world));
      DispatchesClear(Log(y, Dispatched(env.second.world)));
    }
  }

  /** Calls other than clicks dispatch nothing. */
  lemma {:induction false} OnlyClicksDispatch(s: Policy, x: State, calls: seq<Call>)
    requires forall i | 0 <= i < |calls| :: !calls[i].ClickCall?
    ensures Dispatches(RunFrom(s, x, calls).log) == Dispatches(x.log)
    ensures x.revoked ==> RunFrom(s, x, calls).revoked
  {
    if calls != [] {
      var (y, call) := (RunFrom(s, x, calls[..|calls| - 1]), calls[|calls| - 1]);
      OnlyClicksDispatch(s, x, calls[..|calls| - 1]);
      OneCallDispatchesNothing(s, y, call);
    }
  }

  lemma OneCallDispatchesNothing(s: Policy, x: State, call: Call)
    requires !call.ClickCall?
    ensures Dispatches(Perform(s, x, call).log) == Dispatches(x.log)
    ensures x.revoked ==> Perform(s, x, call).revoked
  {
    DispatchesClear(x);
    match call
    case CurrentUrlCall(w, focus) =>
      if x.filled.Some? {
        var pin := x.filled.value;
        var y := x.(activePage := pin.page, observed := Some(SeenIn(w, pin.page)), postFillSeen := true);
        DispatchesLog(y, PostFillObserved(w));
      }
    case FillCall(value, env) =>
      if x.observed.Some? {
        var pin := Pin(x.activePage, x.observed.value, value);
        DispatchesLog(x.(filled := Some(pin), postFillSeen := false), Filled(pin));
      }
    case Expire =>
  }

  /** A revoked page never writes or clicks again, whatever is asked of it. */
  lemma {:induction false} RevokedIsInert(s: Policy, x: State, calls: seq<Call>)
    requires x.revoked
    ensures RunFrom(s, x, calls) == x
  {
    if calls != [] { RevokedIsInert(s, x, calls[..|calls| - 1]); }
  }

  // ----- A click that slips through -----

  /** One chat tab that never changes. */
  function QuietWorld(): World {
    World([0], (p: PageId) => Tab("chat", false, 0, false), 0)
  }

  function ChatOnly(): Policy {
    PolicyOf(Sites((u: string) => false, (u: string) => u == "chat", (u: string) => false))
  }

  lemma QuietWorldSelectsChat()
    ensures ChatOnly().select(QuietWorld(), 0) == Selected(0) && !ChatOnly().handoff(QuietWorld())
  {
    var s := Sites((u: string) => false, (u: string) => u == "chat", (u: string) => false);
    var w := QuietWorld();
    assert w.pages[..0] == [];
    assert Authentication(s, w) == [] && ExternalHandoff(s, w) == [] && Configured(s, w) == [0];
  }

  /** Ten seconds are allowed; the last check is at nine, and the guard is in half a millisecond late. */
  function LateTiming(): Timing {
    Timing(10000.0, 9000.0, 10000.0, 10000.5, 11000.0, 12000.0)
  }

  function LateClick(): ClickEnv {
    var w := QuietWorld();
    ClickEnv(w, Some([Element(true, true, "hello", "hello")]), w, None,
             Guard(None, w), Actionable, Guard(None, w), Installed, true, w, LateTiming())
  }

  /** Observe, fill, observe again. */
  function ReadyToSend(): State {
    var (s, w) := (ChatOnly(), QuietWorld());
    var seen := CurrentUrl(s, Initial(0), w, Focused(0, true, w)).state;
    var filled := Fill(s, seen, "hello", FillEnv(w, None, Guard(None, w), true, w)).state;
    CurrentUrl(s, filled, w, Focused(0, true, w)).state
  }

  /** Then this click is reported as not attempted, and was issued with its one millisecond. */
  lemma RefusedClickCanBeSent()
    ensures ClickAllowance(LateTiming()) == 1
    ensures var out := Click(ChatOnly(), ReadyToSend(), LateClick());
            && out.result == RefusedBeforeDispatch("BROWSER_OPERATION_TIMEOUT")
            && Dispatches(out.state.log) == Dispatches(ReadyToSend().log) + 1 && out.state.revoked
  {
    var (s, x, env) := (ChatOnly(), ReadyToSend(), LateClick());
    QuietWorldSelectsChat();
    var pin := Pin(0, Seen("chat", 0, 0), "hello");
    assert x.filled == Some(pin) && x.postFillSeen && !x.revoked;
    assert HoldsValue(env.composer.value[0], "hello");
    var y := Log(x, ComposerRead(env.composer.value, env.again));
    DispatchesLog(x, ComposerRead(env.composer.value, env.again));
    DispatchesLog(y, Dispatched(env.second.world));
    DispatchesClear(Log(y, Dispatched(env.second.world)));
  }
}
