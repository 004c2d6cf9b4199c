/**
 `waitForStableManualReadiness`: how long a page that is not ready may stay unready.

 A tick is one turn of the endless loop: its clock reading, its observation, and the clock reading after it. The
 loop is followed for as many ticks as are given; every statement is about every finite run.
 */
module ManualReadiness {
  import opened Basics
  import opened BrowserPage

  /** `terminal` is the injectable `isTerminalInspection`; `start` is the clock when the wait begins. */
  datatype Config = Config(
    maxWait: real, poll: real, minimumStable: real, actionTime: real, stableSamples: int, start: real,
    terminal: Classification -> bool)

  datatype Observed = Inspected(inspection: Classification) | PageChanged | Fatal(code: string)

  datatype Tick = Tick(
    aborted: bool, before: real, observed: Observed, abortedMeanwhile: bool, after: real, sleepAborted: bool)

  datatype Outcome = Returned(inspection: Classification) | Raised(code: string)

  /** The local variables of the loop. */
  datatype Watch = Watch(
    last: Option<Classification>, recoverable: bool,
    terminalSince: real, terminalSamples: nat,
    key: Option<Key>, keySince: real, keySamples: nat,
    unsafeSince: real, unsafeSamples: nat)

  datatype Key = Key(state: PageState, code: string)

  datatype Turn = Stop(outcome: Outcome) | Go(watch: Watch)

  const Fresh := Watch(None, false, 0.0, 0, None, 0.0, 0, 0.0, 0)

  function Min(x: real, y: real): real { if x <= y then x else y }

  function Max(x: real, y: real): real { if x <= y then y else x }

  function Deadline(c: Config): real { c.start + c.maxWait }

  function Hydration(c: Config): real {
    Min(Max(c.minimumStable, c.actionTime), c.maxWait)
  }

  function ShortWindow(c: Config): real {
    Min(c.minimumStable, c.maxWait)
  }

  function KeyOf(i: Classification): Key { Key(i.state, i.code) }

  predicate Unsafe(c: Config, i: Classification) {
    c.terminal(i) && i.state.UnapprovedHost?
  }

  /** `isTerminalManualReadinessState`, the default of `isTerminalInspection`. */
  predicate TerminalState(state: PageState) {
    !state.Ready? && !state.SignInRequired? && !state.MfaRequired? && !state.ConsentRequired? && !state.BlockingModal?
  }

  function Pause(c: Config, t: Tick): real {
    Min(Max(0.0, c.poll - Max(0.0, t.after - t.before)), Deadline(c) - t.after)
  }

  function Sleep(c: Config, t: Tick, w: Watch): Turn {
    if Deadline(c) - t.after > 0.0 && Pause(c, t) > 0.0 && t.sleepAborted then Stop(Raised("ABORTED")) else Go(w)
  }

  /** `resetObservationEvidence`, when the page changed under the observation. */
  function OnPageChanged(c: Config, t: Tick, w: Watch): Turn {
    if t.abortedMeanwhile then Stop(Raised("ABORTED"))
    else if Deadline(c) - t.after <= 0.0 then Stop(Raised("ACTIVE_PAGE_CHANGED_DURING_OBSERVATION"))
    else Sleep(c, t, Fresh.(recoverable := true))
  }

  function CountUnsafe(c: Config, i: Classification, now: real, w: Watch): Watch {
    if !Unsafe(c, i) then w.(unsafeSince := 0.0, unsafeSamples := 0)
    else w.(unsafeSince := if w.unsafeSamples == 0 then now else w.unsafeSince, unsafeSamples := w.unsafeSamples + 1)
  }

  function CountTerminal(i: Classification, now: real, w: Watch): Watch {
    var v := w.(terminalSince := if w.terminalSamples == 0 then now else w.terminalSince,
                terminalSamples := w.terminalSamples + 1);
    if v.key == Some(KeyOf(i)) then v.(keySamples := v.keySamples + 1)
    else v.(key := Some(KeyOf(i)), keySince := now, keySamples := 1)
  }

  function OnInspection(c: Config, t: Tick, w0: Watch, i: Classification): Turn {
    var w := w0.(last := Some(i), recoverable := false);
    if i.state.Ready? then Stop(Returned(i))
    else
      var u := CountUnsafe(c, i, t.after, w);
      if Unsafe(c, i) && u.unsafeSamples >= c.stableSamples && t.after - u.unsafeSince >= Hydration(c) then
        Stop(Returned(i))
      else if c.terminal(i) then
        var v := CountTerminal(i, t.after, u);
        if Unsafe(c, i) && v.keySamples >= c.stableSamples && t.after - v.keySince >= ShortWindow(c) then
          Stop(Returned(i))
        else if v.terminalSamples >= c.stableSamples && t.after - v.terminalSince >= Hydration(c) then Stop(Returned(i))
        else if Deadline(c) - t.after <= 0.0 then Stop(Returned(i))
        else Sleep(c, t, v)
      else
        var v := u.(terminalSince := 0.0, terminalSamples := 0, key := None, keySince := 0.0, keySamples := 0);
        if Deadline(c) - t.after <= 0.0 then Stop(Returned(i)) else Sleep(c, t, v)
  }

  function Observe(c: Config, t: Tick, w: Watch): Turn {
    match t.observed
    case Inspected(i) => OnInspection(c, t, w, i)
    case PageChanged => OnPageChanged(c, t, w)
    case Fatal(code) => Stop(Raised(if t.abortedMeanwhile then "ABORTED" else code))
  }

  function Step(c: Config, t: Tick, w: Watch): Turn {
    if t.aborted then Stop(Raised("ABORTED"))
    else if Deadline(c) - t.before <= 0.0 && w.last.Some? then Stop(Returned(w.last.value))
    else if Deadline(c) - t.before <= 0.0 && w.recoverable then Stop(Raised("ACTIVE_PAGE_CHANGED_DURING_OBSERVATION"))
    else Observe(c, t, w)
  }

  /** The loop after its first `n` turns. */
  function After(c: Config, ticks: seq<Tick>, n: nat): Turn
    requires n <= |ticks|
  {
    if n == 0 then Go(Fresh)
    else
      var before := After(c, ticks, n - 1);
      if before.Stop? then before else Step(c, ticks[n - 1], before.watch)
  }

  /** The result of the wait, or none if it still runs when the ticks end. */
  function Result(c: Config, ticks: seq<Tick>): Option<Outcome> {
    if c.maxWait <= 0.0 then Some(Raised("TypeError"))
    else
      var end := After(c, ticks, |ticks|);
      if end.Stop? then Some(end.outcome) else None
  }

  /** The loop, updating its locals turn by turn and returning from inside. */
  method WaitForStableManualReadiness(c: Config, ticks: seq<Tick>) returns (outcome: Option<Outcome>)
    ensures outcome == Result(c, ticks)
  {
    if c.maxWait <= 0.0 { return Some(Raised("TypeError")); }
    var watch := Fresh;
    var i := 0;
    while i < |ticks|
      invariant 0 <= i <= |ticks|
      invariant After(c, ticks, i) == Go(watch)
    {
      var turn := Step(c, ticks[i], watch);
      if turn.Stop? {
        StaysStopped(c, ticks, i + 1, |ticks|);
        return Some(turn.outcome);
      }
      watch := turn.watch;
      i := i + 1;
    }
    return None;
  }

  lemma {:induction false} StaysStopped(c: Config, ticks: seq<Tick>, n: nat, m: nat)
    requires n <= m <= |ticks| && After(c, ticks, n).Stop?
    ensures After(c, ticks, m) == After(c, ticks, n)
    decreases m - n
  {
    if n < m { StaysStopped(c, ticks, n, m - 1); }
  }

  // ----- What the counters count -----

  predicate TerminalTick(c: Config, t: Tick) {
    t.observed.Inspected? && c.terminal(t.observed.inspection)
  }

  predicate UnsafeTick(c: Config, t: Tick) {
    t.observed.Inspected? && Unsafe(c, t.observed.inspection)
  }

  predicate SameKey(t: Tick, u: Tick) {
    t.observed.Inspected? && u.observed.Inspected? && KeyOf(t.observed.inspection) == KeyOf(u.observed.inspection)
  }

  /** How many of the first `n` turns, counted from the last one, are terminal without interruption. */
  function TerminalRun(c: Config, ticks: seq<Tick>, n: nat): (r: nat)
    requires n <= |ticks|
    ensures r <= n
  {
    if n == 0 || !TerminalTick(c, ticks[n - 1]) then 0 else TerminalRun(c, ticks, n - 1) + 1
  }

  function UnsafeRun(c: Config, ticks: seq<Tick>, n: nat): (r: nat)
    requires n <= |ticks|
    ensures r <= TerminalRun(c, ticks, n)
  {
    if n == 0 || !UnsafeTick(c, ticks[n - 1]) then 0 else UnsafeRun(c, ticks, n - 1) + 1
  }

  /** The same for turns that are terminal with one unchanged key. */
  function KeyRun(c: Config, ticks: seq<Tick>, n: nat): (r: nat)
    requires n <= |ticks|
    ensures r <= TerminalRun(c, ticks, n)
  {
    if n == 0 || !TerminalTick(c, ticks[n - 1]) then 0
    else if n >= 2 && TerminalTick(c, ticks[n - 2]) && SameKey(ticks[n - 2], ticks[n - 1]) then
      KeyRun(c, ticks, n - 1) + 1
    else 1
  }

  /** The last `run` turns are terminal, and the one before them, if any, is not. */
  predicate Maximal(c: Config, ticks: seq<Tick>, n: nat, run: nat)
    requires run <= n <= |ticks|
  {
    && (forall k | n - run <= k < n :: TerminalTick(c, ticks[k]))
    && (run < n ==> !TerminalTick(c, ticks[n - run - 1]))
  }

  /** A terminal run is maximal: it reaches back to the last page change or non-terminal sample. */
  lemma {:induction false} TerminalRunIsMaximal(c: Config, ticks: seq<Tick>, n: nat)
    requires n <= |ticks|
    ensures Maximal(c, ticks, n, TerminalRun(c, ticks, n))
  {
    if n > 0 && TerminalTick(c, ticks[n - 1]) { TerminalRunIsMaximal(c, ticks, n - 1); }
  }

  /** A key run repeats the key of its last sample, and stops only at another key or at the terminal run's start. */
  lemma {:induction false} KeyRunIsMaximal(c: Config, ticks: seq<Tick>, n: nat)
    requires 0 < n <= |ticks|
    ensures var r := KeyRun(c, ticks, n);
            && (forall k | n - r <= k < n :: SameKey(ticks[k], ticks[n - 1]))
            && (0 < r < n ==> !TerminalTick(c, ticks[n - r - 1]) || !SameKey(ticks[n - r - 1], ticks[n - 1]))
  {
    if n >= 2 && TerminalTick(c, ticks[n - 1]) && TerminalTick(c, ticks[n - 2]) && SameKey(ticks[n - 2], ticks[n - 1]) {
      KeyRunIsMaximal(c, ticks, n - 1);
    }
  }

  /** When the last `run` turns began. */
  function Since(ticks: seq<Tick>, n: nat, run: nat): real
    requires 0 < run <= n <= |ticks|
  {
    ticks[n - run].after
  }

  /** A quorum of the last `run` turns that lasted at least `window`. */
  predicate Lasted(c: Config, ticks: seq<Tick>, n: nat, run: nat, window: real)
    requires run <= n <= |ticks|
  {
    run > 0 && run >= c.stableSamples && ticks[n - 1].after - Since(ticks, n, run) >= window
  }

  /** The condition for answering with an inspection that is not ready. */
  predicate GivesUp(c: Config, ticks: seq<Tick>, n: nat)
    requires 0 < n <= |ticks|
  {
    || Lasted(c, ticks, n, TerminalRun(c, ticks, n), Hydration(c))
    || Lasted(c, ticks, n, UnsafeRun(c, ticks, n), Hydration(c))
    || (UnsafeTick(c, ticks[n - 1]) && Lasted(c, ticks, n, KeyRun(c, ticks, n), ShortWindow(c)))
    || ticks[n - 1].after >= Deadline(c)
  }

  predicate Counted(c: Config, ticks: seq<Tick>, n: nat, w: Watch)
    requires n <= |ticks|
  {
    && w.terminalSamples == TerminalRun(c, ticks, n)
    && w.keySamples == KeyRun(c, ticks, n)
    && w.unsafeSamples == UnsafeRun(c, ticks, n)
    && (w.terminalSamples > 0 ==> w.terminalSince == Since(ticks, n, w.terminalSamples))
    && (w.keySamples > 0 ==> w.keySince == Since(ticks, n, w.keySamples))
    && (w.unsafeSamples > 0 ==> w.unsafeSince == Since(ticks, n, w.unsafeSamples))
    && w.key == (if w.terminalSamples > 0 then Some(KeyOf(ticks[n - 1].observed.inspection)) else None)
  }

  /** Going on after an inspection keeps the counters right, and it goes on only if it does not give up. */
  lemma InspectionCounts(c: Config, ticks: seq<Tick>, n: nat, w: Watch)
    requires n < |ticks| && Counted(c, ticks, n, w) && ticks[n].observed.Inspected?
    ensures var (i, turn) := (ticks[n].observed.inspection, OnInspection(c, ticks[n], w, ticks[n].observed.inspection));
            && (turn.Go? ==> Counted(c, ticks, n + 1, turn.watch) && turn.watch.last.Some?)
            && (i.state.Ready? || GivesUp(c, ticks, n + 1) ==> turn == Stop(Returned(i)))
            && (!i.state.Ready? && !GivesUp(c, ticks, n + 1) ==>
                turn.Go? || (ticks[n].sleepAborted && turn == Stop(Raised("ABORTED"))))
  {
  }

  lemma OtherTurnCounts(c: Config, ticks: seq<Tick>, n: nat, w: Watch)
    requires n < |ticks| && !ticks[n].observed.Inspected?
    ensures var turn := Observe(c, ticks[n], w);
            turn.Go? ==> Counted(c, ticks, n + 1, turn.watch) && turn.watch.recoverable
  {
  }

  /** No evidence survives a page change, and every counter is the length of an uninterrupted run. */
  lemma {:induction false} CountersCountRuns(c: Config, ticks: seq<Tick>, n: nat)
    requires n <= |ticks| && After(c, ticks, n).Go?
    ensures Counted(c, ticks, n, After(c, ticks, n).watch)
    ensures n > 0 ==> After(c, ticks, n).watch.last.Some? || After(c, ticks, n).watch.recoverable
  {
    if n > 0 {
      CountersCountRuns(c, ticks, n - 1);
      var w := After(c, ticks, n - 1).watch;
      if ticks[n - 1].observed.Inspected? {
        InspectionCounts(c, ticks, n - 1, w);
      } else {
        OtherTurnCounts(c, ticks, n - 1, w);
      }
    }
  }

  // ----- When the loop answers -----

  /** The loop answers an observation exactly when it is ready, gives up on its evidence, or is out of time. */
  lemma AnswersExactlyWhen(c: Config, ticks: seq<Tick>, n: nat)
    requires 0 < n <= |ticks| && After(c, ticks, n - 1).Go?
    requires var t := ticks[n - 1];
             t.observed.Inspected? && !t.aborted && !t.sleepAborted && (n == 1 || t.before < Deadline(c))
    ensures After(c, ticks, n) == Stop(Returned(ticks[n - 1].observed.inspection)) <==>
            ticks[n - 1].observed.inspection.state.Ready? || GivesUp(c, ticks, n)
    ensures After(c, ticks, n).Stop? ==> After(c, ticks, n) == Stop(Returned(ticks[n - 1].observed.inspection))
  {
    var (t, w) := (ticks[n - 1], After(c, ticks, n - 1).watch);
    CountersCountRuns(c, ticks, n - 1);
    InspectionCounts(c, ticks, n - 1, w);
    assert After(c, ticks, n) == Step(c, t, w) == OnInspection(c, t, w, t.observed.inspection);
  }

  predicate ClockAdvances(ticks: seq<Tick>) {
    forall i, j | 0 <= i <= j < |ticks| :: ticks[i].after <= ticks[j].after
  }

  lemma EarlyEvidence(c: Config, ticks: seq<Tick>, n: nat)
    requires 0 < n <= |ticks| && ClockAdvances(ticks) && GivesUp(c, ticks, n) && ticks[n - 1].after < Deadline(c)
    ensures TerminalRun(c, ticks, n) > 0 && TerminalRun(c, ticks, n) >= c.stableSamples
    ensures || Lasted(c, ticks, n, TerminalRun(c, ticks, n), Hydration(c))
            || (UnsafeTick(c, ticks[n - 1]) && Lasted(c, ticks, n, KeyRun(c, ticks, n), ShortWindow(c)))
  {
    var (all, unsafe) := (TerminalRun(c, ticks, n), UnsafeRun(c, ticks, n));
    if unsafe > 0 { assert ticks[n - all].after <= ticks[n - unsafe].after; }
  }

  /** A loop that answers an unready page while there is time has given up on its runs. */
  lemma EarlyAnswerGivesUp(c: Config, ticks: seq<Tick>, n: nat)
    requires 0 < n <= |ticks|
    requires After(c, ticks, n - 1).Go? && After(c, ticks, n).Stop? && After(c, ticks, n).outcome.Returned?
    requires !After(c, ticks, n).outcome.inspection.state.Ready?
    requires ticks[n - 1].before < Deadline(c) && ticks[n - 1].after < Deadline(c)
    ensures GivesUp(c, ticks, n)
  {
    CountersCountRuns(c, ticks, n - 1);
    InspectionCounts(c, ticks, n - 1, After(c, ticks, n - 1).watch);
  }

  /**
   Before the deadline an unready result is returned only if every sample since the last page change or
   non-terminal sample is terminal, there are at least `stableSamples` of them, and they span the hydration time,
   or samples with one unchanged unsafe key span the short window.
   */
  lemma EarlyUnreadyAnswerIsStable(c: Config, ticks: seq<Tick>, n: nat)
    requires 0 < n <= |ticks| && ClockAdvances(ticks)
    requires After(c, ticks, n - 1).Go? && After(c, ticks, n).Stop? && After(c, ticks, n).outcome.Returned?
    requires !After(c, ticks, n).outcome.inspection.state.Ready?
    requires ticks[n - 1].before < Deadline(c) && ticks[n - 1].after < Deadline(c)
    ensures TerminalRun(c, ticks, n) > 0 && TerminalRun(c, ticks, n) >= c.stableSamples
    ensures || Lasted(c, ticks, n, TerminalRun(c, ticks, n), Hydration(c))
            || (UnsafeTick(c, ticks[n - 1]) && Lasted(c, ticks, n, KeyRun(c, ticks, n), ShortWindow(c)))
    ensures Maximal(c, ticks, n, TerminalRun(c, ticks, n))
    ensures forall k | n - KeyRun(c, ticks, n) <= k < n :: SameKey(ticks[k], ticks[n - 1])
  {
    EarlyAnswerGivesUp(c, ticks, n);
    EarlyEvidence(c, ticks, n);
    TerminalRunIsMaximal(c, ticks, n);
    KeyRunIsMaximal(c, ticks, n);
  }

  /**
   With the default rule, a page that waits for its operator - sign-in, MFA, consent, a blocking dialog - is never
   answered before the deadline.
   */
  lemma OperatorStatesGetTheFullWindow(c: Config, ticks: seq<Tick>, n: nat)
    requires 0 < n <= |ticks| && ClockAdvances(ticks)
    requires forall i: Classification :: c.terminal(i) == TerminalState(i.state)
    requires After(c, ticks, n - 1).Go? && After(c, ticks, n).Stop? && After(c, ticks, n).outcome.Returned?
    requires ticks[n - 1].before < Deadline(c) && ticks[n - 1].after < Deadline(c)
    ensures After(c, ticks, n).outcome.inspection.state.Ready?
            || TerminalState(After(c, ticks, n).outcome.inspection.state)
  {
    if !After(c, ticks, n).outcome.inspection.state.Ready? {
      EarlyUnreadyAnswerIsStable(c, ticks, n);
      CountersCountRuns(c, ticks, n - 1);
      InspectionCounts(c, ticks, n - 1, After(c, ticks, n - 1).watch);
      assert TerminalTick(c, ticks[n - 1]);
    }
  }

  // ----- How many observations -----

  /** A clock that never goes back, and a sleep that lasts at least as long as asked. */
  predicate Paced(c: Config, ticks: seq<Tick>) {
    && (|ticks| > 0 ==> c.start <= ticks[0].before)
    && (forall i | 0 <= i < |ticks| :: ticks[i].before <= ticks[i].after)
    && (forall i | 0 < i < |ticks| :: ticks[i].before >= ticks[i - 1].after + Max(0.0, Pause(c, ticks[i - 1])))
  }

  /** The loop takes its observation number `k`. */
  predicate Observes(c: Config, ticks: seq<Tick>, k: nat)
    requires k < |ticks|
  {
    After(c, ticks, k).Go? && !ticks[k].aborted
    && (Deadline(c) - ticks[k].before > 0.0
        || (After(c, ticks, k).watch.last.None? && !After(c, ticks, k).watch.recoverable))
  }

  lemma NextMultiple(k: nat, x: real)
    requires k > 0
    ensures k as real * x == (k - 1) as real * x + x
  {
    assert k as real == (k - 1) as real + 1.0;
  }

  /** One turn of the loop takes at least the polling interval, or it takes the clock to the deadline. */
  lemma TurnTakesTime(c: Config, ticks: seq<Tick>, k: nat)
    requires 0 < k < |ticks| && Paced(c, ticks)
    ensures ticks[k].before >= ticks[k - 1].before + c.poll || ticks[k].before >= Deadline(c)
  {
    assert ticks[k].before >= ticks[k - 1].after + Max(0.0, Pause(c, ticks[k - 1]));
  }

  lemma {:induction false} ObservationsArePaced(c: Config, ticks: seq<Tick>, k: nat)
    requires k < |ticks| && Paced(c, ticks) && c.poll > 0.0
    ensures ticks[k].before >= Deadline(c) || ticks[k].before >= c.start + k as real * c.poll
  {
    if k > 0 {
      ObservationsArePaced(c, ticks, k - 1);
      NextMultiple(k, c.poll);
      TurnTakesTime(c, ticks, k);
    }
  }

  /**
   At most `maxWait / poll + 1` observations: observation number `k`, counted from zero, happens only if
   `k * poll < maxWait`.
   */
  lemma ObservationsAreBounded(c: Config, ticks: seq<Tick>, k: nat)
    requires k < |ticks| && Paced(c, ticks) && c.maxWait > 0.0 && c.poll > 0.0 && Observes(c, ticks, k)
    ensures k as real * c.poll < c.maxWait
  {
    if k > 0 {
      CountersCountRuns(c, ticks, k);
      ObservationsArePaced(c, ticks, k);
    }
  }

  /** The last turn that did not end the loop saw a page, or saw it change. */
  lemma LastTurnIsRemembered(c: Config, ticks: seq<Tick>, n: nat)
    requires 0 < n <= |ticks| && After(c, ticks, n).Go?
    ensures var (w, seen) := (After(c, ticks, n).watch, ticks[n - 1].observed);
            && (seen.Inspected? ==> w.last == Some(seen.inspection) && !w.recoverable)
            && (!seen.Inspected? ==> seen.PageChanged? && w.last.None? && w.recoverable)
  {
  }

  /** There is time to sleep before the deadline, and the sleep is aborted. */
  predicate SleepsIntoAbort(c: Config, t: Tick) {
    && t.sleepAborted && t.after < Deadline(c) && c.poll > Max(0.0, t.after - t.before)
  }

  /**
   How a turn ends the loop that does not answer its own observation: aborted, too late with the last page or its
   change, failed, or on a page that changed when no time was left. Otherwise the loop goes on.
   */
  lemma {:induction false} OtherTurnsExactly(c: Config, ticks: seq<Tick>, n: nat)
    requires 0 < n <= |ticks| && After(c, ticks, n - 1).Go?
    ensures var (turn, t) := (After(c, ticks, n), ticks[n - 1]);
            var late := n > 1 && t.before >= Deadline(c);
            && (t.aborted ==> turn == Stop(Raised("ABORTED")))
            && (!t.aborted && late ==>
                  turn == Stop(match ticks[n - 2].observed
                               case Inspected(i) => Returned(i)
                               case _ => Raised("ACTIVE_PAGE_CHANGED_DURING_OBSERVATION")))
            && (!t.aborted && !late && t.observed.Fatal? ==>
                  turn == Stop(Raised(if t.abortedMeanwhile then "ABORTED" else t.observed.code)))
            && (!t.aborted && !late && t.observed.PageChanged? ==>
                  && (turn.Go? <==> !t.abortedMeanwhile && t.after < Deadline(c) && !SleepsIntoAbort(c, t))
                  && (turn.Stop? ==>
                        turn.outcome == Raised(if !t.abortedMeanwhile && t.after >= Deadline(c)
                                               then "ACTIVE_PAGE_CHANGED_DURING_OBSERVATION" else "ABORTED")))
            && (!t.aborted && !late && t.observed.Inspected? ==>
                  turn.Go? || turn == Stop(Returned(t.observed.inspection))
                  || (SleepsIntoAbort(c, t) && turn == Stop(Raised("ABORTED"))))
  {
    if n > 1 { LastTurnIsRemembered(c, ticks, n - 1); }
  }
}
