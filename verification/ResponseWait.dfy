/**
 The polling loop of `receive`: when is a response on the page complete?

 A sample is everything the environment contributes to one turn of the loop: cancellation, the observation,
 and two clock readings. `mark` is the reading a stability period is started with, `judge` the reading it is
 measured with. The loop ends with the deadline, which is the end of the sample sequence. Digest, response
 correlator and marker scanner are parameters; the adapter passes its own.
 */
module ResponseWait {
  import opened Basics
  import opened BrowserPage
  import TM = TaskMarker
  import C = ResponseCorrelation
  import RC = ResponseCapture

  datatype Config = Config(
    digest: string -> string, correlate: seq<C.Element> -> C.Correlation,
    scanner: TM.Scanner, correlation: TM.Correlation, conversation: string, marker: string,
    stableSamples: int, minimumStableMs: real, maxResponseChars: nat)

  datatype Sample = Sample(
    aborted: bool, stopped: bool, observation: Observation, stoppedMeanwhile: bool,
    mark: real, judge: real, sleepAborted: bool)

  datatype Outcome =
    | Completed(content: string, capture: Option<RC.Evidence>)
    | BlockedBy(classification: Classification)
    | Indeterminate(code: string)
    | TimedOut(code: string)
    | Cancelled(code: string)

  // ----- What one sample shows -----

  datatype Issue = Issue(code: string, details: RC.Evidence)

  datatype Sight =
    | Ends(outcome: Outcome)
    | MarkerMissing
    | Unreadable
    | Nothing
    | Broken(issue: Issue)
    | Answer(content: string, capture: Option<RC.Evidence>)

  function LookAtResponses(c: Config, p: Page): Sight {
    match c.correlate(p.responses)
    case Indeterminate(SequenceAmbiguous) => Ends(Indeterminate("RESPONSE_SEQUENCE_AMBIGUOUS"))
    case Indeterminate(BaselineTruncated) => Ends(Indeterminate("RESPONSE_BASELINE_TRUNCATED"))
    case Indeterminate(BaselineChanged) => Ends(Indeterminate("RESPONSE_BASELINE_CHANGED"))
    case CaptureIssue(code, details) => Broken(Issue(code, details))
    case Pending => Nothing
    case Candidate(content, capture) =>
      if |content| > c.maxResponseChars then Ends(Indeterminate("RESPONSE_EXCEEDS_BOUND")) else Answer(content, capture)
  }

  function LookAtPage(c: Config, p: Page): Sight {
    if p.conversation != c.conversation then Ends(Indeterminate("CONVERSATION_CHANGED_DURING_RESPONSE"))
    else if !p.classification.state.Ready? && !p.classification.state.Streaming? then Ends(BlockedBy(p.classification))
    else match c.scanner.evidence(p.messages, c.correlation)
      case Ambiguous => Ends(Indeterminate("TASK_MARKER_AMBIGUOUS"))
      case Absent => MarkerMissing
      case Unique(marker, _) =>
        if marker != c.marker then Ends(Indeterminate("TASK_MARKER_NOT_OBSERVED")) else LookAtResponses(c, p)
  }

  function Look(c: Config, s: Sample): Sight {
    if s.aborted then Ends(Cancelled("ABORTED"))
    else if s.stopped then Ends(Cancelled("KILL_SWITCH"))
    else match s.observation
      case Saw(p) => LookAtPage(c, p)
      case CaptureFailed => if s.stoppedMeanwhile then Ends(Cancelled("KILL_SWITCH")) else Unreadable
      case Threw =>
        Ends(if s.stoppedMeanwhile then Cancelled("KILL_SWITCH") else Indeterminate("PAGE_OBSERVATION_FAILED"))
  }

  /** Streaming has ended and the composer is available. */
  predicate Quiet(s: Sample) {
    s.observation.Saw? && !s.observation.page.streamingVisible && s.observation.page.composerEnabled
  }

  // ----- The loop -----

  /** The part of a sample the counters of the loop depend on. */
  datatype Tick = Tick(sight: Sight, quiet: bool, mark: real, judge: real, sleepAborted: bool)

  function TickOf(c: Config, s: Sample): Tick {
    Tick(Look(c, s), Quiet(s), s.mark, s.judge, s.sleepAborted)
  }

  function Ticks(c: Config, samples: seq<Sample>): (ticks: seq<Tick>) {
    seq(|samples|, i requires 0 <= i < |samples| => TickOf(c, samples[i]))
  }

  /** The local variables of the loop. */
  datatype Watch = Watch(
    candidate: Option<string>, stableSamples: nat, stableSince: real,
    sawCandidate: bool, markerProven: bool,
    issue: Option<Issue>, issueKey: Option<Issue>, issueSamples: nat, issueSince: real,
    captureFailed: bool)

  datatype Turn = Stop(outcome: Outcome) | Go(watch: Watch)

  const Start := Watch(None, 0, 0.0, false, true, None, None, 0, 0.0, false)

  function Sleep(t: Tick, w: Watch): Turn {
    if t.sleepAborted then Stop(Cancelled("ABORTED")) else Go(w)
  }

  predicate Stable(c: Config, samples: nat, since: real, t: Tick) {
    samples >= c.stableSamples && t.judge - since >= c.minimumStableMs
  }

  function OnIssue(c: Config, t: Tick, w0: Watch, issue: Issue): Turn {
    var w := w0.(issue := Some(issue), sawCandidate := true,
                 candidate := None, stableSamples := 0, stableSince := t.mark);
    var v := if w.issueKey == Some(issue) then w.(issueSamples := w.issueSamples + 1)
             else w.(issueKey := Some(issue), issueSamples := 1, issueSince := t.mark);
    if Stable(c, v.issueSamples, v.issueSince, t) && t.quiet then Stop(Indeterminate(issue.code)) else Sleep(t, v)
  }

  function OnAnswer(c: Config, t: Tick, w0: Watch, content: string, capture: Option<RC.Evidence>): Turn {
    var w := w0.(issueKey := None, issue := None, issueSamples := 0, captureFailed := false, sawCandidate := true);
    var digest := c.digest(content);
    var v := if w.candidate == Some(digest) then w.(stableSamples := w.stableSamples + 1)
             else w.(candidate := Some(digest), stableSamples := 1, stableSince := t.mark);
    if Stable(c, v.stableSamples, v.stableSince, t) && t.quiet then Stop(Completed(content, capture)) else Sleep(t, v)
  }

  function Step(c: Config, t: Tick, w: Watch): Turn {
    match t.sight
    case Ends(outcome) => Stop(outcome)
    case MarkerMissing =>
      Sleep(t, w.(markerProven := false, candidate := None, stableSamples := 0, stableSince := t.mark))
    case Unreadable => Sleep(t, w.(captureFailed := true))
    case Nothing => Sleep(t, w.(markerProven := true))
    case Broken(issue) => OnIssue(c, t, w.(markerProven := true), issue)
    case Answer(content, capture) => OnAnswer(c, t, w.(markerProven := true), content, capture)
  }

  /** The loop after its first `n` turns. */
  function After(c: Config, ticks: seq<Tick>, n: nat): Turn
    requires n <= |ticks|
  {
    if n == 0 then Go(Start)
    else
      var before := After(c, ticks, n - 1);
      if before.Stop? then before else Step(c, ticks[n - 1], before.watch)
  }

  function AtDeadline(w: Watch): Outcome {
    if !w.markerProven then Indeterminate("TASK_MARKER_NOT_OBSERVED")
    else if w.captureFailed then Indeterminate("PROTOCOL_WIDGET_CAPTURE_FAILED")
    else if w.issue.Some? then Indeterminate(w.issue.value.code)
    else TimedOut(if w.sawCandidate then "RESPONSE_INCOMPLETE" else "NO_RESPONSE")
  }

  function Verdict(c: Config, ticks: seq<Tick>): Outcome {
    var end := After(c, ticks, |ticks|);
    if end.Stop? then end.outcome else AtDeadline(end.watch)
  }

  function Result(c: Config, samples: seq<Sample>): Outcome {
    Verdict(c, Ticks(c, samples))
  }

  /** The loop of `#receive`, updating its locals sample by sample and returning from inside. */
  method AwaitResponse(c: Config, samples: seq<Sample>) returns (outcome: Outcome)
    ensures outcome == Result(c, samples)
  {
    ghost var ticks := Ticks(c, samples);
    var watch := Start;
    var i := 0;
    while i < |samples|
      invariant 0 <= i <= |samples|
      invariant After(c, ticks, i) == Go(watch)
    {
      var turn := Step(c, TickOf(c, samples[i]), watch);
      if turn.Stop? {
        StaysStopped(c, ticks, i + 1, |ticks|);
        return turn.outcome;
      }
      watch := turn.watch;
      i := i + 1;
    }
    return AtDeadline(watch);
  }

  lemma {:induction false} StaysStopped(c: Config, ticks: seq<Tick>, n: nat, m: nat)
    requires n <= m <= |ticks| && After(c, ticks, n).Stop?
    ensures After(c, ticks, m) == After(c, ticks, n)
    decreases m - n
  {
    if n < m { StaysStopped(c, ticks, n, m - 1); }
  }

  lemma {:induction false} FirstStop(c: Config, ticks: seq<Tick>, m: nat) returns (n: nat)
    requires m <= |ticks| && After(c, ticks, m).Stop?
    ensures 0 < n <= m && After(c, ticks, n - 1).Go? && After(c, ticks, n) == After(c, ticks, m)
  {
    if After(c, ticks, m - 1).Stop? { n := FirstStop(c, ticks, m - 1); } else { n := m; }
  }

  // ----- The counters -----

  /** The turn shows an answer with digest `digest`. */
  predicate Shows(c: Config, t: Tick, digest: string) {
    t.sight.Answer? && c.digest(t.sight.content) == digest
  }

  /** The turn shows no answer and contradicts none: a pending response, or a widget that could not be read. */
  predicate Silent(t: Tick) {
    t.sight.Nothing? || t.sight.Unreadable?
  }

  /** How many turns in `[from, n)` show the answer. */
  function Showing(c: Config, ticks: seq<Tick>, from: nat, n: nat, digest: string): nat
    requires n <= |ticks|
  {
    if n <= from then 0
    else Showing(c, ticks, from, n - 1, digest) + if Shows(c, ticks[n - 1], digest) then 1 else 0
  }

  /** Turn `from` shows the answer, and every later turn before `n` shows it again or is silent. */
  predicate Window(c: Config, ticks: seq<Tick>, from: nat, n: nat, digest: string)
    requires n <= |ticks|
  {
    from < n && Shows(c, ticks[from], digest)
    && forall k | from <= k < n :: Shows(c, ticks[k], digest) || Silent(ticks[k])
  }

  /** The counters of the loop describe an uninterrupted window of turns showing one answer. */
  lemma {:induction false} CountersDescribeWindow(c: Config, ticks: seq<Tick>, n: nat) returns (from: nat)
    requires n <= |ticks| && After(c, ticks, n).Go? && After(c, ticks, n).watch.candidate.Some?
    ensures var w := After(c, ticks, n).watch;
            && Window(c, ticks, from, n, w.candidate.value)
            && w.stableSamples == Showing(c, ticks, from, n, w.candidate.value)
            && w.stableSince == ticks[from].mark
  {
    var v := After(c, ticks, n - 1).watch;
    var w := After(c, ticks, n).watch;
    if v.candidate == w.candidate {
      from := CountersDescribeWindow(c, ticks, n - 1);
    } else {
      from := n - 1;
      assert Showing(c, ticks, n - 1, n - 1, w.candidate.value) == 0;
    }
  }

  /** Looking at a page never completes the loop by itself. */
  predicate Honest(ticks: seq<Tick>) {
    forall t | t in ticks && t.sight.Ends? :: !t.sight.outcome.Completed?
  }

  lemma {:induction false} VerdictMeansStable(c: Config, ticks: seq<Tick>) returns (from: nat, n: nat)
    requires Honest(ticks) && Verdict(c, ticks).Completed?
    ensures from < n <= |ticks|
    ensures var digest := c.digest(Verdict(c, ticks).content);
            && Window(c, ticks, from, n, digest) && Showing(c, ticks, from, n, digest) >= c.stableSamples
            && ticks[n - 1].judge - ticks[from].mark >= c.minimumStableMs
    ensures ticks[n - 1].quiet && ticks[n - 1].sight == Answer(Verdict(c, ticks).content, Verdict(c, ticks).capture)
  {
    n := FirstStop(c, ticks, |ticks|);
    assert ticks[n - 1] in ticks;
    var digest := c.digest(Verdict(c, ticks).content);
    var v := After(c, ticks, n - 1).watch;
    if v.candidate == Some(digest) {
      from := CountersDescribeWindow(c, ticks, n - 1);
    } else {
      from := n - 1;
      assert Showing(c, ticks, n - 1, n - 1, digest) == 0;
    }
  }

  /** An undisturbed turn that shows exactly `content` on a quiet page. */
  predicate Settled(t: Tick, content: string) {
    t.sight.Answer? && t.sight.content == content && t.quiet && !t.sleepAborted
  }

  predicate ClockAdvances(ticks: seq<Tick>) {
    forall i, j | 0 <= i <= j < |ticks| :: ticks[i].mark <= ticks[j].mark && ticks[i].judge <= ticks[j].judge
  }

  /** While the loop has not stopped, its counters cover at least the settled turns since `from`. */
  lemma {:induction false} SettledTurnsAreCounted(c: Config, ticks: seq<Tick>, from: nat, n: nat, content: string)
    requires from < n <= |ticks| && ClockAdvances(ticks)
    requires After(c, ticks, n).Go?
    requires forall k | from <= k < n :: Settled(ticks[k], content)
    ensures var w := After(c, ticks, n).watch;
            w.candidate == Some(c.digest(content)) && w.stableSamples >= n - from && w.stableSince <= ticks[from].mark
  {
    if n - 1 > from {
      SettledTurnsAreCounted(c, ticks, from, n - 1, content);
    } else if After(c, ticks, from).watch.candidate == Some(c.digest(content)) {
      var start := CountersDescribeWindow(c, ticks, from);
    }
  }

  predicate SettledFrom(ticks: seq<Tick>, from: nat, content: string) {
    forall k | from <= k < |ticks| :: Settled(ticks[k], content)
  }

  lemma SettledVerdict(c: Config, ticks: seq<Tick>, from: nat, content: string)
    requires from < |ticks| && ClockAdvances(ticks) && After(c, ticks, from).Go?
    requires SettledFrom(ticks, from, content)
    requires |ticks| - from >= c.stableSamples
    requires ticks[|ticks| - 1].judge - ticks[from].mark >= c.minimumStableMs
    ensures Verdict(c, ticks).Completed? && Verdict(c, ticks).content == content
  {
    var last := |ticks| - 1;
    if After(c, ticks, last).Go? {
      if last > from {
        SettledTurnsAreCounted(c, ticks, from, last, content);
      } else if After(c, ticks, from).watch.candidate == Some(c.digest(content)) {
        var start := CountersDescribeWindow(c, ticks, from);
      }
    } else {
      var n := FirstStop(c, ticks, last);
      if n <= from { StaysStopped(c, ticks, n, from); }
      assert Settled(ticks[n - 1], content);
    }
  }

  // ----- What completion proves about the page -----

  /** The page proves the submission: pinned conversation, usable state, unique marker of the record. */
  predicate Proven(c: Config, p: Page) {
    && p.conversation == c.conversation
    && (p.classification.state.Ready? || p.classification.state.Streaming?)
    && c.scanner.evidence(p.messages, c.correlation).Unique?
    && c.scanner.evidence(p.messages, c.correlation).marker == c.marker
  }

  /** The sample shows the correlated answer with this digest, on a page that proves the submission. */
  predicate ShowsAnswer(c: Config, s: Sample, digest: string) {
    && s.observation.Saw? && Proven(c, s.observation.page)
    && var r := c.correlate(s.observation.page.responses);
       r.Candidate? && c.digest(r.content) == digest && |r.content| <= c.maxResponseChars
  }

  /** The sample shows no answer and contradicts none. */
  predicate ContradictsNothing(c: Config, s: Sample) {
    || s.observation.CaptureFailed?
    || (s.observation.Saw? && Proven(c, s.observation.page)
        && c.correlate(s.observation.page.responses).Pending?)
  }

  lemma LookNeverCompletes(c: Config, s: Sample)
    ensures Look(c, s).Ends? ==> !Look(c, s).outcome.Completed?
  {
  }

  lemma SightsMeanWhatTheySay(c: Config, s: Sample, digest: string)
    ensures Shows(c, TickOf(c, s), digest) <==>
            !s.aborted && !s.stopped && ShowsAnswer(c, s, digest)
    ensures Silent(TickOf(c, s)) ==> ContradictsNothing(c, s)
    ensures Shows(c, TickOf(c, s), digest) ==>
            c.correlate(s.observation.page.responses)
            == C.Candidate(Look(c, s).content, Look(c, s).capture)
  {
  }

  /** How many samples in `[from, n)` show the answer. */
  function AnswerCount(c: Config, samples: seq<Sample>, from: nat, n: nat, digest: string): nat
    requires n <= |samples|
  {
    if n <= from then 0
    else AnswerCount(c, samples, from, n - 1, digest) + if ShowsAnswer(c, samples[n - 1], digest) then 1 else 0
  }

  lemma {:induction false} ShowingBoundsAnswerCount(c: Config, samples: seq<Sample>, from: nat, n: nat, digest: string)
    requires n <= |samples|
    ensures Showing(c, Ticks(c, samples), from, n, digest) <= AnswerCount(c, samples, from, n, digest)
  {
    if n > from {
      ShowingBoundsAnswerCount(c, samples, from, n - 1, digest);
      SightsMeanWhatTheySay(c, samples[n - 1], digest);
    }
  }

  lemma TicksAreHonest(c: Config, samples: seq<Sample>)
    ensures Honest(Ticks(c, samples))
  {
    forall t | t in Ticks(c, samples) && t.sight.Ends? ensures !t.sight.outcome.Completed? {
      var i :| 0 <= i < |samples| && Ticks(c, samples)[i] == t;
      LookNeverCompletes(c, samples[i]);
    }
  }

  /** From sample `from` on, every sample shows the answer or contradicts nothing, and `from` itself shows it. */
  predicate AnswerWindow(c: Config, samples: seq<Sample>, from: nat, n: nat, digest: string)
    requires n <= |samples|
  {
    && from < n && ShowsAnswer(c, samples[from], digest)
    && forall k | from <= k < n :: ShowsAnswer(c, samples[k], digest) || ContradictsNothing(c, samples[k])
  }

  lemma WindowMeansWhatItSays(c: Config, samples: seq<Sample>, from: nat, n: nat, digest: string)
    requires n <= |samples| && Window(c, Ticks(c, samples), from, n, digest)
    ensures AnswerWindow(c, samples, from, n, digest)
  {
    forall k | from <= k < n
      ensures Shows(c, Ticks(c, samples)[k], digest) ==> ShowsAnswer(c, samples[k], digest)
      ensures ShowsAnswer(c, samples[k], digest) || ContradictsNothing(c, samples[k])
    {
      SightsMeanWhatTheySay(c, samples[k], digest);
    }
  }

  /** The sample is a quiet page showing exactly this answer. */
  predicate ShowsFinally(c: Config, s: Sample, content: string, capture: Option<RC.Evidence>) {
    && Quiet(s) && ShowsAnswer(c, s, c.digest(content))
    && c.correlate(s.observation.page.responses) == C.Candidate(content, capture)
  }

  lemma LastSightMeansWhatItSays(c: Config, samples: seq<Sample>, i: nat, content: string, capture: Option<RC.Evidence>)
    requires i < |samples| && Ticks(c, samples)[i].quiet && Ticks(c, samples)[i].sight == Answer(content, capture)
    ensures ShowsFinally(c, samples[i], content, capture)
  {
    SightsMeanWhatTheySay(c, samples[i], c.digest(content));
  }

  /** Samples `[from, n)` are what justifies completing with this answer. */
  predicate Justifies(c: Config, samples: seq<Sample>, from: nat, n: nat, content: string,
      capture: Option<RC.Evidence>) {
    && from < n <= |samples|
    && AnswerWindow(c, samples, from, n, c.digest(content))
    && AnswerCount(c, samples, from, n, c.digest(content)) >= c.stableSamples
    && samples[n - 1].judge - samples[from].mark >= c.minimumStableMs
    && ShowsFinally(c, samples[n - 1], content, capture)
  }

  lemma StableTicksJustify(c: Config, samples: seq<Sample>, ticks: seq<Tick>, from: nat, n: nat,
      content: string, capture: Option<RC.Evidence>)
    requires ticks == Ticks(c, samples) && from < n <= |samples|
    requires Window(c, ticks, from, n, c.digest(content))
    requires Showing(c, ticks, from, n, c.digest(content)) >= c.stableSamples
    requires ticks[n - 1].judge - ticks[from].mark >= c.minimumStableMs
    requires ticks[n - 1].quiet && ticks[n - 1].sight == Answer(content, capture)
    ensures Justifies(c, samples, from, n, content, capture)
  {
    ShowingBoundsAnswerCount(c, samples, from, n, c.digest(content));
    WindowMeansWhatItSays(c, samples, from, n, c.digest(content));
    LastSightMeansWhatItSays(c, samples, n - 1, content, capture);
  }

  /**
   Completed-response stability: `completed` is returned only after at least `stableSamples` samples showed
   content with one digest over at least `minimumStableMs`, in the pinned conversation with the record's marker,
   interrupted by nothing but pending or unreadable samples; the last of them shows the returned content on a
   quiet page.
   */
  lemma {:induction false} CompletedMeansStable(c: Config, samples: seq<Sample>) returns (from: nat, n: nat)
    requires Result(c, samples).Completed?
    ensures Justifies(c, samples, from, n, Result(c, samples).content, Result(c, samples).capture)
  {
    var ticks := Ticks(c, samples);
    TicksAreHonest(c, samples);
    from, n := VerdictMeansStable(c, ticks);
    StableTicksJustify(c, samples, ticks, from, n, Verdict(c, ticks).content, Verdict(c, ticks).capture);
  }

  /** An undisturbed sample of a quiet page whose correlated answer is exactly `content`. */
  predicate ShowsSettled(c: Config, s: Sample, content: string) {
    && !s.aborted && !s.stopped && !s.sleepAborted && Quiet(s)
    && ShowsAnswer(c, s, c.digest(content))
    && c.correlate(s.observation.page.responses).content == content
  }

  lemma SettledSampleIsSettledTurn(c: Config, s: Sample, content: string)
    requires ShowsSettled(c, s, content)
    ensures Settled(TickOf(c, s), content)
  {
    SightsMeanWhatTheySay(c, s, c.digest(content));
  }

  lemma LastTurn(c: Config, samples: seq<Sample>, from: nat)
    requires from < |samples|
    ensures |Ticks(c, samples)| == |samples|
    ensures Ticks(c, samples)[|samples| - 1].judge == samples[|samples| - 1].judge
    ensures Ticks(c, samples)[from].mark == samples[from].mark
  {
  }

  lemma SettledSamplesAreSettledTurns(c: Config, samples: seq<Sample>, from: nat, content: string)
    requires forall k | from <= k < |samples| :: ShowsSettled(c, samples[k], content)
    ensures SettledFrom(Ticks(c, samples), from, content)
  {
    var ticks := Ticks(c, samples);
    forall k | from <= k < |ticks| ensures Settled(ticks[k], content) {
      SettledSampleIsSettledTurn(c, samples[k], content);
    }
  }

  /**
   Progress: once the page settles on one answer for the configured number of samples and time, before the
   deadline and undisturbed, `receive` completes with exactly that answer.
   */
  lemma {:induction false} SettledPageCompletes(c: Config, samples: seq<Sample>, from: nat, content: string)
    requires from < |samples| && ClockAdvances(Ticks(c, samples)) && After(c, Ticks(c, samples), from).Go?
    requires forall k | from <= k < |samples| :: ShowsSettled(c, samples[k], content)
    requires |samples| - from >= c.stableSamples
    requires samples[|samples| - 1].judge - samples[from].mark >= c.minimumStableMs
    ensures Result(c, samples).Completed? && Result(c, samples).content == content
  {
    SettledSamplesAreSettledTurns(c, samples, from, content);
    LastTurn(c, samples, from);
    SettledVerdict(c, Ticks(c, samples), from, content);
  }

  // ----- A more cautious correlator -----

  /** `c` and `d` differ in their correlators only, and `c` reads what `d` reads or gives up. */
  ghost predicate MoreCautious(c: Config, d: Config) {
    && d == c.(correlate := d.correlate)
    && forall es :: c.correlate(es) == d.correlate(es) || c.correlate(es).Indeterminate?
  }

  predicate GivesUp(t: Turn) {
    t.Stop? && t.outcome.Indeterminate?
  }

  lemma LookRefines(c: Config, d: Config, s: Sample)
    requires MoreCautious(c, d)
    ensures Look(c, s) == Look(d, s) || (Look(c, s).Ends? && Look(c, s).outcome.Indeterminate?)
  {
  }

  lemma StepRefines(c: Config, d: Config, s: Sample, w: Watch)
    requires MoreCautious(c, d)
    ensures Step(c, TickOf(c, s), w) == Step(d, TickOf(d, s), w) || GivesUp(Step(c, TickOf(c, s), w))
  {
    LookRefines(c, d, s);
  }

  lemma {:induction false} AfterRefines(c: Config, d: Config, samples: seq<Sample>, n: nat)
    requires MoreCautious(c, d) && n <= |samples|
    ensures After(c, Ticks(c, samples), n) == After(d, Ticks(d, samples), n) || GivesUp(After(c, Ticks(c, samples), n))
  {
    if n > 0 {
      AfterRefines(c, d, samples, n - 1);
      var before := After(c, Ticks(c, samples), n - 1);
      if before.Go? { StepRefines(c, d, samples[n - 1], before.watch); }
    }
  }

  /** Whatever is sampled, a loop with a more cautious correlator ends as the other one does, or gives up. */
  lemma {:induction false} CautionRefines(c: Config, d: Config, samples: seq<Sample>)
    requires MoreCautious(c, d)
    ensures Result(c, samples) == Result(d, samples) || Result(c, samples).Indeterminate?
  {
    AfterRefines(c, d, samples, |samples|);
  }

  /** The correlators read the same on every page that is sampled. */
  predicate AgreeOn(c: Config, d: Config, samples: seq<Sample>) {
    forall i | 0 <= i < |samples| && samples[i].observation.Saw? ::
      c.correlate(samples[i].observation.page.responses) == d.correlate(samples[i].observation.page.responses)
  }

  lemma {:induction false} SameTicksSameEnd(c: Config, d: Config, ticks: seq<Tick>, n: nat)
    requires d == c.(correlate := d.correlate) && n <= |ticks|
    ensures After(c, ticks, n) == After(d, ticks, n)
  {
    if n > 0 { SameTicksSameEnd(c, d, ticks, n - 1); }
  }

  lemma {:induction false} AgreementDecides(c: Config, d: Config, samples: seq<Sample>)
    requires d == c.(correlate := d.correlate) && AgreeOn(c, d, samples)
    ensures Result(c, samples) == Result(d, samples)
  {
    assert Ticks(c, samples) == Ticks(d, samples);
    SameTicksSameEnd(c, d, Ticks(c, samples), |samples|);
  }
}
