/**
 Every way the polling loop of `receive` can end, told from the samples alone.

 A turn ends the loop if its sample settles it, if it completes a stable answer or confirms a stable capture issue,
 or if its sleep is aborted. If no turn does, what the deadline answers depends on what the samples last showed.
 */
module WaitOutcomes {
  import opened Basics
  import opened BrowserPage
  import TM = TaskMarker
  import C = ResponseCorrelation
  import RC = ResponseCapture
  import opened W = ResponseWait

  // ----- What one sample shows -----

  predicate Running(s: Sample) {
    !s.aborted && !s.stopped
  }

  /** The page is in the pinned conversation and can be read. */
  predicate Here(c: Config, p: Page) {
    && p.conversation == c.conversation
    && (p.classification.state.Ready? || p.classification.state.Streaming?)
  }

  /** Responses that end the loop at once: no sound alignment, or an answer beyond the bound. */
  predicate ResponsesSettle(c: Config, r: C.Correlation, o: Outcome) {
    || (r == C.Indeterminate(C.SequenceAmbiguous) && o == Indeterminate("RESPONSE_SEQUENCE_AMBIGUOUS"))
    || (r == C.Indeterminate(C.BaselineTruncated) && o == Indeterminate("RESPONSE_BASELINE_TRUNCATED"))
    || (r == C.Indeterminate(C.BaselineChanged) && o == Indeterminate("RESPONSE_BASELINE_CHANGED"))
    || (r.Candidate? && |r.content| > c.maxResponseChars && o == Indeterminate("RESPONSE_EXCEEDS_BOUND"))
  }

  predicate PageSettles(c: Config, p: Page, o: Outcome) {
    var e := c.scanner.evidence(p.messages, c.correlation);
    || (p.conversation != c.conversation && o == Indeterminate("CONVERSATION_CHANGED_DURING_RESPONSE"))
    || (p.conversation == c.conversation && !Here(c, p) && o == BlockedBy(p.classification))
    || (Here(c, p) && e.Ambiguous? && o == Indeterminate("TASK_MARKER_AMBIGUOUS"))
    || (Here(c, p) && e.Unique? && e.marker != c.marker && o == Indeterminate("TASK_MARKER_NOT_OBSERVED"))
    || (Proven(c, p) && ResponsesSettle(c, c.correlate(p.responses), o))
  }

  /** The sample ends the loop whatever came before it. */
  predicate Settles(c: Config, s: Sample, o: Outcome) {
    || (s.aborted && o == Cancelled("ABORTED"))
    || (!s.aborted && s.stopped && o == Cancelled("KILL_SWITCH"))
    || (Running(s) && !s.observation.Saw? && s.stoppedMeanwhile && o == Cancelled("KILL_SWITCH"))
    || (Running(s) && s.observation.Threw? && !s.stoppedMeanwhile && o == Indeterminate("PAGE_OBSERVATION_FAILED"))
    || (Running(s) && s.observation.Saw? && PageSettles(c, s.observation.page, o))
  }

  predicate MissesMarker(c: Config, s: Sample) {
    && s.observation.Saw? && Here(c, s.observation.page)
    && c.scanner.evidence(s.observation.page.messages, c.correlation).Absent?
  }

  predicate ShowsIssue(c: Config, s: Sample, issue: Issue) {
    && s.observation.Saw? && Proven(c, s.observation.page)
    && c.correlate(s.observation.page.responses) == C.CaptureIssue(issue.code, issue.details)
  }

  predicate HasIssue(c: Config, s: Sample) {
    && s.observation.Saw? && Proven(c, s.observation.page) && c.correlate(s.observation.page.responses).CaptureIssue?
  }

  predicate HasAnswer(c: Config, s: Sample) {
    && s.observation.Saw? && Proven(c, s.observation.page)
    && var r := c.correlate(s.observation.page.responses); r.Candidate? && |r.content| <= c.maxResponseChars
  }

  /** The loop's own view of a sample agrees with this one. */
  lemma SettlesExactly(c: Config, s: Sample, o: Outcome)
    ensures Look(c, s) == Ends(o) <==> Settles(c, s, o)
  {
  }

  lemma SightExactly(c: Config, s: Sample)
    ensures var sight := Look(c, s);
            && (sight.Broken? <==> Running(s) && HasIssue(c, s)) && (sight.Broken? ==> ShowsIssue(c, s, sight.issue))
            && (sight.Answer? <==> Running(s) && HasAnswer(c, s))
            && (sight.Answer? ==>
                  c.correlate(s.observation.page.responses) == C.Candidate(sight.content, sight.capture))
            && (sight.MarkerMissing? <==> Running(s) && MissesMarker(c, s))
            && (sight.Unreadable? <==> Running(s) && s.observation.CaptureFailed? && !s.stoppedMeanwhile)
            && (sight.Nothing? <==> Running(s) && s.observation.Saw? && Proven(c, s.observation.page)
                                    && c.correlate(s.observation.page.responses).Pending?)
  {
  }

  // ----- Runs of one answer, and of one issue -----

  /** The earliest window of one answer that reaches up to turn `n`. */
  ghost predicate AnswerRun(c: Config, samples: seq<Sample>, from: nat, n: nat, digest: string)
    requires n <= |samples|
  {
    AnswerWindow(c, samples, from, n, digest) && forall f: nat | f < from :: !AnswerWindow(c, samples, f, n, digest)
  }

  /** From sample `from` on, no answer and no other issue is shown, and `from` itself shows the issue. */
  predicate IssueWindow(c: Config, samples: seq<Sample>, from: nat, n: nat, issue: Issue)
    requires n <= |samples|
  {
    && from < n && ShowsIssue(c, samples[from], issue)
    && forall k | from <= k < n ::
         ShowsIssue(c, samples[k], issue) || (!HasIssue(c, samples[k]) && !HasAnswer(c, samples[k]))
  }

  ghost predicate IssueRun(c: Config, samples: seq<Sample>, from: nat, n: nat, issue: Issue)
    requires n <= |samples|
  {
    IssueWindow(c, samples, from, n, issue) && forall f: nat | f < from :: !IssueWindow(c, samples, f, n, issue)
  }

  function IssueCount(c: Config, samples: seq<Sample>, from: nat, n: nat, issue: Issue): nat
    requires n <= |samples|
  {
    if n <= from then 0
    else IssueCount(c, samples, from, n - 1, issue) + if ShowsIssue(c, samples[n - 1], issue) then 1 else 0
  }

  /** A run with its number of samples showing the answer, and the clock when it began. */
  ghost predicate CountedAnswer(c: Config, samples: seq<Sample>, from: nat, n: nat, digest: string, count: nat,
      since: real)
    requires n <= |samples|
  {
    && AnswerRun(c, samples, from, n, digest)
    && count == AnswerCount(c, samples, from, n, digest) && since == samples[from].mark
  }

  ghost predicate CountedIssue(c: Config, samples: seq<Sample>, from: nat, n: nat, issue: Issue, count: nat,
      since: real)
    requires n <= |samples|
  {
    && IssueRun(c, samples, from, n, issue)
    && count == IssueCount(c, samples, from, n, issue) && since == samples[from].mark
  }

  // ----- Turns that end the loop -----

  /** Turn `k` shows, on a quiet page, an answer whose run has the configured samples and time behind it. */
  ghost predicate CompletesAt(c: Config, samples: seq<Sample>, k: nat, o: Outcome)
    requires k < |samples|
  {
    && Running(samples[k]) && o.Completed? && ShowsFinally(c, samples[k], o.content, o.capture)
    && exists from: nat ::
         && AnswerRun(c, samples, from, k + 1, c.digest(o.content))
         && AnswerCount(c, samples, from, k + 1, c.digest(o.content)) >= c.stableSamples
         && samples[k].judge - samples[from].mark >= c.minimumStableMs
  }

  /** Turn `k` shows, on a quiet page, a capture issue whose run has the configured samples and time behind it. */
  ghost predicate ConfirmsIssueAt(c: Config, samples: seq<Sample>, k: nat, issue: Issue)
    requires k < |samples|
  {
    && Running(samples[k]) && Quiet(samples[k]) && ShowsIssue(c, samples[k], issue)
    && exists from: nat ::
         && IssueRun(c, samples, from, k + 1, issue)
         && IssueCount(c, samples, from, k + 1, issue) >= c.stableSamples
         && samples[k].judge - samples[from].mark >= c.minimumStableMs
  }

  ghost predicate GivesUpAt(c: Config, samples: seq<Sample>, k: nat, o: Outcome)
    requires k < |samples|
  {
    exists issue: Issue :: ConfirmsIssueAt(c, samples, k, issue) && o == Indeterminate(issue.code)
  }

  ghost predicate DecidesAt(c: Config, samples: seq<Sample>, k: nat, o: Outcome)
    requires k < |samples|
  {
    Settles(c, samples[k], o) || CompletesAt(c, samples, k, o) || GivesUpAt(c, samples, k, o)
  }

  /** Turn `k`, if it is reached, ends the loop with this outcome. */
  ghost predicate EndsAt(c: Config, samples: seq<Sample>, k: nat, o: Outcome)
    requires k < |samples|
  {
    || DecidesAt(c, samples, k, o)
    || (samples[k].sleepAborted && o == Cancelled("ABORTED") && forall x: Outcome :: !DecidesAt(c, samples, k, x))
  }

  /** No turn before `n` ends the loop. */
  ghost predicate Waiting(c: Config, samples: seq<Sample>, n: nat)
    requires n <= |samples|
  {
    forall k: nat, o: Outcome | k < n :: !EndsAt(c, samples, k, o)
  }

  // ----- What the deadline answers -----

  /** The last sample that says anything about the marker shows it absent. */
  predicate MarkerLost(c: Config, samples: seq<Sample>, n: nat)
    requires n <= |samples|
  {
    exists k | 0 <= k < n :: MissesMarker(c, samples[k]) && forall j | k < j < n :: !samples[j].observation.Saw?
  }

  /** A capture failed, and no answer was read since. */
  predicate UnreadSince(c: Config, samples: seq<Sample>, n: nat)
    requires n <= |samples|
  {
    exists k | 0 <= k < n ::
      samples[k].observation.CaptureFailed? && forall j | k < j < n :: !HasAnswer(c, samples[j])
  }

  /** The last issue shown, if no answer was read since. */
  predicate OpenIssue(c: Config, samples: seq<Sample>, n: nat, issue: Issue)
    requires n <= |samples|
  {
    exists k | 0 <= k < n ::
      && ShowsIssue(c, samples[k], issue)
      && forall j | k < j < n :: !HasAnswer(c, samples[j]) && !HasIssue(c, samples[j])
  }

  predicate SawSomething(c: Config, samples: seq<Sample>, n: nat)
    requires n <= |samples|
  {
    exists k | 0 <= k < n :: HasAnswer(c, samples[k]) || HasIssue(c, samples[k])
  }

  /** What a loop answers that runs into its deadline. */
  ghost predicate DeadlineAnswers(c: Config, samples: seq<Sample>, o: Outcome) {
    var n := |samples|;
    || (MarkerLost(c, samples, n) && o == Indeterminate("TASK_MARKER_NOT_OBSERVED"))
    || (!MarkerLost(c, samples, n) && UnreadSince(c, samples, n)
        && o == Indeterminate("PROTOCOL_WIDGET_CAPTURE_FAILED"))
    || (!MarkerLost(c, samples, n) && !UnreadSince(c, samples, n)
        && exists issue: Issue :: OpenIssue(c, samples, n, issue) && o == Indeterminate(issue.code))
    || (!MarkerLost(c, samples, n) && !UnreadSince(c, samples, n)
        && (forall issue: Issue :: !OpenIssue(c, samples, n, issue))
        && o == TimedOut(if SawSomething(c, samples, n) then "RESPONSE_INCOMPLETE" else "NO_RESPONSE"))
  }

  // ----- The loop's variables mean this -----

  ghost predicate AnswerFacts(c: Config, samples: seq<Sample>, n: nat, candidate: Option<string>, count: nat,
      since: real)
    requires n <= |samples|
  {
    && (forall f: nat, d: string | AnswerWindow(c, samples, f, n, d) :: candidate == Some(d))
    && (candidate.Some? ==> exists from: nat :: CountedAnswer(c, samples, from, n, candidate.value, count, since))
  }

  ghost predicate IssueFacts(c: Config, samples: seq<Sample>, n: nat, key: Option<Issue>, count: nat, since: real)
    requires n <= |samples|
  {
    && (forall f: nat, i: Issue | IssueWindow(c, samples, f, n, i) :: key == Some(i))
    && (key.Some? ==> exists from: nat :: CountedIssue(c, samples, from, n, key.value, count, since))
  }

  ghost predicate DeadlineFacts(c: Config, samples: seq<Sample>, n: nat, w: Watch)
    requires n <= |samples|
  {
    && (w.markerProven <==> !MarkerLost(c, samples, n))
    && (w.captureFailed <==> UnreadSince(c, samples, n))
    && (forall i: Issue :: w.issue == Some(i) <==> OpenIssue(c, samples, n, i))
    && (w.sawCandidate <==> SawSomething(c, samples, n))
  }

  ghost predicate Facts(c: Config, samples: seq<Sample>, n: nat, w: Watch)
    requires n <= |samples|
  {
    && AnswerFacts(c, samples, n, w.candidate, w.stableSamples, w.stableSince)
    && IssueFacts(c, samples, n, w.issueKey, w.issueSamples, w.issueSince)
    && DeadlineFacts(c, samples, n, w)
  }

  lemma AnswerWindowGrows(c: Config, samples: seq<Sample>, f: nat, n: nat, d: string)
    requires n < |samples|
    ensures AnswerWindow(c, samples, f, n + 1, d) <==>
            || (AnswerWindow(c, samples, f, n, d)
                && (ShowsAnswer(c, samples[n], d) || ContradictsNothing(c, samples[n])))
            || (f == n && ShowsAnswer(c, samples[n], d))
  {
  }

  lemma IssueWindowGrows(c: Config, samples: seq<Sample>, f: nat, n: nat, i: Issue)
    requires n < |samples|
    ensures IssueWindow(c, samples, f, n + 1, i) <==>
            || (IssueWindow(c, samples, f, n, i)
                && (ShowsIssue(c, samples[n], i) || (!HasIssue(c, samples[n]) && !HasAnswer(c, samples[n]))))
            || (f == n && ShowsIssue(c, samples[n], i))
  {
  }

  /** A silent sample or a repeated answer keeps the run; another answer starts one; anything else ends it. */
  lemma AnswerKept(c: Config, samples: seq<Sample>, n: nat, candidate: Option<string>, count: nat, since: real)
    requires n < |samples| && AnswerFacts(c, samples, n, candidate, count, since)
    requires ContradictsNothing(c, samples[n])
    ensures AnswerFacts(c, samples, n + 1, candidate, count, since)
  {
    var m := n + 1;
    forall f: nat, d: string | AnswerWindow(c, samples, f, m, d) ensures candidate == Some(d) {
      AnswerWindowGrows(c, samples, f, n, d);
    }
    if candidate.Some? {
      var d := candidate.value;
      var from: nat :| CountedAnswer(c, samples, from, n, d, count, since);
      assert !ShowsAnswer(c, samples[n], d);
      assert AnswerCount(c, samples, from, m, d) == AnswerCount(c, samples, from, n, d);
      AnswerWindowGrows(c, samples, from, n, d);
      forall f: nat | f < from ensures !AnswerWindow(c, samples, f, m, d) { AnswerWindowGrows(c, samples, f, n, d); }
      assert CountedAnswer(c, samples, from, m, d, count, since);
    }
  }

  lemma AnswerRepeated(c: Config, samples: seq<Sample>, n: nat, d: string, count: nat, since: real)
    requires n < |samples| && AnswerFacts(c, samples, n, Some(d), count, since) && ShowsAnswer(c, samples[n], d)
    ensures AnswerFacts(c, samples, n + 1, Some(d), count + 1, since)
  {
    var m := n + 1;
    forall f: nat, x: string
      ensures AnswerWindow(c, samples, f, m, x) <==> x == d && (f == n || AnswerWindow(c, samples, f, n, d))
    {
      AnswerWindowGrows(c, samples, f, n, x);
    }
    var from: nat :| CountedAnswer(c, samples, from, n, d, count, since);
    assert CountedAnswer(c, samples, from, m, d, count + 1, since);
  }

  lemma AnswerStarted(c: Config, samples: seq<Sample>, n: nat, candidate: Option<string>, count: nat, since: real,
      d: string)
    requires n < |samples| && AnswerFacts(c, samples, n, candidate, count, since)
    requires candidate != Some(d) && ShowsAnswer(c, samples[n], d)
    ensures AnswerFacts(c, samples, n + 1, Some(d), 1, samples[n].mark)
  {
    var m := n + 1;
    forall f: nat, x: string ensures AnswerWindow(c, samples, f, m, x) <==> x == d && f == n {
      AnswerWindowGrows(c, samples, f, n, x);
    }
    assert AnswerCount(c, samples, n, n, d) == 0;
    assert CountedAnswer(c, samples, n, m, d, 1, samples[n].mark);
  }

  lemma AnswerBroken(c: Config, samples: seq<Sample>, n: nat, since: real)
    requires n < |samples| && !HasAnswer(c, samples[n]) && !ContradictsNothing(c, samples[n])
    ensures AnswerFacts(c, samples, n + 1, None, 0, since)
  {
    var m := n + 1;
    forall f: nat, x: string ensures !AnswerWindow(c, samples, f, m, x) {
      AnswerWindowGrows(c, samples, f, n, x);
    }
  }

  lemma IssueKept(c: Config, samples: seq<Sample>, n: nat, key: Option<Issue>, count: nat, since: real)
    requires n < |samples| && IssueFacts(c, samples, n, key, count, since)
    requires !HasIssue(c, samples[n]) && !HasAnswer(c, samples[n])
    ensures IssueFacts(c, samples, n + 1, key, count, since)
  {
    var m := n + 1;
    forall f: nat, i: Issue | IssueWindow(c, samples, f, m, i) ensures key == Some(i) {
      IssueWindowGrows(c, samples, f, n, i);
    }
    if key.Some? {
      var i := key.value;
      var from: nat :| CountedIssue(c, samples, from, n, i, count, since);
      assert !ShowsIssue(c, samples[n], i);
      assert IssueCount(c, samples, from, m, i) == IssueCount(c, samples, from, n, i);
      IssueWindowGrows(c, samples, from, n, i);
      forall f: nat | f < from ensures !IssueWindow(c, samples, f, m, i) { IssueWindowGrows(c, samples, f, n, i); }
      assert CountedIssue(c, samples, from, m, i, count, since);
    }
  }

  lemma IssueRepeated(c: Config, samples: seq<Sample>, n: nat, i: Issue, count: nat, since: real)
    requires n < |samples| && IssueFacts(c, samples, n, Some(i), count, since) && ShowsIssue(c, samples[n], i)
    ensures IssueFacts(c, samples, n + 1, Some(i), count + 1, since)
  {
    var m := n + 1;
    forall f: nat, x: Issue
      ensures IssueWindow(c, samples, f, m, x) <==> x == i && (f == n || IssueWindow(c, samples, f, n, i))
    {
      IssueWindowGrows(c, samples, f, n, x);
    }
    var from: nat :| CountedIssue(c, samples, from, n, i, count, since);
    assert CountedIssue(c, samples, from, m, i, count + 1, since);
  }

  lemma IssueStarted(c: Config, samples: seq<Sample>, n: nat, key: Option<Issue>, count: nat, since: real, i: Issue)
    requires n < |samples| && IssueFacts(c, samples, n, key, count, since)
    requires key != Some(i) && ShowsIssue(c, samples[n], i)
    ensures IssueFacts(c, samples, n + 1, Some(i), 1, samples[n].mark)
  {
    var m := n + 1;
    forall f: nat, x: Issue ensures IssueWindow(c, samples, f, m, x) <==> x == i && f == n {
      IssueWindowGrows(c, samples, f, n, x);
    }
    assert IssueCount(c, samples, n, n, i) == 0;
    assert CountedIssue(c, samples, n, m, i, 1, samples[n].mark);
  }

  lemma IssueBroken(c: Config, samples: seq<Sample>, n: nat, since: real)
    requires n < |samples| && HasAnswer(c, samples[n])
    ensures IssueFacts(c, samples, n + 1, None, 0, since)
  {
    var m := n + 1;
    forall f: nat, x: Issue ensures !IssueWindow(c, samples, f, m, x) {
      IssueWindowGrows(c, samples, f, n, x);
    }
  }

  lemma MarkerGrows(c: Config, samples: seq<Sample>, n: nat)
    requires n < |samples|
    ensures MarkerLost(c, samples, n + 1) <==>
            MissesMarker(c, samples[n]) || (MarkerLost(c, samples, n) && !samples[n].observation.Saw?)
  {
  }

  lemma UnreadGrows(c: Config, samples: seq<Sample>, n: nat)
    requires n < |samples|
    ensures UnreadSince(c, samples, n + 1) <==>
            samples[n].observation.CaptureFailed? || (UnreadSince(c, samples, n) && !HasAnswer(c, samples[n]))
  {
  }

  lemma OpenIssueGrows(c: Config, samples: seq<Sample>, n: nat, i: Issue)
    requires n < |samples|
    ensures OpenIssue(c, samples, n + 1, i) <==>
            || ShowsIssue(c, samples[n], i)
            || (OpenIssue(c, samples, n, i) && !HasAnswer(c, samples[n]) && !HasIssue(c, samples[n]))
  {
  }

  lemma SawGrows(c: Config, samples: seq<Sample>, n: nat)
    requires n < |samples|
    ensures SawSomething(c, samples, n + 1) <==>
            SawSomething(c, samples, n) || HasAnswer(c, samples[n]) || HasIssue(c, samples[n])
  {
  }

  // ----- One turn -----

  lemma AnswerDecision(c: Config, samples: seq<Sample>, n: nat, content: string, capture: Option<RC.Evidence>,
      count: nat, since: real)
    requires n < |samples| && AnswerFacts(c, samples, n + 1, Some(c.digest(content)), count, since)
    requires Running(samples[n]) && HasAnswer(c, samples[n])
    requires c.correlate(samples[n].observation.page.responses) == C.Candidate(content, capture)
    ensures CompletesAt(c, samples, n, Completed(content, capture)) <==>
            Quiet(samples[n]) && count >= c.stableSamples && samples[n].judge - since >= c.minimumStableMs
    ensures forall o: Outcome :: CompletesAt(c, samples, n, o) ==> o == Completed(content, capture)
  {
    var (m, d) := (n + 1, c.digest(content));
    var from: nat :| CountedAnswer(c, samples, from, m, d, count, since);
    forall f: nat | AnswerRun(c, samples, f, m, d) ensures f == from {}
  }

  lemma IssueDecision(c: Config, samples: seq<Sample>, n: nat, i: Issue, count: nat, since: real)
    requires n < |samples| && IssueFacts(c, samples, n + 1, Some(i), count, since)
    requires Running(samples[n]) && ShowsIssue(c, samples[n], i)
    ensures ConfirmsIssueAt(c, samples, n, i) <==>
            Quiet(samples[n]) && count >= c.stableSamples && samples[n].judge - since >= c.minimumStableMs
  {
    var m := n + 1;
    var from: nat :| CountedIssue(c, samples, from, m, i, count, since);
    forall f: nat | IssueRun(c, samples, f, m, i) ensures f == from {}
  }

  /** A sample the loop reads something from does not settle it. */
  lemma OpenSampleSettlesNothing(c: Config, s: Sample, o: Outcome)
    requires !Look(c, s).Ends?
    ensures !Settles(c, s, o)
  {
    SettlesExactly(c, s, o);
  }

  lemma NothingDecided(c: Config, samples: seq<Sample>, n: nat, o: Outcome)
    requires n < |samples|
    requires var sight := Look(c, samples[n]); sight.MarkerMissing? || sight.Unreadable? || sight.Nothing?
    ensures !DecidesAt(c, samples, n, o)
  {
    SightExactly(c, samples[n]);
    OpenSampleSettlesNothing(c, samples[n], o);
  }

  /** A turn goes to sleep when nothing is decided: it ends only if the sleep is aborted. */
  lemma SleepEnds(c: Config, samples: seq<Sample>, n: nat, w: Watch, o: Outcome)
    requires n < |samples| && forall x: Outcome :: !DecidesAt(c, samples, n, x)
    ensures Sleep(TickOf(c, samples[n]), w) == Stop(o) <==> EndsAt(c, samples, n, o)
  {
  }

  /** What a turn does whose sample neither settles the loop nor shows an answer or an issue. */
  lemma SilentTurn(c: Config, samples: seq<Sample>, n: nat, w: Watch, o: Outcome)
    requires n < |samples|
    requires var sight := Look(c, samples[n]); sight.MarkerMissing? || sight.Unreadable? || sight.Nothing?
    ensures Step(c, TickOf(c, samples[n]), w) == Stop(o) <==> EndsAt(c, samples, n, o)
  {
    forall x: Outcome ensures !DecidesAt(c, samples, n, x) { NothingDecided(c, samples, n, x); }
    var turn := Step(c, TickOf(c, samples[n]), w);
    SleepEnds(c, samples, n, w, o);
  }

  lemma DeadlineGrows(c: Config, samples: seq<Sample>, n: nat, w: Watch, v: Watch)
    requires n < |samples| && DeadlineFacts(c, samples, n, w)
    requires var s := samples[n];
             && (v.markerProven <==> !(MissesMarker(c, s) || (!w.markerProven && !s.observation.Saw?)))
             && (v.captureFailed <==> s.observation.CaptureFailed? || (w.captureFailed && !HasAnswer(c, s)))
             && (v.sawCandidate <==> w.sawCandidate || HasAnswer(c, s) || HasIssue(c, s))
             && (forall i: Issue :: v.issue == Some(i) <==>
                   ShowsIssue(c, s, i) || (w.issue == Some(i) && !HasAnswer(c, s) && !HasIssue(c, s)))
    ensures DeadlineFacts(c, samples, n + 1, v)
  {
    MarkerGrows(c, samples, n);
    UnreadGrows(c, samples, n);
    SawGrows(c, samples, n);
    forall i: Issue ensures v.issue == Some(i) <==> OpenIssue(c, samples, n + 1, i) {
      OpenIssueGrows(c, samples, n, i);
    }
  }

  lemma SilentFacts(c: Config, samples: seq<Sample>, n: nat, w: Watch)
    requires n < |samples| && Facts(c, samples, n, w)
    requires var sight := Look(c, samples[n]); sight.MarkerMissing? || sight.Unreadable? || sight.Nothing?
    ensures var turn := Step(c, TickOf(c, samples[n]), w); turn.Go? ==> Facts(c, samples, n + 1, turn.watch)
  {
    var turn := Step(c, TickOf(c, samples[n]), w);
    SightExactly(c, samples[n]);
    if turn.Go? {
      DeadlineGrows(c, samples, n, w, turn.watch);
      IssueKept(c, samples, n, w.issueKey, w.issueSamples, w.issueSince);
      if Look(c, samples[n]).MarkerMissing? {
        AnswerBroken(c, samples, n, samples[n].mark);
      } else {
        AnswerKept(c, samples, n, w.candidate, w.stableSamples, w.stableSince);
      }
    }
  }

  /** The counters after a turn that shows an issue. */
  function IssueTally(w: Watch, s: Sample, i: Issue): (nat, real) {
    if w.issueKey == Some(i) then (w.issueSamples + 1, w.issueSince) else (1, s.mark)
  }

  lemma IssueTallied(c: Config, samples: seq<Sample>, n: nat, w: Watch, i: Issue)
    requires n < |samples| && IssueFacts(c, samples, n, w.issueKey, w.issueSamples, w.issueSince)
    requires ShowsIssue(c, samples[n], i)
    ensures var tally := IssueTally(w, samples[n], i); IssueFacts(c, samples, n + 1, Some(i), tally.0, tally.1)
  {
    if w.issueKey == Some(i) {
      IssueRepeated(c, samples, n, i, w.issueSamples, w.issueSince);
    } else {
      IssueStarted(c, samples, n, w.issueKey, w.issueSamples, w.issueSince, i);
    }
  }

  lemma IssueDecides(c: Config, samples: seq<Sample>, n: nat, x: Outcome)
    requires n < |samples| && Look(c, samples[n]).Broken?
    ensures var i := Look(c, samples[n]).issue;
            DecidesAt(c, samples, n, x) <==> x == Indeterminate(i.code) && ConfirmsIssueAt(c, samples, n, i)
  {
    var i := Look(c, samples[n]).issue;
    SightExactly(c, samples[n]);
    OpenSampleSettlesNothing(c, samples[n], x);
    if ConfirmsIssueAt(c, samples, n, i) { assert GivesUpAt(c, samples, n, Indeterminate(i.code)); }
  }

  lemma IssueTurn(c: Config, samples: seq<Sample>, n: nat, w: Watch, o: Outcome)
    requires n < |samples| && IssueFacts(c, samples, n, w.issueKey, w.issueSamples, w.issueSince)
    requires Look(c, samples[n]).Broken?
    ensures Step(c, TickOf(c, samples[n]), w) == Stop(o) <==> EndsAt(c, samples, n, o)
  {
    var (s, i) := (samples[n], Look(c, samples[n]).issue);
    SightExactly(c, s);
    var tally := IssueTally(w, s, i);
    IssueTallied(c, samples, n, w, i);
    IssueDecision(c, samples, n, i, tally.0, tally.1);
    forall x: Outcome
      ensures DecidesAt(c, samples, n, x) <==> x == Indeterminate(i.code) && ConfirmsIssueAt(c, samples, n, i)
    {
      IssueDecides(c, samples, n, x);
    }
    if !ConfirmsIssueAt(c, samples, n, i) {
      SleepEnds(c, samples, n, w, o);
    } else {
      assert DecidesAt(c, samples, n, Indeterminate(i.code));
    }
  }

  lemma IssueTurnFacts(c: Config, samples: seq<Sample>, n: nat, w: Watch)
    requires n < |samples| && Facts(c, samples, n, w) && Look(c, samples[n]).Broken?
    ensures var turn := Step(c, TickOf(c, samples[n]), w); turn.Go? ==> Facts(c, samples, n + 1, turn.watch)
  {
    var (s, i) := (samples[n], Look(c, samples[n]).issue);
    SightExactly(c, s);
    IssueTallied(c, samples, n, w, i);
    AnswerBroken(c, samples, n, s.mark);
    var turn := Step(c, TickOf(c, s), w);
    if turn.Go? {
      IssueTurnWatch(c, s, w);
      DeadlineGrows(c, samples, n, w, turn.watch);
    }
  }

  /** The variables after a turn that shows an issue. */
  lemma IssueTurnWatch(c: Config, s: Sample, w: Watch)
    requires Look(c, s).Broken? && Step(c, TickOf(c, s), w).Go?
    ensures var (v, i) := (Step(c, TickOf(c, s), w).watch, Look(c, s).issue);
            && v.candidate.None? && v.stableSamples == 0 && v.stableSince == s.mark
            && v.issueKey == Some(i) && (v.issueSamples, v.issueSince) == IssueTally(w, s, i)
            && v.issue == Some(i) && v.markerProven && v.sawCandidate && v.captureFailed == w.captureFailed
  {
  }

  /** The counters after a turn that shows an answer with this digest. */
  function AnswerTally(w: Watch, s: Sample, d: string): (nat, real) {
    if w.candidate == Some(d) then (w.stableSamples + 1, w.stableSince) else (1, s.mark)
  }

  lemma AnswerTallied(c: Config, samples: seq<Sample>, n: nat, w: Watch, d: string)
    requires n < |samples| && AnswerFacts(c, samples, n, w.candidate, w.stableSamples, w.stableSince)
    requires ShowsAnswer(c, samples[n], d)
    ensures var tally := AnswerTally(w, samples[n], d); AnswerFacts(c, samples, n + 1, Some(d), tally.0, tally.1)
  {
    if w.candidate == Some(d) {
      AnswerRepeated(c, samples, n, d, w.stableSamples, w.stableSince);
    } else {
      AnswerStarted(c, samples, n, w.candidate, w.stableSamples, w.stableSince, d);
    }
  }

  lemma AnswerTurn(c: Config, samples: seq<Sample>, n: nat, w: Watch, o: Outcome)
    requires n < |samples| && AnswerFacts(c, samples, n, w.candidate, w.stableSamples, w.stableSince)
    requires Look(c, samples[n]).Answer?
    ensures Step(c, TickOf(c, samples[n]), w) == Stop(o) <==> EndsAt(c, samples, n, o)
  {
    var (s, content, capture) := (samples[n], Look(c, samples[n]).content, Look(c, samples[n]).capture);
    SightExactly(c, s);
    var tally := AnswerTally(w, s, c.digest(content));
    AnswerTallied(c, samples, n, w, c.digest(content));
    AnswerDecision(c, samples, n, content, capture, tally.0, tally.1);
    var done := Completed(content, capture);
    forall x: Outcome ensures DecidesAt(c, samples, n, x) <==> x == done && CompletesAt(c, samples, n, done) {
      OpenSampleSettlesNothing(c, s, x);
    }
    if !CompletesAt(c, samples, n, done) {
      SleepEnds(c, samples, n, w, o);
    } else {
      assert DecidesAt(c, samples, n, done);
    }
  }

  lemma AnswerTurnFacts(c: Config, samples: seq<Sample>, n: nat, w: Watch)
    requires n < |samples| && Facts(c, samples, n, w) && Look(c, samples[n]).Answer?
    ensures var turn := Step(c, TickOf(c, samples[n]), w); turn.Go? ==> Facts(c, samples, n + 1, turn.watch)
  {
    var (s, d) := (samples[n], c.digest(Look(c, samples[n]).content));
    SightExactly(c, s);
    AnswerTallied(c, samples, n, w, d);
    IssueBroken(c, samples, n, w.issueSince);
    var turn := Step(c, TickOf(c, s), w);
    if turn.Go? { DeadlineGrows(c, samples, n, w, turn.watch); }
  }

  lemma EndedTurn(c: Config, samples: seq<Sample>, n: nat, w: Watch, o: Outcome)
    requires n < |samples| && Look(c, samples[n]).Ends?
    ensures Step(c, TickOf(c, samples[n]), w) == Stop(o) <==> EndsAt(c, samples, n, o)
  {
    var settled := Look(c, samples[n]).outcome;
    SightExactly(c, samples[n]);
    SettlesExactly(c, samples[n], settled);
    SettlesExactly(c, samples[n], o);
    assert DecidesAt(c, samples, n, settled);
  }

  lemma TurnExactly(c: Config, samples: seq<Sample>, n: nat, w: Watch, o: Outcome)
    requires n < |samples| && Facts(c, samples, n, w)
    ensures var turn := Step(c, TickOf(c, samples[n]), w);
            && (turn == Stop(o) <==> EndsAt(c, samples, n, o))
            && (turn.Go? ==> Facts(c, samples, n + 1, turn.watch))
  {
    match Look(c, samples[n])
    case Ends(_) => EndedTurn(c, samples, n, w, o);
    case Broken(_) =>
      IssueTurn(c, samples, n, w, o);
      IssueTurnFacts(c, samples, n, w);
    case Answer(_, _) =>
      AnswerTurn(c, samples, n, w, o);
      AnswerTurnFacts(c, samples, n, w);
    case _ =>
      SilentTurn(c, samples, n, w, o);
      SilentFacts(c, samples, n, w);
  }

  // ----- The whole loop -----

  /** Turn `k` is the first that ends the loop, and ends it with this outcome. */
  ghost predicate EndsFirst(c: Config, samples: seq<Sample>, k: nat, o: Outcome)
    requires k < |samples|
  {
    Waiting(c, samples, k) && EndsAt(c, samples, k, o)
  }

  lemma StartFacts(c: Config, samples: seq<Sample>)
    ensures Facts(c, samples, 0, Start)
  {
  }

  lemma AfterOneMore(c: Config, samples: seq<Sample>, n: nat)
    requires n < |samples|
    ensures var before := After(c, Ticks(c, samples), n);
            After(c, Ticks(c, samples), n + 1) ==
            if before.Stop? then before else Step(c, TickOf(c, samples[n]), before.watch)
  {
  }

  lemma WaitingGrows(c: Config, samples: seq<Sample>, n: nat)
    requires n < |samples|
    ensures Waiting(c, samples, n + 1) <==>
            Waiting(c, samples, n) && forall o: Outcome :: !EndsAt(c, samples, n, o)
  {
  }

  /** After `n` turns: the loop goes on exactly if none of them ended it, and its variables mean what they say. */
  ghost predicate LoopFacts(c: Config, samples: seq<Sample>, n: nat)
    requires n <= |samples|
  {
    var turn := After(c, Ticks(c, samples), n);
    (turn.Go? <==> Waiting(c, samples, n)) && (turn.Go? ==> Facts(c, samples, n, turn.watch))
  }

  lemma TurnGoesOn(c: Config, samples: seq<Sample>, n: nat, w: Watch)
    requires n < |samples| && Facts(c, samples, n, w)
    ensures var turn := Step(c, TickOf(c, samples[n]), w);
            && (turn.Go? <==> forall o: Outcome :: !EndsAt(c, samples, n, o))
            && (turn.Go? ==> Facts(c, samples, n + 1, turn.watch))
  {
    var turn := Step(c, TickOf(c, samples[n]), w);
    forall o: Outcome ensures turn == Stop(o) <==> EndsAt(c, samples, n, o) { TurnExactly(c, samples, n, w, o); }
    TurnExactly(c, samples, n, w, Cancelled(""));
    if turn.Stop? { assert EndsAt(c, samples, n, turn.outcome); }
  }

  lemma TurnKeepsWaiting(c: Config, samples: seq<Sample>, n: nat)
    requires n < |samples| && LoopFacts(c, samples, n)
    ensures After(c, Ticks(c, samples), n + 1).Go? <==> Waiting(c, samples, n + 1)
  {
    var before := After(c, Ticks(c, samples), n);
    AfterOneMore(c, samples, n);
    WaitingGrows(c, samples, n);
    if before.Go? { TurnGoesOn(c, samples, n, before.watch); }
  }

  lemma TurnKeepsFacts(c: Config, samples: seq<Sample>, n: nat)
    requires n < |samples| && LoopFacts(c, samples, n)
    ensures var turn := After(c, Ticks(c, samples), n + 1); turn.Go? ==> Facts(c, samples, n + 1, turn.watch)
  {
    var before := After(c, Ticks(c, samples), n);
    AfterOneMore(c, samples, n);
    if before.Go? { TurnGoesOn(c, samples, n, before.watch); }
  }

  lemma {:induction false} LoopKeepsFacts(c: Config, samples: seq<Sample>, n: nat)
    requires n <= |samples|
    ensures LoopFacts(c, samples, n)
  {
    if n == 0 {
      StartFacts(c, samples);
    } else {
      LoopKeepsFacts(c, samples, n - 1);
      TurnKeepsWaiting(c, samples, n - 1);
      TurnKeepsFacts(c, samples, n - 1);
    }
  }

  lemma WaitingGoesOn(c: Config, samples: seq<Sample>, n: nat)
    requires n <= |samples|
    ensures After(c, Ticks(c, samples), n).Go? <==> Waiting(c, samples, n)
  {
    LoopKeepsFacts(c, samples, n);
  }

  lemma TurnEndsFirst(c: Config, samples: seq<Sample>, k: nat, o: Outcome)
    requires k < |samples| && After(c, Ticks(c, samples), k).Go?
    ensures After(c, Ticks(c, samples), k + 1) == Stop(o) <==> EndsFirst(c, samples, k, o)
  {
    LoopKeepsFacts(c, samples, k);
    AfterOneMore(c, samples, k);
    TurnExactly(c, samples, k, After(c, Ticks(c, samples), k).watch, o);
  }

  lemma FirstTurnDecides(c: Config, samples: seq<Sample>, k: nat, n: nat, o: Outcome)
    requires k < n <= |samples| && EndsFirst(c, samples, k, o)
    ensures After(c, Ticks(c, samples), n) == Stop(o)
  {
    WaitingGoesOn(c, samples, k);
    TurnEndsFirst(c, samples, k, o);
    StaysStopped(c, Ticks(c, samples), k + 1, n);
  }

  lemma StoppedByFirst(c: Config, samples: seq<Sample>, n: nat, o: Outcome) returns (k: nat)
    requires n <= |samples| && After(c, Ticks(c, samples), n) == Stop(o)
    ensures k < n && EndsFirst(c, samples, k, o)
  {
    var m := FirstStop(c, Ticks(c, samples), n);
    k := m - 1;
    TurnEndsFirst(c, samples, k, o);
  }

  lemma DeadlineExactly(c: Config, samples: seq<Sample>, w: Watch, o: Outcome)
    requires DeadlineFacts(c, samples, |samples|, w)
    ensures AtDeadline(w) == o <==> DeadlineAnswers(c, samples, o)
  {
    if w.issue.Some? { assert OpenIssue(c, samples, |samples|, w.issue.value); }
  }

  /**
   How `receive` ends, exactly: with the outcome of the first turn that ends the loop, or, if no turn does, with what
   the samples say at the deadline.
   */
  lemma {:induction false} OutcomeExactly(c: Config, samples: seq<Sample>, o: Outcome)
    ensures Result(c, samples) == o <==>
            || (exists k: nat :: k < |samples| && EndsFirst(c, samples, k, o))
            || (Waiting(c, samples, |samples|) && DeadlineAnswers(c, samples, o))
  {
    var n := |samples|;
    LoopKeepsFacts(c, samples, n);
    var end := After(c, Ticks(c, samples), n);
    if end.Go? {
      DeadlineExactly(c, samples, end.watch, o);
    } else {
      var k := StoppedByFirst(c, samples, n, end.outcome);
    }
    forall k: nat | k < n && EndsFirst(c, samples, k, o) ensures Result(c, samples) == o {
      FirstTurnDecides(c, samples, k, n, o);
    }
  }

  /** `receive` is blocked exactly by the first page that ends it: in place, and neither ready nor streaming. */
  lemma {:induction false} BlockedExactlyWhen(c: Config, samples: seq<Sample>, why: Classification)
    ensures Result(c, samples) == BlockedBy(why) <==>
            exists k: nat :: k < |samples| && EndsFirst(c, samples, k, BlockedBy(why))
    ensures forall k: nat | k < |samples| && EndsFirst(c, samples, k, BlockedBy(why)) ::
              && Running(samples[k]) && samples[k].observation.Saw?
              && samples[k].observation.page.conversation == c.conversation
              && !Here(c, samples[k].observation.page) && samples[k].observation.page.classification == why
  {
    OutcomeExactly(c, samples, BlockedBy(why));
  }

  /** A loop that times out saw the marker whenever it looked last, and no answer, issue or failed capture is open. */
  lemma {:induction false} TimedOutExactlyWhen(c: Config, samples: seq<Sample>, code: string)
    ensures Result(c, samples) == TimedOut(code) <==>
            && var n := |samples|;
            && Waiting(c, samples, n) && !MarkerLost(c, samples, n) && !UnreadSince(c, samples, n)
            && (forall issue: Issue :: !OpenIssue(c, samples, n, issue))
            && code == if SawSomething(c, samples, n) then "RESPONSE_INCOMPLETE" else "NO_RESPONSE"
  {
    OutcomeExactly(c, samples, TimedOut(code));
  }

  /** `receive` completes exactly at the first turn that ends it, if that turn completes a stable answer. */
  lemma {:induction false} CompletedExactlyWhen(c: Config, samples: seq<Sample>, o: Outcome)
    requires o.Completed?
    ensures Result(c, samples) == o <==>
            exists k: nat :: k < |samples| && Waiting(c, samples, k) && CompletesAt(c, samples, k, o)
  {
    OutcomeExactly(c, samples, o);
    forall k: nat | k < |samples| ensures EndsAt(c, samples, k, o) <==> CompletesAt(c, samples, k, o) {}
    if Result(c, samples) == o {
      var k: nat :| k < |samples| && EndsFirst(c, samples, k, o);
    }
    if exists k: nat :: k < |samples| && Waiting(c, samples, k) && CompletesAt(c, samples, k, o) {
      var k: nat :| k < |samples| && Waiting(c, samples, k) && CompletesAt(c, samples, k, o);
      assert EndsFirst(c, samples, k, o);
    }
  }

  /** A submission that is not proved when the time is up is never reported as a timeout. */
  lemma {:induction false} LostMarkerIsReported(c: Config, samples: seq<Sample>)
    requires Waiting(c, samples, |samples|) && MarkerLost(c, samples, |samples|)
    ensures Result(c, samples) == Indeterminate("TASK_MARKER_NOT_OBSERVED")
  {
    OutcomeExactly(c, samples, Indeterminate("TASK_MARKER_NOT_OBSERVED"));
  }
}
