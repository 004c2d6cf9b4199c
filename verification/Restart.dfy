/**
 What survives a restart: a new adapter knows nothing but what the markers on the page tell it.
 */
module Restart {
  import opened Basics
  import opened BrowserPage
  import TM = TaskMarker
  import C = ResponseCorrelation
  import W = ResponseWait
  import opened A = BrowserAdapter

  /** The baseline a first attempt on this page puts into its marker. */
  function BaselineOf(c: Config, p: Page): TM.Baseline {
    var texts := C.Envelopes(p.responses);
    TM.Baseline(|texts|, c.hasher.ofSequence(texts))
  }

  /** The record of a first attempt on this page. */
  function Original(c: Config, codec: TM.Codec, s: State, q: Request, p: Page): Record {
    CreateRecord(c, s, q, TM.CreateTaskMarker(codec, q.correlation, Some(BaselineOf(c, p))), p, true, None)
  }

  /** The message stands once between messages that are foreign to the correlation. */
  predicate Between(codec: TM.Codec, key: TM.Correlation, message: string, messages: seq<string>,
      front: seq<string>, back: seq<string>) {
    && messages == front + [message] + back
    && forall r | r in TM.PageReadings(codec, front, key) + TM.PageReadings(codec, back, key) :: r.Foreign?
  }

  /** The page shows the message of that attempt once, among messages that are foreign to it. */
  ghost predicate ShowsMessage(c: Config, codec: TM.Codec, q: Request, before: Page, messages: seq<string>) {
    var message := TM.FullContent(q.content, TM.CreateTaskMarker(codec, q.correlation, Some(BaselineOf(c, before))));
    exists front: seq<string>, back: seq<string> :: Between(codec, q.correlation, message, messages, front, back)
  }

  ghost predicate Sendable(c: Config, codec: TM.Codec, q: Request, before: Page) {
    && c.scanner == TM.ScannerOf(codec) && TM.Lawful(codec)
    && TM.ValidContent(q.content, c.maxMessageChars) && TM.ValidCorrelation(q.correlation)
    && TM.ValidBaseline(BaselineOf(c, before))
  }

  lemma MessageIsRecognised(c: Config, codec: TM.Codec, q: Request, before: Page, messages: seq<string>)
    requires Sendable(c, codec, q, before) && ShowsMessage(c, codec, q, before, messages)
    ensures var b := BaselineOf(c, before);
            c.scanner.evidence(messages, q.correlation)
            == TM.Unique(TM.CreateTaskMarker(codec, q.correlation, Some(b)), Some(b))
  {
    var b := BaselineOf(c, before);
    var message := TM.FullContent(q.content, TM.CreateTaskMarker(codec, q.correlation, Some(b)));
    var front: seq<string>, back: seq<string> :| Between(codec, q.correlation, message, messages, front, back);
    TM.SubmittedMessageIsUnique(codec, front, q.content, c.maxMessageChars, back, q.correlation, b);
  }

  /**
   A new adapter that resolves the submission rebuilds its record from the page: same marker, count and sequence
   digest as the record that was lost.
   */
  lemma {:induction false} RebuiltFromPage(c: Config, codec: TM.Codec, s: State, q: Request, before: Page, after: Page)
    requires Sendable(c, codec, q, before) && ShowsMessage(c, codec, q, before, after.messages)
    requires !after.classification.state.UnapprovedHost?
    requires q.expected.Some? ==> q.expected.value == after.conversation
    ensures var out := Resolve(c, Initial, q, ResolveEnv(true, Saw(after)));
            var lost := Original(c, codec, s, q, before);
            && out.reply == Replied(Receipt(Submitted, Some(after.conversation), lost.marker, "MARKER_CONFIRMED"))
            && Id(q) in out.state.records
            && var r := out.state.records[Id(q)];
               && r.baselineKnown && r.receipt.status == Submitted && r.marker == lost.marker
               && r.conversation == after.conversation
               && r.baseline == C.Rebuilt(lost.baseline.count, lost.baseline.sequence)
  {
    MessageIsRecognised(c, codec, q, before, after.messages);
  }

  /** A new adapter asked to submit the message again recognises it, rebuilds the same record and clicks nothing. */
  lemma {:induction false} RetryClicksNothing(c: Config, codec: TM.Codec, s: State, q: Request, before: Page,
      env: SubmitEnv)
    requires Sendable(c, codec, q, before) && env.usable && env.first.Saw? && env.usableAfterFirst
    requires var after := env.first.page;
             && ShowsMessage(c, codec, q, before, after.messages) && after.classification.state.Ready?
             && (q.expected.Some? ==> q.expected.value == after.conversation)
    ensures var (out, after, lost) := (Submit(c, Initial, q, env), env.first.page, Original(c, codec, s, q, before));
            && out.reply == Replied(Receipt(Submitted, Some(after.conversation), lost.marker, "MARKER_RECOVERED"))
            && out.state.clicks == multiset{}
            && Id(q) in out.state.records
            && out.state.records[Id(q)].baseline == C.Rebuilt(lost.baseline.count, lost.baseline.sequence)
  {
    MessageIsRecognised(c, codec, q, before, env.first.page.messages);
  }

  /**
   Restart refinement: whatever responses the page shows, the rebuilt record reads the answer the lost record
   would have read, or none.
   */
  lemma {:induction false} RestartRefinesOriginal(c: Config, codec: TM.Codec, s: State, q: Request,
      before: Page, after: Page, es: seq<C.Element>)
    requires Sendable(c, codec, q, before) && ShowsMessage(c, codec, q, before, after.messages)
    requires !after.classification.state.UnapprovedHost?
    requires q.expected.Some? ==> q.expected.value == after.conversation
    ensures var out := Resolve(c, Initial, q, ResolveEnv(true, Saw(after)));
            && Id(q) in out.state.records
            && var rebuilt := C.AssociatedResponse(c.hasher, es, out.state.records[Id(q)].baseline);
               var original := C.AssociatedResponse(c.hasher, es, Original(c, codec, s, q, before).baseline);
               && (rebuilt == original || rebuilt.Indeterminate?)
               && (rebuilt.Candidate? <==> original.Candidate? && |es| == |before.responses| + 1)
  {
    RebuiltFromPage(c, codec, s, q, before, after);
    C.RebuiltRecordRefinesOriginal(c.hasher, es, C.Envelopes(before.responses));
  }

  // ----- A whole receive after a restart -----

  /** The adapter that made the attempt still holds its record, and proved it in this conversation. */
  predicate Holds(c: Config, live: State, q: Request, lost: Record, conversation: string) {
    && KnownCorrelation(live, q.correlation) && Id(q) in live.records
    && var r := live.records[Id(q)];
       && r.receipt.status == Submitted && r.baselineKnown && r.conversation == conversation
       && r.marker == lost.marker && r.baseline == lost.baseline && Key(Id(q), r) == q.correlation
  }

  /** What confirming a submission leaves alone, and what its answer says. */
  predicate Keeps(s: State, out: Out, id: string)
    requires id in s.records
  {
    && out.state.identities == s.identities && id in out.state.records && out.reply.Replied?
    && var (r, t) := (s.records[id], out.state.records[id]);
       && t.taskId == r.taskId && t.turnId == r.turnId && t.marker == r.marker
       && t.baseline == r.baseline && t.baselineKnown == r.baselineKnown && t.receipt == out.reply.receipt
       && (t.receipt.status == Submitted ==> t.receipt.conversation == Some(t.conversation))
  }

  lemma FinishKeeps(s: State, id: string, status: Status, conversation: Option<string>, code: string)
    requires id in s.records && (status == Submitted ==> conversation == Some(s.records[id].conversation))
    ensures Keeps(s, Finish(s, id, status, conversation, code), id)
  {
  }

  lemma AdoptedSuccessKeeps(s: State, id: string, conversation: string)
    requires id in s.records
    ensures Keeps(s, ConfirmSuccess(Adopt(s, id, conversation), id), id)
  {
    FinishKeeps(Adopt(s, id, conversation), id, Submitted, Some(conversation), "MARKER_CONFIRMED");
  }

  lemma JudgeKeeps(c: Config, s: State, id: string, p: Page, confirmedOnEntry: bool)
    requires id in s.records
    ensures var v := Judge(c, s, id, p, confirmedOnEntry); v.Settled? ==> Keeps(s, v.out, id)
  {
    AdoptedSuccessKeeps(s, id, p.conversation);
    var conversation := Some(s.records[id].conversation);
    FinishKeeps(s, id, Submitted, conversation, "MARKER_CONFIRMED");
    FinishKeeps(s, id, Indeterminate, conversation, "TASK_MARKER_AMBIGUOUS");
    FinishKeeps(s, id, Indeterminate, conversation, "CONVERSATION_CHANGED_AFTER_ACTIVATION");
    FinishKeeps(s, id, Indeterminate, conversation, "HOST_CHANGED_AFTER_ACTIVATION");
  }

  lemma FailKeeps(s: State, id: string, code: string)
    requires id in s.records
    ensures Keeps(s, ConfirmFail(s, id, code), id)
  {
  }

  lemma SettledOnEntryKeeps(s: State, id: string)
    requires id in s.records
    ensures var r := s.records[id];
            Keeps(s, ConfirmSuccess(Pin(Put(s, id, r.(mayMaterialize := false)), r.taskId, r.conversation), id), id)
  {
    var r := s.records[id];
    var t := Pin(Put(s, id, r.(mayMaterialize := false)), r.taskId, r.conversation);
    FinishKeeps(t, id, Submitted, Some(r.conversation), "MARKER_CONFIRMED");
  }

  lemma KeepsAfterSeeing(s: State, p: Page, id: string, out: Out)
    requires id in s.records && Keeps(See(s, p), out, id)
    ensures Keeps(s, out, id)
  {
  }

  lemma EntryKeeps(c: Config, s: State, id: string, last: Observation)
    requires id in s.records
    ensures Keeps(s, ConfirmOnEntry(c, s, id, last), id)
  {
    var out := ConfirmOnEntry(c, s, id, last);
    if last.Saw? {
      var (p, seen) := (last.page, See(s, last.page));
      var r := seen.records[id];
      if p.conversation != r.conversation && CanAdopt(c, id, r, p) {
        AdoptedSuccessKeeps(seen, id, p.conversation);
      } else if p.conversation == r.conversation && Identifies(c, p, Key(id, r), r.marker) {
        SettledOnEntryKeeps(seen, id);
      } else {
        FailKeeps(seen, id, out.reply.receipt.code);
      }
      KeepsAfterSeeing(s, p, id, out);
    } else {
      FailKeeps(s, id, out.reply.receipt.code);
    }
  }

  lemma {:induction false} ConfirmKeeps(c: Config, s: State, id: string, polls: seq<Poll>, last: Observation,
      confirmedOnEntry: bool)
    requires id in s.records
    ensures Keeps(s, Confirm(c, s, id, polls, last, confirmedOnEntry), id)
    decreases |polls|
  {
    var out := Confirm(c, s, id, polls, last, confirmedOnEntry);
    if polls == [] {
      if confirmedOnEntry {
        EntryKeeps(c, s, id, last);
      } else {
        FailKeeps(s, id, "SUBMISSION_CONFIRMATION_INCONCLUSIVE");
      }
    } else if polls[0].cancelled || !polls[0].observation.Saw? {
      if !polls[0].cancelled && s.records[id].mayMaterialize && polls[0].timeLeft {
        ConfirmKeeps(c, s, id, polls[1..], last, confirmedOnEntry);
      } else {
        FailKeeps(s, id, out.reply.receipt.code);
      }
    } else {
      var (p, seen) := (polls[0].observation.page, See(s, polls[0].observation.page));
      JudgeKeeps(c, seen, id, p, confirmedOnEntry);
      var v := Judge(c, seen, id, p, confirmedOnEntry);
      if v.Again? { ConfirmKeeps(c, seen, id, polls[1..], last, v.confirmedOnEntry); }
      KeepsAfterSeeing(s, p, id, out);
    }
  }

  lemma ClickKeeps(c: Config, s: State, q: Request, env: SubmitEnv)
    requires Id(q) in s.records
    ensures Keeps(s, Click(c, s, q, env), Id(q))
  {
    var id := Id(q);
    var r := s.records[id].(activationAttempted := true);
    var t := Pin(Put(s, id, r), q.correlation.taskId, r.conversation)
             .(clicks := s.clicks + multiset{id}, dispatched := s.dispatched + multiset{id});
    if !env.click.RefusedBeforeDispatch? { ConfirmKeeps(c, t, id, env.polls, env.last, false); }
  }

  lemma RecheckKeeps(c: Config, s: State, q: Request, env: SubmitEnv)
    requires Id(q) in s.records
    ensures Keeps(s, Recheck(c, s, q, env), Id(q))
  {
    var out := Recheck(c, s, q, env);
    var conversation := Some(s.records[Id(q)].conversation);
    if !env.second.Saw? {
      FinishKeeps(s, Id(q), NotSubmitted, conversation, out.reply.receipt.code);
    } else {
      var (p, seen) := (env.second.page, See(s, env.second.page));
      if env.usableAfterSecond && p.classification.state.Ready? && p.sendActionable
         && Some(p.conversation) == conversation {
        ClickKeeps(c, seen, q, env);
      } else {
        FinishKeeps(seen, Id(q), NotSubmitted, conversation, out.reply.receipt.code);
      }
      KeepsAfterSeeing(s, p, Id(q), out);
    }
  }

  lemma FillKeeps(c: Config, s: State, q: Request, env: SubmitEnv)
    requires Id(q) in s.records
    ensures Keeps(s, Fill(c, s, q, env), Id(q))
  {
    if env.fill.Done? {
      RecheckKeeps(c, s, q, env);
    } else {
      var receipt := Fill(c, s, q, env).reply.receipt;
      FinishKeeps(s, Id(q), receipt.status, Some(s.records[Id(q)].conversation), receipt.code);
    }
  }

  /** A submission proved at its first attempt is held with the record made on the page of that attempt. */
  lemma FirstAttemptIsHeld(c: Config, codec: TM.Codec, s: State, q: Request, env: SubmitEnv)
    requires c.scanner == TM.ScannerOf(codec) && Id(q) !in s.records && env.first.Saw?
    requires c.scanner.evidence(env.first.page.messages, q.correlation).Absent?
    requires var out := Submit(c, s, q, env); out.reply.Replied? && out.reply.receipt.status == Submitted
    ensures var out := Submit(c, s, q, env);
            && out.reply.receipt.conversation.Some?
            && Holds(c, out.state, q, Original(c, codec, s, q, env.first.page), out.reply.receipt.conversation.value)
  {
    var identity := Identity(q.correlation.taskId, q.correlation.turnId, c.hasher.ofText(q.content));
    var p := env.first.page;
    var t := See(s.(identities := s.identities[Id(q) := identity]), p);
    var texts := C.Envelopes(p.responses);
    var marker := c.scanner.marker(q.correlation, Some(TM.Baseline(|texts|, c.hasher.ofSequence(texts))));
    var created := Create(t, Id(q), CreateRecord(c, t, q, marker, p, true, None), p.onEntryRoute);
    FillKeeps(c, created, q, env);
    assert Submit(c, s, q, env) == Begin(c, t, q, p, env);
    assert Begin(c, t, q, p, env) == Fill(c, created, q, env);
  }

  /** The rebuilt record's correlator reads what the lost record's does, or gives up. */
  lemma RebuiltIsMoreCautious(c: Config, id: string, rebuilt: Record, held: Record, base: seq<string>)
    requires held.baseline == C.Recorded(c.hasher, base)
    requires rebuilt.baseline == C.Rebuilt(|base|, c.hasher.ofSequence(base))
    requires Key(id, rebuilt) == Key(id, held) && rebuilt.conversation == held.conversation
             && rebuilt.marker == held.marker
    ensures W.MoreCautious(WaitConfig(c, id, rebuilt), WaitConfig(c, id, held))
  {
    var (cautious, bold) := (WaitConfig(c, id, rebuilt), WaitConfig(c, id, held));
    forall es ensures cautious.correlate(es) == bold.correlate(es) || cautious.correlate(es).Indeterminate? {
      C.RebuiltRecordRefinesOriginal(c.hasher, es, base);
    }
  }

  /** A receive that is neither cancelled nor kept from looking at the page. */
  predicate Undisturbed(env: ReceiveEnv) {
    !env.aborted && !env.stopped && env.resolve.usable
  }

  /**
   The whole `receive` after a restart: for the same samples of the page, a new adapter ends exactly as the adapter
   that still holds the record, or gives up. What it completes with is what the other one would complete with.
   */
  lemma {:induction false} RestartedReceiveRefines(c: Config, codec: TM.Codec, s: State, q: Request, before: Page,
      after: Page, live: State, env: ReceiveEnv, samples: seq<W.Sample>)
    requires Sendable(c, codec, q, before) && ShowsMessage(c, codec, q, before, after.messages)
    requires !after.classification.state.UnapprovedHost?
    requires q.expected.Some? ==> q.expected.value == after.conversation
    requires Holds(c, live, q, Original(c, codec, s, q, before), after.conversation)
    requires Undisturbed(env) && env.samples == samples
    ensures var anew :=
            Receive(c, Initial, q, ReceiveEnv(false, false, ResolveEnv(true, Saw(after)), samples)).received;
            var held := Receive(c, live, q, env).received;
            && anew.Waited? && held.Waited?
            && (anew.outcome == held.outcome || anew.outcome.Indeterminate?)
  {
    RebuiltFromPage(c, codec, s, q, before, after);
    var rebuilt := Resolve(c, Initial, q, ResolveEnv(true, Saw(after))).state.records[Id(q)];
    var held := live.records[Id(q)];
    RebuiltIsMoreCautious(c, Id(q), rebuilt, held, C.Envelopes(before.responses));
    W.CautionRefines(WaitConfig(c, Id(q), rebuilt), WaitConfig(c, Id(q), held), samples);
  }

  /** The page still shows every response it showed before the attempt. */
  predicate ShowsAll(before: Page, p: Page) {
    C.Envelopes(before.responses) <= C.Envelopes(p.responses)
  }

  /** On a transcript that is never truncated nothing is lost: the new adapter ends exactly as the other one. */
  lemma {:induction false} RestartLosesNothingUntruncated(c: Config, codec: TM.Codec, s: State, q: Request,
      before: Page, after: Page, live: State, env: ReceiveEnv, samples: seq<W.Sample>)
    requires Sendable(c, codec, q, before) && ShowsMessage(c, codec, q, before, after.messages)
    requires !after.classification.state.UnapprovedHost?
    requires q.expected.Some? ==> q.expected.value == after.conversation
    requires Holds(c, live, q, Original(c, codec, s, q, before), after.conversation)
    requires Undisturbed(env) && env.samples == samples
    requires forall i | 0 <= i < |samples| && samples[i].observation.Saw? ::
             ShowsAll(before, samples[i].observation.page)
    ensures Receive(c, Initial, q, ReceiveEnv(false, false, ResolveEnv(true, Saw(after)), samples)).received
            == Receive(c, live, q, env).received
  {
    RebuiltFromPage(c, codec, s, q, before, after);
    var rebuilt := Resolve(c, Initial, q, ResolveEnv(true, Saw(after))).state.records[Id(q)];
    var (cautious, bold) := (WaitConfig(c, Id(q), rebuilt), WaitConfig(c, Id(q), live.records[Id(q)]));
    forall i | 0 <= i < |samples| && samples[i].observation.Saw?
      ensures var es := samples[i].observation.page.responses; cautious.correlate(es) == bold.correlate(es)
    {
      UntruncatedReadsAlike(c, before, samples[i].observation.page);
    }
    W.AgreementDecides(cautious, bold, samples);
  }

  lemma UntruncatedReadsAlike(c: Config, before: Page, p: Page)
    requires ShowsAll(before, p)
    ensures var base := C.Envelopes(before.responses);
            C.AssociatedResponse(c.hasher, p.responses, C.Rebuilt(|base|, c.hasher.ofSequence(base)))
            == C.AssociatedResponse(c.hasher, p.responses, C.Recorded(c.hasher, base))
  {
    var (base, view) := (C.Envelopes(before.responses), C.Envelopes(p.responses));
    assert view[..|base|] == base;
  }

  /** The refinement for the adapter that has just submitted the message and proved it in the conversation shown. */
  lemma {:induction false} RestartAfterSubmitRefines(c: Config, codec: TM.Codec, s: State, q: Request, env: SubmitEnv,
      after: Page, samples: seq<W.Sample>)
    requires Id(q) !in s.records && env.first.Saw? && Sendable(c, codec, q, env.first.page)
    requires c.scanner.evidence(env.first.page.messages, q.correlation).Absent?
    requires var reply := Submit(c, s, q, env).reply;
             && reply.Replied? && reply.receipt.status == Submitted
             && reply.receipt.conversation == Some(after.conversation)
    requires ShowsMessage(c, codec, q, env.first.page, after.messages)
    requires !after.classification.state.UnapprovedHost?
    requires q.expected.Some? ==> q.expected.value == after.conversation
    ensures var receiveEnv := ReceiveEnv(false, false, ResolveEnv(true, Saw(after)), samples);
            var anew := Receive(c, Initial, q, receiveEnv).received;
            var held := Receive(c, Submit(c, s, q, env).state, q, receiveEnv).received;
            && anew.Waited? && held.Waited?
            && (anew.outcome == held.outcome || anew.outcome.Indeterminate?)
  {
    FirstAttemptIsHeld(c, codec, s, q, env);
    var receiveEnv := ReceiveEnv(false, false, ResolveEnv(true, Saw(after)), samples);
    RestartedReceiveRefines(c, codec, s, q, env.first.page, after, Submit(c, s, q, env).state, receiveEnv, samples);
  }

  // ----- Markers without a usable baseline -----

  /** A proved record without a baseline is never waited for, whatever is called before and whatever the page shows. */
  lemma {:induction false} UnknownBaselineNeverAnswers(c: Config, s: State, q: Request, calls: seq<Call>,
      env: ReceiveEnv)
    requires Inv(c, s) && Id(q) in s.records
    requires s.records[Id(q)].receipt.status == Submitted && !s.records[Id(q)].baselineKnown
    ensures !Receive(c, RunFrom(c, s, calls), q, env).received.Waited?
  {
    SubmittedIsFinalInRuns(c, s, calls, Id(q));
  }

  /** Evidence without a usable baseline proves the submission and nothing more: no answer is ever read for it. */
  lemma {:induction false} UnusableMarkerNeverAnswers(c: Config, q: Request, p: Page, marker: string,
      calls: seq<Call>, env: ReceiveEnv)
    requires c.scanner.evidence(p.messages, q.correlation) == TM.Unique(marker, None)
    requires TM.ValidCorrelation(q.correlation) && !p.classification.state.UnapprovedHost?
    requires q.expected.Some? ==> q.expected.value == p.conversation
    ensures var out := Resolve(c, Initial, q, ResolveEnv(true, Saw(p)));
            && out.reply.Replied? && out.reply.receipt.status == Submitted
            && !Receive(c, RunFrom(c, out.state, calls), q, env).received.Waited?
  {
    var first := ResolveCall(q, ResolveEnv(true, Saw(p)));
    assert forall id: string :: Ok(c, Initial, id);
    PerformKeepsInv(c, Initial, first);
    UnknownBaselineNeverAnswers(c, Resolve(c, Initial, q, first.resolveEnv).state, q, calls, env);
  }

  /** Nor if a submit recognises it, in whatever state the adapter is, as long as the submission is new to it. */
  lemma {:induction false} UnusableMarkerOnSubmitNeverAnswers(c: Config, earlier: seq<Call>, q: Request, env: SubmitEnv,
      marker: string, calls: seq<Call>, receiveEnv: ReceiveEnv)
    requires env.usable && env.first.Saw? && env.usableAfterFirst
    requires TM.ValidCorrelation(q.correlation) && TM.ValidContent(q.content, c.maxMessageChars)
    requires var (s, p) := (Run(c, earlier), env.first.page);
             && Id(q) !in s.records && Id(q) !in s.identities
             && c.scanner.evidence(p.messages, q.correlation) == TM.Unique(marker, None)
             && p.classification.state.Ready? && (q.expected.Some? ==> q.expected.value == p.conversation)
             && (Pinned(s, q.correlation.taskId).Some? ==> Pinned(s, q.correlation.taskId).value == p.conversation)
    ensures var out := Submit(c, Run(c, earlier), q, env);
            && out.reply.Replied? && out.reply.receipt.status == Submitted && out.reply.receipt.marker == marker
            && out.state.clicks == Run(c, earlier).clicks
            && !Receive(c, RunFrom(c, out.state, calls), q, receiveEnv).received.Waited?
  {
    var s := Run(c, earlier);
    RunKeepsInv(c, earlier);
    PerformKeepsInv(c, s, SubmitCall(q, env));
    UnknownBaselineNeverAnswers(c, Submit(c, s, q, env).state, q, calls, receiveEnv);
  }

  /** The page shows one message with a historical marker for the correlation, among messages foreign to it. */
  ghost predicate ShowsHistorical(c: Config, codec: TM.Codec, key: TM.Correlation, v: TM.Historical,
      messages: seq<string>) {
    exists content: string, front: seq<string>, back: seq<string> ::
      && TM.ValidContent(content, c.maxMessageChars)
      && Between(codec, key, TM.FullContent(content, TM.HistoricalMarker(codec, key, v)), messages, front, back)
  }

  lemma HistoricalIsRecognised(c: Config, codec: TM.Codec, key: TM.Correlation, v: TM.Historical, messages: seq<string>)
    requires c.scanner == TM.ScannerOf(codec) && TM.Lawful(codec) && TM.ValidCorrelation(key) && TM.ValidHistorical(v)
    requires ShowsHistorical(c, codec, key, v, messages)
    ensures c.scanner.evidence(messages, key) == TM.Unique(TM.HistoricalMarker(codec, key, v), None)
  {
    var content: string, front: seq<string>, back: seq<string> :|
      && TM.ValidContent(content, c.maxMessageChars)
      && Between(codec, key, TM.FullContent(content, TM.HistoricalMarker(codec, key, v)), messages, front, back);
    TM.HistoricalMessageIsUnique(codec, front, content, c.maxMessageChars, back, key, v);
  }

  /**
   A message sent by an earlier version, with any of its markers, proves its submission to a new adapter, and no
   later receive ever waits for an answer to it.
   */
  lemma {:induction false} LegacyMarkerNeverAnswers(c: Config, codec: TM.Codec, q: Request, p: Page, v: TM.Historical,
      calls: seq<Call>, env: ReceiveEnv)
    requires c.scanner == TM.ScannerOf(codec) && TM.Lawful(codec)
    requires TM.ValidCorrelation(q.correlation) && TM.ValidHistorical(v)
    requires ShowsHistorical(c, codec, q.correlation, v, p.messages) && !p.classification.state.UnapprovedHost?
    requires q.expected.Some? ==> q.expected.value == p.conversation
    ensures var out := Resolve(c, Initial, q, ResolveEnv(true, Saw(p)));
            && out.reply == Replied(Receipt(Submitted, Some(p.conversation),
                                            TM.HistoricalMarker(codec, q.correlation, v), "MARKER_CONFIRMED"))
            && !Receive(c, RunFrom(c, out.state, calls), q, env).received.Waited?
  {
    HistoricalIsRecognised(c, codec, q.correlation, v, p.messages);
    UnusableMarkerNeverAnswers(c, q, p, TM.HistoricalMarker(codec, q.correlation, v), calls, env);
  }

  /** The same when a submit meets such a message: it is answered as submitted without a click. */
  lemma {:induction false} LegacyMarkerOnSubmitNeverAnswers(c: Config, codec: TM.Codec, earlier: seq<Call>, q: Request,
      env: SubmitEnv, v: TM.Historical, calls: seq<Call>, receiveEnv: ReceiveEnv)
    requires c.scanner == TM.ScannerOf(codec) && TM.Lawful(codec) && TM.ValidHistorical(v)
    requires env.usable && env.first.Saw? && env.usableAfterFirst
    requires TM.ValidCorrelation(q.correlation) && TM.ValidContent(q.content, c.maxMessageChars)
    requires var (s, p) := (Run(c, earlier), env.first.page);
             && Id(q) !in s.records && Id(q) !in s.identities
             && ShowsHistorical(c, codec, q.correlation, v, p.messages)
             && p.classification.state.Ready? && (q.expected.Some? ==> q.expected.value == p.conversation)
             && (Pinned(s, q.correlation.taskId).Some? ==> Pinned(s, q.correlation.taskId).value == p.conversation)
    ensures var out := Submit(c, Run(c, earlier), q, env);
            && out.reply.Replied? && out.reply.receipt.status == Submitted
            && out.reply.receipt.marker == TM.HistoricalMarker(codec, q.correlation, v)
            && out.state.clicks == Run(c, earlier).clicks
            && !Receive(c, RunFrom(c, out.state, calls), q, receiveEnv).received.Waited?
  {
    var marker := TM.HistoricalMarker(codec, q.correlation, v);
    HistoricalIsRecognised(c, codec, q.correlation, v, env.first.page.messages);
    UnusableMarkerOnSubmitNeverAnswers(c, earlier, q, env, marker, calls, receiveEnv);
  }
}
