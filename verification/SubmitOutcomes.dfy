/**
 What a submit does and answers, told from its inputs alone: which guards must pass before the one click is issued,
 and the receipt that each failing guard gives. Resolving and confirming are told in the same way.
 */
module SubmitOutcomes {
  import opened Basics
  import opened BrowserPage
  import TM = TaskMarker
  import C = ResponseCorrelation
  import opened A = BrowserAdapter
  import S = SubmissionOverPage

  // ----- The guards of a submit, in their order -----

  function IdentityOf(c: Config, q: Request): Identity {
    Identity(q.correlation.taskId, q.correlation.turnId, c.hasher.ofText(q.content))
  }

  /** The adapter is usable, the request is well formed, and its id was never used for another message. */
  predicate Accepted(c: Config, s: State, q: Request, env: SubmitEnv) {
    && env.usable && TM.ValidCorrelation(q.correlation) && TM.ValidContent(q.content, c.maxMessageChars)
    && (Id(q) in s.identities ==> s.identities[Id(q)] == IdentityOf(c, q))
  }

  predicate SameMessage(c: Config, r: Record, q: Request) {
    && r.taskId == q.correlation.taskId && r.turnId == q.correlation.turnId
    && r.contentSha256 == c.hasher.ofText(q.content)
  }

  predicate AsExpected(q: Request, p: Page) {
    q.expected.Some? ==> q.expected.value == p.conversation
  }

  /** A look at the page shows that the earlier attempt was never activated: the record says so, without a marker. */
  predicate ShowsUnsent(c: Config, r: Record, q: Request, env: ResolveEnv) {
    && env.usable && env.observation.Saw?
    && var (p, e) := (env.observation.page, c.scanner.evidence(env.observation.page.messages, q.correlation));
       && !e.Ambiguous? && !p.classification.state.UnapprovedHost? && p.conversation == r.conversation
       && AsExpected(q, p)
       && !(e.Unique? && e.marker == r.marker) && !r.activationAttempted
  }

  /** A known submission may be attempted again only once it is known not to have been submitted. */
  predicate MayAttempt(c: Config, s: State, q: Request, env: SubmitEnv) {
    && Accepted(c, s, q, env)
    && (Id(q) in s.records ==>
          && SameMessage(c, s.records[Id(q)], q)
          && match s.records[Id(q)].receipt.status
             case Submitted => false
             case Indeterminate => ShowsUnsent(c, s.records[Id(q)], q, env.resolve)
             case NotSubmitted => true)
  }

  /** The page is ready, in the expected conversation, and in the one its task is pinned to. */
  predicate Trusted(s: State, q: Request, p: Page) {
    && p.classification.state.Ready? && AsExpected(q, p)
    && (q.correlation.taskId in s.conversations ==> s.conversations[q.correlation.taskId] == p.conversation)
  }

  predicate LooksFirst(c: Config, s: State, q: Request, env: SubmitEnv) {
    MayAttempt(c, s, q, env) && env.first.Saw? && env.usableAfterFirst
  }

  /** The first look is trusted, and shows no trace of the submission. */
  predicate MayFill(c: Config, s: State, q: Request, env: SubmitEnv) {
    && LooksFirst(c, s, q, env) && Trusted(s, q, env.first.page)
    && c.scanner.evidence(env.first.page.messages, q.correlation).Absent?
  }

  /** The message is in the composer, and the second look is ready, in the same conversation, and can send. */
  predicate MaySend(c: Config, s: State, q: Request, env: SubmitEnv) {
    && MayFill(c, s, q, env) && env.fill.Done? && env.second.Saw? && env.usableAfterSecond
    && var p := env.second.page;
       p.classification.state.Ready? && p.conversation == env.first.page.conversation && p.sendActionable
  }

  /** The marker of an attempt on this page. */
  function OwnMarker(c: Config, q: Request, p: Page): string {
    var texts := C.Envelopes(p.responses);
    c.scanner.marker(q.correlation, Some(TM.Baseline(|texts|, c.hasher.ofSequence(texts))))
  }

  function BareMarker(c: Config, q: Request): string {
    c.scanner.marker(q.correlation, None)
  }

  // ----- The state an attempt starts from -----

  /** Where an attempt starts: the identity is registered, and everything a guard or a click looks at is untouched. */
  predicate AttemptsFrom(s: State, t: State) {
    t.conversations == s.conversations && t.clicks == s.clicks && t.dispatched == s.dispatched
  }

  lemma RetryStart(c: Config, s: State, q: Request, env: ResolveEnv)
    requires Id(q) in s.records && SameMessage(c, s.records[Id(q)], q) && TM.ValidCorrelation(q.correlation)
    requires Id(q) in s.identities && s.identities[Id(q)] == IdentityOf(c, q)
    requires s.records[Id(q)].receipt.status != Submitted
    ensures var out := Resolve(c, s, q, env);
            && (RepliesNotSubmitted(out.reply) <==> ShowsUnsent(c, s.records[Id(q)], q, env))
            && (RepliesNotSubmitted(out.reply) ==> AttemptsFrom(s, out.state))
  {
  }

  lemma SubmitAttempts(c: Config, s: State, q: Request, env: SubmitEnv) returns (t: State)
    requires MayAttempt(c, s, q, env)
    ensures AttemptsFrom(s, t) && Submit(c, s, q, env) == Attempt(c, t, q, env)
  {
    t := s.(identities := s.identities[Id(q) := IdentityOf(c, q)]);
    if Id(q) in s.records && s.records[Id(q)].receipt.status == Indeterminate {
      RetryStart(c, t, q, env.resolve);
      t := Resolve(c, t, q, env.resolve).state;
    }
  }

  lemma NoAttemptClicksNothing(c: Config, s: State, q: Request, env: SubmitEnv)
    requires !MayAttempt(c, s, q, env)
    ensures var t := Submit(c, s, q, env).state; t.clicks == s.clicks && t.dispatched == s.dispatched
  {
    if Accepted(c, s, q, env) && Id(q) in s.records && SameMessage(c, s.records[Id(q)], q)
       && s.records[Id(q)].receipt.status == Indeterminate {
      var t := s.(identities := s.identities[Id(q) := IdentityOf(c, q)]);
      RetryStart(c, t, q, env.resolve);
      ResolveNeverClicks(c, t, q, env.resolve);
    }
  }

  // ----- The click -----

  /** `t` is `s` with these clicks on top. */
  predicate Adds(s: State, t: State, clicked: multiset<string>, dispatched: multiset<string>) {
    t.clicks == s.clicks + clicked && t.dispatched == s.dispatched + dispatched
  }

  lemma ClickAdds(c: Config, s: State, q: Request, env: SubmitEnv)
    requires Id(q) in s.records
    ensures var id := multiset{Id(q)};
            Adds(s, Click(c, s, q, env).state, id, if env.click.RefusedBeforeDispatch? then multiset{} else id)
  {
    var id := Id(q);
    var r := s.records[id].(activationAttempted := true);
    var t := Pin(Put(s, id, r), q.correlation.taskId, r.conversation)
             .(clicks := s.clicks + multiset{id}, dispatched := s.dispatched + multiset{id});
    S.ConfirmClicksNothing(c, t, id, env.polls, env.last, false);
  }

  /** The second look, given the conversation of the attempt. */
  predicate SecondLookPasses(env: SubmitEnv, conversation: string) {
    && env.fill.Done? && env.second.Saw? && env.usableAfterSecond
    && var p := env.second.page; p.classification.state.Ready? && p.conversation == conversation && p.sendActionable
  }

  lemma FillAdds(c: Config, s: State, q: Request, env: SubmitEnv)
    requires Id(q) in s.records
    ensures var sent := SecondLookPasses(env, s.records[Id(q)].conversation);
            Adds(s, Fill(c, s, q, env).state, if sent then multiset{Id(q)} else multiset{},
                 if sent && !env.click.RefusedBeforeDispatch? then multiset{Id(q)} else multiset{})
  {
    if SecondLookPasses(env, s.records[Id(q)].conversation) {
      ClickAdds(c, See(s, env.second.page), q, env);
      assert Fill(c, s, q, env) == Click(c, See(s, env.second.page), q, env);
    }
  }

  /** The record an attempt creates on the page of its first look. */
  function Attempted(c: Config, t: State, q: Request, p: Page): State {
    Create(See(t, p), Id(q), CreateRecord(c, See(t, p), q, OwnMarker(c, q, p), p, true, None), p.onEntryRoute)
  }

  lemma AttemptFills(c: Config, s: State, q: Request, env: SubmitEnv, t: State)
    requires MayFill(c, s, q, env) && AttemptsFrom(s, t)
    ensures Attempt(c, t, q, env) == Fill(c, Attempted(c, t, q, env.first.page), q, env)
  {
    var (p, t1) := (env.first.page, See(t, env.first.page));
    assert Pinned(t1, q.correlation.taskId) == Pinned(s, q.correlation.taskId);
    assert Attempt(c, t, q, env) == AttemptOnPage(c, t1, q, p, env);
    assert AttemptOnPage(c, t1, q, p, env) == Begin(c, t1, q, p, env);
  }

  /** Meeting the submission on the page, as its unique marker or as an ambiguous one, never leads to a click. */
  lemma MetAdds(c: Config, t: State, q: Request, p: Page, env: SubmitEnv)
    requires !c.scanner.evidence(p.messages, q.correlation).Absent?
    ensures Adds(t, Begin(c, t, q, p, env).state, multiset{}, multiset{})
  {
  }

  lemma NoFillAdds(c: Config, s: State, q: Request, env: SubmitEnv, t: State)
    requires MayAttempt(c, s, q, env) && !MayFill(c, s, q, env) && AttemptsFrom(s, t)
    ensures Adds(s, Attempt(c, t, q, env).state, multiset{}, multiset{})
  {
    if LooksFirst(c, s, q, env) && Trusted(s, q, env.first.page) {
      var t1 := See(t, env.first.page);
      assert Pinned(t1, q.correlation.taskId) == Pinned(s, q.correlation.taskId);
      assert Attempt(c, t, q, env) == Begin(c, t1, q, env.first.page, env);
      MetAdds(c, t1, q, env.first.page, env);
    }
  }

  /**
   A submit issues its one click exactly when every guard passes: the call is accepted and may be attempted, both
   looks at the page succeeded, were ready and followed by a usable adapter, all conversations agree, the page shows
   no trace of the submission, the fill returned, and the send control is actionable. Nothing else ever clicks, and
   only a click that was not refused counts as dispatched.
   */
  lemma {:induction false} ClicksExactlyWhen(c: Config, s: State, q: Request, env: SubmitEnv)
    ensures var sent := MaySend(c, s, q, env);
            Adds(s, Submit(c, s, q, env).state, if sent then multiset{Id(q)} else multiset{},
                 if sent && !env.click.RefusedBeforeDispatch? then multiset{Id(q)} else multiset{})
  {
    if !MayAttempt(c, s, q, env) {
      NoAttemptClicksNothing(c, s, q, env);
    } else {
      var t := SubmitAttempts(c, s, q, env);
      if MayFill(c, s, q, env) {
        AttemptFills(c, s, q, env, t);
        FillAdds(c, Attempted(c, t, q, env.first.page), q, env);
      } else {
        NoFillAdds(c, s, q, env, t);
      }
    }
  }

  // ----- What each failing guard answers -----

  /** A call that is not accepted changes nothing. */
  lemma {:induction false} UnacceptedReplies(c: Config, s: State, q: Request, env: SubmitEnv)
    requires !Accepted(c, s, q, env)
    ensures var out := Submit(c, s, q, env);
            && out.state == s
            && out.reply == Raised(
                 if !env.usable then "UNUSABLE" else if !TM.ValidCorrelation(q.correlation) then "INVALID_CORRELATION"
                 else if !TM.ValidContent(q.content, c.maxMessageChars) then "PROTOCOL_INVALID"
                 else "DUPLICATE_OPERATION")
  {
  }

  /** A known submission that may not be attempted again: no record changes except as its resolution changes it. */
  lemma {:induction false} KnownReplies(c: Config, s: State, q: Request, env: SubmitEnv)
    requires Accepted(c, s, q, env) && !MayAttempt(c, s, q, env)
    ensures var (out, r) := (Submit(c, s, q, env), s.records[Id(q)]);
            var t := s.(identities := s.identities[Id(q) := IdentityOf(c, q)]);
            && (!SameMessage(c, r, q) ==> out == Out(t, Raised("DUPLICATE_OPERATION")))
            && (SameMessage(c, r, q) && r.receipt.status == Submitted ==> out == Out(t, Replied(r.receipt)))
            && (SameMessage(c, r, q) && r.receipt.status == Indeterminate ==>
                  out == Resolve(c, t, q, env.resolve) && !RepliesNotSubmitted(out.reply))
  {
    var t := s.(identities := s.identities[Id(q) := IdentityOf(c, q)]);
    var r := s.records[Id(q)];
    if SameMessage(c, r, q) && r.receipt.status == Indeterminate { RetryStart(c, t, q, env.resolve); }
  }

  /** What the first look answers when the message may not be filled in; the receipts name the page's conversation. */
  lemma {:induction false} FirstLookReplies(c: Config, s: State, q: Request, env: SubmitEnv)
    requires MayAttempt(c, s, q, env) && !MayFill(c, s, q, env)
    ensures var reply := Submit(c, s, q, env).reply;
            && (!env.first.Saw? ==> reply == Raised("PAGE_OBSERVATION_FAILED"))
            && (env.first.Saw? && !env.usableAfterFirst ==> reply == Raised("UNUSABLE"))
            && (LooksFirst(c, s, q, env) ==>
                  var (p, e) := (env.first.page, c.scanner.evidence(env.first.page.messages, q.correlation));
                  reply == Replied(
                    if !p.classification.state.Ready? then
                      Receipt(NotSubmitted, None, BareMarker(c, q), p.classification.code)
                    else if !AsExpected(q, p) then
                      Receipt(NotSubmitted, Some(p.conversation), BareMarker(c, q), "CONVERSATION_MISMATCH")
                    else if !Trusted(s, q, p) then
                      Receipt(NotSubmitted, Some(p.conversation), BareMarker(c, q), "TASK_CONVERSATION_MISMATCH")
                    else if e.Unique? then Receipt(Submitted, Some(p.conversation), e.marker, "MARKER_RECOVERED")
                    else Receipt(Indeterminate, Some(p.conversation), OwnMarker(c, q, p), "TASK_MARKER_AMBIGUOUS")))
  {
    var t := SubmitAttempts(c, s, q, env);
    if LooksFirst(c, s, q, env) {
      var t1 := See(t, env.first.page);
      assert Pinned(t1, q.correlation.taskId) == Pinned(s, q.correlation.taskId);
      if Trusted(s, q, env.first.page) { assert Attempt(c, t, q, env) == Begin(c, t1, q, env.first.page, env); }
    }
  }

  /** The record of a first look that goes no further: no baseline unless the page's own marker carries a usable one. */
  predicate FirstLookRecord(c: Config, s: State, q: Request, p: Page, out: Out) {
    var e := c.scanner.evidence(p.messages, q.correlation);
    && Id(q) in out.state.records
    && var r := out.state.records[Id(q)];
       && Key(Id(q), r) == q.correlation && r.conversation == p.conversation && !r.activationAttempted
       && Replied(r.receipt) == out.reply && r.marker == r.receipt.marker
       && (r.baselineKnown <==> Trusted(s, q, p) && e.Unique? && e.baseline.Some?)
       && (r.baselineKnown ==> r.baseline == C.Rebuilt(e.baseline.value.count, e.baseline.value.sequenceSha256))
       && (!Trusted(s, q, p) ==> !r.mayMaterialize)
  }

  lemma StoredRecord(c: Config, s: State, q: Request, p: Page, t: State, code: string)
    requires !Trusted(s, q, p)
    ensures var out := StoreKnownNotSubmitted(c, t, q, code, Some(p.conversation));
            FirstLookRecord(c, s, q, p, out) && out.state.conversations == t.conversations
  {
  }

  /** A record that is created and receives its receipt in the same step. */
  lemma CreatedAndFinished(t: State, id: string, r: Record, onEntryRoute: bool, pin: Option<string>, status: Status,
      code: string)
    ensures var created := Create(t, id, r, onEntryRoute);
            var ready := if pin.Some? then Pin(created, pin.value, r.conversation) else created;
            var out := Finish(ready, id, status, Some(r.conversation), code);
            && id in out.state.records
            && out.state.records[id] == r.(receipt := Receipt(status, Some(r.conversation), r.marker, code))
            && out.reply == Replied(out.state.records[id].receipt)
            && out.state.conversations ==
               if pin.Some? then t.conversations[pin.value := r.conversation] else t.conversations
  {
  }

  lemma MetRecord(c: Config, s: State, q: Request, p: Page, t: State, env: SubmitEnv)
    requires Trusted(s, q, p) && !c.scanner.evidence(p.messages, q.correlation).Absent?
    ensures var out := Begin(c, t, q, p, env);
            && FirstLookRecord(c, s, q, p, out)
            && out.state.conversations ==
               if c.scanner.evidence(p.messages, q.correlation).Unique?
               then t.conversations[q.correlation.taskId := p.conversation] else t.conversations
  {
    match c.scanner.evidence(p.messages, q.correlation)
    case Unique(found, baseline) =>
      var r := CreateRecord(c, t, q, found, p, baseline.Some?, baseline);
      CreatedAndFinished(t, Id(q), r, p.onEntryRoute, Some(q.correlation.taskId), Submitted, "MARKER_RECOVERED");
    case Ambiguous =>
      var r := CreateRecord(c, t, q, OwnMarker(c, q, p), p, false, None);
      CreatedAndFinished(t, Id(q), r, p.onEntryRoute, None, Indeterminate, "TASK_MARKER_AMBIGUOUS");
  }

  lemma {:induction false} FirstLookRecords(c: Config, s: State, q: Request, env: SubmitEnv)
    requires LooksFirst(c, s, q, env) && env.first.page.classification.state.Ready? && !MayFill(c, s, q, env)
    ensures var (out, p) := (Submit(c, s, q, env), env.first.page);
            && FirstLookRecord(c, s, q, p, out)
            && out.state.conversations ==
               if Trusted(s, q, p) && c.scanner.evidence(p.messages, q.correlation).Unique?
               then s.conversations[q.correlation.taskId := p.conversation] else s.conversations
  {
    var t := SubmitAttempts(c, s, q, env);
    var (p, t1) := (env.first.page, See(t, env.first.page));
    assert Pinned(t1, q.correlation.taskId) == Pinned(s, q.correlation.taskId);
    assert Attempt(c, t, q, env) == AttemptOnPage(c, t1, q, p, env);
    if Trusted(s, q, p) {
      MetRecord(c, s, q, p, t1, env);
    } else {
      StoredRecord(c, s, q, p, t1, "CONVERSATION_MISMATCH");
      StoredRecord(c, s, q, p, t1, "TASK_CONVERSATION_MISMATCH");
    }
  }

  /** What is answered after the first look, before the click: the receipt of the guard that fails first. */
  function UnsentReceipt(c: Config, q: Request, env: SubmitEnv): Receipt
    requires env.first.Saw?
  {
    var p := env.first.page;
    var (status, code) :=
      match env.fill
      case RefusedBeforeDispatch(why) => (NotSubmitted, why)
      case Failed => (Indeterminate, "COMPOSER_FILL_INDETERMINATE")
      case Done =>
        (NotSubmitted,
         if !env.second.Saw? || !env.usableAfterSecond then "PRE_SUBMISSION_ASSERTION_ABORTED"
         else if !env.second.page.classification.state.Ready? then env.second.page.classification.code
         else if env.second.page.conversation != p.conversation then "CONVERSATION_CHANGED_BEFORE_SUBMIT"
         else "SEND_CONTROL_NOT_ACTIONABLE");
    Receipt(status, Some(p.conversation), OwnMarker(c, q, p), code)
  }

  /** The record of an attempt on a first page: what a later confirmation, resolution or receive goes by. */
  predicate AttemptRecord(c: Config, s: State, q: Request, p: Page, r: Record) {
    && r.taskId == q.correlation.taskId && r.turnId == q.correlation.turnId
    && r.contentSha256 == c.hasher.ofText(q.content) && r.marker == OwnMarker(c, q, p)
    && r.conversation == p.conversation && r.baselineKnown
    && r.baseline == C.Recorded(c.hasher, C.Envelopes(p.responses))
    && (r.mayMaterialize <==> q.expected.None? && q.correlation.taskId !in s.conversations && p.onEntryRoute)
  }

  /** An attempt that ends before its click leaves its record unactivated and no conversation pinned. */
  lemma {:induction false} UnsentReplies(c: Config, s: State, q: Request, env: SubmitEnv)
    requires MayFill(c, s, q, env) && !MaySend(c, s, q, env)
    ensures var out := Submit(c, s, q, env);
            && out.reply == Replied(UnsentReceipt(c, q, env)) && out.state.conversations == s.conversations
            && Id(q) in out.state.records
            && var r := out.state.records[Id(q)];
               AttemptRecord(c, s, q, env.first.page, r) && !r.activationAttempted && Replied(r.receipt) == out.reply
  {
    var t := SubmitAttempts(c, s, q, env);
    AttemptFills(c, s, q, env, t);
    UnsentFill(c, Attempted(c, t, q, env.first.page), q, env);
  }

  lemma UnsentFill(c: Config, t: State, q: Request, env: SubmitEnv)
    requires env.first.Saw? && Id(q) in t.records && t.records[Id(q)].conversation == env.first.page.conversation
    requires t.records[Id(q)].marker == OwnMarker(c, q, env.first.page)
    requires !SecondLookPasses(env, env.first.page.conversation)
    ensures var (out, receipt) := (Fill(c, t, q, env), UnsentReceipt(c, q, env));
            && out.reply == Replied(receipt) && out.state.conversations == t.conversations
            && out.state.records == t.records[Id(q) := t.records[Id(q)].(receipt := receipt)]
  {
    if env.fill.Done? {
      assert Fill(c, t, q, env) == Recheck(c, t, q, env);
    }
  }

  /** A refused click is taken back: the receipt carries its code, record and pinned conversations are as before it. */
  lemma {:induction false} RefusedClickReplies(c: Config, s: State, q: Request, env: SubmitEnv)
    requires MaySend(c, s, q, env) && env.click.RefusedBeforeDispatch?
    ensures var (out, p) := (Submit(c, s, q, env), env.first.page);
            && out.reply == Replied(Receipt(NotSubmitted, Some(p.conversation), OwnMarker(c, q, p), env.click.code))
            && out.state.conversations == s.conversations && Id(q) in out.state.records
            && var r := out.state.records[Id(q)];
               AttemptRecord(c, s, q, p, r) && !r.activationAttempted && Replied(r.receipt) == out.reply
  {
    var t := SubmitAttempts(c, s, q, env);
    AttemptFills(c, s, q, env, t);
    var there := See(Attempted(c, t, q, env.first.page), env.second.page);
    RefusedClickRecords(c, there, q, env);
    RefusedClickPins(c, there, q, env);
  }

  lemma RefusedClickRecords(c: Config, t: State, q: Request, env: SubmitEnv)
    requires Id(q) in t.records && env.click.RefusedBeforeDispatch?
    ensures var (out, r) := (Click(c, t, q, env), t.records[Id(q)]);
            var receipt := Receipt(NotSubmitted, Some(r.conversation), r.marker, env.click.code);
            && out.reply == Replied(receipt)
            && out.state.records == t.records[Id(q) := r.(activationAttempted := false, receipt := receipt)]
  {
  }

  lemma RefusedClickPins(c: Config, t: State, q: Request, env: SubmitEnv)
    requires Id(q) in t.records && env.click.RefusedBeforeDispatch?
    requires q.correlation.taskId in t.conversations ==>
               t.conversations[q.correlation.taskId] == t.records[Id(q)].conversation
    ensures Click(c, t, q, env).state.conversations == t.conversations
  {
    var (task, conversation) := (q.correlation.taskId, t.records[Id(q)].conversation);
    var pinned := t.conversations[task := conversation];
    assert Click(c, t, q, env).state.conversations
           == if Pinned(t, task).Some? then pinned else pinned - {task};
  }

  // ----- Resolving -----

  /** The request fits what the adapter knows of its id. */
  predicate FitsKnown(s: State, q: Request) {
    var key := q.correlation;
    && (Id(q) in s.identities ==> s.identities[Id(q)].taskId == key.taskId && s.identities[Id(q)].turnId == key.turnId)
    && (Id(q) in s.records ==> s.records[Id(q)].taskId == key.taskId && s.records[Id(q)].turnId == key.turnId)
  }

  predicate KnownSubmitted(s: State, q: Request) {
    Id(q) in s.records && s.records[Id(q)].receipt.status == Submitted
  }

  /** A resolution looks at the page: nothing is wrong with the call, and the answer is not known yet. */
  predicate Resolves(s: State, q: Request, env: ResolveEnv) {
    && env.usable && TM.ValidCorrelation(q.correlation) && FitsKnown(s, q) && !KnownSubmitted(s, q)
    && env.observation.Saw?
  }

  /** The record moves to the page's conversation: created on the entry route, never moved, and its marker is there. */
  predicate Follows(c: Config, s: State, q: Request, p: Page) {
    && Id(q) in s.records && s.records[Id(q)].conversation != p.conversation && s.records[Id(q)].mayMaterialize
    && Identifies(c, p, q.correlation, s.records[Id(q)].marker)
  }

  /** The page is where the submission is, as far as the adapter and the caller know. */
  predicate InPlace(s: State, q: Request, p: Page) {
    AsExpected(q, p) && (Id(q) in s.records ==> s.records[Id(q)].conversation == p.conversation)
  }

  /** The marker in the receipt of a resolution. */
  function ResolvedMarker(c: Config, s: State, q: Request, p: Page): string {
    var e := c.scanner.evidence(p.messages, q.correlation);
    if Id(q) in s.records then s.records[Id(q)].marker else if e.Unique? then e.marker else BareMarker(c, q)
  }

  /**
   A resolution answers `submitted` exactly if that was known, or the page identifies the submission by its unique
   marker on an approved host, in its place or where the record may follow it. It answers `not-submitted` exactly if
   the page shows no such marker in place and the record says that nothing was activated.
   */
  lemma {:induction false} ResolvedExactlyWhen(c: Config, s: State, q: Request, env: ResolveEnv)
    ensures var reply := Resolve(c, s, q, env).reply;
            && (reply.Replied? && reply.receipt.status == Submitted <==>
                  && env.usable && TM.ValidCorrelation(q.correlation) && FitsKnown(s, q)
                  && (KnownSubmitted(s, q)
                      || (env.observation.Saw?
                          && var p := env.observation.page;
                             && Identifies(c, p, q.correlation, ResolvedMarker(c, s, q, p))
                             && !p.classification.state.UnapprovedHost? && (InPlace(s, q, p) || Follows(c, s, q, p)))))
            && (RepliesNotSubmitted(reply) <==>
                  && Resolves(s, q, env) && Id(q) in s.records && ShowsUnsent(c, s.records[Id(q)], q, env))
  {
  }

  /** What a resolution answers when it fails, or cannot tell. */
  lemma {:induction false} UnresolvedReplies(c: Config, s: State, q: Request, env: ResolveEnv)
    ensures var out := Resolve(c, s, q, env);
            && (!env.usable ==> out == Out(s, Raised("UNUSABLE")))
            && (env.usable && !TM.ValidCorrelation(q.correlation) ==> out == Out(s, Raised("INVALID_CORRELATION")))
            && (env.usable && TM.ValidCorrelation(q.correlation) && !FitsKnown(s, q) ==>
                  out == Out(s, Raised("DUPLICATE_OPERATION")))
            && (env.usable && TM.ValidCorrelation(q.correlation) && FitsKnown(s, q) && KnownSubmitted(s, q) ==>
                  out == Out(s, Replied(s.records[Id(q)].receipt)))
            && (env.usable && TM.ValidCorrelation(q.correlation) && FitsKnown(s, q) && !KnownSubmitted(s, q) ==>
                  Resolves(s, q, env) || out == Out(s, Raised("PAGE_OBSERVATION_FAILED")))
    ensures Resolves(s, q, env) ==>
              var (reply, p) := (Resolve(c, s, q, env).reply, env.observation.page);
              var (e, conversation) := (c.scanner.evidence(p.messages, q.correlation), Some(p.conversation));
              var marker := ResolvedMarker(c, s, q, p);
              && (e.Ambiguous? ==>
                    reply == Replied(Receipt(Indeterminate, conversation, marker, "TASK_MARKER_AMBIGUOUS")))
              && (!e.Ambiguous? && p.classification.state.UnapprovedHost? ==>
                    reply == Replied(Receipt(Indeterminate, None, marker, "HOST_NOT_APPROVED")))
              && (!e.Ambiguous? && !p.classification.state.UnapprovedHost? && !Follows(c, s, q, p) ==>
                    && (!AsExpected(q, p) ==>
                          reply == Replied(Receipt(Indeterminate, conversation, marker, "CONVERSATION_MISMATCH")))
                    && (AsExpected(q, p) && !InPlace(s, q, p) ==>
                          reply ==
                          Replied(Receipt(Indeterminate, conversation, marker, "CONVERSATION_CHANGED_AFTER_ATTEMPT")))
                    && (InPlace(s, q, p) && !(e.Unique? && e.marker == marker) ==>
                          reply == Replied(
                            if Id(q) !in s.records then
                              Receipt(Indeterminate, conversation, marker, "NO_LOCAL_SUBMISSION_RECORD")
                            else if s.records[Id(q)].activationAttempted then
                              Receipt(Indeterminate, conversation, marker, "SUBMISSION_EVIDENCE_INCONCLUSIVE")
                            else Receipt(NotSubmitted, conversation, marker, "ACTIVATION_NOT_ATTEMPTED"))))
  {
  }

  /** The record a successful resolution leaves: the one there was, or one rebuilt from the page's marker. */
  predicate ResolvedRecord(c: Config, s: State, q: Request, p: Page, out: Out) {
    var e := c.scanner.evidence(p.messages, q.correlation);
    && e.Unique? && out.reply == Replied(Receipt(Submitted, Some(p.conversation), e.marker, "MARKER_CONFIRMED"))
    && out.state.conversations == s.conversations[q.correlation.taskId := p.conversation]
    && Id(q) in out.state.records
    && var r := out.state.records[Id(q)];
       && r.marker == e.marker && r.conversation == p.conversation && Replied(r.receipt) == out.reply
       && (Id(q) in s.records ==>
             r.baseline == s.records[Id(q)].baseline && r.baselineKnown == s.records[Id(q)].baselineKnown)
       && (Id(q) !in s.records ==>
             && (r.baselineKnown <==> e.baseline.Some?)
             && (e.baseline.Some? ==>
                   r.baseline == C.Rebuilt(e.baseline.value.count, e.baseline.value.sequenceSha256)))
  }

  lemma ResolvedInPlace(c: Config, s: State, q: Request, p: Page)
    requires Identifies(c, p, q.correlation, ResolvedMarker(c, s, q, p))
    requires Id(q) in s.records ==> s.records[Id(q)].conversation == p.conversation
    ensures ResolvedRecord(c, s, q, p, ResolveInPlace(c, s, q, p, ResolvedMarker(c, s, q, p)))
  {
  }

  lemma ResolvedAfterFollowing(c: Config, s: State, q: Request, p: Page)
    requires Follows(c, s, q, p) && s.records[Id(q)].taskId == q.correlation.taskId
    ensures var out := ResolveInPlace(c, Adopt(s, Id(q), p.conversation), q, p, ResolvedMarker(c, s, q, p));
            ResolvedRecord(c, s, q, p, out)
  {
    var t := Adopt(s, Id(q), p.conversation);
    ResolvedInPlace(c, t, q, p);
    assert t.conversations == s.conversations[q.correlation.taskId := p.conversation];
    assert t.conversations[q.correlation.taskId := p.conversation] == t.conversations;
  }

  lemma {:induction false} ResolvedRecords(c: Config, s: State, q: Request, env: ResolveEnv)
    requires Resolves(s, q, env)
    requires var reply := Resolve(c, s, q, env).reply; reply.Replied? && reply.receipt.status == Submitted
    ensures ResolvedRecord(c, s, q, env.observation.page, Resolve(c, s, q, env))
  {
    var (p, t) := (env.observation.page, See(s, env.observation.page));
    ResolvedExactlyWhen(c, s, q, env);
    assert ResolvedMarker(c, t, q, p) == ResolvedMarker(c, s, q, p);
    assert Follows(c, t, q, p) <==> Follows(c, s, q, p);
    if Follows(c, s, q, p) { ResolvedAfterFollowing(c, t, q, p); } else { ResolvedInPlace(c, t, q, p); }
  }

  // ----- Confirming -----

  /** The poll leaves the question open: nothing is wrong yet, or a first message may still get its conversation. */
  predicate KeepsWaiting(c: Config, id: string, r: Record, poll: Poll) {
    && !poll.cancelled
    && match poll.observation
       case Saw(p) =>
         var e := c.scanner.evidence(p.messages, Key(id, r));
         if e.Ambiguous? then false
         else if p.conversation != r.conversation then r.mayMaterialize && e.Absent?
         else if e.Unique? && e.marker == r.marker then r.mayMaterialize
         else !p.classification.state.UnapprovedHost?
       case _ => r.mayMaterialize && poll.timeLeft
  }

  /** The poll shows the marker where it proves the submission: in place, or in a conversation the message made. */
  predicate Confirms(c: Config, id: string, r: Record, poll: Poll) {
    && !poll.cancelled && poll.observation.Saw?
    && var p := poll.observation.page;
       Identifies(c, p, Key(id, r), r.marker) && (p.conversation != r.conversation <==> r.mayMaterialize)
  }

  /** The poll shows the marker while a first message is still on the entry route. */
  predicate ShowsOnEntry(c: Config, id: string, r: Record, poll: Poll) {
    && r.mayMaterialize && poll.observation.Saw? && poll.observation.page.conversation == r.conversation
    && Identifies(c, poll.observation.page, Key(id, r), r.marker)
  }

  function FailureOf(c: Config, id: string, r: Record, poll: Poll): string {
    if poll.cancelled then "SUBMISSION_CONFIRMATION_CANCELLED"
    else match poll.observation
         case Saw(p) =>
           if c.scanner.evidence(p.messages, Key(id, r)).Ambiguous? then "TASK_MARKER_AMBIGUOUS"
           else if p.conversation != r.conversation then "CONVERSATION_CHANGED_AFTER_ACTIVATION"
           else "HOST_CHANGED_AFTER_ACTIVATION"
         case _ => "SUBMISSION_CONFIRMATION_INTERRUPTED"
  }

  /** The last look proves the submission, on the entry route or where the message went. */
  predicate LastLookConfirms(c: Config, id: string, r: Record, last: Observation) {
    && last.Saw? && Identifies(c, last.page, Key(id, r), r.marker)
    && (last.page.conversation == r.conversation || r.mayMaterialize)
  }

  function LastLookFailure(c: Config, id: string, r: Record, last: Observation): string {
    match last
    case Saw(p) =>
      if c.scanner.evidence(p.messages, Key(id, r)).Ambiguous? then "TASK_MARKER_AMBIGUOUS"
      else if p.conversation != r.conversation then "CONVERSATION_CHANGED_AFTER_ACTIVATION"
      else "SUBMISSION_CONFIRMATION_INCONCLUSIVE"
    case _ => "SUBMISSION_CONFIRMATION_INTERRUPTED"
  }

  /** The first `n` polls all keep the confirmation waiting. */
  predicate AllWait(c: Config, id: string, r: Record, polls: seq<Poll>, n: nat)
    requires n <= |polls|
  {
    forall j | 0 <= j < n :: KeepsWaiting(c, id, r, polls[j])
  }

  predicate SomeOnEntry(c: Config, id: string, r: Record, polls: seq<Poll>) {
    exists j | 0 <= j < |polls| :: ShowsOnEntry(c, id, r, polls[j])
  }

  function Proved(r: Record, conversation: string): Reply {
    Replied(Receipt(Submitted, Some(conversation), r.marker, "MARKER_CONFIRMED"))
  }

  function Unproved(r: Record, code: string): Reply {
    Replied(Receipt(Indeterminate, Some(r.conversation), r.marker, code))
  }

  /** A poll that keeps the confirmation waiting is dropped, and remembered if it showed the marker on entry. */
  lemma ConfirmWaits(c: Config, s: State, id: string, polls: seq<Poll>, last: Observation, onEntry: bool)
    returns (t: State)
    requires id in s.records && polls != [] && KeepsWaiting(c, id, s.records[id], polls[0])
    ensures t.records == s.records
    ensures var shown := onEntry || ShowsOnEntry(c, id, s.records[id], polls[0]);
            Confirm(c, s, id, polls, last, onEntry) == Confirm(c, t, id, polls[1..], last, shown)
  {
    t := if polls[0].observation.Saw? then See(s, polls[0].observation.page) else s;
  }

  lemma ConfirmDecides(c: Config, s: State, id: string, polls: seq<Poll>, last: Observation, onEntry: bool)
    requires id in s.records && polls != [] && !KeepsWaiting(c, id, s.records[id], polls[0])
    ensures var (reply, r) := (Confirm(c, s, id, polls, last, onEntry).reply, s.records[id]);
            reply == if Confirms(c, id, r, polls[0]) then Proved(r, polls[0].observation.page.conversation)
                     else Unproved(r, FailureOf(c, id, r, polls[0]))
  {
  }

  /** A confirmation is decided by the first poll that does not keep it waiting. */
  lemma {:induction false} ConfirmStopsAt(c: Config, s: State, id: string, polls: seq<Poll>, last: Observation,
      onEntry: bool, k: nat)
    requires id in s.records && k < |polls|
    requires AllWait(c, id, s.records[id], polls, k) && !KeepsWaiting(c, id, s.records[id], polls[k])
    ensures var (reply, r) := (Confirm(c, s, id, polls, last, onEntry).reply, s.records[id]);
            reply == if Confirms(c, id, r, polls[k]) then Proved(r, polls[k].observation.page.conversation)
                     else Unproved(r, FailureOf(c, id, r, polls[k]))
    decreases |polls|
  {
    if k == 0 {
      ConfirmDecides(c, s, id, polls, last, onEntry);
    } else {
      var t := ConfirmWaits(c, s, id, polls, last, onEntry);
      var shown := onEntry || ShowsOnEntry(c, id, s.records[id], polls[0]);
      ConfirmStopsAt(c, t, id, polls[1..], last, shown, k - 1);
    }
  }

  lemma LastLookExactly(c: Config, s: State, id: string, last: Observation)
    requires id in s.records
    ensures var (reply, r) := (ConfirmOnEntry(c, s, id, last).reply, s.records[id]);
            reply == if LastLookConfirms(c, id, r, last) then Proved(r, last.page.conversation)
                     else Unproved(r, LastLookFailure(c, id, r, last))
  {
  }

  lemma SomeOnEntrySplits(c: Config, id: string, r: Record, polls: seq<Poll>)
    requires polls != []
    ensures SomeOnEntry(c, id, r, polls) <==> ShowsOnEntry(c, id, r, polls[0]) || SomeOnEntry(c, id, r, polls[1..])
  {
    var rest := polls[1..];
    assert forall j | 0 <= j < |rest| :: rest[j] == polls[j + 1];
    if j :| 0 <= j < |polls| && ShowsOnEntry(c, id, r, polls[j]) {
      if j > 0 { assert ShowsOnEntry(c, id, r, rest[j - 1]); }
    }
  }

  /** If every poll keeps it waiting, a last look decides if the marker was seen on entry, and nothing else does. */
  lemma {:induction false} ConfirmRunsOut(c: Config, s: State, id: string, polls: seq<Poll>, last: Observation,
      onEntry: bool)
    requires id in s.records && AllWait(c, id, s.records[id], polls, |polls|)
    ensures var (reply, r) := (Confirm(c, s, id, polls, last, onEntry).reply, s.records[id]);
            reply == if !onEntry && !SomeOnEntry(c, id, r, polls) then
                       Unproved(r, "SUBMISSION_CONFIRMATION_INCONCLUSIVE")
                     else if LastLookConfirms(c, id, r, last) then Proved(r, last.page.conversation)
                     else Unproved(r, LastLookFailure(c, id, r, last))
    decreases |polls|
  {
    if polls == [] {
      LastLookExactly(c, s, id, last);
    } else {
      var t := ConfirmWaits(c, s, id, polls, last, onEntry);
      SomeOnEntrySplits(c, id, s.records[id], polls);
      ConfirmRunsOut(c, t, id, polls[1..], last, onEntry || ShowsOnEntry(c, id, s.records[id], polls[0]));
    }
  }

  /** What proves a submission after its click: the first decisive poll, or the last look after a sight on entry. */
  predicate ProvedBy(c: Config, id: string, r: Record, polls: seq<Poll>, last: Observation) {
    || (exists k | 0 <= k < |polls| :: AllWait(c, id, r, polls, k) && Confirms(c, id, r, polls[k]))
    || (AllWait(c, id, r, polls, |polls|) && SomeOnEntry(c, id, r, polls) && LastLookConfirms(c, id, r, last))
  }

  lemma {:induction false} FirstDecisive(c: Config, id: string, r: Record, polls: seq<Poll>, n: nat) returns (k: nat)
    requires n <= |polls| && !AllWait(c, id, r, polls, n)
    ensures k < n && AllWait(c, id, r, polls, k) && !KeepsWaiting(c, id, r, polls[k])
  {
    if AllWait(c, id, r, polls, n - 1) { k := n - 1; } else { k := FirstDecisive(c, id, r, polls, n - 1); }
  }

  /** A poll that proves the submission does not keep the confirmation waiting. */
  lemma ConfirmingIsDecisive(c: Config, id: string, r: Record, poll: Poll)
    requires Confirms(c, id, r, poll)
    ensures !KeepsWaiting(c, id, r, poll)
  {
  }

  /** A possible dispatch is answered as submitted exactly if the page proves it, and as uncertain otherwise. */
  lemma {:induction false} ConfirmedExactlyWhen(c: Config, s: State, id: string, polls: seq<Poll>, last: Observation)
    requires id in s.records
    ensures var reply := Confirm(c, s, id, polls, last, false).reply;
            && reply.Replied?
            && (reply.receipt.status == Submitted <==> ProvedBy(c, id, s.records[id], polls, last))
            && (reply.receipt.status != Submitted ==> reply.receipt.status == Indeterminate)
  {
    var r := s.records[id];
    forall j | 0 <= j < |polls| && Confirms(c, id, r, polls[j]) ensures !KeepsWaiting(c, id, r, polls[j]) {
      ConfirmingIsDecisive(c, id, r, polls[j]);
    }
    if AllWait(c, id, r, polls, |polls|) {
      ConfirmRunsOut(c, s, id, polls, last, false);
    } else {
      var k := FirstDecisive(c, id, r, polls, |polls|);
      ConfirmStopsAt(c, s, id, polls, last, false, k);
    }
  }

  /**
   A click that was not refused is answered by what the page shows afterwards, judged by the record of the attempt:
   submitted exactly if that proves it, and uncertain otherwise.
   */
  lemma {:induction false} SentReplies(c: Config, s: State, q: Request, env: SubmitEnv) returns (r: Record)
    requires MaySend(c, s, q, env) && !env.click.RefusedBeforeDispatch?
    ensures AttemptRecord(c, s, q, env.first.page, r) && r.activationAttempted
    ensures var reply := Submit(c, s, q, env).reply;
            && reply.Replied?
            && (reply.receipt.status == Submitted <==> ProvedBy(c, Id(q), r, env.polls, env.last))
            && (reply.receipt.status != Submitted ==> reply.receipt.status == Indeterminate)
  {
    var t := SubmitAttempts(c, s, q, env);
    AttemptFills(c, s, q, env, t);
    var there := See(Attempted(c, t, q, env.first.page), env.second.page);
    r := there.records[Id(q)].(activationAttempted := true);
    var clicked := Pin(Put(there, Id(q), r), q.correlation.taskId, r.conversation)
                   .(clicks := there.clicks + multiset{Id(q)}, dispatched := there.dispatched + multiset{Id(q)});
    assert Submit(c, s, q, env) == Click(c, there, q, env);
    ConfirmedExactlyWhen(c, clicked, Id(q), env.polls, env.last);
  }

  // ----- Receiving -----

  /** `receive` waits for an answer exactly if the submission is resolved as submitted and its baseline is usable. */
  lemma {:induction false} ReceivedExactlyWhen(c: Config, s: State, q: Request, env: ReceiveEnv)
    ensures var (got, resolved) := (Receive(c, s, q, env).received, Resolve(c, s, q, env.resolve));
            var submitted := resolved.reply.Replied? && resolved.reply.receipt.status == Submitted;
            var known := Id(q) in resolved.state.records && resolved.state.records[Id(q)].baselineKnown;
            && (env.aborted ==> got == Received.Cancelled("ABORTED"))
            && (!env.aborted && env.stopped ==> got == Received.Cancelled("KILL_SWITCH"))
            && (got.Waited? <==> !env.aborted && !env.stopped && submitted && known)
            && (got.BaselineUnknown? <==> !env.aborted && !env.stopped && submitted && !known)
            && (!env.aborted && !env.stopped && resolved.reply.Raised? ==> got == ReceiveRaised(resolved.reply.code))
            && (!env.aborted && !env.stopped && resolved.reply.Replied? && !submitted ==>
                  got == Unresolved(RepliesNotSubmitted(resolved.reply), resolved.reply.receipt.code))
  {
  }
}
