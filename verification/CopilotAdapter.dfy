/**
 The adapter as the object it is: three maps updated in place, statement by statement.

 Each method does exactly what the function of `BrowserAdapter` with the same role says, so everything proved
 there about all runs holds of this object. The ghost fields record its past and are never read back.
 */
module CopilotAdapter {
  import opened Basics
  import opened BrowserPage
  import TM = TaskMarker
  import C = ResponseCorrelation
  import W = ResponseWait
  import opened A = BrowserAdapter

  class Adapter {
    const config: Config
    var records: map<string, Record>
    var submissionIdentities: map<string, Identity>
    var taskConversations: map<string, string>
    ghost var seen: set<Page>
    ghost var clicks: multiset<string>
    ghost var dispatched: multiset<string>
    ghost var lives: map<string, Life>

    ghost function Model(): State
      reads this
    {
      State(records, submissionIdentities, taskConversations, seen, clicks, dispatched, lives)
    }

    constructor (config: Config)
      ensures this.config == config && Model() == Initial
    {
      this.config := config;
      records, submissionIdentities, taskConversations := map[], map[], map[];
      seen, clicks, dispatched, lives := {}, multiset{}, multiset{}, map[];
    }

    method Observe(o: Observation) returns (page: Option<Page>)
      modifies this`seen
      ensures page == if o.Saw? then Some(o.page) else None
      ensures Model() == if o.Saw? then See(old(Model()), o.page) else old(Model())
    {
      if o.Saw? {
        seen := seen + {o.page};
        return Some(o.page);
      }
      return None;
    }

    /** Writes the receipt of a record. */
    method SetReceipt(id: string, status: Status, conversation: Option<string>, code: string) returns (reply: Reply)
      requires id in records
      modifies this`records
      ensures Out(Model(), reply) == Finish(old(Model()), id, status, conversation, code)
    {
      var receipt := Receipt(status, conversation, records[id].marker, code);
      records := records[id := records[id].(receipt := receipt)];
      return Replied(receipt);
    }

    method AddRecord(id: string, r: Record, onEntryRoute: bool)
      modifies this`records, this`lives
      ensures Model() == Create(old(Model()), id, r, onEntryRoute)
    {
      records := records[id := r];
      lives := lives[id := Life(onEntryRoute, r.conversation, 0)];
    }

    /** Adds a fresh record; `#createRecord` reads the conversation pinned for its `taskId`. */
    method CreateRecord(q: Request, marker: string, p: Page, known: bool, recovered: Option<TM.Baseline>)
      modifies this`records, this`lives
      ensures var r := A.CreateRecord(config, old(Model()), q, marker, p, known, recovered);
              Model() == Create(old(Model()), Id(q), r, p.onEntryRoute)
    {
      var texts := C.Envelopes(p.responses);
      var mayMaterialize := q.expected.None? && q.correlation.taskId !in taskConversations && p.onEntryRoute;
      var baseline := if recovered.Some? then C.Rebuilt(recovered.value.count, recovered.value.sequenceSha256)
                      else C.Recorded(config.hasher, texts);
      var receipt := Receipt(NotSubmitted, Some(p.conversation), marker, "NOT_ACTIVATED");
      var r := Record(q.correlation.taskId, q.correlation.turnId, config.hasher.ofText(q.content), marker,
                      p.conversation, mayMaterialize, baseline, known, false, receipt);
      AddRecord(Id(q), r, p.onEntryRoute);
    }

    method StoreKnownNotSubmitted(q: Request, code: string, conversation: Option<string>) returns (reply: Reply)
      modifies this
      ensures Out(Model(), reply) == A.StoreKnownNotSubmitted(config, old(Model()), q, code, conversation)
    {
      var marker := config.scanner.marker(q.correlation, None);
      var receipt := Receipt(NotSubmitted, conversation, marker, code);
      if conversation.Some? {
        var r := Record(
          q.correlation.taskId, q.correlation.turnId, config.hasher.ofText(q.content), marker,
          conversation.value, false,
          C.Recorded(config.hasher, []), false, false, receipt);
        AddRecord(Id(q), r, false);
      }
      return Replied(receipt);
    }

    method AdoptMaterializedConversation(id: string, p: Page) returns (adopted: bool)
      requires id in records
      modifies this
      ensures adopted == CanAdopt(config, id, old(records)[id], p)
      ensures Model() == if adopted then Adopt(old(Model()), id, p.conversation) else old(Model())
    {
      var r := records[id];
      var e := config.scanner.evidence(p.messages, Key(id, r));
      if !r.mayMaterialize || !e.Unique? || e.marker != r.marker {
        return false;
      }
      ghost var life := LifeOf(Model(), id);
      records := records[id := r.(conversation := p.conversation, mayMaterialize := false)];
      taskConversations := taskConversations[r.taskId := p.conversation];
      lives := lives[id := life.(moves := life.moves + 1)];
      return true;
    }

    method ResolveSubmission(q: Request, env: ResolveEnv) returns (reply: Reply)
      modifies this
      ensures Out(Model(), reply) == Resolve(config, old(Model()), q, env)
    {
      if !env.usable { return Raised("UNUSABLE"); }
      if !TM.ValidCorrelation(q.correlation) { return Raised("INVALID_CORRELATION"); }
      var id := Id(q);
      if id in submissionIdentities
         && !SameTurn(q.correlation, submissionIdentities[id].taskId, submissionIdentities[id].turnId) {
        return Raised("DUPLICATE_OPERATION");
      }
      if id in records && !SameTurn(q.correlation, records[id].taskId, records[id].turnId) {
        return Raised("DUPLICATE_OPERATION");
      }
      if id in records && records[id].receipt.status == Submitted { return Replied(records[id].receipt); }
      var page := Observe(env.observation);
      if page.None? { return Raised("PAGE_OBSERVATION_FAILED"); }
      reply := ResolveAgainst(q, page.value);
    }

    method ResolveAgainst(q: Request, p: Page) returns (reply: Reply)
      modifies this
      ensures Out(Model(), reply) == ResolveOnPage(config, old(Model()), q, p)
    {
      var id := Id(q);
      var e := config.scanner.evidence(p.messages, q.correlation);
      var marker := if id in records then records[id].marker
                    else if e.Unique? then e.marker else config.scanner.marker(q.correlation, None);
      if e.Ambiguous? {
        return Replied(Receipt(Indeterminate, Some(p.conversation), marker, "TASK_MARKER_AMBIGUOUS"));
      }
      if p.classification.state.UnapprovedHost? {
        return Replied(Receipt(Indeterminate, None, marker, "HOST_NOT_APPROVED"));
      }
      var adopted := false;
      if id in records && records[id].conversation != p.conversation {
        adopted := AdoptMaterializedConversation(id, p);
      }
      if !adopted {
        if q.expected.Some? && q.expected.value != p.conversation {
          return Replied(Receipt(Indeterminate, Some(p.conversation), marker, "CONVERSATION_MISMATCH"));
        }
        if id in records && records[id].conversation != p.conversation {
          return Replied(Receipt(Indeterminate, Some(p.conversation), marker, "CONVERSATION_CHANGED_AFTER_ATTEMPT"));
        }
      }
      reply := SettleResolution(q, p, marker);
    }

    method RecoverSubmission(q: Request, p: Page, marker: string, baseline: Option<TM.Baseline>)
      returns (reply: Reply)
      modifies this
      ensures var receipt := Receipt(Submitted, Some(p.conversation), marker, "MARKER_CONFIRMED");
              var r := A.CreateRecord(config, old(Model()), q.(content := ""), marker, p, baseline.Some?, baseline);
              && reply == Replied(receipt)
              && Model() == Create(old(Model()), Id(q), r.(receipt := receipt), p.onEntryRoute)
    {
      CreateRecord(q.(content := ""), marker, p, baseline.Some?, baseline);
      reply := SetReceipt(Id(q), Submitted, Some(p.conversation), "MARKER_CONFIRMED");
    }

    method SettleResolution(q: Request, p: Page, marker: string) returns (reply: Reply)
      modifies this
      ensures Out(Model(), reply) == ResolveInPlace(config, old(Model()), q, p, marker)
    {
      var id := Id(q);
      var e := config.scanner.evidence(p.messages, q.correlation);
      if e.Unique? && e.marker == marker {
        taskConversations := taskConversations[q.correlation.taskId := p.conversation];
        if id in records {
          reply := SetReceipt(id, Submitted, Some(p.conversation), "MARKER_CONFIRMED");
        } else {
          reply := RecoverSubmission(q, p, marker, e.baseline);
        }
      } else if id !in records {
        reply := Replied(Receipt(Indeterminate, Some(p.conversation), marker, "NO_LOCAL_SUBMISSION_RECORD"));
      } else if !records[id].activationAttempted {
        reply := SetReceipt(id, NotSubmitted, Some(p.conversation), "ACTIVATION_NOT_ATTEMPTED");
      } else {
        reply := SetReceipt(id, Indeterminate, Some(p.conversation), "SUBMISSION_EVIDENCE_INCONCLUSIVE");
      }
    }

    method Judge(id: string, p: Page, confirmedOnEntry: bool) returns (reply: Option<Reply>, onEntry: bool)
      requires id in records
      modifies this
      ensures id in records
      ensures match A.Judge(config, old(Model()), id, p, confirmedOnEntry)
              case Settled(out) => reply == Some(out.reply) && Model() == out.state
              case Again(flag) => reply == None && onEntry == flag && Model() == old(Model())
    {
      onEntry := confirmedOnEntry;
      var r := records[id];
      var e := config.scanner.evidence(p.messages, Key(id, r));
      if e.Ambiguous? {
        var fail := SetReceipt(id, Indeterminate, Some(r.conversation), "TASK_MARKER_AMBIGUOUS");
        return Some(fail), onEntry;
      }
      if p.conversation != r.conversation {
        var adopted := AdoptMaterializedConversation(id, p);
        if adopted {
          var done := SetReceipt(id, Submitted, Some(records[id].conversation), "MARKER_CONFIRMED");
          return Some(done), onEntry;
        }
        if r.mayMaterialize && e.Absent? { return None, onEntry; }
        var fail := SetReceipt(id, Indeterminate, Some(r.conversation), "CONVERSATION_CHANGED_AFTER_ACTIVATION");
        return Some(fail), onEntry;
      }
      if e.Unique? && e.marker == r.marker {
        if r.mayMaterialize { return None, true; }
        var done := SetReceipt(id, Submitted, Some(r.conversation), "MARKER_CONFIRMED");
        return Some(done), onEntry;
      }
      if p.classification.state.UnapprovedHost? {
        var fail := SetReceipt(id, Indeterminate, Some(r.conversation), "HOST_CHANGED_AFTER_ACTIVATION");
        return Some(fail), onEntry;
      }
      return None, onEntry;
    }

    method ConfirmSubmission(id: string, polls: seq<Poll>, last: Observation) returns (reply: Reply)
      requires id in records
      modifies this
      ensures Out(Model(), reply) == Confirm(config, old(Model()), id, polls, last, false)
    {
      var confirmedOnEntry := false;
      var i := 0;
      while i < |polls|
        invariant 0 <= i <= |polls| && id in records
        invariant Confirm(config, Model(), id, polls[i..], last, confirmedOnEntry)
                  == Confirm(config, old(Model()), id, polls, last, false)
      {
        var poll := polls[i];
        assert polls[i..][0] == poll && polls[i..][1..] == polls[i + 1..];
        if poll.cancelled {
          reply := SetReceipt(id, Indeterminate, Some(records[id].conversation), "SUBMISSION_CONFIRMATION_CANCELLED");
          return;
        }
        var page := Observe(poll.observation);
        if page.None? {
          if !records[id].mayMaterialize || !poll.timeLeft {
            reply := SetReceipt(id, Indeterminate, Some(records[id].conversation),
                                "SUBMISSION_CONFIRMATION_INTERRUPTED");
            return;
          }
        } else {
          var verdict, onEntry := Judge(id, page.value, confirmedOnEntry);
          if verdict.Some? { return verdict.value; }
          confirmedOnEntry := onEntry;
        }
        i := i + 1;
      }
      assert polls[i..] == [];
      if confirmedOnEntry {
        reply := ConfirmEntryRoute(id, last);
      } else {
        reply := SetReceipt(id, Indeterminate, Some(records[id].conversation), "SUBMISSION_CONFIRMATION_INCONCLUSIVE");
      }
    }

    method ConfirmEntryRoute(id: string, last: Observation) returns (reply: Reply)
      requires id in records
      modifies this
      ensures Out(Model(), reply) == ConfirmOnEntry(config, old(Model()), id, last)
    {
      var page := Observe(last);
      var r := records[id];
      if page.None? {
        reply := SetReceipt(id, Indeterminate, Some(r.conversation), "SUBMISSION_CONFIRMATION_INTERRUPTED");
        return;
      }
      var p := page.value;
      var e := config.scanner.evidence(p.messages, Key(id, r));
      if e.Ambiguous? {
        reply := SetReceipt(id, Indeterminate, Some(r.conversation), "TASK_MARKER_AMBIGUOUS");
      } else if p.conversation != r.conversation {
        var adopted := AdoptMaterializedConversation(id, p);
        if adopted {
          reply := SetReceipt(id, Submitted, Some(records[id].conversation), "MARKER_CONFIRMED");
        } else {
          reply := SetReceipt(id, Indeterminate, Some(r.conversation), "CONVERSATION_CHANGED_AFTER_ACTIVATION");
        }
      } else if e.Unique? && e.marker == r.marker {
        records := records[id := r.(mayMaterialize := false)];
        taskConversations := taskConversations[r.taskId := r.conversation];
        reply := SetReceipt(id, Submitted, Some(r.conversation), "MARKER_CONFIRMED");
      } else {
        reply := SetReceipt(id, Indeterminate, Some(r.conversation), "SUBMISSION_CONFIRMATION_INCONCLUSIVE");
      }
    }

    /** The one consequential browser action, and what is undone when it was refused before dispatch. */
    method Activate(q: Request, env: SubmitEnv) returns (reply: Reply)
      requires Id(q) in records
      modifies this
      ensures Out(Model(), reply) == Click(config, old(Model()), q, env)
    {
      var (id, task) := (Id(q), q.correlation.taskId);
      var established := if task in taskConversations then Some(taskConversations[task]) else None;
      records := records[id := records[id].(activationAttempted := true)];
      taskConversations := taskConversations[task := records[id].conversation];
      clicks := clicks + multiset{id};
      if env.click.RefusedBeforeDispatch? {
        records := records[id := records[id].(activationAttempted := false)];
        if established.None? { taskConversations := taskConversations - {task}; }
        reply := SetReceipt(id, NotSubmitted, Some(records[id].conversation), env.click.code);
        return;
      }
      dispatched := dispatched + multiset{id};
      reply := ConfirmSubmission(id, env.polls, env.last);
    }

    method FillAndActivate(q: Request, env: SubmitEnv) returns (reply: Reply)
      requires Id(q) in records
      modifies this
      ensures Out(Model(), reply) == Fill(config, old(Model()), q, env)
    {
      var id := Id(q);
      var conversation := records[id].conversation;
      match env.fill {
        case RefusedBeforeDispatch(code) => reply := SetReceipt(id, NotSubmitted, Some(conversation), code); return;
        case Failed =>
          reply := SetReceipt(id, Indeterminate, Some(conversation), "COMPOSER_FILL_INDETERMINATE");
          return;
        case Done =>
      }
      var page := Observe(env.second);
      if page.None? || !env.usableAfterSecond {
        reply := SetReceipt(id, NotSubmitted, Some(conversation), "PRE_SUBMISSION_ASSERTION_ABORTED");
      } else if !page.value.classification.state.Ready? {
        reply := SetReceipt(id, NotSubmitted, Some(conversation), page.value.classification.code);
      } else if page.value.conversation != conversation {
        reply := SetReceipt(id, NotSubmitted, Some(conversation), "CONVERSATION_CHANGED_BEFORE_SUBMIT");
      } else if !page.value.sendActionable {
        reply := SetReceipt(id, NotSubmitted, Some(conversation), "SEND_CONTROL_NOT_ACTIONABLE");
      } else {
        reply := Activate(q, env);
      }
    }

    method Begin(q: Request, p: Page, env: SubmitEnv) returns (reply: Reply)
      modifies this
      ensures Out(Model(), reply) == A.Begin(config, old(Model()), q, p, env)
    {
      var id := Id(q);
      var texts := C.Envelopes(p.responses);
      var marker := config.scanner.marker(q.correlation, Some(TM.Baseline(|texts|, config.hasher.ofSequence(texts))));
      match config.scanner.evidence(p.messages, q.correlation) {
        case Ambiguous =>
          CreateRecord(q, marker, p, false, None);
          reply := SetReceipt(id, Indeterminate, Some(p.conversation), "TASK_MARKER_AMBIGUOUS");
        case Unique(found, baseline) =>
          CreateRecord(q, found, p, baseline.Some?, baseline);
          taskConversations := taskConversations[q.correlation.taskId := p.conversation];
          reply := SetReceipt(id, Submitted, Some(p.conversation), "MARKER_RECOVERED");
        case Absent =>
          CreateRecord(q, marker, p, true, None);
          reply := FillAndActivate(q, env);
      }
    }

    method AttemptAgainst(q: Request, p: Page, env: SubmitEnv) returns (reply: Reply)
      modifies this
      ensures Out(Model(), reply) == AttemptOnPage(config, old(Model()), q, p, env)
    {
      var task := q.correlation.taskId;
      if !p.classification.state.Ready? {
        reply := StoreKnownNotSubmitted(q, p.classification.code, None);
      } else if q.expected.Some? && q.expected.value != p.conversation {
        reply := StoreKnownNotSubmitted(q, "CONVERSATION_MISMATCH", Some(p.conversation));
      } else if task in taskConversations && taskConversations[task] != p.conversation {
        reply := StoreKnownNotSubmitted(q, "TASK_CONVERSATION_MISMATCH", Some(p.conversation));
      } else {
        reply := Begin(q, p, env);
      }
    }

    method Submit(q: Request, env: SubmitEnv) returns (reply: Reply)
      modifies this
      ensures Out(Model(), reply) == A.Submit(config, old(Model()), q, env)
    {
      var id := Id(q);
      var identity := Identity(q.correlation.taskId, q.correlation.turnId, config.hasher.ofText(q.content));
      if !env.usable { return Raised("UNUSABLE"); }
      if !TM.ValidCorrelation(q.correlation) { return Raised("INVALID_CORRELATION"); }
      if !TM.ValidContent(q.content, config.maxMessageChars) { return Raised("PROTOCOL_INVALID"); }
      if id in submissionIdentities && submissionIdentities[id] != identity { return Raised("DUPLICATE_OPERATION"); }
      submissionIdentities := submissionIdentities[id := identity];
      if id in records {
        var r := records[id];
        if !SameTurn(q.correlation, r.taskId, r.turnId) || r.contentSha256 != config.hasher.ofText(q.content) {
          return Raised("DUPLICATE_OPERATION");
        }
        if r.receipt.status == Submitted { return Replied(r.receipt); }
        if r.receipt.status == Indeterminate {
          var resolved := ResolveSubmission(q, env.resolve);
          if resolved.Raised? || resolved.receipt.status != NotSubmitted { return resolved; }
        }
      }
      var page := Observe(env.first);
      if page.None? { return Raised("PAGE_OBSERVATION_FAILED"); }
      if !env.usableAfterFirst { return Raised("UNUSABLE"); }
      reply := AttemptAgainst(q, page.value, env);
    }

    method Receive(q: Request, env: ReceiveEnv) returns (received: Received)
      modifies this
      ensures ReceiveOut(Model(), received) == A.Receive(config, old(Model()), q, env)
    {
      if env.aborted { return Received.Cancelled("ABORTED"); }
      if env.stopped { return Received.Cancelled("KILL_SWITCH"); }
      var resolution := ResolveSubmission(q, env.resolve);
      if resolution.Raised? { return ReceiveRaised(resolution.code); }
      var receipt := resolution.receipt;
      if receipt.status != Submitted { return Unresolved(receipt.status == NotSubmitted, receipt.code); }
      if Id(q) !in records || !records[Id(q)].baselineKnown { return BaselineUnknown; }
      var outcome := W.AwaitResponse(WaitConfig(config, Id(q), records[Id(q)]), env.samples);
      return Waited(outcome);
    }
  }

  /** A whole run of calls on one new adapter. */
  method Serve(config: Config, calls: seq<Call>) returns (adapter: Adapter)
    ensures adapter.config == config && adapter.Model() == Run(config, calls)
    ensures forall id: string :: adapter.dispatched[id] <= 1
  {
    adapter := new Adapter(config);
    for i := 0 to |calls|
      invariant adapter.config == config && adapter.Model() == Run(config, calls[..i])
    {
      assert calls[..i + 1][..i] == calls[..i];
      match calls[i] {
        case SubmitCall(q, env) => var reply := adapter.Submit(q, env);
        case ResolveCall(q, env) => var reply := adapter.ResolveSubmission(q, env);
        case ReceiveCall(q, env) => var received := adapter.Receive(q, env);
      }
    }
    assert calls[..|calls|] == calls;
    forall id: string ensures adapter.dispatched[id] <= 1 { AtMostOneDispatch(config, calls, id); }
  }
}
