/**
 `CopilotBrowserAdapter`: submitting one message at most once, and saying so only on evidence.

 The adapter talks to a page it does not control. Every answer of the page, of the kill switch and of the clock
 is a parameter of the call (`SubmitEnv`, `ResolveEnv`, `Poll`), so a statement about all runs is a statement
 about every page behaviour. Calls are serialised, as `#runExclusiveBrowserOperation` makes them.

 The calls are specified as functions on the adapter's state, then proved things about over all runs; module
 `CopilotAdapter` holds the class that updates its maps in place and does what the functions say.
 */
module BrowserAdapter {
  import opened Basics
  import opened BrowserPage
  import TM = TaskMarker
  import C = ResponseCorrelation
  import W = ResponseWait

  datatype Config = Config(
    hasher: C.Hasher, scanner: TM.Scanner, maxMessageChars: nat,
    stableSamples: int, minimumStableMs: real, maxResponseChars: nat)

  datatype Status = Submitted | Indeterminate | NotSubmitted

  datatype Receipt = Receipt(status: Status, conversation: Option<string>, marker: string, code: string)

  datatype Record = Record(
    taskId: string, turnId: string, contentSha256: string, marker: string,
    conversation: string, mayMaterialize: bool,
    baseline: C.Baseline, baselineKnown: bool, activationAttempted: bool, receipt: Receipt)

  datatype Identity = Identity(taskId: string, turnId: string, contentSha256: string)

  datatype Request = Request(correlation: TM.Correlation, content: string, expected: Option<string>)

  datatype Reply = Replied(receipt: Receipt) | Raised(code: string)

  /** One turn of the confirmation loop; `timeLeft` is the clock reading taken after a failed observation. */
  datatype Poll = Poll(cancelled: bool, observation: Observation, timeLeft: bool)

  datatype ResolveEnv = ResolveEnv(usable: bool, observation: Observation)

  datatype SubmitEnv = SubmitEnv(
    usable: bool, resolve: ResolveEnv,
    first: Observation, usableAfterFirst: bool,
    fill: Action, second: Observation, usableAfterSecond: bool,
    click: Action, polls: seq<Poll>, last: Observation)

  /** What happened to the record of a submission since it was created. */
  datatype Life = Life(onEntryRoute: bool, birthplace: string, moves: nat)

  /** The adapter's maps, and what its past amounts to: pages seen, sends clicked, clicks that may have dispatched. */
  datatype State = State(
    records: map<string, Record>, identities: map<string, Identity>, conversations: map<string, string>,
    seen: set<Page>, clicks: multiset<string>, dispatched: multiset<string>, lives: map<string, Life>)

  const Initial := State(map[], map[], map[], {}, multiset{}, multiset{}, map[])

  datatype Out = Out(state: State, reply: Reply)

  // ----- Small steps -----

  function Id(q: Request): string { q.correlation.submissionId }

  function Key(id: string, r: Record): TM.Correlation {
    TM.Correlation(r.taskId, r.turnId, id)
  }

  function See(s: State, p: Page): State {
    s.(seen := s.seen + {p})
  }

  function Put(s: State, id: string, r: Record): State {
    s.(records := s.records[id := r])
  }

  /** A new record takes the place of any earlier one. */
  function Create(s: State, id: string, r: Record, onEntryRoute: bool): State {
    Put(s, id, r).(lives := s.lives[id := Life(onEntryRoute, r.conversation, 0)])
  }

  function Pin(s: State, taskId: string, conversation: string): State {
    s.(conversations := s.conversations[taskId := conversation])
  }

  function Pinned(s: State, taskId: string): Option<string> {
    if taskId in s.conversations then Some(s.conversations[taskId]) else None
  }

  function Finish(s: State, id: string, status: Status, conversation: Option<string>, code: string): Out
    requires id in s.records
  {
    var receipt := Receipt(status, conversation, s.records[id].marker, code);
    Out(Put(s, id, s.records[id].(receipt := receipt)), Replied(receipt))
  }

  predicate Identifies(c: Config, p: Page, key: TM.Correlation, marker: string) {
    var e := c.scanner.evidence(p.messages, key);
    e.Unique? && e.marker == marker
  }

  // ----- #createRecord, #storeKnownNotSubmitted, #adoptMaterializedConversation -----

  function CreateRecord(c: Config, s: State, q: Request, marker: string, p: Page, known: bool,
      recovered: Option<TM.Baseline>): Record {
    var texts := C.Envelopes(p.responses);
    Record(
      q.correlation.taskId, q.correlation.turnId, c.hasher.ofText(q.content), marker, p.conversation,
      q.expected.None? && Pinned(s, q.correlation.taskId).None? && p.onEntryRoute,
      if recovered.Some? then C.Rebuilt(recovered.value.count, recovered.value.sequenceSha256)
      else C.Recorded(c.hasher, texts),
      known, false, Receipt(NotSubmitted, Some(p.conversation), marker, "NOT_ACTIVATED"))
  }

  function StoreKnownNotSubmitted(c: Config, s: State, q: Request, code: string, conversation: Option<string>): Out {
    var marker := c.scanner.marker(q.correlation, None);
    var receipt := Receipt(NotSubmitted, conversation, marker, code);
    if conversation.None? then Out(s, Replied(receipt))
    else
      var r := Record(
        q.correlation.taskId, q.correlation.turnId, c.hasher.ofText(q.content), marker, conversation.value, false,
        C.Recorded(c.hasher, []), false, false, receipt);
      Out(Create(s, Id(q), r, false), Replied(receipt))
  }

  predicate CanAdopt(c: Config, id: string, r: Record, p: Page) {
    r.mayMaterialize && Identifies(c, p, Key(id, r), r.marker)
  }

  function LifeOf(s: State, id: string): Life {
    if id in s.lives then s.lives[id] else Life(false, "", 0)
  }

  function Adopt(s: State, id: string, conversation: string): State
    requires id in s.records
  {
    var r := s.records[id].(conversation := conversation, mayMaterialize := false);
    var life := LifeOf(s, id);
    Pin(Put(s, id, r), r.taskId, conversation).(lives := s.lives[id := life.(moves := life.moves + 1)])
  }

  // ----- #resolveSubmission -----

  function ResolveOnPage(c: Config, s: State, q: Request, p: Page): Out {
    var id := Id(q);
    var e := c.scanner.evidence(p.messages, q.correlation);
    var known := id in s.records;
    var marker := if known then s.records[id].marker
                  else if e.Unique? then e.marker else c.scanner.marker(q.correlation, None);
    if e.Ambiguous? then Out(s, Replied(Receipt(Indeterminate, Some(p.conversation), marker, "TASK_MARKER_AMBIGUOUS")))
    else if p.classification.state.UnapprovedHost? then
      Out(s, Replied(Receipt(Indeterminate, None, marker, "HOST_NOT_APPROVED")))
    else
      var moved := known && s.records[id].conversation != p.conversation;
      var adopts := moved && CanAdopt(c, id, s.records[id], p);
      if !adopts && q.expected.Some? && q.expected.value != p.conversation then
        Out(s, Replied(Receipt(Indeterminate, Some(p.conversation), marker, "CONVERSATION_MISMATCH")))
      else if !adopts && moved then
        Out(s, Replied(Receipt(Indeterminate, Some(p.conversation), marker, "CONVERSATION_CHANGED_AFTER_ATTEMPT")))
      else
        ResolveInPlace(c, if adopts then Adopt(s, id, p.conversation) else s, q, p, marker)
  }

  /** The tail of `#resolveSubmission`, once the conversation is known to be the record's. */
  function ResolveInPlace(c: Config, s: State, q: Request, p: Page, marker: string): Out {
    var id := Id(q);
    var e := c.scanner.evidence(p.messages, q.correlation);
    if e.Unique? && e.marker == marker then
      var pinned := Pin(s, q.correlation.taskId, p.conversation);
      if id in s.records then Finish(pinned, id, Submitted, Some(p.conversation), "MARKER_CONFIRMED")
      else
        var r := CreateRecord(c, pinned, q.(content := ""), marker, p, e.baseline.Some?, e.baseline);
        var receipt := Receipt(Submitted, Some(p.conversation), marker, "MARKER_CONFIRMED");
        Out(Create(pinned, id, r.(receipt := receipt), p.onEntryRoute), Replied(receipt))
    else if id !in s.records then
      Out(s, Replied(Receipt(Indeterminate, Some(p.conversation), marker, "NO_LOCAL_SUBMISSION_RECORD")))
    else if !s.records[id].activationAttempted then
      Finish(s, id, NotSubmitted, Some(p.conversation), "ACTIVATION_NOT_ATTEMPTED")
    else Finish(s, id, Indeterminate, Some(p.conversation), "SUBMISSION_EVIDENCE_INCONCLUSIVE")
  }

  predicate SameTurn(key: TM.Correlation, taskId: string, turnId: string) {
    key.taskId == taskId && key.turnId == turnId
  }

  /** `#assertKnownCorrelation` and `#assertRecordMatches` without content. */
  predicate KnownCorrelation(s: State, key: TM.Correlation) {
    var id := key.submissionId;
    && (id in s.identities ==> SameTurn(key, s.identities[id].taskId, s.identities[id].turnId))
    && (id in s.records ==> SameTurn(key, s.records[id].taskId, s.records[id].turnId))
  }

  function Resolve(c: Config, s: State, q: Request, env: ResolveEnv): Out {
    if !env.usable then Out(s, Raised("UNUSABLE"))
    else if !TM.ValidCorrelation(q.correlation) then Out(s, Raised("INVALID_CORRELATION"))
    else if !KnownCorrelation(s, q.correlation) then Out(s, Raised("DUPLICATE_OPERATION"))
    else if Id(q) in s.records && s.records[Id(q)].receipt.status == Submitted then
      Out(s, Replied(s.records[Id(q)].receipt))
    else if !env.observation.Saw? then Out(s, Raised("PAGE_OBSERVATION_FAILED"))
    else ResolveOnPage(c, See(s, env.observation.page), q, env.observation.page)
  }

  // ----- #confirmSubmission -----

  function ConfirmFail(s: State, id: string, code: string): Out
    requires id in s.records
  {
    Finish(s, id, Indeterminate, Some(s.records[id].conversation), code)
  }

  function ConfirmSuccess(s: State, id: string): Out
    requires id in s.records
  {
    Finish(s, id, Submitted, Some(s.records[id].conversation), "MARKER_CONFIRMED")
  }

  /** What one observed page means to the confirmation: a verdict, or another turn. */
  datatype Verdict = Settled(out: Out) | Again(confirmedOnEntry: bool)

  function Judge(c: Config, s: State, id: string, p: Page, confirmedOnEntry: bool): Verdict
    requires id in s.records
  {
    var r := s.records[id];
    var e := c.scanner.evidence(p.messages, Key(id, r));
    if e.Ambiguous? then Settled(ConfirmFail(s, id, "TASK_MARKER_AMBIGUOUS"))
    else if p.conversation != r.conversation then
      if CanAdopt(c, id, r, p) then Settled(ConfirmSuccess(Adopt(s, id, p.conversation), id))
      else if r.mayMaterialize && e.Absent? then Again(confirmedOnEntry)
      else Settled(ConfirmFail(s, id, "CONVERSATION_CHANGED_AFTER_ACTIVATION"))
    else if e.Unique? && e.marker == r.marker then
      if r.mayMaterialize then Again(true) else Settled(ConfirmSuccess(s, id))
    else if p.classification.state.UnapprovedHost? then Settled(ConfirmFail(s, id, "HOST_CHANGED_AFTER_ACTIVATION"))
    else Again(confirmedOnEntry)
  }

  function Confirm(c: Config, s: State, id: string, polls: seq<Poll>, last: Observation, confirmedOnEntry: bool): Out
    requires id in s.records
    decreases |polls|
  {
    if polls == [] then
      if confirmedOnEntry then ConfirmOnEntry(c, s, id, last)
      else ConfirmFail(s, id, "SUBMISSION_CONFIRMATION_INCONCLUSIVE")
    else
      var poll := polls[0];
      if poll.cancelled then ConfirmFail(s, id, "SUBMISSION_CONFIRMATION_CANCELLED")
      else if !poll.observation.Saw? then
        if s.records[id].mayMaterialize && poll.timeLeft then Confirm(c, s, id, polls[1..], last, confirmedOnEntry)
        else ConfirmFail(s, id, "SUBMISSION_CONFIRMATION_INTERRUPTED")
      else
        var seen := See(s, poll.observation.page);
        match Judge(c, seen, id, poll.observation.page, confirmedOnEntry)
        case Settled(out) => out
        case Again(onEntry) => Confirm(c, seen, id, polls[1..], last, onEntry)
  }

  /** The last look of a confirmation whose marker was only seen on the entry route. */
  function ConfirmOnEntry(c: Config, s0: State, id: string, last: Observation): Out
    requires id in s0.records
  {
    if !last.Saw? then ConfirmFail(s0, id, "SUBMISSION_CONFIRMATION_INTERRUPTED")
    else
      var (p, s) := (last.page, See(s0, last.page));
      var r := s.records[id];
      var e := c.scanner.evidence(p.messages, Key(id, r));
      if e.Ambiguous? then ConfirmFail(s, id, "TASK_MARKER_AMBIGUOUS")
      else if p.conversation != r.conversation then
        if CanAdopt(c, id, r, p) then ConfirmSuccess(Adopt(s, id, p.conversation), id)
        else ConfirmFail(s, id, "CONVERSATION_CHANGED_AFTER_ACTIVATION")
      else if e.Unique? && e.marker == r.marker then
        ConfirmSuccess(Pin(Put(s, id, r.(mayMaterialize := false)), r.taskId, r.conversation), id)
      else ConfirmFail(s, id, "SUBMISSION_CONFIRMATION_INCONCLUSIVE")
  }

  // ----- #submit -----

  function Click(c: Config, s0: State, q: Request, env: SubmitEnv): Out
    requires Id(q) in s0.records
  {
    var id := Id(q);
    var established := Pinned(s0, q.correlation.taskId);
    var r := s0.records[id].(activationAttempted := true);
    var s := Pin(Put(s0, id, r), q.correlation.taskId, r.conversation).(clicks := s0.clicks + multiset{id});
    if env.click.RefusedBeforeDispatch? then
      var undone := Put(s, id, r.(activationAttempted := false));
      var restored := if established.Some? then undone
                      else undone.(conversations := undone.conversations - {q.correlation.taskId});
      Finish(restored, id, NotSubmitted, Some(r.conversation), env.click.code)
    else
      Confirm(c, s.(dispatched := s.dispatched + multiset{id}), id, env.polls, env.last, false)
  }

  /** From the filled composer to the click: the trust assertions are repeated on a second observation. */
  function Recheck(c: Config, s: State, q: Request, env: SubmitEnv): Out
    requires Id(q) in s.records
  {
    var id := Id(q);
    var conversation := s.records[id].conversation;
    if !env.second.Saw? then Finish(s, id, NotSubmitted, Some(conversation), "PRE_SUBMISSION_ASSERTION_ABORTED")
    else
      var (p, s1) := (env.second.page, See(s, env.second.page));
      if !env.usableAfterSecond then
        Finish(s1, id, NotSubmitted, Some(conversation), "PRE_SUBMISSION_ASSERTION_ABORTED")
      else if !p.classification.state.Ready? then
        Finish(s1, id, NotSubmitted, Some(conversation), p.classification.code)
      else if p.conversation != conversation then
        Finish(s1, id, NotSubmitted, Some(conversation), "CONVERSATION_CHANGED_BEFORE_SUBMIT")
      else if !p.sendActionable then Finish(s1, id, NotSubmitted, Some(conversation), "SEND_CONTROL_NOT_ACTIONABLE")
      else Click(c, s1, q, env)
  }

  function Fill(c: Config, s: State, q: Request, env: SubmitEnv): Out
    requires Id(q) in s.records
  {
    var conversation := s.records[Id(q)].conversation;
    match env.fill
    case RefusedBeforeDispatch(code) => Finish(s, Id(q), NotSubmitted, Some(conversation), code)
    case Failed => Finish(s, Id(q), Indeterminate, Some(conversation), "COMPOSER_FILL_INDETERMINATE")
    case Done => Recheck(c, s, q, env)
  }

  /** The record and the attempt that follow from what the page already says about this submission. */
  function Begin(c: Config, s: State, q: Request, p: Page, env: SubmitEnv): Out {
    var texts := C.Envelopes(p.responses);
    var marker := c.scanner.marker(q.correlation, Some(TM.Baseline(|texts|, c.hasher.ofSequence(texts))));
    match c.scanner.evidence(p.messages, q.correlation)
    case Ambiguous =>
      var s1 := Create(s, Id(q), CreateRecord(c, s, q, marker, p, false, None), p.onEntryRoute);
      Finish(s1, Id(q), Indeterminate, Some(p.conversation), "TASK_MARKER_AMBIGUOUS")
    case Unique(found, baseline) =>
      var s1 := Create(s, Id(q), CreateRecord(c, s, q, found, p, baseline.Some?, baseline), p.onEntryRoute);
      Finish(Pin(s1, q.correlation.taskId, p.conversation), Id(q), Submitted, Some(p.conversation), "MARKER_RECOVERED")
    case Absent =>
      Fill(c, Create(s, Id(q), CreateRecord(c, s, q, marker, p, true, None), p.onEntryRoute), q, env)
  }

  function AttemptOnPage(c: Config, s: State, q: Request, p: Page, env: SubmitEnv): Out {
    var task := q.correlation.taskId;
    if !p.classification.state.Ready? then StoreKnownNotSubmitted(c, s, q, p.classification.code, None)
    else if q.expected.Some? && q.expected.value != p.conversation then
      StoreKnownNotSubmitted(c, s, q, "CONVERSATION_MISMATCH", Some(p.conversation))
    else if Pinned(s, task).Some? && Pinned(s, task).value != p.conversation then
      StoreKnownNotSubmitted(c, s, q, "TASK_CONVERSATION_MISMATCH", Some(p.conversation))
    else Begin(c, s, q, p, env)
  }

  function Attempt(c: Config, s: State, q: Request, env: SubmitEnv): Out {
    if !env.first.Saw? then Out(s, Raised("PAGE_OBSERVATION_FAILED"))
    else if !env.usableAfterFirst then Out(See(s, env.first.page), Raised("UNUSABLE"))
    else AttemptOnPage(c, See(s, env.first.page), q, env.first.page, env)
  }

  /** A repeated call is an explicit retry, allowed only once the earlier status is known to be not-submitted. */
  function SubmitKnown(c: Config, s: State, q: Request, env: SubmitEnv): Out
    requires Id(q) in s.records
  {
    var r := s.records[Id(q)];
    if !SameTurn(q.correlation, r.taskId, r.turnId) || r.contentSha256 != c.hasher.ofText(q.content) then
      Out(s, Raised("DUPLICATE_OPERATION"))
    else match r.receipt.status
      case Submitted => Out(s, Replied(r.receipt))
      case Indeterminate =>
        var resolved := Resolve(c, s, q, env.resolve);
        if resolved.reply.Raised? || resolved.reply.receipt.status != NotSubmitted then resolved
        else Attempt(c, resolved.state, q, env)
      case NotSubmitted => Attempt(c, s, q, env)
  }

  function Submit(c: Config, s0: State, q: Request, env: SubmitEnv): Out {
    var identity := Identity(q.correlation.taskId, q.correlation.turnId, c.hasher.ofText(q.content));
    if !env.usable then Out(s0, Raised("UNUSABLE"))
    else if !TM.ValidCorrelation(q.correlation) then Out(s0, Raised("INVALID_CORRELATION"))
    else if !TM.ValidContent(q.content, c.maxMessageChars) then Out(s0, Raised("PROTOCOL_INVALID"))
    else if Id(q) in s0.identities && s0.identities[Id(q)] != identity then Out(s0, Raised("DUPLICATE_OPERATION"))
    else
      var s := s0.(identities := s0.identities[Id(q) := identity]);
      if Id(q) in s.records then SubmitKnown(c, s, q, env) else Attempt(c, s, q, env)
  }

  // ----- #receive -----

  datatype ReceiveEnv = ReceiveEnv(aborted: bool, stopped: bool, resolve: ResolveEnv, samples: seq<W.Sample>)

  datatype Received =
    | Unresolved(retryable: bool, code: string)
    | BaselineUnknown
    | Waited(outcome: W.Outcome)
    | Cancelled(code: string)
    | ReceiveRaised(code: string)

  function WaitConfig(c: Config, id: string, r: Record): W.Config {
    W.Config(c.hasher.ofText, es => C.AssociatedResponse(c.hasher, es, r.baseline), c.scanner, Key(id, r),
             r.conversation, r.marker, c.stableSamples, c.minimumStableMs, c.maxResponseChars)
  }

  datatype ReceiveOut = ReceiveOut(state: State, received: Received)

  function AfterResolution(c: Config, s: State, id: string, reply: Reply, samples: seq<W.Sample>): Received {
    match reply
    case Raised(code) => ReceiveRaised(code)
    case Replied(receipt) =>
      if receipt.status != Submitted then Unresolved(receipt.status == NotSubmitted, receipt.code)
      else if id !in s.records || !s.records[id].baselineKnown then BaselineUnknown
      else Waited(W.Result(WaitConfig(c, id, s.records[id]), samples))
  }

  function Receive(c: Config, s: State, q: Request, env: ReceiveEnv): ReceiveOut {
    if env.aborted then ReceiveOut(s, Cancelled("ABORTED"))
    else if env.stopped then ReceiveOut(s, Cancelled("KILL_SWITCH"))
    else
      var out := Resolve(c, s, q, env.resolve);
      ReceiveOut(out.state, AfterResolution(c, out.state, Id(q), out.reply, env.samples))
  }

  // ----- What every call keeps -----

  /** Some observed page in `conversation` held this marker, uniquely, for this correlation. */
  predicate Witnessed(c: Config, s: State, key: TM.Correlation, conversation: string, marker: string) {
    exists p | p in s.seen :: p.conversation == conversation && Identifies(c, p, key, marker)
  }

  /** A record's conversation moves at most once, only off the entry route, and only to where its marker was seen. */
  predicate ConversationOk(c: Config, s: State, id: string, r: Record) {
    var life := LifeOf(s, id);
    && life.moves <= 1
    && (r.mayMaterialize ==> life.onEntryRoute && life.moves == 0)
    && (life.moves == 0 ==> r.conversation == life.birthplace)
    && (life.moves == 1 ==> life.onEntryRoute && Witnessed(c, s, Key(id, r), r.conversation, r.marker))
  }

  predicate ReceiptOk(c: Config, s: State, id: string, r: Record) {
    && (r.activationAttempted ==> r.receipt.status != NotSubmitted)
    && (r.receipt.status == Submitted ==>
          && r.receipt.conversation == Some(r.conversation) && r.receipt.marker == r.marker
          && Witnessed(c, s, Key(id, r), r.conversation, r.marker))
  }

  /** At most one click may have been dispatched, and if one was, the record says so. */
  predicate DispatchOk(s: State, id: string) {
    && s.dispatched[id] <= 1
    && (s.dispatched[id] == 1 ==> id in s.records && s.records[id].activationAttempted)
  }

  predicate Ok(c: Config, s: State, id: string) {
    && DispatchOk(s, id)
    && (id in s.records ==> ConversationOk(c, s, id, s.records[id]) && ReceiptOk(c, s, id, s.records[id]))
  }

  ghost predicate Inv(c: Config, s: State) {
    forall id: string :: Ok(c, s, id)
  }

  predicate SameAt(s: State, t: State, x: string) {
    && (x in s.records <==> x in t.records) && (x in s.records ==> t.records[x] == s.records[x])
    && LifeOf(s, x) == LifeOf(t, x) && s.dispatched[x] == t.dispatched[x] && s.clicks[x] == t.clicks[x]
  }

  ghost predicate OnlyTouches(s: State, t: State, id: string) {
    s.seen <= t.seen && forall x: string | x != id :: SameAt(s, t, x)
  }

  /** What a reply promises, given the state before and after the call. */
  predicate ReplyOk(c: Config, s: State, t: State, q: Request, reply: Reply) {
    reply.Replied? ==>
      && (reply.receipt.status == Submitted ==>
            && reply.receipt.conversation.Some?
            && Witnessed(c, t, q.correlation, reply.receipt.conversation.value, reply.receipt.marker))
      && (reply.receipt.status == NotSubmitted ==> t.conversations == s.conversations && t.dispatched[Id(q)] == 0)
  }

  /** Clicks of one call: at most one, and none once a click may have been dispatched. */
  predicate ClicksOk(s: State, t: State, id: string) {
    && s.clicks[id] <= t.clicks[id] <= s.clicks[id] + 1 && s.dispatched[id] <= t.dispatched[id]
    && (s.dispatched[id] >= 1 ==> t.clicks[id] == s.clicks[id])
  }

  ghost predicate Sound(c: Config, s: State, q: Request, out: Out) {
    && OnlyTouches(s, out.state, Id(q)) && Ok(c, out.state, Id(q))
    && ReplyOk(c, s, out.state, q, out.reply) && ClicksOk(s, out.state, Id(q))
  }

  lemma WitnessKept(c: Config, s: State, t: State, key: TM.Correlation, conversation: string, marker: string)
    requires s.seen <= t.seen && Witnessed(c, s, key, conversation, marker)
    ensures Witnessed(c, t, key, conversation, marker)
  {
    var p :| p in s.seen && p.conversation == conversation && Identifies(c, p, key, marker);
    assert p in t.seen;
  }

  lemma OkElsewhere(c: Config, s: State, t: State, x: string)
    requires SameAt(s, t, x) && s.seen <= t.seen && Ok(c, s, x)
    ensures Ok(c, t, x)
  {
    if x in s.records {
      var r := s.records[x];
      if LifeOf(s, x).moves == 1 || r.receipt.status == Submitted {
        WitnessKept(c, s, t, Key(x, r), r.conversation, r.marker);
      }
    }
  }

  /** A sound call keeps the invariant for every submission. */
  lemma SoundKeepsInv(c: Config, s: State, q: Request, out: Out)
    requires Inv(c, s) && Sound(c, s, q, out)
    ensures Inv(c, out.state)
  {
    forall x: string ensures Ok(c, out.state, x) {
      if x != Id(q) { OkElsewhere(c, s, out.state, x); }
    }
  }

  /** A step that leaves other submissions and this one's clicks alone. */
  ghost predicate Quietly(s: State, t: State, id: string) {
    OnlyTouches(s, t, id) && t.clicks[id] == s.clicks[id] && t.dispatched[id] == s.dispatched[id]
  }

  predicate RepliesNotSubmitted(reply: Reply) {
    reply.Replied? && reply.receipt.status == NotSubmitted
  }

  lemma Compose(c: Config, s: State, s1: State, q: Request, out: Out)
    requires Quietly(s, s1, Id(q)) && Sound(c, s1, q, out)
    requires RepliesNotSubmitted(out.reply) ==> s1.conversations == s.conversations
    ensures Sound(c, s, q, out)
  {
    forall x: string | x != Id(q) ensures SameAt(s, out.state, x) {
      assert SameAt(s, s1, x) && SameAt(s1, out.state, x);
    }
  }

  lemma SeeIsHarmless(c: Config, s: State, p: Page, id: string)
    requires Ok(c, s, id)
    ensures Ok(c, See(s, p), id) && Quietly(s, See(s, p), id)
  {
    OkElsewhere(c, s, See(s, p), id);
  }

  /** Replying without touching anything, not claiming that anything was or was not submitted. */
  lemma NothingDone(c: Config, s: State, q: Request, reply: Reply)
    requires Ok(c, s, Id(q)) && (reply.Replied? ==> reply.receipt.status == Indeterminate)
    ensures Sound(c, s, q, Out(s, reply))
  {
  }

  /** `Finish` is sound when the new status agrees with the record's evidence. */
  lemma FinishSound(c: Config, s: State, q: Request, status: Status, conversation: Option<string>, code: string)
    requires Id(q) in s.records && DispatchOk(s, Id(q)) && ConversationOk(c, s, Id(q), s.records[Id(q)])
    requires Key(Id(q), s.records[Id(q)]) == q.correlation
    requires s.records[Id(q)].activationAttempted ==> status != NotSubmitted
    requires var r := s.records[Id(q)];
             status == Submitted ==>
               conversation == Some(r.conversation) && Witnessed(c, s, q.correlation, r.conversation, r.marker)
    ensures Sound(c, s, q, Finish(s, Id(q), status, conversation, code))
  {
    var r := s.records[Id(q)];
    var t := Finish(s, Id(q), status, conversation, code).state;
    if LifeOf(s, Id(q)).moves == 1 || status == Submitted {
      WitnessKept(c, s, t, q.correlation, r.conversation, r.marker);
    }
  }

  // ----- Resolve -----

  lemma PinIsQuiet(c: Config, s: State, id: string, taskId: string, conversation: string)
    ensures Quietly(s, Pin(s, taskId, conversation), id)
    ensures Ok(c, s, id) ==> Ok(c, Pin(s, taskId, conversation), id)
  {
    if Ok(c, s, id) { OkElsewhere(c, s, Pin(s, taskId, conversation), id); }
  }

  lemma RecoverSound(c: Config, s: State, q: Request, p: Page, marker: string)
    requires Ok(c, s, Id(q)) && p in s.seen && Id(q) !in s.records && Identifies(c, p, q.correlation, marker)
    ensures Sound(c, s, q, ResolveInPlace(c, s, q, p, marker))
  {
    var out := ResolveInPlace(c, s, q, p, marker);
    assert Witnessed(c, out.state, q.correlation, p.conversation, marker);
  }

  lemma ResolveInPlaceSound(c: Config, s: State, q: Request, p: Page, marker: string)
    requires Ok(c, s, Id(q)) && KnownCorrelation(s, q.correlation) && p in s.seen
    requires Id(q) in s.records ==> s.records[Id(q)].marker == marker && s.records[Id(q)].conversation == p.conversation
    ensures Sound(c, s, q, ResolveInPlace(c, s, q, p, marker))
  {
    var (id, pinned) := (Id(q), Pin(s, q.correlation.taskId, p.conversation));
    if Identifies(c, p, q.correlation, marker) {
      if id in s.records {
        PinIsQuiet(c, s, id, q.correlation.taskId, p.conversation);
        assert Witnessed(c, pinned, q.correlation, p.conversation, marker);
        FinishSound(c, pinned, q, Submitted, Some(p.conversation), "MARKER_CONFIRMED");
        Compose(c, s, pinned, q, Finish(pinned, id, Submitted, Some(p.conversation), "MARKER_CONFIRMED"));
      } else {
        RecoverSound(c, s, q, p, marker);
      }
    } else if id !in s.records {
      NothingDone(c, s, q, ResolveInPlace(c, s, q, p, marker).reply);
    } else if !s.records[id].activationAttempted {
      FinishSound(c, s, q, NotSubmitted, Some(p.conversation), "ACTIVATION_NOT_ATTEMPTED");
    } else {
      FinishSound(c, s, q, Indeterminate, Some(p.conversation), "SUBMISSION_EVIDENCE_INCONCLUSIVE");
    }
  }

  lemma AdoptSound(c: Config, s: State, id: string, p: Page)
    requires id in s.records && DispatchOk(s, id) && ConversationOk(c, s, id, s.records[id])
    requires p in s.seen && CanAdopt(c, id, s.records[id], p)
    ensures var t := Adopt(s, id, p.conversation);
            && Quietly(s, t, id) && DispatchOk(t, id) && ConversationOk(c, t, id, t.records[id])
            && Witnessed(c, t, Key(id, s.records[id]), p.conversation, s.records[id].marker)
  {
    assert p in Adopt(s, id, p.conversation).seen;
  }

  lemma ResolveAdoptedSound(c: Config, s: State, q: Request, p: Page)
    requires Ok(c, s, Id(q)) && KnownCorrelation(s, q.correlation) && p in s.seen && Id(q) in s.records
    requires s.records[Id(q)].receipt.status != Submitted && CanAdopt(c, Id(q), s.records[Id(q)], p)
    ensures Sound(c, s, q, ResolveInPlace(c, Adopt(s, Id(q), p.conversation), q, p, s.records[Id(q)].marker))
  {
    var (id, marker) := (Id(q), s.records[Id(q)].marker);
    var moved := Adopt(s, id, p.conversation);
    AdoptSound(c, s, id, p);
    ResolveInPlaceSound(c, moved, q, p, marker);
    Compose(c, s, moved, q, ResolveInPlace(c, moved, q, p, marker));
  }

  lemma ResolveOnPageSound(c: Config, s: State, q: Request, p: Page)
    requires Ok(c, s, Id(q)) && KnownCorrelation(s, q.correlation) && p in s.seen
    requires Id(q) in s.records ==> s.records[Id(q)].receipt.status != Submitted
    ensures Sound(c, s, q, ResolveOnPage(c, s, q, p))
  {
    var id := Id(q);
    var out := ResolveOnPage(c, s, q, p);
    var e := c.scanner.evidence(p.messages, q.correlation);
    var marker := if id in s.records then s.records[id].marker
                  else if e.Unique? then e.marker else c.scanner.marker(q.correlation, None);
    if id in s.records && s.records[id].conversation != p.conversation && CanAdopt(c, id, s.records[id], p) {
      ResolveAdoptedSound(c, s, q, p);
      if p.classification.state.UnapprovedHost? { NothingDone(c, s, q, out.reply); }
    } else if id in s.records && s.records[id].conversation != p.conversation {
      NothingDone(c, s, q, out.reply);
    } else {
      ResolveInPlaceSound(c, s, q, p, marker);
      if out != ResolveInPlace(c, s, q, p, marker) { NothingDone(c, s, q, out.reply); }
    }
  }

  lemma {:induction false} ResolveSound(c: Config, s: State, q: Request, env: ResolveEnv)
    requires Ok(c, s, Id(q))
    ensures Sound(c, s, q, Resolve(c, s, q, env))
  {
    var out := Resolve(c, s, q, env);
    if out.reply.Raised? && out.state == s {
      NothingDone(c, s, q, out.reply);
    } else if Id(q) in s.records && s.records[Id(q)].receipt.status == Submitted {
    } else {
      var p := env.observation.page;
      SeeIsHarmless(c, s, p, Id(q));
      ResolveOnPageSound(c, See(s, p), q, p);
      Compose(c, s, See(s, p), q, out);
    }
  }

  // ----- Confirm -----

  /** The record of a submission whose click may have been dispatched; its receipt is still to be written. */
  predicate Clicked(c: Config, s: State, q: Request) {
    var id := Id(q);
    && id in s.records && DispatchOk(s, id) && ConversationOk(c, s, id, s.records[id])
    && s.records[id].activationAttempted && s.dispatched[id] == 1 && Key(id, s.records[id]) == q.correlation
  }

  ghost predicate Confirmed(c: Config, s: State, q: Request, out: Out) {
    Sound(c, s, q, out) && out.reply.Replied? && out.reply.receipt.status != NotSubmitted
  }

  lemma ConfirmFailSound(c: Config, s: State, q: Request, code: string)
    requires Clicked(c, s, q)
    ensures Confirmed(c, s, q, ConfirmFail(s, Id(q), code))
  {
    FinishSound(c, s, q, Indeterminate, Some(s.records[Id(q)].conversation), code);
  }

  lemma ConfirmHereSound(c: Config, s: State, q: Request, p: Page)
    requires Clicked(c, s, q) && p in s.seen
    requires p.conversation == s.records[Id(q)].conversation && Identifies(c, p, q.correlation, s.records[Id(q)].marker)
    ensures Confirmed(c, s, q, ConfirmSuccess(s, Id(q)))
  {
    var r := s.records[Id(q)];
    assert Witnessed(c, s, q.correlation, r.conversation, r.marker);
    FinishSound(c, s, q, Submitted, Some(r.conversation), "MARKER_CONFIRMED");
  }

  lemma ConfirmAdoptedSound(c: Config, s: State, q: Request, p: Page)
    requires Clicked(c, s, q) && p in s.seen && CanAdopt(c, Id(q), s.records[Id(q)], p)
    ensures Confirmed(c, s, q, ConfirmSuccess(Adopt(s, Id(q), p.conversation), Id(q)))
  {
    var t := Adopt(s, Id(q), p.conversation);
    AdoptSound(c, s, Id(q), p);
    FinishSound(c, t, q, Submitted, Some(p.conversation), "MARKER_CONFIRMED");
    Compose(c, s, t, q, ConfirmSuccess(t, Id(q)));
  }

  lemma JudgeSound(c: Config, s: State, q: Request, p: Page, confirmedOnEntry: bool)
    requires Clicked(c, s, q) && p in s.seen
    ensures var v := Judge(c, s, Id(q), p, confirmedOnEntry);
            v.Settled? ==> Confirmed(c, s, q, v.out)
  {
    var r := s.records[Id(q)];
    var v := Judge(c, s, Id(q), p, confirmedOnEntry);
    if p.conversation != r.conversation && CanAdopt(c, Id(q), r, p) {
      ConfirmAdoptedSound(c, s, q, p);
    } else if p.conversation == r.conversation && Identifies(c, p, q.correlation, r.marker) {
      ConfirmHereSound(c, s, q, p);
    } else if v.Settled? {
      ConfirmFailSound(c, s, q, v.out.reply.receipt.code);
    }
  }

  lemma SeenStaysClicked(c: Config, s: State, q: Request, p: Page)
    requires Clicked(c, s, q)
    ensures Clicked(c, See(s, p), q) && Quietly(s, See(s, p), Id(q))
  {
    var r := s.records[Id(q)];
    if LifeOf(s, Id(q)).moves == 1 {
      WitnessKept(c, s, See(s, p), q.correlation, r.conversation, r.marker);
    }
  }

  lemma ConfirmOnEntrySound(c: Config, s0: State, q: Request, last: Observation)
    requires Clicked(c, s0, q)
    ensures Confirmed(c, s0, q, ConfirmOnEntry(c, s0, Id(q), last))
  {
    var id := Id(q);
    var out := ConfirmOnEntry(c, s0, id, last);
    if !last.Saw? {
      ConfirmFailSound(c, s0, q, out.reply.receipt.code);
    } else {
      var (p, s) := (last.page, See(s0, last.page));
      SeenStaysClicked(c, s0, q, p);
      var r := s.records[id];
      if p.conversation != r.conversation && CanAdopt(c, id, r, p) {
        ConfirmAdoptedSound(c, s, q, p);
      } else if p.conversation == r.conversation && Identifies(c, p, q.correlation, r.marker) {
        ConfirmSettledOnEntrySound(c, s, q, p);
      } else {
        ConfirmFailSound(c, s, q, out.reply.receipt.code);
      }
      Compose(c, s0, s, q, out);
    }
  }

  lemma ConfirmSettledOnEntrySound(c: Config, s: State, q: Request, p: Page)
    requires Clicked(c, s, q) && p in s.seen
    requires p.conversation == s.records[Id(q)].conversation && Identifies(c, p, q.correlation, s.records[Id(q)].marker)
    ensures var r := s.records[Id(q)];
            var t := Pin(Put(s, Id(q), r.(mayMaterialize := false)), r.taskId, r.conversation);
            Confirmed(c, s, q, ConfirmSuccess(t, Id(q)))
  {
    var r := s.records[Id(q)];
    var t := Pin(Put(s, Id(q), r.(mayMaterialize := false)), r.taskId, r.conversation);
    if LifeOf(s, Id(q)).moves == 1 {
      WitnessKept(c, s, t, q.correlation, r.conversation, r.marker);
    }
    ConfirmHereSound(c, t, q, p);
    Compose(c, s, t, q, ConfirmSuccess(t, Id(q)));
  }

  lemma {:induction false} ConfirmSound(c: Config, s: State, q: Request, polls: seq<Poll>, last: Observation,
      confirmedOnEntry: bool)
    requires Clicked(c, s, q)
    ensures Confirmed(c, s, q, Confirm(c, s, Id(q), polls, last, confirmedOnEntry))
    decreases |polls|
  {
    var id := Id(q);
    var out := Confirm(c, s, id, polls, last, confirmedOnEntry);
    if polls == [] {
      if confirmedOnEntry {
        ConfirmOnEntrySound(c, s, q, last);
      } else {
        ConfirmFailSound(c, s, q, "SUBMISSION_CONFIRMATION_INCONCLUSIVE");
      }
    } else if polls[0].cancelled || !polls[0].observation.Saw? {
      if !polls[0].cancelled && s.records[id].mayMaterialize && polls[0].timeLeft {
        ConfirmSound(c, s, q, polls[1..], last, confirmedOnEntry);
      } else {
        ConfirmFailSound(c, s, q, out.reply.receipt.code);
      }
    } else {
      var p := polls[0].observation.page;
      SeenStaysClicked(c, s, q, p);
      JudgeSound(c, See(s, p), q, p, confirmedOnEntry);
      var v := Judge(c, See(s, p), id, p, confirmedOnEntry);
      if v.Again? { ConfirmSound(c, See(s, p), q, polls[1..], last, v.confirmedOnEntry); }
      Compose(c, s, See(s, p), q, out);
    }
  }

  // ----- Submit -----

  /** A record that is about to be clicked, in the conversation its task is pinned to, if any. */
  predicate Ready(c: Config, s: State, q: Request) {
    var id := Id(q);
    && Ok(c, s, id) && id in s.records && !s.records[id].activationAttempted && Key(id, s.records[id]) == q.correlation
    && (Pinned(s, q.correlation.taskId).Some? ==> Pinned(s, q.correlation.taskId).value == s.records[id].conversation)
  }

  /** A refused click is undone completely. */
  lemma RefusedClickSound(c: Config, s: State, q: Request, env: SubmitEnv)
    requires Ready(c, s, q) && env.click.RefusedBeforeDispatch?
    ensures Sound(c, s, q, Click(c, s, q, env))
  {
    var (id, task, t) := (Id(q), q.correlation.taskId, Click(c, s, q, env).state);
    assert t.conversations == s.conversations;
    if LifeOf(s, id).moves == 1 {
      WitnessKept(c, s, t, q.correlation, s.records[id].conversation, s.records[id].marker);
    }
  }

  lemma ClickSound(c: Config, s: State, q: Request, env: SubmitEnv)
    requires Ready(c, s, q)
    ensures Sound(c, s, q, Click(c, s, q, env))
  {
    if env.click.RefusedBeforeDispatch? {
      RefusedClickSound(c, s, q, env);
    } else {
      var id := Id(q);
      var r := s.records[id].(activationAttempted := true);
      var t := Pin(Put(s, id, r), q.correlation.taskId, r.conversation)
               .(clicks := s.clicks + multiset{id}, dispatched := s.dispatched + multiset{id});
      if LifeOf(s, id).moves == 1 {
        WitnessKept(c, s, t, q.correlation, r.conversation, r.marker);
      }
      ConfirmSound(c, t, q, env.polls, env.last, false);
      ClickedThenConfirmed(c, s, t, q, Click(c, s, q, env));
    }
  }

  lemma ClickedThenConfirmed(c: Config, s: State, t: State, q: Request, out: Out)
    requires OnlyTouches(s, t, Id(q)) && Confirmed(c, t, q, out)
    requires s.dispatched[Id(q)] == 0 && t.dispatched[Id(q)] == 1 && t.clicks[Id(q)] == s.clicks[Id(q)] + 1
    ensures Sound(c, s, q, out)
  {
    forall x: string | x != Id(q) ensures SameAt(s, out.state, x) {
      assert SameAt(s, t, x) && SameAt(t, out.state, x);
    }
  }

  lemma SeenStaysReady(c: Config, s: State, q: Request, p: Page)
    requires Ready(c, s, q)
    ensures Ready(c, See(s, p), q) && Quietly(s, See(s, p), Id(q))
  {
    SeeIsHarmless(c, s, p, Id(q));
  }

  lemma RecheckSound(c: Config, s: State, q: Request, env: SubmitEnv)
    requires Ready(c, s, q)
    ensures Sound(c, s, q, Recheck(c, s, q, env))
  {
    var out := Recheck(c, s, q, env);
    var conversation := Some(s.records[Id(q)].conversation);
    if !env.second.Saw? {
      FinishSound(c, s, q, NotSubmitted, conversation, out.reply.receipt.code);
    } else {
      var (p, s1) := (env.second.page, See(s, env.second.page));
      SeenStaysReady(c, s, q, p);
      if env.usableAfterSecond && p.classification.state.Ready? && p.sendActionable
         && Some(p.conversation) == conversation {
        ClickSound(c, s1, q, env);
      } else {
        FinishSound(c, s1, q, NotSubmitted, conversation, out.reply.receipt.code);
      }
      Compose(c, s, s1, q, out);
    }
  }

  lemma FillSound(c: Config, s: State, q: Request, env: SubmitEnv)
    requires Ready(c, s, q)
    ensures Sound(c, s, q, Fill(c, s, q, env))
  {
    if env.fill.Done? {
      RecheckSound(c, s, q, env);
    } else {
      var receipt := Fill(c, s, q, env).reply.receipt;
      FinishSound(c, s, q, receipt.status, Some(s.records[Id(q)].conversation), receipt.code);
    }
  }

  lemma StoreKnownNotSubmittedSound(c: Config, s: State, q: Request, code: string, conversation: Option<string>)
    requires Ok(c, s, Id(q)) && s.dispatched[Id(q)] == 0
    ensures Sound(c, s, q, StoreKnownNotSubmitted(c, s, q, code, conversation))
  {
  }

  /** A fresh record is ready to be clicked. */
  lemma CreateIsReady(c: Config, s: State, q: Request, marker: string, p: Page, known: bool,
      recovered: Option<TM.Baseline>)
    requires Ok(c, s, Id(q)) && s.dispatched[Id(q)] == 0
    requires Pinned(s, q.correlation.taskId).Some? ==> Pinned(s, q.correlation.taskId).value == p.conversation
    ensures var t := Create(s, Id(q), CreateRecord(c, s, q, marker, p, known, recovered), p.onEntryRoute);
            Ready(c, t, q) && Quietly(s, t, Id(q))
  {
  }

  lemma RecoveredMarkerSound(c: Config, s: State, q: Request, p: Page, baseline: Option<TM.Baseline>, marker: string)
    requires Ok(c, s, Id(q)) && s.dispatched[Id(q)] == 0 && p in s.seen && Identifies(c, p, q.correlation, marker)
    requires Pinned(s, q.correlation.taskId).Some? ==> Pinned(s, q.correlation.taskId).value == p.conversation
    ensures var t := Create(s, Id(q), CreateRecord(c, s, q, marker, p, baseline.Some?, baseline), p.onEntryRoute);
            var pinned := Pin(t, q.correlation.taskId, p.conversation);
            Sound(c, s, q, Finish(pinned, Id(q), Submitted, Some(p.conversation), "MARKER_RECOVERED"))
  {
    var t := Create(s, Id(q), CreateRecord(c, s, q, marker, p, baseline.Some?, baseline), p.onEntryRoute);
    var pinned := Pin(t, q.correlation.taskId, p.conversation);
    CreateIsReady(c, s, q, marker, p, baseline.Some?, baseline);
    PinIsQuiet(c, t, Id(q), q.correlation.taskId, p.conversation);
    assert Witnessed(c, pinned, q.correlation, p.conversation, marker);
    var out := Finish(pinned, Id(q), Submitted, Some(p.conversation), "MARKER_RECOVERED");
    FinishSound(c, pinned, q, Submitted, Some(p.conversation), "MARKER_RECOVERED");
    Compose(c, t, pinned, q, out);
    Compose(c, s, t, q, out);
  }

  lemma AmbiguousMarkerSound(c: Config, s: State, q: Request, p: Page, marker: string)
    requires Ok(c, s, Id(q)) && s.dispatched[Id(q)] == 0
    requires Pinned(s, q.correlation.taskId).Some? ==> Pinned(s, q.correlation.taskId).value == p.conversation
    ensures var t := Create(s, Id(q), CreateRecord(c, s, q, marker, p, false, None), p.onEntryRoute);
            Sound(c, s, q, Finish(t, Id(q), Indeterminate, Some(p.conversation), "TASK_MARKER_AMBIGUOUS"))
  {
    var t := Create(s, Id(q), CreateRecord(c, s, q, marker, p, false, None), p.onEntryRoute);
    CreateIsReady(c, s, q, marker, p, false, None);
    FinishSound(c, t, q, Indeterminate, Some(p.conversation), "TASK_MARKER_AMBIGUOUS");
    Compose(c, s, t, q, Finish(t, Id(q), Indeterminate, Some(p.conversation), "TASK_MARKER_AMBIGUOUS"));
  }

  lemma FreshMarkerSound(c: Config, s: State, q: Request, p: Page, marker: string, env: SubmitEnv)
    requires Ok(c, s, Id(q)) && s.dispatched[Id(q)] == 0
    requires Pinned(s, q.correlation.taskId).Some? ==> Pinned(s, q.correlation.taskId).value == p.conversation
    ensures var t := Create(s, Id(q), CreateRecord(c, s, q, marker, p, true, None), p.onEntryRoute);
            Sound(c, s, q, Fill(c, t, q, env))
  {
    var t := Create(s, Id(q), CreateRecord(c, s, q, marker, p, true, None), p.onEntryRoute);
    CreateIsReady(c, s, q, marker, p, true, None);
    FillSound(c, t, q, env);
    Compose(c, s, t, q, Fill(c, t, q, env));
  }

  lemma BeginSound(c: Config, s: State, q: Request, p: Page, env: SubmitEnv)
    requires Ok(c, s, Id(q)) && s.dispatched[Id(q)] == 0 && p in s.seen
    requires Pinned(s, q.correlation.taskId).Some? ==> Pinned(s, q.correlation.taskId).value == p.conversation
    ensures Sound(c, s, q, Begin(c, s, q, p, env))
  {
    var texts := C.Envelopes(p.responses);
    var marker := c.scanner.marker(q.correlation, Some(TM.Baseline(|texts|, c.hasher.ofSequence(texts))));
    match c.scanner.evidence(p.messages, q.correlation)
    case Unique(found, baseline) => RecoveredMarkerSound(c, s, q, p, baseline, found);
    case Ambiguous => AmbiguousMarkerSound(c, s, q, p, marker);
    case Absent => FreshMarkerSound(c, s, q, p, marker, env);
  }

  lemma AttemptOnPageSound(c: Config, s: State, q: Request, p: Page, env: SubmitEnv)
    requires Ok(c, s, Id(q)) && s.dispatched[Id(q)] == 0 && p in s.seen
    ensures Sound(c, s, q, AttemptOnPage(c, s, q, p, env))
  {
    if !p.classification.state.Ready? {
      StoreKnownNotSubmittedSound(c, s, q, p.classification.code, None);
    } else if q.expected.Some? && q.expected.value != p.conversation {
      StoreKnownNotSubmittedSound(c, s, q, "CONVERSATION_MISMATCH", Some(p.conversation));
    } else if Pinned(s, q.correlation.taskId).Some? && Pinned(s, q.correlation.taskId).value != p.conversation {
      StoreKnownNotSubmittedSound(c, s, q, "TASK_CONVERSATION_MISMATCH", Some(p.conversation));
    } else {
      BeginSound(c, s, q, p, env);
    }
  }

  lemma AttemptSound(c: Config, s: State, q: Request, env: SubmitEnv)
    requires Ok(c, s, Id(q)) && s.dispatched[Id(q)] == 0
    ensures Sound(c, s, q, Attempt(c, s, q, env))
  {
    if env.first.Saw? {
      var s1 := See(s, env.first.page);
      SeeIsHarmless(c, s, env.first.page, Id(q));
      if env.usableAfterFirst { AttemptOnPageSound(c, s1, q, env.first.page, env); }
      Compose(c, s, s1, q, Attempt(c, s, q, env));
    }
  }

  lemma ResolveNeverClicks(c: Config, s: State, q: Request, env: ResolveEnv)
    ensures Resolve(c, s, q, env).state.clicks == s.clicks && Resolve(c, s, q, env).state.dispatched == s.dispatched
  {
  }

  lemma SubmitKnownSound(c: Config, s: State, q: Request, env: SubmitEnv)
    requires Ok(c, s, Id(q)) && Id(q) in s.records
    ensures Sound(c, s, q, SubmitKnown(c, s, q, env))
  {
    var r := s.records[Id(q)];
    var out := SubmitKnown(c, s, q, env);
    if SameTurn(q.correlation, r.taskId, r.turnId) && r.contentSha256 == c.hasher.ofText(q.content) {
      match r.receipt.status
      case Submitted =>
      case NotSubmitted => AttemptSound(c, s, q, env);
      case Indeterminate =>
        var resolved := Resolve(c, s, q, env.resolve);
        ResolveSound(c, s, q, env.resolve);
        ResolveNeverClicks(c, s, q, env.resolve);
        if RepliesNotSubmitted(resolved.reply) {
          AttemptSound(c, resolved.state, q, env);
          Compose(c, s, resolved.state, q, out);
        }
    }
  }

  lemma {:induction false} SubmitSound(c: Config, s0: State, q: Request, env: SubmitEnv)
    requires Ok(c, s0, Id(q))
    ensures Sound(c, s0, q, Submit(c, s0, q, env))
  {
    var out := Submit(c, s0, q, env);
    if out != Out(s0, out.reply) || !out.reply.Raised? {
      var identity := Identity(q.correlation.taskId, q.correlation.turnId, c.hasher.ofText(q.content));
      var s := s0.(identities := s0.identities[Id(q) := identity]);
      OkElsewhere(c, s0, s, Id(q));
      if Id(q) in s.records { SubmitKnownSound(c, s, q, env); } else { AttemptSound(c, s, q, env); }
      Compose(c, s0, s, q, out);
    }
  }

  // ----- All runs -----

  datatype Call =
    | SubmitCall(q: Request, submitEnv: SubmitEnv)
    | ResolveCall(q: Request, resolveEnv: ResolveEnv)
    | ReceiveCall(q: Request, receiveEnv: ReceiveEnv)

  function Perform(c: Config, s: State, call: Call): State {
    match call
    case SubmitCall(q, env) => Submit(c, s, q, env).state
    case ResolveCall(q, env) => Resolve(c, s, q, env).state
    case ReceiveCall(q, env) => Receive(c, s, q, env).state
  }

  function RunFrom(c: Config, s: State, calls: seq<Call>): State {
    if calls == [] then s else Perform(c, RunFrom(c, s, calls[..|calls| - 1]), calls[|calls| - 1])
  }

  /** A run of a new adapter. */
  function Run(c: Config, calls: seq<Call>): State {
    RunFrom(c, Initial, calls)
  }

  lemma PerformKeepsInv(c: Config, s: State, call: Call)
    requires Inv(c, s)
    ensures Inv(c, Perform(c, s, call))
  {
    assert Ok(c, s, Id(call.q));
    match call
    case SubmitCall(q, env) =>
      SubmitSound(c, s, q, env);
      SoundKeepsInv(c, s, q, Submit(c, s, q, env));
    case ResolveCall(q, env) =>
      ResolveSound(c, s, q, env);
      SoundKeepsInv(c, s, q, Resolve(c, s, q, env));
    case ReceiveCall(q, env) =>
      ResolveSound(c, s, q, env.resolve);
      SoundKeepsInv(c, s, q, Resolve(c, s, q, env.resolve));
  }

  lemma {:induction false} RunFromKeepsInv(c: Config, s: State, calls: seq<Call>)
    requires Inv(c, s)
    ensures Inv(c, RunFrom(c, s, calls))
  {
    if calls == [] {
    } else {
      RunFromKeepsInv(c, s, calls[..|calls| - 1]);
      PerformKeepsInv(c, RunFrom(c, s, calls[..|calls| - 1]), calls[|calls| - 1]);
    }
  }

  lemma RunKeepsInv(c: Config, calls: seq<Call>)
    ensures Inv(c, Run(c, calls))
  {
    assert forall id: string :: Ok(c, Initial, id);
    RunFromKeepsInv(c, Initial, calls);
  }

  /** At-most-once dispatch: no run of calls dispatches two clicks for one submission id. */
  lemma {:induction false} AtMostOneDispatch(c: Config, calls: seq<Call>, id: string)
    ensures Run(c, calls).dispatched[id] <= 1
  {
    RunKeepsInv(c, calls);
    assert Ok(c, Run(c, calls), id);
  }

  lemma SoundClicksNoMore(c: Config, s: State, q: Request, out: Out, id: string)
    requires Inv(c, s) && s.dispatched[id] == 1 && Sound(c, s, q, out)
    ensures out.state.clicks[id] == s.clicks[id] && out.state.dispatched[id] == 1
  {
    if Id(q) != id { assert SameAt(s, out.state, id); }
  }

  lemma PerformClicksNoMore(c: Config, s: State, call: Call, id: string)
    requires Inv(c, s) && s.dispatched[id] == 1
    ensures var t := Perform(c, s, call); t.clicks[id] == s.clicks[id] && t.dispatched[id] == 1
  {
    assert Ok(c, s, Id(call.q));
    match call
    case SubmitCall(q, env) =>
      SubmitSound(c, s, q, env);
      SoundClicksNoMore(c, s, q, Submit(c, s, q, env), id);
    case ResolveCall(q, env) =>
      ResolveSound(c, s, q, env);
      SoundClicksNoMore(c, s, q, Resolve(c, s, q, env), id);
    case ReceiveCall(q, env) =>
      ResolveSound(c, s, q, env.resolve);
      SoundClicksNoMore(c, s, q, Resolve(c, s, q, env.resolve), id);
  }

  lemma {:induction false} RunClicksNoMore(c: Config, s: State, calls: seq<Call>, id: string)
    requires Inv(c, s) && s.dispatched[id] == 1
    ensures var t := RunFrom(c, s, calls); Inv(c, t) && t.clicks[id] == s.clicks[id] && t.dispatched[id] == 1
  {
    if calls == [] {
    } else {
      var before := RunFrom(c, s, calls[..|calls| - 1]);
      RunClicksNoMore(c, s, calls[..|calls| - 1], id);
      PerformKeepsInv(c, before, calls[|calls| - 1]);
      PerformClicksNoMore(c, before, calls[|calls| - 1], id);
    }
  }

  /**
   Once a click may have been dispatched, no later run of calls clicks again for that submission, and no call after
   any such run reports it not submitted.
   */
  lemma {:induction false} NothingAfterDispatch(c: Config, calls: seq<Call>, later: seq<Call>, q: Request,
      env: SubmitEnv)
    requires Run(c, calls).dispatched[Id(q)] > 0
    ensures var (s, t) := (Run(c, calls), RunFrom(c, Run(c, calls), later));
            && t.clicks[Id(q)] == s.clicks[Id(q)]
            && !RepliesNotSubmitted(Submit(c, t, q, env).reply)
            && !RepliesNotSubmitted(Resolve(c, t, q, env.resolve).reply)
  {
    RunKeepsInv(c, calls);
    assert Ok(c, Run(c, calls), Id(q));
    RunClicksNoMore(c, Run(c, calls), later, Id(q));
    var t := RunFrom(c, Run(c, calls), later);
    assert Ok(c, t, Id(q));
    SubmitSound(c, t, q, env);
    ResolveSound(c, t, q, env.resolve);
  }

  /** A `not-submitted` answer leaves every pinned conversation as it was, and nothing was ever dispatched. */
  lemma {:induction false} NotSubmittedChangesNothing(c: Config, calls: seq<Call>, q: Request, env: SubmitEnv)
    ensures var (s, out) := (Run(c, calls), Submit(c, Run(c, calls), q, env));
            RepliesNotSubmitted(out.reply) ==>
              out.state.conversations == s.conversations && out.state.dispatched[Id(q)] == 0
    ensures var (s, out) := (Run(c, calls), Resolve(c, Run(c, calls), q, env.resolve));
            RepliesNotSubmitted(out.reply) ==>
              out.state.conversations == s.conversations && out.state.dispatched[Id(q)] == 0
  {
    RunKeepsInv(c, calls);
    assert Ok(c, Run(c, calls), Id(q));
    SubmitSound(c, Run(c, calls), q, env);
    ResolveSound(c, Run(c, calls), q, env.resolve);
  }

  /** Every `submitted` receipt, on whichever path, names a conversation in which the unique marker was observed. */
  lemma {:induction false} SubmittedHasEvidence(c: Config, calls: seq<Call>, q: Request, env: SubmitEnv,
      reply: Reply, t: State)
    requires Out(t, reply) == Submit(c, Run(c, calls), q, env)
             || Out(t, reply) == Resolve(c, Run(c, calls), q, env.resolve)
    requires reply.Replied? && reply.receipt.status == Submitted
    ensures reply.receipt.conversation.Some?
    ensures Witnessed(c, t, q.correlation, reply.receipt.conversation.value, reply.receipt.marker)
  {
    RunKeepsInv(c, calls);
    assert Ok(c, Run(c, calls), Id(q));
    SubmitSound(c, Run(c, calls), q, env);
    ResolveSound(c, Run(c, calls), q, env.resolve);
  }

  /** A record's conversation moves at most once, only if it was created on the entry route, and only to its marker. */
  lemma {:induction false} ConversationMovesAtMostOnce(c: Config, calls: seq<Call>, id: string)
    requires id in Run(c, calls).records
    ensures var (s, r, life) := (Run(c, calls), Run(c, calls).records[id], LifeOf(Run(c, calls), id));
            && life.moves <= 1 && (r.conversation != life.birthplace ==> life.moves == 1)
            && (life.moves == 1 ==> life.onEntryRoute && Witnessed(c, s, Key(id, r), r.conversation, r.marker))
  {
    RunKeepsInv(c, calls);
    assert Ok(c, Run(c, calls), id);
  }

  // ----- Receive -----

  /**
   A completed answer belongs to a submission that was proved: the record's marker was observed in the record's
   conversation, and the answer was stable there (`ResponseWait.CompletedMeansStable`).
   */
  lemma {:induction false} CompletedAnswerIsProved(c: Config, calls: seq<Call>, q: Request,
      env: ReceiveEnv) returns (from: nat, n: nat)
    requires var out := Receive(c, Run(c, calls), q, env); out.received.Waited? && out.received.outcome.Completed?
    ensures var out := Receive(c, Run(c, calls), q, env);
            && Id(q) in out.state.records
            && var r := out.state.records[Id(q)];
               && r.baselineKnown && r.receipt.status == Submitted
               && Witnessed(c, out.state, q.correlation, r.conversation, r.marker)
               && W.Justifies(WaitConfig(c, Id(q), r), env.samples, from, n,
                              out.received.outcome.content, out.received.outcome.capture)
  {
    var s := Run(c, calls);
    var out := Resolve(c, s, q, env.resolve);
    RunKeepsInv(c, calls);
    assert Ok(c, s, Id(q));
    ResolveSound(c, s, q, env.resolve);
    var r := out.state.records[Id(q)];
    from, n := W.CompletedMeansStable(WaitConfig(c, Id(q), r), env.samples);
    SubmittedReplyIsRecorded(c, s, q, env.resolve);
  }

  lemma RecordedInPlace(c: Config, s: State, q: Request, p: Page, marker: string)
    requires KnownCorrelation(s, q.correlation)
    requires var out := ResolveInPlace(c, s, q, p, marker); out.reply.receipt.status == Submitted
    ensures var out := ResolveInPlace(c, s, q, p, marker);
            && Id(q) in out.state.records && out.state.records[Id(q)].receipt == out.reply.receipt
            && Key(Id(q), out.state.records[Id(q)]) == q.correlation
  {
  }

  /** A `submitted` answer of `resolveSubmission` is the receipt of the record. */
  lemma SubmittedReplyIsRecorded(c: Config, s: State, q: Request, env: ResolveEnv)
    requires var out := Resolve(c, s, q, env); out.reply.Replied? && out.reply.receipt.status == Submitted
    ensures var out := Resolve(c, s, q, env);
            && Id(q) in out.state.records && out.state.records[Id(q)].receipt == out.reply.receipt
            && Key(Id(q), out.state.records[Id(q)]) == q.correlation
  {
    var id := Id(q);
    if id in s.records && s.records[id].receipt.status == Submitted {
      assert Resolve(c, s, q, env).state == s;
    } else {
      var (p, t) := (env.observation.page, See(s, env.observation.page));
      var marker := Resolve(c, s, q, env).reply.receipt.marker;
      if id in s.records && s.records[id].conversation != p.conversation {
        RecordedInPlace(c, Adopt(t, id, p.conversation), q, p, marker);
      } else {
        RecordedInPlace(c, t, q, p, marker);
      }
    }
  }

  /** `submitted` is final: no later call changes the record of a submission that was proved. */
  lemma {:induction false} SubmittedIsFinal(c: Config, s: State, call: Call, id: string)
    requires Inv(c, s) && id in s.records && s.records[id].receipt.status == Submitted
    ensures var t := Perform(c, s, call); id in t.records && t.records[id] == s.records[id]
  {
    if Id(call.q) != id {
      assert Ok(c, s, Id(call.q));
      if call.SubmitCall? { SubmitSound(c, s, call.q, call.submitEnv); }
      if call.ResolveCall? { ResolveSound(c, s, call.q, call.resolveEnv); }
      if call.ReceiveCall? { ResolveSound(c, s, call.q, call.receiveEnv.resolve); }
      assert SameAt(s, Perform(c, s, call), id);
    } else if call.SubmitCall? {
      assert Perform(c, s, call).records == s.records;
    } else {
      assert Perform(c, s, call) == s;
    }
  }

  lemma {:induction false} SubmittedIsFinalInRuns(c: Config, s: State, calls: seq<Call>, id: string)
    requires Inv(c, s) && id in s.records && s.records[id].receipt.status == Submitted
    ensures var t := RunFrom(c, s, calls); Inv(c, t) && id in t.records && t.records[id] == s.records[id]
  {
    if calls == [] {
    } else {
      SubmittedIsFinalInRuns(c, s, calls[..|calls| - 1], id);
      var t := RunFrom(c, s, calls[..|calls| - 1]);
      PerformKeepsInv(c, t, calls[|calls| - 1]);
      SubmittedIsFinal(c, t, calls[|calls| - 1], id);
    }
  }
}
