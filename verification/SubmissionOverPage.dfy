/**
 The adapter on top of the page it clicks: how many messages can really leave, whatever the page reports.

 The adapter trusts a refusal to have dispatched nothing, and one kind of refused click is issued all the same
 (`PageTransaction.RefusedClickDispatchedExactlyWhen`). Composed with the page, at most one message per submission
 leaves nevertheless, because that page is revoked and nothing leaves a revoked page.
 */
module SubmissionOverPage {
  import opened Basics
  import opened BrowserPage
  import A = BrowserAdapter
  import C = ResponseCorrelation
  import P = PageTransaction
  import TM = TaskMarker

  /** `sent` counts, by submission, the clicks that were issued: each may have sent the message. */
  datatype Sys = Sys(adapter: A.State, page: P.State, sent: multiset<string>)

  /**
   One call of the adapter, with whatever else is asked of the page meanwhile. A submit may reach one click; its
   result is the one the page gives, in place of the one in `env`. What the adapter observes stays arbitrary.
   */
  datatype Turn =
    | SubmitTurn(q: A.Request, env: A.SubmitEnv, before: seq<P.Call>, clickEnv: P.ClickEnv, after: seq<P.Call>)
    | OtherTurn(call: A.Call, during: seq<P.Call>)

  predicate ClickFree(calls: seq<P.Call>) {
    forall i | 0 <= i < |calls| :: !calls[i].ClickCall?
  }

  function Submit(c: A.Config, s: P.Policy, sys: Sys, turn: Turn): Sys
    requires turn.SubmitTurn?
  {
    var id := A.Id(turn.q);
    var ready := P.RunFrom(s, sys.page, turn.before);
    var click := P.Click(s, ready, turn.clickEnv);
    var out := A.Submit(c, sys.adapter, turn.q, turn.env.(click := click.result));
    var clicked := out.state.clicks[id] > sys.adapter.clicks[id];
    var page := if clicked then click.state else ready;
    var left := P.Dispatches(page.log) > P.Dispatches(ready.log);
    Sys(out.state, P.RunFrom(s, page, turn.after), if left then sys.sent + multiset{id} else sys.sent)
  }

  /** A turn that is not one, a submit outside its own turn or a click outside a submit, changes nothing. */
  function Perform(c: A.Config, s: P.Policy, sys: Sys, turn: Turn): Sys {
    match turn
    case SubmitTurn(_, _, before, _, after) =>
      if ClickFree(before) && ClickFree(after) then Submit(c, s, sys, turn) else sys
    case OtherTurn(call, during) =>
      if ClickFree(during) && !call.SubmitCall?
      then sys.(adapter := A.Perform(c, sys.adapter, call), page := P.RunFrom(s, sys.page, during)) else sys
  }

  function RunFrom(c: A.Config, s: P.Policy, sys: Sys, turns: seq<Turn>): Sys {
    if turns == [] then sys
    else Perform(c, s, RunFrom(c, s, sys, turns[..|turns| - 1]), turns[|turns| - 1])
  }

  /** A run of a new adapter over a new page. */
  function Run(c: A.Config, s: P.Policy, page: P.PageId, turns: seq<Turn>): Sys {
    RunFrom(c, s, Sys(A.Initial, P.Initial(page), multiset{}), turns)
  }

  // ----- What one submit does to its counters -----

  /** At most one click, and one that was not refused counts as dispatched. */
  predicate Accounted(s: A.State, t: A.State, id: string, action: Action) {
    || t.clicks[id] == s.clicks[id]
    || (t.clicks[id] == s.clicks[id] + 1 && (action.RefusedBeforeDispatch? || t.dispatched[id] > s.dispatched[id]))
  }

  predicate SameClicks(s: A.State, t: A.State) {
    t.clicks == s.clicks && t.dispatched == s.dispatched
  }

  lemma JudgeClicksNothing(c: A.Config, s: A.State, id: string, p: Page, confirmedOnEntry: bool)
    requires id in s.records
    ensures var v := A.Judge(c, s, id, p, confirmedOnEntry); v.Settled? ==> SameClicks(s, v.out.state)
  {
  }

  lemma EntryClicksNothing(c: A.Config, s: A.State, id: string, last: Observation)
    requires id in s.records
    ensures SameClicks(s, A.ConfirmOnEntry(c, s, id, last).state)
  {
  }

  lemma {:induction false} ConfirmClicksNothing(c: A.Config, s: A.State, id: string, polls: seq<A.Poll>,
      last: Observation, confirmedOnEntry: bool)
    requires id in s.records
    ensures SameClicks(s, A.Confirm(c, s, id, polls, last, confirmedOnEntry).state)
    decreases |polls|
  {
    if polls == [] {
      EntryClicksNothing(c, s, id, last);
    } else if !polls[0].cancelled && !polls[0].observation.Saw? {
      ConfirmClicksNothing(c, s, id, polls[1..], last, confirmedOnEntry);
    } else if !polls[0].cancelled {
      var (p, seen) := (polls[0].observation.page, A.See(s, polls[0].observation.page));
      JudgeClicksNothing(c, seen, id, p, confirmedOnEntry);
      var v := A.Judge(c, seen, id, p, confirmedOnEntry);
      if v.Again? { ConfirmClicksNothing(c, seen, id, polls[1..], last, v.confirmedOnEntry); }
    }
  }

  lemma ClickAccounted(c: A.Config, s: A.State, q: A.Request, env: A.SubmitEnv)
    requires A.Id(q) in s.records
    ensures Accounted(s, A.Click(c, s, q, env).state, A.Id(q), env.click)
  {
    var id := A.Id(q);
    var r := s.records[id].(activationAttempted := true);
    var t := A.Pin(A.Put(s, id, r), q.correlation.taskId, r.conversation)
             .(clicks := s.clicks + multiset{id}, dispatched := s.dispatched + multiset{id});
    ConfirmClicksNothing(c, t, id, env.polls, env.last, false);
  }

  lemma FillAccounted(c: A.Config, s: A.State, q: A.Request, env: A.SubmitEnv)
    requires A.Id(q) in s.records
    ensures Accounted(s, A.Fill(c, s, q, env).state, A.Id(q), env.click)
  {
    if env.fill.Done? && env.second.Saw? {
      ClickAccounted(c, A.See(s, env.second.page), q, env);
    }
  }

  lemma BeginAccounted(c: A.Config, s: A.State, q: A.Request, p: Page, env: A.SubmitEnv)
    ensures Accounted(s, A.Begin(c, s, q, p, env).state, A.Id(q), env.click)
  {
    var texts := C.Envelopes(p.responses);
    var marker := c.scanner.marker(q.correlation, Some(TM.Baseline(|texts|, c.hasher.ofSequence(texts))));
    if c.scanner.evidence(p.messages, q.correlation).Absent? {
      var t := A.Create(s, A.Id(q), A.CreateRecord(c, s, q, marker, p, true, None), p.onEntryRoute);
      FillAccounted(c, t, q, env);
    }
  }

  lemma AttemptOnPageAccounted(c: A.Config, s: A.State, q: A.Request, p: Page, env: A.SubmitEnv)
    ensures Accounted(s, A.AttemptOnPage(c, s, q, p, env).state, A.Id(q), env.click)
  {
    BeginAccounted(c, s, q, p, env);
  }

  lemma AttemptAccounted(c: A.Config, s: A.State, q: A.Request, env: A.SubmitEnv)
    ensures Accounted(s, A.Attempt(c, s, q, env).state, A.Id(q), env.click)
  {
    if env.first.Saw? && env.usableAfterFirst {
      AttemptOnPageAccounted(c, A.See(s, env.first.page), q, env.first.page, env);
    }
  }

  lemma SubmitAccounted(c: A.Config, s: A.State, q: A.Request, env: A.SubmitEnv)
    ensures Accounted(s, A.Submit(c, s, q, env).state, A.Id(q), env.click)
  {
    var identity := A.Identity(q.correlation.taskId, q.correlation.turnId, c.hasher.ofText(q.content));
    var t := s.(identities := s.identities[A.Id(q) := identity]);
    AttemptAccounted(c, t, q, env);
    AttemptAccounted(c, A.Resolve(c, t, q, env.resolve).state, q, env);
    A.ResolveNeverClicks(c, t, q, env.resolve);
  }

  // ----- All runs -----

  /** A message that left is known to the adapter, or the page that sent it is revoked. */
  predicate SentOk(sys: Sys, id: string) {
    sys.sent[id] <= 1 && (sys.sent[id] == 1 ==> sys.adapter.dispatched[id] == 1 || sys.page.revoked)
  }

  ghost predicate Inv(c: A.Config, sys: Sys) {
    && A.Inv(c, sys.adapter) && (forall id: string :: SentOk(sys, id))
    && |sys.sent| == P.Dispatches(sys.page.log)
  }

  lemma SubmitCounts(c: A.Config, s: P.Policy, sys: Sys, turn: Turn)
    requires Inv(c, sys) && turn.SubmitTurn? && ClickFree(turn.before) && ClickFree(turn.after)
    ensures var t := Submit(c, s, sys, turn);
            && A.Inv(c, t.adapter) && |t.sent| == P.Dispatches(t.page.log) && (sys.page.revoked ==> t.page.revoked)
            && (t.sent == sys.sent
                || (t.sent == sys.sent + multiset{A.Id(turn.q)} && !sys.page.revoked
                    && sys.adapter.dispatched[A.Id(turn.q)] == 0
                    && (t.adapter.dispatched[A.Id(turn.q)] == 1 || t.page.revoked)))
  {
    var (id, q) := (A.Id(turn.q), turn.q);
    var ready := P.RunFrom(s, sys.page, turn.before);
    var click := P.Click(s, ready, turn.clickEnv);
    var env := turn.env.(click := click.result);
    var out := A.Submit(c, sys.adapter, q, env);
    var page := if out.state.clicks[id] > sys.adapter.clicks[id] then click.state else ready;
    P.OnlyClicksDispatch(s, sys.page, turn.before);
    P.ClickDispatchesAtMostOnce(s, ready, turn.clickEnv);
    P.OnlyClicksDispatch(s, page, turn.after);
    SubmitAccounted(c, sys.adapter, q, env);
    assert A.Ok(c, sys.adapter, id);
    A.SubmitSound(c, sys.adapter, q, env);
    A.SoundKeepsInv(c, sys.adapter, q, out);
    assert A.Ok(c, out.state, id);
  }

  lemma SubmitKeepsInv(c: A.Config, s: P.Policy, sys: Sys, turn: Turn)
    requires Inv(c, sys) && turn.SubmitTurn? && ClickFree(turn.before) && ClickFree(turn.after)
    ensures Inv(c, Submit(c, s, sys, turn))
  {
    var t := Submit(c, s, sys, turn);
    SubmitCounts(c, s, sys, turn);
    A.PerformKeepsInv(c, sys.adapter, A.SubmitCall(turn.q, AsClicked(c, s, sys, turn)));
    forall id: string ensures SentOk(t, id) {
      assert SentOk(sys, id);
      DispatchStays(c, sys.adapter, A.SubmitCall(turn.q, AsClicked(c, s, sys, turn)), id);
    }
  }

  function AsClicked(c: A.Config, s: P.Policy, sys: Sys, turn: Turn): A.SubmitEnv
    requires turn.SubmitTurn?
  {
    turn.env.(click := P.Click(s, P.RunFrom(s, sys.page, turn.before), turn.clickEnv).result)
  }

  lemma DispatchStays(c: A.Config, s: A.State, call: A.Call, id: string)
    requires A.Inv(c, s)
    ensures s.dispatched[id] == 1 ==> A.Perform(c, s, call).dispatched[id] == 1
  {
    if s.dispatched[id] == 1 { A.PerformClicksNoMore(c, s, call, id); }
  }

  lemma PerformKeepsInv(c: A.Config, s: P.Policy, sys: Sys, turn: Turn)
    requires Inv(c, sys)
    ensures Inv(c, Perform(c, s, sys, turn))
  {
    match turn
    case SubmitTurn(_, _, before, _, after) =>
      if ClickFree(before) && ClickFree(after) { SubmitKeepsInv(c, s, sys, turn); }
    case OtherTurn(call, during) =>
      if ClickFree(during) && !call.SubmitCall? {
        A.PerformKeepsInv(c, sys.adapter, call);
        P.OnlyClicksDispatch(s, sys.page, during);
        forall id: string ensures SentOk(Perform(c, s, sys, turn), id) {
          assert SentOk(sys, id);
          DispatchStays(c, sys.adapter, call, id);
        }
      }
  }

  lemma {:induction false} RunKeepsInv(c: A.Config, s: P.Policy, page: P.PageId, turns: seq<Turn>)
    ensures Inv(c, Run(c, s, page, turns))
  {
    if turns == [] {
      A.RunKeepsInv(c, []);
    } else {
      RunKeepsInv(c, s, page, turns[..|turns| - 1]);
      PerformKeepsInv(c, s, Run(c, s, page, turns[..|turns| - 1]), turns[|turns| - 1]);
    }
  }

  /**
   At most one message per submission leaves through one page, even if a refused click was issued; and the clicks
   counted are all that were.
   */
  lemma {:induction false} AtMostOneMessage(c: A.Config, s: P.Policy, page: P.PageId, turns: seq<Turn>, id: string)
    ensures Run(c, s, page, turns).sent[id] <= 1
    ensures |Run(c, s, page, turns).sent| == P.Dispatches(Run(c, s, page, turns).page.log)
  {
    RunKeepsInv(c, s, page, turns);
    assert SentOk(Run(c, s, page, turns), id);
  }

  // ----- After a misreported click -----

  lemma RevokedPageStays(c: A.Config, s: P.Policy, sys: Sys, turn: Turn)
    requires sys.page.revoked
    ensures var t := Perform(c, s, sys, turn); t.page == sys.page && t.sent == sys.sent
  {
    match turn
    case SubmitTurn(_, _, before, clickEnv, after) =>
      P.RevokedIsInert(s, sys.page, before);
      P.ClickDispatchesAtMostOnce(s, sys.page, clickEnv);
      P.RevokedIsInert(s, sys.page, after);
    case OtherTurn(_, during) => P.RevokedIsInert(s, sys.page, during);
  }

  /** Whatever the adapter is asked to do, and whatever else happens to the page, nothing leaves a revoked page. */
  lemma {:induction false} NothingLeavesRevokedPage(c: A.Config, s: P.Policy, sys: Sys, turns: seq<Turn>)
    requires sys.page.revoked
    ensures var t := RunFrom(c, s, sys, turns); t.page == sys.page && t.sent == sys.sent
  {
    if turns == [] {
    } else {
      NothingLeavesRevokedPage(c, s, sys, turns[..|turns| - 1]);
      RevokedPageStays(c, s, RunFrom(c, s, sys, turns[..|turns| - 1]), turns[|turns| - 1]);
    }
  }

  /**
   A click that was issued while the adapter believes nothing was dispatched is the last one: no retry of that
   submission, and no other submission, gets another message out through that page.
   */
  lemma {:induction false} MisreportedClickIsTheLast(c: A.Config, s: P.Policy, page: P.PageId, turns: seq<Turn>,
      later: seq<Turn>, id: string)
    requires var sys := Run(c, s, page, turns); sys.sent[id] == 1 && sys.adapter.dispatched[id] == 0
    ensures var sys := Run(c, s, page, turns); RunFrom(c, s, sys, later).sent == sys.sent
  {
    RunKeepsInv(c, s, page, turns);
    assert SentOk(Run(c, s, page, turns), id);
    NothingLeavesRevokedPage(c, s, Run(c, s, page, turns), later);
  }
}
