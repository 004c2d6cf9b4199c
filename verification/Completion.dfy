/**
 `verifyCompletion`: does the local evidence support a claim of completion?

 The method collects reasons against the claim, section by section, with maps and loops; the predicates beside it
 say, over the recorded sequences themselves, what an accepted claim must satisfy.
 */
module Completion {
  import opened Basics
  import opened Text

  /** A branch or head name: missing, null, or a name. */
  datatype Ref = Missing | Null | Named(name: string)

  datatype Observation = Observed | Unknown | HiddenChanged | OtherOutcome

  datatype Control = Control(branch: Ref, head: Ref, excluded: Option<string>)

  /** `full`: the record follows the current terminal contract, which carries a control anchor. */
  datatype Mutation =
    | Patch(fingerprint: Option<string>)
    | Terminal(fingerprint: Option<string>, outcome: Observation, full: bool, control: Option<Control>)

  datatype Validation = Validation(commandId: string, success: bool, mutationSequence: int, fingerprint: string)

  datatype State = State(
    observedAuthority: bool, mutations: seq<Mutation>, mutationSequence: int, validations: seq<Validation>,
    acceptanceCriteria: seq<string>, preExisting: seq<string>, preExistingStates: map<string, string>,
    pendingOperations: nat, pendingTerminalEffects: nat, submissionIndeterminate: bool,
    completedOperations: seq<string>, excludedAtStart: Option<string>, branchAtStart: Ref, headAtStart: Ref,
    fingerprintAtStart: Option<string>)

  datatype ReportStatus = Passed | FailedStatus | NotRun

  datatype Report = Report(commandId: string, status: ReportStatus)

  datatype Criterion = Criterion(criterion: string, satisfied: bool)

  datatype Basis = Basis(observedFiles: nat, toolResultRefs: seq<string>, userProvidedContext: bool)

  datatype Claim = Claim(
    answer: bool, summary: string, basis: Option<Basis>, criteria: seq<Criterion>, validation: seq<Report>)

  datatype Repository = Repository(
    pathKey: string -> string, known: bool, fingerprint: string, excluded: string, hasConflicts: bool,
    branch: Ref, head: Ref, pathStates: map<string, string>, outOfScope: seq<string>)

  datatype Requirements = Requirements(
    commands: seq<string>, validationAfterLastMutation: bool, cleanPendingOperations: bool)

  /** The reasons against a claim; their wording is presentation. */
  datatype Reason =
    | RepositoryUnusable | TerminalEvidence | ControlMissing | ControlChanged | OutOfScope | Pending
    | AnswerUnfounded | FingerprintChanged | DuplicateReport(id: string) | OmittedOutcome(id: string)
    | WrongOutcome(id: string) | NotExecuted(id: string) | RequiredNotMet(id: string)
    | EmptySummary | DuplicateCriterion(id: string) | CriterionNotMet(id: string)

  // ----- Repository and terminal evidence -----

  predicate Authoritative(fingerprint: Option<string>) {
    fingerprint.Some? && HexDigest(fingerprint.value)
  }

  /** `hasAuthoritativeTerminalControl` */
  predicate HasControl(m: Mutation) {
    && m.Terminal? && m.full && m.outcome.Observed? && Authoritative(m.fingerprint) && m.control.Some?
    && !m.control.value.branch.Missing? && !m.control.value.head.Missing? && Authoritative(m.control.value.excluded)
  }

  predicate RepositoryUsable(r: Repository) {
    r.known && !r.hasConflicts
  }

  /** No terminal record after `i`. */
  predicate LatestTerminal(ms: seq<Mutation>, i: int) {
    0 <= i < |ms| && ms[i].Terminal? && forall j | i < j < |ms| :: !ms[j].Terminal?
  }

  predicate LatestObserved(ms: seq<Mutation>, i: int) {
    0 <= i < |ms| && ms[i].Terminal? && ms[i].outcome.Observed?
    && forall j | i < j < |ms| :: !(ms[j].Terminal? && ms[j].outcome.Observed?)
  }

  /** Every terminal effect was observed cleanly, and the latest one is fingerprinted. */
  ghost predicate TerminalsClean(ms: seq<Mutation>) {
    && (forall i | 0 <= i < |ms| :: ms[i].Terminal? ==> !ms[i].outcome.Unknown? && !ms[i].outcome.HiddenChanged?)
    && (forall i | LatestTerminal(ms, i) :: Authoritative(ms[i].fingerprint))
  }

  /** Branch, head and hidden state are those of the latest observed effect, or those of the session's start. */
  ghost predicate ControlHolds(s: State, r: Repository) {
    if s.observedAuthority && exists i :: LatestObserved(s.mutations, i) then
      forall i | LatestObserved(s.mutations, i) ::
        && HasControl(s.mutations[i])
        && var c := s.mutations[i].control.value;
           c.excluded == Some(r.excluded) && r.branch == c.branch && r.head == c.head
    else
      && s.excludedAtStart == Some(r.excluded)
      && (s.branchAtStart.Missing? || r.branch == s.branchAtStart)
      && (s.headAtStart.Missing? || r.head == s.headAtStart)
  }

  method TerminalReasons(ms: seq<Mutation>) returns (reasons: seq<Reason>, observed: Option<Mutation>)
    ensures reasons == [] <==> TerminalsClean(ms)
    ensures observed.None? <==> !exists i :: LatestObserved(ms, i)
    ensures observed.Some? ==> exists i :: LatestObserved(ms, i) && ms[i] == observed.value
  {
    reasons, observed := [], None;
    var clean := true;
    var latest: Option<Mutation> := None;
    ghost var at, seen := 0, 0;
    for k := 0 to |ms|
      invariant clean <==>
                forall i | 0 <= i < k :: ms[i].Terminal? ==> !ms[i].outcome.Unknown? && !ms[i].outcome.HiddenChanged?
      invariant latest.None? ==> forall i | 0 <= i < k :: !ms[i].Terminal?
      invariant latest.Some? ==> at < k && LatestTerminal(ms[..k], at) && ms[at] == latest.value
      invariant observed.None? ==> forall i | 0 <= i < k :: !(ms[i].Terminal? && ms[i].outcome.Observed?)
      invariant observed.Some? ==> seen < k && LatestObserved(ms[..k], seen) && ms[seen] == observed.value
    {
      var m := ms[k];
      if m.Terminal? {
        latest, at := Some(m), k;
        if m.outcome.Unknown? || m.outcome.HiddenChanged? { clean := false; }
        if m.outcome.Observed? { observed, seen := Some(m), k; }
      }
    }
    assert ms[..|ms|] == ms;
    assert latest.Some? ==> LatestTerminal(ms, at);
    assert observed.Some? ==> LatestObserved(ms, seen);
    if !clean { reasons := [TerminalEvidence]; }
    if latest.Some? && !Authoritative(latest.value.fingerprint) { reasons := reasons + [TerminalEvidence]; }
  }

  method ControlReasons(s: State, r: Repository, observed: Option<Mutation>) returns (reasons: seq<Reason>)
    requires observed.None? <==> !exists i :: LatestObserved(s.mutations, i)
    requires observed.Some? ==> exists i :: LatestObserved(s.mutations, i) && s.mutations[i] == observed.value
    ensures reasons == [] <==> ControlHolds(s, r)
  {
    reasons := [];
    var control: Option<Control> := None;
    if s.observedAuthority && observed.Some? {
      ghost var i :| LatestObserved(s.mutations, i) && s.mutations[i] == observed.value;
      assert forall j | LatestObserved(s.mutations, j) :: j == i;
      if HasControl(observed.value) { control := observed.value.control; } else { reasons := [ControlMissing]; }
    }
    var excluded := if control.Some? then control.value.excluded else s.excludedAtStart;
    if excluded != Some(r.excluded) { reasons := reasons + [ControlChanged]; }
    if control.Some? {
      if r.branch != control.value.branch { reasons := reasons + [ControlChanged]; }
      if r.head != control.value.head { reasons := reasons + [ControlChanged]; }
    } else {
      if !s.branchAtStart.Missing? && r.branch != s.branchAtStart { reasons := reasons + [ControlChanged]; }
      if !s.headAtStart.Missing? && r.head != s.headAtStart { reasons := reasons + [ControlChanged]; }
    }
  }

  // ----- Scope -----

  /** A changed path outside the grant is tolerated only if it was changed before the session and is still the same. */
  predicate Tolerated(s: State, r: Repository, path: string) {
    var key := r.pathKey(path);
    && (exists p | p in s.preExisting :: r.pathKey(p) == key)
    && key in s.preExistingStates && key in r.pathStates && s.preExistingStates[key] == r.pathStates[key]
  }

  predicate InScope(s: State, r: Repository) {
    forall p | p in r.outOfScope :: Tolerated(s, r, p)
  }

  method ScopeReasons(s: State, r: Repository) returns (reasons: seq<Reason>)
    ensures reasons == [] <==> InScope(s, r)
  {
    reasons := [];
    var preExisting: set<string> := {};
    for k := 0 to |s.preExisting|
      invariant forall key :: key in preExisting <==> exists i :: 0 <= i < k && r.pathKey(s.preExisting[i]) == key
    {
      preExisting := preExisting + {r.pathKey(s.preExisting[k])};
    }
    for k := 0 to |r.outOfScope|
      invariant reasons == [] <==> forall i | 0 <= i < k :: Tolerated(s, r, r.outOfScope[i])
    {
      var key := r.pathKey(r.outOfScope[k]);
      assert key in preExisting <==> exists p | p in s.preExisting :: r.pathKey(p) == key;
      if key !in preExisting {
        reasons := reasons + [OutOfScope];
      } else if key !in s.preExistingStates || key !in r.pathStates || s.preExistingStates[key] != r.pathStates[key] {
        reasons := reasons + [OutOfScope];
      }
    }
  }

  // ----- Pending work, answers, fingerprint -----

  predicate NothingPending(s: State, q: Requirements) {
    && ((q.cleanPendingOperations || s.observedAuthority) ==> s.pendingOperations == 0)
    && s.pendingTerminalEffects == 0 && !s.submissionIndeterminate
  }

  /** An informational answer changes nothing and rests on completed tool results or on the user's own context. */
  predicate AnswerFounded(s: State, c: Claim) {
    c.answer ==>
      && s.mutations == [] && c.basis.Some?
      && (c.basis.value.toolResultRefs != [] || (c.basis.value.userProvidedContext && c.basis.value.observedFiles == 0))
      && forall ref | ref in c.basis.value.toolResultRefs :: ref in s.completedOperations
  }

  method AnswerReasons(s: State, c: Claim) returns (reasons: seq<Reason>)
    ensures reasons == [] <==> AnswerFounded(s, c)
  {
    reasons := [];
    if !c.answer { return; }
    if s.mutations != [] { reasons := reasons + [AnswerUnfounded]; }
    var files := if c.basis.Some? then c.basis.value.observedFiles else 0;
    var refs := if c.basis.Some? then c.basis.value.toolResultRefs else [];
    if c.basis.None? || (refs == [] && !c.basis.value.userProvidedContext) { reasons := reasons + [AnswerUnfounded]; }
    if files > 0 && refs == [] { reasons := reasons + [AnswerUnfounded]; }
    ghost var before := reasons;
    for k := 0 to |refs|
      invariant reasons == [] <==> before == [] && forall i | 0 <= i < k :: refs[i] in s.completedOperations
    {
      if refs[k] !in s.completedOperations { reasons := reasons + [AnswerUnfounded]; }
    }
  }

  /** The fingerprint of the last recorded tool effect. */
  function ExpectedFingerprint(s: State): Option<string> {
    if |s.validations| > 0 && s.validations[|s.validations| - 1].mutationSequence == s.mutationSequence
    then Some(s.validations[|s.validations| - 1].fingerprint)
    else if |s.mutations| > 0 && s.mutations[|s.mutations| - 1].fingerprint.Some? then
      s.mutations[|s.mutations| - 1].fingerprint
    else s.fingerprintAtStart
  }

  /** The repository is as the last recorded effect left it; without a fingerprint nothing may have been recorded. */
  predicate FingerprintCurrent(s: State, r: Repository) {
    if Authoritative(ExpectedFingerprint(s)) then ExpectedFingerprint(s) == Some(r.fingerprint)
    else s.validations == [] && s.mutations == []
  }

  // ----- Validations -----

  /** The record at `i` is the latest of its command. */
  predicate Latest(vs: seq<Validation>, i: int) {
    0 <= i < |vs| && forall j | i < j < |vs| :: vs[j].commandId != vs[i].commandId
  }

  ghost predicate Executed(vs: seq<Validation>, id: string) {
    exists i :: Latest(vs, i) && vs[i].commandId == id
  }

  /** `m` maps every executed command to its latest record. */
  ghost predicate Newest(vs: seq<Validation>, m: map<string, Validation>) {
    && (forall i | Latest(vs, i) :: vs[i].commandId in m && m[vs[i].commandId] == vs[i])
    && (forall id | id in m :: Executed(vs, id))
  }

  method NewestValidationByCommand(vs: seq<Validation>) returns (m: map<string, Validation>)
    ensures Newest(vs, m)
  {
    m := map[];
    for k := 0 to |vs|
      invariant Newest(vs[..k], m)
    {
      NewestAppend(vs[..k], m, vs[k]);
      assert vs[..k + 1] == vs[..k] + [vs[k]];
      m := m[vs[k].commandId := vs[k]];
    }
    assert vs[..|vs|] == vs;
  }

  lemma NewestAppend(vs: seq<Validation>, m: map<string, Validation>, v: Validation)
    requires Newest(vs, m)
    ensures Newest(vs + [v], m[v.commandId := v])
  {
    var longer := vs + [v];
    assert Latest(longer, |vs|);
    forall id | id in m && id != v.commandId ensures Executed(longer, id) {
      var i :| Latest(vs, i) && vs[i].commandId == id;
      assert Latest(longer, i);
    }
    forall i | Latest(longer, i) && i < |vs| ensures longer[i].commandId in m && m[longer[i].commandId] == longer[i] {
      assert longer[|vs|] == v && longer[i] == vs[i];
      assert forall j | i < j < |vs| :: longer[j] == vs[j];
      assert Latest(vs, i);
    }
  }

  /** The first report of each command, and whether a command was reported twice. */
  predicate FirstReports(rs: seq<Report>, m: map<string, Report>, duplicate: bool) {
    && (forall id | id in m :: m[id] in rs && m[id].commandId == id)
    && (forall i | 0 <= i < |rs| :: rs[i].commandId in m)
    && (!duplicate <==> Distinct(rs))
    && (!duplicate ==> forall i | 0 <= i < |rs| :: m[rs[i].commandId] == rs[i])
  }

  predicate Distinct(rs: seq<Report>) {
    forall i, j | 0 <= i < j < |rs| :: rs[i].commandId != rs[j].commandId
  }

  lemma FirstReportsAppend(rs: seq<Report>, m: map<string, Report>, duplicate: bool, e: Report)
    requires FirstReports(rs, m, duplicate)
    ensures if e.commandId in m then FirstReports(rs + [e], m, true)
            else FirstReports(rs + [e], m[e.commandId := e], duplicate)
  {
    var longer := rs + [e];
    assert forall i | 0 <= i < |rs| :: longer[i] == rs[i];
    assert longer[|rs|] == e;
    if e.commandId in m {
      var i :| 0 <= i < |rs| && rs[i] == m[e.commandId];
      assert longer[i].commandId == longer[|rs|].commandId;
    }
  }

  method CollectReports(rs: seq<Report>) returns (m: map<string, Report>, reasons: seq<Reason>)
    ensures FirstReports(rs, m, reasons != [])
  {
    m, reasons := map[], [];
    for k := 0 to |rs|
      invariant FirstReports(rs[..k], m, reasons != [])
    {
      assert rs[..k + 1] == rs[..k] + [rs[k]];
      FirstReportsAppend(rs[..k], m, reasons != [], rs[k]);
      if rs[k].commandId in m {
        reasons := reasons + [DuplicateReport(rs[k].commandId)];
      } else {
        m := m[rs[k].commandId := rs[k]];
      }
    }
    assert rs[..|rs|] == rs;
  }

  function ExpectedStatus(v: Validation): ReportStatus {
    if v.success then Passed else FailedStatus
  }

  /** The claimed outcomes are exactly the latest outcomes. */
  predicate OutcomesAgree(latest: map<string, Validation>, claimed: map<string, Report>) {
    && (forall id | id in latest :: id in claimed && claimed[id].status == ExpectedStatus(latest[id]))
    && (forall id | id in claimed :: id in latest)
  }

  method OutcomeReasons(latest: map<string, Validation>, claimed: map<string, Report>) returns (reasons: seq<Reason>)
    ensures reasons == [] <==> OutcomesAgree(latest, claimed)
  {
    reasons := [];
    var todo := latest.Keys;
    while todo != {}
      invariant todo <= latest.Keys
      invariant reasons == [] <==>
                forall id | id in latest && id !in todo ::
                  id in claimed && claimed[id].status == ExpectedStatus(latest[id])
      decreases |todo|
    {
      var id :| id in todo;
      todo := todo - {id};
      if id !in claimed {
        reasons := reasons + [OmittedOutcome(id)];
      } else if claimed[id].status != ExpectedStatus(latest[id]) {
        reasons := reasons + [WrongOutcome(id)];
      }
    }
    ghost var before := reasons;
    todo := claimed.Keys;
    while todo != {}
      invariant todo <= claimed.Keys
      invariant reasons == [] <==> before == [] && forall id | id in claimed && id !in todo :: id in latest
      decreases |todo|
    {
      var id :| id in todo;
      todo := todo - {id};
      if id !in latest { reasons := reasons + [NotExecuted(id)]; }
    }
  }

  predicate Stale(s: State, q: Requirements, v: Validation) {
    if s.observedAuthority then v.mutationSequence != s.mutationSequence
    else q.validationAfterLastMutation && v.mutationSequence < s.mutationSequence
  }

  predicate Fulfils(s: State, r: Repository, q: Requirements, v: Validation) {
    v.success && !Stale(s, q, v) && v.fingerprint == r.fingerprint
  }

  method RequiredReasons(s: State, r: Repository, q: Requirements, latest: map<string, Validation>,
      claimed: map<string, Report>)
    returns (reasons: seq<Reason>)
    ensures reasons == [] <==>
            forall id | id in q.commands ::
              id in latest && Fulfils(s, r, q, latest[id]) && id in claimed && claimed[id].status.Passed?
  {
    reasons := [];
    for k := 0 to |q.commands|
      invariant reasons == [] <==>
                forall i | 0 <= i < k :: var id := q.commands[i];
                  id in latest && Fulfils(s, r, q, latest[id]) && id in claimed && claimed[id].status.Passed?
    {
      var id := q.commands[k];
      if id !in latest {
        reasons := reasons + [RequiredNotMet(id)];
      } else {
        if !latest[id].success { reasons := reasons + [RequiredNotMet(id)]; }
        if Stale(s, q, latest[id]) { reasons := reasons + [RequiredNotMet(id)]; }
        if latest[id].fingerprint != r.fingerprint { reasons := reasons + [RequiredNotMet(id)]; }
        if id !in claimed || !claimed[id].status.Passed? { reasons := reasons + [RequiredNotMet(id)]; }
      }
    }
  }

  /** The report names each executed command once, and nothing else, with the command's latest outcome. */
  ghost predicate ReportsAgree(vs: seq<Validation>, rs: seq<Report>) {
    && Distinct(rs)
    && (forall i | Latest(vs, i) :: Report(vs[i].commandId, ExpectedStatus(vs[i])) in rs)
    && (forall k | 0 <= k < |rs| :: Executed(vs, rs[k].commandId))
  }

  ghost predicate Fulfilled(s: State, r: Repository, q: Requirements, id: string) {
    exists i :: Latest(s.validations, i) && s.validations[i].commandId == id && Fulfils(s, r, q, s.validations[i])
  }

  /** The latest record of every required command is a current success. */
  ghost predicate RequirementsMet(s: State, r: Repository, q: Requirements) {
    forall id | id in q.commands :: Fulfilled(s, r, q, id)
  }

  lemma AgreeingMapsAgree(vs: seq<Validation>, rs: seq<Report>, latest: map<string, Validation>,
      claimed: map<string, Report>)
    requires Newest(vs, latest) && FirstReports(rs, claimed, false) && OutcomesAgree(latest, claimed)
    ensures ReportsAgree(vs, rs)
  {
    forall i | Latest(vs, i) ensures Report(vs[i].commandId, ExpectedStatus(vs[i])) in rs {
      var id := vs[i].commandId;
      assert id in latest && claimed[id] in rs && claimed[id] == Report(id, ExpectedStatus(vs[i]));
    }
    forall k | 0 <= k < |rs| ensures Executed(vs, rs[k].commandId) {
      assert rs[k].commandId in claimed;
    }
  }

  lemma AgreeingReportsAgree(vs: seq<Validation>, rs: seq<Report>, latest: map<string, Validation>,
      claimed: map<string, Report>)
    requires Newest(vs, latest) && FirstReports(rs, claimed, false) && ReportsAgree(vs, rs)
    ensures OutcomesAgree(latest, claimed)
  {
    forall id | id in latest ensures id in claimed && claimed[id].status == ExpectedStatus(latest[id]) {
      var i :| Latest(vs, i) && vs[i].commandId == id;
      var k :| 0 <= k < |rs| && rs[k] == Report(vs[i].commandId, ExpectedStatus(vs[i]));
      assert claimed[rs[k].commandId] == rs[k];
    }
    forall id | id in claimed ensures id in latest {
      var k :| 0 <= k < |rs| && rs[k] == claimed[id];
      var i :| Latest(vs, i) && vs[i].commandId == rs[k].commandId;
      assert vs[i].commandId in latest;
    }
  }

  lemma RequirementsAgree(s: State, r: Repository, q: Requirements, latest: map<string, Validation>,
      claimed: map<string, Report>)
    requires Newest(s.validations, latest) && OutcomesAgree(latest, claimed)
    ensures (forall id | id in q.commands ::
               id in latest && Fulfils(s, r, q, latest[id]) && id in claimed && claimed[id].status.Passed?)
            <==> RequirementsMet(s, r, q)
  {
    if RequirementsMet(s, r, q) {
      forall id | id in q.commands
        ensures id in latest && Fulfils(s, r, q, latest[id]) && id in claimed && claimed[id].status.Passed?
      {
        var i :| Latest(s.validations, i) && s.validations[i].commandId == id && Fulfils(s, r, q, s.validations[i]);
        assert s.validations[i].commandId in latest;
      }
    } else {
      var id :| id in q.commands && !Fulfilled(s, r, q, id);
      if id in latest {
        var i :| Latest(s.validations, i) && s.validations[i].commandId == id;
      }
    }
  }

  // ----- Criteria -----

  predicate DistinctCriteria(cs: seq<Criterion>) {
    forall i, j | 0 <= i < j < |cs| :: cs[i].criterion != cs[j].criterion
  }

  /** No criterion is reported twice, and each of the session's criteria is reported as satisfied. */
  predicate CriteriaMet(s: State, cs: seq<Criterion>) {
    DistinctCriteria(cs) && forall t | t in s.acceptanceCriteria :: Criterion(t, true) in cs
  }

  method CollectCriteria(cs: seq<Criterion>) returns (m: map<string, bool>, reasons: seq<Reason>)
    ensures reasons == [] <==> DistinctCriteria(cs)
    ensures reasons == [] ==> forall t, b :: Criterion(t, b) in cs <==> t in m && m[t] == b
  {
    m, reasons := map[], [];
    for k := 0 to |cs|
      invariant forall t :: t in m <==> exists i :: 0 <= i < k && cs[i].criterion == t
      invariant reasons == [] <==> DistinctCriteria(cs[..k])
      invariant reasons == [] ==> forall i | 0 <= i < k :: m[cs[i].criterion] == cs[i].satisfied
    {
      if cs[k].criterion in m {
        reasons := reasons + [DuplicateCriterion(cs[k].criterion)];
      } else {
        m := m[cs[k].criterion := cs[k].satisfied];
      }
    }
    assert cs[..|cs|] == cs;
    if reasons == [] {
      forall t, b ensures Criterion(t, b) in cs <==> t in m && m[t] == b {
        if t in m {
          var i :| 0 <= i < |cs| && cs[i].criterion == t;
          assert cs[i] == Criterion(t, m[t]);
        }
      }
    }
  }

  method CriteriaReasons(s: State, cs: seq<Criterion>) returns (reasons: seq<Reason>)
    ensures reasons == [] <==> CriteriaMet(s, cs)
  {
    var m;
    m, reasons := CollectCriteria(cs);
    ghost var before := reasons;
    for k := 0 to |s.acceptanceCriteria|
      invariant reasons == [] <==>
                before == [] && forall i | 0 <= i < k :: s.acceptanceCriteria[i] in m && m[s.acceptanceCriteria[i]]
    {
      var t := s.acceptanceCriteria[k];
      if t !in m || !m[t] { reasons := reasons + [CriterionNotMet(t)]; }
    }
    if before == [] {
      assert forall i | 0 <= i < |s.acceptanceCriteria| ::
          Criterion(s.acceptanceCriteria[i], true) in cs <==>
            s.acceptanceCriteria[i] in m && m[s.acceptanceCriteria[i]];
    }
  }

  // ----- The verdict -----

  /** What an accepted claim satisfies, over the recorded evidence itself. */
  ghost predicate Acceptable(s: State, c: Claim, r: Repository, q: Requirements) {
    && RepositoryUsable(r) && TerminalsClean(s.mutations) && ControlHolds(s, r) && InScope(s, r)
    && NothingPending(s, q) && AnswerFounded(s, c) && FingerprintCurrent(s, r)
    && ReportsAgree(s.validations, c.validation) && RequirementsMet(s, r, q)
    && Trim(c.summary) != "" && CriteriaMet(s, c.criteria)
  }

  method ValidationReasons(s: State, c: Claim, r: Repository, q: Requirements) returns (reasons: seq<Reason>)
    ensures reasons == [] <==> ReportsAgree(s.validations, c.validation) && RequirementsMet(s, r, q)
  {
    var latest := NewestValidationByCommand(s.validations);
    var claimed, duplicates := CollectReports(c.validation);
    var outcomes := OutcomeReasons(latest, claimed);
    var required := RequiredReasons(s, r, q, latest, claimed);
    if duplicates == [] {
      if outcomes == [] {
        AgreeingMapsAgree(s.validations, c.validation, latest, claimed);
        RequirementsAgree(s, r, q, latest, claimed);
      } else if ReportsAgree(s.validations, c.validation) {
        AgreeingReportsAgree(s.validations, c.validation, latest, claimed);
      }
    }
    reasons := duplicates + outcomes + required;
  }

  /** `verifyCompletion` accepts exactly the claims that the recorded evidence supports. */
  method VerifyCompletion(s: State, c: Claim, r: Repository, q: Requirements) returns (accepted: bool,
      reasons: seq<Reason>)
    ensures accepted <==> reasons == []
    ensures accepted <==> Acceptable(s, c, r, q)
  {
    reasons := [];
    if !r.known { reasons := reasons + [RepositoryUnusable]; }
    if r.hasConflicts { reasons := reasons + [RepositoryUnusable]; }
    var terminal, observed := TerminalReasons(s.mutations);
    var control := ControlReasons(s, r, observed);
    var scope := ScopeReasons(s, r);
    reasons := reasons + terminal + control + scope;
    if (q.cleanPendingOperations || s.observedAuthority) && s.pendingOperations > 0 { reasons := reasons + [Pending]; }
    if s.pendingTerminalEffects > 0 { reasons := reasons + [Pending]; }
    if s.submissionIndeterminate { reasons := reasons + [Pending]; }
    var answer := AnswerReasons(s, c);
    reasons := reasons + answer;
    var expected := ExpectedFingerprint(s);
    if ((s.validations != [] || s.mutations != []) && !Authoritative(expected))
       || (Authoritative(expected) && expected != Some(r.fingerprint)) {
      reasons := reasons + [FingerprintChanged];
    }
    var validation := ValidationReasons(s, c, r, q);
    reasons := reasons + validation;
    if Trim(c.summary) == "" { reasons := reasons + [EmptySummary]; }
    var criteria := CriteriaReasons(s, c.criteria);
    reasons := reasons + criteria;
    accepted := reasons == [];
  }

  /** A mutation recorded after the validations, leaving another repository state, makes any claim unacceptable. */
  lemma MutationInvalidatesCompletion(s: State, c: Claim, r: Repository, q: Requirements, m: Mutation)
    requires forall v | v in s.validations :: v.mutationSequence <= s.mutationSequence
    requires m.fingerprint.Some? && m.fingerprint.value != r.fingerprint
    ensures !Acceptable(s.(mutations := s.mutations + [m], mutationSequence := s.mutationSequence + 1), c, r, q)
  {
    var t := s.(mutations := s.mutations + [m], mutationSequence := s.mutationSequence + 1);
    if |s.validations| > 0 { assert s.validations[|s.validations| - 1] in s.validations; }
    assert ExpectedFingerprint(t) == m.fingerprint;
  }

  // ----- Unique paths -----

  predicate HasKey(paths: seq<string>, pathKey: string -> string, key: string) {
    exists p | p in paths :: pathKey(p) == key
  }

  /** The paths whose key does not occur earlier. */
  function FirstOfEachKey(paths: seq<string>, pathKey: string -> string): seq<string> {
    if paths == [] then []
    else
      var (front, last) := (paths[..|paths| - 1], paths[|paths| - 1]);
      FirstOfEachKey(front, pathKey) + if HasKey(front, pathKey, pathKey(last)) then [] else [last]
  }

  /** It selects one path for every key that occurs, and no two for one key. */
  lemma {:induction false} FirstOfEachKeySelects(paths: seq<string>, pathKey: string -> string)
    ensures var r := FirstOfEachKey(paths, pathKey);
            && (forall i, j | 0 <= i < j < |r| :: pathKey(r[i]) != pathKey(r[j]))
            && (forall p | p in r :: p in paths)
            && (forall key :: HasKey(r, pathKey, key) <==> HasKey(paths, pathKey, key))
  {
    if paths != [] {
      var (front, last) := (paths[..|paths| - 1], paths[|paths| - 1]);
      FirstOfEachKeySelects(front, pathKey);
      assert paths == front + [last];
      var (before, r) := (FirstOfEachKey(front, pathKey), FirstOfEachKey(paths, pathKey));
      forall key ensures HasKey(r, pathKey, key) <==> HasKey(paths, pathKey, key) {
        assert HasKey(before, pathKey, key) <==> HasKey(front, pathKey, key);
      }
      forall i | 0 <= i < |before| ensures r != before ==> pathKey(before[i]) != pathKey(last) {
        assert before[i] in front;
      }
    }
  }

  /** `uniquePaths` */
  method UniquePaths(paths: seq<string>, pathKey: string -> string) returns (r: seq<string>)
    ensures r == FirstOfEachKey(paths, pathKey)
  {
    r := [];
    var seen: set<string> := {};
    for n := 0 to |paths|
      invariant r == FirstOfEachKey(paths[..n], pathKey)
      invariant forall key :: key in seen <==> HasKey(paths[..n], pathKey, key)
    {
      var key := pathKey(paths[n]);
      assert paths[..n + 1] == paths[..n] + [paths[n]] && paths[..n + 1][..n] == paths[..n];
      if key !in seen {
        seen := seen + {key};
        r := r + [paths[n]];
      }
    }
    assert paths[..|paths|] == paths;
  }
}
