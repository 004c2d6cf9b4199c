/**
 Browser setup and session publication on top of the configuration lock.

 Setup rechecks the browser file, scans every session for recovery blockers and only then rewrites the
 browser file; a live-browser start reloads the browser file and publishes a session pinned to its hash.
 Both run inside the lock and may crash between any two steps. Offline (fixture or replay) starts publish
 without the lock, and any session moves through its lifecycle at any time.

 File contents stand for their digests: two contents are equal exactly when their digests are.
 */
module SetupTransaction {
  import opened Basics
  import opened SessionLifecycle
  import L = ConfigLock

  datatype Transport = Edge | Fixture | Replay

  datatype Manifest = Manifest(transport: Transport, browserHash: Option<string>)

  /**
   One session directory. `status` is absent while `session.json` is unreadable, `manifest` while
   `runtime.json` is; `grant` says whether the grant file is durable. `kind` is the transport the session was
   started with.
   */
  datatype Session = Session(
    kind: Transport, status: Option<Status>, grant: bool, manifest: Option<Manifest>, publisher: Option<nat>)

  datatype Disposition = Terminal | ResumeCandidate | RecoveryBlocked(reason: Reason) | ReconcileRequired

  datatype Reason =
    | SessionStartupIncomplete
    | BrowserConfigMissing
    | BrowserConfigInvalid
    | BrowserConfigChanged
    | BrowserIdentityChanged

  datatype Evidence =
    | Missing
    | Invalid
    | IdentityInvalid(hash: string)
    | Valid(hash: string, identityMatches: bool)

  datatype Assessment = Assessment(disposition: Disposition, transport: Option<Transport>)

  /** `assessSessionRecovery`, with the unreadable-session case of `scanSessionRecovery`. */
  function Assess(s: Session, evidence: Evidence): Assessment {
    if s.status.None? then Assessment(ReconcileRequired, None)
    else if IsTerminal(s.status.value) then Assessment(Terminal, None)
    else if BeforeGrant(s.status.value) then Assessment(RecoveryBlocked(SessionStartupIncomplete), None)
    else if s.manifest.None? then Assessment(ReconcileRequired, None)
    else
      var m := s.manifest.value;
      if m.transport != Edge then Assessment(ResumeCandidate, Some(m.transport))
      else match evidence
           case Missing => Assessment(RecoveryBlocked(BrowserConfigMissing), Some(Edge))
           case Invalid => Assessment(RecoveryBlocked(BrowserConfigInvalid), Some(Edge))
           case IdentityInvalid(_) => Assessment(RecoveryBlocked(BrowserIdentityChanged), Some(Edge))
           case Valid(hash, identityMatches) =>
             if m.browserHash != Some(hash) then Assessment(RecoveryBlocked(BrowserConfigChanged), Some(Edge))
             else if !identityMatches then Assessment(RecoveryBlocked(BrowserIdentityChanged), Some(Edge))
             else Assessment(ResumeCandidate, Some(Edge))
  }

  /** The filter of `liveBrowserSetupBlockers`. */
  predicate Blocks(a: Assessment) {
    !a.disposition.Terminal? && (a.transport == None || a.transport == Some(Edge))
  }

  /** A session setup need not wait for: finished, or started past its grant on another transport. */
  predicate LeavesSetupFree(x: Session) {
    x.status.Some?
    && (IsTerminal(x.status.value)
        || (!BeforeGrant(x.status.value) && x.manifest.Some? && x.manifest.value.transport != Edge))
  }

  /** A session is resumable exactly past its grant, with a readable manifest that no other browser has overtaken. */
  lemma ResumableExactlyWhen(x: Session, e: Evidence)
    ensures Assess(x, e).disposition.ResumeCandidate? <==>
            && x.status.Some? && !IsTerminal(x.status.value) && !BeforeGrant(x.status.value) && x.manifest.Some?
            && (x.manifest.value.transport == Edge ==>
                  e.Valid? && x.manifest.value.browserHash == Some(e.hash) && e.identityMatches)
    ensures Assess(x, e).disposition.ResumeCandidate? ==> Assess(x, e).transport == Some(x.manifest.value.transport)
    ensures Assess(x, e).disposition.Terminal? <==> x.status.Some? && IsTerminal(x.status.value)
    ensures Assess(x, e).disposition.ReconcileRequired? <==>
            || x.status.None?
            || (!IsTerminal(x.status.value) && !BeforeGrant(x.status.value) && x.manifest.None?)
  {
  }

  /** And a blocked one says why: it never started, or this is what is wrong with the browser configuration. */
  lemma BlockedReasonExactly(x: Session, e: Evidence)
    requires Assess(x, e).disposition.RecoveryBlocked?
    ensures x.status.Some? && !IsTerminal(x.status.value)
    ensures var why := Assess(x, e).disposition.reason;
            && (why == SessionStartupIncomplete <==> BeforeGrant(x.status.value))
            && (why == BrowserConfigMissing <==> !BeforeGrant(x.status.value) && e.Missing?)
            && (why == BrowserConfigInvalid <==> !BeforeGrant(x.status.value) && e.Invalid?)
            && (why == BrowserConfigChanged <==>
                  !BeforeGrant(x.status.value) && e.Valid? && x.manifest.value.browserHash != Some(e.hash))
            && (why == BrowserIdentityChanged <==>
                  !BeforeGrant(x.status.value)
                  && (e.IdentityInvalid?
                      || (e.Valid? && x.manifest.value.browserHash == Some(e.hash) && !e.identityMatches)))
  {
  }

  /** What an actor does once it holds the lock. */
  datatype Job =
    | Setup(setup: SetupStep, baseline: Option<string>, config: Option<string>)
    | Publish(publish: PublishStep, expected: string, session: nat)
    | Idle

  datatype SetupStep =
    | CheckBaseline
    | BeginScan
    | Scan(todo: set<nat>, blocked: bool)
    | Revalidate
    | RecheckBaseline
    | BeginRescan
    | Rescan(todo: set<nat>, blocked: bool)
    | Write
    | Over

  datatype PublishStep =
    | Load
    | MakeDirectory(pinned: string)
    | CreateState(pinned: string)
    | ToPreflight(pinned: string)
    | WriteGrant(pinned: string)
    | ToGrantPending(pinned: string)
    | WriteManifest(pinned: string)
    | Finished

  datatype Sys = Sys(lock: L.State, jobs: map<nat, Job>, browser: Option<string>, sessions: map<nat, Session>)

  datatype Move =
    | LockMove(step: L.Label, job: Job)
    | SetupMove(actor: nat, pick: nat, unreadable: bool, fails: bool)
    | PublishMove(actor: nat, fails: bool)
    | Advance(session: nat, to: Status)
    | OfflineDirectory(session: nat, kind: Transport)
    | OfflineState(session: nat)
    | OfflineGrant(session: nat)
    | OfflineManifest(session: nat)

  /** A live actor inside `acquire` ... `release`: the only one allowed to run its job. */
  predicate Holding(s: Sys, a: nat) {
    L.Live(s.lock, a) && s.lock.actors[a].pc.Held? && a in s.jobs
  }

  /** A live publisher holds the session's workspace lock, so nobody else writes its status. */
  predicate UnderPublication(s: Sys, id: nat) {
    id in s.sessions && s.sessions[id].publisher.Some? && Holding(s, s.sessions[id].publisher.value)
  }

  /** One session of a recovery scan; whether it blocks does not depend on the browser evidence. */
  function ScanStep(s: Sys, todo: set<nat>, blocked: bool, pick: nat, unreadable: bool): (set<nat>, bool) {
    if pick in todo && pick in s.sessions then
      var seen := if unreadable then s.sessions[pick].(status := None) else s.sessions[pick];
      (todo - {pick}, blocked || Blocks(Assess(seen, Missing)))
    else (todo, blocked)
  }

  function SetSetup(s: Sys, a: nat, step: SetupStep): Sys
    requires a in s.jobs && s.jobs[a].Setup?
  {
    s.(jobs := s.jobs[a := s.jobs[a].(setup := step)])
  }

  /** `commitBrowserSetup` inside the lock. A session that vanished from `todo` cannot occur: directories stay. */
  function RunSetup(s: Sys, a: nat, pick: nat, unreadable: bool, fails: bool): Sys
    requires a in s.jobs && s.jobs[a].Setup?
  {
    var j := s.jobs[a];
    if fails then SetSetup(s, a, Over)
    else match j.setup
      case CheckBaseline => SetSetup(s, a, if s.browser == j.baseline then BeginScan else Over)
      case BeginScan => SetSetup(s, a, Scan(s.sessions.Keys, false))
      case Scan(todo, blocked) =>
        if todo == {} then SetSetup(s, a, if blocked then Over else Revalidate)
        else var next := ScanStep(s, todo, blocked, pick, unreadable); SetSetup(s, a, Scan(next.0, next.1))
      case Revalidate => SetSetup(s, a, RecheckBaseline)
      case RecheckBaseline => SetSetup(s, a, if s.browser == j.baseline then BeginRescan else Over)
      case BeginRescan => SetSetup(s, a, Rescan(s.sessions.Keys, false))
      case Rescan(todo, blocked) =>
        if todo == {} then SetSetup(s, a, if blocked then Over else Write)
        else var next := ScanStep(s, todo, blocked, pick, unreadable); SetSetup(s, a, Rescan(next.0, next.1))
      case Write => SetSetup(s, a, Over).(browser := if j.config.Some? then j.config else s.browser)
      case Over => s
  }

  function SetPublish(s: Sys, a: nat, step: PublishStep): Sys
    requires a in s.jobs && s.jobs[a].Publish?
  {
    s.(jobs := s.jobs[a := s.jobs[a].(publish := step)])
  }

  function SetStatus(s: Sys, id: nat, status: Status): Sys
    requires id in s.sessions
  {
    s.(sessions := s.sessions[id := s.sessions[id].(status := Some(status))])
  }

  /** `pinBrowserConfigurationForSession` and `publishSession` inside the lock. */
  function RunPublish(s: Sys, a: nat, fails: bool): Sys
    requires a in s.jobs && s.jobs[a].Publish?
  {
    var j := s.jobs[a];
    var id := j.session;
    if fails then SetPublish(s, a, Finished)
    else match j.publish
      case Load =>
        SetPublish(s, a, if s.browser == Some(j.expected) then MakeDirectory(j.expected) else Finished)
      case MakeDirectory(p) =>
        if id in s.sessions then SetPublish(s, a, Finished)
        else SetPublish(s, a, CreateState(p)).(sessions := s.sessions[id := Session(Edge, None, false, None, Some(a))])
      case CreateState(p) =>
        if !Own(s, a, id) then s else SetStatus(SetPublish(s, a, ToPreflight(p)), id, Created)
      case ToPreflight(p) =>
        if !Own(s, a, id) then s else SetStatus(SetPublish(s, a, WriteGrant(p)), id, Preflight)
      case WriteGrant(p) =>
        if !Own(s, a, id) then s
        else SetPublish(s, a, ToGrantPending(p)).(sessions := s.sessions[id := s.sessions[id].(grant := true)])
      case ToGrantPending(p) =>
        if !Own(s, a, id) then s else SetStatus(SetPublish(s, a, WriteManifest(p)), id, GrantPending)
      case WriteManifest(p) =>
        if !Own(s, a, id) then s
        else SetPublish(s, a, Finished).(sessions :=
          s.sessions[id := s.sessions[id].(manifest := Some(Manifest(Edge, Some(p))))])
      case Finished => s
  }

  predicate Own(s: Sys, a: nat, id: nat) {
    id in s.sessions && s.sessions[id].publisher == Some(a)
  }

  /** One step of the whole system; a move that is not enabled changes nothing. */
  function Apply(s: Sys, m: Move): Sys {
    match m
    case LockMove(l, job) =>
      s.(lock := L.Apply(s.lock, l),
         jobs := if l.Spawn? && l.actor in L.Apply(s.lock, l).actors && l.actor !in s.lock.actors && Fresh(job)
                 then s.jobs[l.actor := job] else s.jobs)
    case SetupMove(a, pick, u, f) =>
      if Holding(s, a) && s.jobs[a].Setup? then RunSetup(s, a, pick, u, f) else s
    case PublishMove(a, f) =>
      if Holding(s, a) && s.jobs[a].Publish? then RunPublish(s, a, f) else s
    case Advance(id, to) =>
      if id in s.sessions && s.sessions[id].status.Some? && CanMove(s.sessions[id].status.value, to)
         && !UnderPublication(s, id) && (to.GrantPending? ==> s.sessions[id].grant)
      then SetStatus(s, id, to) else s
    case OfflineDirectory(id, kind) =>
      if id in s.sessions || kind == Edge then s
      else s.(sessions := s.sessions[id := Session(kind, None, false, None, None)])
    case OfflineState(id) =>
      if id in s.sessions && s.sessions[id].kind != Edge && s.sessions[id].status.None?
      then SetStatus(s, id, Created) else s
    case OfflineGrant(id) =>
      if id in s.sessions && s.sessions[id].kind != Edge && s.sessions[id].status == Some(Preflight)
      then s.(sessions := s.sessions[id := s.sessions[id].(grant := true)]) else s
    case OfflineManifest(id) =>
      if id in s.sessions && s.sessions[id].kind != Edge && s.sessions[id].status == Some(GrantPending)
         && s.sessions[id].manifest.None?
      then s.(sessions := s.sessions[id := s.sessions[id].(manifest := Some(Manifest(s.sessions[id].kind, None)))])
      else s
  }

  predicate Fresh(job: Job) {
    job.Idle? || (job.Setup? && job.setup.CheckBaseline?) || (job.Publish? && job.publish.Load?)
  }

  function Exec(browser: Option<string>, moves: seq<Move>): Sys {
    if moves == [] then Sys(L.Init, map[], browser, map[])
    else Apply(Exec(browser, moves[..|moves| - 1]), moves[|moves| - 1])
  }

  /** A session whose status is readable and not terminal. */
  ghost predicate IsLive(x: Session) {
    x.status.Some? && !IsTerminal(x.status.value)
  }

  /** A session whose state no rewrite of the browser file can strand. */
  ghost predicate Harmless(s: Session) {
    s.kind != Edge || (s.status.Some? && IsTerminal(s.status.value))
  }

  /** The pinned digest of a non-terminal live-browser session is the digest of the current browser file. */
  ghost predicate NotStranded(s: Sys, id: nat)
    requires id in s.sessions
  {
    var x := s.sessions[id];
    IsLive(x) && x.manifest.Some? && x.manifest.value.transport == Edge
    ==> s.browser.Some? && x.manifest.value.browserHash == s.browser
  }

  /**
   A readable manifest names the session's own transport and never coexists with a pre-grant status, and an
   unfinished session past its grant has its grant file.
   */
  ghost predicate ManifestSound(x: Session) {
    && (x.manifest.Some? ==>
          && x.manifest.value.transport == x.kind
          && x.status.Some? && !BeforeGrant(x.status.value))
    && (IsLive(x) && !BeforeGrant(x.status.value) ==> x.grant)
  }

  ghost predicate SessionsInv(s: Sys) {
    forall id | id in s.sessions :: NotStranded(s, id) && ManifestSound(s.sessions[id])
  }

  /** A setup between its first comparison with the baseline and its end. */
  predicate Compared(step: SetupStep) {
    !step.CheckBaseline? && !step.Over?
  }

  /** While a setup goes on, the browser file is still its baseline. */
  ghost predicate BaselineHolds(s: Sys, a: nat)
    requires a in s.jobs
  {
    s.jobs[a].Setup? && Compared(s.jobs[a].setup) ==> s.browser == s.jobs[a].baseline
  }

  /** What the holder of the lock has established so far. */
  ghost predicate JobFact(s: Sys, a: nat)
    requires a in s.jobs
  {
    BaselineHolds(s, a) &&
    match s.jobs[a]
    case Setup(Rescan(todo, false), _, _) => forall id | id in s.sessions && id !in todo :: Harmless(s.sessions[id])
    case Setup(Write, _, _) => forall id | id in s.sessions :: Harmless(s.sessions[id])
    case Publish(MakeDirectory(p), _, _) => s.browser == Some(p)
    case Publish(CreateState(p), _, id) => s.browser == Some(p) && Unpublished(s, a, id)
    case Publish(ToPreflight(p), _, id) => s.browser == Some(p) && Unpublished(s, a, id)
    case Publish(WriteGrant(p), _, id) => s.browser == Some(p) && Unpublished(s, a, id)
    case Publish(ToGrantPending(p), _, id) => s.browser == Some(p) && Unpublished(s, a, id) && s.sessions[id].grant
    case Publish(WriteManifest(p), _, id) =>
      s.browser == Some(p) && Unpublished(s, a, id) && s.sessions[id].status == Some(GrantPending)
    case _ => true
  }

  ghost predicate Unpublished(s: Sys, a: nat, id: nat) {
    Own(s, a, id) && s.sessions[id].kind == Edge && s.sessions[id].manifest.None?
  }

  ghost predicate Inv(s: Sys) {
    && L.Inv(s.lock)
    && SessionsInv(s)
    && (forall a | Holding(s, a) :: JobFact(s, a))
    && (forall a | a in s.jobs :: a in s.lock.actors && Unstarted(s, a))
  }

  /** A job has not begun before its actor holds the lock. */
  ghost predicate Unstarted(s: Sys, a: nat)
    requires a in s.jobs && a in s.lock.actors
  {
    L.Owning(s.lock.actors[a].pc) || s.lock.actors[a].pc.Done? || Fresh(s.jobs[a])
  }

  lemma HoldersAreEqual(s: Sys, a: nat, b: nat)
    requires L.Inv(s.lock) && Holding(s, a) && Holding(s, b)
    ensures a == b
  {
    assert L.Fact(s.lock, a) && L.Fact(s.lock, b);
  }

  /** The recovery scan lets a session pass only if rewriting the browser file cannot strand it. */
  lemma PassedScanIsHarmless(x: Session, evidence: Evidence, unreadable: bool)
    requires ManifestSound(x)
    requires !Blocks(Assess(if unreadable then x.(status := None) else x, evidence))
    ensures Harmless(x)
  {
  }

  lemma SetupPreservesInv(s: Sys, a: nat, pick: nat, unreadable: bool, fails: bool)
    requires Inv(s) && Holding(s, a) && s.jobs[a].Setup?
    ensures Inv(RunSetup(s, a, pick, unreadable, fails))
  {
    var t := RunSetup(s, a, pick, unreadable, fails);
    assert JobFact(s, a);
    if s.jobs[a].setup.Rescan? && pick in s.sessions {
      var seen := if unreadable then s.sessions[pick].(status := None) else s.sessions[pick];
      if !Blocks(Assess(seen, Missing)) { PassedScanIsHarmless(s.sessions[pick], Missing, unreadable); }
    }
    forall id | id in t.sessions ensures NotStranded(t, id) && ManifestSound(t.sessions[id]) {
      assert NotStranded(s, id) && ManifestSound(s.sessions[id]);
    }
    forall b | Holding(t, b) ensures JobFact(t, b) {
      assert Holding(s, b);
      HoldersAreEqual(s, a, b);
    }
  }

  lemma PublishPreservesInv(s: Sys, a: nat, fails: bool)
    requires Inv(s) && Holding(s, a) && s.jobs[a].Publish?
    ensures Inv(RunPublish(s, a, fails))
  {
    var t := RunPublish(s, a, fails);
    assert JobFact(s, a);
    forall id | id in t.sessions ensures NotStranded(t, id) && ManifestSound(t.sessions[id]) {
      if id in s.sessions { assert NotStranded(s, id) && ManifestSound(s.sessions[id]); }
    }
    forall b | Holding(t, b) ensures JobFact(t, b) {
      assert Holding(s, b);
      HoldersAreEqual(s, a, b);
    }
  }

  /** No step enters `Held` except the completion of the owner file. */
  lemma HeldOnlyAfterWriting(s: L.State, l: L.Label, b: nat)
    requires b in s.actors && b in L.Apply(s, l).actors
    ensures L.Apply(s, l).actors[b].pc.Held? ==> s.actors[b].pc.Held? || s.actors[b].pc.Writing?
    ensures L.Owning(s.actors[b].pc) || s.actors[b].pc.Done?
            ==> L.Owning(L.Apply(s, l).actors[b].pc) || L.Apply(s, l).actors[b].pc.Done?
  {
  }

  lemma LockMoveKeepsActor(s: Sys, l: L.Label, job: Job, b: nat)
    requires Inv(s) && b in s.jobs
    ensures var t := Apply(s, LockMove(l, job));
            b in t.lock.actors && b in t.jobs && t.jobs[b] == s.jobs[b] && Unstarted(t, b)
  {
    assert b in s.lock.actors && Unstarted(s, b) && b in L.Apply(s.lock, l).actors;
    HeldOnlyAfterWriting(s.lock, l, b);
  }

  lemma LockMoveKeepsJobFact(s: Sys, l: L.Label, job: Job, b: nat)
    requires Inv(s) && b in s.jobs && Holding(Apply(s, LockMove(l, job)), b)
    ensures JobFact(Apply(s, LockMove(l, job)), b)
  {
    var t := Apply(s, LockMove(l, job));
    LockMoveKeepsActor(s, l, job, b);
    HeldOnlyAfterWriting(s.lock, l, b);
    if !Fresh(s.jobs[b]) {
      assert Unstarted(s, b) && Holding(s, b) && JobFact(s, b);
      JobFactSameDisk(s, t, b);
    }
  }

  lemma JobFactSameDisk(s: Sys, t: Sys, b: nat)
    requires b in s.jobs && b in t.jobs && t.jobs[b] == s.jobs[b] && JobFact(s, b)
    requires t.browser == s.browser && t.sessions == s.sessions
    ensures JobFact(t, b)
  {
  }

  lemma LockMovePreservesInv(s: Sys, l: L.Label, job: Job)
    requires Inv(s)
    ensures Inv(Apply(s, LockMove(l, job)))
  {
    var t := Apply(s, LockMove(l, job));
    L.StepPreservesInv(s.lock, l);
    assert t.sessions == s.sessions && t.browser == s.browser;
    assert forall id | id in t.sessions :: NotStranded(s, id) ==> NotStranded(t, id);
    forall b | b in t.jobs ensures b in t.lock.actors && Unstarted(t, b) && (Holding(t, b) ==> JobFact(t, b)) {
      if b in s.jobs {
        LockMoveKeepsActor(s, l, job, b);
        if Holding(t, b) { LockMoveKeepsJobFact(s, l, job, b); }
      }
    }
  }

  /** A holder's facts survive any step outside the lock that keeps harmless sessions harmless. */
  lemma JobFactIsFramed(s: Sys, t: Sys, b: nat)
    requires b in s.jobs && t.jobs == s.jobs && t.browser == s.browser && JobFact(s, b)
    requires forall id | id in t.sessions ::
               if id in s.sessions then Harmless(s.sessions[id]) ==> Harmless(t.sessions[id])
               else Harmless(t.sessions[id])
    requires forall id | Unpublished(s, b, id) :: id in t.sessions && t.sessions[id] == s.sessions[id]
    ensures JobFact(t, b)
  {
  }

  /** An accepted lifecycle move keeps a session harmless, pinned and past its grant. */
  lemma MovedSessionStaysSound(x: Session, to: Status)
    requires x.status.Some? && CanMove(x.status.value, to) && (to.GrantPending? ==> x.grant)
    ensures var y := x.(status := Some(to));
            && (ManifestSound(x) ==> ManifestSound(y))
            && (Harmless(x) ==> Harmless(y))
            && (IsLive(y) ==> IsLive(x))
  {
  }

  lemma AdvancePreservesInv(s: Sys, id: nat, to: Status)
    requires Inv(s)
    ensures Inv(Apply(s, Advance(id, to)))
  {
    var t := Apply(s, Advance(id, to));
    if t != s {
      MovedSessionStaysSound(s.sessions[id], to);
      forall x | x in t.sessions ensures NotStranded(t, x) && ManifestSound(t.sessions[x]) {
        assert NotStranded(s, x) && ManifestSound(s.sessions[x]);
      }
      forall b | Holding(t, b) ensures JobFact(t, b) {
        assert Holding(s, b) && JobFact(s, b);
        JobFactIsFramed(s, t, b);
      }
      assert forall b | b in t.jobs :: Unstarted(s, b) && Unstarted(t, b);
    }
  }

  lemma OfflinePreservesInv(s: Sys, m: Move)
    requires Inv(s) && (m.OfflineDirectory? || m.OfflineState? || m.OfflineGrant? || m.OfflineManifest?)
    ensures Inv(Apply(s, m))
  {
    var t := Apply(s, m);
    forall x | x in t.sessions ensures NotStranded(t, x) && ManifestSound(t.sessions[x]) {
      if x in s.sessions { assert NotStranded(s, x) && ManifestSound(s.sessions[x]); }
    }
    forall b | Holding(t, b) ensures JobFact(t, b) {
      assert Holding(s, b) && JobFact(s, b);
      JobFactIsFramed(s, t, b);
    }
    assert forall b | b in t.jobs :: Unstarted(s, b) && Unstarted(t, b);
  }

  lemma StepPreservesInv(s: Sys, m: Move)
    requires Inv(s)
    ensures Inv(Apply(s, m))
  {
    match m
    case LockMove(l, job) => LockMovePreservesInv(s, l, job);
    case SetupMove(a, pick, u, f) => if Holding(s, a) && s.jobs[a].Setup? { SetupPreservesInv(s, a, pick, u, f); }
    case PublishMove(a, f) => if Holding(s, a) && s.jobs[a].Publish? { PublishPreservesInv(s, a, f); }
    case Advance(id, to) => AdvancePreservesInv(s, id, to);
    case _ => OfflinePreservesInv(s, m);
  }

  lemma {:induction false} ReachableInv(browser: Option<string>, moves: seq<Move>)
    ensures Inv(Exec(browser, moves))
  {
    if moves != [] {
      ReachableInv(browser, moves[..|moves| - 1]);
      StepPreservesInv(Exec(browser, moves[..|moves| - 1]), moves[|moves| - 1]);
    }
  }

  /**
   No stranded session: after any run of setups, starts, lifecycle moves and crashes, every non-terminal
   session with a readable live-browser manifest passes the configuration-digest check of a resume.
   */
  lemma NoStrandedSession(browser: Option<string>, moves: seq<Move>, id: nat)
    requires id in Exec(browser, moves).sessions
    requires IsLive(Exec(browser, moves).sessions[id])
    requires var m := Exec(browser, moves).sessions[id].manifest; m.Some? && m.value.transport == Edge
    ensures var s := Exec(browser, moves);
            s.browser.Some? && s.sessions[id].manifest.value.browserHash == s.browser
    ensures var s := Exec(browser, moves);
            Assess(s.sessions[id], Valid(s.browser.value, true)) == Assessment(ResumeCandidate, Some(Edge))
  {
    ReachableInv(browser, moves);
    assert NotStranded(Exec(browser, moves), id) && ManifestSound(Exec(browser, moves).sessions[id]);
  }

  /** While a live-browser session is unfinished, half published or unreadable, no step rewrites the browser file. */
  lemma {:induction false} UnfinishedSessionProtectsBrowser(browser: Option<string>, moves: seq<Move>, m: Move, id: nat)
    requires id in Exec(browser, moves).sessions && Exec(browser, moves).sessions[id].kind == Edge
    requires var x := Exec(browser, moves).sessions[id]; x.status.None? || !IsTerminal(x.status.value)
    ensures Apply(Exec(browser, moves), m).browser == Exec(browser, moves).browser
  {
    if Apply(Exec(browser, moves), m).browser != Exec(browser, moves).browser {
      BrowserRewrittenOnlyWhenHarmless(browser, moves, m);
    }
  }

  /** A session advertised as resumable is past its grant, its grant file is durable, and its manifest is its own. */
  lemma ResumableSessionIsPastItsGrant(browser: Option<string>, moves: seq<Move>, id: nat, evidence: Evidence)
    requires id in Exec(browser, moves).sessions
    requires Assess(Exec(browser, moves).sessions[id], evidence).disposition.ResumeCandidate?
    ensures var x := Exec(browser, moves).sessions[id];
            && x.status.Some? && !BeforeGrant(x.status.value) && x.grant
            && x.manifest.Some? && x.manifest.value.transport == x.kind
  {
    ReachableInv(browser, moves);
    assert ManifestSound(Exec(browser, moves).sessions[id]);
  }

  /** The browser file changes only in the last setup step, when no session anywhere can be stranded by it. */
  lemma BrowserRewrittenOnlyWhenHarmless(browser: Option<string>, moves: seq<Move>, m: Move)
    requires Apply(Exec(browser, moves), m).browser != Exec(browser, moves).browser
    ensures m.SetupMove? && Holding(Exec(browser, moves), m.actor)
    ensures forall id | id in Exec(browser, moves).sessions :: Harmless(Exec(browser, moves).sessions[id])
  {
    ReachableInv(browser, moves);
    var s := Exec(browser, moves);
    assert JobFact(s, m.actor);
  }

  // ----- The compare-and-swap -----

  /**
   In every run, a step that changes the browser file is a setup's write: the file it replaces is the baseline its
   setup started from, and what it leaves is that setup's new configuration.
   */
  lemma {:induction false} WriteIsCompareAndSwap(browser: Option<string>, moves: seq<Move>, m: Move)
    requires Apply(Exec(browser, moves), m).browser != Exec(browser, moves).browser
    ensures var s := Exec(browser, moves);
            && m.SetupMove? && Holding(s, m.actor) && s.jobs[m.actor].Setup? && s.jobs[m.actor].setup.Write?
            && s.jobs[m.actor].baseline == s.browser
            && s.jobs[m.actor].config.Some? && Apply(s, m).browser == s.jobs[m.actor].config
  {
    ReachableInv(browser, moves);
    assert JobFact(Exec(browser, moves), m.actor);
  }

  /**
   As long as every writer takes the lock, the second comparison never fails: from the first one on, the browser file
   stays the baseline of the setup that goes on.
   */
  lemma {:induction false} BaselineStaysWhileSetupGoesOn(browser: Option<string>, moves: seq<Move>, a: nat)
    requires var s := Exec(browser, moves); Holding(s, a) && s.jobs[a].Setup? && Compared(s.jobs[a].setup)
    ensures Exec(browser, moves).browser == Exec(browser, moves).jobs[a].baseline
  {
    ReachableInv(browser, moves);
    assert JobFact(Exec(browser, moves), a);
  }

  /** What a job sets out to do never changes. */
  predicate SamePlan(j: Job, k: Job) {
    match j
    case Setup(_, baseline, config) => k.Setup? && k.baseline == baseline && k.config == config
    case Publish(_, expected, session) => k.Publish? && k.expected == expected && k.session == session
    case Idle => k.Idle?
  }

  lemma StepKeepsPlan(s: Sys, m: Move, a: nat)
    requires a in s.jobs && (forall b | b in s.jobs :: b in s.lock.actors)
    ensures a in Apply(s, m).jobs && SamePlan(s.jobs[a], Apply(s, m).jobs[a])
  {
  }

  // ----- A setup that nothing disturbs -----

  /** Setup steps of one actor that neither fail nor read anything wrong; `picks` names the sessions scanned. */
  function SetupRun(s: Sys, a: nat, picks: seq<nat>): Sys {
    if picks == [] then s
    else Apply(SetupRun(s, a, picks[..|picks| - 1]), SetupMove(a, picks[|picks| - 1], false, false))
  }

  /** The setup will save: the file is still its baseline, and no session stands in its way. */
  predicate MaySave(s: Sys, a: nat)
    requires a in s.jobs && s.jobs[a].Setup?
  {
    s.browser == s.jobs[a].baseline && forall id | id in s.sessions :: LeavesSetupFree(s.sessions[id])
  }

  /** The browser file such a setup leaves. */
  function Saved(s: Sys, a: nat): Option<string>
    requires a in s.jobs && s.jobs[a].Setup?
  {
    if MaySave(s, a) && s.jobs[a].config.Some? then s.jobs[a].config else s.browser
  }

  lemma BlocksUnlessFree(x: Session)
    ensures Blocks(Assess(x, Missing)) <==> !LeavesSetupFree(x)
  {
  }

  predicate Scanned(s0: Sys, a: nat, todo: set<nat>, blocked: bool)
    requires a in s0.jobs && s0.jobs[a].Setup?
  {
    && s0.browser == s0.jobs[a].baseline && todo <= s0.sessions.Keys
    && (blocked <==> exists id | id in s0.sessions.Keys - todo :: !LeavesSetupFree(s0.sessions[id]))
  }

  /** How far an undisturbed setup that started in `s0` has come in `s`. */
  predicate Along(s0: Sys, a: nat, s: Sys)
    requires a in s0.jobs && s0.jobs[a].Setup?
  {
    && s.lock == s0.lock && s.sessions == s0.sessions && a in s.jobs && SamePlan(s0.jobs[a], s.jobs[a])
    && (!s.jobs[a].setup.Over? ==> s.browser == s0.browser)
    && match s.jobs[a].setup
       case CheckBaseline => true
       case BeginScan => s0.browser == s0.jobs[a].baseline
       case Scan(todo, blocked) => Scanned(s0, a, todo, blocked)
       case Rescan(todo, blocked) => Scanned(s0, a, todo, blocked)
       case Over => s.browser == Saved(s0, a)
       case _ => MaySave(s0, a)
  }

  lemma ScanStepScans(s0: Sys, a: nat, s: Sys, todo: set<nat>, blocked: bool, pick: nat)
    requires a in s0.jobs && s0.jobs[a].Setup? && s.sessions == s0.sessions && Scanned(s0, a, todo, blocked)
    ensures var next := ScanStep(s, todo, blocked, pick, false);
            Scanned(s0, a, next.0, next.1) && next.0 == todo - {pick}
  {
    if pick in todo {
      BlocksUnlessFree(s.sessions[pick]);
      var next := ScanStep(s, todo, blocked, pick, false);
      if next.1 {
        if !blocked { assert pick in s0.sessions.Keys - next.0 && !LeavesSetupFree(s0.sessions[pick]); }
      }
    }
  }

  lemma SetupStepGoesAlong(s0: Sys, a: nat, s: Sys, pick: nat)
    requires Holding(s0, a) && s0.jobs[a].Setup? && Along(s0, a, s)
    ensures Holding(s, a) && Along(s0, a, Apply(s, SetupMove(a, pick, false, false)))
  {
    match s.jobs[a].setup
    case Scan(todo, blocked) => ScanStepScans(s0, a, s, todo, blocked, pick);
    case Rescan(todo, blocked) => ScanStepScans(s0, a, s, todo, blocked, pick);
    case _ =>
  }

  lemma {:induction false} SetupGoesAlong(s0: Sys, a: nat, picks: seq<nat>)
    requires Holding(s0, a) && s0.jobs[a].Setup? && s0.jobs[a].setup.CheckBaseline?
    ensures Along(s0, a, SetupRun(s0, a, picks))
  {
    if picks != [] {
      SetupGoesAlong(s0, a, picks[..|picks| - 1]);
      SetupStepGoesAlong(s0, a, SetupRun(s0, a, picks[..|picks| - 1]), picks[|picks| - 1]);
    }
  }

  /**
   A setup that nothing disturbs saves exactly its own configuration, and exactly if the browser file is its baseline
   and no session stands in its way; until it is over it has written nothing, and it asks for confirmation again only
   if it will save.
   */
  lemma {:induction false} SetupSavesExactlyWhen(s: Sys, a: nat, picks: seq<nat>)
    requires Holding(s, a) && s.jobs[a].Setup? && s.jobs[a].setup.CheckBaseline?
    ensures var t := SetupRun(s, a, picks);
            && t.sessions == s.sessions && a in t.jobs && t.jobs[a].Setup?
            && t.browser == (if t.jobs[a].setup.Over? then Saved(s, a) else s.browser)
            && (t.jobs[a].setup.Revalidate? ==> MaySave(s, a))
  {
    SetupGoesAlong(s, a, picks);
  }

  lemma {:induction false} RunsJoin(s: Sys, a: nat, p: seq<nat>, q: seq<nat>)
    ensures SetupRun(s, a, p + q) == SetupRun(SetupRun(s, a, p), a, q)
  {
    if q == [] {
      assert p + q == p;
    } else {
      RunsJoin(s, a, p, q[..|q| - 1]);
      assert (p + q)[..|p + q| - 1] == p + q[..|q| - 1];
    }
  }

  /** What is left of a setup: the larger, the more steps to go. */
  function StepsLeft(s: Sys, step: SetupStep): nat {
    var n := |s.sessions|;
    match step
    case CheckBaseline => 2 * n + 9
    case BeginScan => 2 * n + 8
    case Scan(todo, _) => n + 6 + |todo|
    case Revalidate => n + 5
    case RecheckBaseline => n + 4
    case BeginRescan => n + 3
    case Rescan(todo, _) => 2 + |todo|
    case Write => 1
    case Over => 0
  }

  lemma SetupStepProgresses(s0: Sys, a: nat, s: Sys) returns (pick: nat)
    requires Holding(s0, a) && s0.jobs[a].Setup? && Along(s0, a, s) && !s.jobs[a].setup.Over?
    ensures var t := Apply(s, SetupMove(a, pick, false, false));
            && Along(s0, a, t) && StepsLeft(t, t.jobs[a].setup) < StepsLeft(s, s.jobs[a].setup)
  {
    pick := 0;
    var step := s.jobs[a].setup;
    if (step.Scan? || step.Rescan?) && step.todo != {} {
      pick :| pick in step.todo;
      ScanStepScans(s0, a, s, step.todo, step.blocked, pick);
    }
    SetupStepGoesAlong(s0, a, s, pick);
    assert |s.sessions.Keys| == |s.sessions|;
  }

  lemma {:induction false} SetupFinishes(s0: Sys, a: nat, s: Sys) returns (picks: seq<nat>)
    requires Holding(s0, a) && s0.jobs[a].Setup? && Along(s0, a, s)
    ensures var t := SetupRun(s, a, picks); a in t.jobs && t.jobs[a].Setup? && t.jobs[a].setup.Over?
    decreases StepsLeft(s, s.jobs[a].setup)
  {
    if s.jobs[a].setup.Over? {
      picks := [];
    } else {
      var pick := SetupStepProgresses(s0, a, s);
      var t := Apply(s, SetupMove(a, pick, false, false));
      var rest := SetupFinishes(s0, a, t);
      assert SetupRun(s, a, [pick]) == t by { assert [pick][..0] == []; }
      RunsJoin(s, a, [pick], rest);
      picks := [pick] + rest;
    }
  }

  /** And it does come to an end, with that file. */
  lemma {:induction false} SetupComesToAnEnd(s: Sys, a: nat) returns (picks: seq<nat>)
    requires Holding(s, a) && s.jobs[a].Setup? && s.jobs[a].setup.CheckBaseline?
    ensures var t := SetupRun(s, a, picks);
            a in t.jobs && t.jobs[a].Setup? && t.jobs[a].setup.Over? && t.browser == Saved(s, a)
  {
    picks := SetupFinishes(s, a, s);
    SetupGoesAlong(s, a, picks);
  }

  // ----- A start that nothing disturbs -----

  function PublishRun(s: Sys, a: nat, n: nat): Sys {
    if n == 0 then s else Apply(PublishRun(s, a, n - 1), PublishMove(a, false))
  }

  /** The session a start leaves: granted, pinned to the expected configuration, and its own publisher's. */
  function Published(a: nat, expected: string): Session {
    Session(Edge, Some(GrantPending), true, Some(Manifest(Edge, Some(expected))), Some(a))
  }

  /** A start of `s` at this step, with what it has made of its session so far. */
  function Starting(s: Sys, a: nat, expected: string, id: nat, step: PublishStep, made: Option<Session>): Sys {
    s.(jobs := s.jobs[a := Publish(step, expected, id)],
       sessions := if made.Some? then s.sessions[id := made.value] else s.sessions)
  }

  /** The steps of a start that goes through. */
  function StepAt(expected: string, n: nat): PublishStep
    requires n <= 7
  {
    match n
    case 0 => Load
    case 1 => MakeDirectory(expected)
    case 2 => CreateState(expected)
    case 3 => ToPreflight(expected)
    case 4 => WriteGrant(expected)
    case 5 => ToGrantPending(expected)
    case 6 => WriteManifest(expected)
    case _ => Finished
  }

  function MadeAt(a: nat, expected: string, n: nat): Option<Session> {
    match n
    case 0 => None
    case 1 => None
    case 2 => Some(Session(Edge, None, false, None, Some(a)))
    case 3 => Some(Session(Edge, Some(Created), false, None, Some(a)))
    case 4 => Some(Session(Edge, Some(Preflight), false, None, Some(a)))
    case 5 => Some(Session(Edge, Some(Preflight), true, None, Some(a)))
    case 6 => Some(Session(Edge, Some(GrantPending), true, None, Some(a)))
    case _ => Some(Published(a, expected))
  }

  lemma StartMakes(s: Sys, a: nat, expected: string, id: nat, n: nat)
    requires Holding(s, a) && n < 7 && s.browser == Some(expected) && id !in s.sessions
    ensures var now := Starting(s, a, expected, id, StepAt(expected, n), MadeAt(a, expected, n));
            Apply(now, PublishMove(a, false))
            == Starting(s, a, expected, id, StepAt(expected, n + 1), MadeAt(a, expected, n + 1))
  {
    var next := Apply(Starting(s, a, expected, id, StepAt(expected, n), MadeAt(a, expected, n)), PublishMove(a, false));
    assert next.sessions == Starting(s, a, expected, id, StepAt(expected, n + 1), MadeAt(a, expected, n + 1)).sessions;
  }

  lemma {:induction false} StartGoesThrough(s: Sys, a: nat, expected: string, id: nat, n: nat)
    requires Holding(s, a) && s.jobs[a] == Publish(Load, expected, id) && s.browser == Some(expected)
    requires id !in s.sessions && n <= 7
    ensures PublishRun(s, a, n) == Starting(s, a, expected, id, StepAt(expected, n), MadeAt(a, expected, n))
  {
    if n == 0 {
      assert s.jobs[a := Publish(Load, expected, id)] == s.jobs;
    } else {
      StartGoesThrough(s, a, expected, id, n - 1);
      StartMakes(s, a, expected, id, n - 1);
    }
  }

  /** A start that is refused: by its first step if the file differs, by its second if the session is there already. */
  lemma {:induction false} StartGivesUp(s: Sys, a: nat, expected: string, id: nat, n: nat)
    requires Holding(s, a) && s.jobs[a] == Publish(Load, expected, id)
    requires s.browser != Some(expected) || id in s.sessions
    ensures PublishRun(s, a, n) ==
            Starting(s, a, expected, id,
                     if n == 0 then Load
                     else if n == 1 && s.browser == Some(expected) then MakeDirectory(expected) else Finished, None)
  {
    if n == 0 {
      assert s.jobs[a := Publish(Load, expected, id)] == s.jobs;
    } else {
      StartGivesUp(s, a, expected, id, n - 1);
      assert PublishRun(s, a, n) == Apply(PublishRun(s, a, n - 1), PublishMove(a, false));
    }
  }

  /**
   A start that nothing disturbs publishes its whole session exactly if the browser file is the one it was configured
   with and the session is new, and leaves no trace of it otherwise.
   */
  lemma {:induction false} StartPublishesExactlyWhen(s: Sys, a: nat, expected: string, id: nat)
    requires Holding(s, a) && s.jobs[a] == Publish(Load, expected, id)
    ensures var t := PublishRun(s, a, 7);
            && a in t.jobs && t.jobs[a] == Publish(Finished, expected, id) && t.browser == s.browser
            && t.sessions == if s.browser == Some(expected) && id !in s.sessions
                             then s.sessions[id := Published(a, expected)] else s.sessions
  {
    if s.browser == Some(expected) && id !in s.sessions {
      StartGoesThrough(s, a, expected, id, 7);
    } else {
      StartGivesUp(s, a, expected, id, 7);
    }
  }
}
