/**
 `rollbackSession`: rolling a session back to a checkpoint, with crashes between any two durable steps.

 What survives a crash is the session status, the audit log and the marker of a restored checkpoint. A run is
 given the number of durable steps it may take before it crashes. The workspace lock keeps runs apart.
 */
module Rollback {
  import opened Basics
  import opened SessionLifecycle

  type CheckpointId = string

  datatype Event =
    | CheckpointRolledBack(id: CheckpointId, from: Status)
    | SessionEnded(from: Status, next: Status, checkpoint: Option<CheckpointId>)
    | OtherEvent

  datatype Disk = Disk(status: Status, log: seq<Event>, restored: set<CheckpointId>)

  datatype Outcome = Done | Refused(code: string) | Crashed

  datatype Out = Out(disk: Disk, outcome: Outcome)

  /** `fromStatus` of the first `checkpoint.rolled_back` event for the checkpoint. */
  function Prior(log: seq<Event>, id: CheckpointId): Option<Status> {
    if log == [] then None
    else if Prior(log[..|log| - 1], id).Some? then Prior(log[..|log| - 1], id)
    else if log[|log| - 1].CheckpointRolledBack? && log[|log| - 1].id == id then Some(log[|log| - 1].from)
    else None
  }

  predicate Announces(e: Event, id: CheckpointId) {
    e.CheckpointRolledBack? && e.id == id
  }

  /** A `session.ended` event that accounts for the rollback to this checkpoint. */
  predicate Matches(e: Event, id: CheckpointId) {
    e.SessionEnded? && e.next.RolledBack? && (e.checkpoint.None? || e.checkpoint.value == id)
  }

  function Append(d: Disk, e: Event): Disk {
    d.(log := d.log + [e])
  }

  function Announced(log: seq<Event>, id: CheckpointId): nat {
    if log == [] then 0 else Announced(log[..|log| - 1], id) + if Announces(log[|log| - 1], id) then 1 else 0
  }

  function Ended(log: seq<Event>, id: CheckpointId): nat {
    if log == [] then 0 else Ended(log[..|log| - 1], id) + if Matches(log[|log| - 1], id) then 1 else 0
  }

  // ----- One run, taking at most `k` durable steps -----

  /** The checkpoint store restores the files; a retry finds its own `restored` marker. */
  function Run(d: Disk, id: CheckpointId, restorable: bool, k: nat): Out {
    if !restorable then Out(d, Refused("RECOVERY_REQUIRED"))
    else if k == 0 then Out(d, Crashed)
    else Announce(d.(restored := d.restored + {id}), id, k - 1)
  }

  function Announce(d: Disk, id: CheckpointId, k: nat): Out {
    match Prior(d.log, id)
    case Some(from) =>
      if !d.status.RolledBack? && from != d.status then Out(d, Refused("RECOVERY_REQUIRED")) else Move(d, id, from, k)
    case None =>
      if k == 0 then Out(d, Crashed) else Move(Append(d, CheckpointRolledBack(id, d.status)), id, d.status, k - 1)
  }

  /** `moveState`: the status is written before the event is appended. */
  function Move(d: Disk, id: CheckpointId, from: Status, k: nat): Out {
    if d.status.RolledBack? then End(d, id, from, k)
    else if k == 0 then Out(d, Crashed)
    else if k == 1 then Out(d.(status := RolledBack), Crashed)
    else End(Append(d.(status := RolledBack), SessionEnded(d.status, RolledBack, None)), id, from, k - 2)
  }

  function End(d: Disk, id: CheckpointId, from: Status, k: nat): Out {
    if Ended(d.log, id) > 0 then Out(d, Done)
    else if k == 0 then Out(d, Crashed)
    else Out(Append(d, SessionEnded(from, RolledBack, Some(id))), Done)
  }

  // ----- What every durable step keeps -----

  predicate Ok(d: Disk, id: CheckpointId) {
    && Announced(d.log, id) <= 1 && Ended(d.log, id) <= 1
    && (!d.status.RolledBack? ==> Ended(d.log, id) == 0)
    && (Announced(d.log, id) > 0 ==> id in d.restored)
  }

  ghost predicate Inv(d: Disk) {
    forall id: CheckpointId :: Ok(d, id)
  }

  lemma CountsAppend(d: Disk, e: Event, id: CheckpointId)
    ensures Announced(Append(d, e).log, id) == Announced(d.log, id) + if Announces(e, id) then 1 else 0
    ensures Ended(Append(d, e).log, id) == Ended(d.log, id) + if Matches(e, id) then 1 else 0
  {
    assert (d.log + [e])[..|d.log|] == d.log;
  }

  lemma {:induction false} PriorIsAnnounced(log: seq<Event>, id: CheckpointId)
    ensures Prior(log, id).Some? <==> Announced(log, id) > 0
  {
    if log != [] { PriorIsAnnounced(log[..|log| - 1], id); }
  }

  lemma EndKeepsInv(d: Disk, id: CheckpointId, from: Status, k: nat)
    requires Inv(d) && d.status.RolledBack?
    ensures Inv(End(d, id, from, k).disk)
  {
    forall x: CheckpointId ensures Ok(End(d, id, from, k).disk, x) {
      assert Ok(d, x);
      CountsAppend(d, SessionEnded(from, RolledBack, Some(id)), x);
    }
  }

  lemma MoveKeepsInv(d: Disk, id: CheckpointId, from: Status, k: nat)
    requires Inv(d)
    ensures Inv(Move(d, id, from, k).disk)
  {
    if d.status.RolledBack? {
      EndKeepsInv(d, id, from, k);
    } else {
      var moved := d.(status := RolledBack);
      var logged := Append(moved, SessionEnded(d.status, RolledBack, None));
      forall x: CheckpointId ensures Ok(moved, x) && Ok(logged, x) {
        assert Ok(d, x);
        CountsAppend(moved, SessionEnded(d.status, RolledBack, None), x);
      }
      if k >= 2 { EndKeepsInv(logged, id, from, k - 2); }
    }
  }

  lemma RunKeepsInv(d: Disk, id: CheckpointId, restorable: bool, k: nat)
    requires Inv(d)
    ensures Inv(Run(d, id, restorable, k).disk)
  {
    var r := d.(restored := d.restored + {id});
    var announced := Append(r, CheckpointRolledBack(id, r.status));
    PriorIsAnnounced(r.log, id);
    forall x: CheckpointId
      ensures Ok(r, x) && (Prior(r.log, id).None? ==> Ok(announced, x))
    {
      assert Ok(d, x);
      CountsAppend(r, CheckpointRolledBack(id, r.status), x);
    }
    if restorable && k > 0 {
      match Prior(r.log, id)
      case Some(from) => MoveKeepsInv(r, id, from, k - 1);
      case None => if k > 1 { MoveKeepsInv(announced, id, r.status, k - 2); }
    }
  }

  // ----- All runs -----

  /** A rollback run, or a status change by another command, which may crash before its event is `logged`. */
  datatype Action =
    | RollbackRun(id: CheckpointId, restorable: bool, steps: nat)
    | OtherMove(next: Status, logged: bool)

  function Perform(d: Disk, a: Action): Disk {
    match a
    case RollbackRun(id, restorable, steps) => Run(d, id, restorable, steps).disk
    case OtherMove(next, logged) =>
      if next.RolledBack? || !CanMove(d.status, next) then d
      else
        var moved := d.(status := next);
        if !logged then moved
        else Append(moved, if IsTerminal(next) then SessionEnded(d.status, next, None) else OtherEvent)
  }

  function After(d: Disk, actions: seq<Action>): Disk {
    if actions == [] then d else Perform(After(d, actions[..|actions| - 1]), actions[|actions| - 1])
  }

  function NewSession(): Disk {
    Disk(Created, [], {})
  }

  lemma PerformKeepsInv(d: Disk, a: Action)
    requires Inv(d)
    ensures Inv(Perform(d, a))
  {
    match a
    case RollbackRun(id, restorable, steps) => RunKeepsInv(d, id, restorable, steps);
    case OtherMove(next, logged) =>
      forall x: CheckpointId ensures Ok(Perform(d, a), x) {
        assert Ok(d, x);
        var event := if IsTerminal(next) then SessionEnded(d.status, next, None) else OtherEvent;
        CountsAppend(d.(status := next), event, x);
      }
  }

  lemma {:induction false} AfterKeepsInv(d: Disk, actions: seq<Action>)
    requires Inv(d)
    ensures Inv(After(d, actions))
  {
    if actions == [] {
    } else {
      AfterKeepsInv(d, actions[..|actions| - 1]);
      PerformKeepsInv(After(d, actions[..|actions| - 1]), actions[|actions| - 1]);
    }
  }

  /** In no history does a checkpoint get two `checkpoint.rolled_back` events or two matching `session.ended` events. */
  lemma {:induction false} AtMostOneEventEach(actions: seq<Action>, id: CheckpointId)
    ensures Announced(After(NewSession(), actions).log, id) <= 1
    ensures Ended(After(NewSession(), actions).log, id) <= 1
  {
    assert forall x: CheckpointId :: Ok(NewSession(), x);
    AfterKeepsInv(NewSession(), actions);
    assert Ok(After(NewSession(), actions), id);
  }

  /** The session is where a rollback of this checkpoint can finish. */
  predicate Finishable(d: Disk, id: CheckpointId) {
    d.status.RolledBack? || Prior(d.log, id).None? || Prior(d.log, id) == Some(d.status)
  }

  /** The state a finished rollback leaves behind. */
  predicate Finished(d: Disk, id: CheckpointId) {
    d.status.RolledBack? && Announced(d.log, id) == 1 && Ended(d.log, id) == 1 && id in d.restored
  }

  lemma MoveFinishes(d: Disk, id: CheckpointId, from: Status, k: nat)
    requires Ok(d, id) && Announced(d.log, id) == 1
    ensures Move(d, id, from, k).outcome.Done? ==> Finished(Move(d, id, from, k).disk, id)
    ensures k >= 3 ==> Move(d, id, from, k).outcome.Done?
  {
    var moved := d.(status := RolledBack);
    var logged := Append(moved, SessionEnded(d.status, RolledBack, None));
    CountsAppend(moved, SessionEnded(d.status, RolledBack, None), id);
    CountsAppend(d, SessionEnded(from, RolledBack, Some(id)), id);
    CountsAppend(logged, SessionEnded(from, RolledBack, Some(id)), id);
  }

  /** A run that is not cut short finishes exactly when the audited intent agrees with the session's status. */
  lemma RunFinishesExactlyWhen(d: Disk, id: CheckpointId, k: nat)
    requires Inv(d) && k >= 5
    ensures Run(d, id, true, k).outcome.Done? <==> Finishable(d, id)
    ensures Run(d, id, true, k).outcome.Done? ==> Finished(Run(d, id, true, k).disk, id)
  {
    assert Ok(d, id);
    var r := d.(restored := d.restored + {id});
    PriorIsAnnounced(r.log, id);
    CountsAppend(r, CheckpointRolledBack(id, r.status), id);
    if Prior(r.log, id).Some? {
      MoveFinishes(r, id, Prior(r.log, id).value, k - 1);
    } else {
      MoveFinishes(Append(r, CheckpointRolledBack(id, r.status)), id, r.status, k - 2);
    }
  }

  lemma PriorAppend(d: Disk, e: Event, id: CheckpointId)
    ensures Prior(Append(d, e).log, id) == if Prior(d.log, id).Some? then Prior(d.log, id)
                                           else if Announces(e, id) then Some(e.from) else None
  {
    assert (d.log + [e])[..|d.log|] == d.log;
  }

  lemma MoveRollsBackOrStays(d: Disk, id: CheckpointId, from: Status, k: nat)
    ensures Move(d, id, from, k).disk.status.RolledBack? || Move(d, id, from, k).disk == d
  {
  }

  lemma CrashKeepsFinishable(d: Disk, id: CheckpointId, k: nat)
    requires Finishable(d, id)
    ensures Finishable(Run(d, id, true, k).disk, id)
  {
    var r := d.(restored := d.restored + {id});
    var announced := Append(r, CheckpointRolledBack(id, r.status));
    PriorAppend(r, CheckpointRolledBack(id, r.status), id);
    if k >= 1 && Prior(r.log, id).Some? { MoveRollsBackOrStays(r, id, Prior(r.log, id).value, k - 1); }
    if k >= 2 && Prior(r.log, id).None? { MoveRollsBackOrStays(announced, id, r.status, k - 2); }
  }

  /** The events an uninterrupted rollback adds: its intent unless audited, and the move, or an end if none counts. */
  function Written(d: Disk, id: CheckpointId): seq<Event> {
    var from := if Prior(d.log, id).Some? then Prior(d.log, id).value else d.status;
    (if Prior(d.log, id).Some? then [] else [CheckpointRolledBack(id, d.status)])
    + (if !d.status.RolledBack? then [SessionEnded(d.status, RolledBack, None)]
       else if Ended(d.log, id) > 0 then [] else [SessionEnded(from, RolledBack, Some(id))])
  }

  /**
   What a run that is not cut short leaves, exactly: refused without a restorable checkpoint, refused with the files
   restored if the audited intent disagrees with the status, and finished with just these events otherwise.
   */
  lemma {:induction false} FullRunExactly(d: Disk, id: CheckpointId, restorable: bool, k: nat)
    requires k >= 5
    ensures Run(d, id, restorable, k) ==
            if !restorable then Out(d, Refused("RECOVERY_REQUIRED"))
            else if !Finishable(d, id) then Out(d.(restored := d.restored + {id}), Refused("RECOVERY_REQUIRED"))
            else Out(Disk(RolledBack, d.log + Written(d, id), d.restored + {id}), Done)
  {
    if restorable && Finishable(d, id) {
      var r := d.(restored := d.restored + {id});
      var intent := CheckpointRolledBack(id, d.status);
      CountsAppend(r, intent, id);
      if Prior(d.log, id).Some? {
        FullMoveExactly(r, id, Prior(d.log, id).value, k - 1);
      } else {
        FullMoveExactly(Append(r, intent), id, d.status, k - 2);
      }
      assert d.log + Written(d, id) == Run(d, id, true, k).disk.log;
    }
  }

  lemma FullMoveExactly(d: Disk, id: CheckpointId, from: Status, k: nat)
    requires k >= 3
    ensures Move(d, id, from, k) ==
            Out(d.(status := RolledBack,
                   log := d.log + if !d.status.RolledBack? then [SessionEnded(d.status, RolledBack, None)]
                                  else if Ended(d.log, id) > 0 then []
                                  else [SessionEnded(from, RolledBack, Some(id))]), Done)
  {
    if d.status.RolledBack? {
      assert Move(d, id, from, k) == End(d, id, from, k);
      if Ended(d.log, id) > 0 { assert d.log + [] == d.log; }
    } else {
      var moved := d.(status := RolledBack);
      var logged := Append(moved, SessionEnded(d.status, RolledBack, None));
      CountsAppend(moved, SessionEnded(d.status, RolledBack, None), id);
      assert Ended(logged.log, id) > 0;
      assert Move(d, id, from, k) == End(logged, id, from, k - 2) == Out(logged, Done);
    }
  }

  /** A run that is cut short has written a part of what the full one writes, in the same order. */
  lemma {:induction false} CrashedRunIsPrefix(d: Disk, id: CheckpointId, k: nat)
    requires Finishable(d, id)
    ensures d.log <= Run(d, id, true, k).disk.log <= d.log + Written(d, id)
    ensures Run(d, id, true, k).disk.status in {d.status, RolledBack}
    ensures Run(d, id, true, k).outcome.Crashed? || Run(d, id, true, k).outcome.Done?
  {
    var r := d.(restored := d.restored + {id});
    CountsAppend(r, CheckpointRolledBack(id, d.status), id);
    var announced := Append(r, CheckpointRolledBack(id, d.status));
    CountsAppend(r.(status := RolledBack), SessionEnded(d.status, RolledBack, None), id);
    CountsAppend(announced.(status := RolledBack), SessionEnded(d.status, RolledBack, None), id);
  }

  /** Crashed attempts at the same rollback, each after the given number of durable steps. */
  function Attempts(d: Disk, id: CheckpointId, crashes: seq<nat>): Disk {
    if crashes == [] then d else Run(Attempts(d, id, crashes[..|crashes| - 1]), id, true, crashes[|crashes| - 1]).disk
  }

  lemma {:induction false} AttemptsKeepFinishable(d: Disk, id: CheckpointId, crashes: seq<nat>)
    requires Inv(d) && Finishable(d, id)
    ensures Inv(Attempts(d, id, crashes)) && Finishable(Attempts(d, id, crashes), id)
  {
    if crashes != [] {
      var before := Attempts(d, id, crashes[..|crashes| - 1]);
      AttemptsKeepFinishable(d, id, crashes[..|crashes| - 1]);
      RunKeepsInv(before, id, true, crashes[|crashes| - 1]);
      CrashKeepsFinishable(before, id, crashes[|crashes| - 1]);
    }
  }

  /**
   Crash-and-retry rollback: after any history, any number of attempts crashing anywhere, and one attempt that is
   not cut short, the session is rolled back with exactly one event of each kind for the checkpoint.
   */
  lemma {:induction false} CrashAndRetryFinishesOnce(actions: seq<Action>, id: CheckpointId, crashes: seq<nat>, k: nat)
    requires Finishable(After(NewSession(), actions), id) && k >= 5
    ensures var out := Run(Attempts(After(NewSession(), actions), id, crashes), id, true, k);
            out.outcome.Done? && Finished(out.disk, id)
  {
    assert forall x: CheckpointId :: Ok(NewSession(), x);
    AfterKeepsInv(NewSession(), actions);
    AttemptsKeepFinishable(After(NewSession(), actions), id, crashes);
    RunFinishesExactlyWhen(Attempts(After(NewSession(), actions), id, crashes), id, k);
  }

  // ----- Refused retries -----

  /** A session that left the audited status without being rolled back: the retry is refused. */
  predicate Overtaken(d: Disk, id: CheckpointId) {
    Prior(d.log, id).Some? && !Finishable(d, id)
  }

  lemma OtherMoveKeepsIntent(d: Disk, id: CheckpointId, next: Status, logged: bool)
    ensures Prior(Perform(d, OtherMove(next, logged)).log, id) == Prior(d.log, id)
    ensures var t := Perform(d, OtherMove(next, logged)).status; t == d.status || (t == next && Step(d.status, next))
  {
    PriorAppend(d.(status := next), if IsTerminal(next) then SessionEnded(d.status, next, None) else OtherEvent, id);
  }

  lemma RefusedRunChangesNothing(d: Disk, id: CheckpointId, restorable: bool, steps: nat)
    requires Overtaken(d, id)
    ensures var t := Run(d, id, restorable, steps).disk; t.status == d.status && t.log == d.log
    ensures restorable && steps > 0 ==> Run(d, id, restorable, steps).outcome.Refused?
  {
  }

  /** Any command at all, where `s` holds the checkpoints whose files can be restored. */
  predicate Possible(s: set<CheckpointId>, a: Action) {
    a.RollbackRun? && a.restorable ==> a.id in s
  }

  predicate AllPossible(s: set<CheckpointId>, actions: seq<Action>) {
    forall a | a in actions :: Possible(s, a)
  }

  /** A rollback of this checkpoint can still finish: it was never audited, or the audited status can come back. */
  predicate Open(d: Disk, x: CheckpointId) {
    Prior(d.log, x).None? || Leads(d.status, Prior(d.log, x).value)
  }

  /** No rollback can be finished from here: not of `id`, and not of any restorable checkpoint. */
  predicate AllClosed(d: Disk, s: set<CheckpointId>, id: CheckpointId) {
    !d.status.RolledBack? && forall x | x in s + {id} :: !Open(d, x)
  }

  lemma OtherMoveKeepsClosed(d: Disk, s: set<CheckpointId>, id: CheckpointId, next: Status, logged: bool)
    requires AllClosed(d, s, id)
    ensures AllClosed(Perform(d, OtherMove(next, logged)), s, id)
  {
    var t := Perform(d, OtherMove(next, logged));
    OtherMoveKeepsIntent(d, id, next, logged);
    forall x | x in s + {id} ensures !Open(t, x) {
      OtherMoveKeepsIntent(d, x, next, logged);
      assert !Open(d, x);
      if t.status != d.status && Leads(next, Prior(d.log, x).value) {
        StepsKeepWaysClosed(d.status, next, Prior(d.log, x).value);
      }
    }
  }

  lemma RunKeepsClosed(d: Disk, s: set<CheckpointId>, id: CheckpointId, x: CheckpointId, restorable: bool, steps: nat)
    requires AllClosed(d, s, id) && (restorable ==> x in s)
    ensures AllClosed(Run(d, x, restorable, steps).disk, s, id)
  {
    if restorable {
      assert !Open(d, x);
      RefusedRunChangesNothing(d, x, restorable, steps);
    }
    var t := Run(d, x, restorable, steps).disk;
    forall y | y in s + {id} ensures !Open(t, y) { assert !Open(d, y); }
  }

  /** What is closed stays closed, whatever is done. */
  lemma {:induction false} ClosedForEver(d: Disk, s: set<CheckpointId>, id: CheckpointId, actions: seq<Action>)
    requires AllClosed(d, s, id) && AllPossible(s, actions)
    ensures AllClosed(After(d, actions), s, id)
  {
    if actions == [] {
    } else {
      var (before, last) := (After(d, actions[..|actions| - 1]), actions[|actions| - 1]);
      ClosedForEver(d, s, id, actions[..|actions| - 1]);
      assert Possible(s, last);
      match last
      case RollbackRun(x, restorable, steps) => RunKeepsClosed(before, s, id, x, restorable, steps);
      case OtherMove(next, logged) => OtherMoveKeepsClosed(before, s, id, next, logged);
    }
  }

  /** The moves along a route. */
  function Moves(path: seq<Status>): seq<Action> {
    if |path| <= 1 then [] else Moves(path[..|path| - 1]) + [OtherMove(path[|path| - 1], true)]
  }

  lemma {:induction false} MovesFollowRoute(d: Disk, id: CheckpointId, path: seq<Status>)
    requires Route(path) && path[0] == d.status
    ensures var t := After(d, Moves(path)); t.status == path[|path| - 1] && Prior(t.log, id) == Prior(d.log, id)
    ensures forall a | a in Moves(path) :: a.OtherMove?
  {
    if |path| > 1 {
      var (front, last) := (path[..|path| - 1], path[|path| - 1]);
      MovesFollowRoute(d, id, front);
      assert Step(path[|path| - 2], last);
      assert Moves(path)[..|Moves(path)| - 1] == Moves(front);
      OtherMoveKeepsIntent(After(d, Moves(front)), id, last, true);
    }
  }

  /** After some sequence of commands a retry that is not cut short finishes. */
  ghost predicate CanStillFinish(d: Disk, s: set<CheckpointId>, id: CheckpointId) {
    exists actions: seq<Action> :: AllPossible(s, actions) && Run(After(d, actions), id, true, 5).outcome.Done?
  }

  lemma DoneExactlyWhenFinishable(d: Disk, id: CheckpointId)
    ensures Run(d, id, true, 5).outcome.Done? <==> Finishable(d, id)
  {
  }

  lemma ClosedNeverFinishes(d: Disk, s: set<CheckpointId>, id: CheckpointId, actions: seq<Action>)
    requires AllClosed(d, s, id) && AllPossible(s, actions)
    ensures !Run(After(d, actions), id, true, 5).outcome.Done?
  {
    ClosedForEver(d, s, id, actions);
    DoneExactlyWhenFinishable(After(d, actions), id);
    assert !Open(After(d, actions), id);
  }

  /** Some other checkpoint can be restored whose rollback is not closed. */
  predicate Rescued(d: Disk, s: set<CheckpointId>, id: CheckpointId) {
    exists x | x in s && x != id :: Open(d, x)
  }

  /** Where the rollback of a checkpoint is open, some moves and one run roll the session back. */
  lemma OpenRollsBack(d: Disk, x: CheckpointId) returns (actions: seq<Action>)
    requires Open(d, x)
    ensures After(d, actions).status.RolledBack?
    ensures forall a | a in actions :: a.RollbackRun? ==> a.id == x
  {
    var moves: seq<Action> := [];
    if Prior(d.log, x).Some? {
      var path := LeadsHasRoute(d.status, Prior(d.log, x).value);
      MovesFollowRoute(d, x, path);
      moves := Moves(path);
    }
    var there := After(d, moves);
    actions := moves + [RollbackRun(x, true, 5)];
    assert actions[..|actions| - 1] == moves;
    assert Finishable(there, x);
    FinishableRunRollsBack(there, x);
  }

  lemma FinishableRunRollsBack(d: Disk, x: CheckpointId)
    requires Finishable(d, x)
    ensures Run(d, x, true, 5).disk.status.RolledBack?
  {
  }

  /**
   A refused retry can succeed later exactly when the audited status can come back, or another restorable
   checkpoint has a rollback that was never audited or whose own audited status can come back: rolling back to that
   one rescues this one. In every other case no sequence of commands ever lets the retry through.
   */
  lemma {:induction false} RefusedForEverExactlyWhen(d: Disk, s: set<CheckpointId>, id: CheckpointId)
    requires Overtaken(d, id)
    ensures CanStillFinish(d, s, id) <==> Leads(d.status, Prior(d.log, id).value) || Rescued(d, s, id)
  {
    if Leads(d.status, Prior(d.log, id).value) {
      var path := LeadsHasRoute(d.status, Prior(d.log, id).value);
      MovesFollowRoute(d, id, path);
      assert AllPossible(s, Moves(path));
      DoneExactlyWhenFinishable(After(d, Moves(path)), id);
    } else if Rescued(d, s, id) {
      var x :| x in s && x != id && Open(d, x);
      var actions := OpenRollsBack(d, x);
      assert AllPossible(s, actions);
      DoneExactlyWhenFinishable(After(d, actions), id);
    } else if CanStillFinish(d, s, id) {
      var actions :| AllPossible(s, actions) && Run(After(d, actions), id, true, 5).outcome.Done?;
      ClosedNeverFinishes(d, s, id, actions);
    }
  }

  /** A session that was paused, and whose rollback crashed after its intent was audited. */
  function PausedIntent(): Disk {
    Perform(After(NewSession(), Moves(ToPaused(Created))), RollbackRun("c", true, 2))
  }

  lemma PausedIntentDisk()
    ensures PausedIntent().status == Paused
    ensures Prior(PausedIntent().log, "c") == Some(Paused) && Prior(PausedIntent().log, "d") == None
  {
    MovesFollowRoute(NewSession(), "c", ToPaused(Created));
    MovesFollowRoute(NewSession(), "d", ToPaused(Created));
    var d := After(NewSession(), Moves(ToPaused(Created)));
    PriorAppend(d.(restored := d.restored + {"c"}), CheckpointRolledBack("c", Paused), "c");
    PriorAppend(d.(restored := d.restored + {"c"}), CheckpointRolledBack("c", Paused), "d");
  }

  function AbortedIntent(): Disk {
    Perform(PausedIntent(), OtherMove(Aborted, true))
  }

  lemma AbortedIntentDisk()
    ensures AbortedIntent().status == Aborted
    ensures Prior(AbortedIntent().log, "c") == Some(Paused) && Prior(AbortedIntent().log, "d") == None
  {
    PausedIntentDisk();
    OtherMoveKeepsIntent(PausedIntent(), "c", Aborted, true);
    OtherMoveKeepsIntent(PausedIntent(), "d", Aborted, true);
  }

  /** Recovering the session meanwhile refuses the retry, until the session is paused again. */
  lemma {:induction false} RetryRefusedWhileRecovering(k: nat)
    requires k > 0
    ensures var recovering := Perform(PausedIntent(), OtherMove(Recovering, true));
            && Run(recovering, "c", true, k).outcome.Refused?
            && Run(Perform(recovering, OtherMove(Paused, true)), "c", true, 5).outcome.Done?
  {
    PausedIntentDisk();
    var recovering := Perform(PausedIntent(), OtherMove(Recovering, true));
    OtherMoveKeepsIntent(PausedIntent(), "c", Recovering, true);
    OtherMoveKeepsIntent(recovering, "c", Paused, true);
    RefusedRunChangesNothing(recovering, "c", true, k);
    DoneExactlyWhenFinishable(Perform(recovering, OtherMove(Paused, true)), "c");
  }

  /**
   Aborting it refuses the retry for ever if no other checkpoint can be restored; rolling back to another one that
   was never audited lets the retry through.
   */
  lemma {:induction false} RetryRefusedAfterAbort(k: nat)
    requires k > 0
    ensures Run(AbortedIntent(), "c", true, k).outcome.Refused? && !CanStillFinish(AbortedIntent(), {"c"}, "c")
    ensures Run(Perform(AbortedIntent(), RollbackRun("d", true, 5)), "c", true, 5).outcome.Done?
  {
    AbortedIntentDisk();
    RefusedRunChangesNothing(AbortedIntent(), "c", true, k);
    RefusedForEverExactlyWhen(AbortedIntent(), {"c"}, "c");
    FinishableRunRollsBack(AbortedIntent(), "d");
    DoneExactlyWhenFinishable(Perform(AbortedIntent(), RollbackRun("d", true, 5)), "c");
  }

  // ----- The command -----

  /** The durable store of a session, updated step by step. */
  class Session {
    var status: Status
    var auditLog: seq<Event>
    var restored: set<CheckpointId>

    ghost function Model(): Disk
      reads this
    {
      Disk(status, auditLog, restored)
    }

    method FindPrior(id: CheckpointId) returns (prior: Option<Status>)
      ensures prior == Prior(auditLog, id)
    {
      prior := None;
      for i := 0 to |auditLog|
        invariant prior == Prior(auditLog[..i], id)
      {
        assert auditLog[..i + 1][..i] == auditLog[..i];
        if prior.None? && Announces(auditLog[i], id) { prior := Some(auditLog[i].from); }
      }
      assert auditLog[..|auditLog|] == auditLog;
    }

    method SomeEnded(id: CheckpointId) returns (found: bool)
      ensures found <==> Ended(auditLog, id) > 0
    {
      found := false;
      for i := 0 to |auditLog|
        invariant found <==> Ended(auditLog[..i], id) > 0
      {
        assert auditLog[..i + 1][..i] == auditLog[..i];
        found := found || Matches(auditLog[i], id);
      }
      assert auditLog[..|auditLog|] == auditLog;
    }

    /** `rollbackSession`, dying when its budget of durable steps is used up. */
    method RollbackSession(id: CheckpointId, restorable: bool, steps: nat) returns (outcome: Outcome)
      modifies this
      ensures Out(Model(), outcome) == Run(old(Model()), id, restorable, steps)
    {
      var budget := steps;
      if !restorable { return Refused("RECOVERY_REQUIRED"); }
      if budget == 0 { return Crashed; }
      restored, budget := restored + {id}, budget - 1;

      var prior := FindPrior(id);
      var fromStatus := if prior.Some? then prior.value else status;
      if prior.None? {
        if budget == 0 { return Crashed; }
        auditLog, budget := auditLog + [CheckpointRolledBack(id, fromStatus)], budget - 1;
      }
      if !status.RolledBack? {
        if prior.Some? && fromStatus != status { return Refused("RECOVERY_REQUIRED"); }
        var was := status;
        if budget == 0 { return Crashed; }
        status, budget := RolledBack, budget - 1;
        if budget == 0 { return Crashed; }
        auditLog, budget := auditLog + [SessionEnded(was, RolledBack, None)], budget - 1;
      }
      var ended := SomeEnded(id);
      if !ended {
        if budget == 0 { return Crashed; }
        auditLog := auditLog + [SessionEnded(fromStatus, RolledBack, Some(id))];
      }
      return Done;
    }
  }
}
