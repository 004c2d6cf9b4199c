/**
 The directory lock that guards the browser configuration, as an interleaved step system.

 Every file-system call of `acquire`, `release` and `claimAndRemoveDeadLock` is one atomic step. A step
 may fail, a read may be unreadable, and a whole process may crash between any two steps. The owner file is
 created first and completed later, so other processes can observe it half written. An actor is one
 call of `acquire` together with the `release` of the lock it returns; a process may run many actors.
 */
module ConfigLock {
  import opened Basics

  const LOCK_ACQUIRE_ATTEMPTS := 4

  datatype Owner = NoOwner | Partial | Complete(pid: nat, token: nat)

  /**
   The lock directory. `inc` numbers the directory's incarnations and `maker` remembers the actor whose
   `mkdir` succeeded; both are history that no step below consults.
   */
  datatype Dir = Absent | Present(inc: nat, maker: nat, owner: Owner, claim: Option<nat>)

  /** Where an actor stands; `inc` is the incarnation it acted on, `attempt` its loop counter. */
  datatype Pc =
    | Start(attempt: nat)
    | Made(inc: nat, attempt: nat)
    | Writing(inc: nat)
    | CleanOwner(inc: nat, resume: Option<nat>)
    | CleanDir(inc: nat, resume: Option<nat>)
    | Held(inc: nat)
    | Releasing(inc: nat)
    | ReleaseOwner(inc: nat)
    | ReleaseDir(inc: nat)
    | Contending(attempt: nat)
    | Judging(attempt: nat, ownerPid: nat, observed: nat)
    | Claiming(attempt: nat, observed: nat)
    | Claimed(attempt: nat, observed: nat, inc: nat)
    | Rechecking(attempt: nat, ownerPid: nat, inc: nat)
    | Backout(inc: nat)
    | Removing(attempt: nat, inc: nat)
    | RemovedOwner(attempt: nat, inc: nat)
    | RemovingDir(attempt: nat, inc: nat)
    | Done

  datatype Actor = Actor(pid: nat, token: nat, pc: Pc)

  datatype State = State(dir: Dir, actors: map<nat, Actor>, dead: set<nat>, nextInc: nat, nextToken: nat)

  /** What the operating system does to one step: the call fails, or a read returns nothing usable. */
  datatype Outcome = Outcome(fails: bool, unreadable: bool)

  datatype Label =
    | Spawn(actor: nat, pid: nat)
    | Crash(pid: nat)
    | Act(actor: nat, outcome: Outcome)

  predicate Live(s: State, a: nat) {
    a in s.actors && s.actors[a].pid !in s.dead
  }

  function Goto(s: State, a: nat, pc: Pc): State
    requires a in s.actors
  {
    s.(actors := s.actors[a := s.actors[a].(pc := pc)])
  }

  /** `rmdir`: succeeds only on an empty directory. */
  function Rmdir(d: Dir): Dir {
    if d.Present? && d.owner.NoOwner? && d.claim.None? then Absent else d
  }

  function UnlinkOwner(d: Dir): Dir {
    if d.Present? then d.(owner := NoOwner) else d
  }

  function UnlinkClaim(d: Dir): Dir {
    if d.Present? then d.(claim := None) else d
  }

  /** The loop header: another attempt, or the race error once four attempts are used. */
  function Retry(attempt: nat): Pc {
    if attempt + 1 < LOCK_ACQUIRE_ATTEMPTS then Start(attempt + 1) else Done
  }

  function Resume(resume: Option<nat>): Pc {
    match resume
    case None => Done
    case Some(attempt) => Contending(attempt)
  }

  /** Creation of the directory and its owner file, with the failure path that removes both again. */
  function ActCreate(s: State, a: nat, o: Outcome): State
    requires a in s.actors
  {
    var me := s.actors[a];
    var d := s.dir;
    match me.pc
    case Start(k) =>
      var named := s.(actors := s.actors[a := me.(token := s.nextToken)], nextToken := s.nextToken + 1);
      if o.fails then Goto(named, a, Done)
      else if d.Present? then Goto(named, a, Contending(k))
      else Goto(named, a, Made(s.nextInc, k)).(dir := Present(s.nextInc, a, NoOwner, None), nextInc := s.nextInc + 1)
    case Made(i, k) =>
      if o.fails || d.Absent? then Goto(s, a, CleanOwner(i, None))
      else if !d.owner.NoOwner? then Goto(s, a, CleanOwner(i, Some(k)))
      else Goto(s, a, Writing(i)).(dir := d.(owner := Partial))
    case Writing(i) =>
      if d.Absent? then Goto(s, a, CleanOwner(i, None))
      else if o.fails then
        Goto(s, a, CleanOwner(i, None)).(dir := if o.unreadable then d else d.(owner := Complete(me.pid, me.token)))
      else Goto(s, a, Held(i)).(dir := d.(owner := Complete(me.pid, me.token)))
    case CleanOwner(i, r) =>
      if o.fails then Goto(s, a, Done) else Goto(s, a, CleanDir(i, r)).(dir := UnlinkOwner(d))
    case CleanDir(i, r) =>
      if o.fails || Rmdir(d).Present? then Goto(s, a, Done) else Goto(s, a, Resume(r)).(dir := Absent)
    case _ => s
  }

  /** `release`: read the owner file, stop unless it carries this lock's token, unlink it, remove the directory. */
  function ActRelease(s: State, a: nat, o: Outcome): State
    requires a in s.actors
  {
    var me := s.actors[a];
    var d := s.dir;
    match me.pc
    case Held(i) => Goto(s, a, Releasing(i))
    case Releasing(i) =>
      if !o.unreadable && d.Present? && d.owner.Complete? && d.owner.token == me.token then Goto(s, a, ReleaseOwner(i))
      else Goto(s, a, Done)
    case ReleaseOwner(i) =>
      if o.fails then Goto(s, a, Done) else Goto(s, a, ReleaseDir(i)).(dir := UnlinkOwner(d))
    case ReleaseDir(i) =>
      if o.fails then Goto(s, a, Done) else Goto(s, a, Done).(dir := Rmdir(d))
    case _ => s
  }

  /** The path of a contender: read the owner, judge it dead, claim the directory, check again. */
  function ActContend(s: State, a: nat, o: Outcome): State
    requires a in s.actors
  {
    var d := s.dir;
    match s.actors[a].pc
    case Contending(k) =>
      if o.unreadable || d.Absent? || !d.owner.Complete? then Goto(s, a, Retry(k))
      else Goto(s, a, Judging(k, d.owner.pid, d.owner.token))
    case Judging(k, p, t) =>
      if p !in s.dead then Goto(s, a, Done) else Goto(s, a, Claiming(k, t))
    case Claiming(k, t) =>
      if o.fails || d.Absent? || d.claim.Some? then Goto(s, a, Done)
      else Goto(s, a, Claimed(k, t, d.inc)).(dir := d.(claim := Some(a)))
    case Claimed(k, t, i) =>
      if o.fails then Goto(s, a, Done)
      else if o.unreadable || d.Absent? || !d.owner.Complete? || d.owner.token != t then Goto(s, a, Backout(i))
      else Goto(s, a, Rechecking(k, d.owner.pid, i))
    case Rechecking(k, p, i) =>
      if p !in s.dead then Goto(s, a, Backout(i)) else Goto(s, a, Removing(k, i))
    case Backout(i) =>
      if o.fails then Goto(s, a, Done) else Goto(s, a, Done).(dir := UnlinkClaim(d))
    case _ => s
  }

  /** The removal a successful claim licenses: owner file, claim file, directory. */
  function ActRemove(s: State, a: nat, o: Outcome): State
    requires a in s.actors
  {
    var d := s.dir;
    match s.actors[a].pc
    case Removing(k, i) =>
      if o.fails || d.Absent? || d.owner.NoOwner? then Goto(s, a, Done)
      else Goto(s, a, RemovedOwner(k, i)).(dir := UnlinkOwner(d))
    case RemovedOwner(k, i) =>
      if o.fails || d.Absent? || d.claim.None? then Goto(s, a, Done)
      else Goto(s, a, RemovingDir(k, i)).(dir := UnlinkClaim(d))
    case RemovingDir(k, i) =>
      if o.fails || d.Absent? || Rmdir(d).Present? then Goto(s, a, Done)
      else Goto(s, a, Retry(k)).(dir := Absent)
    case _ => s
  }

  predicate Creating(pc: Pc) {
    pc.Start? || pc.Made? || pc.Writing? || pc.CleanOwner? || pc.CleanDir?
  }

  predicate Owning(pc: Pc) {
    pc.Held? || pc.Releasing? || pc.ReleaseOwner? || pc.ReleaseDir?
  }

  /** One labelled step. A label that is not enabled leaves the state as it is. Pids are never reused. */
  function Apply(s: State, l: Label): State {
    match l
    case Spawn(a, p) =>
      if a in s.actors || p in s.dead then s else s.(actors := s.actors[a := Actor(p, 0, Start(0))])
    case Crash(p) => s.(dead := s.dead + {p})
    case Act(a, o) =>
      if !Live(s, a) then s
      else if Creating(s.actors[a].pc) then ActCreate(s, a, o)
      else if Owning(s.actors[a].pc) then ActRelease(s, a, o)
      else if Remover(s.actors[a].pc) then ActRemove(s, a, o)
      else ActContend(s, a, o)
  }

  const Init := State(Absent, map[], {}, 0, 0)

  function Exec(labels: seq<Label>): State {
    if labels == [] then Init else Apply(Exec(labels[..|labels| - 1]), labels[|labels| - 1])
  }

  /** Between a successful `acquire` and the unlink of the owner file in `release`. */
  predicate InCriticalSection(pc: Pc) {
    pc.Held? || pc.Releasing? || pc.ReleaseOwner?
  }

  /** Between passing the dead-owner recheck and the removal of the directory. */
  predicate Remover(pc: Pc) {
    pc.Removing? || pc.RemovedOwner? || pc.RemovingDir?
  }

  ghost predicate OnDir(s: State, inc: nat) {
    s.dir.Present? && s.dir.inc == inc
  }

  /** What a live actor may rely on at its program point, whatever every other actor does. */
  ghost predicate Fact(s: State, a: nat)
    requires a in s.actors
  {
    var me := s.actors[a];
    match me.pc
    case Made(i, _) => OnDir(s, i) && s.dir.maker == a && s.dir.owner == NoOwner
    case Writing(i) => OnDir(s, i) && s.dir.maker == a && s.dir.owner == Partial
    case Held(i) => OnDir(s, i) && s.dir.maker == a && s.dir.owner == Complete(me.pid, me.token)
    case Releasing(i) => OnDir(s, i) && s.dir.maker == a && s.dir.owner == Complete(me.pid, me.token)
    case ReleaseOwner(i) => OnDir(s, i) && s.dir.maker == a && s.dir.owner == Complete(me.pid, me.token)
    case CleanOwner(i, r) => OnDir(s, i) && s.dir.maker == a && r == None
    case CleanDir(i, r) => OnDir(s, i) && s.dir.maker == a && s.dir.owner == NoOwner && r == None
    case ReleaseDir(i) => OnDir(s, i) && s.dir.maker == a && s.dir.owner == NoOwner
    case Claimed(_, _, i) => OnDir(s, i) && s.dir.claim == Some(a)
    case Backout(i) => OnDir(s, i) && s.dir.claim == Some(a)
    case Rechecking(_, p, i) => OnDir(s, i) && s.dir.claim == Some(a) && MakerPid(s) == Some(p)
    case Removing(_, i) => OnDir(s, i) && s.dir.claim == Some(a) && MakerIsDead(s)
    case RemovedOwner(_, i) => OnDir(s, i) && s.dir.claim == Some(a) && MakerIsDead(s) && s.dir.owner == NoOwner
    case RemovingDir(_, i) => OnDir(s, i) && MakerIsDead(s) && s.dir.owner == NoOwner
    case _ => true
  }

  ghost function MakerPid(s: State): Option<nat> {
    if s.dir.Present? && s.dir.maker in s.actors then Some(s.actors[s.dir.maker].pid) else None
  }

  ghost predicate MakerIsDead(s: State) {
    MakerPid(s).Some? && MakerPid(s).value in s.dead
  }

  /** Two live actors never share the right to remove one directory. */
  ghost predicate Apart(p: Pc, q: Pc) {
    !(Remover(p) && Remover(q)) && !(p.RemovingDir? && q.Rechecking?)
  }

  ghost predicate Inv(s: State) {
    && (s.dir.Present? ==> s.dir.maker in s.actors && s.dir.inc < s.nextInc)
    && (s.dir.Present? && s.dir.owner.Complete? ==> MakerPid(s) == Some(s.dir.owner.pid))
    && (forall a | Live(s, a) :: Fact(s, a))
    && (forall a, b | Live(s, a) && Live(s, b) && a != b :: Apart(s.actors[a].pc, s.actors[b].pc))
  }

  lemma CreateKeepsApart(s: State, a: nat, o: Outcome)
    requires Inv(s) && Live(s, a) && Creating(s.actors[a].pc)
    ensures var t := ActCreate(s, a, o);
            forall b, c | Live(t, b) && Live(t, c) && b != c :: Apart(t.actors[b].pc, t.actors[c].pc)
  {
    var t := ActCreate(s, a, o);
    forall b, c | Live(t, b) && Live(t, c) && b != c ensures Apart(t.actors[b].pc, t.actors[c].pc) {
      assert Live(s, b) && Live(s, c) && Apart(s.actors[b].pc, s.actors[c].pc);
    }
  }

  lemma CreatePreservesInv(s: State, a: nat, o: Outcome)
    requires Inv(s) && Live(s, a) && Creating(s.actors[a].pc)
    ensures Inv(ActCreate(s, a, o))
  {
    var t := ActCreate(s, a, o);
    assert Fact(s, a);
    forall b | Live(t, b) ensures Fact(t, b) {
      assert Live(s, b) && Fact(s, b);
    }
    CreateKeepsApart(s, a, o);
  }

  lemma ReleasePreservesInv(s: State, a: nat, o: Outcome)
    requires Inv(s) && Live(s, a) && Owning(s.actors[a].pc)
    ensures Inv(ActRelease(s, a, o))
  {
    var t := ActRelease(s, a, o);
    assert Fact(s, a);
    forall b | Live(t, b) ensures Fact(t, b) {
      assert Live(s, b) && Fact(s, b);
    }
    forall b, c | Live(t, b) && Live(t, c) && b != c ensures Apart(t.actors[b].pc, t.actors[c].pc) {
      assert Live(s, b) && Live(s, c) && Apart(s.actors[b].pc, s.actors[c].pc);
    }
  }

  /** A bystander's fact survives a step that changes no more than somebody else's claim file. */
  lemma FactIsFramed(s: State, t: State, b: nat)
    requires b in s.actors && b in t.actors && s.actors[b] == t.actors[b] && Fact(s, b)
    requires s.dead == t.dead && MakerPid(s) == MakerPid(t)
    requires s.dir.Present? ==> t.dir.Present? && t.dir.(claim := s.dir.claim) == s.dir
    requires s.dir.Present? && s.dir.claim == Some(b) ==> t.dir.claim == Some(b)
    ensures Fact(t, b)
  {
  }

  lemma ContendKeepsFacts(s: State, a: nat, o: Outcome, b: nat)
    requires Inv(s) && Live(s, a) && Live(s, b)
    ensures Fact(ActContend(s, a, o), b)
  {
    assert Fact(s, a) && Fact(s, b);
    var t := ActContend(s, a, o);
    assert MakerPid(t) == MakerPid(s);
    if a != b {
      FactIsFramed(s, t, b);
    }
  }

  lemma ContendKeepsApart(s: State, a: nat, o: Outcome, b: nat)
    requires Inv(s) && Live(s, a) && Live(s, b) && a != b
    ensures var t := ActContend(s, a, o).actors; Apart(t[a].pc, t[b].pc) && Apart(t[b].pc, t[a].pc)
  {
    assert Fact(s, a) && Fact(s, b);
    assert Apart(s.actors[a].pc, s.actors[b].pc) && Apart(s.actors[b].pc, s.actors[a].pc);
  }

  lemma ContendKeepsAllApart(s: State, a: nat, o: Outcome)
    requires Inv(s) && Live(s, a)
    ensures var t := ActContend(s, a, o);
            forall b, c | Live(t, b) && Live(t, c) && b != c :: Apart(t.actors[b].pc, t.actors[c].pc)
  {
    var t := ActContend(s, a, o);
    forall b, c | Live(t, b) && Live(t, c) && b != c ensures Apart(t.actors[b].pc, t.actors[c].pc) {
      if a == b { ContendKeepsApart(s, a, o, c); }
      else if a == c { ContendKeepsApart(s, a, o, b); }
      else { assert Live(s, b) && Live(s, c) && Apart(s.actors[b].pc, s.actors[c].pc); }
    }
  }

  lemma ContendPreservesInv(s: State, a: nat, o: Outcome)
    requires Inv(s) && Live(s, a)
    ensures Inv(ActContend(s, a, o))
  {
    var t := ActContend(s, a, o);
    forall b | Live(t, b) ensures Fact(t, b) {
      ContendKeepsFacts(s, a, o, b);
    }
    ContendKeepsAllApart(s, a, o);
  }

  lemma RemovePreservesInv(s: State, a: nat, o: Outcome)
    requires Inv(s) && Live(s, a) && Remover(s.actors[a].pc)
    ensures Inv(ActRemove(s, a, o))
  {
    var t := ActRemove(s, a, o);
    assert Fact(s, a);
    forall b | Live(t, b) ensures Fact(t, b) {
      assert Live(s, b) && Fact(s, b);
      if a != b { assert Apart(s.actors[a].pc, s.actors[b].pc); }
    }
    forall b, c | Live(t, b) && Live(t, c) && b != c ensures Apart(t.actors[b].pc, t.actors[c].pc) {
      assert Live(s, b) && Live(s, c) && Fact(s, b) && Fact(s, c);
      assert Apart(s.actors[b].pc, s.actors[c].pc);
    }
  }

  /** Every labelled step keeps the invariant. */
  lemma StepPreservesInv(s: State, l: Label)
    requires Inv(s)
    ensures Inv(Apply(s, l))
  {
    var t := Apply(s, l);
    match l
    case Act(a, o) =>
      if Live(s, a) {
        if Creating(s.actors[a].pc) { CreatePreservesInv(s, a, o); }
        else if Owning(s.actors[a].pc) { ReleasePreservesInv(s, a, o); }
        else if Remover(s.actors[a].pc) { RemovePreservesInv(s, a, o); }
        else { ContendPreservesInv(s, a, o); }
      }
    case Spawn(a, p) =>
      forall b | Live(t, b) ensures Fact(t, b) {
        if b in s.actors { assert Live(s, b) && Fact(s, b); }
      }
    case Crash(p) =>
      forall b | Live(t, b) ensures Fact(t, b) {
        assert Live(s, b) && Fact(s, b);
      }
  }

  lemma {:induction false} ReachableInv(labels: seq<Label>)
    ensures Inv(Exec(labels))
  {
    if labels != [] {
      ReachableInv(labels[..|labels| - 1]);
      StepPreservesInv(Exec(labels[..|labels| - 1]), labels[|labels| - 1]);
    }
  }

  /** Mutual exclusion, in every interleaving with crashes and failing calls. */
  lemma {:induction false} MutualExclusion(labels: seq<Label>, a: nat, b: nat)
    requires Live(Exec(labels), a) && InCriticalSection(Exec(labels).actors[a].pc)
    requires Live(Exec(labels), b) && InCriticalSection(Exec(labels).actors[b].pc)
    ensures a == b
  {
    ReachableInv(labels);
    assert Fact(Exec(labels), a) && Fact(Exec(labels), b);
  }

  /**
   No step of anybody else disturbs a live owner: from the first byte of its owner file to the unlink in
   `release`, the directory stays the same incarnation with the same owner file.
   */
  lemma {:induction false} LiveOwnerUndisturbed(labels: seq<Label>, l: Label, b: nat)
    requires Live(Exec(labels), b)
    requires Exec(labels).actors[b].pc.Writing? || InCriticalSection(Exec(labels).actors[b].pc)
    requires !(l.Act? && l.actor == b)
    ensures var d, e := Exec(labels).dir, Apply(Exec(labels), l).dir;
            d.Present? && d.maker == b && e.Present? && e.inc == d.inc && e.owner == d.owner
  {
    var s := Exec(labels);
    ReachableInv(labels);
    assert Fact(s, b);
    if l.Act? && Live(s, l.actor) {
      assert Fact(s, l.actor);
    }
  }

  /** A claim file pins its directory: until its creator unlinks it, no step removes the file or its incarnation. */
  lemma {:induction false} ClaimPinsDirectory(labels: seq<Label>, l: Label)
    requires Exec(labels).dir.Present? && Exec(labels).dir.claim.Some?
    requires !(l.Act? && Exec(labels).dir.claim == Some(l.actor))
    ensures var (d, e) := (Exec(labels).dir, Apply(Exec(labels), l).dir);
            e.Present? && e.inc == d.inc && e.maker == d.maker && e.claim == d.claim
  {
    ReachableInv(labels);
    var s := Exec(labels);
    if l.Act? && Live(s, l.actor) {
      assert Fact(s, l.actor);
    }
  }

  /** A directory that disappears was removed by its maker, or after its maker had died. */
  lemma {:induction false} DirectoryRemovedByMakerOrAfterItsDeath(labels: seq<Label>, l: Label)
    requires Exec(labels).dir.Present? && Apply(Exec(labels), l).dir.Absent?
    ensures l.Act? && (l.actor == Exec(labels).dir.maker || MakerIsDead(Exec(labels)))
  {
    ReachableInv(labels);
    var s := Exec(labels);
    if l.Act? && Live(s, l.actor) {
      assert Fact(s, l.actor);
    }
  }

  /** A readable owner file never makes `release` give up: the lock it reads is always its own. */
  lemma ReleaseReadsItsOwnToken(labels: seq<Label>, a: nat, o: Outcome)
    requires Live(Exec(labels), a) && Exec(labels).actors[a].pc.Releasing? && !o.unreadable
    ensures Apply(Exec(labels), Act(a, o)).actors[a].pc == ReleaseOwner(Exec(labels).actors[a].pc.inc)
  {
    ReachableInv(labels);
    assert Fact(Exec(labels), a);
  }

  // ----- An actor that nothing disturbs -----

  /** One step of an actor in which no call fails and every read is complete. */
  function Turn(s: State, a: nat): State {
    Apply(s, Act(a, Outcome(false, false)))
  }

  /** `n` such steps, while nobody else moves. */
  function Alone(s: State, a: nat, n: nat): State
    decreases n
  {
    if n == 0 then s else Alone(Turn(s, a), a, n - 1)
  }

  lemma {:induction false} AloneJoins(s: State, a: nat, n: nat, m: nat)
    ensures Alone(s, a, n + m) == Alone(Alone(s, a, n), a, m)
    decreases n
  {
    if n > 0 { AloneJoins(Turn(s, a), a, n - 1, m); }
  }

  lemma AloneThrice(s: State, a: nat)
    ensures Alone(s, a, 3) == Turn(Turn(Turn(s, a), a), a)
  {
    var s1 := Turn(s, a);
    var s2 := Turn(s1, a);
    assert Alone(s, a, 3) == Alone(s1, a, 2) == Alone(s2, a, 1) == Alone(Turn(s2, a), a, 0);
  }

  /** The actor stands here, and the directory and the dead are these. */
  predicate At(s: State, a: nat, pc: Pc, dir: Dir, dead: set<nat>) {
    Live(s, a) && s.actors[a].pc == pc && s.dir == dir && s.dead == dead
  }

  /** The lock can be had: nobody has it, or its owner is dead and nobody is recovering it. */
  predicate Obtainable(s: State) {
    || s.dir.Absent?
    || (s.dir.owner.Complete? && s.dir.owner.pid in s.dead && s.dir.claim.None?)
  }

  /** The actor holds the lock, in a directory of its own with its owner file complete. */
  predicate Holds(s: State, a: nat) {
    && a in s.actors && s.actors[a].pc.Held? && s.dir.Present? && s.dir.maker == a && s.dir.claim.None?
    && s.dir.inc == s.actors[a].pc.inc && s.dir.owner == Complete(s.actors[a].pid, s.actors[a].token)
  }

  lemma AloneCreates(s: State, a: nat)
    requires Live(s, a) && s.actors[a].pc.Start? && s.dir.Absent?
    ensures Holds(Alone(s, a, 3), a)
  {
    AloneThrice(s, a);
    var (s1, i) := (Turn(s, a), s.nextInc);
    assert At(s1, a, Made(i, s.actors[a].pc.attempt), Present(i, a, NoOwner, None), s.dead);
    var s2 := Turn(s1, a);
    assert At(s2, a, Writing(i), Present(i, a, Partial, None), s.dead);
  }

  lemma TurnMeetsDirectory(s: State, a: nat, k: nat)
    requires Live(s, a) && s.actors[a].pc == Start(k) && s.dir.Present?
    ensures At(Turn(s, a), a, Contending(k), s.dir, s.dead)
  {
  }

  lemma TurnReadsOwner(s: State, a: nat, k: nat)
    requires Live(s, a) && s.actors[a].pc == Contending(k) && s.dir.Present? && s.dir.owner.Complete?
    ensures At(Turn(s, a), a, Judging(k, s.dir.owner.pid, s.dir.owner.token), s.dir, s.dead)
  {
  }

  lemma TurnJudges(s: State, a: nat, k: nat, p: nat, t: nat)
    requires Live(s, a) && s.actors[a].pc == Judging(k, p, t)
    ensures At(Turn(s, a), a, if p in s.dead then Claiming(k, t) else Done, s.dir, s.dead)
  {
  }

  lemma AloneJudges(s: State, a: nat)
    requires Live(s, a) && s.actors[a].pc == Start(0) && s.dir.Present? && s.dir.owner.Complete?
    ensures var pc := if s.dir.owner.pid in s.dead then Claiming(0, s.dir.owner.token) else Done;
            At(Alone(s, a, 3), a, pc, s.dir, s.dead)
  {
    AloneThrice(s, a);
    TurnMeetsDirectory(s, a, 0);
    TurnReadsOwner(Turn(s, a), a, 0);
    TurnJudges(Turn(Turn(s, a), a), a, 0, s.dir.owner.pid, s.dir.owner.token);
  }

  lemma AloneClaims(s: State, a: nat, t: nat)
    requires Live(s, a) && s.actors[a].pc == Claiming(0, t) && s.dir.Present? && Obtainable(s) && s.dir.owner.token == t
    ensures At(Alone(s, a, 3), a, Removing(0, s.dir.inc), s.dir.(claim := Some(a)), s.dead)
  {
    AloneThrice(s, a);
    var (s1, i) := (Turn(s, a), s.dir.inc);
    assert At(s1, a, Claimed(0, t, i), s.dir.(claim := Some(a)), s.dead);
    var s2 := Turn(s1, a);
    assert At(s2, a, Rechecking(0, s.dir.owner.pid, i), s1.dir, s.dead);
  }

  lemma TurnRemoves(s: State, a: nat)
    requires Live(s, a) && Remover(s.actors[a].pc) && s.dir.Present?
    ensures var (d, pc) := (s.dir, s.actors[a].pc);
            && (pc.Removing? && !d.owner.NoOwner? ==>
                  At(Turn(s, a), a, RemovedOwner(pc.attempt, pc.inc), d.(owner := NoOwner), s.dead))
            && (pc.RemovedOwner? && d.claim.Some? ==>
                  At(Turn(s, a), a, RemovingDir(pc.attempt, pc.inc), d.(claim := None), s.dead))
            && (pc.RemovingDir? && d.owner.NoOwner? && d.claim.None? ==>
                  At(Turn(s, a), a, Retry(pc.attempt), Absent, s.dead))
  {
  }

  lemma AloneRemoves(s: State, a: nat, i: nat)
    requires Live(s, a) && s.actors[a].pc == Removing(0, i) && s.dir.Present? && !s.dir.owner.NoOwner?
    requires s.dir.claim.Some?
    ensures At(Alone(s, a, 3), a, Start(1), Absent, s.dead)
  {
    AloneThrice(s, a);
    TurnRemoves(s, a);
    TurnRemoves(Turn(s, a), a);
    TurnRemoves(Turn(Turn(s, a), a), a);
  }

  /** From the directory of a dead owner to the next attempt, with the directory gone. */
  lemma AloneRecovers(s: State, a: nat)
    requires Live(s, a) && s.actors[a].pc == Start(0) && s.dir.Present? && Obtainable(s)
    ensures At(Alone(s, a, 9), a, Start(1), Absent, s.dead)
  {
    AloneJudges(s, a);
    var s3 := Alone(s, a, 3);
    AloneClaims(s3, a, s.dir.owner.token);
    var s6 := Alone(s3, a, 3);
    AloneJoins(s, a, 3, 3);
    AloneRemoves(s6, a, s.dir.inc);
    AloneJoins(s, a, 6, 3);
  }

  lemma AloneRetries(s: State, a: nat, k: nat)
    requires Live(s, a) && s.actors[a].pc == Start(k) && s.dir.Present? && !s.dir.owner.Complete?
    ensures At(Alone(s, a, 2), a, Retry(k), s.dir, s.dead)
  {
    var s1 := Turn(s, a);
    TurnMeetsDirectory(s, a, k);
    assert Alone(s, a, 2) == Alone(s1, a, 1) == Alone(Turn(s1, a), a, 0);
  }

  /** A lock that cannot be had is left alone: the call ends without it, after all attempts if no owner is readable. */
  lemma AloneGivesUp(s: State, a: nat) returns (n: nat)
    requires Live(s, a) && s.actors[a].pc == Start(0) && !Obtainable(s)
    ensures At(Alone(s, a, n), a, Done, s.dir, s.dead)
  {
    if s.dir.owner.Complete? {
      AloneJudges(s, a);
      n := 3;
      if s.dir.owner.pid in s.dead {
        var s3 := Alone(s, a, 3);
        assert At(Turn(s3, a), a, Done, s.dir, s.dead);
        assert Alone(s3, a, 1) == Alone(Turn(s3, a), a, 0);
        AloneJoins(s, a, 3, 1);
        n := 4;
      }
    } else {
      AloneRetries(s, a, 0);
      AloneRetries(Alone(s, a, 2), a, 1);
      AloneJoins(s, a, 2, 2);
      AloneRetries(Alone(s, a, 4), a, 2);
      AloneJoins(s, a, 4, 2);
      AloneRetries(Alone(s, a, 6), a, 3);
      AloneJoins(s, a, 6, 2);
      n := 8;
    }
  }

  /**
   An undisturbed `acquire` gets the lock exactly if it can be had: the directory is absent, or its owner is dead and
   nobody is recovering it. Otherwise it ends without the lock and without having touched the directory.
   */
  lemma {:induction false} AcquiresExactlyWhenObtainable(s: State, a: nat) returns (n: nat)
    requires Live(s, a) && s.actors[a].pc == Start(0)
    ensures var t := Alone(s, a, n);
            && a in t.actors
            && (if Obtainable(s) then Holds(t, a) else t.actors[a].pc.Done? && t.dir == s.dir)
  {
    if s.dir.Absent? {
      AloneCreates(s, a);
      n := 3;
    } else if Obtainable(s) {
      AloneRecovers(s, a);
      AloneCreates(Alone(s, a, 9), a);
      AloneJoins(s, a, 9, 3);
      n := 12;
    } else {
      n := AloneGivesUp(s, a);
    }
  }

  /** An undisturbed `release` frees the lock, unless somebody has begun to recover it. */
  lemma {:induction false} AloneReleases(s: State, a: nat)
    requires Live(s, a) && s.actors[a].pc.Held? && s.dir.Present?
    requires s.dir.owner == Complete(s.actors[a].pid, s.actors[a].token)
    ensures var t := Alone(s, a, 4);
            && a in t.actors && t.actors[a].pc.Done?
            && t.dir == if s.dir.claim.None? then Absent else s.dir.(owner := NoOwner)
  {
    var i := s.actors[a].pc.inc;
    AloneThrice(s, a);
    var s1 := Turn(s, a);
    assert At(s1, a, Releasing(i), s.dir, s.dead);
    var s2 := Turn(s1, a);
    assert At(s2, a, ReleaseOwner(i), s.dir, s.dead);
    var s3 := Turn(s2, a);
    assert At(s3, a, ReleaseDir(i), s.dir.(owner := NoOwner), s.dead);
    AloneJoins(s, a, 3, 1);
    assert Alone(s3, a, 1) == Alone(Turn(s3, a), a, 0);
  }
}
