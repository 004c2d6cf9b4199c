/** Session statuses and the transition table every status change goes through. */
module SessionLifecycle {

  datatype Status =
    | Created | Preflight | GrantPending | TransportStarting | InitializingModel | AwaitingModel
    | ExecutingTools | ReturningResults | AwaitingUser | Paused | ValidatingCompletion | Recovering
    | Completed | RolledBack | Blocked | Aborted | Failed

  predicate IsTerminal(s: Status) {
    s.Completed? || s.RolledBack? || s.Blocked? || s.Aborted? || s.Failed?
  }

  /** Statuses before the initial grant is durable. */
  predicate BeforeGrant(s: Status) {
    s.Created? || s.Preflight?
  }

  function Transitions(s: Status): set<Status> {
    match s
    case Created => {Preflight, Aborted, Failed}
    case Preflight => {GrantPending, Aborted, Failed}
    case GrantPending => {TransportStarting, Aborted, Failed}
    case TransportStarting => {InitializingModel, Paused, Blocked, Aborted, Failed}
    case InitializingModel => {AwaitingModel, Paused, Blocked, Aborted, Failed}
    case AwaitingModel =>
      {ExecutingTools, AwaitingUser, ValidatingCompletion, Paused, Blocked, Aborted, Failed, Recovering}
    case ExecutingTools => {ReturningResults, AwaitingUser, Paused, Blocked, Aborted, Failed, Recovering}
    case ReturningResults => {AwaitingModel, Paused, Blocked, Aborted, Failed, Recovering}
    case AwaitingUser =>
      {ExecutingTools, ReturningResults, TransportStarting, Recovering, Paused, Blocked, Aborted, Failed}
    case Paused => {Recovering, TransportStarting, Aborted, Failed}
    case ValidatingCompletion => {Completed, ReturningResults, Recovering, Paused, Blocked, Aborted, Failed}
    case Recovering => {TransportStarting, AwaitingModel, ReturningResults, Paused, Blocked, Aborted, Failed}
    case RolledBack => {}
    case _ => {RolledBack}
  }

  /** `transitionSession` accepts a move: never to the same status, and to `RolledBack` from anywhere else. */
  predicate CanMove(from: Status, to: Status) {
    from != to && (to in Transitions(from) || to.RolledBack?)
  }

  /** A chain of accepted moves. */
  predicate History(h: seq<Status>) {
    forall i :: 0 <= i < |h| - 1 ==> CanMove(h[i], h[i + 1])
  }

  /** A session that reached a terminal status never becomes non-terminal; one past the grant stays past it. */
  lemma {:induction false} LifecycleIsOneWay(h: seq<Status>, i: nat, j: nat)
    requires History(h) && i <= j < |h|
    ensures IsTerminal(h[i]) ==> IsTerminal(h[j])
    ensures !BeforeGrant(h[i]) ==> !BeforeGrant(h[j])
    ensures h[i].RolledBack? ==> h[j].RolledBack?
    decreases j - i
  {
    if i < j {
      LifecycleIsOneWay(h, i, j - 1);
      assert CanMove(h[j - 1], h[j]);
    }
  }

  // ----- Which status can come back -----

  /** Past its grant and not finished: the statuses that lead to one another. */
  predicate Running(s: Status) {
    !BeforeGrant(s) && !s.GrantPending? && !IsTerminal(s)
  }

  /** Start-up statuses in order, then the running ones, then the finished ones. */
  function Phase(s: Status): nat {
    match s
    case Created => 0
    case Preflight => 1
    case GrantPending => 2
    case _ => if IsTerminal(s) then 4 else 3
  }

  /** Moves other than a rollback lead from one status to the other. */
  predicate Leads(from: Status, to: Status) {
    from == to || (!to.RolledBack? && (Phase(from) < Phase(to) || (Running(from) && Running(to))))
  }

  /** Every step that is not a rollback. */
  predicate Step(from: Status, to: Status) {
    CanMove(from, to) && !to.RolledBack?
  }

  predicate Route(path: seq<Status>) {
    |path| > 0 && forall i | 0 <= i < |path| - 1 :: Step(path[i], path[i + 1])
  }

  /** Nothing but a lead is led on: a step never opens a way that was closed before it. */
  lemma StepsKeepWaysClosed(from: Status, next: Status, to: Status)
    requires Step(from, next) && Leads(next, to)
    ensures Leads(from, to)
  {
  }

  /** The way to `Paused`, for a status that is not finished. */
  function ToPaused(s: Status): (path: seq<Status>)
    requires !IsTerminal(s)
    ensures Route(path) && path[0] == s && path[|path| - 1] == Paused
  {
    match s
    case Paused => [Paused]
    case Created => [Created, Preflight, GrantPending, TransportStarting, Paused]
    case Preflight => [Preflight, GrantPending, TransportStarting, Paused]
    case GrantPending => [GrantPending, TransportStarting, Paused]
    case _ => [s, Paused]
  }

  /** The way from `Paused` to any status it leads to. */
  function FromPaused(s: Status): (path: seq<Status>)
    requires Running(s) || (IsTerminal(s) && !s.RolledBack?)
    ensures Route(path) && path[0] == Paused && path[|path| - 1] == s
  {
    match s
    case Paused => [Paused]
    case Recovering => [Paused, Recovering]
    case TransportStarting => [Paused, TransportStarting]
    case InitializingModel => [Paused, TransportStarting, InitializingModel]
    case AwaitingModel => [Paused, Recovering, AwaitingModel]
    case ReturningResults => [Paused, Recovering, ReturningResults]
    case ExecutingTools => [Paused, Recovering, AwaitingModel, ExecutingTools]
    case AwaitingUser => [Paused, Recovering, AwaitingModel, AwaitingUser]
    case ValidatingCompletion => [Paused, Recovering, AwaitingModel, ValidatingCompletion]
    case Completed => [Paused, Recovering, AwaitingModel, ValidatingCompletion, Completed]
    case Blocked => [Paused, Recovering, Blocked]
    case _ => [Paused, s]
  }

  lemma RoutesJoin(a: seq<Status>, b: seq<Status>)
    requires Route(a) && Route(b) && a[|a| - 1] == b[0]
    ensures Route(a + b[1..]) && (a + b[1..])[0] == a[0] && (a + b[1..])[|a + b[1..]| - 1] == b[|b| - 1]
  {
  }

  /** The way forward between two start-up statuses. */
  function Forward(from: Status, to: Status): (path: seq<Status>)
    requires Phase(from) < Phase(to) < 3
    ensures Route(path) && path[0] == from && path[|path| - 1] == to
  {
    if Phase(to) - Phase(from) == 1 then [from, to] else [from, Preflight, to]
  }

  function ThroughPaused(from: Status, to: Status): (path: seq<Status>)
    requires !IsTerminal(from) && (Running(to) || (IsTerminal(to) && !to.RolledBack?))
    ensures Route(path) && path[0] == from && path[|path| - 1] == to
  {
    RoutesJoin(ToPaused(from), FromPaused(to));
    ToPaused(from) + FromPaused(to)[1..]
  }

  /** A lead is a way that can really be gone. */
  lemma LeadsHasRoute(from: Status, to: Status) returns (path: seq<Status>)
    requires Leads(from, to)
    ensures Route(path) && path[0] == from && path[|path| - 1] == to
  {
    path := if from == to then [from] else if Phase(to) >= 3 then ThroughPaused(from, to) else Forward(from, to);
  }

  /** Some way leads from one status to the other exactly when the phases say so. */
  lemma {:induction false} RouteLeads(path: seq<Status>)
    requires Route(path)
    ensures Leads(path[0], path[|path| - 1])
  {
    if |path| > 1 {
      RouteLeads(path[1..]);
      StepsKeepWaysClosed(path[0], path[1], path[|path| - 1]);
    }
  }
}
