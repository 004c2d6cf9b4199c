/**
 How many bytes a tool result may disclose, and the output bound derived for a terminal command.

 Numbers are safe integers, as the schemas require; sums that leave the safe range are errors, as in the source.
 */
module DisclosureBudget {
  import opened Basics

  const MAX_SAFE_INTEGER := 9007199254740991
  const TOOL_RESULT_ENVELOPE_RESERVE_BYTES := 64 * 1024
  const CONTROL_PLANE_RESERVE_BYTES := 64 * 1024
  const TERMINAL_EXEC_MAX_OUTPUT_BYTES := 7 * 1024 * 1024
  const DEFAULT_TERMINAL_OUTPUT_BYTES := 256 * 1024
  const SESSION_DIFF_SAMPLE_BYTES := 64 * 1024
  const DEFAULT_COMMAND_OUTPUT_BYTES := 1000000
  const DEFAULT_DISCLOSED_BYTES := 2000000

  type SafeNat = n: int | 0 <= n <= MAX_SAFE_INTEGER witness 0

  /** `plannedToolResultDisclosureBytes`: none where it throws. */
  function Planned(source: int, path: int, additional: int): (planned: Option<SafeNat>)
    ensures planned.Some? ==> source >= 0 && planned.value >= TOOL_RESULT_ENVELOPE_RESERVE_BYTES + 6 * source
  {
    if source < 0 || source > MAX_SAFE_INTEGER || path < 0 || path > MAX_SAFE_INTEGER
       || additional < 0 || additional > MAX_SAFE_INTEGER
    then None
    else
      var total := TOOL_RESULT_ENVELOPE_RESERVE_BYTES + source * 6 + path * 6 + additional;
      if total > MAX_SAFE_INTEGER then None else Some(total)
  }

  /** The planned disclosure of `source` bytes is within `bytes`. */
  predicate Fits(bytes: int, source: int) {
    Planned(source, 0, 0).Some? && Planned(source, 0, 0).value <= bytes
  }

  /** `n` more bytes fit beside a fixed part. */
  predicate Admits(bytes: int, fixed: int, n: int) {
    Fits(bytes, fixed + n)
  }

  function Min(x: int, y: int): int { if x <= y then x else y }

  function Max(x: int, y: int): int { if x <= y then y else x }

  /** The range of the search. */
  function Cap(bytes: SafeNat): int {
    Min(bytes, TERMINAL_EXEC_MAX_OUTPUT_BYTES)
  }

  /** The answer in closed form: what is left after the envelope, at six bytes each, less the fixed part. */
  function Largest(bytes: SafeNat, fixed: SafeNat): int {
    Max(0, Min(Cap(bytes), (bytes - TOOL_RESULT_ENVELOPE_RESERVE_BYTES) / 6 - fixed))
  }

  /** The closed form is the largest size in range that fits, or zero when no positive size does. */
  lemma LargestIsLargest(bytes: SafeNat, fixed: SafeNat)
    ensures var n := Largest(bytes, fixed);
            && 0 <= n <= Cap(bytes) && (n > 0 ==> Admits(bytes, fixed, n))
            && forall m | n < m <= Cap(bytes) :: !Admits(bytes, fixed, m)
  {
    FitsInClosedForm(bytes, fixed + Largest(bytes, fixed));
    forall m | Largest(bytes, fixed) < m <= Cap(bytes) ensures !Admits(bytes, fixed, m) {
      FitsInClosedForm(bytes, fixed + m);
    }
  }

  lemma FitsInClosedForm(bytes: int, source: nat)
    requires bytes <= MAX_SAFE_INTEGER
    ensures Fits(bytes, source) <==> source <= (bytes - TOOL_RESULT_ENVELOPE_RESERVE_BYTES) / 6
  {
    var q := (bytes - TOOL_RESULT_ENVELOPE_RESERVE_BYTES) / 6;
    assert 6 * q <= bytes - TOOL_RESULT_ENVELOPE_RESERVE_BYTES < 6 * q + 6;
  }

  /** `maximumSourceBytesForDisclosure`: a binary search; none where a probe throws. */
  method MaximumSourceBytes(bytes: SafeNat, fixed: SafeNat) returns (r: Option<int>)
    ensures r.Some? ==> r.value == Largest(bytes, fixed)
    ensures r.None? ==> Planned(fixed + Cap(bytes), 0, 0).None?
  {
    LargestIsLargest(bytes, fixed);
    if bytes <= 0 { return Some(0); }
    var lower, upper := 0, Cap(bytes);
    while lower < upper
      invariant 0 <= lower <= Largest(bytes, fixed) <= upper <= Cap(bytes)
    {
      var middle := (lower + upper + 1) / 2;
      var planned := Planned(fixed + middle, 0, 0);
      if planned.None? {
        PlannedIsMonotone(fixed + middle, fixed + Cap(bytes));
        return None;
      }
      if planned.value <= bytes {
        FitsInClosedForm(bytes, fixed + middle);
        lower := middle;
      } else {
        FitsInClosedForm(bytes, fixed + middle);
        upper := middle - 1;
      }
    }
    return Some(lower);
  }

  lemma PlannedIsMonotone(a: nat, b: nat)
    requires a <= b && Planned(a, 0, 0).None?
    ensures Planned(b, 0, 0).None?
  {
  }

  // ----- The bound of `terminal_exec` -----

  /** Effective limits, absent where no policy layer sets them, and current usage. */
  datatype Budget = Budget(
    commandOutputLimit: Option<SafeNat>, commandOutputUsed: SafeNat,
    disclosedLimit: Option<SafeNat>, disclosedUsed: SafeNat, perOperation: Option<SafeNat>)

  function Or(limit: Option<SafeNat>, default: SafeNat): SafeNat {
    if limit.Some? then limit.value else default
  }

  /** `positiveInteger(call.arguments.max_output_bytes)`, and the bytes of working directory and command line. */
  datatype Call = Call(requested: Option<SafeNat>, invocationBytes: SafeNat)

  function Requested(call: Call): int {
    if call.requested.Some? && call.requested.value > 0 then call.requested.value else DEFAULT_TERMINAL_OUTPUT_BYTES
  }

  function CommandOutputRemaining(b: Budget): SafeNat {
    Max(0, Or(b.commandOutputLimit, DEFAULT_COMMAND_OUTPUT_BYTES) - b.commandOutputUsed)
  }

  function DisclosedRemaining(b: Budget): SafeNat {
    Max(0, Or(b.disclosedLimit, DEFAULT_DISCLOSED_BYTES) - b.disclosedUsed - CONTROL_PLANE_RESERVE_BYTES)
  }

  function PerOperation(b: Budget): SafeNat {
    Or(b.perOperation, TERMINAL_EXEC_MAX_OUTPUT_BYTES)
  }

  /** `terminalExecutionBounds`, its output part. */
  method TerminalOutputBound(b: Budget, call: Call) returns (bound: Option<int>)
    ensures bound.Some? ==> bound.value == Bound(b, call)
    ensures bound.None? ==> Planned(call.invocationBytes + TERMINAL_EXEC_MAX_OUTPUT_BYTES, 0, 0).None?
  {
    var disclosure := MaximumSourceBytes(DisclosedRemaining(b), call.invocationBytes);
    if disclosure.None? {
      PlannedIsMonotone(call.invocationBytes + Cap(DisclosedRemaining(b)),
                        call.invocationBytes + TERMINAL_EXEC_MAX_OUTPUT_BYTES);
      return None;
    }
    var operation := MaximumSourceBytes(PerOperation(b), call.invocationBytes);
    if operation.None? {
      PlannedIsMonotone(call.invocationBytes + Cap(PerOperation(b)),
                        call.invocationBytes + TERMINAL_EXEC_MAX_OUTPUT_BYTES);
      return None;
    }
    var least := Min(Requested(call), TERMINAL_EXEC_MAX_OUTPUT_BYTES);
    least := Min(least, CommandOutputRemaining(b));
    least := Min(least, disclosure.value);
    least := Min(least, operation.value);
    return Some(Max(1, least));
  }

  function Ceiling(b: Budget, call: Call): int {
    Min(Min(Min(Min(Requested(call), TERMINAL_EXEC_MAX_OUTPUT_BYTES), CommandOutputRemaining(b)),
            Largest(DisclosedRemaining(b), call.invocationBytes)), Largest(PerOperation(b), call.invocationBytes))
  }

  function Bound(b: Budget, call: Call): int {
    Max(1, Ceiling(b, call))
  }

  /** The caps the bound is derived from; the per-operation one is applied to the planned size. */
  predicate WithinCeilings(b: Budget, call: Call, output: int) {
    var planned := Planned(output + call.invocationBytes, 0, 0);
    && output <= Requested(call) && output <= TERMINAL_EXEC_MAX_OUTPUT_BYTES
    && b.commandOutputUsed + output <= Or(b.commandOutputLimit, DEFAULT_COMMAND_OUTPUT_BYTES)
    && planned.Some?
    && b.disclosedUsed + planned.value + CONTROL_PLANE_RESERVE_BYTES <= Or(b.disclosedLimit, DEFAULT_DISCLOSED_BYTES)
    && planned.value <= PerOperation(b)
  }

  /** The bound keeps every ceiling exactly when each of them admits at least one byte. */
  lemma BoundKeepsCeilingsExactlyWhen(b: Budget, call: Call)
    ensures WithinCeilings(b, call, Bound(b, call)) <==> Ceiling(b, call) >= 1
  {
    var (bound, inv) := (Bound(b, call), call.invocationBytes);
    LargestIsLargest(DisclosedRemaining(b), inv);
    LargestIsLargest(PerOperation(b), inv);
    FitsInClosedForm(DisclosedRemaining(b), inv + bound);
    FitsInClosedForm(PerOperation(b), inv + bound);
  }

  /** It cannot be raised by one without breaking one of them. */
  lemma BoundIsMaximal(b: Budget, call: Call, output: int)
    requires output > Bound(b, call)
    ensures !WithinCeilings(b, call, output)
  {
    var inv := call.invocationBytes;
    FitsInClosedForm(DisclosedRemaining(b), inv + output);
    FitsInClosedForm(PerOperation(b), inv + output);
  }

  // ----- What the policy engine enforces -----

  predicate Obeys(limit: Option<SafeNat>, value: int) {
    value <= Or(limit, MAX_SAFE_INTEGER)
  }

  /**
   The engine lets a terminal call with this output through: the usage `buildOperation` projects is a safe integer
   within each budget that some layer sets, and the raw byte count, not the planned one, obeys the per-operation cap.
   */
  predicate Allowed(b: Budget, call: Call, output: int) {
    var planned := Planned(output + call.invocationBytes, 0, 0);
    && Obeys(b.commandOutputLimit, b.commandOutputUsed + output)
    && planned.Some? && Obeys(b.disclosedLimit, b.disclosedUsed + planned.value + CONTROL_PLANE_RESERVE_BYTES)
    && Obeys(b.perOperation, output + call.invocationBytes)
  }

  /** What keeps the ceilings is allowed, but not conversely: see `FloorCanBeAllowed`. */
  lemma CeilingsAreAllowed(b: Budget, call: Call, output: int)
    requires output >= 0 && WithinCeilings(b, call, output)
    ensures Allowed(b, call, output)
  {
  }

  /** The derived bound is allowed exactly when one single byte of output is. */
  lemma BoundIsAllowedExactlyWhen(b: Budget, call: Call)
    ensures Allowed(b, call, Bound(b, call)) <==> Allowed(b, call, 1)
  {
    if Ceiling(b, call) >= 1 {
      BoundKeepsCeilingsExactlyWhen(b, call);
      CeilingsAreAllowed(b, call, Bound(b, call));
    }
  }

  /** The largest output the engine allows, when positive. */
  function AllowedCeiling(b: Budget, call: Call): int {
    var disclosed := Or(b.disclosedLimit, MAX_SAFE_INTEGER) - b.disclosedUsed - CONTROL_PLANE_RESERVE_BYTES;
    Min(Min(Or(b.commandOutputLimit, MAX_SAFE_INTEGER) - b.commandOutputUsed,
            (disclosed - TOOL_RESULT_ENVELOPE_RESERVE_BYTES) / 6 - call.invocationBytes),
        Or(b.perOperation, MAX_SAFE_INTEGER) - call.invocationBytes)
  }

  lemma AllowedExactlyUpTo(b: Budget, call: Call, output: nat)
    ensures Allowed(b, call, output) <==> output <= AllowedCeiling(b, call)
  {
    var disclosed := Or(b.disclosedLimit, MAX_SAFE_INTEGER) - b.disclosedUsed - CONTROL_PLANE_RESERVE_BYTES;
    FitsInClosedForm(disclosed, output + call.invocationBytes);
  }

  /**
   The bound leaves nothing on the table exactly when the request, the product cap or the engine stops the next
   byte; the planned per-operation ceiling alone may stop it earlier.
   */
  lemma BoundIsLargestAllowedExactlyWhen(b: Budget, call: Call)
    ensures var most := Min(Min(Requested(call), TERMINAL_EXEC_MAX_OUTPUT_BYTES), AllowedCeiling(b, call));
            (exists output | output > Bound(b, call) ::
               output <= Requested(call) && output <= TERMINAL_EXEC_MAX_OUTPUT_BYTES && Allowed(b, call, output))
            <==> most > Bound(b, call)
  {
    var most := Min(Min(Requested(call), TERMINAL_EXEC_MAX_OUTPUT_BYTES), AllowedCeiling(b, call));
    if most > Bound(b, call) { AllowedExactlyUpTo(b, call, most); }
    forall output | output > Bound(b, call) ensures Allowed(b, call, output) <==> output <= AllowedCeiling(b, call) {
      AllowedExactlyUpTo(b, call, output);
    }
  }

  /** A spent output budget: the bound is one byte all the same, and the call is refused. */
  lemma FloorCanOvershoot()
    ensures var (b, call) := (Budget(Some(1000), 1000, None, 0, None), Call(None, 10));
            Bound(b, call) == 1 && !Allowed(b, call, 1)
  {
  }

  /** A per-operation cap below the envelope: the ceiling is zero, and the one byte of the floor is allowed. */
  lemma FloorCanBeAllowed()
    ensures var (b, call) := (Budget(Some(1000000), 0, Some(10000000), 0, Some(1000)), Call(None, 10));
            Ceiling(b, call) == 0 && Bound(b, call) == 1 && Allowed(b, call, 1) && Allowed(b, call, 990)
  {
  }

  // ----- The bound of a session diff -----

  /** `sessionGitDiffRuntimeBounds`: none when disabled. */
  function AppliedDiffBytes(perOperation: Option<SafeNat>, requested: SafeNat): Option<SafeNat>
    requires requested > 0
  {
    var ceiling := Or(perOperation, MAX_SAFE_INTEGER);
    if ceiling - SESSION_DIFF_SAMPLE_BYTES < 1 then None else Some(Min(requested, ceiling - SESSION_DIFF_SAMPLE_BYTES))
  }

  /**
   The applied size is the largest positive one, up to the request, that obeys the per-operation cap together with
   the path sample; the diff is disabled exactly when there is none. Applying the bound again changes nothing.
   */
  lemma DiffBoundIsLargest(perOperation: Option<SafeNat>, requested: SafeNat, n: SafeNat)
    requires 0 < n <= requested
    ensures var applied := AppliedDiffBytes(perOperation, requested);
            && (Obeys(perOperation, n + SESSION_DIFF_SAMPLE_BYTES) <==> applied.Some? && n <= applied.value)
            && (applied.Some? ==> applied.value > 0 && AppliedDiffBytes(perOperation, applied.value) == applied)
  {
  }
}
