/**
 The audit log: a file of records chained by hash, and the object that appends to it.

 SHA-256 of a canonical record is a free constructor: two records have one digest only if they are equal, and no
 record has the genesis digest. A line that parses is shown with its typed fields; `wellTyped` says whether schema
 version, event type, task, timestamp, turn and data have the shapes the verifier asks for.
 */
module AuditLog {
  import opened Basics

  datatype Hash = Genesis | Of(base: Base)

  /** The part of an event that is hashed. */
  datatype Base = Base(sequence: int, sessionId: string, timestamp: string, previousHash: Hash, input: Input)

  datatype Input = Input(kind: string, taskId: string, operationId: Option<string>, turnId: Option<string>, data: Data)

  /** The `idempotencyKey` of an event's data when it is a string, and the rest of the data. */
  datatype Data = Data(idempotencyKey: Option<string>, rest: string)

  datatype Event = Event(base: Base, eventHash: Hash)

  datatype Line = Blank | Unparsable | Parsed(event: Event, wellTyped: bool)

  /** The content of the file: its complete lines, and whether text follows the last newline. */
  datatype Content = Content(lines: seq<Line>, partial: bool)

  datatype Verified = Accepted(events: seq<Event>, finalHash: Hash) | Rejected(reason: string)

  /** `isJournalOperationId`, whose grammar is not part of this model. */
  datatype Rules = Rules(sessionId: string, journal: string -> bool)

  // ----- Verification -----

  function FinalHash(events: seq<Event>): Hash {
    if events == [] then Genesis else events[|events| - 1].eventHash
  }

  predicate OperationOk(r: Rules, input: Input) {
    input.operationId.Some? ==> r.journal(input.operationId.value)
  }

  /** Event `i` of a chain: numbered, of this session, linked to its predecessor, and hashed over all that. */
  predicate Link(r: Rules, events: seq<Event>, i: nat)
    requires i < |events|
  {
    var e := events[i];
    && e.base.sessionId == r.sessionId && e.base.sequence == i + 1
    && e.base.previousHash == FinalHash(events[..i]) && e.eventHash == Of(e.base) && OperationOk(r, e.base.input)
  }

  predicate Chain(r: Rules, events: seq<Event>) {
    forall i | 0 <= i < |events| :: Link(r, events, i)
  }

  function Encode(events: seq<Event>): (c: Content)
    ensures |c.lines| == |events| && !c.partial
  {
    Content(seq(|events|, i requires 0 <= i < |events| => Parsed(events[i], true)), false)
  }

  predicate LineOk(r: Rules, line: Line, previousHash: Hash, expectedSequence: int) {
    line.Parsed? && line.wellTyped
    && line.event.base.sessionId == r.sessionId && line.event.base.sequence == expectedSequence
    && line.event.base.previousHash == previousHash && OperationOk(r, line.event.base.input)
    && line.event.eventHash == Of(line.event.base)
  }

  /** `verifyAuditText` accepts exactly the encodings of chains, and reads back the chain. */
  method VerifyAuditText(r: Rules, content: Content) returns (v: Verified)
    ensures v.Accepted? ==> content == Encode(v.events) && Chain(r, v.events) && v.finalHash == FinalHash(v.events)
    ensures v.Rejected? ==> forall events | Chain(r, events) :: content != Encode(events)
  {
    if content.partial { return Rejected("Audit log ends with a partial record"); }
    var events: seq<Event> := [];
    var previousHash, expectedSequence := Genesis, 1;
    var i := 0;
    while i < |content.lines|
      invariant 0 <= i <= |content.lines| && |events| == i
      invariant forall k | 0 <= k < i :: content.lines[k] == Parsed(events[k], true)
      invariant Chain(r, events) && previousHash == FinalHash(events) && expectedSequence == i + 1
    {
      var line := content.lines[i];
      if !LineOk(r, line, previousHash, expectedSequence) {
        forall other | Chain(r, other) ensures content != Encode(other) {
          if content == Encode(other) { NextLineIsOk(r, other, events); }
        }
        return Rejected(if line.Blank? then "Audit log contains a blank record" else "Audit chain is inconsistent");
      }
      AppendKeepsChain(r, events, line.event);
      events := events + [line.event];
      previousHash := line.event.eventHash;
      expectedSequence := expectedSequence + 1;
      i := i + 1;
    }
    assert content.lines == Encode(events).lines;
    return Accepted(events, previousHash);
  }

  lemma AppendKeepsChain(r: Rules, events: seq<Event>, e: Event)
    requires Chain(r, events) && LineOk(r, Parsed(e, true), FinalHash(events), |events| + 1)
    ensures Chain(r, events + [e]) && FinalHash(events + [e]) == e.eventHash
  {
    var longer := events + [e];
    forall i | 0 <= i < |longer| ensures Link(r, longer, i) {
      assert longer[..i] == events[..i];
      if i < |events| { assert Link(r, events, i); } else { assert longer[..i] == events; }
    }
  }

  /** In the encoding of a chain, the line after any read prefix links up. */
  lemma NextLineIsOk(r: Rules, chain: seq<Event>, events: seq<Event>)
    requires Chain(r, chain) && |events| < |chain|
    requires forall k | 0 <= k < |events| :: Encode(chain).lines[k] == Parsed(events[k], true)
    ensures LineOk(r, Encode(chain).lines[|events|], FinalHash(events), |events| + 1)
  {
    forall k | 0 <= k < |events| ensures chain[k] == events[k] {
      assert Encode(chain).lines[k] == Parsed(chain[k], true);
    }
    assert chain[..|events|] == events;
    assert Link(r, chain, |events|);
  }

  /** Two accepted logs of one session with the same final hash are the same log. */
  lemma {:induction false} FinalHashDeterminesLog(r: Rules, a: seq<Event>, b: seq<Event>)
    requires Chain(r, a) && Chain(r, b) && FinalHash(a) == FinalHash(b)
    ensures a == b
  {
    if a == [] || b == [] {
      assert a != [] ==> Link(r, a, |a| - 1);
      assert b != [] ==> Link(r, b, |b| - 1);
    } else {
      var (m, n) := (|a| - 1, |b| - 1);
      assert Link(r, a, m) && Link(r, b, n);
      PrefixIsChain(r, a, m);
      PrefixIsChain(r, b, n);
      FinalHashDeterminesLog(r, a[..m], b[..n]);
      assert a == a[..m] + [a[m]] && b == b[..n] + [b[n]];
    }
  }

  lemma PrefixIsChain(r: Rules, events: seq<Event>, n: nat)
    requires Chain(r, events) && n <= |events|
    ensures Chain(r, events[..n])
  {
    forall i | 0 <= i < n ensures Link(r, events[..n], i) {
      assert Link(r, events, i) && events[..n][..i] == events[..i];
    }
  }

  // ----- Appending -----

  function EventFor(r: Rules, events: seq<Event>, input: Input, timestamp: string): Event {
    var base := Base(|events| + 1, r.sessionId, timestamp, FinalHash(events), input);
    Event(base, Of(base))
  }

  function KeyOf(e: Event): Option<string> {
    e.base.input.data.idempotencyKey
  }

  function Keys(events: seq<Event>): (keys: set<string>)
    ensures forall k :: k in keys <==> exists i :: 0 <= i < |events| && KeyOf(events[i]) == Some(k)
  {
    if events == [] then {}
    else
      var last := KeyOf(events[|events| - 1]);
      Keys(events[..|events| - 1]) + if last.Some? then {last.value} else {}
  }

  lemma KeysAppend(events: seq<Event>, e: Event)
    ensures Keys(events + [e]) == Keys(events) + if KeyOf(e).Some? then {KeyOf(e).value} else {}
  {
    assert (events + [e])[..|events|] == events;
  }

  datatype Operation =
    | Restart
    | Append(input: Input, timestamp: string)
    | AppendOnce(input: Input, timestamp: string, key: string)

  function WithKey(input: Input, key: string): Input {
    input.(data := input.data.(idempotencyKey := Some(key)))
  }

  /** What one operation adds to the log. */
  function Added(r: Rules, events: seq<Event>, op: Operation): seq<Event> {
    match op
    case Restart => []
    case Append(input, timestamp) => if OperationOk(r, input) then [EventFor(r, events, input, timestamp)] else []
    case AppendOnce(input, timestamp, key) =>
      if key in Keys(events) || !OperationOk(r, input) then []
      else [EventFor(r, events, WithKey(input, key), timestamp)]
  }

  /** The log after a sequence of operations on a new file. */
  function Written(r: Rules, ops: seq<Operation>): seq<Event> {
    if ops == [] then []
    else
      var events := Written(r, ops[..|ops| - 1]);
      events + Added(r, events, ops[|ops| - 1])
  }

  lemma AddedKeepsChain(r: Rules, events: seq<Event>, op: Operation)
    requires Chain(r, events)
    ensures Chain(r, events + Added(r, events, op))
  {
    var added := Added(r, events, op);
    if added == [] { assert events + added == events; } else { AppendKeepsChain(r, events, added[0]); }
  }

  /** Every log the operations can produce verifies. */
  lemma {:induction false} WrittenLogVerifies(r: Rules, ops: seq<Operation>)
    ensures Chain(r, Written(r, ops))
  {
    if ops == [] {
    } else {
      WrittenLogVerifies(r, ops[..|ops| - 1]);
      AddedKeepsChain(r, Written(r, ops[..|ops| - 1]), ops[|ops| - 1]);
    }
  }

  predicate KeyedOnlyOnce(ops: seq<Operation>) {
    forall op | op in ops :: op.Append? ==> op.input.data.idempotencyKey.None?
  }

  /** If keys are written only by `appendOnce`, no two events carry the same key, restarts or not. */
  lemma {:induction false} KeysAreUnique(r: Rules, ops: seq<Operation>, i: nat, j: nat)
    requires KeyedOnlyOnce(ops)
    requires var log := Written(r, ops); i < j < |log| && KeyOf(log[i]).Some?
    ensures var log := Written(r, ops); KeyOf(log[i]) != KeyOf(log[j])
  {
    var op := ops[|ops| - 1];
    assert op in ops;
    var before := Written(r, ops[..|ops| - 1]);
    if j < |before| {
      assert KeyedOnlyOnce(ops[..|ops| - 1]);
      KeysAreUnique(r, ops[..|ops| - 1], i, j);
    } else if op.AppendOnce? {
      assert KeyOf(before[i]).value in Keys(before);
    }
  }

  // ----- The object -----

  /** The file on disk; it outlives every process. */
  class Disk {
    var content: Content

    constructor ()
      ensures content == Encode([])
    {
      content := Content([], false);
    }
  }

  class Log {
    const rules: Rules
    const disk: Disk
    var sequence: int
    var previousHash: Hash
    var initialized: bool
    var idempotencyKeys: set<string>

    constructor (rules: Rules, disk: Disk)
      ensures this.rules == rules && this.disk == disk && !initialized
      ensures sequence == 0 && previousHash == Genesis && idempotencyKeys == {}
    {
      this.rules, this.disk := rules, disk;
      sequence, previousHash, initialized, idempotencyKeys := 0, Genesis, false, {};
    }

    /** The memory of the object describes the log on disk. */
    ghost predicate Tracks(events: seq<Event>)
      reads this, disk
    {
      && disk.content == Encode(events) && Chain(rules, events)
      && (initialized ==> sequence == |events| && previousHash == FinalHash(events) && idempotencyKeys == Keys(events))
      && (!initialized ==> sequence == 0 && previousHash == Genesis && idempotencyKeys == {})
    }

    method Initialize(ghost events: seq<Event>)
      requires Tracks(events)
      modifies this
      ensures Tracks(events) && initialized
    {
      if initialized { return; }
      if |disk.content.lines| > 0 || disk.content.partial {
        var verification := VerifyAuditText(rules, disk.content);
        assert verification.Accepted?;
        EncodeIsInjective(verification.events, events);
        sequence := |verification.events|;
        previousHash := verification.finalHash;
        var i := 0;
        while i < |verification.events|
          invariant 0 <= i <= |verification.events| && idempotencyKeys == Keys(verification.events[..i])
          invariant sequence == |verification.events| && previousHash == verification.finalHash
        {
          var key := KeyOf(verification.events[i]);
          assert verification.events[..i + 1] == verification.events[..i] + [verification.events[i]];
          KeysAppend(verification.events[..i], verification.events[i]);
          if key.Some? { idempotencyKeys := idempotencyKeys + {key.value}; }
          i := i + 1;
        }
        assert verification.events[..i] == verification.events;
      }
      initialized := true;
    }

    method Append(input: Input, timestamp: string, ghost events: seq<Event>) returns (event: Option<Event>)
      requires Tracks(events)
      modifies this, disk
      ensures Tracks(events + Added(rules, events, Operation.Append(input, timestamp)))
      ensures event.None? <==> !OperationOk(rules, input)
      ensures event.Some? ==> event.value == EventFor(rules, events, input, timestamp)
    {
      Initialize(events);
      if !OperationOk(rules, input) {
        assert events + [] == events;
        return None;
      }
      var base := Base(sequence + 1, rules.sessionId, timestamp, previousHash, input);
      var e := Event(base, Of(base));
      AppendKeepsChain(rules, events, e);
      KeysAppend(events, e);
      disk.content := Content(disk.content.lines + [Parsed(e, true)], false);
      assert disk.content.lines == Encode(events + [e]).lines;
      sequence := base.sequence;
      previousHash := e.eventHash;
      if input.data.idempotencyKey.Some? { idempotencyKeys := idempotencyKeys + {input.data.idempotencyKey.value}; }
      return Some(e);
    }

    method AppendOnce(input: Input, timestamp: string, key: string, ghost events: seq<Event>)
      returns (event: Option<Event>)
      requires Tracks(events)
      modifies this, disk
      ensures Tracks(events + Added(rules, events, Operation.AppendOnce(input, timestamp, key)))
    {
      Initialize(events);
      if key in idempotencyKeys {
        assert events + [] == events;
        return None;
      }
      event := Append(WithKey(input, key), timestamp, events);
    }
  }

  lemma EncodeIsInjective(a: seq<Event>, b: seq<Event>)
    requires Encode(a) == Encode(b)
    ensures a == b
  {
    forall k | 0 <= k < |a| ensures a[k] == b[k] { assert Encode(a).lines[k] == Encode(b).lines[k]; }
  }

  /** Any sequence of operations on a new file, with restarts in between, leaves exactly the specified log on disk. */
  method Serve(rules: Rules, ops: seq<Operation>) returns (disk: Disk)
    ensures disk.content == Encode(Written(rules, ops)) && Chain(rules, Written(rules, ops))
  {
    disk := new Disk();
    var log := new Log(rules, disk);
    for n := 0 to |ops|
      invariant log.rules == rules && log.disk == disk && fresh(log) && fresh(disk)
      invariant log.Tracks(Written(rules, ops[..n]))
    {
      ghost var events := Written(rules, ops[..n]);
      assert ops[..n + 1][..n] == ops[..n];
      match ops[n] {
        case Restart =>
          assert events + [] == events;
          log := new Log(rules, disk);
        case Append(input, timestamp) => var event := log.Append(input, timestamp, events);
        case AppendOnce(input, timestamp, key) => var event := log.AppendOnce(input, timestamp, key, events);
      }
    }
    assert ops[..|ops|] == ops;
  }
}
