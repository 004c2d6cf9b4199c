/**
 From the page to execution: a received answer, its capture evidence, and the gate in front of the parser.
 */
module Execution {
  import opened Basics
  import opened Text
  import A = BrowserAdapter
  import C = ResponseCorrelation
  import R = ResponseCapture
  import W = ResponseWait

  /** The response element the page adapter makes of a capture. */
  function ElementOf(h: R.Host, k: R.Capture): C.Element {
    var n := R.Normalize(h, k);
    C.Element(n.text, Some(n.correlationText), Some(n.evidence))
  }

  /** The responses of a page are the normalized captures, in order. */
  predicate Rendered(h: R.Host, captures: seq<R.Capture>, es: seq<C.Element>) {
    |captures| == |es| && forall i | 0 <= i < |es| ::
      es[i] == ElementOf(h, captures[i]) && R.SafeCounts(R.Normalize(h, captures[i]).evidence)
  }

  /** What the orchestrator makes of a completed answer. */
  function Executed(h: R.Host, content: string, evidence: Option<R.Evidence>): R.Turn {
    R.ParseModelTurn(h, content, if evidence.Some? then Some(R.ToRecord(evidence.value)) else None)
  }

  /** The capture owns one supported widget, and the parser accepts that widget's own fence. */
  predicate Executable(h: R.Host, k: R.Capture, content: string) {
    && R.Owned(h, k)
    && content == R.Fence(k.protocolBlocks[0].version, k.protocolBlocks[0].code)
    && h.byteLength(content) <= R.DEFAULT_MAX_PROTOCOL_INPUT_BYTES
    && !h.isGenericFallback(content) && h.parseMessage(content).Some?
  }

  /** A candidate read off rendered captures is executed exactly when the last of them is executable. */
  lemma {:induction false} CandidateExecutedExactlyWhenOwned(h: R.Host, hasher: C.Hasher, captures: seq<R.Capture>,
      es: seq<C.Element>, b: C.Baseline)
    requires Rendered(h, captures, es) && C.AssociatedResponse(hasher, es, b).Candidate?
    ensures var a := C.AssociatedResponse(hasher, es, b);
            && |captures| > 0
            && (Executed(h, a.content, a.capture).Accepted? <==> Executable(h, captures[|captures| - 1], a.content))
  {
    C.CandidateIsChosen(hasher, es, b);
    var k := captures[|captures| - 1];
    assert es[|es| - 1] == ElementOf(h, k);
    R.OnlyOwnedTextIsExecuted(h, k);
  }

  /**
   From a completed receive to execution: the answer belongs to a proved submission and was stable, and it is
   executed exactly when the last response on the final page owns one supported widget whose own fence the parser
   accepts - and then that fence is the whole text.
   */
  lemma {:induction false} ReceivedAnswerIsExecutedExactlyWhenOwned(c: A.Config, calls: seq<A.Call>, q: A.Request,
      env: A.ReceiveEnv, h: R.Host, captures: seq<seq<R.Capture>>) returns (from: nat, n: nat)
    requires var out := A.Receive(c, A.Run(c, calls), q, env); out.received.Waited? && out.received.outcome.Completed?
    requires |captures| == |env.samples|
    requires forall i | 0 <= i < |captures| && env.samples[i].observation.Saw? ::
               Rendered(h, captures[i], env.samples[i].observation.page.responses)
    ensures 0 < n <= |captures| && |captures[n - 1]| > 0
    ensures var out := A.Receive(c, A.Run(c, calls), q, env);
            && A.Id(q) in out.state.records
            && var (r, o) := (out.state.records[A.Id(q)], out.received.outcome);
               && A.Witnessed(c, out.state, q.correlation, r.conversation, r.marker)
               && W.Justifies(A.WaitConfig(c, A.Id(q), r), env.samples, from, n, o.content, o.capture)
               && (Executed(h, o.content, o.capture).Accepted?
                   <==> Executable(h, captures[n - 1][|captures[n - 1]| - 1], o.content))
  {
    from, n := A.CompletedAnswerIsProved(c, calls, q, env);
    var out := A.Receive(c, A.Run(c, calls), q, env);
    var r := out.state.records[A.Id(q)];
    var es := env.samples[n - 1].observation.page.responses;
    var o := out.received.outcome;
    assert C.AssociatedResponse(c.hasher, es, r.baseline) == C.Candidate(o.content, o.capture);
    CandidateExecutedExactlyWhenOwned(h, c.hasher, captures[n - 1], es, r.baseline);
  }

  /** With at most one new response since the record was made, the executed widget is that response's. */
  lemma {:induction false} ExecutedWidgetIsTheNewResponse(h: R.Host, hasher: C.Hasher, captures: seq<R.Capture>,
      es: seq<C.Element>, base: seq<string>, arrived: Option<string>)
    requires Rendered(h, captures, es) && C.Separates(hasher, C.Envelopes(es), base)
    requires C.IsTail(C.Envelopes(es), base + (if arrived.Some? then [arrived.value] else []))
    requires var a := C.AssociatedResponse(hasher, es, C.Recorded(hasher, base));
             a.Candidate? && Executed(h, a.content, a.capture).Accepted?
    ensures |captures| > 0 && R.Owned(h, captures[|captures| - 1])
    ensures arrived == Some(Trim(R.CorrelationText(captures[|captures| - 1])))
  {
    CandidateExecutedExactlyWhenOwned(h, hasher, captures, es, C.Recorded(hasher, base));
    C.CorrelationSound(hasher, es, base, arrived);
    assert es[|es| - 1] == ElementOf(h, captures[|captures| - 1]);
  }
}
