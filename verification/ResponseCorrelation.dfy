/**
 Which response on the page answers a submission.

 The record of a submission remembers the response envelopes that were visible before it: their number, the
 digest of the whole sequence and, while the record is in memory, one digest per envelope. The page may later
 show only the tail of its transcript. SHA-256 is a parameter; where a statement needs it to be free of
 collisions, it says so about the texts at hand (`Separates`).
 */
module ResponseCorrelation {
  import opened Basics
  import opened Text
  import RC = ResponseCapture

  /** SHA-256 of a text, and of the JSON array of a sequence of texts. */
  datatype Hasher = Hasher(ofText: string -> string, ofSequence: seq<string> -> string)

  /** No two of the texts in play share a digest, and no prefix of `view` collides with `base`. */
  ghost predicate Separates(h: Hasher, view: seq<string>, base: seq<string>) {
    && (forall x, y | x in view + base && y in view + base && h.ofText(x) == h.ofText(y) :: x == y)
    && (forall n | 0 <= n <= |view| && h.ofSequence(view[..n]) == h.ofSequence(base) :: view[..n] == base)
  }

  datatype Element = Element(text: string, correlationText: Option<string>, capture: Option<RC.Evidence>)

  function EnvelopeText(e: Element): string {
    Trim(if e.correlationText.Some? then e.correlationText.value else e.text)
  }

  /** `responseEnvelopeTexts`. */
  function Envelopes(es: seq<Element>): (texts: seq<string>)
    ensures |texts| == |es| && forall i | 0 <= i < |es| :: texts[i] == EnvelopeText(es[i])
  {
    seq(|es|, i requires 0 <= i < |es| => EnvelopeText(es[i]))
  }

  function Digests(h: Hasher, texts: seq<string>): (ds: seq<string>)
    ensures |ds| == |texts| && forall i | 0 <= i < |ds| :: ds[i] == h.ofText(texts[i])
  {
    seq(|texts|, i requires 0 <= i < |texts| => h.ofText(texts[i]))
  }

  /** The baseline part of a submission record; `digests` is absent in a record rebuilt from a page marker. */
  datatype Baseline = Baseline(count: nat, sequence: string, digests: Option<seq<string>>)

  function Recorded(h: Hasher, texts: seq<string>): Baseline {
    Baseline(|texts|, h.ofSequence(texts), Some(Digests(h, texts)))
  }

  function Rebuilt(count: nat, sequence: string): Baseline {
    Baseline(count, sequence, None)
  }

  datatype Code = SequenceAmbiguous | BaselineTruncated | BaselineChanged

  datatype Correlation =
    | Pending
    | Candidate(content: string, capture: Option<RC.Evidence>)
    | CaptureIssue(code: string, details: RC.Evidence)
    | Indeterminate(reason: Code)

  function StatusCode(s: RC.Status): string {
    match s
    case WidgetAmbiguous => "PROTOCOL_WIDGET_AMBIGUOUS"
    case WidgetCaptureFailed => "PROTOCOL_WIDGET_CAPTURE_FAILED"
    case UnsupportedCaptureContract => "UNSUPPORTED_CAPTURE_CONTRACT"
    case WidgetIncomplete => "PROTOCOL_WIDGET_INCOMPLETE"
    case _ => "RESPONSE_CAPTURE_OK"
  }

  /** `responseCaptureIssue`. */
  function IssueOf(e: Element): Option<string> {
    if e.capture.None? || e.capture.value.status.RenderedText? || e.capture.value.status.ProtocolReconstructed?
       || e.capture.value.status.ModelProtocolMalformed?
    then None
    else Some(if e.capture.value.reasonCode.Some? then e.capture.value.reasonCode.value
              else StatusCode(e.capture.value.status))
  }

  /** What a capture diagnostic reports: all of the evidence but the parser's own error code. */
  function Details(e: RC.Evidence): RC.Evidence {
    e.(protocolErrorCode := None)
  }

  function Present(e: Element): Correlation {
    if IssueOf(e).Some? then CaptureIssue(IssueOf(e).value, Details(e.capture.value))
    else if Trim(e.text) == "" then Pending
    else Candidate(Trim(e.text), e.capture)
  }

  /** Does `part` equal the last `|part|` entries of `whole`, with some of `whole` left over? */
  predicate ProperTail(part: seq<string>, whole: seq<string>) {
    0 < |part| < |whole| && part == whole[|whole| - |part|..]
  }

  /** Which envelope of the page is the answer, if any. */
  datatype Selection = NoneYet | Refused(reason: Code) | Chosen(index: nat)

  function Select(h: Hasher, view: seq<string>, b: Baseline): (s: Selection)
    ensures s.Chosen? ==> s.index == |view| - 1
  {
    if |view| >= b.count && h.ofSequence(view[..b.count]) == b.sequence then
      if |view| == b.count then NoneYet
      else if |view| != b.count + 1 then Refused(SequenceAmbiguous)
      else Chosen(b.count)
    else if b.digests.Some? && |b.digests.value| == b.count && b.count >= 2
            && Virtualized(h, view, b.digests.value).Some? then
      match Virtualized(h, view, b.digests.value).value
      case Both => Refused(SequenceAmbiguous)
      case Last => Chosen(|view| - 1)
      case Tail => NoneYet
    else Refused(if |view| < b.count then BaselineTruncated else BaselineChanged)
  }

  /** `associatedResponse`. */
  function AssociatedResponse(h: Hasher, es: seq<Element>, b: Baseline): Correlation {
    match Select(h, Envelopes(es), b)
    case NoneYet => Pending
    case Refused(reason) => Indeterminate(reason)
    case Chosen(i) => Present(es[i])
  }

  datatype Alignment = Both | Last | Tail

  /** The two alignments of a truncated transcript: nothing new yet, or one new response at the end. */
  function Virtualized(h: Hasher, view: seq<string>, baseline: seq<string>): (a: Option<Alignment>)
    ensures a == Some(Last) ==> |view| > 0
  {
    var now := Digests(h, view);
    var pending := ProperTail(now, baseline);
    var candidate := |now| > 0 && ProperTail(now[..|now| - 1], baseline);
    if pending && candidate then Some(Both)
    else if candidate then Some(Last)
    else if pending then Some(Tail)
    else None
  }

  predicate IsTail(view: seq<string>, whole: seq<string>) {
    |view| <= |whole| && view == whole[|whole| - |view|..]
  }

  lemma DigestTailsAreTextTails(h: Hasher, view: seq<string>, texts: seq<string>)
    requires Separates(h, view, texts)
    ensures ProperTail(Digests(h, view), Digests(h, texts)) <==> 0 < |view| < |texts| && IsTail(view, texts)
  {
    if 0 < |view| < |texts| {
      var tail := Digests(h, texts)[|texts| - |view|..];
      if ProperTail(Digests(h, view), Digests(h, texts)) {
        forall i | 0 <= i < |view| ensures view[i] == texts[|texts| - |view| + i] {
          assert Digests(h, view)[i] == tail[i] == h.ofText(texts[|texts| - |view| + i]);
        }
      }
      if IsTail(view, texts) {
        assert forall i | 0 <= i < |view| :: Digests(h, view)[i] == tail[i];
      }
    }
  }

  lemma {:induction false} VirtualizedReading(h: Hasher, view: seq<string>, texts: seq<string>)
    requires Separates(h, view, texts)
    ensures Virtualized(h, view, Digests(h, texts)) ==
            (var pending := 0 < |view| < |texts| && IsTail(view, texts);
             var candidate := 1 < |view| <= |texts| && IsTail(view[..|view| - 1], texts);
             if pending && candidate then Some(Both) else if candidate then Some(Last)
             else if pending then Some(Tail) else None)
  {
    DigestTailsAreTextTails(h, view, texts);
    if |view| > 0 {
      var front := view[..|view| - 1];
      assert forall n | 0 <= n <= |front| :: front[..n] == view[..n];
      DigestTailsAreTextTails(h, view[..|view| - 1], texts);
      assert Digests(h, view)[..|view| - 1] == Digests(h, view[..|view| - 1]);
    }
  }

  /** All envelopes but the last continue a tail of the baseline, and the last one breaks it. */
  predicate Aligned(view: seq<string>, base: seq<string>) {
    && 0 < |view| <= |base| + 1 && (|view| >= 2 || base == [])
    && IsTail(view[..|view| - 1], base) && !IsTail(view, base)
  }

  /** On any page whatever, an envelope is chosen exactly when the page is aligned, and it is the last one. */
  lemma {:induction false} ChosenExactlyWhenAligned(h: Hasher, view: seq<string>, base: seq<string>)
    requires Separates(h, view, base)
    ensures Select(h, view, Recorded(h, base)).Chosen? <==> Aligned(view, base)
  {
    VirtualizedReading(h, view, base);
    if |view| == |base| + 1 { assert view[..|base|] == view[..|view| - 1]; }
    if |view| == |base| { assert view[..|base|] == view; }
  }

  /** Nothing new: on any tail of the baseline transcript no envelope is chosen, however repetitive it is. */
  lemma {:induction false} NothingChosenWithoutNewResponse(h: Hasher, view: seq<string>, base: seq<string>)
    requires Separates(h, view, base) && IsTail(view, base)
    ensures !Select(h, view, Recorded(h, base)).Chosen?
  {
    ChosenExactlyWhenAligned(h, view, base);
  }

  /** Whether the page's tail of `base + [r]` can be told from a tail of `base`. */
  predicate Distinguishable(view: seq<string>, base: seq<string>) {
    |view| == |base| + 1 || (2 <= |view| <= |base| && !IsTail(view, base))
  }

  /** A nonempty tail of `base + [r]` ends in `r`, after a tail of `base`. */
  lemma LastOfTail(view: seq<string>, base: seq<string>, r: string)
    requires 0 < |view| && IsTail(view, base + [r])
    ensures view[|view| - 1] == r && IsTail(view[..|view| - 1], base)
  {
    var whole := base + [r];
    assert view[|view| - 1] == whole[|whole| - 1];
    var front := view[..|view| - 1];
    assert front == whole[|whole| - |view|..][..|view| - 1] == base[|base| - |front|..];
  }

  /**
   One new response: from any tail of the transcript `base + [r]`, periodic or not, the correlator chooses the
   last envelope, which is `r`, exactly when the tail is distinguishable, and never any other envelope.
   */
  lemma {:induction false} NewResponseChosenExactlyWhenDistinguishable(h: Hasher, view: seq<string>,
      base: seq<string>, r: string)
    requires Separates(h, view, base) && IsTail(view, base + [r])
    ensures Select(h, view, Recorded(h, base)).Chosen? <==> Distinguishable(view, base)
    ensures |view| > 0 ==> view[|view| - 1] == r
  {
    ChosenExactlyWhenAligned(h, view, base);
    if |view| > 0 { LastOfTail(view, base, r); }
  }

  /** A candidate is the trimmed text of the chosen element. */
  lemma CandidateIsChosen(h: Hasher, es: seq<Element>, b: Baseline)
    requires AssociatedResponse(h, es, b).Candidate?
    ensures |es| > 0 && Select(h, Envelopes(es), b) == Chosen(|es| - 1)
    ensures AssociatedResponse(h, es, b) == Candidate(Trim(es[|es| - 1].text), es[|es| - 1].capture)
  {
  }

  /**
   Correlation soundness under virtualisation, with at most one new response `arrived`: a candidate is read only
   if there is a new response, and it is that response's element.
   */
  lemma {:induction false} CorrelationSound(h: Hasher, es: seq<Element>, base: seq<string>, arrived: Option<string>)
    requires Separates(h, Envelopes(es), base)
    requires IsTail(Envelopes(es), base + (if arrived.Some? then [arrived.value] else []))
    requires AssociatedResponse(h, es, Recorded(h, base)).Candidate?
    ensures arrived.Some? && |es| > 0 && EnvelopeText(es[|es| - 1]) == arrived.value
    ensures AssociatedResponse(h, es, Recorded(h, base)) == Candidate(Trim(es[|es| - 1].text), es[|es| - 1].capture)
  {
    CandidateIsChosen(h, es, Recorded(h, base));
    if arrived.None? {
      assert base + [] == base;
      NothingChosenWithoutNewResponse(h, Envelopes(es), base);
    } else {
      NewResponseChosenExactlyWhenDistinguishable(h, Envelopes(es), base, arrived.value);
    }
  }

  /** The last `v` envelopes of the transcript after `news` arrived. */
  function Visible(base: seq<string>, news: seq<string>, v: nat): seq<string>
    requires v <= |base| + |news|
  {
    (base + news)[|base| + |news| - v..]
  }

  /**
   At most one envelope more than the baseline is visible; the visible ones but the last look like the end of the
   baseline, and with the last they do not.
   */
  predicate Misread(base: seq<string>, news: seq<string>, v: nat)
    requires v <= |base| + |news|
  {
    && 0 < v <= |base| + 1 && (v >= 2 || base == [])
    && (base + news)[|base| + |news| - v..|base| + |news| - 1] == base[|base| + 1 - v..]
    && (v <= |base| ==> Visible(base, news, v) != base[|base| - v..])
  }

  /**
   Two or more new responses are misread exactly under that condition: the last of them is then taken for the
   answer. In every other case nothing is read.
   */
  lemma {:induction false} NewResponsesMisreadExactlyWhen(h: Hasher, base: seq<string>, news: seq<string>, v: nat)
    requires |news| >= 2 && v <= |base| + |news| && Separates(h, Visible(base, news, v), base)
    ensures Select(h, Visible(base, news, v), Recorded(h, base)).Chosen? <==> Misread(base, news, v)
    ensures v > 0 ==> Visible(base, news, v)[v - 1] == news[|news| - 1]
  {
    var view := Visible(base, news, v);
    ChosenExactlyWhenAligned(h, view, base);
    if v > 0 {
      assert view[..v - 1] == (base + news)[|base| + |news| - v..|base| + |news| - 1];
    }
  }

  /** A page that is misread: on a constant transcript the second of two new responses is taken for the answer. */
  lemma TwoNewResponsesCanBeMisread(h: Hasher)
    requires Separates(h, ["a", "x"], ["a", "a"])
    ensures var es := [Element("a", None, None), Element("x", None, None)];
            && Misread(["a", "a"], ["a", "x"], 2) && Envelopes(es) == Visible(["a", "a"], ["a", "x"], 2)
            && AssociatedResponse(h, es, Recorded(h, ["a", "a"])) == Candidate("x", None)
  {
    var es := [Element("a", None, None), Element("x", None, None)];
    var (base, news) := (["a", "a"], ["a", "x"]);
    TrimKeepsOneLetter("a");
    TrimKeepsOneLetter("x");
    assert Envelopes(es) == ["a", "x"] == Visible(base, news, 2);
    assert (base + news)[2..3] == ["a"] == base[1..];
    assert ["a", "x"][1] != base[0..][1];
    NewResponsesMisreadExactlyWhen(h, base, news, 2);
  }

  // ----- Every answer of the correlator -----

  /** The visible envelopes are the last ones of the baseline, and some of the baseline is gone. */
  predicate ShowsOnlyOld(view: seq<string>, base: seq<string>) {
    0 < |view| < |base| && IsTail(view, base)
  }

  /** At most as many envelopes as the baseline had; all but the last are the last ones of the baseline. */
  predicate ShowsOldAndOne(view: seq<string>, base: seq<string>) {
    1 < |view| <= |base| && IsTail(view[..|view| - 1], base)
  }

  lemma {:induction false} WholePrefix(h: Hasher, view: seq<string>, base: seq<string>)
    requires Separates(h, view, base)
    ensures |view| >= |base| && h.ofSequence(view[..|base|]) == h.ofSequence(base) <==> base <= view
  {
    if |view| >= |base| { assert base <= view <==> view[..|base|] == base; }
  }

  /**
   What a record held in memory says of any page, over texts: nothing new, one of the three refusals, or the last
   envelope. Each answer is given in exactly these cases, and there are no others.
   */
  lemma {:induction false} SelectExactly(h: Hasher, view: seq<string>, base: seq<string>)
    requires Separates(h, view, base)
    ensures var answer := Select(h, view, Recorded(h, base));
            && (answer.NoneYet? <==> view == base || (ShowsOnlyOld(view, base) && !ShowsOldAndOne(view, base)))
            && (answer == Refused(SequenceAmbiguous) <==>
                  (base <= view && |view| >= |base| + 2) || (ShowsOnlyOld(view, base) && ShowsOldAndOne(view, base)))
            && (answer == Refused(BaselineTruncated) <==>
                  |view| < |base| && !ShowsOnlyOld(view, base) && !ShowsOldAndOne(view, base))
            && (answer == Refused(BaselineChanged) <==>
                  |view| >= |base| && !(base <= view) && !ShowsOldAndOne(view, base))
            && (answer.Chosen? ==> answer.index == |view| - 1)
  {
    VirtualizedReading(h, view, base);
    WholePrefix(h, view, base);
    if base <= view && |view| == |base| { assert view == base; }
  }

  /** The same for a record rebuilt from a marker, which has no digests of its own to align with. */
  lemma {:induction false} SelectRebuiltExactly(h: Hasher, view: seq<string>, base: seq<string>)
    requires Separates(h, view, base)
    ensures var answer := Select(h, view, Rebuilt(|base|, h.ofSequence(base)));
            && (answer.NoneYet? <==> view == base)
            && (answer.Chosen? <==> base <= view && |view| == |base| + 1)
            && (answer == Refused(SequenceAmbiguous) <==> base <= view && |view| >= |base| + 2)
            && (answer == Refused(BaselineTruncated) <==> |view| < |base|)
            && (answer == Refused(BaselineChanged) <==> |view| >= |base| && !(base <= view))
  {
    WholePrefix(h, view, base);
    if base <= view && |view| == |base| { assert view == base; }
  }

  /** A tail of the baseline has a second alignment exactly when at least two envelopes show, all of them alike. */
  lemma {:induction false} SecondAlignmentExactlyWhen(view: seq<string>, base: seq<string>)
    requires ShowsOnlyOld(view, base)
    ensures ShowsOldAndOne(view, base) <==> |view| >= 2 && forall i | 0 <= i < |view| :: view[i] == view[0]
  {
    var (n, m) := (|base|, |view|);
    var tail := base[n - m..];
    if m >= 2 {
      var shifted := base[n - (m - 1)..];
      assert forall i | 0 <= i < m - 1 :: shifted[i] == tail[i + 1];
      if ShowsOldAndOne(view, base) {
        assert forall i | 0 <= i < m - 1 :: view[..m - 1][i] == view[i];
        AllAlike(view, m - 1);
      }
      if forall i | 0 <= i < m :: view[i] == view[0] {
        assert view[..m - 1] == shifted;
      }
    }
  }

  lemma {:induction false} AllAlike(view: seq<string>, n: nat)
    requires n < |view| && forall i | 0 <= i < n :: view[i] == view[i + 1]
    ensures forall i | 0 <= i <= n :: view[i] == view[0]
  {
    if n > 0 {
      AllAlike(view, n - 1);
      assert view[n - 1] == view[n - 1 + 1];
    }
  }

  /** Envelopes are compared by what a capture says of their source, and by their shown text where it says nothing. */
  lemma EnvelopesFollowCorrelationText(es: seq<Element>, fs: seq<Element>)
    requires |es| == |fs| && forall i | 0 <= i < |es| :: es[i].correlationText == fs[i].correlationText
    requires forall i | 0 <= i < |es| && es[i].correlationText.None? :: Trim(es[i].text) == Trim(fs[i].text)
    ensures Envelopes(es) == Envelopes(fs)
  {
    assert forall i | 0 <= i < |es| :: EnvelopeText(es[i]) == EnvelopeText(fs[i]);
  }

  /** What the chosen envelope becomes: a capture issue, an answer, or nothing as long as it is blank. */
  lemma PresentExactly(e: Element)
    ensures var broken := e.capture.Some? && (e.capture.value.status.WidgetAmbiguous?
              || e.capture.value.status.WidgetCaptureFailed? || e.capture.value.status.UnsupportedCaptureContract?
              || e.capture.value.status.WidgetIncomplete?);
            && (Present(e).CaptureIssue? <==> broken)
            && (broken ==> Present(e).details == e.capture.value.(protocolErrorCode := None))
            && (broken && e.capture.value.reasonCode.Some? ==> Present(e).code == e.capture.value.reasonCode.value)
            && (broken && e.capture.value.reasonCode.None? ==>
                  && (e.capture.value.status.WidgetAmbiguous? ==> Present(e).code == "PROTOCOL_WIDGET_AMBIGUOUS")
                  && (e.capture.value.status.WidgetCaptureFailed? ==>
                        Present(e).code == "PROTOCOL_WIDGET_CAPTURE_FAILED")
                  && (e.capture.value.status.UnsupportedCaptureContract? ==>
                        Present(e).code == "UNSUPPORTED_CAPTURE_CONTRACT")
                  && (e.capture.value.status.WidgetIncomplete? ==> Present(e).code == "PROTOCOL_WIDGET_INCOMPLETE"))
            && (Present(e).Candidate? <==> !broken && exists i | 0 <= i < |e.text| :: !IsSpace(e.text[i]))
            && (Present(e).Candidate? ==> Present(e) == Candidate(Trim(e.text), e.capture))
            && (Present(e) == Pending <==> !broken && forall i | 0 <= i < |e.text| :: IsSpace(e.text[i]))
  {
    var from, until := TrimDropsOuterSpace(e.text);
    if Trim(e.text) != "" { assert !IsSpace(e.text[from]); }
  }

  /** Before any answer has arrived a record waits: on the whole baseline, and on every tail read in one way only. */
  lemma {:induction false} PendingWithoutNewResponse(h: Hasher, es: seq<Element>, base: seq<string>)
    requires Separates(h, Envelopes(es), base) && IsTail(Envelopes(es), base)
    requires Envelopes(es) == base || (es != [] && !ShowsOldAndOne(Envelopes(es), base))
    ensures AssociatedResponse(h, es, Recorded(h, base)) == Pending
  {
    SelectExactly(h, Envelopes(es), base);
  }

  /**
   What the correlator answers on any page, exactly: the last element is presented if the page is aligned, and
   otherwise the selection alone decides.
   */
  lemma {:induction false} AnswerExactly(h: Hasher, es: seq<Element>, base: seq<string>)
    requires Separates(h, Envelopes(es), base)
    ensures var (answer, view) := (AssociatedResponse(h, es, Recorded(h, base)), Envelopes(es));
            && (Aligned(view, base) ==> answer == Present(es[|es| - 1]))
            && (!Aligned(view, base) ==> answer.Pending? || answer.Indeterminate?)
            && (!Aligned(view, base) ==>
                  (answer.Pending? <==> view == base || (ShowsOnlyOld(view, base) && !ShowsOldAndOne(view, base))))
  {
    ChosenExactlyWhenAligned(h, Envelopes(es), base);
    SelectExactly(h, Envelopes(es), base);
  }

  /**
   Restart refinement: a record rebuilt from the count and digest of the original one gives, on every page,
   the original answer or none; it gives a candidate exactly when the original does on an untruncated page.
   */
  lemma RebuiltRecordRefinesOriginal(h: Hasher, es: seq<Element>, base: seq<string>)
    ensures var rebuilt := AssociatedResponse(h, es, Rebuilt(|base|, h.ofSequence(base)));
            var original := AssociatedResponse(h, es, Recorded(h, base));
            && (rebuilt == original || rebuilt.Indeterminate?)
            && (rebuilt.Candidate? <==> original.Candidate? && |es| == |base| + 1)
  {
  }
}
