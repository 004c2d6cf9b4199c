/**
 The marker a submission carries, and the scanner that finds it again on the page.

 A marker is `[[COPILOT_AGENT_TASK_V2:` + base64url(JSON array) + `]]`, appended to the message after a blank
 line. JSON printing and parsing are a parameter; `Lawful` asks only that parsing returns what was printed
 for arrays of ASCII strings, safe integers and nulls.
 */
module TaskMarker {
  import opened Basics
  import opened Text
  import opened Base64Url

  const LEGACY_PREFIX := "[[COPILOT_AGENT_TASK_V1:"
  const PREFIX := "[[COPILOT_AGENT_TASK_V2:"
  const SUFFIX := "]]"
  const LEGACY_BASELINE_VERSION := "response-sequence/v1"
  const BASELINE_VERSION := "response-sequence/v2"
  const MAX_SAFE_INTEGER := 9007199254740991

  datatype Correlation = Correlation(taskId: string, turnId: string, submissionId: string)

  datatype Baseline = Baseline(count: nat, sequenceSha256: string)

  /** `JNumber` is a safe integer; every other number is `JOther`. */
  datatype Json = JArray(items: seq<Json>) | JText(text: string) | JNumber(n: int) | JNull | JOther(tag: nat)

  /** `JSON.stringify` to UTF-8, and UTF-8 to `JSON.parse`. */
  datatype Codec = Codec(stringify: Json -> seq<Byte>, parse: seq<Byte> -> Option<Json>)

  predicate Ascii(s: string) {
    forall i | 0 <= i < |s| :: s[i] as int < 128
  }

  predicate Plain(j: Json) {
    (j.JText? && Ascii(j.text)) || (j.JNumber? && 0 <= j.n <= MAX_SAFE_INTEGER) || j.JNull?
  }

  ghost predicate Lawful(codec: Codec) {
    forall j: Json | j.JArray? && forall x | x in j.items :: Plain(x) ::
      codec.stringify(j) != [] && codec.parse(codec.stringify(j)) == Some(j)
  }

  /** `[A-Za-z0-9][A-Za-z0-9._:-]{0,127}` */
  predicate ValidId(s: string) {
    && 1 <= |s| <= 128
    && s[0] != '.' && s[0] != '_' && s[0] != ':' && s[0] != '-'
    && forall i | 0 <= i < |s| :: (InAlphabet(s[i]) || s[i] == '.' || s[i] == ':')
  }

  predicate ValidCorrelation(c: Correlation) {
    ValidId(c.taskId) && ValidId(c.turnId) && ValidId(c.submissionId)
  }

  predicate ValidBaseline(b: Baseline) {
    0 <= b.count <= MAX_SAFE_INTEGER && HexDigest(b.sequenceSha256)
  }

  function Payload(c: Correlation, b: Option<Baseline>): Json {
    JArray([JText(c.taskId), JText(c.turnId), JText(c.submissionId)]
           + if b.None? then [] else [JText(BASELINE_VERSION), JNumber(b.value.count), JText(b.value.sequenceSha256)])
  }

  /** `createTaskMarker`. */
  function CreateTaskMarker(codec: Codec, c: Correlation, b: Option<Baseline>): string {
    PREFIX + Encode(codec.stringify(Payload(c, b))) + SUFFIX
  }

  /** The bound and the reserved prefixes of `#validateContent`. */
  predicate ValidContent(content: string, maxMessageChars: nat) {
    0 < |content| <= maxMessageChars && !Includes(content, LEGACY_PREFIX) && !Includes(content, PREFIX)
  }

  // ----- The scanner -----

  datatype Match = Match(start: nat, legacy: bool, encoded: string)

  function EndOf(m: Match): nat {
    m.start + |PREFIX| + |m.encoded| + |SUFFIX|
  }

  /** Length of the longest run of base64url characters at `i`. */
  function Run(text: string, i: nat): nat
    decreases |text| - i
  {
    if i < |text| && InAlphabet(text[i]) then 1 + Run(text, i + 1) else 0
  }

  lemma {:induction false} RunIsInAlphabet(text: string, i: nat)
    ensures Run(text, i) > 0 ==> i + Run(text, i) <= |text|
    ensures forall k | i <= k < i + Run(text, i) :: InAlphabet(text[k])
    decreases |text| - i
  {
    if i < |text| && InAlphabet(text[i]) { RunIsInAlphabet(text, i + 1); }
  }

  /** A nonempty text over the base64url alphabet. */
  predicate Encoded(s: string) {
    s != [] && forall k | 0 <= k < |s| :: InAlphabet(s[k])
  }

  /** The pattern `\[\[COPILOT_AGENT_TASK_(V1|V2):([A-Za-z0-9_-]+)\]\]` anchored at `i`. */
  function MatchAt(text: string, i: nat): (m: Option<Match>)
    ensures m.Some? ==> m.value.start == i
  {
    if !OccursAt(text, PREFIX, i) && !OccursAt(text, LEGACY_PREFIX, i) then None
    else
      var run := Run(text, i + |PREFIX|);
      RunIsInAlphabet(text, i + |PREFIX|);
      if run > 0 && OccursAt(text, SUFFIX, i + |PREFIX| + run) then
        Some(Match(i, !OccursAt(text, PREFIX, i), text[i + |PREFIX|..i + |PREFIX| + run]))
      else None
  }

  /** `matchAll`: leftmost, non-overlapping matches from position `from`. */
  function Matches(text: string, from: nat): seq<Match>
    decreases |text| - from
  {
    if from >= |text| then []
    else if MatchAt(text, from).Some? then [MatchAt(text, from).value] + Matches(text, EndOf(MatchAt(text, from).value))
    else Matches(text, from + 1)
  }

  /** What one match means for a correlation. */
  datatype Reading = Foreign | Malformed | Recovered(marker: string, baseline: Option<Baseline>)

  function MarkerText(m: Match): string {
    (if m.legacy then LEGACY_PREFIX else PREFIX) + m.encoded + SUFFIX
  }

  predicate Names(v: Json, c: Correlation) {
    v.JArray? && |v.items| >= 3 && v.items[0] == JText(c.taskId) && v.items[1] == JText(c.turnId)
    && v.items[2] == JText(c.submissionId)
  }

  predicate CountShape(v: Json) {
    v.JNumber? && 0 <= v.n <= MAX_SAFE_INTEGER
  }

  predicate DigestShape(v: Json) {
    v.JText? && HexDigest(v.text)
  }

  function Read(codec: Codec, m: Match, c: Correlation): Reading {
    var decoded := codec.parse(Decode(m.encoded));
    if decoded.None? || !Names(decoded.value, c) then Foreign
    else
      var items := decoded.value.items;
      if m.legacy then
        if |items| == 3 || (|items| == 5 && CountShape(items[3]) && (items[4].JNull? || DigestShape(items[4])))
        then Recovered(MarkerText(m), None) else Malformed
      else if |items| == 6 && CountShape(items[4]) && DigestShape(items[5]) then
        if items[3] == JText(LEGACY_BASELINE_VERSION) then Recovered(MarkerText(m), None)
        else if items[3] == JText(BASELINE_VERSION) then
          Recovered(MarkerText(m), Some(Baseline(items[4].n, items[5].text)))
        else Malformed
      else Malformed
  }

  datatype Evidence = Absent | Ambiguous | Unique(marker: string, baseline: Option<Baseline>)

  function ReadAll(codec: Codec, matches: seq<Match>, c: Correlation): (readings: seq<Reading>)
    ensures |readings| == |matches|
    ensures forall i | 0 <= i < |matches| :: readings[i] == Read(codec, matches[i], c)
  {
    seq(|matches|, i requires 0 <= i < |matches| => Read(codec, matches[i], c))
  }

  /** Every marker reading on the page, message by message. */
  function PageReadings(codec: Codec, messages: seq<string>, c: Correlation): seq<Reading> {
    if messages == [] then []
    else PageReadings(codec, messages[..|messages| - 1], c) + ReadAll(codec, Matches(messages[|messages| - 1], 0), c)
  }

  function OnlyRecovered(rs: seq<Reading>): seq<Reading> {
    if rs == [] then []
    else OnlyRecovered(rs[..|rs| - 1]) + if rs[|rs| - 1].Recovered? then [rs[|rs| - 1]] else []
  }

  function Judge(rs: seq<Reading>): Evidence {
    var recovered := OnlyRecovered(rs);
    if Reading.Malformed in rs then Ambiguous
    else if recovered == [] then Absent
    else if |recovered| != 1 || !recovered[0].Recovered? then Ambiguous
    else Unique(recovered[0].marker, recovered[0].baseline)
  }

  function EvidenceOf(codec: Codec, messages: seq<string>, c: Correlation): Evidence {
    Judge(PageReadings(codec, messages, c))
  }

  /** What the adapter uses of this component: printing a marker, and judging the messages of a page. */
  datatype Scanner = Scanner(
    evidence: (seq<string>, Correlation) -> Evidence,
    marker: (Correlation, Option<Baseline>) -> string)

  function ScannerOf(codec: Codec): Scanner {
    Scanner((messages, c) => EvidenceOf(codec, messages, c), (c, b) => CreateTaskMarker(codec, c, b))
  }

  lemma AppendReading(all: seq<Reading>, r: Reading)
    ensures OnlyRecovered(all + [r]) == OnlyRecovered(all) + if r.Recovered? then [r] else []
    ensures Reading.Malformed in all + [r] <==> Reading.Malformed in all || r.Malformed?
  {
    assert (all + [r])[..|all|] == all;
  }

  /** The inner loop of `taskMarkerEvidence`, over the readings of one message. */
  method Collect(readings: seq<Reading>, recovered0: seq<Reading>, invalid0: bool, ghost before: seq<Reading>)
    returns (recovered: seq<Reading>, invalid: bool)
    requires recovered0 == OnlyRecovered(before) && (invalid0 <==> Reading.Malformed in before)
    ensures recovered == OnlyRecovered(before + readings) && (invalid <==> Reading.Malformed in before + readings)
  {
    recovered, invalid := recovered0, invalid0;
    assert before + readings[..0] == before;
    for k := 0 to |readings|
      invariant recovered == OnlyRecovered(before + readings[..k])
      invariant invalid <==> Reading.Malformed in before + readings[..k]
    {
      var reading := readings[k];
      assert before + readings[..k + 1] == (before + readings[..k]) + [reading];
      AppendReading(before + readings[..k], reading);
      if reading.Malformed? { invalid := true; }
      if reading.Recovered? { recovered := recovered + [reading]; }
    }
    assert readings[..|readings|] == readings;
  }

  /** `taskMarkerEvidence`: nested loops over messages and matches, pushing recovered markers to a list. */
  method TaskMarkerEvidence(codec: Codec, messages: seq<string>, c: Correlation) returns (evidence: Evidence)
    ensures evidence == EvidenceOf(codec, messages, c)
  {
    var recovered: seq<Reading> := [];
    var invalid := false;
    for i := 0 to |messages|
      invariant recovered == OnlyRecovered(PageReadings(codec, messages[..i], c))
      invariant invalid <==> Reading.Malformed in PageReadings(codec, messages[..i], c)
    {
      var readings := ReadAll(codec, Matches(messages[i], 0), c);
      recovered, invalid := Collect(readings, recovered, invalid, PageReadings(codec, messages[..i], c));
      assert messages[..i + 1][..i] == messages[..i];
    }
    assert messages[..|messages|] == messages;
    OnlyRecoveredIsRecovered(PageReadings(codec, messages, c));
    if invalid { return Ambiguous; }
    if |recovered| == 0 { return Absent; }
    if |recovered| != 1 { return Ambiguous; }
    return Unique(recovered[0].marker, recovered[0].baseline);
  }

  lemma {:induction false} OnlyRecoveredIsRecovered(rs: seq<Reading>)
    ensures forall r | r in OnlyRecovered(rs) :: r.Recovered? && r in rs
  {
    if rs != [] { OnlyRecoveredIsRecovered(rs[..|rs| - 1]); }
  }

  // ----- What one marker means -----

  /** The decoded array of a marker that names the correlation. */
  ghost predicate Decodes(codec: Codec, m: Match, c: Correlation, items: seq<Json>) {
    && codec.parse(Decode(m.encoded)) == Some(JArray(items)) && |items| >= 3
    && items[0] == JText(c.taskId) && items[1] == JText(c.turnId) && items[2] == JText(c.submissionId)
  }

  /** A historical V1 array: the correlation alone, or with a response count and an optional response digest. */
  ghost predicate LegacyShape(items: seq<Json>) {
    || |items| == 3
    || (|items| == 5 && (exists n: nat :: n <= MAX_SAFE_INTEGER && items[3] == JNumber(n))
        && (items[4] == JNull || exists d: string :: HexDigest(d) && items[4] == JText(d)))
  }

  /** A V2 array: the correlation, a baseline version, a response count and a sequence digest. */
  ghost predicate BaselineShape(items: seq<Json>, version: string, b: Baseline) {
    && |items| == 6 && items[3] == JText(version) && ValidBaseline(b)
    && items[4] == JNumber(b.count) && items[5] == JText(b.sequenceSha256)
  }

  /**
   What a marker-shaped text says of a correlation, as conditions on its decoded array: foreign exactly if it does
   not decode to an array that names the correlation; a usable baseline exactly for the current V2 array; recovered
   without one exactly for both historical shapes; and malformed in every other case.
   */
  lemma {:induction false} ReadExactly(codec: Codec, m: Match, c: Correlation, items: seq<Json>, b: Baseline)
    ensures Read(codec, m, c) == Foreign <==> !exists xs: seq<Json> :: Decodes(codec, m, c, xs)
    ensures Decodes(codec, m, c, items) ==>
              (Read(codec, m, c) == Recovered(MarkerText(m), Some(b)) <==>
                 !m.legacy && BaselineShape(items, "response-sequence/v2", b))
    ensures Decodes(codec, m, c, items) ==>
              (Read(codec, m, c) == Recovered(MarkerText(m), None) <==>
                 if m.legacy then LegacyShape(items)
                 else exists x: Baseline :: BaselineShape(items, "response-sequence/v1", x))
    ensures Read(codec, m, c).Recovered? ==> Read(codec, m, c).marker == MarkerText(m)
  {
    VersionsDiffer();
    var decoded := codec.parse(Decode(m.encoded));
    if Read(codec, m, c) != Foreign { assert Decodes(codec, m, c, decoded.value.items); }
    if Decodes(codec, m, c, items) {
      assert decoded == Some(JArray(items)) && Names(decoded.value, c);
      if |items| == 6 && CountShape(items[4]) && DigestShape(items[5]) {
        var x := Baseline(items[4].n, items[5].text);
        if items[3] == JText(LEGACY_BASELINE_VERSION) { assert BaselineShape(items, LEGACY_BASELINE_VERSION, x); }
      }
    }
  }

  // ----- Print/scan round trip -----

  /** Neither prefix holds a line break, and both have the same length. */
  lemma PrefixFacts(k: nat)
    requires k < |PREFIX|
    ensures |LEGACY_PREFIX| == |PREFIX| == 24 && PREFIX[k] != '\n' && LEGACY_PREFIX[k] != '\n'
    ensures PREFIX[0] == '[' && LEGACY_PREFIX[0] == '['
  {
  }

  /** A match never spans a line break. */
  lemma MatchHasNoLineBreak(text: string, i: nat, k: nat)
    requires MatchAt(text, i).Some? && i <= k < EndOf(MatchAt(text, i).value)
    ensures EndOf(MatchAt(text, i).value) <= |text| && text[k] != '\n'
  {
    var m := MatchAt(text, i).value;
    RunIsInAlphabet(text, i + |PREFIX|);
    var p := if m.legacy then LEGACY_PREFIX else PREFIX;
    assert OccursAt(text, p, i);
    if k < i + |PREFIX| {
      PrefixFacts(k - i);
      assert text[k] == text[i..i + |p|][k - i];
    } else if k >= i + |PREFIX| + |m.encoded| {
      var at := i + |PREFIX| + |m.encoded|;
      assert text[k] == text[at..at + |SUFFIX|][k - at];
    }
  }

  lemma {:induction false} SkipToMatch(text: string, from: nat, until: nat)
    requires from <= until <= |text| && forall i | from <= i < until :: MatchAt(text, i).None?
    ensures Matches(text, from) == Matches(text, until)
    decreases until - from
  {
    if from < until { SkipToMatch(text, from + 1, until); }
  }

  /** No match begins in validated content or in the blank line after it. */
  lemma NoMatchBeforeMarker(content: string, max: nat, marker: string, i: nat)
    requires ValidContent(content, max) && i < |content| + 2
    ensures MatchAt(content + "\n\n" + marker, i).None?
  {
    var text := content + "\n\n" + marker;
    var c := |content|;
    assert text[c] == '\n' && text[c + 1] == '\n';
    if MatchAt(text, i).Some? {
      var m := MatchAt(text, i).value;
      var p := if m.legacy then LEGACY_PREFIX else PREFIX;
      assert OccursAt(text, p, i);
      if EndOf(m) > c {
        MatchHasNoLineBreak(text, i, if i <= c then c else c + 1);
        assert false;
      }
      MatchHasNoLineBreak(text, i, i);
      PrefixFacts(0);
      assert content[i..i + |p|] == text[i..i + |p|];
      assert OccursAt(content, p, i);
      assert Includes(content, p);
    }
  }

  lemma {:induction false} RunOfEncoded(text: string, i: nat, encoded: string)
    requires i + |encoded| < |text| && text[i..i + |encoded|] == encoded && !InAlphabet(text[i + |encoded|])
    requires forall k | 0 <= k < |encoded| :: InAlphabet(encoded[k])
    ensures Run(text, i) == |encoded|
    decreases |encoded|
  {
    if encoded != [] {
      assert text[i] == encoded[0];
      assert text[i + 1..i + |encoded|] == encoded[1..];
      RunOfEncoded(text, i + 1, encoded[1..]);
    }
  }

  lemma PrefixesDiffer()
    ensures LEGACY_PREFIX != PREFIX
  {
    assert LEGACY_PREFIX[22] != PREFIX[22];
  }

  /** A marker is matched where it starts, to its very end. */
  lemma MarkerMatches(before: string, legacy: bool, encoded: string)
    requires Encoded(encoded)
    ensures var m := Match(|before|, legacy, encoded); MatchAt(before + MarkerText(m), |before|) == Some(m)
  {
    var marker := MarkerText(Match(|before|, legacy, encoded));
    assert (before + marker)[|before|..|before| + |marker|] == marker;
    MarkerIsMatch(before + marker, |before|, legacy, encoded);
  }

  function FullContent(content: string, marker: string): string {
    content + "\n\n" + marker
  }

  /** Validated content followed by any marker, historical or not, holds exactly that one marker-shaped text. */
  lemma {:induction false} OneMatchAfterContent(content: string, max: nat, legacy: bool, encoded: string)
    requires ValidContent(content, max)
    requires Encoded(encoded)
    ensures var m := Match(|content| + 2, legacy, encoded);
            Matches(FullContent(content, MarkerText(m)), 0) == [m]
  {
    var m := Match(|content| + 2, legacy, encoded);
    var text := FullContent(content, MarkerText(m));
    forall i | 0 <= i < |content| + 2 ensures MatchAt(text, i).None? {
      NoMatchBeforeMarker(content, max, MarkerText(m), i);
    }
    SkipToMatch(text, 0, |content| + 2);
    MarkerMatches(content + "\n\n", legacy, encoded);
    PrefixFacts(0);
    assert EndOf(m) == |text| && Matches(text, EndOf(m)) == [];
  }

  /** A submitted message holds exactly one marker-shaped text: its own marker. */
  lemma {:induction false} OneMatchPerMessage(codec: Codec, content: string, max: nat, c: Correlation,
      b: Option<Baseline>)
    requires Lawful(codec) && ValidContent(content, max) && ValidCorrelation(c) && (b.Some? ==> ValidBaseline(b.value))
    ensures Matches(FullContent(content, CreateTaskMarker(codec, c, b)), 0)
            == [Match(|content| + 2, false, Encode(codec.stringify(Payload(c, b))))]
  {
    PayloadIsPlain(c, b);
    OneMatchAfterContent(content, max, false, Encode(codec.stringify(Payload(c, b))));
  }

  lemma PayloadIsPlain(c: Correlation, b: Option<Baseline>)
    requires ValidCorrelation(c) && (b.Some? ==> ValidBaseline(b.value))
    ensures forall x | x in Payload(c, b).items :: Plain(x)
  {
    assert Ascii(c.taskId) && Ascii(c.turnId) && Ascii(c.submissionId) && Ascii(BASELINE_VERSION);
    if b.Some? { assert Ascii(b.value.sequenceSha256); }
  }

  /** Scanning the message that was submitted recovers its own marker and the very baseline it was made with. */
  lemma {:induction false} MarkerRoundTrip(codec: Codec, content: string, max: nat, c: Correlation, b: Baseline)
    requires Lawful(codec) && ValidContent(content, max) && ValidCorrelation(c) && ValidBaseline(b)
    ensures var marker := CreateTaskMarker(codec, c, Some(b));
            ReadAll(codec, Matches(FullContent(content, marker), 0), c) == [Recovered(marker, Some(b))]
  {
    OneMatchPerMessage(codec, content, max, c, Some(b));
    PayloadIsPlain(c, Some(b));
    DecodeEncode(codec.stringify(Payload(c, Some(b))));
    VersionsDiffer();
  }

  lemma VersionsDiffer()
    ensures LEGACY_BASELINE_VERSION != BASELINE_VERSION
  {
    assert LEGACY_BASELINE_VERSION[19] != BASELINE_VERSION[19];
  }

  /** Submitted for one correlation, a message says nothing about any other. */
  lemma {:induction false} MarkerForeignToOthers(codec: Codec, content: string, max: nat, c: Correlation,
      b: Baseline, other: Correlation)
    requires Lawful(codec) && ValidContent(content, max) && ValidCorrelation(c) && ValidBaseline(b) && other != c
    ensures ReadAll(codec, Matches(FullContent(content, CreateTaskMarker(codec, c, Some(b))), 0), other) == [Foreign]
  {
    OneMatchPerMessage(codec, content, max, c, Some(b));
    PayloadIsPlain(c, Some(b));
    DecodeEncode(codec.stringify(Payload(c, Some(b))));
  }

  /** A marker made without a baseline is never sent; on a page it would make the evidence ambiguous. */
  lemma BaselineFreeMarkerIsMalformed(codec: Codec, content: string, max: nat, c: Correlation)
    requires Lawful(codec) && ValidContent(content, max) && ValidCorrelation(c)
    ensures ReadAll(codec, Matches(FullContent(content, CreateTaskMarker(codec, c, None)), 0), c) == [Malformed]
  {
    OneMatchPerMessage(codec, content, max, c, None);
    PayloadIsPlain(c, None);
    DecodeEncode(codec.stringify(Payload(c, None)));
  }

  // ----- Verdict over a whole page -----

  lemma {:induction false} OnlyRecoveredSplits(a: seq<Reading>, b: seq<Reading>)
    ensures OnlyRecovered(a + b) == OnlyRecovered(a) + OnlyRecovered(b)
  {
    if b == [] {
      assert a + b == a;
    } else {
      OnlyRecoveredSplits(a, b[..|b| - 1]);
      assert (a + b)[..|a + b| - 1] == a + b[..|b| - 1];
    }
  }

  lemma {:induction false} PageSplits(codec: Codec, front: seq<string>, back: seq<string>, c: Correlation)
    ensures PageReadings(codec, front + back, c) == PageReadings(codec, front, c) + PageReadings(codec, back, c)
  {
    if back == [] {
      assert front + back == front;
    } else {
      PageSplits(codec, front, back[..|back| - 1], c);
      assert (front + back)[..|front + back| - 1] == front + back[..|back| - 1];
    }
  }

  lemma {:induction false} ForeignReadings(rs: seq<Reading>)
    requires forall r | r in rs :: r.Foreign?
    ensures OnlyRecovered(rs) == [] && Reading.Malformed !in rs
  {
    if rs != [] {
      assert rs[|rs| - 1].Foreign?;
      ForeignReadings(rs[..|rs| - 1]);
    }
  }

  lemma PageAround(codec: Codec, front: seq<string>, message: string, back: seq<string>, c: Correlation)
    ensures PageReadings(codec, front + [message] + back, c)
            == PageReadings(codec, front, c) + ReadAll(codec, Matches(message, 0), c) + PageReadings(codec, back, c)
  {
    PageSplits(codec, front + [message], back, c);
    PageSplits(codec, front, [message], c);
    assert [message][..0] == [];
  }

  lemma LoneAmongForeign(f: seq<Reading>, r: Reading, k: seq<Reading>)
    requires r.Recovered? && forall x | x in f + k :: x.Foreign?
    ensures Judge(f + [r] + k) == Unique(r.marker, r.baseline)
  {
    ForeignReadings(f);
    ForeignReadings(k);
    OnlyRecoveredSplits(f + [r], k);
    OnlyRecoveredSplits(f, [r]);
    assert [r][..0] == [];
  }

  /** A page that shows the submitted message once, among messages foreign to it, identifies it uniquely. */
  lemma {:induction false} SubmittedMessageIsUnique(codec: Codec, front: seq<string>, content: string,
      max: nat, back: seq<string>, c: Correlation, b: Baseline)
    requires Lawful(codec) && ValidContent(content, max) && ValidCorrelation(c) && ValidBaseline(b)
    requires forall r | r in PageReadings(codec, front, c) + PageReadings(codec, back, c) :: r.Foreign?
    ensures var marker := CreateTaskMarker(codec, c, Some(b));
            EvidenceOf(codec, front + [FullContent(content, marker)] + back, c) == Unique(marker, Some(b))
  {
    var marker := CreateTaskMarker(codec, c, Some(b));
    MarkerRoundTrip(codec, content, max, c, b);
    PageAround(codec, front, FullContent(content, marker), back, c);
    LoneAmongForeign(PageReadings(codec, front, c), Recovered(marker, Some(b)), PageReadings(codec, back, c));
  }

  // ----- Every marker on the page is read -----

  lemma {:induction false} MatchIsMarker(text: string, i: nat, legacy: bool, encoded: string)
    requires MatchAt(text, i) == Some(Match(i, legacy, encoded))
    ensures Encoded(encoded) && OccursAt(text, MarkerText(Match(i, legacy, encoded)), i)
  {
    var p := if legacy then LEGACY_PREFIX else PREFIX;
    var at := i + |PREFIX|;
    PrefixFacts(0);
    RunIsInAlphabet(text, at);
    assert text[i..at] == p;
    assert text[at..at + |encoded|] == encoded;
    assert text[i..at + |encoded| + |SUFFIX|] == p + encoded + SUFFIX;
  }

  lemma SliceOfSlice(text: string, i: nat, j: nat, a: nat, b: nat)
    requires i <= j <= |text| && a <= b <= j - i
    ensures text[i..j][a..b] == text[i + a..i + b]
  {
    var (x, y) := (text[i..j][a..b], text[i + a..i + b]);
    forall k | 0 <= k < b - a ensures x[k] == y[k] { assert x[k] == text[i..j][a + k] == text[i + (a + k)]; }
    assert x == y;
  }

  /** The three parts of a marker, cut out of the text it stands in. */
  lemma MarkerParts(text: string, i: nat, p: string, encoded: string)
    requires OccursAt(text, p + encoded + SUFFIX, i)
    ensures OccursAt(text, p, i) && OccursAt(text, encoded, i + |p|) && OccursAt(text, SUFFIX, i + |p| + |encoded|)
  {
    var whole := p + encoded + SUFFIX;
    var here := text[i..i + |whole|];
    var (a, b) := (|p|, |p| + |encoded|);
    assert here == whole;
    assert whole[0..a] == p && whole[a..b] == encoded && whole[b..|whole|] == SUFFIX;
    SliceOfSlice(text, i, i + |whole|, 0, a);
    SliceOfSlice(text, i, i + |whole|, a, b);
    SliceOfSlice(text, i, i + |whole|, b, |whole|);
  }

  lemma {:induction false} MarkerIsMatch(text: string, i: nat, legacy: bool, encoded: string)
    requires Encoded(encoded) && OccursAt(text, MarkerText(Match(i, legacy, encoded)), i)
    ensures MatchAt(text, i) == Some(Match(i, legacy, encoded))
  {
    var p := if legacy then LEGACY_PREFIX else PREFIX;
    var at := i + |PREFIX|;
    PrefixFacts(0);
    PrefixesDiffer();
    MarkerParts(text, i, p, encoded);
    assert text[at + |encoded|] == text[at + |encoded|..at + |encoded| + |SUFFIX|][0] == ']';
    RunOfEncoded(text, at, encoded);
  }

  /** A match at a position is exactly a marker of one of the two versions standing there. */
  lemma {:induction false} MatchAtExactly(text: string, i: nat, legacy: bool, encoded: string)
    ensures var m := Match(i, legacy, encoded);
            MatchAt(text, i) == Some(m) <==> Encoded(encoded) && OccursAt(text, MarkerText(m), i)
  {
    var m := Match(i, legacy, encoded);
    if MatchAt(text, i) == Some(m) { MatchIsMarker(text, i, legacy, encoded); }
    if Encoded(encoded) && OccursAt(text, MarkerText(m), i) { MarkerIsMatch(text, i, legacy, encoded); }
  }

  /** Prefixes open with their only two brackets. */
  lemma PrefixBrackets(k: nat)
    requires 0 < k < |PREFIX|
    ensures |LEGACY_PREFIX| == |PREFIX|
    ensures PREFIX[k] == '[' <==> k == 1
    ensures LEGACY_PREFIX[k] == '[' <==> k == 1
    ensures |PREFIX| > 2 && PREFIX[1] == '[' && LEGACY_PREFIX[1] == '['
  {
  }

  /** No marker begins inside another one. */
  lemma {:induction false} NoMatchInside(text: string, i: nat, j: nat)
    requires MatchAt(text, i).Some? && i < j < EndOf(MatchAt(text, i).value)
    ensures MatchAt(text, j).None?
  {
    var m := MatchAt(text, i).value;
    MatchHasNoLineBreak(text, i, j);
    RunIsInAlphabet(text, i + |PREFIX|);
    var p := if m.legacy then LEGACY_PREFIX else PREFIX;
    assert text[i..i + |p|] == p;
    if MatchAt(text, j).Some? {
      var q := if MatchAt(text, j).value.legacy then LEGACY_PREFIX else PREFIX;
      assert text[j..j + |q|] == q;
      PrefixFacts(0);
      PrefixBrackets(1);
      assert text[j] == text[j..j + |q|][0] == '[' && text[j + 1] == text[j..j + |q|][1] == '[';
      InsideIsNoOpening(text, i, j);
      assert false;
    }
  }

  lemma {:induction false} InsideIsNoOpening(text: string, i: nat, j: nat)
    requires MatchAt(text, i).Some? && i < j < EndOf(MatchAt(text, i).value) <= |text|
    ensures !(text[j] == '[' && j + 1 < |text| && text[j + 1] == '[')
  {
    var m := MatchAt(text, i).value;
    var at := i + |PREFIX|;
    var p := if m.legacy then LEGACY_PREFIX else PREFIX;
    RunIsInAlphabet(text, at);
    PrefixFacts(0);
    assert text[i..i + |p|] == p;
    if j < at {
      PrefixBrackets(j - i);
      assert text[j] == text[i..i + |p|][j - i];
      if j == i + 1 {
        PrefixBrackets(2);
        assert text[j + 1] == text[i..i + |p|][2];
      }
    } else if j >= at + |m.encoded| {
      var from := at + |m.encoded|;
      assert OccursAt(text, SUFFIX, from);
      assert SUFFIX[0] == ']' && SUFFIX[1] == ']';
      assert text[j] == text[from..from + |SUFFIX|][j - from] == ']';
    } else {
      assert text[j] == m.encoded[j - at];
    }
  }

  /** The scan finds every marker in the text, each once and from left to right. */
  lemma {:induction false} MatchesAreAll(text: string, from: nat, m: Match)
    ensures m in Matches(text, from) <==> from <= m.start < |text| && MatchAt(text, m.start) == Some(m)
    ensures var all := Matches(text, from); forall i, j | 0 <= i < j < |all| :: all[i].start < all[j].start
    decreases |text| - from
  {
    if from >= |text| {
    } else if MatchAt(text, from).Some? {
      var first := MatchAt(text, from).value;
      var rest := Matches(text, EndOf(first));
      MatchesAreAll(text, EndOf(first), m);
      if from < m.start < EndOf(first) { NoMatchInside(text, from, m.start); }
      forall j | 0 <= j < |rest| ensures from < rest[j].start {
        MatchesAreAll(text, EndOf(first), rest[j]);
      }
    } else {
      MatchesAreAll(text, from + 1, m);
    }
  }

  /** A page proves nothing exactly when every marker on it is foreign, and is ambiguous exactly in the other cases. */
  lemma {:induction false} AbsentExactlyWhenForeign(rs: seq<Reading>)
    ensures Judge(rs) == Absent <==> forall r | r in rs :: r.Foreign?
    ensures Judge(rs) == Ambiguous <==>
            || Reading.Malformed in rs
            || exists i, j :: 0 <= i < j < |rs| && rs[i].Recovered? && rs[j].Recovered?
  {
    OnlyRecoveredIsRecovered(rs);
    if forall r | r in rs :: r.Foreign? { ForeignReadings(rs); }
    if i :| 0 <= i < |rs| && rs[i].Recovered? { SomeRecovered(rs, i); }
    if |OnlyRecovered(rs)| == 1 {
      var i := SingleComesFrom(rs);
    } else if |OnlyRecovered(rs)| >= 2 {
      var i, j := TwoComeFrom(rs);
    }
    if OnlyRecovered(rs) == [] { NothingRecovered(rs); }
  }

  lemma {:induction false} NothingRecovered(rs: seq<Reading>)
    requires OnlyRecovered(rs) == []
    ensures forall r | r in rs :: !r.Recovered?
  {
    if rs != [] {
      NothingRecovered(rs[..|rs| - 1]);
      assert rs == rs[..|rs| - 1] + [rs[|rs| - 1]];
    }
  }

  lemma {:induction false} TwoComeFrom(rs: seq<Reading>) returns (i: nat, j: nat)
    requires |OnlyRecovered(rs)| >= 2
    ensures i < j < |rs| && rs[i].Recovered? && rs[j].Recovered?
  {
    var n := |rs| - 1;
    if rs[n].Recovered? {
      j := n;
      i := OneComesFrom(rs[..n]);
    } else {
      i, j := TwoComeFrom(rs[..n]);
    }
  }

  lemma {:induction false} OneComesFrom(rs: seq<Reading>) returns (i: nat)
    requires OnlyRecovered(rs) != []
    ensures i < |rs| && rs[i].Recovered?
  {
    var n := |rs| - 1;
    if rs[n].Recovered? { i := n; } else { i := OneComesFrom(rs[..n]); }
  }

  // ----- Historical markers -----

  /** The markers of earlier versions: V1 with or without a response count, V2 with the first baseline version. */
  datatype Historical =
    | Bare
    | Counted(count: nat, lastSha256: Option<string>)
    | Sequenced(baseline: Baseline)

  predicate ValidHistorical(v: Historical) {
    match v
    case Bare => true
    case Counted(count, last) => count <= MAX_SAFE_INTEGER && (last.Some? ==> HexDigest(last.value))
    case Sequenced(b) => ValidBaseline(b)
  }

  function HistoricalPayload(c: Correlation, v: Historical): Json {
    var names := [JText(c.taskId), JText(c.turnId), JText(c.submissionId)];
    JArray(match v
           case Bare => names
           case Counted(count, last) =>
             names + [JNumber(count), if last.Some? then JText(last.value) else JNull]
           case Sequenced(b) =>
             names + [JText("response-sequence/v1"), JNumber(b.count), JText(b.sequenceSha256)])
  }

  /** The marker as those versions printed it. */
  function HistoricalMarker(codec: Codec, c: Correlation, v: Historical): string {
    (if v.Sequenced? then "[[COPILOT_AGENT_TASK_V2:" else "[[COPILOT_AGENT_TASK_V1:")
    + Encode(codec.stringify(HistoricalPayload(c, v))) + "]]"
  }

  lemma HistoricalIsPlain(c: Correlation, v: Historical)
    requires ValidCorrelation(c) && ValidHistorical(v)
    ensures forall x | x in HistoricalPayload(c, v).items :: Plain(x)
  {
    assert Ascii(c.taskId) && Ascii(c.turnId) && Ascii(c.submissionId) && Ascii(LEGACY_BASELINE_VERSION);
    if v.Counted? && v.lastSha256.Some? { assert Ascii(v.lastSha256.value); }
    if v.Sequenced? { assert Ascii(v.baseline.sequenceSha256); }
  }

  /** A historical marker for the correlation is read as its own, without a baseline. */
  lemma {:induction false} HistoricalIsRecovered(codec: Codec, content: string, max: nat, c: Correlation, v: Historical)
    requires Lawful(codec) && ValidContent(content, max) && ValidCorrelation(c) && ValidHistorical(v)
    ensures var marker := HistoricalMarker(codec, c, v);
            ReadAll(codec, Matches(FullContent(content, marker), 0), c) == [Recovered(marker, None)]
  {
    var payload := HistoricalPayload(c, v);
    HistoricalIsPlain(c, v);
    var m := Match(|content| + 2, !v.Sequenced?, Encode(codec.stringify(payload)));
    OneMatchAfterContent(content, max, m.legacy, m.encoded);
    DecodeEncode(codec.stringify(payload));
    assert MarkerText(m) == HistoricalMarker(codec, c, v);
    assert Decodes(codec, m, c, payload.items);
    if v.Sequenced? { assert BaselineShape(payload.items, "response-sequence/v1", v.baseline); }
    ReadExactly(codec, m, c, payload.items, Baseline(0, ""));
  }

  /** A page that shows one historical message, among messages foreign to it, proves the submission and nothing more. */
  lemma {:induction false} HistoricalMessageIsUnique(codec: Codec, front: seq<string>, content: string, max: nat,
      back: seq<string>, c: Correlation, v: Historical)
    requires Lawful(codec) && ValidContent(content, max) && ValidCorrelation(c) && ValidHistorical(v)
    requires forall r | r in PageReadings(codec, front, c) + PageReadings(codec, back, c) :: r.Foreign?
    ensures var marker := HistoricalMarker(codec, c, v);
            EvidenceOf(codec, front + [FullContent(content, marker)] + back, c) == Unique(marker, None)
  {
    var marker := HistoricalMarker(codec, c, v);
    HistoricalIsRecovered(codec, content, max, c, v);
    PageAround(codec, front, FullContent(content, marker), back, c);
    LoneAmongForeign(PageReadings(codec, front, c), Recovered(marker, None), PageReadings(codec, back, c));
  }

  /** Two copies of the submitted message are ambiguous, whatever else the page shows. */
  lemma {:induction false} TwoCopiesAreAmbiguous(codec: Codec, front: seq<string>, middle: seq<string>,
      back: seq<string>, content: string, max: nat, c: Correlation, b: Baseline)
    requires Lawful(codec) && ValidContent(content, max) && ValidCorrelation(c) && ValidBaseline(b)
    ensures var message := FullContent(content, CreateTaskMarker(codec, c, Some(b)));
            EvidenceOf(codec, front + [message] + middle + [message] + back, c) == Ambiguous
  {
    var marker := CreateTaskMarker(codec, c, Some(b));
    var message := FullContent(content, marker);
    MarkerRoundTrip(codec, content, max, c, b);
    var m := [Recovered(marker, Some(b))];
    PageAround(codec, front + [message] + middle, message, back, c);
    PageAround(codec, front, message, middle, c);
    var first := PageReadings(codec, front + [message] + middle, c);
    OnlyRecoveredSplits(first + m, PageReadings(codec, back, c));
    OnlyRecoveredSplits(first, m);
    OnlyRecoveredSplits(PageReadings(codec, front, c) + m, PageReadings(codec, middle, c));
    OnlyRecoveredSplits(PageReadings(codec, front, c), m);
    assert m[..0] == [];
  }

  /** One malformed marker for this correlation, in any message, makes the page ambiguous. */
  lemma MalformedCopyIsAmbiguous(codec: Codec, front: seq<string>, message: string, back: seq<string>, c: Correlation)
    requires Malformed in ReadAll(codec, Matches(message, 0), c)
    ensures EvidenceOf(codec, front + [message] + back, c) == Ambiguous
  {
    PageAround(codec, front, message, back, c);
  }

  /** Unique evidence means exactly one recovered marker and no malformed one, wherever they stand. */
  lemma UniqueExactlyWhenOneRecovered(rs: seq<Reading>, marker: string, baseline: Option<Baseline>)
    ensures Judge(rs) == Unique(marker, baseline) <==>
            Reading.Malformed !in rs
            && exists i :: 0 <= i < |rs| && rs[i] == Recovered(marker, baseline) && LoneRecovered(rs, i)
  {
    if exists i :: 0 <= i < |rs| && rs[i] == Recovered(marker, baseline) && LoneRecovered(rs, i) {
      var i :| 0 <= i < |rs| && rs[i] == Recovered(marker, baseline) && LoneRecovered(rs, i);
      LoneIsOnly(rs, i);
    }
    if Judge(rs) == Unique(marker, baseline) {
      var i := SingleComesFrom(rs);
    }
  }

  predicate LoneRecovered(rs: seq<Reading>, i: nat)
    requires i < |rs|
  {
    rs[i].Recovered? && forall j | 0 <= j < |rs| && j != i :: !rs[j].Recovered?
  }

  lemma {:induction false} LoneIsOnly(rs: seq<Reading>, i: nat)
    requires i < |rs| && LoneRecovered(rs, i)
    ensures OnlyRecovered(rs) == [rs[i]]
  {
    var (front, back) := (rs[..i], rs[i + 1..]);
    NoneRecovered(front);
    NoneRecovered(back);
    assert rs == front + [rs[i]] + back;
    OnlyRecoveredSplits(front + [rs[i]], back);
    OnlyRecoveredSplits(front, [rs[i]]);
    assert [rs[i]][..0] == [];
  }

  lemma {:induction false} NoneRecovered(rs: seq<Reading>)
    requires forall r | r in rs :: !r.Recovered?
    ensures OnlyRecovered(rs) == []
  {
    if rs != [] { NoneRecovered(rs[..|rs| - 1]); }
  }

  lemma {:induction false} SingleComesFrom(rs: seq<Reading>) returns (i: nat)
    requires |OnlyRecovered(rs)| == 1
    ensures i < |rs| && rs[i] == OnlyRecovered(rs)[0] && LoneRecovered(rs, i)
  {
    var n := |rs| - 1;
    if rs[n].Recovered? {
      i := n;
      if exists j :: 0 <= j < n && rs[j].Recovered? {
        var j :| 0 <= j < n && rs[j].Recovered?;
        SomeRecovered(rs[..n], j);
      }
    } else {
      i := SingleComesFrom(rs[..n]);
      assert forall j | 0 <= j < n :: rs[..n][j] == rs[j];
    }
  }

  lemma {:induction false} SomeRecovered(rs: seq<Reading>, j: nat)
    requires j < |rs| && rs[j].Recovered?
    ensures OnlyRecovered(rs) != []
  {
    if j < |rs| - 1 { SomeRecovered(rs[..|rs| - 1], j); }
  }
}
