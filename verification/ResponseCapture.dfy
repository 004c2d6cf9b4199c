/**
 From what the page shows of one response to what the orchestrator is willing to execute.

 `Normalize` decides whether the response owns exactly one well-formed protocol widget; `Sanitize` is the
 evidence filter applied before a parse; `ParseModelTurn` is the gate in front of the protocol parser. The
 envelope extractor, the JSON parser, the UTF-8 length and the protocol parser are supplied as a `Host`.
 */
module ResponseCapture {
  import opened Basics
  import opened Text

  const MAX_SAFE_INTEGER := 9007199254740991
  const DEFAULT_MAX_PROTOCOL_INPUT_BYTES := 1048576
  const CAPTURE_CONTRACT := "response-capture/v2"

  datatype Status =
    | RenderedText
    | ProtocolReconstructed
    | ModelProtocolMalformed
    | WidgetIncomplete
    | WidgetAmbiguous
    | WidgetCaptureFailed
    | UnsupportedCaptureContract

  datatype BannerContract = Supported | UnsupportedVersion | AmbiguousProtocolLabels

  datatype Banner = Banner(contract: BannerContract, tokenCount: nat, matchesBaseline: bool, variant: string)

  datatype Block = Block(
    version: string, banner: Banner, code: string, editorCount: nat, bannerCount: nat, lineCount: nat,
    lineIndicesValid: bool, contentBytes: nat, contentBoundExceeded: bool)

  datatype Capture = Capture(
    renderedText: string, codeBlockCount: nat, editorCount: nat, bannerCount: nat,
    unownedProtocolFenceCount: nat, legacyProtocolBlocks: seq<string>, protocolBlocks: seq<Block>)

  datatype Evidence = Evidence(
    status: Status, protocolVersion: Option<string>, reasonCode: Option<string>, protocolErrorCode: Option<string>,
    codeBlockCount: nat, protocolBlockCount: nat, editorCount: nat, bannerCount: nat,
    lineCount: nat, contentBytes: nat, banner: Option<Banner>)

  datatype Normalized = Normalized(text: string, correlationText: string, evidence: Evidence)

  datatype Json = JsonObject(fields: map<string, Json>) | JsonText(text: string) | JsonOther

  /** The foreign functions this component calls. */
  datatype Host = Host(
    byteLength: string -> nat,
    extract: (string, string) -> Option<string>,
    parseJson: string -> Option<Json>,
    isGenericFallback: string -> bool,
    parseMessage: string -> Option<string>)

  function Fence(version: string, code: string): string {
    "```" + version + "\n" + code + "\n```"
  }

  predicate BodyMatchesDialect(value: Json, version: string) {
    match value
    case JsonObject(o) =>
      if version == "cba/1" then "protocol" in o && o["protocol"] == JsonText("cba/1")
      else
        version == "cba-agent/1" && "kind" in o &&
        (o["kind"] == JsonText("agent_intent") || o["kind"] == JsonText("agent_answer")
         || o["kind"] == JsonText("agent_blocked") || o["kind"] == JsonText("agent_progress"))
    case _ => false
  }

  function JoinLegacy(blocks: seq<string>): string {
    if blocks == [] then ""
    else if |blocks| == 1 then Fence("cba/1", blocks[0])
    else Fence("cba/1", blocks[0]) + "\n\n" + JoinLegacy(blocks[1..])
  }

  /** `v018ResponseCorrelationText`. */
  function CorrelationText(c: Capture): string {
    if |c.legacyProtocolBlocks| > 0 then JoinLegacy(c.legacyProtocolBlocks) else c.renderedText
  }

  /** Evidence that leaves the rendered text in place. */
  function Keep(h: Host, c: Capture, status: Status, block: Option<Block>, reason: Option<string>,
      error: Option<string>): Normalized {
    Normalized(c.renderedText, CorrelationText(c), Evidence(
      status, if block.Some? then Some(block.value.version) else None, reason, error,
      c.codeBlockCount, |c.protocolBlocks|, c.editorCount, c.bannerCount,
      if block.Some? then block.value.lineCount else 0,
      if block.Some? then block.value.contentBytes else h.byteLength(c.renderedText),
      if block.Some? then Some(block.value.banner)
      else if |c.protocolBlocks| > 0 then Some(c.protocolBlocks[0].banner) else None))
  }

  function FirstBlock(c: Capture): Option<Block> {
    if |c.protocolBlocks| > 0 then Some(c.protocolBlocks[0]) else None
  }

  /** `modelProtocolMalformed`; without a block of its own it reports the first one. */
  function Malformed(h: Host, c: Capture, error: string, reason: string): Normalized {
    Keep(h, c, ModelProtocolMalformed, FirstBlock(c), Some(reason), Some(error))
  }

  function Find(blocks: seq<Block>, p: Block -> bool): (found: Option<Block>)
    ensures found.None? <==> forall b | b in blocks :: !p(b)
    ensures found.Some? ==> found.value in blocks && p(found.value)
  {
    if blocks == [] then None else if p(blocks[0]) then Some(blocks[0]) else Find(blocks[1..], p)
  }

  predicate Incomplete(b: Block) {
    b.editorCount == 0 || b.lineCount == 0
  }

  predicate Unsafe(h: Host, b: Block) {
    b.editorCount != 1 || !b.lineIndicesValid || b.contentBoundExceeded
    || b.contentBytes > DEFAULT_MAX_PROTOCOL_INPUT_BYTES || h.byteLength(b.code) != b.contentBytes
  }

  function UnsafeReason(b: Block): string {
    if b.editorCount != 1 then "PROTOCOL_WIDGET_EDITOR_COUNT"
    else if !b.lineIndicesValid then "PROTOCOL_WIDGET_LINE_INDEX_INVALID"
    else if b.contentBoundExceeded || b.contentBytes > DEFAULT_MAX_PROTOCOL_INPUT_BYTES then
      "PROTOCOL_WIDGET_CONTENT_BOUND"
    else "PROTOCOL_WIDGET_BYTE_COUNT_MISMATCH"
  }

  /** `normalizeResponseCapture`. */
  function Normalize(h: Host, c: Capture): (n: Normalized)
    ensures n.correlationText == CorrelationText(c)
  {
    var ambiguousLabel := Find(c.protocolBlocks, (b: Block) => b.banner.contract == AmbiguousProtocolLabels);
    var incomplete := Find(c.protocolBlocks, (b: Block) => Incomplete(b));
    var ambiguousBanner := Find(c.protocolBlocks, (b: Block) => b.bannerCount != 1);
    var unsafeBlock := Find(c.protocolBlocks, (b: Block) => Unsafe(h, b));
    if c.unownedProtocolFenceCount > 0 then Malformed(h, c, "MISSING_ENVELOPE", "MODEL_PROTOCOL_UNOWNED_FENCE")
    else if |c.protocolBlocks| == 0 then
      if c.bannerCount > 0 then Keep(h, c, UnsupportedCaptureContract, None, Some("PROTOCOL_WIDGET_NOT_OWNED"), None)
      else Keep(h, c, RenderedText, None, None, None)
    else if ambiguousLabel.Some? then
      Keep(h, c, WidgetAmbiguous, ambiguousLabel, Some("PROTOCOL_WIDGET_BANNER_LABEL_AMBIGUOUS"), None)
    else if incomplete.Some? then
      Keep(h, c, WidgetIncomplete, incomplete,
           Some(if incomplete.value.editorCount == 0 then "PROTOCOL_WIDGET_EDITOR_PENDING"
                else "PROTOCOL_WIDGET_LINES_PENDING"), None)
    else if ambiguousBanner.Some? then
      Keep(h, c, WidgetAmbiguous, ambiguousBanner, Some("PROTOCOL_WIDGET_BANNER_COUNT"), None)
    else if unsafeBlock.Some? then
      Keep(h, c, WidgetAmbiguous, unsafeBlock, Some(UnsafeReason(unsafeBlock.value)), None)
    else if |c.protocolBlocks| != 1 then
      Malformed(h, c, "MULTIPLE_ENVELOPES", "MODEL_PROTOCOL_MULTIPLE_ENVELOPES")
    else NormalizeSingle(h, c)
  }

  /** The tail of `normalizeResponseCapture`, once exactly one structurally sound block is left. */
  function NormalizeSingle(h: Host, c: Capture): (n: Normalized)
    requires |c.protocolBlocks| == 1
    ensures n.correlationText == CorrelationText(c)
  {
    var b := c.protocolBlocks[0];
    var text := Fence(b.version, b.code);
    if b.banner.contract == UnsupportedVersion then
      Malformed(h, c, "UNSUPPORTED_VERSION", "MODEL_PROTOCOL_UNSUPPORTED_VERSION")
    else if b.contentBytes == 0 then Malformed(h, c, "EMPTY_ENVELOPE", "MODEL_PROTOCOL_EMPTY_ENVELOPE")
    else if h.extract(text, b.version) != Some(b.code) then
      Keep(h, c, WidgetAmbiguous, Some(b), Some("PROTOCOL_WIDGET_HOST_VERIFICATION_FAILED"), None)
    else if h.parseJson(b.code).None? then Malformed(h, c, "INVALID_JSON", "MODEL_PROTOCOL_INVALID_JSON")
    else if !BodyMatchesDialect(h.parseJson(b.code).value, b.version) then
      Malformed(h, c, "SCHEMA_INVALID", "MODEL_PROTOCOL_DIALECT_MISMATCH")
    else
      Keep(h, c, ProtocolReconstructed, Some(b), None, None).(text := text)
  }

  /** The response owns one protocol widget whose bytes are the complete envelope of a supported dialect. */
  predicate Owned(h: Host, c: Capture) {
    c.unownedProtocolFenceCount == 0 && |c.protocolBlocks| == 1 &&
    var b := c.protocolBlocks[0];
    && b.banner.contract == Supported && b.bannerCount == 1 && b.editorCount == 1
    && b.lineCount > 0 && b.lineIndicesValid
    && !b.contentBoundExceeded && 0 < b.contentBytes <= DEFAULT_MAX_PROTOCOL_INPUT_BYTES
    && h.byteLength(b.code) == b.contentBytes
    && h.extract(Fence(b.version, b.code), b.version) == Some(b.code)
    && h.parseJson(b.code).Some? && BodyMatchesDialect(h.parseJson(b.code).value, b.version)
  }

  /** The structural tests that precede the tail pass exactly for one complete, unambiguous, bounded block. */
  lemma TailReachedExactlyWhenSound(h: Host, c: Capture)
    requires |c.protocolBlocks| == 1
    ensures var b := c.protocolBlocks[0];
            c.unownedProtocolFenceCount == 0 && b.banner.contract != AmbiguousProtocolLabels
            && !Incomplete(b) && b.bannerCount == 1 && !Unsafe(h, b)
            ==> Normalize(h, c) == NormalizeSingle(h, c)
    ensures var b := c.protocolBlocks[0];
            !(c.unownedProtocolFenceCount == 0 && b.banner.contract != AmbiguousProtocolLabels
              && !Incomplete(b) && b.bannerCount == 1 && !Unsafe(h, b))
            ==> Normalize(h, c).text == c.renderedText && Normalize(h, c).evidence.status != ProtocolReconstructed
  {
    assert c.protocolBlocks[0] in c.protocolBlocks;
  }

  /** Reconstruction happens exactly for owned captures; every other outcome leaves the rendered text. */
  lemma {:induction false} ReconstructedExactlyWhenOwned(h: Host, c: Capture)
    ensures Normalize(h, c).evidence.status == ProtocolReconstructed <==> Owned(h, c)
    ensures Normalize(h, c).text ==
            if Owned(h, c) then Fence(c.protocolBlocks[0].version, c.protocolBlocks[0].code) else c.renderedText
  {
    if |c.protocolBlocks| == 1 {
      TailReachedExactlyWhenSound(h, c);
    }
  }

  /** The identity used for correlation depends on the response alone, never on the capture's outcome. */
  lemma CorrelationTextIgnoresOutcome(h: Host, g: Host, c: Capture, d: Capture)
    requires c.renderedText == d.renderedText && c.legacyProtocolBlocks == d.legacyProtocolBlocks
    ensures Normalize(h, c).correlationText == Normalize(g, d).correlationText
  {
  }

  // ----- Evidence as the loosely typed record that crosses the transport boundary -----

  datatype Value = Str(text: string) | Num(number: int) | Flag(flag: bool) | Foreign

  /** Field names; any name the sanitizer does not know is `OtherKey`. */
  datatype Key =
    | ContractVersionKey | StatusKey | ProtocolVersionKey | ReasonCodeKey | ProtocolErrorCodeKey
    | CodeBlockCountKey | ProtocolBlockCountKey | EditorCountKey | BannerCountKey | LineCountKey | ContentBytesKey
    | BannerContractKey | BannerTokenCountKey | BannerMatchesBaselineKey | BannerVariantKey
    | OtherKey(name: string)

  type Record = map<Key, Value>

  function StatusText(s: Status): string {
    match s
    case RenderedText => "rendered_text"
    case ProtocolReconstructed => "protocol_reconstructed"
    case ModelProtocolMalformed => "model_protocol_malformed"
    case WidgetIncomplete => "protocol_widget_incomplete"
    case WidgetAmbiguous => "protocol_widget_ambiguous"
    case WidgetCaptureFailed => "protocol_widget_capture_failed"
    case UnsupportedCaptureContract => "unsupported_capture_contract"
  }

  predicate KnownStatus(s: string) {
    exists status: Status :: StatusText(status) == s
  }

  /** No two statuses share a word; their lengths already differ. */
  lemma StatusWordsDiffer(s: Status, t: Status)
    ensures StatusText(s) == StatusText(t) ==> s == t
  {
    assert |StatusText(s)| == |StatusText(t)| ==> s == t;
  }

  predicate KnownErrorCode(s: string) {
    s in {"MISSING_ENVELOPE", "MULTIPLE_ENVELOPES", "UNSUPPORTED_VERSION", "EMPTY_ENVELOPE", "INVALID_JSON",
          "SCHEMA_INVALID"}
  }

  predicate Upper(c: char) { 'A' <= c <= 'Z' }
  predicate Digit(c: char) { '0' <= c <= '9' }
  predicate LowerHex(c: char) { Digit(c) || 'a' <= c <= 'f' }

  predicate CodeShaped(s: string) {
    1 <= |s| <= 64 && Upper(s[0]) && forall i | 0 <= i < |s| :: Upper(s[i]) || Digit(s[i]) || s[i] == '_'
  }

  predicate VersionTail(s: string) {
    1 <= |s| <= 32 && forall i | 0 <= i < |s| ::
      Upper(s[i]) || 'a' <= s[i] <= 'z' || Digit(s[i]) || s[i] == '.' || s[i] == '_' || s[i] == '-'
  }

  predicate VersionShaped(s: string) {
    || ("cba/" <= s && VersionTail(s[4..]))
    || ("cba-agent/" <= s && VersionTail(s[10..]))
  }

  predicate VariantShaped(s: string) {
    |s| == 8 && forall i | 0 <= i < 8 :: LowerHex(s[i])
  }

  predicate SafeCount(v: Value) {
    v.Num? && 0 <= v.number <= MAX_SAFE_INTEGER
  }

  const CODE_KEYS := [ReasonCodeKey, ProtocolErrorCodeKey]
  const COUNT_KEYS :=
    [CodeBlockCountKey, ProtocolBlockCountKey, EditorCountKey, BannerCountKey, LineCountKey, ContentBytesKey]

  /** Whether a field is copied into the sanitized evidence. */
  predicate Kept(key: Key, v: Value) {
    match key
    case ContractVersionKey => v == Str(CAPTURE_CONTRACT)
    case StatusKey => v.Str? && KnownStatus(v.text)
    case ProtocolVersionKey => v.Str? && VersionShaped(v.text)
    case ReasonCodeKey => v.Str? && CodeShaped(v.text)
    case ProtocolErrorCodeKey => v.Str? && CodeShaped(v.text)
    case BannerContractKey => v in {Str("supported"), Str("unsupported_version"), Str("ambiguous_protocol_labels")}
    case BannerMatchesBaselineKey => v.Flag?
    case BannerVariantKey => v.Str? && VariantShaped(v.text)
    case OtherKey(_) => false
    case _ => SafeCount(v)
  }

  predicate Has(e: Record, key: Key) {
    key in e && Kept(key, e[key])
  }

  /** The mandatory part: contract, status, a known error code for malformed evidence, and six counts. */
  predicate Acceptable(e: Record) {
    && Has(e, ContractVersionKey) && Has(e, StatusKey)
    && (e[StatusKey] == Str("model_protocol_malformed") ==>
          Has(e, ProtocolErrorCodeKey) && KnownErrorCode(e[ProtocolErrorCodeKey].text))
    && forall k | k in COUNT_KEYS :: Has(e, k)
  }

  /** The fields of `e` named in `keys` that are shaped as expected. */
  function Filtered(e: Record, keys: set<Key>): Record {
    map k | k in keys && Has(e, k) :: e[k]
  }

  function Sanitize(e: Record): Option<Record> {
    if Acceptable(e) then Some(map k | k in e && Kept(k, e[k]) :: e[k]) else None
  }

  function Copy(capture: Record, e: Record, key: Key): Record {
    if Has(e, key) then capture[key := e[key]] else capture
  }

  lemma CopyExtends(e: Record, keys: set<Key>, key: Key)
    ensures Copy(Filtered(e, keys), e, key) == Filtered(e, keys + {key})
  {
  }

  lemma AllKeysFiltered(e: Record)
    requires Acceptable(e)
    ensures Sanitize(e) == Some(Filtered(e, KEYS))
  {
    forall k | k in e && Kept(k, e[k]) ensures k in KEYS {
      assert !k.OtherKey?;
    }
    assert Filtered(e, KEYS) == map k | k in e && Kept(k, e[k]) :: e[k];
  }

  const KEYS: set<Key> :=
    {ContractVersionKey, StatusKey, ProtocolVersionKey, ReasonCodeKey, ProtocolErrorCodeKey, CodeBlockCountKey,
     ProtocolBlockCountKey, EditorCountKey, BannerCountKey, LineCountKey, ContentBytesKey, BannerContractKey,
     BannerTokenCountKey, BannerMatchesBaselineKey, BannerVariantKey}

  function Elements(keys: seq<Key>): set<Key> {
    set k | k in keys
  }

  /** Copies the optional fields `keys` into the result built so far. */
  method CopyFields(e: Record, ghost done: set<Key>, keys: seq<Key>, built: Record) returns (capture: Record)
    requires built == Filtered(e, done)
    ensures capture == Filtered(e, done + Elements(keys))
  {
    capture := built;
    for i := 0 to |keys|
      invariant capture == Filtered(e, done + Elements(keys[..i]))
    {
      CopyExtends(e, done + Elements(keys[..i]), keys[i]);
      assert keys[..i + 1] == keys[..i] + [keys[i]];
      assert done + Elements(keys[..i + 1]) == done + Elements(keys[..i]) + {keys[i]};
      capture := Copy(capture, e, keys[i]);
    }
    assert keys[..|keys|] == keys;
  }

  /** `sanitizedCaptureEvidence`: builds the result field by field and rejects as soon as a mandatory one fails. */
  method SanitizedCaptureEvidence(e: Record) returns (result: Option<Record>)
    ensures result == Sanitize(e)
  {
    if !Has(e, ContractVersionKey) || !Has(e, StatusKey) {
      return None;
    }
    var capture := CopyFields(e, {}, [ContractVersionKey, StatusKey, ProtocolVersionKey] + CODE_KEYS, map[]);
    ghost var done := Elements([ContractVersionKey, StatusKey, ProtocolVersionKey] + CODE_KEYS);
    assert capture == Filtered(e, {} + done) == Filtered(e, done);
    assert ProtocolErrorCodeKey == ([ContractVersionKey, StatusKey, ProtocolVersionKey] + CODE_KEYS)[4];
    if e[StatusKey] == Str("model_protocol_malformed")
       && !(ProtocolErrorCodeKey in capture && KnownErrorCode(capture[ProtocolErrorCodeKey].text)) {
      return None;
    }
    for i := 0 to |COUNT_KEYS|
      invariant forall j | 0 <= j < i :: Has(e, COUNT_KEYS[j])
    {
      if !Has(e, COUNT_KEYS[i]) {
        assert COUNT_KEYS[i] in COUNT_KEYS;
        return None;
      }
    }
    var banner := [BannerContractKey, BannerTokenCountKey, BannerMatchesBaselineKey, BannerVariantKey];
    capture := CopyFields(e, done, COUNT_KEYS + banner, capture);
    assert Acceptable(e);
    AllKeysFiltered(e);
    assert done + Elements(COUNT_KEYS + banner) == KEYS;
    result := Some(capture);
  }

  /** Sanitizing twice is sanitizing once, and nothing that is not shaped as expected survives. */
  lemma SanitizeIsAFilter(e: Record)
    requires Sanitize(e).Some?
    ensures Sanitize(Sanitize(e).value) == Sanitize(e)
    ensures forall k | k in Sanitize(e).value :: k in e && Sanitize(e).value[k] == e[k] && Kept(k, e[k])
  {
    var r := Sanitize(e).value;
    assert forall k | k in COUNT_KEYS :: Has(e, k) && k in r;
    assert ContractVersionKey in r && StatusKey in r;
    assert Acceptable(r);
    assert r == map k | k in r && Kept(k, r[k]) :: r[k];
  }

  function ContractText(c: BannerContract): string {
    match c
    case Supported => "supported"
    case UnsupportedVersion => "unsupported_version"
    case AmbiguousProtocolLabels => "ambiguous_protocol_labels"
  }

  function OptionalText(key: Key, v: Option<string>): Record {
    if v.Some? then map[key := Str(v.value)] else map[]
  }

  function BannerRecord(b: Option<Banner>): Record {
    if b.None? then map[]
    else map[BannerContractKey := Str(ContractText(b.value.contract)), BannerTokenCountKey := Num(b.value.tokenCount),
             BannerMatchesBaselineKey := Flag(b.value.matchesBaseline), BannerVariantKey := Str(b.value.variant)]
  }

  /** The optional fields; none of them is mandatory. */
  function OptionalRecord(e: Evidence): Record {
    OptionalText(ProtocolVersionKey, e.protocolVersion) + OptionalText(ReasonCodeKey, e.reasonCode)
    + OptionalText(ProtocolErrorCodeKey, e.protocolErrorCode) + BannerRecord(e.banner)
  }

  /** The record form of typed evidence, as it is handed to the orchestrator. */
  function ToRecord(e: Evidence): Record {
    OptionalRecord(e) +
    map[ContractVersionKey := Str(CAPTURE_CONTRACT), StatusKey := Str(StatusText(e.status)),
        CodeBlockCountKey := Num(e.codeBlockCount), ProtocolBlockCountKey := Num(e.protocolBlockCount),
        EditorCountKey := Num(e.editorCount), BannerCountKey := Num(e.bannerCount),
        LineCountKey := Num(e.lineCount), ContentBytesKey := Num(e.contentBytes)]
  }

  // ----- The gate in front of the protocol parser -----

  datatype Turn = Accepted(message: string) | Rejected(code: string, repairable: bool)

  datatype Gate = NoEvidence | Passed(status: string) | Stopped(turn: Turn)

  /** `enforceOwnedReconstructedCapture`. */
  function EnforceOwnedReconstructedCapture(evidence: Option<Record>): Gate {
    if evidence.None? then NoEvidence
    else
      var sanitized := Sanitize(evidence.value);
      if sanitized.None? then Stopped(Rejected("INVALID_MESSAGE", false))
      else
        var status := sanitized.value[StatusKey].text;
        if status == "rendered_text" || status == "protocol_reconstructed" then Passed(status)
        else if status == "model_protocol_malformed" then
          Stopped(Rejected(sanitized.value[ProtocolErrorCodeKey].text, true))
        else Stopped(Rejected("INVALID_MESSAGE", false))
  }

  /** `parseModelTurn`; the parser and its legacy rebinding are the host's `parseMessage`. */
  function ParseModelTurn(h: Host, raw: string, evidence: Option<Record>): Turn {
    var gate := EnforceOwnedReconstructedCapture(evidence);
    if gate.Stopped? then gate.turn
    else if h.byteLength(raw) > DEFAULT_MAX_PROTOCOL_INPUT_BYTES then Rejected("INPUT_TOO_LARGE", false)
    else if h.isGenericFallback(raw) then Rejected("INVALID_MESSAGE", true)
    else if h.parseMessage(raw).None? then Rejected("PROTOCOL_ERROR", true)
    else if gate == Passed("rendered_text") then Rejected("INVALID_MESSAGE", false)
    else Accepted(h.parseMessage(raw).value)
  }

  /** With any evidence at all, acceptance means the evidence claims a reconstructed widget. */
  lemma AcceptedOnlyWithReconstructedEvidence(h: Host, raw: string, e: Record)
    requires ParseModelTurn(h, raw, Some(e)).Accepted?
    ensures Acceptable(e) && e[StatusKey] == Str("protocol_reconstructed")
  {
  }

  /** Counts come from array lengths and byte lengths, which are safe integers. */
  predicate SafeCounts(e: Evidence) {
    && e.codeBlockCount <= MAX_SAFE_INTEGER && e.protocolBlockCount <= MAX_SAFE_INTEGER
    && e.editorCount <= MAX_SAFE_INTEGER && e.bannerCount <= MAX_SAFE_INTEGER
    && e.lineCount <= MAX_SAFE_INTEGER && e.contentBytes <= MAX_SAFE_INTEGER
  }

  lemma MandatoryFields(e: Evidence)
    ensures var r := ToRecord(e);
            && r.Keys >= {ContractVersionKey, StatusKey} + Elements(COUNT_KEYS)
            && r[ContractVersionKey] == Str(CAPTURE_CONTRACT) && r[StatusKey] == Str(StatusText(e.status))
            && r[CodeBlockCountKey] == Num(e.codeBlockCount) && r[ProtocolBlockCountKey] == Num(e.protocolBlockCount)
            && r[EditorCountKey] == Num(e.editorCount) && r[BannerCountKey] == Num(e.bannerCount)
            && r[LineCountKey] == Num(e.lineCount) && r[ContentBytesKey] == Num(e.contentBytes)
  {
  }

  lemma EvidencePasses(e: Evidence)
    requires SafeCounts(e) && e.status != ModelProtocolMalformed
    ensures Acceptable(ToRecord(e))
  {
    var r := ToRecord(e);
    MandatoryFields(e);
    StatusWordsDiffer(e.status, ModelProtocolMalformed);
    assert KnownStatus(StatusText(e.status));
    assert Has(r, StatusKey) && Has(r, ContractVersionKey);
    forall k | k in COUNT_KEYS ensures Has(r, k) {
    }
  }

  lemma FenceIsTrimmed(version: string, code: string)
    ensures Trim(Fence(version, code)) == Fence(version, code)
  {
    var f := Fence(version, code);
    assert f[0] == '`' && f[|f| - 1] == '`';
  }

  /** The gate in front of the parser lets typed evidence through exactly when its widget was reconstructed. */
  lemma {:induction false} GateFollowsStatus(e: Evidence)
    requires SafeCounts(e)
    ensures var gate := EnforceOwnedReconstructedCapture(Some(ToRecord(e)));
            gate == Passed("protocol_reconstructed") <==> e.status == ProtocolReconstructed
    ensures var gate := EnforceOwnedReconstructedCapture(Some(ToRecord(e)));
            gate.Stopped? || gate == Passed("rendered_text") || gate == Passed("protocol_reconstructed")
    ensures "rendered_text" != "protocol_reconstructed"
    ensures var gate := EnforceOwnedReconstructedCapture(Some(ToRecord(e))); gate.Stopped? ==> gate.turn.Rejected?
  {
    assert |"rendered_text"| != |"protocol_reconstructed"|;
    MandatoryFields(e);
    StatusWordsDiffer(e.status, ProtocolReconstructed);
    StatusWordsDiffer(e.status, RenderedText);
    if e.status != ModelProtocolMalformed {
      EvidencePasses(e);
    }
  }

  /**
   Only owned text is executed: a captured response is accepted exactly when the capture owns one supported
   widget and the parser accepts that widget's own fence, which is then the whole text that was parsed.
   */
  lemma {:induction false} OnlyOwnedTextIsExecuted(h: Host, c: Capture)
    requires SafeCounts(Normalize(h, c).evidence)
    ensures var n := Normalize(h, c);
            var turn := ParseModelTurn(h, Trim(n.text), Some(ToRecord(n.evidence)));
            turn.Accepted? <==>
            && Owned(h, c)
            && var fence := Fence(c.protocolBlocks[0].version, c.protocolBlocks[0].code);
            Trim(n.text) == fence && h.byteLength(fence) <= DEFAULT_MAX_PROTOCOL_INPUT_BYTES
            && !h.isGenericFallback(fence) && h.parseMessage(fence).Some?
  {
    var n := Normalize(h, c);
    var r := ToRecord(n.evidence);
    ReconstructedExactlyWhenOwned(h, c);
    GateFollowsStatus(n.evidence);
    if Owned(h, c) {
      FenceIsTrimmed(c.protocolBlocks[0].version, c.protocolBlocks[0].code);
    }
  }
}
