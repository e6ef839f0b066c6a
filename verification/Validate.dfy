/**
 The ingest trust boundary of apps/usage-worker/src/validate.ts: a parsed body
 becomes a batch of validated events, or is refused as a whole.

 `Date.parse` is a parameter, since it also accepts forms ECMA-262 leaves open.
 */
module Validate {
  import opened Texts
  import opened Calendar
  import opened IsoTexts

  datatype Result<+T, +E> = Ok(value: T) | Err(error: E)

  const NUL: Unit := 0

  predicate NulFree(t: Text) {
    forall k :: 0 <= k < |t| ==> t[k] != NUL
  }

  /** A printable literal as code units. */
  function Ascii(s: string): (t: Text)
    requires forall k :: 0 <= k < |s| ==> ' ' <= s[k] <= '~'
    ensures |t| == |s| && NulFree(t)
  {
    seq(|s|, k requires 0 <= k < |s| => s[k] as int)
  }

  lemma AsciiReads(s: string, k: nat)
    requires (forall i :: 0 <= i < |s| ==> ' ' <= s[i] <= '~') && k < |s|
    ensures Ascii(s)[k] == s[k] as int
  {
  }

  // The closed vocabulary of packages/telemetry-contract/src/events.ts.

  const PREFLIGHT := Ascii("preflight_completed")

  const ALLOWED_EVENTS: set<Text> := {
    Ascii("install_completed"), PREFLIGHT, Ascii("decision_safe"), Ascii("decision_review"),
    Ascii("decision_block"), Ascii("decision_unknown"), Ascii("approval_created"), Ascii("apply_completed"),
    Ascii("verify_completed"), Ascii("rollback_completed"), Ascii("guard_drift_detected"),
    Ascii("trust_page_viewed"), Ascii("trust_page_to_install"), Ascii("partner_api_called"), Ascii("badge_rendered")
  }

  const SOURCES: set<Text> := {Ascii("cli"), Ascii("ci"), Ascii("server"), Ascii("install")}

  const DISCOVERY_SURFACES: set<Text> := {
    Ascii("agent-harness"), Ascii("mcp-registry"), Ascii("marketplace"), Ascii("documentation"),
    Ascii("search-surface"), Ascii("mirror")
  }

  const REVIEW := Ascii("REVIEW")
  const BLOCK := Ascii("BLOCK")
  const UNKNOWN := Ascii("UNKNOWN")
  const RESULTS: set<Text> := {Ascii("SAFE"), REVIEW, BLOCK, UNKNOWN}

  const BATCH_SCHEMA := Ascii("calllint.telemetry-batch.v0")
  const MAX_EVENTS_PER_BATCH := 100
  const MAX_FIELD_LENGTH := 64

  /** A property of a parsed body: missing or null, a string, or something else. */
  datatype Field = Absent | Str(text: Text) | NotString

  datatype RawEvent =
    | NotARecord
    | RawEvent(
        forbidden: bool,
        eventName: Field, source: Field, result: Field, timestamp: Field,
        hostFamily: Field, inputKind: Field, productVersion: Field,
        discoverySurface: Field, installationId: Field)

  datatype Body = NotABody | Body(schema: Field, batchId: Field, events: Option<seq<RawEvent>>)

  datatype Code =
    | InvalidBody | InvalidSchema | InvalidBatchId | InvalidEvents | EmptyBatch | BatchTooLarge
    | InvalidEvent | ForbiddenField | UnknownEventName | UnknownSource | UnknownResult | InvalidTimestamp
    | InvalidDimension | UnknownDiscoverySurface | InvalidInstallationId

  datatype Event = Event(
    eventName: Text, source: Text, timestamp: Text, hostFamily: Text, inputKind: Text, productVersion: Text,
    discoverySurface: Text, result: Option<Text>, installationId: Option<Text>)

  datatype Batch = Batch(id: Text, events: seq<Event>)

  predicate IsLowerHex(u: Unit) {
    0x30 <= u <= 0x39 || 0x61 <= u <= 0x66
  }

  predicate IsBatchId(t: Text) {
    |t| == 64 && forall k :: 0 <= k < |t| ==> IsLowerHex(t[k])
  }

  predicate IsTokenUnit(u: Unit) {
    0x30 <= u <= 0x39 || 0x41 <= u <= 0x5A || 0x61 <= u <= 0x7A || u == DOT || u == 0x5F || u == PLUS || u == DASH
  }

  predicate IsSafeToken(t: Text) {
    1 <= |t| <= MAX_FIELD_LENGTH && forall k :: 0 <= k < |t| ==> IsTokenUnit(t[k])
  }

  /** `cli-anon-` and five groups of 8, 4, 4, 4 and 12 hex digits. */
  predicate IsInstallationId(t: Text) {
    |t| == 45 && t[..9] == Ascii("cli-anon-") &&
    forall k :: 9 <= k < 45 ==>
      if k == 17 || k == 22 || k == 27 || k == 32 then t[k] == DASH else IsLowerHex(t[k])
  }

  function NormalizeTimestamp(raw: Field, dateParse: Text -> Option<int>): (r: Option<Text>) {
    if raw.Str? && 1 <= |raw.text| <= 40 && dateParse(raw.text).Some? then
      var ms := dateParse(raw.text).value;
      if 2024 <= YearOf(DayOfInstant(ms)) <= 2100 then
        assert (ms / 1000) / SECONDS_PER_DAY == DayOfInstant(ms) by { SecondsKeepDay(ms); }
        Some(IsoSecond(ms / 1000))
      else None
    else None
  }

  function NormalizeDimension(raw: Field): Option<Text> {
    if raw.Absent? || raw == Str([]) then Some([])
    else if raw.Str? && IsSafeToken(raw.text) then Some(raw.text)
    else None
  }

  function ValidateEvent(raw: RawEvent, dateParse: Text -> Option<int>): Result<Event, Code> {
    if raw.NotARecord? then Err(InvalidEvent)
    else if raw.forbidden then Err(ForbiddenField)
    else if !(raw.eventName.Str? && raw.eventName.text in ALLOWED_EVENTS) then Err(UnknownEventName)
    else if !(raw.source.Str? && raw.source.text in SOURCES) then Err(UnknownSource)
    else if !raw.result.Absent? && !(raw.result.Str? && raw.result.text in RESULTS) then Err(UnknownResult)
    else
      var timestamp := NormalizeTimestamp(raw.timestamp, dateParse);
      if timestamp.None? then Err(InvalidTimestamp)
      else
        var host, input, version :=
          NormalizeDimension(raw.hostFamily), NormalizeDimension(raw.inputKind), NormalizeDimension(raw.productVersion);
        if host.None? || input.None? || version.None? then Err(InvalidDimension)
        else
          var surface := raw.discoverySurface;
          var id := raw.installationId;
          if !surface.Absent? && surface != Str([]) && !(surface.Str? && surface.text in DISCOVERY_SURFACES)
          then Err(UnknownDiscoverySurface)
          else if !id.Absent? && id != Str([]) && !(id.Str? && IsInstallationId(id.text)) then
            Err(InvalidInstallationId)
          else
            Ok(Event(raw.eventName.text, raw.source.text, timestamp.value, host.value, input.value, version.value,
                     if surface.Str? then surface.text else [],
                     if raw.result.Str? then Some(raw.result.text) else None,
                     if id.Str? && id.text != [] then Some(id.text) else None))
  }

  /** The code of the body's own faults, before any event is looked at. */
  function EnvelopeFault(body: Body): Option<Code> {
    if body.NotABody? then Some(InvalidBody)
    else if body.schema != Str(BATCH_SCHEMA) then Some(InvalidSchema)
    else if !(body.batchId.Str? && IsBatchId(body.batchId.text)) then Some(InvalidBatchId)
    else if body.events.None? then Some(InvalidEvents)
    else if body.events.value == [] then Some(EmptyBatch)
    else if |body.events.value| > MAX_EVENTS_PER_BATCH then Some(BatchTooLarge)
    else None
  }

  // ---- What is accepted and what is kept, check by check ----------------------

  /** One check and those after it: the code of the first that fails. */
  function Check(fails: bool, code: Code, later: Option<Code>): Option<Code> {
    if fails then Some(code) else later
  }

  predicate BadDimension(f: Field) {
    !Omitted(f) && !ShortToken(f)
  }

  /** A string of the vocabulary. */
  predicate Known(f: Field, vocabulary: set<Text>) {
    f.Str? && f.text in vocabulary
  }

  /** Left out: missing, null or empty. */
  predicate Omitted(f: Field) {
    f == Absent || f == Str([])
  }

  predicate IsLetterOrDigit(u: Unit) {
    'A' as int <= u <= 'Z' as int || 'a' as int <= u <= 'z' as int || '0' as int <= u <= '9' as int
  }

  /** 1 to 64 letters, digits, dots, underscores, pluses and dashes. */
  predicate ShortToken(f: Field) {
    f.Str? && 1 <= |f.text| <= 64 && forall k :: 0 <= k < |f.text| ==>
      IsLetterOrDigit(f.text[k]) || f.text[k] in ['.' as int, '_' as int, '+' as int, '-' as int]
  }

  predicate LowerHexDigits(t: Text, n: nat) {
    |t| == n && forall k :: 0 <= k < n ==>
      '0' as int <= t[k] <= '9' as int || 'a' as int <= t[k] <= 'f' as int
  }

  /** `cli-anon-`, then five groups of hex digits between dashes. */
  ghost predicate AnonymousId(f: Field) {
    f.Str? && exists a, b, c, d, e ::
      LowerHexDigits(a, 8) && LowerHexDigits(b, 4) && LowerHexDigits(c, 4) && LowerHexDigits(d, 4) &&
      LowerHexDigits(e, 12) && f.text == GroupedId(a, b, c, d, e)
  }

  function GroupedId(a: Text, b: Text, c: Text, d: Text, e: Text): Text {
    Ascii("cli-anon-") + (a + (['-' as int] + (b + (['-' as int] + (c + (['-' as int] + (d + (['-' as int] + e))))))))
  }

  const START_OF_2024 := 1_704_067_200_000
  const START_OF_2101 := 4_133_980_800_000

  /** At most 40 units, parsed, and of the years 2024 to 2100. */
  predicate ReadableStamp(f: Field, dateParse: Text -> Option<int>) {
    f.Str? && 1 <= |f.text| <= 40 && dateParse(f.text).Some? &&
    START_OF_2024 <= dateParse(f.text).value < START_OF_2101
  }

  /** The code an event is refused with, if any. */
  ghost function EventFault(raw: RawEvent, dateParse: Text -> Option<int>): Option<Code> {
    if raw.NotARecord? then Some(InvalidEvent)
    else
      Check(raw.forbidden, ForbiddenField,
      Check(!Known(raw.eventName, ALLOWED_EVENTS), UnknownEventName,
      Check(!Known(raw.source, SOURCES), UnknownSource,
      Check(raw.result != Absent && !Known(raw.result, RESULTS), UnknownResult,
      Check(!ReadableStamp(raw.timestamp, dateParse), InvalidTimestamp,
      Check(BadDimension(raw.hostFamily) || BadDimension(raw.inputKind) || BadDimension(raw.productVersion),
            InvalidDimension,
      Check(!Omitted(raw.discoverySurface) && !Known(raw.discoverySurface, DISCOVERY_SURFACES), UnknownDiscoverySurface,
      Check(!Omitted(raw.installationId) && !AnonymousId(raw.installationId), InvalidInstallationId,
      None))))))))
  }

  /** The code a body is refused with before any event is looked at, if any. */
  ghost function BodyFault(body: Body): Option<Code> {
    if body.NotABody? then Some(InvalidBody)
    else
      Check(body.schema != Str(Ascii("calllint.telemetry-batch.v0")), InvalidSchema,
      Check(!(body.batchId.Str? && LowerHexDigits(body.batchId.text, 64)), InvalidBatchId,
      Check(body.events == None, InvalidEvents,
      Check(body.events == Some([]), EmptyBatch,
      Check(body.events.Some? && |body.events.value| > 100, BatchTooLarge,
      None)))))
  }

  predicate KeepsText(raw: Field, kept: Text) {
    if Omitted(raw) then kept == [] else raw == Str(kept)
  }

  /** An accepted event says what the raw one says, field by field; only the timestamp is rewritten. */
  ghost predicate KeepsFields(raw: RawEvent, e: Event, dateParse: Text -> Option<int>) {
    && raw.RawEvent? && raw.eventName == Str(e.eventName) && raw.source == Str(e.source)
    && raw.timestamp.Str? && dateParse(raw.timestamp.text).Some?
    && NamesSecond(e.timestamp, dateParse(raw.timestamp.text).value / 1000)
    && KeepsText(raw.hostFamily, e.hostFamily) && KeepsText(raw.inputKind, e.inputKind)
    && KeepsText(raw.productVersion, e.productVersion) && KeepsText(raw.discoverySurface, e.discoverySurface)
    && (if raw.result == Absent then e.result == None else e.result.Some? && raw.result == Str(e.result.value))
    && (if Omitted(raw.installationId) then e.installationId == None
        else e.installationId.Some? && raw.installationId == Str(e.installationId.value))
  }

  /**
   A batch with the body's id and every event in order, each keeping its fields, or the
   code of the first check that fails: the body's own first, then event by event.
   */
  ghost predicate OutcomeByFields(body: Body, dateParse: Text -> Option<int>, r: Result<Batch, Code>) {
    if BodyFault(body).Some? then r == Err(BodyFault(body).value)
    else
      body.Body? && body.events.Some? &&
      var raws := body.events.value;
      match r
      case Ok(batch) =>
        && body.batchId == Str(batch.id) && |batch.events| == |raws|
        && forall k :: 0 <= k < |raws| ==>
             EventFault(raws[k], dateParse) == None && KeepsFields(raws[k], batch.events[k], dateParse)
      case Err(code) =>
        exists k :: 0 <= k < |raws| && EventFault(raws[k], dateParse) == Some(code)
                    && forall j :: 0 <= j < k ==> EventFault(raws[j], dateParse) == None
  }

  lemma YearWithin(n: int, first: int, last: int)
    requires first <= last
    ensures first <= YearOf(n) <= last <==> DayFromYear(first) <= n < DayFromYear(last + 1)
  {
    hide DayFromYear;
    var y := YearOf(n);
    if first < y { DayFromYearGrows(first, y); }
    if y + 1 < first { DayFromYearGrows(y + 1, first); }
    if y < last { DayFromYearGrows(y + 1, last + 1); }
    if last + 1 < y { DayFromYearGrows(last + 1, y); }
  }

  lemma StampYears(ms: int)
    ensures START_OF_2024 <= ms < START_OF_2101 <==> 2024 <= YearOf(DayOfInstant(ms)) <= 2100
  {
    YearWithin(DayOfInstant(ms), 2024, 2100);
    assert DayFromYear(2024) == 19_723 && DayFromYear(2101) == 47_847;
    hide DayFromYear, YearOf;
  }

  lemma StampReads(raw: Field, dateParse: Text -> Option<int>)
    ensures NormalizeTimestamp(raw, dateParse).Some? <==> ReadableStamp(raw, dateParse)
    ensures ReadableStamp(raw, dateParse) ==>
              raw.Str? && dateParse(raw.text).Some? &&
              NamesSecond(NormalizeTimestamp(raw, dateParse).value, dateParse(raw.text).value / 1000)
  {
    hide NamesSecond, YearOf, IsoSecond, DayOfInstant, START_OF_2024, START_OF_2101;
    if raw.Str? && 1 <= |raw.text| <= 40 && dateParse(raw.text).Some? {
      var ms := dateParse(raw.text).value;
      StampYears(ms);
      SecondsKeepDay(ms);
      if ReadableStamp(raw, dateParse) { IsoSecondReads(ms / 1000); }
    }
  }

  lemma DimensionKept(raw: Field)
    ensures NormalizeDimension(raw).Some? <==> Omitted(raw) || ShortToken(raw)
    ensures NormalizeDimension(raw).Some? ==> KeepsText(raw, NormalizeDimension(raw).value)
  {
    if raw.Str? {
      forall k | 0 <= k < |raw.text|
        ensures IsTokenUnit(raw.text[k]) <==>
                IsLetterOrDigit(raw.text[k]) || raw.text[k] in ['.' as int, '_' as int, '+' as int, '-' as int]
      {
      }
    }
  }

  lemma BatchIdIff(t: Text)
    ensures IsBatchId(t) <==> LowerHexDigits(t, 64)
  {
  }

  lemma InstallationIdIff(f: Field)
    ensures f.Str? && IsInstallationId(f.text) <==> AnonymousId(f)
  {
    hide Ascii;
    if f.Str? && IsInstallationId(f.text) {
      var t := f.text;
      var a, b, c, d, e := t[9..17], t[18..22], t[23..27], t[28..32], t[33..];
      GroupsOf(t, a, b, c, d, e);
      assert LowerHexDigits(a, 8) && LowerHexDigits(b, 4) && LowerHexDigits(c, 4) && LowerHexDigits(d, 4);
    }
    if AnonymousId(f) {
      var a, b, c, d, e :|
        LowerHexDigits(a, 8) && LowerHexDigits(b, 4) && LowerHexDigits(c, 4) && LowerHexDigits(d, 4) &&
        LowerHexDigits(e, 12) && f.text == GroupedId(a, b, c, d, e);
      IdOfGroups(a, b, c, d, e);
    }
  }

  lemma GroupsOf(t: Text, a: Text, b: Text, c: Text, d: Text, e: Text)
    requires IsInstallationId(t)
    requires a == t[9..17] && b == t[18..22] && c == t[23..27] && d == t[28..32] && e == t[33..]
    ensures t == GroupedId(a, b, c, d, e) && LowerHexDigits(a, 8) && LowerHexDigits(b, 4) && LowerHexDigits(c, 4)
    ensures LowerHexDigits(d, 4) && LowerHexDigits(e, 12)
  {
    hide Ascii;
    var dash := ['-' as int];
    assert t[32..] == dash + e && t[28..] == d + t[32..];
    assert t[27..] == dash + t[28..] && t[23..] == c + t[27..];
    assert t[22..] == dash + t[23..] && t[18..] == b + t[22..];
    assert t[17..] == dash + t[18..] && t[9..] == a + t[17..];
    assert t == t[..9] + t[9..];
  }

  lemma IdOfGroups(a: Text, b: Text, c: Text, d: Text, e: Text)
    requires LowerHexDigits(a, 8) && LowerHexDigits(b, 4) && LowerHexDigits(c, 4) && LowerHexDigits(d, 4)
    requires LowerHexDigits(e, 12)
    ensures IsInstallationId(GroupedId(a, b, c, d, e))
  {
    var t := GroupedId(a, b, c, d, e);
    var head := Ascii("cli-anon-");
    hide Ascii;
    assert |head| == 9 && t[..9] == head;
    assert t[9..17] == a && t[18..22] == b && t[23..27] == c && t[28..32] == d && t[33..] == e;
    assert t[17] == DASH && t[22] == DASH && t[27] == DASH && t[32] == DASH;
    forall k | 9 <= k < 45 && k != 17 && k != 22 && k != 27 && k != 32 ensures IsLowerHex(t[k]) {
      if k < 17 { assert t[k] == a[k - 9]; }
      else if k < 22 { assert t[k] == b[k - 18]; }
      else if k < 27 { assert t[k] == c[k - 23]; }
      else if k < 32 { assert t[k] == d[k - 28]; }
      else { assert t[k] == e[k - 33]; }
    }
  }

  /** The validator refuses an event with the code of its first failing check, and else keeps its fields. */
  lemma EventByFields(raw: RawEvent, dateParse: Text -> Option<int>)
    ensures match ValidateEvent(raw, dateParse)
            case Ok(e) => EventFault(raw, dateParse) == None && KeepsFields(raw, e, dateParse)
            case Err(code) => EventFault(raw, dateParse) == Some(code)
  {
    hide NormalizeTimestamp, NormalizeDimension, IsInstallationId, ReadableStamp, ShortToken, AnonymousId,
         NamesSecond, Ascii;
    if raw.RawEvent? {
      StampReads(raw.timestamp, dateParse);
      DimensionKept(raw.hostFamily);
      DimensionKept(raw.inputKind);
      DimensionKept(raw.productVersion);
      InstallationIdIff(raw.installationId);
    }
  }

  lemma BodyFaultIs(body: Body)
    ensures EnvelopeFault(body) == BodyFault(body)
  {
    if body.Body? && body.batchId.Str? { BatchIdIff(body.batchId.text); }
    hide IsBatchId, LowerHexDigits, Ascii;
  }

  /**
   All or nothing: a batch with every event validated in order, or the code of the
   envelope's fault or of the first bad event.
   */
  ghost predicate ValidationOutcome(body: Body, dateParse: Text -> Option<int>, r: Result<Batch, Code>) {
    if EnvelopeFault(body).Some? then r == Err(EnvelopeFault(body).value)
    else
      var raws := body.events.value;
      match r
      case Ok(batch) =>
        && batch.id == body.batchId.text && |batch.events| == |raws|
        && forall k :: 0 <= k < |raws| ==> ValidateEvent(raws[k], dateParse) == Ok(batch.events[k])
      case Err(code) =>
        exists k :: 0 <= k < |raws| && ValidateEvent(raws[k], dateParse) == Err(code)
                    && forall j :: 0 <= j < k ==> ValidateEvent(raws[j], dateParse).Ok?
  }

  lemma NoFault(body: Body)
    requires EnvelopeFault(body) == None
    ensures body.Body? && body.batchId.Str? && body.events.Some?
  {
  }

  method ValidateBatch(body: Body, dateParse: Text -> Option<int>) returns (r: Result<Batch, Code>)
    ensures OutcomeByFields(body, dateParse, r) && ValidationOutcome(body, dateParse, r)
  {
    hide ValidateEvent, EnvelopeFault, EventFault, BodyFault, KeepsFields;
    BodyFaultIs(body);
    var fault := EnvelopeFault(body);
    if fault.Some? { return Err(fault.value); }
    NoFault(body);
    var raws := body.events.value;
    var validated: seq<Event> := [];
    for index := 0 to |raws|
      invariant |validated| == index
      invariant forall k :: 0 <= k < index ==> ValidateEvent(raws[k], dateParse) == Ok(validated[k])
      invariant forall k :: 0 <= k < index ==>
                  EventFault(raws[k], dateParse) == None && KeepsFields(raws[k], validated[k], dateParse)
    {
      EventByFields(raws[index], dateParse);
      var e := ValidateEvent(raws[index], dateParse);
      if e.Err? { return Err(e.error); }
      validated := validated + [e.value];
    }
    return Ok(Batch(body.batchId.text, validated));
  }

  // ---- What acceptance guarantees -------------------------------------------

  function DayOf(timestamp: Text): Text {
    if |timestamp| <= 10 then timestamp else timestamp[..10]
  }

  predicate IsAttention(e: Event) {
    e.result.Some? && e.result.value in {REVIEW, BLOCK, UNKNOWN}
  }

  predicate IsPreflight(e: Event) {
    e.eventName == PREFLIGHT
  }

  /** Every stored dimension of an accepted event is free of the NUL separator. */
  ghost predicate Storable(e: Event) {
    NulFree(DayOf(e.timestamp)) && NulFree(e.eventName) && NulFree(e.source) && NulFree(e.hostFamily) &&
    NulFree(e.inputKind) && NulFree(e.productVersion) && NulFree(e.discoverySurface)
  }

  lemma IsoDayIsPlain(n: int)
    requires FourDigitYear(n)
    ensures NulFree(IsoDay(n))
  {
    var d := DateOf(n);
    DigitsArePlain(d.year / 100);
    DigitsArePlain(d.year % 100);
    DigitsArePlain(d.month);
    DigitsArePlain(d.day);
    hide TwoDigits, DateOf, FourDigitYear;
  }

  lemma DigitsArePlain(x: nat)
    requires x < 100
    ensures NulFree(TwoDigits(x))
  {
  }

  /** The day bucket of an accepted timestamp is the UTC day of its instant, in years 2024 to 2100. */
  lemma DayBucketIsUtcDay(raw: Field, dateParse: Text -> Option<int>)
    requires NormalizeTimestamp(raw, dateParse).Some?
    ensures var day := DayOfInstant(dateParse(raw.text).value);
            && 2024 <= YearOf(day) <= 2100
            && DayOf(NormalizeTimestamp(raw, dateParse).value) == IsoDay(day)
  {
    SecondsKeepDay(dateParse(raw.text).value);
  }

  lemma AcceptedEventIsStorable(raw: RawEvent, dateParse: Text -> Option<int>)
    requires ValidateEvent(raw, dateParse).Ok?
    ensures Storable(ValidateEvent(raw, dateParse).value)
    ensures ValidateEvent(raw, dateParse).value.eventName in ALLOWED_EVENTS
  {
    hide NormalizeTimestamp, IsInstallationId;
    StampIsPlain(raw.timestamp, dateParse);
    hide Ascii;
  }

  lemma StampIsPlain(raw: Field, dateParse: Text -> Option<int>)
    requires NormalizeTimestamp(raw, dateParse).Some?
    ensures NulFree(DayOf(NormalizeTimestamp(raw, dateParse).value))
  {
    DayBucketIsUtcDay(raw, dateParse);
    IsoDayIsPlain(DayOfInstant(dateParse(raw.text).value));
  }

  /** Every accepted batch is within bounds, storable throughout, and complete. */
  lemma AcceptedBatchIsStorable(body: Body, dateParse: Text -> Option<int>, r: Result<Batch, Code>)
    requires ValidationOutcome(body, dateParse, r) && r.Ok?
    ensures IsBatchId(r.value.id) && 1 <= |r.value.events| <= MAX_EVENTS_PER_BATCH
    ensures forall k :: 0 <= k < |r.value.events| ==>
              Storable(r.value.events[k]) && r.value.events[k].eventName in ALLOWED_EVENTS
  {
    var raws := body.events.value;
    forall k | 0 <= k < |r.value.events|
      ensures Storable(r.value.events[k]) && r.value.events[k].eventName in ALLOWED_EVENTS
    {
      AcceptedEventIsStorable(raws[k], dateParse);
    }
  }
}
