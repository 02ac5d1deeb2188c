/** The two messages on the Redis streams: how each is written by one side and
    read by the other, and exactly what is lost on the way. */
module Codec {
  import opened Wrappers
  import opened Decimal
  import opened Keys
  import opened Database
  import Json

  /** The fields of a stream entry. */
  type Wire = map<string, string>

  /** `isoformat` and `fromisoformat`, of which only this is used: reading back
      what was written gives the same instant. */
  datatype Iso = Iso(format: int -> string, parse: string -> Option<int>)

  ghost predicate Faithful(iso: Iso) {
    forall t :: iso.parse(iso.format(t)) == Some(t)
  }

  /** `raw.get(k)`. */
  function Get(raw: Wire, k: string): Option<string> {
    if k in raw then Some(raw[k]) else None
  }

  // ---- Tasks ----

  datatype CheckTask = CheckTask(
    service: string,
    url: string,
    verb: string,
    timeoutMs: int,
    expectedStatus: int,
    headers: Json.Headers,
    body: Option<string>,
    intervalSecs: int,
    round: int)

  /** The payload of `publish_check_task`: JSON for the dict, `str` for the rest. */
  function EncodeTask(t: CheckTask): Wire {
    map[
      "service_id" := t.service,
      "url" := t.url,
      "method" := t.verb,
      "timeout_ms" := IntText(t.timeoutMs),
      "expected_status" := IntText(t.expectedStatus),
      "headers" := Json.Dumps(t.headers),
      "body" := (match t.body case None => "None" case Some(b) => b),
      "interval_secs" := IntText(t.intervalSecs),
      "scheduled_round" := IntText(t.round)
    ]
  }

  function IntField(raw: Wire, k: string): Option<int> {
    if k in raw then ParseInt(raw[k]) else None
  }

  /** `_parse_task`; None stands for any exception it raises. */
  function ParseTask(raw: Wire): Option<CheckTask> {
    if "service_id" !in raw || "url" !in raw || "method" !in raw then None
    else
      var headers := if "headers" in raw && raw["headers"] != "" then Json.Loads(raw["headers"]) else Some([]);
      match (IntField(raw, "timeout_ms"), IntField(raw, "expected_status"), headers,
             IntField(raw, "interval_secs"), IntField(raw, "scheduled_round"))
      case (Some(timeout), Some(expected), Some(h), Some(interval), Some(round)) =>
        Some(CheckTask(raw["service_id"], raw["url"], raw["method"], timeout, expected, h,
                       if Get(raw, "body") == Some("None") then None else Get(raw, "body"),
                       interval, round))
      case _ => None
  }

  /** A task comes back as it was written, except that the body "None" becomes
      no body. */
  lemma TaskRoundTrip(t: CheckTask)
    requires Json.IsDict(t.headers)
    ensures ParseTask(EncodeTask(t)) == Some(t.(body := if t.body == Some("None") then None else t.body))
    ensures ParseTask(EncodeTask(t)) == Some(t) <==> t.body != Some("None")
  {
    var raw := EncodeTask(t);
    IntBack(t.timeoutMs, raw, "timeout_ms");
    IntBack(t.expectedStatus, raw, "expected_status");
    IntBack(t.intervalSecs, raw, "interval_secs");
    IntBack(t.round, raw, "scheduled_round");
    Json.RoundTrip(t.headers);
  }

  lemma IntBack(n: int, raw: Wire, k: string)
    requires k in raw && raw[k] == IntText(n)
    ensures IntField(raw, k) == Some(n)
  {
    IntRoundTrip(n);
  }

  // ---- Results ----

  datatype ProbeResult = ProbeResult(
    status: string,
    statusCode: Option<int>,
    responseMs: Option<int>,
    errorMessage: Option<string>,
    rawHeaders: Option<Json.Headers>)

  function OptionalInt(n: Option<int>): string {
    match n case None => "None" case Some(v) => IntText(v)
  }

  /** The payload of `report_result`. */
  function EncodeResult(iso: Iso, service: string, node: string, at: int, round: int, p: ProbeResult): Wire {
    map[
      "service_id" := service,
      "checker_node_id" := node,
      "checked_at" := iso.format(at),
      "status" := p.status,
      "status_code" := OptionalInt(p.statusCode),
      "response_ms" := OptionalInt(p.responseMs),
      "error_message" := (if p.errorMessage == None || p.errorMessage.value == "" then "None"
                          else p.errorMessage.value),
      "raw_headers" := (if p.rawHeaders == None || p.rawHeaders.value == [] then "None"
                        else Json.Dumps(p.rawHeaders.value)),
      "idempotency_key" := Key(service, node, round)
    ]
  }

  /** A field that may be missing, empty or "None"; the outer None is the exception. */
  function OptionalIntField(raw: Wire, k: string): Option<Option<int>> {
    match Get(raw, k)
    case None => Some(None)
    case Some(t) =>
      if t == "" || t == "None" then Some(None)
      else match ParseInt(t) case None => None case Some(n) => Some(Some(n))
  }

  function HeadersField(raw: Wire): Option<Option<Json.Headers>> {
    match Get(raw, "raw_headers")
    case None => Some(None)
    case Some(t) =>
      if t == "" || t == "None" then Some(None)
      else match Json.Loads(t) case None => None case Some(h) => Some(Some(h))
  }

  /** `_parse_result`; None stands for any exception it raises. */
  function ParseResult(iso: Iso, raw: Wire): Option<CheckResult> {
    if "service_id" !in raw || "checker_node_id" !in raw || "checked_at" !in raw
       || "status" !in raw || "idempotency_key" !in raw
    then None
    else
      match (iso.parse(raw["checked_at"]), OptionalIntField(raw, "status_code"),
             OptionalIntField(raw, "response_ms"), HeadersField(raw))
      case (Some(at), Some(code), Some(ms), Some(headers)) =>
        Some(CheckResult(raw["service_id"], raw["checker_node_id"], at, raw["status"], code, ms,
                         if Get(raw, "error_message") == Some("") then None else Get(raw, "error_message"),
                         headers, raw["idempotency_key"]))
      case _ => None
  }

  /** What is left of a probe result after the trip: no headers instead of empty
      ones, and the text "None" for a missing or empty error message. */
  function Normal(p: ProbeResult): ProbeResult {
    p.(errorMessage := if p.errorMessage == None || p.errorMessage.value == "" then Some("None") else p.errorMessage,
       rawHeaders := if p.rawHeaders == Some([]) then None else p.rawHeaders)
  }

  function RowOf(service: string, node: string, at: int, round: int, p: ProbeResult): CheckResult {
    CheckResult(service, node, at, p.status, p.statusCode, p.responseMs, p.errorMessage, p.rawHeaders,
                Key(service, node, round))
  }

  lemma OptionalIntBack(n: Option<int>, raw: Wire, k: string)
    requires k in raw && raw[k] == OptionalInt(n)
    ensures OptionalIntField(raw, k) == Some(n)
  {
    if n.Some? {
      IntRoundTrip(n.value);
      assert ParseInt("None") == None by {
        assert "None"[0] == 'N' && !AllDigits("None");
      }
    }
  }

  lemma HeadersBack(h: Option<Json.Headers>, raw: Wire)
    requires h.Some? ==> Json.IsDict(h.value)
    requires "raw_headers" in raw
    requires raw["raw_headers"] == if h == None || h.value == [] then "None" else Json.Dumps(h.value)
    ensures HeadersField(raw) == Some(if h == Some([]) then None else h)
  {
    if h.Some? && h.value != [] {
      Json.RoundTrip(h.value);
      assert Json.Dumps(h.value)[0] == '{' && "None"[0] == 'N';
    }
  }

  /** A result is read as its normal form, so it comes back as it was exactly
      when it had a non-empty error message and no empty header dict. */
  lemma ResultRoundTrip(iso: Iso, service: string, node: string, at: int, round: int, p: ProbeResult)
    requires Faithful(iso) && (p.rawHeaders.Some? ==> Json.IsDict(p.rawHeaders.value))
    ensures ParseResult(iso, EncodeResult(iso, service, node, at, round, p))
         == Some(RowOf(service, node, at, round, Normal(p)))
    ensures ParseResult(iso, EncodeResult(iso, service, node, at, round, p)) == Some(RowOf(service, node, at, round, p))
      <==> p.errorMessage.Some? && p.errorMessage.value != "" && p.rawHeaders != Some([])
  {
    var raw := EncodeResult(iso, service, node, at, round, p);
    assert iso.parse(iso.format(at)) == Some(at);
    OptionalIntBack(p.statusCode, raw, "status_code");
    OptionalIntBack(p.responseMs, raw, "response_ms");
    HeadersBack(p.rawHeaders, raw);
  }

  /** A second trip loses nothing more. */
  lemma NormalIsIdempotent(p: ProbeResult)
    ensures Normal(Normal(p)) == Normal(p)
    ensures Normal(p) == p <==> p.errorMessage.Some? && p.errorMessage.value != "" && p.rawHeaders != Some([])
  {
  }

  // ---- Fields that are missing or empty ----

  /** An entry without one of these fields is not a task. */
  lemma TaskNeeds(raw: Wire, k: string)
    requires k in {"service_id", "url", "method", "timeout_ms", "expected_status", "interval_secs", "scheduled_round"}
    requires k !in raw
    ensures ParseTask(raw) == None
  {
  }

  /** Without its body a task has none, and without its headers, or with an empty
      text for them, it has no headers. */
  lemma TaskCanDoWithout(raw: Wire)
    requires ParseTask(raw).Some?
    ensures ParseTask(raw - {"body"}) == Some(ParseTask(raw).value.(body := None))
    ensures ParseTask(raw - {"headers"}) == Some(ParseTask(raw).value.(headers := []))
    ensures ParseTask(raw["headers" := ""]) == Some(ParseTask(raw).value.(headers := []))
  {
  }

  /** An entry without one of these fields is not a result. */
  lemma ResultNeeds(iso: Iso, raw: Wire, k: string)
    requires k in {"service_id", "checker_node_id", "checked_at", "status", "idempotency_key"} && k !in raw
    ensures ParseResult(iso, raw) == None
  {
  }

  /** The row of a result of which a field is missing or empty. */
  function WithoutField(row: CheckResult, k: string): CheckResult {
    if k == "status_code" then row.(statusCode := None)
    else if k == "response_ms" then row.(responseMs := None)
    else if k == "error_message" then row.(errorMessage := None)
    else row.(rawHeaders := None)
  }

  /** Any other field is absent from the row if it is missing, */
  lemma ResultCanDoWithout(iso: Iso, raw: Wire, k: string)
    requires ParseResult(iso, raw).Some? && k in {"status_code", "response_ms", "error_message", "raw_headers"}
    ensures ParseResult(iso, raw - {k}) == Some(WithoutField(ParseResult(iso, raw).value, k))
  {
    if k == "status_code" {
      assert OptionalIntField(raw - {k}, k) == Some(None);
    } else if k == "response_ms" {
      assert OptionalIntField(raw - {k}, k) == Some(None);
    }
  }

  /** or empty. */
  lemma EmptyIsMissing(iso: Iso, raw: Wire, k: string)
    requires ParseResult(iso, raw).Some? && k in {"status_code", "response_ms", "error_message", "raw_headers"}
    ensures ParseResult(iso, raw[k := ""]) == Some(WithoutField(ParseResult(iso, raw).value, k))
  {
    if k == "status_code" {
      assert OptionalIntField(raw[k := ""], k) == Some(None);
    } else if k == "response_ms" {
      assert OptionalIntField(raw[k := ""], k) == Some(None);
    }
  }
}
