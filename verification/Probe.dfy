/** The HTTP probe: what each request outcome is recorded as, and the retry loop
    with exponential backoff. */
module Probe {
  import opened Wrappers
  import opened Decimal
  import opened Codec
  import opened Database
  import Keys
  import Json

  /** What a request can end in.  Texts of exceptions are arbitrary. */
  datatype Outcome =
    | Response(code: int, elapsedMs: nat, headers: Json.Headers)
    | TimedOut(elapsedMs: nat, kind: string)
    | ConnectError(text: string)
    | OtherError(kind: string, text: string)

  /** `_do_probe`. */
  function Record(expected: int, o: Outcome): ProbeResult {
    match o
    case Response(code, ms, headers) =>
      if code == expected
      then ProbeResult("up", Some(code), Some(ms), None, Some(headers))
      else ProbeResult("down", Some(code), Some(ms),
                       Some("Expected " + IntText(expected) + ", got " + IntText(code)), Some(headers))
    case TimedOut(ms, kind) =>
      ProbeResult("timeout", None, Some(ms), Some("Timeout after " + IntText(ms) + "ms: " + kind), None)
    case ConnectError(text) => ProbeResult("error", None, None, Some("Connection error: " + text), None)
    case OtherError(kind, text) => ProbeResult("error", None, None, Some(kind + ": " + text), None)
  }

  function Pow2(n: nat): nat {
    if n == 0 then 1 else 2 * Pow2(n - 1)
  }

  /** `probe`.  `outcomes` says how each of the possible attempts would end.  It
      returns the first record that is not an error, or the last one, after
      sleeping base, 2 base, 4 base, ... before each attempt but the first. */
  method Probe(expected: int, outcomes: seq<Outcome>, maxRetries: nat, baseMs: nat)
    returns (last: ProbeResult, attempts: nat, sleptMs: nat)
    requires |outcomes| == maxRetries + 1
    ensures 1 <= attempts <= maxRetries + 1
    ensures last == Record(expected, outcomes[attempts - 1])
    ensures forall k :: 0 <= k < attempts - 1 ==> Record(expected, outcomes[k]).status == "error"
    ensures attempts <= maxRetries ==> last.status != "error"
    ensures sleptMs == baseMs * (Pow2(attempts - 1) - 1)
  {
    last := Record(expected, outcomes[0]);
    attempts, sleptMs := 0, 0;
    for attempt := 0 to maxRetries + 1
      invariant attempts == attempt
      invariant forall k :: 0 <= k < attempt ==> Record(expected, outcomes[k]).status == "error"
      invariant attempt > 0 ==> last == Record(expected, outcomes[attempt - 1])
      invariant sleptMs == if attempt == 0 then 0 else baseMs * (Pow2(attempt - 1) - 1)
    {
      if attempt > 0 {
        var delayMs := baseMs * Pow2(attempt - 1);
        BackoffAdds(baseMs, attempt - 1);
        sleptMs := sleptMs + delayMs;
      }
      last := Record(expected, outcomes[attempt]);
      attempts := attempt + 1;
      if last.status != "error" {
        return;
      }
    }
  }

  lemma BackoffAdds(baseMs: nat, n: nat)
    ensures baseMs * (Pow2(n) - 1) + baseMs * Pow2(n) == baseMs * (Pow2(n + 1) - 1)
  {
    assert baseMs * Pow2(n + 1) == baseMs * Pow2(n) + baseMs * Pow2(n);
  }

  // ---- What can be read back from a record ----

  /** The text before the first `c`. */
  function UpTo(c: char, t: string): string {
    if t == [] || t[0] == c then [] else [t[0]] + UpTo(c, t[1..])
  }

  lemma {:induction false} UpToFirst(c: char, a: string, rest: string)
    requires c !in a
    ensures UpTo(c, a + [c] + rest) == a
  {
    var t := a + [c] + rest;
    if a == [] {
      assert t[0] == c;
    } else {
      assert t[0] == a[0] && t[1..] == a[1..] + [c] + rest;
      UpToFirst(c, a[1..], rest);
    }
  }

  /** What follows the first `c`. */
  function After(c: char, t: string): string {
    if |UpTo(c, t)| < |t| then t[|UpTo(c, t)| + 1..] else []
  }

  lemma AfterFirst(c: char, a: string, rest: string)
    requires c !in a
    ensures After(c, a + [c] + rest) == rest
  {
    UpToFirst(c, a, rest);
    assert (a + [c] + rest)[|a| + 1..] == rest;
  }

  /** The message of a "down" record tells the expected and the actual code. */
  predicate TellsCodes(message: string, expected: int, code: int) {
    && |message| > 9 && message[..9] == "Expected "
    && ParseInt(UpTo(',', message[9..])) == Some(expected)
    && |After(',', message[9..])| > 5 && After(',', message[9..])[..5] == " got "
    && ParseInt(After(',', message[9..])[5..]) == Some(code)
  }

  /** That of a "timeout" record tells how long the attempt took, and what ended it. */
  predicate TellsTimeout(message: string, elapsedMs: nat, kind: string) {
    && |message| > 14 && message[..14] == "Timeout after "
    && ParseInt(UpTo('m', message[14..])) == Some(elapsedMs)
    && After('m', message[14..]) == "s: " + kind
  }

  /** That of an "error" record tells the text of the exception, and before it
      its kind unless no connection was made. */
  predicate TellsError(message: string, o: Outcome)
    requires o.ConnectError? || o.OtherError?
  {
    match o
    case ConnectError(text) => |message| >= 18 && message[..18] == "Connection error: " && message[18..] == text
    case OtherError(kind, text) =>
      && |message| == |kind| + 2 + |text|
      && message[..|kind|] == kind && message[|kind|..|kind| + 2] == ": " && message[|kind| + 2..] == text
  }

  /** What the coordinator can tell of an attempt from its row. */
  predicate Tells(row: CheckResult, expected: int, o: Outcome) {
    match o
    case Response(code, ms, headers) =>
      && row.status == (if code == expected then "up" else "down")
      && row.statusCode == Some(code) && row.responseMs == Some(ms)
      && row.rawHeaders == (if headers == [] then None else Some(headers))
      && row.errorMessage.Some?
      && (if code == expected then row.errorMessage.value == "None"
          else TellsCodes(row.errorMessage.value, expected, code))
    case TimedOut(ms, kind) =>
      && row.status == "timeout" && row.statusCode == None && row.responseMs == Some(ms) && row.rawHeaders == None
      && row.errorMessage.Some? && TellsTimeout(row.errorMessage.value, ms, kind)
    case _ =>
      && row.status == "error" && row.statusCode == None && row.responseMs == None && row.rawHeaders == None
      && row.errorMessage.Some? && TellsError(row.errorMessage.value, o)
  }

  lemma CodesAreTold(expected: int, code: int)
    ensures TellsCodes("Expected " + IntText(expected) + ", got " + IntText(code), expected, code)
  {
    var x, y := IntText(expected), IntText(code);
    var m := "Expected " + x + ", got " + y;
    var rest := " got " + y;
    assert ", got " == [','] + " got ";
    assert m[9..] == x + [','] + rest;
    assert ',' !in x;
    UpToFirst(',', x, rest);
    AfterFirst(',', x, rest);
    IntRoundTrip(expected);
    IntRoundTrip(code);
    assert rest[5..] == y && rest[..5] == " got ";
  }

  lemma TimeoutIsTold(ms: nat, kind: string)
    ensures TellsTimeout("Timeout after " + IntText(ms) + "ms: " + kind, ms, kind)
  {
    var x := IntText(ms);
    var rest := "s: " + kind;
    assert "ms: " == ['m'] + "s: ";
    assert ("Timeout after " + x + "ms: " + kind)[14..] == x + ['m'] + rest;
    assert 'm' !in x;
    UpToFirst('m', x, rest);
    AfterFirst('m', x, rest);
    IntRoundTrip(ms);
  }

  lemma ErrorIsTold(o: Outcome)
    requires o.ConnectError? || o.OtherError?
    ensures TellsError(Record(0, o).errorMessage.value, o)
  {
    match o
    case ConnectError(text) => assert ("Connection error: " + text)[18..] == text;
    case OtherError(kind, text) =>
      var m := kind + ": " + text;
      assert m[|kind|..|kind| + 2] == ": " && m[|kind| + 2..] == text;
  }

  /** A result that a process publishes for an attempt is read by the coordinator
      as a row of that service, node, time and round which tells the attempt: its
      code, latency and headers if there was a response, its latency if it timed
      out, and what the error was. */
  lemma RowTellsTheAttempt(iso: Iso, service: string, node: string, at: int, round: int, expected: int, o: Outcome)
    requires Faithful(iso) && (o.Response? ==> Json.IsDict(o.headers))
    ensures var row := ParseResult(iso, EncodeResult(iso, service, node, at, round, Record(expected, o)));
      && row.Some?
      && row.value.service == service && row.value.node == node && row.value.checkedAt == at
      && row.value.key == Keys.Key(service, node, round)
      && Tells(row.value, expected, o)
  {
    ResultRoundTrip(iso, service, node, at, round, Record(expected, o));
    match o
    case Response(code, _, _) => CodesAreTold(expected, code);
    case TimedOut(ms, kind) => TimeoutIsTold(ms, kind);
    case _ => ErrorIsTold(o);
  }

  /** A probe result has no error message exactly when it is up; the code and the
      headers are the response's, if there was one, and the latency is the
      attempt's, unless it ended in an error. */
  lemma ShapeOfRecords(expected: int, o: Outcome)
    ensures var r := Record(expected, o);
      && (r.errorMessage == None <==> r.status == "up")
      && (r.statusCode.Some? <==> r.status == "up" || r.status == "down")
      && (r.responseMs == None <==> r.status == "error")
      && (r.status == "up" <==> r.statusCode == Some(expected))
      && r.statusCode == (if o.Response? then Some(o.code) else None)
      && r.responseMs == (if o.Response? || o.TimedOut? then Some(o.elapsedMs) else None)
      && r.rawHeaders == (if o.Response? then Some(o.headers) else None)
      && r.status in {"up", "down", "timeout", "error"}
  {
  }

  /** Although the wire turns a missing error message into the text "None", the
      coordinator can still tell: it reads that text exactly for up results. */
  lemma TheTextNoneMeansUp(iso: Iso, service: string, node: string, at: int, round: int, expected: int, o: Outcome)
    requires Faithful(iso) && (o.Response? ==> Json.IsDict(o.headers))
    ensures var row := ParseResult(iso, EncodeResult(iso, service, node, at, round, Record(expected, o)));
      && row.Some?
      && (row.value.errorMessage == Some("None") <==> row.value.status == "up")
      && row.value.status == Record(expected, o).status && row.value.statusCode == Record(expected, o).statusCode
  {
    var r := Record(expected, o);
    ResultRoundTrip(iso, service, node, at, round, r);
    if r.status != "up" {
      var m := r.errorMessage.value;
      if o.OtherError? {
        assert m[|o.kind|] == ':';
        assert "None" == ['N', 'o', 'n', 'e'];
      } else if o.Response? {
        assert m[0] == 'E';
      } else if o.TimedOut? {
        assert m[0] == 'T';
      } else {
        assert m[0] == 'C';
      }
    }
  }
}
