/**
 * check_service (app/health_checks.py): one GET of a service's URL with a
 * 5-second timeout, classified as UP (any HTTP response) or DOWN (timeout,
 * connection failure, anything else raised), recorded as a new check row.
 * The HTTP client is the parameter `Probe`; the two clock readings are
 * parameters in microseconds.
 */
module HealthChecks {
  import opened Common
  import opened Store

  const TIMEOUT_REASON := "Timeout after 5s"
  const CONNECTION_PREFIX := "ConnectionError: "
  const UNEXPECTED_PREFIX := "Unexpected error: "
  const MICROS_PER_SECOND := 1000000

  /** How `requests.get(url, timeout=5)` ended. */
  datatype Probe =
    | Responded(statusCode: int)       // any HTTP response, whatever its code
    | TimedOut                         // requests.exceptions.Timeout
    | ConnectionFailed(detail: string) // requests.exceptions.ConnectionError, str(exc)
    | Raised(detail: string)           // any other exception, str(exc)

  /** What a probe is recorded as, and the reason logged for a failure. */
  datatype Outcome = Outcome(status: Status, statusCode: int, failureReason: Option<string>)

  function Classify(p: Probe): (o: Outcome)
    ensures o.status == Up <==> p.Responded?
    ensures o.status == Up ==> o.statusCode == p.statusCode
    ensures o.status == Down ==> o.statusCode == 0
    ensures o.failureReason.Some? <==> o.status == Down
    ensures p.TimedOut? ==> o.failureReason == Some(TIMEOUT_REASON)
    ensures p.ConnectionFailed? ==> o.failureReason == Some(CONNECTION_PREFIX + p.detail)
    ensures p.Raised? ==> o.failureReason == Some(UNEXPECTED_PREFIX + p.detail)
  {
    match p
    case Responded(code) => Outcome(Up, code, None)
    case TimedOut => Outcome(Down, 0, Some(TIMEOUT_REASON))
    case ConnectionFailed(d) => Outcome(Down, 0, Some(CONNECTION_PREFIX + d))
    case Raised(d) => Outcome(Down, 0, Some(UNEXPECTED_PREFIX + d))
  }

  /** An HTTP error status still counts as UP: only the absence of a response is DOWN. */
  lemma ServerErrorsAreUp(code: int)
    ensures Classify(Responded(code)).status == Up
    ensures Classify(Responded(code)).statusCode == code
  {
  }

  /** Reads a logged failure reason back into the failure it reports. */
  function ParseFailureReason(reason: string): Option<Probe>
  {
    if |reason| >= |CONNECTION_PREFIX| && reason[..|CONNECTION_PREFIX|] == CONNECTION_PREFIX then
      Some(ConnectionFailed(reason[|CONNECTION_PREFIX|..]))
    else if |reason| >= |UNEXPECTED_PREFIX| && reason[..|UNEXPECTED_PREFIX|] == UNEXPECTED_PREFIX then
      Some(Raised(reason[|UNEXPECTED_PREFIX|..]))
    else if reason == TIMEOUT_REASON then
      Some(TimedOut)
    else
      None
  }

  /**
   * The failure reason identifies the failure: which exception it was and
   * its message, so no two failures are logged alike.
   */
  lemma FailureReasonRoundTrip(p: Probe)
    requires !p.Responded?
    ensures ParseFailureReason(Classify(p).failureReason.value) == Some(p)
  {
    var reason := Classify(p).failureReason.value;
    match p
    case TimedOut =>
      assert reason[0] == 'T';
    case ConnectionFailed(d) =>
      assert reason[..|CONNECTION_PREFIX|] == CONNECTION_PREFIX;
      assert reason[|CONNECTION_PREFIX|..] == d;
    case Raised(d) =>
      assert reason[0] == 'U';
      assert reason[..|UNEXPECTED_PREFIX|] == UNEXPECTED_PREFIX;
      assert reason[|UNEXPECTED_PREFIX|..] == d;
  }

  /** `(end - start).total_seconds()` for microsecond timestamps. */
  function LatencySeconds(start: int, end: int): (s: real)
    ensures start <= end ==> s >= 0.0
    ensures s * MICROS_PER_SECOND as real == (end - start) as real
  {
    (end - start) as real / MICROS_PER_SECOND as real
  }

  /** The row check_service inserts for a probe. */
  function CheckRowFor(id: nat, serviceId: nat, p: Probe, start: int, end: int): (r: CheckRow)
    ensures r.id == id && r.serviceId == serviceId && r.checkedAt == end
    ensures r.status == Classify(p).status && r.statusCode == Classify(p).statusCode
    ensures r.latency == LatencySeconds(start, end)
  {
    var o := Classify(p);
    CheckRow(id, serviceId, o.status, o.statusCode, LatencySeconds(start, end), end)
  }

  /**
   * check_service: probe, classify, and insert exactly one row for the
   * service, stamped with the second clock reading and the elapsed time.
   */
  method CheckService(db: Database, service: ServiceRow, p: Probe, start: int, end: int) returns (record: CheckRow)
    requires db.Valid() && service.id in db.services
    modifies db
    ensures db.Valid()
    ensures record == CheckRowFor(old(db.nextCheckId), service.id, p, start, end)
    ensures db.checks == old(db.checks) + [record]
    ensures db.nextCheckId == old(db.nextCheckId) + 1
    ensures db.services == old(db.services) && db.alerts == old(db.alerts)
    ensures db.nextServiceId == old(db.nextServiceId)
  {
    var o := Classify(p);
    var latency := LatencySeconds(start, end);
    record := CheckRow(db.nextCheckId, service.id, o.status, o.statusCode, latency, end);
    db.checks := db.checks + [record];
    db.nextCheckId := db.nextCheckId + 1;
  }
}
