/**
 * The server's tables (app/models.py) as one in-memory database: services
 * by primary key, the check history and the alert states in insertion
 * order. Primary keys come from PostgreSQL sequences, which only count up.
 * Timestamps are integer microseconds.
 */
module Store {
  import opened Common

  datatype ServiceRow = ServiceRow(id: nat, name: string, url: string, createdAt: int)

  datatype CheckRow = CheckRow(id: nat, serviceId: nat, status: Status, statusCode: int,
                               latency: real, checkedAt: int)

  datatype AlertRow = AlertRow(id: nat, serviceId: nat, lastStatus: Status, failureCount: nat)

  class Database {
    var services: map<nat, ServiceRow>
    var checks: seq<CheckRow>
    var alerts: seq<AlertRow>
    var nextServiceId: nat
    var nextCheckId: nat

    /**
     * Keys match rows and lie below the next sequence value; every check
     * and alert state belongs to an existing service (the foreign keys);
     * check ids grow in insertion order.
     */
    ghost predicate Valid()
      reads this
    {
      nextServiceId >= 1 && nextCheckId >= 1
      && (forall id :: id in services ==> services[id].id == id && 1 <= id < nextServiceId)
      && (forall i :: 0 <= i < |checks| ==> checks[i].serviceId in services && 1 <= checks[i].id < nextCheckId)
      && (forall i, j :: 0 <= i < j < |checks| ==> checks[i].id < checks[j].id)
      && (forall i :: 0 <= i < |alerts| ==> alerts[i].serviceId in services)
    }

    constructor Empty()
      ensures Valid()
      ensures services == map[] && checks == [] && alerts == []
      ensures nextServiceId == 1 && nextCheckId == 1
    {
      services, checks, alerts := map[], [], [];
      nextServiceId, nextCheckId := 1, 1;
    }
  }

  /** The checks of one service, in insertion order. */
  function ChecksOf(checks: seq<CheckRow>, serviceId: nat): (r: seq<CheckRow>)
    ensures |r| <= |checks|
    ensures forall i :: 0 <= i < |r| ==> r[i].serviceId == serviceId
  {
    if |checks| == 0 then []
    else ChecksOf(checks[..|checks| - 1], serviceId)
         + (if checks[|checks| - 1].serviceId == serviceId then [checks[|checks| - 1]] else [])
  }

  /** The filter keeps exactly the service's checks. */
  lemma {:induction false} ChecksOfMembers(checks: seq<CheckRow>, serviceId: nat, c: CheckRow)
    ensures c in ChecksOf(checks, serviceId) <==> c in checks && c.serviceId == serviceId
  {
    if |checks| > 0 {
      var init := checks[..|checks| - 1];
      ChecksOfMembers(init, serviceId, c);
      assert checks == init + [checks[|checks| - 1]];
    }
  }

  /** Appending a check of another service leaves a service's checks alone; one of its own extends them. */
  lemma ChecksOfAppend(checks: seq<CheckRow>, c: CheckRow, serviceId: nat)
    ensures ChecksOf(checks + [c], serviceId)
         == ChecksOf(checks, serviceId) + (if c.serviceId == serviceId then [c] else [])
  {
    assert (checks + [c])[..|checks|] == checks;
  }

  /** The rows that survive when a service is deleted: all rows of other services. */
  function DropChecks(checks: seq<CheckRow>, serviceId: nat): (r: seq<CheckRow>)
    ensures |r| <= |checks|
    ensures forall i :: 0 <= i < |r| ==> r[i].serviceId != serviceId
  {
    if |checks| == 0 then []
    else (if checks[0].serviceId == serviceId then [] else [checks[0]]) + DropChecks(checks[1..], serviceId)
  }

  lemma {:induction false} DropChecksMembers(checks: seq<CheckRow>, serviceId: nat, c: CheckRow)
    ensures c in DropChecks(checks, serviceId) <==> c in checks && c.serviceId != serviceId
  {
    if |checks| > 0 {
      DropChecksMembers(checks[1..], serviceId, c);
      assert checks == [checks[0]] + checks[1..];
    }
  }

  /** Dropping keeps the surviving rows in their order, so their ids still grow. */
  lemma {:induction false} DropChecksSubsequence(checks: seq<CheckRow>, serviceId: nat)
    requires forall i, j :: 0 <= i < j < |checks| ==> checks[i].id < checks[j].id
    ensures var r := DropChecks(checks, serviceId);
      forall i, j :: 0 <= i < j < |r| ==> r[i].id < r[j].id
  {
    if |checks| > 0 {
      var rest := checks[1..];
      DropChecksSubsequence(rest, serviceId);
      var r := DropChecks(checks, serviceId);
      forall k | 0 <= k < |DropChecks(rest, serviceId)|
        ensures checks[0].id < DropChecks(rest, serviceId)[k].id
      {
        var x := DropChecks(rest, serviceId)[k];
        DropChecksMembers(rest, serviceId, x);
        var m :| 0 <= m < |rest| && rest[m] == x;
        assert checks[m + 1] == x;
      }
    }
  }

  function DropAlerts(alerts: seq<AlertRow>, serviceId: nat): (r: seq<AlertRow>)
    ensures |r| <= |alerts|
    ensures forall i :: 0 <= i < |r| ==> r[i].serviceId != serviceId
    ensures forall a :: a in alerts && a.serviceId != serviceId ==> a in r
    ensures forall i :: 0 <= i < |r| ==> r[i] in alerts
  {
    if |alerts| == 0 then []
    else (if alerts[0].serviceId == serviceId then [] else [alerts[0]]) + DropAlerts(alerts[1..], serviceId)
  }

  /** The cascade distributes over concatenation: surviving alert states keep their order and multiplicity. */
  lemma {:induction false} DropAlertsAppend(a: seq<AlertRow>, b: seq<AlertRow>, serviceId: nat)
    ensures DropAlerts(a + b, serviceId) == DropAlerts(a, serviceId) + DropAlerts(b, serviceId)
  {
    if |a| == 0 {
      assert a + b == b;
    } else {
      assert (a + b)[0] == a[0];
      assert (a + b)[1..] == a[1..] + b;
      DropAlertsAppend(a[1..], b, serviceId);
    }
  }
}
