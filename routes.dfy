/**
 * The HTTP API (app/routes.py): create, list, fetch and delete services,
 * page through a service's check history, and the background task that
 * checks a new service right away. FastAPI's request validation (the 422
 * answers) is written out where the handlers' parameters declare it.
 */
module Routes {
  import opened Common
  import opened Store
  import opened HealthChecks
  import Metrics
  import Windows
  import Card

  const NOT_FOUND := "Service not found"
  const DEFAULT_LIMIT := 50
  const MIN_LIMIT := 1
  const MAX_LIMIT := 500
  const DEFAULT_OFFSET := 0

  /** The error answers: 404 with its detail, or 422 naming the rejected field. */
  datatype HttpError = NotFound(detail: string) | Unprocessable(field: string)

  /** FastAPI's BackgroundTasks: service ids whose immediate check runs after the response. */
  class TaskQueue {
    var pending: seq<nat>

    constructor Empty()
      ensures pending == []
    {
      pending := [];
    }
  }

  // ------------------------------------------------------------ services

  /**
   * POST /services. `url` is the request's URL as pydantic's AnyHttpUrl
   * normalises it, None when it is not an http(s) URL (a 422). The row gets
   * the next id, and its immediate check is queued.
   */
  method CreateService(db: Database, tasks: TaskQueue, name: string, url: Option<string>, createdAt: int)
    returns (r: Result<ServiceRow, HttpError>)
    requires db.Valid()
    modifies db, tasks
    ensures db.Valid()
    ensures url.None? ==> (r == Err(Unprocessable("url"))
      && db.services == old(db.services) && db.nextServiceId == old(db.nextServiceId)
      && tasks.pending == old(tasks.pending))
    ensures url.Some? ==> (r.Ok?
      && r.value == ServiceRow(old(db.nextServiceId), name, url.value, createdAt)
      && r.value.id !in old(db.services)
      && db.services == old(db.services)[r.value.id := r.value]
      && db.nextServiceId == old(db.nextServiceId) + 1
      && tasks.pending == old(tasks.pending) + [r.value.id])
    ensures db.checks == old(db.checks) && db.alerts == old(db.alerts) && db.nextCheckId == old(db.nextCheckId)
  {
    if url.None? {
      return Err(Unprocessable("url"));
    }
    var row := ServiceRow(db.nextServiceId, name, url.value, createdAt);
    db.services := db.services[row.id := row];
    db.nextServiceId := db.nextServiceId + 1;
    tasks.pending := tasks.pending + [row.id];
    r := Ok(row);
  }

  /** The rows of a service table whose ids are below k, by ascending id. */
  function ServicesBelow(m: map<nat, ServiceRow>, k: nat): (r: seq<ServiceRow>)
    requires forall id :: id in m ==> m[id].id == id
    ensures forall i, j :: 0 <= i < j < |r| ==> r[i].id < r[j].id
    ensures forall i :: 0 <= i < |r| ==> r[i].id < k && r[i].id in m && m[r[i].id] == r[i]
  {
    if k == 0 then []
    else ServicesBelow(m, k - 1) + if k - 1 in m then [m[k - 1]] else []
  }

  /** Every row with an id below k is listed. */
  lemma {:induction false} ServicesBelowComplete(m: map<nat, ServiceRow>, k: nat)
    requires forall id :: id in m ==> m[id].id == id
    ensures forall id :: id in m && id < k ==> m[id] in ServicesBelow(m, k)
  {
    if k > 0 {
      ServicesBelowComplete(m, k - 1);
    }
  }

  /** GET /services: every service exactly once, by ascending id. */
  function ListServices(db: Database): (r: seq<ServiceRow>)
    reads db
    requires db.Valid()
    ensures forall i, j :: 0 <= i < j < |r| ==> r[i].id < r[j].id
    ensures forall i :: 0 <= i < |r| ==> r[i].id in db.services && db.services[r[i].id] == r[i]
    ensures forall id :: id in db.services ==> db.services[id] in r
  {
    ServicesBelowComplete(db.services, db.nextServiceId);
    ServicesBelow(db.services, db.nextServiceId)
  }

  /** GET /services/{id}: the row, or 404 "Service not found". */
  function GetService(db: Database, id: int): (r: Result<ServiceRow, HttpError>)
    reads db
    requires db.Valid()
    ensures r.Ok? <==> id >= 0 && id in db.services
    ensures r.Ok? ==> r.value.id == id && db.services[id] == r.value
    ensures r.Err? ==> r.error == NotFound(NOT_FOUND)
  {
    if id >= 0 && id in db.services then Ok(db.services[id]) else Err(NotFound(NOT_FOUND))
  }

  /**
   * DELETE /services/{id}: 404 when absent; otherwise the service goes, and
   * with it (by the ORM's cascade) its check history and its alert state.
   */
  method DeleteService(db: Database, id: int) returns (r: Result<(), HttpError>)
    requires db.Valid()
    modifies db
    ensures db.Valid()
    ensures r.Err? <==> !(id >= 0 && id in old(db.services))
    ensures r.Err? ==> (r.error == NotFound(NOT_FOUND)
      && db.services == old(db.services) && db.checks == old(db.checks) && db.alerts == old(db.alerts))
    ensures r.Ok? ==> (db.services == old(db.services) - {id as nat}
      && db.checks == DropChecks(old(db.checks), id as nat)
      && db.alerts == DropAlerts(old(db.alerts), id as nat))
    ensures db.nextServiceId == old(db.nextServiceId) && db.nextCheckId == old(db.nextCheckId)
  {
    if !(id >= 0 && id in db.services) {
      return Err(NotFound(NOT_FOUND));
    }
    var sid: nat := id;
    var checks := DropChecks(db.checks, sid);
    forall i | 0 <= i < |checks|
      ensures checks[i].serviceId in db.services - {sid} && 1 <= checks[i].id < db.nextCheckId
    {
      DropChecksMembers(db.checks, sid, checks[i]);
    }
    DropChecksSubsequence(db.checks, sid);
    db.services := db.services - {sid};
    db.checks := checks;
    db.alerts := DropAlerts(db.alerts, sid);
    r := Ok(());
  }

  /** After a delete nothing refers to the service any more. */
  lemma DeleteLeavesNoTrace(checks: seq<CheckRow>, alerts: seq<AlertRow>, id: nat)
    ensures ChecksOf(DropChecks(checks, id), id) == []
    ensures forall a :: a in DropAlerts(alerts, id) ==> a.serviceId != id
  {
    var d := DropChecks(checks, id);
    var c := ChecksOf(d, id);
    if |c| > 0 {
      ChecksOfMembers(d, id, c[0]);
      assert false;
    }
  }

  // ------------------------------------------------------------- history

  predicate NewestFirst(s: seq<CheckRow>)
  {
    forall i, j :: 0 <= i < j < |s| ==> s[j].checkedAt <= s[i].checkedAt
  }

  /** Places a row after every leading row that is at least as new. */
  function Insert(x: CheckRow, s: seq<CheckRow>): (r: seq<CheckRow>)
    ensures multiset(r) == multiset(s) + multiset{x} && |r| == |s| + 1
  {
    if |s| == 0 then [x]
    else if s[0].checkedAt >= x.checkedAt then
      assert s == [s[0]] + s[1..];
      [s[0]] + Insert(x, s[1..])
    else
      [x] + s
  }

  /** A row at least as new as the head of a newest-first list can go in front of it. */
  lemma ConsNewestFirst(x: CheckRow, s: seq<CheckRow>)
    requires NewestFirst(s)
    requires |s| > 0 ==> s[0].checkedAt <= x.checkedAt
    ensures NewestFirst([x] + s)
  {
    var r := [x] + s;
    forall i, j | 0 <= i < j < |r| ensures r[j].checkedAt <= r[i].checkedAt {
      assert r[j] == s[j - 1];
      if i > 0 { assert r[i] == s[i - 1]; }
    }
  }

  /** Inserting into a newest-first list keeps it newest first. */
  lemma {:induction false} InsertNewestFirst(x: CheckRow, s: seq<CheckRow>)
    requires NewestFirst(s)
    ensures NewestFirst(Insert(x, s))
    ensures Insert(x, s)[0] == x || (|s| > 0 && Insert(x, s)[0] == s[0])
  {
    if |s| == 0 {
    } else if s[0].checkedAt >= x.checkedAt {
      var rest := Insert(x, s[1..]);
      InsertNewestFirst(x, s[1..]);
      assert Insert(x, s) == [s[0]] + rest;
      assert rest[0].checkedAt <= s[0].checkedAt;
      ConsNewestFirst(s[0], rest);
    } else {
      assert Insert(x, s) == [x] + s;
      ConsNewestFirst(x, s);
    }
  }

  /**
   * `ORDER BY checked_at DESC`. PostgreSQL leaves the order of equal
   * timestamps open; here the row appended last comes first among them.
   */
  function SortNewestFirst(s: seq<CheckRow>): (r: seq<CheckRow>)
    ensures NewestFirst(r)
    ensures multiset(r) == multiset(s) && |r| == |s|
  {
    if |s| == 0 then []
    else
      assert s == [s[0]] + s[1..];
      var sorted := SortNewestFirst(s[1..]);
      InsertNewestFirst(s[0], sorted);
      Insert(s[0], sorted)
  }

  /** `OFFSET offset LIMIT limit`. */
  function Page<T>(s: seq<T>, offset: nat, limit: nat): (r: seq<T>)
    ensures |r| == Min(limit, Max(0, |s| - offset))
    ensures forall i :: 0 <= i < |r| ==> r[i] == s[offset + i]
  {
    if offset >= |s| then [] else s[offset..Min(offset + limit, |s|)]
  }

  /** Two consecutive pages make one page as long as both. */
  lemma PagesConcatenate<T>(s: seq<T>, offset: nat, a: nat, b: nat)
    ensures Page(s, offset, a) + Page(s, offset + a, b) == Page(s, offset, a + b)
  {
    var p, q, w := Page(s, offset, a), Page(s, offset + a, b), Page(s, offset, a + b);
    assert |p + q| == |w|;
    forall i | 0 <= i < |w| ensures (p + q)[i] == w[i] {
      if i >= |p| {
        assert (p + q)[i] == q[i - |p|] == s[offset + a + (i - |p|)];
      }
    }
  }

  /** `select(CheckResult).where(service_id == id).order_by(checked_at.desc())`. */
  function ServiceHistory(checks: seq<CheckRow>, id: nat): (r: seq<CheckRow>)
    ensures NewestFirst(r) && |r| == |ChecksOf(checks, id)|
    ensures multiset(r) == multiset(ChecksOf(checks, id))
  {
    SortNewestFirst(ChecksOf(checks, id))
  }

  /**
   * The history handler once FastAPI has accepted its parameters: 404 for
   * an unknown service, else the service's checks, newest first, from
   * `offset` on, at most `limit` of them.
   */
  function GetHistory(db: Database, id: int, limit: nat, offset: nat): (r: Result<seq<CheckRow>, HttpError>)
    reads db
    requires db.Valid()
    ensures r.Err? <==> !(id >= 0 && id in db.services)
    ensures r.Err? ==> r.error == NotFound(NOT_FOUND)
    ensures r.Ok? ==> |r.value| == Min(limit, Max(0, |ChecksOf(db.checks, id)| - offset))
    ensures r.Ok? ==> NewestFirst(r.value)
    ensures r.Ok? ==> forall i :: 0 <= i < |r.value| ==> r.value[i] in db.checks && r.value[i].serviceId == id
    ensures r.Ok? ==> id >= 0 && forall i :: 0 <= i < |r.value| ==>
      offset + i < |ServiceHistory(db.checks, id)| && r.value[i] == ServiceHistory(db.checks, id)[offset + i]
  {
    if !(id >= 0 && id in db.services) then Err(NotFound(NOT_FOUND))
    else
      var sid: nat := id;
      var page := Page(ServiceHistory(db.checks, sid), offset, limit);
      HistoryPage(ServiceHistory(db.checks, sid), |ChecksOf(db.checks, sid)|, offset, limit, page);
      HistoryPageRows(db.checks, sid, offset, limit, page);
      Ok(page)
  }

  /** What a page of a newest-first list of n rows holds. */
  lemma HistoryPage(sorted: seq<CheckRow>, n: nat, offset: nat, limit: nat, page: seq<CheckRow>)
    requires NewestFirst(sorted) && |sorted| == n
    requires page == Page(sorted, offset, limit)
    ensures |page| == Min(limit, Max(0, n - offset))
    ensures NewestFirst(page)
    ensures forall i :: 0 <= i < |page| ==> offset + i < |sorted| && page[i] == sorted[offset + i]
  {
    PageNewestFirst(sorted, offset, limit);
  }

  /** A page of a newest-first list is newest first. */
  lemma PageNewestFirst(s: seq<CheckRow>, offset: nat, limit: nat)
    requires NewestFirst(s)
    ensures NewestFirst(Page(s, offset, limit))
  {
    var page := Page(s, offset, limit);
    forall i, j | 0 <= i < j < |page| ensures page[j].checkedAt <= page[i].checkedAt {
      assert page[i] == s[offset + i] && page[j] == s[offset + j];
    }
  }

  /** A page of the sorted history holds only rows of the service that are in the table. */
  lemma HistoryPageRows(checks: seq<CheckRow>, id: nat, offset: nat, limit: nat, page: seq<CheckRow>)
    requires page == Page(ServiceHistory(checks, id), offset, limit)
    ensures forall i :: 0 <= i < |page| ==> page[i] in checks && page[i].serviceId == id
  {
    var all := ChecksOf(checks, id);
    var sorted := SortNewestFirst(all);
    assert sorted == ServiceHistory(checks, id);
    forall i | 0 <= i < |page| ensures page[i] in checks && page[i].serviceId == id {
      assert page[i] == sorted[offset + i];
      assert page[i] in multiset(sorted);
      assert page[i] in all;
      ChecksOfMembers(checks, id, page[i]);
    }
  }

  /**
   * GET /services/{id}/history as a request: missing parameters take their
   * defaults (50, 0); a limit outside 1..500 or a negative offset is a 422
   * before the handler runs; otherwise the handler answers.
   */
  function HistoryRequest(db: Database, id: int, limit: Option<int>, offset: Option<int>): (r: Result<seq<CheckRow>, HttpError>)
    reads db
    requires db.Valid()
    ensures var l := if limit.Some? then limit.value else DEFAULT_LIMIT;
            var o := if offset.Some? then offset.value else DEFAULT_OFFSET;
            (r == Err(Unprocessable("limit")) <==> !(MIN_LIMIT <= l <= MAX_LIMIT))
            && (MIN_LIMIT <= l <= MAX_LIMIT && o < 0 ==> r == Err(Unprocessable("offset")))
            && (MIN_LIMIT <= l <= MAX_LIMIT && o >= 0 ==> r == GetHistory(db, id, l, o))
            && (r.Ok? ==> |r.value| <= l)
  {
    var l := if limit.Some? then limit.value else DEFAULT_LIMIT;
    var o := if offset.Some? then offset.value else DEFAULT_OFFSET;
    if !(MIN_LIMIT <= l <= MAX_LIMIT) then Err(Unprocessable("limit"))
    else if o < 0 then Err(Unprocessable("offset"))
    else GetHistory(db, id, l, o)
  }

  /** The first n pages of size `limit`, concatenated. */
  function PagesUpTo<T>(s: seq<T>, limit: nat, n: nat): (r: seq<T>)
  {
    if n == 0 then [] else PagesUpTo(s, limit, n - 1) + Page(s, (n - 1) * limit, limit)
  }

  lemma {:induction false} PagesUpToIsPrefix<T>(s: seq<T>, limit: nat, n: nat)
    ensures PagesUpTo(s, limit, n) == Page(s, 0, n * limit)
  {
    if n > 0 {
      PagesUpToIsPrefix(s, limit, n - 1);
      PagesConcatenate(s, 0, (n - 1) * limit, limit);
      assert (n - 1) * limit + limit == n * limit;
    }
  }

  /** Paging with the same limit visits every row once, in order. */
  lemma PagesCover<T>(s: seq<T>, limit: nat, n: nat)
    requires n * limit >= |s|
    ensures PagesUpTo(s, limit, n) == s
  {
    PagesUpToIsPrefix(s, limit, n);
  }

  /** HistoryOut as the dashboard reads it. */
  function ToClientRecord(row: CheckRow): (c: Metrics.CheckRecord)
    ensures Metrics.IsUp(c) <==> row.status == Up
    ensures c.latency == row.latency && c.checkedAt == row.checkedAt && c.statusCode == row.statusCode
  {
    Metrics.CheckRecord(row.status, row.statusCode, row.latency, row.checkedAt)
  }

  /** A check shows as UP on the dashboard exactly when the URL answered at all. */
  lemma UpOnDashboardIffAnswered(id: nat, serviceId: nat, p: Probe, start: int, end: int)
    ensures Metrics.IsUp(ToClientRecord(CheckRowFor(id, serviceId, p, start, end))) <==> p.Responded?
  {
  }

  /** The response body as the dashboard receives it, row by row. */
  function ToClientHistory(rows: seq<CheckRow>): (h: seq<Metrics.CheckRecord>)
    ensures |h| == |rows|
    ensures forall i :: 0 <= i < |rows| ==> h[i] == ToClientRecord(rows[i])
  {
    seq(|rows|, i requires 0 <= i < |rows| => ToClientRecord(rows[i]))
  }

  /** A newest-first page reaches the dashboard newest first, as the uptime bar expects. */
  lemma ClientHistoryNewestFirst(rows: seq<CheckRow>)
    requires NewestFirst(rows)
    ensures Windows.NewestFirst(ToClientHistory(rows))
  {
    var h := ToClientHistory(rows);
    forall i, j | 0 <= i < j < |h| ensures h[j].checkedAt <= h[i].checkedAt {
      assert h[i].checkedAt == rows[i].checkedAt && h[j].checkedAt == rows[j].checkedAt;
    }
  }

  /**
   * The card's request `?limit=50` (no offset) is never refused for its
   * parameters: it gets the service's newest min(50, n) checks, newest first.
   */
  lemma CardRequestGetsNewest(db: Database, id: int)
    requires db.Valid()
    ensures var r := HistoryRequest(db, id, Some(Card.HISTORY_LIMIT), None);
      r == GetHistory(db, id, Card.HISTORY_LIMIT, 0)
      && (r.Err? <==> !(id >= 0 && id in db.services))
      && (r.Ok? ==> |r.value| == Min(Card.HISTORY_LIMIT, |ChecksOf(db.checks, id)|)
                    && r.value == ServiceHistory(db.checks, id)[..|r.value|])
  {
    var r := HistoryRequest(db, id, Some(Card.HISTORY_LIMIT), None);
    if r.Ok? {
      var sh := ServiceHistory(db.checks, id);
      assert |r.value| <= |sh|;
      assert r.value == sh[..|r.value|];
    }
  }

  // ------------------------------------------------------ immediate check

  /**
   * _immediate_check: look the service up and, if it still exists, check it.
   * `dbAvailable` is false when the session raises; the error is logged
   * and nothing is written.
   */
  method ImmediateCheck(db: Database, id: nat, p: Probe, start: int, end: int, dbAvailable: bool)
    requires db.Valid()
    modifies db
    ensures db.Valid()
    ensures dbAvailable && id in old(db.services) ==>
      db.checks == old(db.checks) + [CheckRowFor(old(db.nextCheckId), id, p, start, end)]
    ensures !(dbAvailable && id in old(db.services)) ==> db.checks == old(db.checks)
    ensures db.services == old(db.services) && db.alerts == old(db.alerts)
    ensures db.nextServiceId == old(db.nextServiceId)
    ensures db.nextCheckId == old(db.nextCheckId) + (if dbAvailable && id in old(db.services) then 1 else 0)
  {
    if dbAvailable && id in db.services {
      var service := db.services[id];
      var _ := CheckService(db, service, p, start, end);
    }
  }

  /** The queued task of the oldest create runs after its response was sent. */
  method RunNextTask(db: Database, tasks: TaskQueue, p: Probe, start: int, end: int, dbAvailable: bool)
    requires db.Valid() && |tasks.pending| > 0
    modifies db, tasks
    ensures db.Valid()
    ensures tasks.pending == old(tasks.pending)[1..]
    ensures var id := old(tasks.pending)[0];
      dbAvailable && id in old(db.services) ==>
        db.checks == old(db.checks) + [CheckRowFor(old(db.nextCheckId), id, p, start, end)]
    ensures !(dbAvailable && old(tasks.pending)[0] in old(db.services)) ==> db.checks == old(db.checks)
    ensures db.services == old(db.services) && db.alerts == old(db.alerts)
    ensures db.nextServiceId == old(db.nextServiceId)
    ensures db.nextCheckId == old(db.nextCheckId) + (if dbAvailable && old(tasks.pending)[0] in old(db.services) then 1 else 0)
  {
    var id := tasks.pending[0];
    tasks.pending := tasks.pending[1..];
    ImmediateCheck(db, id, p, start, end, dbAvailable);
  }
}
