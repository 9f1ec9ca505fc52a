# SLA Monitor — a Dafny model of the dashboard, the API and the health check

SLA Monitor registers HTTP services, probes each one periodically, stores
every probe as a check record, and shows the results on a React dashboard.
This project models three parts of it and proves what they promise:

- **The dashboard** (`frontend/src/App.jsx`). The pure helpers become
  functions: the latency label, the uptime percentage, the mean latency, the
  uptime colour, and the windows of history shown by the uptime bar and the
  latency chart. The stateful components become classes whose fields are the
  components' state cells. `ServiceCard` holds the per-card polling state
  machine on an integer millisecond clock, the fetch results and the click
  toggles. `Dashboard` holds the 30-second roster poll, delete and add.
  `AddServiceModal` holds the form and its checks. Every network answer
  arrives later as a separate event carrying a success or a failure.
- **The API** (`app/routes.py`). An in-memory `Database` holds the services
  table, the check history and the alert states. Around it sit: create with a
  fresh id and a queued immediate check, list by id, get, delete with
  cascade, and the paginated history query with its parameter validation.
- **The health check** (`app/health_checks.py`). The probe's outcome maps to
  a status, a status code and a failure reason, and exactly one record is
  appended.

Modules, one per file: `Common` (Option, Result, Status), `Text` (decimal
printing and parsing, JavaScript `trim`), `Metrics`, `Windows`, `Api`, `Card`,
`Roster`, `AddService`, `Store`, `HealthChecks`, `Routes`.

Modelling choices:

- Latencies are exact reals. A check's timestamp is an integer count of
  microseconds. The history endpoint hands it to the dashboard unchanged.
  The dashboard only formats timestamps for display, which is left out; the
  model compares them only to state newest-first order. The dashboard's
  timers run on a separate integer clock in milliseconds.
- `Math.round(x)` is `floor(x + 0.5)`. `toFixed(d)` rounds the exact value to
  the nearest multiple of 10^-d, with a tie going to the larger magnitude.
- `uptimePct` returns a string in the source. The model keeps the number that
  string denotes, in tenths of a percent. `uptimeColor` works on that number.
- The browser's `URL` parser is a function parameter `parse`. It yields the
  parsed protocol, or None when `new URL(s)` throws.
- The HTTP client is the datatype `Probe`. Pydantic's URL check on create is
  an `Option<string>` argument: the normalised URL, or None for a 422.
- Service and check ids come from PostgreSQL sequences, so they are never
  reused: `nextServiceId` and `nextCheckId` only count up.

Behaviour of the code that the model keeps as written:

- Pressing Enter in a form field runs `submit` even while a request is in
  flight. Only the button is disabled (`Submit` and `ClickAdd`).
- The roster poll applies a fetch's result even after unmount. Its
  `cancelled` flag is checked only before a fetch starts (`RosterSettled`).
- The backend accepts an empty service name. Only the dashboard refuses blank
  names (`CreateService` versus `Validate`).
- `deleting` on a card is never reset. The delete button therefore stays
  disabled after a failed delete.
- A click on the card's action area, the right-hand side of the header,
  stops propagation. It therefore does not close an open delete popover
  (`Click(Actions)`).

## Model

| member | source | states |
|---|---|---|
| Metrics.MathRound | frontend/src/App.jsx:13 | `Math.round` yields the integer n with x - 0.5 < n <= x + 0.5 |
| Metrics.ToFixedUnits | frontend/src/App.jsx:13 | the scaled integer that `toFixed` prints lies within half a unit of x·scale and has the sign of x |
| Metrics.FmtMs | frontend/src/App.jsx:13 | the label ends in "s", and its second-to-last character is "m" exactly when s < 1 |
| Metrics.FmtMsRoundTrip | frontend/src/App.jsx:13 | the fmtMs label reads back as round(s·1000) ms when s < 1, and as s in hundredths of a second otherwise |
| Metrics.FmtMsUnit | frontend/src/App.jsx:13 | the label ends in "ms" exactly when s < 1 |
| Text.NatToStringRoundTrip | frontend/src/App.jsx:13 | a printed non-negative integer parses back to itself |
| Text.IntToStringRoundTrip | frontend/src/App.jsx:13 | a printed integer, negative ones included, parses back to itself |
| Metrics.UpRecords | frontend/src/App.jsx:17-21 | the UP filter is no longer than the history and holds only UP records |
| Metrics.UpRecordsAppend | frontend/src/App.jsx:17-21 | the filter of a concatenation is the concatenation of the filters, so every UP record is kept in place and as often as it occurs |
| Metrics.UpRecordsCount | frontend/src/App.jsx:17-21 | each UP record occurs in the filter as often as in the history, and a DOWN record never occurs |
| Metrics.UpRecordsMembers | frontend/src/App.jsx:17-21 | a record is in the filter exactly when it is in the history and UP |
| Metrics.UpRecordsOfAllUp | frontend/src/App.jsx:17-21 | a list of UP records passes the filter unchanged |
| Metrics.UpRecordsAllUp | frontend/src/App.jsx:17-21 | the filter keeps every record exactly when all records are UP |
| Metrics.UpRecordsEmptyIff | frontend/src/App.jsx:20-22 | the filter is empty exactly when no record is UP |
| Metrics.RoundRatio | frontend/src/App.jsx:18 | the result is num/den rounded to the nearest integer, a tie going up |
| Metrics.UptimePct | frontend/src/App.jsx:16-19 | null exactly for an empty history; otherwise 100·#UP/total rounded to tenths, within 0.0..100.0 |
| Metrics.UptimeFullIffAllUp | frontend/src/App.jsx:16-19 | below 2000 records, 100.0 is shown exactly when every record is UP |
| Metrics.UptimeZeroIffNoneUp | frontend/src/App.jsx:16-19 | up to 2000 records, 0.0 is shown exactly when no record is UP |
| Metrics.AvgLatency | frontend/src/App.jsx:20-23 | null exactly when no record is UP |
| Metrics.AvgLatencyIsMean | frontend/src/App.jsx:20-23 | the average times the number of UP records is their total latency |
| Metrics.SumLatencyFromFront | frontend/src/App.jsx:22 | the left-to-right `reduce` sum (`SumLatency`) equals the first latency plus the sum of the rest |
| Metrics.SumLatencyBounds | frontend/src/App.jsx:22 | the reduce sum of n latencies in [lo, hi] lies in [n·lo, n·hi] |
| Metrics.AvgLatencyBounds | frontend/src/App.jsx:20-23 | the average lies between any bounds of the UP latencies |
| Metrics.AvgLatencyIgnoresDown | frontend/src/App.jsx:20-23 | DOWN records do not change the average: it equals the average of the UP records alone |
| Metrics.AvgLatencyExample | frontend/src/App.jsx:20-23 | UP at 0.5 s and UP at 1.5 s average to 1.0 s |
| Metrics.UptimeColor | frontend/src/App.jsx:24-25 | null exactly for null; green from 99.0, amber from 95.0 below 99.0, red below 95.0, each lower bound inclusive |
| Metrics.CardColor | frontend/src/App.jsx:265-267 | `uptimeColor(Number(uptime))`, with `Number(null)` being 0, is never null; an empty history is red; otherwise it is the band of the uptime |
| Windows.Reverse | frontend/src/App.jsx:147 | reversing keeps the length and puts element i at position n-1-i |
| Windows.UptimeBlocks | frontend/src/App.jsx:147 | min(30, n) blocks, block i being history[len-1-i], so the last block is history[0] |
| Windows.BlockColor | frontend/src/App.jsx:154 | a block is green exactly for an UP record, red otherwise |
| Windows.UptimeBlocksChronological | frontend/src/App.jsx:147 | a newest-first history gives blocks ordered oldest to newest |
| Windows.Plot | frontend/src/App.jsx:165-166 | a point is null exactly for a non-UP record; otherwise it is the latency in tenths of a ms, rounded to the nearest tenth with ties away from zero, for either sign |
| Windows.LatencySeries | frontend/src/App.jsx:164-167 | min(40, n) points, point i plotting history[len-1-i] |
| Windows.ChartEndsWithBar | frontend/src/App.jsx:147-167 | the chart's last points plot the bar's blocks in the same order |
| Windows.ChartGapsAreRedBlocks | frontend/src/App.jsx:147-167 | the chart has a gap exactly where the bar has a red block |
| Api.ApiError.Message | frontend/src/App.jsx:32 | an HTTP error's message ends with the status text; a network error keeps its message |
| Api.ApiFetch | frontend/src/App.jsx:28-35 | a network failure is passed through as an error carrying its own message; a non-2xx status is an error carrying status and text; 204 resolves to null; any other 2xx resolves to the body |
| Api.HttpErrorMessageRoundTrip | frontend/src/App.jsx:32 | the status reads back from the digits before the first space, and the status text follows the space |
| Card.LoadSchedule | frontend/src/App.jsx:6-8 | the k-th load starts before 20 s for k <= 6 and at or after 20 s from then on |
| Card.LoadScheduleIncreasing | frontend/src/App.jsx:240-247 | loads start strictly one after another |
| Card.LoadScheduleOnLoadTimes | frontend/src/App.jsx:240-247 | every scheduled load is at a multiple of 3 s before 20 s, or at 20 s plus a multiple of 30 s |
| Card.LoadTimesScheduled | frontend/src/App.jsx:240-247 | every such time is the start of some load |
| Card.LoadGaps | frontend/src/App.jsx:240-247 | loads are 3 s apart while fast, 2 s apart into the switch, 30 s apart afterwards |
| Card.ServiceCard.Mount | frontend/src/App.jsx:220-243 | initial state (empty history, loading, no error, all toggles off), one load started at 0, fast interval and switch timeout armed |
| Card.ServiceCard.StartLoad | frontend/src/App.jsx:231-233 | `load()` logs a load starting now and one more request in flight; nothing else changes until the answer settles |
| Card.ServiceCard.Fire | frontend/src/App.jsx:243-247 | the earliest timer fires and the next load of the schedule starts; after the switch only the slow interval is armed; the displayed state is unchanged |
| Card.ServiceCard.Unmount | frontend/src/App.jsx:249-254 | cancelled is set and all three timers are cleared, so no load starts any more |
| Card.ServiceCard.LoadSettled | frontend/src/App.jsx:231-237 | unless cancelled, success replaces the history and clears the error, failure keeps the history and sets "Failed to load", both end loading; once cancelled nothing visible changes |
| Card.ServiceCard.Click | frontend/src/App.jsx:280-319 | name area and chevron flip expanded; the delete button flips showDel unless disabled; Cancel and clicks that reach the document close the popover; action-area and popover clicks change nothing |
| Card.ServiceCard.ConfirmDelete | frontend/src/App.jsx:257-262 | the popover closes, deleting becomes true and the card's id goes to the delete handler |
| Card.ServiceCard.Indicator | frontend/src/App.jsx:284 | a spinner exactly while loading; otherwise the latest status, DOWN when there is none |
| Roster.RemoveId | frontend/src/App.jsx:464 | the filter never makes the list longer |
| Roster.RemoveIdMembers | frontend/src/App.jsx:464 | a service survives exactly when it was listed and has another id |
| Roster.RemoveIdAppend | frontend/src/App.jsx:464 | filtering a concatenation filters each part, so order is kept |
| Roster.RemoveIdAbsent | frontend/src/App.jsx:464 | deleting an id that is not listed changes nothing |
| Roster.RemoveIdIdempotent | frontend/src/App.jsx:464 | a second delete of the same id is a no-op |
| Roster.RemoveIdCommutes | frontend/src/App.jsx:464 | two deletes give the same list in either order |
| Roster.AddThenDelete | frontend/src/App.jsx:461-534 | adding a service with a new id and deleting it restores the list |
| Roster.Dashboard.Mount | frontend/src/App.jsx:38-43 | empty roster, loading, no banner, modal closed, first fetch started at 0, next poll armed at 30 s |
| Roster.Dashboard.Tick | frontend/src/App.jsx:41-43 | each 30 s tick starts another fetch at the next multiple of 30 s |
| Roster.Dashboard.Unmount | frontend/src/App.jsx:44 | cancelled is set and the interval is cleared |
| Roster.Dashboard.RosterSettled | frontend/src/App.jsx:452-459 | success replaces the roster and clears the banner; failure keeps it and shows "Cannot reach API — is Docker running?"; loading ends either way |
| Roster.Dashboard.DeleteSettled | frontend/src/App.jsx:461-468 | success removes exactly that id; failure keeps the roster and shows "Delete failed: " plus the error message |
| Roster.Dashboard.OpenModal | frontend/src/App.jsx:496 | the modal opens and nothing else changes |
| Roster.Dashboard.CloseModal | frontend/src/App.jsx:534 | the modal closes and nothing else changes |
| Roster.Dashboard.Added | frontend/src/App.jsx:534 | the new service is appended at the end |
| Roster.Dashboard.Body | frontend/src/App.jsx:509-526 | the spinner shows exactly while loading, the empty state exactly for a loaded empty roster, otherwise one card per service |
| AddService.IsHttp | frontend/src/App.jsx:14 | a string the URL constructor refuses is not http; an accepted one has exactly the protocol "http:" or "https:" |
| AddService.Validate | frontend/src/App.jsx:379-380 | the request is accepted exactly when the trimmed name is non-empty and the trimmed URL is http(s); the name check comes first |
| AddService.ValidatedRequestIsClean | frontend/src/App.jsx:379-382 | an accepted request has a name that is not blank and has no surrounding whitespace, and an http(s) URL that has none either |
| AddService.BlankNameRefused | frontend/src/App.jsx:379 | a whitespace-only name gets "Name is required" whatever the URL |
| Text.Trim | frontend/src/App.jsx:379-380 | the result is a slice of the input that drops only whitespace at both ends and starts and ends with a non-whitespace character |
| Text.TrimBlankIffAllWhitespace | frontend/src/App.jsx:379 | a trimmed string is empty exactly when every character is whitespace |
| AddService.AddServiceModal.Open | frontend/src/App.jsx:367-370 | the form opens empty, not loading, with no error |
| AddService.AddServiceModal.EditName | frontend/src/App.jsx:419 | typing replaces the name only |
| AddService.AddServiceModal.EditUrl | frontend/src/App.jsx:419 | typing replaces the URL only |
| AddService.AddServiceModal.Submit | frontend/src/App.jsx:378-382 | a failing check sets its message and sends nothing; a passing one starts loading, clears the error and sends the trimmed fields; there is no guard against a request in flight |
| AddService.AddServiceModal.ClickAdd | frontend/src/App.jsx:434 | the button does nothing while loading; otherwise it submits: a failing check sets its message, a passing one sends the trimmed fields and starts loading; name and URL are unchanged either way |
| AddService.AddServiceModal.SubmitSettled | frontend/src/App.jsx:382-387 | a created service is handed to onAdd; a failure shows the error's message and ends loading |
| Store.Database.Empty | app/models.py:17-38 | an empty database whose sequences start at 1 |
| Store.ChecksOf | app/routes.py:161-162 | the filter holds only the service's checks |
| Store.ChecksOfMembers | app/routes.py:161-162 | a check is kept exactly when it is in the table and belongs to the service |
| Store.ChecksOfAppend | app/routes.py:161-162 | a new check extends its own service's history and no other |
| Store.DropChecks | app/models.py:28-32 | after the cascade no check of the deleted service remains |
| Store.DropChecksMembers | app/models.py:28-32 | a check survives the cascade exactly when it belongs to another service |
| Store.DropChecksSubsequence | app/models.py:28-32 | surviving checks keep their order |
| Store.DropAlerts | app/models.py:33-38 | the cascade removes exactly the deleted service's alert state and keeps every other one |
| Store.DropAlertsAppend | app/models.py:33-38 | the cascade distributes over concatenation, so surviving alert states keep their order and multiplicity |
| HealthChecks.Classify | app/health_checks.py:35-65 | UP exactly when a response arrived, with its own status code; otherwise DOWN with code 0; a failure reason exactly for DOWN, with the text of each exception branch |
| HealthChecks.ServerErrorsAreUp | app/health_checks.py:38-40 | any status code, 404 and 500 included, is recorded as UP with that code |
| HealthChecks.FailureReasonRoundTrip | app/health_checks.py:49-65 | a failure reason reads back as the failure it reports, so no two failures are logged alike |
| HealthChecks.LatencySeconds | app/health_checks.py:75-76 | the latency is the elapsed time in seconds, non-negative when the clock did not go back |
| HealthChecks.CheckRowFor | app/health_checks.py:78-84 | the record carries the service id, the classified status and code, the elapsed time, and the end time as checked_at |
| HealthChecks.CheckService | app/health_checks.py:23-90 | exactly one record is appended and returned; services and alert states are unchanged; the database stays consistent |
| Routes.TaskQueue.Empty | app/routes.py:84 | a request starts with no background task |
| Routes.CreateService | app/routes.py:81-102 | an invalid URL is a 422 that changes nothing; otherwise the row gets a fresh id and is stored with the name and the normalised URL, and one immediate check is queued for that id |
| Routes.ServicesBelow | app/routes.py:108 | the rows are listed by strictly ascending id and each is the table's row |
| Routes.ServicesBelowComplete | app/routes.py:108 | no row below the bound is left out |
| Routes.ListServices | app/routes.py:105-108 | every service exactly once, by ascending id |
| Routes.GetService | app/routes.py:111-120 | the row exactly when the id exists, else 404 "Service not found" |
| Routes.DeleteService | app/routes.py:123-135 | 404 "Service not found" changes nothing; otherwise the service, its checks and its alert state are removed and all other rows are kept |
| Routes.DeleteLeavesNoTrace | app/routes.py:132-133 | after a delete no check and no alert state refers to the service |
| Routes.Insert | app/routes.py:163 | insertion adds exactly the row and keeps every other |
| Routes.InsertNewestFirst | app/routes.py:163 | insertion into a newest-first list keeps it newest first |
| Routes.SortNewestFirst | app/routes.py:163 | the result is newest first by checked_at and a permutation of the input |
| Routes.Page | app/routes.py:164-165 | min(limit, max(0, n - offset)) rows, row i being row offset+i |
| Routes.PagesConcatenate | app/routes.py:164-165 | two consecutive pages form one page as long as both |
| Routes.PagesUpToIsPrefix | app/routes.py:164-165 | the first n pages of a size form the prefix of n times that size |
| Routes.PagesCover | app/routes.py:164-165 | enough pages of one size return every row once, in order |
| Routes.PageNewestFirst | app/routes.py:163-165 | a page of a newest-first list is newest first |
| Routes.HistoryPageRows | app/routes.py:160-167 | a history page holds only rows of that service taken from the table |
| Routes.ServiceHistory | app/routes.py:160-163 | a newest-first permutation of the service's checks |
| Routes.HistoryPage | app/routes.py:163-165 | a page of a newest-first history of n rows has min(limit, max(0, n - offset)) rows, is newest first, and its row i is row offset+i of the history |
| Routes.GetHistory | app/routes.py:142-168 | 404 exactly for an unknown service; otherwise that service's checks from the table, newest first, min(limit, max(0, n - offset)) of them, row i being row offset+i of the service's newest-first history |
| Routes.HistoryRequest | app/routes.py:146-147 | missing parameters default to 50 and 0; a limit outside 1..500 or a negative offset is a 422 before the handler runs; at most limit rows come back |
| Routes.CardRequestGetsNewest | frontend/src/App.jsx:233 | the card's `?limit=50` request is never a 422; it is 404 exactly for an unknown service and otherwise returns the newest min(50, n) checks |
| Routes.ToClientRecord | app/routes.py:48-55 | the dashboard sees the stored status, code, latency and time |
| Routes.ToClientHistory | app/routes.py:142 | the dashboard receives one record per row, in the same order |
| Routes.ClientHistoryNewestFirst | app/routes.py:163 | a newest-first page reaches the dashboard newest first, which is the order the uptime bar reverses |
| Routes.UpOnDashboardIffAnswered | app/health_checks.py:37-65 | a recorded check counts as UP on the dashboard exactly when the URL answered |
| Routes.ImmediateCheck | app/routes.py:63-74 | when the service exists and the session works, exactly one check is appended and the check sequence advances by one; otherwise nothing changes and nothing is raised; the service sequence never moves |
| Routes.RunNextTask | app/routes.py:100 | the oldest queued task runs the immediate check for its id and leaves the queue; when the service is gone or the session fails, no check is written; the check sequence advances exactly by the rows written and the service sequence never moves |

## Left out

- JSX rendering and styling, `fmt`/`fmtDate` (locale formatting), the stat tiles, the bar's opacity gradient, the "No data" tag and the chart's visibility threshold: presentation.
- IEEE-754: latencies, sums and ratios are exact. Binary rounding artefacts of `toFixed` and `Math.round` are not modelled. Neither is `toFixed`'s exponent form for values of 1e21 and above.
- Metrics.UptimeFullIffAllUp: stated only below 2000 records. From 2000 records on, a single DOWN rounds to 100.0 as the code computes it.
- Metrics.UptimeZeroIffNoneUp: stated only up to 2000 records, for the same reason. The card asks for at most 50 records.
- Metrics.AvgLatency: its own contract states only when the result is null. The mean is stated by AvgLatencyIsMean, AvgLatencyBounds and AvgLatencyIgnoresDown.
- JSON decoding and bodies of the wrong shape. A 204 on the history endpoint would hand `null` to the card; the endpoint never answers 204, and `LoadSettled` takes a list.
- Which request a settling answer belongs to. Answers may arrive in any order, and each one is applied as it arrives. Overlapping fetches can therefore leave an older answer on screen, as in the code.
- Mounting a card for each roster entry and unmounting it when the entry goes (React reconciliation). Cards and the dashboard are separate objects.
- The 10 ms delay before the delete popover starts listening for outside clicks.
- The modal's Escape key and backdrop click. Both call the same `onClose` as the buttons (`CloseModal`).
- Pydantic's `AnyHttpUrl` validation and normalisation. This library code is the `Option<string>` argument of `CreateService`.
- Database failures other than the one `_immediate_check` swallows. A failed commit in a handler is a 500 and is not modelled.
- SQL row order among checks with equal `checked_at`. The database leaves it unspecified; the model puts the row appended last first among them.
- Routes.HistoryRequest: when both `limit` and `offset` are invalid, FastAPI's 422 lists both fields; the model reports only `limit`, the first one checked.
- Logging, `app/main.py`, `app/database.py`, `app/config.py`, `app/celery_app.py`, `app/tasks.py` (the periodic checker) and `app/seed_services.py`. Alert-state updates are not made anywhere in the modelled code; only their cascade on delete is modelled.
- Status strings other than "UP" and "DOWN". The server writes no others.
