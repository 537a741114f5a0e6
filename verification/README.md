# Proxy pool: lifecycle, selection, sessions and identity

This project models a service that collects proxy addresses, checks them, and hands out the good ones. It
follows the program's own division: a SQLite store with a `proxies` table and a key/value table, services that
move records between the pools raw, checked, elite, cooldown and dead, a scheduler that runs validation jobs, an
activity log, and the parsers that turn text into proxy records.

Records, rows and outcomes are values. The store, the services, the log and the GeoIP resolver are classes whose
methods change fields in place; each method is proved against a function of the old state, and the larger
results are proved about those functions. What the program learns from outside (HTTP results, clock readings,
random tokens, decoders, regular expressions) is a parameter. Times are integers on one clock.

| file | contents |
|---|---|
| `domain.dfy`, `text.dfy` | records, filters; decimal numerals and ASCII text |
| `scoring.dfy`, `lifecycle.dfy` | validators, score arithmetic, the three transitions of a record, histories of one record |
| `table.dfy`, `query.dfy`, `paging.dfy` | rows and columns, writes and sums over rows, filters, order, pages, best choice |
| `keyvalue.dfy` | lazy expiry against eager expiry |
| `storage.dfy`, `services.dfy` | the store and the services as classes |
| `interleaving.dfy`, `isolation.dfy` | small-step concurrent tasks, batches under a semaphore, uninterrupted tasks |
| `strikes.dfy`, `deletion.dfy` | what overlapping tasks leave of a record's history: strikes counted, lost, and when they survive; when a delete lasts |
| `jobs.dfy` | validation jobs: accounting, conservation, convergence; the scheduler |
| `sessions.dfy` | session stickiness over runs of overlapping requests; admin login |
| `activity.dfy` | the bounded, time-pruned log |
| `percent.dfy`, `proxy_url.dfy` | UTF-8, percent-encoding, proxy URLs, ids |
| `geo.dfy` | longest-prefix lookup |
| `subscription.dfy` | subscription classification, accounting, import |

Where the documentation and the code differ, the model follows the code:

- README.md:142-143 says repeated failures, five in a row, move a proxy to dead. One record under one event at a
  time does so (`Histories.FiveStrikes`). In the table, tasks overlap: a validation that has read the record
  before a report is written overwrites it, and `LostStrikes.FiveStrikesCanBeLost` is a run in which the row is
  dead after five failures and back in cooldown with a single one after the sixth. The row shows every failure
  in every state exactly as long as no task writes back what it read before another attempt on the record was
  written back (`Strikes.StrikesSurviveIffInOrder`); then the fifth failure puts the row in dead
  (`Strikes.FiveStrikesInTheTable`). When no write-back at all is overtaken, releases included, the row is the
  history of all finished events (`Strikes.RowsAreHistories`). In any case it is the history of some of them, so
  the initial score is granted at most once and the score bounds hold of every row
  (`RowHistories.EveryRowIsAHistory`).
- A deleted record comes back if a task that has read it before writes it back; a delete lasts exactly when there
  is no such task (`Deletion.DeleteLastsIff`).
- One more failure report moves a dead record with at least two failures in a row back to cooldown
  (`Lifecycle.DeadReportStaysDead`).
- A session is meant to keep its proxy. It does exactly as long as none of its open requests has read another
  binding, or none (`Stickiness.SticksIff`); two first requests that overlap can re-bind it
  (`Stickiness.OverlappingRequestsRebind`).
- The total that a listing with a text query reports is the number of matches only under the condition of
  `Query.TotalUnderQuery`; the listing route passes such queries (app/api/routes_proxy.py:79-93).
- A text query is applied after the SQL limit, so `get_best_proxy` can miss a match or prefer a checked record
  to a matching elite one (`Query.QueryCanMissAMatch`); `Query.BestIsRightIff` says exactly when its answer is
  the right one. Only direct callers can meet this: the route of a single proxy
  (app/api/routes_proxy.py:41-58) and the gateway (app/gateway/proxy_gateway.py:158-186) pass no query to it,
  and the listing route, which does (app/api/routes_proxy.py:80-93), does not call it.
- The log keeps an expired entry while a younger stamp sits behind it; `BoundedLog.ListingRefinesHistory` gives
  the exact condition under which a listing is the unexpired history.
- A printed URL parses back only for clean hosts and not for a password without a user name;
  `ProxyUrls.RoundTrip` is an if-and-only-if. Address literals in brackets are accepted but printed without
  them, so no record with an IPv6 host survives printing and parsing (`ProxyUrls.ParsedSurvives`,
  `ProxyUrls.AddressLiteralIsLost`).

## Model

| member | source | states |
|---|---|---|
| Scoring.ComputeValidationDelta | app/services/scoring_service.py:49-73 | the step-by-step delta is the sum of the reach, latency and anonymity terms, -20 alone when the protocol check failed |
| Scoring.ApplyValidationScore | app/services/scoring_service.py:8-40 | the dictionary of updates, filled entry by entry, gives exactly the scored record: counters, timestamps, error, latency, anonymity |
| Lifecycle.DeltaRange | app/services/scoring_service.py:49-85 | with the checks a validation really makes, a reached proxy moves by -55 to 50 and any other by exactly -20 |
| Lifecycle.ValidatedScore | app/services/scoring_service.py:43-85 | the score a validation stores, told from the two requests: 50 for a record never tried, else the old score, plus 10, the speed and the observed anonymity if it answers, less 20 if not |
| Lifecycle.ValidatedPool | app/services/validate_service.py:72-103 | the pool, told from the two requests: elite iff it answers, is observed elite and has now at least the threshold; else checked; no answer means cooldown until the fifth failure in a row |
| Lifecycle.ValidatedNotes | app/services/scoring_service.py:19-40 | counters, times, error text, latency and anonymity, told from the two requests |
| Lifecycle.SuccessReport | app/services/proxy_service.py:61-73 | a success report adds exactly 10, ends failures in a row and cooldown, and moves nothing; what it leaves in cooldown can be released at any time |
| Lifecycle.FailureReport | app/services/proxy_service.py:75-99 | a failure report takes exactly 20; which one moves a record to dead or cooldown, and when a cooldown time is set |
| Lifecycle.FirstVerdict | app/services/validate_service.py:72-92 | at threshold 80 a fetched record is promoted to elite at once iff it answers within 5000 ms with elite anonymity, cooled down iff it does not connect, never dead |
| Lifecycle.DeadReportStaysDead | app/services/proxy_service.py:88-99 | a failure report leaves a dead record dead iff fewer than three failures in a row result; else it goes to cooldown |
| Histories.ScoreBound | app/services/scoring_service.py:15-46 | over any history each attempt is counted once, the 50-point start is granted at most once, and the score stays between -55 and 50 per success with 20 off per failure |
| Histories.UpperBoundAttained | app/services/scoring_service.py:43-85 | for every number of successes, none included, some history of validations, reports and releases ends exactly on the upper bound |
| Histories.LowerBoundAttained | app/services/scoring_service.py:43-85 | and some history exactly on the lower one |
| Histories.RecordTellsHistory | app/services/scoring_service.py:15-40 | any history of a fetched record can be read off it: counters, failures since the last success, score as grant plus what each attempt was worth, times of the last attempt and success |
| Histories.FiveStrikes | app/services/proxy_service.py:75-99 | one record under one event at a time, from fetched: with failing validations, failure reports and releases in any order it is raw or cooled down for four failures and dead at the fifth by either route |
| Histories.HistoryKeepsIdentity | app/services/validate_service.py:57-61 | no history changes id, endpoint, credentials, source or location of a record |
| Tables.MoveIsPut | app/storage/sqlite_store.py:86-116 | removing from one pool and adding to another is one replacement of the row, whatever was there |
| Tables.PutChangesSum | app/storage/sqlite_store.py:400-426 | an upsert of a known id changes any sum over the rows by the difference of the two rows |
| Tables.PoolsPartition | app/storage/sqlite_store.py:295-305 | the five pool counts add up to the number of rows |
| Query.BuildClauses | app/storage/sqlite_store.py:235-262 | the appended WHERE clauses select, on columns, exactly the rows whose payload passes the filters |
| Query.RankedIsSorted | app/storage/sqlite_store.py:271-277 | the sorted SELECT lists every selected id once, by score descending and then id |
| Query.AllWantedIsExact | app/storage/sqlite_store.py:238-280 | the list that is paged holds exactly the records passing the filters, in strict order |
| Query.HitsMembers | app/storage/sqlite_store.py:282-288 | the text filter keeps exactly the records of the slice that the query hits |
| Query.QueryMeans | app/storage/sqlite_store.py:282-288 | a query that is not blank hits iff, stripped and in whatever case, it stands at some position of the host or of the id |
| Query.FiltersMean | app/services/proxy_service.py:122-137 | a record passes iff it agrees with every filter that is given, the threshold itself included |
| Query.ListedMeans | app/storage/sqlite_store.py:235-262 | the listed rows are those of the pool that agree with every filter but the query |
| Query.PageMeans | app/storage/sqlite_store.py:223-293 | a page holds the records of its slice in which the query stands; no limit, no page; a negative offset is none |
| Text.ContainsInAnyCase | app/storage/sqlite_store.py:283-288 | the lower-cased needle is contained iff its letters stand somewhere in whatever case |
| Text.StripDropsSpaces | app/storage/sqlite_store.py:282-283 | stripping drops the spaces at both ends, all of them and nothing else |
| Text.LessIsLexicographic | app/storage/sqlite_store.py:274-276 | the order of ids is the lexicographic one |
| Query.PageIsHits | app/storage/sqlite_store.py:271-288 | a page is the slice of the full list with the text filter applied to it |
| Query.PagesCoverMatches | app/storage/sqlite_store.py:223-293 | successive pages of any size, with any query, concatenate to the matching records with no gap or repeat |
| Query.TotalIsExact | app/storage/sqlite_store.py:264-269 | without a query every page reports the exact number of matches |
| Query.TotalUnderQuery | app/storage/sqlite_store.py:282-293 | with a query the reported total is the number of matches iff the matches off the page are as many as the offset, or, on a full first page, every row matches |
| Query.BestIsOptimal | app/storage/sqlite_store.py:210-221 | with a blank query: the top elite match, else the top checked match, none iff nothing in either pool matches |
| Query.BestWithQuery | app/storage/sqlite_store.py:210-221 | with any query the answer matches, and it is missing iff the query misses the top row of both pools |
| Query.BestIsRightIff | app/storage/sqlite_store.py:210-221 | with any query the answer is the top elite match, else the top checked match, else none iff the query hits the top row of the pool that holds a match |
| Query.QueryCanMissAMatch | app/storage/sqlite_store.py:282-288 | a concrete table where a matching elite record exists and none is returned |
| KeyValue.KeysApart | app/storage/sqlite_store.py:331-364 | affinity and admin keys never meet and each family is injective |
| KeyValue.LazyRefinesEager | app/storage/sqlite_store.py:335-394 | on a clock that never goes back every read answers as if entries were purged on time; a delete's answer agrees iff it meets no unread expired entry |
| KeyValue.BackwardClockRevives | app/storage/sqlite_store.py:335-351 | on a clock that goes back the two differ |
| KeyValue.AffinityAndAdminAreIndependent | app/storage/sqlite_store.py:319-394 | leaving out all calls of one family changes no answer of the other |
| KeyValue.EntryLifetime | app/storage/sqlite_store.py:357-394 | a saved entry is read back exactly until its TTL has passed or it is deleted, through any other calls |
| Storage.CutIsListing | app/storage/sqlite_store.py:194-208 | a whole pool by score, cut to the limit, is one of the listings allowed when equal scores have no fixed order |
| Storage.Store.AddProxy | app/storage/sqlite_store.py:86-89 | the row of the id becomes the record with the pool as status |
| Storage.Store.SaveProxy | app/storage/sqlite_store.py:91-94 | the same for saving |
| Storage.Store.UpsertProxy | app/storage/sqlite_store.py:400-426 | insert and conflict branch leave the same row, columns agreeing with the payload |
| Storage.Store.RemoveProxy | app/storage/sqlite_store.py:106-116 | the row goes iff it is in the given pool, and the answer says so |
| Storage.Store.DeleteProxy | app/storage/sqlite_store.py:118-128 | the row goes, the answer says whether it was there |
| Storage.Store.MoveProxy | app/storage/sqlite_store.py:156-179 | moves iff the row is in the source pool, keeping columns and payload in agreement |
| Storage.Store.UpdateScore | app/storage/sqlite_store.py:181-188 | adds the delta to the row's score and nothing else |
| Storage.Store.ListProxies | app/storage/sqlite_store.py:194-208 | the cut by limit and offset of the whole pool in some order by score, ties in any order |
| Storage.Store.ListFilteredProxies | app/storage/sqlite_store.py:223-293 | computes the page and total that filtering payloads defines |
| Storage.Store.GetBestProxy | app/storage/sqlite_store.py:210-221 | the loop over elite and checked finds the best proxy |
| Storage.Store.CountByPool | app/storage/sqlite_store.py:295-305 | each count is the pool's size and the counts add up to the table |
| Storage.Store.BindSessionProxy | app/storage/sqlite_store.py:319-333 | the binding is replaced and expires after its TTL |
| Storage.Store.GetSessionProxyId | app/storage/sqlite_store.py:335-351 | answers iff unexpired, drops the entry iff expired |
| Storage.Store.GetAdminSession | app/storage/sqlite_store.py:368-386 | the same for admin sessions |
| Storage.Store.DeleteAdminSession | app/storage/sqlite_store.py:388-394 | removes the entry, the answer says whether it was stored |
| Services.CooldownService.ReleaseExpired | app/services/cooldown_service.py:12-25 | exactly the expired among the listed records are written to raw without a cooldown, and returned |
| Services.ValidateService.ValidateProxy | app/services/validate_service.py:42-70 | returns the outcome of the snapshot and replaces the row by it |
| Services.ValidateService.ValidatePool | app/services/validate_service.py:32-40 | a batch returns the outcomes of the listed snapshots and writes exactly those |
| Services.ProxyService.GetSessionProxy | app/services/proxy_service.py:104-120 | the pinned proxy iff bound, unexpired, present, selectable and matching |
| Services.ServedAgrees | app/services/proxy_service.py:18-35 | any answer, pinned or fresh, is a row in checked or elite that agrees with every filter |
| Services.ProxyService.GetProxy | app/services/proxy_service.py:18-35 | pinned answers leave bindings alone, fresh ones bind; any answer is a row in checked or elite that passes the filters |
| Services.ProxyService.ReportResult | app/services/proxy_service.py:54-99 | the update-and-move branches leave the record the transition function defines; unknown ids change nothing |
| Services.KeepsFirstOccurrences | app/services/fetch_service.py:50-59 | de-duplication keeps exactly the first occurrence of each id, in order |
| Services.FirstOccurrencesAreDistinct | app/services/url_import_service.py:150-158 | no id is kept twice and none is lost |
| Services.Deduplicate | app/services/fetch_service.py:50-59 | the loop with its set of seen ids keeps the first occurrences |
| Services.FetchService.FetchToRawPool | app/services/fetch_service.py:36-48 | enriches, de-duplicates and writes every kept record to raw |
| Services.StoredRecord | app/services/geo_service.py:53-62 | what is stored of a fetched record: itself, with country and ASN of the longest matching network if there is one |
| Services.FetchedRow | app/services/fetch_service.py:41-43 | after a fetch a fetched id holds its first record as a raw row, whatever it held before |
| Services.UnfetchedRow | app/services/fetch_service.py:41-43 | every other id holds what it held before |
| Interleaving.RunsKeepAgreement | app/storage/sqlite_store.py:156-188 | in every state of every interleaved run, score updates and pool moves included, columns equal payload fields |
| Interleaving.RunsKeepInvariant | app/services/validate_service.py:57-103 | under any interleaving of fetches, validations, reports, releases and deletes, every row and every snapshot in flight keeps the record invariant and the score bounds |
| Batches.ConcurrencyIsBounded | app/services/validate_service.py:47 | never more tasks inside the semaphore than its size |
| Batches.NoScheduleIsStuck | app/services/validate_service.py:37-47 | an unfinished schedule can go on iff the concurrency is at least one |
| Batches.ScheduleIndependence | app/services/validate_service.py:37-61 | every schedule finishes after five steps a record, in the table that one-at-a-time validation leaves |
| Isolation.ValidationWritesItsOutcome | app/services/validate_service.py:57-61 | a validation under way ends with its own outcome in the table, whatever happened to the row meanwhile |
| Isolation.StrikeCountsIffCurrent | app/services/validate_service.py:48-61 | a failing validation under way adds a strike to the row iff its snapshot holds as many as the row does by then |
| Isolation.ReportAlone | app/services/proxy_service.py:54-99 | the interleaved steps of a report, uninterrupted, do what the method promises |
| Isolation.DeleteAlone | app/storage/sqlite_store.py:118-128 | the same for a delete |
| Isolation.RescoreAlone | app/storage/sqlite_store.py:181-188 | the same for a score update |
| Isolation.MoveProxyAlone | app/storage/sqlite_store.py:156-179 | the same for a pool move |
| Isolation.ReleaseAlone | app/services/cooldown_service.py:12-25 | the same for a release |
| Isolation.FetchAlone | app/services/fetch_service.py:41-43 | the same for a fetch |
| Strikes.StrikesSurviveIffInOrder | app/services/proxy_service.py:54-99 | in any failing run, tasks overlapping in any way, the row shows every failed attempt written back, in every state, iff no write-back was overtaken by another attempt on the record |
| Strikes.NoStrikeIsGained | app/services/validate_service.py:48-61 | and it never shows more of them |
| Strikes.FiveStrikesInTheTable | app/services/proxy_service.py:88-99 | in any failing run the row is raw or cooled down up to four failures; at five it is dead iff it shows all five, as it does if no write-back was overtaken |
| Strikes.RowsAreHistories | app/services/validate_service.py:42-61 | in any run of validations, reports, releases and deletes without overtaken write-backs the row is the history of the events written back |
| Strikes.RowsKeepScoreBound | app/services/scoring_service.py:15-46 | so each attempt that was written back is counted once in the row |
| RowHistories.EveryRowIsAHistory | app/services/scoring_service.py:15-46 | under any interleaving of fetches, validations, reports, releases and deletes, write-backs overtaken or not, every row is the history of a fetched record under some events of the run: initial score granted at most once, score within its bounds |
| Deletion.DeleteLastsIff | app/storage/sqlite_store.py:118-128 | a record that is gone stays away in every run that does not fetch it anew iff no task under way has read it and is still to write it back |
| LostStrikes.FiveStrikesCanBeLost | app/services/validate_service.py:48-61 | for any fresh record, a run of six failures that ends in cooldown with one failure after the row was dead with five |
| Jobs.AnyScheduleIsJob | app/core/scheduler.py:173-179 | however the batch of a job interleaves under the semaphore, the finished job is one that all results below speak of |
| Jobs.ReleaseMovesExpired | app/services/cooldown_service.py:12-31 | the release moves exactly the listed records whose cooldown is over or was never set, and changes no other row |
| Jobs.JobAccounting | app/core/scheduler.py:173-228 | ids are conserved; the batch is min(limit, raw size after release); successes are the growth of checked plus elite, failures that of cooldown plus dead |
| Jobs.CountInCounts | app/core/scheduler.py:202-207 | a pool count used there is the number of rows in those pools |
| Jobs.TimeoutsAtMostChecked | app/core/scheduler.py:208-217 | no outcome counts two timeouts, so timeouts never exceed checks |
| Jobs.TimeoutsAreRequests | app/core/scheduler.py:208-217 | the timeouts counted are the requests of the batch that timed out or broke with "timeout" in the name, first requests and the second ones of those that answered |
| Jobs.JobConverges | app/core/scheduler.py:173-179 | if every connection fails and every cooldown is over, a job with any positive limit strictly lowers the strikes left until raw and cooldown are empty |
| Jobs.FailingRunEmptiesPools | app/core/scheduler.py:173-179 | after as many such jobs as there were strikes left both pools are empty |
| Scheduling.SchedulerService.RunValidateOnce | app/core/scheduler.py:145-242 | runs release and batch and reports counts that add up, match the pools and count the timed-out requests, or, ended by an exception, no counts; either way it records the job between two events |
| Stickiness.RequestAlone | app/services/proxy_service.py:18-35 | the steps of a request, uninterrupted, do what the method promises |
| Stickiness.SessionSticks | app/services/proxy_service.py:23-34 | a bound session whose open requests keep to the binding keeps it and is answered with its proxy through any overlapping requests while the proxy stays eligible and unexpired |
| Stickiness.SticksIff | app/services/proxy_service.py:23-34 | it keeps its proxy through every such run iff each open request is still to read the binding, has read it, or is about to bind the same proxy |
| Stickiness.OverlappingRequestsRebind | app/services/proxy_service.py:23-34 | two first requests that overlap: the second re-binds the session although the first choice is still eligible |
| Stickiness.FirstAnswerBinds | app/services/proxy_service.py:28-34 | a fresh answer is eligible and bound until now plus the TTL |
| Auth.AuthService.CreateSession | app/services/auth_service.py:53-65 | stores the session under its token, for at least as long as the session says it lasts |
| Auth.AuthService.GetSession | app/services/auth_service.py:67-77 | the session of an unexpired token; an invalid payload is deleted |
| Auth.AuthService.DeleteSession | app/services/auth_service.py:79-81 | logout removes the token's entry |
| Auth.AuthService.Authenticate | app/services/auth_service.py:83-112 | a session wins over credentials; otherwise someone is let in iff both configured texts are set and the credentials are exactly they |
| Auth.TokenLifetime | app/services/auth_service.py:53-81 | a login token stands for its session exactly until its TTL has passed or logout |
| BoundedLog.ListingRefinesHistory | app/services/runtime_activity_service.py:42-88 | a listing is the unexpired part of the newest entries iff no expired one was recorded after an unexpired one |
| BoundedLog.RisingStampsSuffice | app/services/runtime_activity_service.py:115-127 | stamps that never decrease meet that condition |
| BoundedLog.PageEntries | app/services/runtime_activity_service.py:130-134 | which entries a page holds, for any limit and offset |
| BoundedLog.PagesAreListing | app/services/runtime_activity_service.py:130-134 | pages of any size concatenate to the listing |
| Activity.RuntimeActivity.RecordEvent | app/services/runtime_activity_service.py:42-59 | prunes, then pushes the event and drops the oldest beyond the limit |
| Activity.RuntimeActivity.ListEvents | app/services/runtime_activity_service.py:61-70 | prunes, then returns the page and the total |
| Activity.RuntimeActivity.PruneEvents | app/services/runtime_activity_service.py:115-118 | the loop drops the longest expired tail |
| Activity.RuntimeActivity.RecordValidationJob | app/services/runtime_activity_service.py:72-77 | the same push for jobs, and the time of the last validation |
| Activity.RuntimeActivity.ListValidationJobs | app/services/runtime_activity_service.py:79-88 | the same listing for jobs |
| Activity.RuntimeActivity.PruneJobs | app/services/runtime_activity_service.py:120-127 | the loop with its break drops the longest expired tail |
| Percent.QuotedByte | app/utils/proxy_url.py:55-58 | letters, digits and four marks stay, any other byte becomes a percent sign and two upper-case hex digits |
| Percent.UnquoteLeavesRest | app/utils/proxy_url.py:38-39 | text without an escape is left alone, stray percent signs included |
| Utf8.DecodeIsStrict | app/utils/proxy_url.py:38-39 | only encodings of characters are decoded; bytes that are none become U+FFFD |
| Percent.UnquoteQuote | app/utils/proxy_url.py:38-57 | percent-encoding as section 2.1 of RFC 3986 describes it is undone by unquoting, for any text |
| ProxyUrls.RoundTrip | app/utils/proxy_url.py:15-61 | parsing the printed URL gives everything back iff the host is clean and a password does not come without a user name |
| ProxyUrls.RoundTripWithoutCredentials | app/utils/proxy_url.py:53-61 | printed without credentials, the endpoint alone comes back, iff the host is clean |
| ProxyUrls.ReadInAnyCase | app/utils/proxy_url.py:15-41 | spaces around a URL, the case of scheme and host, and a path, query or fragment make no difference to the record read |
| ProxyUrls.BreaksDropped | app/utils/proxy_url.py:16-17 | tabs and line breaks count for nothing wherever they stand |
| ProxyUrls.RefusedBecause | app/utils/proxy_url.py:19-44 | why a location is refused |
| ProxyUrls.ParsedHost | app/utils/proxy_url.py:31-37 | whatever is parsed from a location without brackets, the host that comes out holds no delimiter and is lower case up to a zone mark |
| ProxyUrls.ParsedSurvives | app/utils/proxy_url.py:15-61 | a parsed record survives being printed and parsed again iff its host holds no colon and no bracket, as every host from an unbracketed location |
| ProxyUrls.AddressLiteralIsLost | app/utils/proxy_url.py:53-61 | every bracketed address literal with a colon is accepted, and its record does not survive |
| ProxyUrls.ParsedIsFresh | app/utils/proxy_url.py:30-41 | a parsed record is fresh, valid and carries the id of its endpoint |
| ProxyUrls.IdIsInjective | app/utils/proxy_url.py:48-50 | two ids are equal iff scheme, lower-cased host and port are, although hosts may contain the separator |
| Geo.ScanFindsLongest | app/services/geo_service.py:18-23 | the first match of the stably sorted records has the longest prefix, the earliest in file order on ties; none iff nothing matches |
| Geo.HoldsRange | app/services/geo_service.py:59-61 | a network holds exactly the addresses of its family from its base on, as many as its host bits count |
| Geo.LongestIsInnermost | app/services/geo_service.py:59-61 | the chosen network lies inside every other matching network (prefixes as in section 3.1 of RFC 4632) |
| Geo.GeoResolver.Enrich | app/services/geo_service.py:53-62 | the scan takes country and ASN from that record, and leaves the proxy alone without an address or a match |
| Subscriptions.SubscriptionAccounted | app/utils/proxy_text.py:86-124 | for every content and type: fetched is direct plus adapter plus unsupported plus invalid, proxies are as many as direct entries, unsupported only in clash |
| Subscriptions.RelevantAre | app/utils/proxy_text.py:331-334 | the lines that count are the stripped ones that are neither blank nor comments |
| Subscriptions.LineMeans | app/utils/proxy_text.py:352-402 | what each line of a list is: a URL, a bare endpoint, or by its scheme a proxy, an entry for an adapter, or invalid |
| Subscriptions.BareScheme | app/utils/proxy_text.py:161-215 | a socks5 list gives bare endpoints the scheme socks5, other text http, v2ray lists and decoded content none |
| Subscriptions.NodeMeans | app/utils/proxy_text.py:283-318 | what each kind of node is, and the URL a direct one is read from |
| Subscriptions.ParseUriText | app/utils/proxy_text.py:321-349 | the line loop tallies every relevant line once; an escaping error ends the parse |
| Subscriptions.TryParseClash | app/utils/proxy_text.py:254-280 | the node loop tallies every dictionary node once and skips the rest; an error that is no YAMLError escapes |
| Subscriptions.UrisInDecides | app/utils/proxy_text.py:405-413 | the test for a URI list is decided by its first line with a known scheme or without a readable one |
| Subscriptions.LooksLikeUris | app/utils/proxy_text.py:405-413 | the loop over the lines computes that test, an escaping error included |
| Subscriptions.FirstReadingDecides | app/utils/proxy_text.py:416-437 | the first decoding that reads as a subscription, or on which the test raises, decides; nothing iff none does |
| Subscriptions.MaybeDecode | app/utils/proxy_text.py:416-437 | the loop returns the first decoding that passes the test or names proxies |
| Subscriptions.ParseSubscriptionContent | app/utils/proxy_text.py:161-215 | the dispatch reads each type in the format defined for it |
| Subscriptions.ExtractionAccounted | app/utils/proxy_text.py:127-158 | every relevant line becomes a record or an invalid one, and the records are exactly those the candidates parse to |
| Subscriptions.ExtractProxies | app/utils/proxy_text.py:127-158 | the loop extracts the relevant lines in their order, and an escaping error ends it |
| UrlImport.UrlImportService.ImportFromUrl | app/services/url_import_service.py:49-70 | stored plus duplicate is the direct count without clamping, everything fetched is accounted for, exactly the first records are written to raw |
| UrlImport.FirstOfEachEndpoint | app/services/url_import_service.py:149-158 | for parsed records de-duplication by id is de-duplication by scheme, host and port |

## Left out

- HTTP requests, the gateway, process spawning, the timer library, routes, settings, logging and the dashboard: input, output and wiring; validator results and clock readings are parameters.
- Store failures, other than as the exception that ends a job.
- The validation lock: a job is one method call, so jobs never overlap.
- Interleaving inside a read of an admin session: an expired read is a SELECT and a DELETE; here it is one step. For session bindings the two are separate steps.
- Interleaving.RunsKeepInvariant: excludes `move_proxy` and `update_score`, which no service calls and which do not keep it; `Interleaving.RunsKeepAgreement` includes them.
- Scheduling.SchedulerService.RunValidateOnce: where an exception comes from is not modelled; that it comes, and what it leaves in the table, is a parameter.
- Strikes.StrikesSurviveIffInOrder: excludes runs in which a fetch replaces the record, which resets its count (`Services.FetchedRow`), or the store calls `move_proxy` and `update_score` that no service makes; a run may start right after a fetch. The same holds of Strikes.RowsAreHistories, where validations start from raw, as the scheduler's do; `RowHistories.EveryRowIsAHistory` includes fetches.
- Integer width: scores and counters are unbounded, SQLite stores 64 bits.
- JSON: serialising and loading a payload is the identity; for admin sessions it is a parameter with its round trip as hypothesis.
- `build_status` only repackages `Authenticate`.
- ProxyUrls.RoundTrip: hosts are ASCII; the Unicode normalisation check and Unicode lower-casing of urllib are not modelled, and its check of address literals is a parameter.
- Text.Strip and Text.Lower: ASCII only, also for the query filter and the timeout test.
- Regular expressions, YAML, base64 decoding and splitting into lines are parameters of the subscription parser, and so are urlparse and the URL parser there.
- The download, the checks on the source URL and the source label of an import.
- Reading the GeoIP file and parsing addresses; GeoIP back-fill of stored records.
- Header inspection of the anonymity check: its verdict is part of the HTTP result.
- Provider states of the activity record, statistics, metrics and provider summaries.
- Provider plugins: fetched records are taken to be fresh, as every built-in provider builds them.
