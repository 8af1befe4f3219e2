# GoUp: verified models of its stateful engines

GoUp is a web and DNS server. Around its networking sit several small engines that keep state over
whole runs. This project models them in Dafny and proves what they promise. Clocks, sockets, the disk,
child processes, the schedule of goroutines and the answers of libraries are parameters or arbitrary
steps; everything between them follows the Go code branch by branch.

| file | modules | what it covers |
|---|---|---|
| `Strings.dfy` | `Strings` | the string operations the code uses, and their laws |
| `FreshIds.dfy` | `FreshIds` | unused identifiers, for building runs |
| `Numbers.dfy` | `Numbers` | unsigned words, division by a variable |
| `LoadBalancer.dfy` | `LoadBalancer` | backends, one request's lap over them under interference, round-robin fairness |
| `OverlappingRequests.dfy` | `OverlappingRequests` | any number of requests at once on one balancer |
| `EjectionProtocol.dfy` | `EjectionProtocol` | a backend's two atomics, one load or store at a time |
| `RateLimit.dfy` | `RateLimit` | token buckets, the bound over every window, the sweeper |
| `DnsIndex.dfy`, `DnsServer.dfy` | `DnsIndex`, `DnsServer` | the record index against a linear scan, zone matching, the reply |
| `Gzip.dfy`, `ETag.dfy` | `Gzip`, `ETag` | the late-deciding compressing writer, entity tags there and back |
| `AccessLog.dfy` | `Monitor`, `AsyncLog` | pooled log entries, the bounded queue and its worker, the last hundred requests |
| `Paths.dfy` | `GoPath`, `StaticHandler`, `ConfigPaths`, `PhpPaths`, `PathAgreement` | three path normalisers over one model of Go's path cleaning |
| `LineWriter.dfy` | `LineWriter` | splitting a stream into log lines |
| `StatCache.dfy` | `StatCache` | cached file information over a changing file system |
| `Middleware.dfy` | `Gates`, `MiddlewareManager`, `SiteHandler` | gates, the chain and its slice, one site's handler and its runs |
| `ChildProcesses.dfy` | `ChildProcesses` | children of the Node.js and Python plugins |
| `Sessions.dfy` | `Sessions` | login sessions and their cleanup |
| `LogPaths.dfy` | `LogPaths` | printing and parsing log paths |

Code that updates fields is a class with those fields, and each of its methods is proved against a
function or predicate of the old state. Runs are sequences of events over those specifications.
Goroutines are modelled in three ways: as interference before every step, given as a parameter (`LoadBalancer`),
as a machine whose steps are single operations (`OverlappingRequests`, `EjectionProtocol`, `StatCache`,
`SiteHandler`), and as a schedule of mutex-protected steps (`AsyncLog`, `ChildProcesses`).

## What the proofs found

Where a property does not hold of the code in general, the model keeps the code and the exact condition is proved.

- A fresh ejection can be undone by a request that judged an older one expired: `FreshMarkErased` is a run from
  the initial state. `MarkHoldsIff` gives the exact states in which 30 seconds are respected by every
  continuation; with `isDown` and `markDown` as single steps it is all of them (`WholeCallsHonourMarks`).
- A counter that wraps inside a window shares requests out unevenly unless the wrap falls between laps
  or the number of backends divides the word size (`FairAcrossWrapIff`, `UnfairAcrossWrap`).
- The rate-limit sweeper can be noticed exactly when ten minutes do not refill a bucket
  (`SweeperUnobservableIff`), and in that case it also breaks the limiter's own bound: two whole bursts can be
  served in little more than ten minutes (`BoundedIff`, `SweepBreaksBound`).
- A `Flush` before the compression decision commits the headers; if the decision then falls on
  compressing, gzip bytes go out unlabelled (`LabelledIff`, `EarlyFlushMislabels`).
- The inbound `If-None-Match` rewrite also cuts tags of uncompressed responses that end in `-gzip`
  (`IdentityTagKeptIff`, `IdentityTagCut`).
- `SafeJoin` cleans the root itself while the static handler and the PHP plugin return it as configured, so
  for a request of the root they agree exactly when it is clean (`NormalisersAgree`, `SrvDisagrees`). The escape
  tests of `SafeJoin` and `phpScriptPath` never fire (`SafeJoinClamps`, `PhpOutcome`).
- The domain "." is valid, and as a logger's identifier it is no directory of its own: its log files are not
  listed (`LogPathRoundTripIff`, `DotDomainIsNotListed`) and are those of the empty identifier
  (`LogFilesSharedIff`, `DotSharesFiles`).
- `ValidateDomain` is not called on the start path: configurations are loaded as they are
  (`internal/config/config.go:122-135`) and their domains become loggers' identifiers
  (`internal/server/server_web.go:39-54`). A site file with the domain ".." writes its logs outside the log
  directory (`DotDotWritesOutside`); `StaysBelowIff` says which identifiers do.
- A log file whose identifier holds a backslash is listed under a name that does not open
  it (`OrdinaryOpensIff`, `BackslashIsNotOpened`).
- A request after `OnExit` starts a child that nobody kills (`AllKilledIff`, `UnkilledAfterOnExit`), and a watcher still
  pending can make room for a second one, unless no child was recorded (`RequestsAfterOnExit`,
  `SecondChildAfterOnExit`). Such requests exist: a forced restart runs `ExitPlugins` without any drain
  (`internal/safeguard/safeguard.go:109`, `internal/restart/restart.go:79-83`), and `ShutdownServers` goes on after its timeout
  while requests are still in flight.
- An allow list none of whose items can be read is no allow list: everybody gets in (`OutsiderAdmittedIff`,
  `MistypedAllowList`).
- An interim status such as 103 makes the gzip writer take its decision before the final headers are set. A
  Content-Length set afterwards goes out with the compressed body (`InterimHeaders`, `InterimLeavesLength`).
- The comment at `internal/server/handler.go:74` says that logging wraps the entire request. Being
  used last it is applied innermost, so refused requests are never logged (`OccupancyAndLog`).
- The comment at `internal/config/paths.go:29` says that leading and trailing dots are not allowed. The
  code allows both (`ValidateDomainIff`, `DotsAtEndsAccepted`).
- A cached stat result is at most a second old when the call reads the clock, and older by as long as the call
  takes when it returns: TTL + d for calls that last d, no less (`AgeAtReturnIff`, `SlowHitIsOld`).

## Model

| member | source | states |
|---|---|---|
| `LoadBalancer.Backend.IsDown` | internal/server/loadbalancer.go:32-42 | down for exactly the 30 s after the stored mark; clears the flag afterwards and touches nothing else |
| `LoadBalancer.Backend.MarkDown` | internal/server/loadbalancer.go:44-47 | stamps the backend and ejects it |
| `LoadBalancer.Balancer.VisitBackend` | internal/server/loadbalancer.go:102-116 | whatever others leave in the backends before and during the visit: it is skipped iff its ejection is in force at the check, else tried; a failed try stamps it, a successful check clears it; no other backend is touched but by others |
| `LoadBalancer.Balancer.ServeHTTP` | internal/server/loadbalancer.go:60-124 | under any interference: visits in cyclic order from the drawn start, each skipped iff its ejection is in force at its check, going on only past skipped backends and failures that wrote nothing; at most one writer to the client; the whole new state of every backend and of the counter |
| `LoadBalancer.BadGatewayIff` | internal/server/loadbalancer.go:100-124 | the 502 page is rendered iff at every visit of the lap the ejection is in force or the attempt fails with nothing written |
| `LoadBalancer.Balancer.ServeAlone` | internal/server/loadbalancer.go:96-124 | undisturbed: each backend met is judged and left by its own old state, and the others are unchanged |
| `LoadBalancer.Balancer.ServeMany` | internal/server/loadbalancer.go:96-98 | over any stretch of successive requests each backend is first choice as often as its share of the consecutive counter values |
| `LoadBalancer.VisitsApart` | internal/server/loadbalancer.go:100-101 | one lap never meets a backend twice |
| `LoadBalancer.LapIsComplete` | internal/server/loadbalancer.go:100-101 | one lap meets every backend, from any start |
| `LoadBalancer.CyclicOrder` | internal/server/loadbalancer.go:98-101 | the lap begins at its start, after each backend comes the next, after the last the first |
| `LoadBalancer.HeldIsLatest` | internal/server/loadbalancer.go:25-47 | what others left in a backend last is what the request finds there |
| `LoadBalancer.FairWithoutWrap` | internal/server/loadbalancer.go:97-98 | any n*k consecutive counter values that do not wrap give each of n backends exactly k starts |
| `LoadBalancer.FairAcrossWrapIff` | internal/server/loadbalancer.go:97-98 | across a wrap the share-out stays exact iff the wrap falls between laps or n divides the word size |
| `LoadBalancer.UnfairAcrossWrap` | internal/server/loadbalancer.go:97-98 | three backends and one lap across the wrap of the uint64 counter: uneven |
| `OverlappingRequests.EveryRequestConcludes` | internal/server/loadbalancer.go:96-124 | in every interleaving of overlapping requests, failures included, each goes round in cyclic order, on only past skips and failures that wrote nothing, with one writer to its client, and ends as ServeHTTP's contract says |
| `OverlappingRequests.EjectionHonoured` | internal/server/loadbalancer.go:32-47 | in every interleaving with clock readings in order, a request skips the backend it comes to iff that backend failed some request at most 30 s before |
| `OverlappingRequests.PlacedKept` | internal/server/loadbalancer.go:96-124 | while no reply fails, every step of any number of overlapping requests keeps all backends up and every request at its first choice |
| `OverlappingRequests.OverlappingFair` | internal/server/loadbalancer.go:96-124 | in every interleaving of overlapping requests with healthy backends each backend serves exactly its share of the counter values drawn, k each of n*k |
| `EjectionProtocol.SettledKept` | internal/server/loadbalancer.go:32-47 | no single load or store of any call unsettles a mark or answers "up" within its cooldown |
| `EjectionProtocol.SettledIsHonoured` | internal/server/loadbalancer.go:32-47 | a settled mark is honoured by every call in every interleaving until 30 s have passed |
| `EjectionProtocol.MarkHoldsIff` | internal/server/loadbalancer.go:32-47 | later calls respect the 30 s in every continuation iff no call in flight has judged, or still holds, an older stamp |
| `EjectionProtocol.WholeIsRun` | internal/server/loadbalancer.go:32-47 | a whole call of isDown or markDown is a run of its single loads and stores with the same effect and answer |
| `EjectionProtocol.WholeCallsHonourMarks` | internal/server/loadbalancer.go:32-47 | with whole calls as steps, in every run from the start a call is told "down" iff the latest mark is at most 30 s old |
| `EjectionProtocol.WellTimedRun` | internal/server/loadbalancer.go:32-47 | no run lets a stamp come from the future |
| `EjectionProtocol.FreshMarkErased` | internal/server/loadbalancer.go:32-47 | a run of single loads and stores from the initial state after which a mark just completed is erased, and a new call is told "up" |
| `EjectionProtocol.EligibleAgain` | internal/server/loadbalancer.go:32-42 | after the cooldown, without new marks, no call is told "down": nothing is ejected for good |
| `RateLimit.RateLimiter.constructor` | internal/server/middleware/ratelimit.go:24-35 | no buckets, and a burst of at least one |
| `RateLimit.RateLimiter.Allow` | internal/server/middleware/ratelimit.go:37-57 | the answer and the whole new map: refill capped at the burst, one token spent iff there is one |
| `RateLimit.RateLimiter.Sweep` | internal/server/middleware/ratelimit.go:59-72 | exactly the buckets idle for more than ten minutes are gone, whatever the order of the walk |
| `RateLimit.AddressesIndependent` | internal/server/middleware/ratelimit.go:37-72 | an address is answered as if it were alone, sweeps included |
| `RateLimit.PotentialFalls` | internal/server/middleware/ratelimit.go:48-55 | tokens minus rate times stamp falls by one per allowed call and never rises, in any order of timestamps |
| `RateLimit.PotentialExact` | internal/server/middleware/ratelimit.go:47-55 | the level is tokens plus elapsed times rate, capped at the burst, and below the cap nothing earned is lost: the potential falls by exactly the token spent |
| `RateLimit.WindowBound` | internal/server/middleware/ratelimit.go:37-57 | from any state, hence for every window that no sweep interrupts: in every window of an address's calls ending in an allowed one, at most burst + rate * elapsed were allowed, with timestamps in any order |
| `RateLimit.BoundedIff` | internal/server/middleware/ratelimit.go:37-72 | with sweeps anywhere in a run from empty, monotone time: that bound holds over all runs iff rate * 600 >= burst |
| `RateLimit.SweepBreaksBound` | internal/server/middleware/ratelimit.go:37-72 | when rate * 600 < burst, a run with one sweep that is served two whole bursts and exceeds the bound |
| `RateLimit.LevelKept` | internal/server/middleware/ratelimit.go:37-72 | with monotone time every bucket stays between empty and full |
| `RateLimit.WaitingHelps` | internal/server/middleware/ratelimit.go:48-56 | a refused client that stays away for 1/rate seconds is served |
| `RateLimit.NoStarvation` | internal/server/middleware/ratelimit.go:37-72 | with monotone time, sweeps or not: a call at least 1/rate seconds after a refused one of its address is allowed, unless one between them was, however often the client asks in the meantime |
| `RateLimit.PollingIsServed` | internal/server/middleware/ratelimit.go:37-57 | at two per second, calls at 0, 0.25 and 0.5 s are served, refused and served |
| `RateLimit.SweptOfKept` | internal/server/middleware/ratelimit.go:37-72 | calls and sweeps keep swept and unswept limiters level with each other |
| `RateLimit.SweepsInvisible` | internal/server/middleware/ratelimit.go:37-72 | when rate * 600 >= burst, sweeps anywhere in a run change no answer |
| `RateLimit.SweepSeen` | internal/server/middleware/ratelimit.go:59-72 | when rate * 600 < burst, a run that tells a sweep from none |
| `RateLimit.SweeperUnobservableIff` | internal/server/middleware/ratelimit.go:59-72 | no run from an empty limiter can tell whether the sweeper runs iff rate * 600 >= burst |
| `DnsIndex.Handler.constructor` | internal/dns/handler.go:40-56 | the index of a new handler agrees with a scan of its configuration |
| `DnsIndex.Handler.BuildIndex` | internal/dns/handler.go:100-136 | for every order in which the zone map is walked, index and name set agree with a linear scan, and the zone list holds every zone, longest first |
| `DnsIndex.Handler.AddRecord` | internal/dns/handler.go:107-129 | one record, valid or not, keeps the agreement with the scan |
| `DnsIndex.Handler.SortByLength` | internal/dns/handler.go:133-135 | a permutation sorted by length, ties in any order |
| `DnsIndex.Handler.FindRecords` | internal/dns/handler.go:215-232 | two lookups give what the scan gives: valid records of the type and then CNAMEs, only CNAMEs for ANY; found iff any record has the name |
| `DnsIndex.OrderIrrelevant` | internal/dns/handler.go:101 | every walking order finds the same records as often |
| `DnsIndex.AnswersDeterministic` | internal/dns/handler.go:100-136 | two handlers of one configuration give the same answers as multisets and the same verdict on a name |
| `DnsIndex.AnswersMeaning` | internal/dns/handler.go:215-262 | a record is an answer iff some zone configures a valid record with that name, and it is a CNAME or has the type asked for |
| `DnsIndex.NameInConfig` | internal/dns/handler.go:107-113 | a name is known iff some record, valid or not, bears it |
| `DnsIndex.FqdnLabels` | internal/dns/handler.go:103-111 | a record's name is its own labels, then the zone's, then the root; for "@" the zone's apex |
| `DnsIndex.RecordInItsZone` | internal/dns/handler.go:103-145 | every record's name lies in its own zone |
| `DnsIndex.WwwExample` | internal/dns/handler.go:103-111 | "www" in zone "Example.com" is www.example.com. |
| `DnsIndex.RecordTable` | internal/dns/handler.go:234-262 | which records are valid, and type code, TTL and data of each, by the codes of RFC 1035 section 3.2.2 and RFC 3596 section 2.1 |
| `DnsIndex.ScanInOrder` | internal/dns/handler.go:107-129 | a scan gives each wanted record once, in configuration order |
| `DnsIndex.AnswersInTwoParts` | internal/dns/handler.go:221-231 | records of the type asked for come before the CNAMEs, and ANY gets only CNAMEs |
| `DnsIndex.OneZoneOrder` | internal/dns/handler.go:107-129 | answers held by one zone come in its configuration order |
| `DnsIndex.Handler.MatchZone` | internal/dns/handler.go:141-149 | the longest configured zone that contains the name, "" iff no named zone does |
| `DnsIndex.EqualLengthMatches` | internal/dns/handler.go:133-149 | matching zones of equal length are equal, so ties of the unstable sort do not matter |
| `DnsIndex.ZoneIsUnique` | internal/dns/handler.go:133-149 | the answer depends on the configuration alone |
| `DnsIndex.MatchesByLabels` | internal/dns/handler.go:138-145 | the suffix test matches iff the zone's labels end the name's labels |
| `DnsServer.HandleForwarding` | internal/dns/handler.go:264-296 | exactly one message: the first success in order, not authoritative, or SERVFAIL iff all fail |
| `DnsServer.ServeDNS` | internal/dns/handler.go:152-213 | exactly one message for any number of questions, equal to a reply defined from the configuration without the index |
| `DnsServer.OneQuestion` | internal/dns/handler.go:152-213 | NXDOMAIN iff no zone matches or the name has no record, NOERROR with exactly the configured answers otherwise; REFUSED or forwarded only when no zone matches and resolvers exist |
| `DnsServer.RecordIsAnswered` | internal/dns/handler.go:152-232 | a valid record of a named zone is answered under its own name, given label by label, with NOERROR, whatever other zones and resolvers are configured |
| `DnsServer.TargetPort` | internal/dns/handler.go:266-270 | a resolver is asked at the port it names, else at 53 |
| `Gzip.SmartGzipWriter.CheckCompression` | internal/server/middleware/gzip.go:124-158 | decides once: only unencoded, non-Range responses of a compressible type, with a fresh compressor |
| `Gzip.SmartGzipWriter.Decide` | internal/server/middleware/gzip.go:84-99 | relabels the headers of the decision iff they promise compression, and commits them unless the status is interim |
| `Gzip.SmartGzipWriter.WriteHeader` | internal/server/middleware/gzip.go:79-100 | for every status net/http accepts, 1xx included: the writer's state, headers and wire bytes remain the function of the call history |
| `Gzip.SmartGzipWriter.Write` | internal/server/middleware/gzip.go:110-122 | the same, with content sniffing before a first write |
| `Gzip.SmartGzipWriter.ReadFrom` | internal/server/middleware/gzip.go:170-183 | the same, deciding on the headers so far without sniffing, for every chunking of the source and up to any read error |
| `Gzip.SmartGzipWriter.Flush` | internal/server/middleware/gzip.go:186-193 | the same; commits undecided headers when it comes first |
| `Gzip.SmartGzipWriter.Close` | internal/server/middleware/gzip.go:160-165 | leaves the final body of the call history on the wire |
| `Gzip.BodyIsWritten` | internal/server/middleware/gzip.go:79-183 | for every call sequence whose final status allows a body, the body is the handler's bytes, or decodes to exactly them when compressing |
| `Gzip.WrittenOfMore` | internal/server/middleware/gzip.go:110-183 | what the handler wrote is counted call by call, in order |
| `Gzip.WrittenOfOne` | internal/server/middleware/gzip.go:110-183 | each Write and each chunk counts in full, no other call counts |
| `Gzip.Respond` | internal/server/middleware/gzip.go:36-67 | any sequence of handler calls played on a writer and closed: the committed headers are those owed, and the body on the wire is the handler's bytes or decodes to them |
| `Gzip.HeadersFitBody` | internal/server/middleware/gzip.go:84-99 | unless a Flush or an interim status came first: compressed means labelled gzip, no length, every other header kept but Vary and ETag; not compressed means the handler's headers |
| `Gzip.SniffedOnlyIfMissing` | internal/server/middleware/gzip.go:110-117 | a Write that comes first leaves a declared Content-Type alone; without one it adds the detected type and changes nothing else, for the decision and for the committed headers |
| `Gzip.OthersDoNotSniff` | internal/server/middleware/gzip.go:79-84 | a WriteHeader or ReadFrom that comes first decides on the handler's own headers |
| `Gzip.CompressesIff` | internal/server/middleware/gzip.go:124-158 | compressed iff decided without a Content-Encoding, not for a Range, and of one of the ten listed media types, parameters ignored |
| `Gzip.NeverReencoded` | internal/server/middleware/gzip.go:130-141 | encoded responses and answers to Range requests pass through |
| `Gzip.DecidedOnce` | internal/server/middleware/gzip.go:79-100 | no later call changes the decision, or headers once committed |
| `Gzip.LabelledIff` | internal/server/middleware/gzip.go:79-100 | the label is right whenever neither a Flush nor an interim status precedes the deciding calls; after a Flush, iff the flushed headers said gzip or nothing eligible is decided; after an interim status, iff the handler leaves the label in place until the headers go out or nothing eligible was decided |
| `Gzip.FlushFirstCommits` | internal/server/middleware/gzip.go:186-193 | a Flush that comes first commits the headers as they are, whatever is decided later |
| `Gzip.InterimHeaders` | internal/server/middleware/gzip.go:79-100 | after an interim status first, the decision is taken on the headers of that moment, and what goes out is those headers, relabelled if eligible, with all that the handler changed since |
| `Gzip.InterimLeavesLength` | internal/server/middleware/gzip.go:84-87 | early hints and then a Content-Length: every compressible page goes out gzipped under its uncompressed length |
| `Gzip.FlushThenWriteMislabels` | internal/server/middleware/gzip.go:186-193 | every Flush followed by a compressible Write is mislabelled |
| `Gzip.EarlyFlushMislabels` | internal/server/middleware/gzip.go:186-193 | a concrete HTML response that is |
| `ETag.GzipTagShape` | internal/server/middleware/gzip.go:102-108 | the tag of a compressed response is well formed, weak, and never weakly matches the original (RFC 9110 section 8.8.3.2) |
| `ETag.RewriteToQuote` | internal/server/middleware/gzip.go:53-55 | replacing every occurrence drops only a suffix standing directly in front of a quote |
| `ETag.RewriteList` | internal/server/middleware/gzip.go:48-55 | the rewrite of a header is the rewrite of each tag, separators untouched |
| `ETag.RewriteUnquoted` | internal/server/middleware/gzip.go:53-55 | without a quote nothing is rewritten |
| `ETag.AllQuotesTrimmed` | internal/server/middleware/gzip.go:104-107 | all quotes at either end of a tag are trimmed, whatever they enclose |
| `ETag.GzipTagsComeBack` | internal/server/middleware/gzip.go:48-55 | each sent tag of a list comes back weakly matching the tag it was made from |
| `ETag.IdentityTagKeptIff` | internal/server/middleware/gzip.go:48-55 | a tag survives the rewrite iff it does not itself end in -gzip |
| `ETag.IdentityTagCut` | internal/server/middleware/gzip.go:48-55 | a handler's tag "v1-gzip" is cut to "v1", which it does not match |
| `Monitor.RequestMonitor.AddRequestLog` | internal/monitor/monitor.go:30-48 | holds exactly the last 100 entries ever added and counts them all, modulo 2^64 |
| `Monitor.RequestMonitor.RecentRequestLogs` | internal/monitor/monitor.go:50-62 | the most recent entries, oldest first, for any limit |
| `AsyncLog.AsyncLogger.GetEntry` | internal/server/middleware/async_logger.go:54-56 | hands out a blank entry nobody else owns |
| `AsyncLog.AsyncLogger.Fill` | internal/server/middleware/async_logger.go:14-25 | writing an entry one holds changes nothing queued, pooled or in the worker |
| `AsyncLog.AsyncLogger.Log` | internal/server/middleware/async_logger.go:58-67 | queued at the end iff there is room, dropped and pooled otherwise; ownership leaves the caller |
| `AsyncLog.AsyncLogger.PutEntry` | internal/server/middleware/async_logger.go:70-73 | blanks an entry and pools it |
| `AsyncLog.AsyncLogger.WorkerTake` | internal/server/middleware/async_logger.go:79 | takes the oldest queued entry |
| `AsyncLog.AsyncLogger.WorkerDeliver` | internal/server/middleware/async_logger.go:79-98 | delivers exactly that entry to log file and monitor and pools it |
| `AsyncLog.AsyncLogger.Rebuild` | internal/server/middleware/async_logger.go:80-88 | no field of an earlier entry survives in the reused map |
| `AsyncLog.FieldsCarryAll` | internal/server/middleware/async_logger.go:83-91 | the monitor reads back everything the worker put into the fields |
| `AsyncLog.EachUnderItsName` | internal/server/middleware/async_logger.go:80-91 | each value of a request appears under its own name in file and monitor |
| `AsyncLog.OrderlyKept` | internal/server/middleware/async_logger.go:60-99 | every step keeps accepted = delivered + in the worker + queued, in order, within capacity |
| `AsyncLog.SubmissionsSplit` | internal/server/middleware/async_logger.go:60-67 | every submission was accepted or dropped |
| `AsyncLog.AsyncLogger.Perform` | internal/server/middleware/async_logger.go:54-99 | each step, with its pooled and shared entries, is the same step of a machine over payloads in which entries do not exist |
| `AsyncLog.AsyncLogger.Interleave` | internal/server/middleware/async_logger.go:54-99 | any schedule of request goroutines, worker and collector ends where the machine over payloads ends on that schedule; each entry has one owner, and pooled entries are blank |
| `AsyncLog.SubmissionsAreOwn` | internal/server/middleware/async_logger.go:60-67 | what is submitted, and in which order, is told from the goroutines' own steps, whatever worker and queue do |
| `AsyncLog.RunConserves` | internal/server/middleware/async_logger.go:54-99 | every schedule from idle: submitted = delivered + dropped + queued + in the worker; deliveries are the accepted submissions in order; a submission is dropped iff the queue is full |
| `AsyncLog.Serve` | internal/server/middleware/async_logger.go:36-99 | a logger's whole life: the log file has one line per delivery of that machine, the monitor its last hundred |
| `GoPath.CleanIdempotent` | internal/server/static_handler.go:215 | path cleaning is idempotent on every string |
| `GoPath.CleanUp` | internal/server/static_handler.go:215 | path cleaning: an ordinary element followed by ".." is not there |
| `GoPath.CleanAboveRoot` | internal/server/static_handler.go:215 | ".." at the root stays at the root |
| `GoPath.CleanDropsDot` | internal/server/static_handler.go:215 | empty elements and "." are not there |
| `GoPath.CleanEnds` | internal/server/static_handler.go:215 | a slash at the end is dropped, and the empty path is "." |
| `GoPath.CleanLeaves` | internal/server/static_handler.go:215 | ordinary elements are left as they are, rooted or after any number of ".." |
| `GoPath.CleanElemsReduced` | internal/server/static_handler.go:215 | cleaning leaves ordinary elements only, after leading ".." if relative |
| `GoPath.JoinAppends` | internal/server/static_handler.go:233 | joining ordinary elements below a base appends them to the cleaned base |
| `GoPath.RelBelowBase` | internal/config/paths.go:81-87 | what was joined below a base is related to it by the same elements, and the escape test accepts it |
| `StaticHandler.StaticOutcome` | internal/server/static_handler.go:207-234 | for every root and request exactly which error or which file: no root, hidden, NUL, or root plus the request's elements |
| `StaticHandler.ServedIsContained` | internal/server/static_handler.go:207-240 | a served file lies below the root by ordinary elements, none hidden but .well-known, and its path is clean |
| `StaticHandler.SizeUnit` | internal/server/static_handler.go:190-201 | for every int64 from 1024 up the divisor is the largest fitting power of 1024 and the unit letter's index is at most 5 |
| `ConfigPaths.ValidateDomainIff` | internal/config/paths.go:14-44 | accepted iff 1 to 253 of the listed characters and dots, no two dots in a row |
| `ConfigPaths.LabelCharIff` | internal/config/paths.go:32-40 | the characters of a label: ASCII letters, digits, dash, underscore and star |
| `ConfigPaths.DotsAtEndsAccepted` | internal/config/paths.go:27-31 | a host with a dot in front or behind is accepted |
| `ConfigPaths.LeadingDotAccepted` | internal/config/paths.go:27-31 | so is ".a" |
| `ConfigPaths.SafeJoinClamps` | internal/config/paths.go:76-89 | never rejects: any path is clamped and its elements appended below the base |
| `ConfigPaths.SiteConfigFiles` | internal/config/paths.go:48-53 | a valid domain's file is a direct child of the directory, and no two domains share one |
| `PathAgreement.PhpOutcome` | plugins/php.go:242-261 | phpScriptPath rejects a cleaned request only for a NUL and otherwise appends the request's elements |
| `PathAgreement.NormalisersAgree` | plugins/php.go:102-103 | whenever the static handler serves, phpScriptPath and SafeJoin name the same file, for the root itself iff the root is clean |
| `PathAgreement.SlashedRootDisagrees` | internal/config/paths.go:76-89 | for a root with a slash at its end and a request of the root SafeJoin alone names another string |
| `PathAgreement.SrvDisagrees` | internal/server/static_handler.go:207-219 | as for "/srv/" |
| `PathAgreement.CleanAsksTheSame` | plugins/php.go:102 | a cleaned request asks for the same elements |
| `PathAgreement.CleanPathIsStable` | internal/server/static_handler.go:207-234 | normalising the clean path again gives the same answer |
| `PathAgreement.UpIsForgotten` | plugins/php.go:102-103 | a request that enters a directory and leaves it again names, for all three, the file of the request without it |
| `PathAgreement.ServedIsRootAndRequest` | internal/server/static_handler.go:213-233 | below a clean root the served file is the root followed by the cleaned request |
| `PathAgreement.RefusedAsHiddenIff` | internal/server/static_handler.go:221-227 | refused as hidden iff some part starts with a dot, .well-known excepted |
| `LineWriter.IndexOfNewline` | internal/logger/logger.go:188-195 | the first newline, or -1 iff there is none |
| `LineWriter.LineWriter.Write` | internal/logger/logger.go:167-178 | logged lines are those of the whole stream so far; the buffer is exactly the unterminated tail |
| `LineWriter.LineWriter.Close` | internal/logger/logger.go:180-186 | logs a non-empty tail, so that the lines of the whole stream are logged |
| `LineWriter.SplitExtends` | internal/logger/logger.go:167-178 | more bytes extend the last piece only |
| `LineWriter.LogChunks` | internal/logger/logger.go:162-202 | any chunking logs the lines of the whole stream |
| `LineWriter.PiecesSpellStream` | internal/logger/logger.go:167-178 | lines and newlines spell the stream back |
| `LineWriter.LinesOneByOne` | internal/logger/logger.go:167-186 | each newline ends one line, empty ones included, and a rest without a newline is a line if it is not empty |
| `LineWriter.TrimCRCuts` | internal/logger/logger.go:197-202 | one carriage return at the end is cut, and nothing else |
| `StatCache.Cache.Reset` | internal/server/stat_cache.go:38-41 | an empty map and a zero counter |
| `StatCache.Cache.CachedStat` | internal/server/stat_cache.go:44-65 | calls one at a time, os.Stat answering any time after the clock is read: the answer was true less than a second before that reading or since, hits change nothing, misses store or swap, the counter equals the map size and stays within 65536 |
| `StatCache.HonestKept` | internal/server/stat_cache.go:44-65 | every atomic step keeps every entry and result in flight true recently enough |
| `StatCache.AnswerIsFresh` | internal/server/stat_cache.go:44-65 | each return gives a result true after one second before the call read the clock |
| `StatCache.EveryRunIsFresh` | internal/server/stat_cache.go:38-65 | so in every interleaving of calls, swaps and resets from an empty cache, errors included |
| `StatCache.AgeAtReturnIff` | internal/server/stat_cache.go:44-65 | answers of calls that last at most d are younger than an age at return, in every interleaving, iff that age is at least TTL + d |
| `StatCache.TtlAtReturnIff` | internal/server/stat_cache.go:44-65 | the TTL bounds the age at return iff d is 0 |
| `StatCache.SlowHitIsOld` | internal/server/stat_cache.go:44-65 | for every d a run from the empty cache whose last call lasts d and answers with what is TTL - 1 + d old |
| `Gates.IpInNets` | internal/server/middleware/edge.go:38-45 | some network contains the address |
| `Gates.ParseCIDRs` | internal/server/middleware/edge.go:15-36 | the networks of the items that can be read, in order; bare addresses become host routes, the rest is dropped |
| `Gates.ParsedHas` | internal/server/middleware/edge.go:15-45 | an address is in the parsed list iff some readable item names it; the list is empty iff no item can be read |
| `Gates.BareAddressIsHost` | internal/server/middleware/edge.go:22-30 | a bare address names itself alone, if the library reads /32 and /128 as one address |
| `Gates.TrimSpaceCuts` | internal/server/middleware/edge.go:18 | spaces around an item do not matter |
| `Gates.IPFilterPasses` | internal/server/middleware/edge.go:50-75 | passes iff parsed, not denied, and allowed whenever an allow list exists |
| `Gates.OutsiderAdmittedIff` | internal/server/middleware/edge.go:50-75 | an address outside a configured allow list is admitted iff no item of the list can be read and no deny item names it |
| `Gates.MistypedAllowList` | internal/server/middleware/edge.go:50-75 | an allow list whose one item is mistyped admits everybody |
| `Gates.ChainConcat` | internal/server/middleware/manager.go:26-31 | wrapping by a concatenation is wrapping twice |
| `Gates.StoppedOutside` | internal/server/middleware/edge.go:50-183 | a request stopped in the outer layers leaves the inner ones as if they did not exist |
| `MiddlewareManager.Manager.Use` | internal/server/middleware/manager.go:21-23 | appends, in place or in a new array |
| `MiddlewareManager.Manager.Copy` | internal/server/middleware/manager.go:34-40 | equal contents in an array of its own |
| `MiddlewareManager.Manager.Apply` | internal/server/middleware/manager.go:26-31 | the first layer used ends up outermost |
| `MiddlewareManager.CopyIsIndependent` | internal/server/middleware/manager.go:20-40 | additions to a copy and to the original never reach each other |
| `SiteHandler.CreateHandler` | internal/server/handler.go:20-108 | for every configuration the fixed order of layers around the configured site, an error iff a target does not parse, and the global chain unchanged |
| `SiteHandler.SiteVerdict` | internal/server/handler.go:62-105 | for every site, state and request which answer stops it, in order: 301, 403, 429, 204, the global chain's, 503; and when none does |
| `SiteHandler.SiteServes` | internal/server/handler.go:27-60 | upstreams before a proxy target before files |
| `SiteHandler.LimitsAreConfigured` | internal/server/middleware/ratelimit.go:24-32 | the configured rate, and a burst of at least one |
| `SiteHandler.EarlyStopsSpendNothing` | internal/server/handler.go:85-105 | a request stopped for protocol or address spends no token and no slot |
| `SiteHandler.RefusalsTakeNoSlot` | internal/server/middleware/concurrency.go:8-25 | no refusal takes a slot or is logged; admission takes one; 503 means all were taken |
| `SiteHandler.StepAccounted` | internal/server/middleware/concurrency.go:8-25 | crossing or leaving any one layer keeps slots equal to the requests past the semaphore and the log equal to the requests served |
| `SiteHandler.OccupancyAndLog` | internal/server/middleware/concurrency.go:8-25 | in every run of overlapping requests, each layer crossed in a step of its own, slots taken equal the requests past the semaphore, at most the maximum, and exactly the served requests are logged |
| `ChildProcesses.OneChildUntilOnExit` | plugins/nodejs.go:137-181 | every interleaving of requests, exits and watchers: one live child per domain, every pending watcher refers to the recorded child |
| `ChildProcesses.OnExitKillsAll` | plugins/nodejs.go:121-133 | every live child is sent a kill |
| `ChildProcesses.ShutdownLeavesNone` | plugins/python.go:140-225 | over a whole life without requests after OnExit no child is left unkilled |
| `ChildProcesses.AllKilledIff` | plugins/nodejs.go:121-181 | with anything after OnExit, requests included: every live child has been killed iff no child started after OnExit is live |
| `ChildProcesses.UnkilledAfterOnExit` | plugins/nodejs.go:121-181 | the first request after OnExit leaves a child unkilled |
| `ChildProcesses.RequestsAfterOnExit` | plugins/nodejs.go:121-181 | with requests after OnExit one live child per domain is still certain iff nothing was recorded |
| `ChildProcesses.SecondChildAfterOnExit` | plugins/nodejs.go:121-181 | a run in which a request after OnExit leads to two live children of one domain |
| `ChildProcesses.NodeJSPlugin.EnsureNodeServerRunning` | plugins/nodejs.go:137-181 | the step of the machine on the process map, nothing when running or when the start fails |
| `ChildProcesses.NodeJSPlugin.WatcherReset` | plugins/nodejs.go:172-180 | the watcher's reset of its domain is the machine's step |
| `ChildProcesses.NodeJSPlugin.OnExit` | plugins/nodejs.go:121-133 | kills exactly the recorded children, in any order of the map, and forgets them |
| `ChildProcesses.PythonPlugin.EnsurePythonProcess` | plugins/python.go:153-225 | the machine's step, nothing without configuration or port, when running, or when the start fails |
| `ChildProcesses.PythonPlugin.WatcherReset` | plugins/python.go:218-224 | a reset through the captured state object is the machine's step |
| `ChildProcesses.PythonPlugin.OnExit` | plugins/python.go:140-151 | kills exactly the recorded children and forgets them |
| `Sessions.AuthPluginState.CreateSession` | plugins/auth.go:302-317 | the new table; -1 never expires |
| `Sessions.AuthPluginState.GetSession` | plugins/auth.go:286-299 | the session unless it is missing or strictly past its expiry |
| `Sessions.AuthPluginState.CleanupExpiredSessions` | plugins/auth.go:320-333 | removes exactly the sessions expired at their own clock readings, in any order |
| `Sessions.CleanupInvisible` | plugins/auth.go:286-333 | after any run with cleanups a token is valid iff its last creation never expires or has not run out |
| `Sessions.TokenLives` | plugins/auth.go:286-333 | a token created once is valid for its expiration in seconds, the last moment included, or for ever if that is -1, cleanups anywhere |
| `Sessions.CleanupUnobservable` | plugins/auth.go:320-333 | removing all cleanups from a run changes no lookup |
| `LogPaths.DayKeyInjective` | internal/logger/rotating.go:35 | the rotation key tells all days apart |
| `LogPaths.RotatingFileWriter.RotateIfNeeded` | internal/logger/rotating.go:33-67 | leaves today's file open or reports failure, losing no earlier content |
| `LogPaths.RotatingFileWriter.Write` | internal/logger/rotating.go:69-76 | a line is appended to the file of the day it is written on and to no other |
| `LogPaths.AtoiPadded` | internal/api/logs_explorer.go:71-84 | parsing undoes printing, padded or not |
| `LogPaths.FileNameParses` | internal/api/logs_explorer.go:145-152 | a file name parses to its day and plugin, inner dashes and ".log" included |
| `LogPaths.LogPathPrints` | internal/logger/rotating.go:40-57 | for every identifier the file's elements: the log directory's, changed by the identifier as path cleaning applies it, then year, month and name |
| `LogPaths.LogPathInFull` | internal/logger/rotating.go:40-57 | below a clean log directory: directory/identifier/year/month/day.log, with the plugin's name after the day |
| `LogPaths.PrintsDecimal` | internal/logger/rotating.go:43-55 | numbers are printed in decimal, padded with zeros on the left |
| `LogPaths.LogPathRoundTripIff` | internal/api/logs_explorer.go:61-84 | for every identifier: the file lies below the log directory and parses back to what it was written for iff the identifier is an ordinary name, dashes and inner ".log" in the plugin included |
| `LogPaths.DotDomainIsNotListed` | internal/api/logs_explorer.go:61-84 | the domain "." is valid and its files are below the log directory but not listed |
| `LogPaths.LogFilesSharedIff` | internal/logger/rotating.go:33-57 | for all identifiers: two loggers share a file iff plugin and day are equal and the identifiers join to the same directory |
| `LogPaths.SameDirectoryIff` | internal/logger/rotating.go:40-45 | identifiers join to the same directory iff their elements, applied to the log directory's, leave the same elements |
| `LogPaths.DotSharesFiles` | internal/logger/rotating.go:40-45 | "." and the empty identifier share their files |
| `LogPaths.OpensIff` | internal/config/paths.go:76-89 | any clean path opens by its name relative to a directory iff it lies below that directory and its name holds no backslash |
| `LogPaths.StaysBelowIff` | internal/logger/rotating.go:40-57 | for every identifier: a log file lies below the log directory iff the identifier leads down by ordinary names, or leads up and year, month and name lead back down the same way |
| `LogPaths.DotDotWritesOutside` | internal/logger/rotating.go:40-57 | the domain ".." writes outside the log directory |
| `LogPaths.ListedFileOpensIff` | internal/api/logs_explorer.go:125 | for every identifier: a log file opens by its listed name iff it lies below the log directory and what it adds to it holds no backslash |
| `LogPaths.OrdinaryOpensIff` | internal/api/logs_explorer.go:125 | for ordinary identifiers: iff neither identifier nor plugin holds one |
| `LogPaths.BackslashIsNotOpened` | internal/api/logs_explorer.go:125 | a domain with a backslash: its file is listed but does not open |

## Left out

- Sockets, TLS and ACME, HTTP/3, real files, process start and kill: environment steps or parameters.
- `httputil.ReverseProxy`: one attempt is the pair (failed, wrote); re-sending a consumed request body is not modelled.
- `trackWriter` as an object: its flag is the `wrote` half of an attempt.
- LoadBalancer.FairAcrossWrapIff: covers windows with one wrap; two wraps would need more than 2^64 requests.
- Clock steps backwards in the ejection protocol and in the session runs: clocks are monotone there.
- IEEE rounding in the rate limiter: tokens and seconds are reals.
- Library answers: `net.ParseIP`, `net.ParseCIDR`, `dns.Fqdn`, `url.Parse`, content sniffing and gzip are parameters; gzip is any streaming encoder whose closed stream decodes to its input.
- DNS message truncation, EDNS sizes, transaction ids and the recursion access list: the list's verdict is a parameter.
- Unicode: strings are sequences of characters, lower-casing is ASCII, and `fs.ValidPath`'s test for valid UTF-8 is omitted. Paths are those of Unix.
- The interim responses themselves, Hijack, Push, HEAD and header keys with several values in the gzip writer; `Accept-Encoding` and WebSocket bypasses of the middleware.
- RateLimit.WindowBound: with sweeps inside the window the bound is proved for monotone time only, by `BoundedIff`.
- SiteHandler.OccupancyAndLog: assumes that the global chain itself holds no concurrency or logging layer, as is the case where the server builds it.
- The contents of CORS and security headers, the effect of the body limit, custom headers: one-branch logic with no state.
- The response of a plugin that handles a request itself: a custom layer stops it with an unspecified status.
- `byteSlicePool`, the shared proxy map, `plugin.Register` and its hook order, `ShutdownServers`: easy next to what is modelled.
- Process identifiers stand for Go's process handles, so they are not reused.
- Durations of more than 292 years in session expiry, years beyond an int or before 0 in log paths.
- `AsyncLogger.Shutdown`, the terminal interface's copy of the log and console output.
- Dashboard, API handlers, configuration parsing and validation beyond domain names.
