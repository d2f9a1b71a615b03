# SecureBrowse proxy: a verified model

SecureBrowse is a small threaded forward proxy written in C. This project models the parts of it that carry state,
protocols or parsing, and proves what they promise for every input, every run and every interleaving.

The model follows the source's form. Code that updates buffers, slots and counters is imperative Dafny (classes, arrays
and loops) proved against specification functions; the concurrent parts are state machines whose runs are arbitrary
interleavings of critical sections. The kernel's choices (how many bytes a call moves, which error it reports, what
`poll` says), clock readings, allocation failures and resolver answers are inputs, so each statement holds for all of them.

| file | part of the proxy |
|---|---|
| `Text.dfy` | characters and strings in the "C" locale |
| `LruSpec.dfy`, `ResponseCache.dfy`, `CacheRuns.dfy` | the bounded LRU response cache: reference list, slot array, whole runs |
| `CacheInclusion.dfy` | for which limits a larger cache holds everything a smaller one does |
| `Eligibility.dfy`, `EligibilityText.dfy` | which responses may be cached, and for how long (a subset of sections 3, 4.2.1 and 5.2.2 of RFC 9111) |
| `CacheKey.dfy` | cache keys |
| `ReputationCache.dfy`, `Reputation.dfy`, `ReputationResults.dfy` | host normalisation, the result cache, the timed lookup with helper threads, and what it hands back, remembers and counts |
| `Sockets.dfy`, `Tunnel.dfy` | sockets, the request-line reader, the CONNECT header consumer, the two-way relay |
| `Fetch.dfy` | connecting to checked addresses; relaying a response while keeping a bounded copy |
| `RequestParser.dfy`, `UrlScanner.dfy`, `ConnectParser.dfy` | absolute URLs and CONNECT targets |
| `UpstreamRequest.dfy` | the request sent to an origin |
| `Policy.dfy`, `PolicyFile.dfy`, `PolicyEnforced.dfy` | host rules, rule files, and the decision that the files' text leads to |
| `Decision.dfy` | combining the signals about a request |
| `ProxyRuns.dfy` | all plain HTTP requests together with the cache, as a state machine |
| `Proxy.dfy`, `ProxyHttp.dfy`, `ProxyClient.dfy` | CONNECT requests, plain HTTP requests, whole client connections |

## Main results

- **The slot array is an LRU list.** Every run of init, destroy, lookup and store on the slot array with its logical
  clock gives the states and answers of a recency-ordered list (`CacheRuns.Execute`); a lookup returns the bytes of the
  last successful store of that key or misses (`CacheRuns.LookupIsLastStore`); eviction removes the shortest prefix that
  makes room (`LruSpec.EvictsShortestPrefix`).
- **When more entries never hurt.** Of two caches that differ in their entry bound only, N and M, the larger holds after
  every run whatever the smaller does if and only if N is 1, or N is M, or the byte bound has room for M entries of the
  greatest length (`CacheInclusion.InclusionExactly`). For all other limits a run that breaks it is constructed
  (`CacheInclusion.SomeRunBreaks`); `CacheInclusion.BeladyAnomalyUnderBytePressure` is a small
  instance of it.
- **Hits have a provenance.** In every interleaving of any number of requests, what a client is served from memory is byte
  for byte all that an origin sent for the same host, port and path, was relayed to its end before, is cacheable, and was
  stored no longer ago than its own lifetime (`ProxyRuns.HitProvenance`). The handler is proved to be a worker of that
  machine: it delivers and stores only what its origin sent before closing (`ProxyHttp.HandleHttp`,
  `ProxyClient.HandleClient`).
- **One answer per client, and it is given.** Which answer a client gets follows from its request, the policy, the cache and
  what the network did. Everything but an error page is written in full unless a write failed, an error page by one write,
  and nothing else. A page or a cached response is sent only when no origin byte arrived. A timeout page, an empty or a
  short response and the end of a tunnel each have their cause in what the kernel reported (`ProxyClient.HandleClient`).
- **Connect safety.** `connect()` is called only for a request whose host, port and every resolved address were allowed,
  then for exactly the addresses up to the first that accepts, and every socket is closed again
  (`ProxyClient.HandleClient`, `Fetch.OriginConnect`); with the policy files' text as the starting point,
  `ProxyClient.ReachedAsWritten`.
- **The CONNECT stream is split exactly** into line, headers and tunnel bytes, of which the origin is written a prefix: all
  of them unless the kernel reported a failed write to the origin; what the client is answered is the origin's bytes of
  the same log, and the shutdowns of both sides are the log's (`Proxy.HandleConnect`). Every direction that poll reports
  readable is read once before the next poll (`Tunnel.ReadyIsReadOnce`).
- **Helper threads.** Over all interleavings the in-flight counter is exact and at most 16, each job is freed once after
  both owners let go and never touched again, every verdict is a provider's answer for that host, and the statistics add up
  (`Reputation.InflightIsExact`, `JobLivesWhileOwned`, `FreedIsUntouched`, `VerdictProvenance`, `StatisticsConserved`). A
  provider's answer in time reaches its caller code for code, is remembered for the configured time, and is counted
  (`ReputationResults.AnswerReachesCaller`, `OutcomeIsRemembered`, `CheckIsExact`, `StatisticsCount`).
- **Exact parsers.** The URL, CONNECT, rule-line and response-eligibility scanners accept exactly their grammars, with
  round trips; host, port and path are the text between their delimiters (`RequestParser.AuthorityIsText`, `PathIsText`).
- **Lifetimes from text.** For every list of Cache-Control words, the lifetime of a response is the last s-maxage, else the
  last max-age, else 60 seconds, capped at 3600 (`EligibilityText.WordsDecide`, `SharedAgeWins`); personal headers and a
  wrong length are refused (`PrivateIsRefused`, `LengthDecides`).

Properties that turned out false of the code, each with its exact condition:

- A parsed URL of the greatest length need not reparse from its printed form: the round trip holds exactly when the printed
  form has at most 2048 characters (`RequestParser.UrlRoundTrip`, `LongestUrlDoesNotRoundTrip`).
- The reputation normaliser strips one trailing dot only, so it is idempotent exactly when the input does not end in two
  dots (`ReputationCache.IdempotentUnlessTwoDots`).
- Policy hosts are cut at 254 characters, while the URL parser admits 255. All rule files decide a host by the labels of its
  whole name if and only if whole and cut name are equal, or neither is a name that a rule can have and both have the same
  longest tail that is (`PolicyEnforced.EnforcedExactly`); over all policy values, loadable or not, if and only if nothing but
  dots lies beyond the cut (`Policy.LabelsDecideExactly`). A URL and a rule file on which the cut shows are given
  (`ProxyClient.TruncatedHostArrives`).
- A rule file is not always read line by line: it is exactly when no line has a NUL among its first 1023 characters
  (`PolicyFile.ReadsAreLines`; a file that shows it: `PolicyFile.NulHidesText`).
- Larger caches do not always hold more; the exact limits are above.
- A subdomain rule does not match its own host with a bare dot in front, although the label list would; it matches by
  labels exactly for all other hosts (`Policy.MatchIsLabelSuffix`). Such hosts do arrive, for every rule that a file can
  hold (`ProxyClient.BareDotArrives`, `BareDotShows`).

## Model

| member | source | states |
|---|---|---|
| `LruSpec.AtPosition` | src/cache.c:99-131 | with unique keys, finding and removing a key address exactly the one position that holds it |
| `LruSpec.EvictsShortestPrefix` | src/cache.c:185-189 | eviction drops exactly the shortest least-recently-used prefix that makes the new bytes fit, and nothing shorter would do |
| `LruSpec.StoreKeepsBounded` | src/cache.c:161-216 | a store keeps unique keys and the entry, byte, per-entry and key-length bounds, whatever is evicted |
| `LruSpec.LookupKeepsBounded` | src/cache.c:133-159 | a lookup (hit, expiry or failed copy) keeps unique keys and all bounds |
| `LruSpec.MovedBytes` | src/cache.c:133-159 | moving an entry to the recent end conserves the byte total |
| `ResponseCache.OldestIsFirst` | src/cache.c:109-122 | the entry with the smallest tick is the head of the recency order: tick order is recency order |
| `ResponseCache.SomeFree` | src/cache.c:190-196 | while fewer entries than slots are live there is a free slot, so the "no slot" rejection cannot happen |
| `ResponseCache.Cache.Init` | src/cache.c:40-64 | succeeds exactly for three positive bounds and granted memory, and starts an empty cache; otherwise nothing changes |
| `ResponseCache.Cache.Destroy` | src/cache.c:66-78 | empties and disables the cache and keeps the statistics |
| `ResponseCache.Cache.Find` | src/cache.c:124-131 | finds the slot of a key exactly when the recency list holds it, and ties slot and list position together |
| `ResponseCache.Cache.RemoveEntry` | src/cache.c:99-106 | removes one entry from the recency list; counters stay the true count and sum |
| `ResponseCache.Cache.Oldest` | src/cache.c:109-118 | the smallest-tick scan finds the head of the recency list, or nothing exactly when the cache is empty |
| `ResponseCache.Cache.EvictLru` | src/cache.c:109-122 | evicts exactly the head of the recency list and counts it; fails only on an empty cache |
| `ResponseCache.Cache.Touch` | src/cache.c:144-151 | a fresh tick moves one entry to the recent end and changes nothing else |
| `ResponseCache.Cache.Lookup` | src/cache.c:133-159 | the slot-array lookup acts on contents and answer as the reference list's lookup; hit and miss counted accordingly |
| `ResponseCache.Cache.MakeRoom` | src/cache.c:185-189 | the eviction loop ends in the reference eviction's result, always makes room (its "none left" break is unreachable), and counts each eviction |
| `ResponseCache.Cache.FreeSlot` | src/cache.c:190-196 | finds a free slot whenever fewer entries than slots are in use |
| `ResponseCache.Cache.Fill` | src/cache.c:197-207 | a filled slot is the new recent end of the list |
| `ResponseCache.Cache.Replace` | src/cache.c:181-207 | drops the same key, evicts, and appends the new entry; evictions and entries are conserved |
| `ResponseCache.Cache.Store` | src/cache.c:161-216 | the slot-array store acts exactly as the reference store; succeeds exactly for storable entries; every counter is accounted for |
| `CacheRuns.Perform` | src/cache.c:40-216 | one call on the object is one step of the reference state machine, with the same answer |
| `CacheRuns.Execute` | src/cache.c:40-216 | any sequence of init, destroy, lookup and store calls on the slot array reaches the reference state and gives the reference answers |
| `CacheRuns.RunBounded` | src/cache.c:161-216 | in every reachable state keys are unique and count, bytes and entry sizes are within the bounds of the last init |
| `CacheRuns.LiveIsLastStore` | src/cache.c:133-216 | every live entry holds the data and expiry of the last successful store of its key |
| `CacheRuns.LookupIsLastStore` | src/cache.c:133-159 | a lookup answers with the bytes of the last successful store of that key if resident and unexpired, else misses |
| `CacheRuns.RecentlyUsedStays` | src/cache.c:108-216 | a key just used stays resident while fewer than N other keys are used, without byte pressure or expiry: the defining property of LRU over whole runs |
| `CacheRuns.RecentIsMember` | src/cache.c:108-216 | a recently used key is in the cache |
| `CacheRuns.NoBeladyAnomaly` | src/cache.c:108-216 | for entry bounds N at most M and unbinding byte bounds, whatever is live after the same run in the small cache is live in the large one with the same bytes and expiry, and every hit is a hit |
| `CacheRuns.RoomyNeverPressed` | src/cache.c:185-189 | a byte bound of entries times entry size never binds, on any run |
| `CacheRuns.StoredKeyStays` | src/cache.c:108-216 | from the inputs alone: with a roomy byte bound, after any run, a stored key is answered until its deadline while fewer than N other keys are used, and with the stored bytes unless it is stored again |
| `CacheInclusion.SingleIncluded` | src/cache.c:133-216 | a cache of one entry is included in every larger one after every run, byte pressure or not |
| `CacheInclusion.FillKeepsLast` | src/cache.c:161-216 | storing distinct keys within the byte bound leaves exactly the last ones that the entry bound admits, in order |
| `CacheInclusion.Rotate` | src/cache.c:133-159 | looking up the oldest entries in turn moves them behind all others |
| `CacheInclusion.SomeRunBreaks` | src/cache.c:108-216 | for every 1 < N < M and byte bound that M full entries exceed, a run leaves an entry in the small cache that the large one has lost, and a lookup that hits the one and misses the other |
| `CacheInclusion.InclusionExactly` | src/cache.c:40-216 | inclusion after every run of lookups and stores if and only if N is 1, N is M, or M entries of the greatest length fit the byte bound |
| `CacheInclusion.BeladyAnomalyUnderBytePressure` | src/cache.c:185-189 | at the smallest entry bounds for which it can fail, a run after which 2 entries hit and 3 miss |
| `Eligibility.CiPrefix` | src/cache.c:228-239 | case-insensitive prefix test, against whole-string lowering |
| `Eligibility.CiContains` | src/cache.c:241-249 | case-insensitive substring test, against whole-string lowering |
| `Eligibility.ParseAge` | src/cache.c:277-288 | accepts exactly 1 to 9 digits and computes their decimal value |
| `Eligibility.ClassifyDirective` | src/cache.c:269-297 | one trimmed directive is public, max-age, s-maxage or unapproved, as the declarative classification says |
| `Eligibility.ParseCacheControl` | src/cache.c:252-299 | the cursor loop approves a value exactly when every comma-separated trimmed directive is approved, and reports the last max-age and s-maxage |
| `Eligibility.FindHeaderEnd` | src/cache.c:311-322 | the length of the header block up to its first empty line, or 0 exactly when there is none |
| `Eligibility.HeaderEndUnique` | src/cache.c:311-322 | a response has at most one header end |
| `Eligibility.ParseCount` | src/cache.c:375-382 | Content-Length digits: value, and exactly which digit strings are refused |
| `Eligibility.ParseLength` | src/cache.c:365-383 | a Content-Length line gives its value or is refused, as the grammar of the line says |
| `Eligibility.EvaluateLine` | src/cache.c:339-383 | one header line is rejected for the first applicable reason or noted, as the declarative reading says |
| `Eligibility.WalkLines` | src/cache.c:327-386 | walking the block by cursor equals scanning its list of lines after the status line |
| `Eligibility.EvaluateResponse` | src/cache.c:301-411 | the scanner's verdict is the one the line-list specification gives |
| `Eligibility.VerdictIsExact` | src/cache.c:301-411 | cacheable exactly when status, header lines, every directive and the last Content-Length meet the declarative conditions; the lifetime is min(3600, last s-maxage, else last max-age, else 60) and positive |
| `Eligibility.BodyBytesDoNotMatter` | src/cache.c:301-411 | two responses with equal header block and length get the same verdict, whatever their bodies |
| `EligibilityText.ResponseLines` | src/cache.c:311-337 | a 200 response written from any lines has just those header lines, and its body behind them |
| `EligibilityText.StatusIsText` | src/cache.c:305-309 | the status test accepts exactly the texts HTTP/1.x 200 followed by nothing, a blank or a line end |
| `EligibilityText.WordMeans` | src/cache.c:269-297 | public, max-age=digits and s-maxage=digits, in any letter case, each have their one meaning |
| `EligibilityText.ApprovedIsWord` | src/cache.c:269-297 | nothing but such a word is approved |
| `EligibilityText.DirectivesOfListed` | src/cache.c:252-299 | words listed with commas are read back one by one |
| `EligibilityText.BlanksDoNotMatter` | src/cache.c:252-299 | spaces, tabs and commas in front of a value do not matter |
| `EligibilityText.WordsDecide` | src/cache.c:301-411 | for every list of words in one Cache-Control value among headers that have no say: the verdict is the last s-maxage, else the last max-age, else 60 seconds, capped at 3600, and a refusal for 0 |
| `EligibilityText.SharedAgeWins` | src/cache.c:389-405 | for all ages a and b: max-age=a alone gives a, with s-maxage=b before or after it b, public or no value 60 |
| `EligibilityText.NeutralDecides` | src/cache.c:301-411 | headers of other names leave the default of 60 seconds |
| `EligibilityText.LengthDecides` | src/cache.c:365-392 | a Content-Length must equal the length of the body; numbers above 10000000009 are refused |
| `EligibilityText.PrivateIsRefused` | src/cache.c:339-358 | one Set-Cookie, Authorization, WWW-Authenticate, Pragma no-cache or personal Vary line, in any letter case and place, and the response is not cached |
| `CacheKey.MakeKey` | src/cache.c:87-96 | the loop builds lowered host, port and path, or reports that they do not fit 2400 bytes |
| `CacheKey.KeyFitsAndIsInjective` | src/cache.c:87-96 | the key of every parsed URL fits, and two parsed URLs with one key are the same URL |
| `ReputationCache.NormaliseHost` | src/reputation.c:111-134 | accepts exactly hosts that are bare after one trailing dot is dropped, and returns them lowered |
| `ReputationCache.IdempotentUnlessTwoDots` | src/reputation.c:111-134 | normalising twice is normalising once exactly when the input does not end in two dots |
| `ReputationCache.TwoDotsNotIdempotent` | src/reputation.c:111-134 | the concrete input on which it is not |
| `ReputationCache.ResultCache.Find` | src/reputation.c:138-145 | the scan finds the first slot that holds the host |
| `ReputationCache.ResultCache.Victim` | src/reputation.c:151-162 | picks the first unused slot, else the least recently used one |
| `ReputationCache.ResultCache.Put` | src/reputation.c:147-168 | replaces the host's own slot or the victim, and only that; a zero lifetime changes nothing |
| `ReputationCache.PutKeepsUnique` | src/reputation.c:147-168 | no host ever occupies two slots |
| `Reputation.MoveIsSafe` | src/reputation.c:185-311 | no step of caller or helper touches a freed or missing job, and each keeps reference count, ownership and in-flight place consistent |
| `Reputation.RunInv` | src/reputation.c:72-349 | every interleaving of callers, helpers, init and shutdown keeps the protocol invariant |
| `Reputation.InflightIsExact` | src/reputation.c:206-259 | the counter equals the number of lookups really outstanding, is never negative, never above 16, and no step faults |
| `Reputation.JobLivesWhileOwned` | src/reputation.c:185-194 | one reference per owner that has not released; freed only when none needs it; none is left behind |
| `Reputation.FreedIsUntouched` | src/reputation.c:185-212 | after the free no step that could touch the job is enabled |
| `Reputation.FreedIsFinal` | src/reputation.c:185-194 | a freed job stays freed over every continuation of the run, so it is freed once |
| `Reputation.VerdictProvenance` | src/reputation.c:234-335 | every result other than unavailable is an answer a provider gave for the same normalised host, in this call or remembered and unexpired |
| `Reputation.FailuresAreNotVerdicts` | src/reputation.c:312-335 | failures yield only unavailable, and unavailable is remembered for 5 seconds only |
| `Reputation.OnlyBareHostsLeave` | src/reputation.c:226-276 | every host a provider was asked about is a bare lowercase hostname |
| `Reputation.StatisticsConserved` | src/reputation.c:218-347 | the sums of the statistics hold at every lock release, and provider calls minus those pending equal their outcomes unless an init came between |
| `ReputationResults.AnswerReachesCaller` | src/reputation.c:294-335 | over every interleaving: a call whose wait ended with the job done hands back the verdict of the code that the provider gave for its host, or an error for any other code; a wait that timed out a timeout; no helper an error; and each call hands back one result |
| `ReputationResults.OutcomeIsRemembered` | src/reputation.c:312-335 | a result is remembered in one slot, the only one of its host, a verdict for the time to live of its call, a failure for 5 seconds, and only while the service is on |
| `ReputationResults.CheckIsExact` | src/reputation.c:214-259 | the first critical section over every history: disabled, bad input, an unexpired slot of the host, which it touches, saturated exactly with 16 places held, else a new call with the configured provider and time to live |
| `ReputationResults.RememberedIsServed` | src/reputation.c:234-335 | what a call found is given from memory to whoever asks next for that host, until it expires |
| `ReputationResults.StatisticsCount` | src/reputation.c:218-347 | every statistic is the number of results of its kind handed back since the last init, and provider calls are the calls begun since then |
| `Sockets.SendAll` | src/util.c:7-26 | the written bytes are a prefix of the buffer, all of it unless an error that a write reported (or a zero write) ends it |
| `Tunnel.ReadRequestLine` | src/proxy.c:139-174 | takes exactly the bytes up to the first newline, NUL, limit or failure, and nothing beyond; a timeout or failure only when recv reported one |
| `Tunnel.EmptyLine` | src/proxy.c:300-312 | the running line length is 0 exactly when only CRs stand since the last newline |
| `Tunnel.ConsumeHeaders` | src/proxy.c:285-314 | takes exactly the bytes up to the first line made only of CRs and LF, at most 8192, and nothing beyond; a timeout or failure only when recv reported one |
| `Tunnel.Forward` | src/proxy.c:351-365 | one ready direction is read once: a chunk is written in order, or cut short only because a write failed; or the direction is shut because its sender closed or failed; or the kernel had nothing to give |
| `Tunnel.ServeSide` | src/proxy.c:347-365 | the loop variables (open directions, timeout, total) keep agreeing with the event log |
| `Tunnel.ServeRound` | src/proxy.c:347-365 | a round reads every ready open direction exactly once and no other, and keeps both sockets tied to the log |
| `Tunnel.RelayTunnel` | src/proxy.c:323-368 | the whole relay moves exactly what its log records, every event of which is lawful; its polls are those of the kernel, and each ready direction is read once between them; a direction is shut only when its sender closed or failed; it stops inside a chunk only when a write on that side failed, and otherwise only when both are shut or the tunnel went quiet; total counts the fully forwarded bytes; each poll waits the idle time in milliseconds, or the smaller of that and 5000 once a direction is shut |
| `Tunnel.SentIsPrefix` | src/proxy.c:351-356 | in every lawful run bytes written each way are an in-order prefix of those received, and all of them unless the last write on that side failed |
| `Tunnel.ShutOnceAfterAll` | src/proxy.c:357-363 | a direction is shut at most once, after all its bytes were written, and never read again |
| `Tunnel.ReadyIsReadOnce` | src/proxy.c:333-366 | between two polls, a direction that was open and reported readable is read exactly once |
| `Tunnel.TimeoutShrinks` | src/proxy.c:333-363 | poll timeouts never grow, and are at most 5000 ms after a half-close |
| `Fetch.AllAddressesSafe` | src/origin_client.c:99-109 | safe exactly when private networks are allowed or no address is unsafe |
| `Fetch.OriginConnect` | src/origin_client.c:111-186 | the exact outcome and the exact list of addresses tried: none unless the name is not local and all addresses are safe; the peer reached is checked; every socket is closed but the one returned |
| `Fetch.Stats.Wanted` | src/origin_client.c:265-272 | doubling and clamping always leaves room for the chunk and never exceeds the limit |
| `Fetch.Stats.Keep` | src/origin_client.c:258-289 | the copy stays exactly the bytes relayed so far, or is dropped for size or memory only |
| `Fetch.RelayResponse` | src/origin_client.c:237-301 | written bytes are a prefix of those received, the copy equals them, and every irregular end was caused by a failed call |
| `Fetch.ReachedChecks` | src/origin_client.c:150-178 | the address a connection is made to is one whose real peer was checked |
| `Fetch.Exchange` | src/origin_client.c:222-301 | on a connected socket: the request is sent in order, in full whenever the fetch succeeds, times out, fails to read or gets a byte; the response is relayed, nothing is shut down, and each failure has its cause; a timeout or read error without bytes means nothing was written to the client |
| `Fetch.FetchAndRelay` | src/origin_client.c:200-310 | success with a copy means the copy, the client's bytes and the origin's whole response are one; any failure leaves no copy and has its cause; without a connection the origin is written nothing; exactly which addresses are tried; no socket stays open |
| `UpstreamRequest.RequestIsThreeLines` | src/origin_client.c:221-229 | for every parsed URL the request is exactly its three-word request line, its Host and its Connection line, whatever the URL holds, and fits its 2368-byte buffer, so the length sent is never that of a truncated print |
| `RequestParser.ParserMeetsGrammar` | src/request_parser.c:24-170 | a string parses to a URL exactly when the grammar spells that URL by it |
| `RequestParser.RefusedFirst` | src/request_parser.c:24-75 | control characters, fragments and other schemes are refused in that order, each exactly when it is there; no accepted authority has an @ |
| `RequestParser.PathIsText` | src/request_parser.c:147-167 | the path is the text from the first slash or question mark behind the scheme, byte for byte, with a slash in front where there is none |
| `RequestParser.AuthorityIsText` | src/request_parser.c:61-145 | the host is the text before that and before the port's colon, character by character in small letters and of legal characters only; the port is the number behind the colon, else 80 |
| `RequestParser.EveryUrlParses` | src/request_parser.c:24-170 | every URL of legal host, port 1 to 65535 and visible path that fits 2048 characters is accepted as printed |
| `RequestParser.PathAlwaysFits` | src/request_parser.c:147-167 | the overlong error means the input is over 2048 characters: the two path-overflow branches are unreachable; host, port and path ranges |
| `RequestParser.UrlRoundTrip` | src/request_parser.c:24-170 | the printed form of a parsed URL reparses to it exactly when it has at most 2048 characters |
| `RequestParser.PrintAtMostOneLonger` | src/request_parser.c:147-167 | printing lengthens an accepted URL by at most one character |
| `RequestParser.LongestUrlDoesNotRoundTrip` | src/request_parser.c:147-167 | a concrete accepted URL whose printed form is one too long |
| `UrlScanner.ParseHttpUrl` | src/request_parser.c:24-170 | the scanning loops compute the functional parser, errors included |
| `UrlScanner.HasScheme` | src/request_parser.c:50-59 | the scheme loop is case-insensitive equality with http:// |
| `UrlScanner.ScanAuthority` | src/request_parser.c:61-170 | credentials, host and port checks give the functional parser's result and first error |
| `UrlScanner.ScanColon` | src/request_parser.c:79-102 | finds the port's colon, brackets and repeated colons included |
| `UrlScanner.ScanPort` | src/request_parser.c:124-144 | accepts exactly ports 1 to 65535 in digits, leading zeros included, despite its early exit |
| `ConnectParser.ConnectMeetsGrammar` | src/request_parser.c:175-263 | a line is a CONNECT request for a target exactly when the authority-form grammar spells it |
| `ConnectParser.RefusedFirst` | src/request_parser.c:175-200 | overlong and control-character errors mean just that, and another method is refused |
| `ConnectParser.ConnectRoundTrip` | src/request_parser.c:175-263 | every lowercase host of 1-255 plain characters and port 1-65535 prints and parses back, with any accepted version |
| `ConnectParser.ParsedConnectRoundTrips` | src/request_parser.c:175-263 | every accepted target prints and parses back |
| `ConnectParser.ParseConnectRequest` | src/request_parser.c:175-263 | the scanning code computes the functional parser, errors included |
| `ConnectParser.ScanHostPort` | src/request_parser.c:209-262 | the target scan finds host and port or the first error, as the functional parser does |
| `Policy.LabelsConcat` | src/policy.c:169-181 | a dot joins label lists: the fact behind suffix matching |
| `Policy.MatchIsLabelSuffix` | src/policy.c:169-181 | for all hosts a subdomain rule matches exactly when its labels are a suffix of the host's and the host is not the rule behind a bare dot; an exact rule exactly on equality |
| `Policy.NormalizeHost` | src/policy.c:17-29 | the loops compute the lowered host part, cut at 254 characters, without trailing dots |
| `Policy.TruncationMatters` | src/policy.c:17-29 | the cut changes the result exactly when something other than dots lies beyond 254 characters |
| `Policy.CaseDoesNotMatter` | src/policy.c:17-29 | spellings that differ in letter case normalise alike |
| `Text.SameLettersLower` | src/policy.c:17-29 | lowering makes equal exactly the strings that agree letter by letter, a capital and the letter 32 codes up counting as one |
| `Text.NameCharacters` | src/policy.c:32-86 | the characters of a host name, spelled out |
| `Policy.SpellingsDecideAlike` | src/policy.c:17-201 | all spellings of a host, letter by letter, get the same decision |
| `Policy.EverySpellingMatches` | src/policy.c:169-201 | a rule catches every spelling of its own host, and a blocklist that holds it denies them |
| `Policy.PortDoesNotMatter` | src/policy.c:17-29 | a port suffix of any kind is ignored |
| `Policy.TrailingDotsDoNotMatter` | src/policy.c:17-29 | trailing dots are ignored, whatever the length of the name |
| `Policy.CheckHost` | src/policy.c:183-201 | the loops decide as specified: any block match denies first, then allowlist mode demands a match |
| `Policy.DecisionByLabels` | src/policy.c:183-201 | unless something other than dots lies beyond 254 characters, the decision is the one read off the label lists of the whole name |
| `Policy.LabelsDecideExactly` | src/policy.c:17-201 | all policy values, loadable or not, decide a host by its labels if and only if nothing but dots lies beyond the cut |
| `Policy.TruncationMatchesOtherHost` | src/policy.c:183-201 | a 255-character host that a rule matches without naming it |
| `PolicyFile.Trim` | src/policy.c:41-48 | the two loops trim white space on both sides and nothing else |
| `PolicyFile.ScanHost` | src/policy.c:62-77 | the character loop accepts exactly lengths 1-253 of host characters without an empty label before a dot |
| `PolicyFile.ParseRuleLine` | src/policy.c:32-85 | the scanner computes the line classification |
| `PolicyFile.NoEmptyLabel` | src/policy.c:66-77 | no label is empty exactly when no dot leads, trails or follows a dot |
| `PolicyFile.LineGrammar` | src/policy.c:32-85 | a line is a rule exactly when the line grammar spells it (indent, dot, host with non-empty labels, dots, space, comment), and blank exactly when nothing but space precedes its comment or end |
| `PolicyFile.RuleText` | src/policy.c:32-86 | a legal host with or without a dot in front is a rule, whatever blanks stand around it and whatever comment or line end follows |
| `PolicyFile.RuleRoundTrip` | src/policy.c:32-85 | a rule reads back from its printed form exactly when it is well formed |
| `PolicyFile.LoadedIsWellFormed` | src/policy.c:32-85 | every rule that was read is well formed |
| `PolicyFile.Fgets` | src/policy.c:114-115 | one buffered read takes up to and including a line end, but at most 1023 characters |
| `PolicyFile.Discard` | src/policy.c:119-122 | skips the rest of a line with its end, and no more |
| `PolicyFile.ChunkIsLine` | src/policy.c:115-126 | each read is one line of the file as read, classified by the scanner, or the head of one line of at least 1023 characters |
| `PolicyFile.ReadsAreLines` | src/policy.c:114-126 | what is read is the list of the text's lines if and only if no line has a NUL among its first 1023 characters; an overlong line never swallows the next |
| `PolicyFile.NulHidesText` | src/policy.c:114-126 | a file whose text is one malformed line and which is read as a rule |
| `PolicyFile.EveryLineCounted` | src/policy.c:114-143 | loaded, malformed and blank lines add up to all lines; there is text exactly when some line is not blank |
| `PolicyFile.LoadFile` | src/policy.c:100-146 | for every file the chunked loader gives the rules, malformed count and text flag of its lines as read, whatever their lengths, and fails only for lack of memory |
| `PolicyFile.Load` | src/policy.c:148-167 | both files give exactly the policy and report of their lines; allowlist mode is on exactly when some allowlist line has text |
| `PolicyEnforced.TextMeansLine` | src/policy.c:116-165 | the text flag means that some line is neither blank nor comment |
| `PolicyEnforced.CoverByTail` | src/policy.c:32-181 | a subdomain rule that a file can hold covers a host exactly when it is a tail of the host's longest tail that is a rule's name |
| `PolicyEnforced.TellApart` | src/policy.c:32-181 | two names that are not the same to rules are told apart by a rule that a file can hold |
| `PolicyEnforced.EnforcedExactly` | src/policy.c:17-201 | all pairs of rule files decide a host by the labels of its whole name if and only if whole and cut name are the same to rules: equal, or neither a rule's name and with the same longest tail |
| `PolicyEnforced.DotsBeyondIsSame` | src/policy.c:17-201 | the condition over all policy values implies the one over rule files |
| `PolicyEnforced.OneLongLabel` | src/policy.c:17-201 | a host beyond the cut that every rule file still decides by its labels |
| `PolicyEnforced.EnforcedAsWritten` | src/policy.c:100-201 | from file text to decision: a host is let through exactly when no blocklist line covers it and the allowlist is silent or has a line that covers it |
| `Decision.Evaluate` | src/decision.c:29-62 | the candidate loop yields the highest contribution, the first reason on a tie, and blocks exactly for a port, policy or network signal or a malicious verdict |
| `Decision.DecisionTable` | src/decision.c:8-62 | the decision as a table of literal scores: any rule 100 in the order port, policy, network; malicious 90 blocks; suspicious 50, unavailable 10 and safe 0 do not |
| `Decision.MoreSignalsNeverHelp` | src/decision.c:29-62 | further signals never lower the score or lift a block, and the decision is unique |
| `ProxyRuns.HitIsProven` | src/proxy.c:588-606 | a lookup that hits is answered with a cacheable response that an origin sent whole for the same URL, stored no longer ago than its own lifetime |
| `ProxyRuns.StepKeepsBacked` | src/proxy.c:614-620 | every step keeps the cache filled from complete relayed responses only, under their own key and lifetime |
| `ProxyRuns.StepKeepsWhole` | src/proxy.c:611-614 | nothing is ever delivered as complete but the whole of what an origin sent on its connection |
| `ProxyRuns.StepKeepsInv` | src/proxy.c:577-622 | every step of any worker keeps the invariant: stores backed by relays, relays whole, workers on parsed URLs, every past hit proven |
| `ProxyRuns.RunKeepsInv` | src/proxy.c:577-622 | every run of any interleaving keeps it, from any state that has it |
| `ProxyRuns.HitProvenance` | src/proxy.c:585-621 | in every interleaving, each hit is byte for byte all that an origin sent for the same host, port and query-free path, relayed to its end and stored before the hit, cacheable, and within its own lifetime |
| `ProxyRuns.OthersLeave` | src/proxy.c:585-621 | other workers' steps leave a worker's state alone and append only their own cache operations |
| `Proxy.CheckDestination` | src/proxy.c:256-280 | blocks exactly when policy denies or an enabled service calls a host that is neither local nor numeric malicious, names which, asks about just those hosts, and passes their verdict on |
| `Proxy.MayReachExactly` | src/proxy.c:256-280 | connect() may be called exactly if policy allows, the host is not known malicious and resolves, and unless private addresses are allowed it is no local name and all addresses are safe |
| `Proxy.SendPage` | src/proxy.c:181-248 | a block page is written in full unless a write fails, any other page by exactly one write, and nothing else |
| `Proxy.NetworkBlock` | src/proxy.c:437-443 | an unsafe address is reported as a network block, whatever the reputation signal |
| `Proxy.OpenTunnel` | src/proxy.c:454-470 | what both sockets gave, were written and how often they were shut is what the log says, in both directions; the client is written the established line and then the origin's bytes in order, all unless a write to it failed; the tunnel ends only because a write failed, both directions were shut or it went quiet, and until then every ready direction was read; the origin socket is closed on every path; every poll waited as long as configured |
| `Proxy.Reach` | src/proxy.c:414-470 | after the headers: exactly which page, and that it is given, or a tunnel, its bytes and shutdowns in both directions and why it ended, from port, policy, reputation and connection outcome; exactly which connect() calls are made, none unless port, host and addresses are permitted; a malicious host is answered with the block page for reputation and never connected to |
| `Proxy.HeadersExclusive` | src/proxy.c:397-412 | complete headers, overlong ones and the rest can be told apart by their bytes, so the outcome is unique among these |
| `Proxy.HandleConnect` | src/proxy.c:380-470 | the client's bytes are headers then tunnel bytes, the origin is written a prefix of the latter, all unless a write to it failed, and the answer is the log's bytes from the origin; shutdowns as logged; exactly which connect() calls; exactly which answer, from line, header outcome and target, that it is given, and why a tunnel ended; a malicious host is answered with the block page for reputation and never connected to |
| `ProxyHttp.Interfere` | src/cache.c:40-216 | other workers' operations take the cache object where the reference run takes its state |
| `ProxyHttp.StoreCopy` | src/proxy.c:614-620 | stores under the URL's key exactly when the response is cacheable, as one step of the machine |
| `ProxyHttp.Report` | src/proxy.c:630-660 | the page for exactly those failures that precede every origin byte is given, otherwise nothing is written |
| `ProxyHttp.Finish` | src/proxy.c:611-622 | the worker's last steps form a run of the machine among the steps of others; only complete deliveries are claimed |
| `ProxyHttp.ServeFromOrigin` | src/proxy.c:609-660 | the fetch half of a request is a run of the machine; a delivery it claims is all that the origin sent before closing and all that the client was written; which answer, its cause, and that it is given; the request is sent in full for every answer that depends on a response, and not at all without a connection; exactly which connect() calls |
| `ProxyHttp.FetchCopy` | src/proxy.c:608-614 | a copy exists only after a complete success and is all that the origin sent before closing; it does exist if wanted and within limit and memory; the origin is written its request, in full unless the send failed or no connection was made; exactly which connect() calls; every failure has its cause; a page is due only when no origin byte arrived |
| `ProxyHttp.FetchAnswer` | src/proxy.c:608-660 | which answer a fetch leads to and that it is given: the destination's page, with nothing sent to the origin; or, with the request sent in full, the whole response, a timeout page, an empty-response page or a short response, each for its cause; an empty relay only if a write failed |
| `ProxyHttp.LookUp` | src/proxy.c:585-608 | a hit is a hit of the machine, a miss yields the URL's key; bypassed exactly for a query or a disabled cache |
| `ProxyHttp.HandleHttp` | src/proxy.c:574-660 | a whole plain request is a run of one worker of the machine; exactly which answer: a hit, else the destination's page, else what the fetch gave and why; that it is given; no origin byte received on a page or hit; exactly which connect() calls, none on a hit; the request sent in full for every answer that depends on a response; what is complete is all that the origin sent before closing, and is stored exactly when it may be cached and there is room; a malicious host is answered with the block page for reputation and never connected to; a URL with a query leaves the cache as it was |
| `ProxyClient.StripLineEnd` | src/proxy.c:544-548 | removes all trailing CRs and LFs and nothing else |
| `ProxyClient.LineIsRequest` | src/proxy.c:139-174 | the line read is the first line of the client's stream, however it arrived in pieces |
| `ProxyClient.RequestOnLine` | src/proxy.c:513-545 | a request of at most 2048 characters on a first line that ends in LF or CRLF fits the buffer and is found without its line end |
| `ProxyClient.LineExclusive` | src/proxy.c:139-174 | how the line reader stopped can be told from the bytes it took |
| `ProxyClient.HandleRequest` | src/proxy.c:550-660 | a request whose line was read, CONNECT or plain: exactly which connect() calls, which answer, its cause, that it and nothing else is given, the split of both streams and the shutdowns, completeness, the store step and what the origin is written, from the request text; a malicious host is answered with the block page for reputation and never connected to |
| `ProxyClient.HandleClient` | src/proxy.c:475-686 | for every client, from its first line: how reading it ended, exactly which connect() calls and that they are allowed, all sockets closed, which answer, its cause, that it and nothing else is given, both streams split exactly, a tunnel's answer and shutdowns those of its log, what the origin is written, and a run of the machine that delivers and stores only whole responses; a malicious host is answered with the block page for reputation and never connected to |
| `ProxyClient.ServedFromMemory` | src/proxy.c:585-606 | after any history, what is served from memory has the stated provenance |
| `ProxyClient.ReachedAsWritten` | src/proxy.c:256-280 | a host that no rule tells from its cut is connected to only if no blocklist line covers it and, if the allowlist has any text, one of its lines does |
| `ProxyClient.TruncatedHostArrives` | src/policy.c:17-201 | a URL that parses and a rule that a file can hold, where the rule denies the host though no line of the file covers it |
| `ProxyClient.BareDotArrives` | src/policy.c:169-181 | for every subdomain rule that a file can hold, the URL of its host behind a bare dot parses and the file lets that host through, though its labels end in the rule's |
| `ProxyClient.BareDotShows` | src/policy.c:169-181 | the rule .a and the URL http://.a as such an input |

## Left out

- Socket setup, `drain_and_close`, `connect_with_timeout`, DNS, signals, environment parsing and `main`: plumbing. Resolver answers and socket results are inputs of the model.
- The address range tables, `hostname_is_local_name` and `host_is_numeric_address` (src/policy.c): given predicates, since each range is settled by reading one line.
- The offline fixture provider (src/reputation.c): a provider is anything that may answer late, never, or out of range.
- Logging, and with it `parse_origin_status`, the log words and the risk token: only the log sees them.
- The texts of block and error pages: a parameter of the model, so the results hold for any texts.
- Wall-clock guarantees and fairness: safety only, with termination of every loop because the kernel's choices are finite lists.
- Integer widths: counters and lengths are unbounded. The byte counter plus a new length stays below the width of `size_t` for byte bounds of at most half of it, and the default bound is 8 MiB.
- The worker limit and thread creation of the accept loop: whether a client gets a worker does not affect what a worker does with it.
- Sockets.SendAll: a short result without an error is possible only if the kernel accepts 0 bytes of a non-empty buffer; the statements about whole relays assume that it does not (`NoZeroWrites`).
- PolicyEnforced.EnforcedAsWritten: for hosts that no rule tells from their cut at 254 characters, because the code cuts the rest; `PolicyEnforced.EnforcedExactly` shows this condition exact.
- ProxyClient.ReachedAsWritten: for the same hosts, for the same reason.
- CacheRuns.NoBeladyAnomaly: needs byte bounds that never bind; for which limits inclusion holds at all is `CacheInclusion.InclusionExactly`.
- Reputation.StatisticsConserved: the balance of provider calls is stated for runs in which no call straddles an init, since init resets the statistics under calls in progress.
- ProxyHttp.HandleHttp: other workers' steps are placed between the request's two cache calls; all other interleavings are those of `ProxyRuns.HitProvenance`.
- Proxy.CheckDestination: the reputation answer is an input here; what such answers can be is proved in `Reputation`.
- Locale: characters are those of the "C" locale; a byte is the character of the same code.
