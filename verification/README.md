# Ferron: models and proofs

Ferron is a web server.  This project models the parts of it whose correctness is not visible in one
function, and proves what they promise, for all inputs, all schedules and all runs.  Check it with
`dafny verify dfyconfig.toml`.

| file | component |
|---|---|
| `BodyReplacers.dfy` | streaming search and replace on bodies, and chains of replacers |
| `SplitStreams.dfy` | one stream shared by two consumers through one-slot buffers and wakers |
| `PendingGuards.dfy` | pending-connection guards, cancellation tokens and waiting hand-backs |
| `CacheKeys.dfy`, `ResponseCaches.dfy` | the two-level HTTP response cache |
| `Hostnames.dfy` | hostname matching and the TLS host resolver |
| `Locations.dfy`, `Routing.dfy` | location matching, prefix removal, choice of the server configuration |
| `Pipelines.dfy`, `PipelineEndings.dfy` | the module loop and the response pass of the request handler |
| `LoginThrottle.dfy` | the TTL cache and the counter of failed logins |
| `Includes.dfy`, `Nestings.dfy` | recursive configuration includes, and when their nesting shows |
| `Scgi.dfy` | the SCGI environment netstring |
| `Sizes.dfy` | human-readable sizes |
| `Search.dfy`, `Sorting.dfy`, `Sequences.dfy`, `Decimals.dfy`, `Text.dfy`, `ByteStrings.dfy`, `Wrappers.dfy` | what the models share |

Objects that the program updates in place are classes whose methods are proved against a function of
the old state; the theorems are lemmas about that function.  Concurrent components are state machines
over their atomic steps, and a run is any interleaving of them.  I/O, clocks, other modules and
libraries are inputs: what a source answers, what a handler returns, the time at each reading, which
entry is evicted.

Where a desirable property does not hold of the code, the code is kept and the exact condition is
proved:

- with `once` on, the tail held back by the matching frame comes out after all later frames
  (`BodyReplacers.OnceIsReplaceFirstIff`, `BodyReplacers.OnceReordersFrames`);
- held data come out after trailers, unless the pattern is empty or there were no data
  (`BodyReplacers.HeldTailFollowsTrailers`);
- draining one half of a split stream alone never ends exactly if the other half has an item parked or
  still to come (`SplitStreams.AloneEndsIff`);
- a token can be cancelled, and its waiters woken, although a guard has been alive ever since it was
  installed, exactly if a drop that left no guard alive had not swapped yet
  (`PendingGuards.CancelledWhileAliveIff`, `PendingGuards.WokenEarly`);
- a body that exceeds the cache limit loses the frame that crosses it (`ResponseCaches.DeliveredWholeIff`);
- cache keys collide exactly for hosts with a slash (`CacheKeys.HostWithSlashCollides`) and for listed
  names that begin with a header name, a colon and a space (`CacheKeys.NameCollidesIff`; the value that
  makes them collide ends with a space, so it takes an HTTP parser that does not trim it);
- a request path with `//` matches every location (`Locations.MatchLocation`, `Locations.LeadingDoubleSlash`);
- a host registered as `*` hides every wildcard, and an exact host without a dot that is registered
  later (`Hostnames.ResolvesMostSpecificIff`, `Hostnames.OrderMattersIff`); the KDL adapter reads `*`
  as no host name (ferron/src/config/adapters/kdl.rs:128, 141, 158), so it does not register it;
- the failure counter overflows exactly from 247 concurrent attempts on (`LoginThrottle.OverflowIff`);
- a key of mixed kinds can depend on how includes nest (`Nestings.SettledIgnoresNesting`,
  `Nestings.NestingShowsIff`);
- environment variables with NUL bytes do not survive the netstring (`Scgi.RoundTripIff`).

The documentation gives 2097152 as the default of `cache_max_response_size`; the code leaves the limit
open when the property is absent, and the model does the same.

## Model

| member | source | states |
|---|---|---|
| `BodyReplacers.ReplaceBody.PollFrame` | ferron-modules-builtin/src/util/body_replacer.rs:64-125 | one poll, for every answer of the wrapped body, does what the step function on the two fields says |
| `BodyReplacers.ReplaceBody.ReplaceMatches` | ferron-modules-builtin/src/util/body_replacer.rs:95-105 | the search loop writes everything up to its last match with replacements and stops at the unsearched rest; `replaced` records whether anything matched |
| `BodyReplacers.ReplaceBody.HoldBack` | ferron-modules-builtin/src/util/body_replacer.rs:106-111 | of the rest, all but the last pattern-length bytes are written and those are held back |
| `BodyReplacers.Drain` | ferron-modules-builtin/src/util/body_replacer.rs:64-125 | a consumer that polls to the end gets the answers of the whole run, with the held tail as last data frame |
| `BodyReplacers.OthersPassThrough` | ferron-modules-builtin/src/util/body_replacer.rs:64-81 | data are answered with data; errors, trailers and pending polls come through unchanged where they came in, and at most one data frame is added at the end |
| `BodyReplacers.RunReplaces` | ferron-modules-builtin/src/util/body_replacer.rs:82-113 | with `once` off, at every point of every run and for every continuation: what is written, plus replace-all of the held tail and the continuation, is replace-all of everything; the held tail has no match |
| `BodyReplacers.StreamingReplacesAll` | ferron-modules-builtin/src/util/body_replacer.rs:64-113 | with `once` off, for every split into frames (and any pending polls, errors and trailers between them) the output data equal leftmost non-overlapping replace-all of the input data; an empty pattern changes nothing |
| `BodyReplacers.HeldIsBounded` | ferron-modules-builtin/src/util/body_replacer.rs:106-111 | in every reachable state at most pattern-length bytes are held back |
| `BodyReplacers.ChainReplacesAll` | ferron-modules-builtin/src/optional/replace.rs:215-217 | a chain of such replacers equals the composition of their whole-string replacements in configured order |
| `BodyReplacers.DrainChain` | ferron-modules-builtin/src/optional/replace.rs:215-217 | the wrapping loop, drained, is that chain |
| `BodyReplacers.OnceOutput` | ferron-modules-builtin/src/util/body_replacer.rs:82-113 | with `once` on, the output is a head, all later data, then the held tail; head and tail together are replace-first of the data through the matching frame |
| `BodyReplacers.OnceWithoutMatch` | ferron-modules-builtin/src/util/body_replacer.rs:82-113 | with `once` on and no match the data are unchanged |
| `BodyReplacers.MatchingFrameExists` | ferron-modules-builtin/src/util/body_replacer.rs:95-105 | if the data contain the pattern, there is a first frame through which they do |
| `BodyReplacers.OnceIsReplaceFirstIff` | ferron-modules-builtin/src/util/body_replacer.rs:82-84 | with `once` on, the output is whole-string replace-first if and only if the later data and the held tail commute (so whenever one of them is empty) |
| `BodyReplacers.OnceReordersFrames` | ferron-modules-builtin/src/util/body_replacer.rs:82-84 | the family of bodies on which two bytes come out exchanged |
| `BodyReplacers.HeldTailFollowsTrailers` | ferron-modules-builtin/src/util/body_replacer.rs:69-125 | a body that ends in trailers still ends in them after the replacer if and only if the pattern is empty or no data frame came before; otherwise exactly one data frame with the held bytes follows the trailers |
| `SplitStreams.SplitByMap.PollNextLeft` | ferron-modules-builtin/src/util/split_stream_by_map.rs:54-98 | one left poll: new slots and wakers, the answer, the waker woken, whether the source was consumed |
| `SplitStreams.SplitByMap.PollNextRight` | ferron-modules-builtin/src/util/split_stream_by_map.rs:100-144 | the same for the right side |
| `SplitStreams.RunConserves` | ferron-modules-builtin/src/util/split_stream_by_map.rs:54-144 | for every schedule over every source: both slots are never full together, each side's items plus its slot are the order-preserving projection of what was taken, and a side whose item is parked is never asleep |
| `SplitStreams.ParkedComesWithWake` | ferron-modules-builtin/src/util/split_stream_by_map.rs:77-85 | in every run, parking an item for a side that has ever polled wakes that side through the waker of its latest poll |
| `SplitStreams.WakesIff` | ferron-modules-builtin/src/util/split_stream_by_map.rs:54-144 | a poll wakes the other side, through its waker, if and only if it finds nothing for itself and an item is parked for the other side or the source has ended; at a pending source nobody is woken |
| `SplitStreams.EndMeansAllDelivered` | ferron-modules-builtin/src/util/split_stream_by_map.rs:88-95 | a poll is answered with the end only when both sides have received all that was taken |
| `SplitStreams.BothAsleepOnlyOnSource` | ferron-modules-builtin/src/util/split_stream_by_map.rs:65-97 | both sides can sleep only when nothing is parked and the last poll was answered pending by the source itself |
| `SplitStreams.EveryScheduleFinishes` | ferron-modules-builtin/src/util/split_stream_by_map.rs:54-144 | over a ready n-item source every schedule that polls sides that are awake takes at most 3n + 6 polls, and when nobody can be polled both sides have ended with exactly their items |
| `SplitStreams.AlternatingPollsFinish` | ferron-modules-builtin/src/util/split_stream_by_map.rs:54-144 | alternating polls bring both sides to the end, with exactly their items, within n + 1 rounds |
| `SplitStreams.LeftAloneStops` | ferron-modules-builtin/src/util/split_stream_by_map.rs:73-86 | polling left alone: where it stands after any number of polls, parked for good at the first right item |
| `SplitStreams.LeftAloneReceives` | ferron-modules-builtin/src/util/split_stream_by_map.rs:73-86 | polling left alone delivers exactly the left items before the first right item |
| `SplitStreams.AloneEndsIff` | ferron-modules-builtin/src/util/split_stream_by_map.rs:54-144 | from every sound state and for both sides, polling one side alone comes to the end if and only if nothing is parked for the other side and no remaining item is for it; draining left first is the case of the start state |
| `PendingGuards.Pool.NewGuard` | ferron-modules-builtin/src/util/pending_connection_guard.rs:15-18 | creating a guard is one atomic step that keeps the safety invariant |
| `PendingGuards.Pool.LoadToken` | ferron-modules-builtin/src/optional/fauth.rs:650-651 | the token loaded is the installed one and is not cancelled |
| `PendingGuards.Pool.FetchSub` | ferron-modules-builtin/src/util/pending_connection_guard.rs:27-28 | the subtraction returns the number of live guards, never zero, and a swap follows if and only if no guard is left alive |
| `PendingGuards.LastOutIff` | ferron-modules-builtin/src/util/pending_connection_guard.rs:27-29 | a drop goes on to swap and cancel if and only if it leaves no guard alive; otherwise the request waits for the token it loaded, or is done |
| `PendingGuards.LoadedKeepsToken` | ferron-modules-builtin/src/optional/fauth.rs:650-664 | a request that has loaded a token waits for that token and no other until it is woken or leaves |
| `PendingGuards.OneCancellationEach` | ferron-modules-builtin/src/util/pending_connection_guard.rs:24-32 | in every run the drops that left no guard alive are as many as the tokens cancelled and the cancellations still to come |
| `PendingGuards.CancelledWhileAliveIff` | ferron-modules-builtin/src/util/pending_connection_guard.rs:27-29 | from every reachable state with guards alive, the installed token can be cancelled while guards stay alive throughout if and only if a drop that left no guard alive has not swapped yet |
| `PendingGuards.NotWokenWhileAlive` | ferron-modules-builtin/src/optional/fauth.rs:650-664 | without such a drop a request that loaded the installed token is not woken for as long as guards stay alive |
| `PendingGuards.WokenEarly` | ferron-modules-builtin/src/util/pending_connection_guard.rs:27-29 | a run of four requests in which that drop wakes a waiter although a guard has been alive ever since its token was installed |
| `PendingGuards.Pool.SwapToken` | ferron-modules-builtin/src/util/pending_connection_guard.rs:29 | the swap takes out the installed token and installs a new one |
| `PendingGuards.Pool.CancelToken` | ferron-modules-builtin/src/util/pending_connection_guard.rs:29 | the swapped-out token is cancelled, by the only request that holds it |
| `PendingGuards.CounterIsLiveGuards` | ferron-modules-builtin/src/util/pending_connection_guard.rs:15-32 | in every state of every interleaving the counter is the number of live guards |
| `PendingGuards.SafeStep` | ferron-modules-builtin/src/util/pending_connection_guard.rs:15-32 | every atomic step keeps: counter correct, tokens cancelled only after they are swapped out and by one request, every awaited token on its way to cancellation |
| `PendingGuards.QuietWaitersAreCancelled` | ferron-modules-builtin/src/optional/fauth.rs:650-664 | once no guard is alive and no drop is half done, every waiter's token is cancelled |
| `PendingGuards.NeverStuck` | ferron-modules-builtin/src/optional/fauth.rs:650-664 | with the pool full for ever, some request can always go on until all are done |
| `PendingGuards.EveryTaskFinishes` | ferron-modules-builtin/src/optional/fauth.rs:650-664 | from every reachable state, runs without new requests are bounded, and one that cannot be continued has every request done |
| `CacheKeys.BuildCacheKey` | ferron-modules-builtin/src/optional/cache.rs:242-267 | the pushes spell the base key |
| `CacheKeys.BuildVaryKey` | ferron-modules-builtin/src/optional/cache.rs:191-215 | the loop spells the composite key of a Vary list |
| `CacheKeys.FirstValueMeans` | ferron-modules-builtin/src/optional/cache.rs:204-211 | the value of a listed header is the first of its list, whatever the letter case of the name, and empty without one |
| `CacheKeys.BaseKeyInjective` | ferron-modules-builtin/src/optional/cache.rs:242-267 | equal base keys mean equal method, scheme, host, path and query, for hosts without a slash |
| `CacheKeys.HostWithSlashCollides` | ferron-modules-builtin/src/optional/cache.rs:242-267 | every host with a slash shares its key with a request for another host |
| `CacheKeys.VaryKeyInjective` | ferron-modules-builtin/src/optional/cache.rs:191-215 | equal composite keys mean equal base key, Vary list and first value of each listed header, for header maps as the HTTP library admits them, names that cannot be mistaken and parts without newline |
| `CacheKeys.NameCollidesIff` | ferron-modules-builtin/src/optional/cache.rs:196-212 | whatever the headers, a listed name can be mistaken for a different name that cannot be mistaken itself if and only if the part before its first colon and space is a header name and the part behind could begin a header value; all header maps hold header names and values only |
| `Sorting.SortDedupCanonical` | ferron-modules-builtin/src/optional/cache.rs:722-724 | Vary lists naming the same headers, in any order and however often, become the same list |
| `ResponseCaches.DecideFromRequest` | ferron-modules-builtin/src/optional/cache.rs:92-127 | the bit flags say exactly when a request bypasses the cache and when it skips the lookup |
| `ResponseCaches.CollectBody` | ferron-modules-builtin/src/optional/cache.rs:147-171 | the collecting loop gives the body, the over-limit remainder, or the failure |
| `ResponseCaches.CollectedIff` | ferron-modules-builtin/src/optional/cache.rs:147-171 | a body is collected if and only if no frame fails and it is within the limit, and then it is the full concatenation of its data frames |
| `ResponseCaches.CollectedAs` | ferron-modules-builtin/src/optional/cache.rs:147-171 | with the frame at which a failure or the limit ends the collection: a failure, or the data before it and the frames behind it; without one, the whole body |
| `ResponseCaches.DeliveredWholeIff` | ferron-modules-builtin/src/optional/cache.rs:154-158 | a body without failed frames reaches the client whole if and only if it is within the limit: the frame that crosses the limit is lost |
| `ResponseCaches.CacheModuleHandlers.RequestHandler` | ferron-modules-builtin/src/optional/cache.rs:569-653 | the request handler answers with the fresh entry of the two-level lookup or remembers key, headers and authorization |
| `ResponseCaches.CacheModuleHandlers.ResponseHandler` | ferron-modules-builtin/src/optional/cache.rs:655-783 | the response handler stores exactly the admitted responses, marks BYPASS, HIT or MISS, and passes on the collected or streamed body |
| `ResponseCaches.CacheModuleHandlers.Store` | ferron-modules-builtin/src/optional/cache.rs:714-760 | the Vary list is put, expired entries go, the entry is put under its composite key; nothing happens for a list with `*` |
| `ResponseCaches.StoreIsThreeSteps` | ferron-modules-builtin/src/optional/cache.rs:736-760 | an uninterrupted store is three steps of the shared-map runs |
| `ResponseCaches.SoundRun` | ferron-modules-builtin/src/optional/cache.rs:600-760 | every run of map operations, evictions and clock ticks keeps: each entry sits under the key of the admitted response it came from |
| `ResponseCaches.HitWasStored` | ferron-modules-builtin/src/optional/cache.rs:600-637 | in every run a hit returns what some step of the run stored under the composite key of the lookup, not older than s-maxage, else max-age, else 300 s |
| `ResponseCaches.HitIsSound` | ferron-modules-builtin/src/optional/cache.rs:600-637 | if what the run put under the two keys of the lookup has hosts without slash and names that cannot be mistaken, a hit was stored for the same target, under the same Vary list and listed header values, even if the Vary list was read earlier than the entry |
| `ResponseCaches.StoredWasStorable` | ferron-modules-builtin/src/optional/cache.rs:549-564 | in every reachable state every entry is what a step of the run stored of its recorded origin, under the key of that origin, and the origin is a GET or HEAD request that does not bypass the cache with a response that is not no-store or private, is public if the request was authorized, has no `*` in its Vary list, and whose body is complete and within the limit |
| `ResponseCaches.AdmittedIff` | ferron-modules-builtin/src/optional/cache.rs:549-564 | a response is stored if and only if a shared cache may keep it and it has been received completely and within the limit |
| `ResponseCaches.HitsIff` | ferron-modules-builtin/src/optional/cache.rs:600-637 | after a store and any steps that neither evict nor overwrite what it put, an allowed request for the same target and listed header values hits if and only if the age is within s-maxage, else max-age, else 300 s, and gets the status, body and headers of the response without the ignored headers |
| `ResponseCaches.OnlyThoseMayHit` | ferron-modules-builtin/src/optional/cache.rs:92-127 | requests other than GET and HEAD, upgrades and no-store bypass the cache, no others do, and no-cache never hits |
| `ResponseCaches.OriginsWerePut` | ferron-modules-builtin/src/optional/cache.rs:735-760 | in every run each recorded origin comes from a store step of the run or was recorded before it |
| `ResponseCaches.CleanupIsInvisible` | ferron-modules-builtin/src/optional/cache.rs:527-545 | a cleanup at any moment changes no lookup then or after any later steps |
| `ResponseCaches.EvictionOnlyMisses` | ferron-modules-builtin/src/optional/cache.rs:276-305 | after an eviction and any later steps, every hit is a hit with the same entry in the run without the eviction |
| `Hostnames.LevelOrdersRoots` | ferron/src/tls_util.rs:114-125 | among wildcards that match one name, fewer dots means shorter root and equal length means equal host |
| `Hostnames.CustomSniResolver.LoadHostResolver` | ferron/src/tls_util.rs:106-126 | registration appends a new host and sorts the list stably |
| `Hostnames.CustomSniResolver.Resolve` | ferron/src/tls_util.rs:55-83 | the resolver of the first match for the name without its trailing dot answers alone, else the fallback does; the name and port are sent to the channel if and only if nothing matched, no certificate was found, and there are a name and a channel |
| `Hostnames.StripDotMeans` | ferron/src/tls_util.rs:57 | exactly one dot at the end of the name does not count |
| `Hostnames.LoadAllHolds` | ferron/src/tls_util.rs:106-126 | after any registrations the list is sorted, has no duplicate host, and holds each host with its first resolver |
| `Hostnames.ResolvesMostSpecificIff` | ferron/src/tls_util.rs:55-69 | for all registrations: nothing is found if and only if no registered host matches, and what is found is the most specific registered host (exact host, then longest wildcard root, then `*`) if and only if `*` is not registered, or the exact host is and has a dot or came before `*`, or nothing else matches |
| `Hostnames.PickWithStar` | ferron/src/tls_util.rs:106-126 | with `*` registered the pick is the exact host if that has a dot or came before `*`, and `*` in every other case |
| `Hostnames.OrderMattersIff` | ferron/src/tls_util.rs:106-126 | two sequences of registrations with the same first resolver of every host give different picks if and only if `*` and an exact host without a dot are registered, in different orders |
| `Hostnames.DotlessHostAndStar` | ferron-common/src/util/match_hostname.rs:3-5 | every host without a dot loses its name to a `*` registered before it, and keeps it otherwise |
| `Sorting.SortBySorted` | ferron/src/tls_util.rs:114-125 | sorting by a total preorder gives a sorted list |
| `Sorting.SortByStable` | ferron/src/config/mod.rs:374 | sorting keeps the order of elements that compare as equal |
| `Locations.CollapseSlashes` | ferron-common/src/util/match_location.rs:11-13 | the iterated replacement of `//` ends and equals a one-pass squeeze of runs of slashes |
| `Locations.MatchLocation` | ferron-common/src/util/match_location.rs:2-25 | request paths without `//` match at or below the normalised prefix; any request path with `//` matches every location |
| `Locations.CountLogicalSlashes` | ferron-common/src/config.rs:81-107 | the loop counts the slashes of the normalised prefix |
| `Locations.SlashesRankPrefixes` | ferron-common/src/config.rs:119-125 | locations that match one path without `//` have nested prefixes; the count is larger for the longer one and equal only for equal prefixes |
| `Locations.RemovePrefix` | ferron-modules-builtin/src/core.rs:735-760 | removal succeeds exactly when the path lies at or below the prefix (for paths without `//`: when the location matches), gives a path starting with a slash, and prefix plus result is the path unless they were equal |
| `Locations.LeadingDoubleSlash` | ferron-common/src/util/match_location.rs:15-17 | a path beginning with `//` matches every location but loses no non-empty prefix |
| `Routing.LeOrder` | ferron-common/src/config.rs:217-251 | the comparison of filters is a total preorder |
| `Routing.ServerConfigurations.FindConfiguration` | ferron/src/config/mod.rs:381-411 | the scan from the end, with early end on an evaluation error |
| `Routing.EvaluateConditions` | ferron/src/config/mod.rs:163-200 | location first, then the conditionals until one fails or errors |
| `Routing.MatchesIff` | ferron/src/config/mod.rs:381-411 | a configuration matches if and only if its host, port and address are absent or the request's, a localhost name comes from a loopback address, its prefix is at or above the path (or the path has `//`), all its conditionals hold and it has no error status; it errs if and only if it fits so far and the first conditional that does not hold cannot be evaluated |
| `Routing.KeysAreReal` | ferron-common/src/config.rs:217-251 | on configurations that match one request the comparison is real specificity: for hosts, then naming a port, then an address; any name, exact names, longer wildcards; longer prefix, more conditionals |
| `Routing.FindsMostSpecific` | ferron/src/config/mod.rs:367-411 | for every list of configurations the one found matches in that sense and no other matching one beats it, none is found if and only if none matches and none errs, and the lookup fails if and only if the one that decides errs |
| `Routing.AddressComesFirst` | ferron-common/src/config.rs:217-223 | for every request and list, a matching configuration for hosts is never passed over for one that is not, then one that names the port, then one that names the address |
| `Routing.ScanResult` | ferron/src/config/mod.rs:381-411 | exactly one configuration decides: of those that match or whose conditionals fail to evaluate, the highest, and of equals the first configured; the lookup fails if and only if evaluation of that one fails, finds it if and only if it matches, and finds nothing if and only if there is none |
| `Routing.EarliestOfEqualsWins` | ferron/src/config/mod.rs:369-378 | of matching configurations that compare as equal, the one configured first is found |
| `Pipelines.HandleRequest` | ferron/src/request_handler.rs:1341-1763 | the module loop with its switch of configuration writes the log and ends as the first deciding module says |
| `Pipelines.Enter` | ferron/src/request_handler.rs:1365-1417 | metrics, start spans, call and end spans of one request handler, in this order |
| `Pipelines.ExecuteResponseModifyingHandlers` | ferron/src/request_handler.rs:293-386 | the response pass, with what it still does for metrics when a handler fails or times out |
| `Pipelines.ResponsePassIsReversed` | ferron/src/request_handler.rs:1364-1706 | at most one switch; response handlers run only for the final configuration, each at most once, in exact reverse of execution order, all of them when none fails |
| `Pipelines.MetricsAreBracketed` | ferron/src/request_handler.rs:1365-1530 | every before-metrics call has one after-metrics call, except exactly the handler that fails or times out in the response pass |
| `Pipelines.TracesArePaired` | ferron/src/request_handler.rs:294-333 | each trace sender sees only adjacent matching start and end, on all paths |
| `PipelineEndings.SwitchIff` | ferron/src/request_handler.rs:1501-1562 | the error configuration takes over, once, if and only if the first module that does not pass the request on gives only a status, that status has an error configuration, and the request is kept or can be replayed |
| `PipelineEndings.EndsAsModulesSay` | ferron/src/request_handler.rs:1341-1763 | from the modules of the configuration in charge: the run ends with the module's response, its status, an internal error, not found or the time-out, as the first module that stops says, not found if all pass, and with the last response handler that fails, if one does |
| `PipelineEndings.CallsModulesInOrder` | ferron/src/request_handler.rs:1364-1417 | in each stage exactly the modules through the one that stops are called, in order, but for one whose time is already up |
| `PipelineEndings.CallsBackDownTo` | ferron/src/request_handler.rs:293-386 | when a response handler fails, exactly those behind it are called, and itself unless its time was up |
| `PipelineEndings.ReportsAreTrue` | ferron/src/request_handler.rs:294-333 | metrics are sent only if they are on, spans only to configured senders, and a span ends as failed if and only if its handler erred or timed out |
| `PipelineEndings.EveryEntryIsReported` | ferron/src/request_handler.rs:1365-1417 | every request handler through the one that stops is reported to metrics, if on, and to every trace sender |
| `PipelineEndings.EveryResponseIsTraced` | ferron/src/request_handler.rs:293-333 | so is, to every trace sender, every response handler through the one that fails |
| `LoginThrottle.TtlCache.Get` | ferron-common/src/util/ttl_cache.rs:29-37 | a value is found strictly less than one TTL after it was inserted |
| `LoginThrottle.TtlCache.Insert` | ferron-common/src/util/ttl_cache.rs:24-26 | insertion sets value and time |
| `LoginThrottle.TtlCache.Cleanup` | ferron-common/src/util/ttl_cache.rs:46-48 | no lookup from that moment on changes, and what remains is live and was there before |
| `LoginThrottle.CheckAttempt` | ferron-modules-builtin/src/status_codes.rs:388-407 | an attempt is rejected if and only if ten or more failures are on record |
| `LoginThrottle.RecordFailure` | ferron-modules-builtin/src/status_codes.rs:471-476 | from its last clock reading on the client's count is one more than at the read (in a byte) for exactly one TTL, and the counts of others are unchanged |
| `LoginThrottle.LastRecordDecides` | ferron-modules-builtin/src/status_codes.rs:471-476 | in every run the last recorded failure of a client alone decides its count: that of the read plus one until one TTL after its write, then zero |
| `LoginThrottle.NoRecordNoRejection` | ferron-modules-builtin/src/status_codes.rs:388-407 | a client without recorded failures is never rejected |
| `LoginThrottle.CountStaysBounded` | ferron-modules-builtin/src/status_codes.rs:387-476 | in every interleaving, failures plus attempts past the check stay within 9 + K |
| `LoginThrottle.OverflowIff` | ferron-modules-builtin/src/status_codes.rs:474-475 | the counter byte can overflow if and only if K is at least 247 |
| `LoginThrottle.LockedOutForOneTtl` | ferron-modules-builtin/src/status_codes.rs:388-407 | after a record that brings ten failures or more with nothing in flight, every check of every run is rejected and no failure recorded until one TTL after that record, and checks are accepted from then on until a failure is recorded again |
| `Includes.MergeInto` | ferron-yaml2kdl-core/src/load_config.rs:126-162 | the merge loop, in any order of keys, gives the merged hash |
| `Includes.LoadConfigInner` | ferron-yaml2kdl-core/src/load_config.rs:14-170 | recursive loading, which ends because every level loads a file not loaded before |
| `Includes.LoadSucceedsIff` | ferron-yaml2kdl-core/src/load_config.rs:14-28 | loading succeeds if and only if every way along the includes leads to a readable file and no two ways lead to the same file, cyclic graphs included |
| `Includes.LoadedAreReached` | ferron-yaml2kdl-core/src/load_config.rs:14-28 | a successful load has loaded exactly the files that some way along the includes leads to, and these are the files of the preorder |
| `Includes.ArraysAreConcatenated` | ferron-yaml2kdl-core/src/load_config.rs:130-141 | a key that is an array wherever present ends up as the depth-first preorder concatenation of all files' arrays |
| `Includes.LoadKey` | ferron-yaml2kdl-core/src/load_config.rs:119-165 | a key of one kind everywhere (arrays, hashes or scalars) is the left-to-right merge over the depth-first preorder of the files |
| `Includes.LastScalarWins` | ferron-yaml2kdl-core/src/load_config.rs:156-158 | a key that is a scalar wherever present is what the last file in depth-first preorder says |
| `Includes.LastFieldWins` | ferron-yaml2kdl-core/src/load_config.rs:142-155 | in a key that is a hash wherever present, each field is what the last file in depth-first preorder with that field says |
| `Nestings.MergeAssociativeIff` | ferron-yaml2kdl-core/src/load_config.rs:129-159 | three merges are associative if and only if it is not the case that the outer two are arrays (or hashes), the middle one is of another kind, and the first contributes something |
| `Nestings.LoadNests` | ferron-yaml2kdl-core/src/load_config.rs:119-165 | on every file graph a key ends up as some bracketing of the files' values in depth-first preorder |
| `Nestings.SettledIgnoresNesting` | ferron-yaml2kdl-core/src/load_config.rs:119-165 | if the last values of one kind have all that earlier ones of that kind would contribute, the key is what these last values give, whatever includes what |
| `Nestings.NestingShowsIff` | ferron-yaml2kdl-core/src/load_config.rs:119-165 | for every list of values, files that include each other in a chain and files all included by the first load with the same preorder and the same values, and agree on the key if and only if that condition holds |
| `Nestings.MixedKindsDependOnNesting` | ferron-yaml2kdl-core/src/load_config.rs:129-159 | for any three values, the chain and the flat list of three files disagree if and only if the middle value interrupts the outer ones |
| `Scgi.BuildNetstring` | ferron-modules-builtin/src/optional/scgi.rs:538-559 | the loop and the pushes give the netstring of the variables in send order |
| `Scgi.RoundTripIff` | ferron-modules-builtin/src/optional/scgi.rs:538-559 | decoding the netstring and splitting at NUL recovers the variables in send order if and only if no name or value contains NUL |
| `Scgi.ContentLengthFirst` | ferron-modules-builtin/src/optional/scgi.rs:546-551 | with distinct names CONTENT_LENGTH comes first and the others keep their order |
| `Scgi.NetstringPayload` | ferron-modules-builtin/src/optional/scgi.rs:554-559 | a netstring gives back its payload, whatever bytes it holds |
| `Sizes.Sizify` | ferron-common/src/util/sizify.rs:19-40 | the text is a number and the letter of its power of 1024; the number is digits without needless zeros in front, with at most one point and decimals behind it; read back, it is the size rounded up to two decimals below 10, one below 100 and none above, never below the true size, less than 1 % above it, exact below 1024 bytes, with a mantissa from 1 to 1024 and no zero at the end of its decimals |
| `Sizes.DisplayReads` | ferron-common/src/util/sizify.rs:29-33 | the text of the rounded number reads back as the same number, in lowest decimals |
| `Sizes.UnitBounds` | ferron-common/src/util/sizify.rs:25-26 | the unit is at most the size and more than a 1024th of it, for every size in 64 bits |

## Left out

- Sockets, TLS handshakes, HTTP/2 and QUIC, runtimes, processes: foreign libraries and I/O.
- Configuration validation, FastCGI, CGI responses, the URL sanitizer, PROXY protocol, reverse proxy and static files: settled one branch at a time, or a model of their own.
- ACME, DNS providers, observability back ends, log formats, the installer, the website and the YAML-to-KDL property tables: remote calls, plumbing and flat tables.
- Regular expressions, password hashing, Cache-Control parsing, splitting and trimming of Vary values, the eviction policy: arbitrary inputs.
- Header values that are not text: they are read as the program decodes them, so two values with one lossy decoding count as the same value.
- Weak memory: atomic operations are sequentially consistent, and the guard counter does not wrap upwards.
- Windows builds, which also lower the case of locations and prefixes.
- `ServerConfigurations::find_error_configuration` and the global lookup: one filter over the same sorted list, easy members; the pipeline takes any lookup of error configurations.
- The headers, log lines and error pages that the pipeline adds to responses, and its ACME and URL-sanitizing prologue.
- The order of keys in a YAML hash, keys that are not strings, and the error messages of include loading.
- Sizes.Sizify: floating point is read as exact arithmetic, so its rounding is not modelled.
