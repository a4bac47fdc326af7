# Verified model of the Synthient MCP server

This project models the parts of the server in which the difficulty lies and proves what they
guarantee, with Dafny 4.11. `dafny verify dfyconfig.toml` checks everything.

## What is modelled

**Admission of `/mcp` requests.** A global semaphore, a per-principal fixed-window rate limiter with
a table of at most 10000 windows, and a per-principal in-flight map, nested in that order.

- `RateLimit.dfy` has the limiter as the server holds it (a class with a mutable table, an eviction
  sweep and a critical section) and the function each critical section computes.
- `RateRuns.dfy` proves the capacity of the table for any order of clock readings and defines one
  private unbounded counter per principal; `RateRefinement.dfy` proves that the bounded, evicting,
  shared table refines it, for which runs exactly, and gives a run that does not.
- `RateBounds.dfy` proves the sliding-interval bound, with the delay of clock readings as a parameter,
  and that for ordered readings no smaller bound is true. `Retrying.dfy` proves what `Retry-After`
  means and how a retry is answered.
- `Admission.dfy` is the protocol: many requests, each at its own point between two atomic steps, and
  one shared state. An action is the arrival of a request or the next step of any request, so every
  interleaving is a sequence of actions. `Route.dfy` is the same route as objects changed in place
  (semaphore, in-flight table, rate limiter, counters), each of whose steps is proved to be a step of
  the protocol.
- `AdmissionProofs.dfy` proves the invariant of every reachable state, `AdmissionTheorems.dfy` the
  guarantees that follow from it, and `Courses.dfy` which way a request takes, told from what was
  decided in its own moves. `Upstream.dfy` does the same for the upstream-call counters.

**Sampling a live feed.** `Redaction.dfy` (replacing a secret by a mark), `Sanitising.dfy` (doing so
in a JSON tree, dropping sensitive keys, looking up dotted paths) and `Sampling.dfy` (the bounded
sampling loop against "the longest prefix of the stream that is allowed").

**Supporting parts.** `Forwarding.dfy` (client address behind trusted proxies), `Endpoints.dfy`
(upstream request paths from untrusted segments), `Domains.dfy` (domain names), `Deadlines.dfy`
(timeouts and limits from the settings down to one sample). `Strings.dfy`, `Counting.dfy` and
`Wrappers.dfy` are shared vocabulary.

Conventions: instants are integer nanoseconds, integers are unbounded, principals are opaque
strings (the empty one is "no principal"), and a string stands for a sequence of bytes, except in
`Domains.dfy`, where it is a sequence of Unicode characters. Each step of the protocol is one mutex
section, one atomic addition, one channel operation or one decision of the surroundings (guards,
clock, handler); what the surroundings decide is a parameter of the step. A handler that returns and
one that panics take the same step, because the deferred calls run either way.

## What depends on the order of clock readings

The clock is read before the mutex is taken, so readings may be out of order in mutex order.

- Whatever the order: table capacity, the range of stored counts, the exactness of a table-full
  refusal, a positive `Retry-After`, and everything about permits, slots and counters.
- The refinement holds in any order while no window has been swept away before a request of its
  principal with a reading from inside it (`RateRefinement.UndisturbedRefines`). That is always so for
  ordered readings and for at most 10000 principals, and `RateRefinement.RefinementIsExact` and
  `UndisturbedIsExact` show that the condition cannot be weakened. `SweptAndAdmittedAgain` is a run
  outside of it: full table, a sweep by a later reading, then an older one.
- The sliding bound degrades with the delay: if no reading is more than a delay of less than a minute
  older than an earlier one, windows of one principal begin at least a minute less that delay apart,
  which gives `RateBounds.LaggingBound`. The bound (k+1)*limit - 1 is its case of no delay, and two
  nanoseconds of delay are enough to exceed it (`RateBounds.DelayedReadingsBreakTheBound`).
- The upper end of `Retry-After` (60) holds for ordered readings, and for a single answer exactly when
  the window was not opened by a later reading (`Retrying.RetryAfterInAnyOrder`;
  `Retrying.OlderReadingWaitsLonger` is an answer of 61). How a retry is answered is proved for ordered
  readings.

## Where the code and its own documentation differ

- Redaction does not remove every secret. A secret leaks exactly when it can be reassembled around the
  mark `[REDACTED]`, which `Redaction.Leaks` decides from the secret alone: `]x` does, and no secret
  without brackets that is not a piece of `REDACTED` does.
- README.md:132 gives samples at most 15 seconds; a configured stream timeout of 16 s or more allows
  longer ones (`Deadlines.FifteenSecondsExactly`).
- The error text of the domain check asks for an ASCII name, but trimming and lower-casing come first
  and are those of Unicode: the Kelvin sign is accepted as `k` (`Domains.KelvinSignIsAccepted`).
- README.md:149 and README.md:201 describe chains of trusted hops; the `/mcp` route deletes the header
  before resolving the client (go/internal/httpserver/server.go:223-225), so with client-address
  forwarding enabled and any hop configured every request is refused
  (`Forwarding.NoHeaderNoClient`). `CanonicalClientIP` is therefore modelled on its own.

## Model

| member | source | states |
|---|---|---|
| RateLimit.PrincipalRateLimiter.Sweep | go/internal/httpserver/server.go:317-323 | the sweep loop leaves exactly the unexpired windows, unchanged |
| RateLimit.PrincipalRateLimiter.Evict | go/internal/httpserver/server.go:312-323 | the principal's own expired window goes first, everybody's only if the table is still full |
| RateLimit.PrincipalRateLimiter.Admit | go/internal/httpserver/server.go:303-344 | one critical section leaves the table and gives the answer of `Attempt`, about which the lemmas below speak |
| RateRuns.TableFullIsExact | go/internal/httpserver/server.go:311-328 | any clock order: a table-full refusal is exactly "no entry of one's own and 10000 unexpired entries of others", and it changes nothing |
| RateRuns.StoredIsBounded | go/internal/httpserver/server.go:311-341 | any clock order: at most 10000 windows, counts in 1..limit |
| RateRuns.OthersUndisturbed | go/internal/httpserver/server.go:311-341 | any clock order: unexpired entries of others stay, and no entry of another appears or changes |
| RateRuns.CapacityOverRuns | go/internal/httpserver/server.go:311-341 | the same bounds after every run |
| RateRefinement.UndisturbedRefines | go/internal/httpserver/server.go:303-344 | readings in any order: the answers to a principal are those of a private, unbounded fixed-window counter fed only its requests that were not refused for a full table, as long as none of them has a reading from inside a window that a sweep for somebody else removed |
| RateRefinement.TableRefinesCounter | go/internal/httpserver/server.go:303-344 | that is so for every run of ordered readings |
| RateRefinement.FewPrincipalsRefine | go/internal/httpserver/server.go:303-344 | and, in any order, for every run of at most 10000 principals |
| RateRefinement.RefinementIsExact | go/internal/httpserver/server.go:303-344 | the condition is exact: after such a run, a request and all its repetitions are answered like the counter's if and only if it does not come from inside a swept window |
| RateRefinement.UndisturbedIsExact | go/internal/httpserver/server.go:303-344 | so a whole run meets the condition if and only if each request of the principal, with repetitions in its place, is answered like the counter's |
| RateRefinement.SweptAndAdmittedAgain | go/internal/httpserver/server.go:310-340 | a run that does not refine: 10000 principals fill the table, a reading a minute later sweeps it, and an older reading is admitted a second time under limit 1 |
| RateRefinement.OthersDoNotMatter | go/internal/httpserver/server.go:303-344 | two servers that see the same requests of a principal answer it alike, whatever else they carry and evict, under that condition |
| RateBounds.LaggingBound | go/internal/httpserver/server.go:310-340 | with readings that lag by at most a delay under a minute: at most n*limit - 1 admissions of one principal in an interval, where n minutes less the delay span the interval, one minute and the delay |
| RateBounds.SlidingBound | go/internal/httpserver/server.go:313-340 | for ordered readings at most (k+1)*limit - 1 admissions of one principal in any half-open k minutes |
| RateBounds.SlidingBoundIsAttained | go/internal/httpserver/server.go:313-340 | for every limit and k some run reaches that number |
| RateBounds.DelayedReadingsBreakTheBound | go/internal/httpserver/server.go:310-340 | with readings at most two nanoseconds late limit 2 can admit four readings of one minute |
| Retrying.RetryAfterIsExact | go/internal/httpserver/server.go:332-337 | on a refusal by count the number is the least positive number of seconds that reaches the end of the window, at most 60 where no window ends later than in a minute, and the refusal changes nothing |
| Retrying.RetryAfterOnRuns | go/internal/httpserver/server.go:313-337 | after any run of ordered readings it lies in 1..60 |
| Retrying.RetryAfterIsHonoured | go/internal/httpserver/server.go:313-337 | for ordered readings, whatever the principal and others send in between: before the end of its window a retry is refused; from then on it is not refused by the count if nothing of the principal was counted since; and within a minute of the first request counted since, which includes the told instant, it is refused exactly when at least `limit` were counted since |
| Retrying.PatientRetryIsHonoured | go/internal/httpserver/server.go:313-337 | so a principal that sends nothing between the end of its window and the told instant is then not refused by the count, and any whole second earlier it is |
| Retrying.EarlyRetryUsesTheNewWindow | go/internal/httpserver/server.go:313-337 | a run in which the retry at the told instant is refused, because the principal used its new window in between |
| Retrying.RetryAfterInAnyOrder | go/internal/httpserver/server.go:310-337 | any clock order: the number is positive, and at most 60 exactly when the window was not opened by a later reading |
| Retrying.OlderReadingWaitsLonger | go/internal/httpserver/server.go:310-334 | a reading one second older than the window's opening is told 61 |
| Admission.Effective | go/internal/httpserver/server.go:60-63 | positive concurrency limits are kept, others become 8 and 2, and the rate limit is taken as it is |
| Route.Semaphore.TryAcquire | go/internal/httpserver/server.go:387-397 | takes a permit exactly when one is free, and otherwise changes nothing |
| Route.Semaphore.Release | go/internal/httpserver/server.go:391 | gives one permit back |
| Route.InflightTable.TryAcquire | go/internal/httpserver/server.go:245-254 | takes a slot exactly when the principal is below its limit, and otherwise changes nothing |
| Route.InflightTable.Release | go/internal/httpserver/server.go:255-262 | gives one slot back and deletes an entry that reaches zero |
| Route.McpRoute.constructor | go/internal/httpserver/server.go:115-130 | the composed route starts in the empty state of the protocol under the effective limits |
| Route.McpRoute.Enter | go/internal/httpserver/server.go:437-445 | the arrival of a request is the protocol's arrival |
| Route.McpRoute.Step | go/internal/httpserver/server.go:115-130 | every step of a request on the shared objects is the protocol's step |
| AdmissionProofs.PermitsKept | go/internal/httpserver/server.go:386-399 | every step keeps: permits taken = requests between acquire and release, never above the limit |
| AdmissionProofs.SlotsKept | go/internal/httpserver/server.go:236-265 | every step keeps: the slot count of each principal = its requests between acquire and release, stored counts in 1..limit |
| AdmissionProofs.StatsKept | go/internal/httpserver/server.go:437-445 | every step keeps: request count, in-flight gauge and the three rejection counters agree with where the requests stand |
| AdmissionProofs.RateKept | go/internal/httpserver/server.go:303-350 | every step keeps: the table is the one produced by the arrivals in mutex order; a request past the rate stage or refused by it has been there with its own principal; and for any property of principal and reading, the requests with it that are past (refused) number the arrivals with it that were admitted (refused) |
| AdmissionProofs.Reachable | go/internal/httpserver/server.go:115-135 | all of this holds in every state any interleaving reaches |
| AdmissionTheorems.SlotsAreExact | go/internal/httpserver/server.go:236-265 | the in-flight map has exactly the principals with a request in the handler, each with its exact number in 1..limit |
| AdmissionTheorems.LimitsNest | go/internal/httpserver/server.go:119-130 | the sum of all slot counts = requests in the handler <= permits = requests holding one <= global limit |
| AdmissionTheorems.SemaphoreRefusesOnlyWhenFull | go/internal/httpserver/server.go:389-396 | the semaphore refuses exactly when the limit's number of requests hold permits |
| AdmissionTheorems.PrincipalRefusedOnlyWhenFull | go/internal/httpserver/server.go:245-253 | a principal is refused exactly when its limit's number of its own requests is active |
| AdmissionTheorems.Conservation | go/internal/httpserver/server.go:236-265 | all requests counted are the undecided ones plus six disjoint fates, and once all are done none is undecided |
| AdmissionTheorems.FatesAreFinal | go/internal/httpserver/server.go:236-265 | over every continuation of a run a request keeps its fate, and what it brought to the rate limiter |
| AdmissionTheorems.EachFateHasItsCause | go/internal/httpserver/server.go:236-265 | a request has a fate exactly when it has been at the point that decides it: in the handler, or refused by that very stage |
| AdmissionTheorems.CountersAreTheirShares | go/internal/httpserver/server.go:324-349 | each rejection counter is its share minus increments still due; the gauge is the requests between its increment and its deferred decrement; the rate limiter's answers are the requests past it and refused by it |
| AdmissionTheorems.Drained | go/internal/httpserver/server.go:386-399 | when no request is active, no permit, slot or gauge is left and the counters equal their shares |
| AdmissionTheorems.NeverBlocked | go/internal/httpserver/server.go:389-392 | no step of an unfinished request blocks; a permit is always there to be returned |
| AdmissionTheorems.MovesAreBounded | go/internal/httpserver/server.go:115-135 | at most ten steps for each request that arrived, in every run |
| AdmissionTheorems.CanAlwaysDrain | go/internal/httpserver/server.go:115-135 | from every reachable state the server can be emptied |
| AdmissionTheorems.TableOnRuns | go/internal/httpserver/server.go:311-341 | the capacity bounds in every reachable state of the whole protocol |
| AdmissionTheorems.RequestsAreTheirArrivals | go/internal/httpserver/server.go:303-344 | in every reachable state the requests past the rate stage are, by principal and reading, the arrivals it admitted, and those refused by it the ones it refused |
| AdmissionTheorems.RateLimitOnRuns | go/internal/httpserver/server.go:303-344 | in every run of the whole protocol whose readings are in mutex order, at most (k+1)*limit - 1 requests of one principal with readings from the same k minutes get past the rate stage |
| AdmissionTheorems.LateRateLimitOnRuns | go/internal/httpserver/server.go:303-344 | the same with the bound for delayed readings |
| Courses.GuardsDecide | go/internal/httpserver/server.go:157-232 | in every run: a request is turned away exactly when its own move out of the origin checks does not pass; with a permit, it is refused by the guards exactly when its move out of them does not pass or it has no principal |
| Courses.IdentityIsKept | go/internal/httpserver/server.go:237-310 | from the guards on it keeps the principal they gave it, and the reading it took; with these it is counted by the rate limiter, if one is installed |
| Courses.WelcomeRequestsAreServed | go/internal/httpserver/server.go:115-135 | a request that passes both and has a principal ends as refused by one of the three limiters or as run by the handler, and no other request ends so |
| Upstream.CountersAgree | go/internal/httpserver/server.go:497-510 | after every single addition of every interleaving: requests = four outcomes + observers between first and last addition; each outcome counts exactly its statuses; the time is that of the observers past their second addition |
| Upstream.OutcomesByStatus | go/internal/httpserver/server.go:500-509 | the four outcome counters are the finished calls with status 0, 200 to 299, 400 to 499, and any other |
| Upstream.ObserversAreTheirCalls | go/internal/httpserver/server.go:497-510 | every observer keeps the status and duration of its call |
| Upstream.Telemetry.ObserveUpstream | go/internal/httpserver/server.go:497-510 | one observer alone makes exactly the three steps, and adds one request and its time |
| Redaction.RedactionIsExact | go/internal/synthient/client.go:268-272 | the replacement removes the secret from every string exactly for secrets that do not leak |
| Redaction.PlainSecretsDoNotLeak | go/internal/synthient/client.go:268-272 | a secret without brackets that is not a piece of the marked word does not leak |
| Redaction.BracketKeyLeaks | go/internal/synthient/client.go:268-272 | a secret that does |
| Redaction.RedactingTwiceIsExact | go/internal/synthient/client.go:268-272 | twice equals once exactly for those secrets and for the mark itself |
| Redaction.KeptThenMarked | go/internal/synthient/client.go:270 | up to the first occurrence text is kept, the occurrence becomes the mark, and the rest is replaced on its own |
| Redaction.NothingToReplace | go/internal/synthient/client.go:270 | a string without the secret is unchanged |
| Sanitising.SpellingDoesNotMatter | go/internal/synthient/client.go:278-288 | neither the case of a letter nor any character other than ASCII letters and digits changes whether a key is sensitive |
| Sanitising.PlainSpelling | go/internal/synthient/client.go:278-288 | a key of lower-case letters and digits is sensitive exactly when it is one of the five words |
| Sanitising.SanitizingIsExact | go/internal/synthient/client.go:243-289 | every sanitised tree is free of sensitive keys at any depth and of the secret in string leaves, exactly for secrets that do not leak |
| Sanitising.SanitizedIsClean | go/internal/synthient/client.go:251-276 | the same for one tree |
| Sanitising.LeavesAreRedacted | go/internal/synthient/client.go:267-275 | text leaves have the secret replaced by `[REDACTED]`, all other leaves are returned as they are |
| Sanitising.CleanIsUnchanged | go/internal/synthient/client.go:251-276 | a tree with nothing to hide is unchanged |
| Sanitising.SanitizingTwiceIsExact | go/internal/synthient/client.go:251-276 | sanitising twice equals once exactly for those secrets and the mark |
| Sanitising.LookupFindsWhatIsThere | go/internal/synthient/feeds.go:181-191 | looking up finds a leaf exactly if putting that leaf there changes nothing |
| Sanitising.LookupCommutes | go/internal/synthient/feeds.go:181-191 | looking a path up in the sanitised tree is sanitising what the original has there; with a sensitive segment there is nothing |
| Sanitising.EveryNodeKeepsItsPlace | go/internal/synthient/client.go:251-276 | every node not under a sensitive key, array elements included, is at its old place, sanitised, and there is no other |
| Sampling.MatchesFilters | go/internal/synthient/feeds.go:179-197 | the walk over filters in any order decides `Matches`, which the next rows pin down |
| Sampling.MatchesExactly | go/internal/synthient/feeds.go:179-197 | an event matches exactly when it has, at the path of every filter, a value whose text is the one asked for |
| Sampling.OneFilterExactly | go/internal/synthient/feeds.go:179-197 | with a leaf at some path of any event, a filter on that path matches exactly when the leaf's text is the one asked for |
| Sampling.NothingThereNeverMatches | go/internal/synthient/feeds.go:183-191 | a filter whose path comes to a missing field or to something that is no object never matches |
| Sampling.FilterUnion | go/internal/synthient/feeds.go:179-197 | a union of compatible filters is one after the other |
| Sampling.SampleStream | go/internal/synthient/feeds.go:80-116 | the loop returns the events, flag and error belonging to the longest allowed prefix |
| Sampling.LongestIsLongest | go/internal/synthient/feeds.go:85-112 | the lines taken in are exactly the longest prefix within count, output budget, 8 MiB read budget and decodability |
| Sampling.TruncatedIsExact | go/internal/synthient/feeds.go:87-106 | `truncated` exactly when more was wanted and the next line breaks the read budget or is an event that breaks the output budget |
| Sampling.OtherwiseComplete | go/internal/synthient/feeds.go:97-116 | neither truncated nor in error means complete; a decode error means the next line, and no earlier one, does not decode |
| Sampling.ErrorsAreExact | go/internal/synthient/feeds.go:85-116 | a read error exactly when the stream failed, every line was taken in and more was wanted; a decode error exactly when more was wanted and the next line is within the read budget and does not decode; a cancelled stream gives the sample of a finished one |
| Sampling.EventsAreTheWantedLines | go/internal/synthient/feeds.go:80-111 | the events are, in order, the sanitised contents of exactly those lines taken in that decode and meet every filter; the budgets are charged the lengths of all lines and of these |
| Sampling.SampleIsSound | go/internal/synthient/feeds.go:100-111 | at most `count` events within the output budget, each with the value every filter asks for, and clean |
| Sampling.SensitiveFilterSelectsNothing | go/internal/synthient/feeds.go:100-103 | a filter on a sensitive field selects nothing from any stream |
| Sampling.SamplesOnlyGrow | go/internal/synthient/feeds.go:82-116 | a larger count or output limit or more lines only extend the events, however either run ended |
| Forwarding.CanonicalClientIP | go/internal/forwarding/forwarding.go:13-50 | the loops compute `Resolve` of the items of all header lines, with the right error |
| Forwarding.CollectLine | go/internal/forwarding/forwarding.go:27-36 | one header line stops at the first item that does not parse and at the 65th address in all |
| Forwarding.SucceedsExactly | go/internal/forwarding/forwarding.go:21-49 | exactly when resolution succeeds with at least one hop, and that the answer is the entry that many from the right |
| Forwarding.RefusedExactly | go/internal/forwarding/forwarding.go:13-50 | zero hops give the peer's own address whatever the header says; each of the six refusals has its own exact condition, and the leftmost untrusted proxy is named |
| Forwarding.PrependingChangesNothing | go/internal/forwarding/forwarding.go:25-49 | further valid addresses in front, within the cap, never change the answer |
| Forwarding.HeaderLinesCombine | go/internal/forwarding/forwarding.go:26-37 | several header lines resolve like the one comma-joined line, errors included |
| Forwarding.NoHeaderNoClient | go/internal/httpserver/server.go:223-229 | without header lines every configuration with a hop refuses |
| Endpoints.RequestPath | go/internal/synthient/client.go:124-135 | the loop builds the path of `Build` or gives its error |
| Endpoints.PathsStayUnderTheBase | go/internal/synthient/client.go:124-135 | a path is given exactly when no segment is empty and the whole path, after dot-segment removal, is strictly under the base; it is that path, and the two errors are told apart |
| Endpoints.SegmentsRoundTrip | go/internal/synthient/feeds.go:123-134 | named segments always make a path and are read back by splitting and decoding |
| Endpoints.DistinctSegmentsDistinctPaths | go/internal/synthient/feeds.go:123-134 | different segments never share a path |
| Endpoints.UnescapeUndoesEscape | go/internal/synthient/client.go:130 | decoding undoes encoding, and no slash survives encoding |
| Endpoints.EscapedByteByByte | go/internal/synthient/client.go:130 | letters, digits and ten marks are written as they are, every other byte as a percent sign and two upper-case digits |
| Endpoints.StreamEndpoints | go/internal/synthient/feeds.go:164-177 | the four honeypot streams are below `helio`, every other one under its own name |
| Endpoints.StreamsHaveTheirOwnPaths | go/internal/synthient/feeds.go:164-177 | two streams never share an endpoint |
| Domains.NormalizeDomain | go/internal/mcpserver/server.go:206-223 | for any tables of lower case and white space, the loops accept exactly the inputs whose prepared form is in normal form, and return that form |
| Domains.OutputsAreTheNormalForms | go/internal/mcpserver/server.go:206-227 | the outputs are exactly the normal forms, each a fixed point |
| Domains.NormalFormByPositions | go/internal/mcpserver/server.go:206-227 | normal forms are the strings of 1 to 253 letters, digits, hyphens and dots, alphanumeric at both ends and beside every dot, without 64 characters in a row free of dots |
| Domains.AcceptsExactly | go/internal/mcpserver/server.go:206-223 | an input, ASCII or not, gives d exactly when d is a normal form and the input is a spelling with d as its lower case, with at most one final dot and only white space around it |
| Domains.KelvinSignIsAccepted | go/internal/mcpserver/server.go:206-223 | a no-break space, the Kelvin sign and a dot are accepted as the name k |
| Domains.NormalisingTwice | go/internal/mcpserver/server.go:206-223 | normalising is idempotent |
| Deadlines.SampleTool | go/internal/mcpserver/feeds.go:154-184 | the tool samples with the chosen count, under the chosen deadline, and discards everything on an error |
| Deadlines.ChoiceIsExact | go/internal/mcpserver/feeds.go:154-174 | which counts and timeouts are accepted, that given ones are used, and what omitted ones become |
| Deadlines.LoadIsExact | go/internal/config/config.go:84-137 | which timeouts and limits are accepted, and that they are then what was set or the fallback |
| Deadlines.ToolAnswersAreSound | go/internal/mcpserver/feeds.go:154-184 | an accepted call answers exactly if the filters are valid and the stream did not err; then with at most the count asked for, clean events that meet the filters, all of them if not truncated |
| Deadlines.DeadlineChain | go/internal/mcpserver/feeds.go:161-178 | 1 s <= deadline <= stream timeout < write timeout for every accepted configuration and input, and a count of 1 to 50 |
| Deadlines.OmittedTimeoutIsAccepted | go/internal/mcpserver/feeds.go:168-174 | an omitted timeout is accepted under every stream timeout |
| Deadlines.FallbacksAreInRange | go/internal/config/config.go:87-106 | unset read and write timeouts fall inside their own ranges and above the operation timeouts |
| Deadlines.FifteenSecondsExactly | go/internal/mcpserver/feeds.go:161-174 | the documented 15 seconds hold exactly for stream timeouts under 16 s |
| Deadlines.AcceptedLimitsAreInstalled | go/internal/config/config.go:119-137 | accepted limits are installed unchanged, per-principal at most global |

## Left out

- HTTP, TLS, sockets, JSON-RPC, OIDC and gRPC reflection: the handler is a step that returns or panics, the guards are a decision, and response texts and the fixed `Retry-After: 1` of the other refusals are not modelled.
- Panics outside the handler, cancellation of a request while it waits, and graceful shutdown.
- Integer overflow of counters and the saturation of `time.Duration` subtraction: integers are unbounded.
- RateBounds.LaggingBound: says nothing about delays of a minute or more, and is not claimed to be attained for every delay.
- Retrying.RetryAfterIsHonoured: says nothing about a refusal for a full table at the retry, which can happen.
- IP address syntax, membership in address ranges and `host:port` splitting are two parameters of the forwarding model; the text of the untrusted proxy error is its address.
- JSON decoding, trimming of lines and line length limits of the scanner: a line is its trimmed length and what it decodes to. The textual form in which a found value is compared with a filter is a parameter.
- The error replies of upstream streams, the response size limit and typed decoding in `requestQuery`.
- Sanitising.SanitizingIsExact: claims nothing about the secret inside map keys or numbers, which the code leaves alone.
- Endpoints.RequestPath: takes a base path of at least one clean segment (no empty, `.` or `..` segment, no slash inside); joining and escaping follow the standard library's documented behaviour, which is not part of this model.
- Domains.AcceptsExactly: the Unicode tables are parameters, of which only their values on ASCII are fixed, and that outside of it nothing becomes a dot and no white space becomes a letter or digit.
- Settings other than timeouts and limits, number syntax in environment variables, origin, host and CORS checks, scopes, feed aliases, filter-name and symbol validation, tool schemas, summaries, legacy names, logging, request identifiers and metrics text: no hard property.
