# CryptoVaultHub: verified models

Dafny models of the parts of CryptoVaultHub that carry state or transform data, with proofs of what
they guarantee. `dafny verify dfyconfig.toml` checks everything.

| files | part of the system |
|---|---|
| `RpcRateLimiter.dfy`, `SharedRpcRateLimiter.dfy`, `RpcFleet.dfy` | the RPC rate limiter the services share through Redis: its script, the back-off loop, any number of interleaved calls |
| `JobLocks.dfy` | the distributed locks of the job workers, one SQL statement per step |
| `JobTables.dfy`, `JobStore.dfy` | jobs, attempts and dead letters: the operations as functions on the tables, and the service methods over live tables |
| `JobQueries.dfy`, `JobPages.dfy`, `JobStats.dfy` | list queries assembled as SQL text, pages fetched by separate queries, statistics |
| `JsonViewer.dfy`, `JsonViewerLines.dfy`, `JsonViewerTokens.dfy` | the JSON syntax highlighter and its lines |
| `Json.dfy`, `JsonText.dfy` | JSON values and `JSON.stringify(value, null, 2)`; JSON texts with any white space and escapes |
| `EventBus.dfy` | dual writes to Redis streams and Kafka topics |
| `Scrubber.dfy` | redaction of sensitive fields |
| `Cidr.dfy` | the IPv4/CIDR recogniser |
| `SeededRandom.dfy` | the generator of the mock analytics data |
| `Text.dfy` | splitting, searching and decimal numbers, used by the others |

State that the services change in place is a class whose methods are proved to act as a specification
function (`Script`, `Exec`, `Apply`, `Settle`); runs are sequences of steps of that function, and the
main theorems are about every run.

Assumptions, each stated as a predicate where it is used:

- Rate limiter: callers share Redis's clock, a call reaches Redis at most 1001 ms after its caller read it,
  and members are fresh. Each is shown to be exactly what is needed: `FlightExact` for the time in flight,
  `DecisionExact` for repeated members, and `WindowExact` for calls that come `d` ms late, under which
  windows of up to `1000 - d` ms are safe.
- Locks: the database clock never runs backwards; workers have distinct ids (`SharedIdReleases` shows why).
- Event bus: a rejected write has appended nothing; no stream has the name of a member that every
  JavaScript object inherits, such as `constructor`, for which the lookup of its topic would find that member.
- CIDR: `Number` reads a run of digits as its decimal value.

Where comments or tests say something else, the models follow the code:

- The limiter's comment gives waits of 50, 100 and 200 ms; the code waits 100, 200, then 333 ms. The
  fair share per service described there is not in the code.
- `job-orchestrator.service.spec.ts` is written against an earlier service that checked status
  transitions; `updateJobStatus`, `retryJob` and `moveToDeadLetter` check none.
- The viewer's comment promises muted punctuation; the code wraps no punctuation.
- `publish` is documented to write to both transports; with Kafka unreachable and Redis off or failing,
  an event is lost and `publish` still resolves (`LostSilently` says exactly when).
- `isValidIpOrCidr` accepts `1.2.3.4/`, because `Number("")` is 0 (`EmptyPrefixAccepted`; `GrammarExact` says
  exactly which texts it accepts outside the grammar).
- A client or project id of 0 is read back as null, so a retried job does not keep it (`ZeroIdLost`).
- Lists are ordered by creation time alone, so pages fetched one by one can repeat and miss rows that tie
  across a page end (`PagesExact` says exactly when).
- The highlighter colours a key together with its colon and the white space between; a JSON text with a
  line end there gets a span over two lines (`LinesOfText`). The viewer never prints such a text.

## Model

| member | source | states |
|---|---|---|
| RpcRateLimiter.ScriptRefinesLatest | packages/config/src/rpc-rate-limiter.ts:33-50 | For every run of prompt calls with fresh members, even if they reach Redis up to a second out of the order of their clock readings, the script on the pruned, expiring set answers and records as a limiter that forgets nothing and counts back from the latest reading so far |
| RpcRateLimiter.ScriptRefinesNaive | packages/config/src/rpc-rate-limiter.ts:33-50 | When no call comes late, it answers and records as the limiter that counts all past grants in (now-1000, now] |
| RpcRateLimiter.KeptIsWindow | packages/config/src/rpc-rate-limiter.ts:40-41 | What the script counts, after expiry and pruning, is exactly the members of the grants less than a second older than the latest reading |
| RpcRateLimiter.WindowSafety | packages/config/src/rpc-rate-limiter.ts:40-49 | With calls at most d ms late, no window of 1000-d ms holds more grants than the largest limit in force for a grant in it, even if limits change between calls |
| RpcRateLimiter.SecondsSafety | packages/config/src/rpc-rate-limiter.ts:40-49 | Any k such windows in a row hold at most k times that limit; with d = 0, any k consecutive seconds |
| RpcRateLimiter.WindowExact | packages/config/src/rpc-rate-limiter.ts:40-49 | With calls up to d ms late, windows of w ms are safe on every run if and only if w is at most 1000-d |
| RpcRateLimiter.LateCallBreaksWindow | packages/config/src/rpc-rate-limiter.ts:87-89 | For every d below 1000 and every longer window there is a run d ms late with three grants in it under a limit of two |
| RpcRateLimiter.DecisionExact | packages/config/src/rpc-rate-limiter.ts:41-47 | On every timely run, whatever members repeat, the script decides the next call under every limit as the unforgetting limiter if and only if the grants it has to count have different members |
| RpcRateLimiter.RepeatedMemberBreaksWindow | packages/config/src/rpc-rate-limiter.ts:47-89 | A run in which a repeated member, whose insert adds no row, lets three grants into a second under a limit of two |
| RpcRateLimiter.FlightExact | packages/config/src/rpc-rate-limiter.ts:47-48 | One-second windows are safe on every ordered run with fresh members if and only if calls reach Redis within 1001 ms, so the 2 s expiry covers exactly that |
| RpcRateLimiter.SlowCallBreaksWindow | packages/config/src/rpc-rate-limiter.ts:47-48 | For every longer flight time there is a run in which the key expires under a live grant: two grants in a second, limit one |
| SharedRpcRateLimiter.MaxCallsExact | packages/config/src/rpc-rate-limiter.ts:85-109 | The closed form of how many script calls a wait allows, and that their sleeps overshoot it by less than 333 ms |
| SharedRpcRateLimiter.WaitTimes | packages/config/src/rpc-rate-limiter.ts:105-107 | The waits are 100, 200, then always 333 ms |
| SharedRpcRateLimiter.DefaultWait | packages/config/src/rpc-rate-limiter.ts:74-109 | The default wait of 10 s ends after 32 refused calls and 10.29 s of sleep |
| SharedRpcRateLimiter.Redis.Eval | packages/config/src/rpc-rate-limiter.ts:33-50 | For a reading taken at any earlier time, the four Redis commands in order leave the set, expiry and answer of the script function |
| SharedRpcRateLimiter.Redis.SeedLimit | packages/config/src/rpc-rate-limiter.ts:118-123 | The stored text reads back through `parseInt` as the whole part of the limit that was seeded |
| SharedRpcRateLimiter.Limiter.Acquire | packages/config/src/rpc-rate-limiter.ts:74-113 | Among any calls of other services and with any delays on the way: all its script calls carry the limit that the stored text parses to on entry, or the service's default when nothing is stored; at most `MaxCalls` of them, at most one granted and then the last; the time is exactly the sleeps and delays; a timeout waited the full time and ends within 333 ms more, plus the delays of its last pass |
| SharedRpcRateLimiter.Limiter.SeedAndAcquire | packages/config/src/rpc-rate-limiter.ts:78-123 | A limit seeded before is the one every script call of the next `acquire` is made under, whatever the default |
| RpcFleet.Accounting | packages/config/src/rpc-rate-limiter.ts:74-113 | Over every interleaving of the steps of any calls, returns equal recorded grants plus timeouts, but for grants whose answer is under way; each timeout waited its full time, each call made a bounded number of script calls |
| RpcFleet.ScriptCallsCarryLimit | packages/config/src/rpc-rate-limiter.ts:78-99 | In every interleaving, every script call of a call carries the limit last seeded before that call began, or its service's default, whatever is seeded later |
| RpcFleet.FleetSafety | packages/config/src/rpc-rate-limiter.ts:33-123 | In every reachable state, with script calls up to d < 1000 ms on their way, the answers are the unforgetting limiter's and k windows of 1000-d ms hold at most k times the largest limit, also across `seedLimit` |
| JobLocks.RowHeld | packages/job-client/src/job-dedup.service.ts:16-63 | Over every interleaving of statements, a lock row stays as inserted until its holder releases it or the database clock passes its expiry |
| JobLocks.MutualExclusion | packages/job-client/src/job-dedup.service.ts:16-63 | A second successful `acquireLock` on a key comes only after the first holder's release or the first lock's expiry |
| JobLocks.OneHolder | packages/job-client/src/job-dedup.service.ts:16-63 | At any moment at most one acquisition of a key is unexpired and unreleased |
| JobLocks.LateRelease | packages/job-client/src/job-dedup.service.ts:57-62 | A release of a held key changes the table, and ends the hold, exactly when it carries the holder's id |
| JobLocks.RowsAreAcquired | packages/job-client/src/job-dedup.service.ts:32-36 | Every row is that of an acquisition nobody released since |
| JobLocks.AcquireExact | packages/job-client/src/job-dedup.service.ts:24-39 | Run without interruption, `acquireLock` returns true exactly when no acquisition of the key is still good |
| JobLocks.SharedIdReleases | packages/job-client/src/job-dedup.service.ts:57-61 | With a shared worker id a late release does remove the later lock |
| JobLocks.Locks.AcquireLock | packages/job-client/src/job-dedup.service.ts:16-52 | The DELETE and the INSERT with any statements between them; the answer is whether the key was free at the INSERT, and then the row is the caller's; uninterrupted, it succeeds exactly over a free key or an expired row |
| JobLocks.Locks.PurgeExpiredLocks | packages/job-client/src/job-dedup.service.ts:82-90 | Exactly the rows whose expiry lies before the database clock go, the others stay as they are, and the number reported is that of the rows removed |
| JobTables.LineageConserved | packages/job-client/src/job-orchestrator.service.ts:184-205 | In every run a retried or reprocessed job has a larger id than its parent, so the walk to the root ends, and carries the root's whole work; unchanged exactly when the root has no client or project id 0 |
| JobTables.ZeroIdLost | packages/job-client/src/job-orchestrator.service.ts:184-251 | A run that reaches that case: a retried job of client 0 has no client |
| JobTables.DerivedAreChildren | packages/job-client/src/job-monitor.service.ts:250-283 | Every job made by retry or reprocess points to an existing earlier parent whose work it repeats, through the dead-letter copy or directly |
| JobTables.AlwaysRepeat | packages/job-client/src/job-orchestrator.service.ts:152-174 | Every dead-letter entry always repeats uid, queue, type, client, project and payload of its original job |
| JobTables.ReviewedForever | packages/job-client/src/job-monitor.service.ts:245-333 | An entry that has left `pending_review` never changes again |
| JobTables.DecidedForever | packages/job-client/src/job-monitor.service.ts:245-333 | A discard or reprocessing that once succeeded stands at every later point of the run with its admin, notes or new job, and no second decision about the entry succeeds |
| JobTables.ReprocessedOnce | packages/job-client/src/job-monitor.service.ts:245-291 | Reprocessed entries and jobs made by reprocessing correspond one to one, each job's parent being the entry's original job; their numbers are equal |
| JobTables.AlwaysNumbered | database/016-create-cvh-jobs.sql:10-38 | Ids count up and uids stay unique in every run |
| JobTables.CreatedOnce | packages/job-client/src/job-orchestrator.service.ts:66-76 | Creating again under a uid, at any later time and with any parameters, returns the first job and changes nothing |
| JobTables.ErrorChangesNothing | packages/job-client/src/job-monitor.service.ts:242-327 | An operation that throws leaves all tables as they were |
| JobTables.AlwaysStamped | packages/job-client/src/job-orchestrator.service.ts:86-104 | A processing, completed or failed job has that status's timestamp, in every run |
| JobTables.DeadJobsHaveEntries | packages/job-client/src/job-orchestrator.service.ts:81-179 | Throughout a run every dead-letter job has an entry with its uid and payload exactly when the status is set directly only for jobs that `moveToDeadLetter` moved before |
| JobTables.DirectDeadLetter | packages/job-client/src/job-orchestrator.service.ts:81-114 | Set directly for a job never moved, the status comes without an entry |
| JobTables.AttemptCounts | packages/job-client/src/job-orchestrator.service.ts:119-147 | `attempt_count` is the number of attempt rows throughout a run exactly when every attempt carries the next number from one |
| JobStore.AssembleUpdate | packages/job-client/src/job-orchestrator.service.ts:86-106 | The pushed SET clauses and values, bound by position, give the updated row |
| JobStore.JobStore.UpdateJobStatus | packages/job-client/src/job-orchestrator.service.ts:81-114 | The assembled UPDATE sets the status, `updated_at`, the status's own timestamp and the result if there is one, and nothing else; a missing job is left alone |
| JobStore.JobStore.CreateJob | packages/job-client/src/job-orchestrator.service.ts:23-61 | A new pending row with every parameter in its column and the defaults 3, exponential, 1000 and 30000 for absent ones, unless the uid is taken |
| JobStore.JobStore.CreateJobIfNotExists | packages/job-client/src/job-orchestrator.service.ts:66-76 | Returns the job with the uid and changes nothing if there is one, else creates it; never fails |
| JobStore.JobStore.RecordAttempt | packages/job-client/src/job-orchestrator.service.ts:119-147 | The whole attempt row and the count, with `updated_at` when the count changes, or nothing for a missing job |
| JobStore.JobStore.MoveToDeadLetter | packages/job-client/src/job-orchestrator.service.ts:152-179 | An entry awaiting review with the job's columns, its attempt count and the error, and then the status |
| JobStore.JobStore.RetryJob | packages/job-client/src/job-orchestrator.service.ts:184-205 | A new pending job with the original's work and the original as parent |
| JobStore.JobStore.CancelJob | packages/job-client/src/job-orchestrator.service.ts:210-219 | Exactly pending and queued jobs become canceled; any other is an error and no change |
| JobStore.JobStore.ReprocessDeadLetter | packages/job-client/src/job-monitor.service.ts:233-305 | Only for entries awaiting review: a new pending job from the entry's columns and the original's settings, or the defaults without one, and the entry marked with job, admin and time; else an error and no change |
| JobStore.JobStore.DiscardDeadLetter | packages/job-client/src/job-monitor.service.ts:310-340 | Only for entries awaiting review: status `discarded` with admin and notes, every other row and column as before; else an error and no change |
| JobStore.JobStore.Serve | packages/job-client/src/job-orchestrator.service.ts:23-219 | Any run of calls on a fresh store ends in the tables of the specification, each call with its specified answer; timestamps go with statuses, entries repeat their jobs, every decision answered Ok stands in the rows, and no entry is decided twice |
| JobQueries.ClauseMeansConjunction | packages/job-client/src/job-monitor.service.ts:30-67 | The assembled WHERE text, parsed back word by word and bound in order, means the conjunction of the conditions with their own parameters |
| JobQueries.ListJobs | packages/job-client/src/job-monitor.service.ts:25-88 | For every table of job rows and all filters: listed and counted are exactly the jobs with the status, type, queue, client, project and chain asked for and created between the dates, in order; page and limit default to 1 and 20 and are reported; a negative limit or offset is an error |
| JobQueries.ListDeadLetterJobs | packages/job-client/src/job-monitor.service.ts:182-228 | The same for dead-letter entries with the status, type and client asked for |
| JobQueries.PagesExact | packages/job-client/src/job-monitor.service.ts:26-75 | Pages 1 to the last of an unchanged table, each fetched by its own query, show each matching row once, newest first, whatever orders the database picks, if and only if no two different matching rows of one creation time lie on different pages |
| JobQueries.AnyPageSize | packages/job-client/src/job-monitor.service.ts:26-75 | This holds for every page size exactly when different matching rows have different creation times |
| JobQueries.PageSizes | packages/job-client/src/job-monitor.service.ts:26-87 | No page exceeds the limit, and exactly the pages after ceil(total/limit) are empty |
| JobStats.GetStats | packages/job-client/src/job-monitor.service.ts:116-166 | For any tables: each reported count is the number of jobs in that status, the dead-letter count that of entries in `pending_review`, and the total is the number of jobs and equals the six counts plus the jobs in status `dead_letter` |
| JsonViewer.EscapeIsCharwise | apps/admin/components/json-viewer.tsx:25 | The three replacements, in their order, escape each character once |
| JsonViewer.BodyExact | apps/admin/components/json-viewer.tsx:29 | However the expression backtracks, a string match ends at a place exactly when that is where the scanner says |
| JsonViewer.HighlightPreservesText | apps/admin/components/json-viewer.tsx:23-53 | For every text the output is plain characters and balanced, non-nested spans, with no other angle bracket, and its text unescapes to the input |
| JsonViewerTokens.HighlightClassifies | apps/admin/components/json-viewer.tsx:28-50 | In every JSON text, with any white space and escapes (RFC 8259), the spans are exactly its keys, strings, numbers, booleans and nulls, in order, each in its colour, and the output is the HTML of these spans and the characters between them |
| JsonViewerTokens.LinesOfText | apps/admin/components/json-viewer.tsx:29-66 | For every JSON text the line counts agree, and each highlighted line is well formed by itself and shows the same line of the text if and only if no key stands on another line than its colon |
| JsonViewerTokens.KeyOverTwoLines | apps/admin/components/json-viewer.tsx:29 | A JSON text with a key and its colon on different lines has a broken highlighted line |
| JsonViewerTokens.PrintedValue | apps/admin/components/json-viewer.tsx:63-66 | For every value as the viewer prints it, the spans are its tokens in order and colour, and every highlighted line shows the same line of the text |
| JsonText.LayoutPrints | apps/admin/components/json-viewer.tsx:63 | What `JSON.stringify(value, null, 2)` prints is the JSON text of one particular layout |
| EventBus.LogsKeepOrder | packages/event-bus/src/event-bus.service.ts:32-72 | Whatever fails, each stream and each topic is a subsequence, in publish order, of the fields, or of the keys and data, of the calls meant for it |
| EventBus.ThrowsExactly | packages/event-bus/src/event-bus.service.ts:54-63 | `publish` throws exactly when a transport was tried and all tried rejected, and then neither log changed |
| EventBus.LostSilently | packages/event-bus/src/kafka-producer.service.ts:48-57 | Exactly when an event reaches neither log although `publish` does not throw |
| EventBus.FailureFreeAgree | packages/event-bus/src/event-bus.service.ts:32-54 | Without failures each log holds exactly what was meant for it, and a stream is what its topic holds of the calls on that stream |
| EventBus.FieldPairs | packages/event-bus/src/event-bus.service.ts:91-94 | The `XADD` arguments are each name followed by its text, all of them in order |
| EventBus.TopicsAreMapped | packages/event-bus/src/topics.ts:28-46 | The topic of each of the fourteen streams, and none for any other |
| EventBus.KafkaProducer.Publish | packages/event-bus/src/kafka-producer.service.ts:43-71 | Lazy reconnect: skip and resolve, reject, or append, and the `connected` flag after |
| EventBus.EventBusService.Publish | packages/event-bus/src/event-bus.service.ts:32-96 | When Redis takes the entry the stream gains every name and text of the data in order; when Kafka is reached and takes the message, the topic of the stream gains exactly the key and the data; nothing else changes; it throws exactly when something was tried and all of it rejected |
| EventBus.EventBusService.Serve | packages/event-bus/src/event-bus.service.ts:32-96 | Any run of awaited publishes on a fresh service ends in the specified logs, each keeping its events in publish order, and each call throws exactly as specified |
| Scrubber.HarmlessPaths | packages/posthog/src/posthog.service.ts:20-40 | Along any path without a sensitive key, scrubbing reaches the same places and finds the scrubbed original there |
| Scrubber.SensitivePaths | packages/posthog/src/posthog.service.ts:29-34 | At any depth a sensitive key holds only the marker, and nothing lies below it |
| Scrubber.ShapeAndLeavesStay | packages/posthog/src/posthog.service.ts:20-40 | Outside redacted subtrees key sets, array lengths and leaves are unchanged |
| Scrubber.ScrubTwice | packages/posthog/src/posthog.service.ts:20-40 | A second scrub changes nothing |
| Scrubber.RedactedExactly | packages/posthog/src/posthog.service.ts:20-40 | A field is replaced by the marker if and only if one of the fifteen names stands somewhere in its key in some capitalisation; every other field and every item holds its own scrubbed value |
| Scrubber.SensitiveExact | packages/posthog/src/posthog.service.ts:29-33 | The lower-casing search finds a key sensitive exactly when a name is spelled in it, letter by letter |
| Scrubber.DenotesOne | packages/posthog/src/posthog.service.ts:20-40 | A value over the heap is one tree only, so the result of the routine is determined |
| Scrubber.ScrubSensitiveFields | packages/posthog/src/posthog.service.ts:20-40 | Over heap objects: the result is the scrubbed tree in new objects, and no existing object is written |
| Cidr.RecogniserExact | apps/client/lib/cidr.ts:6-21 | For every text: accepted are four octets, and four octets with a suffix that `Number` takes for an integer from 0 to 32 |
| Text.WorthByPlace | apps/client/lib/cidr.ts:11-17 | The number of a digit run is positional: each digit times the power of ten of its place |
| Cidr.GrammarExact | apps/client/lib/cidr.ts:6-21 | Everything in the grammar is accepted, and acceptance of a text differs from the grammar exactly when it is an address with a suffix that is no digit run but that `Number` takes for an integer from 0 to 32 |
| Cidr.DigitPrefixesExact | apps/client/lib/cidr.ts:6-21 | When the part after a slash is a digit run, acceptance is exactly the address and prefix grammar (prefix notation of section 3.1 of RFC 4632) |
| Cidr.PrintedExact | apps/client/lib/cidr.ts:6-21 | A printed address/prefix pair is accepted exactly when every number is in range |
| Cidr.EmptyPrefixAccepted | apps/client/lib/cidr.ts:10-12 | A slash with nothing after it is accepted |
| SeededRandom.StepInRange | apps/admin/lib/mock-data.ts:660-666 | In range, products are below 2^53, the state stays in range, and the inverse multiplier 1407677000 undoes the step |
| SeededRandom.StepBijective | apps/admin/lib/mock-data.ts:663 | Each state in range is the step of exactly one state in range, given by the inverse multiplier |
| SeededRandom.OrbitInRange | apps/admin/lib/mock-data.ts:660-666 | From a seed in range every state is in range, never 0 |
| SeededRandom.OrbitAvoidsZero | apps/admin/lib/mock-data.ts:660-666 | For every whole seed the orbit avoids 0 exactly when the modulus does not divide the seed, and is in range exactly when the seed is positive as well |
| SeededRandom.OrbitClosed | apps/admin/lib/mock-data.ts:660-666 | From a seed in range, the state after n calls is the seed times 16807^n modulo 2^31 - 1 |
| SeededRandom.Generator.Draw | apps/admin/lib/mock-data.ts:660-666 | Any number of calls gives the results of these states, each in [0, 1) |

## Left out

- RpcFleet.FleetSafety: callers and Redis share one clock; clocks that differ are not modelled.
- SharedRpcRateLimiter.Redis.SeedLimit: limits between -1 and 0, limits that print with an exponent, and text in the limit key that no service wrote are not modelled.
- SeededRandom.OrbitAvoidsZero: the first product is exact in a double only for seeds up to 2^53 / 16807 in size; larger ones are treated as exact integers.
- Scrubber.ScrubSensitiveFields: JSON trees only; dates, maps and other objects are not part of this model.
- Cidr.DigitPrefixesExact: suffixes other than digit runs are left to what `Number` makes of them, as `RecogniserExact` states.
- JsonViewerTokens.HighlightClassifies: text is a sequence of Unicode scalar values; escapes of lone surrogates are covered, bare ones, which `JSON.stringify` never prints, are not.
- JsonViewerTokens.PrintedValue: strings of values hold no lone surrogates.
- JobQueries.ListJobs: the table is given in the order the database returns it, and dates are numbers; what number or date a text counts as is a parameter, and texts compare exactly, not by collation.
- JobStats.GetStats: the average duration, stuck jobs and the top-20 groups by type and queue.
- JobTables.CreatedOnce: methods are atomic, so two concurrent creations or reprocessings are not modelled; uids compare exactly, where the column's collation ignores case.
- JobTables.ErrorChangesNothing: no row changes; that InnoDB uses up an auto-increment id when the unique key rejects an insert is not modelled.
- EventBus.EventBusService.Publish: streams named like an inherited object member are not part of this model.
- Payloads and results are kept as their JSON text; parsing and printing them on the way through the tables is not modelled.
- `register` of the rate limiter, `isJobActive`, `getJobDetail`, logging, and the timestamp and compression of Kafka messages.
- User interface, API clients, authentication, Kafka consumers, BullMQ and metrics: wiring around services and libraries.
- Contracts, indexer, key vault and sweep services.
