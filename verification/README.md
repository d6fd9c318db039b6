# LightTrack: the mechanisms that carry a guarantee

LightTrack records LLM calls, keeps budgets on them and runs relayed work on devices. Most of it is
plumbing; a dozen small stateful mechanisms carry promises. This project models those in Dafny and
proves the promises over every input, every run or every interleaving. `dafny verify dfyconfig.toml`
checks it.

| modules | what they model |
|---|---|
| `Json` | JSON texts (RFC 8259): the encoders of Python and JavaScript, and a full parser |
| `SpanLog`, `Journal`, `PythonJournal`, `TypeScriptJournal` | the crash-surviving span journal: its lines and readers, its runs, and the two clients' objects over a file that can fail at any character |
| `Utf8`, `Recovery` | strict UTF-8 (RFC 3629), and the sweep that recovers abandoned journals, torn at any byte |
| `SeenWebhooks`, `WebhookProtocol` | the memory of webhook deliveries, and requests sharing it and the store, interleaved in every way |
| `KeyTouch` | the debounce of an API key's last-used stamp |
| `Lease`, `DeviceRun` | what a lease answer means, and the worker, heartbeat and publisher of one fenced run |
| `Progress` | the publisher's throttle and loop |
| `ShedLottery`, `ShedPorts`, `Admission` | the 64-bit shed lottery and the clients' ports of it, and the pre-spend cache against its whole history |
| `Ingest`, `BatchIngest` | the store's check-and-insert, the single-event door, and the batch door |
| `TraceContext` | traces, spans and the ownership of span ids |
| `CallLog`, `CallJournal`, `CallCoverage` | the two together with the client's queue: what a crash leaves of an instrumented program, in the journal and at the server |
| `Template` | the prompt and environment placeholder scanners |
| `SendQueue`, `Diagnostics`, `Scrub` | the bounded client queue, the rate-limited warner, the scrubber and its guard |
| `Wrappers`, `RustText` | `Option`, and the string operations of Rust's standard library |

Files, clocks, the network, the store's transaction, the connector and the cloud appear as outcomes that
may be anything: parameters of a step, or a choice inside a method. Objects that the clients and the server
update in place are classes; protocols between threads or requests are transition systems whose steps are
the code's own atomic sections.

## Where the code and its words differ

The model follows the code.

- A resend of a stored event is said to be answered without running the limits again
  (`crates/api/src/events.rs:299-300`). The store evaluates the limits first
  (`crates/store/src/sqlite/events.rs:135-146`), so a replay at the cap is rejected.
  `Ingest.ReplayAcknowledged` gives the exact condition.
- The batch door is said to return the single door's codes (`crates/api/src/events_batch.rs:38-41`). A store
  that does not support an operation reads as `unsupported` at the single door and as `internal` in a batch:
  `BatchIngest.InBatch`.
- A webhook's delivery key does not include the project, so a 200 covers the delivery and not necessarily the
  project it was sent for. `WebhookProtocol.AcknowledgedOwnRecords` gives the condition, and
  `WebhookProtocol.SharedKeyMisses` a run for every pair of projects that breaks it.
- The three admission clients are said to give the same verdicts. They do, except for an empty name, which Rust looks
  up and the others ignore; and their scope keys collide for a kind that contains `=`:
  `Admission.ClientsAgree`, `Admission.EmptyNameDiffers`, `Admission.ScopeKeyIsName`, `Admission.OddKindLeaks`.
- From a status list without any ratio the Rust client builds no view where the others build one without a
  ratio, and an empty scope kind counts as none in TypeScript alone: `Admission.ViewFromStatuses`.
- Two calls have one span id when a caller gives a span an id that is in use, be it of the caller's making or one
  that another span yielded, and parents can then form a cycle. `TraceContext.SpanIdsDistinct` and
  `TraceContext.ParentCycles` give the exact conditions on a run, and `TraceContext.GivenApartIsForest` one on the
  program that keeps both away.
- An instrumented call is meant to leave a trace wherever the process dies
  (`clients/python/lighttrack/instrument.py:154-158`). Its breadcrumb is retired once its event is recorded, and
  recording only puts the event into a bounded queue in memory (`clients/python/lighttrack/client.py:576-590`). So a
  call is lost when the process dies after that and before the event is posted, when the queue is full or the post
  fails; a call that returned also between retiring the one and recording the other
  (`clients/python/lighttrack/instrument.py:244-246`). And a call whose event cannot be built, as when the provider's
  token counts are not numbers (`clients/python/lighttrack/client.py:84`), is lost without any crash, since that error
  is swallowed (`clients/python/lighttrack/instrument.py:191-192`) and the breadcrumb retired all the same.
  `CallCoverage.CrashCoverage` is the exact condition for every program, every interleaving with the worker and every
  point.
- The recovery sweep is said never to raise (`clients/python/lighttrack/journal.py:173`). A line of the TypeScript
  client torn inside a character does not decode, a record whose key is a list or an object cannot be put into a
  dictionary, and neither error is among those the sweep catches; the client then sends nothing, and the files already
  swept are gone. `Recovery.SweepMeaning` and `Recovery.LostIffBeforeUnreadable` say exactly when, and
  `Recovery.TornBytesRead` when a client's own file is one of them.

## Model

| member | source | states |
|---|---|---|
| Json.LoadsEncode | clients/python/lighttrack/journal.py:125-125 | what either encoder writes for any well-formed value, the parser reads back as that value |
| Json.ValueRoundTrip | clients/python/lighttrack/journal.py:224-224 | the same for a value inside a longer text: exactly its own characters are consumed |
| Json.ProperPrefixUnreadable | clients/python/lighttrack/journal.py:225-228 | no proper prefix of an object text is itself a JSON text, whoever wrote it |
| Json.ReadValueExtends | clients/python/lighttrack/journal.py:223-228 | a value that ends before its text does, or is an object, is read the same whatever text follows |
| Json.TextRoundTrip | clients/python/lighttrack/journal.py:125-125 | any string, escaped the way of either client, reads back with the rest of the text untouched |
| Json.DecimalInjective | clients/python/lighttrack/journal.py:119-123 | two different keys are never written alike |
| Json.DecimalReads | clients/python/lighttrack/journal.py:118-123 | a key's digits read back as the key |
| Json.KnownValues | clients/python/lighttrack/journal.py:125-125 | how each encoder spells null, true, false, and a list and an object of two |
| Json.KnownEscapes | clients/python/lighttrack/journal.py:125-125 | the characters with an escape of their own, spelled out |
| Json.KnownWide | clients/typescript/src/journal.ts:127-127 | a character outside ASCII, and one outside the basic plane: code units in Python, itself in TypeScript |
| Json.LookupPut | clients/python/lighttrack/journal.py:121-124 | setting a key changes that key's value and no other |
| Json.LookupIsField | crates/agent/src/actions.rs:218-220 | with distinct keys, looking a key up finds its field and no other |
| SpanLog.ReadUnsettled | clients/python/lighttrack/journal.py:211-235 | the loop over lines and a dictionary returns the open records of the text, oldest first, for both clients' readers; Python's raises iff some line is a record under a key that is a list or an object |
| SpanLog.KnownKey | clients/python/lighttrack/journal.py:231-233 | a key already open keeps its place and takes the new record; closing it leaves the others where they are |
| SpanLog.NewKey | clients/python/lighttrack/journal.py:231-233 | a new key goes to the end, and closing one that is not open changes nothing |
| SpanLog.SameKey | clients/python/lighttrack/journal.py:231-233 | which two records are of one call: a missing key and a null one are the same to Python alone |
| SpanLog.StripMeaning | clients/python/lighttrack/journal.py:219-221 | stripping takes blanks off both ends, all of them and nothing else |
| SpanLog.ClosingLine | clients/typescript/src/journal.ts:136-136 | the closing line of each client, spelled out |
| SpanLog.WholeLineReads | clients/python/lighttrack/journal.py:219-234 | a line either client writes is applied by either client's reader as exactly its record |
| SpanLog.TornLineSkipped | clients/python/lighttrack/journal.py:225-228 | a line of either client cut anywhere before its closing brace changes nothing for either reader |
| SpanLog.BodyUnsettled | clients/python/lighttrack/journal.py:211-235 | either reader finds in a file of either client's valid entries exactly the calls opened and not closed, in order |
| SpanLog.BodyReads | clients/typescript/src/journal.ts:248-266 | reading a file and more text is reading the more from the open calls of the file |
| SpanLog.TornBodyRaisesNot | clients/python/lighttrack/journal.py:218-234 | no reader raises on the text either client wrote, cut at any character of its last line |
| SpanLog.TornBodyUnsettled | clients/python/lighttrack/journal.py:218-235 | for a file cut at any character of its last line: the calls before that line until its closing brace is written, and after it from then on |
| Journal.BetweenOperations | clients/python/lighttrack/journal.py:109-153 | after every run of begin and settle the file yields exactly the calls in flight to either client's reader, and with none in flight it is empty, across the truncation |
| Journal.CrashConsistency | clients/python/lighttrack/journal.py:109-153 | a crash after any character of any operation's line leaves either reader the calls in flight before it or after it, and says which |
| Journal.CallsAreInFlight | clients/python/lighttrack/journal.py:119-145 | the calls of a run are those some begin opened and no later settle closed |
| Journal.CallsTell | clients/typescript/src/journal.ts:123-129 | the records of a run are, in order, those of the operations that opened a call nothing settled since, each marked as an opening, with its key, the caller's time or the time it was written, and every other field as the caller gave it |
| Journal.FileTells | clients/python/lighttrack/journal.py:109-153 | that is what either reader finds in the file between operations, and after a crash at any character of one |
| Journal.RunInvariant | clients/python/lighttrack/journal.py:109-153 | what every step keeps: open keys, key counter, file contents and their meaning agree |
| PythonJournal.SpanJournal.Begin | clients/python/lighttrack/journal.py:109-131 | with a working file, the next state of the run and the new key; with a failing one, no key and a file that yields the calls before or after; off or broken, nothing |
| PythonJournal.SpanJournal.BeginWorking | clients/python/lighttrack/journal.py:114-131 | the body of begin: open the handle, tag the record, write and flush, then count the key as open |
| PythonJournal.SpanJournal.Settle | clients/python/lighttrack/journal.py:133-153 | the same for settle; a missing key, a journal that is off or a broken one changes nothing |
| PythonJournal.SpanJournal.SettleWorking | clients/python/lighttrack/journal.py:138-153 | the body of settle, with the truncation that may itself fail |
| PythonJournal.SpanJournal.Write | clients/python/lighttrack/journal.py:125-126 | any part of the line may reach the file before the write fails; a reader then finds the calls before or after |
| PythonJournal.SpanJournal.Handle | clients/python/lighttrack/journal.py:199-208 | the first operation creates an empty file or breaks the journal |
| TypeScriptJournal.SpanJournal.Begin | clients/typescript/src/journal.ts:123-129 | while it works, the file followed by the waiting lines yields the calls in flight, each with all its caller said; if it breaks, what was on disk stays and a reader is at a point no earlier than it, exactly before or after the operation when nothing was waiting; the key is returned either way |
| TypeScriptJournal.SpanJournal.Settle | clients/typescript/src/journal.ts:133-140 | the same for settle |
| TypeScriptJournal.SpanJournal.SettleRecorded | clients/typescript/src/journal.ts:135-139 | the key is closed, the file is empty again once nothing is in flight, and if it breaks no record already durable is lost |
| TypeScriptJournal.SpanJournal.Write | clients/typescript/src/journal.ts:201-211 | a line waits while there is no file system, and otherwise follows the waiting ones into the file, behind what is there |
| TypeScriptJournal.SpanJournal.FlushPending | clients/typescript/src/journal.ts:213-219 | waiting lines reach the file in order, behind those already there; a failure part way leaves a point of the log no earlier than those |
| TypeScriptJournal.SpanJournal.Append | clients/typescript/src/journal.ts:221-235 | what was on disk stays; one more line after it, or any part of it, a broken journal and a reader just before or just after that line |
| TypeScriptJournal.SpanJournal.Truncate | clients/typescript/src/journal.ts:237-244 | the file goes back to empty only when no call is open |
| TypeScriptJournal.JoinedBody | clients/typescript/src/journal.ts:201-219 | the file followed by the waiting lines is the file of all the entries |
| TypeScriptJournal.TornIsAPoint | clients/typescript/src/journal.ts:221-235 | however much of the next line is on disk, a reader is at the point before it until its closing brace is there and at the point after it from then on |
| Utf8.CutDecodes | clients/python/lighttrack/journal.py:240-241 | a text cut at any byte decodes strictly iff the cut falls between two characters, and then to the characters before it |
| Utf8.CharsInMeaning | clients/python/lighttrack/journal.py:240-241 | which cuts those are |
| Utf8.KnownTexts | clients/python/lighttrack/journal.py:207-207 | an example of RFC 3629 (section 7) and a character outside the basic plane, byte by byte |
| Recovery.TornBytesRead | clients/python/lighttrack/journal.py:238-241 | a journal of either client cut at any byte of its last line: the calls before or after that line, or a raise, and exactly when each |
| Recovery.PythonFilesRead | clients/python/lighttrack/journal.py:125-125 | a file the Python client wrote never raises, wherever it is cut |
| Recovery.Recover | clients/python/lighttrack/journal.py:169-196 | the sweep over the directory, in which only file-system errors are caught |
| Recovery.SweepMeaning | clients/python/lighttrack/journal.py:183-196 | the sweep raises iff some abandoned file it can open does not decode or holds a record under a key that is a list or an object; otherwise it returns the open records of every such file in order, no others, and removes those it may |
| Recovery.LostIffBeforeUnreadable | clients/python/lighttrack/journal.py:189-195 | a file is removed with its records unsent iff it stands before the first whose reading raises |
| SeenWebhooks.SeenWebhooks.BeginKey | crates/api/src/idempotency.rs:91-114 | done, in flight or new as the key stands; a new claim survives its own eviction and evicts at most the oldest key |
| SeenWebhooks.SeenWebhooks.CommitKey | crates/api/src/idempotency.rs:66-70 | the key is no longer in flight and everything else is as it was |
| SeenWebhooks.SeenWebhooks.ForgetKey | crates/api/src/idempotency.rs:117-123 | the key is gone from the set, the in-flight set and the queue, nothing else is, and the queue keeps its order |
| SeenWebhooks.BeginFits | crates/api/src/idempotency.rs:91-108 | the memory stays well formed (queue without repeats, same elements as the set, in-flight keys among them, at most capacity), and what a new claim evicts is said exactly |
| SeenWebhooks.ForgetFits | crates/api/src/idempotency.rs:117-123 | forgetting keeps the memory well formed |
| SeenWebhooks.ApplyFits | crates/api/src/idempotency.rs:64-123 | every lock section keeps the memory well formed |
| SeenWebhooks.ClaimAges | crates/api/src/idempotency.rs:100-108 | each later claim moves a key one place towards eviction, and out when capacity claims are behind it |
| SeenWebhooks.RememberedUntil | crates/api/src/idempotency.rs:91-123 | a key nobody forgets is remembered while fewer than capacity claims are behind it, and is in flight exactly until it is committed |
| SeenWebhooks.RememberedExactly | crates/api/src/idempotency.rs:91-114 | with no forgets, a key is remembered throughout a run iff fewer than capacity claims come to be behind it |
| SeenWebhooks.ClaimLasts | crates/api/src/idempotency.rs:91-114 | from a new claim on: done once committed, until capacity later claims |
| WebhookProtocol.AcknowledgedIsStored | crates/api/src/billing.rs:86-141 | in every interleaving of requests, store failures, dropped handlers and evictions, any success status is 200 and means the request's own batch is stored or an attempt at the same delivery is |
| WebhookProtocol.AnswerTellsBatch | crates/api/src/billing.rs:45-141 | what each status says of the request's batch: none started, stored, or rolled back, and never one still running; a batch that rolled back is answered 409, 500 or 501 |
| WebhookProtocol.ClaimAnswers | crates/api/src/billing.rs:90-107 | at its look-up a request is told 200 iff the delivery is remembered as done, and then it is stored; 409 iff it is remembered as in flight, and then another request is at work on it; else it goes on to store |
| WebhookProtocol.JoinAnswers | crates/api/src/billing.rs:119-141 | whatever happens later, a batch that joined without an error can only be answered 200, and one with an error only with that error's status |
| WebhookProtocol.SeenIsHonest | crates/api/src/idempotency.rs:28-32 | a key reads as done only if it was stored, and as in flight only while some handler holds a claim on it |
| WebhookProtocol.NextKeeps | crates/api/src/billing.rs:93-141 | every step of every handler keeps the protocol's invariant, with two claims on one key coexisting |
| WebhookProtocol.AcknowledgedOwnRecords | crates/api/src/billing.rs:90-96 | if a delivery key always names the same records and project, any success means the request's own records are stored |
| WebhookProtocol.SharedKeyMisses | crates/api/src/billing.rs:90-96 | for any two different projects or contents under one delivery id there is a run that acknowledges the second without storing it |
| WebhookProtocol.DoneUntilEvicted | crates/api/src/idempotency.rs:82-123 | a done key on which nobody else holds a claim goes on reading as done until capacity claims are behind it, whatever the requests do |
| KeyTouch.KeyTouches.TouchDue | crates/api/src/idempotency.rs:161-171 | the answer and the new map; past the bound the map grows only when everything in it is recent |
| KeyTouch.SweepInvisible | crates/api/src/idempotency.rs:166-168 | sweeping never changes an answer, on a clock that does not go back |
| KeyTouch.TouchIsDebounce | crates/api/src/idempotency.rs:132-137 | over any run, a write is due iff no write for that id was due within the interval before |
| KeyTouch.WritesApart | crates/api/src/idempotency.rs:126-127 | two writes for one id are at least the interval apart |
| Lease.InterruptsOnlyOnEvidence | crates/agent/src/verdict.rs:44-86 | a run is interrupted iff the answer is a 409, a 404 or a 2xx whose typed body asks to cancel; a transport failure, another status or an unreadable body never decides |
| DeviceRun.DeliverySafety | crates/agent/src/run.rs:106-197 | over all interleavings: at most one delivery, at most one settlement, in that order; the cell is written at most once; a finished worker did exactly what it read calls for, case by case: lost nothing, cancelled its report, otherwise its report or the connector's refusal after the delivery, or its report alone without a connector |
| DeviceRun.StoredBeforeRead | crates/agent/src/run.rs:126-156 | an interruption stored before the worker looks is obeyed whatever follows: lost has no effects, cancelled settles once and never delivers |
| DeviceRun.SkippedDeliveryHasEvidence | crates/agent/src/run.rs:121-156 | a delivery that was due and did not happen had a last renewal that forbade it, after only harmless ones |
| DeviceRun.TelemetryInvisible | crates/agent/src/run.rs:158-175 | removing or changing all publisher steps and phases, or swapping held and unknown answers, leaves the cell, the worker and the effects as they were |
| DeviceRun.LateVerdictsIgnored | crates/agent/src/run.rs:177-189 | once the worker has looked, no other thread changes anything it does |
| DeviceRun.WorkerNeverWaits | crates/agent/src/progress.rs:117-123 | from any state the worker can finish by itself, within eight moves |
| DeviceRun.RunUnfenced | crates/agent/src/run.rs:96-104 | a run without a fence settles its report, after the delivery if there is a connector, whose refusal makes it a failure under the same identity |
| DeviceRun.RunKeeps | crates/agent/src/run.rs:106-197 | over every run: the effects match the worker's place, and what is stored matches the renewals |
| DeviceRun.DeliversIffNothingStored | crates/agent/src/run.rs:179-189 | a finished run with a connector delivered iff nothing was stored by the moment its worker looked, and then settled the result or the connector's failure |
| DeviceRun.SettlesWithoutConnector | crates/agent/src/run.rs:179-196 | a finished run without a connector settled its report and did nothing else, iff the lease was not found lost |
| DeviceRun.ProductIsExecuted | crates/agent/src/run.rs:174-189 | what a worker delivers and settles is what its first execution produced, and the connector's answer one it gave |
| DeviceRun.RenewsWhileExecuting | crates/agent/src/run.rs:126-156 | while the action executes the heartbeat goes on renewing until a renewal forbids the delivery |
| DeviceRun.PublishedWasSent | crates/agent/src/run.rs:158-175 | only phases the worker sent are shown, and a publish that fails shows nothing |
| Progress.Throttle.Due | crates/agent/src/progress.rs:145-153 | due iff nothing went out or the window has passed, and then recorded |
| Progress.WaitIsExact | crates/agent/src/progress.rs:155-162 | the wait is the least delay after which a line is due, and a whole window before the first line |
| Progress.Pump | crates/agent/src/progress.rs:169-218 | the loop publishes exactly the lines the schedule calls for, each with the latest phase, fingerprint and connector, and waits for each event as long as the throttle says |
| Progress.LinesApart | crates/agent/src/progress.rs:131-133 | any two lines are at least a window apart |
| Progress.EveryLineIsLatest | crates/agent/src/progress.rs:181-216 | every line shows the time and renewals of the event it went out at, the last phase received by then, the fingerprint of the last spawn and the connector of the last exit |
| Progress.TimeoutsPublish | crates/agent/src/progress.rs:191-193 | a timeout never fires in vain: it always refreshes the line |
| Progress.PublishesUnlessRecent | crates/agent/src/progress.rs:198-201 | an event publishes iff a phase is known and every earlier line is at least a window old |
| ShedLottery.AvalancheBijective | crates/core/src/limits/status.rs:35-39 | the finalizer is a bijection on 64-bit words, with its inverse written out |
| ShedLottery.StepInjective | crates/core/src/limits/status.rs:30-31 | one step is injective in the hash and in the byte |
| ShedLottery.HashInjectiveInState | crates/core/src/limits/status.rs:24-32 | over the same bytes, different states stay different |
| ShedLottery.OneByteChangesTheHash | crates/core/src/limits/status.rs:22-39 | two inputs that differ in exactly one byte never share the mixed hash |
| ShedLottery.Ticket | crates/core/src/limits/status.rs:40-42 | the ticket lies in [0, 1) |
| ShedLottery.KnownTickets | clients/contract/fixtures/limits.json:737-757 | two of the tickets every client is held to, computed |
| ShedPorts.PythonTicket | clients/python/lighttrack/admission.py:51-61 | the Python client's ticket is the server's, on every rule and event |
| ShedPorts.PythonMixed | clients/python/lighttrack/admission.py:51-60 | on unbounded integers masked after the products, the hash of the server |
| ShedPorts.TypeScriptTicket | clients/typescript/src/admission.ts:79-95 | the TypeScript client's ticket is the server's, on every rule and event |
| ShedPorts.TypeScriptMixed | clients/typescript/src/admission.ts:80-93 | on big integers masked everywhere, the hash of the server |
| Admission.AdmissionCache.Observe | clients/python/lighttrack/admission.py:109-132 | the cache is always what its history of observations and clears left |
| Admission.AdmissionCache.ObserveRust | clients/rust/src/admission.rs:147-174 | the same for the Rust client's code |
| Admission.AdmissionCache.ObserveTypeScript | clients/typescript/src/admission.ts:119-139 | the same for the TypeScript client's code |
| Admission.ReplaySummarizes | clients/rust/src/admission.rs:147-174 | after any history, each scope holds its last observation since the last clear and the deadline of its last wait still standing |
| Admission.VerdictFromHistory | clients/rust/src/admission.rs:186-229 | each of the five verdicts, iff a condition on the whole history; the seconds of a refusal are the exact ceiling |
| Admission.OtherScopesIgnored | clients/rust/src/admission.rs:182-191 | views scoped to another name or another kind never change a verdict, for every kind that does not look like a name's key |
| Admission.ScopeKeyIsName | clients/rust/src/admission.rs:114-119 | exactly which scopes share the key of a name |
| Admission.OddKindLeaks | clients/rust/src/admission.rs:114-119 | and every kind that does refuses calls of a name nobody spoke of |
| Admission.ClientsAgree | clients/typescript/src/admission.ts:153-182 | each client's own code gives the shared verdict, an empty name read as none by all but Rust; so they agree on every other name |
| Admission.EmptyNameDiffers | clients/python/lighttrack/admission.py:147-149 | on any history, an empty name divides Rust from the others iff the server has spoken of the empty name and that scope's verdict is not the project's |
| Admission.EmptyNameCapped | clients/python/lighttrack/admission.py:147-149 | as when only that scope was ever seen, at its cap |
| Admission.ViewFromStatuses | clients/rust/src/admission.rs:261-299 | the view of the first status with the greatest ratio and of the strongest shed; when there is none, per client |
| Ingest.ReplayAcknowledged | crates/api/src/events.rs:279-308 | a stored id sent again adds nothing; it is acknowledged with the stored cost iff the limits admit it and it is the same event, else rejected or a conflict |
| Ingest.KeptOutAnswered | crates/api/src/guards.rs:135-167 | an event that belongs to no project, whose policy cannot be read, whose project is disabled or that does not validate changes nothing and is answered with the code of the first of these |
| Ingest.FitAnswered | crates/api/src/events.rs:265-341 | any other event, case by case: failing store, limits, new id, stored id of the same or another event; the verdict of the limits is noted once |
| Ingest.RunAdds | crates/api/src/guards.rs:135-167 | over any run of the door the rows added are exactly the newly accepted events, in order: for a key of its own project whatever they name, else of the project named, or in dev mode the default for a blank one |
| Ingest.ReadBackLater | crates/api/src/events_batch.rs:245-266 | a replay check may read the store at any later time and get the same answer |
| Ingest.SinglesGrow | crates/store/src/sqlite/events.rs:143-146 | rows are only ever added, and ids stay distinct |
| BatchIngest.Server.InsertChecked | crates/store/src/sqlite/events.rs:120-147 | limits first, then the insert; a stored id is a conflict only once admitted |
| BatchIngest.Server.InsertAllChecked | crates/store/src/sqlite/mod.rs:359-420 | each attempt sees the rows of those before it; a failed transaction fails every attempt and leaves the rows |
| BatchIngest.Server.PostEvent | crates/api/src/events.rs:251-341 | the single door: outcome, rows and notices, error cases included; the only row it may add is the event's own, for the project it goes to, iff it is newly accepted |
| BatchIngest.Server.PostBatch | crates/api/src/events_batch.rs:92-320 | store, notices and every slot equal running the single door over the items in order, repeated ids included; the rows added are the newly accepted items', each for the project it goes to; a transaction that fails stores and accepts nothing; result i carries index i; the counts are of the results and add up; refusals change nothing |
| BatchIngest.Server.Prepare | crates/api/src/events_batch.rs:118-190 | unfit items answered in their slot, the fit ones in order with their indices |
| BatchIngest.Server.Scatter | crates/api/src/events_batch.rs:210-296 | every fit item's slot is filled with its own answer and no other slot is touched |
| BatchIngest.Server.Answer | crates/api/src/events_batch.rs:213-294 | the answer to one item from the store's result and a later read |
| BatchIngest.Server.Collect | crates/api/src/events_batch.rs:298-310 | with every slot filled, the results in order and their three counts, which add up |
| BatchIngest.SlotsAreSingles | crates/api/src/events_batch.rs:118-310 | the slots a batch fills are the single door's outcomes, in their places |
| BatchIngest.AnswerIsSingle | crates/api/src/events_batch.rs:210-266 | an answer read back from the whole batch is the single door's at its place |
| BatchIngest.SinglesRows | crates/api/src/events_batch.rs:192-204 | rows and notices come from the fit items alone, in order |
| BatchIngest.FitMeaning | crates/api/src/events_batch.rs:123-127 | the index list is increasing, holds exactly the fit items, and lines up with the insert set |
| BatchIngest.ResendAcknowledges | crates/api/src/events_batch.rs:241-244 | a whole batch sent again: what was accepted is acknowledged as a duplicate with the outcome it had, or rejected if the limits no longer admit it |
| BatchIngest.ResendAddsNothing | crates/api/src/events_batch.rs:29-31 | sending stored events again leaves the rows as they are, whatever the limits and the faults do |
| TraceContext.Tracer.Run | clients/python/lighttrack/instrument.py:72-112 | variables set on entry and reset on every way out, frames claimed in place: the run is `Exec`, and the context is given back |
| TraceContext.Tracer.SpanIds | clients/python/lighttrack/instrument.py:102-112 | the ownership rule for the next call's ids |
| TraceContext.Tracer.PushSpan | clients/python/lighttrack/instrument.py:90-94 | a new frame under the enclosing one, in the current trace or a new one |
| TraceContext.Tracer.SetTrace | clients/python/lighttrack/instrument.py:76-77 | a given or new trace with no frame |
| TraceContext.Tracer.BeginCall | clients/python/lighttrack/instrument.py:150-169 | a call's identity is decided when it starts |
| TraceContext.Tracer.RunCall | clients/python/lighttrack/instrument.py:231-247 | the call is settled and its event sent once if it can be built, however the call ends, recorded first if it raised and settled first if it returned |
| TraceContext.Tracer.Record | clients/python/lighttrack/instrument.py:172-192 | one event, or none when it cannot be built |
| TraceContext.SpanForest | clients/python/lighttrack/instrument.py:72-112 | for every nesting left in any way: the context is restored, each call sends one event if it can be built and none otherwise, a span has at most one owner and it is the first call in it, each parent is an older frame of the same trace |
| TraceContext.OwnershipRule | clients/python/lighttrack/instrument.py:86-112 | from any point, the first call of a new span is that span, with the id given or a new one, under the enclosing span; the next hangs under it with a new id; both are in the open trace |
| TraceContext.StandsAlone | clients/python/lighttrack/instrument.py:102-112 | a call outside any span has no parent, a new id, and the open trace or one of its own |
| TraceContext.CallsCarryTrace | clients/python/lighttrack/instrument.py:72-82 | every call inside a trace carries the id given, or one new id for all of them |
| TraceContext.SpanIdsDistinct | clients/python/lighttrack/instrument.py:86-112 | span ids are pairwise distinct, except exactly where a caller gives a span an id another span or call already has, of its own making or minted before, and a call starts in both |
| TraceContext.ParentCycles | clients/python/lighttrack/instrument.py:86-112 | the parents of a run have a cycle iff the first call of some span takes an id that the enclosing span is or already hangs below |
| TraceContext.GivenApartIsForest | clients/python/lighttrack/instrument.py:37-41 | every program that gives its spans no minted id and no name twice, so also one that gives none, has pairwise distinct span ids and no chain of parents that comes back to where it began |
| TraceContext.OwnIdCycles | clients/python/lighttrack/instrument.py:86-97 | from any point inside a span, giving its id to the next span makes the first call there its own parent |
| TraceContext.CrossedIdsCycle | clients/python/lighttrack/instrument.py:86-92 | any two ids given crosswise make two calls each other's parent |
| TraceContext.ExecKeeps | clients/python/lighttrack/instrument.py:72-112 | what every program keeps about context, frames, calls and events |
| CallCoverage.CrashCoverage | clients/python/lighttrack/client.py:576-606 | a process killed at any point of its program and its worker leaves, for every call it had started, the call's journal record or its event at the server, except iff the breadcrumb is retired and the event cannot be built, is not yet recorded, waits, is being posted, failed or was dropped; the record is there exactly until it is retired |
| CallCoverage.CoverageGap | clients/python/lighttrack/instrument.py:239-246 | the moment between retiring the one and recording the other is reached by every call that returns and by none that raises |
| CallCoverage.QueuedIsLost | clients/python/lighttrack/client.py:577-580 | no call of any program is safe before it is posted: with the worker held up, all of them can be lost |
| CallCoverage.SyncCoverage | clients/python/lighttrack/client.py:589-590 | a client that posts as it goes loses a call only between retiring and recording, to a failed post, or when its event cannot be built |
| CallCoverage.PlayKeeps | clients/python/lighttrack/client.py:576-606 | an event is in no place before it is recorded and in exactly one from then on: waiting, being posted, posted, failed or dropped |
| CallCoverage.Fates | clients/python/lighttrack/client.py:576-606 | posted iff a post of it ended well, failed iff one ended badly, dropped iff it found the bounded queue full |
| CallCoverage.NothingLeftBehind | clients/python/lighttrack/instrument.py:231-247 | a program that ran to its end, by return or exception, has left an empty journal file and recorded each call once iff its event could be built; once the worker is done every such event was posted, failed or was dropped, and none was dropped by an unbounded queue |
| CallLog.ExecLog | clients/python/lighttrack/instrument.py:239-246 | calls begin in order, and each is settled once and tried once to be recorded, side by side: recorded first if it raised, settled first if it returned; the attempt succeeds iff the event can be built |
| CallJournal.LogTracks | clients/python/lighttrack/instrument.py:162-169 | the journal's calls in flight are the calls begun and not settled, under the trace, span and parent ids decided at their start |
| CallJournal.JournalHas | clients/python/lighttrack/journal.py:211-235 | a reader of the file finds a record for a call, with its provider, model, operation, identity and time, iff it began and was not settled |
| Template.Render | crates/agent/src/actions.rs:186-208 | the scanner's result is the meaning of the parsed template: each placeholder resolved once, nothing rescanned |
| Template.ExpandEnv | crates/agent/src/actions.rs:231-247 | the same for environment references, with an error for one left open |
| Template.Resolve | crates/agent/src/actions.rs:210-227 | the loop over path segments finds the value at the path |
| Template.UnparseParse | crates/agent/src/actions.rs:186-208 | printing the pieces gives back the template |
| Template.ParseUnparse | crates/agent/src/actions.rs:186-208 | parsing what is printed gives back the pieces, for the lists templates parse into |
| Template.ParseCanonical | crates/agent/src/actions.rs:186-208 | every template parses into such a list |
| Template.FailsIff | crates/agent/src/actions.rs:197-204 | rendering fails iff some piece fails, with the error of the first |
| Template.OnePiece | crates/agent/src/actions.rs:186-247 | plain text stays; a prompt's placeholder is its trimmed token's value and an environment reference its untrimmed one's; a delimiter left open is text in a prompt and an error in the environment |
| Template.RenderDistributes | crates/agent/src/actions.rs:186-208 | rendering distributes over concatenation when the left part is closed and no delimiter straddles the join |
| Template.ParseJoin | crates/agent/src/actions.rs:186-208 | so does parsing, with the two meeting literals made one |
| Template.PathNamesPlace | crates/agent/src/actions.rs:215-225 | any list of keys without dots is reached by its dotted path, and the value shown is the one there |
| Template.EveryTokenIsAPath | crates/agent/src/actions.rs:215-225 | every token of that form spells exactly one such path, and names what is there |
| Template.WalkReaches | crates/agent/src/actions.rs:215-220 | walking a path reaches exactly the value its keys lead to, field by field |
| Template.ShownReads | crates/agent/src/actions.rs:221-224 | a text is shown as it is, anything else as JSON that reads back as it |
| Template.FixedTokens | crates/agent/src/actions.rs:210-216 | the task's id, action type and payload have their tokens, and every other token without the prefix names nothing |
| RustText.TrimMeaning | crates/agent/src/actions.rs:196-196 | trimming takes white space off both ends, all of it and nothing else |
| SendQueue.QueueConservation | clients/rust/src/lib.rs:121-155 | in every interleaving the posted events are a prefix of the accepted ones; at exit every accepted event was posted or is in the reported remainder |
| SendQueue.RunKeeps | clients/rust/src/lib.rs:128-155 | over every run: accepted is posted, then in hand, then queued, until something is abandoned |
| SendQueue.RefusedOnlyWhenFull | clients/rust/src/lib.rs:331-353 | of the sends to an open client, those that found fewer than a thousand waiting are the accepted ones, in order, and the others the dropped ones |
| SendQueue.GraceHonoured | clients/rust/src/lib.rs:128-141 | nothing is abandoned while the grace lasts |
| SendQueue.GraceEnds | clients/rust/src/lib.rs:128-141 | once the grace is over nothing more is posted but what was being sent, and the worker leaves at its next look at the clock, reporting what it held and all that waited |
| SendQueue.WorkerExits | clients/rust/src/lib.rs:546-556 | once the channel is closed the worker exits within three moves for each event left and one more |
| Diagnostics.Diagnostics.Warn | clients/python/lighttrack/diagnostics.py:52-71 | the object is always what its calls so far lead to: one line or one more held, for its kind alone |
| Diagnostics.Diagnostics.WarnRust | clients/rust/src/diagnostics.rs:85-123 | the same on a clock that does not go back |
| Diagnostics.Conservation | clients/python/lighttrack/diagnostics.py:52-71 | for each kind, calls are lines plus what the lines report plus what is held; over all, lines plus suppressed are the calls |
| Diagnostics.LineSays | clients/python/lighttrack/diagnostics.py:52-71 | a line has its call's kind, message and time, says how many of its kind were held back since the last one and starts that count again; the first of all has the hint; other calls write nothing |
| Diagnostics.SuppressedAccounted | clients/python/lighttrack/diagnostics.py:59-68 | over all kinds, every suppressed warning was reported or is still held |
| Diagnostics.WritesUnlessRecent | clients/rust/src/diagnostics.rs:94-106 | a call writes a line iff no line of its kind is younger than the cooldown |
| Diagnostics.LinesApart | clients/rust/src/diagnostics.rs:83-106 | two lines of one kind are at least the cooldown apart |
| Scrub.DoScrub | crates/anon/src/lib.rs:124-138 | the loop is the fold of the rules in order, with their total; rule by rule, every match in the text it is given is replaced by its placeholder and what lies between stays |
| Scrub.ScrubDetailed | crates/anon/src/stamp.rs:38-50 | the same text and total, with a breakdown |
| Scrub.ReplaceMeaning | crates/anon/src/lib.rs:124-138 | where everything stands after one rule: each stretch between two matches at its shifted place, the placeholder between neighbours, and nothing else |
| Scrub.ReplacedLength | crates/anon/src/lib.rs:124-138 | the text shrinks by its matches and grows by a placeholder for each |
| Scrub.ScrubbedThrough | crates/anon/src/lib.rs:124-138 | the same through all the rules, and the count of each is what it found |
| Scrub.BreakdownAddsUp | crates/anon/src/stamp.rs:26-33 | each entry is what its rules replaced, only those that fired appear, and they add up to the total |
| Scrub.PiiKinds | clients/rust/src/pii.rs:69-77 | the kinds with a matching rule, each once, the first being that of the first rule that matches |
| Scrub.GuardAgrees | clients/rust/src/pii.rs:69-77 | the first rule to match is the first to fire in the scrubber; none matches iff the scrubber redacts nothing |

## Left out

- `close` of the journals, the names and ages of files, and the TypeScript client's own sweep, whose decoder replaces bad bytes and which catches every error.
- SpanLog.ReadUnsettled: keys are compared as written, so 1, 1.0 and true, which a Python dictionary takes for one key and a JavaScript map for two, are three, and two equal lists, two keys of a JavaScript map, are one. The journals' own keys are whole numbers.
- Json.LoadsEncode: NaN, Infinity and lone surrogates, which Python's encoder writes if a caller's fields hold them and its parser reads, are not values of the model.
- Recovery.SweepMeaning: a line nested deeper than the interpreter's recursion limit, on which the reader also raises, and a whole number longer than its digit limit, which makes it skip the line.
- PythonJournal.SpanJournal.Begin: one operation at a time. The source reads its broken flag before it takes the lock and sets it after it has released it, so a second thread can still append after a torn line.
- PythonJournal.SpanJournal.Write: after a failed write the object is broken; a buffered remainder that a later `close` might still flush is not modelled.
- The record's field names, event bodies built from a recovered record, and the time stamp's value: any number.
- Lone counters of the store's usage cache, limit rules and revenue thresholds: the limit evaluation is any function of the rows, the event and the time.
- BatchIngest.Server.PostBatch: the proximity headers, the explanatory texts, the ids on invalid items, the shed flag and breach list on rejected ones, the creation of the dev default project and a panic of the store's thread after its commit are not modelled; other requests do not interleave between the batch's insert and its read-backs.
- BatchIngest.Server.PostEvent: validation, redaction and pricing of an event are given with the item; their only part here is that they keep or refuse it.
- WebhookProtocol.AcknowledgedIsStored: signature checks and the project look-up are one refusal step; what the batch insert does beyond being atomic is not modelled.
- Poisoned locks: each lock section runs.
- DeviceRun.DeliverySafety: panics of a thread are not modelled; the connector's own effects are one step with any result.
- The text of a progress line and its elapsed time; the model carries the facts it is rendered from.
- Admission.AdmissionCache.Observe: 64-bit overflow of a wait and floating point are not modelled: times are integers and ratios exact.
- Admission.ViewFromStatuses: a status's scope object has one entry, as the server writes it; a list that is not one yields no view in any client.
- Parsing of limit headers, the enforcing wrappers, the environment switches.
- TraceContext.Tracer.Run: one thread of control; concurrent calls that share a frame object, interrupts that land inside the client's own code, the patching of provider libraries and the TypeScript client's own rule are not modelled.
- CallCoverage.CrashCoverage: the journal works throughout, and a crash inside a line is `Journal.CrashConsistency`; an event counts as the server's once its post has come back without an error, only calls' events share the queue; and the journal's keys are taken to be the calls' numbers, though spans opened by hand write to the same journal under keys of their own.
- Template.Resolve: the payload keeps the key order it is given in.
- SendQueue.QueueConservation: a worker thread that could not be started drops silently and is not modelled; neither is what the worker learns from an answer.
- Scrub.DoScrub: the regular expressions are any matchers with ordered, disjoint, non-empty spans, so nothing is claimed of the concrete rule table; the rule fingerprint is left out.
- Forecasts, alerts, health pages, decision tables, key scopes, target vetting, capability lists, the command line, the Postgres and Firestore stores: straight-line or outside the mechanisms above.
