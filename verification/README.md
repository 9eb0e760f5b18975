# Verification of the security reporter's core

A Dafny model of the reconciler's concurrency and state protocols and of the parsers and encodings
around them, with proofs about every input, every run or every reachable state.
`dafny verify dfyconfig.toml` checks the whole project.

| file | what it models |
|---|---|
| `Breaker.dfy`, `CircuitBreaker.dfy` | the per-scanner circuit breaker: the state machine, its rate bound, and the object with its map of mutable circuits |
| `Retry.dfy`, `ScannerCalls.dfy` | one resilient scan (admission, attempts, backoff, report), and any number of them running concurrently |
| `Dispatch.dfy`, `Reconcile.dfy` | dispatch of one workload's scans under semaphore, wait group and gauge; namespaces with their own semaphore above it |
| `ConfigMapApi.dfy`, `ConfigMapStore.dfy`, `ConfigMapClient.dfy`, `Base64Url.dfy` | the versioned ConfigMap, concurrent clients request by request, the store's methods with their retry loops, and the data keys |
| `EntryCodec.dfy` | the stored entry's JSON, legacy and plain forms |
| `DedupeState.dfy`, `DedupeRuns.dfy`, `DedupeConcurrent.dfy`, `DedupeHandler.dfy` | the dedupe handler: phase by phase, over serialised runs, interleaved request by request, and as executed |
| `Fingerprint.dfy`, `Publisher.dfy` | the hash pre-image and the publish decision; the ranking of findings |
| `Clair.dfy`, `Dedupe.dfy`, `TrivyOperator.dfy` | report normalisation under arbitrary map order; deduplication by key; the report cache and scan |
| `ImageRef.dfy` | the image reference parser and printer, and the resolver's canonical form |
| `Limiter.dfy`, `Config.dfy` | the adaptive limiter; configuration defaults and validation, tied to what the other parts need |
| `Wrappers.dfy`, `Clock.dfy`, `Text.dfy`, `Orders.dfy`, `Counting.dfy`, `Scanners.dfy` | shared vocabulary: options, time, text, sorting, counting, scan results |

Concurrent code is modelled as a machine whose steps are the code's critical sections, channel
operations and API requests; a theorem about a run quantifies over all sequences of steps. Code that
updates fields, maps or slices in place is also written as classes and loops, proved to move as the
machine or specification function does.

Some promises do not hold of the code as it stands. The model follows the code; for each there is a
concrete counterexample and, where one exists, the exact condition under which the promise holds.

- Deduplication: `README.md:15` and `docs/DEVELOPMENT.md:206-215` promise that a result is not published
  twice within the TTL, but the reconciler passes `onlyOnChange = false`
  (`internal/reconciler/reconcile.go:530`), so nothing is ever deduplicated (`DedupeInert`). The
  flag is a parameter of the model.
- An interrupted backoff tells the breaker nothing, so a half-open circuit can refuse for ever
  (`StuckExactly`, `InterruptedProbeSticks`).
- Between the two releases of a backpressure abort the semaphore can hold one slot more than the wait
  group counts. `DispatchSafety` says in exactly which states; `AbortWindow` reaches one.
- Goroutines that outlive an abort can take the scans in flight above the product of the two limits:
  for all limits of at least one namespace and two scans, and for no others (`ProductBoundExactly`),
  by up to one less than the scan limit per abort (`InFlightBound`, `InFlightBoundAttained`).
- A lazily expiring `Get` can delete a fresh entry, exactly when one was put there since its read
  (`LazyRemoveExactly`, `LazyExpiryDropsFreshEntry`), so never without a `Set` of its key
  (`NoSetNoLiveRemoved`).
- List calls for one resource are more than the cache's time to live apart whenever the first, or a
  call in between, was answered (`ListsApart`); after a List that failed the next call lists again
  (`ListsAgainAfterFailure`), be it at once (`ListsAtOnce`).
- The state mutex belongs to one workload. Handlers that run at once keep live entries covered as long
  as no two of them share a tag and scanner (`NoConcurrentOrphans`); publishing handlers that interleave
  freely do so in every run exactly then (`NeverOrphansExactly`, `SharedPointerOrphans`).
- The limit in force is current after every schedule whose last installation belongs to its last
  recording, and after no other for all results (`CurrentExactly`, `StaleRateStays`).
- Only conflicts are retried: of any two Sets that find no ConfigMap the second to create it fails
  (`CreateRaceLost`). Once it exists, and as long as nobody deletes it, that does not happen
  (`NoRaceOncePresent`).
- Backoff leaves the 64-bit range for extreme settings (`BackoffMonotoneExactly`, `BackoffShrinks`).
- Separators inside a field merge different results or findings. Results without bars in scanner and
  digest and without commas in a CVE never merge (`PreimageExactly`); with a bar every result does
  (`PreimageCollides`), and every one with several CVEs merges with one that has commas
  (`CommasCollide`). A Trivy finding merges with another exactly when it has a bar
  (`FingerprintsClashExactly`). A bar in a Clair severity makes the summary depend on map order exactly
  when the text after the last bar names a severity (`HarmlessExactly`, `SummaryDependsOnOrder`).
- Validation accepts settings under which backpressure never slows anything (`ThrottlesExactly`,
  `InertBackpressure`).

Assumptions: times are integer nanoseconds; where a clock must not go backwards, or must be at least one
second past the epoch, a theorem says so. `time.Time.Sub` saturates as in Go. `retry.DefaultRetry` makes
five attempts. Policy fields are positive where validation guarantees it (`Config.AcceptedFacts`).

## Model

| member | source | states |
|---|---|---|
| `Breaker.RateBound` | `internal/reconciler/scanner_runtime.go:87-160` | From an open circuit on, while no probe succeeds, a window of length T admits at most halfOpenMaxRequests * floor(T / openDuration) calls, for every interleaving of admissions and late outcomes |
| `Breaker.RateBoundAttained` | `internal/reconciler/scanner_runtime.go:87-160` | The bound is tight: for every policy and window some run admits exactly that many |
| `Breaker.RunRateBound` | `internal/reconciler/scanner_runtime.go:142-159` | In every run from a fresh circuit, whatever came before, the same bound counts from the clock of the failure report that opened the circuit |
| `Breaker.StateSince` | `internal/reconciler/scanner_runtime.go:87-160` | Every reachable circuit owes its state to one earlier call: closed since a success while half-open, or never opened; open since a failure reported at openedAt, and not asked since at that instant plus openDuration or later; half-open since such a request, with no outcome reported since |
| `Breaker.EpisodeEnds` | `internal/reconciler/scanner_runtime.go:122-150` | Any outcome ends a half-open episode, a success by closing the circuit and a failure by opening it, and gives its probe back |
| `Breaker.ReachableState` | `internal/reconciler/scanner_runtime.go:87-160` | In every reachable state a closed circuit counts the failures since the last success, an open or half-open one holds the threshold, and a half-open one counts exactly the admissions of its episode |
| `Breaker.NextKeepsWellFormed` | `internal/reconciler/scanner_runtime.go:87-160` | Each call keeps the shape of a circuit: failures below the threshold when closed, between 1 and halfOpenMaxRequests probes when half-open |
| `Breaker.OpenIsInert` | `internal/reconciler/scanner_runtime.go:91-105` | An open circuit is changed by nothing, late outcomes included, except an admission request at least openDuration after it opened, and then it admits |
| `Breaker.ScannersIndependent` | `internal/reconciler/scanner_runtime.go:169-177` | After any interleaved run each scanner's circuit is what its own calls alone produce |
| `CircuitBreakers.ScannerCircuit.Admit` | `internal/reconciler/scanner_runtime.go:91-115` | The in-place admission leaves the state, and gives the answer, of the transition function |
| `CircuitBreakers.ScannerCircuit.Succeed` | `internal/reconciler/scanner_runtime.go:122-135` | The in-place success report leaves the state of the transition function |
| `CircuitBreakers.ScannerCircuit.Fail` | `internal/reconciler/scanner_runtime.go:142-159` | The in-place failure report leaves the state of the transition function; a circuit it opens was opened at that report |
| `CircuitBreakers.CircuitBreaker.GetOrCreate` | `internal/reconciler/scanner_runtime.go:169-177` | Returns the scanner's circuit, registering a closed one on first use; every other circuit object stays in place and no two scanners share one |
| `CircuitBreakers.CircuitBreaker.Allow` | `internal/reconciler/scanner_runtime.go:87-116` | The breaker object moves exactly as the machine does on this scanner's admission request |
| `CircuitBreakers.CircuitBreaker.OnSuccess` | `internal/reconciler/scanner_runtime.go:118-136` | The breaker object moves exactly as the machine does on this scanner's success |
| `CircuitBreakers.CircuitBreaker.OnFailure` | `internal/reconciler/scanner_runtime.go:138-160` | The breaker object moves exactly as the machine does on this scanner's failure; a circuit it opens was opened at that report |
| `Retry.ExecuteScannerWithResilience` | `internal/reconciler/scanner_runtime.go:179-236` | The retry loop: refused exactly when the breaker refuses and then nothing is scanned; at most max(1, RetryMaxAttempts) attempts, all but the last retryable; a permanent error ends it; the sleeps are the successive backoffs; a good scan leaves the circuit closed with no failure counted, a failed one opens it from that instant or counts one more, a refused or interrupted call tells it nothing |
| `Retry.Classify` | `internal/reconciler/scanner_runtime.go:266-306` | An error is worth retrying exactly when it is no refusal and is a deadline, a cancellation, a network error or temporary; a timeout exactly when it is a deadline |
| `Retry.ReturnDetermined` | `internal/reconciler/scanner_runtime.go:200-233` | That description leaves no choice: attempts and result follow from what the scans and sleeps answer |
| `Retry.SleepBounded` | `internal/reconciler/scanner_runtime.go:246-264` | Every sleep is at most RetryMaxBackoff and n sleeps at most n times that, whatever an out-of-range conversion yields |
| `Retry.RawBackoffGeometric` | `internal/reconciler/scanner_runtime.go:246-256` | The first unrounded backoff is the initial one, each next one is the multiplier times it, and a multiplier below 1 is 1 |
| `Retry.BackoffIsPower` | `internal/reconciler/scanner_runtime.go:246-264` | For a whole multiplier k the n-th sleep is RetryInitialBackoff * k^(n - 1), or RetryMaxBackoff if that is less, as long as the product fits 64 bits |
| `Retry.CallSleepBounded` | `internal/reconciler/scanner_runtime.go:200-233` | The sleeps of one call sum to at most (attempts - 1) * RetryMaxBackoff, whatever the call meets |
| `Retry.BackoffMonotoneExactly` | `internal/reconciler/scanner_runtime.go:256-263` | Where an out-of-range conversion is negative, successive backoffs are non-decreasing exactly at the attempts where the unrounded value does not leave the 64-bit range |
| `Retry.BackoffMonotoneWhenSaturating` | `internal/reconciler/scanner_runtime.go:256-263` | Where the conversion saturates, backoffs are positive, non-decreasing and at most RetryMaxBackoff |
| `Retry.BackoffShrinks` | `internal/reconciler/scanner_runtime.go:256-263` | A policy whose second backoff is negative |
| `ScannerCalls.OutcomeAccounting` | `internal/reconciler/scanner_runtime.go:179-236` | In every concurrent run a returned call reported exactly one outcome, unless refused or interrupted, when it reported none |
| `ScannerCalls.NoStuckHalfOpen` | `internal/reconciler/scanner_runtime.go:107-113` | Without interrupted backoffs all calls of a half-open episode are in flight, so a quiescent circuit is not half-open and admits from openDuration after it opened |
| `ScannerCalls.StuckExactly` | `internal/reconciler/scanner_runtime.go:230-232` | A quiescent circuit refuses for ever exactly when it is half-open and every one of its halfOpenMaxRequests probes had its backoff interrupted |
| `ScannerCalls.InterruptedProbeSticks` | `internal/reconciler/scanner_runtime.go:230-232` | A run of two calls that ends in such a circuit |
| `ScannerCalls.SystemRunsBreaker` | `internal/reconciler/scanner_runtime.go:179-236` | The shared circuit of a concurrent run is the breaker machine run on the calls' requests and reports, and the calls started are its admissions |
| `ScannerCalls.ReportTells` | `internal/reconciler/scanner_runtime.go:215-226` | In every concurrent run a call that returns with a good scan leaves the circuit closed without failures unless it had opened meanwhile, and one that returns with an error leaves it open or one failure further |
| `ScannerCalls.CallIsRun` | `internal/reconciler/scanner_runtime.go:179-236` | Whatever the retry loop can return is what a run of this machine with that one call returns, with the same attempts and the same circuit |
| `ScannerCalls.MethodIsRun` | `internal/reconciler/scanner_runtime.go:179-236` | The method leaves its scanner's circuit as that run does |
| `ScannerCalls.ConcurrentRateBound` | `internal/reconciler/scanner_runtime.go:87-160` | The rate bound carried over to concurrent resilient scans |
| `Dispatch.DispatchSafety` | `internal/reconciler/reconcile.go:323-388` | In every interleaving gauge <= semaphore occupancy <= capacity; occupancy <= wait-group count holds exactly when the loop is not between the two releases of a backpressure abort or some goroutine is between its own two, and otherwise it is one more |
| `Dispatch.AbortWindow` | `internal/reconciler/reconcile.go:359-364` | That exception happens: occupancy 1 with a wait-group count of 0 |
| `Dispatch.NormalReturn` | `internal/reconciler/reconcile.go:323-388` | On normal return all gauges are zero, every pair was scanned exactly once, scans and errors are the numbers of scans that succeeded and failed, the result is nil exactly when no scan failed, and else the pair whose goroutine reported a failure first |
| `Dispatch.OutcomesCounted` | `internal/reconciler/reconcile.go:454-480` | In every run, finished or not, the counters are the numbers of scans that ended each way, and the errors recorded are the failures reported, in that order |
| `Dispatch.BackpressureExactly` | `internal/reconciler/reconcile.go:359-364` | The loop returns a backpressure error exactly when the limiter failed |
| `Dispatch.AbortDrains` | `internal/reconciler/reconcile.go:323-388` | After any return, backpressure included, the counters are zero once the goroutines left behind have finished |
| `Dispatch.StepKeepsInv` | `internal/reconciler/reconcile.go:323-388` | Every step of the loop or of a goroutine keeps the account of who holds the gauge, a slot, a wait-group count and an error |
| `Dispatch.Progress` | `internal/reconciler/reconcile.go:323-388` | With a capacity of at least one some step is enabled until the loop has returned and all goroutines finished |
| `Dispatch.StepDecreases` | `internal/reconciler/reconcile.go:323-388` | Every step decreases a measure over loop and goroutine phases |
| `Dispatch.RunsEnd` | `internal/reconciler/reconcile.go:323-388` | Every run has at most as many steps as the initial measure, and one that cannot go on has returned with all goroutines finished |
| `Dispatch.WorkloadExecutionState.Set` | `internal/reconciler/reconcile.go:225-236` | setError keeps the first error |
| `Reconcile.InFlightBound` | `internal/reconciler/reconcile.go:92-173` | Scans in flight never exceed NamespaceConcurrency * Concurrency plus Concurrency - 1 for each workload cut short by a backpressure error |
| `Reconcile.InFlightBoundAttained` | `internal/reconciler/reconcile.go:359-364` | The bound is tight: for all limits of at least one and any number of aborts in each namespace, some run has exactly that many in flight |
| `Reconcile.ProductBoundExactly` | `internal/reconciler/reconcile.go:92-173` | In every run at most NamespaceConcurrency * Concurrency scans are in flight exactly when there is no room for a namespace or for a second scan |
| `Reconcile.Progress` | `internal/reconciler/reconcile.go:92-173` | With limits of at least one some step is enabled until the namespace loop, all namespaces and all goroutines are done |
| `Reconcile.StepDecreases` | `internal/reconciler/reconcile.go:92-173` | Every step of a reconciliation decreases a measure |
| `Reconcile.RunsEnd` | `internal/reconciler/reconcile.go:92-173` | Every run has at most as many steps as the initial measure, and one that cannot go on is done |
| `Reconcile.EndsExactly` | `internal/reconciler/reconcile.go:92-173` | A reconciliation can be cancelled whenever it waits for a namespace slot, reports cancellation exactly when it was, and has otherwise run every workload |
| `Reconcile.StepKeepsInv` | `internal/reconciler/reconcile.go:92-173` | Every step keeps the account of namespace slots and wait-group counts, and every workload's own invariant |
| `ConfigMapStore.StoreRefinesMap` | `internal/state/backends/configmap/store.go:39-179` | For any interleaving of clients, the server's data stand for the log of writes replayed on a map; a successful Set or Delete is in the log exactly once, a failed one not at all; a Get answers from its key's value at one point of the log, with an entry live then or missing if there was none or it had expired, and it deletes at most its own key and only after reading an expired entry |
| `ConfigMapStore.LastWriteWins` | `internal/state/backends/configmap/store.go:90-142` | No lost updates: a key holds the last value written to it whatever other keys' writers did, and it decodes to the entry given to Set, cut to seconds |
| `ConfigMapStore.IntentTouchesOwnKey` | `internal/state/backends/configmap/store.go:90-179` | A Set makes its key read as the entry given, a Delete as nothing, and neither changes another key |
| `ConfigMapStore.ConflictNeedsRivals` | `internal/state/backends/configmap/store.go:108-141` | A Set or Delete gives up on conflicts only after as many commits by others as it had attempts |
| `ConfigMapStore.CreateRaceLost` | `internal/state/backends/configmap/store.go:109-128` | Only conflicts are retried: of two Sets that find no ConfigMap the second to create it fails |
| `ConfigMapStore.NoRaceOncePresent` | `internal/state/backends/configmap/store.go:108-141` | Once the ConfigMap exists, and as long as nobody deletes it, no operation fails for finding it there or for missing it |
| `ConfigMapStore.LazyRemoveExactly` | `internal/state/backends/configmap/store.go:68-71` | A Get's delete removes the expired entry it read unless a write touched the key in between, and removes an entry live by its own clock exactly when the last such write put one there |
| `ConfigMapStore.LazyExpiryDropsFreshEntry` | `internal/state/backends/configmap/store.go:68-71` | For every key, expired and renewed entry, a run in which that happens: a successful Set is undone though nobody called Delete |
| `ConfigMapStore.AnswerIsReading` | `internal/state/backends/configmap/store.go:39-74` | An answer comes from one read request of that Get: it is compared with the clock given to that read, and its position in the log is the log's length at that moment |
| `ConfigMapStore.NoSetNoLiveRemoved` | `internal/state/backends/configmap/store.go:68-71` | With no Set of its key among the operations a Get's delete never removes a live entry |
| `ConfigMapStore.StepKeepsInv` | `internal/state/backends/configmap/store.go:39-179` | Every API request keeps the optimistic-lock invariant: a copy whose version is current is an edit of the current data |
| `ConfigMapApi.EditRefines` | `internal/state/backends/configmap/store.go:134-136` | Writing back edited data changes exactly the edited key of the map |
| `ConfigMapClient.Store.Set` | `internal/state/backends/configmap/store.go:90-142` | The retry loop in place: success is one Put on top of what others committed, failure leaves only what others committed, a conflict error means others committed during every attempt, any other request error that a request failed, and an undisturbed Set succeeds and can be read |
| `ConfigMapClient.Store.Delete` | `internal/state/backends/configmap/store.go:145-179` | The same for Delete |
| `ConfigMapClient.Store.Get` | `internal/state/backends/configmap/store.go:39-74` | Answers from one read; touches the store only for an expired entry and then at most its own key, which undisturbed is gone afterwards |
| `ConfigMapClient.EffectIsOneWrite` | `internal/state/backends/configmap/store.go:90-179` | Such an effect, seen on the map the server stands for, is exactly one write |
| `ConfigMapClient.AcceptedIsCurrent` | `internal/state/backends/configmap/store.go:108-141` | A write is accepted only if nobody committed since the read it was built on |
| `Base64Url.DecodeEncode` | `internal/state/backends/configmap/store.go:196-198` | Unpadded base64url (section 5 of RFC 4648) decodes back, for every byte string |
| `Base64Url.GroupIsNumber` | `internal/state/backends/configmap/store.go:196-198` | Four letters are the digits to the base 64 of the number whose digits to the base 256 are the three bytes |
| `Base64Url.Vectors` | `internal/state/backends/configmap/store.go:196-198` | Test vectors of section 10 of RFC 4648 and of the URL-safe alphabet |
| `Base64Url.DataKeyInjective` | `internal/state/backends/configmap/store.go:196-198` | Different keys have different data keys |
| `Base64Url.DataKeyLegal` | `internal/state/backends/configmap/store.go:196-198` | Every data key is made of characters Kubernetes accepts |
| `DedupeRuns.NoLiveOrphans` | `internal/reconciler/reconcile.go:511-527` | For serialised handlers and harmless faults, at every instant each live digest entry has a live pointer at least as recent, so live digest entries never outnumber live pointers |
| `DedupeState.HandleKeeps` | `internal/reconciler/reconcile.go:501-597` | One handler, with its lazy expiry, keeps that property |
| `DedupeState.FaultsExactly` | `internal/reconciler/reconcile.go:669-693` | A fault pattern can orphan an entry exactly when the pointer was moved without the old entry being removed, or an entry recorded without a pointer |
| `DedupeState.StateKeyExactly` | `internal/reconciler/reconcile.go:514` | Digest entries are shared by exactly the results of one digest and scanner |
| `DedupeState.PointerKeyExactly` | `internal/reconciler/reconcile.go:515` | Pointers are shared by exactly the results of one registry, repository, tag and scanner |
| `DedupeState.LifetimeExactly` | `internal/state/backends/configmap/store.go:48-71` | An entry is read back, cut to seconds, exactly until ttl after the second it was last scanned in |
| `DedupeState.SinkAcceptsExactly` | `internal/reconciler/reconcile.go:545-574` | A result counts as published exactly when some enabled sink did not reject it |
| `DedupeConcurrent.NeverOrphansExactly` | `internal/reconciler/reconcile.go:219-223` | Of publishing handlers without faults whose requests interleave freely, every run keeps every live entry covered exactly when no two of them share a tag and scanner |
| `DedupeConcurrent.NoConcurrentOrphans` | `internal/reconciler/reconcile.go:501-597` | Handlers interleaving request by request keep the property of NoLiveOrphans at every instant, under harmless faults, as long as none begins while another of its tag and scanner runs |
| `DedupeConcurrent.SharedPointerOrphans` | `internal/reconciler/reconcile.go:219-223` | Any two publishing jobs of one tag and scanner, of the same digest or not and among any others, have an interleaving that leaves a live entry without such a pointer |
| `DedupeConcurrent.StepKeepsInv` | `internal/reconciler/reconcile.go:501-597` | Each request of a handler keeps every live entry covered by a pointer that no handler is about to turn away |
| `DedupeConcurrent.AloneIsHandle` | `internal/reconciler/reconcile.go:501-597` | The six steps taken without interruption are the serialised handler |
| `DedupeRuns.EntriesAgree` | `internal/reconciler/reconcile.go:582-588` | Every digest entry holds the fingerprint of its key's latest result that was published and stored |
| `DedupeRuns.EntriesHold` | `internal/reconciler/reconcile.go:582-588` | Every digest entry is, fingerprint, times and summary, what the latest handler of its key to publish and store recorded |
| `DedupeRuns.FindingCountReads` | `internal/reconciler/reconcile.go:586` | The text before " findings" reads as the number of findings |
| `DedupeRuns.PointersHold` | `internal/reconciler/reconcile.go:519-527` | Every pointer is what the latest handler of its tag to set it wrote |
| `DedupeRuns.RepeatDeduplicated` | `internal/reconciler/reconcile.go:529-536` | With onlyOnChange on, a published and stored result that comes again for its tag is deduplicated until ttl after the second it was handled in |
| `DedupeRuns.DeduplicatedExactly` | `internal/reconciler/reconcile.go:529-536` | A result is deduplicated exactly when onlyOnChange is on and the entry found holds its fingerprint |
| `DedupeRuns.DedupeInert` | `internal/reconciler/reconcile.go:530` | With onlyOnChange off, as called, the outcome is decided by severity and sinks alone and nothing is deduplicated |
| `DedupeRuns.ConsecutivePublishesDiffer` | `internal/reconciler/reconcile.go:529-597` | With onlyOnChange on, two publishes of a key with its entry stored and kept in between differ in fingerprint |
| `DedupeRuns.HandleTouchesOwnEntry` | `internal/reconciler/reconcile.go:582-588` | A handler changes no digest entry of another key, except to remove it |
| `DedupeHandler.HandleScanResultStateAndPublish` | `internal/reconciler/reconcile.go:501-597` | The handler in place: store, outcome and counters end as specified |
| `DedupeHandler.CountersAddUp` | `internal/reconciler/reconcile.go:501-597` | Over every run each counter is the number of results that ended its way: deduplicated, below the threshold, published, stored or not, rejected by a sink, looked up with a hit, a miss or an error |
| `DedupeHandler.CleanupPreviousDigestState` | `internal/reconciler/reconcile.go:669-693` | Removes the previous digest's entry exactly when the tag's pointer names another one |
| `DedupeHandler.LoadLastFingerprint` | `internal/reconciler/reconcile.go:695-720` | The fingerprint of the live entry, or none, with the lookup counted as a hit, a miss or an error |
| `DedupeHandler.PublishToSinks` | `internal/reconciler/reconcile.go:545-568` | The count is the number of enabled sinks that accepted, and count and errors add up to the enabled sinks |
| `EntryCodec.RoundTrip` | `internal/state/entry.go:20-129` | Decoding what Marshal wrote gives the entry with times cut to seconds and times at or before the epoch sent to zero, into any receiver |
| `EntryCodec.PersistedExactly` | `internal/state/entry.go:20-35` | Storing is idempotent, and the identity exactly for zero times and whole positive seconds |
| `EntryCodec.LegacyReadsBack` | `internal/state/entry.go:133-176` | The legacy text of four bar-separated fields reads back, bars in the summary included, for any bar-free fingerprint, whenever the payload does not decode as JSON; a fingerprint that does not begin like JSON rules that out |
| `EntryCodec.PlainReadsBack` | `internal/state/entry.go:170-175` | Under the same condition a bar-free text is a bare fingerprint |
| `EntryCodec.LegacyDecodesExactly` | `internal/state/entry.go:133-168` | A text of four fields decodes exactly when its second and third are 64-bit integers |
| `EntryCodec.FieldsExactly` | `internal/state/entry.go:38-115` | An object decodes exactly when each of its four fields does, and then each is its own key's value, or what the receiver had |
| `EntryCodec.OtherValues` | `internal/state/entry.go:43-110` | A null keeps a string and zeroes a time, a value of another kind is an error; a null payload empties the receiver and one that is no object leaves it alone |
| `EntryCodec.TextTimes` | `internal/state/entry.go:65-94` | A time given as text, white space around it or not: nothing is the zero time, an RFC 3339 time is itself, what is neither that nor a number is an error |
| `EntryCodec.TextSeconds` | `internal/state/entry.go:65-94` | A number given as text is that instant if positive, else an error |
| `EntryCodec.StoredEntry.UnmarshalJSON` | `internal/state/entry.go:38-115` | Assigning the receiver's fields in turn, an early failure included, leaves the specified receiver |
| `EntryCodec.StoredEntry.UnmarshalStored` | `internal/state/entry.go:133-176` | The same for the JSON, legacy and plain forms together |
| `Fingerprints.PreimageExactly` | `internal/policy/evaluator.go:13-39` | Two unambiguous results are hashed from the same text exactly when scanner, digest, the five counts and the multiset of non-empty CVEs agree |
| `Fingerprints.PreimageCollides` | `internal/policy/evaluator.go:13-39` | Every result with a bar in scanner or digest shares its text with a different result |
| `Fingerprints.CommasCollide` | `internal/policy/evaluator.go:31-36` | Every result with two or more CVEs shares its text with one whose only CVE has commas |
| `Fingerprints.WritePreimage` | `internal/policy/evaluator.go:14-36` | The writes into the hash, in order, add up to that text |
| `Fingerprints.ExtractCVEs` | `internal/policy/evaluator.go:41-54` | The non-empty CVEs, sorted, each as often as it is found |
| `Clair.VisitsAgree` | `internal/scanners/clair/scanner.go:169-194` | Any two traversals of a JSON tree collect the same vulnerabilities, equally often |
| `Clair.CollectedExactly` | `internal/scanners/clair/scanner.go:169-217` | Any traversal collects exactly the objects of the report, however deep, that have a severity and an identity |
| `Clair.SummaryIndependentOfOrder` | `internal/scanners/clair/scanner.go:83-92` | The number of findings is the number of distinct dedupe keys and the summary's total, for every traversal; when every severity text is bar-free or names no severity after its last bar the summary too is a function of the keys |
| `Clair.HarmlessExactly` | `internal/scanners/clair/scanner.go:220-250` | Among otherwise bar-free severities a text leaves every report's summary independent of the traversal exactly when it has no bar or names no severity after its last one |
| `Clair.SummaryDependsOnOrder` | `internal/scanners/clair/scanner.go:220-250` | For every other severity text a report, with no bar in its other severities, and two traversals of it with different summaries |
| `Clair.KeyFixesSeverity` | `internal/scanners/clair/scanner.go:140-152` | Such a severity is determined by the dedupe key's last component |
| `Clair.DedupeKeyExactly` | `internal/scanners/clair/scanner.go:220-250` | Objects without bars in them share a dedupe key exactly when ID, package, installed version and lower-case severity agree |
| `Clair.FieldsPreferred` | `internal/scanners/clair/scanner.go:95-152` | Each field of a finding is the first non-empty one of the JSON fields it is read from, in their order; severity, fix and exploitability follow from theirs |
| `Clair.CVEPreferred` | `internal/scanners/clair/scanner.go:252-285` | A finding's CVE is the field cve, else CVE, if it looks like one, else the first link with one in it, else the ID if it looks like one, and empty exactly when none does |
| `Clair.Collector.Walk` | `internal/scanners/clair/scanner.go:172-190` | The recursive walk appends what some traversal collects |
| `Clair.ParseResult` | `internal/scanners/clair/scanner.go:77-138` | Findings are made of the first object of each key in traversal order, and the summary counts them |
| `DedupeByKey.DedupeLoop` | `internal/scanners/clair/scanner.go:220-250` | The loop over a seen-map keeps the first item of each key |
| `DedupeByKey.DedupeKeepsFirst` | `internal/scanners/clair/scanner.go:220-250` | What is kept is, in order, every item whose key no earlier item has |
| `DedupeByKey.CountedOften` | `internal/scanners/clair/scanner.go:154-167` | Each severity is counted as often as it occurs |
| `DedupeByKey.OrderIndependent` | `internal/scanners/clair/scanner.go:220-250` | Deduplicating a bag in two orders gives equally many items, and equal counts when keys fix severities |
| `ImageRefs.ParseResolved` | `internal/registry/image_ref.go:19-105` | Exactly the empty reference is rejected; for every other, its resolved form parses to the same registry, repository, tag, digest and resolved form |
| `ImageRefs.PartsParse` | `internal/registry/image_ref.go:19-105` | A reference put together from registry, repository, tag and digest parses into them; without a registry it is Docker Hub's, in the library if its repository has no slash; without tag and digest the tag is latest; a tag beside a digest is kept |
| `ImageRefs.RegistriesNamed` | `internal/registry/image_ref.go:103-105` | A domain, a port or localhost names a registry and nothing else does |
| `ImageRefs.ResolveKeeps` | `internal/registry/resolver.go:26-53` | A digest given is kept; one looked up is added to the parts as they are |
| `ImageRefs.ResolvedParsesBack` | `internal/registry/resolver.go:45-52` | The resolver's registry/repository@digest parses back to exactly those three |
| `ImageRefs.ImageRef.Parse` | `internal/registry/image_ref.go:19-30` | The helpers filling one shared reference compute the specified parse, or its error |
| `Limiter.RateOverHistories` | `internal/concurrency/adaptive_limiter.go:63-116` | Over every history the rate stays in [minRPS, maxRPS], an error never raises it and a success never lowers it |
| `Limiter.RateLinear` | `internal/concurrency/adaptive_limiter.go:92-116` | Up to the threshold the rate falls in proportion to the error share, reaching the minimum there |
| `Limiter.NewKeeps` | `internal/concurrency/adaptive_limiter.go:33-56` | Each argument in range is kept and any other replaced by its default or cut to the range |
| `Limiter.RecoversExactly` | `internal/concurrency/adaptive_limiter.go:92-107` | For minRPS < maxRPS, after e errors in n scans, k successes leave the rate above minRPS exactly when threshold * (n + k) > e or nothing was recorded |
| `Limiter.InstalledFromPrefix` | `internal/concurrency/adaptive_limiter.go:63-75` | However concurrent recordings interleave, the installed rate is that of some recorded prefix |
| `Limiter.CurrentExactly` | `internal/concurrency/adaptive_limiter.go:63-75` | A schedule of recordings and installations leaves the rate current, whatever the results and parameters, exactly when its last installation belongs to its last recording |
| `Limiter.PlayFollows` | `internal/concurrency/adaptive_limiter.go:63-75` | Under every sequence of results the rate a schedule installs is the one due after the recording that the schedule alone says it belongs to |
| `Limiter.RunsAreSchedules` | `internal/concurrency/adaptive_limiter.go:63-75` | Every interleaving is such a schedule with some results |
| `Limiter.StaleRateStays` | `internal/concurrency/adaptive_limiter.go:71-74` | A schedule with every call finished that is not always current |
| `Limiter.New` | `internal/concurrency/adaptive_limiter.go:33-56` | Whatever the arguments, the parameters are ordered and in range, and positive rates stay positive |
| `Limiter.AdaptiveLimiter.RecordResult` | `internal/concurrency/adaptive_limiter.go:63-75` | One uninterrupted call installs the rate due after the whole history, no higher after an error and no lower after a success |
| `Limiter.AdaptiveLimiter.EffectiveRPSLocked` | `internal/concurrency/adaptive_limiter.go:92-116` | The interpolation over the counters |
| `Publishing.TopFindingsCanonical` | `internal/komodor/publisher.go:160-198` | The top findings depend on the multiset of findings alone: any input order and any correct sort, stable or not, give the same list |
| `Publishing.PublishedExactly` | `internal/komodor/publisher.go:48-56` | A result whose summary counts its findings is published exactly when it is clean and clean results are wanted, or some finding of known severity reaches the minimum rank |
| `Publishing.BeforeIsStrictWeakOrder` | `internal/komodor/publisher.go:168-186` | The comparator is a strict weak order whose ties share their CVE |
| `Publishing.MoreUrgentFirst` | `internal/komodor/publisher.go:168-186` | In every correct sort exploitable findings come first, then the more severe, then those with a fix, then the smaller CVE |
| `Publishing.TopFindingsList` | `internal/komodor/publisher.go:160-198` | The list returned is the non-empty CVEs, in order, of the first limit findings under every correct sort |
| `Orders.SortedKeysUnique` | `internal/komodor/publisher.go:168-186` | A sort by a comparator that orders by a key fixes the sequence of keys |
| `Orders.LexLeExactly` | `internal/policy/evaluator.go:41-54` | The order of strings is alphabetical: by the first difference, or the shorter one first |
| `Orders.SortSlice` | `internal/komodor/publisher.go:168-186` | Sorting in place: in order and a permutation |
| `TrivyOperator.ServedFresh` | `internal/scanners/trivyoperator/scanner.go:209-243` | In sequential use every list served is a List answer for that resource, stored at most cacheTTL before |
| `TrivyOperator.ListsApart` | `internal/scanners/trivyoperator/scanner.go:209-243` | Two calls to the API server for a resource are more than cacheTTL apart whenever a call for it in between, the first included, was answered by server or cache |
| `TrivyOperator.ListsAgainAfterFailure` | `internal/scanners/trivyoperator/scanner.go:214-217` | In every sequential run the next call for a resource after an unanswered List lists again, whatever its clock |
| `TrivyOperator.ListsAtOnce` | `internal/scanners/trivyoperator/scanner.go:214-217` | That can be with no time in between |
| `TrivyOperator.CacheHoldsLatest` | `internal/scanners/trivyoperator/scanner.go:219-224` | A cached list is the latest answer; with nothing cached there was none |
| `TrivyOperator.FingerprintExactly` | `internal/scanners/trivyoperator/scanner.go:265-273` | Bar-free findings share a fingerprint exactly when ID, package, versions and severity agree |
| `TrivyOperator.FingerprintsClashExactly` | `internal/scanners/trivyoperator/scanner.go:265-273` | A finding shares its fingerprint with a different vulnerability exactly when one of its fields has a bar |
| `TrivyOperator.OnePerFingerprint` | `internal/scanners/trivyoperator/scanner.go:175-186` | A report holds exactly one finding per distinct fingerprint among the matching reports |
| `TrivyOperator.SummaryIndependentOfListing` | `internal/scanners/trivyoperator/scanner.go:275-295` | Counts and number of findings do not depend on the order of the lists |
| `TrivyOperator.ReportPlacesUnique` | `internal/scanners/trivyoperator/scanner.go:190-196` | Severities and IDs come in one order only; nothing but ties in both can swap |
| `TrivyOperator.MoreSevereFirst` | `internal/scanners/trivyoperator/scanner.go:190-196` | The more severe findings come first, and of one severity the smaller ID |
| `TrivyOperator.OperatorScanner.ListReports` | `internal/scanners/trivyoperator/scanner.go:209-227` | The cache in place serves what the specified cache would and moves the same way |
| `TrivyOperator.OperatorScanner.Scan` | `internal/scanners/trivyoperator/scanner.go:157-207` | The scan fails at the first resource with neither cache nor answer; otherwise it reports the deduplicated findings of the lists served, ranked, with a summary that totals their number |
| `Config.ValidateScanners` | `internal/config/config.go:297-372` | Accepts exactly the configurations without a fault, stated on the values as written, and names the first fault of any other |
| `Config.AcceptedExactly` | `internal/config/config.go:297-372` | Accepted are exactly the configurations with scanners that are named and typed, limits of at least one, rates and threshold in range, and an effective runtime section that is positive throughout |
| `Config.EffectiveScannerRuntimeConfig` | `internal/config/config.go:396-430` | Overwriting the copy field by field keeps every value given and replaces every zero by its default |
| `Config.EffectiveRuntimeExactly` | `internal/config/config.go:396-430` | The effective runtime section is the only one that does |
| `Config.EffectiveScannersConfig` | `internal/config/config.go:375-393` | The same for namespace concurrency and backpressure |
| `Config.EffectiveExactly` | `internal/config/config.go:375-393` | What is effective there: values given, but for zeros and a namespace limit that is not positive |
| `Config.AcceptedBreaker` | `internal/reconciler/scanner_runtime.go:60-85` | Under every accepted configuration each circuit stays well formed and its probes obey the rate bound |
| `Config.AcceptedLimiter` | `internal/reconciler/reconcile.go:60-76` | Under every accepted configuration the installed rate is positive and at most the configured maximum, in every interleaving |
| `Config.ThrottlesExactly` | `internal/config/config.go:323-325` | Backpressure can slow an accepted configuration down exactly when its effective minimum is below its maximum |
| `Config.InertBackpressure` | `internal/config/config.go:380-390` | An accepted configuration whose default minimum exceeds its configured maximum |
| `Config.AcceptedProgress` | `internal/reconciler/reconcile.go:89-92` | Under every accepted configuration a reconciliation is never stuck before it is done |
| `Config.AcceptedBackoff` | `internal/reconciler/scanner_runtime.go:246-264` | Under every accepted configuration backoffs are positive, non-decreasing and bounded where the conversion saturates |

## Left out

- ConfigMapStore.StoreRefinesMap: assumes that a request reported as failed was not applied; an answer lost after the server committed is not modelled. An absent data map is an empty one, and the 253-character limit on data keys is not enforced.
- Retry.ExecuteScannerWithResilience: the scan context's timeout, `totalDuration` and the circuit-state metric are not modelled; what each `Scan` and sleep answers is a parameter. The classes of errors come from what `errors.Is` and `errors.As` find, as given flags.
- Limiter.RateOverHistories: rates are real numbers; rounding, NaN and infinities are not modelled, nor is the token bucket behind `Wait`.
- Reconcile.InFlightBoundAttained: a call of `Wait` may go on or fail whatever earlier calls did. That covers a wait refused because it would outlast the context's deadline; under a context cancelled for good every later call fails too, which the model does not require.
- Fingerprints.PreimageExactly: SHA-256 (section 6.2 of FIPS 180-4) is an arbitrary function, so equal fingerprints are not claimed to mean equal pre-images.
- DedupeRuns.NoLiveOrphans: entries live in a map with lazy expiry and per-request faults; the lazy deletion of an expired entry is taken to succeed, and conflicts between writers are the subject of the store model instead.
- DedupeConcurrent.NeverOrphansExactly: each store request is one atomic step, which the store model justifies for a request that does not fail; publishing itself takes no step.
- EntryCodec.RoundTrip: JSON printing and parsing are abstract: a stored payload is its text together with the value it parses to, of which only the first character of a JSON text (sections 2 and 3 of RFC 8259) is modelled. Parsing of RFC 3339 times is a parameter.
- Clair.ParseResult: upper and lower case are those of ASCII letters; a finding's title, URL and attribution are left out.
- Orders.SortSlice: an insertion sort stands for the library's; what callers are proved from holds of every sort that is in order and a permutation.
- TrivyOperator.ServedFresh: sequential use only; concurrent misses may list a resource more than once. Whether a report matches an image and what it contains is a parameter.
- Dispatch.NormalReturn: a pair is an image that resolved together with a scanner; images that do not resolve contribute none. A scan is one step with an arbitrary outcome, what follows a successful one is the handler's model, and panics in goroutines are not modelled.
- Trivy, Snyk and Wiz parsers: the same shape as Clair with less to prove.
- Redis, memcache and in-memory backends, HTTP and Kubernetes clients, external commands: thin layers over libraries that are not part of this model.
- `severityRank`: the minimum rank is a parameter, as are the decoded publishing options.
- Logging, metrics registration, event texts, the command line, health handlers and the Helm chart.
