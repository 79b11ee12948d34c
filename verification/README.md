# OpsBridge365 in Dafny

OpsBridge365 is a small service desk back end over Microsoft Graph: an API container that serves SLA
figures from a SharePoint list, a job that writes device facts into an Assets list, and a script that
creates the two lists. This project models its six stateful parts and proves what they promise.

| files | part of the repository |
|---|---|
| `Cache.dfy`, `CacheHistory.dfy`, `SlotPayload.dfy` | the single-flight cache (`app/cache.py`) |
| `RateLimit.dfy`, `LimiterRuns.dfy`, `LimiterOrder.dfy`, `LimiterCapacity.dfy`, `LimiterArrivals.dfy`, `LimiterIsolation.dfy` | the sliding-window limiter (`app/ratelimit.py`) |
| `AssetIndex.dfy`, `Sync.dfy` | the asset synchronisation job (`app/sync.py`) |
| `Provision.dfy`, `ProvisionConverge.dfy`, `ProvisionSeed.dfy`, `ProvisionSeedExact.dfy`, `ProvisionExact.dfy`, `ProvisionObjects.dfy`, `ProvisionScript.dfy` | the provisioning script (`scripts/provision_sharepoint.py`) |
| `Graph.dfy` | retries and paging (`app/graph.py`) |
| `Metrics.dfy` | the SLA figures (`app/metrics.py`) |
| `Pipeline.dfy`, `PipelineRuns.dfy` | the `/metrics` endpoint: gate, limiter and cache together (`app/security.py`, `app/main.py`) |
| `Basics.dfy` | options, outcomes, counting |

How the models are built:

- Code that updates fields in place is a class whose methods do what the original's methods do. Each is
  proved to take the object's value to what a step function says, and the theorems about whole runs are
  lemmas about the step functions.
- Concurrency is interleaving. In `get` nothing suspends between entering the lock and leaving it, so the
  part up to the `await` is one step, and the part after it another. Every clock reading is an argument
  of the step that makes it; clocks never go back. Times are reals; in the SLA figures, microseconds.
- What an operation computes is also said without the functions it computes it with: in terms of the
  settings, rows, responses, specs and outcomes that went in, on the method itself or in a lemma about runs.
- The outside world is a parameter: what each Graph request meets, whether a write that looked failed
  took effect, or took effect more than once, what `strip` and `casefold` do, and to which side `round`
  takes the tie above each tenth.

The results a reader may want first: `SingleFlight.UpstreamSpacing`, `SingleFlight.CallerReceives`,
`SingleFlight.CancelIsInvisible`, `FlightHistory.FromTheStart`, `SlotPayload.StraysExactly`,
`LimiterCapacity.LimitHoldsExactly`, `LimiterArrivals.WindowBoundByArrivals`, `LimiterRuns.RetryAfterExact`,
`LimiterIsolation.KeysAreIsolated`, `AssetIndexing.LookupExact`, `SyncJob.Converges`,
`ProvisionConvergence.Converges`, `ProvisioningExact.KindsAsSpecified`, `SeedingExactness.NeverRepeatsExactly`,
`GraphCalls.GetPaged`, `PipelineRuns.GateAnswers`, `PipelineRuns.UpstreamWithinAdmissions`.

## Where the code does not do what it says

The models follow the code. Each difference has a lemma.

- `app/cache.py:86` promises at most one `factory` call per TTL window. A call of `get` that lands after a
  flight has ended and before any waiter has gone on starts a second one at once
  (`SingleFlight.OncePerTtlCanFail`). `SingleFlight.OncePerTtlExact` says exactly when a call starts a
  flight inside the window, and `SingleFlight.UpstreamSpacing` proves the promise for runs in which no
  `get` lands in that gap, none follows a failed flight and nothing is invalidated.
- The comment at `app/cache.py:119-120` says only the caller that started a flight stores its value. A
  caller that joined can store it (`SingleFlight.JoinerCanStore`): whoever goes on after a success stores,
  at the time it goes on, exactly when nothing younger than the ttl is there
  (`SingleFlight.ResumeStoresExactly`).
- `max-age` is computed from the value in the slot, which need not be the one sent: a call that lands
  between the end of a flight and its first delivery is sent the newer value under the age of the older
  one, and the next hit goes back to the older (`MetricsPipeline.PayloadCanDiffer`). That can happen after
  a call exactly when it finds nothing fresh while a success is still on its way to a caller
  (`SlotPayload.StraysExactly`); in runs without such calls it never does
  (`PipelineRuns.RepliesWithinExpiry`).
- `app/ratelimit.py:1` calls the limiter fixed-window; it slides. `app/ratelimit.py:23` promises at most
  `limit` events per window per key. Eviction forgets, so that holds in every run if and only if
  `max_keys` is 0, 1, 2 or 3, the values that evict nobody (`LimiterCapacity.LimitHoldsExactly`). For any
  other value some run admits a key `limit` + 1 times at one moment (`LimiterCapacity.LimitCanBeExceeded`);
  the bound then has `limit` more for each time the key was dropped (`LimiterRuns.WindowBound`), which
  takes a quarter of the map's worth of keys that were not in it (`LimiterArrivals.WindowBoundByArrivals`),
  and a request is let through by mistake only for what was dropped (`LimiterRuns.ForgetsOnlyByDropping`).
- The key map is bounded if and only if `max_keys >= 4`, since a quarter of fewer keys is none
  (`LimiterCapacity.KeyMapBounded`). No value gives both.
- `scripts/provision_sharepoint.py:410-411` seeds only an empty list so that rows are not duplicated. A
  POST that timed out after taking effect is sent again. For a spec whose seed rows are distinct, the seed
  loop leaves no row twice if and only if none of the POSTs it sent took effect more than once
  (`SeedingExactness.SeedExactly`). Before a run that is safe however the requests fare if and only if
  `--seed` is off or every spec with seed rows finds a list that has items
  (`SeedingExactness.NeverRepeatsExactly`): otherwise the script's own run can exit with 0 and leave the
  first asset twice (`SeedingExactness.SeedRowTwice`). No row is left more
  than three times, rows keep their order, and no later run adds to them (`ProvisionSeeding.SeededOnce`).
- The Retry-After header is rounded down (section 10.2.3 of RFC 9110 gives it in whole seconds). Waiting as
  long as it says is enough exactly when the wait was at most a second or a whole number of seconds
  (`PipelineRuns.HeaderWait`, `PipelineRuns.HeaderCanBeShort`); one second more always is.
- A compliance of 100.0 can hide a late ticket once more than 2000 were measured
  (`SlaMetrics.EndsMeanAllAndNone`, `SlaMetrics.ReadsFullExactly`).

## Model

| member | source | states |
|---|---|---|
| `SingleFlight.ReachableInv` | app/cache.py:83-124 | In every state any interleaving of calls, completions, resumptions, cancellations and invalidations leads to: the only unfinished flight is the one in the slot, every stored value came from a successful flight begun before it was stored, counters and callers agree |
| `SingleFlight.AtMostOneUnfinished` | app/cache.py:101-108 | Two unfinished flights are the same one, and it is in the slot, in every reachable state |
| `SingleFlight.GetStartsExactlyWhen` | app/cache.py:91-108 | A call starts an upstream call if and only if nothing is fresh and all earlier ones have ended; otherwise it hits or joins the one that has not |
| `SingleFlight.SecondCheckNeverHits` | app/cache.py:96-99 | The second freshness check can never succeed, since nothing suspends between the two |
| `SingleFlight.NoStuckCaller` | app/cache.py:110-117 | In every reachable state a waiting caller can go on, or its flight is unfinished and in the slot |
| `SingleFlight.SlotReleased` | app/cache.py:115-117 | After a caller of a run goes on or is cancelled, its flight is in the slot if and only if it has not ended, and the slot's live flight is untouched |
| `SingleFlight.Accounting` | app/cache.py:60-66 | Over any run hits + misses + coalesced is the number of calls, and upstream = misses = flights created |
| `SingleFlight.CallerReceives` | app/cache.py:83-124 | A caller gets the value that was fresh when it called, or exactly the outcome of the flight it joined, whatever happens in between; it gets nothing only if it was cancelled |
| `SingleFlight.CallerFate` | app/cache.py:110-124 | What any caller can become over any run: nothing changes once it is finished, cancelled or served |
| `SingleFlight.CancelIsInvisible` | app/cache.py:112-117 | Over any continuation, cancelling a caller changes no flight, cached value, counter or other caller |
| `SingleFlight.StoredOnlyBySuccess` | app/cache.py:119-123 | In any run the stored value changes only by invalidation or by a waiter of a successful flight that finds it stale, which stores that flight's value and the time of storing; so a cached value always came from a successful flight begun before |
| `SingleFlight.ResumeStoresExactly` | app/cache.py:119-123 | In any run a caller that goes on writes value and time, its flight's value and the time then, if and only if its flight succeeded and nothing younger than ttl is stored, whoever started the flight; at a ttl of 0 every success |
| `SingleFlight.JoinerCanStore` | app/cache.py:119-123 | A run in which the caller that started the flight is cancelled and the one that joined stores |
| `SingleFlight.FailuresStoreNothing` | app/cache.py:86-88 | Over any run of failing flights the value and its time stay as they were |
| `SingleFlight.NextStartAfterExpiry` | app/cache.py:68-71 | Once something is stored at u, no flight starts before u + ttl without invalidation, and a later store only moves that later |
| `SingleFlight.OncePerTtlCanFail` | app/cache.py:86 | A run of three steps in which two flights start at the same moment |
| `SingleFlight.OncePerTtlExact` | app/cache.py:86-108 | A call within ttl of the last flight's start starts another if and only if that one has ended and nothing was stored since it began |
| `SingleFlight.UpstreamSpacing` | app/cache.py:83-124 | If every call that finds the latest flight ended also finds its success delivered to some caller, and nothing is invalidated, successive flights start at least ttl apart and N span at least (N-1)*ttl |
| `FlightHistory.FromTheStart` | app/cache.py:107-111 | After any run a flight has ended with an outcome at a time if and only if its upstream task ended so in the run |
| `FlightHistory.WaiterIsGiven` | app/cache.py:87-88 | A waiting caller that is finished was given exactly what its upstream task ended with, value or exception |
| `FlightHistory.CallerEnds` | app/cache.py:110-124 | Going on gives a caller its flight's outcome for good, being cancelled gives it nothing |
| `FlightHistory.AnyOutcomeArrives` | app/cache.py:110-124 | Whatever an unfinished flight ends with then reaches a waiter, is stored if it is a success and nothing fresh is there, and changes the slot not at all if it is an exception |
| `FlightHistory.StartWasCall` | app/cache.py:103-108 | Every flight of a run began when some call of `get` in it read the clock under the lock |
| `FlightHistory.ServedWasBrought` | app/cache.py:91-93 | Every value served from the cache is one that an upstream task of the run ended with |
| `FlightHistory.NothingAfterInvalidate` | app/cache.py:79-81 | After an invalidation nothing is fresh until a caller goes on and stores again |
| `SlotPayload.WaiterAndSlot` | app/cache.py:110-124 | In any run the slot holds the outcome of the flight that filled it last; a waiter that is given a value leaves it filled by its own flight if and only if nothing fresh was there or its own flight had filled it |
| `SlotPayload.PayloadIsStored` | app/cache.py:83-124 | If no call of a run finds nothing fresh while a success is on its way to a caller, or the ttl is 0, every value given to a caller is the one the slot then holds |
| `SlotPayload.StraysExactly` | app/cache.py:91-124 | After a run of such calls, a call can lead to a caller being given something else if and only if it finds nothing fresh while a success is on its way and the ttl is not 0 |
| `SlotPayload.HitIsRecent` | app/cache.py:68-71 | If every caller of a run goes on within d of the end of its flight, a hit serves the value of a flight that ended less than ttl + d ago |
| `SlotPayload.HitCanBeOld` | app/cache.py:119-123 | Without that a hit can serve a value as old as one likes: a late waiter stores it under a new time |
| `SingleFlight.SingleFlightCache.BeginGet` | app/cache.py:83-108 | `get` up to its suspension makes the Get step and keeps the invariant: a fresh value is served, an unfinished flight in the slot is joined, otherwise one is started now |
| `SingleFlight.SingleFlightCache.LockedBody` | app/cache.py:95-108 | The body under the lock: second check, join or start |
| `SingleFlight.SingleFlightCache.FinishGet` | app/cache.py:110-124 | `get` from its suspension on makes the Resume step, returns its flight's outcome and stores a success if nothing fresh is there |
| `SingleFlight.SingleFlightCache.AbandonGet` | app/cache.py:112-117 | A cancelled waiter only runs the finally clause |
| `SingleFlight.SingleFlightCache.CompleteFlight` | app/cache.py:107-111 | The shared task ends once: its flight keeps its start and is given exactly this outcome and this time, nothing else changes |
| `SingleFlight.SingleFlightCache.Invalidate` | app/cache.py:79-81 | Clears value and time and nothing else |
| `SingleFlight.SingleFlightCache.AgeSeconds` | app/cache.py:73-77 | There is an age if and only if something is stored, and it is below ttl exactly when the value is fresh |
| `SingleFlight.NewCache` | app/cache.py:42-54 | Construction is refused exactly for a negative ttl, and starts empty |
| `RateLimit.PruneIsLater` | app/ratelimit.py:43-48 | Dropping from the left equals keeping every time later than the cutoff, on a sorted bucket |
| `RateLimit.VictimsAreKeys` | app/ratelimit.py:50-56 | Evicted keys are distinct keys of the map, max_keys // 4 of them when the map is over full |
| `RateLimit.EmptiestFirst` | app/ratelimit.py:51-56 | No surviving bucket is shorter than an evicted one |
| `RateLimit.ByLengthStable` | app/ratelimit.py:55 | The eviction order is by bucket length, and by first insertion among equals |
| `RateLimit.CheckKeepsKeys` | app/ratelimit.py:58-71 | The insertion order stays a list of the map's keys without repetition |
| `RateLimit.NewLimiter` | app/ratelimit.py:25-41 | Construction is refused exactly for a limit below 1 or a window that is not positive, and starts empty |
| `RateLimit.RateLimiter.PruneKey` | app/ratelimit.py:43-48 | The loop leaves the bucket pruned and everything else as it was |
| `RateLimit.RateLimiter.EvictIfNeeded` | app/ratelimit.py:50-56 | The loop removes exactly the victims |
| `RateLimit.RateLimiter.CheckKey` | app/ratelimit.py:58-71 | `check` returns the verdict of the step function and leaves its state |
| `RateLimit.RateLimiter.Reset` | app/ratelimit.py:73-74 | Forgets every key |
| `LimiterOrder.OrderIsSeniority` | app/ratelimit.py:44-56 | In any run the map has exactly the keys that tried since they were last dropped, in the order in which they came in |
| `LimiterRuns.ReachableInv` | app/ratelimit.py:43-74 | After any run every bucket is the part of the key's log since its last drop that is later than some cutoff the window has passed, sorted and no longer than limit |
| `LimiterRuns.PrunedIsWindow` | app/ratelimit.py:43-48 | After each prune the bucket is exactly the times of that log later than now - window, in order, at most limit of them |
| `LimiterRuns.CheckVerdict` | app/ratelimit.py:58-71 | `check` decides as a limiter that keeps the whole log; a refusal's wait runs until the oldest time in the window leaves it and lies in (0, window] |
| `LimiterRuns.WindowBound` | app/ratelimit.py:23 | Over any run, in any half-open interval no longer than the window, a key is admitted at most limit * (1 + its evictions and resets in the interval) times |
| `LimiterRuns.ForgetsOnlyByDropping` | app/ratelimit.py:50-71 | `check` allows exactly when a never-forgetting limiter's count of the window is below limit plus what of it came before the key's last drop; and that is more than nothing only after a drop inside the window |
| `LimiterRuns.RetryAfterExact` | app/ratelimit.py:58-68 | If nothing of the key is admitted or dropped meanwhile, a later check is admitted if and only if the reported wait has passed |
| `LimiterIsolation.RefusedUntil` | app/ratelimit.py:58-68 | After a refusal, in any run that does not drop the key, whatever the key and others try, the key is not admitted before the reported wait has passed |
| `LimiterArrivals.WindowBoundByArrivals` | app/ratelimit.py:50-71 | With max_keys at least 4, over any run without reset, a window admits a key at most limit * (1 + ceil(F / (max_keys // 4))) times, F being the attempts in it by keys that were not in the map |
| `LimiterCapacity.KeyMapBounded` | app/ratelimit.py:50-56 | Over every run the map never holds more than max_keys keys, if and only if max_keys is at least 4 |
| `LimiterCapacity.LimitHoldsExactly` | app/ratelimit.py:22-23 | In every run without reset each key is admitted at most limit times in every half-open interval as long as the window, if and only if max_keys is 0, 1, 2 or 3 |
| `LimiterCapacity.LimitCanBeExceeded` | app/ratelimit.py:50-56 | For every other max_keys a run of attempts at one moment admits a key limit + 1 times |
| `LimiterIsolation.KeysAreIsolated` | app/ratelimit.py:58-74 | In any run that does not drop the key, its answers and waits are those of the run of its own attempts alone |
| `AssetIndexing.IndexExact` | app/sync.py:71-98 | After any list of rows a key is in the table iff all rows having it share one id, with the last such row, and is ambiguous iff they have two |
| `AssetIndexing.KeysPartition` | app/sync.py:71-98 | Table keys and ambiguous keys are disjoint and together are the keys seen |
| `AssetIndexing.StatusExact` | app/sync.py:71-83 | Absent, one id or ambiguous is the number of ids the key's rows have: none, one, more |
| `AssetIndexing.StatusMonotone` | app/sync.py:71-83 | More rows move a key only from absent to one id to ambiguous, never to another id |
| `AssetIndexing.LookupExact` | app/sync.py:58-98 | A device matches an id iff the rows whose serial number is the device's, both given and but for case and blanks around them the same, all have that id, or do not single out one and the rows with its name all have that id |
| `AssetIndexing.SpellingFree` | app/sync.py:41-46 | Case and blanks around serial numbers and names, in the rows or in the device, change no match |
| `AssetIndexing.BlankMatchesNothing` | app/sync.py:41-46 | A device with only blank serial number and name matches nothing, and a matched id belongs to a row with one that is not blank |
| `AssetIndexing.LookupOrderFree` | app/sync.py:58-98 | Matches depend only on which ids carry which keys: not on order, repetition or the columns the job writes |
| `AssetIndexing.PermutationFree` | app/sync.py:58-98 | Permuting the rows changes no match and no ambiguous key |
| `AssetIndexing.KeyTable.Add` | app/sync.py:71-83 | `_add_key` on a dictionary and a set takes the table to the step function's |
| `AssetIndexing.AssetIndex.Find` | app/sync.py:58-68 | `lookup` over the two tables |
| `AssetIndexing.BuildAssetIndex` | app/sync.py:86-98 | The loop builds both tables of the whole list |
| `AssetIndexing.Normalise` | app/sync.py:41-46 | A value gives a key iff it is given, not empty and not blank, and the key is the value stripped and casefolded |
| `SyncJob.OwnerIsFirstUser` | app/sync.py:137-144 | The user table answers as a linear search for the first user whose UPN or id normalises to the key |
| `SyncJob.IndexUsers` | app/sync.py:137-144 | The two nested loops build that table |
| `SyncJob.ResolveHonest` | app/sync.py:112-134 | The owner is the display name, or else UPN, of the first user whose UPN or id is the device's owner but for case and blanks, "Unknown" if there is none; compliance is "Compliant", "NonCompliant" or "Unknown" as reported; a missing check-in stays missing |
| `SyncJob.OnlyThreeColumns` | app/sync.py:163-186 | Whatever fails, rows keep place and all columns but three; a row changes only if a PATCH for a device matching it took effect, its check-in only if that device has one |
| `SyncJob.PartialThenFull` | app/sync.py:147-188 | A run with any failed PATCHes, applied or not, followed by a successful run leaves the list as the successful run alone would |
| `SyncJob.Converges` | app/sync.py:147-188 | The same after any number of partial runs |
| `SyncJob.Idempotent` | app/sync.py:147-188 | Running the job twice is running it once |
| `SyncJob.LastMatchWins` | app/sync.py:163-186 | Whatever fails, a row ends with owner and compliance of the last PATCH that reached it and the check-in of the last of those that had one; what none supplied stays as it was |
| `SyncJob.PatchTwice` | app/sync.py:179-186 | A PATCH that a retry applies twice is applied once |
| `SyncJob.Accounting` | app/sync.py:163-188 | matched + unmatched = devices, patched + errors = matched, each unknown counter is the number of matched devices with that gap |
| `SyncJob.ListsComplete` | app/sync.py:163-186 | The summary names every device without a match and every match whose PATCH was not seen to succeed, in the order of the devices |
| `SyncJob.ExitZeroIffAllPatched` | app/sync.py:201-217 | The exit code is 0 iff patched = matched, iff every matched device's PATCH was seen to succeed |
| `SyncJob.SyncMain` | app/sync.py:201-217 | 2 on bad configuration and 1 on a failed read, the list untouched; otherwise the run, and 0 iff every matched device's PATCH was seen to succeed, else 1 |
| `SyncJob.SyncAssets` | app/sync.py:147-188 | The job's loop leaves the list and the summary the specification says, for every pattern of failures |
| `SyncJob.SyncDevice` | app/sync.py:163-186 | One pass of the loop: look up, resolve, count, PATCH, record |
| `Provisioning.CreatesOnly` | scripts/provision_sharepoint.py:313-429 | For any site and any failures nothing that existed is removed or altered: columns and items are only appended, and a list that had items gets none |
| `Provisioning.ExitZeroMeansPresent` | scripts/provision_sharepoint.py:499-539 | Exit code 0 means every list and column of the specs is there and, with --seed, none is empty that has something to seed |
| `Provisioning.CleanRunSucceeds` | scripts/provision_sharepoint.py:490-539 | A run in which no request fails exits with 0 |
| `Provisioning.NothingToDo` | scripts/provision_sharepoint.py:326-429 | On a site that has everything no POST is sent, however the requests fare |
| `Provisioning.SecondRunCreatesNothing` | scripts/provision_sharepoint.py:473-474 | After a run that exits with 0 another run sends no POST and changes nothing |
| `Provisioning.Find` | scripts/provision_sharepoint.py:339-350 | The first list whose display name or name folds to the wanted one |
| `ProvisioningExact.FindsFirstCalled` | scripts/provision_sharepoint.py:339-350 | The same both ways, said of the names: it finds list i iff i is the first so called, and none iff there is none |
| `ProvisioningExact.AddedAsSpecified` | scripts/provision_sharepoint.py:362-390 | Whatever fails, a column on the site after a run was there, came with the list, or has the name, display name and kind of a column that a spec of that list wants and that was not there under either name |
| `ProvisioningExact.KindsAsSpecified` | scripts/provision_sharepoint.py:74-89 | After exit code 0 every spec column is on the list its spec finds, and one that was not there has the spec's name and kind, choices included, unless specs of that list contradict each other |
| `ProvisioningExact.MadeAsSpecified` | scripts/provision_sharepoint.py:352-360 | Whatever fails, a list that is new after a run is named as some spec names it and starts from the server's columns |
| `ProvisioningExact.EachColumnTried` | scripts/provision_sharepoint.py:376-390 | One failed column stops none of the others: each has its own row in order, EXISTS iff it was there, and its own POST iff it was not |
| `ProvisioningExact.EveryColumnReported` | scripts/provision_sharepoint.py:362-390 | Unless a run is aborted its report says of every column of every spec what became of it |
| `ProvisioningExact.ListIdsAreFound` | scripts/provision_sharepoint.py:334-335 | Unless the run was aborted the ids it prints are those of the lists its specs find |
| `ProvisioningExact.ExitZeroMeansConfirmed` | scripts/provision_sharepoint.py:532-539 | The exit code is 0 or 1, and 0 only if every request sent was seen to succeed |
| `ProvisionScript.ScriptMakes` | scripts/provision_sharepoint.py:112-225 | On a site without them a clean run makes the Assets and Tickets lists with exactly their eleven columns, kinds and choices, in order, reports each as created and prints their ids |
| `ProvisionScript.ScriptAgrees` | scripts/provision_sharepoint.py:112-225 | The script's own specs contradict each other on no list |
| `ProvisionScript.PlanOfList` | scripts/provision_sharepoint.py:435-463 | What the dry run reports of a list, row by row |
| `ProvisionConvergence.RunNames` | scripts/provision_sharepoint.py:326-337 | The lists after any run are those of a clean run over the first k specs, in order, and over all if it was not aborted |
| `ProvisionConvergence.RunBound` | scripts/provision_sharepoint.py:362-390 | Whatever fails, a list's columns lie between what it had and that plus everything wanted and missing, and equal the latter after a clean run, if what the specs want of that list is coherent |
| `ProvisionConvergence.PartialThenClean` | scripts/provision_sharepoint.py:326-429 | After a run with any failures a clean run reaches the lists and columns one clean run would |
| `ProvisionConvergence.Converges` | scripts/provision_sharepoint.py:326-429 | The same after any number of failed runs |
| `ProvisionSeeding.SeededOnce` | scripts/provision_sharepoint.py:404-429 | After any number of runs a list has the items it had, or had none and holds the first seed rows, in order, of a spec that finds it, each once if no POST took effect twice and at most three times otherwise |
| `SeedingExactness.SeedExactly` | scripts/provision_sharepoint.py:417-429 | For distinct seed rows the loop leaves what was there and a beginning of the rows, each once, if and only if none of the POSTs it sent took effect more than once |
| `SeedingExactness.NeverRepeatsExactly` | scripts/provision_sharepoint.py:404-429 | For specs with distinct seed rows: whatever the requests meet, every list ends with the items it had or with a beginning of the seed rows of a spec that finds it, if and only if --seed is off or every spec with seed rows finds a list that has items |
| `SeedingExactness.SeedRowTwice` | app/graph.py:123-141 | On any site whose Assets list is missing or empty, some run of the script's own two specs exits with 0 and leaves the first asset twice, its POST having timed out after taking effect |
| `ProvisionObjects.Provisioner.FindList` | scripts/provision_sharepoint.py:339-350 | The search loop |
| `ProvisionObjects.Provisioner.EnsureColumns` | scripts/provision_sharepoint.py:362-390 | The column loop over the remote site and the report |
| `ProvisionObjects.Provisioner.MaybeSeed` | scripts/provision_sharepoint.py:404-429 | The probe and the seed loop, which stops at the first failure |
| `ProvisionObjects.Provisioner.EnsureList` | scripts/provision_sharepoint.py:326-337 | Find or create, then columns, then seed |
| `ProvisionObjects.ProvisionSite` | scripts/provision_sharepoint.py:490-539 | The run over all specs and the exit code |
| `ProvisionObjects.Report.Failed` | scripts/provision_sharepoint.py:252-254 | True iff some row says FAILED |
| `ProvisionObjects.PrintPlan` | scripts/provision_sharepoint.py:435-463 | The dry run's report |
| `ProvisionObjects.PlanForetells` | scripts/provision_sharepoint.py:435-463 | A run that exits with 0, on whatever site, reports on exactly the planned targets in the planned order |
| `ProvisionObjects.RerunReports` | scripts/provision_sharepoint.py:326-429 | On a site that has everything, a run that gets through reports EXISTS once for each list and column, SKIPPED once a list, nothing else |
| `ProvisionObjects.RerunReportsThirteen` | docs/SECURITY.md:178-180 | For the two lists of the script that is 13 EXISTS and 0 CREATED |
| `ProvisionObjects.BuiltSpecsFit` | scripts/provision_sharepoint.py:112-225 | On every site the script's own specs meet what the convergence theorem asks |
| `GraphCalls.RequestWithRetry` | app/graph.py:105-163 | It tries again exactly after timeouts, transport errors, 429 and 503, at most n times in all, waits what the server asks up to 60 seconds and otherwise 1, 2, 4, ..., and gives the last response if it is below 400, else an error with its status |
| `GraphCalls.LastAttemptUnique` | app/graph.py:122-163 | Which attempt is the last is determined by the stream of outcomes |
| `GraphCalls.BackoffTotal` | app/graph.py:70-85 | k requests without a usable Retry-After sleep exactly 2^(k-1) - 1 seconds |
| `GraphCalls.SleepBound` | app/graph.py:70-85 | Up to seven attempts sleep at most 60 seconds each time, so three never more than 120 |
| `GraphCalls.RequestJson` | app/graph.py:260-279 | One page: an auth error without a token, an error iff the last of at most three attempts is no response, 400 or above, or neither 204, empty nor a JSON object; otherwise that object's value and link, nothing for 204 or an empty body; at most 120 seconds of sleep |
| `GraphCalls.GetPaged` | app/graph.py:281-302 | On every link graph: it returns iff following the links meets fewer than 1000 pages, each a usable response, the last without a link, and then all their object entries in order; otherwise it raises what the first unusable page raises, or gives up after 1000; at most 3000 requests |
| `GraphCalls.LongChainsRaise` | app/graph.py:290-302 | Endless chains and chains of exactly 1000 pages raise |
| `SlaMetrics.ComputeMetrics` | app/metrics.py:37-78 | Each figure is the number of tickets that meet its definition: not "resolved", due within 30 minutes, resolved within 7 days, of those with a due date; and the percentage of those in time, to the nearest tenth |
| `SlaMetrics.PermutationFree` | app/metrics.py:37-78 | The order of the tickets does not matter |
| `SlaMetrics.Additive` | app/metrics.py:37-78 | Counters add over two lists and the joint percentage lies between the two, whichever way each tie is rounded |
| `SlaMetrics.ShiftFree` | app/metrics.py:40-62 | Shifting all times and the clock together changes nothing |
| `SlaMetrics.Nested` | app/metrics.py:48-68 | due <= open, met <= measured <= resolved, open + resolved <= tickets; the percentage is null iff nothing was measured |
| `SlaMetrics.ComplianceIsNear` | app/metrics.py:69 | The percentage is in [0, 100] and within 0.05 of the exact ratio |
| `SlaMetrics.ReadsFullExactly` | app/metrics.py:69 | It reads 100.0 iff fewer than one in 2000 was late and 0.0 iff fewer than one in 2000 was met, up to the tie |
| `SlaMetrics.EndsMeanAllAndNone` | app/metrics.py:69 | Below 2000 measured tickets the ends mean all and none; above they need not |
| `MetricsPipeline.RequireMetricsAuth` | app/security.py:93-147 | Without a configured token 503, without exactly that token 401, the limiter untouched either way; with it the limiter's verdict: let through, or 429 with the wait in whole seconds; nothing else gets past |
| `MetricsPipeline.EnterHandler` | app/main.py:174-212 | The handler up to the suspension: it answers at once iff a fresh value is stored, with that value, as a hit |
| `MetricsPipeline.LeaveHandler` | app/main.py:190-212 | From the suspension on: the flight's value as a miss, 504 for a timeout, 502 for a Graph failure, 500 otherwise |
| `MetricsPipeline.PayloadCanDiffer` | app/main.py:190-210 | A run in which a caller is sent a newer value under the age of the stored older one, and the next hit the older |
| `PipelineRuns.PartsKeepTheirInvariants` | app/main.py:162-212 | In every run of the endpoint limiter and cache each make a run of their own, so all the above holds of them |
| `PipelineRuns.RepliesWithinExpiry` | app/main.py:207-210 | Whenever in a run a 200 is sent, its max-age is the largest whole number of seconds (0 if none) that does not reach past stored_at + TTL, and an age is available; if no call found nothing fresh while a success was on its way, the payload is the stored value |
| `PipelineRuns.AnsweredByUpstream` | app/main.py:190-212 | In any run whoever goes on after the await is answered by what its upstream task ended with: 200 with the value, 504, 502 or 500 |
| `PipelineRuns.GateAnswers` | app/security.py:93-134 | Every request of a run has its own answer, in order: let through or 429 iff it presents the configured token, 503 iff none is configured, 401 otherwise |
| `PipelineRuns.ThrottledChangesNothing` | app/security.py:136-145 | With it a request is told 429 exactly when its window is full, and then neither the cache nor any caller's log changes |
| `PipelineRuns.UnauthenticatedInvisible` | app/security.py:93-134 | Leaving all unauthenticated requests out of any run changes neither limiter nor cache, and the answers to the others are all the gate says without them; their own answers, in order, are 503 where no token is configured and 401 otherwise, whatever the load |
| `PipelineRuns.UpstreamWithinAdmissions` | app/main.py:162-212 | At every prefix of every run upstream calls are at most the calls of `get`, and those at most the admitted requests |
| `PipelineRuns.ThirtyAMinute` | app/security.py:56-61 | In any minute a caller gets at most 30 requests through, 30 more for each time it was evicted in it |
| `PipelineRuns.ThirtyAndArrivals` | app/security.py:56-61 | That is at most 30 more for every 1024 authentic attempts in the minute, or part of 1024, by callers the limiter does not remember |
| `PipelineRuns.HeaderWait` | app/security.py:136-145 | The header lies between 1 and the window; waiting one second more always suffices, waiting exactly that long iff the wait was at most 1 or whole |
| `PipelineRuns.HeaderCanBeShort` | app/security.py:144 | On the endpoint's limiter, 30 admissions at 0, a refusal at 30.5 that says 29, and another 29 seconds later |

## Left out

- HTTP, MSAL, FastAPI routing and start-up, logging, configuration and the demo endpoint: only what they hand to the code above appears, as parameters.
- Parsing of Graph payloads and of the Authorization and X-Forwarded-For headers: the models start from the parsed fields, the presented token and the caller's name.
- The constant-time comparison of tokens is plain equality.
- Unicode: `strip` and `casefold` are one arbitrary function on strings; timestamps arrive as numbers in UTC.
- IEEE rounding: times are reals and percentages exact ratios, so nothing is said about the last bit of a sum or of `round`, nor about a NaN or infinite Retry-After beyond what the parsed value would give.
- `asyncio.Lock` is never contended, since its body does not suspend, and is not modelled; nor is the 25 second deadline, which is one more exception a flight may end with.
- SingleFlight.UpstreamSpacing: assumes the scheduling it names, because without it the promise is false.
- GraphCalls.SleepBound: stops at seven attempts, because the eighth may back off for longer than a minute.
- A list or column POST that a retry sends again: the server is taken to refuse a second one of the same name, so it counts as one that took effect unseen.
- A PATCH or lookup by an empty id: rows that come without an id all get the empty one, and the model changes them all, which the server would not do.
- List ids are positions in the site, and the script's console output is only its report rows.
- Concurrent users of the SharePoint site while the job or the script runs.
- `app/sharepoint.py`, `app/models.py` beyond the record shapes, infrastructure templates and workflows: they would only add easy members.
