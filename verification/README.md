# Control server state machines: a Dafny model

This project models the state machines behind the control server's views, workers and panel, and
proves what they promise over whole runs. Tables are sequences (a row's primary key is its position)
or maps; a request is a function on the tables, and beside it a class performs the same request
statement by statement on mutable fields and is proved to end in the same tables. Theorems are about
those functions and about runs, that is, arbitrary sequences of requests, steps and interleavings.

A transaction that raises is `None` (or `false`) and leaves the tables as they were. Unique
constraints are checks that abort. Clocks, random tokens, generated proxy lines, upstream answers,
broker outcomes, digests, signatures and validators are parameters; where a theorem needs it, the
clock does not run backwards and tokens are fresh.

| File | Contents |
|---|---|
| `ProfileLease*.dfy` | the profile-create lease and its FIFO queue; releases are two separate statements |
| `ProxyPool.dfy`, `ProxyPoolFacts.dfy` | tables and operations of the proxy pool, and how stock and counts react |
| `ProxyPoolLines.dfy`, `ProxyPoolDemand.dfy` | the lines that fulfilment hands out, and exactly when it goes through |
| `ProxyPoolFulfillment.dfy`, `ProxyPoolJobs.dfy` | oldest-first fulfilment; job counters, statuses and caps over runs |
| `ProxyPoolSound.dfy`, `ProxyPoolRuns.dfy`, `ProxyPoolIssue.dfy` | exactly-once issue over every run |
| `ProxyPoolStock.dfy` | the stock bound, all-or-nothing job creation and exactly when it succeeds |
| `ProxyPoolCreation.dfy`, `ProxyPoolGenerated.dfy` | what a new job is given, line by line, without and with a generator |
| `ProxyPoolEffects.dfy` | what top-ups, refills, claims, removals and resizes leave, row by row |
| `ProxyPoolLedger.dfy` | what every run writes, issues and drops, per target |
| `ProxyPoolP3.dfy`, `ProxyPoolP3Tangled.dfy` | the pool with the repair of P3 lines plugged in |
| `ProxyPrefill.dfy`, `ProxyPrefillRefinement.dfy` | the bulk prefill and its agreement with the one-target refill |
| `ProxyPrefillOrder.dfy`, `ProxyPrefillCompletion.dfy` | refills in any order, and exactly when they complete |
| `ProxyPrefillFailure.dfy`, `ProxyPrefillSizes.dfy` | what any prefill leaves, and exactly when two batch sizes leave the same |
| `ProxyPrefillLimits.dfy`, `ProxyPrefillTangled.dfy` | inputs on which the batch size shows |
| `ProxyPoolDesk.dfy`, `PoolExpansionDesk.dfy` | the same operations step by step on mutable tables |
| `PoolExpansion.dfy`, `PoolExpansionEffects.dfy` | scope expansion: its locations and what it writes |
| `P3Routing*.dfy`, `P3Url*.dfy`, `P3Repair*.dfy` | the P3 selector, the proxy URL printer and parser, the repair of legacy lines |
| `ExitIpCooldown.dfy`, `ExitIpCooldownRuns.dfy` | the global exit-IP cooldown |
| `ExitIpCooldownOutcomes.dfy` | the outcome of a claim, and the registry, told from the claims before |
| `BrowserCatalog.dfy`, `BrowserCatalogRuns.dfy`, `BrowserVersions.dfy` | the fenced catalog sync and the paged version list |
| `BrowserCatalogMerge.dfy` | where each published field comes from |
| `P3Geography*.dfy` | reconciliation of a country's geography |
| `Releases.dfy`, `ReleaseDesk.dfy`, `ReleaseRuns.dfy`, `ReleaseTheorems.dfy` | release lifecycle and update selection |
| `ReleaseSaves.dfy`, `ReleasePanel.dfy` | exactly which saves and panel actions are accepted, and what they store |
| `ReleaseReach.dfy`, `Trimming.dfy` | which clients a release reaches and what is chosen for them; trimming of text |
| `ManagedCron.dfy` | the managed crontab block |

Some promises of the code hold only under a condition. The model states the condition and gives an
input for which the promise fails.

- Repairing a legacy P3 row yields today's line if and only if each segment that the repair skips (a
  region without ISO parents, a blank city) was already printed as today
  (`P3RepairTheorems.LegacyBecomesToday`); `P3RepairTheorems.SkippedRegionStays` is a region stored and
  printed in lower case.
- The subdivision selector runs for ever if and only if walking up the same-country parents comes back
  to a code before five distinct regions are collected (`P3RoutingWalk.RunsForever`,
  `P3RoutingWalk.NeverEndsOnCycles`); `P3RoutingWalk.SelfParentNeverEnds` is the smallest case, and every
  acyclic catalog is fine.
- A prefill refills whole batches up to the first blocked one and touches nothing after that
  (`ProxyPrefillFailure.PrefillStops`), so its batch size can show. Two sizes leave the same targets,
  lines in stock, jobs and proxies if and only if every target that only one of them got to was idle:
  full, without a claim, its jobs served (`ProxyPrefillSizes.BatchSizeIsIrrelevant`).
  `ProxyPrefillLimits.FailureShowsTheSize` is an input on which they do not. As long as repairs stay
  apart, how far each gets is told from the tables before the call
  (`ProxyPrefillSizes.PrefillReaches`, `ProxyPrefillSizes.SizesAgreeExactly`).
- Repairs stay apart among P3 lines of distinct sessions (`ProxyPoolP3.DistinctSessionsAreUntangled`).
  If two lines ever share a session, the order of the refills can decide whether they complete:
  `ProxyPoolP3Tangled.SharedSessionShowsTheSize` is such a pair.

Exactly when a job on a generated provider is created is stated too (`ProxyPoolStock.CreationSucceeds`):
its target is not switched off, the generator hands out the lines it lacks, and the oldest stock can be
issued one row after the other.

## Model

| member | source | states |
|---|---|---|
| ProfileLease.LeaseDesk.AcquireLease | control/views.py:1340-1442 | the acquire transaction, statement by statement, ends in the tables and the answer of its specification, over which the theorems below are proved |
| ProfileLeaseAnswers.GoneExactly | control/views.py:1344-1374 | in every reachable state a request is told that it is gone if and only if it is a poll and every row with its token is completed, expired, stale in the queue, or active without a live lease of that token (in particular when there is no such row) |
| ProfileLeaseAnswers.GrantsAreLive | control/views.py:1357-1442 | in every reachable state whoever is told to go on holds, afterwards, a lease of the key with that token and its own client that has not run out and ends within 300 seconds |
| ProfileLeaseAnswers.GoneEndsTheHolder | control/views.py:1363-1373 | an active request that is told it is gone is expired without a token, and its lease is not in the table |
| ProfileLeaseAnswers.AcquireLeaves | control/views.py:1340-1442 | everything an acquire leaves, told from the tables before it and its answer: the caller's row, each other row, the lease of the key and all other leases |
| ProfileLeaseAnswers.PositionExactly | control/views.py:1407-1422 | a waiting answer reports one plus the number of rows waiting for the key that were created strictly earlier, counted before the request (for a new request without the client's own, which it replaces) |
| ProfileLease.LeaseDesk.ContendForLease | control/views.py:1393-1442 | reaping an expired lease, choosing the queue head and granting or reporting a position |
| ProfileLease.LeaseDesk.CancelRequest | control/views.py:1469-1478 | the update row by row: exactly the queued rows of the key, client and token expire now, every other row and all leases stay, and the answer says whether there was one |
| ProfileLease.LeaseDesk.ReleaseLease | control/views.py:1479-1481 | first statement of a release: the lease goes exactly when token and client match, and nothing else moves |
| ProfileLease.LeaseDesk.CloseQueue | control/views.py:1482-1484 | second statement of a release, row by row: exactly the rows of key, client and lease token complete and lose the token, every other row and all leases stay |
| ProfileLeaseRuns.StepKeeps | control/views.py:1344-1484 | every request, and each half of a release in any interleaving, keeps the invariant of queue, leases and grant history |
| ProfileLeaseTheorems.MutualExclusion | control/views.py:1357-1436 | the live intervals of all leases ever granted for a key are pairwise disjoint and at most 300 seconds long |
| ProfileLeaseTheorems.LeasesMatchActiveRows | control/views.py:1424-1436 | every lease is backed by exactly one active row with its token and client |
| ProfileLeaseTheorems.FirstInFirstOut | control/views.py:1374-1436 | grants of a key follow (created_at, pk), and a client has at most one queued row per key |
| ProfileLeaseTheorems.PollGrantsFirstInLine | control/views.py:1404-1436 | a poll of a waiting request is granted if and only if it is first in line and no lease is live |
| ProfileLeaseTheorems.JoinGrantsWhenAlone | control/views.py:1374-1436 | a new request is granted at once if and only if no lease is live and nobody else waits |
| ProfileLeaseTheorems.PositionNeverGrows | control/views.py:1407-1422 | whatever happens between two polls of a waiting request, its reported position does not grow |
| ProfileLeaseTheorems.PollKeepsLiveLease | control/views.py:1357-1362 | polling returns the live lease and extends nothing |
| ProfileLeaseTheorems.WaitersHaveHead | control/views.py:1404-1411 | in every reachable state a request told to wait finds a queue head: the branch for an empty queue is never taken |
| ProfileLeaseTheorems.UpdatesEndOneRow | control/views.py:1470-1484 | in every reachable state a cancellation ends at most one row, a queued one, and a close at most one, the active one of its lease |
| ProxyPoolDesk.PoolDesk.ReservePoolProxies | control/proxy_jobs.py:163-234 | issuing the oldest entries of a scope with repair, constraint checks and rollback |
| ProxyPoolDesk.PoolDesk.ReserveStaticProxies | control/proxy_jobs.py:116-160 | catalog lines never issued before, up to what the job lacks |
| ProxyPoolDesk.PoolDesk.FulfillWaitingJobs | control/proxy_jobs.py:237-277 | the fulfilment loop with its status writes and early stop |
| ProxyPoolDesk.PoolDesk.MarkTargetJobsFailed | control/tasks.py:305-316 | each waiting or partial job of the scope fails, or stays partial when it has proxies; every other job stays |
| ProxyPoolDesk.PoolDesk.TopUpTarget | control/tasks.py:323-360 | first transaction of a refill |
| ProxyPoolDesk.PoolDesk.RefillProxyPool | control/tasks.py:320-379 | the refill with its error path and its final clearing of the claim |
| ProxyPoolEffects.RefillEnds | control/tasks.py:305-379 | whether a refill ends or raises, its claim is cleared and each waiting or partial job of the scope has its true count and is ready, partial, or with nothing failed (after an error) or waiting; other jobs stay; an inactive or missing target is left alone |
| ProxyPoolEffects.TopUpWrites | control/tasks.py:323-360 | a top-up writes target_count minus stock generated lines, in order, but for those whose digest is live or came before; without a generator it raises if and only if something is missing |
| ProxyPoolDesk.PoolDesk.QueueRefillProxyPool | control/tasks.py:382-416 | queued if and only if the target is active, no fresh claim is on it and the broker takes the message; the claim is given back when it does not |
| ProxyPoolDesk.PoolDesk.EnsureDynamicInventory | control/views.py:1649-1720 | target creation, rotation and generation before a job |
| ProxyPoolDesk.PoolDesk.CreateProxyJob | control/views.py:1829-1905 | the job-creation transaction; any error leaves all tables as they were |
| ProxyPoolCreation.StaticCreation | control/views.py:1839-1893 | after any run, a created job of a provider other than P1, P2 and P3 has the oldest open stock of its scope, repaired, and then, without region and city, the first catalog lines whose digests are not issued by then, in order, as many as are missing and there are distinct such digests; its status is ready, partial, or waiting or failed by the on-demand setting; a refill target is added only for a short job; no other row moves |
| ProxyPoolCreation.StaticCreationSucceeds | control/views.py:1829-1905 | and it is created if and only if those rows of the stock can be issued one after the other |
| ProxyPoolGenerated.GeneratedCreation | control/views.py:1649-1905 | after any run, a created job of P1, P2 or P3 is ready with its candidates: the lines in stock, oldest first, and then the generated ones in order, repaired; with fresh proxies of P1 or P3 the old stock is dropped first; the rest of the old stock stays, other targets keep theirs, and a missing target is created with 40/8, 50/10 or 1000/200 |
| ProxyPoolDesk.PoolDesk.RemoveAvailableStock | control/panel_operations.py:409-424 | the panel step that drops stock and switches targets off |
| ProxyPoolEffects.RemovesExactly | control/panel_operations.py:409-424 | exactly the listed targets are switched off without a pending refill and exactly their available entries are discarded |
| ProxyPoolDesk.PoolDesk.ResizePools | control/panel_operations.py:433-460 | the panel step that trims the newest excess, sets levels and claims refills |
| ProxyPoolEffects.ResizesExactly | control/panel_operations.py:433-460 | exactly the listed targets get the levels, keep the oldest entries up to the count, and are claimed for a refill when what is left is below the threshold and no fresh claim is on them; every other row stays |
| ProxyPoolDesk.PoolDesk.FillTargetBatch | control/prefill.py:45-168 | one prefill transaction with its entry buffer; all or nothing |
| ProxyPoolDesk.PoolDesk.FillTargetsDirect | control/prefill.py:25-173 | the batched, buffered prefill ends in the tables of its specification, for every entry batch size, and returns the number of lines created |
| ProxyPoolFulfillment.FulfillsOldestFirst | control/proxy_jobs.py:237-277 | one call on an active target, whatever counters and statuses said before: no job gains while an older unfinished one of the scope is short, the oldest stock goes first, and nothing is left while a job is short |
| ProxyPoolFulfillment.ServeKeeps | control/proxy_jobs.py:92-97 | serving a job keeps counters equal to reservations, within the reservation target, with matching statuses |
| ProxyPoolJobs.JobsStaySound | control/proxy_jobs.py:237-277 | over any run of complete steps, ready_count equals the reservations, no job exceeds its target, and ready, partial, waiting or failed mean all, some and none |
| ProxyPoolJobs.EveryFulfilmentIsFair | control/proxy_jobs.py:237-277 | after any run from the empty pool, separate reservations and status writes included, the next fulfilment of an active target is oldest-first |
| ProxyPoolJobs.NobodyGetsTooMuch | control/proxy_jobs.py:92-97 | over any run, however reservations interleave, no job has more reservations than its reservation target |
| ProxyPoolJobs.MarkFailedKeeps | control/tasks.py:305-316 | marking jobs failed keeps statuses and counts in agreement |
| ProxyPoolJobs.CreateKeeps | control/views.py:1829-1905 | job creation writes the true reservation count of the new job, static lines included, and leaves other counts |
| ProxyPoolSound.IssueOneIsGood | control/proxy_jobs.py:190-233 | issuing one entry adds the one reservation that matches it and keeps every fingerprint unique |
| ProxyPoolRuns.StepIsGood | control/proxy_jobs.py:116-277 | every pool step keeps the issue invariant and only extends the history |
| ProxyPoolIssue.IssuedExactlyOnce | control/proxy_jobs.py:163-234 | over every run each reserved entry has exactly one reservation with its line, digest and client, entries in stock have none, no fingerprint is issued twice, and issued entries never change again |
| ProxyPoolLedger.GeneratedIsAccountedFor | control/panel_operations.py:409-460 | over every run, the lines that refills, creations and prefills wrote for a target = those in stock + the reservations of its entries + those that rotations, removals and resizes dropped |
| ProxyPoolLedger.DeparturesAreAccountedFor | control/panel_operations.py:409-460 | between any two states of a run, what left the stock of a target was dropped or has a new reservation |
| ProxyPoolLedger.StepBalances | control/tasks.py:323-360 | every step: live rows after it + what it drops = live rows before it + what it writes |
| ProxyPoolDemand.FulfilsExactly | control/proxy_jobs.py:237-277 | a fulfilment goes through if and only if the oldest rows that its unfinished jobs take together can be issued one after the other, told from the tables before it |
| ProxyPoolLines.ServeLines | control/proxy_jobs.py:173-234 | serving a job hands it exactly the oldest lines in stock, repaired and in order, and leaves the other lines |
| ProxyPoolStock.StockStaysBounded | control/tasks.py:323-360 | available <= target_count is inductive over all steps, however refills, prefills, creations and panel steps overlap |
| ProxyPoolStock.TopUpStaysBelowTarget | control/tasks.py:323-360 | no overlapping refill lifts a target above the larger of what it found and its target count |
| ProxyPoolStock.CreationIsAllOrNothing | control/views.py:1649-1905 | a P1/P2/P3 job is ready with exactly its candidates, all from stock, or nothing changes; a fresh pool issues only entries of this request; no target is left with more stock than before |
| ProxyPoolStock.CreationSucceeds | control/views.py:1649-1905 | a P1/P2/P3 request is served if and only if its target is not switched off, the generator hands out the lines it lacks and these are new, and the stock it takes can be issued in turn, repairs included |
| ProxyPoolStock.UnrepairedSucceeds | control/views.py:1649-1905 | with an active target, new lines and nothing to repair in the stock of its own scope, a request is always served |
| ProxyPoolP3.TodayRequestsSucceed | control/views.py:1649-1905 | so a P3 request is served when its stock and its new lines are lines of today, repair function included |
| ProxyPoolP3.DistinctSessionsAreUntangled | control/proxy_jobs.py:27-89 | stocked P3 lines with distinct sessions, printed whenever, are never repaired onto one another |
| ProxyPoolStock.DiscardsNewest | control/panel_operations.py:447-455 | trimming keeps exactly the oldest entries and other targets' stock |
| ProxyPrefillFailure.PrefillStops | control/prefill.py:45-173 | for targets listed once and fresh lines for those that are there, every prefill, completed or not, ends in the tables of the one-target refills in turn of the whole batches before the first blocked one (missing, inactive or owned target, or a refill that raises), and every later target, its stock and its jobs are untouched |
| ProxyPrefillOrder.OrderIsIrrelevant | control/tasks.py:320-379 | refills run in any order, when they complete, leave every target the same lines in stock and give every job the same proxies and status |
| ProxyPrefillSizes.BatchSizeIsIrrelevant | control/prefill.py:28-45 | two batch sizes, whether they complete or not, leave the same targets, stock, jobs and proxies if and only if every target that only one of the two got to was idle |
| ProxyPrefillSizes.PrefillReaches | control/prefill.py:45-173 | with repairs that stay apart, a prefill refills exactly the whole batches before the first target that is missing, inactive, owned or cannot be filled, all told from the tables before it; it completes if and only if there is none |
| ProxyPrefillSizes.SizesAgreeExactly | control/prefill.py:28-45 | so, told from the tables before the call, two batch sizes leave the same if and only if every target between the ends of their whole batches is idle |
| ProxyPrefillOrder.CreatedIsShortage | control/prefill.py:94-139 | a completed prefill of fresh lines returns exactly what its targets lacked together |
| ProxyPrefillRefinement.KeyOrderHidesTheSize | control/prefill.py:28-45 | for targets in key order the batch size changes neither whether the prefill completes nor, when it does, any table |
| ProxyPrefillCompletion.InTurnCompletes | control/tasks.py:320-379 | as long as no repair of one target runs into a line of another, refills in turn all complete if and only if each would alone |
| ProxyPrefillCompletion.SizeDoesNotDecideCompletion | control/prefill.py:28-45 | and then, for every order and batch size, a prefill of unowned targets completes if and only if each refill alone would |
| ProxyPrefillCompletion.CompletesExactly | control/tasks.py:320-379 | a refill from fresh lines completes if and only if its lines are supplied and the rows its jobs will take can be issued in turn |
| ProxyPrefillLimits.FailureShowsTheSize | control/prefill.py:45-173 | an input on which two sizes differ: the generator of the second target fails |
| ProxyPrefillTangled.TangledRepairsShowTheSize | control/prefill.py:45-173 | for any two targets and repairs where the repair of one line gives the line that the other still stocks, the batch size decides whether the prefill completes |
| ProxyPoolP3Tangled.SharedSessionShowsTheSize | control/proxy_jobs.py:27-89 | with the P3 repair, two printed lines that share a session, of a hyphenated city and its spaced namesake, are such lines |
| ProxyPrefillRefinement.GuardChangesNothing | control/prefill.py:141-168 | skipping targets whose scope does not wait changes nothing |
| ProxyPrefillRefinement.ClaimExcludes | control/tasks.py:385-394 | once a refill has claimed a target, no other claim is taken and no prefill whose list holds it completes until the claim is stale |
| PoolExpansionDesk.ExpansionDesk.ExpandProxyPoolScope | control/tasks.py:419-506 | provisioning, raising and queueing on the mutable table |
| PoolExpansionDesk.ProvisioningIsComplete | control/tasks.py:430-498 | every configured bundle and location has exactly one active target with at least its stock levels; no level goes down; other targets are unchanged; 1 <= threshold <= target is kept |
| PoolExpansionDesk.ProvisioningIsIdempotent | control/tasks.py:430-498 | a second call changes no stock number |
| PoolExpansion.SpecsAreDistinct | control/proxy_expansion.py:27-104 | the locations of any selection are distinct |
| PoolExpansionEffects.SpecsExactly | control/proxy_expansion.py:20-104 | which locations a selection stands for: for P1 and P3 the first listed city of that name up to case, a listed region with its listed cities, or the country with all of its listed regions and cities; for others the values themselves; none for an unlisted region |
| PoolExpansionEffects.ExpandsExactly | control/tasks.py:430-498 | each asked location has a target with the larger of what it had and what is asked (cities at most 40 and 8), active and claimed unless a fresh claim is on it; all other targets stay |
| P3RoutingWalk.SubdivisionSelector | control/p3_routing.py:9-36 | on every input on which the loop ends it returns the selection |
| P3RoutingWalk.RunsForever | control/p3_routing.py:25-35 | the loop makes every number of passes if and only if the walk revisits a listed code before the list is full |
| P3RoutingWalk.NeverEndsOnCycles | control/p3_routing.py:25-35 | that is, if and only if some chain of same-country parents from the requested code comes back to one of its codes with fewer than five distinct regions |
| P3RoutingWalk.AcyclicEnds | control/p3_routing.py:25-35 | so it ends on every acyclic parent relation |
| P3RoutingWalk.SelectionIsAncestry | control/p3_routing.py:18-36 | requested code first, distinct, at most five, the rest ancestors, none missing while there is room |
| P3RoutingWalk.AncestorsFollowParents | control/p3_routing.py:25-35 | the listed regions are those of a chain of same-country parents, in order |
| P3RoutingOrder.ParentExactly | control/p3_routing.py:26-32 | a code is followed to the trimmed parent code of its catalog row if and only if that has the same country, in upper case, before its first hyphen and a region after it |
| P3RoutingOrder.SelectionInOrder | control/p3_routing.py:23-36 | the list keeps the order in which the regions first come up, nearest first, and what a full list leaves out comes later than all it has |
| P3RoutingOrder.JoinSplits | control/p3_routing.py:36-36 | the selector joins the codes with single commas, wherever the list is cut |
| P3RoutingWalk.SelfParentNeverEnds | control/p3_routing.py:25-35 | a code that is its own parent keeps the loop running |
| P3UrlRoundTrip.UnquoteQuote | control/tasks.py:82-85 | percent-decoding undoes percent-encoding on all byte strings |
| P3UrlRoundTrip.ParsePrinted | control/tasks.py:82-85 | parsing a printed line recovers protocol, user, password, host and port, whatever user and password contain |
| P3Repair.SubBetween | control/proxy_jobs.py:41-43 | the leftmost shortest match between the markers is the segment |
| P3Repair.RepairsPrinted | control/proxy_jobs.py:36-56 | on a printed line a repair rewrites the user name and nothing else |
| P3RepairTheorems.LegacyBecomesToday | control/proxy_jobs.py:27-89 | repairing a row gives exactly the line printed today, if and only if no segment the code skips differs |
| P3RepairTheorems.SkippedRegionStays | control/proxy_jobs.py:60-70 | a region stored and printed in lower case: its repaired line is not today's |
| P3RepairTheorems.TodayStays | control/tasks.py:157-177 | the repair is the identity on lines printed today |
| P3RepairTheorems.RepairIsIdempotent | control/proxy_jobs.py:27-89 | repairing twice equals repairing once |
| ExitIpCooldown.CooldownDesk.ClaimExitIp | control/exit_ip_cooldown.py:128-257 | the claim, field by field, ends in the rows and the outcome of its specification |
| ExitIpCooldownOutcomes.OutcomesExactly | control/exit_ip_cooldown.py:146-257 | after any run, a claim is rejected if and only if its score is outside 0 to 100, a replay if and only if its own reservation has the last fresh grant of the address and that window is open, refused if and only if the window is open, the cooldown is enforced and it is no replay, and granted afresh otherwise |
| ExitIpCooldownOutcomes.RegistryIsReplayed | control/exit_ip_cooldown.py:166-257 | after any run every row is what the claims of its address left: a grant takes over client, job, reservation, provider, score and window, a replay brings a given score, a refusal adds to the duplicates; and the test record of a pool entry is its last claim |
| ExitIpCooldownOutcomes.SameAddress | control/exit_ip_cooldown.py:73-81 | two spellings share a row if and only if they are equal or one is the IPv4-mapped form of the other |
| ExitIpCooldown.CooldownDesk.CheckExitIp | control/exit_ip_cooldown.py:104-125 | the pre-check changes nothing and computes its specification |
| ExitIpCooldown.CooldownDesk.SetCooldownPolicy | control/exit_ip_cooldown.py:51-70 | a write is taken if and only if it expects no revision or the current one, and then sets the switch, the next revision, its time and its author; a stale one changes nothing |
| ExitIpCooldownRuns.GrantsAreSpaced | control/exit_ip_cooldown.py:146-257 | a fresh claim granted while enforced comes at least the cooldown after every earlier fresh grant of the same address, by any client or provider and whether or not that one was enforced |
| ExitIpCooldownRuns.RowsReflectHistory | control/exit_ip_cooldown.py:217-257 | a row shows the last fresh grant, and duplicate_attempts the number of refusals |
| ExitIpCooldownRuns.WindowMovesByGrants | control/exit_ip_cooldown.py:194-236 | over any run without a fresh grant of an address, refusals and replays leave its window and owner where they were |
| ExitIpCooldownRuns.CheckForetellsClaim | control/exit_ip_cooldown.py:104-125 | whatever run lies between a pre-check and the claim, as long as nobody claims the address and the policy ends as it was: the claim is refused if and only if the pre-check said duplicate and the window is still open |
| ExitIpCooldownRuns.RowsAreNormal | control/exit_ip_cooldown.py:73-81 | over any run the registry holds normal spellings only, so an IPv4-mapped address never has a row of its own |
| ExitIpCooldownRuns.StaleWritersAreRejected | control/exit_ip_cooldown.py:61-70 | a writer that read the revision earlier in a run gets through if and only if nobody wrote the policy since |
| ExitIpCooldownRuns.OneWinnerPerWindow | control/exit_ip_cooldown.py:154-257 | of enforced claims of one address in one window by different reservations exactly the first wins |
| BrowserCatalog.CheckCommon | control/browser_catalog.py:66-90 | the validation loop equals its specification in every iteration order |
| BrowserCatalog.SnapshotDesk.AcquireLease | control/browser_catalog.py:212-217 | the lease is taken for 900 seconds if and only if it is free or expired |
| BrowserCatalog.SnapshotDesk.PublishOwned | control/browser_catalog.py:227-233 | the guarded update field by field, and its reported status |
| BrowserCatalog.SnapshotDesk.FailOwned | control/browser_catalog.py:235-238 | a failure records its error and gives the lease back, if still owned |
| BrowserCatalogRuns.StepKeeps | control/browser_catalog.py:211-238 | acquire, read, fetch, publish and fail of many workers keep the fencing invariant |
| BrowserCatalogRuns.PublishIsFenced | control/browser_catalog.py:211-233 | a successful publish means that nobody published since its worker read, so it merged into the current catalog |
| BrowserCatalogRuns.OnlyPublicationsShow | control/browser_catalog.py:227-238 | over any run there are as many publications as workers that ended updated or unchanged, payload and revision are those of the last one, and nothing else moves them |
| BrowserCatalogRuns.RevisionIsDigest | control/browser_catalog.py:226-233 | a non-empty revision is the digest of the payload |
| BrowserCatalogRuns.KeysNeverShrink | control/browser_catalog.py:222-225 | the key set of the common catalog never shrinks over any continuation of any run |
| BrowserCatalogMerge.PreparedExactly | control/browser_catalog.py:66-90 | when an answer is accepted, and what it makes of the catalog read: every common field of the answer with the answer's value, parsed when it is a text, every other one as read, all of the right type and shape, the four fingerprint fields offered and not empty, and both sizes within 8 MiB |
| BrowserCatalogMerge.PublicationMerges | control/browser_catalog.py:220-233 | over any run, a publication that goes through gives each field the value of the answer its worker fetched, and keeps the field of the catalog it replaces where that answer leaves it out |
| BrowserVersions.FetchBrowserVersions | control/browser_catalog.py:172-208 | the download succeeds if and only if the pages form a complete list, and then returns exactly its rows |
| BrowserVersions.CompleteListsAreWhole | control/browser_catalog.py:172-208 | an accepted list has the declared number of rows, repeats no page, stays within the limits and ends at the first page that is not full |
| P3GeographyDesk.SyncCountryGeography | control/p3_geo_catalog.py:85-190 | the reconciliation of both tables and its four counts |
| P3GeographyCounts.CountsExactly | control/p3_geo_catalog.py:103-190 | the counts from the tables before: one row is created per wanted key without one, the first count adds the existing rows that do not show what is wanted, and the second is the number of active rows whose key is not wanted |
| P3GeographyCounts.ItemsAreRead | control/p3_geo_catalog.py:98-142 | which alternative of an item is read, trimmed, and where it is cut off |
| P3GeographyDesk.Reconcile | control/p3_geo_catalog.py:112-130 | the loop over the wanted names creates and rewrites exactly what the specification says |
| P3GeographyTheorems.SyncReplaces | control/p3_geo_catalog.py:96-190 | afterwards the active rows of the country are exactly the wanted ones with the wanted names, no row is gone, other countries and accounts are untouched, keys stay unique |
| P3GeographyTheorems.SyncIsIdempotent | control/p3_geo_catalog.py:96-190 | repeating the call changes nothing and counts zero |
| P3GeographyTheorems.RegionsAreKeyed | control/p3_geo_catalog.py:96-103 | the wanted regions are exactly the named ones, for Spain only autonomous communities, each under the name of the last item for its code |
| P3GeographyTheorems.CitiesAreKeyed | control/p3_geo_catalog.py:138-142 | the wanted cities are exactly the named ones up to case, each spelled as in its last item |
| ReleaseDesk.ReleaseTables.SaveRelease | control/models.py:786-951 | the save, check by check, with its derived fields, frozen fields, transitions and build rule |
| ReleaseSaves.SaveExactly | control/models.py:786-951 | for applications and components: a save is accepted if and only if its fields are valid, its targets clean, the file it takes small enough and executable, its status may follow, nothing frozen changes, its build is free and, for a first publication, the highest out, with file and signature verified; and what it then stores |
| ReleaseSaves.CleanExactly | control/models.py:755-771 | a target list is refused if and only if an entry is blank or longer than 160, and else becomes its stripped entries, each once, by first appearance |
| ReleasePanel.RowsAreValid | control/models.py:795-823 | after any run every row has valid fields, clean target lists and a stripped signature |
| ReleasePanel.PublicationsAreChecked | control/models.py:899-920 | every first publication leaves a row whose file is stored with its digest and size, whose signature verifies, and above which nothing is out in its track |
| ReleasePanel.PanelPublishesExactly | control/panel_operations.py:972-1013 | after any run, the panel's publish is accepted if and only if the target is not blank and the release is live on that channel, or is a draft with a free and highest build, an intact file and a signature; it then changes channel, status, time and targets of that row and nothing else |
| ReleasePanel.PanelRevokesExactly | control/panel_operations.py:1015-1020 | after any run, the panel's revoke changes exactly the status of a live release |
| ReleaseDesk.ReleaseTables.Measure | control/models.py:825-864 | hash, size and file name follow the artifact or stay |
| ReleaseDesk.ReleaseTables.SelectDesktopUpdate | control/release_updates.py:235-269 | returns the eligible release ahead of all others, or nothing exactly when none is eligible |
| ReleaseDesk.ReleaseTables.SelectComponentUpdates | control/release_updates.py:198-220 | the same for every component and slot |
| ReleaseReach.AppliesExactly | control/release_updates.py:180-195 | a release reaches a client if and only if its offices are all blank or one matches the client's office once both are stripped and folded, and its devices are all blank or one strips to the client's stripped device |
| ReleaseReach.DesktopChoice | control/release_updates.py:235-269 | after any run, the choice is the highest build of the live, stored and signed releases on the client's channel for its office and device that are above its own build |
| ReleaseReach.ComponentChoice | control/release_updates.py:198-220 | and for each component and slot the highest build of those that the client can be handed |
| ReleaseReach.ChosenNamesTheDevice | control/release_updates.py:186-194 | a release whose device list is not blank is chosen only for a client whose device it names |
| ReleaseRuns.StepKeeps | control/models.py:1105-1199 | saves, panel publications and revocations, draft deletions and file changes keep unique builds and publication order, for applications and components |
| ReleaseTheorems.OutIsFrozen | control/models.py:866-897 | once out, a release keeps its identity, is never deleted or a draft again, and a revocation is final |
| ReleaseTheorems.PublicationOrderIsBuildOrder | control/models.py:899-920 | in every track builds went out in strictly increasing order, and what is out is what was published |
| ReleaseTheorems.ChoiceIsLatestPublished | control/release_updates.py:198-269 | after any run the selectors' choice is the eligible release first published most recently, and the client can download it |
| ReleaseTheorems.FirstTargetNarrows | control/panel_operations.py:972-1013 | adding a first office to a rollout for everyone: the saved row reaches exactly the clients of that office, no selector offers it to others, and a refused save changes nothing |
| ReleaseReach.PublishReaches | control/panel_operations.py:981-1006 | whom a release reaches after an accepted publish: everyone; or the clients of the new office and of those a live release had, within its devices; or the new device and those it had, within its offices; a draft starts without targets |
| ReleaseReach.FirstDeviceNarrows | control/panel_operations.py:991-998 | adding a first device to a rollout for everyone: it reaches exactly that device and no selector offers it to others |
| ManagedCron.ReplacesExactlyTheBlock | deploy/install_ys_catalog_cron.py:12-26 | the rewrite refuses exactly invalid fragments and ambiguous markers, and otherwise keeps all other lines in order around the block |
| ManagedCron.ResultHasTheBlock | deploy/install_ys_catalog_cron.py:12-26 | the result holds exactly one block, the fragment's |
| ManagedCron.ReplaceIsIdempotent | deploy/install_ys_catalog_cron.py:12-26 | rewriting again changes nothing |

## Left out

- Direct mode with `PROFILE_CREATE_SERIALIZATION_ENABLED` off (control/views.py:1314-1334): it bypasses the lease on purpose.
- HTTP, JSON, authentication, request parsing and validation, reporting views: requests arrive validated; the model starts at the transactions.
- Network, broker, e-mail and file-storage calls, encryption, hashing and signatures: parameters or outcomes.
- Database locking: requests are atomic except for the splits named above (the two statements of a release, the two transactions of a refill with reservations in between, acquire/read/fetch/publish of a sync). `skip_locked` and isolation levels are not modelled, nor is the retry after a lost first-claim race in `claim_exit_ip`.
- `created_at` in the pool: entries and jobs are ordered by primary key alone.
- ProxyPoolJobs.JobsStaySound: the agreement of counters and statuses is about complete steps; while another fulfilment of the scope is between its reservation and its status write, a counter may lag. Caps and oldest-first order are proved for all interleavings.
- Steps that lower `target_count` without trimming stock, such as the admin generate form: outside the step set of the stock bound.
- ProxyPoolDesk.PoolDesk.FillTargetsDirect: does not call the progress callback.
- ProxyPoolDesk.PoolDesk.QueueRefillProxyPool: the broker either takes the message or not; delivery and the task queue are not modelled.
- ProxyPoolP3.TodayRequestsSucceed: a stored line whose port makes the repair raise is outside; printed lines never do.
- ProxyPrefillSizes.SizesAgreeExactly: assumes that repairs of different targets stay apart; with repairs that collide, how far a prefill gets is told by its refills in turn (`ProxyPrefillFailure.PrefillStops`).
- ProxyPrefillFailure.PrefillStops: needs lines whose fingerprints are new and stay new under repair; with colliding lines both sides drop rows, but not always the same ones.
- ExitIpCooldown.CooldownDesk.ClaimExitIp: deleting a client, job or reservation, which empties the references of a row, is not a step.
- P3UrlRoundTrip.ParsePrinted: hosts in brackets, control characters that `urlsplit` strips, and empty query or fragment marks are not modelled; text is bytes, so decoding errors of UTF-8 do not arise.
- P3Repair.SubBetween: the replacement text is taken literally; the regular-expression template treats a backslash in it specially.
- P3RoutingWalk.SubdivisionSelector: upper-casing and trimming are ASCII, and the subdivision catalog is a map.
- Address parsing and canonical spelling beyond the IPv4-mapped rule.
- BrowserVersions.FetchBrowserVersions: rows come in page order; the final sort by canonical form is not modelled.
- BrowserCatalog.CheckCommon: depth, shape and size rules of the fields are parameters.
- P3GeographyDesk.SyncCountryGeography: upstream values are strings, and database errors in the middle of the function, which is not one transaction, are not modelled.
- ReleaseDesk.ReleaseTables.SaveRelease: `update_fields` on a freshly loaded row is the same as a full save here; storage renaming on upload and the removal of unreferenced files are not modelled. A component may go from draft to revoked by a bare `save`; the run theorems use the moves the admin and the panel make.
- ReleaseDesk.ReleaseTables.SelectComponentUpdates: returns the choice per component and slot as a map, not as a sorted list.
- ManagedCron.ReplacesExactlyTheBlock: the newline is the only line break.
- The YS bridge queue, remote desktop commands, alerts and domain-visit folding: they would only add easier members.
