# Verified model of the Koushi core schedulers and registries

This project models seven stateful components of `koushi-core` in Dafny and
proves what they promise over every input, every run and every reachable state.
`dafny verify dfyconfig.toml` checks all of it.

| component | files | what is modelled |
|---|---|---|
| Live-tail refresh coordinator | `LiveTail`, `LiveTailRuns`, `LiveTailCalls`, `LiveTailCoordinator`, `CausalProjection` | a preemptive single-slot scheduler over unboundedly many timelines, its log of network actions, and the 63-bit operation serials |
| Account work scheduler | `AccountWork`, `AccountWorkRuns`, `AccountWorkOrder`, `AccountWorkScheduler` | one slot shared by all accounts: ranks, tickets, preemption, interactive guards, the pausable and rate-limited budget |
| Composer draft lease registry | `ComposerLeases`, `ComposerRuns`, `ComposerRegistry`, `ComposerWire` | generation-fenced leases, permit counts against live guards, the grant loop with rollback, the wire form of identities |
| Media preparation registry | `MediaRegistry`, `MediaRuns`, `MediaLookups`, `MediaPreparation` | variants that share their source's bytes, against a registry that copies them |
| Link ranges | `LinkText`, `LinkScan`, `LinkRanges` | URL detection on text with inserted block separators, mapped back to UTF-16 offsets of the plain text |
| Account tab manager | `AccountTabs`, `AccountTabRuns`, `AccountTabCalls`, `AccountTabManager` | tabs, selection, sign-in, sign-out, restore, shutdown, and the runtimes they own |
| Navigation alias table | `NavigationAliases` | a bounded identity table with resets |

Each component has a state machine over plain values (the first file), lemmas
about runs of it (`…Runs`) and about what single calls do to everything they
name and do not name (`…Calls`, `…Order`, `…Lookups`), and a class that keeps the
source's fields and updates them in place. Each class method is proved to take exactly one step of the machine
and to keep its invariant (for the tab list: exactly when the call does not
clash), so the lemmas about runs apply to the class. Code that holds a lock or
the operation gate is one step; callers interleave arbitrarily.

Findings worth knowing:

- Media registry: preparing or merging an item under an id that still has shared
  variants, with other bytes, silently changes what those variants upload
  (`MediaRuns.RestagedIdUploadsWrongBytes`). `MediaRuns.StepRefinesExactly` gives
  the exact condition under which sharing is invisible, and
  `MediaRuns.PreparationSafeExactly` the exact condition a caller can check before
  encoding, from the registry, the bytes and the declared type alone. Staging checks ids against the application snapshot, not against the
  registry; an id outside a snapshot is new to the registry once it has been
  reconciled with that snapshot (`MediaRuns.ReconciledIdsAreFresh`), and runs that
  prepare and merge only such ids are safe (`MediaRuns.StagingFreshIdsRefines`).
- Account tabs: two calls can leave an inconsistent tab list. At the end of the
  sign-in tab counter a new tab can take an id that is on screen
  (`AccountTabRuns.SaturatedCounterReusesId`), and a saved index that lists an
  account twice, which `SavedSessionIndex::from_json` accepts, restores two tabs
  for it. `AccountTabRuns.ConsistencyKeptExactly` shows that these are the only
  ones. Conservation of runtimes holds in every run regardless.
- Link ranges: the two filters of `extract_formatted_link_ranges` and the
  empty-match check of `extract_link_ranges` can never fire.
- Stored plain text is built from elements only, while separators are collected
  below every node; `LinkText.StoredTextExact` says when the two agree.
- Account work: the comment on `acquire` speaks of guards outranking preemptible
  work; the code defers background work, preemptible or not. The model follows
  the code.

## Model

| member | source | states |
|---|---|---|
| LiveTailRuns.NetworkSafety | crates/koushi-core/src/live_tail_freshness.rs:232-480 | in every run the emitted actions and accepted completions describe a network with at most one refresh outstanding: no start while busy, every cancellation and completion names exactly the outstanding refresh, and the i-th start carries generation i+1 within 63 bits |
| LiveTailRuns.TransportIdsNeverRepeat | crates/koushi-core/src/causal_projection.rs:24-54 | over a whole run no two refreshes share a transport word, none equals the word of a historical-gap repair, and each decodes to its own generation |
| LiveTailRuns.LateFinishIsIgnored | crates/koushi-core/src/live_tail_freshness.rs:232-247 | once a run has cancelled or completed a generation, a later completion naming it changes nothing and emits nothing, whatever key, epoch and outcome it carries and whatever happened in between |
| LiveTailRuns.KnowledgeSurvivesRuns | crates/koushi-core/src/live_tail_freshness.rs:97-325 | over any run the epoch known for a timeline never decreases, and a timeline proven at an epoch stays proven until some call supplies a strictly newer one |
| LiveTailRuns.ForegroundGuarantee | crates/koushi-core/src/live_tail_freshness.rs:97-145 | an activation or focused invalidation that is not stale ends with the timeline proven or running at exactly that epoch, or retryable only when serials are exhausted; an invalidation always demands a new proof |
| LiveTailRuns.DrainsInQueueOrder | crates/koushi-core/src/live_tail_freshness.rs:232-272 | completions alone, whatever their outcomes, serve the delayed queue once each in FIFO order as far as the serials reach, and leave the slot free |
| LiveTailRuns.FinishTakesHead | crates/koushi-core/src/live_tail_freshness.rs:232-272 | every accepted completion strictly decreases delayed plus running and hands the slot to the head of the queue |
| LiveTailRuns.CompletionSettles | crates/koushi-core/src/live_tail_freshness.rs:249-271 | what each outcome leaves behind for a focused and an unfocused timeline; the finished timeline neither keeps nor retakes the slot nor is queued again |
| LiveTailRuns.MarkFreshSettles | crates/koushi-core/src/live_tail_freshness.rs:203-230 | a proof from elsewhere makes the timeline fresh, takes it off the queue and out of the slot |
| LiveTailRuns.BackgroundInvalidationWaits | crates/koushi-core/src/live_tail_freshness.rs:274-319 | an invalidated background timeline waits at its new epoch, is not started in the same call, and is the only delayed one if the coordinator is then idle with serials left |
| LiveTailRuns.IdleMeansDrained | crates/koushi-core/src/live_tail_freshness.rs:412-447 | any effective call that ends idle with serials left ends with nothing delayed but the background timeline it passed over: one just invalidated, or marked unproven with its refresh fenced |
| LiveTailRuns.StepKeepsInv | crates/koushi-core/src/live_tail_freshness.rs:97-498 | every call keeps the coordinator invariant: slot, freshness map and counter agree; the queue is duplicate-free and holds only deferred, unfocused timelines; only a focused timeline whose refresh was refused is unproven |
| LiveTailRuns.StepExplained | crates/koushi-core/src/live_tail_freshness.rs:97-319 | after one call the log replays to the new slot and starts exactly the generations the counter moved through |
| LiveTailCalls.EveryOtherTimeline | crates/koushi-core/src/live_tail_freshness.rs:97-447 | what any effective call does to a timeline it does not name: one that waited, or that the call displaces from the slot or the focus, waits at its epoch or gets the slot; every other keeps its state, stays out of the queue, and holds the slot if and only if it did |
| LiveTailCalls.PreemptedWaits | crates/koushi-core/src/live_tail_freshness.rs:390-410 | a refresh preempted for the focus is cancelled by name, ends deferred at its epoch and queued, behind everybody who waited before |
| LiveTailCalls.QueueKeepsOrder | crates/koushi-core/src/live_tail_freshness.rs:412-498 | no call reorders the queue: whoever stays keeps its order, and newcomers line up behind; only the named timeline may move |
| LiveTailCalls.ServedInTurn | crates/koushi-core/src/live_tail_freshness.rs:412-447 | whoever a call serves from the queue waited longest, the named timeline left aside |
| LiveTailCalls.SlotKeptExactly | crates/koushi-core/src/live_tail_freshness.rs:97-319 | a call cancels the running refresh if and only if it renews or settles that very timeline or makes the focus ask for a new proof; otherwise the refresh runs on and nothing is emitted |
| LiveTailCalls.FocusTakesSlot | crates/koushi-core/src/live_tail_freshness.rs:97-145 | whenever the focus asks for a new proof it gets the slot with the next generation, or is left retryable when none is left |
| LiveTailCalls.NamedTimeline | crates/koushi-core/src/live_tail_freshness.rs:97-319 | an outdated call changes and emits nothing; any other leaves the named timeline focused, untouched, proven, or deferred and queued at exactly the new epoch, as its kind demands |
| LiveTailCalls.DispatchEmits | crates/koushi-core/src/live_tail_freshness.rs:449-478 | a scheduling pass emits at most one start, which names exactly the key, epoch and generation that then run, with limit 128 |
| LiveTailCalls.SerialsRunOut | crates/koushi-core/src/causal_projection.rs:48-54 | serials run out exactly at 2^63 - 1 |
| LiveTailCoordinator.ScheduleIsDispatch | crates/koushi-core/src/live_tail_freshness.rs:412-447 | on a well-formed queue the scanning loop is the simple rule: focused timeline first, else the oldest delayed key other than the skipped one, and no entry is dropped |
| LiveTailCoordinator.Coordinator.constructor | crates/koushi-core/src/live_tail_freshness.rs:77-87 | a new coordinator is in the initial state |
| LiveTailCoordinator.Coordinator.Activate | crates/koushi-core/src/live_tail_freshness.rs:97-145 | takes exactly the activation step, and keeps queue and membership set equal |
| LiveTailCoordinator.Coordinator.MarkUnproven | crates/koushi-core/src/live_tail_freshness.rs:148-201 | takes exactly the unproven-mark step |
| LiveTailCoordinator.Coordinator.MarkFresh | crates/koushi-core/src/live_tail_freshness.rs:203-230 | takes exactly the fresh-mark step |
| LiveTailCoordinator.Coordinator.Finish | crates/koushi-core/src/live_tail_freshness.rs:232-272 | takes exactly the completion step |
| LiveTailCoordinator.Coordinator.InvalidateEpoch | crates/koushi-core/src/live_tail_freshness.rs:274-319 | takes exactly the invalidation step |
| LiveTailCoordinator.Coordinator.ScheduleNext | crates/koushi-core/src/live_tail_freshness.rs:412-447 | the loop over the queue computes the recursive scan, keeping queue and membership set in step |
| LiveTailCoordinator.Coordinator.PreemptRunning | crates/koushi-core/src/live_tail_freshness.rs:390-410 | stops the running refresh and delays it if its epoch is still current |
| LiveTailCoordinator.Coordinator.BeginRefresh | crates/koushi-core/src/live_tail_freshness.rs:449-480 | takes the slot under the next serial, or parks the timeline when serials ran out |
| LiveTailCoordinator.Coordinator.FenceReplacedRunning | crates/koushi-core/src/live_tail_freshness.rs:358-378 | cancels a running refresh of the same timeline at another epoch |
| LiveTailCoordinator.Coordinator.DeferPending | crates/koushi-core/src/live_tail_freshness.rs:380-388 | turns a left timeline's pending state into a queued deferral |
| LiveTailCoordinator.Coordinator.QueueDelayed | crates/koushi-core/src/live_tail_freshness.rs:482-486 | queue and membership set grow together, without duplicates |
| LiveTailCoordinator.Coordinator.RemoveDelayed | crates/koushi-core/src/live_tail_freshness.rs:494-498 | queue and membership set lose the key together |
| CausalProjection.TransportRoundTrip | crates/koushi-core/src/causal_projection.rs:24-46 | decoding undoes encoding exactly for serials that fit 63 bits; encoding undoes decoding for every 64-bit word |
| CausalProjection.TransportInjective | crates/koushi-core/src/causal_projection.rs:28-33 | equal transport words mean equal operations |
| AccountWorkRuns.DrainsInRankOrder | crates/koushi-core/src/account_work.rs:439-582 | without arrivals, guards, pause or selection changes, any interleaving of admission attempts and releases serves the waiters exactly in order of rank and ticket |
| AccountWorkOrder.SoonerExact | crates/koushi-core/src/account_work.rs:670-690 | the order of service in terms of kinds, accounts and tickets: in the background the selected account comes first whatever the kinds; otherwise visible gap repair, pagination, offscreen repair, prefetch, crawl, maintenance; then arrival |
| AccountWorkOrder.KindsExact | crates/koushi-core/src/account_work.rs:117-204 | which kinds never queue, which are background work and which fall under the shared budget |
| AccountWorkOrder.AdmittedExactly | crates/koushi-core/src/account_work.rs:439-582 | a waiter is admitted if and only if the slot is free, it comes before every waiter the pause does not hold back, no interactive operation is under way if it is background work, and, if metered, the budget is not paused and has rested 0, 100 or 500 ms |
| AccountWorkOrder.DrainsInServiceOrder | crates/koushi-core/src/account_work.rs:439-582 | any interleaving of attempts and releases in a quiet state serves a prefix of that order |
| AccountWorkOrder.YieldsExactly | crates/koushi-core/src/account_work.rs:585-632 | reconsidering asks to yield exactly the preemptible permits that a waiter not held back or a guard outweighs in that order, and takes no request back |
| AccountWorkOrder.PreemptibleKinds | crates/koushi-core/src/account_work.rs:117-177 | sends, room operations and media prefetch are the only kinds never asked to yield |
| AccountWorkOrder.WaitersExact | crates/koushi-core/src/account_work.rs:699-735 | a waiter is queued from entering until it gives up or is admitted, and no call touches another |
| AccountWorkOrder.PermitsExact | crates/koushi-core/src/account_work.rs:290-300 | a permit is held, for its waiter's kind and account, from admission until its own release |
| AccountWorkOrder.GuardsAndSettingsExact | crates/koushi-core/src/account_work.rs:326-412 | a guard is held from begin to end, selection and speed are what was last set, and only a released metered permit restarts the budget's rest |
| AccountWorkRuns.DrainCompletes | crates/koushi-core/src/account_work.rs:439-505 | a run that admits and releases everybody in that order always exists |
| AccountWorkRuns.QueueHasOrder | crates/koushi-core/src/account_work.rs:548-566 | every reachable queue has one order of service |
| AccountWorkRuns.AdmissionExact | crates/koushi-core/src/account_work.rs:531-582 | the admission test holds if and only if the slot is free, the waiter precedes every other unpaused waiter, and background work finds no interactive guard |
| AccountWorkRuns.AdmissibleIsUnique | crates/koushi-core/src/account_work.rs:548-566 | at most one waiter is admissible at a time |
| AccountWorkRuns.StepKeepsInv | crates/koushi-core/src/account_work.rs:290-505 | every step of every caller keeps at most one active permit across accounts and never flags media prefetch |
| AccountWorkRuns.ReachableStatesAreGood | crates/koushi-core/src/account_work.rs:26-31 | in every state reachable from start-up at most one permit is active |
| AccountWorkRuns.PreemptExact | crates/koushi-core/src/account_work.rs:585-632 | preemption flags exactly the preemptible work that an unpaused waiter or an interactive guard strictly outranks, keeps earlier flags and changes nothing else |
| AccountWorkRuns.PreemptionSoundAndComplete | crates/koushi-core/src/account_work.rs:290-300 | along every step a flag is never cleared while its work is active, is set only with cause, and after every step that reconsiders all outranked work is flagged |
| AccountWorkRuns.PauseIsTransparent | crates/koushi-core/src/account_work.rs:634-641 | while paused, removing all shared-budget waiters changes neither any other admission nor any preemption, and no shared-budget waiter is admitted |
| AccountWorkRuns.PausedRunsIgnoreBudget | crates/koushi-core/src/account_work.rs:585-641 | over any run with the budget paused, the run without the shared-budget waiters and their calls is legal too, serves the same waiters in the same order, and ends with the same guards, other waiters and permits; only the yield flag of a permit may differ, set in the full run and not in the other, since a shared-budget attempt also reconsiders preemption |
| AccountWorkRuns.BudgetAttemptFlags | crates/koushi-core/src/account_work.rs:439-494 | the case in which the yield flags of the two runs differ: foreground work admitted under a guard is flagged by a paused caller's refused attempt |
| AccountWorkRuns.FifoWithinKind | crates/koushi-core/src/account_work.rs:548-563 | two waiters of one kind and account are served in ticket order over any run, however selection and speed change |
| AccountWorkRuns.NoBackgroundDuringInteractive | crates/koushi-core/src/account_work.rs:567-580 | between taking and dropping an interactive guard no step of any run starts background work |
| AccountWorkRuns.BudgetIsRateLimited | crates/koushi-core/src/account_work.rs:451-459 | a shared-budget permit starts only when the interval then in force has passed since every earlier shared-budget release, and never while paused |
| AccountWorkScheduler.Scheduler.constructor | crates/koushi-core/src/account_work.rs:204-226 | starts empty, in the initial system state |
| AccountWorkScheduler.Scheduler.PreemptLocked | crates/koushi-core/src/account_work.rs:585-611 | the in-place loop computes the preemption function |
| AccountWorkScheduler.Scheduler.Enter | crates/koushi-core/src/account_work.rs:699-711 | queues the waiter and reconsiders preemption |
| AccountWorkScheduler.Scheduler.TryAdmit | crates/koushi-core/src/account_work.rs:439-494 | one pass of the acquire loop: admits exactly when the test holds, otherwise reconsiders preemption and reports the rate-limit deadline |
| AccountWorkScheduler.Scheduler.Abandon | crates/koushi-core/src/account_work.rs:724-735 | a dropped waiter leaves the queue |
| AccountWorkScheduler.Scheduler.Release | crates/koushi-core/src/account_work.rs:290-300 | a dropped permit frees the slot, stamps the budget clock and reconsiders preemption |
| AccountWorkScheduler.Scheduler.BeginInteractive | crates/koushi-core/src/account_work.rs:380-412 | takes a guard and reconsiders preemption |
| AccountWorkScheduler.Scheduler.EndInteractive | crates/koushi-core/src/account_work.rs:326-332 | drops a guard |
| AccountWorkScheduler.Scheduler.SetSelectedAccount | crates/koushi-core/src/account_work.rs:353-360 | changes the selection and reconsiders preemption |
| AccountWorkScheduler.Scheduler.SetSearchCrawlerSpeed | crates/koushi-core/src/account_work.rs:363-376 | changes the speed and says whether it changed |
| ComposerRegistry.Registry.PersistenceHeldTargetsExcluding | crates/koushi-core/src/composer_draft_lifecycle.rs:512-543 | returns exactly the account's targets with a live persistence guard outside the list, whatever clones of one guard and permits of other registries or kinds the list holds |
| ComposerRegistry.Registry.PersistencePermits | crates/koushi-core/src/composer_draft_lifecycle.rs:430-467 | granted if and only if every target has room for all its occurrences in the list; then each target of the account counts as many more as it is listed, no other account's scope changes, and the guard at each address protects the target listed there; otherwise nothing changes |
| ComposerRuns.PersistAllOrNothing | crates/koushi-core/src/composer_draft_lifecycle.rs:430-467 | a target list is granted as a whole, exactly when there is room for each target as often as it is listed |
| ComposerRuns.PersistByTarget | crates/koushi-core/src/composer_draft_lifecycle.rs:430-467 | each target then counts as many more as it is listed, and no other account's scope does |
| ComposerRegistry.Registry.GrantAll | crates/koushi-core/src/composer_draft_lifecycle.rs:447-454 | the grant loop with rollback equals the all-or-nothing specification, duplicates included |
| ComposerRegistry.Registry.RollBack | crates/koushi-core/src/composer_draft_lifecycle.rs:449-451 | undoing a granted list in its own order restores exactly the original count map |
| ComposerLeases.DecrementUndoes | crates/koushi-core/src/composer_draft_lifecycle.rs:562-580 | taking back one grant of a list leaves the rest of the list granted, with no zero entry |
| ComposerRuns.StepKeepsInv | crates/koushi-core/src/composer_draft_lifecycle.rs:149-155 | every step keeps each permit count the number of live guards of its scope, no count zero, and every lease in the live generation |
| ComposerRuns.ReachableWorldsAreGood | crates/koushi-core/src/composer_draft_lifecycle.rs:149-155 | after any interleaving from start-up each count is the number of live guards, protection is exactly leases and guards, and leases belong to the live generation |
| ComposerRuns.RetiredForever | crates/koushi-core/src/composer_draft_lifecycle.rs:320-386 | a retired generation never becomes live again and never obtains a lease or permit again, in any run |
| ComposerRuns.GuardProtectsUntilDropped | crates/koushi-core/src/composer_draft_lifecycle.rs:416-428 | in any run a guard keeps its target protected until it is dropped itself, revocations included |
| ComposerRuns.ProtectedExact | crates/koushi-core/src/composer_draft_lifecycle.rs:477-488 | a target is protected if and only if a lease names it or a permit guard for it is alive |
| ComposerRuns.NewGenerationFencesOld | crates/koushi-core/src/composer_draft_lifecycle.rs:320-336 | a new generation is unseen before, live, retires all earlier ones with their leases, and leaves permits alone |
| ComposerRuns.LeaseAdmitsExactly | crates/koushi-core/src/composer_draft_lifecycle.rs:338-386 | a granted lease is new and admits commands of exactly its own generation and scope while the count has room; a refusal changes nothing |
| ComposerRuns.RevocationRetires | crates/koushi-core/src/composer_draft_lifecycle.rs:405-428 | revoking retires the named generation and its leases, and does nothing to any other |
| ComposerRuns.RefusalsAreExact | crates/koushi-core/src/composer_draft_lifecycle.rs:320-358 | generations and leases are refused exactly at the end of their counters or to a generation that is not live; a grant takes the next number and adds exactly that lease, a refusal changes nothing |
| ComposerRuns.CommandIsExact | crates/koushi-core/src/composer_draft_lifecycle.rs:360-386 | each of the three refusals has exactly its cause, in source order; an admitted command counts one more for its scope alone |
| ComposerRuns.ReleaseIsExact | crates/koushi-core/src/composer_draft_lifecycle.rs:388-403 | releasing takes away exactly the named lease, exactly when its own generation names it |
| ComposerRuns.DropIsExact | crates/koushi-core/src/composer_draft_lifecycle.rs:545-580 | a drop takes back one count of its own scope and kind |
| ComposerRegistry.Registry.constructor | crates/koushi-core/src/composer_draft_lifecycle.rs:290-296 | starts empty |
| ComposerRegistry.Registry.BeginRendererGeneration | crates/koushi-core/src/composer_draft_lifecycle.rs:320-336 | begins the next generation or reports exhaustion |
| ComposerRegistry.Registry.AcquireLease | crates/koushi-core/src/composer_draft_lifecycle.rs:338-358 | grants a lease to the live generation only |
| ComposerRegistry.Registry.TryCommandPermit | crates/koushi-core/src/composer_draft_lifecycle.rs:360-386 | grants a command guard or one of three refusals |
| ComposerRegistry.Registry.Release | crates/koushi-core/src/composer_draft_lifecycle.rs:388-403 | removes a lease of the given generation |
| ComposerRegistry.Registry.RevokeGeneration | crates/koushi-core/src/composer_draft_lifecycle.rs:405-414 | revokes a generation |
| ComposerRegistry.Registry.RevokeLiveGeneration | crates/koushi-core/src/composer_draft_lifecycle.rs:416-428 | revokes the live generation, if any |
| ComposerRegistry.Registry.ReleasePermit | crates/koushi-core/src/composer_draft_lifecycle.rs:545-555 | dropping the last clone releases exactly one count |
| ComposerWire.WireRoundTrip | crates/koushi-core/src/composer_draft_lifecycle.rs:79-93 | printing and parsing are inverse on nonzero 64-bit numbers, accepted text is exactly the printed form of its value, and each of the four errors is characterised |
| MediaRuns.SharingRefinesCopying | crates/koushi-core/src/media_preparation.rs:476-592 | after any harmless run the sharing registry answers every upload and preview lookup as a registry with a full copy per variant, and every selection and preview resolves |
| MediaRuns.StepRefinesExactly | crates/koushi-core/src/media_preparation.rs:594-745 | one operation has the effect of the copying registry's operation if and only if no shared variant outlives a change of its source bytes; for a preparation: every shared variant of the item besides the ones it stores anew shares the new bytes already |
| MediaRuns.PreparationSafeExactly | crates/koushi-core/src/media_preparation.rs:747-850 | given whether the bytes are HEIF, a preparation agrees with the copying registry whatever the encoder returns if and only if every variant sharing the item's source shares exactly the new bytes, leaving aside the untouched-file variant when the input is a nonempty plain file, which always replaces it |
| MediaRuns.ExpandMerge | crates/koushi-core/src/media_preparation.rs:625-642 | merging commutes with expansion if and only if every surviving shared variant finds the same source bytes |
| MediaRuns.FreshIdsAreHarmless | crates/koushi-core/src/media_preparation.rs:625-642 | preparing or merging items new to the registry, or with the bytes it retains, is always harmless |
| MediaRuns.ReconciledIdsAreFresh | crates/koushi-core/src/media_preparation.rs:665-707 | after a reconciliation an id outside the snapshot has no source, selection or variant left |
| MediaRuns.StagingFreshIdsRefines | crates/koushi-core/src/media_staging.rs:256-376 | over any run from the start whose prepared and merged ids are new as far as the calls tell, reconciliations and removals included, every upload and preview is the copying registry's |
| MediaRuns.RestagedIdUploadsWrongBytes | crates/koushi-core/src/media_preparation.rs:747-804 | a concrete run outside that condition in which the selected upload changes bytes |
| MediaRuns.StepKeepsInv | crates/koushi-core/src/media_preparation.rs:476-745 | every operation keeps selections, shared variants and preview pointers resolvable |
| MediaRuns.EverythingResolves | crates/koushi-core/src/media_preparation.rs:525-592 | in a resolvable registry every selection yields an upload and every variant yields preview bytes |
| MediaRuns.PreparedUpload | crates/koushi-core/src/media_preparation.rs:747-1010 | which bytes each kind of preparation makes ready, and that a HEIF original keeps its exact bytes and previews the converted image |
| MediaRuns.IdentitiesAreDistinct | crates/koushi-core/src/media_preparation.rs:430-436 | cache identities of different outputs differ, and none is the untouched file's |
| MediaRuns.RetryCommutes | crates/koushi-core/src/media_preparation.rs:709-721 | retrying from the retained source agrees with the copying registry |
| MediaLookups.RemovalExact | crates/koushi-core/src/media_preparation.rs:594-663 | removing one item, a composer's, all threads' or all items leaves nothing of exactly those and everything of every other item |
| MediaLookups.ReconciliationExact | crates/koushi-core/src/media_preparation.rs:665-707 | a snapshot of another account drops everything, otherwise exactly the unlisted items go |
| MediaLookups.OtherItemsUntouched | crates/koushi-core/src/media_preparation.rs:476-850 | preparing, caching, selecting, retrying and falling back leave source, selection and variants of every other item as they were |
| MediaLookups.SameItemLooksSame | crates/koushi-core/src/media_preparation.rs:525-592 | items with equal source, selection and variants upload and preview alike; of a gone one nothing can be had |
| MediaLookups.MergeExact | crates/koushi-core/src/media_preparation.rs:625-642 | a merge takes each entry from the prepared registry if it has one, else keeps the old one |
| MediaLookups.PreparationKeepsRest | crates/koushi-core/src/media_preparation.rs:747-850 | preparing retains the input under its detected type and keeps the item's variants it does not store anew |
| MediaLookups.InsertionExact | crates/koushi-core/src/media_preparation.rs:476-506 | a cached output becomes upload and preview, shares the source if and only if it is the untouched source, and leaves the rest of the item |
| MediaLookups.SelectionExact | crates/koushi-core/src/media_preparation.rs:508-523 | selecting a stored variant changes the selection alone, any other nothing |
| MediaLookups.RetryExact | crates/koushi-core/src/media_preparation.rs:709-721 | a retry leaves of the item exactly what preparing its retained input afresh would |
| MediaLookups.FallbackExact | crates/koushi-core/src/media_preparation.rs:723-738 | falling back leaves exactly the untouched file, uploading the retained bytes |
| MediaLookups.ImageTypesExact | crates/koushi-core/src/media_preparation.rs:765-768 | exactly png, jpeg, webp and gif, in any case, are image candidates |
| MediaLookups.OutputNames | crates/koushi-core/src/media_preparation.rs:430-441 | the names outputs are cached under |
| MediaPreparation.PreparationRegistry.constructor | crates/koushi-core/src/media_preparation.rs:287-299 | starts empty |
| MediaPreparation.PreparationRegistry.PrepareOne | crates/koushi-core/src/media_preparation.rs:747-850 | takes exactly the preparation step; a ready item has an upload |
| MediaPreparation.PreparationRegistry.PrepareItems | crates/koushi-core/src/media_preparation.rs:416-427 | works off at most sixteen inputs in order |
| MediaPreparation.BatchRetains | crates/koushi-core/src/media_preparation.rs:416-427 | of a batch with distinct ids exactly the first sixteen inputs are taken, each retained under its own id with its own bytes; further ones leave their items untouched |
| MediaPreparation.PreparationRegistry.PrepareTarget | crates/koushi-core/src/media_preparation.rs:406-414 | clears the target first |
| MediaPreparation.PreparationRegistry.InsertPreparedOutput | crates/koushi-core/src/media_preparation.rs:476-506 | caches and selects a pair so that the upload is exactly its bytes |
| MediaPreparation.PreparationRegistry.SelectVariant | crates/koushi-core/src/media_preparation.rs:508-523 | selects only a known variant |
| MediaPreparation.PreparationRegistry.Clean | crates/koushi-core/src/media_preparation.rs:594-663 | removes variants, selections and sources of the named items together |
| MediaPreparation.PreparationRegistry.ReconcileSnapshot | crates/koushi-core/src/media_preparation.rs:665-707 | drops everything on an account change, then everything unlisted |
| MediaPreparation.PreparationRegistry.RetryItem | crates/koushi-core/src/media_preparation.rs:709-721 | prepares again from the retained source |
| MediaPreparation.PreparationRegistry.UseOriginal | crates/koushi-core/src/media_preparation.rs:723-738 | uploads exactly the retained bytes, unless missing or empty |
| MediaPreparation.PreparationRegistry.MergePrepared | crates/koushi-core/src/media_preparation.rs:625-642 | the prepared registry's entries win |
| LinkRanges.NoLinkCrossesBlock | crates/koushi-core/src/link_preview.rs:338-346 | for every HTML tree no published link runs across the beginning or end of a block element at any depth |
| LinkRanges.FormattedRangesExact | crates/koushi-core/src/link_preview.rs:347-372 | for every HTML tree each detected link is published, since neither filter ever drops one; the ranges slice the plain text to exactly their URLs, in order and without overlap |
| LinkText.CollectStands | crates/koushi-core/src/link_preview.rs:292-336 | erasing the inserted separators restores the concatenated text, and separator offsets strictly increase |
| LinkText.CollectCovers | crates/koushi-core/src/link_preview.rs:310-336 | every block boundary with text before it has a separator at its plain offset |
| LinkText.StretchMapsBack | crates/koushi-core/src/link_preview.rs:374-376 | a stretch without separators reads the same in the plain text at the mapped offsets |
| LinkText.SeparatorsBeforeExact | crates/koushi-core/src/link_preview.rs:374-376 | on increasing offsets the partition point counts exactly the separators before an offset |
| LinkText.Utf16Injective | crates/koushi-core/src/link_preview.rs:213-245 | different texts have different UTF-16 units, so a range addressing a URL's units addresses that URL |
| LinkText.UnitsExact | crates/koushi-core/src/link_preview.rs:213-245 | a basic-plane character is one unit and no surrogate, any other a surrogate pair that stands for it |
| LinkText.BlockTagsExact | crates/koushi-core/src/link_preview.rs:250-277 | the elements that break a line, one by one |
| LinkText.StoredTextExact | crates/koushi-core/src/timeline/item_projection.rs:3320-3340 | the stored plain text is the concatenation of all text nodes if and only if no text lies below a node that is neither text nor element |
| LinkRanges.LinkRangesExact | crates/koushi-core/src/link_preview.rs:220-245 | in plain text the i-th range begins where the i-th match begins, shows what cutting and trimming leave of it, and addresses exactly that text; ranges are in order, without overlap, and none is skipped as empty |
| LinkRanges.ExtractLinkRanges | crates/koushi-core/src/link_preview.rs:220-245 | the loop publishes exactly those ranges |
| LinkScan.FoundUrlsComplete | crates/koushi-core/src/link_preview.rs:28-31 | every position where http:// or https:// stands before a URL character lies inside a reported match |
| LinkScan.FoundUrlsSound | crates/koushi-core/src/link_preview.rs:28-31 | every reported match begins at such a position |
| LinkScan.MatchAtExact | crates/koushi-core/src/link_preview.rs:28-31 | the pattern matches at a position if and only if a web scheme stands there before a URL character |
| LinkScan.FoundUrlsWellPlaced | crates/koushi-core/src/link_preview.rs:28-31 | matches are maximal runs of URL characters after a web scheme, in order and disjoint |
| LinkScan.TrimTrailingUrlPunctuation | crates/koushi-core/src/link_preview.rs:182-201 | returns the longest prefix that does not end in loose punctuation, closing brackets that balance kept |
| LinkScan.Truncate | crates/koushi-core/src/link_preview.rs:203-211 | everything before the first stop mark |
| LinkScan.CleanedKeepsScheme | crates/koushi-core/src/link_preview.rs:224-230 | cutting and trimming never eat into the scheme, so no match is lost |
| LinkScan.LooseExact | crates/koushi-core/src/link_preview.rs:151-201 | exactly what is trimmed: a closing bracket unless more of its openers precede it, and the listed marks |
| LinkScan.StopMarksExact | crates/koushi-core/src/link_preview.rs:135-147 | the marks that end a URL, one by one |
| LinkScan.SpacesExact | crates/koushi-core/src/link_preview.rs:28-31 | the white space that ends a URL, one by one |
| LinkRanges.BlockSeparatedText.Push | crates/koushi-core/src/link_preview.rs:293-296 | appends text and keeps the running UTF-16 length right |
| LinkRanges.BlockSeparatedText.Separate | crates/koushi-core/src/link_preview.rs:298-305 | records and appends a separator unless nothing precedes it |
| LinkRanges.BlockSeparatedText.Walk | crates/koushi-core/src/link_preview.rs:310-336 | the recursive walk computes the separated text of the whole tree |
| AccountTabRuns.ConsistencyKeptExactly | crates/koushi-core/src/account_runtime_manager.rs:225-1024 | from a good state one step leaves a consistent tab list (a tab exists, the selected id names one and is the scheduler's, ids and accounts unique, at most one unbound) if and only if it is neither a new sign-in tab whose number is on screen, possible only at the end of the counter, nor a restore from an index that repeats an account |
| AccountTabRuns.RunConsistentExactly | crates/koushi-core/src/account_runtime_manager.rs:225-1024 | over any run the tab list is consistent at every gate boundary if and only if no call clashes where it is made |
| AccountTabRuns.ShortRunsAreConsistent | crates/koushi-core/src/account_runtime_manager.rs:748-749 | a run with fewer calls than the counter has numbers left is consistent throughout, given indexes without repeated accounts |
| AccountTabRuns.SaturatedCounterReusesId | crates/koushi-core/src/account_runtime_manager.rs:748-749 | with the counter saturated the next sign-in tab but one gets an id already taken |
| AccountTabRuns.BoundTabKeepsAccount | crates/koushi-core/src/account_runtime_manager.rs:863-909 | in every later state of every run a tab with the id of a bound tab is bound to the same account, if and only if that id is not the one to be handed out next, which only the end of the counter allows |
| AccountTabRuns.ShutdownStopsEverything | crates/koushi-core/src/account_runtime_manager.rs:990-1024 | shutting down after any run whatsoever stops every runtime ever started, each exactly once |
| AccountTabRuns.StepKeepsAccounts | crates/koushi-core/src/account_runtime_manager.rs:326-406 | every runtime belongs to exactly one of tabs, retiring and stopped, through every step |
| AccountTabRuns.ClosingIsExact | crates/koushi-core/src/account_runtime_manager.rs:778-978 | cancelling or removing takes away exactly that tab, leaves another selection alone, and replaces the last account tab by one fresh sign-in tab |
| AccountTabRuns.BindingIsExact | crates/koushi-core/src/account_runtime_manager.rs:863-909 | signing in binds exactly the named tab, and does so if and only if no other tab holds the account, the tab exists and is not bound to another account, and the store agrees; duplicate and mismatch are reported exactly for their causes and every refusal changes nothing |
| AccountTabRuns.RestoreIsExact | crates/koushi-core/src/account_runtime_manager.rs:302-401 | a restore shows exactly the saved accounts and selects a tab bound to the saved selection when listed, its own tab unless ids repeated before, whatever the index repeats and whether or not the old runtimes stop |
| AccountTabRuns.AddThenCancelReturns | crates/koushi-core/src/account_runtime_manager.rs:715-822 | opening a sign-in tab and cancelling it restores tabs and selection exactly; the cancellation refuses if and only if the number was on screen already |
| AccountTabCalls.SelectingIsExact | crates/koushi-core/src/account_runtime_manager.rs:677-706 | selecting answers yes if and only if a tab carries the id and is unbound or the store agrees, and then changes exactly selection and scheduler to it; no if and only if no tab carries the id; anything else changes nothing |
| AccountTabCalls.AddingIsExact | crates/koushi-core/src/account_runtime_manager.rs:708-772 | adding is refused after shutdown, returns to the unbound tab if there is one and remembers where from, and otherwise opens the next sign-in tab last |
| AccountTabCalls.CancellingIsExact | crates/koushi-core/src/account_runtime_manager.rs:778-822 | a tab closes if and only if it is unbound, signed out and not alone; its runtime retires, and a selected one gives way to the tab the user came from, else to its neighbour |
| AccountTabCalls.RemovingIsExact | crates/koushi-core/src/account_runtime_manager.rs:911-978 | a signed-out account's tab closes exactly when the store removed it; its neighbour takes over the selection, the last tab is replaced |
| AccountTabCalls.RefusalsAreNamed | crates/koushi-core/src/account_runtime_manager.rs:863-909 | a refused sign-in names another tab holding the account, or the account the tab is bound to |
| AccountTabCalls.RestoringIsExact | crates/koushi-core/src/account_runtime_manager.rs:225-412 | a restore lists the kept sign-in tab and then the saved accounts in saved order with new runtimes, selects the first tab without a listed selection, and opens a sign-in tab when nothing is left |
| AccountTabCalls.UnknownTabs | crates/koushi-core/src/account_runtime_manager.rs:677-978 | calls naming no tab change nothing |
| AccountTabCalls.ShutdownIsFinal | crates/koushi-core/src/account_runtime_manager.rs:990-1024 | the first shutdown leaves nothing and later ones repeat its result; adding and restoring are refused from then on |
| AccountTabManager.TabManager.constructor | crates/koushi-core/src/account_runtime_manager.rs:176-220 | starts with one selected sign-in tab |
| AccountTabManager.TabManager.SelectTab | crates/koushi-core/src/account_runtime_manager.rs:677-706 | selects a known tab unless the store refuses |
| AccountTabManager.TabManager.AddAccountTab | crates/koushi-core/src/account_runtime_manager.rs:708-772 | reuses the unbound tab or opens the next one; loses no runtime, and keeps a consistent list if and only if the call does not clash |
| AccountTabManager.TabManager.CancelAddAccountTab | crates/koushi-core/src/account_runtime_manager.rs:778-822 | closes an unbound signed-out tab unless it is the last |
| AccountTabManager.TabManager.BindAuthenticatedSession | crates/koushi-core/src/account_runtime_manager.rs:863-909 | binds, or reports duplicate, mismatch or store failure |
| AccountTabManager.TabManager.RemoveSignedOutTab | crates/koushi-core/src/account_runtime_manager.rs:911-978 | removes a signed-out account tab, never leaves no tab, and keeps the list consistent even at the end of the counter |
| AccountTabManager.TabManager.RestoreSavedAccounts | crates/koushi-core/src/account_runtime_manager.rs:225-412 | replaces the tabs by the saved ones, keeping the first tab with the id of the unbound tab that is signing in; a consistent list stays so if and only if the index repeats no account |
| AccountTabManager.TabManager.ReplaceTabs | crates/koushi-core/src/account_runtime_manager.rs:301-362 | starts one runtime per saved tab and stops the old ones |
| AccountTabManager.TabManager.ShutdownAllChecked | crates/koushi-core/src/account_runtime_manager.rs:990-1024 | shuts down once and repeats the first result |
| NavigationAliases.NumbersAreNeverReassigned | crates/koushi-core/src/navigation_diagnostics.rs:99-127 | over any run, resets included, the table stays within 2048 entries and no number is ever shown for two identities |
| NavigationAliases.RecordIsConsistent | crates/koushi-core/src/navigation_diagnostics.rs:338-368 | inside one record filled cells carry equal numbers if and only if they stand for the same account, the same space of one account, or the same room of one account; each was shown for its identity |
| NavigationAliases.RecordsShareNoNumber | crates/koushi-core/src/navigation_diagnostics.rs:331-368 | over any run of records from the empty table, requested and forced resets included, cells of any two records with equal numbers stand for the same identity |
| NavigationAliases.PrepareMakesRoom | crates/koushi-core/src/navigation_diagnostics.rs:106-115 | after preparing, the whole record fits |
| NavigationAliases.AliasWithRoom | crates/koushi-core/src/navigation_diagnostics.rs:117-127 | while there is room showing an identity never resets the table |
| NavigationAliases.AliasExact | crates/koushi-core/src/navigation_diagnostics.rs:117-127 | a known identity keeps its number, a new one gets the next serial, and a full table is emptied first |
| NavigationAliases.PrepareExact | crates/koushi-core/src/navigation_diagnostics.rs:106-115 | the table is emptied if and only if the record would not fit beside it, and the serial stays |
| NavigationAliases.CellKeysExact | crates/koushi-core/src/navigation_diagnostics.rs:340-356 | a cell is present exactly with its identity, and two cells share a key exactly for the same account, space or room |
| NavigationAliases.Aliases.ResetTable | crates/koushi-core/src/navigation_diagnostics.rs:100-104 | clears the table and keeps the serial |
| NavigationAliases.Aliases.PrepareFor | crates/koushi-core/src/navigation_diagnostics.rs:106-115 | resets before the record if it would not fit |
| NavigationAliases.Aliases.AliasOf | crates/koushi-core/src/navigation_diagnostics.rs:117-127 | returns the stored number or issues the next one |
| NavigationAliases.Aliases.EmitRecord | crates/koushi-core/src/navigation_diagnostics.rs:331-368 | emits exactly the cells of the record function; fills the three-by-three matrix consistently, enters every filled cell in the history of shown numbers, and leaves a cell empty only without identity or serial |

## Left out

- Tokio wake-ups, watch notifications, mutex poisoning, spawned tasks and real clocks: steps are atomic, interleave freely, and carry a clock reading that never goes back.
- Unbounded id draws: work ids, tickets and guard addresses are drawn fresh; the wrap-around of the 64-bit atomic counters behind ids and tickets is not modelled.
- Image inspection, decoding and encoding, and descriptor details (file name, type, dimensions, savings): what they return is a parameter.
- Media statistics and high-water marks: sums over the maps that would only add easy members.
- HTML parsing: ranges are proved for every node tree. Preview candidates, preview fetching and `href` extraction are not part of this model.
- UTF-8 byte offsets inside `extract_link_ranges`: matches and cuts are modelled by character index.
- Saved-session store, legacy settings migration, session snapshots, homeserver and session key of a tab, pending sign-in attempts, and the restore commands sent to runtimes: their outcomes are parameters, or they are not part of this model.
- Diagnostics events, `Debug` redaction and work-stage recording: no state worth proving.
- Batch limits of the work policies: read by the callers that fetch, not by the scheduler.
- Test-only hooks that set counters directly, and the failure injection of `persistence_permits`.
- Liveness of callers (that a waiter wakes, that a completion arrives): runs state what happens when they do.
- `ForwardedComposerDraftPermit`: a single flag and a channel send.
