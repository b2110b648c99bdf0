# Boxer, modelled and proved in Dafny

Boxer is a control plane for virtual machines: a daemon that keeps a database of VMs, a view of
libvirt, a digest-addressed image cache and a queue of requests in step over long runs. This
project models the parts of it that have to stay consistent and proves what they promise.

Each part is a specification on values, a class or methods that do the work statement by
statement and are proved to compute it, and lemmas about runs of the specification.

- `Lease*.dfy`: the cleanup of VMs whose lease has run out. A scan warns, asks for shutdown,
  forces power off, retries and deletes; the lemmas cover whole runs (safety, an extension wins,
  bounded progress with a measure, row order, and what each entry of the scanner's log does to
  domains, rows, files and notices). `LeaseManager.dfy` is the scanner itself.
- `Image*.dfy`: the image cache with its current digests, bounded history, overlays and pruning.
- `Admission*.dfy`, `Queue*.dfy`, `Scheduler.dfy`: admission arithmetic with its rounding, caps over
  runs and where they end, and the queue runner that re-enters the request handler.
- `Notice*.dfy`: notices queued per project and handed out with the results of its calls.
- `TextLines.dfy`, `Clearsign.dfy`, `ChecksumManifest.dfy`: clearsigned manifests, from the
  characters of the document to the digest of one file.
- `BootToDisk.dfy`, `DomainTree.dfy`: the rewrite of an installer's domain so that it boots from its
  disk, as a function on trees and in place on the nodes of a parsed document.
- `DomainNames.dfy`, `Reconcile*.dfy`, `Reconciler.dfy`: domain names and the report that compares
  libvirt with the database, with the repairs it suggests.
- `ConsolePorts.dfy`, `EmulatorHost.dfy`: emulator console ports. `Subnets.dfy`: project subnets.

Inputs stand for what the daemon cannot decide: what libvirt, a guest, a download or a disk
answers, the clock, and the order in which the database lists rows.

Where code and documentation differ the model follows the code:

- The docstring of the clearsign decoder promises the signed bytes. The decoder breaks lines
  where Python does, so a form feed or a Unicode line separator in a line is lost, and an
  unescaped line that strips to the signature header ends the text
  (`Clearsign.DecodesExactlyWhatWasSigned` gives the exact condition).
- Admission caps hold only while libvirt lists its domains (`AdmissionLimits.CapsNeedTheListing`).
  The end of an install boots its VM without admission, and a stop the guest ignores is found out
  by the next scan; each can break a cap (`AdmissionLimits.InstallEndBreaksCaps`,
  `AdmissionLimits.IgnoredStopBreaksRunningCap`), and `AdmissionRuns.CapsHoldOverRuns` says exactly
  when the caps hold.
- A size that is null or text, which the handler accepts, ends the queue pass that meets it, and so
  does a memory too large to divide, which gets queued when all installers are taken
  (`QueueReach.PassReachesAllIff`, `QueueReach.HugeMemoryIsQueuedIff`); at the head of the queue
  such a request can block all others until it expires (`QueueReach.HeadBlocksUntilItExpires`).
- The queue runner and the handler read different sizes where a request leaves them out, so a
  request can be promoted and queued again at every pass and never expire
  (`QueueReach.RefusedRequestNeverExpires`).
- A row stored as deleting or pending whose domain is unknown is never cleaned up
  (`LeaseProgress.ScansReclaimUnlessStuck`).
- A project id that ends in a dash gives domain names that parse to a wrong triple
  unless the name hides it (`DomainNames.TrailingDashMisparses`).

`dafny verify dfyconfig.toml` checks the whole project.

## Model

| member | source | states |
|---|---|---|
| LeaseSafety.EveryForcedStopWasRequested | boxerd/lease_manager.py:143-242 | Over every run with a clock that never goes back, each forced stop of a VM at n follows its own graceful request at t <= n - force grace; between the two no scan saw the lease live or the VM halted, no force succeeded, the row was not deleted, and every failed force is a grace older than n |
| LeaseSafety.ForcedStopsAreSpaced | boxerd/lease_manager.py:194-213 | Any two forced attempts on one VM are at least the force grace apart, over every run |
| LeaseSafety.ReprieveNeedsNewRequest | boxerd/lease_manager.py:85-107 | After a scan that saw the lease live or the VM halted, a forced stop needs a graceful request made after that scan |
| LeaseSafety.RunKeepsInv | boxerd/lease_manager.py:69-123 | Every run keeps ids, unique domain names, actions only for existing rows, and the backing of each pending action by a request old enough for its force-after time |
| LeaseSafety.VisitIsJustified | boxerd/lease_manager.py:125-242 | One visit keeps its row's pending action backed by a graceful request and issues no unjustified forced stop |
| LeaseExtension.ExtensionWins | boxerd/daemon.py:1303-1315 | After an extension at t with ttl >= 0 the lease is no shorter and reaches t + ttl; up to that lease no scan of any run stops or deletes the VM, whatever its live state, and the first scan drops the pending action |
| LeaseExtension.VisitOnLiveLease | boxerd/lease_manager.py:78-87 | A visit of a row whose lease is live records nothing but having seen it live, so no stop and no delete, and drops its action |
| LeaseProgress.AbandonedVmIsReclaimed | boxerd/lease_manager.py:89-115 | An abandoned VM is off after two scans a grace apart when forced power-off works, and its row is gone at the next scan past lease plus delete grace, also when its domain vanishes at any point |
| LeaseProgress.VisitLowersRank | boxerd/lease_manager.py:125-242 | The measure behind that: each scan lowers the rank of an abandoned row until it is off, and to zero past the delete grace |
| LeaseProgress.ScansReclaimUnlessStuck | boxerd/lease_manager.py:80-109 | Under scans alone an abandoned row is reclaimed if and only if it is not stored as deleting or pending with a domain libvirt does not know |
| LeaseProgress.StuckRowStays | boxerd/lease_manager.py:80-109 | A row stored as deleting or pending with an unknown domain matches neither branch and stays unchanged through any number of scans |
| LeaseProgress.FailedDeleteSticks | boxerd/daemon.py:1275-1301 | A delete whose files cannot be removed leaves exactly such a row |
| LeaseProgress.CalmSteps | boxerd/lease_manager.py:69-123 | The steps of other VMs, recorded calls, and the guest halting or its domain vanishing do not undo progress |
| LeaseOrder.ScanOrderIsIrrelevant | boxerd/lease_manager.py:76-115 | Any two orders of the rows give the same rows, actions, call log, domains and storage, and the same multisets of events, notices and host calls |
| LeaseOrder.ScanVisitsEach | boxerd/lease_manager.py:76-115 | After visiting some rows, exactly those rows' shares of the state are what visiting them in the original state gives, and everything else is untouched |
| LeaseOrder.ScanEmitsEach | boxerd/lease_manager.py:89-115 | A scan emits, row by row, exactly what each row's own visit emits |
| LeaseOrder.ScanDeletesOnlyBoxerStorage | boxerd/lease_manager.py:335-347 | A scan removes a VM's storage if and only if it deletes the row and the origin is boxer, and rows go only past lease plus delete grace |
| LeaseModel.PutKeepsWellFormed | boxerd/db.py:26-46 | Replacing one row's share keeps the primary key, unique domain names and the cascade from rows to cleanup actions |
| LeaseModel.VisitStaysItself | boxerd/lease_manager.py:76-115 | A visit never changes id, domain name, project, origin or lease of its row, and a deleted row leaves no action |
| LeaseManager.Manager.Scan | boxerd/lease_manager.py:69-123 | The scan loop over the listed rows is the specified fold, then prunes the call log |
| LeaseManager.Manager.ScanRow | boxerd/lease_manager.py:76-115 | One turn of the loop is one specified visit, host calls in order |
| LeaseManager.Manager.JudgeRow | boxerd/lease_manager.py:85-115 | Live lease, running, halted or neither: the branch taken is the specified one |
| LeaseManager.Manager.CleanupRunningStaleVm | boxerd/lease_manager.py:125-141 | Activity threshold, first request, waiting and forcing are told apart as specified |
| LeaseManager.Manager.RequestGracefulShutdown | boxerd/lease_manager.py:143-177 | Sends the graceful stop, stores stopping and the action with its force-after time, even when the call raises |
| LeaseManager.Manager.ForceOff | boxerd/lease_manager.py:179-242 | Forces off; on failure re-arms the action and reports, on success stores the final state, drops the action and sends the notice |
| LeaseManager.Manager.RetireHaltedVm | boxerd/lease_manager.py:100-115 | Closes a pending action and deletes past the delete grace |
| LeaseManager.Manager.AutoDeleteVm | boxerd/lease_manager.py:335-349 | Undefines, removes storage of boxer VMs, deletes row and action; a storage error leaves them in place |
| LeaseManager.Manager.StopDomain | boxerd/vm_ops.py:563-577 | Stopping an absent domain does nothing; else the reply decides |
| LeaseManager.Manager.ExtendLease | boxerd/daemon.py:1303-1315 | Extends from the later of lease and now, and changes nothing else |
| LeaseManager.Manager.DeleteVm | boxerd/daemon.py:1275-1301 | Deletes a VM, or leaves it marked deleting when its files cannot be removed |
| LeaseManager.Manager.RecordProjectCall | boxerd/db.py:409-423 | Appends one call to the project's log |
| LeaseManager.Manager.StartVm | boxerd/daemon.py:1147-1174 | Starts an existing domain and stores running; raises, and leaves the row as it is, when the domain is gone or libvirt fails |
| LeaseManager.Manager.StopVm | boxerd/daemon.py:1178-1190 | Stops the domain and stores stopped unless the call raises |
| LeaseEffects.ScansCutPowerLawfully | boxerd/lease_manager.py:125-242 | Over every run a scan that changes what libvirt reports for a domain found its lease run out and asked it off, the domain being what the graceful call left; or forced it off, a standing request a force grace old backing that very entry; or undefined it past the delete grace |
| LeaseEffects.ScanMovesDomainsAsLogged | boxerd/lease_manager.py:143-242 | After a scan each domain is what the graceful stop left if its row was asked off, what the forced stop left if it was forced, what undefining left if it was deleted, and otherwise as before, but for a delete that failed on the files; domains of no row never change |
| LeaseEffects.VisitDecides | boxerd/lease_manager.py:78-141 | Exactly when a visit asks, forces, succeeds at forcing and deletes, on lease, state, action, calls, graces and answers, and that it does at most one of these |
| LeaseEffects.VisitRecords | boxerd/lease_manager.py:143-242 | What is left of row, action and files and which events and notices are sent, per kind of entry, with the force-after time and the error stored |
| LeaseEffects.QuietVisit | boxerd/lease_manager.py:76-107 | A visit that makes no call only stores the live state, drops or keeps the action, and warns |
| LeaseEffects.BusyProjectKeepsItsVm | boxerd/lease_manager.py:125-134 | A scan leaves a live VM past its lease running, with any pending action, when enough calls of its project are in the log since the window began, counted as a set of positions |
| LeaseEffects.RunCountsCalls | boxerd/lease_manager.py:117-123 | Over every run the calls counted for a project since a time are exactly the call steps it made since then, if the log is kept that long: pruning loses none that counts |
| LeaseEffects.PruningKeepsTheRecent | boxerd/db.py:434-441 | Pruning keeps each call recent enough as often as it was logged, and no other |
| LeaseEffects.EveryForcedStopIsNotified | boxerd/lease_manager.py:214-242 | Over every run the notices are, one for one and in order, the forced stops that succeeded |
| LeaseEffects.ExtendingSetsTheLease | boxerd/daemon.py:1303-1315 | An extension sets one lease to exactly the later of lease and now plus the time asked for, and nothing else |
| LeaseEffects.DeletingKeepsForeignFiles | boxerd/daemon.py:1275-1301 | A delete removes row, action and the files of a VM Boxer made, keeps the files of adopted and imported ones, and on a storage error only marks the row |
| LeaseEffects.CreatingTakesNewNames | boxerd/daemon.py:1003-1038 | A new VM runs from the start, and one whose id or domain name is taken is not created |
| LeaseEffects.PowerCallsAreStored | boxerd/daemon.py:1147-1190 | A start or stop that does not raise is stored as running or stopped, whatever the guest did, and touches no other domain or row |
| ImageSafety.RunKeepsInv | boxerd/image_catalog.py:255-346 | Over every run of ensure, refresh, provision, overlay and prune steps each digest blob holds bytes of the digest in its name, the current digest of each metadata entry names a blob that is there, and each overlay on a blob has it |
| ImageSafety.EnsureAnswers | boxerd/image_catalog.py:255-346 | A returned path is the blob of the digest upstream or the pin gave, a just-downloaded blob under its own hash when there is no manifest, or the previously verified current blob, and what is current afterwards |
| ImageSafety.EnsureSucceedsIff | boxerd/image_catalog.py:255-346 | Exactly when a request is answered: policy, manifest outcome, cached blob and download outcome together |
| ImageSafety.EnsureFailsClosed | boxerd/image_catalog.py:312-346 | Any failure, of verification or otherwise, leaves files, metadata and overlays as they were |
| ImageSafety.DownloadFailureIsNotMasked | boxerd/image_catalog.py:290-310 | A failed download of a resolved digest is an error even when an older verified blob exists |
| ImageSafety.OverlaysKeepTheirBase | boxerd/image_catalog.py:521-553 | Until it is deleted an overlay on a digest blob keeps that blob through every run, with bytes of its digest, and with the very same bytes where that digest has no collision |
| ImageSafety.UsedBlobsAreNotPrunable | boxerd/image_catalog.py:521-553 | Incomplete backing information rules out every digest blob, so a blob in use is never prunable |
| ImageSafety.CurrentBlobsAreNotPrunable | boxerd/image_catalog.py:490-501 | A current blob is never prunable |
| ImageSafety.PruneRemovesExactly | boxerd/image_catalog.py:447-488 | A prune removes exactly the prunable artifacts, reports exactly those, and leaves everything else and all bytes alone |
| ImageSafety.DryRunForetells | boxerd/image_catalog.py:447-488 | A dry run changes nothing and reports exactly what the real prune removes; freed bytes are the sum of the removed sizes, nothing counted twice |
| ImageSafety.PruneTwice | boxerd/image_catalog.py:447-488 | Pruning again with the same cutoff and backing information removes nothing |
| ImageSafety.LegacyBaseKeptIff | boxerd/image_catalog.py:461-478 | The looser rule for single-file caches: one is kept if and only if it is recent or a readable overlay is on it |
| ImageHistory.StoredHistoryIsRecent | boxerd/image_catalog.py:672-706 | After any run from an empty cache the stored history has at most ten entries, no digest twice, the current digest first, and is the front of the most-recently-used list of all digests ever made current |
| ImageHistory.FullIsRecencyList | boxerd/image_catalog.py:681-706 | Filtering a digest out and pushing it to the front maintains a list ordered by last use, by an independent definition of one |
| ImageHistory.CutCommutes | boxerd/image_catalog.py:681-706 | Cutting to ten at every update loses nothing that cutting once at the end would keep |
| ImageEffects.ManualServesItsCache | boxerd/image_catalog.py:262-268 | A manual template with a cached blob is served unforced from the cache, unchanged, whatever upstream would say |
| ImageEffects.AskedDigestIsServed | boxerd/image_catalog.py:270-303 | With a pin or a listed digest exactly that digest is served and becomes current, from disk or freshly downloaded; otherwise nothing changes and the error names download or digest |
| ImageEffects.PinIgnoresTheManifest | boxerd/image_catalog.py:555-560 | With a pin the outcome is the same for every manifest |
| ImageEffects.WithoutAManifest | boxerd/image_catalog.py:301-310 | With neither pin nor manifest a pinned policy is refused, a cached image serves unforced, and else the download is taken under its own SHA-256 |
| ImageEffects.WhenTheManifestFails | boxerd/image_catalog.py:270-289 | An unreachable manifest falls back to the cache unless forced; a rejected one is an error even with a cache |
| ImageEffects.RefusedAtOnce | boxerd/image_catalog.py:257-261 | A bad URL and an unknown policy are refused with their own errors before anything else |
| ImageEffects.WhatIsRecorded | boxerd/image_catalog.py:100-118 | Whatever Ensure changes is one metadata entry: the digest answered, its time, whether it was signed, the explicit policy even beside a pin, else pinned with a pin and latest without |
| ImageEffects.OverlayStandsOnTheAnswer | boxerd/daemon.py:978-980 | A new overlay is backed by the very path the ensure answered, and a failed ensure makes none |
| ImageEffects.PruneKeepsIff | boxerd/image_catalog.py:447-488 | A prune keeps a file if and only if it is a current blob, is seen under a readable overlay, is a digest blob while some overlay is unreadable, or is younger than asked for |
| ImageEffects.FreedIsWhatWent | boxerd/image_catalog.py:460-488 | Bytes on disk before a prune equal bytes after plus the bytes reported freed |
| ImageManager.Manager.EnsureArtifact | boxerd/image_catalog.py:255-310 | The ensure path, branch by branch, is the specified outcome and new state |
| ImageManager.Manager.Download | boxerd/image_catalog.py:312-346 | Downloads, verifies under the expected or the default algorithm, and only then moves the file and makes it current |
| ImageManager.Manager.SetCurrentPointer | boxerd/image_catalog.py:672-706 | Writes the current digest and the updated history of one slot only |
| ImageManager.Manager.EntriesWithout | boxerd/image_catalog.py:693-695 | The history filter keeps exactly the other digests, in order |
| ImageManager.Manager.ProvisionOverlay | boxerd/image_catalog.py:223-244 | Ensures the image and records the overlay on the returned path |
| ImageManager.Manager.Current | boxerd/image_catalog.py:661-670 | The current blob is the one the metadata name as current, if its file is there |
| ImageManager.Manager.CollectCurrentBlobs | boxerd/image_catalog.py:490-501 | Collects the current blob of every slot |
| ImageManager.Manager.CollectBackingFiles | boxerd/image_catalog.py:521-553 | Collects the bases of readable overlays and whether the information is complete |
| ImageManager.Manager.PruneCache | boxerd/image_catalog.py:447-488 | The prune loop removes, counts and reports as specified, from files only |
| AdmissionRuns.CapsHoldOverRuns | boxerd/scheduler.py:110-142 | Over every run of requests, queue passes, stops, deletes, starts, ends of installs, scans and expiries with positive sizes: disk, running VMs, vCPUs and installs stay within their caps and memory within usable memory plus 0.005 GiB throughout, if and only if there is room for each VM that a start or the end of an install turns on and no scan finds more VMs of a project on than may run |
| AdmissionCaps.AdmittedRamFits | boxerd/scheduler.py:41-60 | One admission leaves memory at most half a hundredth above the usable memory, so the rounding error does not accumulate |
| AdmissionCaps.RoundingError | boxerd/scheduler.py:41-60 | Rounding to two decimals moves a value by at most 0.005 |
| AdmissionCaps.CreatingStaysWithinCaps | boxerd/daemon.py:698-706 | An admitted VM keeps every cap |
| AdmissionRuns.StepKeepsCapsIff | boxerd/scheduler.py:110-142 | One step of any kind keeps the caps if and only if there is room for what it turns on or finds on |
| AdmissionRuns.TurningOnKeepsCapsIff | boxerd/daemon.py:926-929 | Turning a VM on without admission keeps the caps if and only if its vCPUs and memory fit what is free and its project has a place among its running VMs |
| AdmissionRuns.RefreshKeepsCapsIff | boxerd/lease_manager.py:76-83 | Writing live states back keeps the caps if and only if no project has more VMs found running than may run |
| AdmissionLimits.CapsNeedTheListing | boxerd/scheduler.py:69-93 | Admission protects the caps if and only if libvirt lists all its domains both times it is asked: a listing that fails after any number of domains lets a full host admit one more VM |
| AdmissionLimits.InstallEndBreaksCaps | boxerd/daemon.py:898-938 | A run of two requests that overfills a host: an install takes the last vCPUs and powers off, a second VM is admitted, the watcher boots the first |
| AdmissionLimits.IgnoredStopBreaksRunningCap | boxerd/daemon.py:1178-1190 | A run that leaves two running VMs where one may run: a guest ignores its stop, another VM is admitted, a scan finds the first still on |
| AdmissionLimits.ScanFindsNothingNew | boxerd/lease_manager.py:76-83 | While a VM recorded as not running is off, a scan finds no more VMs running than recorded |
| AdmissionLimits.CapsHoldWhenStopsTakeEffect | boxerd/daemon.py:1178-1190 | When stops take effect and nobody pauses a VM, the caps hold over every run as long as there is room for what starts and ends of installs turn on; scans cost nothing |
| AdmissionEffects.EndedInstallFreesItsSlot | boxerd/daemon.py:898-938 | However a watched install ends, no row of its VM is installing afterwards, booted from disk its rows and domain run, and everything else is as before; without a watcher or a powered-off installer nothing happens |
| AdmissionEffects.NoSlotIsLost | boxerd/db.py:307-314 | In every state reached from an empty host each row holding an install slot has a watcher, and its giving up leaves strictly fewer slots taken |
| AdmissionEffects.DenialsTellWhatIsShort | boxerd/scheduler.py:110-142 | Which of memory, vCPUs, running VMs and disk each denial names, in this order, against sums over the listed domains and the rows and memory rounded half to even; admitted exactly when all four fit |
| AdmissionEffects.WhereNoNumberRaises | boxerd/scheduler.py:118-140 | A size that is no number makes the check raise at the comparison that first needs it, after any earlier denial |
| AdmissionEffects.InstallersWaitForASlot | boxerd/daemon.py:698-706 | Installers are denied for the installs going on if and only if as many rows are installing as may, other requests never |
| AdmissionEffects.CreatedAsAskedFor | boxerd/daemon.py:843-896 | A created VM has the sizes the handler read, runs, and holds a slot with a watcher if and only if it is an install and no test boot |
| AdmissionEffects.StepsDoNoMore | boxerd/daemon.py:1147-1190 | Stops, starts, guests going off and scans change exactly the rows and domains of one VM, index by index |
| AdmissionEffects.DeletingTakesTheRowsOnly | boxerd/daemon.py:1275-1301 | A delete takes the rows of one VM and its domain as libvirt says, each other one as often as it was |
| AdmissionEffects.RefreshedRows | boxerd/lease_manager.py:76-83 | A scan records a VM as running exactly if its domain is on and not paused, and keeps to the row when there is no domain |
| AdmissionEffects.HandlerAnswers | boxerd/daemon.py:527-571 | A handler fails without effect on what it cannot read, decide or create, queues a denied request as waiting from now, and creates an admitted one |
| AdmissionEffects.DivisionOverflowsIff | boxerd/scheduler.py:120 | The division raises exactly from 1024 * (2^1024 - 2^970) on, either sign |
| AdmissionEffects.HandlerReadsSizes | boxerd/daemon.py:527-529 | A size left out, null, zero or blank is the template's, a fraction is cut towards zero, text is its number or an error |
| AdmissionEffects.RunnerReadsSizes | boxerd/scheduler.py:172-177 | The runner decides on 2 vCPUs, 2048 MB and 20 GB where a size is left out, and passes anything else on as it is |
| QueueConservation.RequestsAreConserved | boxerd/scheduler.py:168-188 | Over every run accepted requests equal VMs created plus entries waiting plus entries expired, no entry stays in processing, and none is promoted twice, although promotion may re-queue |
| QueueConservation.PromoteQueue | boxerd/daemon.py:623-631 | Promoting an entry settles it and adds at most one fresh entry, and the books balance |
| QueueConservation.QueuePassSettles | boxerd/scheduler.py:168-188 | A pass ends with no entry in processing and promotes only entries that existed when it began |
| QueueConservation.PassSettles | boxerd/scheduler.py:168-188 | After any part of a pass the rest of its snapshot is still waiting |
| QueueConservation.PendingAreWaiting | boxerd/db.py:376-389 | The pending list holds exactly the waiting entries, each once, oldest first |
| QueueReach.PassReachesAllIff | boxerd/scheduler.py:168-188 | A pass considers every pending entry in every state if and only if the sizes of all of them are absent or numbers and no memory size is a whole number beyond float range; null, text or such a memory, wherever it stands, can end the pass before the entries behind it |
| QueueReach.RunnerDecidesIff | boxerd/scheduler.py:173-177 | The runner can decide on a request in every state if and only if its three sizes are absent or numbers and its memory is no whole number beyond float range |
| QueueReach.RunnerNeverDecidesIff | boxerd/scheduler.py:110-142 | The runner raises on a request in every state if and only if its memory is no number or beyond float range, or never too much while its vCPUs are no number |
| QueueReach.HugeMemoryIsQueuedIff | boxerd/daemon.py:698-719 | A request with a whole-number memory beyond float range is queued if and only if it is for an installer while all installers are taken, and fails otherwise; the runner can never decide on it |
| QueueReach.TenTo400Overflows | boxerd/scheduler.py:120 | 10^400 is such a memory size |
| AdmissionCaps.AdmissionRaisesIff | boxerd/scheduler.py:118-122 | A handler's check raises if and only if the memory it read is beyond float range and no taken installers deny the request first |
| QueueReach.NullAtHeadBlocksQueue | boxerd/scheduler.py:168-188 | While a request the runner can never decide on is at the head of the queue, no pass changes anything |
| QueueReach.HeadBlocksUntilItExpires | boxerd/db.py:396-405 | A request the runner can never decide on, at the head of the queue, leaves the world unchanged through every round of pass and expiry exactly until a cutoff passes the time it was queued; from then on what is young enough is pending |
| QueueReach.PendingAfterExpiry | boxerd/db.py:396-405 | An expiry leaves pending, in order, exactly the entries that are young enough |
| QueueReach.PromotionRequeuesIff | boxerd/daemon.py:527-546 | A promotion queues its request again if and only if the handler reads its sizes and refuses it, and the new entry is as young as the pass |
| QueueReach.DisagreementHasACause | boxerd/scheduler.py:172-177 | On the same answers the runner admits what the handler refuses only if all installers are taken for an installer request, or the handler reads a larger size from the template and does not fail on it |
| QueueReach.DisagreementIff | boxerd/daemon.py:527-529 | In some state and on some answers the runner admits what the handler refuses if and only if the request is numeric and is for an installer, or leaves out or zeroes a size of which the template has more, and then not so much memory that the handler fails |
| QueueReach.RefusedRequestNeverExpires | boxerd/db.py:396-405 | A request the runner admits and the handler refuses never expires while cutoffs lie before the last pass: after any number of rounds exactly one entry for it waits, as young as the last pass, and no VM was created |
| QueueReach.LargeTemplateIsTossed | boxerd/daemon.py:527-529 | A template larger than the host, asked for without sizes, is such a request |
| Scheduler.Daemon.UsedRamGib | boxerd/scheduler.py:69-80 | Sums the memory of active domains, as far as libvirt gets before it fails |
| Scheduler.Daemon.UsedVcpuCount | boxerd/scheduler.py:82-93 | Sums the vCPUs of active domains, as far as libvirt gets before it fails |
| Scheduler.Daemon.ProjectUsage | boxerd/scheduler.py:123-140 | Counts running VMs and recorded disk of one project |
| Scheduler.Daemon.CountInstalling | boxerd/db.py:307-314 | Counts installs under way |
| Scheduler.Daemon.Check | boxerd/scheduler.py:110-142 | The admission checks in their order, and which one denies |
| Scheduler.Daemon.HandleRequest | boxerd/daemon.py:489-571 | A request handler denies and queues, fails, or creates the VM, as specified |
| Scheduler.Daemon.ProcessQueue | boxerd/scheduler.py:168-188 | The queue loop over the snapshot is the specified pass |
| Scheduler.Daemon.PromoteEntry | boxerd/scheduler.py:175-188 | Marks, handles and settles one entry |
| Scheduler.Daemon.ListPending | boxerd/db.py:376-389 | Lists the waiting entries in creation order |
| Scheduler.Daemon.UpdateStatus | boxerd/db.py:391-394 | Changes the status of one entry only |
| Scheduler.Daemon.ExpireOldEntries | boxerd/db.py:396-405 | Expires waiting entries older than the cutoff |
| Scheduler.Daemon.FinishInstall | boxerd/daemon.py:898-938 | The end of the install watcher: it gives up, or boots a domain it saw off and records it running, without admission |
| Scheduler.Daemon.RefreshStates | boxerd/lease_manager.py:76-83 | Writes the live state of every domain libvirt knows back to its row |
| NoticeModel.NoticesAreDeliveredOnceInOrder | boxerd/daemon.py:433-474 | Over every run the batches handed to a project, of at most five, followed by what is still pending, are exactly the notices sent to it, in order, none twice, none of another project |
| NoticeModel.WhoConsumesNotices | boxerd/daemon.py:433-474 | Notices are consumed exactly when a dict or an IPC error goes to a caller who is no admin, with a project id that starts with p_ and is not p_unknown, while some are pending; the response carries the oldest, five at most, after its own; other projects lose none |
| NoticeModel.MarkingTakesTheOldest | boxerd/db.py:522-549 | Marking the oldest pending notices of one project removes exactly those from its pending list and none from another's |
| NoticeModel.RunAccounts | boxerd/daemon.py:433-474 | Every run keeps handed plus pending equal to sent, for every project |
| NoticeModel.PendingAreUndelivered | boxerd/db.py:522-536 | Pending for a project are exactly the notices sent to it that are not delivered |
| NoticeModel.EverySendIsKept | boxerd/db.py:491-520 | Over every run a project has been sent as many notices as there were sends to it |
| NoticeDesk.Desk.WrapResult | boxerd/daemon.py:433-474 | The wrapper attaches, marks and returns as specified for each way a handler ends |
| NoticeDesk.Desk.ListPending | boxerd/db.py:522-536 | The oldest pending notices of one project, up to the limit |
| NoticeDesk.Desk.MarkDelivered | boxerd/db.py:538-549 | Marks exactly the given notices |
| NoticeDesk.Desk.AddNotification | boxerd/db.py:491-520 | Appends one pending notice |
| Clearsign.DecodesExactlyWhatWasSigned | boxerd/signature.py:148-177 | Section 7.1 of RFC 4880: for any frame, lines and legal dash-escaping, the payload is exactly the signed lines if and only if no line holds a character at which Python breaks lines and no unescaped line strips to the signature header |
| Clearsign.BodyStopsAt | boxerd/signature.py:166-175 | The payload ends exactly before the first line that strips to the signature header |
| Clearsign.EscapedIsNoSignature | boxerd/signature.py:168-171 | A dash-escaped line is never taken for the signature header |
| Clearsign.UnescapeUndoes | boxerd/signature.py:170-173 | Undoing the escape gives back the line for every legal way of writing it |
| Clearsign.ExtractedBreaks | boxerd/signature.py:158-177 | A decoded payload holds no line break but newlines |
| Clearsign.WhenDecodingFails | boxerd/signature.py:148-160 | A text is refused if and only if one of the two armor lines, written out, is nowhere in it, and decoded only if a whole line strips to the header |
| Clearsign.ExtractClearsignedPayload | boxerd/signature.py:148-177 | The decoder's loops compute the specified payload or error |
| Clearsign.FindHeader | boxerd/signature.py:158-159 | Finds the first line that strips to the armor header |
| Clearsign.SkipHashes | boxerd/signature.py:161-165 | Skips the armor headers and one blank line |
| Clearsign.CollectPayload | boxerd/signature.py:167-175 | Collects the unescaped lines up to the signature |
| TextLines.SplitLinesOfText | boxerd/image_catalog.py:161 | Splitting lines undoes writing them with LF or CRLF |
| TextLines.BlanksAre | boxerd/image_catalog.py:161-162 | The 29 blank characters of Python and the ten at which it ends a line, one by one |
| TextLines.StripIs | boxerd/image_catalog.py:162 | Stripping takes exactly the blanks off both ends |
| ChecksumManifest.SignedManifestGivesDigest | boxerd/image_catalog.py:588-599 | A clearsigned manifest of any mix of styles, with directories before the names or not, yields precisely the digest it lists for the wanted file, 64 hexadecimal digits for SHA-256 and 128 for SHA-512, in lower case, or an error when it lists none |
| ChecksumManifest.ManifestGivesDigest | boxerd/image_catalog.py:157-197 | The same for an unsigned manifest |
| ChecksumManifest.FindIsFirstNamed | boxerd/image_catalog.py:161-192 | The first entry of the algorithm for the wanted file decides, whatever remarks, blanks and other entries surround it |
| ChecksumManifest.LineIsRead | boxerd/image_catalog.py:162-192 | Each kind of line is read as what it says: an entry of that algorithm, name and number of digits gives its digest in small letters, a remark or an entry of any other length, name or algorithm gives nothing |
| ChecksumManifest.AnyAnswerIsADigest | boxerd/image_catalog.py:157-197 | For every text at all the answer is an error naming the file or a digest of the algorithm: 64 or 128 small hexadecimal digits |
| ChecksumManifest.LookupIgnoresDirectories | boxerd/image_catalog.py:159 | A lookup depends on the last component of the file asked for only |
| ChecksumManifest.TaggedMatches | boxerd/image_catalog.py:49-51 | The tagged pattern recovers algorithm, file name and digest |
| ChecksumManifest.ManifestSurvivesSigning | boxerd/image_catalog.py:588-599 | No manifest line can be taken for the signature header, so signing and decoding give the manifest back |
| ChecksumManifest.ParseChecksumManifest | boxerd/image_catalog.py:157-197 | The parser's loop returns the first digest found, or the error |
| BootToDisk.RewriteIsIdempotent | boxerd/vm_ops.py:304-337 | Rewriting a rewritten domain changes nothing |
| BootToDisk.RewriteDoesWhatItShould | boxerd/vm_ops.py:304-337 | Only the first devices, os and on_reboot change: cdrom disks go, what stays keeps its order and loses only per-disk boot entries; os has one boot entry for hd behind its type; on_reboot says restart; all else is as before |
| BootToDisk.ReadersSeeTheSame | boxerd/vm_ops.py:39-56 | The primary disk path and the nvme flag survive the rewrite |
| BootToDisk.KeptDevices | boxerd/vm_ops.py:313-318 | The devices kept are exactly the ones that are no cdrom disk, in order |
| BootToDisk.PinnedBoots | boxerd/vm_ops.py:320-330 | One boot entry, directly behind the first type or else last, other children in order |
| BootToDisk.PinnedTwice | boxerd/vm_ops.py:320-330 | Pinning the boot entry twice is pinning it once |
| BootToDisk.KeptFile | boxerd/vm_ops.py:47-56 | Detaching cdroms and boot entries leaves the first file-backed disk of a device list |
| BootToDisk.PrimaryDiskIsFirstFile | boxerd/vm_ops.py:47-56 | The primary disk is the file of the first disk, in document order, whose first source names one, or an error if there is none |
| BootToDisk.NvmeIsMarked | boxerd/vm_ops.py:39-44 | The controller is emulated exactly if a metadata entry of that namespace says enabled |
| DomainTree.XmlBootToDisk | boxerd/vm_ops.py:304-337 | The rewrite, done in place on the nodes of a parsed document, turns it into the specified tree, keeps it a tree and touches nothing outside it |
| DomainTree.DetachCdroms | boxerd/vm_ops.py:311-318 | Changes the first devices element only |
| DomainTree.CleanDevices | boxerd/vm_ops.py:313-318 | Removes the cdrom nodes one by one and the boot entries of the other disks |
| DomainTree.RemoveAll | boxerd/vm_ops.py:322-323 | Takes the children with one tag out of a node, the others keeping their order |
| DomainTree.PinBoot | boxerd/vm_ops.py:322-330 | Replaces the boot entries by a fresh one, appended and then moved behind the type |
| DomainTree.PlaceBoot | boxerd/vm_ops.py:324-330 | The appended entry ends up directly behind the first type, or stays last |
| DomainTree.RestartOnReboot | boxerd/vm_ops.py:333-335 | Changes the text of the first on_reboot only |
| DomainNames.NeverAWrongTriple | boxerd/daemon.py:48-50 | With a project id free of "--" and of a trailing "-", a generated name parses to the right triple or to nothing, and to nothing exactly when the safe name holds "--" or ends in "-" |
| DomainNames.RoundTripsIff | boxerd/daemon.py:48-50 | For any project id: the right triple comes back if and only if both project id and safe name are free of "--" and of a trailing "-" |
| DomainNames.ParsedPrintsBack | boxerd/reconcile.py:62-79 | Any successful parse prints back to its input |
| DomainNames.TrailingDashMisparses | boxerd/reconcile.py:71-79 | For every project id without "--": a wrong triple comes back if and only if the id ends in "-" and the safe name behind a dash is still free of "--" and of a trailing "-", and it is the one with that dash moved to the name |
| DomainNames.ParsesIff | boxerd/reconcile.py:60-79 | A name parses to three parts if and only if it is the prefix and these parts between separators, project and name hold no separator nor end in a dash, and the id has six characters or more and starts with vm_ |
| DomainNames.NamesAre | boxerd/daemon.py:44-50 | A generated name is the prefix, the project id, the display name with every character that is not alphanumeric a dash and cut to 30, and the id |
| DomainNames.GeneratedIdsParse | boxerd/daemon.py:44-50 | A name with a generated id, vm_ and six more characters, comes back exactly when both other parts are separable |
| ReconcileRepair.ReportPartitions | boxerd/reconcile.py:139-186 | Every domain that answers is tracked, orphan or foreign, and only one; every row is tracked or a ghost; orphans and foreign domains come from domains, ghosts from rows, and none is named twice |
| ReconcileRepair.FollowingTheReportRepairs | boxerd/daemon.py:2021-2119 | Adopting all orphans then purging all ghosts, by any caller, keeps ids and names unique and the foreign list; no orphan is left if and only if the parsed ids were distinct and untracked; the ghosts left are exactly those whose domain exists but did not answer or whose row is not the caller's |
| ReconcileRepair.AdoptEachGrows | boxerd/daemon.py:2027-2074 | Adopting a list of orphans only appends rows under their names, and tracks them all if and only if their ids are distinct and untracked |
| ReconcileRepair.AdoptOrphan | boxerd/daemon.py:2027-2074 | An orphan is adopted, with the parsed project, name and id, exactly when its id is not tracked |
| ReconcileRepair.AdoptKeepsUnique | boxerd/daemon.py:2027-2074 | Adoption of any name keeps ids and names unique, and a refusal changes nothing |
| ReconcileRepair.PurgeIsSafe | boxerd/daemon.py:2085-2119 | A purge takes one row at most, exactly when its domain does not exist and the caller is an admin or both project and owner of the row are his; else it names the reason |
| ReconcileRepair.ReportEntriesAre | boxerd/reconcile.py:139-186 | Which orphans, foreign domains and ghosts are reported, field by field |
| ReconcileRepair.AdoptionAnswers | boxerd/daemon.py:2027-2074 | Exactly when an adoption is refused, with which of its four reasons, and when it succeeds |
| ReconcileRepair.PurgeEachLeaves | boxerd/daemon.py:2085-2119 | Purging a list, by any caller, removes exactly its rows that the caller may purge and whose domain does not exist |
| Reconciler.Registry.BuildReport | boxerd/reconcile.py:115-186 | The report loops give the specified lists |
| Reconciler.Registry.ListDomains | boxerd/reconcile.py:126-137 | Domains that fail to answer are left out |
| Reconciler.Registry.Adopt | boxerd/daemon.py:2021-2083 | The adopt handler: checks in order, error or new row, uniqueness kept |
| Reconciler.Registry.PurgeGhost | boxerd/daemon.py:2085-2119 | The purge handler: checks in order, error or row removed, uniqueness kept |
| EmulatorHost.AllocateConsolePort | boxerd/emulator_ops.py:32-39 | Returns the least even port in range whose pair is free, and none exactly when there is none |
| ConsolePorts.AllocatesLeastFree | boxerd/emulator_ops.py:32-39 | The same of the specification the runs use |
| ConsolePorts.LivePairsAreDisjoint | boxerd/emulator_ops.py:198-203 | After any run of launches, stops and exits, among emulators of others, no two live emulators share a port |
| ConsolePorts.LaunchFailsOnlyWhenFull | boxerd/emulator_ops.py:198-203 | With only its own emulators a launch fails if and only if its process cannot be spawned or as many run as the range has even ports, and more never run |
| ConsolePorts.HeldAll | boxerd/emulator_ops.py:32-39 | The pigeonhole: as many live emulators as even ports hold every one of them |
| ConsolePorts.LaunchTakesAFreePair | boxerd/emulator_ops.py:187-239 | A launch adds one emulator of that name on an even port that, like the next, no live or foreign emulator holds, or changes nothing |
| ConsolePorts.KillsByName | boxerd/emulator_ops.py:108-130 | Killing by name ends every emulator of that name and no other |
| EmulatorHost.Host.PortsInUse | boxerd/emulator_ops.py:85-94 | Collects both ports of every running emulator |
| EmulatorHost.Host.Launch | boxerd/emulator_ops.py:187-239 | Launches on the allocated pair, or fails without effect for want of an SDK, a port or a process; ports stay distinct and in range |
| EmulatorHost.Host.Start | boxerd/emulator_ops.py:102-106 | Starting a running emulator does nothing |
| Subnets.LeaseIsSound | boxerd/network_ops.py:48-70 | For every aligned base and number: accepted if and only if the prefix lies between the base's and 31; the subnet lies inside the base, the gateway is below the DHCP range, and both are usable host addresses if and only if the prefix is at most 30 |
| Subnets.SameOrDisjoint | boxerd/network_ops.py:57-64 | Two projects get the same lease if and only if their numbers agree modulo the subnet count; else their subnets share no address |
| Subnets.SubnetInside | boxerd/network_ops.py:63-64 | Each listed subnet is an aligned network inside the base |
| Subnets.LeaseAddresses | boxerd/network_ops.py:57-70 | The subnet is the one the number counts to round the base; gateway, start and end of the DHCP range are its first, second and last host |
| Subnets.LeaseErrors | boxerd/network_ops.py:50-66 | Exactly when the base, the prefix or the number of hosts is refused |

## Left out

- LeaseManager.Manager.ForceOff: the process snapshot in the notice is not modelled, because it is guest output with no effect on the protocol.
- LeaseModel.VisitStaysItself: `last_touched`, the events' wording and the log lines are not modelled; the warn grace only decides a log line.
- Android rows and the emulator backend in scans and reconcile reports: emulators share kill commands and have no libvirt domain.
- Interleavings inside one handler, one scan or one queue pass: each is one atomic step, as if no other call ran between its awaits.
- The hypervisor's, guest's and upstream's answers are inputs: a stop's own fallback from shutdown to destroy is part of the reply it gives.
- Snapshots, IP addresses and tags of VMs; in the lease model also the watching of installs, which there is one more way for a VM to be started.
- ImageSafety.OverlaysKeepTheirBase: hashing is an abstract function, so unchanged bytes are stated for digests without a collision.
- Unreadable metadata, symbolic links and files in the blob directories whose names are no digest.
- URL checks, redirects and the PGP check of a manifest appear as outcomes only.
- AdmissionRuns.CapsHoldOverRuns: adopting and importing VMs, and domains switched on outside Boxer, are not steps of these runs; a watcher lost with a daemon that restarts is one that ends no install.
- Scheduler.Daemon.UsedRamGib: only Boxer's own domains are listed; those under other names count for nothing in the source.
- Scheduler.Daemon.Check: memory is computed over reals, so of the rounding of floats only the two decimals of the free memory and the overflow of the division are modelled; infinities and NaN never get past a handler.
- QueueConservation.PendingAreWaiting: the priority column is always 0 in the source, so queue order is creation order; ids are counters in place of random ones.
- NoticeModel.NoticesAreDeliveredOnceInOrder: notices with the same creation time are taken in insertion order, and the wording of a notice is not modelled.
- ChecksumManifest.ManifestGivesDigest: lower-casing is that of ASCII letters, which decides every hexadecimal digest alike; names with blanks or closing parentheses are outside the two styles' common ground.
- DomainTree.XmlBootToDisk: reading and writing XML text is left to the library, and a missing text or tail is an empty one.
- DomainNames.NeverAWrongTriple: which characters are alphanumeric is a parameter; only that the underscore is not is assumed.
- Reconciler.Registry.Adopt: the domain's disk is an input, its XML is not read; a listing that fails as a whole is the case in which no domain answers.
- ConsolePorts.LivePairsAreDisjoint: a launched process counts as visible at once, and `/proc` is read whole; others that obey the console command of a graceful stop exit in steps of their own.
- Subnets.LeaseIsSound: IPv4 only; the number made from the project id, hexadecimal or hashed, is an input, and addresses are numbers.
- SSH, guest commands, file transfer, screenshots, lab recipes, cloud-init, the MCP tools, the CLI and configuration loading: plumbing, tables or foreign I/O.
