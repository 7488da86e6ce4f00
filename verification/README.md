# Verified models of Omega's stateful protocols

Omega is a workload-identity and authorization control plane with a node agent. This project models the parts of it
that keep state and must survive crashes, lost messages, restarts and concurrent callers, and proves what they promise.

- **Decision shipping** (`Decisions`, `AuditChain`, `ControlPlane`, `LocalPdp`, `Coverage`, `Shipping*`). A node agent
  decides, spools, queues and ships decisions; the control plane records each once in its audit chain. `LocalPdp.Pdp`
  and `ControlPlane.Recorder` are the two objects; `Shipping` is the protocol between them, one step at a time.
- **Policy bundle sync** (`BundleSync`). The issue-time mark and the age of the policy behind a decision.
- **Kept upstream CAs** (`CaOverlap`, `CaOverlapRuns`, `CaKeeper`, `CaRestart`, `CaRestore`, `KeptEvents`, `KeptDelivery`,
  `VaultBundle`). What an external issuer publishes, what it stopped publishing, what operators distrust and what was
  stored make one served bundle.
- **Disk CA rotation** (`DiskRotation`, `RotationRuns`, `CaDirectory`). Prepare, activate and retire as atomic file
  operations, with a crash after any of them.
- **Replay cache** (`ReplayCache`), **durable spiffe_sequence** (`BundleSequence`), **fail-closed policy directory**
  (`DirectoryFreshness`, `PolicyDirectory`) and **nested act chain** (`ActChain`).

An object that changes in place is a class; its methods are proved to give the state a specification function gives,
and the results over whole runs are lemmas about those functions. A clock reading, a store or network outcome and a
random id are parameters.

Some promises do not hold as they are usually read. For each there is a counterexample, or the exact condition names it:

- a decision or loss id is recorded once: the key table forgets what a pruning finds older than thirty days
  (`ResendRecordsTwiceIff`, `DecisionRecordedTwice`);
- a dropped decision is reported: not if the agent crashes while the report waits and no copy of it is ever delivered
  (`UnreportedIff`, `LossForgottenByCrash`);
- a resent loss report carries the same content: its bundle revision follows the head of the queue, and the control
  plane then writes a conflict row (`ReportFollowsHead`, `LossRetry`, `ConflictIsWritten`);
- a decision uses a bundle at most twice the maximum age old: only if the bundle was within the maximum age when the
  sync was stamped, which is after it was loaded (`TwiceMaxAgeIff`, `SlowLoadExceeds`);
- every token a replaced CA signed has expired at an unforced retire: only if the CA stopped signing in the recorded
  second, which a resumed activation breaks (`WaitCoversIff`, `ResumedActivationIsEarly`).

The kept-CA events account for the kept set unless the first merge finds an ended row for a CA that is kept and stays
so (`AccountsIff`, `LateAttachMisreports`). A DPoP proof or client assertion is accepted twice if a request is held up
long enough between the check of its window and the replay cache (`AcceptedOnce`, `HeldUpRequestAcceptedTwice`,
`DelayedRequestAcceptedTwice`). An exchanged token outlives its subject token if the exchange takes a second more than
what the request leaves of the remaining life (`OutlivesIff`). The comment on `IssueJWTSVID` gives a lower
bound of one minute for the lifetime; the code has none, and the model follows the code.

## Model

| member | source | states |
|---|---|---|
| ShippingTheorems.NothingLost | internal/agent/localpdp/localpdp.go:448-502 | in every run with lost, delayed and repeated messages, crashes and restores, an answered decision is in the chain, was discarded as rejected, or waits in the queue; and in the spool at every moment, crashes included |
| ShippingTheorems.AtMostOnce | internal/server/api/bundle.go:197-205 | in every run two rows of one decision id are the same row and more than thirty days apart, so within the retention there is one |
| AuditChain.ResendRecordsTwiceIff | internal/server/storage/audit.go:452-512 | recorded once is false without a time limit: on every chain, a row sent again at any time is recorded a second time exactly when the last pruning that went through went more than thirty days past it, and is ignored otherwise |
| ShippingTheorems.RecordedAgainIff | internal/server/storage/audit.go:452-512 | the same in every state of every run, with control-plane restarts, failed deletions and the pruning by other agents' appends |
| ShippingWitnesses.DecisionRecordedTwice | internal/server/storage/audit.go:502-509 | for every acceptable decision, a run that delivers it, prunes more than thirty days later and delivers it again records it twice |
| AuditChain.AppendKeepsTable | internal/server/storage/audit.go:464-512 | every append, its housekeeping done, failed or not due, keeps the table exact: the last row of each key is in it until a pruning goes past the row |
| AuditChain.HousekeepingKeeps | internal/server/storage/audit.go:502-509 | so does the housekeeping another agent's append brings, its deletion successful or only logged |
| AuditChain.HousekeepingForgets | internal/server/storage/audit.go:500-509 | with deletions working and more than an hour since the last try, exactly the keys of the last thirty days stay; within the hour, or when deletions fail, all do |
| AuditChain.SameTableKeeps | internal/server/storage/audit.go:504-505 | a restarted process that forgets when it last pruned leaves the table exact |
| ShippingTheorems.ChainInQueueOrder | internal/server/api/bundle.go:173-218 | every decision row is one the agent made, under its own revision, and each decision queued before it is in the chain before it or was discarded |
| ShippingTheorems.AheadOfTheHead | internal/agent/localpdp/localpdp.go:631-646 | everything queued before the head of the queue is recorded or discarded |
| ShippingTheorems.RestartResumes | internal/agent/localpdp/localpdp.go:112-161 | from every state a crash can leave, the spool reads back, and exactly its decisions are queued again |
| ShippingTheorems.LossReportedOnce | internal/agent/localpdp/localpdp.go:603-645 | at most one drop waits to be reported; every report under a loss id, sent or recorded, names the one dropped decision it stands for; two rows under a loss id are more than thirty days apart |
| ShippingTheorems.DropsAreReported | internal/agent/localpdp/localpdp.go:612-645 | in every run a dropped decision has a loss id whose report waits, is in the chain, or was waiting when the agent crashed |
| ShippingTheorems.UnreportedIff | internal/agent/localpdp/localpdp.go:612-645 | the exact condition: a loss that does not wait any more is missing from the chain exactly when no copy of its report was ever delivered, and then a crash forgot it |
| ShippingTheorems.LossInChainIff | internal/server/api/bundle.go:164-172 | over every run a loss is in the chain exactly when one of its reports was delivered |
| ShippingTheorems.StretchReportsItsLosses | internal/agent/localpdp/localpdp.go:612-645 | over any stretch without a crash the report of every loss made in it waits or is in the chain |
| ShippingWitnesses.LossForgottenByCrash | internal/agent/localpdp/localpdp.go:75-79 | a crash while the report waits leaves no trace of the dropped decision in chain or spool |
| ShippingLimits.ReportStep | internal/agent/localpdp/localpdp.go:612-645 | every step keeps each drop tied to a loss id that waits, is recorded or was forgotten in a crash |
| ShippingTheorems.ConflictsOnlyFromLossRevisions | internal/server/storage/audit.go:468-488 | in every run a conflict row is a loss resent with the same content under another bundle revision, never a decision |
| ShippingTheorems.ReportFollowsHead | internal/agent/localpdp/localpdp.go:536-562 | the claim that retries of a loss report carry the same content is false: a waiting report is resent unchanged exactly while the head of the queue keeps its revision, and a decision arriving behind an empty queue changes it |
| ShippingWitnesses.ConflictIsWritten | internal/server/storage/audit.go:468-493 | a run in which a report is delivered, its reply lost, a decision arrives and the report is resent under its revision: a conflict row |
| ControlPlane.LossRetry | internal/server/api/bundle.go:164-172 | a loss report resent under its loss id leaves the chain alone exactly when its content is the recorded one, and a conflict row otherwise |
| ShippingTheorems.DropsAreBounded | internal/agent/localpdp/localpdp.go:607-625 | a process drops at most three decisions between acknowledged batches and at most ten in any hour; counted across restarts, three more for each start |
| ShippingTheorems.BufferNeverOverruns | internal/agent/localpdp/localpdp.go:448-502 | in every interleaving the reserved count is the evaluations in flight, and with the queue it never passes the larger of the buffer size and the restored decisions |
| ShippingTheorems.BatchRefusedIff | internal/server/api/bundle.go:148-163 | a batch within the agent's limits is refused as sent exactly when some member would be refused alone |
| ShippingTheorems.DiscardedAlone | internal/agent/localpdp/localpdp.go:604-625 | against this control plane a decision is discarded only after it was sent alone and refused as sent |
| ShippingTheorems.AcceptableNeverDropped | internal/agent/localpdp/localpdp.go:591-628 | over whole runs every acceptable answered decision is in the chain or still on its way, and all of them ahead of the head are recorded |
| ShippingTheorems.HandlerIsDeliveries | internal/server/api/bundle.go:173-219 | the handler's loop over a batch is a run of single deliveries of the protocol, and takes every decision it is sent |
| ShippingTheorems.RecorderIsHonest | internal/server/api/bundle.go:206-219 | in every reachable state, whatever the recorder answers to a sent message the chain it leaves bears out, so the replies the runs allow include all of its own |
| ShippingTheorems.DeliveryIsHonest | internal/server/api/bundle.go:199-219 | also with other handlers appending in between: after each delivery the answer that follows it is borne out |
| ShippingTheorems.LossDeliveryIsHonest | internal/server/api/bundle.go:164-172 | and after the delivery of a loss report |
| ShippingTheorems.HonestyOutlastsRuns | internal/server/api/bundle.go:206-219 | an answer once borne out stays so over every run |
| ShippingInvariant.StepKeeps | internal/agent/localpdp/localpdp.go:448-647 | every step of agent, network and control plane keeps the queue complete and ordered, every sent message in shape, and the chain in queue order |
| ShippingInvariant.RestartKeeps | internal/agent/localpdp/localpdp.go:112-161 | restoring the spool after a crash keeps the invariant, nothing done being queued ahead of something that is not |
| ShippingInvariant.ReceiveKeeps | internal/agent/localpdp/localpdp.go:578-646 | each reply, or none, keeps the invariant: only recorded or discarded decisions leave the queue |
| ShippingLimits.LossStep | internal/agent/localpdp/localpdp.go:603-645 | every step keeps each loss id tied to one dropped decision, in memory, in flight and in the chain |
| ShippingLimits.DropStep | internal/agent/localpdp/localpdp.go:717-728 | every step keeps drops spaced and the drop streak equal to the drops since the last acknowledgement |
| ShippingLimits.CapacityStep | internal/agent/localpdp/localpdp.go:449-470 | every step keeps the slots equal to the evaluations in flight and the buffer bound |
| AuditChain.AppendRecords | internal/server/storage/audit.go:452-490 | after an append the row is in the chain unless its key already names another row, and the key table still points into the chain |
| AuditChain.AppendRemembers | internal/server/storage/audit.go:494-512 | an append keeps every key for the retention and rows of one key more than the retention apart, through hourly pruning |
| ControlPlane.Recorder.RecordDecisions | internal/server/api/bundle.go:119-220 | refuses with the exact status and changes nothing, or appends the loss, or appends decisions in order up to the failing one and says how many |
| ControlPlane.RefusalIff | internal/server/api/bundle.go:119-163 | a batch is taken exactly when the caller may record and it is one to a thousand storable decisions within a mebibyte, or a loss report of its own shape; the status tells caller, size and content apart |
| ControlPlane.WellFormedIff | internal/server/api/bundle.go:148-163 | a decision passes exactly when its id has 1 to 128 bytes, it has a time and a valid request, and its request id is plain and short or replaced by a hex digest |
| ControlPlane.RequestIDCharExact | internal/server/policy/requestid.go:20-44 | the characters of a stored request id, by what is excluded: spaces, quotes, backslash, brackets, control and non-ASCII |
| ShippingTheorems.StoredDecisionsAreClean | internal/server/api/bundle.go:148-163 | in every run every decision in the chain is storable in that sense, whatever an agent sent |
| ControlPlane.RecordsUpToFault | internal/server/api/bundle.go:173-219 | a taken batch is recorded up to where the store fails, each decision under the batch revision, and the answer gives that count |
| ControlPlane.RecordsLoss | internal/server/api/bundle.go:164-172 | a taken loss report is recorded under its loss id, or not at all when the store fails |
| ControlPlane.PrefixRecords | internal/server/api/bundle.go:173-218 | after any number of appends of a batch those decisions are all in the chain and the rest can still be appended |
| ControlPlane.PrefixAddsOwnRows | internal/server/api/bundle.go:173-218 | the loop adds no row but the batch's own decisions |
| ControlPlane.RepliesAreHonest | internal/server/api/bundle.go:206-219 | whatever the recorder answers, the chain it leaves bears it out: all recorded for 200, the stated prefix for a failure, the loss for a report |
| ControlPlane.HonestyLasts | internal/server/api/bundle.go:206-219 | a reply once borne out stays so under every later append |
| LocalPdp.BatchShape | internal/agent/localpdp/localpdp.go:532-562 | a batch to send is a non-empty prefix of one revision within the count and byte limits, the longest such, or a loss report alone |
| LocalPdp.ExtendIsBatchLength | internal/agent/localpdp/localpdp.go:546-552 | the batching loop stops at the longest prefix of one revision within the count limit and, past the first entry, the byte limit |
| LocalPdp.ShippedBatchShape | internal/agent/localpdp/localpdp.go:525-647 | so is every batch of every flush, whatever the replies before it |
| LocalPdp.TurnProgresses | internal/agent/localpdp/localpdp.go:578-646 | a turn of the loop that goes on lowers (queue length, unreported drops, batch limit) lexicographically, for every reply |
| LocalPdp.Pdp.Flush | internal/agent/localpdp/localpdp.go:506-647 | terminates for every sequence of replies; what is left is the end of the queue, and a spool that held the queue holds it again, rewritten exactly when something left |
| LocalPdp.RemovedFollowsQueue | internal/agent/localpdp/localpdp.go:572-646 | whatever the reply, what is left is the end of the queue and the count of removed decisions grew by exactly the rest |
| LocalPdp.ReplayTakesPrefix | internal/agent/localpdp/localpdp.go:506-524 | so over every flush, which is what the spool rewrite relies on |
| LocalPdp.RefusedAsSent | internal/agent/localpdp/localpdp.go:591-628 | of a batch refused as sent, what was recorded leaves; of two or more left at most half, rounded up, go out next; one alone is dropped and remembered, unless three drops or ten in the hour went before, and then kept |
| LocalPdp.RefusedOtherwise | internal/agent/localpdp/localpdp.go:572-591 | any other failure keeps the queue but for what was recorded, and ends the flush |
| LocalPdp.AcceptedLeaves | internal/agent/localpdp/localpdp.go:631-646 | an accepted batch leaves whole, its loss entries leave the report, and the limits reset |
| LocalPdp.Pdp.Ship | internal/agent/localpdp/localpdp.go:525-647 | the loop itself: each request is the next batch of the state it starts in, and it stops idle or on a reply that stops it |
| LocalPdp.Pdp.HandleOutcome | internal/agent/localpdp/localpdp.go:572-646 | what each kind of reply does to the queue, the halving limit, the drop record and the loss report |
| LocalPdp.Pdp.DropRejected | internal/agent/localpdp/localpdp.go:604-625 | discards the head unless three drops in a row or ten in the hour went before, and then keeps the queue |
| LocalPdp.Pdp.CountRecentDrops | internal/agent/localpdp/localpdp.go:718-728 | the in-place filter leaves exactly the drops of the last hour, in order |
| LocalPdp.RecentDropsExact | internal/agent/localpdp/localpdp.go:718-728 | each drop is judged on its own, by whether it is less than an hour old |
| LocalPdp.Pdp.BuildBatch | internal/agent/localpdp/localpdp.go:532-562 | the loop builds the batch the specification names |
| LocalPdp.Pdp.Acknowledge | internal/agent/localpdp/localpdp.go:631-645 | an accepted batch leaves the queue, its loss entries leave the report, and the limits reset |
| LocalPdp.Pdp.TakeSlot | internal/agent/localpdp/localpdp.go:451-462 | a slot is taken exactly when the last sync is within the maximum age and queue and slots are below the buffer size, in one step |
| ShippingTheorems.LetInIff | internal/agent/localpdp/localpdp.go:448-462 | in every run an evaluation is let in exactly while a slot is free and the last bundle refresh of this process, no crash or restart since, is no older than the maximum age |
| ShippingTheorems.SyncedIff | internal/agent/localpdp/localpdp.go:428-462 | in every run the sync time is that of the last refresh that no crash or restart came after |
| ShippingLimits.SlotHeld | internal/agent/localpdp/localpdp.go:463-470 | a running evaluation holds a slot, so giving it back never underflows |
| LocalPdp.Pdp.GiveSlotBack | internal/agent/localpdp/localpdp.go:464-470 | an evaluation that fails gives back its slot and nothing else |
| LocalPdp.Pdp.QueueDecision | internal/agent/localpdp/localpdp.go:496-499 | the decision is queued last and its slot given back |
| LocalPdp.Pdp.SpoolDecision | internal/agent/localpdp/localpdp.go:164-188 | a failed write leaves none of its bytes in the spool |
| LocalPdp.Pdp.RewriteSpool | internal/agent/localpdp/localpdp.go:209-249 | the spool becomes the queue |
| LocalPdp.Pdp.RestoreSpool | internal/agent/localpdp/localpdp.go:112-161 | a spool is refused, and nothing changed, exactly when an unreadable line has more than blank lines after it; otherwise the decisions of its readable lines, in order, go before the queue and the spool becomes the queue |
| LocalPdp.ParseExact | internal/agent/localpdp/localpdp.go:123-146 | for every file: it is read exactly when no unreadable line has anything but blank lines after it, and gives the decisions of its readable lines in order |
| LocalPdp.SpoolReadsBackWithBlanks | internal/agent/localpdp/localpdp.go:123-146 | a written spool reads back with any blank lines behind it, as its final newline makes, and with a torn line ahead of those |
| LocalPdp.SpoolRoundTrip | internal/agent/localpdp/localpdp.go:123-146 | a spool reads back as the decisions written, also with the torn last line a crash leaves |
| LocalPdp.TornInsideRefused | internal/agent/localpdp/localpdp.go:133-144 | an unreadable line that others follow is never skipped |
| BundleSync.Syncer.Sync | internal/agent/localpdp/localpdp.go:342-434 | loads exactly the bundles of its own trust domain that the engine takes and, with a key, that are signed, young, not from the future and not behind the mark; a refusal changes nothing |
| BundleSync.LoadedIsGenuine | internal/agent/localpdp/localpdp.go:387-434 | over every run, restarts included, the policy in use is of the agent's trust domain, one the engine takes and, with a key, signed by the control plane |
| BundleSync.GenuineIsLoaded | internal/agent/localpdp/localpdp.go:387-434 | conversely such a bundle, within the maximum age, at most a minute ahead and at most a minute behind the mark, is loaded and stamped, and the mark moves to its issue time or the clock, never back |
| BundleSync.RunInv | internal/agent/localpdp/localpdp.go:387-433 | over every run the mark never falls in a process, the saved mark never falls, and neither passes the clock |
| BundleSync.MarkIsAHighWaterMark | internal/agent/localpdp/localpdp.go:394-427 | no bundle is accepted that was issued more than the skew before the mark, and no sync lowers the mark |
| BundleSync.DecisionAge | internal/agent/localpdp/localpdp.go:451-456 | a decision uses a bundle issued at most twice the maximum age earlier, plus the time from the age check to the sync stamp |
| BundleSync.TwiceMaxAgeIff | internal/agent/localpdp/localpdp.go:405-428 | twice the maximum age bounds every later decision exactly when the bundle was within it at the sync stamp |
| BundleSync.SlowLoadExceeds | internal/agent/localpdp/localpdp.go:405-428 | a bundle that loads slowly lets a decision pass on an older one |
| CaOverlapRuns.ReachableInv | internal/server/identity/ca_overlap.go:260-463 | in every reachable state kept CAs are apart from published and distrusted ones, each ends by its keep time plus the grace and by its expiry, and the served bundle is the current one |
| CaOverlapRuns.UpdateServes | internal/server/identity/ca_overlap.go:356-386 | an update at t serves the issuer's certificates in order, then the kept ones live at t in fingerprint order, the sequence moving by one exactly when that changes |
| CaOverlapRuns.ServeServes | internal/server/identity/ca_overlap.go:402-409 | so does a serve, which drops exactly the kept CAs whose time is up |
| CaOverlapRuns.DistrustServes | internal/server/identity/ca_overlap.go:415-432 | distrusting keeps the invariant and leaves no listed CA in the served bundle unless the issuer publishes it |
| CaOverlapRuns.DistrustKeepsExactly | internal/server/identity/ca_overlap.go:415-432 | a distrust list takes out exactly what it names: any other keep goes only when its time is up, in the serving a drop brings, and is otherwise as it was |
| CaOverlapRuns.AttachServes | internal/server/identity/ca_overlap.go:214-233 | taking up the stored rows keeps the invariant and serves the merged set |
| CaOverlapRuns.ServedOmitsDistrusted | internal/server/identity/ca_overlap.go:296-298 | no distrusted CA is in a served bundle unless the last fetched one has it |
| CaOverlapRuns.UpdateKeepsExactly | internal/server/identity/ca_overlap.go:324-351 | without stored rows, exactly these are kept: live earlier keeps, as they were, and CAs that just left with a grace, an expiry and a cap ahead, until the earliest of those; none that is republished or distrusted |
| CaOverlap.OrderedUnique | internal/server/identity/ca_overlap.go:450-457 | there is one fingerprint order of a set, so an unchanged set serves the same bytes |
| CaOverlap.OrderedSpec | internal/server/identity/ca_overlap.go:450-457 | the order lists every member once, ascending |
| CaRestart.WithdrawnTrustEnds | internal/server/identity/ca_overlap.go:214-351 | through any restarts, saves, merges and crashes, once a fetch lacks a CA the overlap serves no bundle with it at or after that fetch plus the longest grace or its expiry, until a fetch has it again |
| CaRestart.RestartsNeverExtendTrust | internal/server/identity/ca_overlap.go:260-351 | while the issuer does not publish a CA, any bound on its keeps and rows stays a bound over the whole run |
| CaRestart.StepNeverExtends | internal/server/identity/ca_overlap.go:135-233 | no single step moves a withdrawn CA's end later: not a boot, attach, refresh, crash or the save of the snapshot an operation collected |
| CaRestart.WithdrawalBoundsTrust | internal/server/identity/ca_overlap.go:337-343 | a fetch that lacks a CA bounds every keep and row of it by that moment plus the longest grace and by its expiry |
| CaRestart.ServedOnlyBeforeEnd | internal/server/identity/ca_overlap.go:434-440 | a bundle with an unpublished CA in it is served before its end |
| CaRestore.MergeExact | internal/server/identity/ca_overlap.go:260-320 | the merge does for each certificate exactly what its one stored row says, and nothing to a certificate without a row |
| CaRestore.AttachExact | internal/server/identity/ca_overlap.go:214-233 | a certificate is kept after an attach exactly when its standing after the merge says so and its end is still ahead |
| CaRestore.UpdateExact | internal/server/identity/ca_overlap.go:356-386 | the same for a refresh that reads the shared rows: what it fetched is not kept, and every other certificate as its row or its departure says |
| CaRestore.AttachKeepsExactly | internal/server/identity/ca_overlap.go:214-320 | exactly what an attach keeps, from the rows alone: what a row keeps within this grace, what the process keeps, and what was published to it or at the save and has left, with the end of each |
| CaRestore.SharedUpdateKeepsExactly | internal/server/identity/ca_overlap.go:260-386 | the same for a refresh that reads shared rows, and nothing the issuer publishes |
| CaRestore.AttachCaps | internal/server/identity/ca_overlap.go:278-288 | the first merge caps each CA the save says was published: when it leaves it is not kept past a grace after the save |
| CaRestore.RestartResumesKeeps | internal/server/identity/ca_overlap.go:210-233 | the round trip: after a snapshot, a restart, a fetch, the distrust list and an attach exactly the certificates the issuer lacks and the list does not name are kept, each until the end its stored state gives |
| CaRestore.SameGraceSameKeep | internal/server/identity/ca_overlap.go:210-213 | with the grace unchanged a keep comes through a restart as it was, until its own end |
| KeptEvents.MergeAccountsIff | internal/server/identity/ca_overlap.go:260-320 | the events of a merge account for the change of the kept set exactly when it is not the first or no CA kept here has an ended row |
| CaOverlap.AccountsIff | internal/server/identity/ca_overlap.go:203-208 | the events of a whole operation account for the kept set exactly when no CA its merge reported as dropped is still kept |
| KeptEvents.LateAttachMisreports | internal/server/identity/ca_overlap.go:299-305 | a process that saw a CA rotated out and attaches the store late reports that CA dropped while it keeps it, after the attach too |
| KeptDelivery.DeliveredInOrder | internal/server/identity/ca_overlap.go:135-158 | with the store attached after the boot fetch, in every interleaving events are delivered in the order of the changes, none lost; delivered events fold to the kept set at each unlock |
| KeptDelivery.StoredNeverGoesBack | internal/server/identity/ca_overlap.go:165-188 | under concurrent savers each successful save stores a strictly later state the process went through |
| KeptDelivery.ChangesReachTheStore | internal/server/identity/ca_overlap.go:135-188 | a caller that leaves an unsaved state behind carries exactly that state out, and with no other save at work it is what gets stored |
| KeptDelivery.ApplyCounts | internal/server/identity/ca_overlap.go:203-208 | the version never falls, two states of one version store the same rows, and attaching a store moves it, so the state is saved |
| CaKeeper.Keeper.MergeStored | internal/server/identity/ca_overlap.go:260-320 | the in-place merge gives the specified state, former publications and events |
| CaKeeper.Keeper.RetireGone | internal/server/identity/ca_overlap.go:324-351 | each CA that left is kept until the earliest of grace, stored cap and expiry, whatever the map order, its events accounting for it |
| CaKeeper.Keeper.ServeLocked | internal/server/identity/ca_overlap.go:434-463 | drops what has ended, renders the rest in order and counts a change |
| CaKeeper.Keeper.SortKept | internal/server/identity/ca_overlap.go:450-457 | the kept CAs sorted are the set in its one order |
| CaKeeper.Keeper.Update | internal/server/identity/ca_overlap.go:356-386 | a bundle without a certificate changes nothing; any other gives the specified state, with events that account for it but for the CAs its merge misreports and that give true reasons |
| CaKeeper.Keeper.Serve | internal/server/identity/ca_overlap.go:402-409 | nothing before the first load, then the specified state and bundle |
| CaKeeper.Keeper.Distrust | internal/server/identity/ca_overlap.go:415-432 | replaces the list, drops and counts each kept CA on it, with events that account for the change and give true reasons |
| CaKeeper.Keeper.AttachStore | internal/server/identity/ca_overlap.go:214-233 | an unreadable store changes nothing; a readable one gives the specified state, with events that account for it but for the CAs its merge misreports |
| CaKeeper.Keeper.Drop | internal/server/identity/ca_overlap.go:203-208 | removes one keep, counts it and queues the event with its reason and its own end |
| CaKeeper.Keeper.Snapshot | internal/server/identity/ca_overlap.go:192-201 | the rows stand for exactly the published and kept CAs |
| CaKeeper.Keeper.ParseBundle | internal/server/identity/ca_overlap.go:470-499 | keeps the certificates that parse, in order |
| CaOverlap.ParsedExact | internal/server/identity/ca_overlap.go:470-499 | each block that parses gives its certificate in place, the others nothing |
| CaOverlap.KeepEnd | internal/server/identity/ca_overlap.go:289-295 | a stored keep ends at the earliest of its own end, the grace from its start, and the expiry |
| CaOverlap.KeepFor | internal/server/identity/ca_overlap.go:337-343 | a CA that left is kept until the earliest of the grace, the cap and the expiry |
| VaultBundle.Backend.BundlePEM | internal/server/identity/vault_pki.go:118-168 | before the expiry at either reading, the cached bundle untouched; after it, the fetched bundle installed and served, or on a failed fetch what the last one still supports, for half a minute at most; always the overlap's served bundle, no distrusted CA the last fetch lacks, and no CA past its end by the cache TTL and the time from serving to stamping |
| VaultBundle.Backend.RefreshBundle | internal/server/identity/vault_pki.go:277-314 | a fetched bundle is installed and cached for the TTL; a failed fetch changes nothing |
| VaultBundle.Backend.UseCAStore | internal/server/identity/vault_pki.go:330-342 | the stored rows are taken up and served at once, distrusted ones still omitted; a store that cannot be read changes nothing |
| VaultBundle.Backend.DistrustCAs | internal/server/identity/vault_pki.go:348-360 | when it returns the cached bundle has no listed CA the last fetch lacks, and every unlisted keep live at both readings; the count is of the keeps dropped |
| VaultBundle.Backend.constructor | internal/server/identity/vault_pki.go:66-111 | a backend exists only with a first fetched bundle, which it serves as is |
| RotationRuns.StepTrust | internal/server/identity/rotation.go:213-332 | in every run, at every single file operation: the directory reads back, what signs afterwards was trusted before, a replaced CA becomes the previous one, and only a retire ends trust |
| RotationRuns.RunKeeps | internal/server/identity/rotation.go:73-103 | every disk state of every run, crashes included, reads back with a key that matches its active certificate |
| RotationRuns.TrustLasts | internal/server/identity/rotation.go:257-307 | over any stretch without a retire everything trusted stays trusted |
| RotationRuns.ServersAgree | internal/server/identity/jwt.go:153-170 | between a completed prepare and the retire of the CA it replaces, servers that loaded any two disk states accept each other's signing key |
| RotationRuns.WindowLasts | internal/server/identity/rotation.go:257-307 | that window survives every command and crash: the old CA signs with the new prepared, or the new signs with the old still trusted |
| RotationRuns.PrepareOpens | internal/server/identity/rotation.go:237-252 | a prepare that runs to its end opens the window |
| RotationRuns.NamedKeyFound | internal/server/identity/jwt.go:159-169 | a key a token names is found exactly when it is trusted, and it is that key |
| RotationRuns.UnnamedKeyIsActive | internal/server/identity/jwt.go:153-170 | a token that names no key is checked against the active one |
| RotationRuns.LifetimeExact | internal/server/identity/jwt.go:51-56 | a token lives for what was asked, five minutes if nothing was, a day at most, less the part of a second its expiry is cut by |
| RotationRuns.RetireWaitsForTokens | internal/server/identity/rotation.go:312-326 | an unforced retire goes ahead only when every token signed up to the recorded replacement has expired, whatever its lifetime |
| RotationRuns.WaitCoversIff | internal/server/identity/rotation.go:279-299 | the wait covers every token the old CA signed before it stopped exactly when it stopped in the recorded second |
| RotationRuns.ResumedActivationIsEarly | internal/server/identity/rotation.go:282-286 | an activation resumed a day after a crash lets the old CA be retired at once, with tokens it signed still alive |
| RotationRuns.RunDated | internal/server/identity/rotation.go:293-298 | a previous CA always comes with a recorded replacement time |
| DiskRotation.OpKeeps | internal/server/identity/rotation.go:290-305 | one file operation in its place keeps the directory sound, what signs trusted, and trust except of a removed previous CA |
| DiskRotation.CommandFits | internal/server/identity/rotation.go:213-332 | every file operation of every command, repairs included, comes in such a place |
| DiskRotation.CrashReadsBack | internal/server/identity/rotation.go:211-233 | a command stopped after any number of file operations leaves a directory that reads back |
| DiskRotation.SoundReads | internal/server/identity/rotation.go:73-103 | a sound directory reads as its active certificate first and at most three trusted ones |
| DiskRotation.PrepareIff | internal/server/identity/rotation.go:237-252 | a prepare goes ahead exactly when nothing is prepared, and adds the next CA to the repaired directory |
| DiskRotation.ActivateIff | internal/server/identity/rotation.go:257-307 | an activation goes ahead exactly when a CA is prepared and a previous one, if any, is the one in use; the prepared CA takes over, the one in use becomes the previous, the time of the first attempt is kept |
| DiskRotation.RetireIff | internal/server/identity/rotation.go:312-356 | a retire goes ahead exactly when there is a previous CA with a readable replacement time and a day has passed or it is forced; it removes that CA and its time and nothing else |
| DiskRotation.UnusableIff | internal/server/identity/rotation.go:73-103 | a directory is usable exactly when its key has its own or the prepared certificate, and every command leaves any other alone |
| CaDirectory.Directory.PrepareCA | internal/server/identity/rotation.go:237-252 | stopped anywhere, leaves exactly the state after that many operations of its plan |
| CaDirectory.Directory.ActivateCA | internal/server/identity/rotation.go:257-307 | the same, with the resumption of an interrupted activation |
| CaDirectory.Directory.RetireCA | internal/server/identity/rotation.go:312-332 | the same, refusing without a previous CA, without a readable time, or too early unless forced |
| CaDirectory.Directory.RepairActivation | internal/server/identity/rotation.go:213-233 | finishes the second rename exactly when the key matches only the next certificate |
| CaDirectory.Authority.ReloadCA | internal/server/identity/rotation.go:152-167 | an unreadable directory changes nothing; the sequence moves by one exactly when the trust material changes |
| ReplayCache.ProofAcceptedOnce | internal/server/api/dpop.go:162-180 | with a clock that does not go back a DPoP proof is accepted a second time only by a request held up between its reading and the lock by more than the first one's distance from the start of the window; never when the readings reach the cache in order |
| ReplayCache.AssertionAcceptedOnce | internal/server/api/idjag.go:388-428 | a client assertion, for every configured maximum, is accepted a second time only by a request held up between the check of its window and the lock by more than that distance; between its two readings when readings reach the cache in order |
| ReplayCache.SecondUseIsLate | internal/server/api/dpop.go:86-114 | in whatever order the readings arrive, through every lazy rotation, a second acceptance of a key comes after some request read the clock more than the retention past the first; in order, more than the retention apart |
| ReplayCache.AcceptedOnce | internal/server/api/dpop.go:69-74 | a window no longer than the retention admits a second acceptance only after a delay longer than the first use's distance from its start |
| ReplayCache.ShorterRetentionFails | internal/server/api/dpop.go:69-74 | no shorter retention will do: for each there is a run that accepts a credential twice in its window |
| ReplayCache.DelayedRequestAcceptedTwice | internal/server/api/idjag.go:388-417 | that delay is enough: one nanosecond more and a run accepts the credential twice, whatever the quota from four up |
| ReplayCache.HeldUpRequestAcceptedTwice | internal/server/api/dpop.go:86-93 | and so is a request with one reading, held up before the lock by one nanosecond more than that distance |
| ReplayCache.UseKeepsValid | internal/server/api/dpop.go:100-112 | the owner counters are the entries held, within the quota and the cap, after every use |
| ReplayCache.UseRemembers | internal/server/api/dpop.go:90-99 | an entry leaves the cache only once the reading of the last rotation is more than the retention after its own |
| ReplayCache.Store.FirstUseBy | internal/server/api/dpop.go:86-114 | first use exactly when the entry is not held, its owner holds less than the quota and the cache less than its limit; it is then held and nothing else changes |
| ReplayCache.TakenIff | internal/server/api/dpop.go:86-114 | the same as a law of the cache, through the rotation: what is held is two generations, or one once the older is due |
| ReplayCache.NewCredentialAccepted | internal/server/api/dpop.go:86-114 | in every run a credential in order and in time that nobody showed before is let in while fewer than the limit were shown, and fewer than the quota by its owner |
| ReplayCache.NewProofAccepted | internal/server/api/dpop.go:162-180 | so for a DPoP proof within a minute of the clock whose id is new under its key; and none outside those bounds ever is |
| ReplayCache.SameEntryIff | internal/server/api/dpop.go:174-175 | two proofs are one entry exactly when key and id are both the same |
| ReplayCache.NewAssertionAccepted | internal/server/api/idjag.go:388-428 | so for a client assertion within its life, its configured maximum and its client's quota |
| BundleSequence.NumbersNeverGoBack | internal/server/identity/bundle_sequence.go:93-180 | with one writer whose saves succeed, over any restarts the numbers never go back, equal numbers mean equal material and a change has a higher number |
| BundleSequence.UnchangedKeepsNumber | internal/server/identity/bundle_sequence.go:149-167 | unchanged material keeps its number, a restart included |
| BundleSequence.ChangeAddsSourceCount | internal/server/identity/bundle_sequence.go:154-162 | a change a running writer sees moves the number by as many changes as the source counted, at least one |
| BundleSequence.HigherAfterRestartIff | internal/server/identity/bundle_sequence.go:168-179 | after a restart changed material has a higher number than was served exactly when that number had been saved |
| BundleSequence.ReplicaNeverFalls | internal/server/identity/bundle_sequence.go:138-148 | whatever the store holds at each call, a replica's number never falls |
| BundleSequence.ReplicaStep | internal/server/identity/bundle_sequence.go:138-163 | a call that finds its material in the store serves at least the stored number, and a change always has a higher one |
| BundleSequence.DurableSequence.NextNumber | internal/server/identity/bundle_sequence.go:93-117 | serves the last number unless material changed or a re-read is due, no hold-off applies and no other caller is at the store |
| BundleSequence.DurableSequence.Number | internal/server/identity/bundle_sequence.go:121-180 | an unreadable or out-of-range stored number changes only the retry time; otherwise the specified number and save |
| BundleSequence.NewMaterialNumbered | internal/server/identity/bundle_sequence.go:93-180 | new material is numbered at once, above every number served and any stored for other material, and the number is stored |
| BundleSequence.HoldsOff | internal/server/identity/bundle_sequence.go:93-137 | an unreadable or out-of-range stored number changes no number and keeps calls off the store for half a minute |
| BundleSequence.ReplicaRechecks | internal/server/identity/bundle_sequence.go:138-180 | a replica that may not write reads again after half a minute, not before, and takes up a higher number stored for its material |
| BundleSequence.Ledger.Save | internal/server/storage/upstream_ca.go:161-174 | a save never moves the stored number back |
| DirectoryFreshness.AdmittedSeesWrites | internal/server/api/domains.go:45-163 | in every interleaving an admitted evaluation reads domains, groups and policies read after every write whose handler had returned when it was admitted |
| DirectoryFreshness.FailedReloadCloses | internal/server/api/domains.go:156-163 | a write whose reload failed leaves evaluation closed when its handler returns, and at every later moment closed or with the write loaded |
| DirectoryFreshness.FreshStep | internal/server/api/domains.go:64-131 | every step keeps each returned write loaded or evaluation closed, whoever reloads meanwhile |
| DirectoryFreshness.LoadedForward | internal/server/api/domains.go:25-27 | no reload takes the engine back to an older version |
| PolicyDirectory.DomainState.RefreshDirectory | internal/server/api/domains.go:64-131 | succeeds exactly when domains, groups and an enforceable policy set are read and there is a trust domain or nothing to match; the directory is installed before the policies; a bad set closes evaluation, any other failure leaves it |
| PolicyDirectory.DomainState.RefreshAfterWrite | internal/server/api/domains.go:156-163 | when it returns, evaluation is closed or the engine has what was read |
| PolicyDirectory.DomainState.DirectoryStale | internal/server/api/domains.go:45-52 | an evaluation is admitted exactly when no failed reload of a write and no bad set is outstanding and, once the sync runs, the last whole reload is recent; then every write of the past is followed by a whole reload |
| PolicyDirectory.GateTells | internal/server/api/domains.go:118-129 | the flag and the time of the object say exactly that about all its past reloads |
| PolicyDirectory.WritesAreLoaded | internal/server/api/domains.go:153-163 | with nothing outstanding every write is followed by a whole reload, its own or a later one |
| PolicyDirectory.DomainState.Sync | internal/server/api/domains.go:142-144 | a turn of the background sync adds one reload to the past that gate, directory and policies follow |
| PolicyDirectory.EnforcesGrows | internal/server/api/domains.go:64-131 | the engine always has the policies of the last whole reload and the directory of the last that could project one |
| PolicyDirectory.WholeIff | internal/server/api/domains.go:64-131 | what a reload must meet to succeed, without reference to the tree it builds |
| PolicyDirectory.ReloadIsARun | internal/server/api/domains.go:64-163 | each reload of the object, taken without interruption, is a run of the interleaving model that leaves the same gate |
| PolicyDirectory.MembershipsExact | internal/server/api/domains.go:104-112 | a principal has exactly the memberships of all groups, none dropped |
| PolicyDirectory.TreeExact | internal/server/api/domains.go:76-89 | the tree has exactly the well-named domains, each under the parent its name gives |
| PolicyDirectory.ParentOfChild | internal/server/storage/domains.go:42-49 | the parent of a domain named under another is that other, and a name without a dot has none |
| PolicyDirectory.GroupIDs | internal/server/api/domains.go:104-112 | the group ids are the groups' own, one each, in order |
| ActChain.DelegationIsBounded | internal/server/api/token_exchange.go:144-150 | over any number of exchanges the chain is the first token's followed by the actors in order, the root first, and no earlier token with an expiry is outlived |
| ActChain.ExchangeExtends | internal/server/api/token_exchange.go:211-225 | one exchange appends the actor to the chain and, signed in time, never extends the expiry |
| ActChain.OutlivesIff | internal/server/api/token_exchange.go:211-223 | for every request, the token issued ends no later than its subject token exactly when the delay between the two clock readings is less than a second more than what the request leaves of the remaining life |
| ActChain.FlattenActChain | internal/server/api/token_exchange.go:290-305 | the walk and the in-place reversal give the recursive chain, root first, claims without a subject left out |
| ActChain.FlattenExact | internal/server/api/token_exchange.go:286-305 | a claim adds its subject, if it has one, behind those it nests; no empty subject is in the chain |
| ActChain.TurnRound | internal/server/api/token_exchange.go:301-303 | the swaps reverse the list |
| ActChain.FlattenIsReversedWalk | internal/server/api/token_exchange.go:286-305 | the nested claim read inwards is the chain backwards |
| ActChain.ExchangeToken | internal/server/api/token_exchange.go:138-245 | the chain it reports is the one the issued token carries, and the token is the specified one |
| ActChain.ExchangeGives | internal/server/api/token_exchange.go:138-245 | refused exactly when the subject token has expired; otherwise the lifetime is what was asked, or the default, cut to the subject token's remaining life and a day, and to nothing less but the part of a second |

## Left out

- Cryptography, PEM, X.509, JWS and JSON: certificates, digests, key ids and spool lines are abstract values, and distinct values have distinct hashes.
- Random ids: a decision id, a loss id and a CA key never repeat.
- An agent without a spool path: its answered decisions live in memory only, so the crash claims are not about it.
- Spool repair that fails after a failed write, and a spool rewrite that fails: the runs have neither.
- The rows of other agents: keys carry the agent's name, so of another agent's append only the pruning it brings is in the runs.
- Audit rows of other kinds, the row written for a caller who may not record decisions, and the hash links of the chain.
- The size limit on the body of a loss report: only batches of decisions are measured.
- Several writing replicas of the kept-CA store: the restart results have one writer; a follower reads what the leader stored and is covered only by the per-operation results.
- CaRestart.StepNeverExtends: a collected snapshot is saved before the next operation, which holds because the backends call the overlap under their refresh lock; a caller without that lock could save an older snapshot under a later time.
- Store writes that time out after taking effect: a failed save is one that was not written.
- KeptEvents.MergeAccountsIff: a merge's events are tied to the kept set only for stores that hold one row per certificate, which is how the store is keyed.
- KeptDelivery.DeliveredInOrder: an operation's events enter as the methods of `CaKeeper.Keeper` promise them, and the hook is installed before the first of them.
- VaultBundle.Backend.BundlePEM: calls are one at a time, as the refresh lock makes those that change the cache; a caller that reads the cache without the lock sees one of the states between them.
- The other issuer backends (step-ca, AWS, GCP, Azure), whose bundle caches follow the same pattern, and every issuing call.
- A server reading the CA directory while a command is between two of its reads: a reload sees one disk state.
- Directory fsync and torn files: a synced write and a rename are atomic.
- Completing an interrupted prepare: the directory stays safe to read, but the next key without a certificate has to be removed by hand.
- BundleSequence.NumbersNeverGoBack: does not cover a crash between numbering the material and saving the number, because the save is part of the step.
- 64-bit overflow of sequences and versions: integers are unbounded; a stored sequence beyond 2^48 is refused as in the code.
- The scan of proof and assertion contents before the replay cache: signature, method, target, audience and forbidden claims are one flag.
- Scope, audience and confirmation claims of an exchanged token, and the policy check on an exchange.
- PolicyDirectory.TreeExact: the rule for a well-formed domain name is a flag on the domain.
- HTTP, TLS, SQL, Cedar evaluation, metrics, logging, the operator, the web interface and the attestors.
