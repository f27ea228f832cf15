# fips-exit-gate: a verified model

fips-exit-gate sells metered internet egress. A backend on Postgres decides which
addresses are authorized and bills their bytes; an agent on every exit node mirrors
the authorized set into the kernel and reports usage. This project models the parts
of both whose correctness spans many steps, and proves what they promise.

`dafny verify dfyconfig.toml` checks everything.

## Layout

- `AuthzLog` the revision log: replay, deltas, compaction, late attribution
- `AuthzTx` every interleaving of recompute transactions, readers and compaction
- `AuthzStore` the store's table and log as an object, and the authz endpoint's answers
- `AuthzHash` the set fingerprint and the heartbeat's drift verdict
- `AgentSync` every interleaving on the node: pulls, kernel batches, cursor writes, revokes, flushes, crashes
- `Agent` the agent as an object: applying responses, the sync loop's turn, the fail-closed check
- `GraceClock` the fail-closed clock across restarts
- `Metering` absolute counters to usage samples, over every run
- `Delivery` the usage pipeline: buffer, runtime file, resend, ledger, retention
- `Billing` weighting, the draw on entitlements, ingesting a report
- `Ingest` the backend's whole answer to a report: the ledger, the recompute, what to revoke
- `Pipeline` from the kernel's counters to an account's entitlements
- `Whitelist` the statements on whitelist rows and what each keeps
- `Accounts` the database of accounts, whitelist, entitlements and purchases over every run
- `AccountStore` the same operations statement by statement, with the unique index checked after each
- `Bits`, `Bech32`, `Checksum`, `Npub` the npub codec
- `Gf32` the checksum as long division over GF(32), and `PublishedNpub` a published npub decoded to its published key
- `RateLimiter`, `Challenges` two pruned caches against unpruned specifications

## What is taken as given

Each of these is a hypothesis of a lemma or a parameter, not something the code
establishes.

- There is one backend timeline and clocks do not go backwards.
- A kernel batch is applied whole or not at all, and fails when it deletes a member that is not there.
- Report ids are unique. SHA-256, the HMAC check and the curve check are parameters; `DriftExact` assumes the two streams compared do not collide.
- A runtime write happens as a whole or not at all, and may fail after memory was changed. `NeverOverbilled`, `SharesOfCounted` and `PaysAtMostCounted` need that no crash repeats bytes (`NoneRepeats`), which holds when memory was on disk (`DurableRepeatsNone`) and whenever only the buffer was not (`SameBaselines`); `RepeatsIff` and `CrashCoveredIff` are the exact conditions and `DurabilityNeeded` a run that fails them. `FlushMeansSilence` needs each restart to find the file as new as memory; `RestartSafeIff` is the exact condition and `FileBehindFlushesEarly` a run that fails it. `SilenceMeansFlush` needs the file to hold some time.
- `CompactionInvisible` needs row stamps that follow the revisions. The code stamps rows with the transaction's start, so it does not ensure this: `StampsNeeded` is a run where compaction punches a hole, and `InvisibleIff` is the exact condition, `NothingLost`. Every run result of `AgentSync` (`KernelTracksLog`, `ExactWithoutRemovals`, `FullReconcileRestores`, `NeverRegresses`) takes it of the log a delta is served from; a full pull does not need it. So do `ServeCatchesUp` and `AcrossCatchesUp`.
- `LateUsageBilled` needs compaction cutoffs no later than the look-back.
- They also need that no charged report is delivered after its row is gone (`Timely`), which `ChargedOnceIff` shows is exactly when no report is charged twice. Retention that outlives every post ensures it (`OutlivedIsTimely`) and does delete rows (`RetentionHappens`); `RetentionNeeded` is the run where it is too short.
- The backend revokes only addresses that some recompute removed.

## Model

| member | source | states |
|---|---|---|
| AuthzLog.ReplayIsLast | backend/store/authz.go:55-103 | replaying the whole log gives exactly the addresses whose last row is an add, each with that row's account |
| AuthzLog.DeltaCatchesUp | backend/store/authz.go:259-303 | the last-op-per-address delta since c brings the table of any revision from c on exactly to the head, so repeated and overlapping deltas are harmless |
| AuthzLog.InvisibleIff | backend/store/authz.go:261-269 | for any sub-log, every delta is unchanged or answered as compacted if and only if no address's last word was dropped above the oldest kept row |
| AuthzLog.CompactNoHoles | backend/store/retention.go:54-62 | with stamps nondecreasing in revision, compaction by time removes only a prefix of the history |
| AuthzLog.CompactIsSubLog | backend/store/retention.go:54-62 | compaction keeps the head row and only rows that were there |
| AuthzLog.AttributesLastHolder | backend/store/usage.go:56-76 | current holder, else newest row inside seven days, is the last holder ever logged whenever that row is an add or inside the look-back, whatever the stamps' order |
| AuthzLog.AttributesNobodyIff | backend/store/usage.go:56-76 | otherwise nobody is billed if and only if no row of the address is inside the look-back, which stamps in revision order ensure |
| AuthzTx.StepInv | backend/store/authz.go:50-103 | begin, lock, insert, commit, abort and compaction keep log order, table/log coupling and every open transaction's rows above all visible ones |
| AuthzTx.CursorNeverSkips | backend/store/authz.go:15-21 | over every interleaving, a row of a later history was visible to an earlier snapshot exactly when its revision is at most that snapshot's head |
| AuthzTx.SnapshotIsReplay | backend/store/store.go:151-168 | the table a single-snapshot reader sees is the replay at its head revision of any later history |
| AuthzTx.CompactionInvisible | backend/store/retention.go:54-62 | under ordered stamps any interleaving of recomputes and compactions keeps the head revision and answers every delta as uncompacted or with compacted |
| AuthzTx.LateUsageBilled | backend/store/usage.go:56-76 | over every run of transactions and compactions that spare the seven-day look-back, usage goes to the last holder ever logged when that row is an add or inside it |
| AuthzTx.LockNeeded | backend/store/authz.go:15-21 | without the advisory lock there is a run where a smaller revision surfaces after a larger one was handed out |
| AuthzTx.StampsNeeded | backend/store/retention.go:55-57 | there is a run of locked transactions where compaction changes a delta unannounced, because stamps are transaction start times |
| AuthzStore.ServeCatchesUp | backend/api.go:92-165 | whatever the endpoint answers (unchanged, delta, full, full after compaction), a node holding the table of any revision from its cursor on ends at the current table |
| AuthzStore.Store.constructor | backend/store/authz.go:28-31 | an empty store satisfies the coupling of table, log and history |
| AuthzStore.Store.RecomputeAuthz | backend/store/authz.go:50-114 | the table becomes the desired map, the logged rows are exactly the difference and carry the time of the call, removed is exactly what left, and replaying all rows ever logged still gives the table |
| AuthzStore.Store.FullSet | backend/store/authz.go:171-194 | the members returned are the replay of the whole history at the returned revision |
| AuthzStore.Store.DeltaSince | backend/store/authz.go:259-309 | the two loops compute the last-op-per-address delta, or compacted when the cursor predates the oldest row |
| AuthzStore.Store.CompactAuthzRevisions | backend/store/retention.go:54-62 | the head revision, the table and the coupling survive; under ordered stamps no hole appears |
| AuthzStore.Store.AuthzStatus | backend/store/authz.go:206-240 | the status, memoized per revision, always equals a fresh scan of the current table |
| AuthzStore.Store.WriteAuthz | backend/api.go:139-165 | one read of the endpoint: full set, delta, or nothing exactly when the cursor predates the oldest row |
| AuthzStore.OneReadEnough | backend/api.go:105-165 | the endpoint's up to three reads, with commits in between, answer as a single read at the answering moment would |
| AuthzStore.AcrossCatchesUp | backend/api.go:105-165 | whatever commits between the reads, a node holding any revision from its cursor up to the first read ends at the table of the read that answered |
| AuthzHash.Of | pkg/authzhash/authzhash.go:18-34 | the sort-and-skip loop hashes the canonical stream of the set |
| AuthzHash.FingerprintOfSet | pkg/authzhash/authzhash.go:37-43 | the fingerprint depends only on the set of addresses, not on order or duplicates |
| AuthzHash.LexIsNumeric | pkg/authzhash/authzhash.go:23-23 | byte-wise order of the 16-byte forms is the order of the addresses |
| AuthzHash.StreamsEqualIff | pkg/authzhash/authzhash.go:18-34 | two byte streams are equal if and only if the sets are |
| AuthzHash.DriftExact | backend/api.go:236-244 | at an equal revision the heartbeat asks for a resync if and only if the listed set differs from the table |
| AuthzHash.DriftBySize | backend/api.go:236-244 | a node that sends no hash is asked if and only if the sizes differ |
| AuthzHash.NoDriftVerdict | backend/api.go:236-244 | a node at another revision, or that could not read its set, is asked for nothing |
| AgentSync.StepInv | agent/agent.go:199-296 | every step of every loop keeps the kernel set tied to one logged revision, responses in hand honest and cursors ordered |
| AgentSync.KernelTracksLog | agent/agent.go:363-394 | on every run after an accepted full set, the kernel set is the replay at one revision between cursor and head less exactly the addresses a revoke or flush removed and nothing added since; it equals that replay if and only if none of those is in it |
| AgentSync.ExactWithoutRemovals | agent/agent.go:363-394 | on runs without revokes and flushes, crashes included, the kernel set equals that replay |
| AgentSync.FullReconcileRestores | agent/agent.go:363-394 | whatever commits and revokes surround it, an accepted full reconcile with no revoke between listing and batch sets the kernel set to that of the pulled revision and the cursor to that revision |
| AgentSync.BatchRestores | agent/agent.go:378-393 | the same at the moment of the batch, before later revokes |
| AgentSync.NeverRegresses | agent/agent.go:378-381 | on one timeline the regression check never fires |
| AgentSync.AheadIsNoticed | agent/agent.go:378-381 | a node whose cursor is beyond the backend's head is answered, not left waiting, and takes the answer for a regression |
| AgentSync.CrashResumes | agent/state.go:145-150 | after a crash the cursor is the one last written, and after a lost state file the next pull brings the whole set |
| AgentSync.FullRemovesAtMost | agent/agent.go:371-377 | an unforced full set without the operator's override takes out of the kernel set at most the larger of the threshold and half of the addresses listed |
| AgentSync.FullHeldIff | agent/agent.go:396-401 | a full set is held back if and only if it is neither forced nor allowed and would take out more than the threshold and more than half; otherwise it becomes the kernel set |
| AgentSync.LateRevokeLeavesGap | agent/agent.go:561-576 | equality is not an invariant: from an empty node, add, full sync, removal, re-add pulled as a delta, then the removal's revoke leaves an authorized address out with the backend reporting nothing new |
| AgentSync.RemovalKeepsIff | agent/agent.go:426-454 | from equality a revoke or flush keeps it if and only if its batch fails or names nothing the tracked revision authorizes |
| AgentSync.RevokeKeepsIff | agent/agent.go:561-576 | from equality a revoke keeps it if and only if none of its addresses is authorized at the tracked revision |
| Agent.DiffAuthorized | agent/usage.go:48-60 | the loops return the two differences, and applying them turns the current set into the desired one |
| Agent.Agent.PresentOnly | agent/agent.go:326-341 | exactly the members to delete that are live |
| Agent.Agent.ApplyAuthorized | agent/firewall.go:21-33 | a batch is applied whole or changes nothing |
| Agent.Agent.ApplyAuthz | agent/agent.go:363-394 | an accepted full set becomes the kernel set, a delta adds and removes exactly its members; a full set, unless forced or allowed, removes at most the larger of the threshold and half of the listed set, is held back if it would remove more, and only then; a delta is refused if and only if its revision is below the cursor; held back, failed listing and failed batch change nothing; a failed cursor write leaves batch and memory cursor applied and the file behind |
| Agent.Agent.ApplyRevocations | agent/agent.go:561-576 | exactly the revoked addresses leave the kernel set, and then exactly their accounting elements go |
| Agent.Agent.GcAcct | agent/agent.go:581-601 | the loop names exactly the existing elements of the addresses; a failed read or delete is ignored |
| Agent.Agent.SyncOnce | agent/agent.go:199-296 | one turn of the loop over every combination of failing calls: when the full pull stays owed, when the clock restarts, and that only an unreachable backend can lead to a flush |
| Agent.Agent.InitLastAuthzOK | agent/agent.go:174-184 | a new process resumes from the time in the file it loaded |
| Agent.Agent.MarkAuthzOK | agent/agent.go:408-422 | the loop's time always moves, the runtime's at most once a minute, and the file's only if that write succeeds |
| Agent.Agent.GraceCheck | agent/agent.go:426-454 | the set is emptied exactly when the clock is past the grace, failing closed is on, the startup grace is over and the kernel calls succeed |
| GraceClock.FlushMeansSilence | agent/agent.go:403-454 | over every run of answers, failed and successful writes and restarts that find the file as new as memory, a flush means silence longer than the grace in minutes less one, the full grace if not restarted, and never within ten minutes of a start, or half the grace if that is shorter |
| GraceClock.RestartSafeIff | agent/agent.go:174-195 | a restart can only flush after the grace less a minute if and only if the file lags the last answer by at most a minute, holds no time, or the startup grace alone lasts that long |
| GraceClock.FileBehindFlushesEarly | agent/agent.go:408-422 | a run with a failed write and a restart that flushes a four-hour grace before two and a half hours of silence |
| GraceClock.SilenceMeansFlush | agent/agent.go:174-195 | however often the process restarted with some time in its file, silence longer than the grace in minutes flushes once the process is up for ten minutes, or half the grace if that is shorter |
| Metering.ComputeDelta | agent/usage.go:22-45 | one sample per element that moved, each once with exactly its delta, under its service's name or its port's number, and the counters as the next baselines |
| Metering.UnknownTold | agent/usage.go:36-42 | ports outside the catalog are told apart by their labels, from which the number can be read back |
| Metering.NeverOverReported | agent/usage.go:22-45 | per address and port, over every run of traffic, resets, deletions, collections split into read and write, crashes and lost state, samples never exceed bytes counted |
| Metering.ExactlyReported | agent/agent.go:495-519 | without resets, deletions and lost state they equal what was counted when the last written collection read the counters |
| Metering.LosslessIff | agent/usage.go:28-34 | over every run, all bytes counted are in samples or will be in the coming ones if and only if no step lost any, with the losing steps spelled out: passing the mark again, clearing unread bytes, counting before priming, losing state the counter no longer shows |
| Metering.ResetWindowIff | agent/usage.go:28-34 | from any state a window and its collection report everything counted and unread if and only if, with a clearing, nothing was unread or counted before the last one and the counter stayed below a non-zero baseline or the baseline was zero; without one, the counter did not climb past a baseline it was below |
| Metering.UnderCounts | agent/usage.go:28-34 | a run with twelve bytes counted and seven reported |
| Delivery.Runtime.CollectAndBuffer | agent/agent.go:484-533 | baselines always advance, a priming or empty collection queues nothing, a full buffer loses its oldest report and the new one comes last, and a failed write leaves the file as it was |
| Delivery.OldestDropped | agent/agent.go:514-525 | below the cap nothing is dropped, at the cap exactly the oldest report is, and the others keep their order |
| Delivery.Runtime.FlushBuffer | agent/agent.go:537-559 | reports leave oldest first, each acknowledged one handing on its revocations, until the first failed post or failed write; what the file then holds |
| Delivery.StepInv | agent/agent.go:484-559 | every step of the pipeline keeps charges, rows, acknowledgements and reports balanced |
| Delivery.ExactlyOnce | backend/store/usage.go:32-44 | on every run, failed writes included, a generated report is buffered, charged, overflow-dropped or lost with a state, and was charged once for its present row and once per deleted row: at most once while retained; nothing is lost with a state if none was unreadable or unwritten |
| Delivery.ChargedAgainIff | backend/store/usage.go:34-43 | a delivery charges a charged report again if and only if its row is gone |
| Delivery.ChargedOnceIff | backend/store/usage.go:34-43 | over every run no report is charged twice if and only if none is delivered after its row is gone |
| Delivery.NeverOverbilled | backend/store/usage.go:21-44 | no more bytes of an address and port are charged than the kernel counted, whatever is lost, resent, reset, restarted or retired |
| Delivery.OutlivedIsTimely | backend/store/usage.go:32-44 | deleting rows only once their reports can no longer arrive makes every run timely |
| Delivery.RetentionHappens | backend/store/usage.go:32-44 | there is such a run that deletes a row |
| Delivery.RetentionNeeded | backend/store/usage.go:32-44 | if a row is deleted while its report is under way, one counted byte is charged twice |
| Delivery.DurabilityNeeded | agent/state.go:145-150 | if a collection stays in memory only, is delivered and then lost in a crash, one counted byte is charged twice |
| Delivery.RepeatsIff | agent/state.go:145-150 | from any state a crash makes later samples eat into bytes already accounted for if and only if the file's baseline brings more than memory still had to come |
| Delivery.CrashCoveredIff | agent/state.go:145-150 | from a fully accounted state a crash keeps samples within the bytes counted if and only if the counter is below memory's baseline, that is zero, or the file's lies between it and the counter |
| Delivery.DurableRepeatsNone | agent/state.go:145-150 | crashes that find memory on disk repeat nothing |
| Pipeline.PaysForItsBytes | backend/store/usage.go:46-91 | over every run an account's volume_used rises by at most the sum over elements of the floor of the bytes charged to it times the rate |
| Pipeline.PaysForEveryByte | backend/store/usage.go:46-91 | and by no less: over every run whose charges are of at most 2^40 bytes a sample and leave the account capacity, the rise times a million is within the exact sum of bytes times rate, short of it by less than a million per sample charged to the account |
| Pipeline.AttributedIsBilled | backend/store/usage.go:56-76 | what is charged to distinct accounts is together no more than what is charged in all: no byte is billed to two |
| Pipeline.SharesOfCounted | backend/store/usage.go:56-91 | over every run distinct accounts are together charged for no more bytes of an element than the kernel counted |
| Pipeline.PaysAtMostCounted | backend/store/usage.go:21-134 | end to end, an account's volume_used rises by at most the floors of the bytes the kernel counted for elements ever charged to it |
| Billing.WeightedExact | backend/store/usage.go:83-91 | the divide-first form is the exact floor of bytes times rate over a million |
| Billing.NoOverflowIff | backend/store/usage.go:15-19 | no clamped sample leaves int64, in any intermediate value, if and only if the rate is below 8,388,608,000,000 |
| Billing.EarliestOpen | backend/store/usage.go:110-121 | an open entitlement none of the open ones expires before, or none is open |
| Billing.DrawnAdds | backend/store/usage.go:106-134 | drawing v and then w is a draw of v + w |
| Billing.DrawnUnique | backend/store/usage.go:106-134 | with distinct expiries the outcome of a draw is determined |
| Billing.ConsumeTwiceIsOnce | backend/store/usage.go:106-134 | consuming v then w leaves every entitlement as consuming v + w does |
| Billing.Ledger.ConsumeVolume | backend/store/usage.go:106-134 | exactly the smaller of demand and capacity is drawn, no row passes its volume, a later-expiring row is touched only when all earlier ones are full, other accounts are untouched |
| Billing.Ledger.IngestUsage | backend/store/usage.go:25-94 | a known id changes nothing; a new one makes every account pay exactly the sum of its floors up to its capacity, earliest-expiring first, and records one row per sample; a single sample of at most 2^40 bytes is recorded with its bytes and costs its payer bytes * rate / 1,000,000, or all the capacity it had |
| Billing.DrawExhaustsIff | backend/store/usage.go:103-134 | after a draw the account is entitled if and only if it has a pass that has started and not expired or the demand was below its capacity |
| Ingest.DesiredAfter | backend/store/usage.go:95-101 | once a report is paid, an address is desired if and only if its account has a pass or capacity left over |
| Ingest.Backend.IngestUsage | backend/store/usage.go:25-101 | a new report is paid and recomputed, and the addresses revoked at once are exactly the authorized ones without a holder or whose account the report exhausted; a known one changes and revokes nothing |
| Whitelist.ActivateRowTakes | backend/store/whitelist.go:285-294 | park-then-activate passes the index at both statements and leaves the row as the only active one of its address, other addresses untouched |
| Whitelist.UpsertIff | backend/store/admin.go:95-105 | an operator's addition passes the index if and only if no other row is active for the address, and then every invariant holds |
| Whitelist.SwitchOnIff | backend/store/admin.go:136-150 | switching on breaks the index if and only if it is an owner row parked behind another; a guest in that position is made pending and nothing moves; without another active row a row that was not pending becomes active |
| Whitelist.SwitchOffGood | backend/store/whitelist.go:250-264 | switching off and falling back to the owner keeps the address attributed if it has an owner row, and no other address moves |
| Accounts.OneActiveRow | backend/store/whitelist.go:20-29 | over every sequence of operations: at most one active row per address, owner rows never pending, an address with an owner row active exactly once |
| Accounts.RefusedIff | backend/store/admin.go:95-155 | the index refuses an operation if and only if it adds a guest active elsewhere or switches on a parked owner row |
| Accounts.InvitesMoveNothing | backend/store/whitelist.go:68-144 | inviting, withdrawing and declining leave every address's active row unchanged |
| Accounts.MovesOnlyBy | backend/store/whitelist.go:177-280 | an attributed address leaves its row only by its npub's acceptance, its own account's activation, credit or purchase, or a switch-off that sends it home |
| Accounts.NewlyAccepted | backend/store/whitelist.go:108-115 | a guest row becomes non-pending only by the guest's acceptance or the operator's addition |
| Accounts.NeverWithoutConsent | backend/store/whitelist.go:20-29 | on every run a non-pending guest row was accepted or operator-added since it was last missing or pending |
| Accounts.OwnChoiceSettles | backend/store/whitelist.go:232-280 | after the account's own choice its owner row is the one active row of its address |
| Accounts.AcceptsIff | backend/store/whitelist.go:177-210 | an acceptance goes through if and only if the host is active, the invitation outstanding and enabled, and some entitlement of the host runs and is a pass or not used up; each error exactly when its condition is the first to fail |
| Accounts.CapPassedIff | backend/store/whitelist.go:92-107 | from at most the cap, an operation passes it if and only if the account is at the cap and it invites a guest whose row is disabled while entitled, adds one that meets no other active row, or switches a disabled guest row on |
| Accounts.CapIsNoInvariant | backend/store/whitelist.go:98-115 | a run with a cap of one that ends with two enabled guests |
| Accounts.SettledIffGranted | backend/store/payments.go:103-187 | for events in any order with repeats, a purchase is settled and has exactly one entitlement if and only if a grant or settle arrived, otherwise none |
| Accounts.RedeliveryChangesNothing | backend/store/packages.go:169-179 | after the first grant, further processing, grant, settle and void events change nothing in the database |
| Accounts.FixedAtFirstGrant | backend/store/packages.go:159-168 | whatever follows, the purchase stays settled and its entitlement keeps account, kind, volume, start and expiry |
| Accounts.FirstGrant | backend/store/packages.go:141-186 | the first grant appends one entitlement with the ordered account, kind and volume, nothing used, starting at its own time and expiring 86400 seconds later per ordered day, and activates the buyer's owner row |
| Accounts.PurchaseAsOrdered | backend/store/packages.go:96-109 | on every run a purchase exists exactly when an open account ordered its id, and only its status ever differs from the order |
| Accounts.GrantKeepsTerms | backend/store/packages.go:159-168 | whatever happened since the first grant, the purchase's entitlement has the ordered account, kind and volume and runs from that grant for the ordered days |
| Accounts.BuyerEntitledIff | backend/store/packages.go:159-168 | a buyer with no other entitlement is entitled at t if and only if t is within the ordered days of the first grant and, for a volume package, some of it is left |
| Accounts.DesiredIs | backend/store/authz.go:32-45 | on every run the desired set is a function of the address: authorized for an account if and only if its status is active, some entitlement of it has started, has not expired and is a pass or not used up, and its row for the address is enabled and not pending |
| Accounts.AuthorizedNowhere | backend/store/authz.go:32-45 | on every run an account that is not active, or whose entitlements have all expired, not started or been used up, is authorized at no address |
| Accounts.SuspendedNowhere | backend/store/authz.go:32-45 | whatever follows a suspension, the account is authorized at no address until it is made active again |
| Accounts.OwnChoiceAuthorizes | backend/store/packages.go:169-179 | choosing, crediting or first paying for one's own account authorizes one's address for it |
| AccountStore.Store.CreateAccount | backend/store/admin.go:25-62 | two separate statements; the owner row is born parked when the address is active elsewhere; a taken address is the only error |
| AccountStore.Store.AddWhitelist | backend/store/admin.go:85-108 | the guest's row becomes the one active row of its address, or an error with nothing changed |
| AccountStore.Store.SetWhitelistEnabled | backend/store/admin.go:117-160 | withdraw, toggle under the index, then send home: the specified step or its error with nothing changed |
| AccountStore.Store.CreditTx | backend/store/admin.go:170-177 | the entitlement is added and the owner row made the active one in one step |
| AccountStore.Store.CreditAccount | backend/store/admin.go:164-203 | opens the account if needed, then credits it: entitled and active on its own row, failing only for an address that is another's and then changing nothing |
| AccountStore.Store.InviteGuest | backend/store/whitelist.go:68-124 | the checks in order; an acceptance is outstanding afterwards exactly when the row was not already active; no address moves |
| AccountStore.Store.WithdrawInvite | backend/store/whitelist.go:129-144 | removes a pending invitation or reports that there is none; no address moves |
| AccountStore.Store.AcceptInvite | backend/store/whitelist.go:177-210 | the row of a live invitation of an active host with a running pass or unused volume becomes the one active row of the address, else an error with nothing changed |
| AccountStore.Store.DeclineInvite | backend/store/whitelist.go:213-226 | removes a pending invitation or reports that there is none; no address moves |
| AccountStore.Store.ActivateOwner | backend/store/whitelist.go:232-244 | the account's own row, if it has one, becomes the one active row of its address |
| AccountStore.Store.ActivateRowTx | backend/store/whitelist.go:285-294 | both statements pass the index, and the row is then the only active one of its address |
| AccountStore.Store.MarkProcessing | backend/store/payments.go:103-123 | moves a pending purchase to processing and no other |
| AccountStore.Store.GrantByInvoice | backend/store/payments.go:134-156 | settled afterwards, with an entitlement if this call settled it; a settled purchase changes nothing |
| AccountStore.Store.GrantEntitlementTx | backend/store/packages.go:141-186 | the transaction behind a grant is the specified step and keeps every invariant; unless the purchase has one already, it appends the entitlement with the purchase's account, kind and volume for 86400 seconds per day from now |
| AccountStore.Store.VoidByInvoice | backend/store/payments.go:161-187 | no entitlement of the purchase is left and the void status is set, unless it is settled and nothing changes |
| Bits.GroupSpread | pkg/fipsaddr/npub.go:150-173 | regrouping spread-out groups gives the groups back |
| Bech32.ConvertBits | pkg/fipsaddr/npub.go:150-173 | the shift-and-mask loops with an unmasked 32-bit accumulator compute the regrouping of the bit string, with its two errors |
| Checksum.Polymod | pkg/fipsaddr/npub.go:83-96 | the nested loops compute the checksum fold |
| Checksum.FoldLinear | pkg/fipsaddr/npub.go:83-96 | the checksum is linear over exclusive or |
| Checksum.ClosingUnique | pkg/fipsaddr/npub.go:134-148 | exactly one choice of six symbols makes the checksum come out as one |
| Gf32.StepDivides | pkg/fipsaddr/npub.go:83-96 | a round of the checksum is a step of long division over GF(32) by the generator polynomial of BIP-173 |
| Gf32.FoldIsRemainder | pkg/fipsaddr/npub.go:83-96 | the checksum register after any symbols is the remainder of their polynomial |
| Gf32.RemainderScales | pkg/fipsaddr/npub.go:83-96 | multiplying start and symbols by a field element multiplies the remainder: the code is linear over GF(32) |
| Npub.DecodeEncode | pkg/fipsaddr/npub.go:110-148 | every encoded message decodes to itself |
| Npub.EncodeDecode | pkg/fipsaddr/npub.go:110-148 | every accepted string is the encoding of what it decodes to, in lower case |
| Npub.DecodeKeyEncodeKey | pkg/fipsaddr/npub.go:40-67 | decoding an encoded key gives the key if the curve check accepts it and the pubkey error otherwise |
| Npub.EncodeKeyDecodeKey | pkg/fipsaddr/npub.go:40-67 | encoding a decoded npub gives the lower-cased string |
| Npub.SameKeySameText | backend/store/whitelist.go:14-18 | two accepted npubs name the same key if and only if they agree up to case |
| Npub.Bech32Encode | pkg/fipsaddr/npub.go:134-148 | the loops write the specified encoding |
| Npub.Bech32Decode | pkg/fipsaddr/npub.go:110-132 | the checks and loops decode as specified, with each error |
| Npub.EncodeNpub | pkg/fipsaddr/npub.go:64-67 | the specified encoding of a key |
| Npub.DecodeNpub | pkg/fipsaddr/npub.go:40-61 | the specified decoding, with each error |
| PublishedNpub.PublishedDecodes | pkg/fipsaddr/fipsaddr_test.go:17-26 | the published npub decodes to the published 32 bytes if the curve check accepts them |
| PublishedNpub.PublishedEncodes | pkg/fipsaddr/npub.go:64-67 | and those bytes encode to it |
| PublishedNpub.NpubReads | pkg/fipsaddr/fipsaddr_test.go:17-26 | the string meant is the published one, character by character |
| RateLimiter.Limiter.constructor | backend/ratelimit.go:28-35 | a full burst per key, refilled at burst per period |
| RateLimiter.Limiter.Prune | backend/ratelimit.go:67-73 | drops exactly the buckets that have refilled |
| RateLimiter.Limiter.Allow | backend/ratelimit.go:38-64 | with pruning, the same answers as a limiter that never prunes |
| RateLimiter.WindowBound | backend/ratelimit.go:38-64 | in every window of every run, a key is allowed at most burst plus window length times rate |
| RateLimiter.QuietKeyAllowed | backend/ratelimit.go:54-64 | on every run a key without calls since t has at least what the seconds since bring, up to the burst, and is let through once they bring one |
| Challenges.UsedChallenges.Consume | backend/nostr/challenge.go:83-98 | reports whether the challenge was remembered as used, remembers it for 120 seconds, and forgets nothing up to 1024 entries and exactly the expired ones beyond |
| Challenges.AcceptedAtMostOnce | backend/nostr/challenge.go:38-98 | over every run of verify-then-consume in time order and not before issue, an attempt is accepted if and only if it verifies and the challenge was never accepted before |
| Challenges.PruneKeeps | backend/nostr/challenge.go:89-95 | pruning never removes an entry whose challenge could still verify |
| Challenges.AcceptedIff | backend/nostr/challenge.go:38-98 | over every run in time order, whatever the issue times, an attempt is accepted if and only if it is not past its expiry and the challenge was never accepted or last accepted more than 120 seconds ago |
| Challenges.ReplayIff | backend/nostr/challenge.go:83-98 | after any run an accepted challenge has room for a replay if and only if it was accepted before its issue time |

## Left out

- HTTP handlers, JSON, cookies, templates, pages, metrics and logging: input, output and display.
- BTCPay, phoenixd, Cashu and nostr signatures: clients and libraries; only their grant and void events appear.
- nft and wg commands and their parsing: the batch contract stands in for the kernel.
- WireGuard peers and slot allocation: peer diffing repeats the set difference of `Agent.DiffAuthorized`, and the allocator promises nothing once 64 slots were tried.
- captive and dispatch: socket framing.
- LISTEN/NOTIFY, long polling, backoff and jitter: timing only.
- AggregateUsage: a single sum; its deletion of old report rows is the `Retire` step of `Delivery`.
- The curve check, SHA-256, the HMAC and address derivation are parameters; a challenge is known by the expiry its MAC vouches for, so its text format is not modelled.
- Non-ASCII case folding: Go's case mapping also folds a few non-ASCII letters onto ASCII ones; `Npub` folds ASCII only.
- Accounts are identified with their npubs, npubs with their normalized form; an npub that does not decode is refused before anything here starts.
- Whitelist and purchase operations are atomic here; row locks and the interleaving of their statements with other transactions are not modelled, except that opening an account is two operations.
- Package types: a purchase carries the kind, volume and days of its package, whose row is never edited; a day is 86400 seconds, as in a database zone without clock changes.
- Labels, settled_at and other display columns.
- The text form of a baseline key, and IPv4 or zoned addresses in the fingerprint.
- The recompute after whitelist, credit and purchase operations: `Accounts.Desired` is its input and `AuthzStore.Store.RecomputeAuthz` its effect; only a usage report runs both as one operation, in `Ingest`.
- RateLimiter.WindowBound: arithmetic is over reals, without float64 rounding.
- Ingest.Backend.IngestUsage: the recompute is its own transaction in the code; commits between it and the ledger's are not modelled.
- Pipeline.PaysAtMostCounted: rates and the port catalog are fixed over the run, and entitlements are drawn on or granted but not voided.
