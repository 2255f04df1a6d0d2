# Mutual Cloud lease protocol: a verified model

Mutual Cloud hands each submitted job to at most one execution agent at a time. The control
server keeps one row per job in PostgreSQL and arbitrates leases with guarded UPDATE statements;
agents renew their leases by heartbeat and report an outcome when they finish; a sweep returns
lapsed leases to the queue; an announce manager advertises jobs in a DHT. This project models
those parts and proves what they promise together.

## How the model is built

- **Rows and statements** (`DemandJobs.dfy`). The table is a map from job id to row. Each SQL
  statement is one atomic step, split into its WHERE clause (`Matches`) and its SET clause
  (`Updated`). A comparison with NULL is never true. A *run* is a sequence of statements with the
  store clock at which each takes effect. Any sequence is a run, so messages may be delayed,
  duplicated, reordered, lost or forged; `Timely` says the clock does not run backwards.
- **The store object** (`PgStore.dfy`). The class `PGStore` updates its table in place, method by
  method, and each method is proved to do what its statement does.
- **Safety over runs** (`LeaseInvariants.dfy`, `RowHistory.dfy`, `LeaseSafety.dfy`, `Ledger.dfy`).
  The guards are weak one by one: a heartbeat tests neither status nor expiry, Finish accepts an
  unowned row and any token not below the row's, and a requeue leaves the token alone. The theorems
  are about what the statements keep together, and about what each column says of the run.
- **Agents and network** (`Network.dfy`). A run is *well behaved* when heartbeats and finishes
  present (agent, token) pairs granted earlier for that job, and one grant is reported with one
  outcome. This is not left as an assumption: agents that act only on grants they were told about,
  talking through a network that keeps every message for ever, are shown to produce only such runs.
- **Agent** (`Keepalive.dfy`, `Wire.dfy`). The heartbeat period, the heartbeat and finish loops,
  and how tokens and durations pass through the HTTP handlers.
- **Control loops** (`Sweep.dfy`, `Announce.dfy`, `AdLifetime.dfy`). The sweep interleaved with
  other sessions, recovery after a restart, and the announce manager as a state machine over its
  critical sections, channel operations and ticker, with a class for the object itself.
- **DHT** (`Cas.dfy`, `LeaseRegister.dfy`, `KeyValue.dfy`, `Discovery.dfy`). The compare-and-set
  loop against an arbitrary network, leases built on it, the key-value layer with its local
  fallback, and the sharded index with the discoverer's debounce.

Time is counted in nanoseconds. I/O, clocks, random draws and network answers are parameters.

## Main results

- Lease intervals of one job are disjoint in every run (`ExclusiveLeases`), with no hypothesis on
  the messages.
- For well-behaved agents the weak SQL guards compute exactly a strict lease automaton
  (`StoreRefinesAutomaton`), and so for every reachable state of the networked system
  (`SystemRefinesAutomaton`).
- All reports that ever match a job are the same report, and only the first changes anything
  (`OutcomeAgreement`, `ResultFixed`).
- Every column of a row is a function of the history of its job (`SubmissionKept`,
  `ManifestIsLastAttached`, `RowIsLastHit`, `RunningIff`).
- Tokens, retries, leased jobs and finishes balance against the statements of the run
  (`GrantLedger`, `LeaseBalance`).
- Beating agents are never swept (`SweepSparesBeatingAgent`, `AgentKeepsLease`), the sweep misses
  only jobs someone else got to (`SweepMissesOnlyInterference`), and a restart recovers every
  unfinished job that nobody else got to (`Restart`).
- Enqueued jobs are never forgotten, are announced within two rounds, are spaced out, and their
  advertisements never lapse while few enough puts in a row fail (`NoLostWakeup`,
  `FirstAnnouncement`, `AnnounceSpacing`, `AdNeverLapses`).
- Runs of the DHT compare-and-set loop refine an atomic lease object (`RunOperations`). Its version
  is a fencing token (`VersionCounts`), and from the history alone it is known which claims, renewals
  and releases take effect (`ClaimedIff`, `RenewedByHolderIff`, `ClaimsExclude`).
- The key-value layer and the sharded index read as one plain map and one plain set, with the exact
  condition when peers come and go, calls fail or calls overlap (`UniformAgrees`,
  `ReadsLastWriteIff`, `NothingLostIff`, `IndexedIff`).

## Where the code and its comments differ

- The requeue loop says it waits until a lease is three seconds past its expiry. The query ignores
  that argument and uses the database clock, so the model has no grace period.
- `maxRetry` is never read, so the number of requeues is unbounded.
- Above 3600 seconds the handlers silently grant 15-second leases while the agent still plans its
  heartbeats by the flag. `HeartbeatUsableIff` gives the exact flags for which beating can work.
- The agent gives up after three failures in a row, but with the default flags (15-second lease,
  5-second period) three periods already fill the lease: `AgentKeepsLease` covers two lost beats in
  a row only when the third lands on its tick, and one lost beat with five seconds of delay. Flags
  whose period had to be corrected leave room for no lost beat at all (`CorrectedPeriodFits`).
- The agent waits for a manifest between its claim and its first beat. `FirstBeatAcceptedIff` says
  exactly when that wait loses the lease.
- A failed shard read in `addToIndex` is taken for an empty shard, so the write that follows drops
  the other ids of the shard, and so does a call that overlaps another on its shard
  (`IdsCanBeLost`, `NothingLostIff`).
- `dirty` never shrinks, so jobs are advertised for ever, finished or not (`AdvertisedForEver`).
- A failed put of an advertisement is only logged and counts as an announcement. `AdNeverLapses`
  says how many in a row are harmless.

## Model

| member | source | states |
|---|---|---|
| `LeaseInvariants.CoherentStep` | internal/lease/pg_store.go:36-258 | every statement keeps rows coherent: leased status iff owner set iff expiry set, finished iff result set, and the token counts requeues |
| `LeaseInvariants.RowCoherence` | internal/lease/pg_store.go:99-110 | every reachable row is coherent, hence a claim on an existing job succeeds iff the job is queued |
| `LeaseInvariants.TerminalSticky` | internal/lease/pg_store.go:157-165 | a finished job stays finished under the same token for the rest of every run, although heartbeats never test the status |
| `LeaseInvariants.TokenMonotone` | internal/lease/pg_store.go:104-104 | jobs are never deleted, and a job's token and retry count never decrease |
| `RowHistory.SubmissionKept` | internal/lease/pg_store.go:42-46 | in every run a job exists iff it was inserted, and keeps the image, command and creation time of its first insert |
| `RowHistory.ManifestIsLastAttached` | internal/lease/pg_store.go:82-88 | in every run a row's manifest is that of the last attachment that found the job |
| `RowHistory.RowIsLastHit` | internal/lease/pg_store.go:99-258 | in every run, well behaved or not, status, owner, expiry and result are those of the last statement that affected the job |
| `RowHistory.RunningIff` | internal/lease/pg_store.go:157-165 | in every run a leased job is running iff a heartbeat was accepted since its last grant, and otherwise assigned |
| `LeaseSafety.ApartStep` | internal/lease/pg_store.go:99-110 | one statement keeps two tokens apart: lapsed before the queue is reached, hence before the newer grant |
| `LeaseSafety.ExclusiveLeases` | internal/lease/pg_store.go:99-110 | in every run, the last expiry ever written under a token is strictly before the moment any newer token of that job was granted |
| `LeaseSafety.GrantBounds` | internal/lease/pg_store.go:99-110 | from a grant on the row's token is at least the granted one, and while equal only the grantee can own the row |
| `LeaseSafety.GrantsIncrease` | internal/lease/pg_store.go:104-104 | successive grants of a job carry strictly increasing tokens, so a token is granted at most once |
| `LeaseSafety.StaleTokensInert` | internal/lease/pg_store.go:157-212 | once a newer token is granted, heartbeats and finishes with an older one change nothing, in every run |
| `LeaseSafety.LeaseOnRecord` | internal/lease/pg_store.go:99-165 | while a job is leased, the last expiry written under its token is the row's |
| `LeaseSafety.GrantOnRecord` | internal/lease/pg_store.go:99-110 | a grant stays on record with the time it was made |
| `LeaseSafety.LapsedBeforeGrant` | internal/lease/pg_store.go:99-110 | a lease that nobody renews has lapsed, by the expiry in its row, before the job is granted under a newer token |
| `LeaseSafety.FinishGuardIsTokenEquality` | internal/lease/pg_store.go:199-210 | in well-behaved runs Finish matches iff the tokens are equal, and a heartbeat matches iff they are equal and the job is still leased |
| `LeaseSafety.FinishedBy` | internal/lease/pg_store.go:199-210 | in well-behaved runs a finished row carries the outcome of a report that matched it under the row's own token |
| `LeaseSafety.SameGrantee` | cmd/agent/main.go:235-266 | two reports under one token of one job are identical |
| `LeaseSafety.OutcomeAgreement` | internal/lease/pg_store.go:199-211 | all reports that ever match a job's row are the same report, and every one after the first leaves the table unchanged |
| `LeaseSafety.ResultFixed` | internal/lease/pg_store.go:199-211 | the first report that matches fixes status, result, token and the cleared lease at every later point |
| `LeaseSafety.StoreStepRefines` | internal/lease/pg_store.go:36-258 | each statement of a well-behaved run acts on the row as the strict automaton acts on the job |
| `LeaseSafety.StoreRefinesAutomaton` | internal/lease/pg_store.go:36-258 | in every well-behaved run the row is exactly where the automaton free/held/done with strict guards puts it |
| `LeaseSafety.UnearnedFinishCloses` | internal/lease/pg_store.go:207-209 | a report under a token never granted closes a queued job, so the hypothesis on agents is needed |
| `LeaseSafety.FinishFencedIff` | internal/lease/pg_store.go:207-209 | in any run, the exact condition on presented token and owner under which Finish's guard is token equality |
| `Ledger.GrantLedger` | internal/lease/pg_store.go:99-258 | total tokens are the grants made, total retries the requeues made, and grants minus requeues are the leases held plus the finishes that ended a held lease |
| `Ledger.LeaseBalance` | internal/lease/pg_store.go:99-258 | grants minus requeues are the jobs now leased plus the finished jobs whose token is one above their retries, and the latter are as many as the finishes that ended a held lease |
| `Ledger.TableHoldsCreated` | internal/lease/pg_store.go:42-46 | the table holds exactly the ids ever inserted |
| `Ledger.StatusCountsAddUp` | internal/lease/pg_store.go:388-409 | the five per-status counts add up to the number of jobs ever created |
| `Network.ExecutedKeepsLogInv` | cmd/agent/main.go:96-141 | delivering a message keeps every executed statement earned and sincere |
| `Network.SystemIsWellBehaved` | cmd/agent/main.go:96-266 | whatever the network delays, repeats or loses, the statements executed are in clock order and well behaved |
| `Network.SystemRefinesAutomaton` | internal/lease/pg_store.go:36-258 | in every reachable state of agents, network and store, every job is where the strict automaton puts it |
| `Network.GrantsAreOffered` | internal/lease/pg_store.go:149-153 | in every reachable state each lease ever granted has its reply in the network |
| `Network.ControlCanAct` | cmd/control/main.go:156-228 | at any point a submission, attachment or requeue can be executed |
| `Network.AgentCanClaim` | cmd/agent/main.go:96-100 | at any point any agent can have a claim of any job executed |
| `Network.AgentCanBeat` | cmd/agent/main.go:116-141 | at any point the agent of any lease ever granted can learn of it and have a heartbeat executed |
| `Network.AgentCanFinish` | cmd/agent/main.go:235-266 | at any point such an agent that has not decided yet can have a report of any outcome executed |
| `Network.AgentCanRepeat` | cmd/agent/main.go:235-266 | and one that has decided can have the same report executed again |
| `PgStore.PGStore.CreateJob` | internal/lease/pg_store.go:36-48 | an existing id is left alone, a new one gets a row of schema defaults |
| `PgStore.PGStore.AttachManifest` | internal/lease/pg_store.go:77-96 | executes the update of root CID, providers and encryption metadata, and reports a missing job |
| `PgStore.PGStore.TryClaim` | internal/lease/pg_store.go:99-154 | succeeds iff the claim hits, returning the stored owner, expiry and incremented token; a refused claim changes nothing itself and, after any statements of other sessions before its two later reads, reports a missing job, else a missing manifest iff the history attached none with a root CID last, else a conflict |
| `PgStore.PGStore.Heartbeat` | internal/lease/pg_store.go:157-173 | executes the renewal and reports a bad token exactly when no row matched |
| `PgStore.PGStore.Finish` | internal/lease/pg_store.go:176-212 | executes the finish, silently doing nothing when no row matches |
| `PgStore.PGStore.ListExpiredLeases` | internal/lease/pg_store.go:215-237 | lists each lapsed lease exactly once, by the store clock and not by the argument |
| `PgStore.PGStore.SetStatusQueued` | internal/lease/pg_store.go:239-258 | executes the requeue, succeeding exactly on a lease lapsed at that instant |
| `PgStore.PGStore.ListQueued` | internal/lease/pg_store.go:260-289 | lists each queued job exactly once, oldest first |
| `PgStore.PGStore.CountByStatus` | internal/lease/pg_store.go:388-409 | lists exactly the statuses in use, each with its number of jobs |
| `Wire.DecimalValue` | pkg/agent/finish_client.go:29-31 | formatting a token yields digits whose value is the token |
| `Wire.TokenSurvivesTheWire` | cmd/control/control_http.go:850-863 | a granted token reaches the store unchanged through the heartbeat body, nonce or header and through the finish header |
| `Wire.UnreadableTokens` | cmd/control/control_http.go:850-863 | what is not a decimal number below 2^64 counts as token zero in a finish and is refused in a heartbeat; the header counts only if the nonce is blank |
| `Wire.NoTokenNoHeader` | pkg/agent/finish_client.go:29-31 | a finish carries no token header iff its token is not positive |
| `Wire.AppliedLease` | cmd/control/control_http.go:163-168 | a request of one second up to an hour gets its whole seconds, any other gets fifteen seconds |
| `Keepalive.CorrectHeartbeat` | cmd/agent/main.go:51-60 | a period below the lease is left alone, a longer one becomes a second less than the lease or half a lease of one second; with positive flags it is positive, below the lease and never longer than asked |
| `Keepalive.HeartbeatUsableIff` | cmd/agent/main.go:51-60 | the corrected period is positive and below the lease the store applies exactly for these flag values |
| `Keepalive.HeartbeatLoop` | cmd/agent/main.go:117-141 | the loop gives up at the first three failures in a row and otherwise answers every tick |
| `Keepalive.AnsweredExactly` | cmd/agent/main.go:123-138 | the ticks that count as answered are exactly those whose beats were |
| `Keepalive.AnsweredGaps` | cmd/agent/main.go:123-138 | if at most `k` beats in a row are missed, consecutive answered beats are at most `k + 1` ticks apart; the loop goes on only while `k` is two |
| `Keepalive.ReportFinish` | cmd/agent/main.go:235-266 | at most twenty identical reports, each but the last answered by a retryable error, stopping at the first acceptance or final refusal |
| `Keepalive.ClaimOutlasts` | internal/lease/pg_store.go:99-110 | from its grant on the job is finished or stays leased to the grantee until the expiry the grant wrote |
| `Keepalive.BeatOutlasts` | internal/lease/pg_store.go:157-165 | after a beat of its owner the job is finished or stays leased to it until the expiry that beat wrote |
| `Keepalive.FirstBeatAcceptedIff` | cmd/agent/main.go:96-121 | however long the agent waits for a manifest, its first beat is accepted iff no sweep came by after the claimed lease had lapsed |
| `Keepalive.SweepSparesBeatingAgent` | internal/lease/pg_store.go:239-250 | if lost ticks, delay and period fit in the lease, no requeue hits the job from the first beat that finds the lease owned until a lease length after the last, whatever else is delivered |
| `Keepalive.AgentKeepsLease` | cmd/agent/main.go:116-141 | the same from the grant on, for the loop and flags of the agent and any number of beats lost in a row, provided that the first beat lands within the claimed lease |
| `Keepalive.CorrectedPeriodFits` | cmd/agent/main.go:54-60 | a corrected period plus one second, or twice that of a one-second lease, is exactly the lease, so such flags tolerate delay but no lost beat |
| `Sweep.SweepUnderInterference` | internal/lease/pg_store.go:239-250 | a scanned job that the requeue misses was renewed, finished or requeued since the scan |
| `Sweep.RequeueOne` | cmd/control/main.go:213-225 | one turn of the sweep after other sessions' statements: update, then announce iff a row was hit |
| `Sweep.RequeueSweep` | cmd/control/main.go:203-225 | scans the lapsed leases, takes a turn for each, and announces exactly those requeued |
| `Sweep.SweepMissesOnlyInterference` | cmd/control/main.go:203-225 | every scanned job of a sweep is requeued unless another statement got to it between the scan and its turn |
| `Sweep.QuietSweep` | cmd/control/main.go:203-225 | without interference the sweep requeues exactly the scanned jobs and touches no other row |
| `Sweep.QuietSweepAnnounces` | cmd/control/main.go:203-225 | and it announces every one of them |
| `Sweep.NoOrphans` | cmd/control/main.go:195-228 | in every reachable state an unfinished job is queued or has an expiry |
| `Sweep.SweptIsUnfinished` | internal/lease/pg_store.go:215-289 | when every lease has lapsed, returning the lapsed ones leaves exactly the unfinished jobs queued |
| `Sweep.RestoreJobs` | cmd/control/main.go:156-191 | every queued job, and nothing else, is added to the jobs to announce |
| `Sweep.RestoredOrOvertaken` | cmd/control/main.go:156-228 | after restore and one sweep, an unfinished job is announced or another session renewed, finished or requeued it before its turn |
| `Sweep.Restart` | cmd/control/main.go:319-325 | starting from the table alone with every lease lapsed, whatever other sessions execute before the scan and between updates, every unfinished job they did not renew, finish or requeue is to be announced, and the table stays coherent for the next restart; if they execute nothing, exactly the unfinished jobs end up queued and to be announced |
| `Announce.NoLostWakeup` | cmd/control/main.go:42-51 | at every point of every interleaving an enqueued, never announced job is covered by a trigger, a wakeup, the batch or a caller about to send; no batch repeats a job |
| `Announce.AnnounceSpacing` | cmd/control/main.go:82-109 | a snapshot selects a job again only `interval` or more after any earlier announcement of it finished |
| `Announce.RoundsAreCaused` | cmd/control/main.go:111-121 | the loop wakes no more often than callers signal and the ticker fires |
| `Announce.TicksOnSchedule` | cmd/control/main.go:79-80 | ticks fire one interval apart, the first one interval after the start |
| `Announce.AdsAreBounded` | cmd/control/control_http.go:956-979 | no advertisement ever promises more than `ttl` from now |
| `Announce.AnnounceManager.Enqueue` | cmd/control/main.go:42-51 | marks the job and leaves a wakeup buffered, as marking and signalling do in the state machine |
| `Announce.AnnounceManager.Select` | cmd/control/main.go:83-91 | returns each due job exactly once, a batch the state machine allows at that point |
| `Announce.AnnounceManager.RecordAnnounced` | cmd/control/main.go:72-75 | records the time, after which the job is due at a later time iff `interval` has passed; the same as the recording step of the state machine |
| `AdLifetime.AdInvStep` | cmd/control/main.go:78-121 | every prompt step keeps each advertisement on course for renewal before it expires, up to one period for every failed put in a row |
| `AdLifetime.AdvertisedForEver` | cmd/control/main.go:82-109 | once recorded, a job is advertised again within two intervals and two rounds, even if it was finished and withdrawn, since it never leaves the dirty set |
| `AdLifetime.PublishedIsAdvertised` | cmd/control/control_http.go:956-979 | publishing a job, the first time or not, makes its advertisement readable with the stamped expiry until it is withdrawn |
| `AdLifetime.WithdrawnIsGone` | cmd/control/control_http.go:157-158 | a withdrawn advertisement is gone until the next successful put |
| `AdLifetime.AdNeverLapses` | cmd/control/main.go:72-121 | if rounds take at most `round`, at most `misses` puts of the advertisement in a row have failed and `(misses + 1) * (2*interval + 2*round) + round <= ttl`, a published advertisement is unexpired at every later time until withdrawn |
| `AdLifetime.FirstAnnouncement` | cmd/control/main.go:42-51 | an enqueued job is recorded as announced within two rounds of its caller's send, and unless a put of it failed or it was withdrawn it is then advertised, unexpired if `2*interval + 3*round <= ttl` |
| `AdLifetime.NeverStuck` | cmd/control/main.go:111-121 | wherever a prompt run is, the ticker or the loop can take a step or time can pass, without any caller and without any put failing |
| `Cas.BackoffBounds` | internal/dht/node.go:284-288 | five exhausted attempts sleep between 3100 and 4095 milliseconds |
| `Cas.Node.AttemptOnce` | internal/dht/node.go:294-362 | one attempt decides as specified, whatever others put in the local store before its read and before its verification, and adds its own value there only when there are no peers |
| `Cas.Node.PutJSONCAS` | internal/dht/node.go:291-368 | at most five attempts, all but the last repeated; result, writes, sleep and local store follow from them, against any network and any writes of others to the local store |
| `Cas.SuccessWasChecked` | internal/dht/node.go:313-362 | an attempt succeeds iff its check produced the value from what it read and the value went to the local store or was read back equal; a refused check writes nothing |
| `Cas.FailureExplained` | internal/dht/node.go:314-362 | an attempt is repeated with a conflict iff the check says not now or another value is read back, with a network error iff the put failed or nothing could be read back, and ends with an error iff the check refuses |
| `Cas.FivePutsFail` | internal/dht/node.go:338-346 | five failing puts exhaust the loop with the error of the last |
| `Cas.BackoffDoubles` | internal/dht/node.go:284-288 | the five waits are 100, 200, 400, 800 and 1600 milliseconds plus the jitter drawn |
| `LeaseRegister.CheckIsAtomic` | internal/task/claim.go:34-122 | for every client and stored value the check closures decide as the atomic lease object does, with its error for every refusal |
| `LeaseRegister.Operate` | internal/task/claim.go:27-123 | over an undisturbed register each operation is one atomic step, a failed one writes nothing, and only an absent lease exhausts the attempts, sleeping 3100 to 4095 milliseconds |
| `LeaseRegister.RegisterRefinesObject` | internal/task/claim.go:27-123 | the checks of any claims, heartbeats and releases, applied one after the other, take the register where the atomic object goes |
| `LeaseRegister.RunOperations` | internal/task/claim.go:27-123 | any run of claims, heartbeats and releases through the compare-and-set loop answers as the atomic object does, operation by operation, and leaves its state in the register, peers present for some operations and absent for others |
| `LeaseRegister.CalmRun` | internal/dht/node.go:291-368 | every sequence of operations has an undisturbed run |
| `LeaseRegister.VersionCounts` | internal/task/claim.go:50-118 | the version counts the effective operations, so it strictly increases with each |
| `LeaseRegister.EffectiveStores` | internal/task/claim.go:50-118 | an effective claim or heartbeat leaves its client's lease for the time asked, or twenty seconds if none was, and a release an empty one without expiry |
| `LeaseRegister.RenewedByHolderIff` | internal/task/claim.go:70-123 | in any run a heartbeat or release takes effect iff it presents the credential left by the last effective claim or release (the claimer's, or the empty one), or before any the credential of the lease the run began with |
| `LeaseRegister.ClaimedIff` | internal/task/claim.go:27-60 | in any run a claim takes effect iff the last effective operation, or without one the lease the run began with, did not leave a lease of a named client that lasts beyond the claim |
| `LeaseRegister.RefusedBecause` | internal/task/claim.go:45-105 | a claim is refused as busy; a heartbeat or release as a conflict, undecodable or stolen, according to what the run began with and whether anything took effect since |
| `LeaseRegister.ClaimExcludesIff` | internal/task/claim.go:28-53 | a claim right after a successful one succeeds iff the time the first asked for (twenty seconds if none) has passed or its peer id is empty |
| `LeaseRegister.HeldUntilExpiry` | internal/task/claim.go:45-48 | until its holder acts again the lease of a named owner stays in place or its expiry has passed |
| `LeaseRegister.ClaimsExclude` | internal/task/claim.go:45-48 | a claim succeeds only after the lease another named client last wrote has expired or was given up |
| `KeyValue.NsKeyInjective` | internal/dht/node.go:239-244 | distinct keys of a namespace never collide |
| `KeyValue.NamespacesApart` | internal/dht/node.go:239-244 | namespaces without a slash never share a key |
| `KeyValue.EmptyNamespaceShares` | internal/dht/node.go:239-244 | the empty namespace can address the keys of every other |
| `KeyValue.Node.PutJSON` | internal/dht/json.go:15-32 | stores in the network, or locally when there are no peers, or fails with its error, in which case the network may or may not have stored the value |
| `KeyValue.Node.DelJSON` | internal/dht/json.go:33-41 | writes a tombstone as a put does and forgets the local value unless that write failed |
| `KeyValue.Node.GetJSON` | internal/dht/json.go:44-60 | answers from the network if it can, else from the local store, else with an error |
| `KeyValue.UniformAgrees` | internal/dht/json.go:15-60 | with peers throughout, where any call may fail, or without peers throughout, any sequence of puts and deletes leaves the two stores agreeing with one plain map for readers that treat an error and a zero value alike |
| `KeyValue.ReadSees` | internal/dht/json.go:15-60 | in any run, peers coming and going and calls failing, a read sees what the network last stored if it is reached and stored anything, and otherwise what was put locally without peers and not deleted since |
| `KeyValue.ReadsLastWriteIff` | internal/dht/json.go:15-60 | in any run a read sees the plain map iff the key was never written, or its last write went where the read looks first, or that place says the same or (for a read that reaches the network) nothing |
| `KeyValue.MixedModesDisagree` | internal/dht/json.go:23-58 | a run where it does not: a value stored without peers shadows a later one once the network fails |
| `KeyValue.RunOps` | internal/dht/json.go:15-60 | any operations with any fates change and read the two stores as specified, and with peers throughout or without, all readers together are shown what a plain map shows, failed reads showing nothing |
| `Discovery.Index.AddToIndex` | cmd/control/control_http.go:226-247 | writes back the shard as it was read plus the id unless it was there, whatever other calls did meanwhile, and leaves every other shard alone; a failed read counts as an empty shard, and a failed write may or may not have stored the shard |
| `Discovery.IndexedIff` | cmd/control/control_http.go:226-247 | after any calls that do not overlap, an id is in a shard iff a stored call put it there and no later stored call for another id replaced the shard because its read failed |
| `Discovery.NothingLostIff` | cmd/control/control_http.go:226-247 | for calls overlapping in any way and failing in any way, the index holds all that was stored at every moment iff every call that writes read its shard after each other id stored there before |
| `Discovery.IndexIsSet` | cmd/control/control_http.go:226-247 | when the reads succeed and calls on one shard do not overlap, the index holds exactly the ids stored, whatever shards are drawn |
| `Discovery.IdsCanBeLost` | cmd/control/control_http.go:231-246 | two calls on one shard lose the first id if the second cannot read or reads before the first has written |
| `Discovery.AddAndList` | pkg/agent/discover.go:26-48 | after any calls one after the other the listing holds what the readable shards hold, no id more than 32 times; if all reads succeed, exactly the ids stored |
| `Discovery.Index.ListFromIndex` | pkg/agent/discover.go:26-48 | lists every id as often as readable shards hold it, at most 32 times, skipping unreadable shards |
| `Discovery.Discoverer.HandleJob` | pkg/agent/discover.go:93-130 | a visit yields a candidate exactly when it passes every filter, and then remembers the time |
| `Discovery.Debounced` | pkg/agent/discover.go:106-129 | two candidates for one job are at least 500 milliseconds apart, however often the index repeats it |
| `Discovery.CandidateIff` | pkg/agent/discover.go:93-130 | a visit becomes a candidate iff the job is named, not read as other than queued, its advertisement and manifest are readable, and every earlier candidate for it is 500 milliseconds past |

## Left out

- Transaction timestamps: `now()` is the start of a transaction in PostgreSQL; the model gives each statement the clock at which it takes effect and assumes that clock never decreases.
- Integer width of stored tokens and retry counts: they are unbounded here; only the conversion of presented tokens to 64 bits is modelled.
- Overflow of flag values beyond what a Go duration can hold.
- Wire.HeartbeatToken: trims the white space of Latin-1 only, not all of Unicode.
- LeaseRegister.Operate: covers a register nobody else touches while the operation lasts; the loop against anything else is `Cas.Node.PutJSONCAS`.
- LeaseRegister.RunOperations: the same for every operation of the run; operations of different clients follow one another.
- KeyValue.RunOps: the network is one map, so a read that succeeds returns what was last stored there; stale replicas are not covered.
- Discovery.Index.AddToIndex: the version and time fields of a shard are not modelled.
- Sweep.RequeueOne: the deletion of the lease key and the update of the state key in the DHT are left out; nothing in the store depends on them.
- Sweep.RequeueSweep: the same DHT writes are left out of every turn.
- Sweep.RestoreJobs: its writes of metadata, state and index entries to the DHT are left out.
- Sweep.Restart: the same DHT writes are left out.
- AdLifetime.AdNeverLapses: the duration of a round is a hypothesis, since DHT calls have timeouts but no useful bound.
- HTTP routing, authentication, JSON encoding and logging.
- libp2p and Kademlia: the network is reads and writes with arbitrary answers; a register nobody else touches is assumed only in `LeaseRegister`.
- The lease and state mirrors in the DHT: `finishHandler` and `tryClaimHandler` write them whether or not a row matched, so they do not follow the store.
- `releaseHandler`, `forceRequeueHandler` and the unsharded index: they do not touch the authoritative lease or are not read.
- The re-announce loop, whose body is that of `RestoreJobs`, and its DHT writes.
- Container execution, file transfer, manifest polling, paging and statistics handlers.
