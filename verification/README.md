# Control plane and vehicle kernel, verified

A Dafny model of the remote-driving platform's safety and ordering core, and proofs about every run of it. `dafny
verify dfyconfig.toml` checks the whole project.

The centre is the **control-lease protocol**: the cloud authority (`Authority`, `AuthorityRuns`, `Drivers`) issues,
renews, releases and emergency-revokes leases under a per-vehicle fencing counter and puts signed messages in an
outbox; the downlink may lose, delay, duplicate and reorder them; the vehicle's safety kernel (`Arbiter`,
`ArbiterRuns`) accepts leases, commands and watchdog ticks in front of the actuator. `LeaseProtocol` puts the three
together, with a vehicle clock and a database clock that each differ from the service's by at most a parameter, and
proves a joint invariant over lease table, epochs, renewals, security events, signed messages, vehicle state and
actuator log; `LeaseDelivery` proves what happens when a message does arrive, however late, and `Restart` what a
restart of the arbiter process does to a stop. `Takeover` is the account-to-vehicle registry rebuilt from the lease
table and `Handlers` every run of the operators' handlers over it. Around the core stand **ordered ingest and the
acknowledged state machines** (`Ingest`, `Telemetry`, `Navigation`, `MapPublication`), the **outbox** retry machine
(`Outbox`), the **open API** admission (`OpenApi`) and the **local framing** (`Framing`).

How it is written: each component has a pure step function on datatypes and a class whose methods do what the source
does, statement by statement or loop by loop, proved equal to that step function; runs are folds of the step function
over arbitrary inputs; the theorems are about all runs. Beside them, what every step checks, answers and writes is
written out without the step's own helpers (`ArbiterTable`, `AuthorityTable` and the `...WritesOut` lemmas). A
transaction is one atomic step, tables are maps, times are integer nanoseconds passed in as parameters, actuator and
database outcomes are chosen by the input. A signature is valid exactly when the message is in the outbox; a MAC is a
boolean of the message.

What the proofs brought to light. For each of these the exact condition is proved, and a run or input shows the
failure:

- Driver exclusivity is unconditional only because of the unique index in
  `server/migrations/0015_control_lease_invariants.sql`. Without it a renewal inside the grace window can give one
  driver two valid leases; the handlers' look-ups exclude that in every run, whatever queries fail. A renewal that
  relies on the service's clock alone is not enough when the database's clock is ahead.
- With that index a lapsed lease that is still marked active keeps its driver from every other vehicle: the `expired`
  mark a late Renew writes (`server/fleet/durable_authority.go:278`) is rolled back with its transaction, and the
  give-back handler no longer finds the lease. Only a granted Request or a stop of its vehicle, or its Release, lifts it.
- The fencing floor lives in the arbiter's memory. After a restart a grant from before an emergency stop re-arms the
  vehicle exactly when it has not run out on the vehicle's clock and its envelope is alive: 32 s for the envelopes the
  authority makes, longer for a Gateway that re-wraps the grant.
- A vehicle that is granted an already expired lease reports `MinimalRisk` without an actuator call
  (`vehicle/safety-arbiter/proto_kernel.go:43`); in every other case the report is true.
- An ACCEPTED map acknowledgement moves even an unapproved request to `confirmed`, after which APPLIED puts it in force.
- A retention round that deletes a cursor and fails to delete its ledger rows makes the gate drop a message that
  advances; any other round is harmless.
- Route handlers write the cache after their commit. A write that overtakes an older one of its route can leave the
  cache wrong for good; a cancellation that commits late can reopen a finished route; and since route ids are 32-bit
  random and the insert is an upsert, a colliding id resets a route.
- The nonce of an API request lives 600 s and the default timestamp window is 300 s either way: at the two ends of
  the window the same signed request passes twice, and so it does after a restart, which empties the store. It takes
  twice the window plus stall under 600 s, and no restart that is over within twice the window.
- The limiter's stamp is read before the lock. With stamps overtaken by up to `lag`, the limit holds for every window
  of ten seconds less the lag and for none longer.
- Lowering the rate limit while hits are stored makes the in-place compaction of a rejected request duplicate hits.

## Model

| member | source | states |
|---|---|---|
| `LeaseProtocol.RunKeepsSysInv` | server/fleet/durable_authority.go:155-426 | every run of authority, unreliable downlink and vehicle keeps the joint invariant of tables, signed messages, vehicle state and actuator log |
| `LeaseProtocol.VehicleNeverOutrunsAuthority` | server/fleet/durable_authority.go:186-238 | the vehicle's fencing floor never exceeds the epoch; any lease it holds, armed or moved under was issued by Request with that id and fencing |
| `LeaseProtocol.StopIsFinal` | server/fleet/durable_authority.go:373-426 | once a stop (or anything later) is processed, whatever the vehicle arms or moves under was issued after that stop |
| `LeaseProtocol.LateRevokeIsHarmless` | vehicle/safety-arbiter/proto_kernel.go:61-71 | a late or repeated revoke leaves a lease issued after it untouched |
| `LeaseProtocol.MotionNeedsAFreshLease` | server/fleet/durable_authority.go:281-304 | every motion lies less than a TTL after a Request or first-time Renew of its lease, whatever was lost |
| `LeaseProtocol.SuccessorWaitsForExpiry` | server/fleet/durable_authority.go:189-204 | without a Release or EmergencyStop between two leases, every motion under the first comes before the second was issued, by the vehicle's clock and up to how far the database's clock may be ahead |
| `LeaseProtocol.SuccessorWaitsInCloudTime` | server/fleet/durable_authority.go:189-204 | the same in cloud time, up to the two clock skews |
| `LeaseProtocol.PredecessorExpired` | server/fleet/durable_authority.go:189-192 | an undisturbed predecessor has been marked expired when its successor is issued |
| `LeaseProtocol.VehicleRunsKernel` | vehicle/safety-arbiter/proto_kernel.go:18-183 | the vehicle's part of a protocol run is a kernel run, so every kernel theorem holds inside the protocol |
| `LeaseDelivery.SignedMessageIsAdmitted` | server/fleet/durable_authority.go:455-495 | after any run every signed message addressed to the vehicle passes its validation while its envelope lives, with its fencing intact |
| `LeaseDelivery.FreshGrantArms` | vehicle/safety-arbiter/proto_kernel.go:41-59 | after any run, with any delay, a grant delivered before it expires arms exactly its lease if above the floor, extends its own held lease, and otherwise changes nothing |
| `LeaseDelivery.StopAlwaysLands` | vehicle/safety-arbiter/proto_kernel.go:61-71 | after any run, with any delay, a delivered release or stop leaves the floor at or above it and no lease but a later one; if nothing later was processed it calls MinimalRisk |
| `LeaseDelivery.JustSignedOutranks` | server/fleet/durable_authority.go:193-219 | a lease or stop just signed has a higher number than anything the vehicle has processed |
| `LeaseDelivery.RunKeepsNamed` | server/fleet/durable_authority.go:159-162 | every lease and every signed grant names a driver and a device |
| `LeaseDelivery.CommittedIsAdmitted` | server/fleet/durable_authority.go:464-487 | a granted Request or committed EmergencyStop through the vehicle's gateway leaves in the outbox, for good, the message of exactly what was asked, the new epoch and the TTL; the vehicle admits it while its envelope lives, with no assumption on its address |
| `LeaseDelivery.RequestArms` | vehicle/safety-arbiter/proto_kernel.go:56-59 | from the request to the armed vehicle with any delay: if nothing later was processed, it holds the lease that was asked for until a TTL after the request |
| `LeaseDelivery.RenewalsAreAddressed` | server/fleet/durable_authority.go:464-471 | over all runs every signed grant is for the gateway, vehicle, driver and device of its lease |
| `LeaseDelivery.ApplyKeepsTerms` | server/fleet/durable_authority.go:298-300 | no transaction changes what a lease was issued for |
| `Restart.StopSurvivesRestartIff` | vehicle/safety-arbiter/arbiter.go:88-94 | after a restart, with more restarts at any time, some continuation arms a lease from before the stop if and only if a grant of such a lease has time left on the vehicle's clock and an envelope of the downlink, plain or re-wrapping, is alive |
| `Restart.PlainStopIsFinal` | server/fleet/durable_authority.go:481-487 | over the authority's own envelopes no continuation re-arms once every earlier grant has run out or is more than 32 s old |
| `Restart.NothingOutdatedIsSigned` | server/fleet/durable_authority.go:277-304 | once the stop is on record the authority signs no grant below it |
| `Restart.ArmingIsAGrant` | vehicle/safety-arbiter/proto_kernel.go:41-59 | only an admitted, unexpired grant arms the kernel |
| `Arbiter.SafetyArbiter.HandleProtoLease` | vehicle/safety-arbiter/proto_kernel.go:18-75 | new state and decision of a grant or revoke are those of the lease step, every branch and rejection included |
| `Arbiter.SafetyArbiter.HandleProtoCommand` | vehicle/safety-arbiter/proto_kernel.go:106-183 | new state and decision of a command are those of the command step, with its order of checks |
| `Arbiter.SafetyArbiter.Tick` | vehicle/safety-arbiter/arbiter.go:141-171 | expiry and watchdog drop the lease, latch the reason and call the actuator; otherwise nothing changes |
| `Arbiter.NewConfig` | vehicle/safety-arbiter/arbiter.go:96-120 | a configuration is accepted exactly with both identities, an authority key, positive limits and, with MACs, a 256-bit key; missing durations become 500 ms and 2 s |
| `ArbiterRuns.RunKeepsInv` | vehicle/safety-arbiter/proto_kernel.go:36-75 | over any inputs the actuator log is a well-formed chain that agrees with the held lease |
| `ArbiterRuns.MotionsExecuteAtMostOnce` | vehicle/safety-arbiter/proto_kernel.go:129-166 | raw (fencing, sequence) pairs of all ApplyMotion calls strictly increase, also for inputs above 2^63; each call has four finite values, 0 to the speed limit and within plus or minus the other limits, and is within its TTL plus skew |
| `ArbiterRuns.OneSessionPerLease` | vehicle/safety-arbiter/proto_kernel.go:142-144 | over any run all motions under one fencing number come from one control session and one lease |
| `ArbiterTable.EnvelopeMeans` | protocols/platform/v1/auth.go:34-64 | envelope validation written out field by field, with its numbers |
| `ArbiterTable.LeaseIsHeardIff` | vehicle/safety-arbiter/proto_kernel.go:77-104 | a lease message is not refused at the door exactly when every listed field agrees; refused there, it changes nothing |
| `ArbiterTable.GrantAnswer` | vehicle/safety-arbiter/proto_kernel.go:41-59 | answer and new state of a grant in each of its cases |
| `ArbiterTable.RevokeAnswer` | vehicle/safety-arbiter/proto_kernel.go:61-71 | answer and new state of a revocation, with the actuator's outcome |
| `ArbiterTable.CommandVerdict` | vehicle/safety-arbiter/proto_kernel.go:110-182 | the answer to a command, check by check in order |
| `ArbiterTable.MotionIsCalledIff` | vehicle/safety-arbiter/proto_kernel.go:129-159 | a motion is called exactly for a heard, fresh, in-turn TargetMotion command under the held live lease with all four values in bounds |
| `ArbiterTable.MotionIsRecorded` | vehicle/safety-arbiter/proto_kernel.go:159-166 | what is called and what the kernel remembers of it, for success and failure of the actuator |
| `ArbiterTable.CommandCallsRiskIff` | vehicle/safety-arbiter/proto_kernel.go:139-141 | without a motion a command calls MinimalRisk exactly when it finds its lease expired or asks for it |
| `ArbiterTable.TickAnswer` | vehicle/safety-arbiter/arbiter.go:141-171 | answer and new state of a tick: no lease, expired, silent too long, healthy |
| `ArbiterTable.TickLeavesNoExpiredLease` | vehicle/safety-arbiter/arbiter.go:148-169 | at any point of any run, after a tick no lease is held that has run out or been silent for longer than the watchdog |
| `ArbiterRuns.RiskLatchesUntilRearmed` | vehicle/safety-arbiter/proto_kernel.go:56-71 | between a MinimalRisk call and a later motion a lease with strictly higher fencing was armed; a held lease has the floor's fencing and no latched reason |
| `ArbiterRuns.LosingTheLeaseCallsRisk` | vehicle/safety-arbiter/proto_kernel.go:159-179 | the step that drops a lease ends in a MinimalRisk call with the latched reason, and conversely |
| `ArbiterRuns.RiskReportIsTrueIff` | vehicle/safety-arbiter/proto_kernel.go:42-44 | at every point of every run the reported minimal-risk flag agrees with the actuator call exactly when the input is no expired grant |
| `ArbiterRuns.AcceptedCommandWasApplied` | vehicle/safety-arbiter/proto_kernel.go:159-166 | a command is reported accepted without minimal risk exactly when its motion was applied in that step |
| `ArbiterRuns.ExpiredGrantReportsRiskItDidNotCall` | vehicle/safety-arbiter/proto_kernel.go:42-44 | a concrete grant that is reported as minimal risk while nothing happens |
| `ArbiterRuns.ProcessedFencingIsAFloor` | vehicle/safety-arbiter/proto_kernel.go:45-57 | after fencing f is processed nothing later has lower fencing and every new arming is strictly above f |
| `ArbiterRuns.HeldLeaseOnlyExtends` | vehicle/safety-arbiter/proto_kernel.go:49-55 | while the floor stands a lost lease never returns and a held one keeps its id, never shrinks and never goes back in sequence |
| `ArbiterRuns.MotionsFollowLiveEvents` | vehicle/safety-arbiter/proto_kernel.go:133-147 | a motion directly follows the arming or an applied motion of its own lease |
| `ArbiterRuns.SilenceIsBounded` | vehicle/safety-arbiter/arbiter.go:144-169 | with ticks at most P apart, the next actuator event after an arming or applied motion comes within watchdog + P; renewals do not postpone it |
| `Authority.NewPolicy` | server/fleet/durable_authority.go:128-136 | positive durations are kept, non-positive ones become 45 s and 15 s |
| `Authority.DurableAuthority.RequestLease` | server/fleet/durable_authority.go:155-242 | tables and reply after a Request, each refusal leaving them unchanged |
| `Authority.DurableAuthority.RenewLease` | server/fleet/durable_authority.go:244-319 | tables and reply after a Renew: refusal, replayed request id, first-time renewal |
| `Authority.DurableAuthority.ReleaseLease` | server/fleet/durable_authority.go:321-368 | tables and reply after a Release |
| `Authority.DurableAuthority.StopVehicle` | server/fleet/durable_authority.go:373-426 | tables and reply after an EmergencyStop |
| `AuthorityTable.RequestVerdict` | server/fleet/durable_authority.go:160-224 | the answer to a Request in the order of its checks, with the lease it grants |
| `AuthorityTable.RequestCommits` | server/fleet/durable_authority.go:189-235 | rows, epoch, event and the one signed grant of a granted Request, written out |
| `AuthorityTable.RenewVerdict` | server/fleet/durable_authority.go:248-298 | the answer to a Renew in the order of its checks |
| `AuthorityTable.RenewCommits` | server/fleet/durable_authority.go:281-312 | what a first renewal writes and signs, and that a repetition only signs the saved end again |
| `AuthorityTable.ReleaseVerdict` | server/fleet/durable_authority.go:330-349 | only the owner, from the lease's device, ends an active lease |
| `AuthorityTable.ReleaseCommits` | server/fleet/durable_authority.go:338-361 | row, epoch, event and signed revocation of a Release |
| `AuthorityTable.StopVerdict` | server/fleet/durable_authority.go:377-391 | when an EmergencyStop commits |
| `AuthorityTable.StopCommits` | server/fleet/durable_authority.go:392-419 | rows, epoch, event and signed revocation of an EmergencyStop |
| `AuthorityRuns.ApplyKeepsInv` | server/fleet/durable_authority.go:155-426 | every transaction, committed or refused, keeps the table invariant |
| `AuthorityRuns.ApplyGrows` | server/fleet/durable_authority.go:155-426 | no transaction takes back an event, an epoch, a lease's identity or its validity |
| `AuthorityRuns.TablesStayConsistent` | server/fleet/durable_authority.go:186-238 | over all runs at most one active row per vehicle, its fencing the epoch and its id the active lease; a signed (vehicle, fencing) names one lease and one action |
| `AuthorityRuns.EpochMovesByOne` | server/fleet/durable_authority.go:338-362 | a committed Request, Release or EmergencyStop raises its vehicle's epoch by exactly one; nothing else moves any epoch |
| `AuthorityRuns.SignedFencingIsUnambiguous` | server/fleet/durable_authority.go:455-495 | two signed messages with the same vehicle and fencing have the same lease id and action |
| `AuthorityRuns.FencingNamesOneEvent` | server/fleet/durable_authority.go:228-232 | a (vehicle, fencing) pair occurs in one issue, release or stop event only |
| `AuthorityRuns.MessageOrigin` | server/fleet/durable_authority.go:233-235 | every signed message stems from a recorded event with its vehicle, lease and fencing |
| `AuthorityRuns.ReplayExtendsNothing` | server/fleet/durable_authority.go:281-294 | replaying a renewal id after any run changes no lease, epoch, renewal or event and re-sends at most the saved deadline |
| `Drivers.IndexMakesDriversExclusive` | server/migrations/0015_control_lease_invariants.sql:6-7 | with the driver index no driver ever has two active leases |
| `Drivers.KeepaliveMakesDriversExclusive` | server/fleet/durable_authority.go:205-212 | without it, renewing only leases valid by the database's clock too keeps every driver to one lease valid by that clock, over all runs |
| `Drivers.ServiceClockIsNotEnough` | server/fleet/durable_authority.go:205-212 | a run with the database's clock ahead in which a lease renewed while valid by the service's clock gives the driver two |
| `Drivers.LapsedLeaseBlocksIff` | server/migrations/0015_control_lease_invariants.sql:6-7 | with the index a driver without a valid lease is refused a free vehicle exactly when a lapsed lease of theirs on another vehicle is still marked active |
| `Drivers.LeaseIsUnmarkedIff` | server/fleet/durable_authority.go:189-192 | a lease loses its active mark exactly by a granted Request or a stop of its vehicle, or by its Release |
| `Drivers.LapsedLeaseBlocksForGood` | server/fleet/durable_authority.go:277-280 | over any run a lapsed lease blocks its driver until one of these happens |
| `Drivers.LapsedLeaseLocksOutItsDriver` | server/migrations/0015_control_lease_invariants.sql:6-7 | a concrete driver whose lease on one car lapsed and who is refused the next |
| `Drivers.RenewalKeepsExclusivityIff` | server/fleet/durable_authority.go:277-280 | a renewal keeps exclusivity exactly when the driver holds no other valid active lease |
| `Drivers.GraceRenewalBreaksExclusivity` | server/fleet/durable_authority.go:277-304 | a concrete run in which a grace-window renewal gives one driver two valid leases |
| `Takeover.TakeoverReg.RefreshFromDB` | server/fleet/takeover_reg.go:53-85 | the rebuilt indexes mirror the rows in force and are inverse exactly when no driver holds two of them; a failed query changes nothing |
| `Takeover.TakeoverReg.BuildIndexes` | server/fleet/takeover_reg.go:67-79 | the row loop fills both indexes with one shared entry per row |
| `Takeover.TakeoverReg.GcLocked` | server/fleet/takeover_reg.go:88-98 | whatever the map order, exactly the expired entries leave the account index and their own twins the vehicle index |
| `Takeover.TakeoverReg.Put` | server/fleet/takeover_reg.go:100-106 | after sweeping, both indexes hold the entry; they are inverse exactly when the account had no other vehicle and the vehicle no other account |
| `Takeover.TakeoverReg.Mine` | server/fleet/takeover_reg.go:108-114 | after a successful query the answer is the account's lease in force, and None only if the table has none |
| `Takeover.TakeoverReg.ByVehicle` | server/fleet/takeover_reg.go:116-122 | after a successful query the answer is the vehicle's lease in force, and None only if the table has none |
| `Takeover.TakeoverReg.Release` | server/fleet/takeover_reg.go:144-155 | the account's entry leaves both indexes, which stay inverse |
| `Takeover.TakeoverReg.MayTake` | server/fleet/takeover_reg.go:199-206 | after successful queries the way is clear exactly when the account has no lease in force elsewhere and the vehicle none of another account |
| `Takeover.TakeoverReg.Take` | server/fleet/takeover_reg.go:160-216 | after successful queries it succeeds exactly when the way is clear and the authority would grant; it keeps the indexes inverse and changes the authority by that one Request, or by nothing when denied |
| `Takeover.TakeoverReg.Held` | server/fleet/takeover_reg.go:230-234 | the look-up of keepalive yields a lease valid at that moment, unless the query failed and the cached entry ends exactly then |
| `Takeover.TakeoverReg.Keepalive` | server/fleet/takeover_reg.go:219-249 | the handler keeps the indexes inverse and changes the authority by one Renew of the account's only lease that can be valid; after a successful query it is denied a lease in force only if the authority would not renew it |
| `Takeover.TakeoverReg.GiveBack` | server/fleet/http.go:132-158 | the handler releases the account's lease, which after a successful query is in force, and drops its entry; it fails on a lease in force only if the authority refuses the release |
| `Takeover.GcKeepsInverse` | server/fleet/takeover_reg.go:88-98 | on inverse indexes the sweep removes exactly the expired entries of both and keeps them inverse |
| `Takeover.PutKeepsInverseIff` | server/fleet/takeover_reg.go:100-106 | an insertion keeps inverse indexes inverse if and only if the hard rules of the registry hold for it |
| `Takeover.ReleaseKeepsInverse` | server/fleet/takeover_reg.go:144-155 | removal by account keeps the indexes inverse and drops exactly that account's vehicle |
| `Takeover.ProjectionInverseIff` | server/fleet/takeover_reg.go:60-84 | indexes projected from the table are inverse exactly when drivers are exclusive |
| `Takeover.ReachableTablesProject` | server/fleet/takeover_reg.go:60-84 | every table a run can reach, with the index or by keepalive only, projects to inverse indexes |
| `Takeover.HeldDriverIsRefused` | server/fleet/durable_authority.go:205-212 | a Request of a driver who holds a lease in force is refused even when the registry missed it |
| `Handlers.Serve` | server/fleet/takeover_reg.go:158-250 | every run of take, keepalive, give back and stop, queries failing at will and without the driver index, keeps the indexes inverse, every cached entry on record and naming its account's only valid lease, and every driver to one valid lease |
| `Handlers.SelectInForce` | server/fleet/takeover_reg.go:60-62 | the query returns exactly the leases in force |
| `Handlers.TransactionStaysCoherent` | server/fleet/durable_authority.go:155-426 | a transaction that renews a driver's only valid lease, or none, keeps the table invariant and driver exclusivity |
| `Handlers.GrantIsTracked` | server/fleet/durable_authority.go:205-212 | a lease is granted only to an account without a valid one |
| `Ingest.GatewayRegistry.AcceptInboundSequence` | server/fleet/vehicle_registry.go:253-289 | cursor, ledger and verdict after a claim: invalid, late or duplicate, accepted |
| `Ingest.GatewayRegistry.Retain` | server/fleet/state_ext.go:96-101 | the two deletions by age, each of which may fail alone |
| `Ingest.ReplayWindow` | protocols/platform/v1/auth.go:34-64 | two validations of one envelope are at most 64 s apart |
| `Ingest.NoEnvelopeAcceptedTwice` | server/fleet/vehicle_registry.go:253-289 | over any run with purges, late and duplicate deliveries, no validated envelope is accepted twice |
| `Ingest.StepKeepsLedgerIff` | server/fleet/state_ext.go:96-101 | a step keeps every ledger row behind its cursor exactly when it is no retention round that deletes a cursor and keeps a row of it |
| `Ingest.LedgerNeverContradictsCursorIff` | server/fleet/vehicle_registry.go:275-288 | whatever advances its cursor is accepted at every point of a run if and only if no retention round orphans a ledger row |
| `Ingest.FailedLedgerPurgeDropsAMessage` | server/fleet/state_ext.go:96-101 | a concrete run in which a validated envelope that advances its cursor is not accepted |
| `Ingest.ClaimWritesOut` | server/fleet/vehicle_registry.go:253-289 | when a claim is invalid, accepted or a duplicate, and what it writes |
| `Ingest.PurgeWritesOut` | server/fleet/state_ext.go:96-101 | ledger rows live 15 minutes, cursors 24 hours, and nothing else is deleted |
| `Telemetry.FleetState.ApplySignalUpdate` | server/fleet/state.go:301-430 | the signal loop computes the update, histories trimmed to 150 rounded samples as it goes |
| `Telemetry.FleetState.ApplyTelemetryDurably` | server/fleet/state.go:515-628 | cursor, row and memory move together or not at all |
| `Telemetry.FleetState.OnlineSweep` | server/fleet/state.go:685-705 | exactly the vehicles silent for more than six seconds go offline and are reported |
| `Telemetry.UpdateExtendsView` | server/fleet/state.go:301-430 | an update turns the view of the past signals into the view of past and new signals |
| `Telemetry.HistoryExtends` | server/fleet/state.go:301-430 | trimming after every sample equals trimming the whole history once |
| `Telemetry.MemoryIsViewOfAccepted` | server/fleet/state.go:515-570 | after any run, retention included, the vehicle in memory is the view of exactly the accepted signals, and the stored row its projection |
| `Telemetry.PresenceFollowsDeliveries` | server/fleet/state.go:685-694 | last seen is the last accepted delivery; online exactly until a sweep more than six seconds later |
| `Telemetry.UnheardIsBlank` | server/fleet/state.go:284-299 | a vehicle never heard from is offline and blank |
| `Telemetry.RefusedDeliveriesLeaveNoTrace` | server/fleet/state.go:545-561 | dropping every non-accepted delivery from a run changes nothing at all |
| `Telemetry.TakesEffectIff` | server/fleet/state.go:515-561 | when a delivery is accepted and that the gate then moves with it |
| `Telemetry.StoredRowShowsLastSignals` | server/fleet/state.go:588-606 | after any run the stored row shows, field by field, the last value the accepted signals reported |
| `Telemetry.HistoriesAreLast150` | server/fleet/state.go:301-430 | after any run exactly four fields have a history, and it is the last 150 samples of the whole one |
| `Telemetry.Round2IsNearest` | server/fleet/state.go:929 | the nearest hundredth, halves away from zero |
| `Telemetry.GearShortTable` | server/fleet/state.go:948-960 | the four gear names and everything else unchanged |
| `Navigation.NavStore.SubmitRoute` | server/fleet/nav.go:78-136 | on its own: the row is committed, then cached, or nothing changes |
| `Navigation.NavStore.CancelPending` | server/fleet/nav.go:138-191 | on its own: a route cached as pending becomes cancel_requested in both; with table and cache agreeing no route moves back |
| `Navigation.NavStore.MarkRouteDispatched` | server/fleet/nav.go:205-242 | on its own: only a queued route becomes dispatched, in the table and then in the cache |
| `Navigation.NavStore.HandleNavigationAck` | server/fleet/nav_ack.go:82-160 | on its own: route, cursor and ledger move together exactly when the acknowledgement takes effect, the cache after them |
| `Navigation.TransitionIffForwardOrRepeat` | server/fleet/nav_ack.go:17-76 | an acknowledgement is taken exactly when the status it reports repeats the current one or moves it forward |
| `Navigation.CommitProgressesIff` | server/fleet/nav.go:261-283 | a transaction moves no route backwards exactly when it neither resubmits an id that left the queue nor cancels a finished route |
| `Navigation.CollidingIdResetsARoute` | server/fleet/nav.go:95-101 | a run in which a second submission with the same id sends a dispatched route back to the queue |
| `Navigation.LateCancelReopensARoute` | server/fleet/nav.go:138-181 | a run in which a cancellation checked before a completion commits after it |
| `Navigation.FlushSettlesIff` | server/fleet/nav.go:128-130 | performing a due cache write out of turn is harmless exactly when it overtakes neither the insertion nor an acknowledgement with another status that would hide it |
| `Navigation.CacheSettlesIff` | server/fleet/nav.go:128-242 | over any interleaving of commits and cache writes a route's cache stays on course if and only if no write of it overtakes another in that sense |
| `Navigation.OvertakenSubmitStaysQueued` | server/fleet/nav.go:116-130 | a run in which the broker's acceptance overtakes the insertion and the cache shows queued for good |
| `Navigation.RoutesOnlyProgress` | server/fleet/nav_ack.go:17-76 | over any interleaving without such a transaction no status moves down its rank and finished routes stay finished |
| `Navigation.CancelWasRequested` | server/fleet/nav.go:138-191 | a route is cancel_requested only after an operator was shown it pending and a cancellation of what was shown was committed |
| `Navigation.CancelledOnlyByVehicle` | server/fleet/nav_ack.go:57-72 | cancelled is reached only by a CANCEL/CANCELLED acknowledgement that took effect on a requested cancellation, after a look that showed the route pending and a committed request |
| `Navigation.RefusedAcksLeaveNoTrace` | server/fleet/nav_ack.go:97-140 | dropping every refused, duplicate or uncommitted acknowledgement from a run changes nothing at all |
| `Navigation.SubmitWritesOut` | server/fleet/nav.go:78-130 | when a submission commits, the row it leaves and the cache write it owes |
| `Navigation.CancelWritesOut` | server/fleet/nav.go:157-181 | the row a cancellation leaves, on the row's own vehicle, and the cache write it owes |
| `Navigation.DispatchWritesOut` | server/fleet/nav.go:211-231 | the broker's acceptance moves a queued route and nothing else |
| `Navigation.AckWritesOut` | server/fleet/nav_ack.go:82-160 | an acknowledgement takes effect exactly when it is complete, from the route's own vehicle, in order and may follow; it then sets the reported status and the gate |
| `Navigation.WriteWritesOut` | server/fleet/nav_ack.go:141-155 | a cache write inserts its route or changes one status |
| `MapPublication.MapStore.RequestMapPublication` | server/fleet/map_publication.go:180-223 | a requested record naming what the earlier query returned is added, or nothing changes |
| `MapPublication.MapStore.ApproveMapPublication` | server/fleet/map_publication.go:225-318 | a requested record becomes approved and its command queued, or nothing changes |
| `MapPublication.MapStore.RollbackMapPublication` | server/fleet/map_publication.go:320-365 | a rollback record to the previous publication of a source read as active is added, or nothing changes |
| `MapPublication.MapStore.MarkMapPublicationDispatched` | server/fleet/map_publication.go:394-400 | only an approved record becomes dispatched |
| `MapPublication.MapStore.HandleMapPublicationAck` | server/fleet/map_publication.go:402-489 | the sequence of table updates has, row by row, the effect of the acknowledgement |
| `MapPublication.RollbackUpdates` | server/fleet/map_publication.go:447-463 | supersede, roll back and restore in that order give the row-by-row rollback effect |
| `MapPublication.OneMapInForce` | server/fleet/map_publication.go:394-489 | over all runs, acknowledgements repeated and out of order, at most one active record per vehicle, always an apply record |
| `MapPublication.EarlierReadsArePossible` | server/fleet/map_publication.go:201-215 | requests and rollbacks whose reads were true at any earlier point of the run are among the runs considered |
| `MapPublication.AppliedIsInForce` | server/fleet/map_publication.go:465-478 | an APPLIED apply record is the one active record of its vehicle |
| `MapPublication.RollbackLeavesOnlyTarget` | server/fleet/map_publication.go:447-463 | after a rollback APPLIED nothing but its target is active, and the target is exactly when it was restorable |
| `MapPublication.RepeatedAckChangesNothing` | server/fleet/mqtt.go:328-334 | handling an acknowledgement twice is handling it once |
| `MapPublication.AckKeepsApprovalIff` | server/fleet/map_publication.go:430-431 | an acknowledgement keeps "left the queue implies approved" exactly when its record was approved |
| `MapPublication.InForceWasApproved` | server/fleet/map_publication.go:225-318 | if the vehicle acknowledges only queued commands, whatever left the queue was approved |
| `MapPublication.UnsolicitedAcksBypassApproval` | server/fleet/map_publication.go:430-431 | a concrete run in which two unsolicited acknowledgements put an unapproved request in force |
| `MapPublication.AckIsTakenIff` | server/fleet/map_publication.go:402-446 | when an acknowledgement is taken; refused, it changes nothing |
| `MapPublication.AcceptedIsConfirmed` | server/fleet/map_publication.go:430-431 | ACCEPTED confirms its record and touches no other |
| `MapPublication.RejectedIsRejected` | server/fleet/map_publication.go:442-444 | REJECTED and FAILED reject their record, touch no other, and a following APPLIED is refused |
| `MapPublication.AppliedWritesOut` | server/fleet/map_publication.go:465-478 | every row after an APPLIED of an apply record |
| `MapPublication.RollbackWritesOut` | server/fleet/map_publication.go:447-463 | every row after an APPLIED of a rollback |
| `MapPublication.InForceWasApplied` | server/fleet/map_publication.go:432-441 | whatever is in force after any run was put there by a taken APPLIED of its record or of a rollback to it |
| `MapPublication.RequestWritesOut` | server/fleet/map_publication.go:184-215 | when a request is recorded and as what |
| `MapPublication.ApproveWritesOut` | server/fleet/map_publication.go:234-310 | only a requested record is approved; approver recorded, command queued |
| `MapPublication.RollbackRequestWritesOut` | server/fleet/map_publication.go:320-365 | a rollback asks for the map of the record its source replaced, and names both |
| `MapPublication.DispatchWritesOut` | server/fleet/map_publication.go:394-400 | only an approved record becomes dispatched |
| `Outbox.OutboxWorker.InsertOutbox` | server/fleet/outbox.go:95-102 | a row is added unless its id or dedupe key exists |
| `Outbox.OutboxWorker.ClaimOutbox` | server/fleet/outbox.go:146-190 | stale claims are reclaimed, then exactly the batch is claimed with one more attempt each |
| `Outbox.OutboxWorker.MarkOutbox` | server/fleet/outbox.go:192-220 | delivered, dead from the twentieth attempt on, or pending with the capped quadratic back-off |
| `Outbox.OutboxWorker.DrainOutbox` | server/fleet/outbox.go:126-144 | the loop is one send per claimed item, in order, each recorded or not |
| `Outbox.RetriesAreBounded` | server/fleet/outbox.go:126-220 | with one worker and arbitrary crashes a row is published at most 20 times plus once per claim of it that was lost |
| `Outbox.DeadOnlyAfterTwentyAttempts` | server/fleet/outbox.go:207-210 | no row dies before its twentieth attempt or ends without having been published |
| `Outbox.RowsAreConserved` | server/fleet/outbox.go:95-220 | no row disappears, attempts never decrease, delivered and dead rows never change |
| `Outbox.FinalWasRecorded` | server/fleet/outbox.go:192-217 | over all runs a row is delivered only by a recorded successful send of it, and dead only by a recorded failure from the twentieth attempt on |
| `Outbox.SendWritesOut` | server/fleet/outbox.go:192-217 | what a send does to every row: delivered, pending after the square of its attempts in seconds up to a minute, dead from twenty, or lost |
| `Outbox.ClaimWritesOut` | server/fleet/outbox.go:155-188 | what a claim does to every row: claimed for 30 s, freed after 30 s more, or left alone |
| `Outbox.ClaimPicks` | server/fleet/outbox.go:161-188 | the batch is the picked rows with one more attempt each; a due row waits only for 32 older ones |
| `Outbox.EnqueueWritesOut` | server/fleet/outbox.go:95-102 | a row enters pending and due at once |
| `OpenApi.OpenAPI.Authenticate` | server/fleet/openapi.go:938-1028 | verdict and stores after a request, in the source's order of checks, with the configuration values it reads |
| `OpenApi.OpenAPI.StoreNonce` | server/fleet/openapi.go:987-993 | the nonce is stored and exactly the expired ones are deleted |
| `OpenApi.OpenAPI.Compact` | server/fleet/openapi.go:1009-1016 | the in-place loop leaves the kept hits in front and the old tail behind them |
| `OpenApi.OpenAPI.TakeHit` | server/fleet/openapi.go:1005-1021 | admitted exactly under the limit; the key's hits are compacted or extended, all other keys' untouched |
| `OpenApi.WindowIsExact` | server/fleet/openapi.go:963-966 | the 64-bit subtraction lets no timestamp outside the window in |
| `OpenApi.NoReplayWhenWindowsAreShort` | server/fleet/openapi.go:982-993 | while twice the largest window plus stall is under 600 s and every downtime longer than twice the window, no timestamp and nonce pass the gate twice in any run, restarts included |
| `OpenApi.ReplayWhenWindowsAreLong` | server/fleet/openapi.go:982-993 | for every longer window a run in which one token passes twice |
| `OpenApi.ReplayWhenDowntimesAreShort` | server/fleet/openapi.go:186-190 | for every shorter downtime a run in which a restart lets one token pass twice |
| `OpenApi.NoReplayIff` | server/fleet/openapi.go:963-993 | the protection holds in all runs if and only if twice the window plus stall is under 600 s and downtimes exceed twice the window |
| `OpenApi.NoReplayWhileUpIff` | server/fleet/openapi.go:963-993 | without restarts twice the window plus stall under 600 s is the exact condition |
| `OpenApi.PassesIff` | server/fleet/openapi.go:944-1003 | at every point of every run a request passes if and only if it is complete, in time, with a live key from an allowed address, not locked out, its nonce unused for 600 s, and truly signed |
| `OpenApi.GateVerdict` | server/fleet/openapi.go:944-1003 | the answers of the gate in the order of its checks |
| `OpenApi.PassesAreGenuine` | server/fleet/openapi.go:994-1003 | whatever passes in any run was truly signed with a live key from an allowed address |
| `OpenApi.StoreRemembers` | server/fleet/openapi.go:982-993 | the store knows exactly the nonces used in the last 600 s of this life of the service |
| `OpenApi.RejectionKeepsHitsIff` | server/fleet/openapi.go:1017-1020 | a rejection leaves the stored hits alone exactly when no entry outside the window stands before one inside it |
| `OpenApi.FixedLimitNeverCorrupts` | server/fleet/openapi.go:1017-1021 | a list no longer than the limit, in whatever order, never outgrows it and no rejection changes it |
| `OpenApi.LoweredLimitDuplicatesAHit` | server/fleet/openapi.go:1011-1020 | a run of three admissions and a rejection under a lower limit that stores one hit twice |
| `OpenApi.TableRetains` | server/fleet/openapi.go:1009-1021 | whatever the order of stamps and the limits, the stored hits after the latest window start are no fewer than the admissions |
| `OpenApi.RateIsBounded` | server/fleet/openapi.go:1005-1021 | in every run with limits of at most `limit` and stamps overtaken by at most `lag`, every window of ten seconds less the lag holds at most `limit` admissions of each key |
| `OpenApi.OvertakingBreaksLongerWindows` | server/fleet/openapi.go:1007-1008 | for every longer window a run that puts one admission too many into it |
| `OpenApi.RateIsBoundedIff` | server/fleet/openapi.go:1005-1021 | for limits of two and more the bound holds in all runs if and only if window and lag together are at most ten seconds |
| `OpenApi.LimitOneNeedsNoOrder` | server/fleet/openapi.go:1005-1021 | with a limit of one the full ten seconds hold whatever the order of stamps |
| `Framing.ComponentReader.Receive` | vehicle/gateway/gateway.py:303-321 | one receive extends the buffer and takes out every complete frame, and stops reading at a bad length or a refused frame |
| `Framing.UnpackPack` | vehicle/gateway/gateway.py:217 | the big-endian length survives the round trip |
| `Framing.LengthIsBigEndian` | vehicle/gateway/gateway.py:217 | the length is written and read most significant byte first |
| `Framing.FrameLimits` | vehicle/gateway/gateway.py:313-321 | frames of 1 byte to 1 MiB, and exactly which bytes hold a frame or a bad length |
| `Framing.ExtractAccountsForEveryByte` | vehicle/gateway/gateway.py:313-321 | any received bytes are the encodings of the payloads handed over followed by the retained bytes |
| `Framing.OpenReaderHoldsNoFrame` | vehicle/gateway/gateway.py:313-321 | an open reader retains no complete frame and no bad header, and refused nothing |
| `Framing.ExtractInvertsEncode` | vehicle/gateway/gateway.py:210-217 | extraction returns exactly the encoded payloads and the tail |
| `Framing.ChunkingIsInvisible` | vehicle/gateway/gateway.py:303-321 | for any bytes, the cut into receives changes neither payloads nor the retained bytes nor where reading stops |
| `Framing.FramesSurviveChunking` | vehicle/gateway/gateway.py:303-321 | whatever prefix of a valid stream arrived in whatever chunks, exactly the complete payloads were handed over in order and a proper prefix of the next frame is held |
| `Framing.MarshalLocalFrame` | vehicle/safety-arbiter/main.go:88-103 | the buffer filled in place is the length-prefixed payload, within the size limit |
| `Framing.Stream.ReadFull` | vehicle/safety-arbiter/main.go:107-116 | exactly n bytes, or an error with everything consumed |
| `Framing.Stream.ReadLocalFrame` | vehicle/safety-arbiter/main.go:105-126 | frame, short read or bad length, and what is left unread |
| `Framing.ReadInvertsMarshal` | vehicle/safety-arbiter/main.go:88-126 | reading undoes marshalling exactly when the payload fits the reader's limit, leaving what follows |
| `Framing.CutFrameIsNotRead` | vehicle/safety-arbiter/main.go:105-116 | a cut-off frame is never read as a shorter one |

## Left out

- Cryptography and protobuf encoding: a signature is membership in the outbox, MACs, tags and parse failures are fields of the message.
- SQL, MQTT, QUIC, UDP and Unix-socket plumbing, HTTP handlers other than take, keepalive and give back, sessions, organisations, metrics, web dashboard: input and output or single checks.
- Trimming of strings, human-readable details, `AppliedSpeed`, and columns no rule reads.
- Floating point: finite values are reals (`Round2` rounds them exactly); NaN and the infinities are kept apart where the kernel checks for them.
- Several clock readings inside one call are one reading, except where a model carries two (`dbNow` and `now`, `checkedAt` and `now`, `arrived`, `now` and `stamp`).
- Navigation: the database is taken to be configured; a route pointer held across a collision of ids is its id.
- Map publication: capability and compatibility checks are one boolean, and the contents of the command sent to the vehicle are not modelled.
- Outbox.RetriesAreBounded: one worker at a time; with several, a batch that outlasts the reclaim delay could be published twice. Publish-time callbacks are MarkDispatched steps of the navigation and map models.
- Telemetry: the sample table, capability registration, mode-change events and reloading memory after a restart.
- Handlers.Serve: each handler is one step at one instant; interleaved handlers and a second service instance are not claimed, nor the listing of all takeovers.
- OpenApi.RateIsBounded: one life of the service; a restart forgets the hits.
- OpenApi.OpenAPI.Authenticate: the lockout table is the input `locked`; failure counting, key storage, IP lists, scopes and audit are not modelled. Key last-use stamps.
- Audit pagination: its cursor predicate is assembled as unbalanced SQL text, so there is no predicate to state.
- Framing: what the gateway does with a payload, beyond whether it goes on reading; acknowledgement return routes and their expiry.
- Agreement between the vehicle's navigation adapter and the cloud: the adapter reports CANCELLED under the dispatch action, which the cloud refuses.
- Liveness of takeover: a latched vehicle refuses the lease that is still active in the cloud, by design.
- Map conversion and import, file-system effects of map versions, user quotas, session revocation.
