/**
 The control-lease protocol: the authority, a downlink that loses, delays, duplicates and reorders,
 and one vehicle's safety kernel. Anything the authority ever signed may arrive at any time, any number
 of times, inside any envelope; commands are arbitrary.
 */
module LeaseProtocol {
  import opened Prelude
  import opened Envelopes
  import opened Arbiter
  import opened Authority
  import opened AuthorityRuns
  import Kernel = ArbiterRuns

  /** `skew` bounds how far the vehicle's clock may be from the cloud's. */
  datatype World = World(policy: Policy, cfg: Config, skew: int)

  datatype Sys = Sys(cloud: Tables, vehicle: State, clock: int)

  /** `now` is the time of the step, `local` what the vehicle's clock shows then. */
  datatype Input =
    | Cloud(op: Op, dbNow: int, now: int)
    | DeliverLease(env: Envelope<LeaseGrant>, checkedAt: int, now: int, local: int, risk: Outcome)
    | DeliverCommand(cmd: Envelope<ControlCommand>, checkedAt: int, now: int, local: int, motion: Outcome,
                     risk: Outcome)
    | Watchdog(now: int, local: int, risk: Outcome)

  /** Ed25519 verification accepts exactly what the authority signed. */
  function ToKernel(cloud: Tables, i: Input): Kernel.Input
    requires !i.Cloud?
  {
    match i
    case DeliverLease(env, checkedAt, _, local, risk) =>
      Kernel.LeaseIn(env, env.payload.Some? && env.payload.value in cloud.outbox, checkedAt, local, risk)
    case DeliverCommand(cmd, checkedAt, _, local, motion, risk) => Kernel.CommandIn(cmd, checkedAt, local, motion, risk)
    case Watchdog(_, local, risk) => Kernel.TickIn(local, risk)
  }

  function Step(w: World, s: Sys, i: Input): Sys {
    if i.Cloud? then Sys(Apply(w.policy, s.cloud, i.op, i.dbNow, i.now).0, s.vehicle, i.now)
    else Sys(s.cloud, Kernel.Step(w.cfg, s.vehicle, ToKernel(s.cloud, i)), i.now)
  }

  function Exec(w: World, inputs: seq<Input>, start: int): Sys {
    if inputs == [] then Sys(EMPTY, INITIAL, start)
    else Step(w, Exec(w, inputs[..|inputs| - 1], start), inputs[|inputs| - 1])
  }

  predicate Timed(w: World, clock: int, i: Input) {
    && clock <= i.now
    && (if i.Cloud? then i.dbNow <= i.now + w.policy.dbAhead else i.now - w.skew <= i.local <= i.now + w.skew)
  }

  /** A run: time never goes back and the vehicle's clock stays within the skew. */
  predicate Run(w: World, inputs: seq<Input>, start: int) {
    if inputs == [] then ValidPolicy(w.policy)
    else
      var init := inputs[..|inputs| - 1];
      Run(w, init, start) && Timed(w, Exec(w, init, start).clock, inputs[|inputs| - 1])
  }

  // ---------- the joint invariant ----------

  predicate IsLeaseOf(w: World, t: Tables, leaseId: string, fencing: int) {
    && leaseId in t.leases
    && t.leases[leaseId].vehicleId == w.cfg.vehicleId
    && t.leases[leaseId].fencing == fencing
  }

  /** `e` refreshed the lease before a motion at vehicle time `at`, and less than a TTL before it. */
  predicate Covers(w: World, e: SecurityEvent, leaseId: string, at: int) {
    && (e.LeaseIssued? || e.LeaseRenewed?) && e.leaseId == leaseId
    && e.at - w.skew <= at < e.at + w.policy.leaseTTL
  }

  predicate Covered(w: World, events: seq<SecurityEvent>, leaseId: string, at: int) {
    exists e :: e in events && Covers(w, e, leaseId, at)
  }

  predicate EntryInv(w: World, t: Tables, e: Entry) {
    match e
    case Armed(leaseId, fence, _) => IsLeaseOf(w, t, leaseId, fence)
    case MotionCall(leaseId, _, fencing, _, _, _, _, at, _) =>
      && IsLeaseOf(w, t, leaseId, fencing)
      && at < t.leases[leaseId].validUntil
      && Covered(w, t.events, leaseId, at)
    case RiskCall(_, _, _) => true
  }

  predicate HeldInv(w: World, t: Tables, l: ActiveLease) {
    && IsLeaseOf(w, t, l.leaseId, l.fencing)
    && l.validUntil <= t.leases[l.leaseId].validUntil
    && Refreshed(t.events, l.leaseId, l.validUntil - w.policy.leaseTTL)
  }

  predicate VehicleInv(w: World, t: Tables, v: State) {
    && Kernel.KernelInv(w.cfg, v)
    && v.lastFencing <= EpochOf(t.epochs, w.cfg.vehicleId).fencing
    && (v.lease.Some? ==> HeldInv(w, t, v.lease.value))
    && forall k :: 0 <= k < |v.log| ==> EntryInv(w, t, v.log[k])
  }

  predicate SysInv(w: World, s: Sys) {
    AuthorityInv(w.policy, s.cloud, s.clock) && VehicleInv(w, s.cloud, s.vehicle)
  }

  // ---------- preservation ----------

  lemma EntryKept(w: World, t: Tables, u: Tables, e: Entry)
    requires Grows(t, u) && EntryInv(w, t, e)
    ensures EntryInv(w, u, e)
  {
    EvidenceStays(t.events, u.events);
  }

  lemma CloudKeepsVehicle(w: World, t: Tables, u: Tables, v: State)
    requires Grows(t, u) && EpochsInv(u) && VehicleInv(w, t, v)
    ensures VehicleInv(w, u, v)
  {
    EvidenceStays(t.events, u.events);
    forall k | 0 <= k < |v.log| ensures EntryInv(w, u, v.log[k]) {
      EntryKept(w, t, u, v.log[k]);
    }
  }

  lemma LeaseKeepsVehicle(w: World, t: Tables, v: State, i: Input)
    requires i.DeliverLease? && VehicleInv(w, t, v) && OutboxInv(w.policy, t) && EpochsInv(t)
    ensures VehicleInv(w, t, Kernel.Step(w.cfg, v, ToKernel(t, i)))
  {
    Kernel.StepKeepsInv(w.cfg, v, ToKernel(t, i));
    if i.env.payload.Some? && i.env.payload.value in t.outbox {
      assert MessageInv(w.policy, t, i.env.payload.value);
    }
  }

  lemma MotionIsCovered(w: World, t: Tables, clock: int, l: ActiveLease, now: int, local: int)
    requires EventsInv(t, clock) && HeldInv(w, t, l)
    requires clock <= now <= local + w.skew && local < l.validUntil
    ensures Covered(w, t.events, l.leaseId, local)
  {
    var e :| e in t.events && Refreshes(e, l.leaseId, l.validUntil - w.policy.leaseTTL);
    var n :| 0 <= n < |t.events| && t.events[n] == e;
    assert EventInv(t, clock, t.events[n]);
    assert Covers(w, e, l.leaseId, local);
  }

  /** A command moves under the held lease only, before its end, and leaves that lease's terms alone. */
  lemma CommandActsUnderLease(cfg: Config, v: State, i: Kernel.Input)
    requires i.CommandIn?
    ensures var u := Kernel.Step(cfg, v, i);
      && v.log <= u.log && u.lastFencing == v.lastFencing
      && (u.lease.Some? ==> v.lease.Some? && u.lease.value.leaseId == v.lease.value.leaseId
                            && u.lease.value.fencing == v.lease.value.fencing
                            && u.lease.value.validUntil == v.lease.value.validUntil)
      && (forall k :: |v.log| <= k < |u.log| ==> ActsUnder(v.lease, u.log[k], i.now))
  {
  }

  predicate ActsUnder(lease: Option<ActiveLease>, e: Entry, now: int) {
    !e.Armed? &&
    (e.MotionCall? ==> lease.Some? && e.leaseId == lease.value.leaseId && ToInt64(e.fencing) == lease.value.fencing
                       && e.at == now < lease.value.validUntil)
  }

  lemma MotionEntryIsCovered(w: World, t: Tables, clock: int, v: State, e: Entry, i: Input)
    requires i.DeliverCommand? && EventsInv(t, clock) && EpochsInv(t) && Timed(w, clock, i) && VehicleInv(w, t, v)
    requires ActsUnder(v.lease, e, i.local) && (e.MotionCall? ==> e.fencing < INT64_LIMIT)
    ensures EntryInv(w, t, e)
  {
    if e.MotionCall? {
      MotionIsCovered(w, t, clock, v.lease.value, i.now, i.local);
    }
  }

  lemma CommandKeepsVehicle(w: World, t: Tables, clock: int, v: State, i: Input)
    requires i.DeliverCommand? && VehicleInv(w, t, v) && EventsInv(t, clock) && EpochsInv(t) && Timed(w, clock, i)
    ensures VehicleInv(w, t, Kernel.Step(w.cfg, v, ToKernel(t, i)))
  {
    var u := Kernel.Step(w.cfg, v, ToKernel(t, i));
    Kernel.StepKeepsInv(w.cfg, v, ToKernel(t, i));
    CommandActsUnderLease(w.cfg, v, ToKernel(t, i));
    forall k | 0 <= k < |u.log| ensures EntryInv(w, t, u.log[k]) {
      if k < |v.log| {
        assert u.log[k] == v.log[k];
      } else {
        assert Kernel.Sound(w.cfg, u.log[k]);
        MotionEntryIsCovered(w, t, clock, v, u.log[k], i);
      }
    }
  }

  lemma WatchdogKeepsVehicle(w: World, t: Tables, v: State, i: Input)
    requires i.Watchdog? && VehicleInv(w, t, v)
    ensures VehicleInv(w, t, Kernel.Step(w.cfg, v, ToKernel(t, i)))
  {
    Kernel.StepKeepsInv(w.cfg, v, ToKernel(t, i));
  }

  lemma StepKeepsInv(w: World, s: Sys, i: Input)
    requires SysInv(w, s) && Timed(w, s.clock, i)
    ensures SysInv(w, Step(w, s, i))
  {
    match i
    case Cloud(op, dbNow, now) =>
      ApplyKeepsInv(w.policy, s.cloud, s.clock, op, dbNow, now);
      ApplyGrows(w.policy, s.cloud, s.clock, op, dbNow, now);
      CloudKeepsVehicle(w, s.cloud, Apply(w.policy, s.cloud, op, dbNow, now).0, s.vehicle);
    case DeliverLease(_, _, now, _, _) =>
      LeaseKeepsVehicle(w, s.cloud, s.vehicle, i);
      RefusalKeepsInv(w.policy, s.cloud, s.clock, now);
    case DeliverCommand(_, _, now, _, _, _) =>
      CommandKeepsVehicle(w, s.cloud, s.clock, s.vehicle, i);
      RefusalKeepsInv(w.policy, s.cloud, s.clock, now);
    case Watchdog(now, _, _) =>
      WatchdogKeepsVehicle(w, s.cloud, s.vehicle, i);
      RefusalKeepsInv(w.policy, s.cloud, s.clock, now);
  }

  lemma {:induction false} RunKeepsSysInv(w: World, inputs: seq<Input>, start: int)
    requires Run(w, inputs, start)
    ensures SysInv(w, Exec(w, inputs, start))
  {
    if inputs != [] {
      RunKeepsSysInv(w, inputs[..|inputs| - 1], start);
      StepKeepsInv(w, Exec(w, inputs[..|inputs| - 1], start), inputs[|inputs| - 1]);
    }
  }

  // ---------- the vehicle's share of a run ----------

  /** The inputs a run feeds to the kernel, in order. */
  function KernelInputs(w: World, inputs: seq<Input>, start: int): seq<Kernel.Input> {
    if inputs == [] then []
    else
      var init, last := inputs[..|inputs| - 1], inputs[|inputs| - 1];
      KernelInputs(w, init, start) + if last.Cloud? then [] else [ToKernel(Exec(w, init, start).cloud, last)]
  }

  /** Every guarantee of the kernel alone holds inside the protocol: the vehicle runs the kernel. */
  lemma {:induction false} VehicleRunsKernel(w: World, inputs: seq<Input>, start: int)
    ensures Exec(w, inputs, start).vehicle == Kernel.Exec(w.cfg, KernelInputs(w, inputs, start))
  {
    if inputs != [] {
      var init, last := inputs[..|inputs| - 1], inputs[|inputs| - 1];
      VehicleRunsKernel(w, init, start);
      var before := KernelInputs(w, init, start);
      var all := KernelInputs(w, inputs, start);
      if last.Cloud? {
        assert all == before;
      } else {
        assert all[..|all| - 1] == before;
      }
    }
  }

  lemma {:induction false} PrefixOfRun(w: World, inputs: seq<Input>, start: int, n: nat)
    requires n <= |inputs|
    ensures KernelInputs(w, inputs[..n], start) <= KernelInputs(w, inputs, start)
    ensures Run(w, inputs, start) ==> Run(w, inputs[..n], start)
    ensures Run(w, inputs, start) ==> Grows(Exec(w, inputs[..n], start).cloud, Exec(w, inputs, start).cloud)
    decreases |inputs|
  {
    if n == |inputs| {
      assert inputs[..n] == inputs;
    } else {
      var init := inputs[..|inputs| - 1];
      assert init[..n] == inputs[..n];
      PrefixOfRun(w, init, start, n);
      if Run(w, inputs, start) {
        RunKeepsSysInv(w, init, start);
        LastStepGrows(w, inputs, start);
        GrowthComposes(Exec(w, inputs[..n], start).cloud, Exec(w, init, start).cloud, Exec(w, inputs, start).cloud);
      }
    }
  }

  lemma LastStepGrows(w: World, inputs: seq<Input>, start: int)
    requires inputs != [] && Run(w, inputs, start)
    requires SysInv(w, Exec(w, inputs[..|inputs| - 1], start))
    ensures Grows(Exec(w, inputs[..|inputs| - 1], start).cloud, Exec(w, inputs, start).cloud)
  {
    var s, i := Exec(w, inputs[..|inputs| - 1], start), inputs[|inputs| - 1];
    if i.Cloud? {
      ApplyGrows(w.policy, s.cloud, s.clock, i.op, i.dbNow, i.now);
    }
  }

  lemma GrowthComposes(t: Tables, u: Tables, v: Tables)
    requires Grows(t, u) && Grows(u, v)
    ensures Grows(t, v)
  {
  }

  // ---------- fencing ----------

  /**
   Over every run the vehicle never runs ahead of the authority, and whatever lease it holds or
   ever armed was issued by the authority under exactly that id and fencing.
   */
  lemma VehicleNeverOutrunsAuthority(w: World, inputs: seq<Input>, start: int)
    requires Run(w, inputs, start)
    ensures var s := Exec(w, inputs, start);
      && s.vehicle.lastFencing <= EpochOf(s.cloud.epochs, w.cfg.vehicleId).fencing
      && (s.vehicle.lease.Some? ==>
            var l := s.vehicle.lease.value;
            l.fencing == s.vehicle.lastFencing && WasIssued(w, s.cloud.events, l.leaseId, l.fencing))
      && (forall k :: 0 <= k < |s.vehicle.log| && !s.vehicle.log[k].RiskCall? ==>
            WasIssued(w, s.cloud.events, s.vehicle.log[k].leaseId, Kernel.FenceOf(s.vehicle.log[k])))
  {
    RunKeepsSysInv(w, inputs, start);
    var s := Exec(w, inputs, start);
    if s.vehicle.lease.Some? {
      var j := LeaseWasIssued(w, s, s.vehicle.lease.value.leaseId, s.vehicle.lease.value.fencing);
    }
    forall k | 0 <= k < |s.vehicle.log| && !s.vehicle.log[k].RiskCall?
      ensures WasIssued(w, s.cloud.events, s.vehicle.log[k].leaseId, Kernel.FenceOf(s.vehicle.log[k]))
    {
      assert EntryInv(w, s.cloud, s.vehicle.log[k]);
      var j := LeaseWasIssued(w, s, s.vehicle.log[k].leaseId, Kernel.FenceOf(s.vehicle.log[k]));
    }
  }

  predicate IssuedAt(w: World, e: SecurityEvent, leaseId: string, fencing: int) {
    e.LeaseIssued? && e.vehicleId == w.cfg.vehicleId && e.leaseId == leaseId && e.fencing == fencing
  }

  predicate WasIssued(w: World, events: seq<SecurityEvent>, leaseId: string, fencing: int) {
    exists j :: 0 <= j < |events| && IssuedAt(w, events[j], leaseId, fencing)
  }

  lemma LeaseWasIssued(w: World, s: Sys, leaseId: string, fencing: int) returns (j: nat)
    requires AuthorityInv(w.policy, s.cloud, s.clock) && IsLeaseOf(w, s.cloud, leaseId, fencing)
    ensures j < |s.cloud.events| && IssuedAt(w, s.cloud.events[j], leaseId, fencing)
  {
    assert RowInv(w.policy, s.cloud, s.clock, leaseId);
    var r := s.cloud.leases[leaseId];
    j :| 0 <= j < |s.cloud.events| && s.cloud.events[j] == LeaseIssued(r.vehicleId, leaseId, r.fencing, r.issuedAt);
  }

  /** A lease event with a fencing above that of the event at `i` comes after it. */
  lemma HigherFencingIsLater(events: seq<SecurityEvent>, i: nat, j: nat)
    requires Rising(events) && i < |events| && j < |events|
    requires Fenced(events[i]) && Fenced(events[j]) && events[i].vehicleId == events[j].vehicleId
    requires events[i].fencing < events[j].fencing
    ensures i < j
  {
    assert events[j].fencing > events[i].fencing;
  }

  /**
   Once the vehicle has processed an emergency stop (or anything after it), every lease it arms and
   every motion it attempts from then on belongs to a lease the authority issued after that stop:
   no grant issued before the stop can re-arm it.
   */
  lemma StopIsFinal(w: World, inputs: seq<Input>, start: int, n: nat, i: nat, k: nat)
    requires Run(w, inputs, start) && n <= |inputs|
    requires var s := Exec(w, inputs[..n], start);
      && i < |s.cloud.events| && s.cloud.events[i].EmergencyStopped? && s.cloud.events[i].vehicleId == w.cfg.vehicleId
      && s.cloud.events[i].fencing <= s.vehicle.lastFencing
      && |s.vehicle.log| <= k < |Exec(w, inputs, start).vehicle.log|
      && !Exec(w, inputs, start).vehicle.log[k].RiskCall?
    ensures var t := Exec(w, inputs, start);
      exists j :: i < j < |t.cloud.events|
                  && IssuedAt(w, t.cloud.events[j], t.vehicle.log[k].leaseId, Kernel.FenceOf(t.vehicle.log[k]))
  {
    var s, t := Exec(w, inputs[..n], start), Exec(w, inputs, start);
    PrefixOfRun(w, inputs, start, n);
    var before, all := KernelInputs(w, inputs[..n], start), KernelInputs(w, inputs, start);
    VehicleRunsKernel(w, inputs[..n], start);
    VehicleRunsKernel(w, inputs, start);
    Kernel.ProcessedFencingIsAFloor(w.cfg, all, |before|);
    assert all[..|before|] == before;
    RunKeepsSysInv(w, inputs, start);
    assert EntryInv(w, t.cloud, t.vehicle.log[k]);
    var j := LeaseWasIssued(w, t, t.vehicle.log[k].leaseId, Kernel.FenceOf(t.vehicle.log[k]));
    assert t.cloud.events[i] == s.cloud.events[i];
    if t.cloud.events[j].fencing == t.cloud.events[i].fencing {
      FencingNamesOneEvent(t.cloud.events, t.cloud.events[i], t.cloud.events[j]);
    }
    HigherFencingIsLater(t.cloud.events, i, j);
  }

  /** A revocation that arrives late, or again, leaves a lease issued after it untouched. */
  lemma LateRevokeIsHarmless(w: World, inputs: seq<Input>, start: int, i: nat, j: nat, late: Input)
    requires Run(w, inputs, start) && late.DeliverLease? && late.env.payload.Some?
    requires var s := Exec(w, inputs, start); var m := late.env.payload.value;
      && m.action == Revoke && s.vehicle.lease.Some?
      && i < j < |s.cloud.events|
      && Ends(s.cloud.events[i], w.cfg.vehicleId, m.leaseId, m.fencing)
      && IssuedAt(w, s.cloud.events[j], s.vehicle.lease.value.leaseId, s.vehicle.lease.value.fencing)
    ensures Step(w, Exec(w, inputs, start), late).vehicle == Exec(w, inputs, start).vehicle
  {
    RunKeepsSysInv(w, inputs, start);
    var s := Exec(w, inputs, start);
    assert EventInv(s.cloud, s.clock, s.cloud.events[i]);
    assert s.cloud.events[i].fencing < s.cloud.events[j].fencing;
  }

  // ---------- time ----------

  /**
   Whatever is lost, no motion is attempted under a lease a TTL or more after the Request or first-time
   Renew that last refreshed it; by the vehicle's clock, which is within the skew of the cloud's.
   */
  lemma MotionNeedsAFreshLease(w: World, inputs: seq<Input>, start: int, k: nat)
    requires Run(w, inputs, start)
    requires k < |Exec(w, inputs, start).vehicle.log| && Exec(w, inputs, start).vehicle.log[k].MotionCall?
    ensures var s := Exec(w, inputs, start);
      exists e :: e in s.cloud.events && Covers(w, e, s.vehicle.log[k].leaseId, s.vehicle.log[k].at)
  {
    RunKeepsSysInv(w, inputs, start);
    var s := Exec(w, inputs, start);
    assert EntryInv(w, s.cloud, s.vehicle.log[k]);
  }

  /** No Release of the vehicle's leases and no EmergencyStop of it between two events. */
  predicate Undisturbed(events: seq<SecurityEvent>, vehicleId: string, i: int, j: int)
    requires 0 <= i < j < |events|
  {
    forall n :: i < n < j && events[n].vehicleId == vehicleId ==>
      !events[n].LeaseReleased? && !events[n].EmergencyStopped?
  }

  /** The event that ended a lease lies between its issue and the issue of any later lease. */
  lemma EndLiesBetween(events: seq<SecurityEvent>, i: nat, j: nat, e: SecurityEvent) returns (n: nat)
    requires Rising(events) && i < j < |events| && e in events
    requires events[i].LeaseIssued? && events[j].LeaseIssued? && (e.LeaseReleased? || e.EmergencyStopped?)
    requires events[i].vehicleId == events[j].vehicleId == e.vehicleId && e.fencing == events[i].fencing + 1
    ensures i < n < j && events[n] == e
  {
    n :| 0 <= n < |events| && events[n] == e;
    HigherFencingIsLater(events, i, n);
    assert events[n].fencing <= events[j].fencing;
  }

  /** A lease that was neither released nor revoked before its successor was issued has expired by then. */
  lemma PredecessorExpired(p: Policy, t: Tables, clock: int, v: string, i: nat, j: nat)
    requires AuthorityInv(p, t, clock) && i < j < |t.events| && Undisturbed(t.events, v, i, j)
    requires t.events[i].LeaseIssued? && t.events[j].LeaseIssued?
    requires t.events[i].vehicleId == t.events[j].vehicleId == v
    ensures var id := t.events[i].leaseId; id in t.leases && t.leases[id].state == Expired
  {
    assert EventInv(t, clock, t.events[i]) && EventInv(t, clock, t.events[j]);
    var id := t.events[i].leaseId;
    var r := t.leases[id];
    assert RowInv(p, t, clock, id);
    assert t.events[i].fencing < t.events[j].fencing;
    if r.state == Released || r.state == Revoked {
      var e :| e in t.events && (e.LeaseReleased? || e.EmergencyStopped?) && e.vehicleId == v
               && e.fencing == r.fencing + 1;
      var n := EndLiesBetween(t.events, i, j, e);
    }
  }

  /**
   Two leases of one vehicle never overlap on it. If L' is issued after L with no Release and no
   EmergencyStop between them, every motion ever attempted under L, however its renewals were sent,
   lost, replayed or reordered, comes before L' was issued (by the vehicle's clock, and as far as the
   database's clock, which decides that L has run out, is not ahead of the service's).
   */
  lemma SuccessorWaitsForExpiry(w: World, inputs: seq<Input>, start: int, i: nat, j: nat, k: nat)
    requires Run(w, inputs, start)
    requires var s := Exec(w, inputs, start); var ev := s.cloud.events;
      && i < j < |ev| && ev[i].LeaseIssued? && ev[j].LeaseIssued?
      && ev[i].vehicleId == ev[j].vehicleId && Undisturbed(ev, ev[i].vehicleId, i, j)
      && k < |s.vehicle.log| && s.vehicle.log[k].MotionCall? && s.vehicle.log[k].leaseId == ev[i].leaseId
    ensures var s := Exec(w, inputs, start); s.vehicle.log[k].at < s.cloud.events[j].at + w.policy.dbAhead
  {
    RunKeepsSysInv(w, inputs, start);
    var s := Exec(w, inputs, start);
    var ev := s.cloud.events;
    PredecessorExpired(w.policy, s.cloud, s.clock, ev[i].vehicleId, i, j);
    assert EventInv(s.cloud, s.clock, ev[i]) && EventInv(s.cloud, s.clock, ev[j]);
    assert EntryInv(w, s.cloud, s.vehicle.log[k]);
    assert ev[i].fencing < ev[j].fencing;
  }

  /**
   The same in the cloud's own time: the step that attempts the motion happens less than the two skews
   after L' is issued, hence strictly before it when the clocks agree.
   */
  lemma SuccessorWaitsInCloudTime(w: World, inputs: seq<Input>, start: int, i: nat, j: nat, n: nat)
    requires Run(w, inputs, start) && n < |inputs|
    requires var ev := Exec(w, inputs, start).cloud.events;
      && i < j < |ev| && ev[i].LeaseIssued? && ev[j].LeaseIssued?
      && ev[i].vehicleId == ev[j].vehicleId && Undisturbed(ev, ev[i].vehicleId, i, j)
    requires inputs[n].DeliverCommand? && inputs[n].cmd.payload.Some?
    requires inputs[n].cmd.payload.value.leaseId == Exec(w, inputs, start).cloud.events[i].leaseId
    requires var before, after := Exec(w, inputs[..n], start).vehicle, Exec(w, inputs[..n + 1], start).vehicle;
      |before.log| < |after.log| && after.log[|before.log|].MotionCall?
    ensures inputs[n].now < Exec(w, inputs, start).cloud.events[j].at + w.policy.dbAhead + w.skew
  {
    var before, after := Exec(w, inputs[..n], start), Exec(w, inputs[..n + 1], start);
    var k := |before.vehicle.log|;
    assert inputs[..n + 1][..n] == inputs[..n];
    PrefixOfRun(w, inputs, start, n + 1);
    assert Timed(w, before.clock, inputs[n]);
    MotionOfStep(w, before, inputs[n]);
    VehicleRunsKernel(w, inputs[..n + 1], start);
    VehicleRunsKernel(w, inputs, start);
    var some, all := KernelInputs(w, inputs[..n + 1], start), KernelInputs(w, inputs, start);
    assert all[..|some|] == some;
    Kernel.ProcessedFencingIsAFloor(w.cfg, all, |some|);
    assert Exec(w, inputs, start).vehicle.log[k] == after.vehicle.log[k];
    SuccessorWaitsForExpiry(w, inputs, start, i, j, k);
  }

  lemma MotionOfStep(w: World, s: Sys, i: Input)
    requires i.DeliverCommand? && i.cmd.payload.Some?
    ensures var t := Step(w, s, i);
      |s.vehicle.log| < |t.vehicle.log| && t.vehicle.log[|s.vehicle.log|].MotionCall? ==>
        var e := t.vehicle.log[|s.vehicle.log|];
        e.at == i.local && e.leaseId == i.cmd.payload.value.leaseId
  {
  }
}
