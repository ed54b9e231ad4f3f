/** What the downlink achieves when a message does arrive, however late and after whatever else. */
module LeaseDelivery {
  import opened Prelude
  import opened Envelopes
  import opened Arbiter
  import opened Authority
  import AuthorityRuns
  import opened LeaseProtocol
  import Table = AuthorityTable

  const LEASE_TTL_MS: nat := 30_000

  /** The envelope the authority puts around a signed message; `size` is that of the encoded message. */
  function LeaseEnvelope(m: LeaseGrant, monotonic: uint64, size: nat): Envelope<LeaseGrant> {
    Envelope(1, 0, "platform.v1.LeaseGrant", m.vehicleId, m.gatewayId, "authority", m.fencing, m.issuedAt, monotonic,
             LEASE_TTL_MS, m.leaseId, size, true, Some(m))
  }

  predicate Addressed(w: World, m: LeaseGrant) {
    m.vehicleId == w.cfg.vehicleId != "" && m.gatewayId == w.cfg.gatewayId != ""
  }

  /** Built from sane clock readings and arriving within the envelope's lifetime. */
  predicate InTime(w: World, m: LeaseGrant, monotonic: uint64, size: nat, checkedAt: int) {
    && m.leaseId != "" && 0 < m.issuedAt && m.validUntil != 0 && monotonic != 0 && 0 < size <= MAX_PAYLOAD
    && 0 <= w.cfg.maxClockSkew && Fresh(m.issuedAt, LEASE_TTL_MS, ENVELOPE_SKEW, checkedAt)
  }

  predicate Arrives(w: World, m: LeaseGrant, monotonic: uint64, size: nat, checkedAt: int) {
    Addressed(w, m) && InTime(w, m, monotonic, size, checkedAt)
  }

  // ---------- what is signed can be verified ----------

  predicate Named(m: LeaseGrant) {
    m.version == 1 && (m.action == Grant ==> m.driverId != "" && m.deviceId != "")
  }

  predicate AllNamed(t: Tables) {
    && (forall id :: id in t.leases ==> t.leases[id].driverId != "" && t.leases[id].deviceId != "")
    && (forall m :: m in t.outbox ==> Named(m))
  }

  lemma ApplyKeepsNamed(p: Policy, t: Tables, op: Op, dbNow: int, now: int)
    requires AllNamed(t)
    ensures AllNamed(Apply(p, t, op, dbNow, now).0)
  {
  }

  lemma {:induction false} RunKeepsNamed(w: World, inputs: seq<Input>, start: int)
    ensures AllNamed(Exec(w, inputs, start).cloud)
  {
    if inputs != [] {
      var init, i := inputs[..|inputs| - 1], inputs[|inputs| - 1];
      RunKeepsNamed(w, init, start);
      if i.Cloud? {
        ApplyKeepsNamed(w.policy, Exec(w, init, start).cloud, i.op, i.dbNow, i.now);
      }
    }
  }

  /** After any run every signed message passes the vehicle's checks while its envelope lives, fencing intact. */
  lemma SignedMessageIsAdmitted(w: World, inputs: seq<Input>, start: int, m: LeaseGrant,
                                monotonic: uint64, size: nat, checkedAt: int)
    requires Run(w, inputs, start) && m in Exec(w, inputs, start).cloud.outbox
    requires Arrives(w, m, monotonic, size, checkedAt)
    ensures LeaseAdmitted(w.cfg, LeaseEnvelope(m, monotonic, size), true, checkedAt)
    ensures 0 < ToInt64(m.fencing) == m.fencing
  {
    RunKeepsSysInv(w, inputs, start);
    RunKeepsNamed(w, inputs, start);
    var t := Exec(w, inputs, start).cloud;
    assert AuthorityRuns.MessageInv(w.policy, t, m);
  }

  // ---------- delivery ----------

  /** A delivery of exactly this message, in time. */
  predicate Delivers(w: World, i: Input, m: LeaseGrant, monotonic: uint64, size: nat) {
    i.DeliverLease? && i.env == LeaseEnvelope(m, monotonic, size) && Arrives(w, m, monotonic, size, i.checkedAt)
  }

  lemma DeliveryIs(w: World, inputs: seq<Input>, start: int, m: LeaseGrant, monotonic: uint64, size: nat, i: Input)
    requires Run(w, inputs, start) && m in Exec(w, inputs, start).cloud.outbox && Delivers(w, i, m, monotonic, size)
    ensures var v := Exec(w, inputs, start).vehicle;
      Step(w, Exec(w, inputs, start), i).vehicle ==
        if m.action == Grant then GrantStep(v, m, i.local).0 else RevokeStep(v, m, i.local, i.risk).0
    ensures m.action == Grant || m.action == Revoke
  {
    SignedMessageIsAdmitted(w, inputs, start, m, monotonic, size, i.checkedAt);
  }

  /** Under one fencing number the vehicle and the message mean the same lease. */
  lemma SameFencingSameLease(w: World, s: Sys, m: LeaseGrant)
    requires SysInv(w, s) && s.vehicle.lease.Some? && m in s.cloud.outbox && m.action == Grant
    requires m.vehicleId == w.cfg.vehicleId && s.vehicle.lease.value.fencing == m.fencing
    ensures s.vehicle.lease.value.leaseId == m.leaseId
  {
    assert AuthorityRuns.MessageInv(w.policy, s.cloud, m);
    var i := LeaseWasIssued(w, s, s.vehicle.lease.value.leaseId, m.fencing);
    var j := LeaseWasIssued(w, s, m.leaseId, m.fencing);
    AuthorityRuns.FencingNamesOneEvent(s.cloud.events, s.cloud.events[i], s.cloud.events[j]);
  }

  /** What accepting, extending and ignoring a grant come to. */
  predicate GrantTaken(v: State, m: LeaseGrant, local: int, u: State) {
    if v.lastFencing < m.fencing then
      && u.lease == Some(ActiveLease(m.leaseId, m.fencing, m.validUntil, local, 0, ""))
      && u.lastFencing == m.fencing && u.minimalRisk == "" && u.log == v.log + [Armed(m.leaseId, m.fencing, local)]
    else if v.lastFencing == m.fencing && v.lease.Some? then
      var l := v.lease.value;
      l.leaseId == m.leaseId
      && u == v.(lease := Some(l.(validUntil := if l.validUntil < m.validUntil then m.validUntil else l.validUntil)))
    else u == v
  }

  lemma GrantIsTaken(v: State, m: LeaseGrant, local: int)
    requires ToInt64(m.fencing) == m.fencing && local < m.validUntil
    requires v.lastFencing == m.fencing && v.lease.Some? ==> v.lease.value.leaseId == m.leaseId
    ensures GrantTaken(v, m, local, GrantStep(v, m, local).0)
  {
  }

  /**
   After any run, with any delay and anything in between, a grant that is delivered before it expires
   arms exactly its lease if its number is above the floor, extends its own lease if that one is held,
   and changes nothing otherwise.
   */
  lemma FreshGrantArms(w: World, inputs: seq<Input>, start: int, m: LeaseGrant, monotonic: uint64, size: nat, i: Input)
    requires Run(w, inputs, start) && m in Exec(w, inputs, start).cloud.outbox && m.action == Grant
    requires Delivers(w, i, m, monotonic, size) && i.local < m.validUntil
    ensures GrantTaken(Exec(w, inputs, start).vehicle, m, i.local, Step(w, Exec(w, inputs, start), i).vehicle)
  {
    var s := Exec(w, inputs, start);
    SignedMessageIsAdmitted(w, inputs, start, m, monotonic, size, i.checkedAt);
    DeliveryIs(w, inputs, start, m, monotonic, size, i);
    if s.vehicle.lastFencing == m.fencing && s.vehicle.lease.Some? {
      RunKeepsSysInv(w, inputs, start);
      SameFencingSameLease(w, s, m);
    }
    GrantIsTaken(s.vehicle, m, i.local);
  }

  /**
   After any run, with any delay and anything in between, a release or stop that is delivered while its
   envelope lives leaves the floor at or above it and no lease but a later one; if nothing later was
   processed, it drops the lease and calls MinimalRisk.
   */
  lemma StopAlwaysLands(w: World, inputs: seq<Input>, start: int, m: LeaseGrant, monotonic: uint64, size: nat, i: Input)
    requires Run(w, inputs, start) && m in Exec(w, inputs, start).cloud.outbox && m.action == Revoke
    requires Delivers(w, i, m, monotonic, size)
    ensures var v, u := Exec(w, inputs, start).vehicle, Step(w, Exec(w, inputs, start), i).vehicle;
      && m.fencing <= u.lastFencing
      && (u.lease.Some? ==> m.fencing < u.lease.value.fencing && u.lease == v.lease)
      && (if v.lastFencing <= m.fencing then
            u.lease == None && u.log == v.log + [RiskCall("lease_revoked", m.fencing, i.local)]
          else u == v)
  {
    SignedMessageIsAdmitted(w, inputs, start, m, monotonic, size, i.checkedAt);
    DeliveryIs(w, inputs, start, m, monotonic, size, i);
    RunKeepsSysInv(w, inputs, start);
  }

  /** A lease or stop just signed outranks whatever the vehicle has processed by then. */
  lemma JustSignedOutranks(w: World, inputs: seq<Input>, start: int, op: Op, dbNow: int, now: int)
    requires Run(w, inputs, start) && (op.Request? || op.EmergencyStop?) && op.vehicleId == w.cfg.vehicleId
    requires !Apply(w.policy, Exec(w, inputs, start).cloud, op, dbNow, now).1.Refused?
    ensures var s := Exec(w, inputs, start);
      s.vehicle.lastFencing < EpochOf(Apply(w.policy, s.cloud, op, dbNow, now).0.epochs, op.vehicleId).fencing
  {
    VehicleNeverOutrunsAuthority(w, inputs, start);
    AuthorityRuns.EpochMovesByOne(w.policy, Exec(w, inputs, start).cloud, op, dbNow, now, op.vehicleId);
  }

  // ---------- from the request to the vehicle ----------

  lemma ApplyKeepsOutbox(p: Policy, t: Tables, op: Op, dbNow: int, now: int)
    ensures t.outbox <= Apply(p, t, op, dbNow, now).0.outbox
  {
  }

  lemma {:induction false} OutboxPersists(w: World, inputs: seq<Input>, start: int, n: nat)
    requires n <= |inputs|
    ensures Exec(w, inputs[..n], start).cloud.outbox <= Exec(w, inputs, start).cloud.outbox
    decreases |inputs|
  {
    if n == |inputs| {
      assert inputs[..n] == inputs;
    } else {
      var init, i := inputs[..|inputs| - 1], inputs[|inputs| - 1];
      assert init[..n] == inputs[..n];
      OutboxPersists(w, init, start, n);
      if i.Cloud? {
        ApplyKeepsOutbox(w.policy, Exec(w, init, start).cloud, i.op, i.dbNow, i.now);
      }
    }
  }

  /** The step at `n` is a transaction of the authority that commits. */
  predicate CommitsAt(w: World, inputs: seq<Input>, start: int, n: nat) {
    && n < |inputs| && inputs[n].Cloud?
    && !Apply(w.policy, Exec(w, inputs[..n], start).cloud, inputs[n].op, inputs[n].dbNow, inputs[n].now).1.Refused?
  }

  lemma StepAt(w: World, inputs: seq<Input>, start: int, n: nat)
    requires Run(w, inputs, start) && n < |inputs|
    ensures Run(w, inputs[..n], start)
    ensures Exec(w, inputs[..n + 1], start) == Step(w, Exec(w, inputs[..n], start), inputs[n])
    ensures Exec(w, inputs[..n + 1], start).cloud.outbox <= Exec(w, inputs, start).cloud.outbox
  {
    PrefixOfRun(w, inputs, start, n);
    assert inputs[..n + 1][..n] == inputs[..n];
    OutboxPersists(w, inputs, start, n + 1);
  }

  /** The grant of a Request, spelled out from what was asked and when. */
  function GrantOf(p: Policy, t: Tables, i: Input): LeaseGrant
    requires i.Cloud? && i.op.Request? && i.op.gateway.Some?
  {
    LeaseGrant(1, Grant, i.op.vehicleId, i.op.gateway.value, i.op.newId, i.op.driverId, i.op.deviceId,
               Table.NextFencing(t, i.op.vehicleId) % 0x1_0000_0000_0000_0000, i.now, i.now + p.leaseTTL)
  }

  /** The revocation an EmergencyStop signs, spelled out. */
  function StopOf(t: Tables, i: Input): LeaseGrant
    requires i.Cloud? && i.op.EmergencyStop? && i.op.gateway.Some?
  {
    LeaseGrant(1, Revoke, i.op.vehicleId, i.op.gateway.value, i.op.newId, i.op.actor, "emergency-stop",
               Table.NextFencing(t, i.op.vehicleId) % 0x1_0000_0000_0000_0000, i.now, i.now - SECOND)
  }

  lemma RequestSigns(p: Policy, t: Tables, i: Input)
    requires AuthorityRuns.EpochsInv(t) && i.Cloud? && i.op.Request? && i.op.gateway.Some?
    requires !RequestStep(p, t, i.op, i.dbNow, i.now).1.Refused?
    ensures GrantOf(p, t, i) in RequestStep(p, t, i.op, i.dbNow, i.now).0.outbox
    ensures 0 < GrantOf(p, t, i).fencing == Table.NextFencing(t, i.op.vehicleId) && i.op.vehicleId != ""
  {
    Table.RequestVerdict(p, t, i.op, i.dbNow, i.now);
    Table.RequestCommits(p, t, i.op, i.dbNow, i.now);
  }

  lemma StopSigns(t: Tables, i: Input)
    requires AuthorityRuns.EpochsInv(t) && i.Cloud? && i.op.EmergencyStop? && i.op.gateway.Some?
    requires !EmergencyStopStep(t, i.op, i.now).1.Refused?
    ensures StopOf(t, i) in EmergencyStopStep(t, i.op, i.now).0.outbox
    ensures 0 < StopOf(t, i).fencing == Table.NextFencing(t, i.op.vehicleId) && i.op.vehicleId != ""
  {
    Table.StopVerdict(t, i.op, i.now);
    Table.StopCommits(t, i.op, i.now);
  }

  /** The transaction at `n` was asked for this vehicle, through its own gateway. */
  predicate ForVehicle(w: World, i: Input) {
    && i.Cloud? && (i.op.Request? || i.op.EmergencyStop?) && i.op.newId != ""
    && i.op.vehicleId == w.cfg.vehicleId && i.op.gateway == Some(w.cfg.gatewayId) && w.cfg.gatewayId != ""
  }

  function MessageOf(p: Policy, t: Tables, i: Input): LeaseGrant
    requires i.Cloud? && (i.op.Request? || i.op.EmergencyStop?) && i.op.gateway.Some?
  {
    if i.op.Request? then GrantOf(p, t, i) else StopOf(t, i)
  }

  /**
   A granted Request for this vehicle through its own gateway, and likewise a committed EmergencyStop, puts in
   the outbox, for good, the message of exactly what was asked, and the vehicle admits it while its envelope
   lives: nothing is assumed about the message's address.
   */
  lemma CommittedIsAdmitted(w: World, inputs: seq<Input>, start: int, n: nat, monotonic: uint64, size: nat,
                            checkedAt: int)
    requires Run(w, inputs, start) && CommitsAt(w, inputs, start, n) && ForVehicle(w, inputs[n])
    ensures var m := MessageOf(w.policy, Exec(w, inputs[..n], start).cloud, inputs[n]);
      && m in Exec(w, inputs, start).cloud.outbox && Addressed(w, m)
      && m.fencing == Table.NextFencing(Exec(w, inputs[..n], start).cloud, w.cfg.vehicleId)
      && (InTime(w, m, monotonic, size, checkedAt) ==>
            LeaseAdmitted(w.cfg, LeaseEnvelope(m, monotonic, size), true, checkedAt))
  {
    var s, i := Exec(w, inputs[..n], start), inputs[n];
    var m := MessageOf(w.policy, s.cloud, i);
    StepAt(w, inputs, start, n);
    RunKeepsSysInv(w, inputs[..n], start);
    if i.op.Request? {
      RequestSigns(w.policy, s.cloud, i);
    } else {
      StopSigns(s.cloud, i);
    }
    if InTime(w, m, monotonic, size, checkedAt) {
      SignedMessageIsAdmitted(w, inputs, start, m, monotonic, size, checkedAt);
    }
  }

  /**
   From the operator's request to the armed vehicle, with any delay and anything in between: if nothing later
   was processed meanwhile, the vehicle holds the lease that was asked for, until a TTL after the request.
   */
  lemma RequestArms(w: World, inputs: seq<Input>, start: int, n: nat, monotonic: uint64, size: nat, i: Input)
    requires Run(w, inputs, start) && CommitsAt(w, inputs, start, n)
    requires ForVehicle(w, inputs[n]) && inputs[n].op.Request?
    requires var m := GrantOf(w.policy, Exec(w, inputs[..n], start).cloud, inputs[n]);
      && i.DeliverLease? && i.env == LeaseEnvelope(m, monotonic, size) && InTime(w, m, monotonic, size, i.checkedAt)
      && i.local < m.validUntil && Exec(w, inputs, start).vehicle.lastFencing < m.fencing
    ensures var f := Table.NextFencing(Exec(w, inputs[..n], start).cloud, w.cfg.vehicleId);
      Step(w, Exec(w, inputs, start), i).vehicle.lease ==
        Some(ActiveLease(inputs[n].op.newId, f, inputs[n].now + w.policy.leaseTTL, i.local, 0, ""))
  {
    var m := GrantOf(w.policy, Exec(w, inputs[..n], start).cloud, inputs[n]);
    CommittedIsAdmitted(w, inputs, start, n, monotonic, size, i.checkedAt);
    FreshGrantArms(w, inputs, start, m, monotonic, size, i);
  }

  // ---------- renewals go where the request went ----------

  /** Every signed grant is for the gateway, driver and device of its lease. */
  predicate GrantsFollowRows(t: Tables) {
    forall m :: m in t.outbox && m.action == Grant ==>
      && m.leaseId in t.leases
      && m.gatewayId == t.leases[m.leaseId].gatewayId && m.vehicleId == t.leases[m.leaseId].vehicleId
      && m.driverId == t.leases[m.leaseId].driverId && m.deviceId == t.leases[m.leaseId].deviceId
  }

  /** What a lease was issued for never changes. */
  lemma ApplyKeepsTerms(p: Policy, t: Tables, op: Op, dbNow: int, now: int, id: string)
    requires id in t.leases
    ensures var u := Apply(p, t, op, dbNow, now).0;
      && id in u.leases
      && u.leases[id] == t.leases[id].(state := u.leases[id].state, validUntil := u.leases[id].validUntil)
  {
  }

  lemma ApplyKeepsAddresses(p: Policy, t: Tables, op: Op, dbNow: int, now: int)
    requires GrantsFollowRows(t)
    ensures GrantsFollowRows(Apply(p, t, op, dbNow, now).0)
  {
    var u := Apply(p, t, op, dbNow, now).0;
    forall m | m in t.outbox && m.action == Grant
      ensures m.leaseId in u.leases && m.gatewayId == u.leases[m.leaseId].gatewayId
      ensures m.vehicleId == u.leases[m.leaseId].vehicleId
      ensures m.driverId == u.leases[m.leaseId].driverId && m.deviceId == u.leases[m.leaseId].deviceId
    {
      ApplyKeepsTerms(p, t, op, dbNow, now, m.leaseId);
    }
  }

  lemma {:induction false} RenewalsAreAddressed(w: World, inputs: seq<Input>, start: int)
    ensures GrantsFollowRows(Exec(w, inputs, start).cloud)
  {
    if inputs != [] {
      var init, i := inputs[..|inputs| - 1], inputs[|inputs| - 1];
      RenewalsAreAddressed(w, init, start);
      if i.Cloud? {
        ApplyKeepsAddresses(w.policy, Exec(w, init, start).cloud, i.op, i.dbNow, i.now);
      }
    }
  }
}
