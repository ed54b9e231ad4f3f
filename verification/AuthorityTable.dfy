/** The authority's transactions written out: when each commits, what it answers, writes and signs. */
module AuthorityTable {
  import opened Prelude
  import opened Arbiter
  import opened Authority

  // ---------- Request ----------

  predicate VehicleTaken(t: Tables, vehicleId: string, dbNow: int) {
    exists id :: id in t.leases && t.leases[id].vehicleId == vehicleId && t.leases[id].state == Active
                 && dbNow < t.leases[id].validUntil
  }

  predicate DriverTaken(t: Tables, driverId: string, dbNow: int) {
    exists id :: id in t.leases && t.leases[id].driverId == driverId && t.leases[id].state == Active
                 && dbNow < t.leases[id].validUntil
  }

  predicate MarkedElsewhere(t: Tables, driverId: string, vehicleId: string) {
    exists id :: id in t.leases && t.leases[id].driverId == driverId && t.leases[id].state == Active
                 && t.leases[id].vehicleId != vehicleId
  }

  lemma HeldIsTaken(t: Tables, vehicleId: string, driverId: string, dbNow: int)
    ensures var rows := ExpireLapsed(t.leases, vehicleId, dbNow);
      && (VehicleHeld(rows, vehicleId, dbNow) <==> VehicleTaken(t, vehicleId, dbNow))
      && (DriverHolds(rows, driverId, dbNow) <==> DriverTaken(t, driverId, dbNow))
  {
    var rows := ExpireLapsed(t.leases, vehicleId, dbNow);
    forall id | id in t.leases && t.leases[id].state == Active && dbNow < t.leases[id].validUntil
      ensures id in rows && rows[id] == t.leases[id]
    {
    }
    if VehicleTaken(t, vehicleId, dbNow) {
      var id :| id in t.leases && t.leases[id].vehicleId == vehicleId && t.leases[id].state == Active
                && dbNow < t.leases[id].validUntil;
      assert rows[id] == t.leases[id];
    }
    if DriverTaken(t, driverId, dbNow) {
      var id :| id in t.leases && t.leases[id].driverId == driverId && t.leases[id].state == Active
                && dbNow < t.leases[id].validUntil;
      assert rows[id] == t.leases[id];
    }
  }

  lemma IndexesRefuse(p: Policy, t: Tables, op: Op, dbNow: int, row: LeaseRow)
    requires op.Request? && !VehicleTaken(t, op.vehicleId, dbNow)
    requires row.vehicleId == op.vehicleId && row.driverId == op.driverId
    ensures InsertRefused(p, ExpireLapsed(t.leases, op.vehicleId, dbNow), op.newId, row) <==>
      op.newId in t.leases || row.fencing >= 0x8000_0000_0000_0000
      || (p.driverIndex && MarkedElsewhere(t, op.driverId, op.vehicleId))
  {
    var rows := ExpireLapsed(t.leases, op.vehicleId, dbNow);
    forall id | id in rows && rows[id].state == Active
      ensures rows[id] == t.leases[id] && rows[id].vehicleId != op.vehicleId
    {
    }
    if MarkedElsewhere(t, op.driverId, op.vehicleId) {
      var id :| id in t.leases && t.leases[id].driverId == op.driverId && t.leases[id].state == Active
                && t.leases[id].vehicleId != op.vehicleId;
      assert rows[id] == t.leases[id];
    }
  }

  /** The answers to a Request, in the order of the checks. */
  lemma RequestVerdict(p: Policy, t: Tables, op: Op, dbNow: int, now: int)
    requires op.Request?
    ensures RequestStep(p, t, op, dbNow, now).1 ==
      if op.driverId == "" || op.deviceId == "" || op.vehicleId == "" then Refused(MissingField)
      else if op.gateway.None? then Refused(NoGateway)
      else if !op.admitted then Refused(NotAdmitted)
      else if VehicleTaken(t, op.vehicleId, dbNow) then Refused(LeaseBusy)
      else if DriverTaken(t, op.driverId, dbNow) then Refused(DriverBusy)
      else if op.newId in t.leases || NextFencing(t, op.vehicleId) >= 0x8000_0000_0000_0000
              || (p.driverIndex && MarkedElsewhere(t, op.driverId, op.vehicleId)) then Refused(ConstraintViolated)
      else Leased(op.newId, LeaseRow(op.vehicleId, op.gateway.value, op.driverId, op.deviceId,
                                     NextFencing(t, op.vehicleId), Active, now, now + p.leaseTTL))
  {
    HeldIsTaken(t, op.vehicleId, op.driverId, dbNow);
    if op.gateway.Some? && !VehicleTaken(t, op.vehicleId, dbNow) {
      var row := LeaseRow(op.vehicleId, op.gateway.value, op.driverId, op.deviceId,
                          EpochOf(t.epochs, op.vehicleId).fencing + 1, Active, now, now + p.leaseTTL);
      IndexesRefuse(p, t, op, dbNow, row);
    }
  }

  function NextFencing(t: Tables, vehicleId: string): int {
    1 + if vehicleId in t.epochs then t.epochs[vehicleId].fencing else 0
  }

  /** What a granted Request writes and signs. */
  lemma RequestCommits(p: Policy, t: Tables, op: Op, dbNow: int, now: int)
    requires op.Request? && RequestStep(p, t, op, dbNow, now).1.Leased? && 0 < NextFencing(t, op.vehicleId)
    ensures var u, f := RequestStep(p, t, op, dbNow, now).0, NextFencing(t, op.vehicleId);
      && u.leases.Keys == t.leases.Keys + {op.newId}
      && u.leases[op.newId] == LeaseRow(op.vehicleId, op.gateway.value, op.driverId, op.deviceId, f, Active, now,
                                        now + p.leaseTTL)
      && (forall id :: id in t.leases ==>
            u.leases[id] == if t.leases[id].vehicleId == op.vehicleId && t.leases[id].state == Active
                            then t.leases[id].(state := Expired) else t.leases[id])
      && u.epochs == t.epochs[op.vehicleId := Epoch(f, Some(op.newId))] && u.renewals == t.renewals
      && u.events == t.events + [LeaseIssued(op.vehicleId, op.newId, f, now)]
      && u.outbox == t.outbox + {LeaseGrant(1, Grant, op.vehicleId, op.gateway.value, op.newId, op.driverId,
                                            op.deviceId, f, now, now + p.leaseTTL)}
  {
    RequestVerdict(p, t, op, dbNow, now);
    var u := RequestStep(p, t, op, dbNow, now).0;
    forall id | id in t.leases
      ensures u.leases[id] == if t.leases[id].vehicleId == op.vehicleId && t.leases[id].state == Active
                              then t.leases[id].(state := Expired) else t.leases[id]
    {
      assert t.leases[id].vehicleId == op.vehicleId && t.leases[id].state == Active ==>
        t.leases[id].validUntil <= dbNow;
    }
  }

  // ---------- Renew ----------

  /** The answers to a Renew, in the order of the checks. */
  lemma RenewVerdict(p: Policy, t: Tables, op: Op, now: int)
    requires op.Renew?
    ensures RenewStep(p, t, op, now).1 ==
      if |op.requestId| < 16 then Refused(ShortRequestId)
      else if op.leaseId !in t.leases then Refused(UnknownLease)
      else
        var row := t.leases[op.leaseId];
        if row.driverId != op.driverId || row.deviceId != op.deviceId then Refused(NotOwner)
        else if !op.admitted then Refused(NotAdmitted)
        else if row.state != Active || row.validUntil + p.grace < now then Refused(LeaseLapsed)
        else if (op.leaseId, op.requestId) in t.renewals
        then Leased(op.leaseId, row.(validUntil := t.renewals[(op.leaseId, op.requestId)]))
        else Leased(op.leaseId, row.(validUntil := now + p.leaseTTL))
  {
  }

  /** What a Renew writes and signs: the first under a request id moves the end, a repetition only signs again. */
  lemma RenewCommits(p: Policy, t: Tables, op: Op, now: int)
    requires op.Renew? && RenewStep(p, t, op, now).1.Leased? && 0 < t.leases[op.leaseId].fencing < 0x8000_0000_0000_0000
    ensures var u, row, key := RenewStep(p, t, op, now).0, t.leases[op.leaseId], (op.leaseId, op.requestId);
      var end := if key in t.renewals then t.renewals[key] else now + p.leaseTTL;
      var signed := t.outbox + {LeaseGrant(1, Grant, row.vehicleId, row.gatewayId, op.leaseId, row.driverId,
                                           row.deviceId, row.fencing, now, end)};
      if key in t.renewals then u == t.(outbox := signed)
      else u == Tables(t.leases[op.leaseId := row.(validUntil := end)], t.epochs, t.renewals[key := end], signed,
                       t.events + [LeaseRenewed(row.vehicleId, op.leaseId, op.requestId, now)])
  {
  }

  // ---------- Release and EmergencyStop ----------

  /** Only the owner, from the device of the lease, ends an active lease. */
  lemma ReleaseVerdict(t: Tables, op: Op, now: int)
    requires op.Release?
    ensures ReleaseStep(t, op, now).1 ==
      if op.leaseId !in t.leases then Refused(UnknownLease)
      else
        var row := t.leases[op.leaseId];
        if row.driverId != op.driverId || row.deviceId != op.deviceId then Refused(NotOwner)
        else if row.vehicleId !in t.epochs then Refused(UnknownLease)
        else if row.state != Active then Refused(NotActive)
        else if NextFencing(t, row.vehicleId) >= 0x8000_0000_0000_0000 then Refused(ConstraintViolated)
        else Ended
  {
  }

  lemma ReleaseCommits(t: Tables, op: Op, now: int)
    requires op.Release? && ReleaseStep(t, op, now).1.Ended? && 0 < NextFencing(t, t.leases[op.leaseId].vehicleId)
    ensures var u, row := ReleaseStep(t, op, now).0, t.leases[op.leaseId];
      var f := NextFencing(t, row.vehicleId);
      u == Tables(t.leases[op.leaseId := row.(state := Released)], t.epochs[row.vehicleId := Epoch(f, None)],
                  t.renewals,
                  t.outbox + {LeaseGrant(1, Revoke, row.vehicleId, row.gatewayId, op.leaseId, row.driverId,
                                         row.deviceId, f, now, now - 1_000_000_000)},
                  t.events + [LeaseReleased(row.vehicleId, op.leaseId, f, now)])
  {
  }

  lemma StopVerdict(t: Tables, op: Op, now: int)
    requires op.EmergencyStop?
    ensures EmergencyStopStep(t, op, now).1 ==
      if op.vehicleId == "" || op.actor == "" then Refused(MissingField)
      else if op.gateway.None? then Refused(NoGateway)
      else if NextFencing(t, op.vehicleId) >= 0x8000_0000_0000_0000 then Refused(ConstraintViolated)
      else Ended
  {
  }

  lemma StopCommits(t: Tables, op: Op, now: int)
    requires op.EmergencyStop? && EmergencyStopStep(t, op, now).1.Ended? && 0 < NextFencing(t, op.vehicleId)
    ensures var u, f := EmergencyStopStep(t, op, now).0, NextFencing(t, op.vehicleId);
      && u.leases.Keys == t.leases.Keys
      && (forall id :: id in t.leases ==>
            u.leases[id] == if t.leases[id].vehicleId == op.vehicleId && t.leases[id].state == Active
                            then t.leases[id].(state := Revoked) else t.leases[id])
      && u.epochs == t.epochs[op.vehicleId := Epoch(f, None)] && u.renewals == t.renewals
      && u.events == t.events + [EmergencyStopped(op.vehicleId, op.newId, f, now)]
      && u.outbox == t.outbox + {LeaseGrant(1, Revoke, op.vehicleId, op.gateway.value, op.newId, op.actor,
                                            "emergency-stop", f, now, now - 1_000_000_000)}
  {
  }
}
