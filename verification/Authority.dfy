/** The control authority: leases, fencing epochs, renewals and the downlink they put in the outbox. */
module Authority {
  import opened Prelude
  import opened Arbiter

  // ---------- tables ----------

  datatype LeaseState = Active | Released | Expired | Revoked

  datatype LeaseRow = LeaseRow(
    vehicleId: string,
    gatewayId: string,
    driverId: string,
    deviceId: string,
    fencing: int,
    state: LeaseState,
    issuedAt: int,
    validUntil: int)

  datatype Epoch = Epoch(fencing: int, activeLease: Option<string>)

  /** Rows of control_security_events; `fencing` is the epoch the operation opened. */
  datatype SecurityEvent =
    | LeaseIssued(vehicleId: string, leaseId: string, fencing: int, at: int)
    | LeaseRenewed(vehicleId: string, leaseId: string, requestId: string, at: int)
    | LeaseReleased(vehicleId: string, leaseId: string, fencing: int, at: int)
    | EmergencyStopped(vehicleId: string, leaseId: string, fencing: int, at: int)

  /** `outbox` is every LeaseGrant the authority ever signed and queued for the vehicles. */
  datatype Tables = Tables(
    leases: map<string, LeaseRow>,
    epochs: map<string, Epoch>,
    renewals: map<(string, string), int>,
    outbox: set<LeaseGrant>,
    events: seq<SecurityEvent>)

  const EMPTY := Tables(map[], map[], map[], {}, [])

  /**
   `driverIndex` says whether the unique index on active leases per driver is installed, `dbAhead` how far
   the database's clock may run ahead of the service's.
   */
  datatype Policy = Policy(leaseTTL: int, grace: int, driverIndex: bool, dbAhead: nat)

  predicate ValidPolicy(p: Policy) {
    0 < p.leaseTTL && 0 < p.grace
  }

  const DEFAULT_LEASE_TTL: int := 45 * SECOND
  const DEFAULT_LEASE_GRACE: int := 15 * SECOND
  const MIN_REQUEST_ID: nat := 16

  /** A policy as the constructor builds it: non-positive durations fall back to the defaults. */
  function NewPolicy(ttl: int, grace: int, driverIndex: bool, dbAhead: nat): (p: Policy)
    ensures ValidPolicy(p) && p.driverIndex == driverIndex && p.dbAhead == dbAhead
    ensures (0 < ttl ==> p.leaseTTL == ttl) && (0 < grace ==> p.grace == grace)
    ensures (ttl <= 0 ==> p.leaseTTL == 45_000_000_000) && (grace <= 0 ==> p.grace == 15_000_000_000)
  {
    Policy(if ttl <= 0 then DEFAULT_LEASE_TTL else ttl, if grace <= 0 then DEFAULT_LEASE_GRACE else grace,
           driverIndex, dbAhead)
  }

  datatype Refusal =
    | MissingField | NoGateway | NotAdmitted | LeaseBusy | DriverBusy | ConstraintViolated
    | ShortRequestId | UnknownLease | NotOwner | LeaseLapsed | NotActive

  datatype Reply = Leased(leaseId: string, lease: LeaseRow) | Ended | Refused(why: Refusal)

  /**
   One transaction. `gateway` is the vehicle's active gateway if it has one, `admitted` the verdict of
   the liveness and capability checks, `newId` the random identifier drawn for the operation.
   */
  datatype Op =
    | Request(driverId: string, deviceId: string, vehicleId: string, gateway: Option<string>, admitted: bool,
              newId: string)
    | Renew(leaseId: string, driverId: string, deviceId: string, requestId: string, admitted: bool)
    | Release(leaseId: string, driverId: string, deviceId: string)
    | EmergencyStop(vehicleId: string, actor: string, gateway: Option<string>, newId: string)

  // ---------- statements ----------

  function EpochOf(epochs: map<string, Epoch>, vehicleId: string): Epoch {
    if vehicleId in epochs then epochs[vehicleId] else Epoch(0, None)
  }

  predicate Lapsed(row: LeaseRow, vehicleId: string, dbNow: int) {
    row.vehicleId == vehicleId && row.state == Active && row.validUntil <= dbNow
  }

  function ExpireLapsed(leases: map<string, LeaseRow>, vehicleId: string, dbNow: int): map<string, LeaseRow> {
    map id | id in leases :: if Lapsed(leases[id], vehicleId, dbNow) then leases[id].(state := Expired) else leases[id]
  }

  function RevokeActive(leases: map<string, LeaseRow>, vehicleId: string): map<string, LeaseRow> {
    map id | id in leases ::
      if leases[id].vehicleId == vehicleId && leases[id].state == Active
      then leases[id].(state := Revoked) else leases[id]
  }

  predicate VehicleHeld(leases: map<string, LeaseRow>, vehicleId: string, dbNow: int) {
    exists id :: id in leases && leases[id].vehicleId == vehicleId && leases[id].state == Active
                 && leases[id].validUntil > dbNow
  }

  predicate DriverHolds(leases: map<string, LeaseRow>, driverId: string, dbNow: int) {
    exists id :: id in leases && leases[id].driverId == driverId && leases[id].state == Active
                 && leases[id].validUntil > dbNow
  }

  /** The primary key, the two partial unique indexes and the non-negative fencing check. */
  predicate InsertRefused(p: Policy, leases: map<string, LeaseRow>, newId: string, row: LeaseRow) {
    || newId in leases
    || (exists id :: id in leases && leases[id].state == Active && leases[id].vehicleId == row.vehicleId)
    || (p.driverIndex && exists id :: id in leases && leases[id].state == Active && leases[id].driverId == row.driverId)
    || row.fencing >= INT64_LIMIT
  }

  function SignedGrant(leaseId: string, row: LeaseRow, action: LeaseAction, now: int): LeaseGrant {
    LeaseGrant(1, action, row.vehicleId, row.gatewayId, leaseId, row.driverId, row.deviceId,
               row.fencing % 0x1_0000_0000_0000_0000, now, row.validUntil)
  }

  // ---------- transactions ----------

  function RequestStep(p: Policy, t: Tables, op: Op, dbNow: int, now: int): (Tables, Reply)
    requires op.Request?
  {
    if op.driverId == "" || op.deviceId == "" || op.vehicleId == "" then (t, Refused(MissingField))
    else if op.gateway.None? then (t, Refused(NoGateway))
    else if !op.admitted then (t, Refused(NotAdmitted))
    else
      var rows := ExpireLapsed(t.leases, op.vehicleId, dbNow);
      var fencing := EpochOf(t.epochs, op.vehicleId).fencing + 1;
      var row := LeaseRow(op.vehicleId, op.gateway.value, op.driverId, op.deviceId, fencing, Active, now,
                          now + p.leaseTTL);
      if VehicleHeld(rows, op.vehicleId, dbNow) then (t, Refused(LeaseBusy))
      else if DriverHolds(rows, op.driverId, dbNow) then (t, Refused(DriverBusy))
      else if InsertRefused(p, rows, op.newId, row) then (t, Refused(ConstraintViolated))
      else
        (Tables(rows[op.newId := row],
                t.epochs[op.vehicleId := Epoch(fencing, Some(op.newId))],
                t.renewals,
                t.outbox + {SignedGrant(op.newId, row, Grant, now)},
                t.events + [LeaseIssued(op.vehicleId, op.newId, fencing, now)]),
         Leased(op.newId, row))
  }

  function RenewStep(p: Policy, t: Tables, op: Op, now: int): (Tables, Reply)
    requires op.Renew?
  {
    if |op.requestId| < MIN_REQUEST_ID then (t, Refused(ShortRequestId))
    else if op.leaseId !in t.leases then (t, Refused(UnknownLease))
    else
      var row := t.leases[op.leaseId];
      var key := (op.leaseId, op.requestId);
      if row.driverId != op.driverId || row.deviceId != op.deviceId then (t, Refused(NotOwner))
      else if !op.admitted then (t, Refused(NotAdmitted))
      else if row.state != Active || now > row.validUntil + p.grace then (t, Refused(LeaseLapsed))
      else if key in t.renewals then
        var replay := row.(validUntil := t.renewals[key]);
        (t.(outbox := t.outbox + {SignedGrant(op.leaseId, replay, Grant, now)}), Leased(op.leaseId, replay))
      else
        var renewed := row.(validUntil := now + p.leaseTTL);
        (t.(leases := t.leases[op.leaseId := renewed],
            renewals := t.renewals[key := renewed.validUntil],
            outbox := t.outbox + {SignedGrant(op.leaseId, renewed, Grant, now)},
            events := t.events + [LeaseRenewed(row.vehicleId, op.leaseId, op.requestId, now)]),
         Leased(op.leaseId, renewed))
  }

  function ReleaseStep(t: Tables, op: Op, now: int): (Tables, Reply)
    requires op.Release?
  {
    if op.leaseId !in t.leases then (t, Refused(UnknownLease))
    else
      var row := t.leases[op.leaseId];
      if row.driverId != op.driverId || row.deviceId != op.deviceId then (t, Refused(NotOwner))
      else if row.vehicleId !in t.epochs then (t, Refused(UnknownLease))
      else if row.state != Active then (t, Refused(NotActive))
      else
        var fencing := t.epochs[row.vehicleId].fencing + 1;
        if fencing >= INT64_LIMIT then (t, Refused(ConstraintViolated))
        else
          var revoked := row.(fencing := fencing, validUntil := now - SECOND);
          (t.(leases := t.leases[op.leaseId := row.(state := Released)],
              epochs := t.epochs[row.vehicleId := Epoch(fencing, None)],
              outbox := t.outbox + {SignedGrant(op.leaseId, revoked, Revoke, now)},
              events := t.events + [LeaseReleased(row.vehicleId, op.leaseId, fencing, now)]),
           Ended)
  }

  function EmergencyStopStep(t: Tables, op: Op, now: int): (Tables, Reply)
    requires op.EmergencyStop?
  {
    if op.vehicleId == "" || op.actor == "" then (t, Refused(MissingField))
    else if op.gateway.None? then (t, Refused(NoGateway))
    else
      var fencing := EpochOf(t.epochs, op.vehicleId).fencing + 1;
      if fencing >= INT64_LIMIT then (t, Refused(ConstraintViolated))
      else
        var stop := LeaseRow(op.vehicleId, op.gateway.value, op.actor, "emergency-stop", fencing, Revoked, now,
                             now - SECOND);
        (t.(leases := RevokeActive(t.leases, op.vehicleId),
            epochs := t.epochs[op.vehicleId := Epoch(fencing, None)],
            outbox := t.outbox + {SignedGrant(op.newId, stop, Revoke, now)},
            events := t.events + [EmergencyStopped(op.vehicleId, op.newId, fencing, now)]),
         Ended)
  }

  function Apply(p: Policy, t: Tables, op: Op, dbNow: int, now: int): (Tables, Reply) {
    match op
    case Request(_, _, _, _, _, _) => RequestStep(p, t, op, dbNow, now)
    case Renew(_, _, _, _, _) => RenewStep(p, t, op, now)
    case Release(_, _, _) => ReleaseStep(t, op, now)
    case EmergencyStop(_, _, _, _) => EmergencyStopStep(t, op, now)
  }

  // ---------- the service ----------

  /** Each method is one serializable transaction: it works on copies and publishes them at commit. */
  class DurableAuthority {
    const policy: Policy
    var leases: map<string, LeaseRow>
    var epochs: map<string, Epoch>
    var renewals: map<(string, string), int>
    var outbox: set<LeaseGrant>
    var events: seq<SecurityEvent>

    function Contents(): Tables
      reads this
    {
      Tables(leases, epochs, renewals, outbox, events)
    }

    constructor (ttl: int, grace: int, driverIndex: bool, dbAhead: nat)
      ensures policy == NewPolicy(ttl, grace, driverIndex, dbAhead)
      ensures Contents() == EMPTY
    {
      policy := NewPolicy(ttl, grace, driverIndex, dbAhead);
      leases, epochs, renewals, outbox, events := map[], map[], map[], {}, [];
    }

    method PublishGrant(leaseId: string, row: LeaseRow, action: LeaseAction, now: int)
      modifies this`outbox
      ensures outbox == old(outbox) + {SignedGrant(leaseId, row, action, now)}
    {
      outbox := outbox + {SignedGrant(leaseId, row, action, now)};
    }

    method RequestLease(driverId: string, deviceId: string, vehicleId: string, gateway: Option<string>, admitted: bool,
                        newId: string, dbNow: int, now: int) returns (reply: Reply)
      modifies this
      ensures (Contents(), reply) ==
        Apply(policy, old(Contents()), Request(driverId, deviceId, vehicleId, gateway, admitted, newId), dbNow, now)
    {
      if driverId == "" || deviceId == "" || vehicleId == "" {
        return Refused(MissingField);
      }
      if gateway.None? {
        return Refused(NoGateway);
      }
      if !admitted {
        return Refused(NotAdmitted);
      }
      var rows := ExpireLapsed(leases, vehicleId, dbNow);
      var fencing := EpochOf(epochs, vehicleId).fencing;
      if VehicleHeld(rows, vehicleId, dbNow) {
        return Refused(LeaseBusy);
      }
      if DriverHolds(rows, driverId, dbNow) {
        return Refused(DriverBusy);
      }
      var lease := LeaseRow(vehicleId, gateway.value, driverId, deviceId, fencing + 1, Active, now,
                            now + policy.leaseTTL);
      if InsertRefused(policy, rows, newId, lease) {
        return Refused(ConstraintViolated);
      }
      leases := rows[newId := lease];
      epochs := epochs[vehicleId := Epoch(lease.fencing, Some(newId))];
      events := events + [LeaseIssued(vehicleId, newId, lease.fencing, now)];
      PublishGrant(newId, lease, Grant, now);
      return Leased(newId, lease);
    }

    method RenewLease(leaseId: string, driverId: string, deviceId: string, requestId: string, admitted: bool, now: int)
      returns (reply: Reply)
      modifies this
      ensures (Contents(), reply) ==
        Apply(policy, old(Contents()), Renew(leaseId, driverId, deviceId, requestId, admitted), now, now)
    {
      if |requestId| < MIN_REQUEST_ID {
        return Refused(ShortRequestId);
      }
      if leaseId !in leases {
        return Refused(UnknownLease);
      }
      var lease := leases[leaseId];
      if lease.driverId != driverId || lease.deviceId != deviceId {
        return Refused(NotOwner);
      }
      if !admitted {
        return Refused(NotAdmitted);
      }
      if lease.state != Active || now > lease.validUntil + policy.grace {
        // The row is marked expired inside a transaction that is then rolled back.
        return Refused(LeaseLapsed);
      }
      if (leaseId, requestId) in renewals {
        lease := lease.(validUntil := renewals[(leaseId, requestId)]);
        PublishGrant(leaseId, lease, Grant, now);
        return Leased(leaseId, lease);
      }
      lease := lease.(validUntil := now + policy.leaseTTL);
      leases := leases[leaseId := lease];
      renewals := renewals[(leaseId, requestId) := lease.validUntil];
      events := events + [LeaseRenewed(lease.vehicleId, leaseId, requestId, now)];
      PublishGrant(leaseId, lease, Grant, now);
      return Leased(leaseId, lease);
    }

    method ReleaseLease(leaseId: string, driverId: string, deviceId: string, now: int) returns (reply: Reply)
      modifies this
      ensures (Contents(), reply) == Apply(policy, old(Contents()), Release(leaseId, driverId, deviceId), now, now)
    {
      if leaseId !in leases {
        return Refused(UnknownLease);
      }
      var lease := leases[leaseId];
      if lease.driverId != driverId || lease.deviceId != deviceId {
        return Refused(NotOwner);
      }
      if lease.vehicleId !in epochs {
        return Refused(UnknownLease);
      }
      var fencing := epochs[lease.vehicleId].fencing + 1;
      if lease.state != Active {
        return Refused(NotActive);
      }
      if fencing >= INT64_LIMIT {
        return Refused(ConstraintViolated);
      }
      leases := leases[leaseId := lease.(state := Released)];
      epochs := epochs[lease.vehicleId := Epoch(fencing, None)];
      lease := lease.(fencing := fencing, validUntil := now - SECOND);
      events := events + [LeaseReleased(lease.vehicleId, leaseId, fencing, now)];
      PublishGrant(leaseId, lease, Revoke, now);
      return Ended;
    }

    method StopVehicle(vehicleId: string, actor: string, gateway: Option<string>, newId: string, now: int)
      returns (reply: Reply)
      modifies this
      ensures (Contents(), reply) ==
        Apply(policy, old(Contents()), EmergencyStop(vehicleId, actor, gateway, newId), now, now)
    {
      if vehicleId == "" || actor == "" {
        return Refused(MissingField);
      }
      if gateway.None? {
        return Refused(NoGateway);
      }
      var fencing := EpochOf(epochs, vehicleId).fencing + 1;
      if fencing >= INT64_LIMIT {
        return Refused(ConstraintViolated);
      }
      leases := RevokeActive(leases, vehicleId);
      epochs := epochs[vehicleId := Epoch(fencing, None)];
      events := events + [EmergencyStopped(vehicleId, newId, fencing, now)];
      var stop := LeaseRow(vehicleId, gateway.value, actor, "emergency-stop", fencing, Revoked, now, now - SECOND);
      PublishGrant(newId, stop, Revoke, now);
      return Ended;
    }
  }
}
