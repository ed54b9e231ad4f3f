/** What the authority's tables, events and signed messages satisfy after every run of transactions. */
module AuthorityRuns {
  import opened Prelude
  import opened Arbiter
  import opened Authority

  // ---------- the invariant ----------

  /** Events that opened a new fencing epoch. */
  predicate Fenced(e: SecurityEvent) {
    !e.LeaseRenewed?
  }

  /** Events that set a lease's validity to their own time plus the lease TTL. */
  predicate Refreshes(e: SecurityEvent, leaseId: string, at: int) {
    (e.LeaseIssued? || e.LeaseRenewed?) && e.leaseId == leaseId && e.at == at
  }

  predicate Refreshed(events: seq<SecurityEvent>, leaseId: string, at: int) {
    exists e :: e in events && Refreshes(e, leaseId, at)
  }

  predicate Ends(e: SecurityEvent, vehicleId: string, leaseId: string, fencing: int) {
    && (e.LeaseReleased? || e.EmergencyStopped?)
    && e.vehicleId == vehicleId && e.leaseId == leaseId && e.fencing == fencing
  }

  predicate EndedBy(events: seq<SecurityEvent>, vehicleId: string, leaseId: string, fencing: int) {
    exists e :: e in events && Ends(e, vehicleId, leaseId, fencing)
  }

  predicate StoppedAt(events: seq<SecurityEvent>, vehicleId: string, fencing: int) {
    exists e :: e in events && e.EmergencyStopped? && e.vehicleId == vehicleId && e.fencing == fencing
  }

  predicate EpochsInv(t: Tables) {
    forall v :: v in t.epochs ==>
      && 0 <= t.epochs[v].fencing < INT64_LIMIT
      && (t.epochs[v].activeLease.Some? ==>
            var id := t.epochs[v].activeLease.value;
            id in t.leases && t.leases[id].vehicleId == v && t.leases[id].fencing == t.epochs[v].fencing)
  }

  predicate RowInv(p: Policy, t: Tables, clock: int, id: string)
    requires id in t.leases
  {
    var r := t.leases[id];
    && r.vehicleId in t.epochs
    && 0 < r.fencing <= t.epochs[r.vehicleId].fencing
    && r.issuedAt <= clock && r.validUntil <= clock + p.leaseTTL
    && LeaseIssued(r.vehicleId, id, r.fencing, r.issuedAt) in t.events
    && Refreshed(t.events, id, r.validUntil - p.leaseTTL)
    && match r.state
       case Active => t.epochs[r.vehicleId] == Epoch(r.fencing, Some(id))
       case Expired => r.validUntil <= clock + p.dbAhead
       case Released => EndedBy(t.events, r.vehicleId, id, r.fencing + 1)
       case Revoked => StoppedAt(t.events, r.vehicleId, r.fencing + 1)
  }

  predicate RowsInv(p: Policy, t: Tables, clock: int) {
    forall id :: id in t.leases ==> RowInv(p, t, clock, id)
  }

  /** A lease that ran out did so, by the database's clock, before any later lease of its vehicle was issued. */
  predicate Succession(p: Policy, t: Tables) {
    forall a, b :: a in t.leases && b in t.leases && t.leases[a].vehicleId == t.leases[b].vehicleId
                   && t.leases[a].fencing < t.leases[b].fencing && t.leases[a].state == Expired ==>
      t.leases[a].validUntil <= t.leases[b].issuedAt + p.dbAhead
  }

  predicate EventInv(t: Tables, clock: int, e: SecurityEvent) {
    && e.at <= clock
    && e.vehicleId in t.epochs
    && (Fenced(e) ==> 0 < e.fencing <= t.epochs[e.vehicleId].fencing)
    && (e.LeaseIssued? ==>
          && e.leaseId in t.leases
          && var r := t.leases[e.leaseId];
             r.vehicleId == e.vehicleId && r.fencing == e.fencing && r.issuedAt == e.at)
  }

  /** Events are in time order and, per vehicle, each opens a strictly higher epoch than all before it. */
  predicate Rising(events: seq<SecurityEvent>) {
    forall i, j :: 0 <= i < j < |events| ==>
      && events[i].at <= events[j].at
      && (events[i].vehicleId == events[j].vehicleId && Fenced(events[i]) && Fenced(events[j]) ==>
            events[i].fencing < events[j].fencing)
  }

  predicate EventsInv(t: Tables, clock: int) {
    && Rising(t.events)
    && forall i :: 0 <= i < |t.events| ==> EventInv(t, clock, t.events[i])
  }

  predicate RenewalsInv(p: Policy, t: Tables) {
    forall k :: k in t.renewals ==>
      && k.0 in t.leases && t.renewals[k] <= t.leases[k.0].validUntil
      && Refreshed(t.events, k.0, t.renewals[k] - p.leaseTTL)
  }

  predicate MessageInv(p: Policy, t: Tables, m: LeaseGrant) {
    && m.vehicleId in t.epochs && 0 < m.fencing <= t.epochs[m.vehicleId].fencing
    && match m.action
       case Grant =>
         && m.leaseId in t.leases
         && t.leases[m.leaseId].vehicleId == m.vehicleId && t.leases[m.leaseId].fencing == m.fencing
         && m.validUntil <= t.leases[m.leaseId].validUntil
         && Refreshed(t.events, m.leaseId, m.validUntil - p.leaseTTL)
       case Revoke => EndedBy(t.events, m.vehicleId, m.leaseId, m.fencing)
       case UnknownAction => false
  }

  predicate OutboxInv(p: Policy, t: Tables) {
    forall m :: m in t.outbox ==> MessageInv(p, t, m)
  }

  predicate AuthorityInv(p: Policy, t: Tables, clock: int) {
    && ValidPolicy(p)
    && EpochsInv(t) && RowsInv(p, t, clock) && Succession(p, t)
    && EventsInv(t, clock) && RenewalsInv(p, t) && OutboxInv(p, t)
  }

  // ---------- preservation ----------

  /** Nothing a transaction does takes back an event, an epoch, a lease's identity or its validity. */
  predicate Grows(t: Tables, u: Tables) {
    && t.events <= u.events
    && (forall v :: v in t.epochs ==> v in u.epochs && t.epochs[v].fencing <= u.epochs[v].fencing)
    && (forall id :: id in t.leases ==>
          && id in u.leases
          && u.leases[id].vehicleId == t.leases[id].vehicleId && u.leases[id].fencing == t.leases[id].fencing
          && u.leases[id].issuedAt == t.leases[id].issuedAt && t.leases[id].validUntil <= u.leases[id].validUntil)
  }

  lemma EvidenceStays(events: seq<SecurityEvent>, more: seq<SecurityEvent>)
    requires events <= more
    ensures forall e :: e in events ==> e in more
  {
    forall e | e in events ensures e in more {
      var i :| 0 <= i < |events| && events[i] == e;
      assert more[i] == e;
    }
  }

  lemma OutboxKept(p: Policy, t: Tables, u: Tables, m: LeaseGrant)
    requires OutboxInv(p, t) && Grows(t, u) && u.outbox == t.outbox + {m} && MessageInv(p, u, m)
    ensures OutboxInv(p, u)
  {
    EvidenceStays(t.events, u.events);
    forall n | n in u.outbox ensures MessageInv(p, u, n) {
      if n in t.outbox { assert MessageInv(p, t, n); }
    }
  }

  lemma RenewalsKept(p: Policy, t: Tables, u: Tables)
    requires RenewalsInv(p, t) && Grows(t, u) && u.renewals == t.renewals
    ensures RenewalsInv(p, u)
  {
    EvidenceStays(t.events, u.events);
  }

  lemma RenewalAdded(p: Policy, t: Tables, u: Tables, key: (string, string), until: int)
    requires RenewalsInv(p, t) && Grows(t, u) && u.renewals == t.renewals[key := until]
    requires key.0 in u.leases && until <= u.leases[key.0].validUntil && Refreshed(u.events, key.0, until - p.leaseTTL)
    ensures RenewalsInv(p, u)
  {
    EvidenceStays(t.events, u.events);
  }

  lemma EventsKept(t: Tables, u: Tables, clock: int, now: int, e: SecurityEvent)
    requires EventsInv(t, clock) && Grows(t, u) && u.events == t.events + [e]
    requires clock <= now == e.at && EventInv(u, now, e)
    requires Fenced(e) ==> EpochOf(t.epochs, e.vehicleId).fencing < e.fencing
    ensures EventsInv(u, now)
  {
    forall i | 0 <= i < |u.events| ensures EventInv(u, now, u.events[i]) {
      if i < |t.events| { assert EventInv(t, clock, t.events[i]); }
    }
    forall i, j | 0 <= i < j < |u.events|
      ensures u.events[i].at <= u.events[j].at
      ensures u.events[i].vehicleId == u.events[j].vehicleId && Fenced(u.events[i]) && Fenced(u.events[j]) ==>
                u.events[i].fencing < u.events[j].fencing
    {
      assert EventInv(t, clock, t.events[i]);
    }
  }

  /** A row whose own entry and, if active, epoch are left alone keeps its part of the invariant. */
  lemma RowKept(p: Policy, t: Tables, u: Tables, clock: int, now: int, id: string)
    requires id in t.leases && RowInv(p, t, clock, id) && Grows(t, u) && clock <= now
    requires u.leases[id] == t.leases[id]
    requires t.leases[id].state == Active ==> u.epochs[t.leases[id].vehicleId] == t.epochs[t.leases[id].vehicleId]
    ensures RowInv(p, u, now, id)
  {
    EvidenceStays(t.events, u.events);
  }

  // ---------- Request ----------

  lemma RequestGrows(p: Policy, t: Tables, op: Op, dbNow: int, now: int)
    requires op.Request? && RequestStep(p, t, op, dbNow, now).1.Leased?
    ensures Grows(t, RequestStep(p, t, op, dbNow, now).0)
  {
  }

  lemma RequestRow(p: Policy, t: Tables, clock: int, op: Op, dbNow: int, now: int, id: string)
    requires op.Request? && RequestStep(p, t, op, dbNow, now).1.Leased?
    requires EpochsInv(t) && (id in t.leases ==> RowInv(p, t, clock, id)) && clock <= now && dbNow <= now + p.dbAhead
    requires id in RequestStep(p, t, op, dbNow, now).0.leases
    ensures RowInv(p, RequestStep(p, t, op, dbNow, now).0, now, id)
  {
    var u := RequestStep(p, t, op, dbNow, now).0;
    RequestGrows(p, t, op, dbNow, now);
    if id == op.newId {
      var e := LeaseIssued(op.vehicleId, op.newId, u.leases[id].fencing, now);
      assert u.events[|t.events|] == e;
      assert e in u.events && Refreshes(e, id, now);
    } else if Lapsed(t.leases[id], op.vehicleId, dbNow) {
      EvidenceStays(t.events, u.events);
    } else {
      RowKept(p, t, u, clock, now, id);
    }
  }

  lemma RequestSuccession(p: Policy, t: Tables, clock: int, op: Op, dbNow: int, now: int)
    requires op.Request? && RequestStep(p, t, op, dbNow, now).1.Leased?
    requires RowsInv(p, t, clock) && Succession(p, t) && clock <= now && dbNow <= now + p.dbAhead
    ensures Succession(p, RequestStep(p, t, op, dbNow, now).0)
  {
    var u := RequestStep(p, t, op, dbNow, now).0;
    forall a, b | a in u.leases && b in u.leases && u.leases[a].vehicleId == u.leases[b].vehicleId
                  && u.leases[a].fencing < u.leases[b].fencing && u.leases[a].state == Expired
      ensures u.leases[a].validUntil <= u.leases[b].issuedAt + p.dbAhead
    {
      assert RowInv(p, t, clock, a);
      if b != op.newId { assert RowInv(p, t, clock, b); }
    }
  }

  lemma RequestRows(p: Policy, t: Tables, clock: int, op: Op, dbNow: int, now: int)
    requires op.Request? && RequestStep(p, t, op, dbNow, now).1.Leased?
    requires EpochsInv(t) && RowsInv(p, t, clock) && clock <= now && dbNow <= now + p.dbAhead
    ensures RowsInv(p, RequestStep(p, t, op, dbNow, now).0, now)
  {
    var u := RequestStep(p, t, op, dbNow, now).0;
    forall id | id in u.leases ensures RowInv(p, u, now, id) {
      RequestRow(p, t, clock, op, dbNow, now, id);
    }
  }

  lemma RequestEpochs(p: Policy, t: Tables, op: Op, dbNow: int, now: int)
    requires op.Request? && RequestStep(p, t, op, dbNow, now).1.Leased? && EpochsInv(t)
    ensures EpochsInv(RequestStep(p, t, op, dbNow, now).0)
  {
  }

  lemma RequestEvents(p: Policy, t: Tables, clock: int, op: Op, dbNow: int, now: int)
    requires op.Request? && RequestStep(p, t, op, dbNow, now).1.Leased?
    requires EpochsInv(t) && EventsInv(t, clock) && RenewalsInv(p, t) && clock <= now
    ensures var u := RequestStep(p, t, op, dbNow, now).0; EventsInv(u, now) && RenewalsInv(p, u)
  {
    var u := RequestStep(p, t, op, dbNow, now).0;
    RequestGrows(p, t, op, dbNow, now);
    EventsKept(t, u, clock, now, LeaseIssued(op.vehicleId, op.newId, u.leases[op.newId].fencing, now));
    RenewalsKept(p, t, u);
  }

  lemma RequestOutbox(p: Policy, t: Tables, op: Op, dbNow: int, now: int)
    requires op.Request? && RequestStep(p, t, op, dbNow, now).1.Leased?
    requires EpochsInv(t) && OutboxInv(p, t)
    ensures OutboxInv(p, RequestStep(p, t, op, dbNow, now).0)
  {
    var u := RequestStep(p, t, op, dbNow, now).0;
    var row := u.leases[op.newId];
    RequestGrows(p, t, op, dbNow, now);
    var e := LeaseIssued(op.vehicleId, op.newId, row.fencing, now);
    assert u.events[|t.events|] == e && Refreshes(e, op.newId, now);
    OutboxKept(p, t, u, SignedGrant(op.newId, row, Grant, now));
  }

  lemma RequestKeepsInv(p: Policy, t: Tables, clock: int, op: Op, dbNow: int, now: int)
    requires op.Request? && RequestStep(p, t, op, dbNow, now).1.Leased?
    requires AuthorityInv(p, t, clock) && clock <= now && dbNow <= now + p.dbAhead
    ensures AuthorityInv(p, RequestStep(p, t, op, dbNow, now).0, now)
  {
    RequestRows(p, t, clock, op, dbNow, now);
    RequestEpochs(p, t, op, dbNow, now);
    RequestSuccession(p, t, clock, op, dbNow, now);
    RequestEvents(p, t, clock, op, dbNow, now);
    RequestOutbox(p, t, op, dbNow, now);
  }

  // ---------- Renew ----------

  lemma RenewGrows(p: Policy, t: Tables, clock: int, op: Op, now: int)
    requires op.Renew? && RowsInv(p, t, clock) && clock <= now
    ensures Grows(t, RenewStep(p, t, op, now).0)
  {
    if op.leaseId in t.leases { assert RowInv(p, t, clock, op.leaseId); }
  }

  lemma RenewRow(p: Policy, t: Tables, clock: int, op: Op, now: int, id: string)
    requires op.Renew? && id in t.leases && RowInv(p, t, clock, id) && clock <= now
    requires Grows(t, RenewStep(p, t, op, now).0)
    ensures RowInv(p, RenewStep(p, t, op, now).0, now, id)
  {
    var u := RenewStep(p, t, op, now).0;
    if u.leases[id] == t.leases[id] {
      RowKept(p, t, u, clock, now, id);
    } else {
      var e := LeaseRenewed(u.leases[id].vehicleId, id, op.requestId, now);
      assert u.events[|t.events|] == e && Refreshes(e, id, now);
      EvidenceStays(t.events, u.events);
    }
  }

  lemma RenewRows(p: Policy, t: Tables, clock: int, op: Op, now: int)
    requires op.Renew? && RowsInv(p, t, clock) && clock <= now
    ensures RowsInv(p, RenewStep(p, t, op, now).0, now)
  {
    var u := RenewStep(p, t, op, now).0;
    RenewGrows(p, t, clock, op, now);
    forall id | id in u.leases ensures RowInv(p, u, now, id) {
      RenewRow(p, t, clock, op, now, id);
    }
  }

  lemma RenewSuccession(p: Policy, t: Tables, op: Op, now: int)
    requires op.Renew? && Succession(p, t) && EpochsInv(t)
    ensures var u := RenewStep(p, t, op, now).0; Succession(p, u) && EpochsInv(u)
  {
  }

  predicate FirstRenewal(p: Policy, t: Tables, op: Op, now: int) {
    op.Renew? && RenewStep(p, t, op, now).1.Leased? && (op.leaseId, op.requestId) !in t.renewals
  }

  lemma RenewEvents(p: Policy, t: Tables, clock: int, op: Op, now: int)
    requires FirstRenewal(p, t, op, now) && RowsInv(p, t, clock) && EventsInv(t, clock) && clock <= now
    ensures EventsInv(RenewStep(p, t, op, now).0, now)
  {
    RenewGrows(p, t, clock, op, now);
    assert RowInv(p, t, clock, op.leaseId);
    EventsKept(t, RenewStep(p, t, op, now).0, clock, now,
               LeaseRenewed(t.leases[op.leaseId].vehicleId, op.leaseId, op.requestId, now));
  }

  lemma RenewRefreshes(p: Policy, t: Tables, op: Op, now: int)
    requires FirstRenewal(p, t, op, now)
    ensures Refreshed(RenewStep(p, t, op, now).0.events, op.leaseId, now)
  {
    var u := RenewStep(p, t, op, now).0;
    var e := LeaseRenewed(t.leases[op.leaseId].vehicleId, op.leaseId, op.requestId, now);
    assert u.events[|t.events|] == e && Refreshes(e, op.leaseId, now);
  }

  lemma RenewRenewals(p: Policy, t: Tables, op: Op, now: int)
    requires FirstRenewal(p, t, op, now) && RenewalsInv(p, t) && Grows(t, RenewStep(p, t, op, now).0)
    ensures RenewalsInv(p, RenewStep(p, t, op, now).0)
  {
    var u := RenewStep(p, t, op, now).0;
    RenewRefreshes(p, t, op, now);
    RenewalAdded(p, t, u, (op.leaseId, op.requestId), now + p.leaseTTL);
  }

  lemma RenewOutbox(p: Policy, t: Tables, clock: int, op: Op, now: int)
    requires FirstRenewal(p, t, op, now) && RowsInv(p, t, clock) && EpochsInv(t) && OutboxInv(p, t) && clock <= now
    ensures OutboxInv(p, RenewStep(p, t, op, now).0)
  {
    RenewGrows(p, t, clock, op, now);
    RenewRefreshes(p, t, op, now);
    assert RowInv(p, t, clock, op.leaseId);
    OutboxKept(p, t, RenewStep(p, t, op, now).0,
               SignedGrant(op.leaseId, t.leases[op.leaseId].(validUntil := now + p.leaseTTL), Grant, now));
  }

  lemma ReplayRecords(p: Policy, t: Tables, clock: int, op: Op, now: int)
    requires op.Renew? && RenewStep(p, t, op, now).1.Leased? && (op.leaseId, op.requestId) in t.renewals
    requires EpochsInv(t) && RowsInv(p, t, clock) && RenewalsInv(p, t) && OutboxInv(p, t)
    ensures OutboxInv(p, RenewStep(p, t, op, now).0)
  {
    var u := RenewStep(p, t, op, now).0;
    assert RowInv(p, t, clock, op.leaseId);
    var until := t.renewals[(op.leaseId, op.requestId)];
    OutboxKept(p, t, u, SignedGrant(op.leaseId, t.leases[op.leaseId].(validUntil := until), Grant, now));
  }

  lemma EventsAge(t: Tables, u: Tables, clock: int, now: int)
    requires EventsInv(t, clock) && clock <= now
    requires u.events == t.events && u.epochs == t.epochs && u.leases == t.leases
    ensures EventsInv(u, now)
  {
    forall i | 0 <= i < |u.events| ensures EventInv(u, now, u.events[i]) {
      assert EventInv(t, clock, t.events[i]);
    }
  }

  lemma SendKeepsRows(p: Policy, t: Tables, u: Tables, clock: int, now: int)
    requires RowsInv(p, t, clock) && clock <= now
    requires u.leases == t.leases && u.epochs == t.epochs && u.events == t.events
    ensures RowsInv(p, u, now)
  {
    forall id | id in u.leases ensures RowInv(p, u, now, id) {
      assert RowInv(p, t, clock, id);
    }
  }

  lemma SendKeepsRest(p: Policy, t: Tables, u: Tables)
    requires EpochsInv(t) && Succession(p, t) && RenewalsInv(p, t)
    requires u.leases == t.leases && u.epochs == t.epochs && u.events == t.events && u.renewals == t.renewals
    ensures EpochsInv(u) && Succession(p, u) && RenewalsInv(p, u)
  {
  }

  lemma ReplayIs(p: Policy, t: Tables, op: Op, now: int)
    requires op.Renew? && RenewStep(p, t, op, now).1.Leased? && (op.leaseId, op.requestId) in t.renewals
    ensures var u := RenewStep(p, t, op, now).0; u == t.(outbox := u.outbox)
  {
  }

  lemma ReplayKeepsInv(p: Policy, t: Tables, clock: int, op: Op, now: int)
    requires op.Renew? && RenewStep(p, t, op, now).1.Leased? && (op.leaseId, op.requestId) in t.renewals
    requires AuthorityInv(p, t, clock) && clock <= now
    ensures AuthorityInv(p, RenewStep(p, t, op, now).0, now)
  {
    var u := RenewStep(p, t, op, now).0;
    ReplayIs(p, t, op, now);
    ReplayRecords(p, t, clock, op, now);
    SendKeepsRows(p, t, u, clock, now);
    SendKeepsRest(p, t, u);
    EventsAge(t, u, clock, now);
  }

  lemma RenewKeepsInv(p: Policy, t: Tables, clock: int, op: Op, now: int)
    requires FirstRenewal(p, t, op, now) && AuthorityInv(p, t, clock) && clock <= now
    ensures AuthorityInv(p, RenewStep(p, t, op, now).0, now)
  {
    RenewRows(p, t, clock, op, now);
    RenewSuccession(p, t, op, now);
    RenewEvents(p, t, clock, op, now);
    RenewGrows(p, t, clock, op, now);
    RenewRenewals(p, t, op, now);
    RenewOutbox(p, t, clock, op, now);
  }

  // ---------- Release and EmergencyStop ----------

  predicate Ending(t: Tables, op: Op, now: int) {
    || (op.Release? && ReleaseStep(t, op, now).1.Ended?)
    || (op.EmergencyStop? && EmergencyStopStep(t, op, now).1.Ended?)
  }

  function EndStep(t: Tables, op: Op, now: int): Tables
    requires Ending(t, op, now)
  {
    if op.Release? then ReleaseStep(t, op, now).0 else EmergencyStopStep(t, op, now).0
  }

  function EndedVehicle(t: Tables, op: Op, now: int): string
    requires Ending(t, op, now)
  {
    if op.Release? then t.leases[op.leaseId].vehicleId else op.vehicleId
  }

  /** The event and the revocation that an ending transaction writes, both under the new epoch. */
  function EndEvent(t: Tables, op: Op, now: int): SecurityEvent
    requires Ending(t, op, now)
  {
    var v := EndedVehicle(t, op, now);
    var fencing := EpochOf(t.epochs, v).fencing + 1;
    if op.Release? then LeaseReleased(v, op.leaseId, fencing, now) else EmergencyStopped(v, op.newId, fencing, now)
  }

  lemma EndEffect(t: Tables, op: Op, now: int)
    requires Ending(t, op, now) && EpochsInv(t)
    ensures var u, e := EndStep(t, op, now), EndEvent(t, op, now);
      && Grows(t, u)
      && u.events == t.events + [e] && e in u.events
      && u.epochs == t.epochs[e.vehicleId := Epoch(e.fencing, None)]
      && 0 < e.fencing < INT64_LIMIT
      && u.renewals == t.renewals
      && exists m :: u.outbox == t.outbox + {m} && m.action == Revoke
                     && m.vehicleId == e.vehicleId && m.leaseId == e.leaseId && m.fencing == e.fencing
  {
    var u, e := EndStep(t, op, now), EndEvent(t, op, now);
    assert u.events[|t.events|] == e;
    var row := if op.Release? then t.leases[op.leaseId].(fencing := e.fencing, validUntil := now - SECOND)
               else LeaseRow(op.vehicleId, op.gateway.value, op.actor, "emergency-stop", e.fencing, Revoked, now,
                             now - SECOND);
    var m := SignedGrant(e.leaseId, row, Revoke, now);
    assert u.outbox == t.outbox + {m};
  }

  lemma EndRow(p: Policy, t: Tables, clock: int, op: Op, now: int, id: string)
    requires Ending(t, op, now) && EpochsInv(t) && clock <= now
    requires id in t.leases && RowInv(p, t, clock, id)
    requires op.Release? ==> RowInv(p, t, clock, op.leaseId)
    ensures id in EndStep(t, op, now).leases && RowInv(p, EndStep(t, op, now), now, id)
  {
    var u, e := EndStep(t, op, now), EndEvent(t, op, now);
    EndEffect(t, op, now);
    if u.leases[id] == t.leases[id] {
      RowKept(p, t, u, clock, now, id);
    } else {
      assert Ends(e, e.vehicleId, e.leaseId, e.fencing);
      EvidenceStays(t.events, u.events);
    }
  }

  lemma EndRows(p: Policy, t: Tables, clock: int, op: Op, now: int)
    requires Ending(t, op, now) && EpochsInv(t) && RowsInv(p, t, clock) && clock <= now
    ensures RowsInv(p, EndStep(t, op, now), now)
  {
    forall id | id in EndStep(t, op, now).leases ensures RowInv(p, EndStep(t, op, now), now, id) {
      EndRow(p, t, clock, op, now, id);
    }
  }

  lemma EndSuccession(p: Policy, t: Tables, op: Op, now: int)
    requires Ending(t, op, now) && Succession(p, t)
    ensures Succession(p, EndStep(t, op, now))
  {
  }

  lemma EndRecords(p: Policy, t: Tables, clock: int, op: Op, now: int)
    requires Ending(t, op, now) && clock <= now
    requires EpochsInv(t) && EventsInv(t, clock) && RenewalsInv(p, t) && OutboxInv(p, t)
    ensures var u := EndStep(t, op, now); EpochsInv(u) && EventsInv(u, now) && RenewalsInv(p, u) && OutboxInv(p, u)
  {
    var u, e := EndStep(t, op, now), EndEvent(t, op, now);
    EndEffect(t, op, now);
    EventsKept(t, u, clock, now, e);
    RenewalsKept(p, t, u);
    assert Ends(e, e.vehicleId, e.leaseId, e.fencing);
    var m :| u.outbox == t.outbox + {m} && m.action == Revoke
             && m.vehicleId == e.vehicleId && m.leaseId == e.leaseId && m.fencing == e.fencing;
    OutboxKept(p, t, u, m);
  }

  lemma RefusalKeepsInv(p: Policy, t: Tables, clock: int, now: int)
    requires AuthorityInv(p, t, clock) && clock <= now
    ensures AuthorityInv(p, t, now)
  {
    forall id | id in t.leases ensures RowInv(p, t, now, id) { assert RowInv(p, t, clock, id); }
    EventsAge(t, t, clock, now);
  }

  lemma RenewTransaction(p: Policy, t: Tables, clock: int, op: Op, now: int)
    requires op.Renew? && AuthorityInv(p, t, clock) && clock <= now
    ensures AuthorityInv(p, RenewStep(p, t, op, now).0, now)
  {
    if RenewStep(p, t, op, now).1.Refused? {
      RefusalKeepsInv(p, t, clock, now);
    } else if (op.leaseId, op.requestId) in t.renewals {
      ReplayKeepsInv(p, t, clock, op, now);
    } else {
      RenewKeepsInv(p, t, clock, op, now);
    }
  }

  lemma EndKeepsInv(p: Policy, t: Tables, clock: int, op: Op, now: int)
    requires Ending(t, op, now) && AuthorityInv(p, t, clock) && clock <= now
    ensures AuthorityInv(p, EndStep(t, op, now), now)
  {
    EndRows(p, t, clock, op, now);
    EndSuccession(p, t, op, now);
    EndRecords(p, t, clock, op, now);
  }

  /** Every transaction, committed or refused, keeps the whole invariant. */
  lemma ApplyKeepsInv(p: Policy, t: Tables, clock: int, op: Op, dbNow: int, now: int)
    requires AuthorityInv(p, t, clock) && clock <= now && dbNow <= now + p.dbAhead
    ensures AuthorityInv(p, Apply(p, t, op, dbNow, now).0, now)
  {
    if op.Renew? {
      RenewTransaction(p, t, clock, op, now);
    } else if Apply(p, t, op, dbNow, now).1.Refused? {
      RefusalChangesNothing(p, t, op, dbNow, now);
      RefusalKeepsInv(p, t, clock, now);
    } else {
      CommitKeepsInv(p, t, clock, op, dbNow, now);
    }
  }

  lemma CommitKeepsInv(p: Policy, t: Tables, clock: int, op: Op, dbNow: int, now: int)
    requires AuthorityInv(p, t, clock) && clock <= now && dbNow <= now + p.dbAhead
    requires !op.Renew? && !Apply(p, t, op, dbNow, now).1.Refused?
    ensures AuthorityInv(p, Apply(p, t, op, dbNow, now).0, now)
  {
    if op.Request? {
      RequestKeepsInv(p, t, clock, op, dbNow, now);
    } else {
      EndKeepsInv(p, t, clock, op, now);
    }
  }

  lemma RefusalChangesNothing(p: Policy, t: Tables, op: Op, dbNow: int, now: int)
    requires Apply(p, t, op, dbNow, now).1.Refused?
    ensures Apply(p, t, op, dbNow, now).0 == t
  {
  }

  lemma ApplyGrows(p: Policy, t: Tables, clock: int, op: Op, dbNow: int, now: int)
    requires RowsInv(p, t, clock) && EpochsInv(t) && clock <= now
    ensures Grows(t, Apply(p, t, op, dbNow, now).0)
  {
    if op.Renew? {
      RenewGrows(p, t, clock, op, now);
    } else if Apply(p, t, op, dbNow, now).1.Refused? {
      RefusalChangesNothing(p, t, op, dbNow, now);
    } else if op.Request? {
      RequestGrows(p, t, op, dbNow, now);
    } else {
      EndEffect(t, op, now);
      assert Apply(p, t, op, dbNow, now).0 == EndStep(t, op, now);
    }
  }

  // ---------- runs ----------

  /** `dbNow` is the database's transaction time, `now` the service's clock reading after it. */
  datatype Call = Call(op: Op, dbNow: int, now: int)

  function Exec(p: Policy, calls: seq<Call>): Tables {
    if calls == [] then EMPTY
    else
      var c := calls[|calls| - 1];
      Apply(p, Exec(p, calls[..|calls| - 1]), c.op, c.dbNow, c.now).0
  }

  function EndTime(calls: seq<Call>, start: int): int {
    if calls == [] then start else calls[|calls| - 1].now
  }

  predicate InOrder(p: Policy, calls: seq<Call>, start: int) {
    calls == [] ||
    var init, c := calls[..|calls| - 1], calls[|calls| - 1];
    InOrder(p, init, start) && EndTime(init, start) <= c.now && c.dbNow <= c.now + p.dbAhead
  }

  lemma {:induction false} RunKeepsInv(p: Policy, calls: seq<Call>, start: int)
    requires ValidPolicy(p) && InOrder(p, calls, start)
    ensures AuthorityInv(p, Exec(p, calls), EndTime(calls, start))
  {
    if calls != [] {
      var init, c := calls[..|calls| - 1], calls[|calls| - 1];
      RunKeepsInv(p, init, start);
      ApplyKeepsInv(p, Exec(p, init), EndTime(init, start), c.op, c.dbNow, c.now);
    }
  }

  // ---------- what follows from the invariant ----------

  /** A (vehicle, fencing) pair occurs in one event only. */
  lemma FencingNamesOneEvent(events: seq<SecurityEvent>, a: SecurityEvent, b: SecurityEvent)
    requires Rising(events) && a in events && b in events
    requires Fenced(a) && Fenced(b) && a.vehicleId == b.vehicleId && a.fencing == b.fencing
    ensures a == b
  {
    var i :| 0 <= i < |events| && events[i] == a;
    var j :| 0 <= j < |events| && events[j] == b;
    assert i < j ==> events[i].fencing < events[j].fencing;
    assert j < i ==> events[j].fencing < events[i].fencing;
  }

  /** The event that opened the epoch a signed message carries. */
  lemma MessageOrigin(p: Policy, t: Tables, clock: int, m: LeaseGrant) returns (e: SecurityEvent)
    requires AuthorityInv(p, t, clock) && m in t.outbox
    ensures e in t.events && Fenced(e)
    ensures e.vehicleId == m.vehicleId && e.leaseId == m.leaseId && e.fencing == m.fencing
    ensures m.action == Grant ==> e.LeaseIssued?
    ensures m.action == Revoke ==> e.LeaseReleased? || e.EmergencyStopped?
    ensures m.action != UnknownAction
  {
    assert MessageInv(p, t, m);
    if m.action == Grant {
      var r := t.leases[m.leaseId];
      assert RowInv(p, t, clock, m.leaseId);
      e := LeaseIssued(r.vehicleId, m.leaseId, r.fencing, r.issuedAt);
    } else {
      e :| e in t.events && Ends(e, m.vehicleId, m.leaseId, m.fencing);
    }
  }

  lemma SignedFencingIsUnambiguous(p: Policy, t: Tables, clock: int, m: LeaseGrant, n: LeaseGrant)
    requires AuthorityInv(p, t, clock) && m in t.outbox && n in t.outbox
    requires m.vehicleId == n.vehicleId && m.fencing == n.fencing
    ensures m.leaseId == n.leaseId && m.action == n.action
  {
    var d := MessageOrigin(p, t, clock, m);
    var e := MessageOrigin(p, t, clock, n);
    FencingNamesOneEvent(t.events, d, e);
  }

  /**
   The table invariant over all runs: at most one active lease per vehicle, it carries the epoch's
   fencing and is the epoch's active lease; and a (vehicle, fencing) pair, wherever it was signed,
   names one lease and one action.
   */
  lemma TablesStayConsistent(p: Policy, calls: seq<Call>, start: int)
    requires ValidPolicy(p) && InOrder(p, calls, start)
    ensures var t := Exec(p, calls);
      && (forall id :: id in t.leases && t.leases[id].state == Active ==>
            t.leases[id].vehicleId in t.epochs
            && t.epochs[t.leases[id].vehicleId] == Epoch(t.leases[id].fencing, Some(id)))
      && (forall a, b | a in t.leases && b in t.leases && t.leases[a].state == Active && t.leases[b].state == Active ::
            t.leases[a].vehicleId == t.leases[b].vehicleId ==> a == b)
      && (forall m, n :: m in t.outbox && n in t.outbox && m.vehicleId == n.vehicleId && m.fencing == n.fencing ==>
            m.leaseId == n.leaseId && m.action == n.action)
  {
    RunKeepsInv(p, calls, start);
    var t, clock := Exec(p, calls), EndTime(calls, start);
    forall m, n | m in t.outbox && n in t.outbox && m.vehicleId == n.vehicleId && m.fencing == n.fencing
      ensures m.leaseId == n.leaseId && m.action == n.action
    {
      SignedFencingIsUnambiguous(p, t, clock, m, n);
    }
    forall id | id in t.leases && t.leases[id].state == Active
      ensures t.leases[id].vehicleId in t.epochs
      ensures t.epochs[t.leases[id].vehicleId] == Epoch(t.leases[id].fencing, Some(id))
    {
      assert RowInv(p, t, clock, id);
    }
  }

  /** Which vehicle's epoch a committed transaction moves, if any. */
  function FencedVehicle(t: Tables, op: Op): Option<string> {
    match op
    case Request(_, _, v, _, _, _) => Some(v)
    case Renew(_, _, _, _, _) => None
    case Release(id, _, _) => if id in t.leases then Some(t.leases[id].vehicleId) else None
    case EmergencyStop(v, _, _, _) => Some(v)
  }

  /** Request, Release and EmergencyStop move one epoch by exactly one; Renew and refusals move none. */
  lemma EpochMovesByOne(p: Policy, t: Tables, op: Op, dbNow: int, now: int, v: string)
    ensures var (u, reply) := Apply(p, t, op, dbNow, now);
      EpochOf(u.epochs, v).fencing - EpochOf(t.epochs, v).fencing ==
        if !reply.Refused? && FencedVehicle(t, op) == Some(v) then 1 else 0
    ensures Apply(p, t, op, dbNow, now).1.Refused? ==> Apply(p, t, op, dbNow, now).0 == t
  {
  }

  predicate ReplayHarmless(p: Policy, t: Tables, op: Op, now: int)
    requires op.Renew?
  {
    var (u, reply) := RenewStep(p, t, op, now);
    && op.leaseId in t.leases
    && u.leases == t.leases && u.epochs == t.epochs && u.renewals == t.renewals && u.events == t.events
    && (forall m :: m in u.outbox && m !in t.outbox ==>
          m.action == Grant && m.leaseId == op.leaseId && m.validUntil <= t.leases[op.leaseId].validUntil)
    && (reply.Leased? ==> (op.leaseId, op.requestId) in t.renewals
                          && reply.lease.validUntil == t.renewals[(op.leaseId, op.requestId)])
  }

  lemma ReplayStep(p: Policy, t: Tables, op: Op, now: int)
    requires RenewalsInv(p, t) && op.Renew? && (op.leaseId, op.requestId) in t.renewals
    ensures ReplayHarmless(p, t, op, now)
  {
  }

  /**
   Replaying a renewal never extends anything: the lease row and the stored renewal stay as they are,
   nothing is logged, and the grant that goes out is valid no longer than the row already was.
   */
  lemma ReplayExtendsNothing(p: Policy, calls: seq<Call>, start: int, op: Op, now: int)
    requires ValidPolicy(p) && InOrder(p, calls, start)
    requires op.Renew? && (op.leaseId, op.requestId) in Exec(p, calls).renewals
    ensures ReplayHarmless(p, Exec(p, calls), op, now)
  {
    RunKeepsInv(p, calls, start);
    ReplayStep(p, Exec(p, calls), op, now);
  }
}
