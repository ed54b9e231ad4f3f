/** The takeover handlers over one registry and one authority, in any order: what every run of them keeps. */
module Handlers {
  import opened Prelude
  import opened Authority
  import opened AuthorityRuns
  import opened Drivers
  import opened Takeover

  /** `firstOk` and `secondOk` say whether the handler's queries succeed. */
  datatype Visit =
    | TakeVisit(user: string, deviceId: string, vehicleId: string, handlerOk: bool, gateway: Option<string>,
                admitted: bool, newId: string, firstOk: bool, secondOk: bool, now: int)
    | KeepaliveVisit(user: string, vehicleId: string, requestId: string, deviceOk: bool, admitted: bool,
                     firstOk: bool, now: int)
    | GiveBackVisit(user: string, firstOk: bool, now: int)
    | StopVisit(vehicleId: string, actor: string, gateway: Option<string>, newId: string, now: int)

  predicate InTime(visits: seq<Visit>, start: int) {
    && (forall i :: 0 <= i < |visits| ==> start <= visits[i].now)
    && (forall i, j :: 0 <= i < j < |visits| ==> visits[i].now <= visits[j].now)
  }

  // ---------- what a transaction keeps ----------

  /**
   Tables a run of the authority can reach, no driver with two valid leases, every cached entry on record
   and naming the only valid lease its account can have.
   */
  predicate Coherent(p: Policy, t: Tables, byUser: Index, clock: int) {
    AuthorityInv(p, t, clock) && DriverExclusive(t, clock) && AllAccurate(t, byUser, clock)
  }

  lemma CoherentLater(p: Policy, t: Tables, byUser: Index, clock: int, now: int)
    requires Coherent(p, t, byUser, clock) && clock <= now
    ensures Coherent(p, t, byUser, now) && OneActivePerVehicle(t)
  {
    RefusalKeepsInv(p, t, clock, now);
    ActiveIsUnique(p, t, clock);
  }

  lemma ActiveIsUnique(p: Policy, t: Tables, clock: int)
    requires RowsInv(p, t, clock)
    ensures OneActivePerVehicle(t)
  {
    forall a, b | a in t.leases && b in t.leases && t.leases[a].state == Active && t.leases[b].state == Active
                  && t.leases[a].vehicleId == t.leases[b].vehicleId
      ensures a == b
    {
      assert RowInv(p, t, clock, a) && RowInv(p, t, clock, b);
    }
  }

  /** A transaction that renews a driver's only valid lease, or none, keeps tables reachable and drivers exclusive. */
  lemma TransactionStaysCoherent(p: Policy, t: Tables, op: Op, now: int)
    requires AuthorityInv(p, t, now) && DriverExclusive(t, now) && RenewsOnlyLease(t, op, now)
    ensures var u := Apply(p, t, op, now, now).0; AuthorityInv(p, u, now) && DriverExclusive(u, now) && Grows(t, u)
  {
    ApplyKeepsInv(p, t, now, op, now, now);
    ApplyGrows(p, t, now, op, now, now);
    if op.Request? {
      RequestStaysExclusive(p, t, op, now, now, now);
    } else {
      OtherStaysExclusive(p, t, op, now, now);
    }
  }

  /** A transaction gives an account no valid lease but one it requests, or the one it renews. */
  lemma TransactionTracks(p: Policy, t: Tables, op: Op, now: int, user: string, leaseId: string)
    requires Tracked(t, user, leaseId, now)
    requires op.Request? ==> op.driverId != user
    requires op.Renew? && op.driverId == user ==> op.leaseId == leaseId
    ensures Tracked(Apply(p, t, op, now, now).0, user, leaseId, now)
  {
    if op.Request? {
      RequestTracks(p, t, op, now, user, leaseId);
    }
  }

  lemma RequestTracks(p: Policy, t: Tables, op: Op, now: int, user: string, leaseId: string)
    requires op.Request? && op.driverId != user && Tracked(t, user, leaseId, now)
    ensures Tracked(RequestStep(p, t, op, now, now).0, user, leaseId, now)
  {
    var u := RequestStep(p, t, op, now, now).0;
    forall id | id in u.leases && u.leases[id].driverId == user && u.leases[id].state == Active
      ensures now < u.leases[id].validUntil ==> id == leaseId
    {
      assert id in t.leases && u.leases[id] == t.leases[id];
    }
  }

  /** A lease is only granted to an account without a valid one. */
  lemma GrantIsTracked(p: Policy, t: Tables, op: Op, now: int)
    requires op.Request? && RequestStep(p, t, op, now, now).1.Leased?
    ensures Tracked(RequestStep(p, t, op, now, now).0, op.driverId, op.newId, now)
  {
    var u, rows := RequestStep(p, t, op, now, now).0, ExpireLapsed(t.leases, op.vehicleId, now);
    forall id | id in u.leases && u.leases[id].driverId == op.driverId && u.leases[id].state == Active
      ensures now < u.leases[id].validUntil ==> id == op.newId
    {
      assert id != op.newId ==> id in rows && u.leases[id] == rows[id];
    }
  }

  lemma RenewedIsBacked(p: Policy, t: Tables, u: Tables, a: ActiveTakeover, requestId: string, admitted: bool, now: int)
    requires RenewalsInv(p, t) && Renews(p, t, u, a, requestId, admitted, now)
    ensures Backed(u, a)
  {
    if (a.leaseId, requestId) in t.renewals {
      assert t.renewals[(a.leaseId, requestId)] <= t.leases[a.leaseId].validUntil;
    }
  }

  // ---------- the handlers ----------

  /** The query of the registry: the ids of the leases in force. */
  method SelectInForce(t: Tables, now: int) returns (ids: seq<string>)
    ensures Selects(t, ids, now)
  {
    ids := [];
    var todo := t.leases.Keys;
    while todo != {}
      invariant todo <= t.leases.Keys
      invariant forall i :: 0 <= i < |ids| ==> InForce(t, ids[i], now)
      invariant forall id :: id in t.leases && id !in todo && InForce(t, id, now) ==> id in ids
      decreases todo
    {
      var id :| id in todo;
      todo := todo - {id};
      if t.leases[id].state == Active && t.leases[id].validUntil > now {
        ids := ids + [id];
      }
    }
  }

  method Query(t: Tables, ok: bool, now: int) returns (rows: Option<seq<string>>)
    ensures ok <==> rows.Some?
    ensures rows.Some? ==> Selects(t, rows.value, now)
  {
    if ok {
      var ids := SelectInForce(t, now);
      return Some(ids);
    }
    return None;
  }

  /** After a transaction: entries stay accurate, given that of the account it was for. */
  lemma StayAccurate(p: Policy, t: Tables, op: Op, now: int, m: Index, user: string)
    requires Grows(t, Apply(p, t, op, now, now).0)
    requires op.Request? || op.Renew? ==> op.driverId == user
    requires forall k :: k in m && k != user ==> IsAccurate(t, k, m[k], now)
    requires user in m ==> IsAccurate(Apply(p, t, op, now, now).0, user, m[user], now)
    ensures AllAccurate(Apply(p, t, op, now, now).0, m, now)
  {
    forall k | k in m && k != user ensures IsAccurate(Apply(p, t, op, now, now).0, k, m[k], now) {
      TransactionTracks(p, t, op, now, k, m[k].leaseId);
    }
  }

  /** The same for a transaction that neither issues nor renews. */
  lemma EndingStaysAccurate(p: Policy, t: Tables, op: Op, now: int, m: Index)
    requires Grows(t, Apply(p, t, op, now, now).0) && !op.Request? && !op.Renew? && AllAccurate(t, m, now)
    ensures AllAccurate(Apply(p, t, op, now, now).0, m, now)
  {
    forall k | k in m ensures IsAccurate(Apply(p, t, op, now, now).0, k, m[k], now) {
      TransactionTracks(p, t, op, now, k, m[k].leaseId);
    }
  }

  function RequestOf(v: Visit): Op
    requires v.TakeVisit?
  {
    Request(v.user, v.deviceId, v.vehicleId, v.gateway, v.admitted, v.newId)
  }

  lemma OnlyTheAccountHasIt(byUser: Index, byVehicle: Index, user: string, a: ActiveTakeover)
    requires Inverse(byUser, byVehicle) && user in byUser && byUser[user] == a
    ensures forall k :: k in byUser && byUser[k] == a ==> k == user
  {
  }

  lemma TakenStaysAccurate(p: Policy, t: Tables, op: Op, now: int, byUser: Index, a: ActiveTakeover)
    requires op.Request? && RequestStep(p, t, op, now, now).1.Leased? && Grows(t, RequestStep(p, t, op, now, now).0)
    requires a.leaseId == op.newId && Backed(RequestStep(p, t, op, now, now).0, a)
    requires op.driverId in byUser && byUser[op.driverId] == a
    requires forall k :: k in byUser && k != op.driverId ==> IsAccurate(t, k, byUser[k], now)
    ensures AllAccurate(RequestStep(p, t, op, now, now).0, byUser, now)
  {
    GrantIsTracked(p, t, op, now);
    StayAccurate(p, t, op, now, byUser, op.driverId);
  }

  lemma GrantedId(p: Policy, t: Tables, u: Tables, op: Op, now: int, id: string)
    requires op.Request? && id in u.leases && (u, Leased(id, u.leases[id])) == Apply(p, t, op, now, now)
    ensures id == op.newId && RequestStep(p, t, op, now, now).1.Leased? && u == RequestStep(p, t, op, now, now).0
  {
  }

  method ServeTake(reg: TakeoverReg, authority: DurableAuthority, v: Visit, ghost clock: int)
    requires v.TakeVisit? && clock <= v.now && reg.Valid()
    requires Coherent(authority.policy, authority.Contents(), reg.byUser, clock)
    modifies reg, authority
    ensures reg.Valid() && Coherent(authority.policy, authority.Contents(), reg.byUser, v.now)
  {
    ghost var was := authority.Contents();
    CoherentLater(authority.policy, was, reg.byUser, clock, v.now);
    var rows := Query(authority.Contents(), v.firstOk, v.now);
    var again := Query(authority.Contents(), v.secondOk, v.now);
    var verdict := reg.Take(authority, rows, again, v.user, v.deviceId, v.vehicleId, v.handlerOk, v.gateway,
                            v.admitted, v.newId, v.now);
    if verdict.Taken? {
      GrantedId(authority.policy, was, authority.Contents(), RequestOf(v), v.now, verdict.entry.leaseId);
      TransactionStaysCoherent(authority.policy, was, RequestOf(v), v.now);
      OnlyTheAccountHasIt(reg.byUser, reg.byVehicle, v.user, verdict.entry);
      TakenStaysAccurate(authority.policy, was, RequestOf(v), v.now, reg.byUser, verdict.entry);
    }
  }

  method ServeKeepalive(reg: TakeoverReg, authority: DurableAuthority, v: Visit, ghost clock: int)
    requires v.KeepaliveVisit? && clock <= v.now && reg.Valid()
    requires Coherent(authority.policy, authority.Contents(), reg.byUser, clock)
    modifies reg, authority
    ensures reg.Valid() && Coherent(authority.policy, authority.Contents(), reg.byUser, v.now)
  {
    ghost var was := authority.Contents();
    CoherentLater(authority.policy, was, reg.byUser, clock, v.now);
    var rows := Query(authority.Contents(), v.firstOk, v.now);
    var verdict := reg.Keepalive(authority, rows, v.user, v.vehicleId, v.requestId, v.deviceOk, v.admitted, v.now);
    if verdict.Taken? {
      var a := verdict.entry;
      var op := Renew(a.leaseId, a.driver, a.deviceId, v.requestId, v.admitted);
      TransactionStaysCoherent(authority.policy, was, op, v.now);
      RenewedIsBacked(authority.policy, was, authority.Contents(), a, v.requestId, v.admitted, v.now);
      TransactionTracks(authority.policy, was, op, v.now, v.user, a.leaseId);
      StayAccurate(authority.policy, was, op, v.now, reg.byUser, v.user);
    }
  }

  method ServeGiveBack(reg: TakeoverReg, authority: DurableAuthority, v: Visit, ghost clock: int)
    requires v.GiveBackVisit? && clock <= v.now && reg.Valid()
    requires Coherent(authority.policy, authority.Contents(), reg.byUser, clock)
    modifies reg, authority
    ensures reg.Valid() && Coherent(authority.policy, authority.Contents(), reg.byUser, v.now)
  {
    ghost var was := authority.Contents();
    CoherentLater(authority.policy, was, reg.byUser, clock, v.now);
    var rows := Query(authority.Contents(), v.firstOk, v.now);
    var gone := reg.GiveBack(authority, rows, v.user, v.now);
    if gone.Some? {
      var op := Op.Release(gone.value.leaseId, v.user, gone.value.deviceId);
      TransactionStaysCoherent(authority.policy, was, op, v.now);
      EndingStaysAccurate(authority.policy, was, op, v.now, reg.byUser);
    }
  }

  method ServeStop(reg: TakeoverReg, authority: DurableAuthority, v: Visit, ghost clock: int)
    requires v.StopVisit? && clock <= v.now && reg.Valid()
    requires Coherent(authority.policy, authority.Contents(), reg.byUser, clock)
    modifies authority
    ensures Coherent(authority.policy, authority.Contents(), reg.byUser, v.now)
  {
    ghost var was := authority.Contents();
    CoherentLater(authority.policy, was, reg.byUser, clock, v.now);
    var reply := authority.StopVehicle(v.vehicleId, v.actor, v.gateway, v.newId, v.now);
    var op := EmergencyStop(v.vehicleId, v.actor, v.gateway, v.newId);
    TransactionStaysCoherent(authority.policy, was, op, v.now);
    EndingStaysAccurate(authority.policy, was, op, v.now, reg.byUser);
  }

  /**
   Every run of take, keepalive, give back and emergency stop, with any of the registry's queries failing
   and without the database's driver index: the two indexes stay inverse, every cached entry stays accurate
   and no driver ever holds two valid leases.
   */
  method Serve(reg: TakeoverReg, authority: DurableAuthority, visits: seq<Visit>, start: int)
    requires InTime(visits, start) && reg.Valid()
    requires Coherent(authority.policy, authority.Contents(), reg.byUser, start)
    modifies reg, authority
    ensures reg.Valid()
    ensures Coherent(authority.policy, authority.Contents(), reg.byUser,
                     if visits == [] then start else visits[|visits| - 1].now)
  {
    ghost var clock := start;
    for i := 0 to |visits|
      invariant clock == if i == 0 then start else visits[i - 1].now
      invariant reg.Valid() && Coherent(authority.policy, authority.Contents(), reg.byUser, clock)
    {
      var v := visits[i];
      match v {
        case TakeVisit(_, _, _, _, _, _, _, _, _, _) => ServeTake(reg, authority, v, clock);
        case KeepaliveVisit(_, _, _, _, _, _, _) => ServeKeepalive(reg, authority, v, clock);
        case GiveBackVisit(_, _, _) => ServeGiveBack(reg, authority, v, clock);
        case StopVisit(_, _, _, _, _) => ServeStop(reg, authority, v, clock);
      }
      clock := v.now;
    }
  }

  /** A new service starts coherent. */
  lemma StartsCoherent(p: Policy, start: int)
    requires ValidPolicy(p)
    ensures Coherent(p, EMPTY, map[], start)
  {
  }
}
