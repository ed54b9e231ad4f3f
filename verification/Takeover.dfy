/** The account-to-vehicle takeover registry: two in-place indexes projected from the lease table. */
module Takeover {
  import opened Prelude
  import opened Authority
  import opened AuthorityRuns
  import opened Drivers

  /** Shared by reference between the two indexes and never changed once built. */
  class ActiveTakeover {
    const vehicleId: string
    const driver: string
    const deviceId: string
    const leaseId: string
    const fencing: int
    const until: int
    const started: int

    constructor (leaseId: string, row: LeaseRow, driver: string, deviceId: string, vehicleId: string, started: int)
      ensures this.leaseId == leaseId && this.driver == driver
      ensures this.deviceId == deviceId && this.vehicleId == vehicleId
      ensures this.fencing == row.fencing && this.until == row.validUntil && this.started == started
    {
      this.leaseId, this.driver, this.deviceId, this.vehicleId := leaseId, driver, deviceId, vehicleId;
      this.fencing, this.until, this.started := row.fencing, row.validUntil, started;
    }
  }

  type Index = map<string, ActiveTakeover>

  // ---------- the two indexes ----------

  /** One account, one vehicle, one vehicle, one account: each index undoes the other. */
  predicate Inverse(byUser: Index, byVehicle: Index) {
    && (forall u :: u in byUser ==>
          byUser[u].driver == u && byUser[u].vehicleId in byVehicle && byVehicle[byUser[u].vehicleId] == byUser[u])
    && (forall v :: v in byVehicle ==>
          byVehicle[v].vehicleId == v && byVehicle[v].driver in byUser && byUser[byVehicle[v].driver] == byVehicle[v])
  }

  function Survivors(m: Index, now: int): Index {
    map k | k in m && now <= m[k].until :: m[k]
  }

  /** Some expired account entry still is what the vehicle index holds for its vehicle. */
  predicate Stale(byUser: Index, byVehicle: Index, v: string, now: int)
    requires v in byVehicle
  {
    exists u :: u in byUser && byUser[u] == byVehicle[v] && byUser[u].vehicleId == v && now > byUser[u].until
  }

  /** The same among some of the accounts. */
  predicate StaleAmong(users: set<string>, byUser: Index, a: ActiveTakeover, v: string, now: int) {
    exists u :: u in users && u in byUser && byUser[u] == a && byUser[u].vehicleId == v && now > byUser[u].until
  }

  function Evict(byUser: Index, byVehicle: Index, now: int): Index {
    map v | v in byVehicle && !Stale(byUser, byVehicle, v, now) :: byVehicle[v]
  }

  lemma GcKeepsInverse(byUser: Index, byVehicle: Index, now: int)
    requires Inverse(byUser, byVehicle)
    ensures Evict(byUser, byVehicle, now) == Survivors(byVehicle, now)
    ensures Inverse(Survivors(byUser, now), Survivors(byVehicle, now))
  {
    forall v | v in byVehicle ensures Stale(byUser, byVehicle, v, now) <==> now > byVehicle[v].until {
      assert byUser[byVehicle[v].driver] == byVehicle[v];
    }
  }

  function RemoveUser(byUser: Index, user: string): Index {
    byUser - {user}
  }

  function RemoveTwin(byUser: Index, byVehicle: Index, user: string): Index {
    if user in byUser && byUser[user].vehicleId in byVehicle && byVehicle[byUser[user].vehicleId] == byUser[user]
    then byVehicle - {byUser[user].vehicleId} else byVehicle
  }

  /** Releasing an account drops its entry from both indexes and leaves them inverse. */
  lemma ReleaseKeepsInverse(byUser: Index, byVehicle: Index, user: string)
    requires Inverse(byUser, byVehicle)
    ensures Inverse(RemoveUser(byUser, user), RemoveTwin(byUser, byVehicle, user))
    ensures forall v :: v in RemoveTwin(byUser, byVehicle, user) <==> v in byVehicle && byVehicle[v].driver != user
  {
  }

  /** What the take and keepalive handlers look up before they put an entry. */
  predicate PutAllowed(byUser: Index, byVehicle: Index, driver: string, vehicleId: string) {
    && (driver in byUser ==> byUser[driver].vehicleId == vehicleId)
    && (vehicleId in byVehicle ==> byVehicle[vehicleId].driver == driver)
  }

  /** A put keeps the indexes inverse exactly when the account has no other vehicle and the vehicle no other account. */
  lemma PutKeepsInverseIff(byUser: Index, byVehicle: Index, a: ActiveTakeover)
    requires Inverse(byUser, byVehicle)
    ensures Inverse(byUser[a.driver := a], byVehicle[a.vehicleId := a])
            <==> PutAllowed(byUser, byVehicle, a.driver, a.vehicleId)
  {
    var us, vs := byUser[a.driver := a], byVehicle[a.vehicleId := a];
    if Inverse(us, vs) {
      if a.driver in byUser {
        var w := byUser[a.driver].vehicleId;
        assert w in vs && us[vs[w].driver] == vs[w];
      }
      if a.vehicleId in byVehicle {
        var d := byVehicle[a.vehicleId].driver;
        assert d in us && vs[us[d].vehicleId] == us[d];
      }
    }
  }

  lemma SurvivorsAllowPut(byUser: Index, byVehicle: Index, now: int, driver: string, vehicleId: string)
    requires PutAllowed(byUser, byVehicle, driver, vehicleId)
    ensures PutAllowed(Survivors(byUser, now), Survivors(byVehicle, now), driver, vehicleId)
  {
  }

  // ---------- the query the indexes are rebuilt from ----------

  predicate InForce(t: Tables, id: string, dbNow: int) {
    id in t.leases && t.leases[id].state == Active && t.leases[id].validUntil > dbNow
  }

  predicate Selects(t: Tables, ids: seq<string>, dbNow: int) {
    && (forall i :: 0 <= i < |ids| ==> InForce(t, ids[i], dbNow))
    && (forall id :: id in t.leases && InForce(t, id, dbNow) ==> id in ids)
  }

  predicate OneActivePerVehicle(t: Tables) {
    forall a, b | a in t.leases && b in t.leases && t.leases[a].state == Active && t.leases[b].state == Active ::
      t.leases[a].vehicleId == t.leases[b].vehicleId ==> a == b
  }

  predicate Mirrors(t: Tables, a: ActiveTakeover) {
    && a.leaseId in t.leases
    && var row := t.leases[a.leaseId];
       && a.vehicleId == row.vehicleId && a.driver == row.driverId && a.deviceId == row.deviceId
       && a.fencing == row.fencing && a.until == row.validUntil && a.started == row.issuedAt
  }

  /** The lease is on record and valid at least as long as the entry says. */
  predicate Backed(t: Tables, a: ActiveTakeover) {
    a.leaseId in t.leases && a.until <= t.leases[a.leaseId].validUntil
  }

  /** Any valid lease of the account is the given one. */
  predicate Tracked(t: Tables, user: string, leaseId: string, now: int) {
    forall id | id in t.leases && t.leases[id].driverId == user && t.leases[id].state == Active ::
      now < t.leases[id].validUntil ==> id == leaseId
  }

  predicate IsAccurate(t: Tables, user: string, a: ActiveTakeover, now: int) {
    Backed(t, a) && Tracked(t, user, a.leaseId, now)
  }

  predicate AllAccurate(t: Tables, m: Index, now: int) {
    forall k :: k in m ==> IsAccurate(t, k, m[k], now)
  }

  /** What reading the first rows of `ids` leaves in the new indexes. */
  predicate Projects(t: Tables, ids: seq<string>, byUser: Index, byVehicle: Index) {
    && (forall u :: u in byUser ==>
          && byUser[u].driver == u && Mirrors(t, byUser[u]) && byUser[u].leaseId in ids
          && byUser[u].vehicleId in byVehicle && byVehicle[byUser[u].vehicleId] == byUser[u])
    && (forall v :: v in byVehicle ==>
          && byVehicle[v].vehicleId == v && Mirrors(t, byVehicle[v]) && byVehicle[v].leaseId in ids
          && byVehicle[v].driver in byUser)
    && (forall i :: 0 <= i < |ids| ==>
          && ids[i] in t.leases
          && t.leases[ids[i]].driverId in byUser && t.leases[ids[i]].vehicleId in byVehicle)
  }

  /** The same after `n` rows. */
  predicate ProjectsTo(t: Tables, ids: seq<string>, n: nat, byUser: Index, byVehicle: Index)
  {
    n <= |ids| && (n == |ids| ==> Projects(t, ids, byUser, byVehicle)) && Projects(t, ids[..n], byUser, byVehicle)
  }

  lemma ProjectOne(t: Tables, ids: seq<string>, byUser: Index, byVehicle: Index, id: string, a: ActiveTakeover,
                   dbNow: int)
    requires OneActivePerVehicle(t) && Projects(t, ids, byUser, byVehicle)
    requires forall i :: 0 <= i < |ids| ==> InForce(t, ids[i], dbNow)
    requires InForce(t, id, dbNow) && a.leaseId == id && Mirrors(t, a)
    ensures Projects(t, ids + [id], byUser[a.driver := a], byVehicle[a.vehicleId := a])
  {
    var us, vs := byUser[a.driver := a], byVehicle[a.vehicleId := a];
    forall u | u in us && u != a.driver ensures vs[us[u].vehicleId] == us[u] {
      assert InForce(t, byUser[u].leaseId, dbNow);
    }
  }

  lemma ProjectNext(t: Tables, ids: seq<string>, i: nat, byUser: Index, byVehicle: Index, a: ActiveTakeover, dbNow: int)
    requires OneActivePerVehicle(t) && Selects(t, ids, dbNow) && i < |ids| && ProjectsTo(t, ids, i, byUser, byVehicle)
    requires a.leaseId == ids[i] && Mirrors(t, a)
    ensures ProjectsTo(t, ids, i + 1, byUser[a.driver := a], byVehicle[a.vehicleId := a])
  {
    assert ids[..i + 1] == ids[..i] + [ids[i]];
    assert ids[..|ids|] == ids;
    ProjectOne(t, ids[..i], byUser, byVehicle, ids[i], a, dbNow);
  }

  /** The rebuilt indexes are inverse exactly when no account holds two leases in force. */
  lemma ProjectionInverseIff(t: Tables, ids: seq<string>, byUser: Index, byVehicle: Index, dbNow: int)
    requires OneActivePerVehicle(t) && Selects(t, ids, dbNow) && Projects(t, ids, byUser, byVehicle)
    ensures Inverse(byUser, byVehicle) <==> DriverExclusive(t, dbNow)
  {
    if DriverExclusive(t, dbNow) {
      forall v | v in byVehicle ensures byUser[byVehicle[v].driver] == byVehicle[v] {
        var e, f := byVehicle[v], byUser[byVehicle[v].driver];
        assert InForce(t, e.leaseId, dbNow) && InForce(t, f.leaseId, dbNow);
        assert byVehicle[f.vehicleId] == f;
      }
    }
    if Inverse(byUser, byVehicle) {
      forall a, b | InForce(t, a, dbNow) && InForce(t, b, dbNow) && t.leases[a].driverId == t.leases[b].driverId
        ensures a == b
      {
        InverseSeparates(t, ids, byUser, byVehicle, a, dbNow);
        InverseSeparates(t, ids, byUser, byVehicle, b, dbNow);
      }
    }
  }

  lemma InverseSeparates(t: Tables, ids: seq<string>, byUser: Index, byVehicle: Index, id: string, dbNow: int)
    requires OneActivePerVehicle(t) && Selects(t, ids, dbNow) && Projects(t, ids, byUser, byVehicle)
    requires Inverse(byUser, byVehicle) && InForce(t, id, dbNow)
    ensures t.leases[id].driverId in byUser && byUser[t.leases[id].driverId].leaseId == id
  {
    assert id in ids;
    var e := byVehicle[t.leases[id].vehicleId];
    assert InForce(t, e.leaseId, dbNow);
    assert e.leaseId == id;
  }

  /** Every table a run can reach lets the registry rebuild inverse indexes, at any later time. */
  lemma ReachableTablesProject(p: Policy, calls: seq<Call>, start: int, dbNow: int)
    requires ValidPolicy(p) && InOrder(p, calls, start)
    requires p.driverIndex || (KeepaliveOnly(p, calls) && EndTime(calls, start) + p.dbAhead <= dbNow)
    ensures OneActivePerVehicle(Exec(p, calls)) && DriverExclusive(Exec(p, calls), dbNow)
  {
    TablesStayConsistent(p, calls, start);
    if p.driverIndex {
      IndexMakesDriversExclusive(p, calls);
    } else {
      KeepaliveMakesDriversExclusive(p, calls, start);
    }
  }

  /** The second rule is enforced by the authority even when the registry's first look was out of date. */
  lemma HeldDriverIsRefused(p: Policy, t: Tables, id: string, op: Op, now: int)
    requires op.Request? && InForce(t, id, now) && t.leases[id].driverId == op.driverId
    ensures !RequestStep(p, t, op, now, now).1.Leased?
  {
    assert ExpireLapsed(t.leases, op.vehicleId, now)[id] == t.leases[id];
  }

  /** The account has no lease in force on another vehicle, and the vehicle none of another account. */
  predicate Unclaimed(t: Tables, user: string, vehicleId: string, now: int) {
    forall id | id in t.leases && InForce(t, id, now) ::
      t.leases[id].driverId == user <==> t.leases[id].vehicleId == vehicleId
  }

  /** The entry may be put, or the account holds a lease in force. */
  predicate Cleared(t: Tables, byUser: Index, byVehicle: Index, user: string, vehicleId: string, now: int) {
    || PutAllowed(byUser, byVehicle, user, vehicleId)
    || (user in byUser && InForce(t, byUser[user].leaseId, now) && t.leases[byUser[user].leaseId].driverId == user)
  }

  /** What the two look-ups of a take tell about the table. */
  lemma LookupsTell(t: Tables, user: string, vehicleId: string, now: int, mine: Option<ActiveTakeover>,
                    other: Option<ActiveTakeover>)
    requires OneActivePerVehicle(t) && DriverExclusive(t, now)
    requires mine.Some? ==> mine.value.driver == user && Mirrors(t, mine.value) && InForce(t, mine.value.leaseId, now)
    requires mine.None? ==> forall id :: InForce(t, id, now) ==> t.leases[id].driverId != user
    requires other.Some? ==>
      other.value.vehicleId == vehicleId && Mirrors(t, other.value) && InForce(t, other.value.leaseId, now)
    requires other.None? ==> forall id :: InForce(t, id, now) ==> t.leases[id].vehicleId != vehicleId
    requires mine.Some? ==> mine.value.vehicleId == vehicleId
    ensures (other.None? || other.value.driver == user) <==> Unclaimed(t, user, vehicleId, now)
  {
    if other.None? || other.value.driver == user {
      forall id | id in t.leases && InForce(t, id, now)
        ensures t.leases[id].driverId == user <==> t.leases[id].vehicleId == vehicleId
      {
        if mine.Some? && t.leases[id].driverId == user {
          assert id == mine.value.leaseId;
        }
        if other.Some? && t.leases[id].vehicleId == vehicleId {
          assert id == other.value.leaseId;
        }
      }
    } else {
      assert InForce(t, other.value.leaseId, now);
    }
  }

  lemma OneLeaseInForce(t: Tables, user: string, leaseId: string, now: int)
    requires DriverExclusive(t, now) && InForce(t, leaseId, now) && t.leases[leaseId].driverId == user
    ensures forall id :: InForce(t, id, now) && t.leases[id].driverId == user ==> id == leaseId
  {
  }

  lemma ClearedMayPut(p: Policy, t: Tables, byUser: Index, byVehicle: Index, op: Op, now: int)
    requires op.Request? && RequestStep(p, t, op, now, now).1.Leased?
    requires Cleared(t, byUser, byVehicle, op.driverId, op.vehicleId, now)
    ensures PutAllowed(byUser, byVehicle, op.driverId, op.vehicleId)
  {
    if !PutAllowed(byUser, byVehicle, op.driverId, op.vehicleId) {
      HeldDriverIsRefused(p, t, byUser[op.driverId].leaseId, op, now);
    }
  }

  // ---------- the registry ----------

  /** The authority would grant the account the vehicle now. */
  predicate Grants(p: Policy, t: Tables, user: string, deviceId: string, vehicleId: string, gateway: Option<string>,
                   admitted: bool, newId: string, now: int) {
    RequestStep(p, t, Request(user, deviceId, vehicleId, gateway, admitted, newId), now, now).1.Leased?
  }

  /** The account has a lease in force on the vehicle. */
  predicate Holds(t: Tables, user: string, vehicleId: string, now: int) {
    exists id :: id in t.leases && HeldBy(t, id, user, vehicleId, now)
  }

  predicate HeldBy(t: Tables, id: string, user: string, vehicleId: string, now: int) {
    InForce(t, id, now) && t.leases[id].driverId == user && t.leases[id].vehicleId == vehicleId
  }

  /** The authority would renew this lease of the account now. */
  predicate WouldRenew(p: Policy, t: Tables, leaseId: string, user: string, requestId: string, admitted: bool, now: int)
    requires leaseId in t.leases
  {
    RenewStep(p, t, Renew(leaseId, user, t.leases[leaseId].deviceId, requestId, admitted), now).1.Leased?
  }

  /** The account's cached entry ends at this very instant. */
  predicate OnTheDot(byUser: Index, user: string, now: int) {
    user in byUser && byUser[user].until == now
  }

  predicate ValidAt(t: Tables, leaseId: string, now: int) {
    leaseId in t.leases && now < t.leases[leaseId].validUntil
  }

  /** The authority renewed the entry's lease, and the entry ends when the renewed lease does. */
  predicate Renews(p: Policy, t: Tables, u: Tables, a: ActiveTakeover, requestId: string, admitted: bool, now: int) {
    var (next, reply) := Apply(p, t, Renew(a.leaseId, a.driver, a.deviceId, requestId, admitted), now, now);
    next == u && reply.Leased? && reply.lease.validUntil == a.until
  }

  datatype Verdict = Taken(entry: ActiveTakeover) | Denied

  class TakeoverReg {
    var byUser: Index
    var byVehicle: Index

    ghost predicate Valid()
      reads this
    {
      Inverse(byUser, byVehicle)
    }

    constructor ()
      ensures Valid() && byUser == map[] && byVehicle == map[]
    {
      byUser, byVehicle := map[], map[];
    }

    /** Rebuild both indexes from the query's rows; `rows` is None when the query fails. */
    method RefreshFromDB(t: Tables, rows: Option<seq<string>>, dbNow: int)
      requires OneActivePerVehicle(t) && (rows.Some? ==> Selects(t, rows.value, dbNow))
      modifies this
      ensures rows.None? ==> byUser == old(byUser) && byVehicle == old(byVehicle)
      ensures rows.Some? ==> Projects(t, rows.value, byUser, byVehicle) && (Valid() <==> DriverExclusive(t, dbNow))
    {
      if rows.None? {
        return;
      }
      var users, vehicles := BuildIndexes(t, rows.value, dbNow);
      ProjectionInverseIff(t, rows.value, users, vehicles, dbNow);
      byUser, byVehicle := users, vehicles;
    }

    static method BuildIndexes(t: Tables, ids: seq<string>, dbNow: int) returns (users: Index, vehicles: Index)
      requires OneActivePerVehicle(t) && Selects(t, ids, dbNow)
      ensures Projects(t, ids, users, vehicles)
    {
      users, vehicles := map[], map[];
      for i := 0 to |ids|
        invariant ProjectsTo(t, ids, i, users, vehicles)
      {
        users, vehicles := AddRow(t, ids, i, users, vehicles, dbNow);
      }
    }

    /** One row: a fresh entry, shared by both indexes. */
    static method AddRow(t: Tables, ids: seq<string>, i: nat, users: Index, vehicles: Index, dbNow: int)
      returns (byUser: Index, byVehicle: Index)
      requires OneActivePerVehicle(t) && Selects(t, ids, dbNow) && i < |ids| && ProjectsTo(t, ids, i, users, vehicles)
      ensures ProjectsTo(t, ids, i + 1, byUser, byVehicle)
    {
      var row := t.leases[ids[i]];
      var a := new ActiveTakeover(ids[i], row, row.driverId, row.deviceId, row.vehicleId, row.issuedAt);
      ProjectNext(t, ids, i, users, vehicles, a, dbNow);
      return users[a.driver := a], vehicles[a.vehicleId := a];
    }

    /** Visit every account entry once, in any order, deleting the expired ones from both indexes. */
    method GcLocked(now: int)
      modifies this
      ensures byUser == Survivors(old(byUser), now) && byVehicle == Evict(old(byUser), old(byVehicle), now)
    {
      ghost var us, vs := byUser, byVehicle;
      ghost var done: set<string> := {};
      var todo := byUser.Keys;
      while todo != {}
        invariant done !! todo && done + todo == us.Keys
        invariant byUser == map u | u in us && (u in done ==> now <= us[u].until) :: us[u]
        invariant byVehicle == map v | v in vs && !StaleAmong(done, us, vs[v], v, now) :: vs[v]
        decreases todo
      {
        var u :| u in todo;
        todo := todo - {u};
        done := done + {u};
        var a := byUser[u];
        if now > a.until {
          byUser := byUser - {u};
          if a.vehicleId in byVehicle && byVehicle[a.vehicleId] == a {
            byVehicle := byVehicle - {a.vehicleId};
          }
        }
      }
    }

    method Put(a: ActiveTakeover, now: int)
      requires Valid()
      modifies this
      ensures byUser == Survivors(old(byUser), now)[a.driver := a]
      ensures byVehicle == Survivors(old(byVehicle), now)[a.vehicleId := a]
      ensures Valid() <==>
        PutAllowed(Survivors(old(byUser), now), Survivors(old(byVehicle), now), a.driver, a.vehicleId)
    {
      GcKeepsInverse(byUser, byVehicle, now);
      GcLocked(now);
      PutKeepsInverseIff(byUser, byVehicle, a);
      byUser := byUser[a.driver := a];
      byVehicle := byVehicle[a.vehicleId := a];
    }

    method Release(user: string) returns (a: Option<ActiveTakeover>)
      requires Valid()
      modifies this
      ensures Valid() && a == if user in old(byUser) then Some(old(byUser)[user]) else None
      ensures byUser == RemoveUser(old(byUser), user) && byVehicle == RemoveTwin(old(byUser), old(byVehicle), user)
    {
      ReleaseKeepsInverse(byUser, byVehicle, user);
      if user !in byUser {
        assert byUser - {user} == byUser;
        return None;
      }
      var found := byUser[user];
      byUser := byUser - {user};
      if found.vehicleId in byVehicle && byVehicle[found.vehicleId] == found {
        byVehicle := byVehicle - {found.vehicleId};
      }
      return Some(found);
    }

    /** Refresh and sweep, as every lookup does first. */
    method Sync(t: Tables, rows: Option<seq<string>>, dbNow: int, now: int)
      requires Valid() && OneActivePerVehicle(t) && DriverExclusive(t, dbNow)
      requires rows.Some? ==> Selects(t, rows.value, dbNow)
      modifies this
      ensures Valid() && Swept(byUser, now) && Swept(byVehicle, now)
      ensures rows.None? ==> byUser == Survivors(old(byUser), now)
      ensures rows.Some? ==>
        && (forall u :: u in byUser ==> Mirrors(t, byUser[u]) && InForce(t, byUser[u].leaseId, dbNow))
        && (forall id :: InForce(t, id, dbNow) && now <= t.leases[id].validUntil ==>
              t.leases[id].driverId in byUser && byUser[t.leases[id].driverId].leaseId == id)
      ensures dbNow <= now && AllAccurate(t, old(byUser), now) ==> AllAccurate(t, byUser, now)
    {
      RefreshFromDB(t, rows, dbNow);
      ghost var us, vs := byUser, byVehicle;
      GcKeepsInverse(us, vs, now);
      GcLocked(now);
      if rows.Some? {
        forall id | InForce(t, id, dbNow) && now <= t.leases[id].validUntil
          ensures t.leases[id].driverId in byUser && byUser[t.leases[id].driverId].leaseId == id
        {
          InverseSeparates(t, rows.value, us, vs, id, dbNow);
        }
      }
    }

    /** The account's takeover: after a successful query its lease in force, whenever the table has one. */
    method Mine(t: Tables, rows: Option<seq<string>>, user: string, dbNow: int, now: int)
      returns (a: Option<ActiveTakeover>)
      requires Valid() && OneActivePerVehicle(t) && DriverExclusive(t, dbNow)
      requires rows.Some? ==> Selects(t, rows.value, dbNow)
      modifies this
      ensures Valid() && Swept(byUser, now) && Swept(byVehicle, now)
      ensures a == if user in byUser then Some(byUser[user]) else None
      ensures rows.None? ==> byUser == Survivors(old(byUser), now)
      ensures dbNow <= now && AllAccurate(t, old(byUser), now) ==> AllAccurate(t, byUser, now)
      ensures a.Some? ==> a.value.driver == user
      ensures rows.Some? && a.Some? ==> Mirrors(t, a.value) && InForce(t, a.value.leaseId, dbNow)
      ensures rows.Some? && a.None? ==>
        forall id :: InForce(t, id, dbNow) && now <= t.leases[id].validUntil ==> t.leases[id].driverId != user
    {
      Sync(t, rows, dbNow, now);
      return if user in byUser then Some(byUser[user]) else None;
    }

    method ByVehicle(t: Tables, rows: Option<seq<string>>, vehicle: string, dbNow: int, now: int)
      returns (a: Option<ActiveTakeover>)
      requires Valid() && OneActivePerVehicle(t) && DriverExclusive(t, dbNow)
      requires rows.Some? ==> Selects(t, rows.value, dbNow)
      modifies this
      ensures Valid() && Swept(byUser, now) && Swept(byVehicle, now)
      ensures a == if vehicle in byVehicle then Some(byVehicle[vehicle]) else None
      ensures rows.None? ==> byUser == Survivors(old(byUser), now)
      ensures dbNow <= now && AllAccurate(t, old(byUser), now) ==> AllAccurate(t, byUser, now)
      ensures rows.Some? ==> forall u :: u in byUser ==> Mirrors(t, byUser[u]) && InForce(t, byUser[u].leaseId, dbNow)
      ensures a.Some? ==> a.value.vehicleId == vehicle
      ensures rows.Some? && a.Some? ==> Mirrors(t, a.value) && InForce(t, a.value.leaseId, dbNow)
      ensures rows.Some? && a.None? ==>
        forall id :: InForce(t, id, dbNow) && now <= t.leases[id].validUntil ==> t.leases[id].vehicleId != vehicle
    {
      Sync(t, rows, dbNow, now);
      return if vehicle in byVehicle then Some(byVehicle[vehicle]) else None;
    }

    /** Put the entry of a lease just issued or renewed. */
    method Bind(leaseId: string, row: LeaseRow, user: string, deviceId: string, vehicleId: string, started: int,
                now: int)
      returns (a: ActiveTakeover)
      requires Valid() && PutAllowed(byUser, byVehicle, user, vehicleId)
      modifies this
      ensures Valid() && a.leaseId == leaseId && a.driver == user && a.vehicleId == vehicleId && a.deviceId == deviceId
      ensures a.until == row.validUntil && a.fencing == row.fencing && a.started == started
      ensures user in byUser && byUser[user] == a && vehicleId in byVehicle && byVehicle[vehicleId] == a
      ensures forall u :: u in byUser ==> byUser[u] == a || (u in old(byUser) && byUser[u] == old(byUser)[u])
    {
      a := new ActiveTakeover(leaseId, row, user, deviceId, vehicleId, started);
      SurvivorsAllowPut(byUser, byVehicle, now, user, vehicleId);
      Put(a, now);
    }

    /** The account's takeover if it is of this vehicle, as keepalive looks it up. */
    method Held(t: Tables, rows: Option<seq<string>>, user: string, vehicleId: string, now: int)
      returns (m: Option<ActiveTakeover>)
      requires Valid() && OneActivePerVehicle(t) && DriverExclusive(t, now) && AllAccurate(t, byUser, now)
      requires rows.Some? ==> Selects(t, rows.value, now)
      modifies this
      ensures Valid() && AllAccurate(t, byUser, now)
      ensures m.Some? ==> PutAllowed(byUser, byVehicle, user, vehicleId) && user in byUser && byUser[user] == m.value
      ensures m.Some? && (rows.Some? || !OnTheDot(old(byUser), user, now)) ==> ValidAt(t, m.value.leaseId, now)
      ensures rows.Some? ==> (m.Some? <==> Holds(t, user, vehicleId, now))
      ensures rows.Some? && m.Some? ==> Mirrors(t, m.value)
      ensures rows.Some? && m.Some? ==>
        forall id :: id in t.leases && HeldBy(t, id, user, vehicleId, now) ==> id == m.value.leaseId
    {
      var mine := Mine(t, rows, user, now, now);
      if mine.None? || mine.value.vehicleId != vehicleId {
        if rows.Some? && mine.Some? {
          OneLeaseInForce(t, user, mine.value.leaseId, now);
        }
        return None;
      }
      if rows.Some? {
        OneLeaseInForce(t, user, mine.value.leaseId, now);
      }
      assert IsAccurate(t, user, mine.value, now);
      return mine;
    }

    /**
     Keepalive: renew the caller's own lease and put the renewed entry. `deviceOk` is the verdict on
     the control device; the whole handler is one step at time `now`. The lease it renews is valid at that
     moment, except that after a failed query an entry that ends exactly now still counts.
     */
    method Keepalive(authority: DurableAuthority, rows: Option<seq<string>>, user: string, vehicleId: string,
                     requestId: string, deviceOk: bool, admitted: bool, now: int) returns (v: Verdict)
      requires Valid() && OneActivePerVehicle(authority.Contents()) && DriverExclusive(authority.Contents(), now)
      requires rows.Some? ==> Selects(authority.Contents(), rows.value, now)
      requires AllAccurate(authority.Contents(), byUser, now)
      modifies this, authority
      ensures Valid()
      ensures forall u :: u in byUser ==>
        (v.Taken? && byUser[u] == v.entry) || IsAccurate(old(authority.Contents()), u, byUser[u], now)
      ensures v.Denied? ==> authority.Contents() == old(authority.Contents())
      ensures v.Taken? ==>
        && v.entry.driver == user && v.entry.vehicleId == vehicleId && user in byUser && byUser[user] == v.entry
        && Renews(authority.policy, old(authority.Contents()), authority.Contents(), v.entry, requestId, admitted, now)
        && Tracked(old(authority.Contents()), user, v.entry.leaseId, now)
        && (rows.Some? || !OnTheDot(old(byUser), user, now) ==>
              ValidAt(old(authority.Contents()), v.entry.leaseId, now))
      ensures rows.Some? && v.Denied? && deviceOk ==>
        var was := old(authority.Contents());
        forall id :: id in was.leases && HeldBy(was, id, user, vehicleId, now) ==>
          !WouldRenew(authority.policy, was, id, user, requestId, admitted, now)
    {
      var held := Held(authority.Contents(), rows, user, vehicleId, now);
      if held.None? || !deviceOk {
        return Denied;
      }
      assert IsAccurate(authority.Contents(), user, held.value, now);
      v := RenewAndPut(authority, held.value, user, vehicleId, requestId, admitted, now);
    }

    /** The rest of the keepalive handler: renew, then put. */
    method RenewAndPut(authority: DurableAuthority, m: ActiveTakeover, user: string, vehicleId: string,
                       requestId: string, admitted: bool, now: int) returns (v: Verdict)
      requires Valid() && PutAllowed(byUser, byVehicle, user, vehicleId)
      modifies this, authority
      ensures Valid() && (v.Denied? ==> authority.Contents() == old(authority.Contents()) && byUser == old(byUser))
      ensures forall u :: u in byUser ==>
        (u in old(byUser) && byUser[u] == old(byUser)[u]) || (v.Taken? && byUser[u] == v.entry)
      ensures v.Taken? ==> Places(v.entry, user, vehicleId) && v.entry.leaseId == m.leaseId
      ensures Mirrors(old(authority.Contents()), m) ==>
        var was := old(authority.Contents());
        v.Taken? <==> WouldRenew(authority.policy, was, m.leaseId, user, requestId, admitted, now)
      ensures v.Taken? ==>
        Renews(authority.policy, old(authority.Contents()), authority.Contents(), v.entry, requestId, admitted, now)
    {
      var reply := authority.RenewLease(m.leaseId, user, m.deviceId, requestId, admitted, now);
      if !reply.Leased? {
        return Denied;
      }
      var a := Bind(reply.leaseId, reply.lease, user, m.deviceId, vehicleId, m.started, now);
      return Taken(a);
    }

    /** Give back: release the caller's lease at the authority, then drop the entry. */
    method GiveBack(authority: DurableAuthority, rows: Option<seq<string>>, user: string, now: int)
      returns (gone: Option<ActiveTakeover>)
      requires Valid() && OneActivePerVehicle(authority.Contents()) && DriverExclusive(authority.Contents(), now)
      requires rows.Some? ==> Selects(authority.Contents(), rows.value, now)
      requires AllAccurate(authority.Contents(), byUser, now)
      modifies this, authority
      ensures Valid() && AllAccurate(old(authority.Contents()), byUser, now)
      ensures gone.None? ==> authority.Contents() == old(authority.Contents())
      ensures gone.Some? ==> user !in byUser
      ensures gone.Some? && rows.Some? ==> InForce(old(authority.Contents()), gone.value.leaseId, now)
      ensures gone.None? && rows.Some? ==>
        var was := old(authority.Contents());
        forall id :: id in was.leases && InForce(was, id, now) && was.leases[id].driverId == user ==>
          ReleaseStep(was, Op.Release(id, user, was.leases[id].deviceId), now).1.Refused?
      ensures gone.Some? ==>
        var op := Op.Release(gone.value.leaseId, user, gone.value.deviceId);
        authority.Contents() == Apply(authority.policy, old(authority.Contents()), op, now, now).0
    {
      var mine := Mine(authority.Contents(), rows, user, now, now);
      if mine.None? {
        return None;
      }
      if rows.Some? {
        OneLeaseInForce(authority.Contents(), user, mine.value.leaseId, now);
      }
      gone := ReleaseAndDrop(authority, mine.value, user, now);
    }

    /** The rest of the give-back handler: release, then drop the entry. */
    method ReleaseAndDrop(authority: DurableAuthority, m: ActiveTakeover, user: string, now: int)
      returns (gone: Option<ActiveTakeover>)
      requires Valid() && user in byUser && byUser[user] == m
      modifies this, authority
      ensures Valid() && forall u :: u in byUser ==> u in old(byUser) && byUser[u] == old(byUser)[u]
      ensures gone.None? ==> authority.Contents() == old(authority.Contents())
      ensures gone.None? <==>
        ReleaseStep(old(authority.Contents()), Op.Release(m.leaseId, user, m.deviceId), now).1.Refused?
      ensures gone.Some? ==> gone.value == m && user !in byUser
      ensures gone.Some? ==>
        var op := Op.Release(m.leaseId, user, m.deviceId);
        authority.Contents() == Apply(authority.policy, old(authority.Contents()), op, now, now).0
    {
      var reply := authority.ReleaseLease(m.leaseId, user, m.deviceId, now);
      if !reply.Ended? {
        return None;
      }
      gone := Release(user);
    }

    /**
     The two lookups of the take handler. When the first query failed and the second did not, the account
     may have turned out to hold a lease after all.
     */
    method MayTake(t: Tables, rows: Option<seq<string>>, again: Option<seq<string>>, user: string,
                   vehicleId: string, now: int)
      returns (clear: bool)
      requires Valid() && OneActivePerVehicle(t) && DriverExclusive(t, now)
      requires rows.Some? ==> Selects(t, rows.value, now)
      requires again.Some? ==> Selects(t, again.value, now)
      modifies this
      ensures Valid() && (AllAccurate(t, old(byUser), now) ==> AllAccurate(t, byUser, now))
      ensures clear ==> Cleared(t, byUser, byVehicle, user, vehicleId, now)
      ensures rows.Some? && again.Some? ==> (clear <==> Unclaimed(t, user, vehicleId, now))
    {
      var mine := Mine(t, rows, user, now, now);
      if mine.Some? && mine.value.vehicleId != vehicleId {
        assert rows.Some? ==> InForce(t, mine.value.leaseId, now);
        return false;
      }
      var other := ByVehicle(t, again, vehicleId, now, now);
      if rows.Some? && again.Some? {
        LookupsTell(t, user, vehicleId, now, mine, other);
      }
      return other.None? || other.value.driver == user;
    }

    /** The rest of the take handler: request, then put. */
    method RequestAndPut(authority: DurableAuthority, user: string, deviceId: string, vehicleId: string,
                         gateway: Option<string>, admitted: bool, newId: string, now: int) returns (v: Verdict)
      requires Valid() && Cleared(authority.Contents(), byUser, byVehicle, user, vehicleId, now)
      modifies this, authority
      ensures Valid() && (v.Denied? ==> authority.Contents() == old(authority.Contents()) && byUser == old(byUser))
      ensures forall u :: u in byUser ==>
        (u in old(byUser) && byUser[u] == old(byUser)[u]) || (v.Taken? && byUser[u] == v.entry)
      ensures v.Taken? ==> Places(v.entry, user, vehicleId) && Backed(authority.Contents(), v.entry)
      ensures v.Taken? <==>
        Grants(authority.policy, old(authority.Contents()), user, deviceId, vehicleId, gateway, admitted, newId, now)
      ensures v.Taken? ==>
        (authority.Contents(), Leased(v.entry.leaseId, authority.leases[v.entry.leaseId])) ==
          Apply(authority.policy, old(authority.Contents()),
                Request(user, deviceId, vehicleId, gateway, admitted, newId), now, now)
    {
      ghost var was := authority.Contents();
      var reply := authority.RequestLease(user, deviceId, vehicleId, gateway, admitted, newId, now, now);
      if !reply.Leased? {
        return Denied;
      }
      ClearedMayPut(authority.policy, was, byUser, byVehicle,
                    Request(user, deviceId, vehicleId, gateway, admitted, newId), now);
      var a := Bind(reply.leaseId, reply.lease, user, deviceId, vehicleId, reply.lease.issuedAt, now);
      return Taken(a);
    }

    /** Take: refuse an account with another vehicle or a vehicle with another account, then request and put. */
    method Take(authority: DurableAuthority, rows: Option<seq<string>>, again: Option<seq<string>>, user: string,
                deviceId: string, vehicleId: string, handlerOk: bool, gateway: Option<string>, admitted: bool,
                newId: string, now: int)
      returns (v: Verdict)
      requires Valid() && OneActivePerVehicle(authority.Contents()) && DriverExclusive(authority.Contents(), now)
      requires rows.Some? ==> Selects(authority.Contents(), rows.value, now)
      requires again.Some? ==> Selects(authority.Contents(), again.value, now)
      requires AllAccurate(authority.Contents(), byUser, now)
      modifies this, authority
      ensures Valid() && (v.Denied? ==> authority.Contents() == old(authority.Contents()))
      ensures forall u :: u in byUser ==>
        (v.Taken? && byUser[u] == v.entry) || IsAccurate(old(authority.Contents()), u, byUser[u], now)
      ensures v.Taken? ==> Places(v.entry, user, vehicleId) && Backed(authority.Contents(), v.entry)
      ensures rows.Some? && again.Some? ==>
        var was := old(authority.Contents());
        v.Taken? <==>
          && vehicleId != "" && deviceId != "" && handlerOk && Unclaimed(was, user, vehicleId, now)
          && Grants(authority.policy, was, user, deviceId, vehicleId, gateway, admitted, newId, now)
      ensures v.Taken? ==>
        (authority.Contents(), Leased(v.entry.leaseId, authority.leases[v.entry.leaseId])) ==
          Apply(authority.policy, old(authority.Contents()),
                Request(user, deviceId, vehicleId, gateway, admitted, newId), now, now)
    {
      if vehicleId == "" || deviceId == "" || !handlerOk {
        return Denied;
      }
      var clear := MayTake(authority.Contents(), rows, again, user, vehicleId, now);
      if !clear {
        return Denied;
      }
      v := RequestAndPut(authority, user, deviceId, vehicleId, gateway, admitted, newId, now);
    }

    /** Both indexes hold the entry, for this account and this vehicle. */
    ghost predicate Places(a: ActiveTakeover, user: string, vehicleId: string)
      reads this
    {
      && a.driver == user && a.vehicleId == vehicleId
      && user in byUser && byUser[user] == a && vehicleId in byVehicle && byVehicle[vehicleId] == a
    }
  }

  predicate Swept(m: Index, now: int) {
    forall k :: k in m ==> now <= m[k].until
  }
}
