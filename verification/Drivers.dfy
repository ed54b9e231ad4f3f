/** Whether a driver can hold two leases at once, with and without the database's driver index. */
module Drivers {
  import opened Prelude
  import opened Authority
  import opened AuthorityRuns

  predicate OneActivePerDriver(t: Tables) {
    forall a, b | a in t.leases && b in t.leases && t.leases[a].state == Active && t.leases[b].state == Active ::
      t.leases[a].driverId == t.leases[b].driverId ==> a == b
  }

  /** No driver holds two leases that are active and still valid at `clock`. */
  predicate DriverExclusive(t: Tables, clock: int) {
    forall a, b | a in t.leases && b in t.leases && t.leases[a].state == Active && t.leases[b].state == Active ::
      t.leases[a].driverId == t.leases[b].driverId && a != b ==>
        t.leases[a].validUntil <= clock || t.leases[b].validUntil <= clock
  }

  lemma IndexStep(p: Policy, t: Tables, op: Op, dbNow: int, now: int)
    requires p.driverIndex && OneActivePerDriver(t)
    ensures OneActivePerDriver(Apply(p, t, op, dbNow, now).0)
  {
  }

  /** With the driver index no driver ever has two active leases, lapsed ones included. */
  lemma {:induction false} IndexMakesDriversExclusive(p: Policy, calls: seq<Call>)
    requires p.driverIndex
    ensures OneActivePerDriver(Exec(p, calls))
  {
    if calls != [] {
      var init, c := calls[..|calls| - 1], calls[|calls| - 1];
      IndexMakesDriversExclusive(p, init);
      IndexStep(p, Exec(p, init), c.op, c.dbNow, c.now);
    }
  }

  /** A renewal only of a lease that is still valid by the clock the database may show. */
  predicate KeepaliveGuard(p: Policy, t: Tables, c: Call) {
    c.op.Renew? && c.op.leaseId in t.leases ==> c.now + p.dbAhead < t.leases[c.op.leaseId].validUntil
  }

  predicate KeepaliveOnly(p: Policy, calls: seq<Call>) {
    calls == [] ||
    var init := calls[..|calls| - 1];
    KeepaliveOnly(p, init) && KeepaliveGuard(p, Exec(p, init), calls[|calls| - 1])
  }

  lemma RequestStaysExclusive(p: Policy, t: Tables, op: Op, dbNow: int, now: int, clock: int)
    requires op.Request? && DriverExclusive(t, clock) && dbNow <= clock
    ensures DriverExclusive(RequestStep(p, t, op, dbNow, now).0, clock)
  {
    var (u, reply) := RequestStep(p, t, op, dbNow, now);
    if reply.Leased? {
      var rows := ExpireLapsed(t.leases, op.vehicleId, dbNow);
      forall a, b | a in u.leases && b in u.leases && u.leases[a].state == Active && u.leases[b].state == Active
                    && u.leases[a].driverId == u.leases[b].driverId && a != b
        ensures u.leases[a].validUntil <= clock || u.leases[b].validUntil <= clock
      {
        assert a != op.newId ==> a in rows && u.leases[a] == rows[a];
        assert b != op.newId ==> b in rows && u.leases[b] == rows[b];
      }
    }
  }

  /** The driver's only lease valid at `clock`, if any, is the one to be renewed. */
  predicate RenewsOnlyLease(t: Tables, op: Op, clock: int) {
    op.Renew? ==>
      forall id | id in t.leases && t.leases[id].state == Active && t.leases[id].driverId == op.driverId ::
        clock < t.leases[id].validUntil ==> id == op.leaseId
  }

  lemma OtherStaysExclusive(p: Policy, t: Tables, op: Op, now: int, clock: int)
    requires !op.Request? && RenewsOnlyLease(t, op, clock) && DriverExclusive(t, clock)
    ensures DriverExclusive(Apply(p, t, op, now, now).0, clock)
  {
  }

  lemma GuardFindsOnlyLease(p: Policy, t: Tables, c: Call)
    requires KeepaliveGuard(p, t, c) && DriverExclusive(t, c.now + p.dbAhead)
    requires c.op.Renew? && RenewStep(p, t, c.op, c.now).1.Leased?
    ensures RenewsOnlyLease(t, c.op, c.now + p.dbAhead)
  {
  }

  /**
   Without the index, renewing only leases that are still valid is enough: no driver ever holds two leases
   valid by the clock the database may show.
   */
  lemma {:induction false} KeepaliveMakesDriversExclusive(p: Policy, calls: seq<Call>, start: int)
    requires InOrder(p, calls, start) && KeepaliveOnly(p, calls)
    ensures DriverExclusive(Exec(p, calls), EndTime(calls, start) + p.dbAhead)
  {
    if calls != [] {
      var init, c := calls[..|calls| - 1], calls[|calls| - 1];
      KeepaliveMakesDriversExclusive(p, init, start);
      var t, clock := Exec(p, init), c.now + p.dbAhead;
      assert DriverExclusive(t, clock);
      if c.op.Request? {
        RequestStaysExclusive(p, t, c.op, c.dbNow, c.now, clock);
      } else if Apply(p, t, c.op, c.dbNow, c.now).1.Refused? {
        RefusalChangesNothing(p, t, c.op, c.dbNow, c.now);
      } else {
        if c.op.Renew? {
          GuardFindsOnlyLease(p, t, c);
        }
        OtherStaysExclusive(p, t, c.op, c.now, clock);
      }
    }
  }

  /**
   Exactly when a renewal (the only transaction that can revive a lapsed lease) keeps drivers
   exclusive: when the driver holds no other active lease that is valid now.
   */
  lemma RenewalKeepsExclusivityIff(p: Policy, t: Tables, op: Op, now: int)
    requires ValidPolicy(p) && FirstRenewal(p, t, op, now) && DriverExclusive(t, now)
    ensures DriverExclusive(RenewStep(p, t, op, now).0, now) <==>
      !exists id :: id in t.leases && id != op.leaseId && t.leases[id].state == Active
                    && t.leases[id].driverId == t.leases[op.leaseId].driverId && now < t.leases[id].validUntil
  {
    var u := RenewStep(p, t, op, now).0;
    assert u.leases[op.leaseId].validUntil == now + p.leaseTTL;
    if id :| id in t.leases && id != op.leaseId && t.leases[id].state == Active
             && t.leases[id].driverId == t.leases[op.leaseId].driverId && now < t.leases[id].validUntil {
      assert u.leases[id] == t.leases[id];
    }
  }

  // One driver, two cars: the first lease lapses, the second is issued, the first is renewed in its grace window.

  const LOOSE := Policy(45, 15, false, 0)
  const FIRST := Call(Request("driver", "device", "car-1", Some("gw-1"), true, "lease-1"), 0, 0)
  const SECOND_CAR := Call(Request("driver", "device", "car-2", Some("gw-2"), true, "lease-2"), 50, 50)
  const REVIVAL := Call(Renew("lease-1", "driver", "device", "0123456789abcdef", true), 55, 55)

  const ROW_1 := LeaseRow("car-1", "gw-1", "driver", "device", 1, Active, 0, 45)
  const ROW_2 := LeaseRow("car-2", "gw-2", "driver", "device", 1, Active, 50, 95)

  lemma OneCallMore(p: Policy, calls: seq<Call>, c: Call, start: int)
    ensures Exec(p, calls + [c]) == Apply(p, Exec(p, calls), c.op, c.dbNow, c.now).0
    ensures EndTime(calls + [c], start) == c.now
    ensures InOrder(p, calls, start) && EndTime(calls, start) <= c.now && c.dbNow <= c.now + p.dbAhead ==>
              InOrder(p, calls + [c], start)
  {
    assert (calls + [c])[..|calls|] == calls;
  }

  function OneCar(): seq<Call> {
    [] + [FIRST]
  }

  function TwoCars(): seq<Call> {
    OneCar() + [SECOND_CAR]
  }

  lemma FirstTake(p: Policy)
    requires p.leaseTTL == 45
    ensures var t := Exec(p, OneCar());
      t.leases == map["lease-1" := ROW_1] && t.renewals == map[] && "car-2" !in t.epochs
    ensures InOrder(p, OneCar(), 0)
  {
    OneCallMore(p, [], FIRST, 0);
    assert ExpireLapsed(map[], "car-1", 0) == map[];
  }

  lemma SecondTake()
    ensures Exec(LOOSE, TwoCars()).leases == map["lease-1" := ROW_1]["lease-2" := ROW_2]
    ensures Exec(LOOSE, TwoCars()).renewals == map[]
    ensures InOrder(LOOSE, TwoCars(), 0)
  {
    FirstTake(LOOSE);
    OneCallMore(LOOSE, [], FIRST, 0);
    OneCallMore(LOOSE, OneCar(), SECOND_CAR, 0);
    var t := Exec(LOOSE, OneCar());
    assert ExpireLapsed(t.leases, "car-2", 50) == t.leases;
  }

  lemma RenewalRevives(p: Policy, t: Tables, now: int)
    requires "lease-1" in t.leases && t.leases["lease-1"] == ROW_1 && t.renewals == map[]
    requires p.leaseTTL == 45 && p.grace == 15 && now <= 60
    ensures RenewStep(p, t, REVIVAL.op, now).0.leases == t.leases["lease-1" := ROW_1.(validUntil := now + 45)]
  {
  }

  /** Without the index and outside the keepalive path a grace-window renewal gives one driver two valid leases. */
  lemma GraceRenewalBreaksExclusivity()
    ensures var calls := TwoCars() + [REVIVAL];
      InOrder(LOOSE, calls, 0) && EndTime(calls, 0) == 55 && !DriverExclusive(Exec(LOOSE, calls), 55)
  {
    SecondTake();
    RenewalRevives(LOOSE, Exec(LOOSE, TwoCars()), 55);
    OneCallMore(LOOSE, TwoCars(), REVIVAL, 0);
    var t := Exec(LOOSE, TwoCars() + [REVIVAL]);
    assert t.leases["lease-1"].validUntil == 100 && t.leases["lease-2"].validUntil == 95;
  }

  // A database clock six units ahead: the second car is granted while the first lease still has five to run,
  // and renewing that lease, still valid by the service's clock, gives the driver two.

  const AHEAD := LOOSE.(dbAhead := 6)
  const EARLY_SECOND := Call(SECOND_CAR.op, 46, 40)
  const EARLY_REVIVAL := Call(REVIVAL.op, 42, 42)

  lemma EarlySecondTake()
    ensures var t := Exec(AHEAD, OneCar() + [EARLY_SECOND]);
      && t.leases == map["lease-1" := ROW_1]["lease-2" := ROW_2.(issuedAt := 40, validUntil := 85)]
      && t.renewals == map[]
    ensures InOrder(AHEAD, OneCar() + [EARLY_SECOND], 0)
  {
    FirstTake(AHEAD);
    OneCallMore(AHEAD, [], FIRST, 0);
    OneCallMore(AHEAD, OneCar(), EARLY_SECOND, 0);
    var t := Exec(AHEAD, OneCar());
    assert ExpireLapsed(t.leases, "car-2", 46) == t.leases;
  }

  /** Valid by the service's clock alone is not enough for a renewal when the database's clock is ahead. */
  lemma ServiceClockIsNotEnough()
    ensures var before, calls := OneCar() + [EARLY_SECOND], OneCar() + [EARLY_SECOND] + [EARLY_REVIVAL];
      && InOrder(AHEAD, calls, 0) && EndTime(calls, 0) == 42
      && "lease-1" in Exec(AHEAD, before).leases && 42 < Exec(AHEAD, before).leases["lease-1"].validUntil
      && !DriverExclusive(Exec(AHEAD, calls), 42 + AHEAD.dbAhead)
  {
    var before := OneCar() + [EARLY_SECOND];
    EarlySecondTake();
    RenewalRevives(AHEAD, Exec(AHEAD, before), 42);
    OneCallMore(AHEAD, OneCar(), EARLY_SECOND, 0);
    OneCallMore(AHEAD, before, EARLY_REVIVAL, 0);
    var t := Exec(AHEAD, before + [EARLY_REVIVAL]);
    assert t.leases["lease-1"].validUntil == 87 && t.leases["lease-2"].validUntil == 85;
  }

  // ---------- lapsed leases ----------

  /** Everything a Request needs but the unique indexes. */
  predicate OtherwiseGranted(t: Tables, op: Op, dbNow: int) {
    && op.Request? && op.driverId != "" && op.deviceId != "" && op.vehicleId != "" && op.gateway.Some? && op.admitted
    && !VehicleHeld(t.leases, op.vehicleId, dbNow) && !DriverHolds(t.leases, op.driverId, dbNow)
    && op.newId !in t.leases && EpochOf(t.epochs, op.vehicleId).fencing + 1 < INT64_LIMIT
  }

  /** A lease of the driver that is still marked active on another vehicle. */
  predicate Blocks(t: Tables, id: string, driverId: string, vehicleId: string) {
    id in t.leases && t.leases[id].state == Active && t.leases[id].driverId == driverId
    && t.leases[id].vehicleId != vehicleId
  }

  /**
   With the driver index, a driver who holds no valid lease is refused a free vehicle exactly when a lapsed
   lease of theirs on another vehicle is still marked active.
   */
  lemma LapsedLeaseBlocksIff(p: Policy, t: Tables, op: Op, dbNow: int, now: int)
    requires p.driverIndex && OtherwiseGranted(t, op, dbNow)
    ensures RequestStep(p, t, op, dbNow, now).1.Refused? <==>
      exists id :: id in t.leases && Blocks(t, id, op.driverId, op.vehicleId)
    ensures RequestStep(p, t, op, dbNow, now).1.Refused? ==>
      RequestStep(p, t, op, dbNow, now).1.why == ConstraintViolated
  {
    var rows := ExpireLapsed(t.leases, op.vehicleId, dbNow);
    forall id | id in rows && rows[id].state == Active
      ensures rows[id] == t.leases[id] && rows[id].vehicleId != op.vehicleId
    {
      assert rows[id] == t.leases[id];
    }
    if id :| id in t.leases && Blocks(t, id, op.driverId, op.vehicleId) {
      assert rows[id] == t.leases[id];
    }
  }

  /** The transactions that can end the active mark of a lease. */
  predicate Unmarks(t: Tables, op: Op, id: string)
    requires id in t.leases
  {
    || (op.Request? && op.vehicleId == t.leases[id].vehicleId)
    || (op.Release? && op.leaseId == id)
    || (op.EmergencyStop? && op.vehicleId == t.leases[id].vehicleId)
  }

  /** Exactly these: a granted Request of its vehicle, its Release, or an EmergencyStop of its vehicle. */
  lemma LeaseIsUnmarkedIff(p: Policy, t: Tables, op: Op, dbNow: int, now: int, id: string)
    requires id in t.leases && t.leases[id].state == Active
    ensures var (u, reply) := Apply(p, t, op, dbNow, now);
      && id in u.leases
      && (u.leases[id].state != Active <==> !reply.Refused? && Unmarks(t, op, id))
      && (u.leases[id].state == Active ==>
            u.leases[id].driverId == t.leases[id].driverId && u.leases[id].vehicleId == t.leases[id].vehicleId)
  {
    if op.Request? && RequestStep(p, t, op, dbNow, now).1.Leased? {
      var rows := ExpireLapsed(t.leases, op.vehicleId, dbNow);
      assert rows[id].state == Active ==> rows[id] == t.leases[id];
      assert id != op.newId;
    }
  }

  /** No call from position `n` on ends the active mark of the lease. */
  predicate NeverUnmarked(p: Policy, calls: seq<Call>, n: nat, id: string) {
    |calls| <= n ||
    var init, c := calls[..|calls| - 1], calls[|calls| - 1];
    var t := Exec(p, init);
    && NeverUnmarked(p, init, n, id)
    && (id in t.leases && Unmarks(t, c.op, id) ==> Apply(p, t, c.op, c.dbNow, c.now).1.Refused?)
  }

  /** However long it has lapsed, the lease blocks its driver until one of them happens. */
  lemma {:induction false} LapsedLeaseBlocksForGood(p: Policy, calls: seq<Call>, n: nat, id: string, driverId: string,
                                                    vehicleId: string)
    requires n <= |calls| && Blocks(Exec(p, calls[..n]), id, driverId, vehicleId)
    ensures NeverUnmarked(p, calls, n, id) ==> Blocks(Exec(p, calls), id, driverId, vehicleId)
    decreases |calls|
  {
    if n == |calls| {
      assert calls[..n] == calls;
    } else {
      var init, c := calls[..|calls| - 1], calls[|calls| - 1];
      assert init[..n] == calls[..n];
      LapsedLeaseBlocksForGood(p, init, n, id, driverId, vehicleId);
      if NeverUnmarked(p, calls, n, id) {
        LeaseIsUnmarkedIff(p, Exec(p, init), c.op, c.dbNow, c.now, id);
      }
    }
  }

  const INDEXED := LOOSE.(driverIndex := true)

  /** A driver whose lease on one car has lapsed is refused the next car. */
  lemma LapsedLeaseLocksOutItsDriver()
    ensures var t := Exec(INDEXED, OneCar());
      && OtherwiseGranted(t, SECOND_CAR.op, 50)
      && RequestStep(INDEXED, t, SECOND_CAR.op, 50, 50).1 == Refused(ConstraintViolated)
  {
    FirstTake(INDEXED);
    var t := Exec(INDEXED, OneCar());
    assert Blocks(t, "lease-1", "driver", "car-2");
    LapsedLeaseBlocksIff(INDEXED, t, SECOND_CAR.op, 50, 50);
  }
}
