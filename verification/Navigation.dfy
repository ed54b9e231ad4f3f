/**
 Navigation routes: broker deliveries, cancellations and vehicle acknowledgements over one status. Every
 handler commits to the table first and writes the in-process cache in a later critical section.
 */
module Navigation {
  import opened Prelude
  import Ingest

  datatype Status =
    Queued | Dispatched | Accepted | Running | Completed
    | CancelRequested | Cancelled | CancelRejected | Rejected | Failed

  datatype NavAction = DispatchAction | CancelAction | NoAction

  datatype NavResult = AckAccepted | AckStarted | AckCompleted | AckRejected | AckFailed | AckCancelled | NoResult

  datatype NavAck = NavAck(
    version: nat, vehicleId: string, routeId: string, action: NavAction, result: NavResult, currentPoint: nat)

  datatype Route = Route(vehicleId: string, points: nat, status: Status)

  type Routes = map<string, Route>

  /** The routes table and the ordering gate, which acknowledgements move in one transaction. */
  datatype Tables = Tables(stored: Routes, registry: Ingest.Registry)

  predicate Pending(s: Status) {
    s == Queued || s == Dispatched || s == Accepted || s == Running
  }

  predicate Terminal(s: Status) {
    !Pending(s) && s != CancelRequested
  }

  /** The acknowledgement table; None is a refusal. */
  function Transition(current: Status, action: NavAction, result: NavResult): Option<Status> {
    match (action, result)
    case (DispatchAction, AckAccepted) => if Pending(current) && current != Running then Some(Accepted) else None
    case (DispatchAction, AckStarted) => if Pending(current) then Some(Running) else None
    case (DispatchAction, AckCompleted) => if Pending(current) || current == Completed then Some(Completed) else None
    case (DispatchAction, AckRejected) => if Pending(current) || current == Rejected then Some(Rejected) else None
    case (DispatchAction, AckFailed) => if Pending(current) || current == Failed then Some(Failed) else None
    case (CancelAction, AckAccepted) => if current == CancelRequested then Some(CancelRequested) else None
    case (CancelAction, AckCancelled) =>
      if current == CancelRequested || current == Cancelled then Some(Cancelled) else None
    case (CancelAction, AckRejected) =>
      if current == CancelRequested || current == CancelRejected then Some(CancelRejected) else None
    case (CancelAction, AckFailed) =>
      if current == CancelRequested || current == CancelRejected then Some(CancelRejected) else None
    case _ => None
  }

  // ---------- transactions ----------

  /**
   `queued` and `committed` say whether the database work succeeded; `copy` is what a cancellation saw in
   the cache when it checked the status, some time before its transaction.
   */
  datatype Tx =
    | SubmitTx(id: string, vehicleId: string, points: nat, wellFormed: bool, queued: bool)
    | CancelTx(id: string, copy: Route, queued: bool)
    | DispatchTx(id: string)
    | AckTx(vehicleId: string, gatewayId: string, sessionId: string, sequence: uint64, ack: NavAck, now: int,
            committed: bool)

  function RouteOf(tx: Tx): string {
    if tx.AckTx? then tx.ack.routeId else tx.id
  }

  /** What the handler still has to do to the cache after its commit. */
  datatype Write = Put(route: Route) | SetTo(status: Status) | Advance

  predicate AckApplies(t: Tables, tx: Tx)
    requires tx.AckTx?
  {
    var a := tx.ack;
    && tx.vehicleId != "" && tx.gatewayId != "" && tx.sessionId != "" && tx.sequence != 0
    && a.version == 1 && a.vehicleId == tx.vehicleId && a.routeId != ""
    && a.action != NoAction && a.result != NoResult
    && a.routeId in t.stored && t.stored[a.routeId].vehicleId == tx.vehicleId
    && 2 <= t.stored[a.routeId].points && a.currentPoint <= t.stored[a.routeId].points
    && Transition(t.stored[a.routeId].status, a.action, a.result).Some?
  }

  function ClaimOf(t: Tables, tx: Tx): (Ingest.Registry, Ingest.Claimed)
    requires tx.AckTx?
  {
    Ingest.Claim(t.registry, Ingest.Key(tx.vehicleId, tx.gatewayId, "platform.v1.NavigationAck", tx.sessionId),
                 tx.sequence, tx.now)
  }

  predicate AckTakesEffect(t: Tables, tx: Tx)
    requires tx.AckTx?
  {
    AckApplies(t, tx) && ClaimOf(t, tx).1 == Ingest.Accepted && tx.committed
  }

  predicate Submits(tx: Tx) {
    tx.SubmitTx? && tx.vehicleId != "" && 2 <= tx.points <= 1000 && tx.wellFormed && tx.queued
  }

  function SetStatus(routes: Routes, id: string, status: Status): Routes {
    if id in routes then routes[id := routes[id].(status := status)] else routes
  }

  /** The insert turns into an update when the id exists, and then keeps the row's vehicle. */
  function Upsert(routes: Routes, id: string, route: Route): Routes {
    routes[id := if id in routes then route.(vehicleId := routes[id].vehicleId) else route]
  }

  function Commit(t: Tables, tx: Tx): (Tables, Option<Write>) {
    match tx
    case SubmitTx(id, vehicleId, points, _, _) =>
      if !Submits(tx) then (t, None)
      else
        var route := Route(vehicleId, points, Queued);
        (t.(stored := Upsert(t.stored, id, route)), Some(Put(route)))
    case CancelTx(id, copy, queued) =>
      if !queued then (t, None)
      else (t.(stored := Upsert(t.stored, id, copy.(status := CancelRequested))), Some(SetTo(CancelRequested)))
    case DispatchTx(id) =>
      if id !in t.stored || (t.stored[id].status != Queued && t.stored[id].status != CancelRequested) then (t, None)
      else if t.stored[id].status == Queued then (t.(stored := SetStatus(t.stored, id, Dispatched)), Some(Advance))
      else (t, Some(Advance))
    case AckTx(_, _, _, _, a, _, _) =>
      if !AckTakesEffect(t, tx) then (t, None)
      else
        var next := Transition(t.stored[a.routeId].status, a.action, a.result).value;
        (Tables(SetStatus(t.stored, a.routeId, next), ClaimOf(t, tx).0), Some(SetTo(next)))
  }

  function WriteTo(cache: Routes, id: string, w: Write): Routes {
    match w
    case Put(route) => cache[id := route]
    case SetTo(status) => SetStatus(cache, id, status)
    case Advance => if id in cache && cache[id].status == Queued then SetStatus(cache, id, Dispatched) else cache
  }

  function Shown(routes: Routes, id: string): Option<Status> {
    if id in routes then Some(routes[id].status) else None
  }

  // ---------- the service ----------

  /** The handlers one at a time: each is its transaction and then its cache write. */
  class NavStore {
    var stored: Routes
    var registry: Ingest.Registry
    var cache: Routes

    ghost function Contents(): (Tables, Routes)
      reads this
    {
      (Tables(stored, registry), cache)
    }

    constructor ()
      ensures Contents() == (Tables(map[], Ingest.EMPTY), map[])
    {
      stored, cache, registry := map[], map[], Ingest.EMPTY;
    }

    method SubmitRoute(id: string, vehicleId: string, points: nat, wellFormed: bool, queued: bool) returns (ok: bool)
      modifies this
      ensures Contents() == Handle(old(Contents()), SubmitTx(id, vehicleId, points, wellFormed, queued))
      ensures ok <==> Submits(SubmitTx(id, vehicleId, points, wellFormed, queued))
    {
      if vehicleId == "" || points < 2 || points > 1000 || !wellFormed {
        return false;
      }
      if !queued {
        return false;
      }
      var route := Route(vehicleId, points, Queued);
      if id in stored {
        stored := stored[id := stored[id].(points := points, status := Queued)];
      } else {
        stored := stored[id := route];
      }
      cache := cache[id := route];
      return true;
    }

    /** On its own, with table and cache in agreement, a cancellation moves no route backwards. */
    method CancelPending(id: string, queued: bool) returns (ok: bool)
      modifies this
      ensures Contents() ==
        if id in old(cache) && Pending(old(cache)[id].status)
        then Handle(old(Contents()), CancelTx(id, old(cache)[id], queued)) else old(Contents())
      ensures ok ==> id in cache && cache[id].status == CancelRequested
      ensures Shown(old(stored), id) == Shown(old(cache), id) ==> Progresses(old(stored), stored)
    {
      if id !in cache {
        return false;
      }
      if cache[id].status == CancelRequested {
        return true;
      }
      if !Pending(cache[id].status) {
        return false;
      }
      if !queued {
        return false;
      }
      var copy := cache[id].(status := CancelRequested);
      if id in stored {
        stored := stored[id := copy.(vehicleId := stored[id].vehicleId)];
      } else {
        stored := stored[id := copy];
      }
      cache := cache[id := cache[id].(status := CancelRequested)];
      return true;
    }

    method MarkRouteDispatched(id: string)
      modifies this
      ensures Contents() == Handle(old(Contents()), DispatchTx(id))
    {
      if id !in stored || (stored[id].status != Queued && stored[id].status != CancelRequested) {
        return;
      }
      if stored[id].status == Queued {
        stored := stored[id := stored[id].(status := Dispatched)];
      }
      if id in cache && cache[id].status == Queued {
        cache := cache[id := cache[id].(status := Dispatched)];
      }
    }

    method HandleNavigationAck(vehicleId: string, gatewayId: string, sessionId: string, sequence: uint64, ack: NavAck,
                               now: int, committed: bool) returns (accepted: bool)
      modifies this
      ensures var tx := AckTx(vehicleId, gatewayId, sessionId, sequence, ack, now, committed);
        Contents() == Handle(old(Contents()), tx) && accepted == AckTakesEffect(old(Contents()).0, tx)
    {
      if vehicleId == "" || gatewayId == "" || sessionId == "" || sequence == 0 || ack.version != 1
         || ack.vehicleId != vehicleId || ack.routeId == "" || ack.action == NoAction || ack.result == NoResult {
        return false;
      }
      if ack.routeId !in stored || stored[ack.routeId].vehicleId != vehicleId {
        return false;
      }
      var row := stored[ack.routeId];
      if row.points < 2 || ack.currentPoint > row.points {
        return false;
      }
      var next := Transition(row.status, ack.action, ack.result);
      if next.None? {
        return false;
      }
      var key := Ingest.Key(vehicleId, gatewayId, "platform.v1.NavigationAck", sessionId);
      var (claim, claimed) := Ingest.Claim(registry, key, sequence, now);
      if claimed != Ingest.Accepted || !committed {
        return false;
      }
      registry := claim;
      stored := stored[ack.routeId := row.(status := next.value)];
      if ack.routeId in cache {
        cache := cache[ack.routeId := cache[ack.routeId].(status := next.value)];
      }
      return true;
    }
  }

  /** A transaction followed at once by its cache write. */
  function Handle(s: (Tables, Routes), tx: Tx): (Tables, Routes) {
    var (t, w) := Commit(s.0, tx);
    (t, if w.Some? then WriteTo(s.1, RouteOf(tx), w.value) else s.1)
  }

  // ---------- the handlers interleaved ----------

  /** `owed` are the cache writes still due, per route in commit order; `asked` what cancellations have seen. */
  datatype Store = Store(tables: Tables, cache: Routes, owed: map<string, seq<Write>>, asked: set<(string, Route)>)

  const EMPTY := Store(Tables(map[], Ingest.EMPTY), map[], map[], {})

  datatype Op =
    | Transact(tx: Tx)
    | Look(id: string)
    | Flush(id: string, k: nat)
    | Reload

  function Owed(s: Store, id: string): seq<Write> {
    if id in s.owed then s.owed[id] else []
  }

  /** A cancellation commits what it saw; a due write may be performed in any order. */
  predicate Possible(s: Store, op: Op) {
    && (op.Transact? && op.tx.CancelTx? ==> (op.tx.id, op.tx.copy) in s.asked)
    && (op.Flush? ==> op.k < |Owed(s, op.id)|)
  }

  function Without<T>(q: seq<T>, k: nat): seq<T>
    requires k < |q|
  {
    q[..k] + q[k + 1..]
  }

  /** An operation that is not possible does nothing. */
  function Step(s: Store, op: Op): Store {
    if !Possible(s, op) then s
    else
      match op
      case Transact(tx) =>
        var (t, w) := Commit(s.tables, tx);
        var id := RouteOf(tx);
        s.(tables := t, owed := if w.Some? then s.owed[id := Owed(s, id) + [w.value]] else s.owed)
      case Look(id) =>
        if id in s.cache && Pending(s.cache[id].status) then s.(asked := s.asked + {(id, s.cache[id])}) else s
      case Flush(id, k) =>
        s.(cache := WriteTo(s.cache, id, Owed(s, id)[k]), owed := s.owed[id := Without(Owed(s, id), k)])
      case Reload => Store(s.tables, s.tables.stored, map[], {})
  }

  function Exec(ops: seq<Op>): Store {
    if ops == [] then EMPTY else Step(Exec(ops[..|ops| - 1]), ops[|ops| - 1])
  }

  // ---------- progress ----------

  function Rank(s: Status): nat {
    match s
    case Queued => 0
    case Dispatched => 1
    case Accepted => 2
    case Running => 3
    case CancelRequested => 4
    case _ => 5
  }

  /** The status an acknowledgement reports; None for a pair no vehicle may send. */
  function ReportedStatus(action: NavAction, result: NavResult): Option<Status> {
    match (action, result)
    case (DispatchAction, AckAccepted) => Some(Accepted)
    case (DispatchAction, AckStarted) => Some(Running)
    case (DispatchAction, AckCompleted) => Some(Completed)
    case (DispatchAction, AckRejected) => Some(Rejected)
    case (DispatchAction, AckFailed) => Some(Failed)
    case (CancelAction, AckAccepted) => Some(CancelRequested)
    case (CancelAction, AckCancelled) => Some(Cancelled)
    case (CancelAction, AckRejected) => Some(CancelRejected)
    case (CancelAction, AckFailed) => Some(CancelRejected)
    case _ => None
  }

  /**
   The case table obeys one law: an acknowledgement is taken exactly when it repeats the current status
   or moves it forward, from a pending route for a dispatch and from a cancel request for a cancel.
   */
  lemma TransitionIffForwardOrRepeat(current: Status, action: NavAction, result: NavResult, next: Status)
    ensures Transition(current, action, result) == Some(next) <==>
      && ReportedStatus(action, result) == Some(next)
      && (|| current == next
          || (action == DispatchAction && Pending(current) && Rank(current) <= Rank(next))
          || (action == CancelAction && current == CancelRequested))
  {
  }

  /** Every route of `s` is still in `t`, at least as far along, and unmoved if it had finished. */
  predicate Progresses(s: Routes, t: Routes) {
    forall id :: id in s ==>
      && id in t
      && Rank(s[id].status) <= Rank(t[id].status)
      && (Terminal(s[id].status) ==> t[id].status == s[id].status)
  }

  /** A submission that draws the id of a route that left the queue, or a cancellation that comes too late. */
  predicate Regresses(t: Tables, tx: Tx) {
    || (Submits(tx) && tx.id in t.stored && t.stored[tx.id].status != Queued)
    || (tx.CancelTx? && tx.queued && tx.id in t.stored && Terminal(t.stored[tx.id].status))
  }

  /** Setting one existing route to a status it may progress to keeps all routes progressing. */
  lemma SetStatusProgresses(s: Routes, t: Routes, id: string, status: Status)
    requires id in s && t == SetStatus(s, id, status)
    requires Rank(s[id].status) <= Rank(status)
    requires Terminal(s[id].status) ==> status == s[id].status
    ensures Progresses(s, t)
  {
  }

  lemma AckProgresses(t: Tables, tx: Tx)
    requires tx.AckTx?
    ensures Progresses(t.stored, Commit(t, tx).0.stored)
  {
    if AckTakesEffect(t, tx) {
      var a := tx.ack;
      var next := Transition(t.stored[a.routeId].status, a.action, a.result).value;
      SetStatusProgresses(t.stored, Commit(t, tx).0.stored, a.routeId, next);
    }
  }

  /** Exactly when a transaction moves no route backwards. */
  lemma CommitProgressesIff(t: Tables, tx: Tx)
    ensures Progresses(t.stored, Commit(t, tx).0.stored) <==> !Regresses(t, tx)
  {
    if Regresses(t, tx) {
      assert Commit(t, tx).0.stored[tx.id].status == if tx.SubmitTx? then Queued else CancelRequested;
    } else if tx.AckTx? {
      AckProgresses(t, tx);
    }
  }

  predicate NeverRegresses(ops: seq<Op>) {
    ops == [] ||
    var init, op := ops[..|ops| - 1], ops[|ops| - 1];
    NeverRegresses(init) && (op.Transact? && Possible(Exec(init), op) ==> !Regresses(Exec(init).tables, op.tx))
  }

  /** Over any interleaving without such a transaction no route moves down its rank and finished routes stay so. */
  lemma {:induction false} RoutesOnlyProgress(ops: seq<Op>, n: nat)
    requires n <= |ops| && NeverRegresses(ops)
    ensures Progresses(Exec(ops[..n]).tables.stored, Exec(ops).tables.stored)
    decreases |ops|
  {
    if n == |ops| {
      assert ops[..n] == ops;
    } else {
      var init, op := ops[..|ops| - 1], ops[|ops| - 1];
      assert init[..n] == ops[..n];
      RoutesOnlyProgress(init, n);
      if op.Transact? {
        CommitProgressesIff(Exec(init).tables, op.tx);
      }
    }
  }

  // ---------- table and cache ----------

  /** What a write makes of the status shown for its route. */
  function Show(x: Option<Status>, w: Write): Option<Status> {
    match w
    case Put(route) => Some(route.status)
    case SetTo(status) => if x.Some? then Some(status) else None
    case Advance => if x == Some(Queued) then Some(Dispatched) else x
  }

  function Replay(x: Option<Status>, ws: seq<Write>): Option<Status> {
    if ws == [] then x else Show(Replay(x, ws[..|ws| - 1]), ws[|ws| - 1])
  }

  /** Performing the due writes in commit order would show the stored status. */
  predicate Settles(s: Store, id: string) {
    Replay(Shown(s.cache, id), Owed(s, id)) == Shown(s.tables.stored, id)
  }

  /** Everything the service knows about is in the table. */
  predicate Known(s: Store) {
    s.cache.Keys <= s.tables.stored.Keys && s.owed.Keys <= s.tables.stored.Keys
    && forall a :: a in s.asked ==> a.0 in s.tables.stored && Pending(a.1.status)
  }

  lemma CommitKeepsRows(t: Tables, tx: Tx)
    ensures t.stored.Keys <= Commit(t, tx).0.stored.Keys
    ensures Commit(t, tx).1.Some? ==> RouteOf(tx) in Commit(t, tx).0.stored
  {
  }

  lemma {:induction false} RunKeepsKnown(ops: seq<Op>)
    ensures Known(Exec(ops))
  {
    if ops != [] {
      var init, op := ops[..|ops| - 1], ops[|ops| - 1];
      RunKeepsKnown(init);
      if op.Transact? {
        CommitKeepsRows(Exec(init).tables, op.tx);
      }
    }
  }

  /** The write a transaction owes does to the shown status what the transaction did to the stored one. */
  lemma CommitOwes(t: Tables, tx: Tx, id: string)
    requires tx.CancelTx? ==> tx.id in t.stored
    ensures var (u, w) := Commit(t, tx);
      Shown(u.stored, id) ==
        if w.Some? && RouteOf(tx) == id then Show(Shown(t.stored, id), w.value) else Shown(t.stored, id)
  {
  }

  lemma {:induction false} ReplayHead(x: Option<Status>, ws: seq<Write>)
    requires ws != []
    ensures Replay(Show(x, ws[0]), ws[1..]) == Replay(x, ws)
  {
    var init := ws[..|ws| - 1];
    if |ws| == 1 {
      assert ws[1..] == [] && init == [];
    } else {
      ReplayHead(x, init);
      assert ws[1..][..|ws| - 2] == init[1..];
    }
  }

  lemma WriteShows(cache: Routes, id: string, w: Write, other: string)
    ensures Shown(WriteTo(cache, id, w), other) ==
      if other == id then Show(Shown(cache, id), w) else Shown(cache, other)
  {
  }

  /** Transactions and a restart never disturb what the cache will show once its writes are done. */
  lemma StepSettles(s: Store, op: Op, id: string)
    requires Known(s) && Settles(s, id) && !(op.Flush? && op.id == id)
    ensures Settles(Step(s, op), id)
  {
    if op.Transact? && Possible(s, op) {
      CommitOwes(s.tables, op.tx, id);
      var w := Commit(s.tables, op.tx).1;
      if w.Some? && RouteOf(op.tx) == id {
        var ws := Owed(s, id) + [w.value];
        assert ws[..|ws| - 1] == Owed(s, id);
      }
    } else if op.Flush? && Possible(s, op) {
      WriteShows(s.cache, op.id, Owed(s, op.id)[op.k], id);
    }
  }

  lemma FlushShows(s: Store, id: string, k: nat)
    requires k < |Owed(s, id)|
    ensures var t := Step(s, Flush(id, k));
      && Shown(t.cache, id) == Show(Shown(s.cache, id), Owed(s, id)[k])
      && Owed(t, id) == Without(Owed(s, id), k) && t.tables == s.tables
  {
    WriteShows(s.cache, id, Owed(s, id)[k], id);
  }

  // Which write may overtake which.

  function LastSet(ws: seq<Write>): Option<Status> {
    if ws == [] then None
    else if ws[|ws| - 1].SetTo? then Some(ws[|ws| - 1].status)
    else LastSet(ws[..|ws| - 1])
  }

  predicate Advances(ws: seq<Write>) {
    exists i :: 0 <= i < |ws| && ws[i].Advance?
  }

  /** The route's insertion, if still due, is the oldest write; acknowledged statuses are none of the first two. */
  predicate WellOwed(x: Option<Status>, ws: seq<Write>) {
    && (ws != [] ==> (x.None? <==> ws[0].Put?))
    && (forall i :: 0 <= i < |ws| && ws[i].Put? ==> i == 0 && ws[i].route.status == Queued)
    && (forall i :: 0 <= i < |ws| && ws[i].SetTo? ==> ws[i].status != Queued && ws[i].status != Dispatched)
  }

  function Base(x: Option<Status>, ws: seq<Write>): Option<Status> {
    if ws != [] && ws[0].Put? then Some(Queued) else x
  }

  function Outcome(x: Option<Status>, ws: seq<Write>): Option<Status> {
    if LastSet(ws).Some? then LastSet(ws)
    else if Base(x, ws) == Some(Queued) && Advances(ws) then Some(Dispatched)
    else Base(x, ws)
  }

  lemma {:induction false} LastSetIsLater(ws: seq<Write>)
    requires forall i :: 0 <= i < |ws| && ws[i].SetTo? ==> ws[i].status != Queued
    ensures LastSet(ws) != Some(Queued)
  {
    if ws != [] { LastSetIsLater(ws[..|ws| - 1]); }
  }

  lemma {:induction false} ReplayIs(x: Option<Status>, ws: seq<Write>)
    requires WellOwed(x, ws)
    ensures Replay(x, ws) == Outcome(x, ws)
  {
    if |ws| == 1 {
      assert ws[..0] == [] && Replay(x, ws) == Show(x, ws[0]);
      assert LastSet(ws[..0]) == None;
      assert ws[0].Advance? ==> Advances(ws);
    } else if ws != [] {
      var init, w := ws[..|ws| - 1], ws[|ws| - 1];
      ReplayIs(x, init);
      LastSetIsLater(init);
      assert Advances(ws) <==> Advances(init) || w.Advance? by {
        if w.Advance? { assert ws[|ws| - 1].Advance?; }
        if i :| 0 <= i < |init| && init[i].Advance? { assert ws[i].Advance?; }
      }
      assert Base(x, init) == Base(x, ws) && Base(x, ws).Some?;
    }
  }

  lemma {:induction false} LastSetOf(a: seq<Write>, b: seq<Write>)
    ensures LastSet(a + b) == if LastSet(b).Some? then LastSet(b) else LastSet(a)
  {
    if b == [] {
      assert a + b == a;
    } else {
      LastSetOf(a, b[..|b| - 1]);
      assert (a + b)[..|a + b| - 1] == a + b[..|b| - 1];
    }
  }

  lemma AdvancesOf(a: seq<Write>, b: seq<Write>)
    ensures Advances(a + b) <==> Advances(a) || Advances(b)
  {
    if i :| 0 <= i < |a| && a[i].Advance? { assert (a + b)[i].Advance?; }
    if i :| 0 <= i < |b| && b[i].Advance? { assert (a + b)[|a| + i].Advance?; }
  }

  /**
   The write at `k` is the one the table reflects, and a write it overtakes will hide it: the insertion of
   the route, or an older acknowledgement with another status.
   */
  predicate Overtakes(ws: seq<Write>, k: nat)
    requires k < |ws|
  {
    k > 0 &&
    match ws[k]
    case Put(_) => false
    case SetTo(status) =>
      && LastSet(ws[k + 1..]).None?
      && (if LastSet(ws[..k]).Some? then LastSet(ws[..k]) != Some(status) else ws[0].Put?)
    case Advance => ws[0].Put? && LastSet(ws).None? && !Advances(Without(ws, k))
  }

  lemma LastSetOfOne(w: Write)
    ensures LastSet([w]) == if w.SetTo? then Some(w.status) else None
  {
    assert [w][..0] == [];
  }

  /** What taking out the write between `a` and `b` does to the last status and to the presence of an Advance. */
  lemma TakeOut(a: seq<Write>, w: Write, b: seq<Write>)
    ensures LastSet(a + [w] + b) ==
      if LastSet(b).Some? then LastSet(b) else if w.SetTo? then Some(w.status) else LastSet(a)
    ensures LastSet(a + b) == if LastSet(b).Some? then LastSet(b) else LastSet(a)
    ensures Advances(a + [w] + b) <==> Advances(a + b) || w.Advance?
  {
    LastSetOf(a + [w], b);
    LastSetOf(a, [w]);
    LastSetOfOne(w);
    LastSetOf(a, b);
    AdvancesAround(a, w, b);
  }

  lemma AdvancesAround(a: seq<Write>, w: Write, b: seq<Write>)
    ensures Advances(a + [w] + b) <==> Advances(a + b) || w.Advance?
  {
    AdvancesOf(a + [w], b);
    AdvancesOf(a, [w]);
    AdvancesOf(a, b);
    assert w.Advance? ==> [w][0].Advance?;
  }

  lemma SplitAt(ws: seq<Write>, k: nat)
    requires k < |ws|
    ensures ws == ws[..k] + [ws[k]] + ws[k + 1..]
  {
  }

  lemma WithoutIsWellOwed(x: Option<Status>, ws: seq<Write>, k: nat)
    requires WellOwed(x, ws) && 0 < k < |ws|
    ensures WellOwed(Show(x, ws[k]), Without(ws, k))
  {
    var rest := Without(ws, k);
    assert rest[0] == ws[0];
    forall i | 0 <= i < |rest| ensures rest[i] == ws[if i < k then i else i + 1] {
    }
  }

  /** Exactly when performing a due write out of turn is harmless. */
  lemma FlushSettlesIff(s: Store, id: string, k: nat)
    requires Settles(s, id) && k < |Owed(s, id)| && WellOwed(Shown(s.cache, id), Owed(s, id))
    ensures Settles(Step(s, Flush(id, k)), id) <==> !Overtakes(Owed(s, id), k)
  {
    var x, ws := Shown(s.cache, id), Owed(s, id);
    FlushShows(s, id, k);
    if k == 0 {
      ReplayHead(x, ws);
      assert Without(ws, 0) == ws[1..];
    } else {
      ReplayIs(x, ws);
      WithoutIsWellOwed(x, ws, k);
      ReplayIs(Show(x, ws[k]), Without(ws, k));
      SplitAt(ws, k);
      TakeOut(ws[..k], ws[k], ws[k + 1..]);
    }
  }

  // ---------- agreement over runs ----------

  /** No submission draws the id of an existing route. */
  predicate FreshIds(ops: seq<Op>) {
    ops == [] ||
    var init, op := ops[..|ops| - 1], ops[|ops| - 1];
    FreshIds(init) && (op.Transact? && Submits(op.tx) ==> op.tx.id !in Exec(init).tables.stored)
  }

  predicate Queueing(s: Store, id: string) {
    && WellOwed(Shown(s.cache, id), Owed(s, id))
    && (id in s.tables.stored && Owed(s, id) == [] ==> id in s.cache)
  }

  lemma TransactKeepsQueueing(s: Store, op: Op, id: string)
    requires Known(s) && Queueing(s, id) && op.Transact? && Possible(s, op)
    requires Submits(op.tx) ==> op.tx.id !in s.tables.stored
    ensures Queueing(Step(s, op), id)
  {
    var w := Commit(s.tables, op.tx).1;
    if w.Some? && RouteOf(op.tx) == id {
      var ws := Owed(s, id) + [w.value];
      assert Owed(Step(s, op), id) == ws;
      assert op.tx.SubmitTx? ==> id !in s.cache && Owed(s, id) == [];
      assert !op.tx.SubmitTx? ==> id in s.tables.stored;
    } else {
      CommitOwes(s.tables, op.tx, id);
    }
  }

  lemma FlushKeepsQueueing(s: Store, op: Op, id: string)
    requires Queueing(s, id) && op.Flush? && Possible(s, op)
    ensures Queueing(Step(s, op), id)
  {
    if op.id == id {
      FlushShows(s, id, op.k);
      var x, ws := Shown(s.cache, id), Owed(s, id);
      if op.k == 0 {
        assert Without(ws, 0) == ws[1..];
      } else {
        WithoutIsWellOwed(x, ws, op.k);
      }
    } else {
      WriteShows(s.cache, op.id, Owed(s, op.id)[op.k], id);
    }
  }

  lemma {:induction false} RunKeepsQueueing(ops: seq<Op>, id: string)
    requires FreshIds(ops)
    ensures Queueing(Exec(ops), id)
  {
    if ops != [] {
      var init, op := ops[..|ops| - 1], ops[|ops| - 1];
      RunKeepsQueueing(init, id);
      RunKeepsKnown(init);
      if op.Transact? && Possible(Exec(init), op) {
        TransactKeepsQueueing(Exec(init), op, id);
      } else if op.Flush? && Possible(Exec(init), op) {
        FlushKeepsQueueing(Exec(init), op, id);
      }
    }
  }

  predicate NeverOvertakes(ops: seq<Op>, id: string) {
    ops == [] ||
    var init, op := ops[..|ops| - 1], ops[|ops| - 1];
    NeverOvertakes(init, id)
    && (op.Flush? && op.id == id && op.k < |Owed(Exec(init), id)| ==> !Overtakes(Owed(Exec(init), id), op.k))
  }

  predicate AlwaysSettles(ops: seq<Op>, id: string) {
    Settles(Exec(ops), id) && (ops == [] || AlwaysSettles(ops[..|ops| - 1], id))
  }

  /** The cache of a route is on course at every point of a run exactly when no write of it overtakes another. */
  lemma {:induction false} CacheSettlesIff(ops: seq<Op>, id: string)
    requires FreshIds(ops)
    ensures AlwaysSettles(ops, id) <==> NeverOvertakes(ops, id)
  {
    if ops != [] {
      var init, op := ops[..|ops| - 1], ops[|ops| - 1];
      CacheSettlesIff(init, id);
      if AlwaysSettles(init, id) {
        RunKeepsKnown(init);
        if op.Flush? && op.id == id && op.k < |Owed(Exec(init), id)| {
          RunKeepsQueueing(init, id);
          FlushSettlesIff(Exec(init), id, op.k);
        } else if !(op.Flush? && op.id == id) {
          StepSettles(Exec(init), op, id);
        }
      }
    }
  }

  /** Then, whenever no write of the route is due, table and cache show the same status. */
  lemma CacheAgreesWithTable(ops: seq<Op>, id: string)
    requires FreshIds(ops) && NeverOvertakes(ops, id) && Owed(Exec(ops), id) == []
    ensures Shown(Exec(ops).cache, id) == Shown(Exec(ops).tables.stored, id)
  {
    CacheSettlesIff(ops, id);
  }

  // ---------- cancellation ----------

  /** A cancellation may commit only what an operator was shown as pending. */
  lemma {:induction false} AskedWasPending(ops: seq<Op>, id: string, copy: Route) returns (l: nat)
    requires (id, copy) in Exec(ops).asked
    ensures l < |ops| && ops[l] == Look(id) && Pending(copy.status)
    ensures id in Exec(ops[..l]).cache && Exec(ops[..l]).cache[id] == copy
  {
    var init, op := ops[..|ops| - 1], ops[|ops| - 1];
    if (id, copy) in Exec(init).asked {
      l := AskedWasPending(init, id, copy);
      assert init[..l] == ops[..l];
    } else {
      l := |ops| - 1;
    }
  }

  predicate CancelsAt(ops: seq<Op>, id: string, a: int)
    requires 0 <= a < |ops|
  {
    && ops[a].Transact? && ops[a].tx.CancelTx? && ops[a].tx.id == id && ops[a].tx.queued
    && (id, ops[a].tx.copy) in Exec(ops[..a]).asked
  }

  lemma {:induction false} CancelWasRequested(ops: seq<Op>, id: string) returns (l: nat, a: nat)
    requires Shown(Exec(ops).tables.stored, id) == Some(CancelRequested)
    ensures l < a < |ops| && CancelsAt(ops, id, a)
    ensures ops[l] == Look(id) && id in Exec(ops[..l]).cache && Pending(Exec(ops[..l]).cache[id].status)
  {
    var init, op := ops[..|ops| - 1], ops[|ops| - 1];
    if Shown(Exec(init).tables.stored, id) == Some(CancelRequested) {
      l, a := CancelWasRequested(init, id);
      assert init[..a] == ops[..a] && init[..l] == ops[..l];
    } else {
      a := |ops| - 1;
      assert CancelsAt(ops, id, a);
      l := AskedWasPending(init, id, op.tx.copy);
      assert init[..l] == ops[..l];
    }
  }

  /**
   A route is `cancelled` only because the vehicle said so, under the cancel action, after an operator who
   was shown it pending asked for it: the look, the committed request and, later, the acknowledgement that
   took effect on the requested cancellation are found in the run.
   */
  lemma {:induction false} CancelledOnlyByVehicle(ops: seq<Op>, id: string) returns (l: nat, a: nat, b: nat)
    requires Shown(Exec(ops).tables.stored, id) == Some(Cancelled)
    ensures l < a < b < |ops| && CancelsAt(ops, id, a)
    ensures ops[l] == Look(id) && id in Exec(ops[..l]).cache && Pending(Exec(ops[..l]).cache[id].status)
    ensures ops[b].Transact? && ops[b].tx.AckTx? && ops[b].tx.ack.routeId == id
    ensures ops[b].tx.ack.action == CancelAction && ops[b].tx.ack.result == AckCancelled
    ensures AckTakesEffect(Exec(ops[..b]).tables, ops[b].tx)
    ensures Shown(Exec(ops[..b]).tables.stored, id) == Some(CancelRequested)
  {
    var init, op := ops[..|ops| - 1], ops[|ops| - 1];
    if Shown(Exec(init).tables.stored, id) == Some(Cancelled) {
      l, a, b := CancelledOnlyByVehicle(init, id);
      assert init[..a] == ops[..a] && init[..l] == ops[..l] && init[..b] == ops[..b];
    } else {
      b := |ops| - 1;
      OnlyAcksCancel(Exec(init), op, id);
      l, a := CancelWasRequested(init, id);
      assert init[..a] == ops[..a] && init[..l] == ops[..l];
    }
  }

  lemma OnlyAcksCancel(s: Store, op: Op, id: string)
    requires Shown(s.tables.stored, id) != Some(Cancelled) && Shown(Step(s, op).tables.stored, id) == Some(Cancelled)
    ensures op.Transact? && op.tx.AckTx? && op.tx.ack.routeId == id && AckTakesEffect(s.tables, op.tx)
    ensures op.tx.ack.action == CancelAction && op.tx.ack.result == AckCancelled
    ensures Shown(s.tables.stored, id) == Some(CancelRequested)
  {
  }

  // ---------- refused acknowledgements ----------

  predicate Ineffective(s: Store, op: Op) {
    op.Transact? && op.tx.AckTx? && !AckTakesEffect(s.tables, op.tx)
  }

  /** The run with every acknowledgement that was refused, duplicate or not committed left out. */
  function Effective(ops: seq<Op>): seq<Op> {
    if ops == [] then []
    else
      var init, op := ops[..|ops| - 1], ops[|ops| - 1];
      if Ineffective(Exec(init), op) then Effective(init) else Effective(init) + [op]
  }

  /** Such acknowledgements leave no trace in routes, cache, cursor or ledger. */
  lemma {:induction false} RefusedAcksLeaveNoTrace(ops: seq<Op>)
    ensures Exec(Effective(ops)) == Exec(ops)
  {
    if ops != [] {
      var init, op := ops[..|ops| - 1], ops[|ops| - 1];
      RefusedAcksLeaveNoTrace(init);
      if !Ineffective(Exec(init), op) {
        assert Effective(ops)[..|Effective(ops)| - 1] == Effective(init);
      }
    }
  }

  // ---------- the transactions written out ----------

  /** A submission commits a queued route; an existing row keeps its vehicle. */
  lemma SubmitWritesOut(t: Tables, tx: Tx)
    requires tx.SubmitTx?
    ensures var (u, w) := Commit(t, tx);
      var ok := tx.vehicleId != "" && 2 <= tx.points <= 1000 && tx.wellFormed && tx.queued;
      var owner := if tx.id in t.stored then t.stored[tx.id].vehicleId else tx.vehicleId;
      && (!ok ==> u == t && w == None)
      && (ok ==> u == t.(stored := t.stored[tx.id := Route(owner, tx.points, Queued)])
                 && w == Some(Put(Route(tx.vehicleId, tx.points, Queued))))
  {
  }

  /** A cancellation commits what it saw, as requested, to the row's own vehicle. */
  lemma CancelWritesOut(t: Tables, tx: Tx)
    requires tx.CancelTx?
    ensures var (u, w) := Commit(t, tx);
      var owner := if tx.id in t.stored then t.stored[tx.id].vehicleId else tx.copy.vehicleId;
      && (!tx.queued ==> u == t && w == None)
      && (tx.queued ==> u == t.(stored := t.stored[tx.id := Route(owner, tx.copy.points, CancelRequested)])
                        && w == Some(SetTo(CancelRequested)))
  {
  }

  /** The broker's acceptance moves a queued route, and nothing else. */
  lemma DispatchWritesOut(t: Tables, tx: Tx)
    requires tx.DispatchTx?
    ensures var (u, w) := Commit(t, tx);
      && u.registry == t.registry
      && u.stored == (if tx.id in t.stored && t.stored[tx.id].status == Queued
                      then t.stored[tx.id := t.stored[tx.id].(status := Dispatched)] else t.stored)
      && (w == Some(Advance) <==> tx.id in t.stored && t.stored[tx.id].status in {Queued, CancelRequested})
      && (w == None || w == Some(Advance))
  {
  }

  /** The acknowledgement names everything, comes from the route's own vehicle and is in order. */
  predicate AckIsInOrder(t: Tables, tx: Tx)
    requires tx.AckTx?
  {
    var a := tx.ack;
    && tx.vehicleId != "" && tx.gatewayId != "" && tx.sessionId != "" && tx.committed
    && a.version == 1 && a.routeId != "" && a.routeId in t.stored
    && a.vehicleId == tx.vehicleId == t.stored[a.routeId].vehicleId
    && 2 <= t.stored[a.routeId].points && a.currentPoint <= t.stored[a.routeId].points
    && Ingest.Claim(t.registry, Ingest.Key(tx.vehicleId, tx.gatewayId, "platform.v1.NavigationAck", tx.sessionId),
                    tx.sequence, tx.now).1 == Ingest.Accepted
  }

  /** It takes effect exactly then, if the status it reports may follow, and sets that status and the gate. */
  lemma AckWritesOut(t: Tables, tx: Tx)
    requires tx.AckTx?
    ensures AckTakesEffect(t, tx) <==>
      AckIsInOrder(t, tx) && Transition(t.stored[tx.ack.routeId].status, tx.ack.action, tx.ack.result).Some?
    ensures !AckTakesEffect(t, tx) ==> Commit(t, tx) == (t, None)
    ensures AckTakesEffect(t, tx) ==>
      var id := tx.ack.routeId;
      var next := ReportedStatus(tx.ack.action, tx.ack.result);
      && next.Some?
      && Commit(t, tx) == (Tables(
           t.stored[id := t.stored[id].(status := next.value)],
           Ingest.Claim(t.registry, Ingest.Key(tx.vehicleId, tx.gatewayId, "platform.v1.NavigationAck", tx.sessionId),
                        tx.sequence, tx.now).0), Some(SetTo(next.value)))
  {
    if AckTakesEffect(t, tx) {
      var a := tx.ack;
      var next := Transition(t.stored[a.routeId].status, a.action, a.result).value;
      TransitionIffForwardOrRepeat(t.stored[a.routeId].status, a.action, a.result, next);
      var key := Ingest.Key(tx.vehicleId, tx.gatewayId, "platform.v1.NavigationAck", tx.sessionId);
      Ingest.ClaimWritesOut(t.registry, key, tx.sequence, tx.now);
    } else if AckIsInOrder(t, tx) {
      var a := tx.ack;
      if next :| Transition(t.stored[a.routeId].status, a.action, a.result) == Some(next) {
        TransitionIffForwardOrRepeat(t.stored[a.routeId].status, a.action, a.result, next);
      }
    }
  }

  /** A cache write inserts the route it carries, or changes nothing but the status of one that is there. */
  lemma WriteWritesOut(cache: Routes, id: string, w: Write)
    ensures w.Put? ==> WriteTo(cache, id, w) == cache[id := w.route]
    ensures !w.Put? && id in cache ==>
      var next := if w.SetTo? then w.status else if cache[id].status == Queued then Dispatched else cache[id].status;
      WriteTo(cache, id, w) == cache[id := Route(cache[id].vehicleId, cache[id].points, next)]
    ensures !w.Put? && id !in cache ==> WriteTo(cache, id, w) == cache
  {
  }

  // ---------- runs that break the rules ----------

  const SUBMIT := Transact(SubmitTx("r", "car", 2, true, true))
  const DISPATCH := Transact(DispatchTx("r"))
  const QUEUED_ROUTE := Route("car", 2, Queued)
  const COMPLETED := NavAck(1, "car", "r", DispatchAction, AckCompleted, 2)
  const COMPLETE := Transact(AckTx("car", "gw", "session", 1, COMPLETED, 0, true))
  const LATE_CANCEL := Transact(CancelTx("r", QUEUED_ROUTE, true))

  lemma OneMore(ops: seq<Op>, op: Op)
    ensures Exec(ops + [op]) == Step(Exec(ops), op)
  {
    assert (ops + [op])[..|ops|] == ops;
  }

  function Submitted(): seq<Op> {
    [] + [SUBMIT]
  }

  function Sent(): seq<Op> {
    Submitted() + [DISPATCH]
  }

  lemma AfterSubmit()
    ensures Exec(Submitted()) ==
      Store(Tables(map["r" := QUEUED_ROUTE], Ingest.EMPTY), map[], map["r" := [Put(QUEUED_ROUTE)]], {})
  {
    OneMore([], SUBMIT);
    assert Owed(EMPTY, "r") + [Put(QUEUED_ROUTE)] == [Put(QUEUED_ROUTE)];
  }

  lemma AfterDispatch()
    ensures var s := Exec(Sent());
      && s.cache == map[] && s.owed == map["r" := [Put(QUEUED_ROUTE), Advance]]
      && s.tables.stored == map["r" := QUEUED_ROUTE.(status := Dispatched)]
  {
    AfterSubmit();
    OneMore(Submitted(), DISPATCH);
    assert [Put(QUEUED_ROUTE)] + [Advance] == [Put(QUEUED_ROUTE), Advance];
  }

  /** The broker's acceptance overtakes the insertion into the cache, which then shows `queued` for good. */
  lemma OvertakenSubmitStaysQueued()
    ensures var s := Exec(Sent() + [Flush("r", 1)] + [Flush("r", 0)]);
      Owed(s, "r") == [] && Shown(s.tables.stored, "r") == Some(Dispatched) && Shown(s.cache, "r") == Some(Queued)
  {
    AfterDispatch();
    OneMore(Sent(), Flush("r", 1));
    var s := Exec(Sent() + [Flush("r", 1)]);
    assert s.cache == map[] && Owed(s, "r") == [Put(QUEUED_ROUTE)];
    OneMore(Sent() + [Flush("r", 1)], Flush("r", 0));
  }

  /** A second submission that draws the same id sends a dispatched route back to the queue. */
  lemma CollidingIdResetsARoute()
    ensures !Progresses(Exec(Sent()).tables.stored, Exec(Sent() + [SUBMIT]).tables.stored)
  {
    AfterDispatch();
    OneMore(Sent(), SUBMIT);
    CommitProgressesIff(Exec(Sent()).tables, SUBMIT.tx);
  }

  function LookedAt(): seq<Op> {
    Submitted() + [Flush("r", 0)] + [Look("r")]
  }

  lemma AfterLook()
    ensures var s := Exec(LookedAt());
      s.tables == Tables(map["r" := QUEUED_ROUTE], Ingest.EMPTY) && s.asked == {("r", QUEUED_ROUTE)}
  {
    AfterSubmit();
    OneMore(Submitted(), Flush("r", 0));
    var s := Exec(Submitted() + [Flush("r", 0)]);
    assert s.cache == map["r" := QUEUED_ROUTE] && s.asked == {};
    OneMore(Submitted() + [Flush("r", 0)], Look("r"));
  }

  lemma CompletionTakesEffect(t: Tables)
    requires t == Tables(map["r" := QUEUED_ROUTE], Ingest.EMPTY)
    ensures AckTakesEffect(t, COMPLETE.tx) && Shown(Commit(t, COMPLETE.tx).0.stored, "r") == Some(Completed)
  {
  }

  /** A cancellation that saw the route pending commits after the vehicle has completed it. */
  lemma LateCancelReopensARoute()
    ensures var s := Exec(LookedAt() + [COMPLETE]);
      Possible(s, LATE_CANCEL) && Shown(s.tables.stored, "r") == Some(Completed)
    ensures Shown(Exec(LookedAt() + [COMPLETE] + [LATE_CANCEL]).tables.stored, "r") == Some(CancelRequested)
  {
    AfterLook();
    CompletionTakesEffect(Exec(LookedAt()).tables);
    OneMore(LookedAt(), COMPLETE);
    OneMore(LookedAt() + [COMPLETE], LATE_CANCEL);
  }
}
