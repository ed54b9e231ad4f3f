/** Map publication and rollback: an approval workflow driven by vehicle acknowledgements that may repeat. */
module MapPublication {
  import opened Prelude

  datatype PubState = Requested | Approved | Dispatched | Confirmed | InForce | Superseded | RolledBack | Rejected

  datatype PubAction = ApplyMap | RollbackMap

  /** `previous` and `rollbackTarget` are "" when absent. */
  datatype Publication = Publication(
    mapId: string,
    version: nat,
    vehicleId: string,
    state: PubState,
    action: PubAction,
    previous: string,
    rollbackTarget: string,
    approvedBy: Option<string>)

  type Rows = map<string, Publication>

  /** `queued` are the publications whose command was put in the outbox. */
  datatype Store = Store(rows: Rows, queued: set<string>)

  const EMPTY := Store(map[], {})

  datatype AckResult = AckAccepted | AckApplied | AckRejected | AckFailed | AckUnknown

  datatype Ack = Ack(publicationId: string, mapId: string, vehicleId: string, mapVersion: nat, result: AckResult)

  /**
   Requests and rollbacks read and insert in separate statements: `previous` is what the query for the
   vehicle's active publication returned, and `sawInForce` whether the source of a rollback was active
   when it was read, at some point before the insert. `known` says that the map version exists (and
   belongs to the vehicle), `admitted` is the verdict of the capability checks.
   */
  datatype Op =
    | Request(newId: string, mapId: string, vehicleId: string, version: nat, action: PubAction, previous: string,
              known: bool)
    | Approve(id: string, approver: string, admitted: bool)
    | Rollback(newId: string, source: string, sawInForce: bool, known: bool)
    | MarkDispatched(id: string)
    | HandleAck(vehicleId: string, gatewayId: string, ack: Ack)

  // ---------- acknowledgements ----------

  predicate Applicable(s: PubState) {
    s == Approved || s == Dispatched || s == Confirmed || s == InForce
  }

  predicate AckValid(rows: Rows, vehicleId: string, gatewayId: string, a: Ack) {
    && vehicleId != "" && gatewayId != "" && a.publicationId != "" && a.mapId != ""
    && a.vehicleId == vehicleId && a.mapVersion != 0
    && a.publicationId in rows
    && var p := rows[a.publicationId];
       && p.mapId == a.mapId && p.vehicleId == vehicleId && p.version == a.mapVersion
       && a.result != AckUnknown
       && (a.result == AckApplied ==> Applicable(p.state))
       && (a.result == AckApplied && p.action == RollbackMap && p.previous != "" ==> p.rollbackTarget != "")
  }

  /** The state the acknowledged record itself ends in. */
  function NextState(p: Publication, result: AckResult): PubState {
    match result
    case AckAccepted => Confirmed
    case AckApplied => if p.action == RollbackMap then Confirmed else InForce
    case _ => Rejected
  }

  predicate Restorable(s: PubState) {
    s == Superseded || s == RolledBack || s == Confirmed
  }

  /** The state of row `id` after the acknowledgement of publication `p`, row by row. */
  function AckedState(rows: Rows, a: Ack, id: string): PubState
    requires a.publicationId in rows && id in rows
  {
    var p, r := rows[a.publicationId], rows[id];
    if id == a.publicationId then NextState(p, a.result)
    else if a.result != AckApplied || r.vehicleId != p.vehicleId then r.state
    else if p.action == ApplyMap then (if r.state == InForce then Superseded else r.state)
    else if p.previous == "" then r.state
    else if id == p.rollbackTarget then
      (if Restorable(r.state) || (id == p.previous && r.state == InForce) then InForce else r.state)
    else if r.state == InForce then (if id == p.previous then RolledBack else Superseded)
    else r.state
  }

  function AckStep(rows: Rows, vehicleId: string, gatewayId: string, a: Ack): (Rows, bool) {
    if AckValid(rows, vehicleId, gatewayId, a) then
      (map id | id in rows :: rows[id].(state := AckedState(rows, a, id)), true)
    else
      (rows, false)
  }

  // The single-table updates the transaction is made of.

  function SupersedeExcept(rows: Rows, vehicleId: string, keep: set<string>): Rows {
    map id | id in rows :: if rows[id].vehicleId == vehicleId && rows[id].state == InForce && id !in keep
                           then rows[id].(state := Superseded) else rows[id]
  }

  function RollBack(rows: Rows, vehicleId: string, previous: string): Rows {
    map id | id in rows :: if id == previous && rows[id].vehicleId == vehicleId && rows[id].state == InForce
                           then rows[id].(state := RolledBack) else rows[id]
  }

  function Restore(rows: Rows, vehicleId: string, target: string): Rows {
    map id | id in rows :: if id == target && rows[id].vehicleId == vehicleId && Restorable(rows[id].state)
                           then rows[id].(state := InForce) else rows[id]
  }

  lemma RollbackUpdates(rows: Rows, vehicleId: string, gatewayId: string, a: Ack)
    requires AckValid(rows, vehicleId, gatewayId, a) && a.result == AckApplied
    requires rows[a.publicationId].action == RollbackMap && rows[a.publicationId].previous != ""
    ensures var p := rows[a.publicationId];
      var superseded := SupersedeExcept(rows, vehicleId, {p.previous, p.rollbackTarget});
      var tx := Restore(RollBack(superseded, vehicleId, p.previous), vehicleId, p.rollbackTarget);
      && a.publicationId in tx
      && tx[a.publicationId := tx[a.publicationId].(state := Confirmed)] == AckStep(rows, vehicleId, gatewayId, a).0
  {
    var p := rows[a.publicationId];
    var tx1 := SupersedeExcept(rows, vehicleId, {p.previous, p.rollbackTarget});
    var tx2 := RollBack(tx1, vehicleId, p.previous);
    var tx3 := Restore(tx2, vehicleId, p.rollbackTarget);
    var done := AckStep(rows, vehicleId, gatewayId, a).0;
    assert tx3.Keys == rows.Keys == done.Keys;
    forall id | id in rows && id != a.publicationId ensures tx3[id] == done[id] {
      RollbackUpdatesRow(rows[id], id, vehicleId, p, tx1[id], tx2[id], tx3[id]);
    }
    assert tx3[a.publicationId].(state := Confirmed) == done[a.publicationId];
  }

  lemma RollbackUpdatesRow(r: Publication, id: string, vehicleId: string, p: Publication,
                           r1: Publication, r2: Publication, r3: Publication)
    requires r1 == if r.vehicleId == vehicleId && r.state == InForce && id != p.previous && id != p.rollbackTarget
                   then r.(state := Superseded) else r
    requires r2 == if id == p.previous && r1.vehicleId == vehicleId && r1.state == InForce
                   then r1.(state := RolledBack) else r1
    requires r3 == if id == p.rollbackTarget && r2.vehicleId == vehicleId && Restorable(r2.state)
                   then r2.(state := InForce) else r2
    ensures r3 == r.(state :=
      if r.vehicleId != vehicleId then r.state
      else if id == p.rollbackTarget then
        (if Restorable(r.state) || (id == p.previous && r.state == InForce) then InForce else r.state)
      else if r.state == InForce then (if id == p.previous then RolledBack else Superseded)
      else r.state)
  {
  }

  // ---------- the other transactions ----------

  function Step(s: Store, op: Op): (Store, bool) {
    match op
    case Request(newId, mapId, vehicleId, version, action, previous, known) =>
      if !known || newId == "" || newId in s.rows || (action == RollbackMap && previous == "") then (s, false)
      else
        var row := Publication(mapId, version, vehicleId, Requested, action, previous, "", None);
        (s.(rows := s.rows[newId := row]), true)
    case Approve(id, approver, admitted) =>
      if id !in s.rows || s.rows[id].state != Requested || !admitted then (s, false)
      else (Store(s.rows[id := s.rows[id].(state := Approved, approvedBy := Some(approver))], s.queued + {id}), true)
    case Rollback(newId, source, sawInForce, known) =>
      if source !in s.rows || !sawInForce || s.rows[source].previous !in s.rows || s.rows[source].previous == ""
         || !known || newId == "" || newId in s.rows then (s, false)
      else
        var targetId := s.rows[source].previous;
        var target := s.rows[targetId];
        (s.(rows := s.rows[newId := Publication(target.mapId, target.version, target.vehicleId, Requested, RollbackMap,
                                                source, targetId, None)]), true)
    case MarkDispatched(id) =>
      if id !in s.rows || s.rows[id].state != Approved then (s, false)
      else (s.(rows := s.rows[id := s.rows[id].(state := Dispatched)]), true)
    case HandleAck(vehicleId, gatewayId, ack) =>
      var (rows, ok) := AckStep(s.rows, vehicleId, gatewayId, ack);
      (s.(rows := rows), ok)
  }

  // ---------- the store ----------

  class MapStore {
    var rows: Rows
    var queued: set<string>

    ghost function Contents(): Store
      reads this
    {
      Store(rows, queued)
    }

    constructor ()
      ensures Contents() == EMPTY
    {
      rows, queued := map[], {};
    }

    method RequestMapPublication(newId: string, mapId: string, vehicleId: string, version: nat, action: PubAction,
                                 previous: string, known: bool) returns (ok: bool)
      modifies this
      ensures (Contents(), ok) ==
        Step(old(Contents()), Request(newId, mapId, vehicleId, version, action, previous, known))
    {
      if !known || newId == "" || newId in rows {
        return false;
      }
      if action == RollbackMap && previous == "" {
        return false;
      }
      rows := rows[newId := Publication(mapId, version, vehicleId, Requested, action, previous, "", None)];
      return true;
    }

    method ApproveMapPublication(id: string, approver: string, admitted: bool) returns (ok: bool)
      modifies this
      ensures (Contents(), ok) == Step(old(Contents()), Approve(id, approver, admitted))
    {
      if id !in rows || rows[id].state != Requested || !admitted {
        return false;
      }
      queued := queued + {id};
      rows := rows[id := rows[id].(state := Approved, approvedBy := Some(approver))];
      return true;
    }

    /** What it copies from the source and target records never changes after their insertion. */
    method RollbackMapPublication(newId: string, source: string, sawInForce: bool, known: bool) returns (ok: bool)
      modifies this
      ensures (Contents(), ok) == Step(old(Contents()), Rollback(newId, source, sawInForce, known))
    {
      if source !in rows || !sawInForce || rows[source].previous == "" {
        return false;
      }
      var targetId := rows[source].previous;
      if targetId !in rows || !known || newId == "" || newId in rows {
        return false;
      }
      var target := rows[targetId];
      rows := rows[newId := Publication(target.mapId, target.version, target.vehicleId, Requested, RollbackMap,
                                        source, targetId, None)];
      return true;
    }

    method MarkMapPublicationDispatched(id: string) returns (ok: bool)
      modifies this
      ensures (Contents(), ok) == Step(old(Contents()), MarkDispatched(id))
    {
      if id in rows && rows[id].state == Approved {
        rows := rows[id := rows[id].(state := Dispatched)];
        return true;
      }
      return false;
    }

    /** The acknowledgement as a sequence of table updates, the order in which the transaction runs them. */
    method HandleMapPublicationAck(vehicleId: string, gatewayId: string, ack: Ack) returns (ok: bool)
      modifies this
      ensures (Contents(), ok) == Step(old(Contents()), HandleAck(vehicleId, gatewayId, ack))
    {
      if vehicleId == "" || gatewayId == "" || ack.publicationId == "" || ack.mapId == ""
         || ack.vehicleId != vehicleId || ack.mapVersion == 0 || ack.publicationId !in rows {
        return false;
      }
      var p := rows[ack.publicationId];
      if p.mapId != ack.mapId || p.vehicleId != vehicleId || p.version != ack.mapVersion || ack.result == AckUnknown {
        return false;
      }
      if ack.result == AckApplied && !Applicable(p.state) {
        return false;
      }
      var tx := rows;
      if ack.result == AckApplied {
        if p.action == RollbackMap && p.previous != "" {
          if p.rollbackTarget == "" {
            return false;
          }
          tx := SupersedeExcept(tx, vehicleId, {p.previous, p.rollbackTarget});
          tx := RollBack(tx, vehicleId, p.previous);
          tx := Restore(tx, vehicleId, p.rollbackTarget);
          RollbackUpdates(rows, vehicleId, gatewayId, ack);
        }
        if p.action != RollbackMap {
          tx := SupersedeExcept(tx, vehicleId, {ack.publicationId});
        }
      }
      tx := tx[ack.publicationId := tx[ack.publicationId].(state := NextState(p, ack.result))];
      assert tx == AckStep(rows, vehicleId, gatewayId, ack).0;
      rows := tx;
      return true;
    }
  }

  // ---------- the invariant ----------

  predicate LinkOk(rows: Rows, id: string, link: string)
    requires id in rows
  {
    link != "" ==>
      link in rows && link != id && rows[link].vehicleId == rows[id].vehicleId && rows[link].action == ApplyMap
  }

  predicate LinksOk(rows: Rows) {
    forall id :: id in rows ==> LinkOk(rows, id, rows[id].previous) && LinkOk(rows, id, rows[id].rollbackTarget)
  }

  predicate OnlyApplied(rows: Rows) {
    forall id :: id in rows && rows[id].state == InForce ==> rows[id].action == ApplyMap
  }

  predicate OneInForce(rows: Rows) {
    forall a, b | a in rows && b in rows && rows[a].state == InForce && rows[b].state == InForce ::
      rows[a].vehicleId == rows[b].vehicleId ==> a == b
  }

  predicate RollbacksLinked(rows: Rows) {
    forall id :: id in rows && rows[id].action == RollbackMap ==> rows[id].previous != ""
  }

  predicate PubInv(rows: Rows) {
    "" !in rows && LinksOk(rows) && RollbacksLinked(rows) && OnlyApplied(rows) && OneInForce(rows)
  }

  predicate Linkable(rows: Rows, id: string, vehicleId: string) {
    id in rows && rows[id].vehicleId == vehicleId && rows[id].action == ApplyMap
  }

  /** What was once in force is an apply record of its vehicle; nothing is assumed about its state by now. */
  predicate Possible(s: Store, op: Op) {
    && (op.Request? && op.previous != "" ==> Linkable(s.rows, op.previous, op.vehicleId))
    && (op.Rollback? && op.sawInForce && op.source in s.rows ==> s.rows[op.source].action == ApplyMap)
  }

  lemma AckKeepsLinks(rows: Rows, vehicleId: string, gatewayId: string, a: Ack)
    requires LinksOk(rows)
    ensures LinksOk(AckStep(rows, vehicleId, gatewayId, a).0)
  {
  }

  /** After an APPLIED the only publication the vehicle can have in force is the one named by it. */
  lemma AppliedLeavesOne(rows: Rows, vehicleId: string, gatewayId: string, a: Ack, id: string)
    requires PubInv(rows) && AckValid(rows, vehicleId, gatewayId, a) && a.result == AckApplied
    requires id in rows && rows[id].vehicleId == vehicleId
    requires AckStep(rows, vehicleId, gatewayId, a).0[id].state == InForce
    ensures var p := rows[a.publicationId];
      (p.action == ApplyMap ==> id == a.publicationId) && (p.action == RollbackMap ==> id == p.rollbackTarget)
  {
  }

  lemma AckKeepsOne(rows: Rows, vehicleId: string, gatewayId: string, a: Ack)
    requires PubInv(rows) && AckValid(rows, vehicleId, gatewayId, a)
    ensures OneInForce(AckStep(rows, vehicleId, gatewayId, a).0)
  {
    var next := AckStep(rows, vehicleId, gatewayId, a).0;
    forall x, y | x in next && y in next && next[x].state == InForce && next[y].state == InForce
                  && next[x].vehicleId == next[y].vehicleId
      ensures x == y
    {
      if a.result == AckApplied && next[x].vehicleId == vehicleId {
        AppliedLeavesOne(rows, vehicleId, gatewayId, a, x);
        AppliedLeavesOne(rows, vehicleId, gatewayId, a, y);
      }
    }
  }

  lemma AckKeepsInv(rows: Rows, vehicleId: string, gatewayId: string, a: Ack)
    requires PubInv(rows)
    ensures PubInv(AckStep(rows, vehicleId, gatewayId, a).0)
  {
    AckKeepsLinks(rows, vehicleId, gatewayId, a);
    if AckValid(rows, vehicleId, gatewayId, a) {
      AckKeepsOne(rows, vehicleId, gatewayId, a);
    }
  }

  lemma InsertKeepsInv(rows: Rows, newId: string, p: Publication)
    requires PubInv(rows) && newId != "" && newId !in rows && p.state == Requested
    requires p.action == RollbackMap ==> p.previous != ""
    requires p.previous != "" ==>
      p.previous in rows && rows[p.previous].vehicleId == p.vehicleId && rows[p.previous].action == ApplyMap
    requires p.rollbackTarget != "" ==>
      && p.rollbackTarget in rows
      && rows[p.rollbackTarget].vehicleId == p.vehicleId && rows[p.rollbackTarget].action == ApplyMap
    ensures PubInv(rows[newId := p])
  {
    var next := rows[newId := p];
    forall id | id in next
      ensures LinkOk(next, id, next[id].previous) && LinkOk(next, id, next[id].rollbackTarget)
    {
      if id != newId {
        assert LinkOk(rows, id, rows[id].previous) && LinkOk(rows, id, rows[id].rollbackTarget);
      }
    }
  }

  lemma StateKeepsInv(rows: Rows, id: string, p: Publication)
    requires PubInv(rows) && id in rows && p.state != InForce
    requires p == rows[id].(state := p.state, approvedBy := p.approvedBy)
    ensures PubInv(rows[id := p])
  {
    var next := rows[id := p];
    forall x | x in next
      ensures LinkOk(next, x, next[x].previous) && LinkOk(next, x, next[x].rollbackTarget)
    {
      assert LinkOk(rows, x, rows[x].previous) && LinkOk(rows, x, rows[x].rollbackTarget);
    }
  }

  lemma StepKeepsInv(s: Store, op: Op)
    requires PubInv(s.rows) && Possible(s, op)
    ensures PubInv(Step(s, op).0.rows)
  {
    var (t, ok) := Step(s, op);
    if ok {
      match op
      case Request(newId, _, _, _, _, _, _) => InsertKeepsInv(s.rows, newId, t.rows[newId]);
      case Approve(id, _, _) => StateKeepsInv(s.rows, id, t.rows[id]);
      case Rollback(newId, source, _, _) =>
        assert LinkOk(s.rows, source, s.rows[source].previous);
        InsertKeepsInv(s.rows, newId, t.rows[newId]);
      case MarkDispatched(id) => StateKeepsInv(s.rows, id, t.rows[id]);
      case HandleAck(vehicleId, gatewayId, ack) => AckKeepsInv(s.rows, vehicleId, gatewayId, ack);
    }
  }

  // ---------- runs ----------

  function Exec(ops: seq<Op>): Store {
    if ops == [] then EMPTY else Step(Exec(ops[..|ops| - 1]), ops[|ops| - 1]).0
  }

  predicate Run(ops: seq<Op>) {
    ops == [] || (Run(ops[..|ops| - 1]) && Possible(Exec(ops[..|ops| - 1]), ops[|ops| - 1]))
  }

  predicate Persist(s: Rows, t: Rows) {
    forall id :: id in s ==> id in t && t[id] == s[id].(state := t[id].state, approvedBy := t[id].approvedBy)
  }

  lemma StepPersists(s: Store, op: Op)
    ensures Persist(s.rows, Step(s, op).0.rows)
  {
  }

  lemma {:induction false} RowsPersist(ops: seq<Op>, n: nat)
    requires n <= |ops|
    ensures Persist(Exec(ops[..n]).rows, Exec(ops).rows)
    decreases |ops|
  {
    if n == |ops| {
      assert ops[..n] == ops;
    } else {
      assert ops[..|ops| - 1][..n] == ops[..n];
      RowsPersist(ops[..|ops| - 1], n);
      StepPersists(Exec(ops[..|ops| - 1]), ops[|ops| - 1]);
    }
  }

  /** Every request and rollback whose reads were true at any earlier point of the run is among the possible ones. */
  lemma EarlierReadsArePossible(ops: seq<Op>, n: nat, op: Op)
    requires Run(ops) && n <= |ops|
    requires var rows := Exec(ops[..n]).rows;
      && (op.Request? && op.previous != "" ==>
            op.previous in rows && rows[op.previous].vehicleId == op.vehicleId && rows[op.previous].state == InForce)
      && (op.Rollback? && op.sawInForce ==> op.source in rows && rows[op.source].state == InForce)
    ensures Possible(Exec(ops), op)
  {
    RunPrefix(ops, n);
    OneMapInForce(ops[..n]);
    RowsPersist(ops, n);
  }

  lemma {:induction false} RunPrefix(ops: seq<Op>, n: nat)
    requires Run(ops) && n <= |ops|
    ensures Run(ops[..n])
    decreases |ops|
  {
    if n == |ops| {
      assert ops[..n] == ops;
    } else {
      assert ops[..|ops| - 1][..n] == ops[..n];
      RunPrefix(ops[..|ops| - 1], n);
    }
  }

  /**
   Over every run, with acknowledgements repeated and out of order, a vehicle has at most one
   publication in force and that one is an apply record.
   */
  lemma {:induction false} OneMapInForce(ops: seq<Op>)
    requires Run(ops)
    ensures PubInv(Exec(ops).rows)
  {
    if ops != [] {
      OneMapInForce(ops[..|ops| - 1]);
      StepKeepsInv(Exec(ops[..|ops| - 1]), ops[|ops| - 1]);
    }
  }

  /**
   A committed rollback APPLIED leaves nothing in force but its target, and puts the target in force
   exactly when the target had not been rejected or sent back to the approval queue meanwhile.
   */
  lemma RollbackLeavesOnlyTarget(ops: seq<Op>, vehicleId: string, gatewayId: string, a: Ack)
    requires Run(ops) && AckValid(Exec(ops).rows, vehicleId, gatewayId, a) && a.result == AckApplied
    requires Exec(ops).rows[a.publicationId].action == RollbackMap
    ensures var rows := Exec(ops).rows; var next := AckStep(rows, vehicleId, gatewayId, a).0;
      var target := rows[a.publicationId].rollbackTarget;
      && (forall id :: id in next && next[id].vehicleId == vehicleId && next[id].state == InForce ==> id == target)
      && target in rows
      && (next[target].state == InForce <==> rows[target].state == InForce || Restorable(rows[target].state))
  {
    OneMapInForce(ops);
    var rows := Exec(ops).rows;
    var next := AckStep(rows, vehicleId, gatewayId, a).0;
    forall id | id in next && next[id].vehicleId == vehicleId && next[id].state == InForce
      ensures id == rows[a.publicationId].rollbackTarget
    {
      AppliedLeavesOne(rows, vehicleId, gatewayId, a, id);
    }
  }

  /** An accepted APPLIED of an apply record puts that record in force and no other of its vehicle. */
  lemma AppliedIsInForce(rows: Rows, vehicleId: string, gatewayId: string, a: Ack, id: string)
    requires AckValid(rows, vehicleId, gatewayId, a) && a.result == AckApplied
    requires rows[a.publicationId].action == ApplyMap && id in rows && rows[id].vehicleId == vehicleId
    ensures AckStep(rows, vehicleId, gatewayId, a).0[id].state == InForce <==> id == a.publicationId
  {
  }

  /** Acknowledgements are handled before deduplication: handling one twice is handling it once. */
  lemma RepeatedAckChangesNothing(ops: seq<Op>, vehicleId: string, gatewayId: string, a: Ack)
    requires Run(ops)
    ensures var once := AckStep(Exec(ops).rows, vehicleId, gatewayId, a);
      AckStep(once.0, vehicleId, gatewayId, a) == once
  {
    OneMapInForce(ops);
    RepeatIsIdempotent(Exec(ops).rows, vehicleId, gatewayId, a);
  }

  lemma RepeatOfRow(rows: Rows, vehicleId: string, gatewayId: string, a: Ack, id: string)
    requires AckValid(rows, vehicleId, gatewayId, a) && LinksOk(rows) && id in rows
    ensures var once := AckStep(rows, vehicleId, gatewayId, a).0;
      a.publicationId in once && id in once && AckedState(once, a, id) == once[id].state
  {
    assert LinkOk(rows, a.publicationId, rows[a.publicationId].previous);
    assert LinkOk(rows, a.publicationId, rows[a.publicationId].rollbackTarget);
  }

  lemma RepeatIsIdempotent(rows: Rows, vehicleId: string, gatewayId: string, a: Ack)
    requires PubInv(rows)
    ensures var once := AckStep(rows, vehicleId, gatewayId, a); AckStep(once.0, vehicleId, gatewayId, a) == once
  {
    var (once, ok) := AckStep(rows, vehicleId, gatewayId, a);
    if ok {
      RepeatIsValid(rows, vehicleId, gatewayId, a);
      var twice := AckStep(once, vehicleId, gatewayId, a).0;
      forall id | id in once ensures twice[id] == once[id] {
        RepeatOfRow(rows, vehicleId, gatewayId, a, id);
      }
      assert twice == once;
    }
  }

  lemma RepeatIsValid(rows: Rows, vehicleId: string, gatewayId: string, a: Ack)
    requires AckValid(rows, vehicleId, gatewayId, a)
    ensures AckValid(AckStep(rows, vehicleId, gatewayId, a).0, vehicleId, gatewayId, a)
  {
  }

  // ---------- approval ----------

  /** A record that left the approval queue was approved. */
  predicate Legitimate(rows: Rows) {
    forall id :: id in rows && rows[id].state != Requested ==> rows[id].approvedBy.Some?
  }

  /** Exactly when an accepted acknowledgement keeps that: when the record it names was approved. */
  lemma AckKeepsApprovalIff(rows: Rows, vehicleId: string, gatewayId: string, a: Ack)
    requires Legitimate(rows) && AckValid(rows, vehicleId, gatewayId, a)
    ensures Legitimate(AckStep(rows, vehicleId, gatewayId, a).0) <==> rows[a.publicationId].approvedBy.Some?
  {
    var next := AckStep(rows, vehicleId, gatewayId, a).0;
    assert next[a.publicationId].state != Requested;
    if rows[a.publicationId].approvedBy.Some? {
      forall id | id in next && next[id].state != Requested ensures next[id].approvedBy.Some? {
        assert rows[id].state == Requested ==> AckedState(rows, a, id) == Requested || id == a.publicationId;
      }
    }
  }

  /** The vehicle only acknowledges commands that were queued for it. */
  predicate Honest(ops: seq<Op>) {
    ops == [] ||
    var init, op := ops[..|ops| - 1], ops[|ops| - 1];
    Honest(init) && (op.HandleAck? ==> op.ack.publicationId in Exec(init).queued)
  }

  predicate QueueApproved(s: Store) {
    forall id :: id in s.queued ==> id in s.rows && s.rows[id].approvedBy.Some?
  }

  lemma AckKeepsApprovers(rows: Rows, vehicleId: string, gatewayId: string, a: Ack)
    ensures var next := AckStep(rows, vehicleId, gatewayId, a).0;
      next.Keys == rows.Keys && forall id :: id in rows ==> next[id].approvedBy == rows[id].approvedBy
  {
  }

  lemma AckKeepsApproval(s: Store, op: Op)
    requires op.HandleAck? && op.ack.publicationId in s.queued
    requires Legitimate(s.rows) && QueueApproved(s)
    ensures Legitimate(Step(s, op).0.rows) && QueueApproved(Step(s, op).0)
  {
    var next := AckStep(s.rows, op.vehicleId, op.gatewayId, op.ack).0;
    assert Step(s, op).0 == s.(rows := next);
    AckKeepsApprovers(s.rows, op.vehicleId, op.gatewayId, op.ack);
    if AckValid(s.rows, op.vehicleId, op.gatewayId, op.ack) {
      AckKeepsApprovalIff(s.rows, op.vehicleId, op.gatewayId, op.ack);
    }
  }

  lemma OtherKeepsApproval(s: Store, op: Op)
    requires !op.HandleAck? && Legitimate(s.rows) && QueueApproved(s)
    ensures Legitimate(Step(s, op).0.rows) && QueueApproved(Step(s, op).0)
  {
  }

  /** If the vehicle only acknowledges what was queued, whatever is in force was approved by someone. */
  lemma {:induction false} InForceWasApproved(ops: seq<Op>)
    requires Honest(ops)
    ensures Legitimate(Exec(ops).rows) && QueueApproved(Exec(ops))
  {
    if ops != [] {
      InForceWasApproved(ops[..|ops| - 1]);
      if ops[|ops| - 1].HandleAck? {
        AckKeepsApproval(Exec(ops[..|ops| - 1]), ops[|ops| - 1]);
      } else {
        OtherKeepsApproval(Exec(ops[..|ops| - 1]), ops[|ops| - 1]);
      }
    }
  }

  // Two unsolicited acknowledgements carry an unapproved request into force.

  const UNSOLICITED: Ack := Ack("mp-1", "map", "car", 1, AckAccepted)
  const REQUEST: Op := Request("mp-1", "map", "car", 1, ApplyMap, "", true)
  const ACCEPT: Op := HandleAck("car", "gw", UNSOLICITED)
  const APPLY: Op := HandleAck("car", "gw", UNSOLICITED.(result := AckApplied))

  lemma UnsolicitedAcksBypassApproval()
    ensures Run([REQUEST, ACCEPT, APPLY])
    ensures var rows := Exec([REQUEST, ACCEPT, APPLY]).rows;
      "mp-1" in rows && rows["mp-1"].state == InForce && rows["mp-1"].approvedBy.None?
  {
    var one, two, all := [REQUEST], [REQUEST, ACCEPT], [REQUEST, ACCEPT, APPLY];
    assert one[..|one| - 1] == [] && two[..|two| - 1] == one && all[..|all| - 1] == two;
    var row := Publication("map", 1, "car", Requested, ApplyMap, "", "", None);
    assert Exec([]) == EMPTY;
    assert Exec(one) == Store(map["mp-1" := row], {});
    assert Exec(two) == Step(Exec(one), ACCEPT).0;
    assert Exec(two).rows["mp-1"] == row.(state := Confirmed);
    assert Exec(all) == Step(Exec(two), APPLY).0;
    assert Exec(all).rows["mp-1"] == row.(state := InForce);
    assert Run([]) && Run(one) && Run(two);
  }

  // ---------- the workflow written out ----------

  /** When an acknowledgement is taken. */
  lemma AckIsTakenIff(rows: Rows, vehicleId: string, gatewayId: string, a: Ack)
    ensures AckStep(rows, vehicleId, gatewayId, a).1 <==>
      && vehicleId != "" && gatewayId != "" && a.publicationId != "" && a.mapId != "" && a.mapVersion > 0
      && a.publicationId in rows
      && var p := rows[a.publicationId];
         && p.vehicleId == vehicleId == a.vehicleId && p.mapId == a.mapId && p.version == a.mapVersion
         && match a.result
            case AckUnknown => false
            case AckApplied =>
              && p.state in {Approved, Dispatched, Confirmed, InForce}
              && (p.action == ApplyMap || p.previous == "" || p.rollbackTarget != "")
            case _ => true
    ensures !AckStep(rows, vehicleId, gatewayId, a).1 ==> AckStep(rows, vehicleId, gatewayId, a).0 == rows
  {
  }

  /** ACCEPTED confirms its record and touches no other. */
  lemma AcceptedIsConfirmed(rows: Rows, vehicleId: string, gatewayId: string, a: Ack)
    requires AckStep(rows, vehicleId, gatewayId, a).1 && a.result == AckAccepted
    ensures AckStep(rows, vehicleId, gatewayId, a).0 ==
      rows[a.publicationId := rows[a.publicationId].(state := Confirmed)]
  {
  }

  /** REJECTED and FAILED reject their record, touch no other, and a following APPLIED is refused. */
  lemma RejectedIsRejected(rows: Rows, vehicleId: string, gatewayId: string, a: Ack)
    requires AckStep(rows, vehicleId, gatewayId, a).1 && (a.result == AckRejected || a.result == AckFailed)
    ensures var next := AckStep(rows, vehicleId, gatewayId, a).0;
      && next == rows[a.publicationId := rows[a.publicationId].(state := Rejected)]
      && AckStep(next, vehicleId, gatewayId, a.(result := AckApplied)) == (next, false)
  {
  }

  /** APPLIED of an apply record: it is in force, what was in force on the vehicle is superseded, the rest stays. */
  lemma AppliedWritesOut(rows: Rows, vehicleId: string, gatewayId: string, a: Ack, id: string)
    requires AckStep(rows, vehicleId, gatewayId, a).1 && a.result == AckApplied && id in rows
    requires rows[a.publicationId].action == ApplyMap
    ensures var next := AckStep(rows, vehicleId, gatewayId, a).0;
      && next.Keys == rows.Keys
      && next[id] == if id == a.publicationId then rows[id].(state := InForce)
                     else if rows[id].vehicleId == vehicleId && rows[id].state == InForce
                     then rows[id].(state := Superseded) else rows[id]
  {
  }

  /**
   APPLIED of a rollback: its record is confirmed, its target is in force if it was or can be restored, the
   record it undoes is rolled back, anything else in force on the vehicle is superseded, the rest stays.
   */
  lemma RollbackWritesOut(rows: Rows, vehicleId: string, gatewayId: string, a: Ack, id: string)
    requires PubInv(rows) && AckStep(rows, vehicleId, gatewayId, a).1 && a.result == AckApplied && id in rows
    requires rows[a.publicationId].action == RollbackMap
    ensures var p, r, next := rows[a.publicationId], rows[id], AckStep(rows, vehicleId, gatewayId, a).0;
      && next.Keys == rows.Keys
      && next[id] ==
           if id == a.publicationId then r.(state := Confirmed)
           else if id == p.rollbackTarget then
             (if r.state in {Superseded, RolledBack, Confirmed, InForce} then r.(state := InForce) else r)
           else if id == p.previous then (if r.state == InForce then r.(state := RolledBack) else r)
           else if r.vehicleId == vehicleId && r.state == InForce then r.(state := Superseded)
           else r
  {
    var p := rows[a.publicationId];
    assert LinkOk(rows, a.publicationId, p.previous) && LinkOk(rows, a.publicationId, p.rollbackTarget);
    if id == p.rollbackTarget && rows[id].state == InForce && id != p.previous {
      assert rows[id].vehicleId == p.vehicleId;
    }
  }

  /** A request is a record of what was asked, in the queue, without an approver. */
  lemma RequestWritesOut(s: Store, op: Op)
    requires op.Request?
    ensures Step(s, op).1 <==>
      op.known && op.newId != "" && op.newId !in s.rows && (op.action == ApplyMap || op.previous != "")
    ensures Step(s, op).0 == if !Step(s, op).1 then s else Store(
      s.rows[op.newId := Publication(op.mapId, op.version, op.vehicleId, Requested, op.action, op.previous, "", None)],
      s.queued)
  {
  }

  /** Only a requested record is approved; its approver is recorded and its command queued. */
  lemma ApproveWritesOut(s: Store, op: Op)
    requires op.Approve?
    ensures Step(s, op).1 <==> op.admitted && op.id in s.rows && s.rows[op.id].state == Requested
    ensures Step(s, op).0 == if !Step(s, op).1 then s else Store(
      s.rows[op.id := s.rows[op.id].(state := Approved, approvedBy := Some(op.approver))], s.queued + {op.id})
  {
  }

  /** A rollback asks for the map of the record its source replaced, and names both. */
  lemma RollbackRequestWritesOut(s: Store, op: Op)
    requires op.Rollback?
    ensures Step(s, op).1 <==>
      && op.source in s.rows && op.sawInForce && op.known && op.newId != "" && op.newId !in s.rows
      && s.rows[op.source].previous != "" && s.rows[op.source].previous in s.rows
    ensures Step(s, op).1 ==>
      var target := s.rows[s.rows[op.source].previous];
      && Step(s, op).0.queued == s.queued
      && Step(s, op).0.rows == s.rows[op.newId := Publication(
           target.mapId, target.version, target.vehicleId, Requested, RollbackMap, op.source,
           s.rows[op.source].previous, None)]
    ensures !Step(s, op).1 ==> Step(s, op).0 == s
  {
  }

  /** Only an approved record is marked dispatched. */
  lemma DispatchWritesOut(s: Store, op: Op)
    requires op.MarkDispatched?
    ensures Step(s, op).1 <==> op.id in s.rows && s.rows[op.id].state == Approved
    ensures Step(s, op).0 == if !Step(s, op).1 then s else Store(
      s.rows[op.id := s.rows[op.id].(state := Dispatched)], s.queued)
  {
  }

  /** What is in force was put there by an APPLIED that was taken, of its own record or of a rollback to it. */
  lemma {:induction false} InForceWasApplied(ops: seq<Op>, id: string) returns (n: nat)
    requires Run(ops) && id in Exec(ops).rows && Exec(ops).rows[id].state == InForce
    ensures n < |ops| && ops[n].HandleAck? && ops[n].ack.result == AckApplied && Run(ops[..n])
    ensures var rows := Exec(ops[..n]).rows;
      && AckStep(rows, ops[n].vehicleId, ops[n].gatewayId, ops[n].ack).1
      && (ops[n].ack.publicationId == id || rows[ops[n].ack.publicationId].rollbackTarget == id)
  {
    var init, op := ops[..|ops| - 1], ops[|ops| - 1];
    if id in Exec(init).rows && Exec(init).rows[id].state == InForce {
      n := InForceWasApplied(init, id);
      assert init[..n] == ops[..n];
    } else {
      n := |ops| - 1;
    }
  }
}
