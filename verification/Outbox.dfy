/** The downlink outbox: claim, publish, mark, retry, with one worker that may crash anywhere. */
module Outbox {
  import opened Prelude

  datatype Status = Pending | Sending | Delivered | Dead

  datatype Row = Row(dedupeKey: string, status: Status, attempts: nat, nextAttempt: int, createdAt: int)

  type Rows = map<string, Row>

  datatype Item = Item(id: string, attempts: nat)

  const BATCH_SIZE: nat := 32
  const MAX_ATTEMPTS: nat := 20
  const CLAIM_TIMEOUT: int := 30 * SECOND

  predicate Final(s: Status) {
    s == Delivered || s == Dead
  }

  // ---------- statements ----------

  function Insert(rows: Rows, id: string, dedupeKey: string, now: int): Rows {
    if id in rows || exists r :: r in rows && rows[r].dedupeKey == dedupeKey then rows
    else rows[id := Row(dedupeKey, Pending, 0, now, now)]
  }

  /** Claims a crash left behind become pending again once their timeout has passed twice. */
  function Reclaim(rows: Rows, now: int): Rows {
    map id | id in rows ::
      if rows[id].status == Sending && rows[id].nextAttempt < now - CLAIM_TIMEOUT
      then rows[id].(status := Pending, nextAttempt := now) else rows[id]
  }

  predicate Due(r: Row, now: int) {
    r.status == Pending && r.nextAttempt <= now
  }

  /** A batch as the query returns it: the oldest due rows, at most 32, all of them if they are fewer. */
  predicate IsBatch(rows: Rows, picked: seq<string>, now: int) {
    && |picked| <= BATCH_SIZE
    && (forall i :: 0 <= i < |picked| ==> picked[i] in rows && Due(rows[picked[i]], now))
    && (forall i, j :: 0 <= i < j < |picked| ==>
          picked[i] != picked[j] && rows[picked[i]].createdAt <= rows[picked[j]].createdAt)
    && (forall id :: id in rows && Due(rows[id], now) && id !in picked ==>
          |picked| == BATCH_SIZE && forall i :: 0 <= i < |picked| ==> rows[picked[i]].createdAt <= rows[id].createdAt)
  }

  function Claimed(r: Row, now: int): Row {
    r.(status := Sending, attempts := r.attempts + 1, nextAttempt := now + CLAIM_TIMEOUT)
  }

  function ClaimRows(rows: Rows, picked: seq<string>, now: int): Rows {
    map id | id in rows :: if id in picked then Claimed(rows[id], now) else rows[id]
  }

  function Items(rows: Rows, picked: seq<string>): seq<Item>
    requires forall i :: 0 <= i < |picked| ==> picked[i] in rows
  {
    seq(|picked|, i requires 0 <= i < |picked| => Item(picked[i], rows[picked[i]].attempts + 1))
  }

  lemma ClaimOneMore(rows: Rows, picked: seq<string>, i: nat, now: int)
    requires i < |picked| && forall k :: 0 <= k < |picked| ==> picked[k] in rows
    requires forall j, k :: 0 <= j < k < |picked| ==> picked[j] != picked[k]
    ensures ClaimRows(rows, picked[..i], now)[picked[i]] == rows[picked[i]]
    ensures ClaimRows(rows, picked[..i + 1], now) ==
      ClaimRows(rows, picked[..i], now)[picked[i] := Claimed(rows[picked[i]], now)]
    ensures Items(rows, picked[..i + 1]) == Items(rows, picked[..i]) + [Item(picked[i], rows[picked[i]].attempts + 1)]
  {
    assert picked[..i + 1] == picked[..i] + [picked[i]];
  }

  function Backoff(attempts: nat): int {
    if attempts * attempts > 60 then 60 else attempts * attempts
  }

  function Marked(r: Row, attempts: nat, delivered: bool, now: int): Row {
    if delivered then r.(status := Delivered)
    else r.(status := if attempts >= MAX_ATTEMPTS then Dead else Pending,
            nextAttempt := now + Backoff(attempts) * SECOND)
  }

  // ---------- the machine ----------

  /** `publishes` counts publish calls per row, `lost` the claims that ended without a recorded result. */
  datatype State = State(rows: Rows, batch: seq<Item>, publishes: map<string, nat>, lost: map<string, nat>)

  const EMPTY := State(map[], [], map[], map[])

  function Count(m: map<string, nat>, id: string): nat {
    if id in m then m[id] else 0
  }

  /**
   Send publishes the next claimed item with result `delivered` and records it unless the update
   fails; Crash ends the worker, after publishing the next item if `mid`.
   */
  datatype Op =
    | Enqueue(id: string, dedupeKey: string, now: int)
    | Claim(picked: seq<string>, now: int)
    | Send(delivered: bool, recorded: bool, now: int)
    | Crash(mid: bool)

  predicate Possible(s: State, op: Op) {
    match op
    case Enqueue(_, _, _) => true
    case Claim(picked, now) => s.batch == [] && IsBatch(Reclaim(s.rows, now), picked, now)
    case Send(_, _, _) => s.batch != [] && s.batch[0].id in s.rows
    case Crash(mid) => mid ==> s.batch != []
  }

  function Bump(m: map<string, nat>, id: string): map<string, nat> {
    m[id := Count(m, id) + 1]
  }

  function LoseAll(lost: map<string, nat>, batch: seq<Item>): map<string, nat>
    decreases |batch|
  {
    if batch == [] then lost else LoseAll(Bump(lost, batch[0].id), batch[1..])
  }

  function Step(s: State, op: Op): State
    requires Possible(s, op)
  {
    match op
    case Enqueue(id, key, now) => s.(rows := Insert(s.rows, id, key, now))
    case Claim(picked, now) =>
      var rows := Reclaim(s.rows, now);
      s.(rows := ClaimRows(rows, picked, now), batch := Items(rows, picked))
    case Send(delivered, recorded, now) =>
      var item := s.batch[0];
      var sent := s.(batch := s.batch[1..], publishes := Bump(s.publishes, item.id));
      if recorded then sent.(rows := s.rows[item.id := Marked(s.rows[item.id], item.attempts, delivered, now)])
      else sent.(lost := Bump(s.lost, item.id))
    case Crash(mid) =>
      s.(batch := [], lost := LoseAll(s.lost, s.batch),
         publishes := if mid then Bump(s.publishes, s.batch[0].id) else s.publishes)
  }

  // ---------- the worker ----------

  class OutboxWorker {
    var rows: Rows

    constructor ()
      ensures rows == map[]
    {
      rows := map[];
    }

    method InsertOutbox(id: string, dedupeKey: string, now: int)
      modifies this
      ensures rows == Insert(old(rows), id, dedupeKey, now)
    {
      if id !in rows && !(exists r :: r in rows && rows[r].dedupeKey == dedupeKey) {
        rows := rows[id := Row(dedupeKey, Pending, 0, now, now)];
      }
    }

    /** The claim transaction: reclaim, then one update per selected row. */
    method ClaimOutbox(picked: seq<string>, now: int) returns (items: seq<Item>)
      requires IsBatch(Reclaim(rows, now), picked, now)
      modifies this
      ensures rows == ClaimRows(Reclaim(old(rows), now), picked, now)
      ensures items == Items(Reclaim(old(rows), now), picked)
    {
      rows := Reclaim(rows, now);
      ghost var start := rows;
      items := [];
      for i := 0 to |picked|
        invariant rows == ClaimRows(start, picked[..i], now)
        invariant items == Items(start, picked[..i])
      {
        items := items + [Item(picked[i], rows[picked[i]].attempts + 1)];
        rows := rows[picked[i] := Claimed(rows[picked[i]], now)];
        ClaimOneMore(start, picked, i, now);
      }
      assert picked[..|picked|] == picked;
    }

    method MarkOutbox(item: Item, delivered: bool, now: int)
      modifies this
      ensures rows ==
        if item.id !in old(rows) then old(rows)
        else old(rows)[item.id := Marked(old(rows)[item.id], item.attempts, delivered, now)]
    {
      if item.id !in rows {
        return;
      }
      var row := rows[item.id];
      if delivered {
        rows := rows[item.id := row.(status := Delivered)];
        return;
      }
      var backoff := item.attempts * item.attempts;
      if backoff > 60 {
        backoff := 60;
      }
      rows := rows[item.id := row.(status := if item.attempts >= MAX_ATTEMPTS then Dead else Pending,
                                   nextAttempt := now + backoff * SECOND)];
    }

    /** The drain loop over a claimed batch: publish, then record, which may fail and is then only logged. */
    method DrainOutbox(items: seq<Item>, results: seq<Result>, now: int)
      requires |results| == |items|
      requires forall i :: 0 <= i < |items| ==> items[i].id in rows
      modifies this
      ensures forall publishes, lost ::
        var s := Sends(State(old(rows), items, publishes, lost), results, now); s.rows == rows && s.batch == []
    {
      for i := 0 to |items|
        invariant rows.Keys == old(rows.Keys)
        invariant forall publishes, lost ::
          var s := Sends(State(old(rows), items, publishes, lost), results[..i], now);
          s.rows == rows && s.batch == items[i..]
      {
        assert results[..i + 1][..i] == results[..i];
        if results[i].recorded {
          MarkOutbox(items[i], results[i].delivered, now);
        }
      }
      assert results[..|items|] == results;
    }
  }

  /** The broker's answer for one item and whether the update that records it went through. */
  datatype Result = Result(delivered: bool, recorded: bool)

  /** A Send per result. */
  function Sends(s: State, results: seq<Result>, now: int): State {
    if results == [] then s
    else
      var t := Sends(s, results[..|results| - 1], now);
      var r := results[|results| - 1];
      var op := Send(r.delivered, r.recorded, now);
      if Possible(t, op) then Step(t, op) else t
  }

  // ---------- runs ----------

  predicate Batched(batch: seq<Item>, id: string) {
    exists i :: 0 <= i < |batch| && batch[i].id == id
  }

  /** What a row has been through never exceeds twenty attempts plus the claims that were lost. */
  predicate Accounted(s: State, id: string)
    requires id in s.rows
  {
    var r := s.rows[id];
    && r.attempts <= MAX_ATTEMPTS + Count(s.lost, id)
    && (r.status == Dead ==> r.attempts >= MAX_ATTEMPTS) && (Final(r.status) ==> Count(s.publishes, id) > 0)
    && (if Batched(s.batch, id) then
          r.status == Sending && Count(s.publishes, id) < r.attempts
        else
          && Count(s.publishes, id) <= r.attempts
          && (!Final(r.status) ==> r.attempts < MAX_ATTEMPTS + Count(s.lost, id)))
  }

  predicate BatchInv(s: State) {
    && (forall i :: 0 <= i < |s.batch| ==>
          s.batch[i].id in s.rows && s.batch[i].attempts == s.rows[s.batch[i].id].attempts)
    && (forall i, j :: 0 <= i < j < |s.batch| ==> s.batch[i].id != s.batch[j].id)
  }

  predicate OutboxInv(s: State) {
    && BatchInv(s)
    && (forall id :: id in s.rows ==> Accounted(s, id))
    && s.publishes.Keys <= s.rows.Keys
  }

  /** Rows are never dropped and a delivered or dead row never changes. */
  predicate Conserves(s: State, t: State) {
    forall id :: id in s.rows ==>
      && id in t.rows && t.rows[id].dedupeKey == s.rows[id].dedupeKey && s.rows[id].attempts <= t.rows[id].attempts
      && (Final(s.rows[id].status) ==> t.rows[id] == s.rows[id])
  }

  lemma {:induction false} LoseAllCounts(lost: map<string, nat>, batch: seq<Item>, id: string)
    requires forall i, j :: 0 <= i < j < |batch| ==> batch[i].id != batch[j].id
    ensures Count(LoseAll(lost, batch), id) == Count(lost, id) + if Batched(batch, id) then 1 else 0
    decreases |batch|
  {
    if batch != [] {
      LoseAllCounts(Bump(lost, batch[0].id), batch[1..], id);
      TailOfBatch(batch, id);
    }
  }

  lemma ClaimAccounts(s: State, op: Op, id: string)
    requires op.Claim? && Possible(s, op) && id in s.rows && Accounted(s, id)
    ensures id in Step(s, op).rows && Accounted(Step(s, op), id)
  {
    var t := Step(s, op);
    assert !Batched(s.batch, id);
    if id in op.picked {
      var i :| 0 <= i < |op.picked| && op.picked[i] == id;
      assert t.batch[i].id == id;
    }
  }

  lemma ClaimKeepsBatch(s: State, op: Op)
    requires op.Claim? && Possible(s, op)
    ensures BatchInv(Step(s, op)) && Conserves(s, Step(s, op))
  {
    var t := Step(s, op);
    forall i | 0 <= i < |t.batch|
      ensures t.batch[i].id in t.rows && t.batch[i].attempts == t.rows[t.batch[i].id].attempts
    {
      assert t.batch[i].id == op.picked[i] && op.picked[i] in op.picked;
    }
  }

  lemma ClaimKeepsInv(s: State, op: Op)
    requires op.Claim? && OutboxInv(s) && Possible(s, op)
    ensures OutboxInv(Step(s, op)) && Conserves(s, Step(s, op))
  {
    ClaimKeepsBatch(s, op);
    forall id | id in Step(s, op).rows ensures Accounted(Step(s, op), id) {
      ClaimAccounts(s, op, id);
    }
  }

  lemma TailOfBatch(batch: seq<Item>, id: string)
    requires batch != [] && forall i, j :: 0 <= i < j < |batch| ==> batch[i].id != batch[j].id
    ensures Batched(batch[1..], id) <==> Batched(batch, id) && id != batch[0].id
  {
    if i :| 0 <= i < |batch| && batch[i].id == id {
      assert i > 0 ==> batch[1..][i - 1].id == id;
    }
    if i :| 0 <= i < |batch[1..]| && batch[1..][i].id == id {
      assert batch[i + 1].id == id;
    }
  }

  lemma SendAccounts(s: State, op: Op, id: string)
    requires op.Send? && BatchInv(s) && Possible(s, op) && id in s.rows && Accounted(s, id)
    ensures id in Step(s, op).rows && Accounted(Step(s, op), id)
  {
    TailOfBatch(s.batch, id);
    assert Batched(s.batch, s.batch[0].id);
  }

  lemma SendConserves(s: State, op: Op)
    requires op.Send? && BatchInv(s) && Possible(s, op) && Accounted(s, s.batch[0].id)
    ensures BatchInv(Step(s, op)) && Conserves(s, Step(s, op))
  {
    assert Batched(s.batch, s.batch[0].id);
  }

  lemma SendKeepsInv(s: State, op: Op)
    requires op.Send? && OutboxInv(s) && Possible(s, op)
    ensures OutboxInv(Step(s, op)) && Conserves(s, Step(s, op))
  {
    SendConserves(s, op);
    forall id | id in Step(s, op).rows ensures Accounted(Step(s, op), id) {
      SendAccounts(s, op, id);
    }
  }

  lemma CrashKeepsInv(s: State, op: Op)
    requires op.Crash? && OutboxInv(s) && Possible(s, op)
    ensures OutboxInv(Step(s, op)) && Conserves(s, Step(s, op))
  {
    var t := Step(s, op);
    forall id | id in t.rows ensures Accounted(t, id) {
      assert Accounted(s, id);
      LoseAllCounts(s.lost, s.batch, id);
      if op.mid { assert Batched(s.batch, s.batch[0].id); }
    }
  }

  lemma EnqueueKeepsInv(s: State, op: Op)
    requires op.Enqueue? && OutboxInv(s)
    ensures OutboxInv(Step(s, op)) && Conserves(s, Step(s, op))
  {
    var t := Step(s, op);
    forall id | id in t.rows ensures Accounted(t, id) {
      if id in s.rows { assert Accounted(s, id); }
    }
  }

  function Exec(ops: seq<Op>): State
    requires Run(ops)
    decreases |ops|, 1
  {
    if ops == [] then EMPTY else Step(Exec(ops[..|ops| - 1]), ops[|ops| - 1])
  }

  predicate Run(ops: seq<Op>)
    decreases |ops|, 0
  {
    ops == [] || (Run(ops[..|ops| - 1]) && Possible(Exec(ops[..|ops| - 1]), ops[|ops| - 1]))
  }

  lemma {:induction false} RunKeepsInv(ops: seq<Op>)
    requires Run(ops)
    ensures OutboxInv(Exec(ops))
  {
    if ops != [] {
      var init, op := ops[..|ops| - 1], ops[|ops| - 1];
      RunKeepsInv(init);
      match op
      case Enqueue(_, _, _) => EnqueueKeepsInv(Exec(init), op);
      case Claim(_, _) => ClaimKeepsInv(Exec(init), op);
      case Send(_, _, _) => SendKeepsInv(Exec(init), op);
      case Crash(_) => CrashKeepsInv(Exec(init), op);
    }
  }

  /**
   Retries are bounded: in any run with one worker, whatever crashes, every row is published at most
   twenty times plus once per claim of it that a crash or a failed update lost.
   */
  lemma RetriesAreBounded(ops: seq<Op>, id: string)
    requires Run(ops)
    ensures Count(Exec(ops).publishes, id) <= MAX_ATTEMPTS + Count(Exec(ops).lost, id)
  {
    RunKeepsInv(ops);
    if id in Exec(ops).rows {
      assert Accounted(Exec(ops), id);
    }
  }

  /** No row is given up before its twentieth attempt, and none is final without having been published. */
  lemma DeadOnlyAfterTwentyAttempts(ops: seq<Op>, id: string)
    requires Run(ops) && id in Exec(ops).rows && Final(Exec(ops).rows[id].status)
    ensures Count(Exec(ops).publishes, id) > 0
    ensures Exec(ops).rows[id].status == Dead ==> Exec(ops).rows[id].attempts >= MAX_ATTEMPTS
  {
    RunKeepsInv(ops);
    assert Accounted(Exec(ops), id);
  }

  /** No enqueued row disappears, and delivered and dead rows are final, between any two points of a run. */
  lemma {:induction false} RowsAreConserved(ops: seq<Op>, n: nat)
    requires Run(ops) && n <= |ops|
    ensures Run(ops[..n]) && Conserves(Exec(ops[..n]), Exec(ops))
  {
    if n == |ops| {
      assert ops[..n] == ops;
    } else {
      var init, op := ops[..|ops| - 1], ops[|ops| - 1];
      assert init[..n] == ops[..n];
      RowsAreConserved(init, n);
      RunKeepsInv(init);
      match op
      case Enqueue(_, _, _) => EnqueueKeepsInv(Exec(init), op);
      case Claim(_, _) => ClaimKeepsInv(Exec(init), op);
      case Send(_, _, _) => SendKeepsInv(Exec(init), op);
      case Crash(_) => CrashKeepsInv(Exec(init), op);
    }
  }

  // ---------- the machine written out ----------

  /** A row enters pending and due at once, unless its id or its dedupe key is already there. */
  lemma EnqueueWritesOut(s: State, op: Op)
    requires op.Enqueue?
    ensures var known := op.id in s.rows || exists r :: r in s.rows && s.rows[r].dedupeKey == op.dedupeKey;
      Step(s, op) == if known then s else s.(rows := s.rows[op.id := Row(op.dedupeKey, Pending, 0, op.now, op.now)])
  {
  }

  /** What a claim does to each row: claimed for 30 s, freed from a claim older than that, or left alone. */
  lemma ClaimWritesOut(s: State, op: Op, id: string)
    requires op.Claim? && Possible(s, op) && id in s.rows
    ensures var r, t := s.rows[id], Step(s, op);
      var abandoned := r.status == Sending && r.nextAttempt < op.now - 30_000_000_000;
      && t.rows.Keys == s.rows.Keys
      && (id in op.picked ==>
            && (abandoned || (r.status == Pending && r.nextAttempt <= op.now))
            && t.rows[id] == Row(r.dedupeKey, Sending, r.attempts + 1, op.now + 30_000_000_000, r.createdAt))
      && (id !in op.picked && abandoned ==>
            t.rows[id] == Row(r.dedupeKey, Pending, r.attempts, op.now, r.createdAt))
      && (id !in op.picked && !abandoned ==> t.rows[id] == r)
  {
    if id in op.picked {
      var i :| 0 <= i < |op.picked| && op.picked[i] == id;
      assert Due(Reclaim(s.rows, op.now)[op.picked[i]], op.now);
    }
  }

  /** The batch is the picked rows in order with one more attempt each; a due row waits only for 32 older ones. */
  lemma ClaimPicks(s: State, op: Op)
    requires op.Claim? && Possible(s, op)
    ensures var t := Step(s, op);
      && |t.batch| == |op.picked| <= 32 && t.publishes == s.publishes && t.lost == s.lost
      && (forall i :: 0 <= i < |op.picked| ==>
            && op.picked[i] in s.rows
            && t.batch[i] == Item(op.picked[i], s.rows[op.picked[i]].attempts + 1))
      && (forall id | id in s.rows && id !in op.picked ::
            s.rows[id].status == Pending && s.rows[id].nextAttempt <= op.now ==>
              |op.picked| == 32 && forall i :: 0 <= i < 32 ==> s.rows[op.picked[i]].createdAt <= s.rows[id].createdAt)
  {
    var rows := Reclaim(s.rows, op.now);
    forall i | 0 <= i < |op.picked|
      ensures op.picked[i] in s.rows && rows[op.picked[i]].attempts == s.rows[op.picked[i]].attempts
    {
    }
    forall id | id in s.rows && id !in op.picked && s.rows[id].status == Pending && s.rows[id].nextAttempt <= op.now
      ensures |op.picked| == 32 && forall i :: 0 <= i < 32 ==> s.rows[op.picked[i]].createdAt <= s.rows[id].createdAt
    {
      assert id in rows && Due(rows[id], op.now);
      forall i | 0 <= i < |op.picked| ensures s.rows[op.picked[i]].createdAt <= s.rows[id].createdAt {
        assert rows[op.picked[i]].createdAt <= rows[id].createdAt;
      }
    }
  }

  /**
   What a send does: one publish of the oldest claimed item. Recorded, a success delivers it, a failure before
   the twentieth attempt makes it pending after the square of its attempts in seconds, a minute at most, and
   from the twentieth on it is dead. Unrecorded, the claim counts as lost. No other row changes.
   */
  lemma SendWritesOut(s: State, op: Op)
    requires op.Send? && Possible(s, op)
    ensures var id, n, t := s.batch[0].id, s.batch[0].attempts, Step(s, op);
      var r := s.rows[id];
      && t.batch == s.batch[1..]
      && t.publishes == s.publishes[id := 1 + if id in s.publishes then s.publishes[id] else 0]
      && (!op.recorded ==> t.rows == s.rows && t.lost == s.lost[id := 1 + if id in s.lost then s.lost[id] else 0])
      && (op.recorded ==> t.lost == s.lost && t.rows.Keys == s.rows.Keys)
      && (op.recorded ==> forall k :: k in s.rows && k != id ==> t.rows[k] == s.rows[k])
      && (op.recorded && op.delivered ==>
            t.rows[id] == Row(r.dedupeKey, Delivered, r.attempts, r.nextAttempt, r.createdAt))
      && (op.recorded && !op.delivered ==>
            && t.rows[id].status == (if n < 20 then Pending else Dead)
            && t.rows[id].nextAttempt == op.now + (if n < 8 then n * n else 60) * 1_000_000_000
            && t.rows[id].dedupeKey == r.dedupeKey && t.rows[id].attempts == r.attempts
            && t.rows[id].createdAt == r.createdAt)
  {
    var n := s.batch[0].attempts;
    SquaresPassSixtyAtEight(n);
  }

  lemma SquaresPassSixtyAtEight(n: nat)
    ensures n < 8 ==> n * n <= 60
    ensures 8 <= n ==> n * n > 60
  {
    if 8 <= n {
      assert n * n >= 8 * n;
    } else {
      assert n * n <= 7 * n;
    }
  }

  /** A crash loses the whole batch and leaves every row as it is. */
  lemma CrashWritesOut(s: State, op: Op)
    requires op.Crash? && Possible(s, op)
    ensures Step(s, op).rows == s.rows && Step(s, op).batch == []
    ensures op.mid ==> Step(s, op).publishes == Bump(s.publishes, s.batch[0].id)
    ensures !op.mid ==> Step(s, op).publishes == s.publishes
  {
  }

  /** A row is delivered only by a send of it that succeeded and was recorded, dead only by a recorded failure. */
  lemma {:induction false} FinalWasRecorded(ops: seq<Op>, id: string) returns (n: nat)
    requires Run(ops) && id in Exec(ops).rows && Final(Exec(ops).rows[id].status)
    ensures n < |ops| && Run(ops[..n]) && ops[n].Send? && ops[n].recorded
    ensures Exec(ops[..n]).batch != [] && Exec(ops[..n]).batch[0].id == id
    ensures ops[n].delivered <==> Exec(ops).rows[id].status == Delivered
    ensures !ops[n].delivered ==> Exec(ops[..n]).batch[0].attempts >= 20
  {
    var init, op := ops[..|ops| - 1], ops[|ops| - 1];
    if id in Exec(init).rows && Final(Exec(init).rows[id].status) {
      n := FinalWasRecorded(init, id);
      RowsAreConserved(ops, |init|);
      assert ops[..|init|] == init && init[..n] == ops[..n];
    } else {
      n := |ops| - 1;
    }
  }
}
