/** Ordered, at-most-once ingest: the sequence cursor, the deduplication ledger and their retention. */
module Ingest {
  import opened Prelude
  import opened Envelopes

  datatype Key = Key(vehicleId: string, gatewayId: string, messageType: string, sessionId: string)

  datatype Cursor = Cursor(last: nat, receivedAt: int)

  datatype Registry = Registry(cursors: map<Key, Cursor>, ledger: map<(Key, nat), int>)

  const EMPTY := Registry(map[], map[])

  datatype Claimed = Accepted | Duplicate | Invalid

  const LEDGER_RETENTION: int := 15 * 60 * SECOND
  const CURSOR_RETENTION: int := 24 * 3600 * SECOND

  /** Sequence columns are BIGINT: a number above the signed range is a database error. */
  predicate ValidClaim(k: Key, sequence: uint64) {
    && k.vehicleId != "" && k.gatewayId != "" && k.messageType != "" && k.sessionId != ""
    && 0 < sequence < INT64_LIMIT
  }

  predicate Advances(r: Registry, k: Key, sequence: nat) {
    k in r.cursors ==> r.cursors[k].last < sequence
  }

  function Claim(r: Registry, k: Key, sequence: uint64, now: int): (Registry, Claimed) {
    if !ValidClaim(k, sequence) then (r, Invalid)
    else if !Advances(r, k, sequence) then (r, Duplicate)
    else
      var moved := r.(cursors := r.cursors[k := Cursor(sequence, now)]);
      if (k, sequence) in r.ledger then (moved, Duplicate)
      else (moved.(ledger := r.ledger[(k, sequence) := now]), Accepted)
  }

  function PurgeLedger(r: Registry, now: int): Registry {
    r.(ledger := map e | e in r.ledger && r.ledger[e] >= now - LEDGER_RETENTION :: r.ledger[e])
  }

  function PurgeCursors(r: Registry, now: int): Registry {
    r.(cursors := map k | k in r.cursors && r.cursors[k].receivedAt >= now - CURSOR_RETENTION :: r.cursors[k])
  }

  /** One retention round, either deletion of which may fail. */
  function Purge(r: Registry, now: int, ledgerOk: bool, cursorsOk: bool): Registry {
    var kept := if ledgerOk then PurgeLedger(r, now) else r;
    if cursorsOk then PurgeCursors(kept, now) else kept
  }

  class GatewayRegistry {
    var cursors: map<Key, Cursor>
    var ledger: map<(Key, nat), int>

    ghost function Contents(): Registry
      reads this
    {
      Registry(cursors, ledger)
    }

    constructor ()
      ensures Contents() == EMPTY
    {
      cursors, ledger := map[], map[];
    }

    /** The upsert guarded by `last_sequence < EXCLUDED.last_sequence`, then the ledger insert. */
    method AcceptInboundSequence(k: Key, sequence: uint64, now: int) returns (claimed: Claimed)
      modifies this
      ensures (Contents(), claimed) == Claim(old(Contents()), k, sequence, now)
    {
      if k.vehicleId == "" || k.gatewayId == "" || k.messageType == "" || k.sessionId == "" || sequence == 0
         || sequence >= INT64_LIMIT {
        return Invalid;
      }
      if k in cursors && cursors[k].last >= sequence {
        return Duplicate;
      }
      cursors := cursors[k := Cursor(sequence, now)];
      if (k, sequence) in ledger {
        return Duplicate;
      }
      ledger := ledger[(k, sequence) := now];
      return Accepted;
    }

    /** One round of the retention loop; either deletion may fail without stopping the other. */
    method Retain(now: int, ledgerOk: bool, cursorsOk: bool)
      modifies this
      ensures Contents() == Purge(old(Contents()), now, ledgerOk, cursorsOk)
    {
      if ledgerOk {
        ledger := map e | e in ledger && ledger[e] >= now - LEDGER_RETENTION :: ledger[e];
      }
      if cursorsOk {
        cursors := map k | k in cursors && cursors[k].receivedAt >= now - CURSOR_RETENTION :: cursors[k];
      }
    }
  }

  // ---------- runs ----------

  /**
   `checkedAt` is when the envelope was validated, `now` the transaction time of its claim and
   `committed` whether the surrounding transaction went through.
   */
  datatype Input =
    | Deliver(env: Envelope<()>, checkedAt: int, now: int, committed: bool)
    | Retention(now: int, ledgerOk: bool, cursorsOk: bool)

  datatype Acceptance = Acceptance(env: Envelope<()>, checkedAt: int, at: int)

  datatype Sys = Sys(registry: Registry, accepted: seq<Acceptance>, clock: int)

  function KeyOf<P>(env: Envelope<P>): Key {
    Key(env.vehicleId, env.gatewayId, env.messageType, env.sessionId)
  }

  predicate Validated(env: Envelope<()>, at: int) {
    ValidateEnvelope(env, "", env.vehicleId, env.gatewayId, at) && env.tagValid
  }

  function Step(s: Sys, i: Input): Sys {
    match i
    case Deliver(env, checkedAt, now, committed) =>
      if !Validated(env, checkedAt) || !committed then s.(clock := now)
      else
        var (r, claimed) := Claim(s.registry, KeyOf(env), env.sequence, now);
        Sys(r, if claimed == Accepted then s.accepted + [Acceptance(env, checkedAt, now)] else s.accepted, now)
    case Retention(now, ledgerOk, cursorsOk) =>
      s.(registry := Purge(s.registry, now, ledgerOk, cursorsOk), clock := now)
  }

  function Exec(inputs: seq<Input>, start: int): Sys {
    if inputs == [] then Sys(EMPTY, [], start) else Step(Exec(inputs[..|inputs| - 1], start), inputs[|inputs| - 1])
  }

  /** Time never goes back and a validated envelope is claimed within `delay`. */
  predicate Run(inputs: seq<Input>, start: int, delay: int) {
    inputs == [] ||
    var init, last := inputs[..|inputs| - 1], inputs[|inputs| - 1];
    && Run(init, start, delay)
    && Exec(init, start).clock <= last.now
    && (last.Deliver? ==> last.checkedAt <= last.now <= last.checkedAt + delay)
  }

  const REPLAY_WINDOW: int := 64 * SECOND

  /** The TTL cap and the two-second skew on either side leave a replay 64 seconds. */
  lemma ReplayWindow(a: Envelope<()>, b: Envelope<()>, first: int, second: int)
    requires Validated(a, first) && Validated(b, second) && a.utcTimeNs == b.utcTimeNs && a.ttlMs == b.ttlMs
    ensures second - first <= REPLAY_WINDOW
  {
  }

  /** An acceptance is remembered by its session's cursor until it is older than the cursor retention. */
  predicate Remembered(r: Registry, clock: int, a: Acceptance) {
    && Validated(a.env, a.checkedAt) && a.checkedAt <= a.at <= clock
    && (|| a.at + CURSOR_RETENTION < clock
        || (KeyOf(a.env) in r.cursors && a.env.sequence <= r.cursors[KeyOf(a.env)].last
            && a.at <= r.cursors[KeyOf(a.env)].receivedAt))
  }

  predicate SameEnvelope(a: Envelope<()>, b: Envelope<()>) {
    KeyOf(a) == KeyOf(b) && a.sequence == b.sequence && a.utcTimeNs == b.utcTimeNs && a.ttlMs == b.ttlMs
  }

  predicate IngestInv(s: Sys) {
    && (forall k :: k in s.registry.cursors ==> s.registry.cursors[k].receivedAt <= s.clock)
    && (forall i :: 0 <= i < |s.accepted| ==> Remembered(s.registry, s.clock, s.accepted[i]))
    && (forall i, j :: 0 <= i < j < |s.accepted| ==> !SameEnvelope(s.accepted[i].env, s.accepted[j].env))
  }

  lemma ReplayIsRefused(r: Registry, clock: int, a: Acceptance, env: Envelope<()>, checkedAt: int, now: int, delay: int)
    requires Remembered(r, clock, a) && SameEnvelope(a.env, env) && Validated(env, checkedAt)
    requires clock <= now <= checkedAt + delay && REPLAY_WINDOW + delay < CURSOR_RETENTION
    ensures Claim(r, KeyOf(env), env.sequence, now).1 != Accepted
  {
    ReplayWindow(a.env, env, a.checkedAt, checkedAt);
  }

  lemma StepRemembers(s: Sys, i: Input, a: Acceptance)
    requires Remembered(s.registry, s.clock, a) && s.clock <= i.now
    requires forall k :: k in s.registry.cursors ==> s.registry.cursors[k].receivedAt <= s.clock
    ensures Remembered(Step(s, i).registry, i.now, a)
  {
  }

  lemma StepKeepsInv(s: Sys, i: Input, delay: int)
    requires IngestInv(s) && s.clock <= i.now && REPLAY_WINDOW + delay < CURSOR_RETENTION
    requires i.Deliver? ==> i.checkedAt <= i.now <= i.checkedAt + delay
    ensures IngestInv(Step(s, i))
  {
    var t := Step(s, i);
    forall n | 0 <= n < |t.accepted| ensures Remembered(t.registry, t.clock, t.accepted[n]) {
      if n < |s.accepted| { StepRemembers(s, i, s.accepted[n]); }
    }
    forall m, n | 0 <= m < n < |t.accepted| ensures !SameEnvelope(t.accepted[m].env, t.accepted[n].env) {
      if n == |s.accepted| && SameEnvelope(t.accepted[m].env, t.accepted[n].env) {
        ReplayIsRefused(s.registry, s.clock, s.accepted[m], i.env, i.checkedAt, i.now, delay);
      }
    }
  }

  /**
   At-most-once ingest across retention: over any run, with either deletion failing at will, no
   validated envelope is accepted twice, provided claims follow validation within a day less 64 s.
   */
  lemma {:induction false} NoEnvelopeAcceptedTwice(inputs: seq<Input>, start: int, delay: int)
    requires Run(inputs, start, delay) && REPLAY_WINDOW + delay < CURSOR_RETENTION
    ensures IngestInv(Exec(inputs, start))
  {
    if inputs != [] {
      NoEnvelopeAcceptedTwice(inputs[..|inputs| - 1], start, delay);
      StepKeepsInv(Exec(inputs[..|inputs| - 1], start), inputs[|inputs| - 1], delay);
    }
  }

  // ---------- cursor and ledger agree ----------

  predicate LedgerBehindCursor(r: Registry) {
    forall e :: e in r.ledger ==>
      e.0 in r.cursors && e.1 <= r.cursors[e.0].last && r.ledger[e] <= r.cursors[e.0].receivedAt
  }

  predicate ClocksBehind(s: Sys) {
    forall k :: k in s.registry.cursors ==> s.registry.cursors[k].receivedAt <= s.clock
  }

  /** A retention round that keeps its ledger rows and deletes the cursor of one of them. */
  predicate Orphans(r: Registry, i: Input) {
    && i.Retention? && i.cursorsOk && !i.ledgerOk
    && exists e :: e in r.ledger && e.0 in r.cursors && r.cursors[e.0].receivedAt < i.now - CURSOR_RETENTION
  }

  /** Exactly when a step keeps the ledger behind the cursors: when it orphans no ledger row. */
  lemma StepKeepsLedgerIff(s: Sys, i: Input)
    requires LedgerBehindCursor(s.registry) && ClocksBehind(s) && s.clock <= i.now
    ensures LedgerBehindCursor(Step(s, i).registry) <==> !Orphans(s.registry, i)
    ensures ClocksBehind(Step(s, i))
  {
    if Orphans(s.registry, i) {
      var e :| e in s.registry.ledger && s.registry.cursors[e.0].receivedAt < i.now - CURSOR_RETENTION;
      assert e in Step(s, i).registry.ledger && e.0 !in Step(s, i).registry.cursors;
    }
  }

  /** The promise of the gate: whatever advances its cursor is accepted. */
  ghost predicate AcceptsAdvances(r: Registry) {
    forall k: Key, n: uint64 :: ValidClaim(k, n) && Advances(r, k, n) ==> (k, n) !in r.ledger
  }

  lemma AcceptsAdvancesMeans(r: Registry, k: Key, n: uint64, now: int)
    requires AcceptsAdvances(r) && ValidClaim(k, n)
    ensures Claim(r, k, n, now).1 == Accepted <==> Advances(r, k, n)
  {
  }

  predicate LedgerIsClaimed(r: Registry) {
    forall e :: e in r.ledger ==> e.1 < 0x1_0000_0000_0000_0000 && ValidClaim(e.0, e.1)
  }

  lemma {:induction false} RunKeepsClaimed(inputs: seq<Input>, start: int)
    ensures LedgerIsClaimed(Exec(inputs, start).registry)
  {
    if inputs != [] {
      RunKeepsClaimed(inputs[..|inputs| - 1], start);
    }
  }

  /** No step of the run orphans a ledger row. */
  predicate NeverOrphans(inputs: seq<Input>, start: int) {
    inputs == [] ||
    var init := inputs[..|inputs| - 1];
    NeverOrphans(init, start) && !Orphans(Exec(init, start).registry, inputs[|inputs| - 1])
  }

  /** The promise holds at every point of the run. */
  ghost predicate AlwaysAccepts(inputs: seq<Input>, start: int) {
    && AcceptsAdvances(Exec(inputs, start).registry)
    && (inputs == [] || AlwaysAccepts(inputs[..|inputs| - 1], start))
  }

  lemma {:induction false} RunKeepsLedger(inputs: seq<Input>, start: int, delay: int)
    requires Run(inputs, start, delay) && NeverOrphans(inputs, start)
    ensures LedgerBehindCursor(Exec(inputs, start).registry) && ClocksBehind(Exec(inputs, start))
  {
    if inputs != [] {
      RunKeepsLedger(inputs[..|inputs| - 1], start, delay);
      StepKeepsLedgerIff(Exec(inputs[..|inputs| - 1], start), inputs[|inputs| - 1]);
    }
  }

  lemma OrphanIsRefused(s: Sys, i: Input)
    requires LedgerIsClaimed(s.registry) && Orphans(s.registry, i)
    ensures !AcceptsAdvances(Step(s, i).registry)
  {
    var r := Step(s, i).registry;
    var e :| e in s.registry.ledger && e.0 in s.registry.cursors
             && s.registry.cursors[e.0].receivedAt < i.now - CURSOR_RETENTION;
    var n: uint64 := e.1;
    assert (e.0, n) == e && e in r.ledger && Advances(r, e.0, n);
  }

  /**
   Exactly when a sequence that advances its cursor is never refused by the ledger, at any point of a
   run: when no retention round deletes a cursor and keeps a ledger row of it.
   */
  lemma {:induction false} LedgerNeverContradictsCursorIff(inputs: seq<Input>, start: int, delay: int)
    requires Run(inputs, start, delay)
    ensures AlwaysAccepts(inputs, start) <==> NeverOrphans(inputs, start)
  {
    if inputs != [] {
      var init, last := inputs[..|inputs| - 1], inputs[|inputs| - 1];
      LedgerNeverContradictsCursorIff(init, start, delay);
      RunKeepsClaimed(init, start);
      if NeverOrphans(inputs, start) {
        RunKeepsLedger(inputs, start, delay);
      } else if Orphans(Exec(init, start).registry, last) {
        OrphanIsRefused(Exec(init, start), last);
      }
    }
  }

  // A day-old cursor deleted while the ledger deletion failed: the next message of that session and
  // number is validated, advances a new cursor and is still refused.

  const SAMPLE: Envelope<()> :=
    Envelope(1, 0, "platform.v1.SignalUpdate", "car", "gw", "session", 1, SECOND, 1, 1000, "trace", 1, true, Some(()))
  const LATER: int := SECOND + CURSOR_RETENTION + 1
  const NEXT: Envelope<()> := SAMPLE.(utcTimeNs := LATER)

  const FIRST_DELIVERY := Deliver(SAMPLE, SECOND, SECOND, true)
  const HALF_PURGE := Retention(LATER, false, true)
  const NEXT_DELIVERY := Deliver(NEXT, LATER, LATER, true)

  lemma FailedLedgerPurgeDropsAMessage()
    ensures var inputs := [FIRST_DELIVERY, HALF_PURGE, NEXT_DELIVERY];
      && Run(inputs, 0, 0) && Validated(NEXT, LATER)
      && Advances(Exec(inputs[..2], 0).registry, KeyOf(NEXT), NEXT.sequence)
      && Exec(inputs, 0).accepted == [Acceptance(SAMPLE, SECOND, SECOND)]
  {
    var one, two, all := [FIRST_DELIVERY], [FIRST_DELIVERY, HALF_PURGE], [FIRST_DELIVERY, HALF_PURGE, NEXT_DELIVERY];
    assert one[..|one| - 1] == [] && two[..|two| - 1] == one && all[..|all| - 1] == two == all[..2];
    assert Exec([], 0) == Sys(EMPTY, [], 0);
    assert Exec(one, 0) == Step(Sys(EMPTY, [], 0), FIRST_DELIVERY);
    assert Exec(one, 0).registry.ledger == map[(KeyOf(SAMPLE), 1) := SECOND];
    assert Exec(two, 0) == Step(Exec(one, 0), HALF_PURGE);
    assert Exec(two, 0).registry.cursors == map[];
    assert Exec(all, 0) == Step(Exec(two, 0), NEXT_DELIVERY);
    assert Run([], 0, 0) && Run(one, 0, 0) && Run(two, 0, 0);
  }

  // ---------- the gate written out ----------

  /** When a claim is accepted, and what it writes. */
  lemma ClaimWritesOut(r: Registry, k: Key, sequence: uint64, now: int)
    ensures var (next, claimed) := Claim(r, k, sequence, now);
      var named := k.vehicleId != "" && k.gatewayId != "" && k.messageType != "" && k.sessionId != "";
      && (claimed == Invalid <==> !named || sequence == 0 || sequence >= 0x8000_0000_0000_0000)
      && (claimed == Accepted <==>
            && named && 0 < sequence < 0x8000_0000_0000_0000
            && (k in r.cursors ==> r.cursors[k].last < sequence) && (k, sequence) !in r.ledger)
      && (claimed == Accepted ==>
            next == Registry(r.cursors[k := Cursor(sequence, now)], r.ledger[(k, sequence) := now]))
      && (claimed == Invalid || (k in r.cursors && sequence <= r.cursors[k].last) ==> next == r)
  {
  }

  /** Ledger rows live 15 minutes and cursors 24 hours. */
  lemma PurgeWritesOut(r: Registry, now: int, ledgerOk: bool, cursorsOk: bool)
    ensures var next := Purge(r, now, ledgerOk, cursorsOk);
      && (forall e :: e in next.ledger <==> e in r.ledger && (ledgerOk ==> now - 900_000_000_000 <= r.ledger[e]))
      && (forall e :: e in next.ledger ==> next.ledger[e] == r.ledger[e])
      && (forall k :: k in next.cursors <==>
            k in r.cursors && (cursorsOk ==> now - 86_400_000_000_000 <= r.cursors[k].receivedAt))
      && (forall k :: k in next.cursors ==> next.cursors[k] == r.cursors[k])
  {
  }
}
