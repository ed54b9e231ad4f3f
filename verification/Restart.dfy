/**
 The fencing floor lives in the arbiter's memory only. This module lets the arbiter process restart at
 any point and shows exactly when a stop stays final all the same.
 */
module Restart {
  import opened Prelude
  import opened Envelopes
  import opened Arbiter
  import opened Authority
  import AuthorityRuns
  import opened LeaseProtocol
  import opened LeaseDelivery
  import Kernel = ArbiterRuns

  datatype Event = Regular(input: Input) | Restart

  function Next(w: World, s: Sys, e: Event): Sys {
    match e
    case Regular(i) => Step(w, s, i)
    case Restart => s.(vehicle := INITIAL)
  }

  function ExecFrom(w: World, s: Sys, events: seq<Event>): Sys {
    if events == [] then s else Next(w, ExecFrom(w, s, events[..|events| - 1]), events[|events| - 1])
  }

  /**
   A plain downlink delivers the envelopes the authority made; a re-wrapping one, such as a Gateway that
   holds the envelope key, may put a signed grant into any envelope.
   */
  datatype Downlink = Plain | Rewrapping

  predicate Carries(d: Downlink, env: Envelope<LeaseGrant>) {
    d.Plain? && env.payload.Some? ==> env == LeaseEnvelope(env.payload.value, env.monotonicTimeNs, env.payloadSize)
  }

  /** What is validated after the process came up at `boot` is validated no earlier, by the vehicle's clock. */
  predicate TimedSince(w: World, d: Downlink, boot: int, clock: int, i: Input) {
    Timed(w, clock, i) && (i.DeliverLease? ==> boot - w.skew <= i.checkedAt <= i.local && Carries(d, i.env))
  }

  /** A run of a process that came up in state `s`, with further restarts anywhere. */
  predicate RunFrom(w: World, d: Downlink, s: Sys, events: seq<Event>) {
    events == [] ||
    var init, e := events[..|events| - 1], events[|events| - 1];
    RunFrom(w, d, s, init) && (e.Regular? ==> TimedSince(w, d, s.clock, ExecFrom(w, s, init).clock, e.input))
  }

  /** What every run keeps, restarts included. */
  predicate Sound(w: World, s: Sys) {
    SysInv(w, s) && AllNamed(s.cloud)
  }

  lemma NextKeepsSound(w: World, s: Sys, e: Event)
    requires Sound(w, s) && (e.Regular? ==> Timed(w, s.clock, e.input))
    ensures Sound(w, Next(w, s, e))
  {
    if e.Regular? {
      StepKeepsInv(w, s, e.input);
      if e.input.Cloud? {
        ApplyKeepsNamed(w.policy, s.cloud, e.input.op, e.input.dbNow, e.input.now);
      }
    }
  }

  lemma RunsAreSound(w: World, inputs: seq<Input>, start: int)
    requires Run(w, inputs, start)
    ensures Sound(w, Exec(w, inputs, start))
  {
    RunKeepsSysInv(w, inputs, start);
    RunKeepsNamed(w, inputs, start);
  }

  // ---------- grants from before the stop ----------

  /** A grant for this vehicle under a lease issued before the stop that opened epoch `stop`. */
  predicate Outdated(w: World, m: LeaseGrant, stop: int) {
    m.action == Grant && m.vehicleId == w.cfg.vehicleId && m.fencing < stop
  }

  /** What the authority signs once the epoch has reached the stop is not outdated. */
  lemma NothingOutdatedIsSigned(w: World, t: Tables, clock: int, op: Op, dbNow: int, now: int, stop: int, m: LeaseGrant)
    requires AuthorityRuns.RowsInv(w.policy, t, clock) && AuthorityRuns.EpochsInv(t)
    requires stop <= EpochOf(t.epochs, w.cfg.vehicleId).fencing
    requires m in Apply(w.policy, t, op, dbNow, now).0.outbox && Outdated(w, m, stop)
    ensures m in t.outbox
  {
    if op.Renew? && op.leaseId in t.leases {
      assert AuthorityRuns.RowInv(w.policy, t, clock, op.leaseId);
    }
  }

  /** How long an envelope of the downlink can live, and how far its time can be from the grant's. */
  function Lifetime(d: Downlink): int {
    (if d.Plain? then LEASE_TTL_MS else MAX_TTL_MS) * MILLISECOND
  }

  function Shift(w: World, d: Downlink): int {
    if d.Plain? then 0 else w.cfg.maxClockSkew
  }

  /** The earliest reading of the vehicle's clock, from `boot` on, at which the message is not too new. */
  function Earliest(w: World, d: Downlink, m: LeaseGrant, boot: int): int {
    var soonest := m.issuedAt - Shift(w, d) - ENVELOPE_SKEW;
    if boot - w.skew < soonest then soonest else boot - w.skew
  }

  /** At that reading the grant has not run out and an envelope of the downlink can still be fresh. */
  predicate Presentable(w: World, d: Downlink, m: LeaseGrant, boot: int) {
    && m.gatewayId == w.cfg.gatewayId != "" && w.cfg.vehicleId != "" && m.leaseId != ""
    && m.validUntil != 0 && 0 <= w.cfg.maxClockSkew
    && Earliest(w, d, m, boot) < m.validUntil
    && Earliest(w, d, m, boot) <= m.issuedAt + Shift(w, d) + Lifetime(d) + ENVELOPE_SKEW
  }

  predicate Lingers(w: World, d: Downlink, s: Sys, stop: int) {
    exists m :: m in s.cloud.outbox && Outdated(w, m, stop) && Presentable(w, d, m, s.clock)
  }

  /** The step arms a lease issued before the stop. */
  predicate Revives(w: World, s: Sys, e: Event, stop: int) {
    var u, v := s.vehicle, Next(w, s, e).vehicle;
    |u.log| < |v.log| && v.log[|u.log|].Armed? && v.log[|u.log|].fence < stop
  }

  /** Only an admitted, unexpired grant arms the kernel. */
  lemma ArmingIsAGrant(cfg: Config, v: State, i: Kernel.Input)
    requires var u := Kernel.Step(cfg, v, i); |v.log| < |u.log| && u.log[|v.log|].Armed?
    ensures i.LeaseIn? && LeaseAdmitted(cfg, i.env, i.signed, i.checkedAt)
    ensures var m := i.env.payload.value;
      m.action == Grant && i.now < m.validUntil && Kernel.Step(cfg, v, i).log[|v.log|].fence == ToInt64(m.fencing)
  {
    if i.CommandIn? || i.TickIn? {
      assert false;
    }
  }

  lemma RevivalNeedsMessage(w: World, d: Downlink, s: Sys, e: Event, boot: int, stop: int) returns (m: LeaseGrant)
    requires AuthorityRuns.OutboxInv(w.policy, s.cloud) && AuthorityRuns.EpochsInv(s.cloud)
    requires (e.Regular? ==> TimedSince(w, d, boot, s.clock, e.input)) && Revives(w, s, e, stop)
    ensures m in s.cloud.outbox && Outdated(w, m, stop) && Presentable(w, d, m, boot)
  {
    assert e.Regular? && !e.input.Cloud?;
    ArmingIsAGrant(w.cfg, s.vehicle, ToKernel(s.cloud, e.input));
    m := e.input.env.payload.value;
    assert AuthorityRuns.MessageInv(w.policy, s.cloud, m);
  }

  predicate NoneNew(w: World, s: Sys, t: Sys, stop: int) {
    && stop <= EpochOf(t.cloud.epochs, w.cfg.vehicleId).fencing && s.clock <= t.clock
    && forall m :: m in t.cloud.outbox && Outdated(w, m, stop) ==> m in s.cloud.outbox
  }

  lemma NextAddsNone(w: World, s: Sys, t: Sys, e: Event, stop: int)
    requires Sound(w, t) && NoneNew(w, s, t, stop) && (e.Regular? ==> Timed(w, t.clock, e.input))
    ensures NoneNew(w, s, Next(w, t, e), stop)
  {
    if e.Regular? && e.input.Cloud? {
      var i := e.input;
      AuthorityRuns.EpochMovesByOne(w.policy, t.cloud, i.op, i.dbNow, i.now, w.cfg.vehicleId);
      forall m | m in Next(w, t, e).cloud.outbox && Outdated(w, m, stop) ensures m in s.cloud.outbox {
        NothingOutdatedIsSigned(w, t.cloud, t.clock, i.op, i.dbNow, i.now, stop, m);
      }
    }
  }

  lemma {:induction false} RunAddsNone(w: World, d: Downlink, s: Sys, events: seq<Event>, stop: int)
    requires Sound(w, s) && stop <= EpochOf(s.cloud.epochs, w.cfg.vehicleId).fencing && RunFrom(w, d, s, events)
    ensures Sound(w, ExecFrom(w, s, events)) && NoneNew(w, s, ExecFrom(w, s, events), stop)
  {
    if events != [] {
      var init, e := events[..|events| - 1], events[|events| - 1];
      RunAddsNone(w, d, s, init, stop);
      NextKeepsSound(w, ExecFrom(w, s, init), e);
      NextAddsNone(w, s, ExecFrom(w, s, init), e, stop);
    }
  }

  // ---------- finality ----------

  predicate RevivesAfter(w: World, d: Downlink, s: Sys, events: seq<Event>, e: Event, stop: int) {
    RunFrom(w, d, s, events + [e]) && Revives(w, ExecFrom(w, s, events), e, stop)
  }

  lemma RunSplits(w: World, d: Downlink, s: Sys, events: seq<Event>, e: Event)
    requires RunFrom(w, d, s, events + [e])
    ensures RunFrom(w, d, s, events)
    ensures e.Regular? ==> TimedSince(w, d, s.clock, ExecFrom(w, s, events).clock, e.input)
  {
    assert (events + [e])[..|events|] == events;
  }

  /** An envelope of the downlink in which the grant is fresh at `at`. */
  function ReplayEnvelope(d: Downlink, m: LeaseGrant, at: int): Envelope<LeaseGrant> {
    if d.Plain? then LeaseEnvelope(m, 1, 1)
    else
      var utc := if at < m.issuedAt - ENVELOPE_SKEW then at + ENVELOPE_SKEW
                 else if at > m.issuedAt + Lifetime(d) + ENVELOPE_SKEW then at - Lifetime(d) - ENVELOPE_SKEW
                 else m.issuedAt;
      LeaseEnvelope(m, 1, 1).(utcTimeNs := utc, ttlMs := MAX_TTL_MS)
  }

  lemma ReplayIsAdmitted(w: World, d: Downlink, m: LeaseGrant, boot: int)
    requires Presentable(w, d, m, boot) && Named(m)
    requires m.action == Grant && m.vehicleId == w.cfg.vehicleId && 0 < m.fencing
    requires Shift(w, d) < m.issuedAt
    ensures LeaseAdmitted(w.cfg, ReplayEnvelope(d, m, Earliest(w, d, m, boot)), true, Earliest(w, d, m, boot))
  {
  }

  lemma OneEvent(w: World, d: Downlink, s: Sys, i: Input)
    requires TimedSince(w, d, s.clock, s.clock, i)
    ensures RunFrom(w, d, s, [] + [Regular(i)]) && ExecFrom(w, s, []) == s
  {
    var none: seq<Event>, one := [], [] + [Regular(i)];
    assert one[..0] == none && RunFrom(w, d, s, none);
  }

  /** A process that has just come up is shown a grant that has not lapsed by its clock. */
  lemma ReplayRevives(w: World, d: Downlink, s: Sys, m: LeaseGrant, stop: int) returns (i: Input)
    requires AuthorityRuns.MessageInv(w.policy, s.cloud, m) && AuthorityRuns.EpochsInv(s.cloud) && Named(m)
    requires m in s.cloud.outbox && Outdated(w, m, stop) && Presentable(w, d, m, s.clock)
    requires 0 <= w.skew && Shift(w, d) < m.issuedAt && s.vehicle == INITIAL
    ensures RevivesAfter(w, d, s, [], Regular(i), stop)
  {
    var at := Earliest(w, d, m, s.clock);
    i := DeliverLease(ReplayEnvelope(d, m, at), at, if at <= s.clock + w.skew then s.clock else at, at, Fault);
    ReplayIsAdmitted(w, d, m, s.clock);
    OneEvent(w, d, s, i);
    assert ToInt64(m.fencing) == m.fencing;
    assert Step(w, s, i).vehicle.log == [Armed(m.leaseId, m.fencing, at)];
  }

  /**
   After a restart in any sound state that has the stop on record, with more restarts at any time: some
   continuation over the downlink arms a lease issued before the stop if and only if a grant of such a lease
   still has time to run on the vehicle's clock and an envelope of that downlink is still alive. So over the
   plain downlink a stop is final across restarts once every earlier grant is 32 s old or has run out.
   */
  lemma StopSurvivesRestartIff(w: World, d: Downlink, s: Sys, n: nat)
    requires Sound(w, s) && s.vehicle == INITIAL && 0 <= w.skew && n < |s.cloud.events|
    requires s.cloud.events[n].EmergencyStopped? && s.cloud.events[n].vehicleId == w.cfg.vehicleId
    requires forall m :: m in s.cloud.outbox ==> Shift(w, d) < m.issuedAt
    ensures var stop := s.cloud.events[n].fencing;
      (exists events, e :: RevivesAfter(w, d, s, events, e, stop)) <==> Lingers(w, d, s, stop)
  {
    var stop := s.cloud.events[n].fencing;
    StopIsOnRecord(w, s.cloud, s.clock, n);
    if Lingers(w, d, s, stop) {
      LingeringRevives(w, d, s, stop);
    }
    forall events, e | RevivesAfter(w, d, s, events, e, stop) ensures Lingers(w, d, s, stop) {
      RevivalLingers(w, d, s, events, e, stop);
    }
  }

  /** Over the plain downlink: once every grant from before the stop has run out or is more than 32 s old. */
  lemma PlainStopIsFinal(w: World, s: Sys, n: nat, events: seq<Event>, e: Event)
    requires Sound(w, s) && s.vehicle == INITIAL && 0 <= w.skew && n < |s.cloud.events|
    requires s.cloud.events[n].EmergencyStopped? && s.cloud.events[n].vehicleId == w.cfg.vehicleId
    requires forall m :: m in s.cloud.outbox ==> 0 < m.issuedAt
    requires forall m :: m in s.cloud.outbox && Outdated(w, m, s.cloud.events[n].fencing) ==>
      m.validUntil <= s.clock - w.skew || m.issuedAt + 32 * SECOND < s.clock - w.skew
    ensures !RevivesAfter(w, Plain, s, events, e, s.cloud.events[n].fencing)
  {
    StopSurvivesRestartIff(w, Plain, s, n);
  }

  lemma StopIsOnRecord(w: World, t: Tables, clock: int, n: nat)
    requires AuthorityRuns.EventsInv(t, clock) && n < |t.events|
    requires t.events[n].EmergencyStopped? && t.events[n].vehicleId == w.cfg.vehicleId
    ensures t.events[n].fencing <= EpochOf(t.epochs, w.cfg.vehicleId).fencing
  {
    assert AuthorityRuns.EventInv(t, clock, t.events[n]);
  }

  lemma LingeringRevives(w: World, d: Downlink, s: Sys, stop: int)
    requires Sound(w, s) && s.vehicle == INITIAL && 0 <= w.skew && Lingers(w, d, s, stop)
    requires forall m :: m in s.cloud.outbox ==> Shift(w, d) < m.issuedAt
    ensures exists events, e :: RevivesAfter(w, d, s, events, e, stop)
  {
    var m :| m in s.cloud.outbox && Outdated(w, m, stop) && Presentable(w, d, m, s.clock);
    var i := ReplayRevives(w, d, s, m, stop);
  }

  lemma RevivalLingers(w: World, d: Downlink, s: Sys, events: seq<Event>, e: Event, stop: int)
    requires Sound(w, s) && stop <= EpochOf(s.cloud.epochs, w.cfg.vehicleId).fencing
    requires RevivesAfter(w, d, s, events, e, stop)
    ensures Lingers(w, d, s, stop)
  {
    RunSplits(w, d, s, events, e);
    RunAddsNone(w, d, s, events, stop);
    var m := RevivalNeedsMessage(w, d, ExecFrom(w, s, events), e, s.clock, stop);
  }
}
