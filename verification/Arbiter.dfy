/** The vehicle's safety kernel: lease, command and watchdog handling in front of the actuator. */
module Arbiter {
  import opened Prelude
  import opened Envelopes

  // ---------- messages and configuration ----------

  datatype LeaseAction = Grant | Revoke | UnknownAction

  datatype LeaseGrant = LeaseGrant(
    version: nat,
    action: LeaseAction,
    vehicleId: string,
    gatewayId: string,
    leaseId: string,
    driverId: string,
    deviceId: string,
    fencing: uint64,
    issuedAt: int,
    validUntil: int)

  /** IEEE values: arithmetic on finite numbers is exact here, NaN and infinities are kept apart. */
  datatype Float = NaN | Infinite(positive: bool) | Finite(value: real)

  datatype Motion = Motion(speed: Float, acceleration: Float, curvature: Float, yawRate: Float)

  datatype ControlMode = Unspecified | TargetMotion | MinimalRiskMode | UndeclaredMode

  /** `riskReason` is None without a minimal-risk payload and "" for the unspecified reason. */
  datatype ControlCommand = ControlCommand(
    sessionId: string,
    leaseId: string,
    fencing: uint64,
    sequence: uint64,
    issuedMonotonicNs: uint64,
    ttlMs: nat,
    mode: ControlMode,
    motion: Option<Motion>,
    riskReason: Option<string>,
    macLength: nat,
    macValid: bool)

  datatype Limits = Limits(speed: real, acceleration: real, curvature: real, yawRate: real)

  datatype Config = Config(
    vehicleId: string,
    gatewayId: string,
    requireMac: bool,
    watchdog: int,
    maxClockSkew: int,
    limits: Limits)

  /** Outcome of one actuator call, chosen by the environment. */
  datatype Outcome = Done(appliedNs: int) | Fault

  datatype Verdict =
    Accepted | RejectedStale | RejectedFencing | RejectedLease | RejectedLimit | RejectedAuth | Failed

  datatype Decision = Decision(verdict: Verdict, minimalRisk: bool, riskReason: string, appliedNs: int)

  // ---------- state ----------

  datatype ActiveLease = ActiveLease(
    leaseId: string,
    fencing: int,
    validUntil: int,
    lastCommand: int,
    lastSeq: int,
    sessionId: string)

  /**
   What the kernel did to the outside world, in order: a lease newly armed, an ApplyMotion call
   (with the raw unsigned numbers of the command that caused it), a MinimalRisk call (with the
   fencing floor in force at the call).
   */
  datatype Entry =
    | Armed(leaseId: string, fence: int, at: int)
    | MotionCall(leaseId: string, sessionId: string, fencing: uint64, sequence: uint64, motion: Motion,
                 issuedNs: int, ttlMs: nat, at: int, applied: bool)
    | RiskCall(reason: string, fence: int, at: int)

  datatype State = State(lastFencing: int, lease: Option<ActiveLease>, minimalRisk: string, log: seq<Entry>)

  const INITIAL := State(0, None, "", [])

  // ---------- pure checks ----------

  predicate WithinBound(x: Float, bound: real) {
    x.Finite? && -bound <= x.value <= bound
  }

  predicate CheckLimits(limits: Limits, m: Motion) {
    && m.speed.Finite? && 0.0 <= m.speed.value <= limits.speed
    && WithinBound(m.acceleration, limits.acceleration)
    && WithinBound(m.curvature, limits.curvature)
    && WithinBound(m.yawRate, limits.yawRate)
  }

  predicate ValidLease(cfg: Config, env: Envelope<LeaseGrant>, g: LeaseGrant, signed: bool) {
    && g.version == 1 && (g.action == Grant || g.action == Revoke)
    && g.vehicleId == cfg.vehicleId && g.gatewayId == cfg.gatewayId
    && g.leaseId != "" && g.fencing != 0 && env.sequence == g.fencing
    && g.issuedAt > 0 && g.validUntil != 0
    && env.utcTimeNs - cfg.maxClockSkew <= g.issuedAt <= env.utcTimeNs + cfg.maxClockSkew
    && (g.action == Grant ==> g.driverId != "" && g.deviceId != "")
    && signed
  }

  predicate ValidCommand(env: Envelope<ControlCommand>, c: ControlCommand) {
    && c.sessionId != "" && c.sessionId == env.sessionId
    && c.leaseId != "" && c.fencing != 0 && c.sequence != 0 && c.sequence == env.sequence
    && c.issuedMonotonicNs != 0
    && c.ttlMs != 0 && c.ttlMs == env.ttlMs && c.ttlMs <= 1000
    && c.mode != Unspecified && c.macLength == 32
    && (c.mode == TargetMotion ==> c.motion.Some?)
    && (c.mode == MinimalRiskMode ==> c.riskReason.Some? && c.riskReason.value != "")
  }

  /** Everything checked about a lease envelope before the kernel takes its lock. */
  predicate LeaseAdmitted(cfg: Config, env: Envelope<LeaseGrant>, signed: bool, checkedAt: int) {
    && ValidateEnvelope(env, "platform.v1.LeaseGrant", cfg.vehicleId, cfg.gatewayId, checkedAt)
    && env.tagValid
    && env.payload.Some?
    && ValidLease(cfg, env, env.payload.value, signed)
  }

  predicate CommandAdmitted(cfg: Config, env: Envelope<ControlCommand>, checkedAt: int) {
    && ValidateEnvelope(env, "platform.v1.ControlCommand", cfg.vehicleId, cfg.gatewayId, checkedAt)
    && env.payload.Some?
    && ValidCommand(env, env.payload.value)
    && env.tagValid
    && (cfg.requireMac ==> env.payload.value.macValid)
  }

  // ---------- transitions ----------

  function Reject(s: State, verdict: Verdict): (State, Decision) {
    (s, Decision(verdict, false, "", 0))
  }

  /** Drop the lease, latch the reason and call the actuator. */
  function Latch(s: State, reason: string, now: int): State {
    s.(lease := None, minimalRisk := reason, log := s.log + [RiskCall(reason, s.lastFencing, now)])
  }

  function AppliedNs(o: Outcome): int {
    if o.Done? then o.appliedNs else 0
  }

  function GrantStep(s: State, g: LeaseGrant, now: int): (State, Decision) {
    var fencing := ToInt64(g.fencing);
    if g.validUntil <= now then
      // Reports minimal risk without calling the actuator and without dropping the lease.
      (s, Decision(RejectedLease, true, "lease_expired", 0))
    else if fencing < s.lastFencing then
      Reject(s, RejectedFencing)
    else if fencing == s.lastFencing then
      if s.lease.None? || s.lease.value.leaseId != g.leaseId || g.validUntil < s.lease.value.validUntil then
        Reject(s, RejectedFencing)
      else
        (s.(lease := Some(s.lease.value.(validUntil := g.validUntil))), Decision(Accepted, false, "", 0))
    else
      (State(fencing, Some(ActiveLease(g.leaseId, fencing, g.validUntil, now, 0, "")), "",
             s.log + [Armed(g.leaseId, fencing, now)]),
       Decision(Accepted, false, "", 0))
  }

  function RevokeStep(s: State, g: LeaseGrant, now: int, risk: Outcome): (State, Decision) {
    var fencing := ToInt64(g.fencing);
    if fencing < s.lastFencing then
      Reject(s, RejectedFencing)
    else
      (Latch(s.(lastFencing := fencing), "lease_revoked", now),
       Decision(if risk.Done? then Accepted else Failed, true, "lease_revoked", AppliedNs(risk)))
  }

  function LeaseStep(cfg: Config, s: State, env: Envelope<LeaseGrant>, signed: bool, checkedAt: int, now: int,
                     risk: Outcome): (State, Decision) {
    if !LeaseAdmitted(cfg, env, signed, checkedAt) then
      Reject(s, RejectedAuth)
    else if env.payload.value.action == Grant then
      GrantStep(s, env.payload.value, now)
    else
      RevokeStep(s, env.payload.value, now, risk)
  }

  function MotionStep(s: State, env: Envelope<ControlCommand>, c: ControlCommand, now: int,
                      motion: Outcome): (State, Decision)
    requires s.lease.Some? && c.motion.Some?
  {
    var call := MotionCall(c.leaseId, c.sessionId, c.fencing, c.sequence, c.motion.value, env.utcTimeNs, env.ttlMs,
                           now, motion.Done?);
    if motion.Fault? then
      (Latch(s.(log := s.log + [call]), "actuator_failure", now), Decision(Failed, true, "actuator_failure", 0))
    else
      (s.(lease := Some(s.lease.value.(sessionId := c.sessionId, lastSeq := ToInt64(c.sequence), lastCommand := now)),
          log := s.log + [call]),
       Decision(Accepted, false, "", motion.appliedNs))
  }

  function CommandStep(cfg: Config, s: State, env: Envelope<ControlCommand>, checkedAt: int, now: int,
                       motion: Outcome, risk: Outcome): (State, Decision) {
    if !CommandAdmitted(cfg, env, checkedAt) then
      Reject(s, RejectedAuth)
    else
      var c := env.payload.value;
      if !Fresh(env.utcTimeNs, env.ttlMs, cfg.maxClockSkew, now) then
        Reject(s, RejectedStale)
      else if s.lease.None? || c.leaseId != s.lease.value.leaseId then
        Reject(s, RejectedLease)
      else if ToInt64(c.fencing) != s.lease.value.fencing || ToInt64(c.fencing) != s.lastFencing then
        Reject(s, RejectedFencing)
      else if s.lease.value.validUntil <= now then
        (Latch(s, "lease_expired", now), Decision(RejectedLease, true, "lease_expired", AppliedNs(risk)))
      else if s.lease.value.sessionId != "" && s.lease.value.sessionId != c.sessionId then
        Reject(s, RejectedAuth)
      else if ToInt64(c.sequence) <= s.lease.value.lastSeq then
        Reject(s, RejectedStale)
      else match c.mode
        case TargetMotion =>
          if CheckLimits(cfg.limits, c.motion.value) then MotionStep(s, env, c, now, motion)
          else Reject(s, RejectedLimit)
        case MinimalRiskMode =>
          (Latch(s, c.riskReason.value, now),
           Decision(if risk.Done? then Accepted else Failed, true, c.riskReason.value, AppliedNs(risk)))
        case _ =>
          Reject(s, RejectedLimit)
  }

  function TickStep(cfg: Config, s: State, now: int, risk: Outcome): (State, Decision) {
    if s.lease.None? then
      (s, Decision(RejectedLease, false, s.minimalRisk, 0))
    else if s.lease.value.validUntil <= now then
      (Latch(s, "lease_expired", now), Decision(RejectedLease, true, "lease_expired", AppliedNs(risk)))
    else if now - s.lease.value.lastCommand > cfg.watchdog then
      (Latch(s, "control_watchdog_timeout", now),
       Decision(RejectedStale, true, "control_watchdog_timeout", AppliedNs(risk)))
    else
      (s, Decision(Accepted, false, "", 0))
  }

  // ---------- the kernel as the vehicle runs it ----------

  predicate PositiveLimits(l: Limits) {
    0.0 < l.speed && 0.0 < l.acceleration && 0.0 < l.curvature && 0.0 < l.yawRate
  }

  /** The configuration a kernel starts with: durations fall back to defaults, missing essentials are refused. */
  function NewConfig(c: Config, authorityKeys: nat, macKeyLength: nat): (r: Option<Config>)
    ensures r.Some? ==> 0 < r.value.watchdog && 0 < r.value.maxClockSkew && r.value.limits == c.limits
    ensures r.Some? ==> authorityKeys > 0 && PositiveLimits(c.limits)
    ensures r.None? ==> c.vehicleId == "" || c.gatewayId == "" || authorityKeys == 0 || !PositiveLimits(c.limits)
                        || (c.requireMac && macKeyLength < 32)
    ensures r.Some? ==> r.value.vehicleId != "" && r.value.gatewayId != ""
    ensures r.Some? && r.value.requireMac ==> macKeyLength >= 32
    ensures r.Some? && 0 < c.watchdog && 0 < c.maxClockSkew ==> r.value == c
    ensures r.Some? && c.watchdog <= 0 ==> r.value.watchdog == 500_000_000
    ensures r.Some? && c.maxClockSkew <= 0 ==> r.value.maxClockSkew == 2_000_000_000
  {
    if c.vehicleId == "" || c.gatewayId == "" || authorityKeys == 0 || (c.requireMac && macKeyLength < 32) then None
    else if c.limits.speed <= 0.0 || c.limits.acceleration <= 0.0 then None
    else if c.limits.curvature <= 0.0 || c.limits.yawRate <= 0.0 then None
    else Some(c.(watchdog := if c.watchdog <= 0 then 500 * MILLISECOND else c.watchdog,
                 maxClockSkew := if c.maxClockSkew <= 0 then 2 * SECOND else c.maxClockSkew))
  }

  class SafetyArbiter {
    const cfg: Config
    var lastFencing: int
    var lease: Option<ActiveLease>
    var minimalRisk: string
    var calls: seq<Entry>

    ghost function Contents(): State
      reads this
    {
      State(lastFencing, lease, minimalRisk, calls)
    }

    constructor (cfg: Config)
      ensures this.cfg == cfg
      ensures Contents() == INITIAL
    {
      this.cfg := cfg;
      lastFencing, lease, minimalRisk, calls := 0, None, "", [];
    }

    /** The single way the kernel reaches minimal risk: the lease goes first, then the actuator is called. */
    method EnterMinimalRisk(reason: string, now: int)
      modifies this`lease, this`minimalRisk, this`calls
      ensures Contents() == Latch(old(Contents()), reason, now)
    {
      lease, minimalRisk := None, reason;
      calls := calls + [RiskCall(reason, lastFencing, now)];
    }

    method HandleProtoLease(env: Envelope<LeaseGrant>, signed: bool, checkedAt: int, now: int, risk: Outcome)
      returns (d: Decision)
      modifies this
      ensures (Contents(), d) == LeaseStep(cfg, old(Contents()), env, signed, checkedAt, now, risk)
    {
      if !LeaseAdmitted(cfg, env, signed, checkedAt) {
        return Decision(RejectedAuth, false, "", 0);
      }
      var grant := env.payload.value;
      var fencing := ToInt64(grant.fencing);
      if grant.action == Grant {
        if grant.validUntil <= now {
          return Decision(RejectedLease, true, "lease_expired", 0);
        }
        if fencing < lastFencing {
          return Decision(RejectedFencing, false, "", 0);
        }
        if fencing == lastFencing {
          if lease.None? || lease.value.leaseId != grant.leaseId || grant.validUntil < lease.value.validUntil {
            return Decision(RejectedFencing, false, "", 0);
          }
          lease := Some(lease.value.(validUntil := grant.validUntil));
          return Decision(Accepted, false, "", 0);
        }
        lastFencing := fencing;
        lease := Some(ActiveLease(grant.leaseId, fencing, grant.validUntil, now, 0, ""));
        minimalRisk := "";
        calls := calls + [Armed(grant.leaseId, fencing, now)];
        return Decision(Accepted, false, "", 0);
      }
      if fencing < lastFencing {
        return Decision(RejectedFencing, false, "", 0);
      }
      lastFencing := fencing;
      EnterMinimalRisk("lease_revoked", now);
      return Decision(if risk.Done? then Accepted else Failed, true, "lease_revoked", AppliedNs(risk));
    }

    method HandleProtoCommand(env: Envelope<ControlCommand>, checkedAt: int, now: int, motion: Outcome, risk: Outcome)
      returns (d: Decision)
      modifies this
      ensures (Contents(), d) == CommandStep(cfg, old(Contents()), env, checkedAt, now, motion, risk)
    {
      if !CommandAdmitted(cfg, env, checkedAt) {
        return Decision(RejectedAuth, false, "", 0);
      }
      var cmd := env.payload.value;
      if !Fresh(env.utcTimeNs, env.ttlMs, cfg.maxClockSkew, now) {
        return Decision(RejectedStale, false, "", 0);
      }
      if lease.None? || cmd.leaseId != lease.value.leaseId {
        return Decision(RejectedLease, false, "", 0);
      }
      if ToInt64(cmd.fencing) != lease.value.fencing || ToInt64(cmd.fencing) != lastFencing {
        return Decision(RejectedFencing, false, "", 0);
      }
      if lease.value.validUntil <= now {
        EnterMinimalRisk("lease_expired", now);
        return Decision(RejectedLease, true, "lease_expired", AppliedNs(risk));
      }
      if lease.value.sessionId != "" && lease.value.sessionId != cmd.sessionId {
        return Decision(RejectedAuth, false, "", 0);
      }
      if ToInt64(cmd.sequence) <= lease.value.lastSeq {
        return Decision(RejectedStale, false, "", 0);
      }
      if cmd.mode == TargetMotion {
        if !CheckLimits(cfg.limits, cmd.motion.value) {
          return Decision(RejectedLimit, false, "", 0);
        }
        calls := calls + [MotionCall(cmd.leaseId, cmd.sessionId, cmd.fencing, cmd.sequence, cmd.motion.value,
                                     env.utcTimeNs, env.ttlMs, now, motion.Done?)];
        if motion.Fault? {
          EnterMinimalRisk("actuator_failure", now);
          return Decision(Failed, true, "actuator_failure", 0);
        }
        lease := Some(lease.value.(sessionId := cmd.sessionId, lastSeq := ToInt64(cmd.sequence), lastCommand := now));
        return Decision(Accepted, false, "", motion.appliedNs);
      }
      if cmd.mode == MinimalRiskMode {
        EnterMinimalRisk(cmd.riskReason.value, now);
        return Decision(if risk.Done? then Accepted else Failed, true, cmd.riskReason.value, AppliedNs(risk));
      }
      return Decision(RejectedLimit, false, "", 0);
    }

    method Tick(now: int, risk: Outcome) returns (d: Decision)
      modifies this
      ensures (Contents(), d) == TickStep(cfg, old(Contents()), now, risk)
    {
      if lease.None? {
        return Decision(RejectedLease, false, minimalRisk, 0);
      }
      if lease.value.validUntil <= now {
        EnterMinimalRisk("lease_expired", now);
        return Decision(RejectedLease, true, "lease_expired", AppliedNs(risk));
      }
      if now - lease.value.lastCommand > cfg.watchdog {
        EnterMinimalRisk("control_watchdog_timeout", now);
        return Decision(RejectedStale, true, "control_watchdog_timeout", AppliedNs(risk));
      }
      return Decision(Accepted, false, "", 0);
    }
  }
}
