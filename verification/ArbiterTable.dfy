/** The kernel's checks and answers, written out field by field and number by number. */
module ArbiterTable {
  import opened Prelude
  import opened Envelopes
  import opened Arbiter
  import opened ArbiterRuns

  // ---------- envelopes ----------

  lemma EnvelopeMeans<P>(env: Envelope<P>, messageType: string, vehicleId: string, gatewayId: string, at: int)
    ensures ValidateEnvelope(env, messageType, vehicleId, gatewayId, at) <==>
      && env.schemaMajor == 1 && env.schemaMinor == 0 && (messageType == "" || env.messageType == messageType)
      && env.vehicleId == vehicleId != "" && env.gatewayId == gatewayId != ""
      && env.sessionId != "" && env.traceId != "" && env.sequence > 0 && env.utcTimeNs > 0 && env.monotonicTimeNs > 0
      && 1 <= env.ttlMs <= 60_000 && 1 <= env.payloadSize <= 1_048_576
      && env.utcTimeNs - 2_000_000_000 <= at <= env.utcTimeNs + env.ttlMs * 1_000_000 + 2_000_000_000
  {
  }

  // ---------- leases ----------

  /** A lease message gets past the front door exactly when every field agrees. */
  lemma LeaseIsHeardIff(cfg: Config, s: State, i: Input)
    requires i.LeaseIn?
    ensures DecisionOf(cfg, s, i).verdict != RejectedAuth <==>
      && ValidateEnvelope(i.env, "platform.v1.LeaseGrant", cfg.vehicleId, cfg.gatewayId, i.checkedAt)
      && i.env.tagValid && i.signed && i.env.payload.Some?
      && var g := i.env.payload.value;
         && g.version == 1 && g.action != UnknownAction && g.leaseId != ""
         && g.vehicleId == cfg.vehicleId && g.gatewayId == cfg.gatewayId
         && g.fencing > 0 && g.fencing == i.env.sequence
         && g.issuedAt > 0 && g.validUntil != 0
         && -cfg.maxClockSkew <= g.issuedAt - i.env.utcTimeNs <= cfg.maxClockSkew
         && (g.action == Revoke || (g.driverId != "" && g.deviceId != ""))
    ensures DecisionOf(cfg, s, i).verdict == RejectedAuth ==> Step(cfg, s, i) == s
  {
  }

  /** What the kernel answers to a grant it has heard. */
  lemma GrantAnswer(cfg: Config, s: State, i: Input)
    requires i.LeaseIn? && DecisionOf(cfg, s, i).verdict != RejectedAuth && i.env.payload.value.action == Grant
    ensures var g, t, d := i.env.payload.value, Step(cfg, s, i), DecisionOf(cfg, s, i);
      && (g.validUntil <= i.now ==> d == Decision(RejectedLease, true, "lease_expired", 0) && t == s)
      && (i.now < g.validUntil && ToInt64(g.fencing) < s.lastFencing ==>
            d == Decision(RejectedFencing, false, "", 0) && t == s)
      && (i.now < g.validUntil && ToInt64(g.fencing) == s.lastFencing ==>
            if s.lease.Some? && s.lease.value.leaseId == g.leaseId && s.lease.value.validUntil <= g.validUntil
            then
              && d == Decision(Accepted, false, "", 0)
              && t == s.(lease := Some(s.lease.value.(validUntil := g.validUntil)))
            else d == Decision(RejectedFencing, false, "", 0) && t == s)
      && (i.now < g.validUntil && s.lastFencing < ToInt64(g.fencing) ==>
            && d == Decision(Accepted, false, "", 0) && t.lastFencing == ToInt64(g.fencing) && t.minimalRisk == ""
            && t.lease == Some(ActiveLease(g.leaseId, t.lastFencing, g.validUntil, i.now, 0, ""))
            && t.log == s.log + [Armed(g.leaseId, t.lastFencing, i.now)])
  {
  }

  /** What it answers to a revocation. */
  lemma RevokeAnswer(cfg: Config, s: State, i: Input)
    requires i.LeaseIn? && DecisionOf(cfg, s, i).verdict != RejectedAuth && i.env.payload.value.action == Revoke
    ensures var f, t, d := ToInt64(i.env.payload.value.fencing), Step(cfg, s, i), DecisionOf(cfg, s, i);
      && (f < s.lastFencing ==> d == Decision(RejectedFencing, false, "", 0) && t == s)
      && (s.lastFencing <= f ==>
            && t == State(f, None, "lease_revoked", s.log + [RiskCall("lease_revoked", f, i.now)])
            && d.verdict == (if i.risk.Done? then Accepted else Failed)
            && d.minimalRisk && d.riskReason == "lease_revoked"
            && d.appliedNs == if i.risk.Done? then i.risk.appliedNs else 0)
  {
  }

  // ---------- commands ----------

  predicate CommandHeard(cfg: Config, i: Input)
    requires i.CommandIn?
  {
    && ValidateEnvelope(i.cmd, "platform.v1.ControlCommand", cfg.vehicleId, cfg.gatewayId, i.checkedAt)
    && i.cmd.tagValid && i.cmd.payload.Some?
    && var c := i.cmd.payload.value;
       && c.sessionId == i.cmd.sessionId && c.sequence == i.cmd.sequence && c.ttlMs == i.cmd.ttlMs
       && c.sessionId != "" && c.leaseId != "" && c.fencing > 0 && c.sequence > 0 && c.issuedMonotonicNs > 0
       && 1 <= c.ttlMs <= 1000 && c.macLength == 32 && (!cfg.requireMac || c.macValid)
       && match c.mode
          case Unspecified => false
          case TargetMotion => c.motion.Some?
          case MinimalRiskMode => c.riskReason.Some? && c.riskReason.value != ""
          case UndeclaredMode => true
  }

  /** The lease the command names is the one held, under the number in force. */
  predicate UnderHeldLease(s: State, c: ControlCommand) {
    && s.lease.Some? && s.lease.value.leaseId == c.leaseId
    && s.lease.value.fencing == ToInt64(c.fencing) == s.lastFencing
  }

  predicate InTurn(l: ActiveLease, c: ControlCommand) {
    (l.sessionId == "" || l.sessionId == c.sessionId) && l.lastSeq < ToInt64(c.sequence)
  }

  predicate NotStale(cfg: Config, i: Input)
    requires i.CommandIn?
  {
    && i.cmd.utcTimeNs - cfg.maxClockSkew <= i.now
    && i.now <= i.cmd.utcTimeNs + i.cmd.ttlMs * 1_000_000 + cfg.maxClockSkew
  }

  /** The answers in the order of the checks. */
  lemma CommandVerdict(cfg: Config, s: State, i: Input)
    requires i.CommandIn?
    ensures var d := DecisionOf(cfg, s, i).verdict;
      && (!CommandHeard(cfg, i) ==> d == RejectedAuth)
      && (CommandHeard(cfg, i) ==> var c := i.cmd.payload.value;
            && (!NotStale(cfg, i) ==> d == RejectedStale)
            && (NotStale(cfg, i) && (s.lease.None? || s.lease.value.leaseId != c.leaseId) ==> d == RejectedLease)
            && (NotStale(cfg, i) && s.lease.Some? && s.lease.value.leaseId == c.leaseId && !UnderHeldLease(s, c) ==>
                  d == RejectedFencing)
            && (NotStale(cfg, i) && UnderHeldLease(s, c) ==>
                  var l := s.lease.value;
                  && (l.validUntil <= i.now ==> d == RejectedLease)
                  && (i.now < l.validUntil && l.sessionId != "" && l.sessionId != c.sessionId ==> d == RejectedAuth)
                  && (i.now < l.validUntil && l.sessionId in {"", c.sessionId} && ToInt64(c.sequence) <= l.lastSeq ==>
                        d == RejectedStale)
                  && (i.now < l.validUntil && InTurn(l, c) ==>
                        && (c.mode == TargetMotion && !Bounded(cfg.limits, c.motion.value) ==> d == RejectedLimit)
                        && (c.mode == TargetMotion && Bounded(cfg.limits, c.motion.value) ==>
                              d == if i.motion.Done? then Accepted else Failed)
                        && (c.mode == MinimalRiskMode ==> d == if i.risk.Done? then Accepted else Failed)
                        && (c.mode == UndeclaredMode ==> d == RejectedLimit))))
  {
  }

  /** The one way to the actuator: a motion is called in a step exactly when all of this holds. */
  lemma MotionIsCalledIff(cfg: Config, s: State, i: Input)
    requires i.CommandIn?
    ensures var t := Step(cfg, s, i);
      (|s.log| < |t.log| && t.log[|s.log|].MotionCall?) <==>
        && CommandHeard(cfg, i) && NotStale(cfg, i)
        && var c := i.cmd.payload.value;
           && UnderHeldLease(s, c) && i.now < s.lease.value.validUntil && InTurn(s.lease.value, c)
           && c.mode == TargetMotion && Bounded(cfg.limits, c.motion.value)
  {
  }

  /** What is called, and what the kernel remembers of it. */
  lemma MotionIsRecorded(cfg: Config, s: State, i: Input)
    requires i.CommandIn?
    requires var t := Step(cfg, s, i); |s.log| < |t.log| && t.log[|s.log|].MotionCall?
    ensures var c, t, d := i.cmd.payload.value, Step(cfg, s, i), DecisionOf(cfg, s, i);
      var call := MotionCall(c.leaseId, c.sessionId, c.fencing, c.sequence, c.motion.value, i.cmd.utcTimeNs,
                             i.cmd.ttlMs, i.now, i.motion.Done?);
      if i.motion.Done? then
        && t.log == s.log + [call] && d.appliedNs == i.motion.appliedNs && !d.minimalRisk
        && t == s.(log := t.log, lease := Some(s.lease.value.(
             sessionId := c.sessionId, lastSeq := ToInt64(c.sequence), lastCommand := i.now)))
      else
        && t.log == s.log + [call] + [RiskCall("actuator_failure", s.lastFencing, i.now)]
        && t == State(s.lastFencing, None, "actuator_failure", t.log)
        && d == Decision(Failed, true, "actuator_failure", 0)
  {
  }

  /** Without a motion, a command calls MinimalRisk exactly when it finds its lease expired or asks for it. */
  lemma CommandCallsRiskIff(cfg: Config, s: State, i: Input)
    requires i.CommandIn?
    requires var t := Step(cfg, s, i); !(|s.log| < |t.log| && t.log[|s.log|].MotionCall?)
    ensures var t := Step(cfg, s, i);
      t != s <==>
        && CommandHeard(cfg, i) && NotStale(cfg, i)
        && var c := i.cmd.payload.value;
           && UnderHeldLease(s, c)
           && (s.lease.value.validUntil <= i.now || (InTurn(s.lease.value, c) && c.mode == MinimalRiskMode))
    ensures var t, d := Step(cfg, s, i), DecisionOf(cfg, s, i);
      t != s ==>
        var expired := s.lease.value.validUntil <= i.now;
        var reason := if expired then "lease_expired" else i.cmd.payload.value.riskReason.value;
        && t == State(s.lastFencing, None, reason, s.log + [RiskCall(reason, s.lastFencing, i.now)])
        && d.riskReason == reason && d.appliedNs == if i.risk.Done? then i.risk.appliedNs else 0
  {
  }

  // ---------- ticks ----------

  /** A tick ends a lease that has run out, or that has heard no command for longer than the watchdog allows. */
  lemma TickAnswer(cfg: Config, s: State, i: Input)
    requires i.TickIn?
    ensures var t, d := Step(cfg, s, i), DecisionOf(cfg, s, i);
      var applied := if i.risk.Done? then i.risk.appliedNs else 0;
      && (s.lease.None? ==> t == s && d == Decision(RejectedLease, false, s.minimalRisk, 0))
      && (s.lease.Some? && s.lease.value.validUntil <= i.now ==>
            && t == State(s.lastFencing, None, "lease_expired",
                          s.log + [RiskCall("lease_expired", s.lastFencing, i.now)])
            && d == Decision(RejectedLease, true, "lease_expired", applied))
      && (s.lease.Some? && i.now < s.lease.value.validUntil && s.lease.value.lastCommand + cfg.watchdog < i.now ==>
            && t == State(s.lastFencing, None, "control_watchdog_timeout",
                          s.log + [RiskCall("control_watchdog_timeout", s.lastFencing, i.now)])
            && d == Decision(RejectedStale, true, "control_watchdog_timeout", applied))
      && (s.lease.Some? && i.now < s.lease.value.validUntil && i.now <= s.lease.value.lastCommand + cfg.watchdog ==>
            t == s && d == Decision(Accepted, false, "", 0))
  {
  }

  /** After a tick no lease is held that has run out, at any point of any run. */
  lemma TickLeavesNoExpiredLease(cfg: Config, inputs: seq<Input>, now: int, risk: Outcome)
    ensures var s := Exec(cfg, inputs + [TickIn(now, risk)]);
      s.lease.Some? ==> now < s.lease.value.validUntil && now - s.lease.value.lastCommand <= cfg.watchdog
  {
    assert (inputs + [TickIn(now, risk)])[..|inputs|] == inputs;
    TickAnswer(cfg, Exec(cfg, inputs), TickIn(now, risk));
  }
}
