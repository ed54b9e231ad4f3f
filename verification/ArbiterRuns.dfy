/** What the safety kernel guarantees over every run, whatever it is sent. */
module ArbiterRuns {
  import opened Prelude
  import opened Envelopes
  import opened Arbiter

  /** One atomic entry into the kernel. Nothing is assumed about the messages. */
  datatype Input =
    | LeaseIn(env: Envelope<LeaseGrant>, signed: bool, checkedAt: int, now: int, risk: Outcome)
    | CommandIn(cmd: Envelope<ControlCommand>, checkedAt: int, now: int, motion: Outcome, risk: Outcome)
    | TickIn(now: int, risk: Outcome)

  function Step(cfg: Config, s: State, i: Input): State {
    match i
    case LeaseIn(env, signed, checkedAt, now, risk) => LeaseStep(cfg, s, env, signed, checkedAt, now, risk).0
    case CommandIn(env, checkedAt, now, motion, risk) => CommandStep(cfg, s, env, checkedAt, now, motion, risk).0
    case TickIn(now, risk) => TickStep(cfg, s, now, risk).0
  }

  function Exec(cfg: Config, inputs: seq<Input>): State {
    if inputs == [] then INITIAL
    else Step(cfg, Exec(cfg, inputs[..|inputs| - 1]), inputs[|inputs| - 1])
  }

  // ---------- the shape of the log ----------

  function FenceOf(e: Entry): int {
    match e
    case Armed(_, fence, _) => fence
    case MotionCall(_, _, fencing, _, _, _, _, _, _) => fencing
    case RiskCall(_, fence, _) => fence
  }

  /** Entries after which the vehicle is under an accepted lease. */
  predicate Live(e: Entry) {
    e.Armed? || (e.MotionCall? && e.applied)
  }

  predicate Follows(prev: Entry, e: Entry) {
    match e
    case Armed(_, fence, _) => FenceOf(prev) < fence
    case MotionCall(leaseId, sessionId, fencing, sequence, _, _, _, _, _) =>
      && Live(prev) && prev.leaseId == leaseId && FenceOf(prev) == fencing
      && (prev.MotionCall? ==> prev.sequence < sequence && prev.sessionId == sessionId)
    case RiskCall(_, fence, _) => FenceOf(prev) <= fence
  }

  predicate Chain(log: seq<Entry>) {
    && (log != [] ==> !log[0].MotionCall?)
    && forall j :: 0 < j < |log| ==> Follows(log[j - 1], log[j])
  }

  /** Four finite numbers, a speed that is not negative, and no magnitude above its limit. */
  predicate Bounded(l: Limits, m: Motion) {
    && m.speed.Finite? && m.acceleration.Finite? && m.curvature.Finite? && m.yawRate.Finite?
    && 0.0 <= m.speed.value <= l.speed
    && -l.acceleration <= m.acceleration.value <= l.acceleration
    && -l.curvature <= m.curvature.value <= l.curvature
    && -l.yawRate <= m.yawRate.value <= l.yawRate
  }

  /** An executed command respected the limits and was younger than its TTL plus the clock skew. */
  predicate Sound(cfg: Config, e: Entry) {
    e.MotionCall? ==>
      && 0 < e.fencing < INT64_LIMIT && 0 < e.sequence < INT64_LIMIT && e.sessionId != ""
      && Bounded(cfg.limits, e.motion)
      && 0 < e.ttlMs <= 1000
      && e.at - e.issuedNs <= e.ttlMs * MILLISECOND + cfg.maxClockSkew
      && e.issuedNs - e.at <= cfg.maxClockSkew
  }

  predicate LeaseMatchesLog(s: State) {
    match s.lease
    case None => s.log != [] ==> !Live(s.log[|s.log| - 1])
    case Some(l) =>
      && s.minimalRisk == ""
      && l.fencing == s.lastFencing && 0 < s.lastFencing && 0 <= l.lastSeq
      && s.log != []
      && var e := s.log[|s.log| - 1];
         Live(e) && e.leaseId == l.leaseId && FenceOf(e) == l.fencing && e.at == l.lastCommand
         && (if e.MotionCall? then e.sequence <= l.lastSeq && e.sessionId == l.sessionId else l.sessionId == "")
  }

  predicate KernelInv(cfg: Config, s: State) {
    && 0 <= s.lastFencing
    && Chain(s.log)
    && (s.log != [] ==> FenceOf(s.log[|s.log| - 1]) <= s.lastFencing)
    && (forall j :: 0 <= j < |s.log| ==> Sound(cfg, s.log[j]))
    && LeaseMatchesLog(s)
  }

  lemma ExtendLog(cfg: Config, log: seq<Entry>, e: Entry)
    requires Chain(log) && forall j :: 0 <= j < |log| ==> Sound(cfg, log[j])
    requires if log == [] then !e.MotionCall? else Follows(log[|log| - 1], e)
    requires Sound(cfg, e)
    ensures Chain(log + [e])
    ensures forall j :: 0 <= j < |log + [e]| ==> Sound(cfg, (log + [e])[j])
  {
    var next := log + [e];
    forall j | 0 < j < |next| ensures Follows(next[j - 1], next[j]) {
      if j < |log| { assert Follows(log[j - 1], log[j]); }
    }
  }

  lemma LatchKeepsInv(cfg: Config, s: State, reason: string, now: int)
    requires 0 <= s.lastFencing && Chain(s.log)
    requires s.log != [] ==> FenceOf(s.log[|s.log| - 1]) <= s.lastFencing
    requires forall j :: 0 <= j < |s.log| ==> Sound(cfg, s.log[j])
    ensures KernelInv(cfg, Latch(s, reason, now))
  {
    ExtendLog(cfg, s.log, RiskCall(reason, s.lastFencing, now));
  }

  lemma GrantKeepsInv(cfg: Config, s: State, g: LeaseGrant, now: int)
    requires KernelInv(cfg, s)
    ensures KernelInv(cfg, GrantStep(s, g, now).0)
  {
    var fencing := ToInt64(g.fencing);
    if now < g.validUntil && s.lastFencing < fencing {
      ExtendLog(cfg, s.log, Armed(g.leaseId, fencing, now));
    }
  }

  lemma MotionKeepsInv(cfg: Config, s: State, env: Envelope<ControlCommand>, c: ControlCommand, now: int,
                       motion: Outcome)
    requires KernelInv(cfg, s) && s.lease.Some?
    requires c.motion.Some? && CheckLimits(cfg.limits, c.motion.value)
    requires c.leaseId == s.lease.value.leaseId && ToInt64(c.fencing) == s.lease.value.fencing
    requires s.lease.value.lastSeq < ToInt64(c.sequence) && c.sessionId != ""
    requires s.lease.value.sessionId == "" || s.lease.value.sessionId == c.sessionId
    requires 0 < env.ttlMs <= 1000 && Fresh(env.utcTimeNs, env.ttlMs, cfg.maxClockSkew, now)
    ensures KernelInv(cfg, MotionStep(s, env, c, now, motion).0)
  {
    var call := MotionCall(c.leaseId, c.sessionId, c.fencing, c.sequence, c.motion.value, env.utcTimeNs, env.ttlMs,
                           now, motion.Done?);
    ExtendLog(cfg, s.log, call);
    if motion.Fault? {
      LatchKeepsInv(cfg, s.(log := s.log + [call]), "actuator_failure", now);
    }
  }

  lemma CommandKeepsInv(cfg: Config, s: State, env: Envelope<ControlCommand>, checkedAt: int, now: int,
                        motion: Outcome, risk: Outcome)
    requires KernelInv(cfg, s)
    ensures KernelInv(cfg, CommandStep(cfg, s, env, checkedAt, now, motion, risk).0)
  {
    if CommandAdmitted(cfg, env, checkedAt) && s.lease.Some? {
      var c := env.payload.value;
      LatchKeepsInv(cfg, s, "lease_expired", now);
      if c.mode == MinimalRiskMode {
        LatchKeepsInv(cfg, s, c.riskReason.value, now);
      }
      if && c.mode == TargetMotion && CheckLimits(cfg.limits, c.motion.value)
         && c.leaseId == s.lease.value.leaseId && ToInt64(c.fencing) == s.lease.value.fencing
         && s.lease.value.lastSeq < ToInt64(c.sequence)
         && (s.lease.value.sessionId == "" || s.lease.value.sessionId == c.sessionId)
         && Fresh(env.utcTimeNs, env.ttlMs, cfg.maxClockSkew, now) {
        MotionKeepsInv(cfg, s, env, c, now, motion);
      }
    }
  }

  lemma StepKeepsInv(cfg: Config, s: State, i: Input)
    requires KernelInv(cfg, s)
    ensures KernelInv(cfg, Step(cfg, s, i))
  {
    match i
    case LeaseIn(env, signed, checkedAt, now, risk) =>
      if LeaseAdmitted(cfg, env, signed, checkedAt) {
        var g := env.payload.value;
        GrantKeepsInv(cfg, s, g, now);
        if s.lastFencing <= ToInt64(g.fencing) {
          LatchKeepsInv(cfg, s.(lastFencing := ToInt64(g.fencing)), "lease_revoked", now);
        }
      }
    case CommandIn(env, checkedAt, now, motion, risk) =>
      CommandKeepsInv(cfg, s, env, checkedAt, now, motion, risk);
    case TickIn(now, risk) =>
      LatchKeepsInv(cfg, s, "lease_expired", now);
      LatchKeepsInv(cfg, s, "control_watchdog_timeout", now);
  }

  lemma {:induction false} RunKeepsInv(cfg: Config, inputs: seq<Input>)
    ensures KernelInv(cfg, Exec(cfg, inputs))
  {
    if inputs != [] {
      RunKeepsInv(cfg, inputs[..|inputs| - 1]);
      StepKeepsInv(cfg, Exec(cfg, inputs[..|inputs| - 1]), inputs[|inputs| - 1]);
    }
  }

  // ---------- at most once, in order ----------

  lemma {:induction false} FencesRise(log: seq<Entry>, i: nat, j: nat)
    requires Chain(log) && i <= j < |log|
    ensures FenceOf(log[i]) <= FenceOf(log[j])
    decreases j - i
  {
    if i < j {
      FencesRise(log, i, j - 1);
      assert Follows(log[j - 1], log[j]);
    }
  }

  predicate Before(a: Entry, b: Entry)
    requires a.MotionCall? && b.MotionCall?
  {
    a.fencing < b.fencing || (a.fencing == b.fencing && a.sequence < b.sequence)
  }

  lemma {:induction false} ChainOrdersMotions(log: seq<Entry>, i: nat, j: nat)
    requires Chain(log) && i < j < |log|
    requires log[i].MotionCall? && log[j].MotionCall?
    ensures Before(log[i], log[j])
    decreases j - i
  {
    assert Follows(log[j - 1], log[j]);
    if log[j - 1].MotionCall? {
      if i < j - 1 { ChainOrdersMotions(log, i, j - 1); }
    } else {
      FencesRise(log, i, j - 2);
      assert Follows(log[j - 2], log[j - 1]);
    }
  }

  /**
   At-most-once execution: over any run, the raw (fencing, sequence) pairs of all ApplyMotion calls,
   failed ones included, strictly increase, and each call was sound when it was made.
   */
  lemma MotionsExecuteAtMostOnce(cfg: Config, inputs: seq<Input>)
    ensures var log := Exec(cfg, inputs).log;
      && (forall i, j :: 0 <= i < j < |log| && log[i].MotionCall? && log[j].MotionCall? ==> Before(log[i], log[j]))
      && (forall j :: 0 <= j < |log| ==> Sound(cfg, log[j]))
  {
    RunKeepsInv(cfg, inputs);
    var log := Exec(cfg, inputs).log;
    forall i, j | 0 <= i < j < |log| && log[i].MotionCall? && log[j].MotionCall?
      ensures Before(log[i], log[j])
    {
      ChainOrdersMotions(log, i, j);
    }
  }

  lemma {:induction false} ChainKeepsSession(log: seq<Entry>, i: nat, j: nat)
    requires Chain(log) && i < j < |log|
    requires log[i].MotionCall? && log[j].MotionCall? && log[i].fencing == log[j].fencing
    ensures log[i].sessionId == log[j].sessionId && log[i].leaseId == log[j].leaseId
    decreases j - i
  {
    assert Follows(log[j - 1], log[j]);
    if i < j - 1 {
      FencesRise(log, i, j - 2);
      assert Follows(log[j - 2], log[j - 1]);
      FencesRise(log, i, j - 1);
      ChainKeepsSession(log, i, j - 1);
    }
  }

  /** The control session cannot be switched: all motions under one fencing number come from one session. */
  lemma OneSessionPerLease(cfg: Config, inputs: seq<Input>, i: nat, j: nat)
    requires i < j < |Exec(cfg, inputs).log|
    requires var log := Exec(cfg, inputs).log;
      log[i].MotionCall? && log[j].MotionCall? && log[i].fencing == log[j].fencing
    ensures var log := Exec(cfg, inputs).log; log[i].sessionId == log[j].sessionId && log[i].leaseId == log[j].leaseId
  {
    RunKeepsInv(cfg, inputs);
    ChainKeepsSession(Exec(cfg, inputs).log, i, j);
  }

  // ---------- the latch ----------

  predicate RearmedBetween(log: seq<Entry>, i: int, j: int)
    requires 0 <= i < j < |log|
  {
    exists k :: i < k < j && log[k].Armed? && FenceOf(log[i]) < log[k].fence
  }

  lemma {:induction false} ChainLatches(log: seq<Entry>, i: nat, j: nat)
    requires Chain(log) && i < j < |log|
    requires log[i].RiskCall? && log[j].MotionCall?
    ensures RearmedBetween(log, i, j)
    decreases j - i
  {
    assert Follows(log[j - 1], log[j]);
    if log[j - 1].MotionCall? {
      ChainLatches(log, i, j - 1);
      var k :| i < k < j - 1 && log[k].Armed? && FenceOf(log[i]) < log[k].fence;
      assert i < k < j;
    } else {
      FencesRise(log, i, j - 2);
      assert Follows(log[j - 2], log[j - 1]);
    }
  }

  /**
   Latch: after any MinimalRisk call no motion is attempted until a lease with a fencing number
   strictly above the one in force at that call has been armed; and while a lease is held its
   fencing is the floor and no risk reason is latched.
   */
  lemma RiskLatchesUntilRearmed(cfg: Config, inputs: seq<Input>)
    ensures var s := Exec(cfg, inputs);
      && (forall i, j :: 0 <= i < j < |s.log| && s.log[i].RiskCall? && s.log[j].MotionCall? ==>
            RearmedBetween(s.log, i, j))
      && (s.lease.Some? ==> s.lease.value.fencing == s.lastFencing && s.minimalRisk == "")
  {
    RunKeepsInv(cfg, inputs);
    var log := Exec(cfg, inputs).log;
    forall i, j | 0 <= i < j < |log| && log[i].RiskCall? && log[j].MotionCall?
      ensures RearmedBetween(log, i, j)
    {
      ChainLatches(log, i, j);
    }
  }

  /** From `s` to `t`: a lost lease left an entry, and a new last entry is a risk call exactly when none is held. */
  predicate LossIsLogged(s: State, t: State) {
    && (s.lease.Some? && t.lease.None? ==> |s.log| < |t.log|)
    && (|s.log| < |t.log| ==> (t.lease.None? <==> t.log[|t.log| - 1].RiskCall?))
    && (|s.log| < |t.log| && t.lease.None? ==> t.minimalRisk == t.log[|t.log| - 1].reason)
  }

  lemma StepLosesLease(cfg: Config, s: State, i: Input)
    ensures LossIsLogged(s, Step(cfg, s, i))
  {
  }

  /** A lease is never lost silently: the step that drops it ends in a MinimalRisk call, and conversely. */
  lemma LosingTheLeaseCallsRisk(cfg: Config, inputs: seq<Input>, i: Input)
    ensures LossIsLogged(Exec(cfg, inputs), Exec(cfg, inputs + [i]))
  {
    assert (inputs + [i])[..|inputs|] == inputs;
    assert Exec(cfg, inputs + [i]) == Step(cfg, Exec(cfg, inputs), i);
    StepLosesLease(cfg, Exec(cfg, inputs), i);
  }

  // ---------- what the kernel reports ----------

  function DecisionOf(cfg: Config, s: State, i: Input): Decision {
    match i
    case LeaseIn(env, signed, checkedAt, now, risk) => LeaseStep(cfg, s, env, signed, checkedAt, now, risk).1
    case CommandIn(env, checkedAt, now, motion, risk) => CommandStep(cfg, s, env, checkedAt, now, motion, risk).1
    case TickIn(now, risk) => TickStep(cfg, s, now, risk).1
  }

  /** The last thing the step did was to call MinimalRisk. */
  predicate CallsRisk(s: State, t: State) {
    |s.log| < |t.log| && t.log[|t.log| - 1].RiskCall?
  }

  /** A valid grant that arrives after its own end. */
  predicate ExpiredGrant(cfg: Config, i: Input) {
    && i.LeaseIn? && LeaseAdmitted(cfg, i.env, i.signed, i.checkedAt)
    && i.env.payload.value.action == Grant && i.env.payload.value.validUntil <= i.now
  }

  lemma CommandReports(cfg: Config, s: State, i: Input)
    requires i.CommandIn?
    ensures DecisionOf(cfg, s, i).minimalRisk <==> CallsRisk(s, Step(cfg, s, i))
    ensures DecisionOf(cfg, s, i).minimalRisk ==> DecisionOf(cfg, s, i).riskReason == Step(cfg, s, i).minimalRisk
  {
  }

  lemma StepReports(cfg: Config, s: State, i: Input)
    ensures DecisionOf(cfg, s, i).minimalRisk <==> CallsRisk(s, Step(cfg, s, i)) || ExpiredGrant(cfg, i)
    ensures CallsRisk(s, Step(cfg, s, i)) ==> DecisionOf(cfg, s, i).riskReason == Step(cfg, s, i).minimalRisk
    ensures ExpiredGrant(cfg, i) ==> Step(cfg, s, i) == s
  {
    if i.CommandIn? {
      CommandReports(cfg, s, i);
    }
  }

  /**
   At every point of every run the reported minimal-risk flag tells the truth about the actuator, with the
   latched reason, exactly when the input is no expired grant; that one reports the flag and does nothing.
   */
  lemma RiskReportIsTrueIff(cfg: Config, inputs: seq<Input>, i: Input)
    ensures var s, t, d := Exec(cfg, inputs), Exec(cfg, inputs + [i]), DecisionOf(cfg, Exec(cfg, inputs), i);
      && ((d.minimalRisk <==> CallsRisk(s, t)) <==> !ExpiredGrant(cfg, i))
      && (CallsRisk(s, t) ==> d.riskReason == t.minimalRisk)
      && (ExpiredGrant(cfg, i) ==> t == s && d.minimalRisk)
  {
    assert (inputs + [i])[..|inputs|] == inputs;
    StepReports(cfg, Exec(cfg, inputs), i);
  }

  /** A command is reported accepted without minimal risk exactly when its motion was applied, in that step. */
  lemma AcceptedCommandWasApplied(cfg: Config, s: State, i: Input)
    requires i.CommandIn?
    ensures var t, d := Step(cfg, s, i), DecisionOf(cfg, s, i);
      d.verdict == Accepted && !d.minimalRisk <==>
        |s.log| < |t.log| && t.log[|t.log| - 1].MotionCall? && t.log[|t.log| - 1].applied
  {
  }

  const PLAIN := Config("car", "gw", false, 500 * MILLISECOND, 2 * SECOND, Limits(1.0, 1.0, 1.0, 1.0))
  const STALE_GRANT := LeaseGrant(1, Grant, "car", "gw", "lease", "driver", "device", 1, 10, 20)
  const STALE_ENVELOPE := Envelope(1, 0, "platform.v1.LeaseGrant", "car", "gw", "authority", 1, 10, 1, 30_000, "lease",
                                   1, true, Some(STALE_GRANT))
  const STALE_DELIVERY := LeaseIn(STALE_ENVELOPE, true, 15, 20, Fault)

  /** A grant that ends while it waits for the kernel's lock is reported as minimal risk, and nothing happens. */
  lemma ExpiredGrantReportsRiskItDidNotCall()
    ensures DecisionOf(PLAIN, INITIAL, STALE_DELIVERY).minimalRisk
    ensures Step(PLAIN, INITIAL, STALE_DELIVERY) == INITIAL
  {
    StepReports(PLAIN, INITIAL, STALE_DELIVERY);
  }

  // ---------- prefixes of a run ----------

  /** Entries from position `n` on lie at or above the floor, armings strictly above it. */
  predicate AboveFloor(log: seq<Entry>, n: int, floor: int)
    requires 0 <= n
  {
    forall k :: n <= k < |log| ==> floor <= FenceOf(log[k]) && (log[k].Armed? ==> floor < FenceOf(log[k]))
  }

  lemma CommandExtends(cfg: Config, s: State, i: Input)
    requires KernelInv(cfg, s) && i.CommandIn?
    ensures s.log <= Step(cfg, s, i).log && s.lastFencing == Step(cfg, s, i).lastFencing
    ensures AboveFloor(Step(cfg, s, i).log, |s.log|, s.lastFencing)
  {
  }

  lemma StepExtends(cfg: Config, s: State, i: Input)
    requires KernelInv(cfg, s)
    ensures s.log <= Step(cfg, s, i).log && s.lastFencing <= Step(cfg, s, i).lastFencing
    ensures AboveFloor(Step(cfg, s, i).log, |s.log|, s.lastFencing)
  {
    if i.CommandIn? {
      CommandExtends(cfg, s, i);
    }
  }

  /** A fencing number, once processed, is a floor under everything the vehicle does later. */
  lemma {:induction false} ProcessedFencingIsAFloor(cfg: Config, inputs: seq<Input>, n: nat)
    requires n <= |inputs|
    ensures var s, t := Exec(cfg, inputs[..n]), Exec(cfg, inputs);
      s.log <= t.log && s.lastFencing <= t.lastFencing && AboveFloor(t.log, |s.log|, s.lastFencing)
    decreases |inputs| - n
  {
    if n == |inputs| {
      assert inputs[..n] == inputs;
    } else {
      var s, u, t := Exec(cfg, inputs[..n]), Exec(cfg, inputs[..n + 1]), Exec(cfg, inputs);
      assert inputs[..n + 1][..n] == inputs[..n];
      ProcessedFencingIsAFloor(cfg, inputs, n + 1);
      RunKeepsInv(cfg, inputs[..n]);
      StepExtends(cfg, s, inputs[n]);
      forall k | |s.log| <= k < |t.log|
        ensures s.lastFencing <= FenceOf(t.log[k]) && (t.log[k].Armed? ==> s.lastFencing < FenceOf(t.log[k]))
      {
        if k < |u.log| { assert t.log[k] == u.log[k]; }
      }
    }
  }

  /** `t` holds no lease that `s` did not already hold, unless its fencing floor is higher. */
  predicate Continues(s: State, t: State) {
    t.lease.Some? && t.lastFencing == s.lastFencing ==>
      && s.lease.Some? && s.lease.value.leaseId == t.lease.value.leaseId
      && s.lease.value.validUntil <= t.lease.value.validUntil
      && s.lease.value.lastSeq <= t.lease.value.lastSeq
  }

  lemma StepContinues(cfg: Config, s: State, i: Input)
    requires KernelInv(cfg, s)
    ensures Continues(s, Step(cfg, s, i))
  {
  }

  /**
   While the fencing floor stands still a lease that was lost never comes back, and one that is
   still held is the same lease, valid at least as long as before and at least as far in sequence.
   */
  lemma {:induction false} HeldLeaseOnlyExtends(cfg: Config, inputs: seq<Input>, n: nat)
    requires n <= |inputs|
    ensures Continues(Exec(cfg, inputs[..n]), Exec(cfg, inputs))
    decreases |inputs| - n
  {
    if n == |inputs| {
      assert inputs[..n] == inputs;
    } else {
      var s, u := Exec(cfg, inputs[..n]), Exec(cfg, inputs[..n + 1]);
      assert inputs[..n + 1][..n] == inputs[..n];
      assert u == Step(cfg, s, inputs[n]);
      HeldLeaseOnlyExtends(cfg, inputs, n + 1);
      ProcessedFencingIsAFloor(cfg, inputs, n + 1);
      RunKeepsInv(cfg, inputs[..n]);
      StepExtends(cfg, s, inputs[n]);
      StepContinues(cfg, s, inputs[n]);
    }
  }

  // ---------- the watchdog ----------

  function EndTime(inputs: seq<Input>, start: int): int {
    if inputs == [] then start else inputs[|inputs| - 1].now
  }

  function LastTick(inputs: seq<Input>, start: int): int {
    if inputs == [] then start
    else if inputs[|inputs| - 1].TickIn? then inputs[|inputs| - 1].now
    else LastTick(inputs[..|inputs| - 1], start)
  }

  /** The clock never runs backwards and the kernel is ticked at least once every `period`. */
  predicate Timely(inputs: seq<Input>, start: int, period: int) {
    inputs == [] ||
    var init := inputs[..|inputs| - 1];
    && Timely(init, start, period)
    && EndTime(init, start) <= inputs[|inputs| - 1].now <= LastTick(init, start) + period
  }

  predicate GapsWithin(log: seq<Entry>, bound: int) {
    forall j :: 0 < j < |log| && Live(log[j - 1]) ==> log[j].at - log[j - 1].at <= bound
  }

  lemma {:induction false} TicksLagBehind(inputs: seq<Input>, start: int, period: int)
    requires Timely(inputs, start, period)
    ensures LastTick(inputs, start) <= EndTime(inputs, start)
  {
    if inputs != [] { TicksLagBehind(inputs[..|inputs| - 1], start, period); }
  }

  /** A motion is only ever attempted directly after an event that left its own lease live. */
  lemma MotionsFollowLiveEvents(cfg: Config, inputs: seq<Input>, j: nat)
    requires j < |Exec(cfg, inputs).log| && Exec(cfg, inputs).log[j].MotionCall?
    ensures 0 < j && ContinuesLease(Exec(cfg, inputs).log[j - 1], Exec(cfg, inputs).log[j])
  {
    RunKeepsInv(cfg, inputs);
    ChainContinues(Exec(cfg, inputs).log, j);
  }

  predicate ContinuesLease(prev: Entry, e: Entry) {
    Live(prev) && e.MotionCall? && prev.leaseId == e.leaseId && FenceOf(prev) == FenceOf(e)
  }

  lemma ChainContinues(log: seq<Entry>, j: nat)
    requires Chain(log) && j < |log| && log[j].MotionCall?
    ensures 0 < j && ContinuesLease(log[j - 1], log[j])
  {
    assert 0 < j ==> Follows(log[j - 1], log[j]);
  }

  predicate Quiet(s: State, lastTick: int, now: int, watchdog: int, period: int) {
    s.log != [] && Live(s.log[|s.log| - 1]) ==>
      && s.lease.Some?
      && lastTick - s.log[|s.log| - 1].at <= watchdog
      && now - s.log[|s.log| - 1].at <= watchdog + period
  }

  /**
   Watchdog bound. If ticks come at most `period` apart, then whatever an armed lease or an applied
   motion is followed by, the next actuator event or re-arming, comes within watchdog + period, and
   at the end of the run an uninterrupted lease is no further than that from its last motion. Lease
   renewals are among the inputs and do not appear in the bound.
   */
  lemma {:induction false} SilenceIsBounded(cfg: Config, inputs: seq<Input>, start: int, period: int)
    requires Timely(inputs, start, period)
    requires 0 < cfg.watchdog && 0 <= period
    ensures GapsWithin(Exec(cfg, inputs).log, cfg.watchdog + period)
    ensures Quiet(Exec(cfg, inputs), LastTick(inputs, start), EndTime(inputs, start), cfg.watchdog, period)
  {
    RunKeepsInv(cfg, inputs);
    if inputs != [] {
      var init, last := inputs[..|inputs| - 1], inputs[|inputs| - 1];
      SilenceIsBounded(cfg, init, start, period);
      RunKeepsInv(cfg, init);
      TicksLagBehind(init, start, period);
      StepGapsWithin(cfg, Exec(cfg, init), last, LastTick(init, start), period);
    }
  }

  lemma StepGapsWithin(cfg: Config, s: State, i: Input, lastTick: int, period: int)
    requires KernelInv(cfg, s) && GapsWithin(s.log, cfg.watchdog + period)
    requires s.lease.Some? ==> lastTick - s.lease.value.lastCommand <= cfg.watchdog
    requires lastTick <= i.now <= lastTick + period && 0 < cfg.watchdog && 0 <= period
    ensures var t := Step(cfg, s, i);
      && GapsWithin(t.log, cfg.watchdog + period)
      && (t.lease.Some? ==>
            (if i.TickIn? then i.now else lastTick) - t.lease.value.lastCommand <= cfg.watchdog)
  {
    var t := Step(cfg, s, i);
    StepExtends(cfg, s, i);
    forall j | 0 < j < |t.log| && Live(t.log[j - 1])
      ensures t.log[j].at - t.log[j - 1].at <= cfg.watchdog + period
    {
      if j < |s.log| {
        assert s.log[j - 1] == t.log[j - 1] && s.log[j] == t.log[j];
      } else if j == |s.log| {
        assert t.log[j - 1] == s.log[j - 1];
      }
    }
  }
}
