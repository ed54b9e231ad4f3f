/** The telemetry projection: an in-memory vehicle, its stored row and the ordering gate in front of both. */
module Telemetry {
  import opened Prelude
  import Ingest

  datatype NumField =
    | Speed | SteeringAngle | WheelFL | WheelFR | WheelRL | WheelRR | StateOfCharge | Voltage | Throttle | Brake
    | Accel | CabinTemperature | CabinHumidity | GpsLat | GpsLon | GpsAlt | PoseX | PoseY | PoseYaw

  datatype TextField = Gear | Mode | PoseFrame

  /** A signal path: a number or text field of the vehicle, one of the two flags, or one nobody reads. */
  datatype Path = Number(num: NumField) | Text(text: TextField) | GpsFix | PoseValid | Ignored(name: string)

  datatype Signal = Signal(path: Path, num: Option<real>, text: Option<string>)

  /** Fields that keep their recent samples as well. */
  const HISTORIES: set<NumField> := {Speed, Throttle, Brake, Accel}

  const HISTORY_CAP: nat := 150
  const ONLINE_WINDOW: int := 6 * SECOND

  /** `nums` and `texts` hold the fields that were ever reported; an absent field reads as its zero value. */
  datatype Vehicle = Vehicle(
    online: bool,
    lastSeen: int,
    nums: map<NumField, real>,
    texts: map<TextField, string>,
    hists: map<NumField, seq<real>>,
    gpsFix: bool,
    poseValiditySet: bool,
    poseValid: bool)

  const NEW_VEHICLE := Vehicle(false, 0, map[], map[], map p | p in HISTORIES :: [], false, false, false)

  /** Rounding to two decimals, halves away from zero. */
  function Round2(x: real): real {
    if x >= 0.0 then (x * 100.0 + 0.5).Floor as real / 100.0 else -((-x * 100.0 + 0.5).Floor as real / 100.0)
  }

  function GearShort(g: string): string {
    if g == "GEAR_DRIVE" then "D"
    else if g == "GEAR_NEUTRAL" then "N"
    else if g == "GEAR_REVERSE" then "R"
    else if g == "GEAR_PARK" then "P"
    else g
  }

  function TextOf(p: TextField, text: string): string {
    if p == Gear then GearShort(text) else text
  }

  // ---------- the update as the service performs it ----------

  function Suffix<T>(s: seq<T>, n: nat): seq<T> {
    if |s| <= n then s else s[|s| - n..]
  }

  function Sampled(hists: map<NumField, seq<real>>, f: NumField, x: real): map<NumField, seq<real>> {
    if f in hists then hists[f := Suffix(hists[f] + [Round2(x)], HISTORY_CAP)] else hists
  }

  function ApplySignal(v: Vehicle, sg: Signal): Vehicle {
    match sg.path
    case Number(f) =>
      if sg.num.None? then v
      else v.(nums := v.nums[f := sg.num.value], hists := Sampled(v.hists, f, sg.num.value))
    case Text(f) => if sg.text.None? then v else v.(texts := v.texts[f := TextOf(f, sg.text.value)])
    case GpsFix => if sg.num.None? then v else v.(gpsFix := sg.num.value > 0.5)
    case PoseValid => if sg.num.None? then v else v.(poseValiditySet := true, poseValid := sg.num.value > 0.5)
    case Ignored(_) => v
  }

  function ApplySignals(v: Vehicle, sigs: seq<Signal>): Vehicle {
    if sigs == [] then v else ApplySignal(ApplySignals(v, sigs[..|sigs| - 1]), sigs[|sigs| - 1])
  }

  /** Without a validity signal a pose is valid once all its coordinates were reported. */
  function Finish(v: Vehicle): Vehicle {
    if v.poseValiditySet then v else v.(poseValid := PoseX in v.nums && PoseY in v.nums && PoseYaw in v.nums)
  }

  function ApplyUpdate(v: Vehicle, sigs: seq<Signal>, now: int): Vehicle {
    Finish(ApplySignals(v.(online := true, lastSeen := now), sigs))
  }

  // ---------- what it is supposed to compute: a view of everything reported so far ----------

  function LastNum(sigs: seq<Signal>, p: Path): Option<real> {
    if sigs == [] then None
    else if sigs[|sigs| - 1].path == p && sigs[|sigs| - 1].num.Some? then sigs[|sigs| - 1].num
    else LastNum(sigs[..|sigs| - 1], p)
  }

  function LastText(sigs: seq<Signal>, p: Path): Option<string> {
    if sigs == [] then None
    else if sigs[|sigs| - 1].path == p && sigs[|sigs| - 1].text.Some? then sigs[|sigs| - 1].text
    else LastText(sigs[..|sigs| - 1], p)
  }

  /** Every sample ever reported for a field, rounded, oldest first. */
  function FullHistory(sigs: seq<Signal>, f: NumField): seq<real> {
    if sigs == [] then []
    else
      var sg := sigs[|sigs| - 1];
      FullHistory(sigs[..|sigs| - 1], f) + if sg.path == Number(f) && sg.num.Some? then [Round2(sg.num.value)] else []
  }

  function Above(x: Option<real>): bool {
    x.Some? && x.value > 0.5
  }

  function Reported(sigs: seq<Signal>): set<Path> {
    set sg | sg in sigs :: sg.path
  }

  function NumsView(sigs: seq<Signal>): map<NumField, real> {
    map f | Number(f) in Reported(sigs) && LastNum(sigs, Number(f)).Some? :: LastNum(sigs, Number(f)).value
  }

  function TextsView(sigs: seq<Signal>): map<TextField, string> {
    map f | Text(f) in Reported(sigs) && LastText(sigs, Text(f)).Some? :: TextOf(f, LastText(sigs, Text(f)).value)
  }

  function HistsView(sigs: seq<Signal>, fields: set<NumField>): map<NumField, seq<real>> {
    map f | f in fields :: Suffix(FullHistory(sigs, f), HISTORY_CAP)
  }

  function View(sigs: seq<Signal>, online: bool, lastSeen: int): Vehicle {
    var nums, validity := NumsView(sigs), LastNum(sigs, PoseValid);
    Vehicle(online, lastSeen, nums, TextsView(sigs), HistsView(sigs, HISTORIES), Above(LastNum(sigs, GpsFix)),
            validity.Some?,
            if validity.Some? then Above(validity) else PoseX in nums && PoseY in nums && PoseYaw in nums)
  }

  /** Inside an update the pose flag is not settled yet; everything else already is. */
  function Settled(v: Vehicle): Vehicle {
    v.(poseValid := v.poseValiditySet && v.poseValid)
  }

  predicate Tracks(v: Vehicle, sigs: seq<Signal>, online: bool, lastSeen: int) {
    Settled(v) == Settled(View(sigs, online, lastSeen))
  }

  lemma TrimmedAppend<T>(s: seq<T>, x: T, n: nat)
    requires 0 < n
    ensures Suffix(Suffix(s, n) + [x], n) == Suffix(s + [x], n)
  {
  }

  lemma LastNumOf(sigs: seq<Signal>, sg: Signal, p: Path)
    ensures LastNum(sigs + [sg], p) == if sg.path == p && sg.num.Some? then sg.num else LastNum(sigs, p)
  {
    assert (sigs + [sg])[..|sigs|] == sigs;
  }

  lemma LastTextOf(sigs: seq<Signal>, sg: Signal, p: Path)
    ensures LastText(sigs + [sg], p) == if sg.path == p && sg.text.Some? then sg.text else LastText(sigs, p)
  {
    assert (sigs + [sg])[..|sigs|] == sigs;
  }

  lemma {:induction false} OnlyReported(sigs: seq<Signal>, p: Path)
    ensures LastNum(sigs, p).Some? || LastText(sigs, p).Some? ==> p in Reported(sigs)
  {
    if sigs != [] {
      OnlyReported(sigs[..|sigs| - 1], p);
      assert sigs[|sigs| - 1] in sigs;
    }
  }

  lemma ReportedExtends(sigs: seq<Signal>, sg: Signal)
    ensures Reported(sigs + [sg]) == Reported(sigs) + {sg.path}
  {
    assert forall x :: x in sigs + [sg] <==> x in sigs || x == sg;
  }

  lemma NumsExtend(sigs: seq<Signal>, sg: Signal)
    ensures NumsView(sigs + [sg]) ==
      if sg.path.Number? && sg.num.Some? then NumsView(sigs)[sg.path.num := sg.num.value] else NumsView(sigs)
  {
    ReportedExtends(sigs, sg);
    forall p
      ensures LastNum(sigs + [sg], p) == if sg.path == p && sg.num.Some? then sg.num else LastNum(sigs, p)
      ensures LastNum(sigs, p).Some? ==> p in Reported(sigs)
    {
      LastNumOf(sigs, sg, p);
      OnlyReported(sigs, p);
    }
  }

  lemma TextsExtend(sigs: seq<Signal>, sg: Signal)
    ensures TextsView(sigs + [sg]) ==
      if sg.path.Text? && sg.text.Some? then TextsView(sigs)[sg.path.text := TextOf(sg.path.text, sg.text.value)]
      else TextsView(sigs)
  {
    ReportedExtends(sigs, sg);
    forall p
      ensures LastText(sigs + [sg], p) == if sg.path == p && sg.text.Some? then sg.text else LastText(sigs, p)
      ensures LastText(sigs, p).Some? ==> p in Reported(sigs)
    {
      LastTextOf(sigs, sg, p);
      OnlyReported(sigs, p);
    }
  }

  /** Trimming after every sample keeps the same window as trimming the whole history once. */
  lemma HistoryExtends(sigs: seq<Signal>, sg: Signal, f: NumField)
    ensures Suffix(FullHistory(sigs + [sg], f), HISTORY_CAP) ==
      if sg.path == Number(f) && sg.num.Some?
      then Suffix(Suffix(FullHistory(sigs, f), HISTORY_CAP) + [Round2(sg.num.value)], HISTORY_CAP)
      else Suffix(FullHistory(sigs, f), HISTORY_CAP)
  {
    assert (sigs + [sg])[..|sigs|] == sigs;
    if sg.path == Number(f) && sg.num.Some? {
      TrimmedAppend(FullHistory(sigs, f), Round2(sg.num.value), HISTORY_CAP);
    }
  }

  lemma HistsExtend(sigs: seq<Signal>, sg: Signal, fields: set<NumField>)
    ensures HistsView(sigs + [sg], fields) ==
      if sg.path.Number? && sg.num.Some? then Sampled(HistsView(sigs, fields), sg.path.num, sg.num.value)
      else HistsView(sigs, fields)
  {
    forall f | f in fields
      ensures HistsView(sigs + [sg], fields)[f] == if sg.path == Number(f) && sg.num.Some?
                                                   then Sampled(HistsView(sigs, fields), f, sg.num.value)[f]
                                                   else HistsView(sigs, fields)[f]
    {
      HistoryExtends(sigs, sg, f);
    }
  }

  lemma SignalExtendsView(v: Vehicle, sigs: seq<Signal>, sg: Signal, online: bool, lastSeen: int)
    requires Tracks(v, sigs, online, lastSeen)
    ensures Tracks(ApplySignal(v, sg), sigs + [sg], online, lastSeen)
  {
    NumsExtend(sigs, sg);
    TextsExtend(sigs, sg);
    HistsExtend(sigs, sg, HISTORIES);
    LastNumOf(sigs, sg, GpsFix);
    LastNumOf(sigs, sg, PoseValid);
  }

  lemma {:induction false} SignalsExtendView(v: Vehicle, past: seq<Signal>, sigs: seq<Signal>, online: bool,
                                             lastSeen: int)
    requires Tracks(v, past, online, lastSeen)
    ensures Tracks(ApplySignals(v, sigs), past + sigs, online, lastSeen)
  {
    if sigs == [] {
      assert past + sigs == past;
    } else {
      var init, sg := sigs[..|sigs| - 1], sigs[|sigs| - 1];
      SignalsExtendView(v, past, init, online, lastSeen);
      SignalExtendsView(ApplySignals(v, init), past + init, sg, online, lastSeen);
      assert past + init + [sg] == past + sigs;
    }
  }

  /** One update turns a view of the past into the view of the past and the update. */
  lemma UpdateExtendsView(v: Vehicle, past: seq<Signal>, sigs: seq<Signal>, now: int)
    requires v == View(past, v.online, v.lastSeen)
    ensures ApplyUpdate(v, sigs, now) == View(past + sigs, true, now)
  {
    SignalsExtendView(v.(online := true, lastSeen := now), past, sigs, true, now);
  }

  // ---------- the stored row ----------

  datatype StoredRow = StoredRow(
    online: bool,
    mode: Option<string>,
    gear: Option<string>,
    frame: Option<string>,
    speed: real,
    soc: real,
    voltage: real,
    steer: real,
    gps: Option<(real, real, real)>,
    pose: Option<(real, real, real)>,
    updatedAt: int)

  function Num(v: Vehicle, p: NumField): real {
    if p in v.nums then v.nums[p] else 0.0
  }

  function Nullable(v: Vehicle, p: TextField): Option<string> {
    if p in v.texts && v.texts[p] != "" then Some(v.texts[p]) else None
  }

  function RowOf(v: Vehicle): StoredRow {
    StoredRow(v.online, Nullable(v, Mode), Nullable(v, Gear), Nullable(v, PoseFrame),
              Num(v, Speed), Num(v, StateOfCharge), Num(v, Voltage), Num(v, SteeringAngle),
              if v.gpsFix then Some((Num(v, GpsLat), Num(v, GpsLon), Num(v, GpsAlt))) else None,
              if v.poseValid then Some((Num(v, PoseX), Num(v, PoseY), Num(v, PoseYaw))) else None,
              v.lastSeen)
  }

  // ---------- the projection ----------

  datatype Projection = Projection(
    fleet: set<string>,
    memory: map<string, Vehicle>,
    rows: map<string, StoredRow>,
    registry: Ingest.Registry)

  const EMPTY := Projection({}, map[], map[], Ingest.EMPTY)

  datatype Input =
    | Enrol(vehicleId: string)
    | Deliver(vehicleId: string, gatewayId: string, messageType: string, sessionId: string, sequence: uint64,
              sigs: seq<Signal>, now: int, committed: bool)
    | Sweep(now: int)
    | Retention(now: int, ledgerOk: bool, cursorsOk: bool)

  function MemoryOf(p: Projection, vehicleId: string): Vehicle {
    if vehicleId in p.memory then p.memory[vehicleId] else NEW_VEHICLE
  }

  function ClaimOf(p: Projection, i: Input): (Ingest.Registry, Ingest.Claimed)
    requires i.Deliver?
  {
    Ingest.Claim(p.registry, Ingest.Key(i.vehicleId, i.gatewayId, i.messageType, i.sessionId), i.sequence, i.now)
  }

  /** The sequence is claimed, the vehicle exists and the whole transaction commits. */
  predicate TakesEffect(p: Projection, i: Input) {
    i.Deliver? && i.sigs != [] && ClaimOf(p, i).1 == Ingest.Accepted && i.vehicleId in p.fleet && i.committed
  }

  function SweepOne(v: Vehicle, now: int): Vehicle {
    if v.online && now - v.lastSeen > ONLINE_WINDOW then v.(online := false) else v
  }

  function Step(p: Projection, i: Input): Projection {
    match i
    case Enrol(id) => p.(fleet := p.fleet + {id})
    case Deliver(id, _, _, _, _, sigs, now, _) =>
      if !TakesEffect(p, i) then p
      else
        var next := ApplyUpdate(MemoryOf(p, id), sigs, now);
        Projection(p.fleet, p.memory[id := next], p.rows[id := RowOf(next)], ClaimOf(p, i).0)
    case Retention(now, ledgerOk, cursorsOk) => p.(registry := Ingest.Purge(p.registry, now, ledgerOk, cursorsOk))
    case Sweep(now) => p.(memory := map id | id in p.memory :: SweepOne(p.memory[id], now))
  }

  class FleetState {
    var fleet: set<string>
    var memory: map<string, Vehicle>
    var rows: map<string, StoredRow>
    var registry: Ingest.Registry

    ghost function Contents(): Projection
      reads this
    {
      Projection(fleet, memory, rows, registry)
    }

    constructor ()
      ensures Contents() == EMPTY
    {
      fleet, memory, rows, registry := {}, map[], map[], Ingest.EMPTY;
    }

    /** The loop over the signals of one update, on a private copy of the vehicle. */
    static method ApplySignalUpdate(v: Vehicle, sigs: seq<Signal>, now: int) returns (next: Vehicle)
      ensures next == ApplyUpdate(v, sigs, now)
    {
      next := v.(online := true, lastSeen := now);
      for i := 0 to |sigs|
        invariant next == ApplySignals(v.(online := true, lastSeen := now), sigs[..i])
      {
        assert sigs[..i + 1][..i] == sigs[..i];
        var sg := sigs[i];
        match sg.path {
          case Number(f) =>
            if sg.num.Some? {
              next := next.(nums := next.nums[f := sg.num.value]);
              if f in next.hists {
                var hist := next.hists[f] + [Round2(sg.num.value)];
                if |hist| > HISTORY_CAP {
                  hist := hist[|hist| - HISTORY_CAP..];
                }
                next := next.(hists := next.hists[f := hist]);
              }
            }
          case Text(f) =>
            if sg.text.Some? {
              next := next.(texts := next.texts[f := TextOf(f, sg.text.value)]);
            }
          case GpsFix =>
            if sg.num.Some? {
              next := next.(gpsFix := sg.num.value > 0.5);
            }
          case PoseValid =>
            if sg.num.Some? {
              next := next.(poseValiditySet := true, poseValid := sg.num.value > 0.5);
            }
          case Ignored(_) =>
        }
      }
      assert sigs[..|sigs|] == sigs;
      if !next.poseValiditySet {
        next := next.(poseValid := PoseX in next.nums && PoseY in next.nums && PoseYaw in next.nums);
      }
    }

    /** Claim, stored row and memory: the memory entry is swapped only after the commit. */
    method ApplyTelemetryDurably(vehicleId: string, gatewayId: string, messageType: string, sessionId: string,
                                 sequence: uint64, sigs: seq<Signal>, now: int, committed: bool)
      returns (accepted: bool)
      modifies this
      ensures var i := Deliver(vehicleId, gatewayId, messageType, sessionId, sequence, sigs, now, committed);
        Contents() == Step(old(Contents()), i) && accepted == TakesEffect(old(Contents()), i)
    {
      if sigs == [] {
        return false;
      }
      var next := ApplySignalUpdate(if vehicleId in memory then memory[vehicleId] else NEW_VEHICLE, sigs, now);
      var key := Ingest.Key(vehicleId, gatewayId, messageType, sessionId);
      var (claim, claimed) := Ingest.Claim(registry, key, sequence, now);
      if claimed != Ingest.Accepted {
        return false;
      }
      if vehicleId !in fleet || !committed {
        return false;
      }
      registry := claim;
      rows := rows[vehicleId := RowOf(next)];
      memory := memory[vehicleId := next];
      return true;
    }

    /** Visit every vehicle once and mark the silent ones; `gone` are those that were online until now. */
    method OnlineSweep(now: int) returns (gone: set<string>)
      modifies this
      ensures Contents() == Step(old(Contents()), Sweep(now))
      ensures gone == set id | id in old(memory) && old(memory)[id].online
                               && now - old(memory)[id].lastSeen > ONLINE_WINDOW
    {
      gone := {};
      var todo := memory.Keys;
      while todo != {}
        invariant todo <= memory.Keys == old(memory).Keys
        invariant fleet == old(fleet) && rows == old(rows) && registry == old(registry)
        invariant forall id :: id in memory ==>
          memory[id] == if id in todo then old(memory)[id] else SweepOne(old(memory)[id], now)
        invariant gone == set id | id in old(memory) && id !in todo && old(memory)[id].online
                                   && now - old(memory)[id].lastSeen > ONLINE_WINDOW
        decreases todo
      {
        var id :| id in todo;
        todo := todo - {id};
        var v := memory[id];
        if v.online && now - v.lastSeen > ONLINE_WINDOW {
          memory := memory[id := v.(online := false)];
          gone := gone + {id};
        }
      }
    }
  }

  // ---------- runs ----------

  function Exec(inputs: seq<Input>): Projection {
    if inputs == [] then EMPTY else Step(Exec(inputs[..|inputs| - 1]), inputs[|inputs| - 1])
  }

  /** The signals of exactly the accepted updates of a vehicle, in order. */
  function AcceptedSignals(inputs: seq<Input>, vehicleId: string): seq<Signal> {
    if inputs == [] then []
    else
      var init, i := inputs[..|inputs| - 1], inputs[|inputs| - 1];
      AcceptedSignals(init, vehicleId) +
        if TakesEffect(Exec(init), i) && i.vehicleId == vehicleId then i.sigs else []
  }

  predicate IsViewOf(v: Vehicle, sigs: seq<Signal>) {
    v == View(sigs, v.online, v.lastSeen)
  }

  lemma NewVehicleIsEmptyView()
    ensures IsViewOf(NEW_VEHICLE, [])
  {
    var e := View([], false, 0);
    assert e.nums == map[] && e.texts == map[];
    assert forall p :: p in HISTORIES ==> e.hists[p] == [];
    assert e.hists == NEW_VEHICLE.hists;
  }

  lemma StepKeepsView(p: Projection, i: Input, vehicleId: string, past: seq<Signal>)
    requires IsViewOf(MemoryOf(p, vehicleId), past)
    requires vehicleId in p.rows ==>
      vehicleId in p.memory && p.rows[vehicleId] == RowOf(p.memory[vehicleId].(online := true))
    ensures var q := Step(p, i);
      && IsViewOf(MemoryOf(q, vehicleId), past + if TakesEffect(p, i) && i.vehicleId == vehicleId then i.sigs else [])
      && (vehicleId in q.rows ==>
            vehicleId in q.memory && q.rows[vehicleId] == RowOf(q.memory[vehicleId].(online := true)))
  {
    if TakesEffect(p, i) && i.vehicleId == vehicleId {
      UpdateExtendsView(MemoryOf(p, vehicleId), past, i.sigs, i.now);
    } else {
      assert past + [] == past;
    }
  }

  /**
   After any run of accepted, duplicate, late and failed deliveries, online sweeps and retention, the vehicle
   in memory is the view of exactly the accepted signals (each history the last 150 rounded samples of
   the whole history) and the stored row is its projection.
   */
  lemma {:induction false} MemoryIsViewOfAccepted(inputs: seq<Input>, vehicleId: string)
    ensures var p := Exec(inputs);
      && IsViewOf(MemoryOf(p, vehicleId), AcceptedSignals(inputs, vehicleId))
      && (vehicleId in p.rows ==>
            vehicleId in p.memory && p.rows[vehicleId] == RowOf(p.memory[vehicleId].(online := true)))
  {
    if inputs == [] {
      NewVehicleIsEmptyView();
    } else {
      var init := inputs[..|inputs| - 1];
      MemoryIsViewOfAccepted(init, vehicleId);
      StepKeepsView(Exec(init), inputs[|inputs| - 1], vehicleId, AcceptedSignals(init, vehicleId));
    }
  }

  predicate AcceptedAt(inputs: seq<Input>, vehicleId: string, n: int)
    requires 0 <= n < |inputs|
  {
    TakesEffect(Exec(inputs[..n]), inputs[n]) && inputs[n].vehicleId == vehicleId
  }

  /** No delivery of the vehicle was accepted from position `n` on. */
  predicate SilentFrom(inputs: seq<Input>, vehicleId: string, n: nat) {
    forall m :: n <= m < |inputs| ==> !AcceptedAt(inputs, vehicleId, m)
  }

  predicate SweptAfter(inputs: seq<Input>, n: nat, at: int) {
    exists m :: n <= m < |inputs| && inputs[m].Sweep? && inputs[m].now - at > 6_000_000_000
  }

  lemma SilentStep(inputs: seq<Input>, vehicleId: string, n: nat)
    requires n < |inputs| && SilentFrom(inputs, vehicleId, n)
    ensures SilentFrom(inputs[..|inputs| - 1], vehicleId, n)
    ensures var p, i := Exec(inputs[..|inputs| - 1]), inputs[|inputs| - 1];
      MemoryOf(Exec(inputs), vehicleId) ==
        if i.Sweep? then SweepOne(MemoryOf(p, vehicleId), i.now) else MemoryOf(p, vehicleId)
  {
    var init := inputs[..|inputs| - 1];
    forall m | n <= m < |init| ensures !AcceptedAt(init, vehicleId, m) {
      assert init[..m] == inputs[..m] && !AcceptedAt(inputs, vehicleId, m);
    }
    assert !AcceptedAt(inputs, vehicleId, |inputs| - 1);
  }

  /**
   A vehicle was last seen at its last accepted delivery and is online exactly until a sweep more than
   six seconds after that.
   */
  lemma {:induction false} PresenceFollowsDeliveries(inputs: seq<Input>, vehicleId: string, n: nat)
    requires n < |inputs| && AcceptedAt(inputs, vehicleId, n) && SilentFrom(inputs, vehicleId, n + 1)
    ensures var v := MemoryOf(Exec(inputs), vehicleId);
      v.lastSeen == inputs[n].now && (v.online <==> !SweptAfter(inputs, n + 1, inputs[n].now))
    decreases |inputs|
  {
    var init, last := inputs[..|inputs| - 1], inputs[|inputs| - 1];
    if n + 1 == |inputs| {
      var i := inputs[n];
      UpdateSeen(MemoryOf(Exec(init), vehicleId), i.sigs, i.now);
    } else {
      SilentStep(inputs, vehicleId, n + 1);
      assert init[..n] == inputs[..n];
      PresenceFollowsDeliveries(init, vehicleId, n);
      SweptExtends(inputs, n + 1, inputs[n].now);
    }
  }

  lemma SweptExtends(inputs: seq<Input>, n: nat, at: int)
    requires n < |inputs|
    ensures var last := inputs[|inputs| - 1];
      SweptAfter(inputs, n, at) <==>
        SweptAfter(inputs[..|inputs| - 1], n, at) || (last.Sweep? && last.now - at > ONLINE_WINDOW)
  {
    var init := inputs[..|inputs| - 1];
    if SweptAfter(init, n, at) {
      var m :| n <= m < |init| && init[m].Sweep? && init[m].now - at > ONLINE_WINDOW;
      assert inputs[m] == init[m];
    }
    if SweptAfter(inputs, n, at) {
      var m :| n <= m < |inputs| && inputs[m].Sweep? && inputs[m].now - at > ONLINE_WINDOW;
      assert m < |init| ==> init[m] == inputs[m];
    }
  }

  lemma SignalKeepsPresence(v: Vehicle, sg: Signal)
    ensures ApplySignal(v, sg).online == v.online && ApplySignal(v, sg).lastSeen == v.lastSeen
  {
    match sg.path
    case Number(f) =>
      assert sg.num.Some? ==>
        ApplySignal(v, sg) == v.(nums := v.nums[f := sg.num.value],
                                 hists := Sampled(v.hists, f, sg.num.value));
    case Text(f) =>
      assert sg.text.Some? ==> ApplySignal(v, sg) == v.(texts := v.texts[f := TextOf(f, sg.text.value)]);
    case _ =>
  }

  lemma {:induction false} SignalsKeepPresence(v: Vehicle, sigs: seq<Signal>)
    ensures ApplySignals(v, sigs).online == v.online && ApplySignals(v, sigs).lastSeen == v.lastSeen
  {
    if sigs != [] {
      SignalsKeepPresence(v, sigs[..|sigs| - 1]);
      SignalKeepsPresence(ApplySignals(v, sigs[..|sigs| - 1]), sigs[|sigs| - 1]);
    }
  }

  lemma UpdateSeen(v: Vehicle, sigs: seq<Signal>, now: int)
    ensures ApplyUpdate(v, sigs, now).online && ApplyUpdate(v, sigs, now).lastSeen == now
  {
    SignalsKeepPresence(v.(online := true, lastSeen := now), sigs);
  }

  /** A vehicle never heard from is offline and blank. */
  lemma {:induction false} UnheardIsBlank(inputs: seq<Input>, vehicleId: string)
    requires SilentFrom(inputs, vehicleId, 0)
    ensures MemoryOf(Exec(inputs), vehicleId) == NEW_VEHICLE
  {
    if inputs != [] {
      SilentStep(inputs, vehicleId, 0);
      UnheardIsBlank(inputs[..|inputs| - 1], vehicleId);
    }
  }

  /** The run with every delivery that was not accepted left out. */
  function Effective(inputs: seq<Input>): seq<Input> {
    if inputs == [] then []
    else
      var init, i := inputs[..|inputs| - 1], inputs[|inputs| - 1];
      if i.Deliver? && !TakesEffect(Exec(init), i) then Effective(init) else Effective(init) + [i]
  }

  /** Duplicate, late and failed deliveries leave no trace in cursors, ledger, rows or memory. */
  lemma {:induction false} RefusedDeliveriesLeaveNoTrace(inputs: seq<Input>)
    ensures Exec(Effective(inputs)) == Exec(inputs)
  {
    if inputs != [] {
      var init, i := inputs[..|inputs| - 1], inputs[|inputs| - 1];
      RefusedDeliveriesLeaveNoTrace(init);
      if !(i.Deliver? && !TakesEffect(Exec(init), i)) {
        assert Effective(inputs)[..|Effective(inputs)| - 1] == Effective(init);
      }
    }
  }

  // ---------- the projection written out ----------

  /** The nearest multiple of a hundredth, halves away from zero. */
  lemma Round2IsNearest(x: real) returns (n: int)
    ensures Round2(x) == n as real / 100.0
    ensures x >= 0.0 ==> -0.005 < Round2(x) - x <= 0.005
    ensures x < 0.0 ==> -0.005 <= Round2(x) - x < 0.005
  {
    n := if x >= 0.0 then (x * 100.0 + 0.5).Floor else -(-x * 100.0 + 0.5).Floor;
  }

  lemma GearShortTable(g: string)
    ensures GearShort("GEAR_DRIVE") == "D" && GearShort("GEAR_NEUTRAL") == "N"
    ensures GearShort("GEAR_REVERSE") == "R" && GearShort("GEAR_PARK") == "P"
    ensures g !in {"GEAR_DRIVE", "GEAR_NEUTRAL", "GEAR_REVERSE", "GEAR_PARK"} ==> GearShort(g) == g
  {
  }

  /** When a delivery is accepted. */
  lemma TakesEffectIff(p: Projection, i: Input)
    requires i.Deliver?
    ensures var k := Ingest.Key(i.vehicleId, i.gatewayId, i.messageType, i.sessionId);
      TakesEffect(p, i) <==>
        && |i.sigs| > 0 && i.committed && i.vehicleId in p.fleet
        && Ingest.Claim(p.registry, k, i.sequence, i.now).1 == Ingest.Accepted
    ensures TakesEffect(p, i) ==>
      var k := Ingest.Key(i.vehicleId, i.gatewayId, i.messageType, i.sessionId);
      Step(p, i).registry == Ingest.Claim(p.registry, k, i.sequence, i.now).0
  {
  }

  lemma NumIs(sigs: seq<Signal>, f: NumField)
    ensures f in NumsView(sigs) <==> LastNum(sigs, Number(f)).Some?
    ensures f in NumsView(sigs) ==> NumsView(sigs)[f] == LastNum(sigs, Number(f)).value
  {
    OnlyReported(sigs, Number(f));
  }

  lemma TextIs(sigs: seq<Signal>, f: TextField)
    ensures f in TextsView(sigs) <==> LastText(sigs, Text(f)).Some?
    ensures f in TextsView(sigs) ==> TextsView(sigs)[f] == TextOf(f, LastText(sigs, Text(f)).value)
  {
    OnlyReported(sigs, Text(f));
  }

  /** The last reported number, or zero. */
  function LastOr0(sigs: seq<Signal>, f: NumField): real {
    var x := LastNum(sigs, Number(f));
    if x.Some? then x.value else 0.0
  }

  /** The last reported text, unless there is none or it is empty. */
  function LastOrNull(sigs: seq<Signal>, f: TextField): Option<string> {
    var x := LastText(sigs, Text(f));
    if x.Some? && x.value != "" then Some(if f == Gear then GearShort(x.value) else x.value) else None
  }

  lemma NumbersAre(v: Vehicle, sigs: seq<Signal>, f: NumField)
    requires IsViewOf(v, sigs)
    ensures Num(v, f) == LastOr0(sigs, f)
  {
    NumIs(sigs, f);
  }

  lemma TextsAre(v: Vehicle, sigs: seq<Signal>, f: TextField)
    requires IsViewOf(v, sigs)
    ensures Nullable(v, f) == LastOrNull(sigs, f)
  {
    TextIs(sigs, f);
    GearsStay(if LastText(sigs, Text(f)).Some? then LastText(sigs, Text(f)).value else "");
  }

  lemma GearsStay(g: string)
    ensures GearShort(g) == "" <==> g == ""
  {
  }

  /** Once a pose flag was reported it counts; before that a pose is valid when all its coordinates were. */
  predicate PoseKnown(sigs: seq<Signal>) {
    var flag := LastNum(sigs, PoseValid);
    if flag.Some? then flag.value > 0.5
    else
      && LastNum(sigs, Number(PoseX)).Some? && LastNum(sigs, Number(PoseY)).Some?
      && LastNum(sigs, Number(PoseYaw)).Some?
  }

  lemma PoseIs(v: Vehicle, sigs: seq<Signal>)
    requires IsViewOf(v, sigs)
    ensures v.poseValid <==> PoseKnown(sigs)
  {
    NumIs(sigs, PoseX);
    NumIs(sigs, PoseY);
    NumIs(sigs, PoseYaw);
  }

  /** After any run the stored row shows, field by field, the last value the accepted signals reported. */
  lemma StoredRowShowsLastSignals(inputs: seq<Input>, vehicleId: string)
    requires vehicleId in Exec(inputs).rows
    ensures var sigs, row := AcceptedSignals(inputs, vehicleId), Exec(inputs).rows[vehicleId];
      && row.online && row.updatedAt == MemoryOf(Exec(inputs), vehicleId).lastSeen
      && row.speed == LastOr0(sigs, Speed) && row.soc == LastOr0(sigs, StateOfCharge)
      && row.voltage == LastOr0(sigs, Voltage) && row.steer == LastOr0(sigs, SteeringAngle)
      && row.mode == LastOrNull(sigs, Mode) && row.gear == LastOrNull(sigs, Gear)
      && row.frame == LastOrNull(sigs, PoseFrame)
      && row.gps == (if LastNum(sigs, GpsFix).Some? && LastNum(sigs, GpsFix).value > 0.5
                     then Some((LastOr0(sigs, GpsLat), LastOr0(sigs, GpsLon), LastOr0(sigs, GpsAlt))) else None)
      && row.pose == (if PoseKnown(sigs)
                      then Some((LastOr0(sigs, PoseX), LastOr0(sigs, PoseY), LastOr0(sigs, PoseYaw))) else None)
  {
    MemoryIsViewOfAccepted(inputs, vehicleId);
    var sigs, v := AcceptedSignals(inputs, vehicleId), MemoryOf(Exec(inputs), vehicleId);
    forall f ensures Num(v, f) == LastOr0(sigs, f) {
      NumbersAre(v, sigs, f);
    }
    forall f ensures Nullable(v, f) == LastOrNull(sigs, f) {
      TextsAre(v, sigs, f);
    }
    PoseIs(v, sigs);
    RowFieldByField(v);
  }

  lemma RowFieldByField(v: Vehicle)
    ensures var r := RowOf(v.(online := true));
      && r.online && r.updatedAt == v.lastSeen
      && r.speed == Num(v, Speed) && r.soc == Num(v, StateOfCharge) && r.voltage == Num(v, Voltage)
      && r.steer == Num(v, SteeringAngle)
      && r.mode == Nullable(v, Mode) && r.gear == Nullable(v, Gear) && r.frame == Nullable(v, PoseFrame)
      && r.gps == (if v.gpsFix then Some((Num(v, GpsLat), Num(v, GpsLon), Num(v, GpsAlt))) else None)
      && r.pose == (if v.poseValid then Some((Num(v, PoseX), Num(v, PoseY), Num(v, PoseYaw))) else None)
  {
  }

  lemma SuffixIs<T>(s: seq<T>, n: nat)
    ensures |Suffix(s, n)| == if |s| < n then |s| else n
    ensures Suffix(s, n) == s[|s| - |Suffix(s, n)|..]
  {
  }

  lemma HistoryIs(v: Vehicle, sigs: seq<Signal>, f: NumField)
    requires IsViewOf(v, sigs)
    ensures f in v.hists <==> f == Speed || f == Throttle || f == Brake || f == Accel
    ensures f in v.hists ==> v.hists[f] == Suffix(FullHistory(sigs, f), 150)
  {
    assert v.hists == HistsView(sigs, HISTORIES);
  }

  /** After any run each history is the last 150 samples of the whole one, and exactly four fields have one. */
  lemma HistoriesAreLast150(inputs: seq<Input>, vehicleId: string, f: NumField)
    ensures var h := MemoryOf(Exec(inputs), vehicleId).hists;
      f in h <==> f == Speed || f == Throttle || f == Brake || f == Accel
    ensures var h := MemoryOf(Exec(inputs), vehicleId).hists;
      f in h ==>
        var full := FullHistory(AcceptedSignals(inputs, vehicleId), f);
        |h[f]| == (if |full| < 150 then |full| else 150) && h[f] == full[|full| - |h[f]|..]
  {
    MemoryIsViewOfAccepted(inputs, vehicleId);
    HistoryIs(MemoryOf(Exec(inputs), vehicleId), AcceptedSignals(inputs, vehicleId), f);
    SuffixIs(FullHistory(AcceptedSignals(inputs, vehicleId), f), 150);
  }
}
