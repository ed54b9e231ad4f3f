/**
 Request admission of the open API: timestamp window, one-use nonces and the sliding-window rate limit. A
 request passes the nonce gate in one critical section and is counted in a later one; the two share no data.
 */
module OpenApi {
  import opened Prelude

  const NONCE_LIFE: int := 600
  const RATE_WINDOW: int := 10 * SECOND

  datatype Signature = Missing | Bad | Good

  /**
   One request. `ts` is None when the header is missing or not a 64-bit number; `arrived` is the clock, in
   seconds, at the timestamp check and `now` the clock once the nonce store is locked; `locked`, `keyKnown`,
   `keyExpired` and `ipAllowed` are the verdicts of the lockout table and the key record.
   */
  datatype Request = Request(
    keyId: string, ts: Option<int>, nonce: string, signature: Signature,
    locked: bool, keyKnown: bool, keyExpired: bool, ipAllowed: bool,
    arrived: int, now: int)

  datatype Verdict = Passed | Locked | AuthFailed | KeyExpired | Replay | RateLimited

  type Nonces = map<string, int>
  type HitTable = map<string, seq<int>>

  // ---------- the timestamp window ----------

  /** Go's subtraction of two int64 values. */
  function SubInt64(x: int, y: int): int {
    var d := x - y;
    if d >= INT64_LIMIT then d - 2 * INT64_LIMIT else if d < -INT64_LIMIT then d + 2 * INT64_LIMIT else d
  }

  predicate InWindow(arrived: int, ts: int, win: int) {
    var d := SubInt64(arrived, ts);
    !(d > win || d < -win)
  }

  /** Wrap-around lets no far-off timestamp in. */
  lemma WindowIsExact(arrived: int, ts: int, win: nat)
    requires -INT64_LIMIT <= ts < INT64_LIMIT && 0 <= arrived < INT64_LIMIT / 2 && win < INT64_LIMIT / 4
    ensures InWindow(arrived, ts, win) <==> ts - win <= arrived <= ts + win
  {
  }

  // ---------- the nonce gate ----------

  function Unexpired(nonces: Nonces, now: int): Nonces {
    map n | n in nonces && nonces[n] > now :: nonces[n]
  }

  predicate Spent(nonces: Nonces, nonce: string, now: int) {
    nonce in nonces && nonces[nonce] > now
  }

  predicate Complete(q: Request) {
    q.keyId != "" && q.ts.Some? && q.nonce != "" && q.signature != Missing
  }

  /** Everything that is checked before the nonce store is consulted. */
  function Early(q: Request, win: nat): Option<Verdict> {
    if q.locked then Some(Locked)
    else if !Complete(q) || !InWindow(q.arrived, q.ts.value, win) then Some(AuthFailed)
    else if !q.keyKnown then Some(AuthFailed)
    else if q.keyExpired then Some(KeyExpired)
    else if !q.ipAllowed then Some(AuthFailed)
    else None
  }

  function SpendNonce(nonces: Nonces, q: Request): Nonces {
    Unexpired(nonces[q.nonce := q.now + NONCE_LIFE], q.now)
  }

  /** A nonce is spent before the signature is looked at, and before the rate limit. */
  function Gate(nonces: Nonces, q: Request, win: nat): (Nonces, Verdict) {
    if Early(q, win).Some? then (nonces, Early(q, win).value)
    else if Spent(nonces, q.nonce, q.now) then (nonces, Replay)
    else (SpendNonce(nonces, q), if q.signature == Bad then AuthFailed else Passed)
  }

  // ---------- the rate limit ----------

  function Kept(hits: seq<int>, cut: int): (r: seq<int>)
    ensures |r| <= |hits|
    ensures forall i :: 0 <= i < |r| ==> r[i] > cut
  {
    if hits == [] then []
    else if hits[|hits| - 1] > cut then Kept(hits[..|hits| - 1], cut) + [hits[|hits| - 1]]
    else Kept(hits[..|hits| - 1], cut)
  }

  lemma KeptNext(hits: seq<int>, i: nat, cut: int)
    requires i < |hits|
    ensures Kept(hits[..i + 1], cut) == if hits[i] > cut then Kept(hits[..i], cut) + [hits[i]] else Kept(hits[..i], cut)
  {
    assert hits[..i + 1][..i] == hits[..i];
  }

  function HitsOf(hits: HitTable, keyId: string): seq<int> {
    if keyId in hits then hits[keyId] else []
  }

  /** What the caller still sees through its old slice once the kept entries were moved to the front. */
  function Compacted(hits: seq<int>, cut: int): (r: seq<int>)
    ensures |r| == |hits|
  {
    Kept(hits, cut) + hits[|Kept(hits, cut)|..]
  }

  predicate UnderLimit(hits: seq<int>, limit: nat, stamp: int) {
    |Kept(hits, stamp - RATE_WINDOW)| < limit
  }

  function HitsAfter(hits: seq<int>, limit: nat, stamp: int): seq<int> {
    if UnderLimit(hits, limit, stamp) then Kept(hits, stamp - RATE_WINDOW) + [stamp]
    else Compacted(hits, stamp - RATE_WINDOW)
  }

  /** `stamp` was read before the lock, so stamps need not come in the order in which they are counted. */
  function CountHit(hits: HitTable, keyId: string, limit: nat, stamp: int): HitTable {
    if UnderLimit(HitsOf(hits, keyId), limit, stamp) || keyId in hits
    then hits[keyId := HitsAfter(HitsOf(hits, keyId), limit, stamp)] else hits
  }

  lemma CountHitIs(hits: HitTable, next: HitTable, keyId: string, limit: nat, stamp: int)
    requires next.Keys == hits.Keys + if UnderLimit(HitsOf(hits, keyId), limit, stamp) then {keyId} else {}
    requires keyId in next ==> next[keyId] == HitsAfter(HitsOf(hits, keyId), limit, stamp)
    requires forall k :: k in next && k != keyId ==> next[k] == hits[k]
    ensures next == CountHit(hits, keyId, limit, stamp)
  {
  }

  lemma FrontAndTail(next: seq<int>, front: seq<int>, was: seq<int>)
    requires |front| <= |next| == |was|
    requires forall k :: 0 <= k < |front| ==> next[k] == front[k]
    requires forall k :: |front| <= k < |next| ==> next[k] == was[k]
    ensures next == front + was[|front|..]
  {
  }

  // ---------- the service ----------

  /** A slice header: the first `len` cells of a backing array. */
  datatype Slice = Slice(buf: array<int>, len: nat)

  class OpenAPI {
    var nonces: Nonces
    var hits: map<string, Slice>

    ghost function Buffers(): set<object>
      reads this
    {
      set k | k in hits :: hits[k].buf
    }

    ghost predicate Valid()
      reads this
    {
      && (forall k :: k in hits ==> hits[k].len <= hits[k].buf.Length)
      && (forall k, l :: k in hits && l in hits && k != l ==> hits[k].buf != hits[l].buf)
    }

    ghost function Hits(k: string): seq<int>
      requires Valid()
      reads this, Buffers()
    {
      if k in hits then hits[k].buf[..hits[k].len] else []
    }

    ghost function Table(): HitTable
      requires Valid()
      reads this, Buffers()
    {
      map k | k in hits :: Hits(k)
    }

    constructor ()
      ensures Valid() && nonces == map[] && Table() == map[]
    {
      nonces, hits := map[], map[];
    }

    /** Store the nonce and delete the expired ones while walking the map. */
    method StoreNonce(nonce: string, now: int)
      modifies this`nonces
      ensures nonces == Unexpired(old(nonces)[nonce := now + NONCE_LIFE], now)
    {
      nonces := nonces[nonce := now + NONCE_LIFE];
      ghost var all := nonces;
      ghost var done: set<string> := {};
      var todo := nonces.Keys;
      while todo != {}
        invariant done !! todo && done + todo == all.Keys
        invariant nonces == map n | n in all && (n in done ==> all[n] > now) :: all[n]
        decreases todo
      {
        var n :| n in todo;
        todo := todo - {n};
        done := done + {n};
        if nonces[n] <= now {
          nonces := nonces - {n};
        }
      }
    }

    /** Move the entries after `cut` to the front of the same array. */
    static method Compact(s: Slice, cut: int) returns (kept: nat)
      requires s.len <= s.buf.Length
      modifies s.buf
      ensures s.buf[..s.len] == Compacted(old(s.buf[..s.len]), cut)
      ensures kept == |Kept(old(s.buf[..s.len]), cut)|
    {
      ghost var was := s.buf[..s.len];
      ghost var front: seq<int> := [];
      kept := 0;
      for i := 0 to s.len
        invariant front == Kept(was[..i], cut) && kept == |front| <= i
        invariant forall k :: 0 <= k < kept ==> s.buf[k] == front[k]
        invariant forall k :: kept <= k < s.len ==> s.buf[k] == was[k]
      {
        KeptNext(was, i, cut);
        if s.buf[i] > cut {
          front := front + [s.buf[i]];
          s.buf[kept] := s.buf[i];
          kept := kept + 1;
        }
      }
      assert was[..s.len] == was;
      FrontAndTail(s.buf[..s.len], front, was);
    }

    static method Append(s: Slice, t: int) returns (r: Slice)
      requires s.len <= s.buf.Length
      modifies s.buf
      ensures r.len == s.len + 1 <= r.buf.Length && r.buf[..r.len] == old(s.buf[..s.len]) + [t]
      ensures r.buf == s.buf || fresh(r.buf)
    {
      var buf := s.buf;
      if s.len == buf.Length {
        buf := new int[2 * s.len + 1];
        forall k | 0 <= k < s.len {
          buf[k] := s.buf[k];
        }
      }
      buf[s.len] := t;
      return Slice(buf, s.len + 1);
    }

    /** Compact in place, then store a longer slice or return with the old slice header still stored. */
    method TakeHit(keyId: string, limit: nat, stamp: int) returns (ok: bool)
      requires Valid()
      modifies this`hits, Buffers()
      ensures Valid() && forall o :: o in Buffers() ==> o in old(Buffers()) || fresh(o)
      ensures ok <==> UnderLimit(old(Hits(keyId)), limit, stamp)
      ensures hits.Keys == old(hits.Keys) + if ok then {keyId} else {}
      ensures keyId in hits ==> Hits(keyId) == HitsAfter(old(Hits(keyId)), limit, stamp)
      ensures forall k :: k in hits && k != keyId ==> Hits(k) == old(Hits(k))
    {
      var s: Slice;
      if keyId in hits {
        s := hits[keyId];
      } else {
        var empty := new int[0];
        s := Slice(empty, 0);
      }
      var kept := Compact(s, stamp - RATE_WINDOW);
      if kept >= limit {
        return false;
      }
      assert s.buf[..s.len][..kept] == s.buf[..kept];
      var r := Append(Slice(s.buf, kept), stamp);
      hits := hits[keyId := r];
      return true;
    }

    method CountRequest(keyId: string, limit: nat, stamp: int) returns (ok: bool)
      requires Valid()
      modifies this`hits, Buffers()
      ensures Valid() && forall o :: o in Buffers() ==> o in old(Buffers()) || fresh(o)
      ensures Table() == CountHit(old(Table()), keyId, limit, stamp)
      ensures ok <==> UnderLimit(HitsOf(old(Table()), keyId), limit, stamp)
    {
      ghost var was := Table();
      assert Hits(keyId) == HitsOf(was, keyId);
      ok := TakeHit(keyId, limit, stamp);
      CountHitIs(was, Table(), keyId, limit, stamp);
    }

    /** One request from end to end, with the configuration values it reads on the way. */
    method Authenticate(q: Request, win: nat, limit: nat, stamp: int) returns (v: Verdict)
      requires Valid()
      modifies this, Buffers()
      ensures Valid() && forall o :: o in Buffers() ==> o in old(Buffers()) || fresh(o)
      ensures var (next, gate) := Gate(old(nonces), q, win);
        && nonces == next
        && (if gate == Passed then
              && Table() == CountHit(old(Table()), q.keyId, limit, stamp)
              && v == if UnderLimit(HitsOf(old(Table()), q.keyId), limit, stamp) then Passed else RateLimited
            else Table() == old(Table()) && v == gate)
    {
      if q.locked {
        return Locked;
      }
      if q.keyId == "" || q.ts.None? || q.nonce == "" || q.signature == Missing {
        return AuthFailed;
      }
      if !InWindow(q.arrived, q.ts.value, win) || !q.keyKnown {
        return AuthFailed;
      }
      if q.keyExpired {
        return KeyExpired;
      }
      if !q.ipAllowed {
        return AuthFailed;
      }
      if q.nonce in nonces && nonces[q.nonce] > q.now {
        return Replay;
      }
      StoreNonce(q.nonce, q.now);
      assert Table() == old(Table());
      if q.signature == Bad {
        return AuthFailed;
      }
      var ok := CountRequest(q.keyId, limit, stamp);
      return if ok then Passed else RateLimited;
    }
  }

  // ---------- runs of the gate ----------

  /** A request with the replay window configured when it is judged, or a restart, which empties the store. */
  datatype Entry = Judge(q: Request, win: nat) | Reboot(at: int)

  function Store(entries: seq<Entry>): Nonces {
    if entries == [] then map[]
    else
      match entries[|entries| - 1]
      case Judge(q, win) => Gate(Store(entries[..|entries| - 1]), q, win).0
      case Reboot(_) => map[]
  }

  predicate LetsPass(entries: seq<Entry>, e: Entry) {
    e.Judge? && Gate(Store(entries), e.q, e.win).1 == Passed
  }

  /** The requests that pass, in order. */
  function Passes(entries: seq<Entry>): seq<Request> {
    if entries == [] then []
    else
      var init, e := entries[..|entries| - 1], entries[|entries| - 1];
      if LetsPass(init, e) then Passes(init) + [e.q] else Passes(init)
  }

  function TimeOf(e: Entry): int {
    if e.Judge? then e.q.now else e.at
  }

  function Clock(entries: seq<Entry>): int {
    if entries == [] then 0 else TimeOf(entries[|entries| - 1])
  }

  /** When the running service came up. */
  function Boot(entries: seq<Entry>): int {
    if entries == [] then 0
    else if entries[|entries| - 1].Reboot? then entries[|entries| - 1].at
    else Boot(entries[..|entries| - 1])
  }

  /** A request that reaches the store at most `stall` seconds after its timestamp was checked. */
  predicate Timely(q: Request, stall: nat) {
    && 0 <= q.arrived <= q.now <= q.arrived + stall && q.arrived < INT64_LIMIT / 2
    && (q.ts.Some? ==> -INT64_LIMIT <= q.ts.value < INT64_LIMIT)
  }

  /** Windows of at most `win` seconds, stalls of at most `stall`, downtimes of at least `down`. */
  datatype Terms = Terms(win: nat, stall: nat, down: nat)

  /** Requests in the order in which they lock the store; one service's requests arrive after it came up. */
  predicate Run(entries: seq<Entry>, t: Terms) {
    entries == [] ||
    var init, e := entries[..|entries| - 1], entries[|entries| - 1];
    && Run(init, t) && Clock(init) <= TimeOf(e)
    && match e
       case Judge(q, win) => Timely(q, t.stall) && win <= t.win && Boot(init) <= q.arrived
       case Reboot(at) => Clock(init) + t.down <= at
  }

  /** The largest window the configuration accepts. */
  const MAX_WINDOW: nat := 3600

  predicate Remembered(nonces: Nonces, q: Request, clock: int) {
    && q.now <= clock
    && (q.now + NONCE_LIFE > clock ==> q.nonce in nonces && nonces[q.nonce] >= q.now + NONCE_LIFE)
  }

  predicate WasInWindow(q: Request, win: nat) {
    q.ts.Some? && q.ts.value - win <= q.arrived <= q.ts.value + win
  }

  /** A pass is remembered by the store, or the service went down after it. */
  predicate Known(entries: seq<Entry>, t: Terms, q: Request) {
    || Remembered(Store(entries), q, Clock(entries))
    || q.now + t.down <= Boot(entries)
  }

  predicate PassInv(entries: seq<Entry>, t: Terms) {
    forall i :: 0 <= i < |Passes(entries)| ==>
      var q := Passes(entries)[i];
      Known(entries, t, q) && q.now <= Clock(entries) && WasInWindow(q, t.win) && Timely(q, t.stall)
  }

  lemma GateRemembers(nonces: Nonces, clock: int, q: Request, win: nat, p: Request)
    requires clock <= q.now && Remembered(nonces, p, clock)
    ensures Remembered(Gate(nonces, q, win).0, p, q.now)
  {
  }

  lemma PassIsRemembered(nonces: Nonces, q: Request, win: nat, t: Terms)
    requires win <= t.win <= MAX_WINDOW && Timely(q, t.stall) && Gate(nonces, q, win).1 == Passed
    ensures Remembered(Gate(nonces, q, win).0, q, q.now) && WasInWindow(q, t.win)
    ensures !Spent(nonces, q.nonce, q.now)
  {
    WindowIsExact(q.arrived, q.ts.value, win);
  }

  lemma StaysKnown(entries: seq<Entry>, t: Terms, p: Request)
    requires entries != [] && Run(entries, t)
    requires Known(entries[..|entries| - 1], t, p) && p.now <= Clock(entries[..|entries| - 1])
    ensures Known(entries, t, p) && p.now <= Clock(entries)
  {
    var init, e := entries[..|entries| - 1], entries[|entries| - 1];
    if e.Judge? && Remembered(Store(init), p, Clock(init)) {
      GateRemembers(Store(init), Clock(init), e.q, e.win, p);
    }
  }

  lemma {:induction false} RunKeepsPassInv(entries: seq<Entry>, t: Terms)
    requires t.win <= MAX_WINDOW && Run(entries, t)
    ensures PassInv(entries, t)
  {
    if entries != [] {
      var init, e := entries[..|entries| - 1], entries[|entries| - 1];
      RunKeepsPassInv(init, t);
      forall i | 0 <= i < |Passes(init)|
        ensures Known(entries, t, Passes(init)[i]) && Passes(init)[i].now <= Clock(entries)
      {
        StaysKnown(entries, t, Passes(init)[i]);
      }
      if LetsPass(init, e) {
        PassIsRemembered(Store(init), e.q, e.win, t);
      }
    }
  }

  predicate SameToken(p: Request, q: Request) {
    p.ts == q.ts && p.nonce == q.nonce
  }

  predicate Unrepeated(passes: seq<Request>) {
    forall i, j :: 0 <= i < j < |passes| ==> !SameToken(passes[i], passes[j])
  }

  /** Nonces outlive the window and downtimes outlast it. */
  predicate Protects(t: Terms) {
    2 * t.win + t.stall < NONCE_LIFE && 2 * t.win < t.down
  }

  lemma KnownTokenIsRefused(entries: seq<Entry>, t: Terms, e: Entry, p: Request)
    requires t.win <= MAX_WINDOW && Protects(t) && e.Judge? && e.win <= t.win && Timely(e.q, t.stall)
    requires Boot(entries) <= e.q.arrived && Clock(entries) <= e.q.now
    requires Known(entries, t, p) && WasInWindow(p, t.win) && Timely(p, t.stall) && SameToken(p, e.q)
    ensures !LetsPass(entries, e)
  {
    if LetsPass(entries, e) {
      PassIsRemembered(Store(entries), e.q, e.win, t);
    }
  }

  /** A timestamp and nonce are good for one pass, whatever the purge deletes and however often the service restarts. */
  lemma {:induction false} NoReplayWhenWindowsAreShort(entries: seq<Entry>, t: Terms)
    requires t.win <= MAX_WINDOW && Run(entries, t) && Protects(t)
    ensures Unrepeated(Passes(entries))
  {
    if entries != [] {
      var init, e := entries[..|entries| - 1], entries[|entries| - 1];
      NoReplayWhenWindowsAreShort(init, t);
      RunKeepsPassInv(init, t);
      if LetsPass(init, e) {
        forall i | 0 <= i < |Passes(init)| ensures !SameToken(Passes(init)[i], e.q) {
          if SameToken(Passes(init)[i], e.q) {
            KnownTokenIsRefused(init, t, e, Passes(init)[i]);
          }
        }
      }
    }
  }

  function BoundaryRequest(ts: int, arrived: int, now: int): Request {
    Request("key", Some(ts), "nonce", Good, false, true, false, true, arrived, now)
  }

  lemma OneMore(entries: seq<Entry>, e: Entry, t: Terms)
    ensures Store(entries + [e]) == if e.Judge? then Gate(Store(entries), e.q, e.win).0 else map[]
    ensures Passes(entries + [e]) == if LetsPass(entries, e) then Passes(entries) + [e.q] else Passes(entries)
    ensures Clock(entries + [e]) == TimeOf(e) && Boot(entries + [e]) == if e.Reboot? then e.at else Boot(entries)
    ensures Run(entries + [e], t) <==>
      && Run(entries, t) && Clock(entries) <= TimeOf(e)
      && match e
         case Judge(q, win) => Timely(q, t.stall) && win <= t.win && Boot(entries) <= q.arrived
         case Reboot(at) => Clock(entries) + t.down <= at
  {
    assert (entries + [e])[..|entries|] == entries;
  }

  function FirstPass(t: Terms): seq<Entry> {
    [] + [Judge(BoundaryRequest(t.win, 0, 0), t.win)]
  }

  lemma FirstPasses(t: Terms)
    requires t.win <= MAX_WINDOW
    ensures var entries := FirstPass(t);
      && Run(entries, t) && Store(entries) == map["nonce" := NONCE_LIFE] && Boot(entries) == 0 && Clock(entries) == 0
      && Passes(entries) == [BoundaryRequest(t.win, 0, 0)]
  {
    OneMore([], Judge(BoundaryRequest(t.win, 0, 0), t.win), t);
    assert Passes([]) + [BoundaryRequest(t.win, 0, 0)] == [BoundaryRequest(t.win, 0, 0)];
  }

  /** The same token passes at both ends of its window: at the default window of 300 s already. */
  lemma ReplayWhenWindowsAreLong(t: Terms) returns (entries: seq<Entry>)
    requires t.win <= MAX_WINDOW && 2 * t.win + t.stall >= NONCE_LIFE
    ensures Run(entries, t) && WithoutReboots(entries) && !Unrepeated(Passes(entries))
  {
    var r := BoundaryRequest(t.win, 2 * t.win, 2 * t.win + t.stall);
    entries := FirstPass(t) + [Judge(r, t.win)];
    FirstPasses(t);
    OneMore(FirstPass(t), Judge(r, t.win), t);
    assert SameToken(Passes(entries)[0], Passes(entries)[1]);
  }

  /** Or after a restart that is over before the token's window is. */
  lemma ReplayWhenDowntimesAreShort(t: Terms) returns (entries: seq<Entry>)
    requires t.win <= MAX_WINDOW && t.down <= 2 * t.win
    ensures Run(entries, t) && !Unrepeated(Passes(entries))
  {
    var r := BoundaryRequest(t.win, t.down, t.down);
    var two := FirstPass(t) + [Reboot(t.down)];
    entries := two + [Judge(r, t.win)];
    FirstPasses(t);
    OneMore(FirstPass(t), Reboot(t.down), t);
    OneMore(two, Judge(r, t.win), t);
    assert SameToken(Passes(entries)[0], Passes(entries)[1]);
  }

  /**
   The replay protection holds in every run exactly when twice the window and the stall stay under 600 s and
   no restart is over within twice the window.
   */
  lemma NoReplayIff(t: Terms)
    requires t.win <= MAX_WINDOW
    ensures (forall entries :: Run(entries, t) ==> Unrepeated(Passes(entries))) <==> Protects(t)
  {
    if Protects(t) {
      forall entries | Run(entries, t) ensures Unrepeated(Passes(entries)) {
        NoReplayWhenWindowsAreShort(entries, t);
      }
    } else if 2 * t.win + t.stall >= NONCE_LIFE {
      var entries := ReplayWhenWindowsAreLong(t);
    } else {
      var entries := ReplayWhenDowntimesAreShort(t);
    }
  }

  predicate WithoutReboots(entries: seq<Entry>) {
    forall i :: 0 <= i < |entries| ==> entries[i].Judge?
  }

  lemma {:induction false} DowntimeIsMoot(entries: seq<Entry>, t: Terms, down: nat)
    requires Run(entries, t) && WithoutReboots(entries)
    ensures Run(entries, t.(down := down))
  {
    if entries != [] {
      DowntimeIsMoot(entries[..|entries| - 1], t, down);
    }
  }

  /** While the service stays up, twice the window and the stall under 600 s are exactly what it takes. */
  lemma NoReplayWhileUpIff(t: Terms)
    requires t.win <= MAX_WINDOW
    ensures (forall entries :: Run(entries, t) && WithoutReboots(entries) ==> Unrepeated(Passes(entries)))
            <==> 2 * t.win + t.stall < NONCE_LIFE
  {
    if 2 * t.win + t.stall < NONCE_LIFE {
      forall entries | Run(entries, t) && WithoutReboots(entries) ensures Unrepeated(Passes(entries)) {
        var long := t.(down := 2 * t.win + 1);
        DowntimeIsMoot(entries, t, long.down);
        NoReplayWhenWindowsAreShort(entries, long);
      }
    } else {
      var entries := ReplayWhenWindowsAreLong(t);
    }
  }

  // ---------- who passes ----------

  /** A timestamp as the header can carry it, and a clock reading of this millennium. */
  predicate Sane(q: Request) {
    && (q.ts.Some? ==> -INT64_LIMIT <= q.ts.value < INT64_LIMIT)
    && 0 <= q.arrived < INT64_LIMIT / 2
  }

  /** Everything asked of a request besides its nonce and its signature's truth. */
  predicate Presented(q: Request, win: nat) {
    && !q.locked && q.keyId != "" && q.nonce != "" && q.ts.Some? && q.signature != Missing
    && q.ts.value - win <= q.arrived <= q.ts.value + win
    && q.keyKnown && !q.keyExpired && q.ipAllowed
  }

  lemma EarlyIs(q: Request, win: nat)
    requires Sane(q) && win <= MAX_WINDOW
    ensures Early(q, win).None? <==> Presented(q, win)
  {
    if q.ts.Some? {
      WindowIsExact(q.arrived, q.ts.value, win);
    }
  }

  /** The gate's answers, in the order of the checks. */
  lemma GateVerdict(nonces: Nonces, q: Request, win: nat)
    requires Sane(q) && win <= MAX_WINDOW
    ensures Gate(nonces, q, win).1 ==
      if q.locked then Locked
      else if q.keyId == "" || q.nonce == "" || q.ts.None? || q.signature == Missing then AuthFailed
      else if q.arrived < q.ts.value - win || q.ts.value + win < q.arrived || !q.keyKnown then AuthFailed
      else if q.keyExpired then KeyExpired
      else if !q.ipAllowed then AuthFailed
      else if q.nonce in nonces && q.now < nonces[q.nonce] then Replay
      else if q.signature == Good then Passed else AuthFailed
  {
    if q.ts.Some? {
      WindowIsExact(q.arrived, q.ts.value, win);
    }
  }

  /** In this life of the service a presented request used the nonce less than 600 s before `now`. */
  predicate UsedWithin(entries: seq<Entry>, nonce: string, now: int) {
    entries != [] &&
    var init, e := entries[..|entries| - 1], entries[|entries| - 1];
    && e.Judge?
    && (UsedWithin(init, nonce, now) ||
        (e.q.nonce == nonce && now < e.q.now + 600 && Presented(e.q, e.win) && !UsedWithin(init, e.q.nonce, e.q.now)))
  }

  lemma GateSpends(nonces: Nonces, q: Request, win: nat, nonce: string, now: int)
    requires Sane(q) && win <= MAX_WINDOW && q.now <= now
    ensures Spent(Gate(nonces, q, win).0, nonce, now) <==>
      Spent(nonces, nonce, now)
      || (q.nonce == nonce && now < q.now + 600 && Presented(q, win) && !Spent(nonces, q.nonce, q.now))
  {
    EarlyIs(q, win);
  }

  lemma {:induction false} StoreRemembers(entries: seq<Entry>, t: Terms, nonce: string, now: int)
    requires t.win <= MAX_WINDOW && Run(entries, t) && Clock(entries) <= now
    ensures Spent(Store(entries), nonce, now) <==> UsedWithin(entries, nonce, now)
  {
    if entries != [] {
      var init, e := entries[..|entries| - 1], entries[|entries| - 1];
      if e.Judge? {
        StoreRemembers(init, t, nonce, now);
        StoreRemembers(init, t, e.q.nonce, e.q.now);
        GateSpends(Store(init), e.q, e.win, nonce, now);
      }
    }
  }

  /**
   At every point of every run a request passes if and only if it is presented in full, in time, with a live key
   from an allowed address, its nonce was not used in the last 600 s of this life of the service, and it is
   truly signed.
   */
  lemma PassesIff(entries: seq<Entry>, t: Terms, e: Entry)
    requires t.win <= MAX_WINDOW && Run(entries + [e], t) && e.Judge?
    ensures LetsPass(entries, e) <==>
      Presented(e.q, e.win) && !UsedWithin(entries, e.q.nonce, e.q.now) && e.q.signature == Good
  {
    OneMore(entries, e, t);
    StoreRemembers(entries, t, e.q.nonce, e.q.now);
    GateVerdict(Store(entries), e.q, e.win);
  }

  /** Whatever passes, in any run, was truly signed with a live key from an allowed address. */
  lemma {:induction false} PassesAreGenuine(entries: seq<Entry>, i: nat)
    requires i < |Passes(entries)|
    ensures var q := Passes(entries)[i];
      q.signature == Good && q.keyKnown && !q.keyExpired && q.ipAllowed && !q.locked && q.keyId != "" && q.nonce != ""
  {
    var init := entries[..|entries| - 1];
    if i < |Passes(init)| {
      PassesAreGenuine(init, i);
    }
  }

  // ---------- the compaction ----------

  lemma {:induction false} KeptOf(a: seq<int>, b: seq<int>, cut: int)
    ensures Kept(a + b, cut) == Kept(a, cut) + Kept(b, cut)
  {
    if b == [] {
      assert a + b == a;
    } else {
      KeptOf(a, b[..|b| - 1], cut);
      assert (a + b)[..|a + b| - 1] == a + b[..|b| - 1];
    }
  }

  lemma {:induction false} KeptAll(hits: seq<int>, cut: int)
    requires |Kept(hits, cut)| == |hits| || forall i :: 0 <= i < |hits| ==> hits[i] > cut
    ensures Kept(hits, cut) == hits
  {
    if hits != [] {
      KeptAll(hits[..|hits| - 1], cut);
    }
  }

  lemma {:induction false} KeptNone(hits: seq<int>, cut: int)
    ensures Kept(hits, cut) == [] <==> forall i :: 0 <= i < |hits| ==> hits[i] <= cut
  {
    if hits != [] {
      KeptNone(hits[..|hits| - 1], cut);
    }
  }

  /** No entry that goes stands before one that stays. */
  predicate StaleLast(hits: seq<int>, cut: int) {
    forall i, j :: 0 <= i < j < |hits| && hits[j] > cut ==> hits[i] > cut
  }

  lemma {:induction false} StaleLastKept(hits: seq<int>, cut: int)
    requires StaleLast(hits, cut)
    ensures Kept(hits, cut) == hits[..|Kept(hits, cut)|]
  {
    if hits != [] {
      var init := hits[..|hits| - 1];
      StaleLastKept(init, cut);
      if hits[|hits| - 1] > cut {
        KeptAll(init, cut);
      }
    }
  }

  lemma KeptFrontIsStaleLast(a: seq<int>, b: seq<int>, cut: int)
    requires Kept(a + b, cut) == a
    ensures StaleLast(a + b, cut)
  {
    KeptOf(a, b, cut);
    assert |Kept(a, cut)| + |Kept(b, cut)| == |a|;
    forall i | 0 <= i < |a| ensures a[i] > cut {
      assert a[i] == Kept(a + b, cut)[i];
    }
    KeptAll(a, cut);
    KeptNone(b, cut);
  }

  /**
   Exactly when a rejection leaves the stored list alone, in whatever order its stamps are: when no entry
   outside the window stands before one inside it.
   */
  lemma RejectionKeepsHitsIff(hits: seq<int>, limit: nat, stamp: int)
    requires !UnderLimit(hits, limit, stamp)
    ensures HitsAfter(hits, limit, stamp) == hits <==> StaleLast(hits, stamp - RATE_WINDOW)
  {
    var cut := stamp - RATE_WINDOW;
    var n := |Kept(hits, cut)|;
    assert hits == hits[..n] + hits[n..];
    if HitsAfter(hits, limit, stamp) == hits {
      assert Kept(hits, cut) == HitsAfter(hits, limit, stamp)[..n];
      KeptFrontIsStaleLast(hits[..n], hits[n..], cut);
    }
    if StaleLast(hits, cut) {
      StaleLastKept(hits, cut);
    }
  }

  /** While the list is no longer than the limit, no rejection changes it and no admission outgrows it. */
  lemma FixedLimitNeverCorrupts(hits: seq<int>, limit: nat, stamp: int)
    requires |hits| <= limit
    ensures |HitsAfter(hits, limit, stamp)| <= limit
    ensures !UnderLimit(hits, limit, stamp) ==> HitsAfter(hits, limit, stamp) == hits
  {
    if !UnderLimit(hits, limit, stamp) {
      KeptAll(hits, stamp - RATE_WINDOW);
    }
  }

  // ---------- runs of the limiter ----------

  /** One counting, in the order in which the table is locked, with the limit configured then. */
  datatype Hit = Hit(keyId: string, stamp: int, limit: nat)

  function Table(calls: seq<Hit>): HitTable {
    if calls == [] then map[]
    else
      var h := calls[|calls| - 1];
      CountHit(Table(calls[..|calls| - 1]), h.keyId, h.limit, h.stamp)
  }

  predicate Admits(calls: seq<Hit>, h: Hit) {
    UnderLimit(HitsOf(Table(calls), h.keyId), h.limit, h.stamp)
  }

  /** The stamps of a key's admitted requests, in the order in which they were counted. */
  function Times(calls: seq<Hit>, k: string): seq<int> {
    if calls == [] then []
    else
      var init, h := calls[..|calls| - 1], calls[|calls| - 1];
      if h.keyId == k && Admits(init, h) then Times(init, k) + [h.stamp] else Times(init, k)
  }

  predicate NoneAbove(calls: seq<Hit>, k: string, bound: int) {
    forall i :: 0 <= i < |calls| && calls[i].keyId == k ==> calls[i].stamp <= bound
  }

  /** Limits of at most `limit`, and no stamp of the key more than `lag` behind one that was counted before it. */
  predicate Lagging(calls: seq<Hit>, k: string, limit: nat, lag: nat) {
    forall i :: 0 <= i < |calls| && calls[i].keyId == k ==>
      calls[i].limit <= limit && NoneAbove(calls[..i], k, calls[i].stamp + lag)
  }

  lemma {:induction false} KeptTwice(hits: seq<int>, a: int, b: int)
    requires a <= b
    ensures Kept(Kept(hits, a), b) == Kept(hits, b) && |Kept(hits, b)| <= |Kept(hits, a)|
  {
    if hits != [] {
      var init, last := hits[..|hits| - 1], hits[|hits| - 1];
      KeptTwice(init, a, b);
      if last > a {
        var longer := Kept(init, a) + [last];
        assert longer[..|longer| - 1] == Kept(init, a);
      }
    }
  }

  /** Counting never loses sight of a hit inside the window of its own stamp. */
  lemma CountingRetains(hits: seq<int>, limit: nat, stamp: int, cut: int)
    requires stamp - RATE_WINDOW <= cut
    ensures |Kept(HitsAfter(hits, limit, stamp), cut)| >=
      |Kept(hits, cut)| + if UnderLimit(hits, limit, stamp) && stamp > cut then 1 else 0
  {
    var kept := Kept(hits, stamp - RATE_WINDOW);
    KeptTwice(hits, stamp - RATE_WINDOW, cut);
    if UnderLimit(hits, limit, stamp) {
      KeptOf(kept, [stamp], cut);
      KeptOne(stamp, cut);
    } else {
      KeptOf(kept, hits[|kept|..], cut);
    }
  }

  lemma OtherKeyUntouched(calls: seq<Hit>, k: string)
    requires calls != [] && calls[|calls| - 1].keyId != k
    ensures HitsOf(Table(calls), k) == HitsOf(Table(calls[..|calls| - 1]), k)
  {
  }

  /** If every stamp's window starts by `cut`, the table knows at least as many hits after it as were admitted. */
  lemma {:induction false} TableRetains(calls: seq<Hit>, k: string, cut: int)
    requires NoneAbove(calls, k, cut + RATE_WINDOW)
    ensures |Kept(Times(calls, k), cut)| <= |Kept(HitsOf(Table(calls), k), cut)|
  {
    if calls != [] {
      var init, h := calls[..|calls| - 1], calls[|calls| - 1];
      TableRetains(init, k, cut);
      if h.keyId != k {
        OtherKeyUntouched(calls, k);
      } else {
        CountedIs(calls);
        CountingRetains(HitsOf(Table(init), k), h.limit, h.stamp, cut);
        KeptOf(Times(init, k), [h.stamp], cut);
        KeptOne(h.stamp, cut);
      }
    }
  }

  lemma CountedIs(calls: seq<Hit>)
    requires calls != []
    ensures var init, h := calls[..|calls| - 1], calls[|calls| - 1];
      HitsOf(Table(calls), h.keyId) == HitsAfter(HitsOf(Table(init), h.keyId), h.limit, h.stamp)
  {
  }

  /** How many of `times` lie in the `len` nanoseconds that start at `from`. */
  function CountInside(times: seq<int>, from: int, len: int): nat {
    if times == [] then 0
    else
      var last := times[|times| - 1];
      CountInside(times[..|times| - 1], from, len) + if from <= last < from + len then 1 else 0
  }

  lemma {:induction false} InsideIsAbove(times: seq<int>, from: int, len: int)
    ensures CountInside(times, from, len) <= |Kept(times, from - 1)|
  {
    if times != [] {
      InsideIsAbove(times[..|times| - 1], from, len);
    }
  }

  lemma LaggingPrefix(calls: seq<Hit>, k: string, limit: nat, lag: nat)
    requires calls != [] && Lagging(calls, k, limit, lag)
    ensures Lagging(calls[..|calls| - 1], k, limit, lag)
  {
    var init := calls[..|calls| - 1];
    forall i | 0 <= i < |init| && init[i].keyId == k
      ensures init[i].limit <= limit && NoneAbove(init[..i], k, init[i].stamp + lag)
    {
      assert init[i] == calls[i] && init[..i] == calls[..i];
    }
  }

  lemma NoneAboveHigher(calls: seq<Hit>, k: string, a: int, b: int)
    requires NoneAbove(calls, k, a) && a <= b
    ensures NoneAbove(calls, k, b)
  {
  }

  lemma AdmissionHasRoom(init: seq<Hit>, h: Hit, from: int, len: int, lag: nat)
    requires NoneAbove(init, h.keyId, h.stamp + lag) && len + lag <= RATE_WINDOW
    requires from <= h.stamp < from + len && Admits(init, h)
    ensures CountInside(Times(init, h.keyId), from, len) < h.limit
  {
    var times, hits := Times(init, h.keyId), HitsOf(Table(init), h.keyId);
    InsideIsAbove(times, from, len);
    NoneAboveHigher(init, h.keyId, h.stamp + lag, from - 1 + RATE_WINDOW);
    TableRetains(init, h.keyId, from - 1);
    KeptTwice(hits, h.stamp - RATE_WINDOW, from - 1);
    assert |Kept(hits, h.stamp - RATE_WINDOW)| < h.limit;
  }

  /**
   In every run, however limits change below `limit` and stamps are overtaken by at most `lag`, every window
   of ten seconds less the lag holds at most `limit` admissions of a key. With stamps in lock order it is the
   full ten seconds.
   */
  lemma {:induction false} RateIsBounded(calls: seq<Hit>, k: string, limit: nat, lag: nat, from: int, len: int)
    requires Lagging(calls, k, limit, lag) && len + lag <= RATE_WINDOW
    ensures CountInside(Times(calls, k), from, len) <= limit
  {
    if calls != [] {
      var init, h := calls[..|calls| - 1], calls[|calls| - 1];
      LaggingPrefix(calls, k, limit, lag);
      RateIsBounded(init, k, limit, lag, from, len);
      if h.keyId == k && Admits(init, h) && from <= h.stamp < from + len {
        assert calls[|calls| - 1] == h && calls[..|calls| - 1] == init;
        AdmissionHasRoom(init, h, from, len, lag);
      }
    }
  }

  predicate LimitsAtMost(calls: seq<Hit>, k: string, limit: nat) {
    forall i :: 0 <= i < |calls| && calls[i].keyId == k ==> calls[i].limit <= limit
  }

  /** With a limit of one the list is the last admission, and admissions are ten seconds apart. */
  predicate SingleFile(times: seq<int>, hits: seq<int>) {
    && hits == (if times == [] then [] else [times[|times| - 1]])
    && forall i :: 0 < i < |times| ==> times[i - 1] + RATE_WINDOW <= times[i]
  }

  lemma KeptOne(t: int, cut: int)
    ensures Kept([t], cut) == if t > cut then [t] else []
  {
    assert [t][..0] == [];
  }

  lemma CountKeepsSingleFile(times: seq<int>, hits: seq<int>, limit: nat, stamp: int)
    requires SingleFile(times, hits) && limit <= 1
    ensures SingleFile(if UnderLimit(hits, limit, stamp) then times + [stamp] else times, HitsAfter(hits, limit, stamp))
  {
    if times == [] {
      assert HitsAfter(hits, limit, stamp) == if limit == 1 then [stamp] else [];
    } else {
      var last := times[|times| - 1];
      KeptOne(last, stamp - RATE_WINDOW);
      assert HitsAfter(hits, limit, stamp) == if UnderLimit(hits, limit, stamp) then [stamp] else [last];
    }
  }

  lemma {:induction false} RunKeepsSingleFile(calls: seq<Hit>, k: string)
    requires LimitsAtMost(calls, k, 1)
    ensures SingleFile(Times(calls, k), HitsOf(Table(calls), k))
  {
    if calls != [] {
      var init, h := calls[..|calls| - 1], calls[|calls| - 1];
      RunKeepsSingleFile(init, k);
      if h.keyId != k {
        OtherKeyUntouched(calls, k);
      } else {
        CountedIs(calls);
        CountKeepsSingleFile(Times(init, k), HitsOf(Table(init), k), h.limit, h.stamp);
      }
    }
  }

  lemma {:induction false} EarlierIsOutside(times: seq<int>, from: int, len: int)
    requires forall i :: 0 < i < |times| ==> times[i - 1] + RATE_WINDOW <= times[i]
    requires len <= RATE_WINDOW
    ensures CountInside(times, from, len) <= 1
    ensures times != [] && times[|times| - 1] < from ==> CountInside(times, from, len) == 0
  {
    if times != [] {
      EarlierIsOutside(times[..|times| - 1], from, len);
    }
  }

  /** With a limit of one the order of stamps does not matter. */
  lemma LimitOneNeedsNoOrder(calls: seq<Hit>, k: string, from: int, len: int)
    requires LimitsAtMost(calls, k, 1) && len <= RATE_WINDOW
    ensures CountInside(Times(calls, k), from, len) <= 1
  {
    RunKeepsSingleFile(calls, k);
    EarlierIsOutside(Times(calls, k), from, len);
  }

  // The bound is tight: `limit` hits at 0, one at ten seconds that prunes them, one that it overtook.

  const KEY := "key"

  function Burst(n: nat, limit: nat): (calls: seq<Hit>)
    ensures |calls| == n && forall i :: 0 <= i < n ==> calls[i] == Hit(KEY, 0, limit)
  {
    if n == 0 then [] else Burst(n - 1, limit) + [Hit(KEY, 0, limit)]
  }

  function Zeros(n: nat): (zeros: seq<int>)
    ensures |zeros| == n && forall i :: 0 <= i < n ==> zeros[i] == 0
  {
    if n == 0 then [] else Zeros(n - 1) + [0]
  }

  lemma CountOne(calls: seq<Hit>, h: Hit)
    ensures HitsOf(Table(calls + [h]), h.keyId) == HitsAfter(HitsOf(Table(calls), h.keyId), h.limit, h.stamp)
    ensures Times(calls + [h], h.keyId) ==
      if Admits(calls, h) then Times(calls, h.keyId) + [h.stamp] else Times(calls, h.keyId)
  {
    assert (calls + [h])[..|calls|] == calls;
    CountedIs(calls + [h]);
  }

  /** A hit is added behind a list that lies wholly inside its window, or in the place of one wholly outside. */
  lemma CountAdds(calls: seq<Hit>, h: Hit, hits: seq<int>)
    requires HitsOf(Table(calls), h.keyId) == hits && |hits| < h.limit
    requires forall i :: 0 <= i < |hits| ==> hits[i] > h.stamp - RATE_WINDOW
    ensures HitsOf(Table(calls + [h]), h.keyId) == hits + [h.stamp]
    ensures Times(calls + [h], h.keyId) == Times(calls, h.keyId) + [h.stamp]
  {
    KeptAll(hits, h.stamp - RATE_WINDOW);
    CountOne(calls, h);
  }

  lemma CountReplaces(calls: seq<Hit>, h: Hit, hits: seq<int>)
    requires HitsOf(Table(calls), h.keyId) == hits && 0 < h.limit
    requires forall i :: 0 <= i < |hits| ==> hits[i] <= h.stamp - RATE_WINDOW
    ensures HitsOf(Table(calls + [h]), h.keyId) == [h.stamp]
    ensures Times(calls + [h], h.keyId) == Times(calls, h.keyId) + [h.stamp]
  {
    KeptNone(hits, h.stamp - RATE_WINDOW);
    CountOne(calls, h);
  }

  lemma {:induction false} BurstIsAdmitted(n: nat, limit: nat)
    requires n <= limit
    ensures HitsOf(Table(Burst(n, limit)), KEY) == Zeros(n) == Times(Burst(n, limit), KEY)
  {
    if n > 0 {
      BurstIsAdmitted(n - 1, limit);
      CountAdds(Burst(n - 1, limit), Hit(KEY, 0, limit), Zeros(n - 1));
    }
  }

  lemma {:induction false} ZerosInside(zeros: seq<int>, len: int)
    requires 0 < len && forall i :: 0 <= i < |zeros| ==> zeros[i] == 0
    ensures CountInside(zeros, 0, len) == |zeros|
  {
    if zeros != [] {
      ZerosInside(zeros[..|zeros| - 1], len);
    }
  }

  function Overtaken(limit: nat, late: int): seq<Hit> {
    Burst(limit, limit) + [Hit(KEY, RATE_WINDOW, limit)] + [Hit(KEY, late, limit)]
  }

  lemma TenSecondsLater(limit: nat)
    requires 1 <= limit
    ensures var calls := Burst(limit, limit) + [Hit(KEY, RATE_WINDOW, limit)];
      HitsOf(Table(calls), KEY) == [RATE_WINDOW] && Times(calls, KEY) == Zeros(limit) + [RATE_WINDOW]
  {
    BurstIsAdmitted(limit, limit);
    CountReplaces(Burst(limit, limit), Hit(KEY, RATE_WINDOW, limit), Zeros(limit));
  }

  lemma OvertakenIsAdmitted(limit: nat, late: int)
    requires 2 <= limit && 0 <= late <= RATE_WINDOW
    ensures Times(Overtaken(limit, late), KEY) == Zeros(limit) + [RATE_WINDOW] + [late]
  {
    TenSecondsLater(limit);
    KeptOne(RATE_WINDOW, late - RATE_WINDOW);
    CountOne(Burst(limit, limit) + [Hit(KEY, RATE_WINDOW, limit)], Hit(KEY, late, limit));
  }

  lemma OvertakenLags(limit: nat, late: int, lag: nat)
    requires RATE_WINDOW - lag <= late <= RATE_WINDOW && 0 <= late
    ensures Lagging(Overtaken(limit, late), KEY, limit, lag)
  {
    var all := Overtaken(limit, late);
    forall i | 0 <= i < |all| ensures all[i].limit <= limit && NoneAbove(all[..i], KEY, all[i].stamp + lag) {
      forall j | 0 <= j < i ensures all[..i][j].stamp <= all[i].stamp + lag {
        assert all[..i][j] == all[j];
      }
    }
  }

  lemma InsideOf(times: seq<int>, t: int, from: int, len: int)
    ensures CountInside(times + [t], from, len) ==
      CountInside(times, from, len) + if from <= t < from + len then 1 else 0
  {
    assert (times + [t])[..|times|] == times;
  }

  /** For every longer window a run that puts one admission too many into it. */
  lemma OvertakingBreaksLongerWindows(limit: nat, lag: nat, len: int) returns (calls: seq<Hit>)
    requires 2 <= limit && 0 < len && RATE_WINDOW < len + lag
    ensures Lagging(calls, KEY, limit, lag) && CountInside(Times(calls, KEY), 0, len) > limit
  {
    var late := if lag <= RATE_WINDOW then RATE_WINDOW - lag else 0;
    calls := Overtaken(limit, late);
    OvertakenLags(limit, late, lag);
    OvertakenIsAdmitted(limit, late);
    ZerosInside(Zeros(limit), len);
    InsideOf(Zeros(limit), RATE_WINDOW, 0, len);
    InsideOf(Zeros(limit) + [RATE_WINDOW], late, 0, len);
  }

  /** The rate holds in every run, for every window of this length, exactly when the length leaves room for the lag. */
  lemma RateIsBoundedIff(limit: nat, lag: nat, len: int)
    requires 2 <= limit && 0 < len
    ensures (forall calls, from :: Lagging(calls, KEY, limit, lag) ==>
               CountInside(Times(calls, KEY), from, len) <= limit)
            <==> len + lag <= RATE_WINDOW
  {
    if len + lag <= RATE_WINDOW {
      forall calls, from | Lagging(calls, KEY, limit, lag) ensures CountInside(Times(calls, KEY), from, len) <= limit {
        RateIsBounded(calls, KEY, limit, lag, from, len);
      }
    } else {
      var calls := OvertakingBreaksLongerWindows(limit, lag, len);
    }
  }

  function ThreeHits(): seq<Hit> {
    [] + [Hit(KEY, 0, 3)] + [Hit(KEY, 9 * SECOND, 3)] + [Hit(KEY, 9 * SECOND + 1, 3)]
  }

  function ThreeStamps(): seq<int> {
    [0] + ([9 * SECOND] + [9 * SECOND + 1])
  }

  lemma ThreeHitsAreStored()
    ensures HitsOf(Table(ThreeHits()), KEY) == ThreeStamps()
  {
    var none: seq<Hit> := [];
    var one := none + [Hit(KEY, 0, 3)];
    var two := one + [Hit(KEY, 9 * SECOND, 3)];
    CountAdds(none, Hit(KEY, 0, 3), []);
    assert [] + [0] == [0];
    CountAdds(one, Hit(KEY, 9 * SECOND, 3), [0]);
    CountAdds(two, Hit(KEY, 9 * SECOND + 1, 3), [0] + [9 * SECOND]);
    assert [0] + [9 * SECOND] + [9 * SECOND + 1] == ThreeStamps();
  }

  lemma CompactedIs(stale: seq<int>, live: seq<int>, cut: int)
    requires forall i :: 0 <= i < |stale| ==> stale[i] <= cut
    requires forall i :: 0 <= i < |live| ==> live[i] > cut
    ensures Kept(stale + live, cut) == live
    ensures Compacted(stale + live, cut) == live + (stale + live)[|live|..]
  {
    KeptOf(stale, live, cut);
    KeptNone(stale, cut);
    KeptAll(live, cut);
  }

  /** A limit lowered between two requests corrupts the list: one hit is then stored twice. */
  lemma LoweredLimitDuplicatesAHit()
    ensures HitsOf(Table(ThreeHits() + [Hit(KEY, 10 * SECOND, 1)]), KEY) ==
      [9 * SECOND] + [9 * SECOND + 1] + [9 * SECOND + 1]
  {
    var stale, live := [0], [9 * SECOND] + [9 * SECOND + 1];
    ThreeHitsAreStored();
    CompactedIs(stale, live, 0);
    CountOne(ThreeHits(), Hit(KEY, 10 * SECOND, 1));
    assert (stale + live)[2..] == [9 * SECOND + 1];
  }
}
