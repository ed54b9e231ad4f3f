/** Length-prefixed frames on the vehicle's local sockets: the gateway's stream reader and the arbiter's codec. */
module Framing {
  import opened Prelude

  type byte = n: int | 0 <= n < 256
  type bytes = seq<byte>

  const HEADER: nat := 4
  const MAX_MSG_BYTES: nat := 1024 * 1024
  const MAX_ACTUATOR_BYTES: nat := 64 * 1024

  // ---------- big-endian lengths ----------

  function PackLength(n: nat): (h: bytes)
    requires n < 0x1_0000_0000
    ensures |h| == HEADER
  {
    [n / 0x100_0000, n / 0x1_0000 % 0x100, n / 0x100 % 0x100, n % 0x100]
  }

  function UnpackLength(h: bytes): (n: nat)
    requires |h| >= HEADER
    ensures n < 0x1_0000_0000
  {
    var a: int, b: int, c: int, d: int := h[0], h[1], h[2], h[3];
    a * 0x100_0000 + b * 0x1_0000 + c * 0x100 + d
  }

  /** Most significant byte first. */
  lemma LengthIsBigEndian(a: byte, b: byte, c: byte, d: byte)
    ensures UnpackLength([a, b, c, d]) == ((a as int * 256 + b as int) * 256 + c as int) * 256 + d as int
    ensures PackLength(((a as int * 256 + b as int) * 256 + c as int) * 256 + d as int) == [a, b, c, d]
  {
    PackUnpack([a, b, c, d]);
  }

  lemma UnpackPack(n: nat)
    requires n < 0x1_0000_0000
    ensures UnpackLength(PackLength(n)) == n
  {
    var q1, q2, q3 := n / 0x100, n / 0x1_0000, n / 0x100_0000;
    assert q2 == q1 / 0x100 && q3 == q2 / 0x100;
  }

  lemma PackUnpack(h: bytes)
    requires |h| >= HEADER
    ensures PackLength(UnpackLength(h)) == h[..HEADER]
  {
    var n := UnpackLength(h);
    var a: int, b: int, c: int := h[0], h[1], h[2];
    assert n / 0x100 == a * 0x1_0000 + b * 0x100 + c;
    assert n / 0x1_0000 == a * 0x100 + b;
    assert n / 0x100_0000 == a;
  }

  // ---------- frames ----------

  predicate Sendable(raw: bytes) {
    0 < |raw| <= MAX_MSG_BYTES
  }

  function Encode(raw: bytes): (f: bytes)
    requires Sendable(raw)
    ensures |f| == HEADER + |raw| && f[HEADER..] == raw && UnpackLength(f) == |raw|
  {
    UnpackPack(|raw|);
    PackLength(|raw|) + raw
  }

  predicate AllSendable(payloads: seq<bytes>) {
    forall i :: 0 <= i < |payloads| ==> Sendable(payloads[i])
  }

  function EncodeAll(payloads: seq<bytes>): bytes
    requires AllSendable(payloads)
  {
    if payloads == [] then [] else Encode(payloads[0]) + EncodeAll(payloads[1..])
  }

  // ---------- what the gateway's buffer loop computes ----------

  /** Payloads taken out of the buffer, the bytes left in it, and whether the connection is still read. */
  datatype Parse = Parse(payloads: seq<bytes>, rest: bytes, open: bool)

  predicate BadHeader(buf: bytes) {
    |buf| >= HEADER && (UnpackLength(buf) == 0 || UnpackLength(buf) > MAX_MSG_BYTES)
  }

  predicate HasFrame(buf: bytes) {
    |buf| >= HEADER && !BadHeader(buf) && |buf| >= HEADER + UnpackLength(buf)
  }

  function Payload(buf: bytes): (raw: bytes)
    requires HasFrame(buf)
    ensures Sendable(raw) && |raw| == UnpackLength(buf)
  {
    buf[HEADER..HEADER + UnpackLength(buf)]
  }

  function AfterFrame(buf: bytes): (rest: bytes)
    requires HasFrame(buf)
    ensures |rest| < |buf|
  {
    buf[HEADER + UnpackLength(buf)..]
  }

  /** The limits in numbers: a frame carries 1 byte to 1 MiB, and the reader stops at any other length. */
  lemma FrameLimits(raw: bytes, a: byte, b: byte, c: byte, d: byte, rest: bytes)
    ensures Sendable(raw) <==> 1 <= |raw| <= 1_048_576
    ensures var n := ((a as int * 256 + b as int) * 256 + c as int) * 256 + d as int;
      && (BadHeader([a, b, c, d] + rest) <==> n == 0 || n > 1_048_576)
      && (HasFrame([a, b, c, d] + rest) <==> 1 <= n <= 1_048_576 && n <= |rest|)
      && (HasFrame([a, b, c, d] + rest) ==>
            Payload([a, b, c, d] + rest) == rest[..n] && AfterFrame([a, b, c, d] + rest) == rest[n..])
  {
    var buf := [a, b, c, d] + rest;
    assert UnpackLength(buf) == ((a as int * 256 + b as int) * 256 + c as int) * 256 + d as int;
    assert buf[HEADER..] == rest;
  }

  /** `refuses` says at which payloads the gateway stops reading (wrong protocol, role or peer). */
  function Extract(buf: bytes, refuses: bytes -> bool): Parse
    decreases |buf|
  {
    if !HasFrame(buf) then Parse([], buf, !BadHeader(buf))
    else if refuses(Payload(buf)) then Parse([Payload(buf)], AfterFrame(buf), false)
    else
      var p := Extract(AfterFrame(buf), refuses);
      p.(payloads := [Payload(buf)] + p.payloads)
  }

  /** The connection's reader thread. */
  class ComponentReader {
    const refuses: bytes -> bool
    var buf: bytes
    var received: seq<bytes>
    var open: bool

    constructor (refuses: bytes -> bool)
      ensures this.refuses == refuses && Contents() == Parse([], [], true)
    {
      this.refuses := refuses;
      buf, received, open := [], [], true;
    }

    ghost function Contents(): Parse
      reads this
    {
      Parse(received, buf, open)
    }

    /** One receive: extend the buffer, then take out every complete frame. */
    method Receive(data: bytes)
      modifies this
      ensures Contents() == Feed(old(Contents()), data, refuses)
    {
      if !open {
        return;
      }
      buf := buf + data;
      ghost var goal := Feed(old(Contents()), data, refuses);
      while |buf| >= HEADER
        invariant open
        invariant goal == Resume(Contents(), refuses)
        decreases |buf|
      {
        var n := UnpackLength(buf);
        if n == 0 || n > MAX_MSG_BYTES {
          open := false;
          return;
        }
        if |buf| < HEADER + n {
          break;
        }
        var raw := buf[HEADER..HEADER + n];
        ResumeOne(Contents(), refuses);
        buf := buf[HEADER + n..];
        received := received + [raw];
        if refuses(raw) {
          open := false;
          return;
        }
      }
    }
  }

  /** Extraction continued from an open reader. */
  function Resume(s: Parse, refuses: bytes -> bool): Parse {
    var p := Extract(s.rest, refuses);
    p.(payloads := s.payloads + p.payloads)
  }

  function Feed(s: Parse, data: bytes, refuses: bytes -> bool): Parse {
    if s.open then Resume(s.(rest := s.rest + data), refuses) else s
  }

  lemma ResumeOne(s: Parse, refuses: bytes -> bool)
    requires HasFrame(s.rest)
    ensures var t := Parse(s.payloads + [Payload(s.rest)], AfterFrame(s.rest), true);
      Resume(s, refuses) == if refuses(Payload(s.rest)) then t.(open := false) else Resume(t, refuses)
  {
    var p := Extract(AfterFrame(s.rest), refuses);
    assert s.payloads + ([Payload(s.rest)] + p.payloads) == s.payloads + [Payload(s.rest)] + p.payloads;
  }

  // ---------- extraction is the inverse of encoding ----------

  lemma FrameIsEncoded(buf: bytes)
    requires HasFrame(buf)
    ensures buf == Encode(Payload(buf)) + AfterFrame(buf)
  {
    PackUnpack(buf);
    assert buf == buf[..HEADER] + buf[HEADER..HEADER + UnpackLength(buf)] + AfterFrame(buf);
  }

  lemma EncodedIsFrame(raw: bytes, rest: bytes)
    requires Sendable(raw)
    ensures var buf := Encode(raw) + rest; HasFrame(buf) && Payload(buf) == raw && AfterFrame(buf) == rest
  {
    var buf := Encode(raw) + rest;
    assert buf[0] == Encode(raw)[0] && buf[1] == Encode(raw)[1] && buf[2] == Encode(raw)[2] && buf[3] == Encode(raw)[3];
    assert UnpackLength(buf) == |raw|;
    assert Payload(buf) == Encode(raw)[HEADER..];
  }

  predicate NoneRefused(payloads: seq<bytes>, refuses: bytes -> bool) {
    forall i :: 0 <= i < |payloads| ==> !refuses(payloads[i])
  }

  lemma {:induction false} OpenReaderHoldsNoFrame(buf: bytes, refuses: bytes -> bool)
    ensures var p := Extract(buf, refuses);
      p.open ==> !HasFrame(p.rest) && !BadHeader(p.rest) && NoneRefused(p.payloads, refuses)
    decreases |buf|
  {
    if HasFrame(buf) && !refuses(Payload(buf)) {
      OpenReaderHoldsNoFrame(AfterFrame(buf), refuses);
    }
  }

  lemma EncodeAllCons(raw: bytes, payloads: seq<bytes>, tail: bytes)
    requires Sendable(raw) && AllSendable(payloads)
    ensures AllSendable([raw] + payloads)
    ensures EncodeAll([raw] + payloads) + tail == Encode(raw) + (EncodeAll(payloads) + tail)
  {
    assert ([raw] + payloads)[1..] == payloads;
  }

  /** Whatever bytes arrive, they are the encodings of the payloads handed over followed by the retained bytes. */
  lemma {:induction false} ExtractAccountsForEveryByte(buf: bytes, refuses: bytes -> bool)
    ensures AllSendable(Extract(buf, refuses).payloads)
    ensures buf == EncodeAll(Extract(buf, refuses).payloads) + Extract(buf, refuses).rest
    decreases |buf|
  {
    if HasFrame(buf) {
      var raw, rest := Payload(buf), AfterFrame(buf);
      var p := if refuses(raw) then Parse([], rest, false) else Extract(rest, refuses);
      if !refuses(raw) {
        ExtractAccountsForEveryByte(rest, refuses);
      }
      EncodeAllCons(raw, p.payloads, p.rest);
      FrameIsEncoded(buf);
      assert Extract(buf, refuses).payloads == [raw] + p.payloads;
    }
  }

  lemma {:induction false} ExtractInvertsEncode(payloads: seq<bytes>, tail: bytes, refuses: bytes -> bool)
    requires AllSendable(payloads) && NoneRefused(payloads, refuses) && !HasFrame(tail)
    ensures Extract(EncodeAll(payloads) + tail, refuses) == Parse(payloads, tail, !BadHeader(tail))
  {
    if payloads == [] {
      assert EncodeAll(payloads) + tail == tail;
    } else {
      var rest := EncodeAll(payloads[1..]) + tail;
      assert EncodeAll(payloads) + tail == Encode(payloads[0]) + rest;
      EncodedIsFrame(payloads[0], rest);
      ExtractInvertsEncode(payloads[1..], tail, refuses);
      assert [payloads[0]] + payloads[1..] == payloads;
    }
  }

  // ---------- chunks ----------

  function Flatten(chunks: seq<bytes>): bytes {
    if chunks == [] then [] else Flatten(chunks[..|chunks| - 1]) + chunks[|chunks| - 1]
  }

  function FeedAll(chunks: seq<bytes>, refuses: bytes -> bool): Parse {
    if chunks == [] then Parse([], [], true)
    else Feed(FeedAll(chunks[..|chunks| - 1], refuses), chunks[|chunks| - 1], refuses)
  }

  predicate Continues(p: Parse, data: bytes, q: Parse, refuses: bytes -> bool) {
    q == if p.open then Resume(p.(rest := p.rest + data), refuses) else p.(rest := p.rest + data)
  }

  lemma FrameStaysFirst(buf: bytes, data: bytes)
    requires HasFrame(buf)
    ensures HasFrame(buf + data)
    ensures Payload(buf + data) == Payload(buf) && AfterFrame(buf + data) == AfterFrame(buf) + data
  {
    assert UnpackLength(buf + data) == UnpackLength(buf);
  }

  function Prepend(raw: bytes, p: Parse): Parse {
    p.(payloads := [raw] + p.payloads)
  }

  lemma ContinuesAfter(raw: bytes, p: Parse, data: bytes, q: Parse, refuses: bytes -> bool)
    requires Continues(p, data, q, refuses)
    ensures Continues(Prepend(raw, p), data, Prepend(raw, q), refuses)
  {
    var r := Extract(p.rest + data, refuses);
    assert [raw] + (p.payloads + r.payloads) == [raw] + p.payloads + r.payloads;
  }

  lemma {:induction false} ExtractInPieces(buf: bytes, data: bytes, refuses: bytes -> bool)
    ensures Continues(Extract(buf, refuses), data, Extract(buf + data, refuses), refuses)
    decreases |buf|
  {
    if HasFrame(buf) {
      FrameStaysFirst(buf, data);
      if !refuses(Payload(buf)) {
        ExtractInPieces(AfterFrame(buf), data, refuses);
        ContinuesAfter(Payload(buf), Extract(AfterFrame(buf), refuses), data,
                       Extract(AfterFrame(buf) + data, refuses), refuses);
      }
    } else if BadHeader(buf) {
      assert UnpackLength(buf + data) == UnpackLength(buf);
    }
  }

  /** For any bytes at all, how they are cut into receives does not matter. */
  lemma {:induction false} ChunkingIsInvisible(chunks: seq<bytes>, refuses: bytes -> bool)
    ensures var s := FeedAll(chunks, refuses);
      var p := Extract(Flatten(chunks), refuses);
      s.payloads == p.payloads && s.open == p.open && (s.open ==> s.rest == p.rest) && s.rest <= p.rest
  {
    if chunks != [] {
      var init, last := chunks[..|chunks| - 1], chunks[|chunks| - 1];
      ChunkingIsInvisible(init, refuses);
      ExtractInPieces(Flatten(init), last, refuses);
    }
  }

  predicate ProperPrefix(part: bytes, whole: bytes) {
    |part| < |whole| && part == whole[..|part|]
  }

  lemma PartHoldsNoFrame(part: bytes, raw: bytes)
    requires Sendable(raw) && ProperPrefix(part, Encode(raw))
    ensures !HasFrame(part) && !BadHeader(part)
  {
    if |part| >= HEADER {
      assert UnpackLength(part) == UnpackLength(Encode(raw));
    }
  }

  /** Every prefix of a frame stream is whole frames and a proper prefix of the next one. */
  lemma {:induction false} PrefixIsFramesAndPart(payloads: seq<bytes>, n: nat) returns (k: nat, part: bytes)
    requires AllSendable(payloads) && n <= |EncodeAll(payloads)|
    ensures k <= |payloads| && EncodeAll(payloads)[..n] == EncodeAll(payloads[..k]) + part
    ensures part == [] || (k < |payloads| && ProperPrefix(part, Encode(payloads[k])))
  {
    if payloads == [] {
      return 0, [];
    }
    var first := Encode(payloads[0]);
    if n < |first| {
      k, part := 0, first[..n];
      assert EncodeAll(payloads)[..n] == part;
    } else {
      var k', part' := PrefixIsFramesAndPart(payloads[1..], n - |first|);
      k, part := k' + 1, part';
      assert payloads[..k][1..] == payloads[1..][..k'];
      assert EncodeAll(payloads)[..n] == first + EncodeAll(payloads[1..])[..n - |first|];
    }
  }

  /**
   Framing is faithful: whatever prefix of a valid frame stream has arrived, in whatever chunks, the
   reader has handed over exactly the complete payloads, in order, and holds the part of the next frame.
   */
  lemma FramesSurviveChunking(payloads: seq<bytes>, chunks: seq<bytes>, n: nat, refuses: bytes -> bool)
    returns (k: nat, part: bytes)
    requires AllSendable(payloads) && NoneRefused(payloads, refuses)
    requires n <= |EncodeAll(payloads)| && Flatten(chunks) == EncodeAll(payloads)[..n]
    ensures k <= |payloads| && FeedAll(chunks, refuses) == Parse(payloads[..k], part, true)
    ensures part == [] || (k < |payloads| && ProperPrefix(part, Encode(payloads[k])))
    ensures n == |EncodeAll(payloads[..k])| + |part|
    ensures n == |EncodeAll(payloads)| ==> k == |payloads| && part == []
  {
    k, part := PrefixIsFramesAndPart(payloads, n);
    if part != [] {
      PartHoldsNoFrame(part, payloads[k]);
    }
    ExtractInvertsEncode(payloads[..k], part, refuses);
    ChunkingIsInvisible(chunks, refuses);
    AllFramesMeanAll(payloads, k, part);
  }

  lemma {:induction false} AllFramesMeanAll(payloads: seq<bytes>, k: nat, part: bytes)
    requires AllSendable(payloads) && k <= |payloads|
    requires part == [] || (k < |payloads| && ProperPrefix(part, Encode(payloads[k])))
    ensures |EncodeAll(payloads[..k])| + |part| == |EncodeAll(payloads)| ==> k == |payloads| && part == []
  {
    if payloads != [] && k > 0 {
      AllFramesMeanAll(payloads[1..], k - 1, part);
      assert payloads[..k][1..] == payloads[1..][..k - 1];
    }
  }

  // ---------- the arbiter's codec ----------

  /** Fill a fresh buffer in place: length, then payload. None when the size or the protocol is refused. */
  method MarshalLocalFrame(raw: bytes, protocolOk: bool) returns (out: Option<bytes>)
    ensures out == if protocolOk && 1 <= |raw| <= 65_536 then Some(Encode(raw)) else None
  {
    if !protocolOk || |raw| == 0 || |raw| > MAX_ACTUATOR_BYTES {
      return None;
    }
    var buf := new byte[HEADER + |raw|](_ => 0);
    buf[0], buf[1] := |raw| / 0x100_0000, |raw| / 0x1_0000 % 0x100;
    buf[2], buf[3] := |raw| / 0x100 % 0x100, |raw| % 0x100;
    for i := 0 to |raw|
      invariant buf[..HEADER] == PackLength(|raw|)
      invariant buf[HEADER..HEADER + i] == raw[..i]
    {
      buf[HEADER + i] := raw[i];
    }
    assert buf[HEADER..HEADER + |raw|] == raw;
    assert buf[..] == buf[..HEADER] + buf[HEADER..HEADER + |raw|];
    return Some(buf[..]);
  }

  datatype ReadResult = Frame(raw: bytes) | ShortRead | BadLength

  /** The reader's answer and what it leaves unread. */
  function ReadFrame(pending: bytes, max: nat): (ReadResult, bytes) {
    if |pending| < HEADER then (ShortRead, [])
    else
      var n := UnpackLength(pending);
      if n == 0 || n > max then (BadLength, pending[HEADER..])
      else if |pending| < HEADER + n then (ShortRead, [])
      else (Frame(pending[HEADER..HEADER + n]), pending[HEADER + n..])
  }

  class Stream {
    var pending: bytes

    constructor (data: bytes)
      ensures pending == data
    {
      pending := data;
    }

    /** Exactly `n` bytes, or an error after everything there is was consumed. */
    method ReadFull(n: nat) returns (r: Option<bytes>)
      modifies this
      ensures |old(pending)| < n ==> r == None && pending == []
      ensures n <= |old(pending)| ==> r == Some(old(pending)[..n]) && pending == old(pending)[n..]
    {
      if |pending| < n {
        pending := [];
        return None;
      }
      r := Some(pending[..n]);
      pending := pending[n..];
    }

    method ReadLocalFrame(max: nat) returns (r: ReadResult)
      modifies this
      ensures (r, pending) == ReadFrame(old(pending), max)
    {
      var header := ReadFull(HEADER);
      if header.None? {
        return ShortRead;
      }
      var n := UnpackLength(header.value);
      assert n == UnpackLength(old(pending));
      if n == 0 || n > max {
        return BadLength;
      }
      var raw := ReadFull(n);
      if raw.None? {
        return ShortRead;
      }
      assert raw.value == old(pending)[HEADER..HEADER + n];
      return Frame(raw.value);
    }
  }

  /** Reading undoes marshalling exactly when the payload fits the reader's limit, and leaves what follows. */
  lemma ReadInvertsMarshal(raw: bytes, rest: bytes, max: nat)
    requires Sendable(raw)
    ensures ReadFrame(Encode(raw) + rest, max) == (if |raw| <= max then (Frame(raw), rest) else (BadLength, raw + rest))
  {
    EncodedIsFrame(raw, rest);
    assert (Encode(raw) + rest)[HEADER..] == raw + rest;
  }

  /** A cut-off frame is never mistaken for a shorter one. */
  lemma CutFrameIsNotRead(raw: bytes, part: bytes, max: nat)
    requires Sendable(raw) && ProperPrefix(part, Encode(raw))
    ensures !ReadFrame(part, max).0.Frame?
  {
    PartHoldsNoFrame(part, raw);
    if |part| >= HEADER {
      assert UnpackLength(part) == UnpackLength(Encode(raw));
    }
  }
}
