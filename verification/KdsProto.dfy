/** KWP2000 framing on the K-line: checksums, requests, the response parser and
    the extraction of response data (`kds_proto.rs`). */
module KdsProto {
  import opened Basics

  const ECU_ADDR: U8 := 0x11
  const TESTER_ADDR: U8 := 0xF2
  const SVC_START: U8 := 0x81
  const SVC_START_OK: U8 := 0xC1
  const SVC_SESSION: U8 := 0x10
  const SVC_SESSION_KDS: U8 := 0x80
  const SVC_SESSION_OK: U8 := 0x50
  const SVC_READ: U8 := 0x21
  const SVC_READ_OK: U8 := 0x61
  const MAX_PAYLOAD := 63

  /** Sum of the bytes, wrapping at 256. */
  function Checksum(b: seq<U8>): U8 {
    if b == [] then 0 else (Checksum(b[..|b| - 1]) as int + b[|b| - 1] as int) % 256
  }

  function ByteSum(b: seq<U8>): nat {
    if b == [] then 0 else ByteSum(b[..|b| - 1]) + b[|b| - 1]
  }

  lemma {:induction false} ChecksumIsSum(b: seq<U8>)
    ensures Checksum(b) as int == ByteSum(b) % 256
  {
    if b != [] {
      ChecksumIsSum(b[..|b| - 1]);
      WrapAdd(ByteSum(b[..|b| - 1]), b[|b| - 1]);
    }
  }

  lemma WrapAdd(a: nat, x: U8)
    ensures (a % 256 + x as int) % 256 == (a + x as int) % 256
  {
  }

  lemma {:induction false} ByteSumUpdate(b: seq<U8>, i: nat, x: U8)
    requires i < |b|
    ensures ByteSum(b[i := x]) == ByteSum(b) + x as int - b[i] as int
  {
    var n := |b| - 1;
    if i == n {
      assert b[i := x][..n] == b[..n];
    } else {
      assert b[i := x][..n] == b[..n][i := x];
      ByteSumUpdate(b[..n], i, x);
    }
  }

  lemma WrapMoves(a: nat, c: nat)
    requires a % 256 == c % 256 && -256 < a - c < 256
    ensures a == c
  {
  }

  /** Changing one byte changes the checksum. */
  lemma ChecksumDetects(b: seq<U8>, i: nat, x: U8)
    requires i < |b| && x != b[i]
    ensures Checksum(b[i := x]) != Checksum(b)
  {
    ChecksumIsSum(b);
    ChecksumIsSum(b[i := x]);
    ByteSumUpdate(b, i, x);
    if Checksum(b[i := x]) == Checksum(b) {
      WrapMoves(ByteSum(b), ByteSum(b[i := x]));
    }
  }

  // ---- Frames ----

  /** Length in the low six bits of the format byte. */
  predicate IsShortFormat(fmt: U8) { fmt / 64 == 2 && fmt % 64 != 0 }

  /** The two header forms, separate length byte last. */
  datatype Header = Short(tgt: U8, src: U8) | Long(fmt: U8, tgt: U8, src: U8)

  predicate Carries(h: Header, payload: seq<U8>) {
    match h
    case Short(_, _) => 1 <= |payload| <= MAX_PAYLOAD
    case Long(fmt, _, _) => !IsShortFormat(fmt) && |payload| <= 255
  }

  function Head(h: Header, payload: seq<U8>): (r: seq<U8>)
    requires Carries(h, payload)
    ensures |r| == if h.Short? then 3 else 4
  {
    match h
    case Short(tgt, src) => [0x80 + |payload|, tgt, src]
    case Long(fmt, tgt, src) => [fmt, tgt, src, |payload|]
  }

  function Body(h: Header, payload: seq<U8>): seq<U8>
    requires Carries(h, payload)
  {
    Head(h, payload) + payload
  }

  /** One frame on the wire. */
  function FrameBytes(h: Header, payload: seq<U8>): (r: seq<U8>)
    requires Carries(h, payload)
    ensures |Body(h, payload)| < |r| <= 260 && r[..|r| - 1] == Body(h, payload)
  {
    Body(h, payload) + [Checksum(Body(h, payload))]
  }

  /** Tester to ECU: `[0x80|len][tgt][src][payload...][cs]`. */
  method BuildRequest(payload: seq<U8>) returns (frame: seq<U8>)
    requires 1 <= |payload| <= MAX_PAYLOAD
    ensures frame == FrameBytes(Short(ECU_ADDR, TESTER_ADDR), payload)
    ensures |frame| == |payload| + 4 && frame[0] == 0x80 + |payload| && frame[1] == 0x11 && frame[2] == 0xF2
    ensures frame[3..|payload| + 3] == payload
    ensures frame[|payload| + 3] as int == ByteSum(frame[..|payload| + 3]) % 256
  {
    frame := [0x80 + |payload|];
    frame := frame + [ECU_ADDR];
    frame := frame + [TESTER_ADDR];
    frame := frame + payload;
    assert frame == Body(Short(ECU_ADDR, TESTER_ADDR), payload);
    ChecksumIsSum(frame);
    frame := frame + [Checksum(frame)];
  }

  // ---- Parsing ----

  datatype Frame = Frame(raw: seq<U8>, payload: seq<U8>, checksumOk: bool)

  datatype ParseError = Timeout | Truncated(raw: seq<U8>) | HeldLow(raw: seq<U8>)

  predicate AllZero(s: seq<U8>) { forall i :: 0 <= i < |s| ==> s[i] == 0 }

  function HeadLen(fmt: U8): nat { if IsShortFormat(fmt) then 3 else 4 }

  /** Where the bytes say their payload ends. */
  function ClaimedEnd(s: seq<U8>): nat
    requires s != [] && |s| >= HeadLen(s[0])
  {
    HeadLen(s[0]) + if IsShortFormat(s[0]) then s[0] as int % 64 else s[3] as int
  }

  /** What `parse_response` makes of the bytes `s` followed by silence, and how
      many it consumes. */
  function Parse(s: seq<U8>): (r: (Result<Frame, ParseError>, nat))
    ensures r.1 <= |s| && r.1 <= 260
  {
    if s == [] then (Err(Timeout), 0)
    else
      var hdr := HeadLen(s[0]);
      if |s| < hdr then (Err(Truncated(s)), |s|)
      else
        var end := ClaimedEnd(s);
        if |s| < end then (Err(Truncated(s)), |s|)
        else
          var n := if |s| == end then end else end + 1;
          var raw := s[..n];
          if AllZero(raw) then (Err(HeldLow(raw)), n)
          else (Ok(Frame(raw, s[hdr..end], n == end || s[end] == Checksum(s[..end]))), n)
  }

  lemma ParseWhole(h: Header, payload: seq<U8>, cs: U8, rest: seq<U8>)
    requires Carries(h, payload)
    ensures var raw := Body(h, payload) + [cs];
            Parse(raw + rest) ==
            (if AllZero(raw) then Err(HeldLow(raw)) else Ok(Frame(raw, payload, cs == Checksum(Body(h, payload)))), |raw|)
  {
    var body := Body(h, payload);
    var raw := body + [cs];
    var s := raw + rest;
    assert s[..|body|] == body;
    assert s[..|raw|] == raw;
    assert s[|Head(h, payload)|..|body|] == payload;
  }

  /** Parsing takes exactly one frame off the front and recovers its payload;
      the one exception is the frame of five zero bytes. */
  lemma ParseFrame(h: Header, payload: seq<U8>, rest: seq<U8>)
    requires Carries(h, payload)
    ensures var f := FrameBytes(h, payload);
            && Parse(f + rest) == (if AllZero(f) then Err(HeldLow(f)) else Ok(Frame(f, payload, true)), |f|)
            && (AllZero(f) <==> h == Long(0, 0, 0) && payload == [])
  {
    ParseWhole(h, payload, Checksum(Body(h, payload)), rest);
    var f := FrameBytes(h, payload);
    if AllZero(f) {
      assert f[0] == 0 && f[1] == 0 && f[2] == 0;
      assert h.Long? ==> f[3] == |payload|;
    } else if h == Long(0, 0, 0) && payload == [] {
      assert Body(h, payload) == [0, 0, 0, 0];
      ChecksumOfZeros();
    }
  }

  lemma ChecksumOfZeros()
    ensures Checksum([0, 0, 0, 0]) == 0
  {
    assert [0, 0, 0, 0][..3] == [0, 0, 0] && [0, 0, 0][..2] == [0, 0] && [0, 0][..1] == [0] && [0][..0] == [];
    assert Checksum([0]) == 0;
    assert Checksum([0, 0]) == 0;
    assert Checksum([0, 0, 0]) == 0;
  }

  function HeaderOf(s: seq<U8>): Header
    requires |s| >= 3
  {
    if IsShortFormat(s[0]) then Short(s[1], s[2]) else Long(s[0], s[1], s[2])
  }

  /** Conversely, whatever parses with a good checksum is such a frame, or one
      whose checksum never came. */
  lemma ParsedIsFrame(s: seq<U8>)
    requires Parse(s).0.Ok? && Parse(s).0.value.checksumOk
    ensures var f := Parse(s).0.value;
            && |s| >= 3 && Carries(HeaderOf(s), f.payload) && f.raw == s[..Parse(s).1]
            && (f.raw == FrameBytes(HeaderOf(s), f.payload) || f.raw == s == Body(HeaderOf(s), f.payload))
  {
    hide Checksum;
    var (r, n) := Parse(s);
    var p, h := r.value.payload, HeaderOf(s);
    var hdr := HeadLen(s[0]);
    var end := hdr + |p|;
    assert Head(h, p) == s[..hdr];
    assert s[..end] == s[..hdr] + s[hdr..end];
    if n > end {
      assert s[..n] == s[..end] + [s[end]];
    } else {
      assert s[..n] == s;
    }
  }

  datatype RawSent = Sent(header: Header, payload: seq<U8>)

  /** A frame on the line; five zero bytes read as a line held low. */
  type Sent = f: RawSent | Carries(f.header, f.payload) && !(f.header == Long(0, 0, 0) && f.payload == [])
    witness RawSent.Sent(Short(0, 0), [0])

  function SentBytes(f: Sent): seq<U8> { FrameBytes(f.header, f.payload) }

  function Wire(fs: seq<Sent>): seq<U8> {
    if fs == [] then [] else SentBytes(fs[0]) + Wire(fs[1..])
  }

  /** Parse after parse, as long as frames come. */
  function ParseAll(s: seq<U8>): seq<seq<U8>>
    decreases |s|
  {
    var (r, n) := Parse(s);
    if r.Ok? && n > 0 then [r.value.payload] + ParseAll(s[n..]) else []
  }

  function Payloads(fs: seq<Sent>): seq<seq<U8>> {
    if fs == [] then [] else [fs[0].payload] + Payloads(fs[1..])
  }

  /** Frames sent back to back come out one by one, in order. */
  lemma {:induction false} ParseAllFrames(fs: seq<Sent>)
    ensures ParseAll(Wire(fs)) == Payloads(fs)
  {
    if fs != [] {
      var f, rest := SentBytes(fs[0]), Wire(fs[1..]);
      ParseFrame(fs[0].header, fs[0].payload, rest);
      assert (f + rest)[|f|..] == rest;
      ParseAllFrames(fs[1..]);
    }
  }

  /** Cut short, a frame reports exactly the bytes that came; without only its
      checksum it is accepted. */
  lemma ParseTruncated(h: Header, payload: seq<U8>, k: nat)
    requires Carries(h, payload) && k < |FrameBytes(h, payload)|
    ensures var part := FrameBytes(h, payload)[..k];
            var (r, n) := Parse(part);
            && n == k
            && (k == 0 ==> r == Err(Timeout))
            && (0 < k < |Body(h, payload)| ==> r == Err(Truncated(part)))
            && (k == |Body(h, payload)| ==>
                  r == if AllZero(part) then Err(HeldLow(part)) else Ok(Frame(part, payload, true)))
  {
    var f := FrameBytes(h, payload);
    var part := f[..k];
    assert part[..k] == part;
    if k == |Body(h, payload)| {
      assert part == Body(h, payload);
      assert part[|Head(h, payload)|..k] == payload;
    }
  }

  /** The byte holds the payload length. */
  predicate LengthByte(h: Header, i: nat) { i == 0 || (h.Long? && i == 3) }

  /** One wrong byte, other than format and length, is always flagged. */
  lemma CorruptionFlagged(h: Header, payload: seq<U8>, i: nat, x: U8, rest: seq<U8>)
    requires Carries(h, payload) && i < |FrameBytes(h, payload)|
    requires x != FrameBytes(h, payload)[i] && !LengthByte(h, i)
    ensures var bad := FrameBytes(h, payload)[i := x];
            Parse(bad + rest).1 == |bad| && Parse(bad + rest).0.Ok? && !Parse(bad + rest).0.value.checksumOk
  {
    var f, body := FrameBytes(h, payload), Body(h, payload);
    var bad := f[i := x];
    if i == |body| {
      assert bad == body + [x];
      NonZeroUnlessSum(body, x);
      ParseWhole(h, payload, x, rest);
    } else {
      ChecksumDetects(body, i, x);
      var body' := body[i := x];
      assert bad == body' + [Checksum(body)];
      NonZeroUnlessSum(body', Checksum(body));
      CorruptedBody(h, payload, i, x);
      var (h', payload') := Reread(h, payload, i, x);
      ParseWhole(h', payload', Checksum(body), rest);
    }
  }

  /** A zero body has checksum zero, so a wrong checksum keeps the frame non-zero. */
  lemma NonZeroUnlessSum(body: seq<U8>, cs: U8)
    requires cs != Checksum(body)
    ensures !AllZero(body + [cs])
  {
    if AllZero(body + [cs]) {
      assert (body + [cs])[|body|] == cs;
      forall i | 0 <= i < |body|
        ensures body[i] == 0
      {
        assert (body + [cs])[i] == body[i];
      }
      ZeroChecksum(body);
    }
  }

  lemma {:induction false} ZeroChecksum(b: seq<U8>)
    requires AllZero(b)
    ensures Checksum(b) == 0
  {
    if b != [] {
      ZeroChecksum(b[..|b| - 1]);
    }
  }

  /** The frame a corrupted body reads as. */
  function Reread(h: Header, payload: seq<U8>, i: nat, x: U8): (Header, seq<U8>)
    requires Carries(h, payload) && i < |Body(h, payload)| && !LengthByte(h, i)
  {
    var n := |Head(h, payload)|;
    if i >= n then (h, payload[i - n := x])
    else if i == 1 then (h.(tgt := x), payload)
    else (h.(src := x), payload)
  }

  lemma CorruptedBody(h: Header, payload: seq<U8>, i: nat, x: U8)
    requires Carries(h, payload) && i < |Body(h, payload)| && !LengthByte(h, i)
    ensures var (h', payload') := Reread(h, payload, i, x);
            Carries(h', payload') && Body(h', payload') == Body(h, payload)[i := x]
  {
  }

  // ---- A wrong format or length byte ----

  predicate Passes(s: seq<U8>) { Parse(s).0.Ok? && Parse(s).0.value.checksumOk }

  /** A frame with a wrong format or length byte, then silence, passes exactly when
      it claims its own checksum as data, so that no checksum is missed, or ends
      before a byte that happens to be the checksum of what precedes it. One that
      claims the right length never passes. */
  lemma WrongLengthPassesIff(h: Header, payload: seq<U8>, i: nat, x: U8)
    requires Carries(h, payload) && LengthByte(h, i) && x != FrameBytes(h, payload)[i]
    ensures var bad := FrameBytes(h, payload)[i := x];
            var end := ClaimedEnd(bad);
            Passes(bad) <==>
            || end == |bad|
            || (end < |bad| - 1 && bad[end] == Checksum(bad[..end]) && !AllZero(bad[..end + 1]))
  {
    hide Checksum;
    var body := Body(h, payload);
    var bad := FrameBytes(h, payload)[i := x];
    ChecksumDetects(body, i, x);
    assert bad == body[i := x] + [Checksum(body)];
    PassesIff(bad);
    SameLengthFlagged(body[i := x], Checksum(body));
    assert AllZero(bad) ==> bad[0] == 0 && bad[3] == 0;
  }

  lemma PassesIff(s: seq<U8>)
    requires |s| >= 4
    ensures var end := ClaimedEnd(s);
            Passes(s) <==>
            || (end == |s| && !AllZero(s))
            || (end < |s| && s[end] == Checksum(s[..end]) && !AllZero(s[..end + 1]))
  {
    hide Checksum;
    assert s[..|s|] == s;
  }

  lemma SameLengthFlagged(body: seq<U8>, cs: U8)
    requires cs != Checksum(body)
    ensures var bad := body + [cs];
            forall end :: end == |bad| - 1 ==> bad[end] != Checksum(bad[..end])
  {
    assert (body + [cs])[..|body|] == body;
  }

  predicate LengthFits(h: Header, n: nat) { if h.Short? then 1 <= n <= MAX_PAYLOAD else n <= 255 }

  /** The frame with its length given as `n`. */
  function Relabelled(h: Header, payload: seq<U8>, n: nat): (bad: seq<U8>)
    requires Carries(h, payload) && LengthFits(h, n)
    ensures |bad| == |FrameBytes(h, payload)|
  {
    var f := FrameBytes(h, payload);
    if h.Short? then f[0 := 0x80 + n] else f[3 := n]
  }

  lemma RelabelledHead(h: Header, payload: seq<U8>, claimed: seq<U8>)
    requires Carries(h, payload) && Carries(h, claimed)
    ensures Relabelled(h, payload, |claimed|) == Head(h, claimed) + payload + [Checksum(Body(h, payload))]
  {
    hide Checksum;
  }

  /** One byte too long always passes: the checksum is read as data, and a missing
      checksum is tolerated. */
  lemma LongerByOnePasses(h: Header, payload: seq<U8>)
    requires Carries(h, payload) && LengthFits(h, |payload| + 1)
    ensures var bad := Relabelled(h, payload, |payload| + 1);
            Parse(bad) == (Ok(Frame(bad, payload + [Checksum(Body(h, payload))], true)), |bad|)
  {
    hide Parse, Checksum;
    var longer := payload + [Checksum(Body(h, payload))];
    var body := Body(h, longer);
    RelabelledHead(h, payload, longer);
    assert body == Head(h, longer) + payload + [Checksum(Body(h, payload))];
    assert FrameBytes(h, longer)[..|body|] == body;
    ParseTruncated(h, longer, |body|);
    assert body[if h.Short? then 0 else 3] != 0;
  }

  /** A shorter length passes, whatever follows, exactly when the next byte happens
      to be the checksum of the shorter frame; then the payload is cut there. */
  lemma ShorterPassesIff(h: Header, payload: seq<U8>, n: nat, rest: seq<U8>)
    requires Carries(h, payload) && n < |payload| && LengthFits(h, n)
    ensures var s := Relabelled(h, payload, n) + rest;
            var body := Body(h, payload[..n]);
            && (Passes(s) <==> payload[n] == Checksum(body) && !AllZero(body + [payload[n]]))
            && (Passes(s) ==> Parse(s).0.value.payload == payload[..n])
  {
    hide Parse, Checksum;
    var cut := payload[..n];
    var tail := payload[n + 1..] + [Checksum(Body(h, payload))] + rest;
    RelabelledHead(h, payload, cut);
    ParseWhole(h, cut, payload[n], tail);
    assert payload == cut + [payload[n]] + payload[n + 1..];
    assert Relabelled(h, payload, n) + rest == Body(h, cut) + [payload[n]] + tail;
  }

  // ---- Response data ----

  /** Data of a positive response, the echoed identifier being optional. */
  function PositiveData(payload: seq<U8>, okService: U8, echoedId: seq<U8>): Option<seq<U8>> {
    if payload == [] || payload[0] != okService then None
    else if |payload| > |echoedId| && payload[1..1 + |echoedId|] == echoedId then Some(payload[1 + |echoedId|..])
    else Some(payload[1..])
  }

  /** With the identifier echoed the data comes back whole; without it exactly
      when the data does not itself begin with the identifier. */
  lemma PositiveDataSpec(svc: U8, id: seq<U8>, data: seq<U8>)
    requires id != []
    ensures PositiveData([svc] + id + data, svc, id) == Some(data)
    ensures PositiveData([svc] + data, svc, id) == Some(data) <==> !(id <= data)
  {
    var p := [svc] + id + data;
    assert p[1..1 + |id|] == id && p[1 + |id|..] == data;
    var q := [svc] + data;
    assert q[1..] == data;
    if |q| > |id| {
      assert q[1..1 + |id|] == data[..|id|];
      if id <= data {
        assert |q[1 + |id|..]| < |data|;
      }
    }
  }

  /** A negative reply carries no data. */
  lemma NegativeReplyHasNoData(service: U8, code: U8, svc: U8, id: seq<U8>)
    requires svc != 0x7F
    ensures PositiveData([0x7F, service, code], svc, id) == None
  {
  }
}
