/** The K-line driver: fast init, paced requests, echo removal and responses
    (`kds.rs`), with the byte-wise response parser of `kds_proto.rs`. */
module Kds {
  import opened Basics
  import opened KdsProto
  import opened KLine

  const TX_BYTE_GAP := 2_000
  const REQUEST_GAP := 60_000
  const FAST_INIT_IDLE := 300_000
  const INIT_HIGH := 22_000

  // ---- The parser over the line ----

  /** `raw` was read from `all`, of which the rest is still to come. */
  ghost predicate Reading(s0: State, s: State, raw: seq<U8>) {
    var all := Readable(s0.rx, s0.clock);
    && raw <= all
    && |raw| <= |s0.rx|
    && Readable(s.rx, s.clock) == all[|raw|..]
    && s == s0.(rx := s0.rx[|raw|..], clock := s.clock)
    && s.clock >= s0.clock
    && AllBy(s0.rx[..|raw|], s.clock)
  }

  /** Like `Reading`, with a timeout after the last byte of `all`. */
  ghost predicate ReadOut(s0: State, s: State) {
    var all := Readable(s0.rx, s0.clock);
    && |all| <= |s0.rx|
    && s == s0.(rx := s0.rx[|all|..], clock := s.clock)
    && s.clock >= s0.clock
    && AllBy(s0.rx[..|all|], s.clock)
  }

  method Next(bus: Bus, raw: seq<U8>, ghost s0: State) returns (r: Option<U8>, raw': seq<U8>)
    requires Reading(s0, bus.s, raw)
    modifies bus
    ensures r.Some? ==> Reading(s0, bus.s, raw') && raw' == raw + [r.value]
    ensures r.None? ==> raw' == raw == Readable(s0.rx, s0.clock) && ReadOut(s0, bus.s)
    ensures r.None? ==> bus.s.clock == old(bus.s).clock + RSP_TIMEOUT
  {
    ghost var all := Readable(s0.rx, s0.clock);
    ghost var before := bus.s;
    r := bus.ReadByte();
    raw' := raw;
    if r.Some? {
      raw' := raw + [r.value];
      assert all[|raw|..][0] == all[|raw|] && all[|raw|..][1..] == all[|raw|..][1..];
      assert all[|raw|..][1..] == all[|raw'|..];
      assert before.rx[1..] == s0.rx[|raw'|..];
      assert s0.rx[|raw|] == before.rx[0];
    } else {
      assert raw == all;
    }
  }

  method ReadMany(bus: Bus, raw: seq<U8>, n: nat, ghost s0: State) returns (ok: bool, raw': seq<U8>)
    requires Reading(s0, bus.s, raw)
    modifies bus
    ensures ok ==> Reading(s0, bus.s, raw') && |raw'| == |raw| + n && raw <= raw'
    ensures !ok ==> raw' == Readable(s0.rx, s0.clock) && ReadOut(s0, bus.s) && |raw'| < |raw| + n && raw <= raw'
  {
    raw' := raw;
    for i := 0 to n
      invariant Reading(s0, bus.s, raw') && |raw'| == |raw| + i && raw <= raw'
    {
      var b;
      b, raw' := Next(bus, raw', s0);
      if b.None? {
        return false, raw';
      }
    }
    return true, raw';
  }

  /** Parse one response frame from the line: the bytes that can be read before a
      timeout, consumed exactly as far as `Parse` says. */
  method ParseResponse(bus: Bus) returns (r: Result<Frame, ParseError>)
    modifies bus
    ensures var all := Readable(old(bus.s).rx, old(bus.s).clock);
            && r == Parse(all).0
            && Parse(all).1 <= |old(bus.s).rx|
            && bus.s == old(bus.s).(rx := old(bus.s).rx[Parse(all).1..], clock := bus.s.clock)
            && bus.s.clock >= old(bus.s).clock
            && AllBy(old(bus.s).rx[..Parse(all).1], bus.s.clock)
            && (all == [] ==> bus.s.clock == old(bus.s).clock + RSP_TIMEOUT)
  {
    hide Parse, Checksum, Readable;
    ghost var s0 := bus.s;
    ghost var all := Readable(s0.rx, s0.clock);
    var b, raw := Next(bus, [], s0);
    ParsedShort(all);
    if b.None? {
      return Err(Timeout);
    }
    var fmt := b.value;
    var short := IsShortFormat(fmt);
    var ok;
    ok, raw := ReadMany(bus, raw, if short then 2 else 3, s0);
    if !ok {
      return Err(Truncated(raw));
    }
    var start := |raw|;
    var payloadLen: nat := if short then fmt as int % 64 else raw[3] as int;
    ok, raw := ReadMany(bus, raw, payloadLen, s0);
    if !ok {
      return Err(Truncated(raw));
    }
    var body := raw;
    b, raw := Next(bus, raw, s0);
    ParsedBody(all, body, raw);
    if AllZero(raw) {
      return Err(HeldLow(raw));
    }
    return Ok(Frame(raw, body[start..], b.None? || b.value == Checksum(body)));
  }

  lemma ParsedShort(all: seq<U8>)
    ensures all == [] ==> Parse(all) == (Err(Timeout), 0)
    ensures all != [] && (|all| < HeadLen(all[0]) || |all| < ClaimedEnd(all)) ==>
              Parse(all) == (Err(Truncated(all)), |all|)
  {
  }

  /** `body` is a whole frame but for the checksum, `raw` what was read of both. */
  lemma ParsedBody(all: seq<U8>, body: seq<U8>, raw: seq<U8>)
    requires body != [] && body <= raw <= all
    requires |raw| == if |all| == |body| then |body| else |body| + 1
    requires |body| >= HeadLen(body[0]) && |body| == ClaimedEnd(body)
    ensures var hdr := HeadLen(body[0]);
            Parse(all) ==
            (if AllZero(raw) then Err(HeldLow(raw))
             else Ok(Frame(raw, body[hdr..], |raw| == |body| || raw[|body|] == Checksum(body))), |raw|)
  {
    hide Checksum;
    var hdr := HeadLen(body[0]);
    assert all[..|raw|] == raw && all[..|body|] == body;
    assert all[hdr..|body|] == body[hdr..];
  }

  // ---- The driver ----

  /** A line that echoes every byte, drops none, and an ECU that answers with one
      well-formed frame in time or keeps silent. */
  ghost predicate Faithful(l: Line) {
    && (forall n :: l.writeOk(n)) && (forall n :: l.baudOk(n))
    && (forall n: nat, b: U8 :: l.echo(n, b) == [b])
    && l.echoDelay <= INIT_HIGH
    && (forall n :: l.echoDelay + l.latency(n) <= RSP_TIMEOUT)
    && (forall n, req :: l.answer(n, req).Framed? || l.answer(n, req).Silent?)
  }

  /** Such lines exist: here every request is answered positively. */
  lemma FaithfulExists()
    ensures exists l :: Faithful(l)
  {
    var yes: Sent := RawSent.Sent(Long(0x80, TESTER_ADDR, ECU_ADDR), [SVC_READ_OK]);
    var l := Line(n => true, n => true, (n, b) => [b], 10_000, (n, req) => Framed(yes), n => 35_000);
    assert Faithful(l);
  }

  /** Nothing is on its way in either direction. */
  predicate Quiet(s: State) { s.rx == [] && s.pending == [] }

  /** The ECU will hear a request that starts now. */
  predicate Listening(s: State) { s.ecu.Woken? || (s.ecu.Awake? && s.clock >= s.ecu.answeredAt + P3_MIN) }

  function Request(payload: seq<U8>): seq<U8>
    requires 1 <= |payload| <= MAX_PAYLOAD
  {
    FrameBytes(Short(ECU_ADDR, TESTER_ADDR), payload)
  }

  /** Payload of the ECU's answer to `payload`, the n-th request it hears. */
  function Reply(l: Line, n: nat, payload: seq<U8>): Option<seq<U8>>
    requires 1 <= |payload| <= MAX_PAYLOAD
  {
    match l.answer(n, Request(payload)) case Framed(f) => Some(f.payload) case _ => None
  }

  /** What `read_register` makes of that answer. */
  function RegisterData(l: Line, n: nat, reg: U8): Option<seq<U8>> {
    match Reply(l, n, [SVC_READ, reg]) case Some(p) => PositiveData(p, SVC_READ_OK, [reg]) case None => None
  }

  /** The reply to `payload` came and holds the byte `code`. */
  predicate Acknowledged(l: Line, n: nat, payload: seq<U8>, code: U8)
    requires 1 <= |payload| <= MAX_PAYLOAD
  {
    Reply(l, n, payload).Some? && code in Reply(l, n, payload).value
  }

  /** The registers that answer positively when 0.. are asked in order. */
  function Supported(l: Line, n: nat, count: nat): seq<(U8, seq<U8>)>
    requires count <= 256
  {
    if count == 0 then []
    else
      var d := RegisterData(l, n + count - 1, count - 1);
      Supported(l, n, count - 1) + if d.Some? then [(count - 1, d.value)] else []
  }

  lemma FourByteSum(a: U8, b: U8, c: U8, d: U8)
    ensures Checksum([a, b, c, d]) as int == (a as int + b as int + c as int + d as int) % 256
  {
    ChecksumIsSum([a, b, c, d]);
    assert [a, b, c, d][..3] == [a, b, c] && [a, b, c][..2] == [a, b] && [a, b][..1] == [a] && [a][..0] == [];
    assert ByteSum([a]) == a as int;
    assert ByteSum([a, b]) == a as int + b as int;
    assert ByteSum([a, b, c]) == a as int + b as int + c as int;
  }

  lemma FiveByteSum(a: U8, b: U8, c: U8, d: U8, e: U8)
    ensures Checksum([a, b, c, d, e]) as int == (a as int + b as int + c as int + d as int + e as int) % 256
  {
    ChecksumIsSum([a, b, c, d, e]);
    assert [a, b, c, d, e][..4] == [a, b, c, d] && [a, b, c, d][..3] == [a, b, c] && [a, b, c][..2] == [a, b]
           && [a, b][..1] == [a] && [a][..0] == [];
    assert ByteSum([a]) == a as int;
    assert ByteSum([a, b]) == a as int + b as int;
    assert ByteSum([a, b, c]) == a as int + b as int + c as int;
    assert ByteSum([a, b, c, d]) == a as int + b as int + c as int + d as int;
  }

  /** The bytes that ask for register `reg`. */
  function RegisterRequest(reg: U8): seq<U8> { [0x82, 0x11, 0xF2, 0x21, reg, (0xA6 + reg as int) % 256] }

  lemma RegisterRequestBytes(reg: U8)
    ensures Request([SVC_READ, reg]) == RegisterRequest(reg)
  {
    FiveByteSum(0x82, 0x11, 0xF2, 0x21, reg);
    assert Body(Short(ECU_ADDR, TESTER_ADDR), [SVC_READ, reg]) == [0x82, 0x11, 0xF2, 0x21, reg];
  }

  /** What each answer to the request for `reg` gives: the data behind a positive
      reply that echoes the register; nothing for silence or any other service. */
  lemma RegisterDataSpec(l: Line, n: nat, reg: U8, h: Header, p: seq<U8>, data: seq<U8>)
    requires Carries(h, p) && !(h == Long(0, 0, 0) && p == [])
    ensures l.answer(n, RegisterRequest(reg)).Silent? ==> RegisterData(l, n, reg) == None
    ensures l.answer(n, RegisterRequest(reg)) == Framed(RawSent.Sent(h, p)) ==>
              && (RegisterData(l, n, reg).Some? <==> p != [] && p[0] == 0x61)
              && (p == [0x61, reg] + data ==> RegisterData(l, n, reg) == Some(data))
  {
    RegisterRequestBytes(reg);
    if p == [0x61, reg] + data {
      PositiveDataSpec(0x61, [reg], data);
      assert [0x61] + [reg] + data == p;
    }
  }

  lemma SessionRequestBytes()
    ensures Request([SVC_START]) == [0x81, 0x11, 0xF2, 0x81, 0x05]
    ensures Request([SVC_SESSION, SVC_SESSION_KDS]) == [0x82, 0x11, 0xF2, 0x10, 0x80, 0x15]
  {
    FourByteSum(0x81, 0x11, 0xF2, 0x81);
    FiveByteSum(0x82, 0x11, 0xF2, 0x10, 0x80);
    assert Body(Short(ECU_ADDR, TESTER_ADDR), [SVC_START]) == [0x81, 0x11, 0xF2, 0x81];
    assert Body(Short(ECU_ADDR, TESTER_ADDR), [SVC_SESSION, SVC_SESSION_KDS]) == [0x82, 0x11, 0xF2, 0x10, 0x80];
  }

  /** The session opens with these two requests, acknowledged by a frame that holds
      0xC1 and one that holds 0x50. */
  lemma AcknowledgedIff(l: Line, n: nat)
    ensures Acknowledged(l, n, [SVC_START], SVC_START_OK) <==>
            var a := l.answer(n, [0x81, 0x11, 0xF2, 0x81, 0x05]);
            a.Framed? && 0xC1 in a.frame.payload
    ensures Acknowledged(l, n, [SVC_SESSION, SVC_SESSION_KDS], SVC_SESSION_OK) <==>
            var a := l.answer(n, [0x82, 0x11, 0xF2, 0x10, 0x80, 0x15]);
            a.Framed? && 0x50 in a.frame.payload
  {
    SessionRequestBytes();
  }

  predicate Ascending(found: seq<(U8, seq<U8>)>) {
    forall i, j :: 0 <= i < j < |found| ==> found[i].0 < found[j].0
  }

  /** A scan finds exactly the registers that answer positively when asked in turn,
      each once, in rising order, with the data answered for it. */
  lemma {:induction false} SupportedSpec(l: Line, n: nat, count: nat)
    requires count <= 256
    ensures var found := Supported(l, n, count);
            && Ascending(found)
            && (forall i :: 0 <= i < |found| ==> found[i].0 as nat < count)
    ensures forall r: U8, d: seq<U8> ::
              (r, d) in Supported(l, n, count) <==> (r as nat < count && RegisterData(l, n + r as nat, r) == Some(d))
    decreases count
  {
    hide RegisterData;
    if count > 0 {
      SupportedSpec(l, n, count - 1);
      var p, found := Supported(l, n, count - 1), Supported(l, n, count);
      forall i, j | 0 <= i < j < |found|
        ensures found[i].0 < found[j].0
      {
        assert found[i] == p[i];
        if j < |p| {
          assert found[j] == p[j];
        }
      }
    }
  }

  /** When a frame's first byte was sent, and the activity recorded before it. */
  datatype Start = Start(at: nat, after: Option<nat>)

  /** Every frame starts at least 60 ms after the activity recorded before it. */
  predicate Paced(starts: seq<Start>) {
    forall k :: 0 <= k < |starts| && starts[k].after.Some? ==> starts[k].at >= starts[k].after.value + 60_000
  }

  /** Progress of sending `frame`, begun in state `s0`, after `i` bytes. */
  ghost predicate Sending(l: Line, s0: State, s: State, frame: seq<U8>, i: nat)
    requires i <= |frame|
  {
    && s.clock >= s0.clock && s.answers >= s0.answers && |s.rx| >= i
    && BytesOf(s.rx[..i]) == frame[..i]
    && AllBy(s.rx, s.clock + RSP_TIMEOUT)
    && (i < |frame| ==> |s.rx| == i && s.pending == frame[..i] && s.ecu == s0.ecu && s.answers == s0.answers
                        && (if i == 0 then s.clock == s0.clock else s.since == s0.clock))
    && (i == |frame| ==>
          && s.pending == [] && s.answers == s0.answers + 1 && s.ecu.Awake?
          && s.rx[i..] == Arrivals(AnswerBytes(l.answer(s0.answers, frame)), s.ecu.answeredAt)
          && s.ecu.answeredAt <= s.clock + RSP_TIMEOUT)
  }

  lemma EchoStep(rx: seq<Arrival>, frame: seq<U8>, i: nat, at: nat)
    requires i < |frame| && |rx| == i && BytesOf(rx) == frame[..i]
    ensures BytesOf(rx + Arrivals([frame[i]], at)) == frame[..i + 1]
    ensures |rx + Arrivals([frame[i]], at)| == i + 1
  {
    var echoed := rx + Arrivals([frame[i]], at);
    forall k | 0 <= k < i + 1
      ensures BytesOf(echoed)[k] == frame[k]
    {
      if k < i {
        assert BytesOf(rx)[k] == frame[..i][k];
      }
    }
  }

  lemma SendingStep(l: Line, s0: State, s: State, frame: seq<U8>, i: nat, gap: nat)
    requires Faithful(l) && Listening(s0) && i < |frame| && Complete(frame)
    requires Sending(l, s0, s, frame, i)
    ensures var t := WriteStep(l, s, frame[i]);
            Sending(l, s0, t.(clock := t.clock + gap), frame, i + 1)
  {
    hide WriteStep, Complete;
    assert s.rx[..i] == s.rx;
    EchoStep(s.rx, frame, i, s.clock + l.echoDelay);
    assert s.pending + [frame[i]] == frame[..i + 1];
    if i + 1 < |frame| {
      SendingMore(l, s0, s, frame, i);
    } else {
      assert frame[..i + 1] == frame;
      SendingLast(l, s0, s, frame);
    }
  }

  lemma SendingMore(l: Line, s0: State, s: State, frame: seq<U8>, i: nat)
    requires Faithful(l) && Listening(s0) && i + 1 < |frame| && Complete(frame)
    requires Sending(l, s0, s, frame, i)
    requires s.pending + [frame[i]] == frame[..i + 1]
    ensures var t := WriteStep(l, s, frame[i]);
            var echoed := s.rx + Arrivals([frame[i]], s.clock + l.echoDelay);
            && t.rx == echoed == t.rx[..i + 1] && AllBy(t.rx, t.clock + RSP_TIMEOUT)
            && t.pending == frame[..i + 1] && t.ecu == s.ecu && t.answers == s.answers && t.clock == s.clock
            && t.since == s0.clock
  {
    assert frame[..i + 1][0] == frame[0];
    assert !Complete(frame[..i + 1]);
    assert l.echo(s.writes, frame[i]) == [frame[i]];
  }

  lemma SendingLast(l: Line, s0: State, s: State, frame: seq<U8>)
    requires Faithful(l) && Listening(s0) && Complete(frame) && Sending(l, s0, s, frame, |frame| - 1)
    requires s.pending + [frame[|frame| - 1]] == frame
    ensures var n := |frame|;
            var at := s.clock + l.echoDelay + l.latency(s0.answers);
            var echoed := s.rx + Arrivals([frame[n - 1]], s.clock + l.echoDelay);
            var t := WriteStep(l, s, frame[n - 1]);
            && t.pending == [] && t.answers == s0.answers + 1 && t.ecu == Awake(at) && at <= s.clock + RSP_TIMEOUT
            && t.clock == s.clock
            && t.rx == echoed + Arrivals(AnswerBytes(l.answer(s0.answers, frame)), at)
            && t.rx[..n] == echoed && t.rx[n..] == Arrivals(AnswerBytes(l.answer(s0.answers, frame)), at)
            && AllBy(t.rx, t.clock + RSP_TIMEOUT)
  {
    var n := |frame|;
    assert l.echo(s.writes, frame[n - 1]) == [frame[n - 1]];
    assert l.echoDelay + l.latency(s.answers) <= RSP_TIMEOUT;
  }

  class Driver {
    const bus: Bus
    var connected: bool
    var lastActivity: Option<nat>
    ghost var starts: seq<Start>

    constructor (bus: Bus)
      ensures this.bus == bus && !connected && lastActivity == None && starts == []
    {
      this.bus, connected, lastActivity, starts := bus, false, None, [];
    }

    /** Frames so far kept their distance, and recorded activity is in the past. */
    ghost predicate Valid()
      reads this, bus
    {
      Paced(starts) && (lastActivity.Some? ==> lastActivity.value <= bus.s.clock)
    }

    /** Between transactions of a session on a faithful line. */
    ghost predicate Ready()
      reads this, bus
    {
      && Valid() && Faithful(bus.line) && Quiet(bus.s)
      && bus.s.ecu.Awake? && lastActivity.Some? && bus.s.ecu.answeredAt <= lastActivity.value
    }

    /** Sleep whatever is left of the quiet window. */
    method Pace()
      requires Valid()
      modifies bus
      ensures Valid() && bus.s == old(bus.s).(clock := bus.s.clock) && bus.s.clock >= old(bus.s).clock
      ensures lastActivity.Some? ==> bus.s.clock == Later(old(bus.s).clock, lastActivity.value + 60_000)
      ensures lastActivity.None? ==> bus.s == old(bus.s)
    {
      if lastActivity.Some? {
        var elapsed := bus.s.clock - lastActivity.value;
        if elapsed < REQUEST_GAP {
          bus.Sleep(REQUEST_GAP - elapsed);
        }
      }
    }

    /** Send a frame byte by byte. */
    method Transmit(frame: seq<U8>) returns (ok: bool)
      modifies bus
      ensures bus.s.clock >= old(bus.s).clock
      ensures ok ==> bus.s.clock == old(bus.s).clock + 2_000 * |frame|
      ensures Faithful(bus.line) && Quiet(old(bus.s)) && Listening(old(bus.s)) && Complete(frame) ==>
                ok && Sending(bus.line, old(bus.s), bus.s, frame, |frame|)
    {
      ghost var good := Faithful(bus.line) && Quiet(bus.s) && Listening(bus.s) && Complete(frame);
      for i := 0 to |frame|
        invariant bus.s.clock == old(bus.s).clock + 2_000 * i
        invariant good ==> Sending(bus.line, old(bus.s), bus.s, frame, i)
      {
        if good {
          SendingStep(bus.line, old(bus.s), bus.s, frame, i, TX_BYTE_GAP);
        }
        ok := bus.Write(frame[i]);
        if !ok {
          return;
        }
        bus.Sleep(TX_BYTE_GAP);
      }
      ok := true;
    }

    /** Read up to `n` bytes, stopping at a timeout. */
    method ReadExact(n: nat) returns (got: seq<U8>)
      modifies bus
      ensures bus.s.clock >= old(bus.s).clock && |got| <= n
      ensures AllBy(old(bus.s).rx, old(bus.s).clock + RSP_TIMEOUT) && n <= |old(bus.s).rx| ==>
                got == BytesOf(old(bus.s).rx[..n]) && bus.s == old(bus.s).(rx := old(bus.s).rx[n..], clock := bus.s.clock)
    {
      ghost var s0 := bus.s;
      ghost var good := AllBy(s0.rx, s0.clock + RSP_TIMEOUT) && n <= |s0.rx|;
      got := [];
      while |got| < n
        invariant bus.s.clock >= s0.clock && |got| <= n
        invariant good ==> got == BytesOf(s0.rx[..|got|]) && bus.s == s0.(rx := s0.rx[|got|..], clock := bus.s.clock)
      {
        var b := bus.ReadByte();
        if b.None? {
          break;
        }
        got := got + [b.value];
      }
    }

    /** Frame the payload, send it, take the echo off the line. */
    method SendRequest(payload: seq<U8>) returns (ok: bool)
      requires 1 <= |payload| <= MAX_PAYLOAD
      requires Valid() && (lastActivity.Some? ==> bus.s.clock >= lastActivity.value + REQUEST_GAP)
      modifies bus, this`lastActivity, this`starts
      ensures Valid() && bus.s.clock >= old(bus.s).clock
      ensures starts == old(starts) + [Start(old(bus.s).clock, old(lastActivity))]
      ensures ok ==> lastActivity == Some(bus.s.clock)
      ensures Faithful(bus.line) && Quiet(old(bus.s)) && Listening(old(bus.s)) ==>
                && ok && bus.s.ecu.Awake? && bus.s.pending == [] && bus.s.answers == old(bus.s).answers + 1
                && bus.s.rx == Arrivals(AnswerBytes(bus.line.answer(old(bus.s).answers, Request(payload))), bus.s.ecu.answeredAt)
                && bus.s.ecu.answeredAt <= bus.s.clock + RSP_TIMEOUT
    {
      var frame := BuildRequest(payload);
      assert frame[0] == 0x80 + |payload|;
      starts := starts + [Start(bus.s.clock, lastActivity)];
      ok := Transmit(frame);
      if !ok {
        return;
      }
      var echo := ReadExact(|frame|);
      lastActivity := Some(bus.s.clock);
    }

    /** Read one response frame; its payload. */
    method ReadResponse() returns (r: Option<seq<U8>>)
      requires Valid()
      modifies bus, this`lastActivity
      ensures Valid() && bus.s.clock >= old(bus.s).clock && lastActivity == Some(bus.s.clock)
      ensures forall f: Sent, at: nat {:trigger Arrivals(SentBytes(f), at)} ::
                old(bus.s).rx == Arrivals(SentBytes(f), at) && at <= old(bus.s).clock + RSP_TIMEOUT ==>
                  && r == Some(f.payload) && bus.s == old(bus.s).(rx := [], clock := bus.s.clock)
                  && bus.s.clock >= at
      ensures old(bus.s).rx == [] ==> r == None && bus.s == old(bus.s).(clock := old(bus.s).clock + 250_000)
    {
      hide Parse, FrameBytes;
      ghost var s0 := bus.s;
      ParsedShort([]);
      var parsed := ParseResponse(bus);
      lastActivity := Some(bus.s.clock);
      r := if parsed.Ok? then Some(parsed.value.payload) else None;
      forall f: Sent, at: nat | s0.rx == Arrivals(SentBytes(f), at) && at <= s0.clock + RSP_TIMEOUT
        ensures r == Some(f.payload) && bus.s == s0.(rx := [], clock := bus.s.clock) && bus.s.clock >= at
      {
        ReadableAll(s0.rx, s0.clock);
        assert BytesOf(s0.rx) == SentBytes(f);
        ParseFrame(f.header, f.payload, []);
        assert SentBytes(f) + [] == SentBytes(f);
        assert s0.rx[..|s0.rx|][0].at == at;
      }
    }

    /** One request and its response. */
    method Transact(payload: seq<U8>) returns (r: Option<seq<U8>>)
      requires 1 <= |payload| <= MAX_PAYLOAD
      requires Valid() && (lastActivity.Some? ==> bus.s.clock >= lastActivity.value + REQUEST_GAP)
      modifies bus, this`lastActivity, this`starts
      ensures Valid() && bus.s.clock >= old(bus.s).clock
      ensures starts == old(starts) + [Start(old(bus.s).clock, old(lastActivity))]
      ensures Faithful(bus.line) && Quiet(old(bus.s)) && Listening(old(bus.s)) ==>
                && Ready() && bus.s.answers == old(bus.s).answers + 1
                && r == Reply(bus.line, old(bus.s).answers, payload)
    {
      var ok := SendRequest(payload);
      if !ok {
        return None;
      }
      ghost var answer := bus.line.answer(old(bus.s).answers, Request(payload));
      if Faithful(bus.line) {
        assert answer.Framed? || answer.Silent?;
      }
      r := ReadResponse();
    }

    /** Read one register via service 0x21. */
    method ReadRegister(reg: U8) returns (r: Option<seq<U8>>)
      requires Valid()
      modifies bus, this`lastActivity, this`starts
      ensures Valid() && old(starts) <= starts && bus.s.clock >= old(bus.s).clock
      ensures !connected ==> r == None && bus.s == old(bus.s)
      ensures connected && old(Ready()) ==>
                Ready() && bus.s.answers == old(bus.s).answers + 1 && r == RegisterData(bus.line, old(bus.s).answers, reg)
    {
      if !connected {
        return None;
      }
      Pace();
      var payload := Transact([SVC_READ, reg]);
      if payload.None? {
        return None;
      }
      r := PositiveData(payload.value, SVC_READ_OK, [reg]);
    }

    /** Probe every local identifier. */
    method ScanRegisters() returns (found: seq<(U8, seq<U8>)>)
      requires Valid()
      modifies bus, this`lastActivity, this`starts
      ensures Valid() && old(starts) <= starts
      ensures connected && old(Ready()) ==>
                Ready() && bus.s.answers == old(bus.s).answers + 256 && found == Supported(bus.line, old(bus.s).answers, 256)
    {
      found := [];
      for reg := 0 to 256
        invariant Valid() && old(starts) <= starts
        invariant connected && old(Ready()) ==>
                    Ready() && bus.s.answers == old(bus.s).answers + reg && found == Supported(bus.line, old(bus.s).answers, reg)
      {
        var d := ReadRegister(reg);
        if d.Some? {
          found := found + [(reg, d.value)];
        }
      }
    }

    /** Discard what sits in the receive queue. */
    method DrainRx()
      modifies bus
      ensures bus.s == old(bus.s).(rx := Drained(old(bus.s).rx, old(bus.s).clock))
    {
      var got := true;
      while got
        invariant bus.s.clock == old(bus.s).clock
        invariant bus.s == old(bus.s).(rx := bus.s.rx)
        invariant Drained(bus.s.rx, bus.s.clock) == Drained(old(bus.s).rx, old(bus.s).clock)
        invariant !got ==> bus.s.rx == Drained(old(bus.s).rx, old(bus.s).clock)
        decreases |bus.s.rx|, got
      {
        got := bus.TryRead();
      }
    }

    /** Fast init, startCommunication, startDiagnosticSession. */
    method StartCommunication() returns (ok: bool)
      requires Valid()
      modifies bus, this
      ensures Valid() && old(starts) <= starts && ok == connected
      ensures Faithful(bus.line) && AllBy(old(bus.s).rx, old(bus.s).clock + FAST_INIT_IDLE) ==>
                (connected ==> Ready())
      ensures Faithful(bus.line) && AllBy(old(bus.s).rx, old(bus.s).clock + FAST_INIT_IDLE) ==>
                (connected <==>
                 && Acknowledged(bus.line, old(bus.s).answers, [SVC_START], SVC_START_OK)
                 && Acknowledged(bus.line, old(bus.s).answers + 1, [SVC_SESSION, SVC_SESSION_KDS], SVC_SESSION_OK))
    {
      ghost var s0 := bus.s;
      connected := false;
      ok := FastInit();
      if !ok {
        return;
      }
      var payload := Transact([SVC_START]);
      if payload.None? || SVC_START_OK !in payload.value {
        return false;
      }
      Pace();
      payload := Transact([SVC_SESSION, SVC_SESSION_KDS]);
      if payload.None? || SVC_SESSION_OK !in payload.value {
        return false;
      }
      connected := true;
      return true;
    }

    /** Idle, low pulse, high; the late echo of the pulse is drained at the end. */
    method FastInit() returns (ok: bool)
      requires Valid()
      modifies bus
      ensures Valid() && bus.s.clock >= old(bus.s).clock
      ensures ok ==> bus.s.clock == old(bus.s).clock + 300_000 + 22_000
      ensures Faithful(bus.line) && AllBy(old(bus.s).rx, old(bus.s).clock + FAST_INIT_IDLE) ==>
                ok && Quiet(bus.s) && bus.s.ecu.Woken? && bus.s.answers == old(bus.s).answers
    {
      ghost var s0 := bus.s;
      DrainRx();
      bus.Sleep(FAST_INIT_IDLE);
      ok := bus.ChangeBaudrate();
      if ok {
        ok := bus.WriteBreak();
      }
      if !ok {
        var _ := bus.ChangeBaudrate();
        return false;
      }
      ok := bus.ChangeBaudrate();
      if !ok {
        return false;
      }
      bus.Sleep(INIT_HIGH);
      if Faithful(bus.line) && AllBy(s0.rx, s0.clock + FAST_INIT_IDLE) {
        DrainedKeeps(s0.rx, s0.clock, s0.clock + FAST_INIT_IDLE);
        DrainedAll(bus.s.rx, bus.s.clock);
      }
      DrainRx();
      return true;
    }
  }

  /** What is left starts with the first byte that has not arrived yet. */
  lemma {:induction false} DrainedSpec(rx: seq<Arrival>, clock: nat) returns (k: nat)
    ensures k <= |rx| && Drained(rx, clock) == rx[k..]
    ensures AllBy(rx[..k], clock) && (k < |rx| ==> rx[k].at > clock)
  {
    k := 0;
    if rx != [] && rx[0].at <= clock {
      var n := DrainedSpec(rx[1..], clock);
      k := n + 1;
      assert rx[1..][n..] == rx[k..] && rx[..k] == [rx[0]] + rx[1..][..n];
    }
  }

  lemma {:induction false} DrainedKeeps(rx: seq<Arrival>, clock: nat, t: nat)
    requires AllBy(rx, t)
    ensures AllBy(Drained(rx, clock), t)
  {
    if rx != [] {
      DrainedKeeps(rx[1..], clock, t);
    }
  }
}
