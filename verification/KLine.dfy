/** The single-wire K-line as the UART sees it: every byte sent comes back, the
    ECU answers complete requests, and bytes arrive with a delay. Times are in
    microseconds. What line and ECU do is given by arbitrary functions. */
module KLine {
  import opened Basics
  import opened KdsProto

  const RSP_TIMEOUT := 250_000
  /** Quiet time after its answer before the ECU listens again. */
  const P3_MIN := 55_000

  /** A received byte and when it can be read. */
  datatype Arrival = Arrival(byte: U8, at: nat)

  datatype Answer = Framed(frame: Sent) | Silent | Noise(bytes: seq<U8>)

  function AnswerBytes(a: Answer): seq<U8> {
    match a case Framed(f) => SentBytes(f) case Silent => [] case Noise(b) => b
  }

  /** The n-th write may fail or echo anything; the n-th request heard gets
      some answer, or silence, after some latency. */
  datatype Line = Line(
    writeOk: nat -> bool, baudOk: nat -> bool, echo: (nat, U8) -> seq<U8>, echoDelay: nat,
    answer: (nat, seq<U8>) -> Answer, latency: nat -> nat)

  /** The ECU before fast init, right after it, and in a session. */
  datatype Ecu = Asleep | Woken | Awake(answeredAt: nat)

  datatype State = State(
    clock: nat, rx: seq<Arrival>, pending: seq<U8>, since: nat, writes: nat, bauds: nat, answers: nat, ecu: Ecu)

  /** `frame` is one complete request in the tester's form. */
  predicate Complete(frame: seq<U8>) {
    frame != [] && IsShortFormat(frame[0]) && |frame| == frame[0] as int % 64 + 4
  }

  function Arrivals(b: seq<U8>, at: nat): (r: seq<Arrival>)
    ensures |r| == |b|
  {
    seq(|b|, i requires 0 <= i < |b| => Arrival(b[i], at))
  }

  function BytesOf(rx: seq<Arrival>): (b: seq<U8>)
    ensures |b| == |rx|
  {
    seq(|rx|, i requires 0 <= i < |rx| => rx[i].byte)
  }

  predicate AllBy(rx: seq<Arrival>, t: nat) { forall i :: 0 <= i < |rx| ==> rx[i].at <= t }

  function Later(a: nat, b: nat): nat { if a < b then b else a }

  /** The bytes successive reads return from now until the first timeout. */
  function Readable(rx: seq<Arrival>, clock: nat): seq<U8> {
    if rx == [] || rx[0].at > clock + RSP_TIMEOUT then []
    else [rx[0].byte] + Readable(rx[1..], Later(clock, rx[0].at))
  }

  lemma {:induction false} ReadableAll(rx: seq<Arrival>, clock: nat)
    requires AllBy(rx, clock + RSP_TIMEOUT)
    ensures Readable(rx, clock) == BytesOf(rx)
  {
    if rx != [] {
      ReadableAll(rx[1..], Later(clock, rx[0].at));
    }
  }

  /** One byte at the data rate. The ECU answers a complete request in a session
      or right after fast init, unless it began too soon after the last answer. */
  function WriteStep(l: Line, s: State, b: U8): State {
    var t := s.(writes := s.writes + 1);
    if !l.writeOk(s.writes) then t
    else
      var since := if s.pending == [] then s.clock else s.since;
      var heard := s.pending + [b];
      var echoed := s.rx + Arrivals(l.echo(s.writes, b), s.clock + l.echoDelay);
      if !Complete(heard) then t.(rx := echoed, pending := heard, since := since)
      else if s.ecu.Asleep? || (s.ecu.Awake? && since < s.ecu.answeredAt + P3_MIN) then
        t.(rx := echoed, pending := [], since := since)
      else
        var at := s.clock + l.echoDelay + l.latency(s.answers);
        t.(rx := echoed + Arrivals(AnswerBytes(l.answer(s.answers, heard)), at),
           pending := [], since := since, answers := s.answers + 1, ecu := Awake(at))
  }

  /** The 25 ms low pulse: a zero byte at the break rate, itself echoed. */
  function BreakStep(l: Line, s: State): State {
    var t := s.(writes := s.writes + 1);
    if !l.writeOk(s.writes) then t
    else t.(rx := s.rx + Arrivals([0], s.clock + l.echoDelay), pending := [], ecu := Woken)
  }

  /** Drop what can be read without waiting. */
  function Drained(rx: seq<Arrival>, clock: nat): seq<Arrival> {
    if rx != [] && rx[0].at <= clock then Drained(rx[1..], clock) else rx
  }

  lemma {:induction false} DrainedAll(rx: seq<Arrival>, clock: nat)
    requires AllBy(rx, clock)
    ensures Drained(rx, clock) == []
  {
    if rx != [] {
      DrainedAll(rx[1..], clock);
    }
  }

  class Bus {
    const line: Line
    var s: State

    constructor (line: Line)
      ensures this.line == line && s == State(0, [], [], 0, 0, 0, 0, Asleep)
    {
      this.line, s := line, State(0, [], [], 0, 0, 0, 0, Asleep);
    }

    method Sleep(us: nat)
      modifies this
      ensures s == old(s).(clock := old(s).clock + us)
    {
      s := s.(clock := s.clock + us);
    }

    method Write(b: U8) returns (ok: bool)
      modifies this
      ensures ok == line.writeOk(old(s).writes) && s == WriteStep(line, old(s), b)
    {
      ok := line.writeOk(s.writes);
      s := WriteStep(line, s, b);
    }

    method WriteBreak() returns (ok: bool)
      modifies this
      ensures ok == line.writeOk(old(s).writes) && s == BreakStep(line, old(s))
    {
      ok := line.writeOk(s.writes);
      s := BreakStep(line, s);
    }

    method ChangeBaudrate() returns (ok: bool)
      modifies this
      ensures ok == line.baudOk(old(s).bauds) && s == old(s).(bauds := old(s).bauds + 1)
    {
      ok := line.baudOk(s.bauds);
      s := s.(bauds := s.bauds + 1);
    }

    /** Wait for one byte up to the response timeout. */
    method ReadByte() returns (r: Option<U8>)
      modifies this
      ensures var rd := Readable(old(s).rx, old(s).clock);
              if rd == [] then r == None && s == old(s).(clock := old(s).clock + RSP_TIMEOUT)
              else
                && r == Some(rd[0]) && Readable(s.rx, s.clock) == rd[1..]
                && old(s).rx != []
                && s == old(s).(rx := old(s).rx[1..], clock := Later(old(s).clock, old(s).rx[0].at))
    {
      if s.rx == [] || s.rx[0].at > s.clock + RSP_TIMEOUT {
        s := s.(clock := s.clock + RSP_TIMEOUT);
        return None;
      }
      r := Some(s.rx[0].byte);
      s := s.(rx := s.rx[1..], clock := Later(s.clock, s.rx[0].at));
    }

    /** Read without waiting; false when nothing is there. */
    method TryRead() returns (got: bool)
      modifies this
      ensures got == (old(s).rx != [] && old(s).rx[0].at <= old(s).clock)
      ensures s == if got then old(s).(rx := old(s).rx[1..]) else old(s)
    {
      got := s.rx != [] && s.rx[0].at <= s.clock;
      if got {
        s := s.(rx := s.rx[1..]);
      }
    }
  }
}
