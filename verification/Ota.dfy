/** The update worker: streaming install into the inactive slot and the requests
    that lead to it (`ota.rs`). The network, the WiFi driver and the flash calls
    answer as the environment parameters say; the hash and the app-descriptor
    reader are arbitrary functions. */
module Ota {
  import opened Basics
  import opened OtaManifest

  const CHUNK := 4096
  const APP_DESC_END := 288
  const MIN_FREE_HEAP: U32 := 40 * 1024

  type Chunk = c: seq<U8> | 0 < |c| <= CHUNK witness [0]

  function Concat(cs: seq<Chunk>): seq<U8> {
    if cs == [] then [] else Concat(cs[..|cs| - 1]) + cs[|cs| - 1]
  }

  // ---- Flash calls and what a log of them means ----

  datatype FlashOp = Begin | Write(bytes: seq<U8>, ok: bool) | End(ok: bool) | Abort | SetBoot(ok: bool)

  /** Where the update handle stands after a log of calls. */
  datatype Phase = Idle | Open | Ended | Misused

  function Next(p: Phase, op: FlashOp): Phase {
    match op
    case Begin => if p == Idle then Open else Misused
    case Write(_, _) => if p == Open then Open else Misused
    case End(ok) => if p == Open then (if ok then Ended else Idle) else Misused
    case Abort => if p == Open then Idle else Misused
    case SetBoot(_) => if p == Ended then Idle else Misused
  }

  /** `Idle` says: every begun handle was ended or aborted exactly once, nothing
      was written to a closed one, and the boot slot was only ever switched
      directly after a successful end. */
  function PhaseOf(log: seq<FlashOp>): Phase {
    if log == [] then Idle else Next(PhaseOf(log[..|log| - 1]), log[|log| - 1])
  }

  function NextSlot(slot: seq<U8>, op: FlashOp): seq<U8> {
    if op.Begin? then [] else if op.Write? && op.ok then slot + op.bytes else slot
  }

  /** The bytes written since the last `Begin`. */
  function SlotOf(log: seq<FlashOp>): seq<U8> {
    if log == [] then [] else NextSlot(SlotOf(log[..|log| - 1]), log[|log| - 1])
  }

  /** The images the boot slot was switched to, in order. */
  function Booted(log: seq<FlashOp>): seq<seq<U8>> {
    if log == [] then []
    else if log[|log| - 1] == SetBoot(true) then Booted(log[..|log| - 1]) + [SlotOf(log[..|log| - 1])]
    else Booted(log[..|log| - 1])
  }

  /** The operation put bytes into the slot before enough of them had been read
      for the descriptor to be inspected; `slot` is what was there before. */
  predicate Unverified(slot: seq<U8>, op: FlashOp) {
    op.Write? && op.ok && |slot| + |op.bytes| < APP_DESC_END
  }

  /** How many writes of the log did. */
  function UnverifiedWrites(log: seq<FlashOp>): nat {
    if log == [] then 0
    else
      var before := log[..|log| - 1];
      UnverifiedWrites(before) + if Unverified(SlotOf(before), log[|log| - 1]) then 1 else 0
  }

  lemma LogSnoc(log: seq<FlashOp>, op: FlashOp)
    ensures PhaseOf(log + [op]) == Next(PhaseOf(log), op)
    ensures SlotOf(log + [op]) == NextSlot(SlotOf(log), op)
    ensures UnverifiedWrites(log + [op]) == UnverifiedWrites(log) + if Unverified(SlotOf(log), op) then 1 else 0
    ensures Booted(log + [op]) == if op == SetBoot(true) then Booted(log) + [SlotOf(log)] else Booted(log)
  {
    assert (log + [op])[..|log|] == log;
  }

  /** Handles opened and handles ended or aborted. */
  function Opened(log: seq<FlashOp>): nat {
    if log == [] then 0 else Opened(log[..|log| - 1]) + if log[|log| - 1].Begin? then 1 else 0
  }

  function Closed(log: seq<FlashOp>): nat {
    if log == [] then 0
    else Closed(log[..|log| - 1]) + if log[|log| - 1].End? || log[|log| - 1].Abort? then 1 else 0
  }

  /** A log without misuse: as many handles closed as opened, but for the one still
      open; every write goes to an open handle; the boot slot is only switched
      directly after a successful end. */
  lemma {:induction false} NoMisuse(log: seq<FlashOp>, i: nat)
    requires PhaseOf(log) != Misused && i < |log|
    ensures Opened(log) == Closed(log) + if PhaseOf(log) == Open then 1 else 0
    ensures log[i].Write? ==> Opened(log[..i]) == Closed(log[..i]) + 1
    ensures log[i].SetBoot? ==> i > 0 && log[i - 1] == End(true)
    ensures PhaseOf(log) == Ended ==> log[|log| - 1] == End(true)
  {
    var p := log[..|log| - 1];
    if p != [] {
      NoMisuse(p, if i < |p| then i else 0);
      if i < |p| {
        assert p[..i] == log[..i];
      } else {
        assert p[|p| - 1] == log[i - 1];
      }
    }
  }

  class Device {
    var log: seq<FlashOp>

    constructor ()
      ensures log == []
    {
      log := [];
    }

    method Record(op: FlashOp)
      modifies this
      ensures log == old(log) + [op]
      ensures PhaseOf(log) == Next(PhaseOf(old(log)), op)
      ensures SlotOf(log) == NextSlot(SlotOf(old(log)), op)
      ensures UnverifiedWrites(log) ==
              UnverifiedWrites(old(log)) + if Unverified(SlotOf(old(log)), op) then 1 else 0
      ensures Booted(log) == if op == SetBoot(true) then Booted(old(log)) + [SlotOf(old(log))] else Booted(old(log))
    {
      LogSnoc(log, op);
      log := log + [op];
    }
  }

  /** Streaming writer over an update handle. */
  class SlotWriter {
    const dev: Device
    var open: bool

    constructor (dev: Device)
      requires PhaseOf(dev.log) == Idle
      modifies dev
      ensures this.dev == dev && open
      ensures PhaseOf(dev.log) == Open && SlotOf(dev.log) == [] && Booted(dev.log) == Booted(old(dev.log))
      ensures UnverifiedWrites(dev.log) == UnverifiedWrites(old(dev.log))
    {
      this.dev := dev;
      open := true;
      new;
      dev.Record(Begin);
    }

    method Write(chunk: seq<U8>, ok: bool) returns (r: bool)
      requires open && PhaseOf(dev.log) == Open
      modifies dev
      ensures r == ok
      ensures PhaseOf(dev.log) == Open && Booted(dev.log) == Booted(old(dev.log))
      ensures SlotOf(dev.log) == if ok then SlotOf(old(dev.log)) + chunk else SlotOf(old(dev.log))
      ensures UnverifiedWrites(dev.log) ==
              UnverifiedWrites(old(dev.log)) + if ok && |SlotOf(dev.log)| < APP_DESC_END then 1 else 0
    {
      dev.Record(FlashOp.Write(chunk, ok));
      return ok;
    }

    /** End the handle, make the slot the boot slot; the writer is dropped. */
    method FinishAndActivate(endOk: bool, bootOk: bool) returns (r: Result<(), OtaError>)
      requires open && PhaseOf(dev.log) == Open
      modifies this, dev
      ensures PhaseOf(dev.log) == Idle && SlotOf(dev.log) == SlotOf(old(dev.log))
      ensures r.Ok? <==> endOk && bootOk
      ensures r.Err? ==> r.error == if endOk then BootFailed else EndFailed
      ensures Booted(dev.log) == if r.Ok? then Booted(old(dev.log)) + [SlotOf(old(dev.log))] else Booted(old(dev.log))
      ensures UnverifiedWrites(dev.log) == UnverifiedWrites(old(dev.log))
    {
      open := false;
      dev.Record(End(endOk));
      if !endOk {
        r := Err(EndFailed);
      } else {
        dev.Record(SetBoot(bootOk));
        r := if bootOk then Ok(()) else Err(BootFailed);
      }
      Drop();
    }

    /** Abort an unfinished update. */
    method Drop()
      requires open ==> PhaseOf(dev.log) == Open
      requires !open ==> PhaseOf(dev.log) == Idle
      modifies dev
      ensures PhaseOf(dev.log) == Idle
      ensures SlotOf(dev.log) == SlotOf(old(dev.log)) && Booted(dev.log) == Booted(old(dev.log))
      ensures UnverifiedWrites(dev.log) == UnverifiedWrites(old(dev.log))
    {
      if open {
        dev.Record(Abort);
      }
    }
  }

  datatype OtaError =
    | NoWifi | FetchFailed | BadManifest(e: ManifestError) | NeedsUsb(minVersion: string) | NothingToInstall | Moving
    | HttpFailed | HttpStatus(status: nat) | LengthMismatch(len: U32) | LowHeap | BeginFailed
    | ReadFailed | Overflow | TooLong | BadDescriptor | WriteFailed | TooShort | WrongSize(total: U32) | ShaMismatch
    | EndFailed | BootFailed

  // ---- The environment ----

  /** The body arrives as chunks, then ends or breaks off. */
  datatype Http =
    | Unreachable
    | Response(status: nat, contentLength: Option<U32>, chunks: seq<Chunk>, broken: bool)

  /** Outcome of each flash call; `failWriteAt` is the first write to fail. */
  datatype Faults = Faults(beginOk: bool, failWriteAt: Option<nat>, endOk: bool, bootOk: bool)

  datatype WifiEnv = WifiEnv(
    stillConnected: bool, hasSsid: bool, driverOk: bool, wrapOk: bool, configOk: bool, startOk: bool, linkOk: bool)

  datatype CheckEnv = CheckEnv(uptime: U32, wifi: WifiEnv, fetched: bool, decoded: Option<Manifest>)

  datatype InstallEnv = InstallEnv(moving: bool, wifi: WifiEnv, http: Http, heap: U32, faults: Faults)

  datatype Event =
    | Check(install: bool, check: CheckEnv, inst: InstallEnv)
    | Install(check: CheckEnv, inst: InstallEnv)
    | TestWifi(wifi: WifiEnv)
    | MarkValid(ok: bool)
    | Timeout(idleLong: bool)

  datatype OtaState =
    | Resting | Connecting | Checking | UpToDate | Available | Downloading | Verifying | Rebooting | Failed

  datatype Status = Status(
    state: OtaState, progress: U8, available: Option<string>, notes: Option<string>, size: Option<U32>,
    error: Option<OtaError>, lastCheck: Option<U32>, lastCheckOk: bool)

  /** The published percentages never fall and stay within 0..100. */
  predicate Rising(p: seq<U8>) {
    forall i, j :: 0 <= i <= j < |p| ==> p[i] <= p[j] <= 100
  }

  /** The WiFi peripheral: its modem token, driver and radio. */
  datatype Radio = Radio(modem: bool, driver: bool, up: bool)

  /** `wifi_connect` on the radio. */
  function Connect(r: Radio, e: WifiEnv): (bool, Radio) {
    if r.up && r.driver && e.stillConnected then (true, r)
    else if !e.hasSsid then (false, r)
    else
      var d := if r.driver then r
               else if !r.modem then r
               else if !e.driverOk then r
               else if !e.wrapOk then r.(modem := false)
               else r.(modem := false, driver := true);
      if !d.driver || !e.configOk then (false, d)
      else if !d.up && !e.startOk then (false, d)
      else (e.linkOk, d.(up := true))
  }

  function Disconnect(r: Radio): Radio { Radio(r.modem || r.driver, false, false) }

  /** One owner at most, and no radio without its driver. */
  predicate Owned(r: Radio) { !(r.modem && r.driver) && (r.up ==> r.driver) }

  // ---- What makes an image good ----

  /** The build under which the worker runs and the two library oracles. */
  datatype Build = Build(
    version: string, project: string, sha: seq<U8> -> seq<U8>, describe: seq<U8> -> Option<(string, string)>)

  predicate DescriptorOk(b: Build, head: seq<U8>, m: Manifest) {
    b.describe(head) == Some((b.project, m.version))
  }

  /** The stream is the image the manifest promises, for this project. */
  predicate Genuine(b: Build, stream: seq<U8>, m: Manifest)
    requires IsSha256(m.sha256)
  {
    && |stream| == m.size
    && |stream| >= APP_DESC_END
    && DescriptorOk(b, stream[..APP_DESC_END], m)
    && b.sha(stream) == Digest(m.sha256)
  }

  /** A download that gets as far as reading the body. */
  predicate ReachesBody(m: Manifest, http: Http, heap: U32, f: Faults) {
    && http.Response? && http.status == 200
    && (http.contentLength.Some? ==> http.contentLength.value == m.size)
    && heap >= MIN_FREE_HEAP
    && f.beginOk
  }

  /** The first read is too short to hold the descriptor, and is written. */
  predicate ShortFirstRead(m: Manifest, chunks: seq<Chunk>, f: Faults) {
    chunks != [] && |chunks[0]| < APP_DESC_END && |chunks[0]| <= m.size && f.failWriteAt != Some(0)
  }

  /** A download that reaches the body and meets no flash or network fault. */
  predicate Unhindered(m: Manifest, http: Http, heap: U32, f: Faults) {
    && ReachesBody(m, http, heap, f) && !http.broken
    && (f.failWriteAt.Some? ==> f.failWriteAt.value >= |http.chunks|) && f.endOk && f.bootOk
  }

  /** Exactly when `download_and_write` activates the slot. */
  predicate Installs(b: Build, m: Manifest, http: Http, heap: U32, f: Faults)
    requires IsSha256(m.sha256)
  {
    Unhindered(m, http, heap, f) && Genuine(b, Concat(http.chunks), m)
  }

  /** The error names a true reason for this download to fail. */
  predicate Explains(b: Build, m: Manifest, http: Http, heap: U32, f: Faults, e: OtaError)
    requires IsSha256(m.sha256)
  {
    match e
    case HttpFailed => http.Unreachable?
    case HttpStatus(n) => http.Response? && http.status == n != 200
    case LengthMismatch(n) => http.Response? && http.contentLength == Some(n) && n != m.size
    case LowHeap => heap < 40960
    case BeginFailed => !f.beginOk
    case WriteFailed => f.failWriteAt.Some?
    case EndFailed => !f.endOk
    case BootFailed => !f.bootOk
    case ReadFailed => http.Response? && http.broken
    case _ => http.Response? && Faulty(b, m, Concat(http.chunks), e)
  }

  /** The error is true of this stream. */
  predicate Faulty(b: Build, m: Manifest, stream: seq<U8>, e: OtaError)
    requires IsSha256(m.sha256)
  {
    match e
    case TooLong => |stream| > m.size
    case TooShort => |stream| < 288
    case WrongSize(n) => |stream| == n as int != m.size
    case BadDescriptor => |stream| >= 288 && b.describe(stream[..288]) != Some((b.project, m.version))
    case ShaMismatch => b.sha(stream) != Digest(m.sha256)
    case Overflow => |stream| >= 0x1_0000_0000
    case _ => false
  }

  /** Why the read loop or the checks after it failed. */
  predicate StreamFailure(b: Build, m: Manifest, http: Http, f: Faults, e: OtaError)
    requires IsSha256(m.sha256) && http.Response?
  {
    || (e == ReadFailed && http.broken)
    || (e == WriteFailed && f.failWriteAt.Some?)
    || Faulty(b, m, Concat(http.chunks), e)
  }

  lemma StreamExplains(b: Build, m: Manifest, http: Http, heap: U32, f: Faults, e: OtaError)
    requires IsSha256(m.sha256) && http.Response? && StreamFailure(b, m, http, f, e)
    ensures Explains(b, m, http, heap, f, e)
  {
  }

  /** How the stream is cut into reads does not matter to `Installs`, which is
      what `DownloadAndWrite` returns for every download. */
  lemma ChunkingIndependent(b: Build, m: Manifest, http: Http, http': Http, heap: U32, f: Faults)
    requires IsSha256(m.sha256) && f.failWriteAt.None?
    requires http.Response? && http'.Response? && http' == http.(chunks := http'.chunks)
    requires Concat(http.chunks) == Concat(http'.chunks)
    ensures Installs(b, m, http, heap, f) == Installs(b, m, http', heap, f)
  {
  }

  /** The stream as a first read of `k` bytes followed by single bytes. */
  function ReadsOf(stream: seq<U8>, k: nat): (cs: seq<Chunk>)
    requires 0 < k <= CHUNK && k <= |stream|
    ensures Concat(cs) == stream && cs != [] && cs[0] == stream[..k]
  {
    var n := |stream| - 1;
    if n < k then
      assert stream[..k] == stream && Concat([]) == [];
      [stream]
    else
      var cs := ReadsOf(stream[..n], k);
      assert (cs + [[stream[n]]])[..|cs|] == cs;
      assert stream[..n][..k] == stream[..k];
      cs + [[stream[n]]]
  }

  /** The reads alone decide whether bytes are committed unverified: any genuine
      image installs either way, with a first read of 1 byte or of 288. */
  lemma ReadsDecide(b: Build, m: Manifest, stream: seq<U8>, k: nat, heap: U32, f: Faults)
    requires IsSha256(m.sha256) && Genuine(b, stream, m) && heap >= MIN_FREE_HEAP
    requires f == Faults(true, None, true, true) && 0 < k <= CHUNK && k <= |stream|
    ensures var http := Response(200, None, ReadsOf(stream, k), false);
            && Installs(b, m, http, heap, f)
            && (ReachesBody(m, http, heap, f) && ShortFirstRead(m, http.chunks, f) <==> k < APP_DESC_END)
  {
  }

  lemma {:induction false} ConcatPrefix(cs: seq<Chunk>, i: nat)
    requires i <= |cs|
    ensures Concat(cs[..i]) <= Concat(cs)
  {
    if i < |cs| {
      ConcatPrefix(cs[..|cs| - 1], i);
      assert cs[..|cs| - 1][..i] == cs[..i];
    } else {
      assert cs[..i] == cs;
    }
  }

  lemma ConcatSnoc(cs: seq<Chunk>, i: nat)
    requires i < |cs|
    ensures Concat(cs[..i + 1]) == Concat(cs[..i]) + cs[i]
  {
    assert cs[..i + 1][..i] == cs[..i];
  }

  function Percent(total: nat, size: nat): nat
    requires size > 0
  {
    total * 100 / size
  }

  lemma QuotientBelow(p: nat, q: nat, s: nat)
    requires q < p
    ensures q * s + s <= p * s
  {
    assert p * s == (p - q) * s + q * s;
    assert (p - q - 1) * s + s == (p - q) * s;
  }

  lemma DivMonotone(x: nat, y: nat, s: nat)
    requires 0 < s && x <= y
    ensures x / s <= y / s
  {
    var p, q := x / s, y / s;
    assert x == p * s + x % s && y == q * s + y % s;
    if p > q {
      QuotientBelow(p, q, s);
    }
  }

  lemma DivExact(p: nat, s: nat)
    requires s > 0
    ensures p * s / s == p
  {
    var q := p * s / s;
    assert p * s == q * s + p * s % s;
    if q < p {
      QuotientBelow(p, q, s);
    } else if q > p {
      QuotientBelow(q, p, s);
    }
  }

  /** The whole percentage reached. */
  lemma PercentSpec(total: nat, size: nat, p: nat)
    requires size > 0
    ensures p == Percent(total, size) <==> p * size <= 100 * total < p * size + size
  {
    var q := Percent(total, size);
    assert 100 * total == q * size + 100 * total % size;
    if q < p {
      QuotientBelow(p, q, size);
    } else if p < q {
      QuotientBelow(q, p, size);
    }
  }

  lemma PercentRises(a: nat, b: nat, size: nat)
    requires 0 < size && a <= b <= size
    ensures Percent(a, size) <= Percent(b, size) <= 100
    ensures b == size ==> Percent(b, size) == 100
  {
    DivMonotone(a * 100, b * 100, size);
    DivMonotone(b * 100, size * 100, size);
    DivExact(100, size);
  }
}
