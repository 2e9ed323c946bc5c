/** Persistence of the learned histogram: the dirty flag against flash
    (`learn_store.rs`). Reads and writes of the store may fail; a failed write
    leaves the stored blob as it was. */
module LearnStore {
  import opened Basics
  import opened RatioPeaks
  import opened BootMarker
  import opened Learn

  /** The non-volatile store under the histogram's key. */
  class Nvs {
    var blob: Option<seq<U8>>

    constructor ()
      ensures blob == None
    {
      blob := None;
    }

    /** Read into a buffer of `max` bytes; a longer blob is an error. */
    method GetBlob(max: nat, ok: bool) returns (r: Result<Option<seq<U8>>, ()>)
      ensures r == ReadBack(blob, max, ok)
    {
      if !ok || (blob.Some? && |blob.value| > max) {
        return Err(());
      }
      return Ok(blob);
    }

    method SetBlob(data: seq<U8>, ok: bool)
      modifies this
      ensures blob == if ok then Some(data) else old(blob)
    {
      if ok {
        blob := Some(data);
      }
    }
  }

  function ReadBack(blob: Option<seq<U8>>, max: nat, ok: bool): Result<Option<seq<U8>>, ()> {
    if !ok || (blob.Some? && |blob.value| > max) then Err(()) else Ok(blob)
  }

  /** Learner and flash together, as a value. */
  datatype Disk = Disk(bins: Hist, samples: U32, dirty: bool, flash: Option<seq<U8>>)

  function MarkStep(d: Disk): Disk {
    if d.bins[0] < MARKER_CAP then
      d.(bins := d.bins[0 := d.bins[0] + 1], samples := SatInc(d.samples), dirty := true)
    else d
  }

  /** Power-on: load what flash holds, else start empty; then the boot marker. */
  function BootStep(flash: Option<seq<U8>>, readOk: bool): Disk {
    if readOk && flash.Some? && |flash.value| == BLOB_LEN then
      MarkStep(Disk(BinsOfBlob(flash.value), SamplesOfBlob(flash.value), false, flash))
    else MarkStep(Disk(Empty(), 0, false, flash))
  }

  function SaveStep(d: Disk, writeOk: bool): Disk {
    if d.dirty && writeOk then d.(dirty := false, flash := Some(BlobOf(d.bins, d.samples))) else d
  }

  function SampleStep(d: Disk, rpm: real, speed: real, clutchPulled: bool, inNeutral: bool): Disk {
    if OutcomeOf(d.bins, rpm, speed, clutchPulled, inNeutral) == Accepted then
      d.(bins := Counted(d.bins, rpm, speed, clutchPulled, inNeutral), samples := SatInc(d.samples), dirty := true)
    else d
  }

  function ClearStep(d: Disk, writeOk: bool): Disk {
    SaveStep(d.(bins := Empty(), samples := 0, dirty := true), writeOk)
  }

  class RatioLearner {
    const nvs: Nvs
    var hist: RatioHistogram
    var dirty: bool

    ghost predicate Valid()
      reads this, hist
    {
      hist.Valid()
    }

    ghost function State(): Disk
      requires Valid()
      reads this, hist, hist.hist, nvs
    {
      Disk(hist.Bins(), hist.samples, dirty, nvs.blob)
    }

    constructor (nvs: Nvs, readOk: bool)
      ensures Valid() && this.nvs == nvs && fresh(hist) && fresh(hist.hist)
      ensures State() == BootStep(nvs.blob, readOk)
    {
      this.nvs := nvs;
      dirty := false;
      hist := new RatioHistogram();
      new;
      Load(readOk);
    }

    method Load(readOk: bool)
      requires Valid() && State() == Disk(Empty(), 0, false, nvs.blob)
      modifies this, hist, hist.hist
      ensures Valid() && (hist == old(hist) || fresh(hist)) && (hist.hist == old(hist.hist) || fresh(hist.hist))
      ensures State() == BootStep(nvs.blob, readOk)
    {
      var r := nvs.GetBlob(BLOB_LEN, readOk);
      if r.Ok? && r.value.Some? {
        var h := RatioHistogram.FromBlob(r.value.value);
        if h != null {
          hist := h;
        }
      }
      var marked := hist.DebugMark();
      if marked {
        dirty := true;
      }
    }

    /** Persist if anything changed; true when a write happened. */
    method Save(writeOk: bool) returns (wrote: bool)
      requires Valid()
      modifies this`dirty, nvs
      ensures Valid() && State() == SaveStep(old(State()), writeOk)
      ensures wrote == (old(dirty) && writeOk)
    {
      if !dirty {
        return false;
      }
      var data := hist.ToBlob();
      nvs.SetBlob(data, writeOk);
      if writeOk {
        dirty := false;
      }
      return writeOk;
    }

    method Clear(writeOk: bool)
      requires Valid()
      modifies this`dirty, nvs, hist, hist.hist
      ensures Valid() && State() == ClearStep(old(State()), writeOk)
    {
      hist.Clear();
      dirty := true;
      var _ := Save(writeOk);
    }

    method AddSample(rpm: real, speed: real, clutchPulled: bool, inNeutral: bool)
      requires Valid()
      modifies this`dirty, hist, hist.hist
      ensures Valid() && State() == SampleStep(old(State()), rpm, speed, clutchPulled, inNeutral)
    {
      var outcome := hist.AddSample(rpm, speed, clutchPulled, inNeutral);
      if outcome == Accepted {
        dirty := true;
      }
    }
  }

  // ---- Whole runs ----

  datatype Op =
    | AddSample(rpm: real, speed: real, clutchPulled: bool, inNeutral: bool)
    | Save(writeOk: bool)
    | Clear(writeOk: bool)
    | PowerCut(readOk: bool)

  function OpStep(d: Disk, op: Op): Disk {
    match op
    case AddSample(r, s, c, n) => SampleStep(d, r, s, c, n)
    case Save(ok) => SaveStep(d, ok)
    case Clear(ok) => ClearStep(d, ok)
    case PowerCut(ok) => BootStep(d.flash, ok)
  }

  /** From an erased flash, the first boot and then the operations in order. */
  function RunOps(ops: seq<Op>): Disk {
    if ops == [] then BootStep(None, true) else OpStep(RunOps(ops[..|ops| - 1]), ops[|ops| - 1])
  }

  /** A blob as `save` writes it: the count is the sum of the bins. */
  predicate SoundBlob(b: seq<U8>) {
    |b| == BLOB_LEN && SamplesOfBlob(b) == Sum(BinsOfBlob(b))
  }

  predicate Agrees(d: Disk) {
    && (!d.dirty ==> d.flash == Some(BlobOf(d.bins, d.samples)))
    && d.samples == Sum(d.bins)
    && (d.flash.Some? ==> SoundBlob(d.flash.value))
  }

  lemma BumpAgrees(bins: Hist, samples: U32, i: nat)
    requires i < BINS && bins[i] < 65535 && samples == Sum(bins)
    ensures SatInc(samples) == samples + 1 == Sum(bins[i := bins[i] + 1])
  {
    SumBump(bins, i);
    SumBound(bins);
  }

  lemma MarkAgrees(d: Disk)
    requires d.samples == Sum(d.bins) && (d.flash.Some? ==> SoundBlob(d.flash.value))
    requires !d.dirty && d.bins[0] >= MARKER_CAP ==> d.flash == Some(BlobOf(d.bins, d.samples))
    ensures Agrees(MarkStep(d))
  {
    if d.bins[0] < MARKER_CAP {
      BumpAgrees(d.bins, d.samples, 0);
    }
  }

  lemma BootAgrees(flash: Option<seq<U8>>, readOk: bool)
    requires flash.Some? ==> SoundBlob(flash.value)
    ensures Agrees(BootStep(flash, readOk))
  {
    if readOk && flash.Some? {
      BlobEncodes(flash.value);
      MarkAgrees(Disk(BinsOfBlob(flash.value), SamplesOfBlob(flash.value), false, flash));
    } else {
      SumZeros(Empty());
      MarkAgrees(Disk(Empty(), 0, false, flash));
    }
  }

  lemma OpAgrees(d: Disk, op: Op)
    requires Agrees(d)
    ensures Agrees(OpStep(d, op))
  {
    match op {
      case AddSample(r, s, c, n) =>
        if OutcomeOf(d.bins, r, s, c, n) == Accepted {
          BumpAgrees(d.bins, d.samples, BinOf(r, s));
        }
      case Save(ok) => BlobDecodes(d.bins, d.samples);
      case Clear(ok) =>
        SumZeros(Empty());
        BlobDecodes(Empty(), 0);
      case PowerCut(ok) => BootAgrees(d.flash, ok);
    }
  }

  /** Over any run of samples, saves, wipes, failures and power cuts a clear dirty
      flag means flash holds the histogram, and the count is the sum of the bins
      and far from saturating. */
  lemma {:induction false} FlashAgreement(ops: seq<Op>)
    ensures Agrees(RunOps(ops))
    ensures RunOps(ops).samples <= 65535 * BINS < 0xFFFF_FFFF
  {
    if ops == [] {
      BootAgrees(None, true);
    } else {
      FlashAgreement(ops[..|ops| - 1]);
      OpAgrees(RunOps(ops[..|ops| - 1]), ops[|ops| - 1]);
    }
    SumBound(RunOps(ops).bins);
  }

  /** A sample on the move under power, with a ratio from 20 up to 320 and room in
      its bin, is counted and makes the histogram dirty; any other changes nothing. */
  lemma SampleCounts(d: Disk, rpm: real, speed: real, clutchPulled: bool, inNeutral: bool)
    ensures var r := OpStep(d, AddSample(rpm, speed, clutchPulled, inNeutral));
            if !clutchPulled && !inNeutral && rpm >= 1200.0 && speed >= 10.0 && 20.0 <= rpm / speed < 320.0
               && d.bins[BinOf(rpm, speed)] < 65535
            then
              && r.dirty && r.samples == SatInc(d.samples) && r.flash == d.flash
              && forall i :: 0 <= i < BINS ==> r.bins[i] == d.bins[i] + if InBin(i, rpm / speed) then 1 else 0
            else r == d
  {
  }

  /** A wipe whose write succeeds leaves nothing but boot marks for the next boot,
      readable or not; one whose write fails leaves the stored blob, and the next
      completed save wipes it after all. */
  lemma ClearWipes(d: Disk, readOk: bool)
    ensures OpStep(OpStep(d, Clear(true)), PowerCut(readOk)).bins == Empty()[0 := 1]
    ensures OpStep(d, Clear(false)) == Disk(Empty(), 0, true, d.flash)
    ensures OpStep(OpStep(d, Clear(false)), Save(true)) == OpStep(d, Clear(true))
  {
    BlobDecodes(Empty(), 0);
  }

  function SampleOps(xs: seq<(real, real)>): (ops: seq<Op>)
    ensures |ops| == |xs|
  {
    seq(|xs|, j requires 0 <= j < |xs| => AddSample(xs[j].0, xs[j].1, false, false))
  }

  lemma {:induction false} SamplesCountAll(xs: seq<(real, real)>)
    ensures RunOps(SampleOps(xs)).bins == CountAll(Empty()[0 := 1], xs)
  {
    if xs != [] {
      var p := xs[..|xs| - 1];
      SamplesCountAll(p);
      assert SampleOps(xs)[..|xs| - 1] == SampleOps(p);
    }
  }

  /** The first ride of a new device, in one gear: despite the boot mark the peaks
      are exactly that gear, once it has 15 samples. */
  lemma FirstRideLearned(xs: seq<(real, real)>, i: nat)
    requires 3 <= i < BINS && |xs| <= 65535 && forall j :: 0 <= j < |xs| ==> Steady(xs[j], i)
    ensures var ps := PeaksOf(RunOps(SampleOps(xs)).bins);
            if |xs| < 15 then ps == []
            else |ps| == 1 && ps[0].mass == |xs| && forall j :: 0 <= j < |xs| ==> HalfUnitFrom(ps[0], xs[j])
  {
    SamplesCountAll(xs);
    SteadyCounts(Empty()[0 := 1], xs, i);
    SteadyCounts(Empty(), xs, i);
    var h := CountAll(Empty(), xs);
    assert h[1] == 0 && h[2] == 0;
    MarkerInvisibleIff(h);
    assert Marked(h, 0) == h && Marked(h, 1) == CountAll(Empty()[0 := 1], xs);
    SteadyRideLearned(xs, i);
  }

  /** A completed save survives a power cut: the reboot finds every bin, plus at
      most one more boot marker. */
  lemma SaveSurvivesPowerCut(ops: seq<Op>)
    ensures var d := RunOps(ops);
            var r := OpStep(OpStep(d, Save(true)), PowerCut(true));
            r.bins == MarkStep(d).bins && r.samples == MarkStep(d).samples
  {
    FlashAgreement(ops);
    var d := RunOps(ops);
    BlobDecodes(d.bins, d.samples);
  }

  predicate Below(g: Hist, h: Hist) { forall i :: 0 <= i < BINS ==> g[i] <= h[i] }

  function Stored(d: Disk): Hist {
    if d.flash.Some? && |d.flash.value| == BLOB_LEN then BinsOfBlob(d.flash.value) else Empty()
  }

  /** Neither wipes the histogram nor boots without having read it. */
  predicate Keeps(op: Op) { !op.Clear? && (op.PowerCut? ==> op.readOk) }

  lemma OpKeeps(d: Disk, op: Op)
    requires Agrees(d) && Keeps(op) && Below(Stored(d), d.bins)
    ensures Below(Stored(d), Stored(OpStep(d, op))) && Below(Stored(OpStep(d, op)), OpStep(d, op).bins)
  {
    BlobDecodes(d.bins, d.samples);
  }

  lemma {:induction false} StoredWithinBins(ops: seq<Op>)
    requires forall j :: 0 <= j < |ops| ==> Keeps(ops[j])
    ensures Below(Stored(RunOps(ops)), RunOps(ops).bins)
  {
    if ops != [] {
      var p := ops[..|ops| - 1];
      assert forall j :: 0 <= j < |p| ==> p[j] == ops[j];
      StoredWithinBins(p);
      FlashAgreement(p);
      OpKeeps(RunOps(p), ops[|ops| - 1]);
    }
  }

  /** Without wipes and failed boot reads, evidence in flash only ever grows. */
  lemma {:induction false} StoredEvidenceGrows(ops: seq<Op>, n: nat)
    requires n <= |ops| && forall j :: 0 <= j < |ops| ==> Keeps(ops[j])
    ensures Below(Stored(RunOps(ops[..n])), Stored(RunOps(ops)))
  {
    if n == |ops| {
      assert ops[..n] == ops;
    } else {
      var p := ops[..|ops| - 1];
      assert forall j :: 0 <= j < |p| ==> p[j] == ops[j];
      StoredEvidenceGrows(p, n);
      assert p[..n] == ops[..n];
      StoredWithinBins(p);
      FlashAgreement(p);
      OpKeeps(RunOps(p), ops[|ops| - 1]);
    }
  }

  /** The restriction is needed: after one failed boot read the next save replaces
      whatever was stored by the boot marker alone. */
  lemma FailedReadThenSaveForgets(d: Disk)
    ensures var r := OpStep(OpStep(d, PowerCut(false)), Save(true));
            r.flash == Some(BlobOf(Empty()[0 := 1], 1)) && Stored(r) == Empty()[0 := 1]
  {
    BlobDecodes(Empty()[0 := 1], 1);
  }
}
