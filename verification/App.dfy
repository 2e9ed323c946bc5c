/** The iOS app's end of the wire formats (`W230Protocol.swift`): merging
    histogram pages, writing credentials, reading the live packet. */
module App {
  import opened Basics
  import opened Utf8
  import opened BleProto
  import Gear

  const BINS := 300

  // ---- Histogram ----

  datatype Hist = Hist(samples: U32, bins: seq<nat>, pagesLoaded: set<nat>)

  function Count(data: seq<U8>): nat
    requires |data| >= 5
  {
    if (|data| - 5) / 2 < HIST_PAGE_BINS then (|data| - 5) / 2 else HIST_PAGE_BINS
  }

  function CountAt(data: seq<U8>, i: nat): nat
    requires |data| >= 5 && i < Count(data)
  {
    FromLE16(data[5 + 2 * i..7 + 2 * i])
  }

  /** Bin `j` after a page: from the page where it covers `j`. */
  function MergedBin(h: Hist, data: seq<U8>, j: nat): nat
    requires |h.bins| == BINS && j < BINS && |data| >= 5
  {
    var from: nat := data[0] * HIST_PAGE_BINS;
    if from <= j < from + Count(data) then CountAt(data, j - from) else h.bins[j]
  }

  /** The app's histogram after one page attribute. */
  function MergeStep(h: Hist, data: seq<U8>): (r: Hist)
    requires |h.bins| == BINS
    ensures |r.bins| == BINS
  {
    if |data| < 5 || data[0] >= 2 then h
    else
      var page: nat := data[0];
      Hist(FromLE32(data[1..5]),
           seq(BINS, j requires 0 <= j < BINS => MergedBin(h, data, j)),
           h.pagesLoaded + {page})
  }

  class Histogram {
    var samples: U32
    var bins: seq<nat>
    var pagesLoaded: set<nat>

    ghost predicate Valid()
      reads this
    {
      |bins| == BINS
    }

    ghost function State(): Hist
      reads this
    {
      Hist(samples, bins, pagesLoaded)
    }

    constructor ()
      ensures Valid() && State() == Hist(0, seq(BINS, _ => 0), {})
    {
      samples, bins, pagesLoaded := 0, seq(BINS, _ => 0), {};
    }

    method Merge(data: seq<U8>)
      requires Valid()
      modifies this
      ensures Valid() && State() == MergeStep(old(State()), data)
    {
      if |data| < 5 || data[0] >= 2 {
        return;
      }
      var page: nat := data[0];
      samples := FromLE32(data[1..5]);
      var count := Count(data);
      ghost var before := bins;
      for i := 0 to count
        invariant |bins| == BINS && samples == FromLE32(data[1..5]) && pagesLoaded == old(pagesLoaded)
        invariant forall j :: 0 <= j < BINS ==>
                    bins[j] == if page * HIST_PAGE_BINS <= j < page * HIST_PAGE_BINS + i
                               then CountAt(data, j - page * HIST_PAGE_BINS) else before[j]
      {
        bins := bins[page * HIST_PAGE_BINS + i := CountAt(data, i)];
      }
      pagesLoaded := pagesLoaded + {page};
      assert bins == MergeStep(old(State()), data).bins;
    }
  }

  /** A page of 0 or 1 with a full header sets the count and the bins it carries, low
      byte first; anything else is ignored. */
  lemma MergeSpec(h: Hist, data: seq<U8>, j: nat)
    requires |h.bins| == BINS && j < BINS
    ensures |data| < 5 || data[0] >= 2 ==> MergeStep(h, data) == h
    ensures |data| >= 5 && data[0] < 2 ==>
              var r := MergeStep(h, data);
              var i := j - 150 * data[0] as int;
              && r.samples as int == data[1] as int + 0x100 * data[2] as int + 0x1_0000 * data[3] as int + 0x100_0000 * data[4] as int
              && r.pagesLoaded == h.pagesLoaded + {data[0] as nat}
              && r.bins[j] as int == if 0 <= i < 150 && 6 + 2 * i < |data| then data[5 + 2 * i] as int + 0x100 * data[6 + 2 * i] as int
                                     else h.bins[j] as int
  {
  }

  /** The app's histogram after reading the given pages of one snapshot. */
  function MergePages(h: Hist, hist: seq<U16>, samples: U32, pages: seq<U8>): (r: Hist)
    requires |h.bins| == BINS
    ensures |r.bins| == BINS
  {
    if pages == [] then h
    else MergeStep(MergePages(h, hist, samples, pages[..|pages| - 1]), PageBytes(hist, samples, pages[|pages| - 1]))
  }

  lemma PageFields(hist: seq<U16>, samples: U32, page: U8, i: nat)
    requires i < HIST_PAGE_BINS
    ensures var data := PageBytes(hist, samples, page);
            && data[0] == page && FromLE32(data[1..5]) == samples && Count(data) == HIST_PAGE_BINS
            && CountAt(data, i) == BinAt(hist, page as int * HIST_PAGE_BINS + i)
  {
    var data := PageBytes(hist, samples, page);
    assert data[1..5] == LE32(samples);
    LE32RoundTrip(samples, data[1..5]);
    var from: nat := page * HIST_PAGE_BINS;
    var counts := CountsFrom(hist, from, HIST_PAGE_BINS);
    CountsFromAt(hist, from, HIST_PAGE_BINS, i);
    assert data[5 + 2 * i..7 + 2 * i] == counts[2 * i..2 * i + 2];
    LE16RoundTrip(BinAt(hist, from + i), counts[2 * i..2 * i + 2]);
  }

  lemma MergeOnePage(h: Hist, hist: seq<U16>, samples: U32, page: U8)
    requires |h.bins| == BINS && |hist| == BINS && page < 2
    ensures var r := MergeStep(h, PageBytes(hist, samples, page));
            && r.samples == samples && r.pagesLoaded == h.pagesLoaded + {page as nat}
            && forall j :: 0 <= j < BINS ==> r.bins[j] == if j / HIST_PAGE_BINS == page then hist[j] else h.bins[j]
  {
    var r := MergeStep(h, PageBytes(hist, samples, page));
    PageFields(hist, samples, page, 0);
    forall j | 0 <= j < BINS
      ensures r.bins[j] == if j / HIST_PAGE_BINS == page then hist[j] else h.bins[j]
    {
      if j / HIST_PAGE_BINS == page {
        PageFields(hist, samples, page, j - page as int * HIST_PAGE_BINS);
      }
    }
  }

  lemma {:induction false} MergedBins(h: Hist, hist: seq<U16>, samples: U32, pages: seq<U8>)
    requires |h.bins| == BINS && |hist| == BINS && forall k :: 0 <= k < |pages| ==> pages[k] < 2
    ensures var r := MergePages(h, hist, samples, pages);
            && (pages != [] ==> r.samples == samples)
            && (forall p: U8 :: p in pages ==> p as nat in r.pagesLoaded)
            && forall j :: 0 <= j < BINS ==>
                 r.bins[j] == if PageOf(j) in pages then hist[j] else h.bins[j]
  {
    if pages != [] {
      var p, l := pages[..|pages| - 1], pages[|pages| - 1];
      MergedBins(h, hist, samples, p);
      MergeOnePage(MergePages(h, hist, samples, p), hist, samples, l);
      assert pages == p + [l];
      assert forall q: U8 :: q in pages <==> q in p || q == l;
    }
  }

  function PageOf(j: nat): U8
    requires j < BINS
  {
    j / HIST_PAGE_BINS
  }

  /** Both pages of one snapshot, in any order and with repeats, rebuild all bins and
      the sample count, whatever the app held before. */
  lemma HistogramRebuilt(h: Hist, hist: seq<U16>, samples: U32, pages: seq<U8>)
    requires |h.bins| == BINS && |hist| == BINS && forall k :: 0 <= k < |pages| ==> pages[k] < 2
    requires 0 in pages && 1 in pages
    ensures var r := MergePages(h, hist, samples, pages);
            && r.samples == samples && {0, 1} <= r.pagesLoaded
            && forall j :: 0 <= j < BINS ==> r.bins[j] == hist[j]
  {
    MergedBins(h, hist, samples, pages);
    forall j | 0 <= j < BINS
      ensures PageOf(j) in pages
    {
      assert PageOf(j) == 0 || PageOf(j) == 1;
    }
  }

  // ---- Credentials ----

  /** `WifiCredentials.data`. */
  function CredentialsData(c: WifiCredentials): Option<seq<U8>> {
    var s, p := Encode(c.ssid), Encode(c.psk);
    if s == [] || |s| > 32 || |p| > 63 then None
    else Some([0x01, |s|] + s + [|p|] + p)
  }

  /** The app sends exactly what the firmware can store, and the firmware reads
      back what the app sent, whatever bytes follow. */
  lemma CredentialsCross(c: WifiCredentials, trailing: seq<U8>)
    ensures CredentialsData(c).Some? <==> Storable(c)
    ensures CredentialsData(c).Some? ==> DecodeCredentials(CredentialsData(c).value + trailing) == Some(c)
  {
    if Storable(c) {
      assert CredentialsData(c) == Some(EncodeCredentials(c));
      CredentialsRoundTrip(c, trailing);
    }
  }

  // ---- The live packet ----

  datatype AppGear = Unknown | Neutral | Number(n: int)

  datatype AppStatus = AppStatus(
    protocolVersion: U8, flags: U8, gear: AppGear, brightnessIndex: int, rpm: int, speed: int, ratioBits: U32,
    samples: U32, uptime: U32)

  predicate Bit(flags: U8, weight: nat)
    requires weight > 0
  {
    flags / weight % 2 == 1
  }

  function AppGearOf(b: U8): AppGear {
    if b == 0 then Unknown else if b == 7 then Neutral else if 1 <= b <= 6 then Number(b) else Unknown
  }

  /** `LiveStatus.init(data:)`. */
  function ReadLive(b: seq<U8>): Option<AppStatus> {
    if |b| < 20 then None
    else Some(AppStatus(b[0], b[1], AppGearOf(b[2]), b[3], FromLE16(b[4..6]), FromLE16(b[6..8]), FromLE32(b[8..12]),
                        FromLE32(b[12..16]), FromLE32(b[16..20])))
  }

  function InterlockOf(flags: U8): Option<bool> { if Bit(flags, 4) then Some(Bit(flags, 8)) else None }

  /** The bits of a number written with seven binary digits. */
  lemma BinaryDigits(d: seq<nat>, f: U8)
    requires |d| == 7 && forall i :: 0 <= i < 7 ==> d[i] <= 1
    requires f as int == d[0] + 2 * d[1] + 4 * d[2] + 8 * d[3] + 16 * d[4] + 32 * d[5] + 64 * d[6]
    ensures f % 2 == d[0] && f / 2 % 2 == d[1] && f / 4 % 2 == d[2] && f / 8 % 2 == d[3]
    ensures f / 16 % 2 == d[4] && f / 32 % 2 == d[5] && f / 64 % 2 == d[6]
  {
    assert f / 2 == d[1] + 2 * d[2] + 4 * d[3] + 8 * d[4] + 16 * d[5] + 32 * d[6];
    assert f / 4 == d[2] + 2 * d[3] + 4 * d[4] + 8 * d[5] + 16 * d[6];
    assert f / 8 == d[3] + 2 * d[4] + 4 * d[5] + 8 * d[6];
    assert f / 16 == d[4] + 2 * d[5] + 4 * d[6];
    assert f / 32 == d[5] + 2 * d[6];
    assert f / 64 == d[6];
  }

  lemma FlagsRoundTrip(s: LiveStatus)
    ensures var f := FlagsOf(s);
            && Bit(f, 1) == s.linkUp && Bit(f, 2) == s.neutralSwitch && InterlockOf(f) == s.interlock
            && Bit(f, 16) == s.learnFlash && Bit(f, 32) == s.otaBusy && Bit(f, 64) == s.demo
  {
    BinaryDigits([FlagBit(s.linkUp, 1), FlagBit(s.neutralSwitch, 1), FlagBit(s.interlock.Some?, 1),
                  FlagBit(s.interlock == Some(true), 1), FlagBit(s.learnFlash, 1), FlagBit(s.otaBusy, 1),
                  FlagBit(s.demo, 1)], FlagsOf(s));
    match s.interlock {
      case None =>
      case Some(closed) => assert s.interlock == Some(true) <==> closed;
    }
  }

  lemma Slices(h: seq<U8>, p: seq<U8>, q: seq<U8>, r: seq<U8>, n: seq<U8>, u: seq<U8>)
    requires |h| == 4 && |p| == 2 && |q| == 2 && |r| == 4 && |n| == 4 && |u| == 4
    ensures var b := h + p + q + r + n + u;
            && b[0] == h[0] && b[1] == h[1] && b[2] == h[2] && b[3] == h[3]
            && b[4..6] == p && b[6..8] == q && b[8..12] == r && b[12..16] == n && b[16..20] == u
  {
  }

  /** The packet carries every field to the app, gears 1 to 6 included; a higher one
      would show as 6, a gear 0 as unknown. */
  lemma LiveRoundTrip(s: LiveStatus, bits: real -> U32)
    ensures var r := ReadLive(LiveBytes(s, bits));
            && r.Some?
            && r.value == AppStatus(1, FlagsOf(s),
                                    match s.gear case Unknown => AppGear.Unknown case Neutral => AppGear.Neutral
                                                 case G(n) => if n == 0 then AppGear.Unknown
                                                              else Number(if n > 6 then 6 else n),
                                    s.brightnessIdx, RoundU16(Reading(s.rpm)), RoundU16(Reading(s.speed)),
                                    bits(LiveRatio(s)), s.samples, s.uptime)
  {
    hide LE16, LE32, FromLE16, FromLE32, FlagsOf, RoundU16, LiveRatio, Reading;
    var b := LiveBytes(s, bits);
    Slices([PROTOCOL_VERSION, FlagsOf(s), GearByte(s.gear), s.brightnessIdx],
           LE16(RoundU16(Reading(s.rpm))), LE16(RoundU16(Reading(s.speed))), LE32(bits(LiveRatio(s))), LE32(s.samples),
           LE32(s.uptime));
    LE16RoundTrip(RoundU16(Reading(s.rpm)), b[4..6]);
    LE16RoundTrip(RoundU16(Reading(s.speed)), b[6..8]);
    LE32RoundTrip(bits(LiveRatio(s)), b[8..12]);
    LE32RoundTrip(s.samples, b[12..16]);
    LE32RoundTrip(s.uptime, b[16..20]);
  }

  /** What the app shows of rpm and speed: nothing as 0, negatives as 0, what does
      not fit as 65535, anything else to the nearest unit. */
  predicate Conveys(shown: int, x: Option<real>) {
    match x
    case None => shown == 0
    case Some(v) =>
      && (v <= 0.0 ==> shown == 0) && (v >= 65535.0 ==> shown == 65535)
      && (0.0 <= v <= 65535.0 ==> v - 0.5 < shown as real <= v + 0.5)
  }

  /** Rpm, speed and the ratio of one to the other, which is 0 unless both are known
      and the speed is at least 1 km/h. */
  lemma LiveReadings(s: LiveStatus, bits: real -> U32) returns (ratio: real)
    ensures var r := ReadLive(LiveBytes(s, bits)).value;
            Conveys(r.rpm, s.rpm) && Conveys(r.speed, s.speed) && r.ratioBits == bits(ratio)
    ensures if s.rpm.Some? && s.speed.Some? && s.speed.value >= 1.0 then ratio * s.speed.value == s.rpm.value else ratio == 0.0
  {
    hide LiveBytes, ReadLive;
    LiveRoundTrip(s, bits);
    ratio := LiveRatio(s);
  }
}
