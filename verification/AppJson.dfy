/** The iOS app's reading of the JSON bodies: each field by its name
    (`W230Protocol.swift`). */
module AppJson {
  import opened Basics
  import opened Text
  import opened Json
  import opened BleProto
  import Bands
  import Ota

  // ---- Fields by name ----

  /** The value under a key. */
  function Field(fs: seq<(string, Value)>, key: string): Option<Value> {
    if fs == [] then None
    else if fs[0].0 == key then Some(fs[0].1)
    else Field(fs[1..], key)
  }

  lemma {:induction false} FieldAt(fs: seq<(string, Value)>, i: nat)
    requires i < |fs| && forall j :: 0 <= j < i ==> fs[j].0 != fs[i].0
    ensures Field(fs, fs[i].0) == Some(fs[i].1)
  {
    if i > 0 {
      assert fs[0].0 != fs[i].0;
      FieldAt(fs[1..], i - 1);
    }
  }

  function TextOf(v: Option<Value>): Option<string> {
    if v.Some? && v.value.Str? then Some(v.value.s) else None
  }

  /** A non-negative integer below `limit`. */
  function NumberIn(v: Option<Value>, limit: nat): Option<nat> {
    if v.Some? && v.value.Num? && AllDigits(v.value.text) && NumberOf(v.value.text) < limit then
      Some(NumberOf(v.value.text))
    else None
  }

  /** An optional field may be absent or null. */
  predicate Absent(v: Option<Value>) { v.None? || v.value.Null? }

  // ---- Update status ----

  function StateOf(t: string): Option<Ota.OtaState> {
    if t == "idle" then Some(Ota.Resting)
    else if t == "connecting" then Some(Ota.Connecting)
    else if t == "checking" then Some(Ota.Checking)
    else if t == "upToDate" then Some(Ota.OtaState.UpToDate)
    else if t == "available" then Some(Ota.Available)
    else if t == "downloading" then Some(Ota.Downloading)
    else if t == "verifying" then Some(Ota.Verifying)
    else if t == "rebooting" then Some(Ota.Rebooting)
    else if t == "failed" then Some(Ota.Failed)
    else None
  }

  /** The app knows every state by the firmware's word for it. */
  lemma StatesAgree(s: Ota.OtaState)
    ensures StateOf(StateText(s)) == Some(s)
  {
  }

  predicate TextOrAbsent(v: Option<Value>) { Absent(v) || TextOf(v).Some? }

  predicate NumberOrAbsent(v: Option<Value>) { Absent(v) || NumberIn(v, 0x1_0000_0000).Some? }

  function OptNumber(v: Option<Value>): Option<U32>
    requires NumberOrAbsent(v)
  {
    if Absent(v) then None else Some(NumberIn(v, 0x1_0000_0000).value)
  }

  function StateField(v: Option<Value>): Option<Ota.OtaState> {
    if TextOf(v).Some? then StateOf(TextOf(v).value) else None
  }

  /** `OtaStatus` as the app decodes it; `None` when a field is missing or of the
      wrong kind. */
  function StatusOf(v: Value): Option<OtaStatus> {
    if !v.Obj? then None
    else
      var fs := v.fields;
      var state, progress := StateField(Field(fs, "state")), NumberIn(Field(fs, "progress"), 256);
      var current, ok := TextOf(Field(fs, "current")), Field(fs, "lastCheckOk");
      if state.None? || progress.None? || current.None? || ok.None? || !ok.value.Bool?
         || !TextOrAbsent(Field(fs, "available")) || !TextOrAbsent(Field(fs, "notes"))
         || !TextOrAbsent(Field(fs, "error")) || !NumberOrAbsent(Field(fs, "size"))
         || !NumberOrAbsent(Field(fs, "lastCheck"))
      then None
      else Some(OtaStatus(
        state.value, progress.value, current.value, TextOf(Field(fs, "available")), TextOf(Field(fs, "notes")),
        OptNumber(Field(fs, "size")), TextOf(Field(fs, "error")), OptNumber(Field(fs, "lastCheck")), ok.value.b))
  }

  /** The app's view of the update attribute. */
  function ReadStatus(text: string): Option<OtaStatus> {
    match ParseJson(text) case Some(v) => StatusOf(v) case None => None
  }

  lemma StatusKeysDistinct(i: nat, j: nat)
    requires j < i < 9
    ensures STATUS_KEYS[j] != STATUS_KEYS[i]
  {
  }

  lemma StatusField(s: OtaStatus, i: nat)
    requires i < 9
    ensures Field(StatusFields(s), STATUS_KEYS[i]) == Some(StatusFields(s)[i].1)
  {
    var fs := StatusFields(s);
    forall j: nat | j < i
      ensures fs[j].0 != fs[i].0
    {
      StatusKeysDistinct(i, j);
    }
    FieldAt(fs, i);
  }

  lemma OptStrField(x: Option<string>)
    ensures TextOrAbsent(Some(OptStr(x))) && TextOf(Some(OptStr(x))) == x
  {
  }

  lemma OptNumField(x: Option<U32>)
    ensures NumberOrAbsent(Some(OptNum(x))) && OptNumber(Some(OptNum(x))) == x
  {
  }

  lemma StatusRoundTrip(s: OtaStatus)
    ensures StatusOf(Obj(StatusFields(s))) == Some(s)
  {
    hide Field, OptStr, OptNum, StateText, StateOf, Decimal, OptNumber, NumberOf;
    var fs := StatusFields(s);
    assert Field(fs, "state") == Some(Str(StateText(s.state))) by { StatusField(s, 0); }
    assert Field(fs, "progress") == Some(Num(Decimal(s.progress))) by { StatusField(s, 1); }
    assert Field(fs, "current") == Some(Str(s.current)) by { StatusField(s, 2); }
    assert Field(fs, "available") == Some(OptStr(s.available)) by { StatusField(s, 3); }
    assert Field(fs, "notes") == Some(OptStr(s.notes)) by { StatusField(s, 4); }
    assert Field(fs, "size") == Some(OptNum(s.size)) by { StatusField(s, 5); }
    assert Field(fs, "error") == Some(OptStr(s.error)) by { StatusField(s, 6); }
    assert Field(fs, "lastCheck") == Some(OptNum(s.lastCheck)) by { StatusField(s, 7); }
    assert Field(fs, "lastCheckOk") == Some(Bool(s.lastCheckOk)) by { StatusField(s, 8); }
    StatesAgree(s.state);
    OptStrField(s.available);
    OptStrField(s.notes);
    OptStrField(s.error);
    OptNumField(s.size);
    OptNumField(s.lastCheck);
  }

  /** What the app reads is the status itself, but for the cut notes. */
  lemma OtaStatusReadsBack(s: OtaStatus) returns (t: OtaStatus)
    requires Fits(StatusText(Bare(s)))
    ensures CutNotes(s, t) && ReadStatus(OtaStatusJson(s)) == Some(t)
  {
    hide ParseJson, StatusFields, StatusOf;
    t := OtaStatusParses(s);
    StatusRoundTrip(t);
  }

  // ---- Calibration ----

  /** Numbers are kept as the texts they arrive as. */
  datatype Calibration = Calibration(
    factory: seq<string>, bands: Option<seq<string>>, learned: nat, samples: U32, peaks: seq<(string, U32)>)

  /** A list of numbers. */
  function NumbersOf(vs: seq<Value>): Option<seq<string>> {
    if vs == [] then Some([])
    else if vs[0].Num? && NumbersOf(vs[1..]).Some? then Some([vs[0].text] + NumbersOf(vs[1..]).value)
    else None
  }

  /** A ratio and the mass behind it. */
  function PairOf(v: Value): Option<(string, U32)> {
    if v.Arr? && |v.items| == 2 && v.items[0].Num? && NumberIn(Some(v.items[1]), 0x1_0000_0000).Some?
    then Some((v.items[0].text, NumberIn(Some(v.items[1]), 0x1_0000_0000).value)) else None
  }

  function PairsOf(vs: seq<Value>): Option<seq<(string, U32)>> {
    if vs == [] then Some([])
    else if PairOf(vs[0]).Some? && PairsOf(vs[1..]).Some? then Some([PairOf(vs[0]).value] + PairsOf(vs[1..]).value)
    else None
  }

  function ListOf(v: Option<Value>): Option<seq<string>> {
    if v.Some? && v.value.Arr? then NumbersOf(v.value.items) else None
  }

  function PeaksOf(v: Option<Value>): Option<seq<(string, U32)>> {
    if v.Some? && v.value.Arr? then PairsOf(v.value.items) else None
  }

  function CalibrationOf(v: Value): Option<Calibration> {
    if !v.Obj? then None
    else
      var fs := v.fields;
      var factory, bands := ListOf(Field(fs, "factory")), Field(fs, "bands");
      var learned, samples := NumberIn(Field(fs, "learned"), 0x1_0000_0000), NumberIn(Field(fs, "samples"), 0x1_0000_0000);
      var peaks := PeaksOf(Field(fs, "peaks"));
      if factory.None? || !(Absent(bands) || ListOf(bands).Some?) || learned.None? || samples.None? || peaks.None? then None
      else Some(Calibration(factory.value, ListOf(bands), learned.value, samples.value, peaks.value))
  }

  /** The app's view of the calibration attribute. */
  function ReadCalibration(text: string): Option<Calibration> {
    match ParseJson(text) case Some(v) => CalibrationOf(v) case None => None
  }

  function Texts(fmt: real -> string, xs: seq<real>): seq<string> {
    if xs == [] then [] else [fmt(xs[0])] + Texts(fmt, xs[1..])
  }

  function PeakTexts(fmt: real -> string, ps: seq<Peak>): seq<(string, U32)> {
    if ps == [] then [] else [(fmt(ps[0].0), ps[0].1)] + PeakTexts(fmt, ps[1..])
  }

  lemma {:induction false} NumbersRoundTrip(fmt: real -> string, xs: seq<real>)
    ensures NumbersOf(Ratios(fmt, xs)) == Some(Texts(fmt, xs))
  {
    if xs != [] {
      NumbersRoundTrip(fmt, xs[1..]);
      assert Ratios(fmt, xs)[1..] == Ratios(fmt, xs[1..]);
    }
  }

  lemma {:induction false} PairsRoundTrip(fmt: real -> string, ps: seq<Peak>)
    ensures PairsOf(PeakValues(fmt, ps)) == Some(PeakTexts(fmt, ps))
  {
    if ps != [] {
      PairsRoundTrip(fmt, ps[1..]);
      assert PeakValues(fmt, ps)[1..] == PeakValues(fmt, ps[1..]);
      assert PairOf(PeakValue(fmt, ps[0])) == Some((fmt(ps[0].0), ps[0].1));
    }
  }

  lemma CalibrationKeysDistinct(i: nat, j: nat)
    requires j < i < 5
    ensures CALIBRATION_KEYS[j] != CALIBRATION_KEYS[i]
  {
  }

  lemma CalibrationField(
      fmt: real -> string, bands: Option<seq<real>>, learned: nat, samples: U32, peaks: seq<Peak>, i: nat)
    requires i < 5
    ensures var fs := CalibrationFields(fmt, bands, learned, samples, peaks);
            Field(fs, CALIBRATION_KEYS[i]) == Some(fs[i].1)
  {
    var fs := CalibrationFields(fmt, bands, learned, samples, peaks);
    forall j: nat | j < i
      ensures fs[j].0 != fs[i].0
    {
      CalibrationKeysDistinct(i, j);
    }
    FieldAt(fs, i);
  }

  function Bounded(learned: nat): nat { if learned > 6 then 6 else learned }

  lemma CalibrationRoundTrip(
      fmt: real -> string, bands: Option<seq<real>>, learned: nat, samples: U32, peaks: seq<Peak>)
    ensures CalibrationOf(Obj(CalibrationFields(fmt, bands, learned, samples, peaks)))
            == Some(Calibration(Texts(fmt, Bands.FACTORY_BANDS),
                                match bands case Some(b) => Some(Texts(fmt, b)) case None => None,
                                Bounded(learned), samples, PeakTexts(fmt, peaks)))
  {
    hide Field, Decimal, NumberOf, Ratios, PeakValues, NumbersOf, PairsOf, Texts, PeakTexts;
    var fs := CalibrationFields(fmt, bands, learned, samples, peaks);
    assert Field(fs, "factory") == Some(Arr(Ratios(fmt, Bands.FACTORY_BANDS))) by {
      CalibrationField(fmt, bands, learned, samples, peaks, 0);
    }
    assert Field(fs, "bands") == Some(match bands case None => Null case Some(b) => Arr(Ratios(fmt, b))) by {
      CalibrationField(fmt, bands, learned, samples, peaks, 1);
    }
    assert Field(fs, "learned") == Some(Num(Decimal(Bounded(learned)))) by {
      CalibrationField(fmt, bands, learned, samples, peaks, 2);
    }
    assert Field(fs, "samples") == Some(Num(Decimal(samples))) by {
      CalibrationField(fmt, bands, learned, samples, peaks, 3);
    }
    assert Field(fs, "peaks") == Some(Arr(PeakValues(fmt, peaks))) by {
      CalibrationField(fmt, bands, learned, samples, peaks, 4);
    }
    NumbersRoundTrip(fmt, Bands.FACTORY_BANDS);
    NumbersRoundTrip(fmt, if bands.Some? then bands.value else []);
    PairsRoundTrip(fmt, peaks);
  }

  /** The app reads every field under its name: factory and learned bands as
      printed, the number of learned gears, at most 6, the sample count, and the
      longest prefix of the peaks that fits, each with its mass. */
  lemma CalibrationReadsBack(
      fmt: real -> string, bands: Option<seq<real>>, learned: nat, samples: U32, peaks: seq<Peak>) returns (k: nat)
    requires forall x :: IsNumber(fmt(x))
    ensures k <= |peaks|
    ensures ReadCalibration(CalibrationJson(fmt, bands, learned, samples, peaks))
            == Some(Calibration(Texts(fmt, Bands.FACTORY_BANDS),
                                match bands case Some(b) => Some(Texts(fmt, b)) case None => None,
                                Bounded(learned), samples, PeakTexts(fmt, peaks[..k])))
    ensures forall j :: k < j <= |peaks| ==> !Fits(CalibrationText(fmt, bands, learned, samples, peaks[..j]))
  {
    hide ParseJson, CalibrationFields, CalibrationOf, CalibrationJson, Texts, PeakTexts, Fits, CalibrationText, IsNumber;
    k := CalibrationParses(fmt, bands, learned, samples, peaks);
    CalibrationRoundTrip(fmt, bands, learned, samples, peaks[..k]);
  }
}
