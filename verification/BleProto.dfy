/** Wire formats the firmware offers over BLE (`ble_proto.rs`): the bounded event
    log, the self-trimming JSON bodies, histogram pages and credentials. */
module BleProto {
  import opened Basics
  import opened Text
  import opened Utf8
  import opened Json
  import Bands
  import Gear
  import Ota

  const MAX_ATTR_LEN := 512

  // ---- Lengths of printed values ----

  function Pow10(k: nat): nat { if k == 0 then 1 else 10 * Pow10(k - 1) }

  lemma {:induction false} DecimalLen(n: nat, k: nat)
    requires k >= 1 && n < Pow10(k)
    ensures |Decimal(n)| <= k
  {
    if n >= 10 {
      DecimalLen(n / 10, k - 1);
    }
  }

  lemma DecimalIsNumber(n: nat)
    ensures IsNumber(Decimal(n)) && ByteLen(Decimal(n)) == |Decimal(n)|
  {
    AsciiLen(Decimal(n));
  }

  lemma U32TextLen(n: U32)
    ensures ByteLen(Decimal(n)) <= 10
  {
    DecimalIsNumber(n);
    assert Pow10(10) == 10000000000 by {
      assert Pow10(5) == 100000;
    }
    DecimalLen(n, 10);
  }

  lemma QuotedLen(s: string)
    ensures ByteLen(Quoted(s)) == 2 + ByteLen(Escape(s))
  {
    AsciiLen(['"']);
    ByteLenConcat(['"'], Escape(s));
    ByteLenConcat(['"'] + Escape(s), ['"']);
  }

  /** Bytes a field takes, with its key, quotes and colon. */
  lemma FieldLen(f: (string, Value))
    requires IsAscii(f.0)
    ensures ByteLen(RenderField(f)) == |f.0| + 3 + ByteLen(Render(f.1))
  {
    AsciiLen("\"" + f.0 + "\":");
    ByteLenConcat("\"" + f.0 + "\":", Render(f.1));
    assert RenderField(f) == "\"" + f.0 + "\":" + Render(f.1);
  }

  /** Bytes of a list of fields: their own and the commas between. */
  function FieldsLen(fs: seq<(string, Value)>): nat {
    if fs == [] then 0 else |fs[0].0| + 4 + ByteLen(Render(fs[0].1)) + FieldsLen(fs[1..])
  }

  predicate AsciiKeys(fs: seq<(string, Value)>) { forall i :: 0 <= i < |fs| ==> IsAscii(fs[i].0) }

  lemma {:induction false} FieldsLenSpec(fs: seq<(string, Value)>)
    requires fs != [] && AsciiKeys(fs)
    ensures ByteLen(RenderFields(fs)) == FieldsLen(fs) - 1
  {
    FieldLen(fs[0]);
    if |fs| > 1 {
      FieldsLenSpec(fs[1..]);
      AsciiLen(",");
      ByteLenConcat(RenderField(fs[0]), ",");
      ByteLenConcat(RenderField(fs[0]) + ",", RenderFields(fs[1..]));
    }
  }

  lemma ObjectLen(fs: seq<(string, Value)>)
    requires fs != [] && AsciiKeys(fs)
    ensures ByteLen(Render(Obj(fs))) == FieldsLen(fs) + 1
  {
    FieldsLenSpec(fs);
    AsciiLen("{");
    AsciiLen("}");
    ByteLenConcat("{", RenderFields(fs));
    ByteLenConcat("{" + RenderFields(fs), "}");
  }

  /** Replacing one field's value changes the length by the difference. */
  lemma {:induction false} FieldsLenReplace(fs: seq<(string, Value)>, i: nat, v: Value)
    requires i < |fs|
    ensures FieldsLen(fs[i := (fs[i].0, v)]) + ByteLen(Render(fs[i].1)) == FieldsLen(fs) + ByteLen(Render(v))
  {
    var gs := fs[i := (fs[i].0, v)];
    if i == 0 {
      assert gs[1..] == fs[1..];
    } else {
      assert gs[1..] == fs[1..][i - 1 := (fs[i].0, v)];
      FieldsLenReplace(fs[1..], i - 1, v);
    }
  }

  function ItemsLen(items: seq<Value>): nat {
    if items == [] then 0 else 1 + ByteLen(Render(items[0])) + ItemsLen(items[1..])
  }

  lemma {:induction false} ItemsLenSpec(items: seq<Value>)
    requires items != []
    ensures ByteLen(RenderItems(items)) == ItemsLen(items) - 1
  {
    if |items| > 1 {
      ItemsLenSpec(items[1..]);
      AsciiLen(",");
      ByteLenConcat(Render(items[0]), ",");
      ByteLenConcat(Render(items[0]) + ",", RenderItems(items[1..]));
    }
  }

  lemma ArrayLen(items: seq<Value>)
    ensures ByteLen(Render(Arr(items))) == if items == [] then 2 else ItemsLen(items) + 1
  {
    if items == [] {
      AsciiLen("[]");
    } else {
      ItemsLenSpec(items);
      AsciiLen("[");
      AsciiLen("]");
      ByteLenConcat("[", RenderItems(items));
      ByteLenConcat("[" + RenderItems(items), "]");
    }
  }

  // ---- The event log ----

  const CAPACITY := 24
  const MAX_EVENT := 48

  type Event = (U32, string)

  /** The ring after one more event. */
  function Pushed(ring: seq<Event>, uptime: U32, text: string): seq<Event> {
    (if |ring| == CAPACITY then ring[1..] else ring) + [(uptime, Truncated(text, MAX_EVENT))]
  }

  function EventValue(e: Event): Value { Obj([("t", Num(Decimal(e.0))), ("e", Str(e.1))]) }

  function EventValues(es: seq<Event>): (r: seq<Value>)
    ensures |r| == |es|
  {
    if es == [] then [] else [EventValue(es[0])] + EventValues(es[1..])
  }

  /** `[{"t":uptime,"e":"text"},...]`. */
  function LogText(es: seq<Event>): string { Render(Arr(EventValues(es))) }

  predicate Fits(text: string) { ByteLen(text) <= MAX_ATTR_LEN }

  /** How many of the oldest events are left out, from `skip` on. */
  function Skipped(ring: seq<Event>, skip: nat): (n: nat)
    requires skip <= |ring|
    ensures skip <= n <= |ring|
    ensures n < |ring| ==> Fits(LogText(ring[n..]))
    ensures forall j :: skip <= j < n ==> !Fits(LogText(ring[j..]))
    decreases |ring| - skip
  {
    if skip >= |ring| || Fits(LogText(ring[skip..])) then skip else Skipped(ring, skip + 1)
  }

  class EventRing {
    var events: seq<Event>

    constructor ()
      ensures events == []
    {
      events := [];
    }

    method Push(uptime: U32, text: string)
      modifies this
      ensures events == Pushed(old(events), uptime, text)
    {
      if |events| == CAPACITY {
        events := events[1..];
      }
      var t := TruncateUtf8(text, MAX_EVENT);
      events := events + [(uptime, t)];
    }

    method ToJson() returns (body: string)
      ensures body == LogText(events[Skipped(events, 0)..])
    {
      var skip := 0;
      while true
        invariant skip <= |events| && Skipped(events, 0) == Skipped(events, skip)
        decreases |events| - skip
      {
        body := LogText(events[skip..]);
        if ByteLen(body) <= MAX_ATTR_LEN || skip >= |events| {
          return;
        }
        skip := skip + 1;
      }
    }
  }

  function PushAll(ps: seq<Event>): seq<Event> {
    if ps == [] then [] else Pushed(PushAll(ps[..|ps| - 1]), ps[|ps| - 1].0, ps[|ps| - 1].1)
  }

  function Shortened(ps: seq<Event>): (r: seq<Event>)
    ensures |r| == |ps|
  {
    seq(|ps|, i requires 0 <= i < |ps| => (ps[i].0, Truncated(ps[i].1, MAX_EVENT)))
  }

  /** After any pushes the ring is the last at most 24 events, shortened. */
  lemma {:induction false} RingIsLast(ps: seq<Event>)
    ensures |PushAll(ps)| == if |ps| > 24 then 24 else |ps|
    ensures PushAll(ps) == Shortened(ps)[if |ps| > CAPACITY then |ps| - CAPACITY else 0..]
  {
    if ps != [] {
      var p := ps[..|ps| - 1];
      RingIsLast(p);
      assert Shortened(ps) == Shortened(p) + [(ps[|ps| - 1].0, Truncated(ps[|ps| - 1].1, MAX_EVENT))];
    }
  }

  /** What pushing keeps: at most 24 events of at most 48 bytes. */
  predicate RingOk(ring: seq<Event>) {
    |ring| <= CAPACITY && forall i :: 0 <= i < |ring| ==> ByteLen(ring[i].1) <= MAX_EVENT
  }

  lemma PushKeepsRing(ring: seq<Event>, uptime: U32, text: string)
    requires RingOk(ring)
    ensures RingOk(Pushed(ring, uptime, text))
  {
    TruncatedSpec(text, MAX_EVENT);
  }

  lemma {:induction false} RingReached(ps: seq<Event>)
    ensures RingOk(PushAll(ps))
  {
    if ps != [] {
      RingReached(ps[..|ps| - 1]);
      PushKeepsRing(PushAll(ps[..|ps| - 1]), ps[|ps| - 1].0, ps[|ps| - 1].1);
    }
  }

  lemma EventLen(e: Event)
    requires ByteLen(e.1) <= MAX_EVENT
    ensures ByteLen(Render(EventValue(e))) <= 311
  {
    hide Decimal, Escape, ByteLen, RenderFields;
    var fs := [("t", Num(Decimal(e.0))), ("e", Str(e.1))];
    U32TextLen(e.0);
    EscapeBound(e.1);
    QuotedLen(e.1);
    ObjectLen(fs);
    assert fs[1..] == [("e", Str(e.1))] && fs[1..][1..] == [];
    assert FieldsLen(fs[1..]) == 5 + ByteLen(Quoted(e.1)) + FieldsLen([]);
  }

  lemma NewestFits(e: Event)
    requires ByteLen(e.1) <= MAX_EVENT
    ensures Fits(LogText([e]))
  {
    hide Render, EventValue;
    EventLen(e);
    assert [e][1..] == [];
    var vs := [EventValue(e)];
    assert EventValues([e]) == vs;
    ArrayLen(vs);
    assert vs[1..] == [];
    assert ItemsLen(vs) == 1 + ByteLen(Render(EventValue(e)));
  }

  lemma EmptyFits()
    ensures Fits(LogText([]))
  {
    AsciiLen("[]");
  }

  lemma RingLogFits(ring: seq<Event>)
    requires RingOk(ring)
    ensures Fits(LogText(ring[Skipped(ring, 0)..]))
    ensures ring != [] ==> Skipped(ring, 0) < |ring|
  {
    hide LogText, Fits, Skipped;
    EmptyFits();
    if ring == [] {
      assert ring[0..] == [];
    } else {
      var n := |ring| - 1;
      NewestFits(ring[n]);
      assert ring[n..] == [ring[n]];
    }
  }

  /** After any pushes the log fits one attribute and carries the newest event. */
  lemma EventLogBound(ps: seq<Event>)
    ensures var ring := PushAll(ps);
            var n := Skipped(ring, 0);
            && ByteLen(LogText(ring[n..])) <= 512
            && (ps != [] ==> n < |ring| && ring[|ring| - 1] == Shortened(ps)[|ps| - 1])
  {
    hide LogText, Skipped, ByteLen;
    RingReached(ps);
    RingLogFits(PushAll(ps));
    RingIsLast(ps);
  }

  // ---- Reading the log in the app ----

  /** `FirmwareEvent` from an object with an integer `t` and a string `e`. */
  function EventOf(v: Value): Option<Event> {
    if v.Obj? && |v.fields| == 2 && v.fields[0].0 == "t" && v.fields[1].0 == "e" && v.fields[0].1.Num? && v.fields[1].1.Str?
       && AllDigits(v.fields[0].1.text) && NumberOf(v.fields[0].1.text) < 0x1_0000_0000
    then Some((NumberOf(v.fields[0].1.text), v.fields[1].1.s)) else None
  }

  function EventsOf(vs: seq<Value>): Option<seq<Event>> {
    if vs == [] then Some([])
    else if EventOf(vs[0]).Some? && EventsOf(vs[1..]).Some? then Some([EventOf(vs[0]).value] + EventsOf(vs[1..]).value)
    else None
  }

  /** The app's view of the events attribute. */
  function ReadLog(text: string): Option<seq<Event>> {
    var v := ParseJson(text);
    if v.Some? && v.value.Arr? then EventsOf(v.value.items) else None
  }

  lemma EventRoundTrip(e: Event)
    ensures EventOf(EventValue(e)) == Some(e) && Printable(EventValue(e))
  {
    DecimalIsNumber(e.0);
    var v := EventValue(e);
    assert v.fields[0] == ("t", Num(Decimal(e.0))) && v.fields[1] == ("e", Str(e.1));
  }

  lemma {:induction false} EventsRoundTrip(es: seq<Event>)
    ensures EventsOf(EventValues(es)) == Some(es)
    ensures forall i :: 0 <= i < |es| ==> Printable(EventValues(es)[i])
  {
    hide EventOf, EventValue, Printable;
    if es != [] {
      EventsRoundTrip(es[1..]);
      EventRoundTrip(es[0]);
      assert EventValues(es)[1..] == EventValues(es[1..]);
      assert es == [es[0]] + es[1..];
    }
  }

  /** Any list of events, whatever their characters, reads back from its text. */
  lemma LogReadsBack(es: seq<Event>)
    ensures ReadLog(LogText(es)) == Some(es)
  {
    EventsRoundTrip(es);
    ParseRendered(Arr(EventValues(es)));
  }

  // ---- OTA status ----

  datatype OtaStatus = OtaStatus(
    state: Ota.OtaState, progress: U8, current: string, available: Option<string>, notes: Option<string>,
    size: Option<U32>, error: Option<string>, lastCheck: Option<U32>, lastCheckOk: bool)

  /** `OtaState::as_str`. */
  function StateText(s: Ota.OtaState): string {
    match s
    case Resting => "idle"
    case Connecting => "connecting"
    case Checking => "checking"
    case UpToDate => "upToDate"
    case Available => "available"
    case Downloading => "downloading"
    case Verifying => "verifying"
    case Rebooting => "rebooting"
    case Failed => "failed"
  }

  function OptStr(s: Option<string>): Value { match s case None => Null case Some(x) => Str(x) }

  function OptNum(n: Option<U32>): Value { match n case None => Null case Some(x) => Num(Decimal(x)) }

  function StatusFields(s: OtaStatus): seq<(string, Value)> {
    [("state", Str(StateText(s.state))), ("progress", Num(Decimal(s.progress))), ("current", Str(s.current)),
     ("available", OptStr(s.available)), ("notes", OptStr(s.notes)), ("size", OptNum(s.size)),
     ("error", OptStr(s.error)), ("lastCheck", OptNum(s.lastCheck)), ("lastCheckOk", Bool(s.lastCheckOk))]
  }

  function StatusText(s: OtaStatus): string { Render(Obj(StatusFields(s))) }

  /** Notes shortened by 64 bytes. */
  function TrimNotes(s: OtaStatus): OtaStatus {
    if s.notes.None? then s
    else
      var n := ByteLen(s.notes.value);
      s.(notes := Some(Truncated(s.notes.value, if n < 64 then 0 else n - 64)))
  }

  /** Everything but the notes. */
  function Bare(s: OtaStatus): OtaStatus { if s.notes.None? then s else s.(notes := Some("")) }

  function NotesLen(s: OtaStatus): nat { if s.notes.None? then 0 else ByteLen(s.notes.value) }

  const STATUS_KEYS := ["state", "progress", "current", "available", "notes", "size", "error", "lastCheck", "lastCheckOk"]

  lemma StatusKeyAscii(i: nat)
    requires i < 9
    ensures IsAscii(STATUS_KEYS[i])
  {
  }

  lemma StatusKeyPlain(i: nat)
    requires i < 9
    ensures PlainKey(STATUS_KEYS[i])
  {
  }

  lemma StatusKeys(s: OtaStatus)
    ensures AsciiKeys(StatusFields(s))
    ensures forall i :: 0 <= i < 9 ==> PlainKey(StatusFields(s)[i].0)
  {
    hide IsAscii, PlainKey;
    forall i | 0 <= i < 9
      ensures IsAscii(StatusFields(s)[i].0) && PlainKey(StatusFields(s)[i].0)
    {
      StatusKeyAscii(i);
      StatusKeyPlain(i);
      assert StatusFields(s)[i].0 == STATUS_KEYS[i];
    }
  }

  lemma StatusLenNotes(s: OtaStatus)
    requires s.notes.Some?
    ensures ByteLen(StatusText(s)) == ByteLen(StatusText(Bare(s))) + ByteLen(Escape(s.notes.value))
  {
    hide FieldsLen, Escape, ByteLen, RenderFields;
    var fs := StatusFields(s);
    StatusKeys(s);
    StatusKeys(Bare(s));
    ObjectLen(fs);
    ObjectLen(StatusFields(Bare(s)));
    FieldsLenReplace(fs, 4, Str(""));
    assert fs[4 := (fs[4].0, Str(""))] == StatusFields(Bare(s));
    QuotedLen(s.notes.value);
    QuotedLen("");
    EmptyEscape();
  }

  lemma EmptyEscape()
    ensures ByteLen(Escape("")) == 0
  {
  }

  lemma TrimShrinks(s: OtaStatus)
    requires Fits(StatusText(Bare(s))) && !Fits(StatusText(s))
    ensures NotesLen(TrimNotes(s)) < NotesLen(s) && Bare(TrimNotes(s)) == Bare(s)
  {
    if NotesLen(s) == 0 && s.notes.Some? {
      LenAtLeastChars(s.notes.value);
    }
    if s.notes.Some? {
      var n := ByteLen(s.notes.value);
      TruncatedSpec(s.notes.value, if n < 64 then 0 else n - 64);
    }
  }

  /** `ota_status_json`, where it terminates. */
  function OtaStatusJson(s: OtaStatus): string
    requires Fits(StatusText(Bare(s)))
    decreases NotesLen(s)
  {
    if Fits(StatusText(s)) then StatusText(s)
    else
      TrimShrinks(s);
      OtaStatusJson(TrimNotes(s))
  }

  /** The first `depth` calls of the recursion; `None` while it has not returned. */
  function OtaStatusCalls(s: OtaStatus, depth: nat): Option<string>
    decreases depth
  {
    if depth == 0 then None
    else if Fits(StatusText(s)) then Some(StatusText(s))
    else OtaStatusCalls(TrimNotes(s), depth - 1)
  }

  /** `t` is `s` with its notes cut after some character. */
  predicate CutNotes(s: OtaStatus, t: OtaStatus) {
    t == s.(notes := t.notes) && (s.notes.None? ==> t.notes.None?) &&
    (s.notes.Some? ==> t.notes.Some? && t.notes.value <= s.notes.value)
  }

  /** The status with its notes shortened `k` times. */
  function Trims(s: OtaStatus, k: nat): OtaStatus
    decreases k
  {
    if k == 0 then s else Trims(TrimNotes(s), k - 1)
  }

  /** The text fits, and is that of the first of the successive shortenings of the
      notes to fit; all of these are prefixes. */
  lemma {:induction false} OtaStatusJsonSpec(s: OtaStatus) returns (k: nat)
    requires Fits(StatusText(Bare(s)))
    ensures OtaStatusJson(s) == StatusText(Trims(s, k)) && Fits(StatusText(Trims(s, k))) && CutNotes(s, Trims(s, k))
    ensures forall j: nat :: j < k ==> !Fits(StatusText(Trims(s, j)))
    decreases NotesLen(s)
  {
    hide Fits, StatusText, Truncated;
    if Fits(StatusText(s)) {
      k := 0;
    } else {
      TrimShrinks(s);
      var n := OtaStatusJsonSpec(TrimNotes(s));
      k := n + 1;
      forall j: nat | j < k
        ensures !Fits(StatusText(Trims(s, j)))
      {
        assert j > 0 ==> Trims(s, j) == Trims(TrimNotes(s), j - 1);
      }
      TrimCuts(s);
    }
  }

  /** One shortening takes 64 to 67 bytes off the notes, or all of fewer than 64. */
  lemma TrimStep(s: OtaStatus)
    ensures var n, m := NotesLen(s), NotesLen(TrimNotes(s));
            if n <= 64 then m == 0 else n - 67 <= m <= n - 64
  {
    if s.notes.Some? {
      var n := ByteLen(s.notes.value);
      TruncatedSpec(s.notes.value, if n < 64 then 0 else n - 64);
    }
  }

  lemma TrimCuts(s: OtaStatus)
    ensures CutNotes(s, TrimNotes(s))
    ensures NotesLen(s) <= NotesLen(TrimNotes(s)) + 67
  {
    if s.notes.Some? {
      var n := ByteLen(s.notes.value);
      TruncatedSpec(s.notes.value, if n < 64 then 0 else n - 64);
    }
  }

  lemma {:induction false} TrimsSnoc(s: OtaStatus, k: nat)
    ensures Trims(s, k + 1) == TrimNotes(Trims(s, k))
    decreases k
  {
    if k > 0 {
      TrimsSnoc(TrimNotes(s), k - 1);
    }
  }

  /** No more is cut than the steps of 64 bytes demand: any cut notes were too long
      with at most 67 bytes more. */
  lemma LittleIsCut(s: OtaStatus) returns (t: OtaStatus, longer: OtaStatus)
    requires Fits(StatusText(Bare(s)))
    ensures OtaStatusJson(s) == StatusText(t) && CutNotes(s, t)
    ensures t != s ==>
              !Fits(StatusText(longer)) && CutNotes(s, longer) && CutNotes(longer, t)
              && NotesLen(longer) <= NotesLen(t) + 67
  {
    hide Fits, StatusText, OtaStatusJson;
    var k := OtaStatusJsonSpec(s);
    t, longer := Trims(s, k), s;
    if k > 0 {
      longer := Trims(s, k - 1);
      TrimsSnoc(s, k - 1);
      TrimCuts(longer);
      TrimsCut(s, k - 1);
    }
  }

  lemma {:induction false} TrimsCut(s: OtaStatus, k: nat)
    ensures CutNotes(s, Trims(s, k))
    decreases k
  {
    TrimCuts(s);
    if k > 0 {
      TrimsCut(TrimNotes(s), k - 1);
    }
  }

  lemma {:induction false} CallsReturn(s: OtaStatus) returns (depth: nat)
    requires Fits(StatusText(Bare(s)))
    ensures OtaStatusCalls(s, depth) == Some(OtaStatusJson(s))
    decreases NotesLen(s)
  {
    if Fits(StatusText(s)) {
      depth := 1;
    } else {
      TrimShrinks(s);
      var d := CallsReturn(TrimNotes(s));
      depth := d + 1;
    }
  }

  lemma BareTrim(s: OtaStatus)
    ensures Bare(TrimNotes(s)) == Bare(s)
    ensures ByteLen(StatusText(Bare(s))) <= ByteLen(StatusText(s))
  {
    if s.notes.Some? {
      StatusLenNotes(s);
    }
  }

  lemma {:induction false} NeverReturns(s: OtaStatus, depth: nat)
    requires !Fits(StatusText(Bare(s)))
    ensures OtaStatusCalls(s, depth) == None
    decreases depth
  {
    if depth > 0 {
      BareTrim(s);
      NeverReturns(TrimNotes(s), depth - 1);
    }
  }

  /** The recursion returns exactly when everything but the notes fits. */
  lemma OtaStatusReturnsIff(s: OtaStatus)
    ensures (exists depth :: OtaStatusCalls(s, depth).Some?) <==> Fits(StatusText(Bare(s)))
  {
    if Fits(StatusText(Bare(s))) {
      var depth := CallsReturn(s);
      assert OtaStatusCalls(s, depth).Some?;
    } else {
      forall depth
        ensures OtaStatusCalls(s, depth).None?
      {
        NeverReturns(s, depth);
      }
    }
  }

  /** An error text of 512 bytes or more is a case where it never returns. */
  lemma LongErrorNeverReturns(s: OtaStatus, depth: nat)
    requires s.error.Some? && ByteLen(s.error.value) >= MAX_ATTR_LEN
    ensures OtaStatusCalls(s, depth) == None
  {
    hide FieldsLen, Escape, ByteLen, RenderFields;
    var b := Bare(s);
    var fs := StatusFields(b);
    StatusKeys(b);
    ObjectLen(fs);
    FieldsLenReplace(fs, 6, Str(""));
    EscapeBound(s.error.value);
    QuotedLen(s.error.value);
    QuotedLen("");
    EmptyEscape();
    NeverReturns(s, depth);
  }

  /** The worker's error text for a manifest of another project quotes the name it
      read, so a long enough name is such a case. */
  lemma LongProjectNameNeverReturns(s: OtaStatus, p: string, depth: nat)
    requires s.error == Some("manifest is for project '" + p + "'") && ByteLen(p) >= MAX_ATTR_LEN
    ensures OtaStatusCalls(s, depth) == None
  {
    hide ByteLen, OtaStatusCalls;
    ByteLenConcat("manifest is for project '", p);
    ByteLenConcat("manifest is for project '" + p, "'");
    LongErrorNeverReturns(s, depth);
  }

  lemma OtaStatusParses(s: OtaStatus) returns (t: OtaStatus)
    requires Fits(StatusText(Bare(s)))
    ensures CutNotes(s, t) && ParseJson(OtaStatusJson(s)) == Some(Obj(StatusFields(t)))
  {
    var k := OtaStatusJsonSpec(s);
    t := Trims(s, k);
    StatusKeys(t);
    StatusPrintable(t);
    ParseRendered(Obj(StatusFields(t)));
  }

  lemma StatusPrintable(s: OtaStatus)
    ensures forall i :: 0 <= i < 9 ==> Printable(StatusFields(s)[i].1)
  {
    DecimalIsNumber(s.progress);
    if s.size.Some? {
      DecimalIsNumber(s.size.value);
    }
    if s.lastCheck.Some? {
      DecimalIsNumber(s.lastCheck.value);
    }
  }

  // ---- Calibration ----

  type Peak = (real, U32)

  // `fmt` prints a ratio with one decimal; which digits it gives is not modelled.

  function Ratios(fmt: real -> string, xs: seq<real>): (r: seq<Value>)
    ensures |r| == |xs|
  {
    if xs == [] then [] else [Num(fmt(xs[0]))] + Ratios(fmt, xs[1..])
  }

  function PeakValue(fmt: real -> string, p: Peak): Value { Arr([Num(fmt(p.0)), Num(Decimal(p.1))]) }

  function PeakValues(fmt: real -> string, ps: seq<Peak>): (r: seq<Value>)
    ensures |r| == |ps|
  {
    if ps == [] then [] else [PeakValue(fmt, ps[0])] + PeakValues(fmt, ps[1..])
  }

  function CalibrationFields(fmt: real -> string, bands: Option<seq<real>>, learned: nat, samples: U32, peaks: seq<Peak>):
      seq<(string, Value)> {
    [("factory", Arr(Ratios(fmt, Bands.FACTORY_BANDS))),
     ("bands", match bands case None => Null case Some(b) => Arr(Ratios(fmt, b))),
     ("learned", Num(Decimal(if learned > Bands.NUM_GEARS then Bands.NUM_GEARS else learned))),
     ("samples", Num(Decimal(samples))),
     ("peaks", Arr(PeakValues(fmt, peaks)))]
  }

  function CalibrationText(fmt: real -> string, bands: Option<seq<real>>, learned: nat, samples: U32, peaks: seq<Peak>):
      string {
    Render(Obj(CalibrationFields(fmt, bands, learned, samples, peaks)))
  }

  /** `calibration_json`: drop the weakest peak until the body fits. */
  function CalibrationJson(fmt: real -> string, bands: Option<seq<real>>, learned: nat, samples: U32, peaks: seq<Peak>):
      string
    decreases |peaks|
  {
    var body := CalibrationText(fmt, bands, learned, samples, peaks);
    if Fits(body) || peaks == [] then body
    else CalibrationJson(fmt, bands, learned, samples, peaks[..|peaks| - 1])
  }

  const CALIBRATION_KEYS := ["factory", "bands", "learned", "samples", "peaks"]

  lemma CalibrationKeyAscii(i: nat)
    requires i < 5
    ensures IsAscii(CALIBRATION_KEYS[i])
  {
  }

  lemma CalibrationKeyPlain(i: nat)
    requires i < 5
    ensures PlainKey(CALIBRATION_KEYS[i])
  {
  }

  lemma CalibrationKeys(fs: seq<(string, Value)>)
    requires |fs| == 5 && forall i :: 0 <= i < 5 ==> fs[i].0 == CALIBRATION_KEYS[i]
    ensures AsciiKeys(fs)
    ensures forall i :: 0 <= i < 5 ==> PlainKey(fs[i].0)
  {
    hide IsAscii, PlainKey;
    forall i | 0 <= i < 5
      ensures IsAscii(fs[i].0) && PlainKey(fs[i].0)
    {
      CalibrationKeyAscii(i);
      CalibrationKeyPlain(i);
    }
  }

  lemma PeaksOnlyAdd(fmt: real -> string, bands: Option<seq<real>>, learned: nat, samples: U32, peaks: seq<Peak>)
    ensures ByteLen(CalibrationText(fmt, bands, learned, samples, []))
            <= ByteLen(CalibrationText(fmt, bands, learned, samples, peaks))
  {
    hide FieldsLen, ByteLen, RenderFields, Ratios, Decimal;
    var fs, gs := CalibrationFields(fmt, bands, learned, samples, peaks), CalibrationFields(fmt, bands, learned, samples, []);
    CalibrationKeys(fs);
    CalibrationKeys(gs);
    ObjectLen(fs);
    ObjectLen(gs);
    FieldsLenReplace(fs, 4, Arr([]));
    assert fs[4 := (fs[4].0, Arr([]))] == gs;
    ArrayLen([]);
    ArrayLen(PeakValues(fmt, peaks));
  }

  /** The body carries the longest prefix of the peaks, strongest first, that fits;
      it fits whenever the body without peaks does. */
  lemma {:induction false} CalibrationJsonSpec(
      fmt: real -> string, bands: Option<seq<real>>, learned: nat, samples: U32, peaks: seq<Peak>) returns (k: nat)
    ensures k <= |peaks|
    ensures CalibrationJson(fmt, bands, learned, samples, peaks) == CalibrationText(fmt, bands, learned, samples, peaks[..k])
    ensures forall j :: k < j <= |peaks| ==> !Fits(CalibrationText(fmt, bands, learned, samples, peaks[..j]))
    ensures Fits(CalibrationJson(fmt, bands, learned, samples, peaks))
            <==> Fits(CalibrationText(fmt, bands, learned, samples, []))
    decreases |peaks|
  {
    hide Fits, CalibrationText;
    assert peaks[..|peaks|] == peaks;
    if Fits(CalibrationText(fmt, bands, learned, samples, peaks)) || peaks == [] {
      k := |peaks|;
      CalibrationShorterFits(fmt, bands, learned, samples, peaks);
    } else {
      var p := peaks[..|peaks| - 1];
      k := CalibrationJsonSpec(fmt, bands, learned, samples, p);
      assert p[..k] == peaks[..k];
      forall j | k < j <= |peaks|
        ensures !Fits(CalibrationText(fmt, bands, learned, samples, peaks[..j]))
      {
        if j < |peaks| {
          assert p[..j] == peaks[..j];
        }
      }
    }
  }

  lemma CalibrationShorterFits(
      fmt: real -> string, bands: Option<seq<real>>, learned: nat, samples: U32, peaks: seq<Peak>)
    ensures Fits(CalibrationText(fmt, bands, learned, samples, peaks))
            ==> Fits(CalibrationText(fmt, bands, learned, samples, []))
  {
    PeaksOnlyAdd(fmt, bands, learned, samples, peaks);
  }

  predicate ShortTexts(fmt: real -> string, xs: seq<real>) {
    forall i :: 0 <= i < |xs| ==> ByteLen(fmt(xs[i])) <= 25
  }

  lemma {:induction false} RatiosLen(fmt: real -> string, xs: seq<real>)
    requires ShortTexts(fmt, xs)
    ensures ItemsLen(Ratios(fmt, xs)) <= 26 * |xs|
  {
    if xs != [] {
      RatiosLen(fmt, xs[1..]);
      assert Ratios(fmt, xs)[1..] == Ratios(fmt, xs[1..]);
      assert Render(Ratios(fmt, xs)[0]) == fmt(xs[0]);
    }
  }

  lemma RatioArrayLen(fmt: real -> string, xs: seq<real>)
    requires |xs| <= 6 && ShortTexts(fmt, xs)
    ensures ByteLen(Render(Arr(Ratios(fmt, xs)))) <= 157
  {
    RatiosLen(fmt, xs);
    ArrayLen(Ratios(fmt, xs));
  }

  lemma FiveFieldsLen(fs: seq<(string, Value)>)
    requires |fs| == 5
    ensures FieldsLen(fs) ==
            |fs[0].0| + |fs[1].0| + |fs[2].0| + |fs[3].0| + |fs[4].0| + 20
            + ByteLen(Render(fs[0].1)) + ByteLen(Render(fs[1].1)) + ByteLen(Render(fs[2].1))
            + ByteLen(Render(fs[3].1)) + ByteLen(Render(fs[4].1))
  {
    hide Render, ByteLen;
    assert fs[1..][0] == fs[1] && fs[1..][1..] == fs[2..];
    assert fs[2..][0] == fs[2] && fs[2..][1..] == fs[3..];
    assert fs[3..][0] == fs[3] && fs[3..][1..] == fs[4..];
    assert fs[4..][0] == fs[4] && fs[4..][1..] == [];
    assert FieldsLen(fs[3..]) == |fs[3].0| + 4 + ByteLen(Render(fs[3].1)) + FieldsLen(fs[4..]);
    assert FieldsLen(fs[2..]) == |fs[2].0| + 4 + ByteLen(Render(fs[2].1)) + FieldsLen(fs[3..]);
    assert FieldsLen(fs[1..]) == |fs[1].0| + 4 + ByteLen(Render(fs[1].1)) + FieldsLen(fs[2..]);
  }

  /** With at most six bands of at most 25 characters each, it always fits. */
  lemma CalibrationFits(fmt: real -> string, bands: Option<seq<real>>, learned: nat, samples: U32, peaks: seq<Peak>)
    requires ShortTexts(fmt, Bands.FACTORY_BANDS)
    requires bands.Some? ==> |bands.value| <= Bands.NUM_GEARS && ShortTexts(fmt, bands.value)
    ensures Fits(CalibrationJson(fmt, bands, learned, samples, peaks))
  {
    hide Ratios, Decimal, RenderFields, FieldsLen, ByteLen, ShortTexts, IsAscii, PlainKey, PeakValues;
    var fs := CalibrationFields(fmt, bands, learned, samples, []);
    assert PeakValues(fmt, []) == [];
    CalibrationKeys(fs);
    ObjectLen(fs);
    FiveFieldsLen(fs);
    RatioArrayLen(fmt, Bands.FACTORY_BANDS);
    if bands.Some? {
      RatioArrayLen(fmt, bands.value);
    } else {
      AsciiLen("null");
    }
    U32TextLen(if learned > Bands.NUM_GEARS then Bands.NUM_GEARS else learned);
    U32TextLen(samples);
    ArrayLen([]);
    var k := CalibrationJsonSpec(fmt, bands, learned, samples, peaks);
  }

  lemma {:induction false} PeaksPrintable(fmt: real -> string, xs: seq<real>, ps: seq<Peak>)
    requires forall x :: IsNumber(fmt(x))
    ensures forall i :: 0 <= i < |xs| ==> Printable(Ratios(fmt, xs)[i])
    ensures forall i :: 0 <= i < |ps| ==> Printable(PeakValues(fmt, ps)[i])
    decreases |xs| + |ps|
  {
    if xs != [] {
      PeaksPrintable(fmt, xs[1..], ps);
    } else if ps != [] {
      PeaksPrintable(fmt, xs, ps[1..]);
      DecimalIsNumber(ps[0].1);
    }
  }

  lemma CalibrationPrintable(fmt: real -> string, bands: Option<seq<real>>, learned: nat, samples: U32, peaks: seq<Peak>)
    requires forall x :: IsNumber(fmt(x))
    ensures Printable(Obj(CalibrationFields(fmt, bands, learned, samples, peaks)))
  {
    hide Ratios, PeakValues, Decimal, IsNumber, PlainKey;
    var fs := CalibrationFields(fmt, bands, learned, samples, peaks);
    CalibrationKeys(fs);
    PeaksPrintable(fmt, Bands.FACTORY_BANDS, peaks);
    PeaksPrintable(fmt, if bands.Some? then bands.value else [], []);
    DecimalIsNumber(if learned > Bands.NUM_GEARS then Bands.NUM_GEARS else learned);
    DecimalIsNumber(samples);
    assert forall i :: 0 <= i < 5 ==> Printable(fs[i].1);
  }

  lemma CalibrationParses(
      fmt: real -> string, bands: Option<seq<real>>, learned: nat, samples: U32, peaks: seq<Peak>) returns (k: nat)
    requires forall x :: IsNumber(fmt(x))
    ensures k <= |peaks|
    ensures ParseJson(CalibrationJson(fmt, bands, learned, samples, peaks))
            == Some(Obj(CalibrationFields(fmt, bands, learned, samples, peaks[..k])))
    ensures forall j :: k < j <= |peaks| ==> !Fits(CalibrationText(fmt, bands, learned, samples, peaks[..j]))
  {
    hide IsNumber, ParseJson, Render, Fits, CalibrationFields, CalibrationJson, Printable;
    k := CalibrationJsonSpec(fmt, bands, learned, samples, peaks);
    CalibrationPrintable(fmt, bands, learned, samples, peaks[..k]);
    ParseRendered(Obj(CalibrationFields(fmt, bands, learned, samples, peaks[..k])));
  }

  // ---- Histogram pages and credentials ----

  const HIST_PAGE_BINS := 150

  /** `hist.get(i).copied().unwrap_or(0)`. */
  function BinAt(hist: seq<U16>, i: nat): U16 { if i < |hist| then hist[i] else 0 }

  /** Counts `from..from + n` as bytes. */
  function CountsFrom(hist: seq<U16>, from: nat, n: nat): (b: seq<U8>)
    ensures |b| == 2 * n
  {
    if n == 0 then [] else CountsFrom(hist, from, n - 1) + LE16(BinAt(hist, from + n - 1))
  }

  /** `[page u8][samples u32 LE][count u16 LE x 150]`. */
  function PageBytes(hist: seq<U16>, samples: U32, page: U8): (b: seq<U8>)
    ensures |b| == 305
  {
    [page] + LE32(samples) + CountsFrom(hist, page * HIST_PAGE_BINS, HIST_PAGE_BINS)
  }

  method HistPage(hist: seq<U16>, samples: U32, page: U8) returns (out: seq<U8>)
    ensures out == PageBytes(hist, samples, page)
  {
    var start: nat := page * HIST_PAGE_BINS;
    out := [page];
    out := out + LE32(samples);
    for n := 0 to HIST_PAGE_BINS
      invariant out == [page] + LE32(samples) + CountsFrom(hist, start, n)
    {
      out := out + LE16(BinAt(hist, start + n));
    }
  }

  lemma {:induction false} CountsFromAt(hist: seq<U16>, from: nat, n: nat, i: nat)
    requires i < n
    ensures CountsFrom(hist, from, n)[2 * i..2 * i + 2] == LE16(BinAt(hist, from + i))
  {
    if i < n - 1 {
      CountsFromAt(hist, from, n - 1, i);
      assert CountsFrom(hist, from, n)[2 * i..2 * i + 2] == CountsFrom(hist, from, n - 1)[2 * i..2 * i + 2];
    }
  }

  /** Byte for byte: the page, the count, then 150 bins from bin 150 times the page
      on, low byte first, zero beyond the histogram. */
  lemma PageLayout(hist: seq<U16>, samples: U32, page: U8, i: nat)
    requires i < 150
    ensures var b := PageBytes(hist, samples, page);
            var j := 150 * page as int + i;
            && b[0] == page
            && b[1] as int + 0x100 * b[2] as int + 0x1_0000 * b[3] as int + 0x100_0000 * b[4] as int == samples as int
            && b[5 + 2 * i] as int + 0x100 * b[6 + 2 * i] as int == (if j < |hist| then hist[j] as int else 0)
  {
    var b := PageBytes(hist, samples, page);
    var counts := CountsFrom(hist, page * HIST_PAGE_BINS, HIST_PAGE_BINS);
    CountsFromAt(hist, page * HIST_PAGE_BINS, HIST_PAGE_BINS, i);
    assert b[5 + 2 * i] == counts[2 * i..2 * i + 2][0] && b[6 + 2 * i] == counts[2 * i..2 * i + 2][1];
    LE32RoundTrip(samples, b[1..5]);
    assert b[1..5] == LE32(samples);
  }

  datatype WifiCredentials = WifiCredentials(ssid: string, psk: string)

  const WIFI_CONFIG_VERSION: U8 := 1

  function DecodeCredentials(bytes: seq<U8>): Option<WifiCredentials> {
    if |bytes| < 2 || bytes[0] != WIFI_CONFIG_VERSION then None
    else
      var sl: int := bytes[1];
      var rest := bytes[2..];
      if sl == 0 || sl > 32 || |rest| < sl + 1 || Decode(rest[..sl]).None? then None
      else
        var pl: int := rest[sl];
        var tail := rest[sl + 1..];
        if pl > 63 || |tail| < pl || Decode(tail[..pl]).None? then None
        else Some(WifiCredentials(Decode(rest[..sl]).value, Decode(tail[..pl]).value))
  }

  /** Short enough for the one-byte lengths and the limits. */
  predicate Storable(c: WifiCredentials) { 1 <= ByteLen(c.ssid) <= 32 && ByteLen(c.psk) <= 63 }

  /** `[0x01][ssid_len][ssid][psk_len][psk]`. */
  function EncodeCredentials(c: WifiCredentials): seq<U8>
    requires Storable(c)
  {
    [WIFI_CONFIG_VERSION, ByteLen(c.ssid)] + Encode(c.ssid) + [ByteLen(c.psk)] + Encode(c.psk)
  }

  /** Encoded credentials decode to themselves, whatever follows. */
  lemma CredentialsRoundTrip(c: WifiCredentials, trailing: seq<U8>)
    requires Storable(c)
    ensures DecodeCredentials(EncodeCredentials(c) + trailing) == Some(c)
  {
    hide Encode, Decode, ByteLen;
    var s, p := Encode(c.ssid), Encode(c.psk);
    var b := EncodeCredentials(c) + trailing;
    var rest := b[2..];
    assert rest == s + ([|p|] + p + trailing);
    assert rest[..|s|] == s && rest[|s|] == |p|;
    assert rest[|s| + 1..] == p + trailing;
    assert (p + trailing)[..|p|] == p;
    DecodeEncode(c.ssid);
    DecodeEncode(c.psk);
  }

  lemma SplitBytes(bytes: seq<U8>, sl: nat, pl: nat)
    requires |bytes| >= 3 + sl + pl
    ensures var rest := bytes[2..];
            [bytes[0], bytes[1]] + rest[..sl] + [rest[sl]] + rest[sl + 1..][..pl] <= bytes
  {
    var rest := bytes[2..];
    var front := [bytes[0], bytes[1]] + rest[..sl] + [rest[sl]] + rest[sl + 1..][..pl];
    assert front == bytes[..3 + sl + pl];
  }

  /** An accepted write starts with the encoding of what it decodes to. */
  lemma AcceptedCredentialsCanonical(bytes: seq<U8>)
    requires DecodeCredentials(bytes).Some?
    ensures Storable(DecodeCredentials(bytes).value) && EncodeCredentials(DecodeCredentials(bytes).value) <= bytes
  {
    hide Encode, Decode, ByteLen;
    var c := DecodeCredentials(bytes).value;
    var sl: int := bytes[1];
    var rest := bytes[2..];
    var pl: int := rest[sl];
    var tail := rest[sl + 1..];
    EncodeDecode(rest[..sl]);
    EncodeDecode(tail[..pl]);
    SplitBytes(bytes, sl, pl);
  }

  // ---- The live packet ----

  const PROTOCOL_VERSION: U8 := 1
  const GEAR_NEUTRAL: U8 := 7
  const LIVE_LEN := 20

  datatype LiveStatus = LiveStatus(
    linkUp: bool, neutralSwitch: bool, interlock: Option<bool>, learnFlash: bool, otaBusy: bool, demo: bool,
    gear: Gear.Gear, brightnessIdx: U8, rpm: Option<real>, speed: Option<real>, samples: U32, uptime: U32)

  function FlagBit(b: bool, weight: nat): nat { if b then weight else 0 }

  function FlagsOf(s: LiveStatus): U8 {
    FlagBit(s.linkUp, 1) + FlagBit(s.neutralSwitch, 2) + FlagBit(s.interlock.Some?, 4)
    + FlagBit(s.interlock == Some(true), 8) + FlagBit(s.learnFlash, 16) + FlagBit(s.otaBusy, 32) + FlagBit(s.demo, 64)
  }

  function GearByte(g: Gear.Gear): U8 {
    match g case Unknown => 0 case Neutral => GEAR_NEUTRAL case G(n) => if n < 6 then n else 6
  }

  /** Clamp to u16 and round half away from zero. */
  function RoundU16(x: real): U16 {
    if x <= 0.0 then 0 else if x >= 65535.0 then 65535 else (x + 0.5).Floor
  }

  /** Within half a unit, on the u16 range. */
  lemma RoundNearest(x: real)
    requires 0.0 <= x <= 65535.0
    ensures x - 0.5 < RoundU16(x) as real <= x + 0.5
  {
  }

  function Reading(x: Option<real>): real { match x case None => 0.0 case Some(v) => v }

  /** rpm over speed, 0 without both or below 1 km/h. */
  function LiveRatio(s: LiveStatus): real {
    if s.rpm.Some? && s.speed.Some? && s.speed.value >= 1.0 then s.rpm.value / s.speed.value else 0.0
  }

  /** The 20-byte packet; `bits` is the f32 encoding of a ratio. */
  function LiveBytes(s: LiveStatus, bits: real -> U32): (b: seq<U8>)
    ensures |b| == LIVE_LEN
  {
    [PROTOCOL_VERSION, FlagsOf(s), GearByte(s.gear), s.brightnessIdx]
    + LE16(RoundU16(Reading(s.rpm))) + LE16(RoundU16(Reading(s.speed)))
    + LE32(bits(LiveRatio(s))) + LE32(s.samples) + LE32(s.uptime)
  }
}
