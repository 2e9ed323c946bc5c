/** The update manifest after JSON decoding: strict checks, version arithmetic
    and the install decision (`ota_manifest.rs`). */
module OtaManifest {
  import opened Basics
  import opened Text
  import opened Utf8

  const PROJECT_NAME := "w230-gear-indicator"
  const MAX_IMAGE_SIZE: U32 := 0x1E0000

  datatype Manifest = Manifest(
    project: string, version: string, url: string, sha256: string, size: U32,
    minVersion: Option<string>, notes: Option<string>)

  datatype ManifestError =
    | Json | WrongProject(p: string) | BadVersion(v: string) | InsecureUrl | BadSha256 | BadSize

  // ---- Versions ----

  datatype Version = Version(major: U32, minor: U32, patch: U32)

  /** Lexicographic order of the version triple. */
  predicate Less(a: Version, b: Version) {
    || a.major < b.major
    || (a.major == b.major && (a.minor < b.minor || (a.minor == b.minor && a.patch < b.patch)))
  }

  function TrimVs(s: string): string {
    if s != "" && s[0] == 'v' then TrimVs(s[1..]) else s
  }

  predicate IsSuffixMark(c: char) { c == '-' || c == '+' }

  /** The part before the first `-` or `+`. */
  function BeforeSuffix(s: string): string {
    if s == "" || IsSuffixMark(s[0]) then "" else [s[0]] + BeforeSuffix(s[1..])
  }

  /** The pieces between dots. */
  function SplitDots(s: string): (r: seq<string>)
    ensures r != []
  {
    if s == "" then [""]
    else
      var rest := SplitDots(s[1..]);
      if s[0] == '.' then [""] + rest else [[s[0]] + rest[0]] + rest[1..]
  }

  /** `u32::from_str`: a leading `+` is tolerated by the library. */
  function ParseU32(s: string): Option<U32> {
    var t := if |s| > 1 && s[0] == '+' then s[1..] else s;
    if t == "" || !AllDigits(t) || NumberOf(t) >= 0x1_0000_0000 then None else Some(NumberOf(t))
  }

  function ParseVersion(v: string): Option<Version> {
    var parts := SplitDots(BeforeSuffix(TrimVs(TrimEnd(TrimStart(v)))));
    if |parts| != 3 then None
    else
      var a, b, c := ParseU32(parts[0]), ParseU32(parts[1]), ParseU32(parts[2]);
      if a.Some? && b.Some? && c.Some? then Some(Version(a.value, b.value, c.value)) else None
  }

  function VersionText(v: Version): string {
    Decimal(v.major) + "." + Decimal(v.minor) + "." + Decimal(v.patch)
  }

  lemma {:induction false} SplitOne(a: string, rest: string)
    requires '.' !in a
    ensures SplitDots(a + "." + rest) == [a] + SplitDots(rest)
    ensures SplitDots(a) == [a]
  {
    if a == "" {
      assert a + "." + rest == ['.'] + rest;
    } else {
      SplitOne(a[1..], rest);
      assert (a + "." + rest)[1..] == a[1..] + "." + rest;
      assert a == [a[0]] + a[1..];
    }
  }

  lemma {:induction false} BeforeSuffixOf(a: string, suffix: string)
    requires forall i :: 0 <= i < |a| ==> !IsSuffixMark(a[i])
    requires suffix == "" || IsSuffixMark(suffix[0])
    ensures BeforeSuffix(a + suffix) == a
  {
    if a == "" {
      assert a + suffix == suffix;
    } else {
      BeforeSuffixOf(a[1..], suffix);
      assert (a + suffix)[1..] == a[1..] + suffix;
      assert a == [a[0]] + a[1..];
    }
  }

  function Vs(n: nat): string { if n == 0 then "" else "v" + Vs(n - 1) }

  lemma {:induction false} TrimVsOf(n: nat, s: string)
    requires s != "" && s[0] != 'v'
    ensures TrimVs(Vs(n) + s) == s
    ensures (Vs(n) + s)[0] == if n == 0 then s[0] else 'v'
  {
    if n == 0 {
      assert Vs(n) + s == s;
    } else {
      assert (Vs(n) + s)[1..] == Vs(n - 1) + s;
      TrimVsOf(n - 1, s);
    }
  }

  lemma VersionTextChars(v: Version)
    ensures var t := VersionText(v);
            && t != "" && IsDigit(t[0]) && IsDigit(t[|t| - 1])
            && forall i :: 0 <= i < |t| ==> IsDigit(t[i]) || t[i] == '.'
  {
  }

  lemma ParseDecimal(n: U32)
    ensures ParseU32(Decimal(n)) == Some(n)
  {
  }

  lemma SplitVersion(v: Version)
    ensures SplitDots(VersionText(v)) == [Decimal(v.major), Decimal(v.minor), Decimal(v.patch)]
  {
    var a, b, c := Decimal(v.major), Decimal(v.minor), Decimal(v.patch);
    assert VersionText(v) == a + "." + (b + "." + c);
    SplitOne(a, b + "." + c);
    SplitOne(b, c);
    SplitOne(c, "");
  }

  lemma VersionEnds(vs: nat, t: string, suffix: string, w: string)
    requires t != "" && IsDigit(t[0]) && IsDigit(t[|t| - 1]) && w == Vs(vs) + (t + suffix)
    requires suffix == "" || !IsSpace(suffix[|suffix| - 1])
    ensures w != "" && !IsSpace(w[0]) && !IsSpace(w[|w| - 1])
  {
    TrimVsOf(vs, t + suffix);
    LastOf(t, suffix);
    LastOf(Vs(vs), t + suffix);
    assert w[0] == 'v' || IsDigit(w[0]);
    assert IsDigit(w[|w| - 1]) || !IsSpace(w[|w| - 1]);
  }

  lemma VersionCore(vs: nat, v: Version, suffix: string)
    requires suffix == "" || (IsSuffixMark(suffix[0]) && !IsSpace(suffix[|suffix| - 1]))
    ensures BeforeSuffix(TrimVs(TrimEnd(TrimStart(Vs(vs) + (VersionText(v) + suffix))))) == VersionText(v)
  {
    var t := VersionText(v);
    VersionTextChars(v);
    VersionEnds(vs, t, suffix, Vs(vs) + (t + suffix));
    NotSpaceKept(Vs(vs) + (t + suffix));
    TrimVsOf(vs, t + suffix);
    BeforeSuffixOf(t, suffix);
  }

  lemma LastOf(a: string, b: string)
    requires a + b != ""
    ensures (a + b)[|a + b| - 1] == if b == "" then a[|a| - 1] else b[|b| - 1]
  {
  }

  predicate AllSpace(s: string) { forall i :: 0 <= i < |s| ==> IsSpace(s[i]) }

  lemma {:induction false} TrimPads(before: string, s: string, after: string)
    requires AllSpace(before) && AllSpace(after) && s != "" && !IsSpace(s[0]) && !IsSpace(s[|s| - 1])
    ensures TrimEnd(TrimStart(before + s + after)) == s
    decreases |before| + |after|
  {
    if before != "" {
      assert (before + s + after)[1..] == before[1..] + s + after;
      TrimPads(before[1..], s, after);
    } else if after != "" {
      var n := |after| - 1;
      var t := s + after;
      assert before + s + after == t && before + s + after[..n] == t[..|t| - 1];
      assert t[0] == s[0] && t[|t| - 1] == after[n] && t[..|t| - 1][0] == s[0];
      TrimPads(before, s, after[..n]);
    } else {
      assert before + s + after == s;
      NotSpaceKept(s);
    }
  }

  /** A printed version parses back, under any number of leading `v`s, any `-`/`+`
      suffix that does not end in white space, and white space around it. */
  lemma ParsePrinted(v: Version, vs: nat, suffix: string, before: string, after: string)
    requires suffix == "" || (IsSuffixMark(suffix[0]) && !IsSpace(suffix[|suffix| - 1]))
    requires AllSpace(before) && AllSpace(after)
    ensures ParseVersion(before + (Vs(vs) + (VersionText(v) + suffix)) + after) == Some(v)
  {
    hide IsSpace, VersionText, TrimStart, TrimEnd, TrimVs, BeforeSuffix, Vs;
    var t := VersionText(v);
    VersionTextChars(v);
    VersionEnds(vs, t, suffix, Vs(vs) + (t + suffix));
    TrimPads(before, Vs(vs) + (t + suffix), after);
    VersionCore(vs, v, suffix);
    NotSpaceKept(Vs(vs) + (t + suffix));
    SplitVersion(v);
    ParseDecimal(v.major);
    ParseDecimal(v.minor);
    ParseDecimal(v.patch);
  }

  /** The part of a version text that is read. */
  function Core(v: string): string { BeforeSuffix(TrimVs(TrimEnd(TrimStart(v)))) }

  lemma {:induction false} NoMarkBefore(s: string)
    ensures forall i :: 0 <= i < |BeforeSuffix(s)| ==> !IsSuffixMark(BeforeSuffix(s)[i])
  {
    if s != "" {
      NoMarkBefore(s[1..]);
    }
  }

  function JoinDots(parts: seq<string>): string
    requires parts != []
  {
    if |parts| == 1 then parts[0] else parts[0] + "." + JoinDots(parts[1..])
  }

  lemma {:induction false} JoinSplit(s: string)
    ensures JoinDots(SplitDots(s)) == s
  {
    if s != "" {
      var rest := SplitDots(s[1..]);
      JoinSplit(s[1..]);
      assert s == [s[0]] + s[1..];
      if s[0] == '.' {
        assert ([""] + rest)[1..] == rest;
      } else {
        var parts := [[s[0]] + rest[0]] + rest[1..];
        assert parts[1..] == rest[1..];
      }
    }
  }

  lemma {:induction false} PartsClean(s: string, k: nat)
    requires k < |SplitDots(s)| && forall i :: 0 <= i < |s| ==> !IsSuffixMark(s[i])
    ensures forall i :: 0 <= i < |SplitDots(s)[k]| ==> !IsSuffixMark(SplitDots(s)[k][i])
  {
    if s != "" {
      var rest := SplitDots(s[1..]);
      if s[0] == '.' {
        if k > 0 {
          PartsClean(s[1..], k - 1);
        }
      } else {
        PartsClean(s[1..], k);
      }
    }
  }

  /** `s` is a plain number that fits 32 bits. */
  predicate PlainNumber(s: string) { s != "" && AllDigits(s) && NumberOf(s) < 0x1_0000_0000 }

  lemma ParseU32Plain(s: string)
    requires forall i :: 0 <= i < |s| ==> !IsSuffixMark(s[i])
    ensures ParseU32(s) == if PlainNumber(s) then Some(NumberOf(s)) else None
  {
  }

  /** Exactly the texts parse that are three plain numbers between two dots, once
      trimmed of white space, leading `v`s and suffix; the triple is their values. */
  lemma ParsedVersionShape(v: string)
    ensures var parts := SplitDots(Core(v));
            && (ParseVersion(v).Some? <==> |parts| == 3 && forall k :: 0 <= k < 3 ==> PlainNumber(parts[k]))
            && (ParseVersion(v).Some? ==>
                  var x := ParseVersion(v).value;
                  && Core(v) == parts[0] + "." + (parts[1] + "." + parts[2])
                  && NumberOf(parts[0]) == x.major && NumberOf(parts[1]) == x.minor && NumberOf(parts[2]) == x.patch)
  {
    var c := Core(v);
    var parts := SplitDots(c);
    if |parts| == 3 {
      NoMarkBefore(TrimVs(TrimEnd(TrimStart(v))));
      forall k | 0 <= k < 3
        ensures ParseU32(parts[k]) == if PlainNumber(parts[k]) then Some(NumberOf(parts[k])) else None
      {
        PartsClean(c, k);
        ParseU32Plain(parts[k]);
      }
      JoinSplit(c);
      hide BeforeSuffix, TrimVs, TrimEnd, TrimStart, SplitDots, ParseU32, PlainNumber;
      assert parts[1..][1..] == [parts[2]] && parts[1..][0] == parts[1];
      assert JoinDots(parts) == parts[0] + "." + (parts[1] + "." + JoinDots([parts[2]]));
    }
  }

  // ---- Checks after JSON decoding ----

  predicate IsHex(c: char) { '0' <= c <= '9' || 'a' <= c <= 'f' || 'A' <= c <= 'F' }

  predicate IsSha256(s: string) { |s| == 64 && forall i :: 0 <= i < |s| ==> IsHex(s[i]) }

  /** Everything the checks establish about an accepted manifest. */
  predicate Acceptable(m: Manifest) {
    && m.project == PROJECT_NAME
    && ParseVersion(m.version).Some?
    && (m.minVersion.Some? ==> ParseVersion(m.minVersion.value).Some?)
    && StartsWith(m.url, "https://")
    && IsSha256(m.sha256)
    && 0 < m.size <= MAX_IMAGE_SIZE
  }

  /** `Manifest::parse` from the decoded fields; `None` is a JSON failure. */
  function Parse(decoded: Option<Manifest>): (r: Result<Manifest, ManifestError>)
    ensures r.Ok? <==> decoded.Some? && Acceptable(decoded.value)
    ensures r.Ok? ==> r.value == decoded.value
  {
    match decoded
    case None => Err(Json)
    case Some(m) =>
      if m.project != PROJECT_NAME then Err(WrongProject(m.project))
      else if ParseVersion(m.version).None? then Err(BadVersion(m.version))
      else if m.minVersion.Some? && ParseVersion(m.minVersion.value).None? then Err(BadVersion(m.minVersion.value))
      else if !StartsWith(m.url, "https://") then Err(InsecureUrl)
      else if !IsSha256(m.sha256) then Err(BadSha256)
      else if m.size == 0 || m.size > MAX_IMAGE_SIZE then Err(BadSize)
      else Ok(m)
  }

  const HEX_DIGITS := "0123456789abcdefABCDEF"

  lemma IsHexIff(c: char)
    ensures IsHex(c) <==> c in HEX_DIGITS
  {
    if IsHex(c) {
      var k := if c <= '9' then c as int - '0' as int else if c >= 'a' then c as int - 'a' as int + 10 else c as int - 'A' as int + 16;
      assert HEX_DIGITS[k] == c;
    }
  }

  /** The checks in order, and what each failing one reports. */
  predicate Passes(m: Manifest, check: nat) {
    match check
    case 0 => m.project == "w230-gear-indicator"
    case 1 => ParseVersion(m.version).Some?
    case 2 => m.minVersion.Some? ==> ParseVersion(m.minVersion.value).Some?
    case 3 => StartsWith(m.url, "https://")
    case 4 => |m.sha256| == 64 && forall i :: 0 <= i < |m.sha256| ==> m.sha256[i] in HEX_DIGITS
    case _ => 0 < m.size <= 1_966_080
  }

  /** An accepted manifest passes them all, and passing them all suffices. */
  lemma AcceptableIff(m: Manifest)
    ensures Acceptable(m) <==> forall check: nat :: check < 6 ==> Passes(m, check)
  {
    forall i | 0 <= i < |m.sha256|
      ensures IsHex(m.sha256[i]) <==> m.sha256[i] in HEX_DIGITS
    {
      IsHexIff(m.sha256[i]);
    }
    hide ParseVersion, IsHex;
    if forall check: nat :: check < 6 ==> Passes(m, check) {
      assert Passes(m, 0) && Passes(m, 1) && Passes(m, 2) && Passes(m, 3) && Passes(m, 4) && Passes(m, 5);
    }
  }

  function Report(m: Manifest, check: nat): ManifestError {
    match check
    case 0 => WrongProject(m.project)
    case 1 => BadVersion(m.version)
    case 2 => BadVersion(if m.minVersion.Some? then m.minVersion.value else "")
    case 3 => InsecureUrl
    case 4 => BadSha256
    case _ => BadSize
  }

  /** A refused manifest reports its first failing check. */
  lemma FirstFailureReported(m: Manifest, check: nat)
    requires check < 6 && !Passes(m, check) && forall j :: 0 <= j < check ==> Passes(m, j)
    ensures Parse(Some(m)) == Err(Report(m, check))
  {
    AcceptableIff(m);
    forall i | 0 <= i < |m.sha256|
      ensures IsHex(m.sha256[i]) <==> m.sha256[i] in HEX_DIGITS
    {
      IsHexIff(m.sha256[i]);
    }
    hide ParseVersion, IsHex;
    assert check > 0 ==> Passes(m, 0);
    assert check > 1 ==> Passes(m, 1);
    assert check > 2 ==> Passes(m, 2);
    assert check > 3 ==> Passes(m, 3);
    assert check > 4 ==> Passes(m, 4);
  }

  function HexValue(c: char): (v: nat)
    requires IsHex(c)
    ensures v < 16
  {
    if '0' <= c <= '9' then c as int - '0' as int
    else if 'a' <= c <= 'f' then c as int - 'a' as int + 10
    else c as int - 'A' as int + 10
  }

  /** `to_digit(16).unwrap_or(0)`. */
  function HexDigit(c: char): nat { if IsHex(c) then HexValue(c) else 0 }

  /** The value of each hex digit; anything else counts as 0. */
  lemma HexDigitSpec(c: char, v: nat)
    ensures c !in HEX_DIGITS ==> HexDigit(c) == 0
    ensures v < 16 ==> HexDigit(HEX_DIGITS[v]) == v
    ensures 10 <= v < 16 ==> HexDigit(HEX_DIGITS[v + 6]) == v
  {
    IsHexIff(c);
    if v < 10 {
      assert HEX_DIGITS[v] as int == '0' as int + v;
    } else if v < 16 {
      assert HEX_DIGITS[v] as int == 'a' as int + v - 10;
      assert HEX_DIGITS[v + 6] as int == 'A' as int + v - 10;
    }
  }

  function HexChar(v: nat): char
    requires v < 16
  {
    if v < 10 then (v + '0' as int) as char else (v - 10 + 'a' as int) as char
  }

  function Lower(c: char): char { if 'A' <= c <= 'F' then (c as int + 32) as char else c }

  /** The digest as lower-case hex. */
  function HexText(b: seq<U8>): (s: string)
    ensures |s| == 2 * |b|
  {
    seq(2 * |b|, i requires 0 <= i < 2 * |b| => HexChar(if i % 2 == 0 then b[i / 2] / 16 else b[i / 2] % 16))
  }

  /** Two digits of the text, a missing pair counting as zero. */
  function PairAt(bytes: seq<U8>, k: nat): nat {
    if 2 * k + 1 < |bytes| then 16 * HexDigit(bytes[2 * k] as char) + HexDigit(bytes[2 * k + 1] as char) else 0
  }

  /** The expected digest as raw bytes. */
  method Sha256Bytes(sha256: string) returns (out: seq<U8>)
    ensures |out| == 32 && forall k :: 0 <= k < 32 ==> out[k] as nat == PairAt(Encode(sha256), k)
    ensures IsSha256(sha256) ==> out == Digest(sha256)
  {
    var bytes := Encode(sha256);
    out := seq(32, _ => 0);
    var pairs := if |bytes| / 2 < 32 then |bytes| / 2 else 32;
    for i := 0 to pairs
      invariant |out| == 32
      invariant forall k :: 0 <= k < i ==> out[k] as nat == PairAt(bytes, k)
      invariant forall k :: i <= k < 32 ==> out[k] == 0
    {
      var hi, lo := HexDigit(bytes[2 * i] as char), HexDigit(bytes[2 * i + 1] as char);
      out := out[i := 16 * hi + lo];
    }
    if IsSha256(sha256) {
      AsciiBytes(sha256);
    }
  }

  lemma {:induction false} AsciiBytes(s: string)
    requires forall i :: 0 <= i < |s| ==> IsHex(s[i])
    ensures |Encode(s)| == |s| && forall i :: 0 <= i < |s| ==> Encode(s)[i] as int == s[i] as int
  {
    if s != "" {
      AsciiBytes(s[1..]);
    }
  }

  function Digest(sha256: string): (d: seq<U8>)
    requires IsSha256(sha256)
    ensures |d| == 32
  {
    seq(32, k requires 0 <= k < 32 => 16 * HexValue(sha256[2 * k]) + HexValue(sha256[2 * k + 1]))
  }

  lemma HexCharOf(c: char)
    requires IsHex(c)
    ensures HexChar(HexValue(c)) == Lower(c)
  {
  }

  /** No information is lost but the case of the hex digits. */
  lemma DigestRoundTrip(sha256: string)
    requires IsSha256(sha256)
    ensures |HexText(Digest(sha256))| == 64
    ensures forall i :: 0 <= i < 64 ==> HexText(Digest(sha256))[i] == Lower(sha256[i])
  {
    forall i | 0 <= i < 64
      ensures HexText(Digest(sha256))[i] == Lower(sha256[i])
    {
      var k := i / 2;
      var hi, lo := HexValue(sha256[2 * k]), HexValue(sha256[2 * k + 1]);
      assert Digest(sha256)[k] == 16 * hi + lo;
      assert (16 * hi + lo) / 16 == hi && (16 * hi + lo) % 16 == lo;
      HexCharOf(sha256[i]);
    }
  }

  // ---- The decision ----

  datatype UpdateDecision = Install | UpToDate | TooOld(minVersion: string)

  const ZERO := Version(0, 0, 0)

  function VersionOrZero(v: string): Version {
    match ParseVersion(v) case Some(x) => x case None => ZERO
  }

  function Decide(current: string, m: Manifest): UpdateDecision {
    var cur, new_ := VersionOrZero(current), VersionOrZero(m.version);
    if m.minVersion.Some? && ParseVersion(m.minVersion.value).Some? && Less(cur, ParseVersion(m.minVersion.value).value)
    then TooOld(m.minVersion.value)
    else if Less(cur, new_) then Install
    else UpToDate
  }

  /** A version triple as one number, 32 bits a part. */
  function Number(v: Version): nat {
    (v.major as nat * 0x1_0000_0000 + v.minor as nat) * 0x1_0000_0000 + v.patch as nat
  }

  /** The number a version text stands for; a text that does not parse is 0. */
  function Rank(v: string): nat { Number(VersionOrZero(v)) }

  /** A text that does not parse ranks lowest. */
  lemma RankOf(v: string)
    ensures Rank(v) == match ParseVersion(v) case Some(x) => Number(x) case None => 0
  {
  }

  /** The order of the decision is the order of the numbers. */
  lemma LessIff(a: Version, b: Version)
    ensures Less(a, b) <==> Number(a) < Number(b)
    ensures a == b <==> Number(a) == Number(b)
  {
  }

  /** What becomes of an accepted manifest: too old a firmware needs USB first,
      a strictly newer image installs, anything else is up to date; a manifest of
      the running version then never installs over the new one. */
  lemma InstallIff(current: string, m: Manifest)
    requires Acceptable(m)
    ensures var tooOld := m.minVersion.Some? && Rank(current) < Rank(m.minVersion.value);
            && (Decide(current, m) == Install <==> !tooOld && Rank(current) < Rank(m.version))
            && (Decide(current, m) == UpToDate <==> !tooOld && Rank(current) >= Rank(m.version))
            && (Decide(current, m).TooOld? <==> tooOld)
            && (tooOld ==> Decide(current, m).minVersion == m.minVersion.value)
    ensures Decide(current, m) == Install ==>
              forall back: Manifest :: back.version == current ==> Decide(m.version, back) != Install
  {
    var cur := VersionOrZero(current);
    LessIff(cur, VersionOrZero(m.version));
    LessIff(VersionOrZero(m.version), cur);
    if m.minVersion.Some? {
      LessIff(cur, VersionOrZero(m.minVersion.value));
    }
    assert m.minVersion.Some? ==> ParseVersion(m.minVersion.value).Some?;
    hide ParseVersion, Acceptable, Less, Number;
  }
}
