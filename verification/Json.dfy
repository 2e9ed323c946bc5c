/** JSON text (RFC 8259): the firmware's escaping printer and a reader for the
    compact form it emits. */
module Json {
  import opened Basics
  import opened Text
  import opened Utf8

  // ---- Strings ----

  function HexDigitOf(v: nat): char
    requires v < 16
  {
    if v < 10 then (v + '0' as int) as char else (v - 10 + 'a' as int) as char
  }

  /** One character inside a string literal. */
  function EscapeChar(c: char): string {
    if c == '"' then ['\\', '"']
    else if c == '\\' then ['\\', '\\']
    else if c == '\n' then ['\\', 'n']
    else if c as int < 0x20 then ['\\', 'u', '0', '0', HexDigitOf(c as int / 16), HexDigitOf(c as int % 16)]
    else [c]
  }

  function Escape(s: string): string {
    if s == "" then "" else EscapeChar(s[0]) + Escape(s[1..])
  }

  lemma {:induction false} EscapeConcat(s: string, t: string)
    ensures Escape(s + t) == Escape(s) + Escape(t)
  {
    if s == "" {
      assert s + t == t;
    } else {
      assert (s + t)[1..] == s[1..] + t;
      EscapeConcat(s[1..], t);
    }
  }

  lemma EscapeEmpty(s: string)
    ensures Escape(s[..0]) == ""
  {
  }

  lemma EscapeSnoc(s: string, i: nat)
    requires i < |s|
    ensures Escape(s[..i + 1]) == Escape(s[..i]) + EscapeChar(s[i])
  {
    assert s[..i + 1] == s[..i] + [s[i]];
    EscapeConcat(s[..i], [s[i]]);
    assert [s[i]][1..] == "";
    assert Escape([s[i]]) == EscapeChar(s[i]) + Escape("");
  }

  /** The text between quotes. */
  function Quoted(s: string): string { ['"'] + Escape(s) + ['"'] }

  /** `json_str`. */
  method JsonStr(s: string) returns (out: string)
    ensures out == Quoted(s)
  {
    out := ['"'];
    EscapeEmpty(s);
    hide Escape;
    for i := 0 to |s|
      invariant out == ['"'] + Escape(s[..i])
    {
      var c := s[i];
      EscapeSnoc(s, i);
      if c == '"' {
        out := out + ['\\', '"'];
      } else if c == '\\' {
        out := out + ['\\', '\\'];
      } else if c == '\n' {
        out := out + ['\\', 'n'];
      } else if c as int < 0x20 {
        out := out + ['\\', 'u', '0', '0', HexDigitOf(c as int / 16), HexDigitOf(c as int % 16)];
      } else {
        out := out + [c];
      }
    }
    assert s[..|s|] == s;
    out := out + ['"'];
  }

  function HexVal(c: char): Option<nat> {
    if '0' <= c <= '9' then Some(c as int - '0' as int)
    else if 'a' <= c <= 'f' then Some(c as int - 'a' as int + 10)
    else if 'A' <= c <= 'F' then Some(c as int - 'A' as int + 10)
    else None
  }

  /** Four hex digits naming a scalar value. */
  function ReadHex4(s: string): Option<char> {
    if |s| < 4 || HexVal(s[0]).None? || HexVal(s[1]).None? || HexVal(s[2]).None? || HexVal(s[3]).None? then None
    else
      var x := 4096 * HexVal(s[0]).value + 256 * HexVal(s[1]).value + 16 * HexVal(s[2]).value + HexVal(s[3]).value;
      if x < 0xD800 || 0xE000 <= x < 0x1_0000 then Some(x as char) else None
  }

  /** One character of a string literal and how much text it took. */
  function ReadChar(s: string): (r: Option<(char, nat)>)
    ensures r.Some? ==> 1 <= r.value.1 <= |s|
  {
    if s == "" || s[0] == '"' || s[0] as int < 0x20 then None
    else if s[0] != '\\' then Some((s[0], 1))
    else if |s| < 2 then None
    else if s[1] == '"' || s[1] == '\\' || s[1] == '/' then Some((s[1], 2))
    else if s[1] == 'n' then Some(('\n', 2))
    else if s[1] == 'r' then Some(('\r', 2))
    else if s[1] == 't' then Some(('\t', 2))
    else if s[1] == 'b' then Some((8 as char, 2))
    else if s[1] == 'f' then Some((12 as char, 2))
    else if s[1] == 'u' && |s| >= 6 && ReadHex4(s[2..]).Some? then Some((ReadHex4(s[2..]).value, 6))
    else None
  }

  /** The rest of a string literal, up to and over its closing quote. */
  function ReadString(s: string): (r: Option<(string, string)>)
    ensures r.Some? ==> |r.value.1| < |s|
    decreases |s|
  {
    if s != "" && s[0] == '"' then Some(("", s[1..]))
    else
      match ReadChar(s)
      case None => None
      case Some((c, n)) =>
        match ReadString(s[n..])
        case None => None
        case Some((t, rest)) => Some(([c] + t, rest))
  }

  lemma ReadEscapedChar(c: char, rest: string)
    ensures ReadChar(EscapeChar(c) + rest) == Some((c, |EscapeChar(c)|))
    ensures (EscapeChar(c) + rest)[0] != '"'
    ensures (EscapeChar(c) + rest)[|EscapeChar(c)|..] == rest
  {
    var x := c as int;
    var e := EscapeChar(c);
    var s := e + rest;
    assert forall i :: 0 <= i < |e| ==> s[i] == e[i];
    if c != '"' && c != '\\' && c != '\n' && x < 0x20 {
      assert s[2..][..4] == e[2..];
      HexDigits(x);
    }
  }

  lemma HexDigits(x: nat)
    requires x < 0x20
    ensures HexVal(HexDigitOf(x / 16)) == Some(x / 16) && HexVal(HexDigitOf(x % 16)) == Some(x % 16)
    ensures 16 * (x / 16) + x % 16 == x
  {
  }

  /** Whatever characters a text holds, its literal reads back as that text. */
  lemma {:induction false} ReadQuoted(s: string, rest: string)
    ensures ReadString(Escape(s) + ['"'] + rest) == Some((s, rest))
  {
    hide ReadChar, EscapeChar;
    if s == "" {
      assert Escape(s) + ['"'] + rest == ['"'] + rest;
    } else {
      var tail := Escape(s[1..]) + ['"'] + rest;
      ReadEscapedChar(s[0], tail);
      assert Escape(s) + ['"'] + rest == EscapeChar(s[0]) + tail;
      ReadQuoted(s[1..], rest);
      assert s == [s[0]] + s[1..];
    }
  }

  /** Each character takes at most six bytes for each of its own. */
  lemma {:induction false} EscapeBound(s: string)
    ensures ByteLen(Escape(s)) <= 6 * ByteLen(s)
    ensures ByteLen(s) <= ByteLen(Escape(s))
  {
    if s != "" {
      EscapeBound(s[1..]);
      EscapeCharLen(s[0]);
      ByteLenConcat(EscapeChar(s[0]), Escape(s[1..]));
    }
  }

  lemma EscapeCharLen(c: char)
    ensures Width(c) <= ByteLen(EscapeChar(c)) <= 6 * Width(c)
  {
    if EscapeChar(c) != [c] {
      AsciiLen(EscapeChar(c));
    } else {
      assert [c][1..] == "";
    }
  }

  // ---- Values ----

  datatype Value =
    | Null
    | Bool(b: bool)
    | Num(text: string)
    | Str(s: string)
    | Arr(items: seq<Value>)
    | Obj(fields: seq<(string, Value)>)

  predicate IsNumChar(c: char) { IsDigit(c) || c == '-' || c == '.' }

  /** Digits, optionally a sign before and a fraction behind. */
  predicate IsNumber(t: string) {
    && t != "" && (IsDigit(t[0]) || (t[0] == '-' && |t| > 1 && IsDigit(t[1])))
    && forall i :: 0 <= i < |t| ==> IsNumChar(t[i])
  }

  /** A key that needs no escaping. */
  predicate PlainKey(k: string) {
    forall i :: 0 <= i < |k| ==> k[i] != '"' && k[i] != '\\' && k[i] as int >= 0x20
  }

  lemma {:induction false} PlainEscape(k: string)
    requires PlainKey(k)
    ensures Escape(k) == k
  {
    if k != "" {
      PlainEscape(k[1..]);
      assert k == [k[0]] + k[1..];
    }
  }

  predicate Printable(v: Value) {
    match v
    case Num(t) => IsNumber(t)
    case Arr(items) => forall i :: 0 <= i < |items| ==> Printable(items[i])
    case Obj(fields) => forall i :: 0 <= i < |fields| ==> PlainKey(fields[i].0) && Printable(fields[i].1)
    case _ => true
  }

  /** The compact text of a value. */
  function Render(v: Value): string
    decreases v, 0
  {
    match v
    case Null => "null"
    case Bool(b) => if b then "true" else "false"
    case Num(t) => t
    case Str(s) => Quoted(s)
    case Arr(items) => if items == [] then "[]" else "[" + RenderItems(items) + "]"
    case Obj(fields) => if fields == [] then "{}" else "{" + RenderFields(fields) + "}"
  }

  function RenderItems(items: seq<Value>): string
    decreases items
  {
    if items == [] then ""
    else if |items| == 1 then Render(items[0])
    else Render(items[0]) + "," + RenderItems(items[1..])
  }

  function RenderField(f: (string, Value)): string
    decreases f
  {
    "\"" + f.0 + "\":" + Render(f.1)
  }

  function RenderFields(fields: seq<(string, Value)>): string
    decreases fields
  {
    if fields == [] then ""
    else if |fields| == 1 then RenderField(fields[0])
    else RenderField(fields[0]) + "," + RenderFields(fields[1..])
  }

  // ---- The reader ----

  function NumLen(s: string): (n: nat)
    ensures n <= |s|
  {
    if s == "" || !IsNumChar(s[0]) then 0 else 1 + NumLen(s[1..])
  }

  /** One value off the front of `s`, and what follows it. */
  function ReadValue(s: string): (r: Option<(Value, string)>)
    ensures r.Some? ==> |r.value.1| < |s|
    decreases |s|, 0
  {
    if s == "" then None
    else if s[0] == '"' then
      match ReadString(s[1..])
      case None => None
      case Some((t, rest)) => Some((Str(t), rest))
    else if s[0] == '[' then
      if |s| > 1 && s[1] == ']' then Some((Arr([]), s[2..]))
      else
        match ReadItems(s[1..])
        case None => None
        case Some((items, rest)) => Some((Arr(items), rest))
    else if s[0] == '{' then
      if |s| > 1 && s[1] == '}' then Some((Obj([]), s[2..]))
      else
        match ReadFields(s[1..])
        case None => None
        case Some((fields, rest)) => Some((Obj(fields), rest))
    else if StartsWith(s, "null") then Some((Null, s[4..]))
    else if StartsWith(s, "true") then Some((Bool(true), s[4..]))
    else if StartsWith(s, "false") then Some((Bool(false), s[5..]))
    else
      var n := NumLen(s);
      if IsNumber(s[..n]) then Some((Num(s[..n]), s[n..])) else None
  }

  /** The items of an array up to and over its bracket. */
  function ReadItems(s: string): (r: Option<(seq<Value>, string)>)
    ensures r.Some? ==> |r.value.1| < |s|
    decreases |s|, 1
  {
    match ReadValue(s)
    case None => None
    case Some((v, rest)) =>
      if rest != "" && rest[0] == ']' then Some(([v], rest[1..]))
      else if rest != "" && rest[0] == ',' then
        match ReadItems(rest[1..])
        case None => None
        case Some((vs, rest')) => Some(([v] + vs, rest'))
      else None
  }

  /** The fields of an object up to and over its brace. */
  function ReadFields(s: string): (r: Option<(seq<(string, Value)>, string)>)
    ensures r.Some? ==> |r.value.1| < |s|
    decreases |s|, 1
  {
    if s == "" || s[0] != '"' then None
    else
      match ReadString(s[1..])
      case None => None
      case Some((k, rest)) =>
        if rest == "" || rest[0] != ':' then None
        else
          match ReadValue(rest[1..])
          case None => None
          case Some((v, rest')) =>
            if rest' != "" && rest'[0] == '}' then Some(([(k, v)], rest'[1..]))
            else if rest' != "" && rest'[0] == ',' then
              match ReadFields(rest'[1..])
              case None => None
              case Some((fs, rest'')) => Some(([(k, v)] + fs, rest''))
            else None
  }

  /** The value a whole text denotes. */
  function ParseJson(s: string): Option<Value> {
    match ReadValue(s)
    case None => None
    case Some((v, rest)) => if rest == "" then Some(v) else None
  }

  // ---- Reading back what was printed ----

  /** Nothing that would continue a number. */
  predicate Ends(rest: string) { rest == "" || !IsNumChar(rest[0]) }

  lemma {:induction false} NumLenOf(t: string, rest: string)
    requires (forall i :: 0 <= i < |t| ==> IsNumChar(t[i])) && Ends(rest)
    ensures NumLen(t + rest) == |t|
  {
    if t == "" {
      assert t + rest == rest;
    } else {
      assert (t + rest)[1..] == t[1..] + rest;
      NumLenOf(t[1..], rest);
    }
  }

  lemma RenderHead(v: Value)
    requires Printable(v)
    ensures Render(v) != "" && Render(v)[0] != ']' && Render(v)[0] != '}'
  {
  }

  lemma ReadWord(v: Value, rest: string)
    requires v.Null? || v.Bool?
    ensures ReadValue(Render(v) + rest) == Some((v, rest))
  {
    var w := Render(v);
    var s := w + rest;
    assert s[..|w|] == w && s[|w|..] == rest;
    assert s[0] == w[0];
  }

  lemma NotAWord(s: string, w: string)
    requires s != "" && w != "" && s[0] != w[0]
    ensures !StartsWith(s, w)
  {
    assert |w| <= |s| ==> s[..|w|][0] == s[0];
  }

  lemma ReadNumber(t: string, rest: string)
    requires IsNumber(t) && Ends(rest)
    ensures ReadValue(t + rest) == Some((Num(t), rest))
  {
    var s := t + rest;
    NumLenOf(t, rest);
    assert s[..|t|] == t && s[|t|..] == rest;
    assert s[0] == t[0];
    NotAWord(s, "null");
    NotAWord(s, "true");
    NotAWord(s, "false");
  }

  lemma ReadText(x: string, rest: string)
    ensures ReadValue(Quoted(x) + rest) == Some((Str(x), rest))
  {
    hide ReadString, ReadItems, ReadFields, NumLen, Escape;
    var s := Quoted(x) + rest;
    ReadQuoted(x, rest);
    assert s[1..] == Escape(x) + ['"'] + rest;
    assert s[0] == '"';
  }

  lemma ReadArray(items: seq<Value>, rest: string)
    requires forall i :: 0 <= i < |items| ==> Printable(items[i])
    requires items != [] ==> ReadItems(RenderItems(items) + "]" + rest) == Some((items, rest))
    ensures ReadValue(Render(Arr(items)) + rest) == Some((Arr(items), rest))
  {
    hide ReadItems, ReadFields, ReadString, NumLen, RenderItems, RenderFields;
    var s := Render(Arr(items)) + rest;
    if items == [] {
      assert s == "[]" + rest;
      assert s[2..] == rest;
    } else {
      ItemsHead(items);
      assert s == "[" + (RenderItems(items) + "]" + rest);
      assert s[1..] == RenderItems(items) + "]" + rest;
      assert s[1] == RenderItems(items)[0];
    }
  }

  lemma ReadObject(fields: seq<(string, Value)>, rest: string)
    requires fields != [] ==> ReadFields(RenderFields(fields) + "}" + rest) == Some((fields, rest))
    ensures ReadValue(Render(Obj(fields)) + rest) == Some((Obj(fields), rest))
  {
    hide ReadItems, ReadFields, ReadString, NumLen, RenderItems, RenderFields;
    var s := Render(Obj(fields)) + rest;
    if fields == [] {
      assert s == "{}" + rest;
      assert s[2..] == rest;
    } else {
      FieldsHead(fields);
      assert s == "{" + (RenderFields(fields) + "}" + rest);
      assert s[1..] == RenderFields(fields) + "}" + rest;
      assert s[1] == RenderFields(fields)[0];
    }
  }

  lemma ItemsHead(items: seq<Value>)
    requires items != [] && forall i :: 0 <= i < |items| ==> Printable(items[i])
    ensures RenderItems(items) != "" && RenderItems(items)[0] != ']'
  {
    RenderHead(items[0]);
  }

  lemma FieldsHead(fields: seq<(string, Value)>)
    requires fields != []
    ensures RenderFields(fields) != "" && RenderFields(fields)[0] == '"'
  {
  }

  /** A printed value, followed by nothing that could extend it, reads back. */
  lemma {:induction false} ReadRendered(v: Value, rest: string)
    requires Printable(v) && Ends(rest)
    ensures ReadValue(Render(v) + rest) == Some((v, rest))
    decreases v, 1
  {
    hide ReadValue, ReadItems, ReadFields, RenderItems, RenderFields;
    match v {
      case Null => ReadWord(v, rest);
      case Bool(_) => ReadWord(v, rest);
      case Num(t) => ReadNumber(t, rest);
      case Str(x) => ReadText(x, rest);
      case Arr(items) =>
        if items != [] {
          ReadRenderedItems(items, rest);
        }
        ReadArray(items, rest);
      case Obj(fields) =>
        if fields != [] {
          ReadRenderedFields(fields, rest);
        }
        ReadObject(fields, rest);
    }
  }

  lemma {:induction false} ReadRenderedItems(items: seq<Value>, rest: string)
    requires items != [] && forall i :: 0 <= i < |items| ==> Printable(items[i])
    ensures ReadItems(RenderItems(items) + "]" + rest) == Some((items, rest))
    decreases items, 0
  {
    hide ReadValue, ReadItems, ReadFields, ReadString, Render;
    if |items| == 1 {
      ReadRendered(items[0], "]" + rest);
      LastItem(items[0], rest);
      assert items == [items[0]];
    } else {
      ReadRenderedItems(items[1..], rest);
      var more := RenderItems(items[1..]) + "]" + rest;
      ReadRendered(items[0], "," + more);
      NextItem(items[0], items[1..], more, rest);
      assert RenderItems(items) + "]" + rest == Render(items[0]) + ("," + more);
      assert items == [items[0]] + items[1..];
    }
  }

  lemma LastItem(v: Value, rest: string)
    requires ReadValue(Render(v) + ("]" + rest)) == Some((v, "]" + rest))
    ensures ReadItems(Render(v) + "]" + rest) == Some(([v], rest))
  {
    hide ReadValue, Render;
    assert Render(v) + "]" + rest == Render(v) + ("]" + rest);
    assert ("]" + rest)[0] == ']' && ("]" + rest)[1..] == rest;
  }

  lemma NextItem(v: Value, vs: seq<Value>, more: string, rest: string)
    requires ReadValue(Render(v) + ("," + more)) == Some((v, "," + more))
    requires ReadItems(more) == Some((vs, rest))
    ensures ReadItems(Render(v) + ("," + more)) == Some(([v] + vs, rest))
  {
    hide ReadValue, Render;
    assert ("," + more)[0] == ',' && ("," + more)[1..] == more;
  }

  lemma {:induction false} ReadRenderedFields(fields: seq<(string, Value)>, rest: string)
    requires fields != []
    requires forall i :: 0 <= i < |fields| ==> PlainKey(fields[i].0) && Printable(fields[i].1)
    ensures ReadFields(RenderFields(fields) + "}" + rest) == Some((fields, rest))
    decreases fields, 0
  {
    hide ReadValue, ReadItems, ReadFields, ReadString, Render, RenderField, FieldFront;
    if |fields| == 1 {
      ReadRenderedField(fields[0], "}" + rest);
      LastField(fields[0], rest);
      assert RenderFields(fields) + "}" + rest == RenderField(fields[0]) + ("}" + rest);
      assert fields == [fields[0]];
    } else {
      ReadRenderedFields(fields[1..], rest);
      var more := RenderFields(fields[1..]) + "}" + rest;
      ReadRenderedField(fields[0], "," + more);
      NextField(fields[0], fields[1..], more, rest);
      assert RenderFields(fields) + "}" + rest == RenderField(fields[0]) + ("," + more);
      assert fields == [fields[0]] + fields[1..];
    }
  }

  /** `s` starts with the field `f`, after which `end` remains. */
  predicate FieldFront(s: string, f: (string, Value), end: string) {
    && s != "" && s[0] == '"'
    && ReadString(s[1..]).Some? && ReadString(s[1..]).value.0 == f.0
    && var r := ReadString(s[1..]).value.1;
       r != "" && r[0] == ':' && ReadValue(r[1..]) == Some((f.1, end))
  }

  lemma {:induction false} ReadRenderedField(f: (string, Value), end: string)
    requires PlainKey(f.0) && Printable(f.1) && Ends(end)
    ensures FieldFront(RenderField(f) + end, f, end)
    decreases f, 0
  {
    hide ReadValue, ReadString, Render, Escape;
    ReadRendered(f.1, end);
    PlainEscape(f.0);
    var tail := ":" + (Render(f.1) + end);
    var s := RenderField(f) + end;
    ReadQuoted(f.0, tail);
    assert s == ['"'] + (Escape(f.0) + ['"'] + tail);
    assert s[1..] == Escape(f.0) + ['"'] + tail;
    assert tail[0] == ':' && tail[1..] == Render(f.1) + end;
  }

  lemma LastField(f: (string, Value), rest: string)
    requires FieldFront(RenderField(f) + ("}" + rest), f, "}" + rest)
    ensures ReadFields(RenderField(f) + ("}" + rest)) == Some(([f], rest))
  {
    hide ReadValue, ReadString, RenderField;
    assert ("}" + rest)[0] == '}' && ("}" + rest)[1..] == rest;
  }

  lemma NextField(f: (string, Value), fs: seq<(string, Value)>, more: string, rest: string)
    requires FieldFront(RenderField(f) + ("," + more), f, "," + more)
    requires ReadFields(more) == Some((fs, rest))
    ensures ReadFields(RenderField(f) + ("," + more)) == Some(([f] + fs, rest))
  {
    hide ReadValue, ReadString, RenderField;
    assert ("," + more)[0] == ',' && ("," + more)[1..] == more;
  }

  /** Every printable value reads back from its text. */
  lemma ParseRendered(v: Value)
    requires Printable(v)
    ensures ParseJson(Render(v)) == Some(v)
  {
    ReadRendered(v, "");
    assert Render(v) + "" == Render(v);
  }
}
