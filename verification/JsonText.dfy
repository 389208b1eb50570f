/** JSON text after RFC 8259: a printer that writes what `JSON.stringify` writes, a parser for
    every JSON text, and the scanner state that the nesting check keeps. */
module JsonText {
  import opened Prelude
  import opened NumberText
  import opened JsValues

  // ----- Numbers -----

  predicate IsNumberChar(c: char) {
    IsDigit(c) || c == '-' || c == '+' || c == '.' || c == 'e' || c == 'E'
  }

  /** The length of the longest prefix of digits. */
  function DigitRun(s: string): (n: nat)
    ensures n <= |s|
  {
    if s != [] && IsDigit(s[0]) then 1 + DigitRun(s[1..]) else 0
  }

  predicate IsExponent(s: string) {
    s == "" || ((s[0] == 'e' || s[0] == 'E') &&
                var digits := if |s| > 1 && (s[1] == '+' || s[1] == '-') then s[2..] else s[1..];
                digits != "" && DigitRun(digits) == |digits|)
  }

  predicate IsFractionAndExponent(s: string) {
    if s != "" && s[0] == '.' then DigitRun(s[1..]) > 0 && IsExponent(s[1..][DigitRun(s[1..])..]) else IsExponent(s)
  }

  /** Section 6 of RFC 8259: optional minus, integer part, optional fraction, optional exponent. */
  predicate IsNumberToken(s: string) {
    && s != ""
    && (forall i :: 0 <= i < |s| ==> IsNumberChar(s[i]))
    && (s[0] == '-' || IsDigit(s[0]))
    && var u := if s[0] == '-' then s[1..] else s;
       var n := DigitRun(u);
       n > 0 && (u[0] == '0' ==> n == 1) && IsFractionAndExponent(u[n..])
  }

  // ----- Printing -----

  function HexChar(d: nat): char
    requires d < 16
  {
    if d < 10 then '0' + d as char else 'a' + (d - 10) as char
  }

  function Escape(c: char): string {
    if c == '\"' then "\\\""
    else if c == '\\' then "\\\\"
    else if c == '\U{8}' then "\\b"
    else if c == '\U{C}' then "\\f"
    else if c == '\n' then "\\n"
    else if c == '\r' then "\\r"
    else if c == '\t' then "\\t"
    else if c < ' ' then "\\u00" + [HexChar(c as int / 16), HexChar(c as int % 16)]
    else [c]
  }

  function EscapeAll(s: string): string {
    if s == [] then [] else Escape(s[0]) + EscapeAll(s[1..])
  }

  function Quote(s: string): string {
    "\"" + EscapeAll(s) + "\""
  }

  /** `JSON.stringify(v)`. */
  function Print(v: JsValue): string
    decreases v, 1
  {
    match v
    case Null => "null"
    case Bool(b) => if b then "true" else "false"
    case Num(token) => token
    case Str(text) => Quote(text)
    case Arr(items) => "[" + PrintItems(items) + "]"
    case Obj(keys, values) => "{" + PrintMembers(keys, values) + "}"
    case Opaque => ""
  }

  function PrintItems(items: seq<JsValue>): string
    decreases items, 0
  {
    if items == [] then ""
    else if |items| == 1 then Print(items[0])
    else Print(items[0]) + "," + PrintItems(items[1..])
  }

  function PrintMembers(keys: seq<string>, values: seq<JsValue>): string
    decreases values, 0
  {
    if keys == [] || values == [] then ""
    else
      var first := Quote(keys[0]) + ":" + Print(values[0]);
      if |values| == 1 then first else first + "," + PrintMembers(keys[1..], values[1..])
  }

  /** The value is JSON: every number has a token, every object one value per key, nothing is opaque. */
  ghost predicate IsJson(v: JsValue)
    decreases v, 1
  {
    match v
    case Num(token) => IsNumberToken(token)
    case Arr(items) => AllJson(items)
    case Obj(keys, values) => |keys| == |values| && AllJson(values)
    case Opaque => false
    case _ => true
  }

  ghost predicate AllJson(vs: seq<JsValue>)
    decreases vs, 0
  {
    vs == [] || (IsJson(vs[0]) && AllJson(vs[1..]))
  }

  // ----- Parsing -----

  predicate IsWs(c: char) {
    c == ' ' || c == '\t' || c == '\n' || c == '\r'
  }

  function SkipWs(s: string): (rest: string)
    ensures |rest| <= |s|
  {
    if s != [] && IsWs(s[0]) then SkipWs(s[1..]) else s
  }

  function HexValue(c: char): Option<nat> {
    if IsDigit(c) then Some(DigitValue(c))
    else if 'a' <= c <= 'f' then Some(c as int - 'a' as int + 10)
    else if 'A' <= c <= 'F' then Some(c as int - 'A' as int + 10)
    else None
  }

  /** The code of four hex digits at the start of `s`. */
  function HexCode(s: string): (r: Option<nat>)
    ensures r.Some? ==> |s| >= 4 && r.value < 0x10000 && forall i :: 0 <= i < 4 ==> HexValue(s[i]).Some?
  {
    if |s| >= 4 && HexValue(s[0]).Some? && HexValue(s[1]).Some? && HexValue(s[2]).Some? && HexValue(s[3]).Some? then
      Some(((HexValue(s[0]).value * 16 + HexValue(s[1]).value) * 16 + HexValue(s[2]).value) * 16 + HexValue(s[3]).value)
    else None
  }

  function ShortEscape(c: char): Option<char> {
    match c
    case '\"' => Some('\"')
    case '\\' => Some('\\')
    case '/' => Some('/')
    case 'b' => Some('\U{8}')
    case 'f' => Some('\U{C}')
    case 'n' => Some('\n')
    case 'r' => Some('\r')
    case 't' => Some('\t')
    case _ => None
  }

  /** The character of an escape sequence, and the text after it; `s` starts after the backslash.
      Two escaped surrogates in a row make one character. */
  function ParseEscape(s: string): (r: Option<(char, string)>)
    ensures r.Some? ==> |r.value.1| < |s|
  {
    if s == [] then None
    else if ShortEscape(s[0]).Some? then Some((ShortEscape(s[0]).value, s[1..]))
    else if s[0] != 'u' || HexCode(s[1..]).None? then None
    else
      var code, rest := HexCode(s[1..]).value, s[5..];
      if !(0xD800 <= code < 0xE000) then Some((code as char, rest))
      else if code < 0xDC00 && "\\u" <= rest && HexCode(rest[2..]).Some?
           && 0xDC00 <= HexCode(rest[2..]).value < 0xE000 then
        Some(((0x10000 + (code - 0xD800) * 0x400 + HexCode(rest[2..]).value - 0xDC00) as char, rest[6..]))
      else None
  }

  /** The characters of a string up to its closing quote, and the text after that. */
  function ParseChars(s: string): (r: Option<(string, string)>)
    ensures r.Some? ==> |r.value.1| < |s|
    decreases |s|
  {
    if s == [] || s[0] < ' ' then None
    else if s[0] == '\"' then Some(("", s[1..]))
    else
      var c := if s[0] == '\\' then ParseEscape(s[1..]) else Some((s[0], s[1..]));
      if c.None? then None
      else
        var tail := ParseChars(c.value.1);
        if tail.None? then None else Some(([c.value.0] + tail.value.0, tail.value.1))
  }

  /** The length of the longest prefix of characters that numbers are written with. */
  function NumberRun(s: string): (n: nat)
    ensures n <= |s|
  {
    if s != [] && IsNumberChar(s[0]) then 1 + NumberRun(s[1..]) else 0
  }

  function ParseNumber(s: string): (r: Option<(JsValue, string)>)
    ensures r.Some? ==> |r.value.1| < |s|
  {
    var token := s[..NumberRun(s)];
    if IsNumberToken(token) then Some((Num(token), s[NumberRun(s)..])) else None
  }

  function ParseValue(s: string): (r: Option<(JsValue, string)>)
    ensures r.Some? ==> |r.value.1| < |s|
    decreases |s|, 1
  {
    if s == [] then None
    else if s[0] == '\"' then
      var chars := ParseChars(s[1..]);
      if chars.None? then None else Some((Str(chars.value.0), chars.value.1))
    else if s[0] == '[' then
      var t := SkipWs(s[1..]);
      if t != [] && t[0] == ']' then Some((Arr([]), t[1..]))
      else
        var items := ParseItems(t);
        if items.None? then None else Some((Arr(items.value.0), items.value.1))
    else if s[0] == '{' then
      var t := SkipWs(s[1..]);
      if t != [] && t[0] == '}' then Some((Obj([], []), t[1..]))
      else
        var members := ParseMembers(t);
        if members.None? then None else Some((Obj(members.value.0, members.value.1), members.value.2))
    else if "null" <= s then Some((Null, s[4..]))
    else if "true" <= s then Some((Bool(true), s[4..]))
    else if "false" <= s then Some((Bool(false), s[5..]))
    else ParseNumber(s)
  }

  /** One or more array items up to the closing bracket. */
  function ParseItems(s: string): (r: Option<(seq<JsValue>, string)>)
    ensures r.Some? ==> |r.value.1| < |s| && r.value.0 != []
    decreases |s|, 2
  {
    var first := ParseValue(s);
    if first.None? then None
    else
      var t := SkipWs(first.value.1);
      if t == [] then None
      else if t[0] == ']' then Some(([first.value.0], t[1..]))
      else if t[0] != ',' then None
      else
        var more := ParseItems(SkipWs(t[1..]));
        if more.None? then None else Some(([first.value.0] + more.value.0, more.value.1))
  }

  /** A key, the colon after it, and the start of the member's value. */
  function ParseKey(s: string): (r: Option<(string, string)>)
    ensures r.Some? ==> |r.value.1| < |s|
  {
    if s == [] || s[0] != '\"' || ParseChars(s[1..]).None? then None
    else
      var t := SkipWs(ParseChars(s[1..]).value.1);
      if t == [] || t[0] != ':' then None else Some((ParseChars(s[1..]).value.0, SkipWs(t[1..])))
  }

  /** One or more object members up to the closing brace. */
  function ParseMembers(s: string): (r: Option<(seq<string>, seq<JsValue>, string)>)
    ensures r.Some? ==> |r.value.2| < |s| && |r.value.0| == |r.value.1| > 0
    decreases |s|, 2
  {
    var key := ParseKey(s);
    if key.None? then None
    else
      var first := ParseValue(key.value.1);
      if first.None? then None
      else
        var t := SkipWs(first.value.1);
        if t == [] then None
        else if t[0] == '}' then Some(([key.value.0], [first.value.0], t[1..]))
        else if t[0] != ',' then None
        else
          var more := ParseMembers(SkipWs(t[1..]));
          if more.None? then None
          else Some(([key.value.0] + more.value.0, [first.value.0] + more.value.1, more.value.2))
  }

  /** A whole JSON text. Objects keep all members as written, also those with the same key. */
  function ParseDocument(s: string): Option<JsValue> {
    var r := ParseValue(SkipWs(s));
    if r.None? || SkipWs(r.value.1) != "" then None else Some(r.value.0)
  }
}
