/** JSON texts as RFC 8259 describes them, apart from any parser: syntax trees that carry every free
    choice of a text, its white space and the spelling of its characters, the text of a tree, and
    the value it stands for. */
module JsonSyntax {
  import opened Prelude
  import opened JsValues

  /** White space, section 2. */
  predicate IsGap(s: string) {
    forall i :: 0 <= i < |s| ==> s[i] == ' ' || s[i] == '\t' || s[i] == '\n' || s[i] == '\r'
  }

  // ----- Strings, section 7 -----

  /** How a character is written: as itself, with a two-character escape, or by its code in four hex
      digits, or twice four for its surrogate pair, each digit in either case. */
  datatype Spelled = Raw(c: char) | Short(c: char) | Coded(c: char, upper: seq<bool>)

  function EscapeLetter(c: char): Option<char> {
    match c
    case '\"' => Some('\"')
    case '\\' => Some('\\')
    case '/' => Some('/')
    case '\U{8}' => Some('b')
    case '\U{C}' => Some('f')
    case '\n' => Some('n')
    case '\r' => Some('r')
    case '\t' => Some('t')
    case _ => None
  }

  function HexDigit(d: nat, upper: bool): char
    requires d < 16
  {
    if d < 10 then '0' + d as char else if upper then 'A' + (d - 10) as char else 'a' + (d - 10) as char
  }

  function Hex4(n: nat, upper: seq<bool>): string
    requires n < 0x10000 && |upper| == 4
  {
    [HexDigit(n / 4096, upper[0]), HexDigit(n / 256 % 16, upper[1]),
     HexDigit(n / 16 % 16, upper[2]), HexDigit(n % 16, upper[3])]
  }

  function HighSurrogate(c: char): (n: nat)
    requires c as int >= 0x10000
    ensures 0xD800 <= n < 0xDC00
  {
    0xD800 + (c as int - 0x10000) / 0x400
  }

  function LowSurrogate(c: char): (n: nat)
    requires c as int >= 0x10000
    ensures 0xDC00 <= n < 0xE000
  {
    0xDC00 + (c as int - 0x10000) % 0x400
  }

  predicate ValidChar(x: Spelled) {
    match x
    case Raw(c) => c >= ' ' && c != '\"' && c != '\\'
    case Short(c) => EscapeLetter(c).Some?
    case Coded(c, upper) => |upper| == if c as int < 0x10000 then 4 else 8
  }

  function CharText(x: Spelled): string
    requires ValidChar(x)
  {
    match x
    case Raw(c) => [c]
    case Short(c) => ['\\', EscapeLetter(c).value]
    case Coded(c, upper) =>
      if c as int < 0x10000 then "\\u" + Hex4(c as int, upper)
      else "\\u" + Hex4(HighSurrogate(c), upper[..4]) + ("\\u" + Hex4(LowSurrogate(c), upper[4..]))
  }

  predicate ValidChars(chars: seq<Spelled>) {
    forall i :: 0 <= i < |chars| ==> ValidChar(chars[i])
  }

  function CharsText(chars: seq<Spelled>): string
    requires ValidChars(chars)
  {
    if chars == [] then "" else CharText(chars[0]) + CharsText(chars[1..])
  }

  function CharsValue(chars: seq<Spelled>): string {
    seq(|chars|, i requires 0 <= i < |chars| => chars[i].c)
  }

  // ----- Numbers, section 6 -----

  datatype Exponent = Exponent(letter: char, sign: string, digits: string)

  datatype Numeral = Numeral(minus: bool, whole: string, fraction: Option<string>, exponent: Option<Exponent>)

  predicate IsDigits(s: string) {
    s != "" && forall i :: 0 <= i < |s| ==> '0' <= s[i] <= '9'
  }

  predicate ValidNumeral(n: Numeral) {
    && IsDigits(n.whole) && (n.whole[0] == '0' ==> |n.whole| == 1)
    && (n.fraction.Some? ==> IsDigits(n.fraction.value))
    && (n.exponent.Some? ==>
          && (n.exponent.value.letter == 'e' || n.exponent.value.letter == 'E') && IsDigits(n.exponent.value.digits)
          && (n.exponent.value.sign == "" || n.exponent.value.sign == "+" || n.exponent.value.sign == "-"))
  }

  function ExponentText(e: Option<Exponent>): string {
    if e.None? then "" else [e.value.letter] + e.value.sign + e.value.digits
  }

  function FractionText(f: Option<string>): string {
    if f.None? then "" else "." + f.value
  }

  function UnsignedText(n: Numeral): string {
    n.whole + (FractionText(n.fraction) + ExponentText(n.exponent))
  }

  function NumeralText(n: Numeral): string {
    (if n.minus then "-" else "") + UnsignedText(n)
  }

  // ----- Values, sections 2 to 5 -----

  /** A value with the white space around it. */
  datatype Tree = Tree(before: string, body: Body, after: string)

  datatype Body =
    | NullWord
    | BoolWord(b: bool)
    | Number(numeral: Numeral)
    | Text(chars: seq<Spelled>)
    | List(gap: string, items: seq<Tree>)
    | Record(gap: string, keys: seq<Key>, values: seq<Tree>)

  /** A key with the white space around it. */
  datatype Key = Key(before: string, chars: seq<Spelled>, after: string)

  predicate ValidKey(k: Key) {
    IsGap(k.before) && ValidChars(k.chars) && IsGap(k.after)
  }

  predicate ValidTree(t: Tree)
    decreases t, 1
  {
    IsGap(t.before) && ValidBody(t.body) && IsGap(t.after)
  }

  predicate ValidBody(b: Body)
    decreases b, 1
  {
    match b
    case Number(numeral) => ValidNumeral(numeral)
    case Text(chars) => ValidChars(chars)
    case List(gap, items) => IsGap(gap) && ValidTrees(items)
    case Record(gap, keys, values) =>
      IsGap(gap) && |keys| == |values| && (forall i :: 0 <= i < |keys| ==> ValidKey(keys[i])) && ValidTrees(values)
    case _ => true
  }

  predicate ValidTrees(ts: seq<Tree>)
    decreases ts, 0
  {
    ts == [] || (ValidTree(ts[0]) && ValidTrees(ts[1..]))
  }

  function KeyText(k: Key): string
    requires ValidKey(k)
  {
    k.before + ("\"" + CharsText(k.chars) + "\"") + k.after
  }

  function TreeText(t: Tree): string
    requires ValidTree(t)
    decreases t, 1
  {
    t.before + BodyText(t.body) + t.after
  }

  function BodyText(b: Body): string
    requires ValidBody(b)
    decreases b, 1
  {
    match b
    case NullWord => "null"
    case BoolWord(v) => if v then "true" else "false"
    case Number(numeral) => NumeralText(numeral)
    case Text(chars) => "\"" + CharsText(chars) + "\""
    case List(gap, items) => "[" + (if items == [] then gap else ItemsText(items)) + "]"
    case Record(gap, keys, values) => "{" + (if values == [] then gap else MembersText(keys, values)) + "}"
  }

  function ItemsText(items: seq<Tree>): string
    requires items != [] && ValidTrees(items)
    decreases items, 0
  {
    if |items| == 1 then TreeText(items[0]) else TreeText(items[0]) + "," + ItemsText(items[1..])
  }

  function MembersText(keys: seq<Key>, values: seq<Tree>): string
    requires |keys| == |values| && values != [] && ValidTrees(values)
    requires forall i :: 0 <= i < |keys| ==> ValidKey(keys[i])
    decreases values, 0
  {
    var first := KeyText(keys[0]) + ":" + TreeText(values[0]);
    if |values| == 1 then first else first + "," + MembersText(keys[1..], values[1..])
  }

  function KeyValues(keys: seq<Key>): seq<string> {
    seq(|keys|, i requires 0 <= i < |keys| => CharsValue(keys[i].chars))
  }

  function TreeValue(t: Tree): JsValue
    decreases t, 1
  {
    BodyValue(t.body)
  }

  function BodyValue(b: Body): JsValue
    decreases b, 1
  {
    match b
    case NullWord => Null
    case BoolWord(v) => Bool(v)
    case Number(numeral) => Num(NumeralText(numeral))
    case Text(chars) => Str(CharsValue(chars))
    case List(_, items) => Arr(TreeValues(items))
    case Record(_, keys, values) => Obj(KeyValues(keys), TreeValues(values))
  }

  function TreeValues(ts: seq<Tree>): (r: seq<JsValue>)
    ensures |r| == |ts|
    decreases ts, 0
  {
    if ts == [] then [] else [TreeValue(ts[0])] + TreeValues(ts[1..])
  }
}
