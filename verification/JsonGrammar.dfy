/** The parser accepts nothing but JSON texts: what it takes for a value is the text of a syntax
    tree with that value. With the other direction, the texts it accepts are exactly the JSON texts. */
module JsonGrammar {
  import opened Prelude
  import opened NumberText
  import opened JsValues
  import opened JsonText
  import opened JsonSyntax
  import opened JsonRoundTrip
  import JsonScanner

  /** The white space that is skipped. */
  function Gap(s: string): string {
    s[..|s| - |SkipWs(s)|]
  }

  lemma {:induction false} GapFacts(s: string)
    ensures s == Gap(s) + SkipWs(s) && IsGap(Gap(s))
    decreases |s|
  {
    if s != [] && IsWs(s[0]) {
      GapFacts(s[1..]);
      assert Gap(s) == [s[0]] + Gap(s[1..]);
      assert s == [s[0]] + s[1..];
    }
  }

  // ----- Numbers -----

  lemma {:induction false} DigitRunDigits(s: string)
    ensures forall i :: 0 <= i < DigitRun(s) ==> '0' <= s[i] <= '9'
    decreases |s|
  {
    if s != [] && IsDigit(s[0]) {
      DigitRunDigits(s[1..]);
    }
  }

  lemma ExponentOfText(s: string) returns (e: Option<Exponent>)
    requires IsExponent(s)
    ensures ExponentText(e) == s && ValidNumeral(Numeral(false, "0", None, e))
  {
    if s == "" {
      e := None;
    } else {
      var signed := |s| > 1 && (s[1] == '+' || s[1] == '-');
      var digits := if signed then s[2..] else s[1..];
      DigitRunDigits(digits);
      e := Some(Exponent(s[0], if signed then [s[1]] else "", digits));
      assert s == [s[0]] + s[1..] && (signed ==> s[1..] == [s[1]] + s[2..]);
      if signed {
        assert [s[0]] + [s[1]] + digits == [s[0]] + ([s[1]] + digits);
        assert [s[1]] == "+" || [s[1]] == "-";
      }
    }
  }

  lemma TailOfText(s: string) returns (f: Option<string>, e: Option<Exponent>)
    requires IsFractionAndExponent(s)
    ensures FractionText(f) + ExponentText(e) == s && ValidNumeral(Numeral(false, "0", f, e))
  {
    if s != "" && s[0] == '.' {
      var u := s[1..];
      var n := DigitRun(u);
      DigitsPrefix(u);
      hide IsExponent, DigitRun, IsFractionAndExponent;
      e := ExponentOfText(u[n..]);
      hide ExponentText;
      f := Some(u[..n]);
      PointFirst(s, n);
    } else {
      hide IsExponent, DigitRun;
      e := ExponentOfText(s);
      hide ExponentText;
      f := None;
      assert "" + ExponentText(e) == s;
    }
  }

  lemma DigitsPrefix(u: string)
    requires DigitRun(u) > 0
    ensures IsDigits(u[..DigitRun(u)])
  {
    DigitRunDigits(u);
  }

  lemma PointFirst(s: string, n: nat)
    requires s != "" && s[0] == '.' && n <= |s[1..]|
    ensures s == "." + s[1..][..n] + s[1..][n..]
  {
    var u := s[1..];
    assert s == "." + u && u == u[..n] + u[n..];
  }

  /** What is behind the sign of a number. */
  lemma TokenIsSigned(s: string)
    requires IsNumberToken(s)
    ensures s != "" && IsUnsigned(if s[0] == '-' then s[1..] else s)
  {
    hide IsFractionAndExponent, DigitRun;
  }

  lemma {:induction false} NumeralOfUnsigned(u: string, minus: bool) returns (n: Numeral)
    requires IsUnsigned(u)
    ensures ValidNumeral(n) && n.minus == minus && UnsignedText(n) == u
  {
    var k := DigitRun(u);
    DigitsPrefix(u);
    hide IsFractionAndExponent, FractionText, ExponentText, DigitRun, IsExponent;
    var f, e := TailOfText(u[k..]);
    n := Numeral(minus, u[..k], f, e);
    Halves(u, k);
  }

  /** A number token is the text of a number. */
  lemma {:induction false} NumeralOfToken(s: string) returns (n: Numeral)
    requires IsNumberToken(s)
    ensures ValidNumeral(n) && NumeralText(n) == s
  {
    TokenIsSigned(s);
    hide IsNumberToken, IsUnsigned, ValidNumeral, UnsignedText;
    n := NumeralOfUnsigned(if s[0] == '-' then s[1..] else s, s[0] == '-');
    SignFirst(s);
  }

  lemma Halves(s: string, k: nat)
    requires k <= |s|
    ensures s[..k] + s[k..] == s
  {
  }

  lemma SignFirst(s: string)
    requires s != ""
    ensures s == if s[0] == '-' then "-" + s[1..] else "" + s
  {
  }

  // ----- Characters -----

  lemma HexDigitOf(c: char)
    requires HexValue(c).Some?
    ensures HexValue(c).value < 16 && HexDigit(HexValue(c).value, 'A' <= c <= 'F') == c
  {
  }

  function UpperCases(s: string): seq<bool> {
    seq(|s|, i requires 0 <= i < |s| => 'A' <= s[i] <= 'F')
  }

  /** Four digits are the digits of the code they are read as. */
  lemma HexOfCode(s: string)
    requires HexCode(s).Some?
    ensures Hex4(HexCode(s).value, UpperCases(s[..4])) == s[..4]
  {
    HexDigitOf(s[0]);
    HexDigitOf(s[1]);
    HexDigitOf(s[2]);
    HexDigitOf(s[3]);
    var a, b, c, d := HexValue(s[0]).value, HexValue(s[1]).value, HexValue(s[2]).value, HexValue(s[3]).value;
    hide HexValue, HexDigit;
    DigitsOfCode(a, b, c, d);
  }

  lemma DigitsOfCode(a: nat, b: nat, c: nat, d: nat)
    requires a < 16 && b < 16 && c < 16 && d < 16
    ensures var n := ((a * 16 + b) * 16 + c) * 16 + d;
      n / 4096 == a && n / 256 % 16 == b && n / 16 % 16 == c && n % 16 == d
  {
    var n := ((a * 16 + b) * 16 + c) * 16 + d;
    assert n / 16 == (a * 16 + b) * 16 + c && n / 16 / 16 == a * 16 + b && n / 256 == n / 16 / 16;
    assert n / 4096 == n / 256 / 16;
  }

  lemma LetterOfEscape(c: char)
    requires ShortEscape(c).Some?
    ensures EscapeLetter(ShortEscape(c).value) == Some(c)
  {
  }

  /** The escape sequence of a code that is no surrogate, ... */
  lemma {:induction false} SpelledCode(s: string) returns (x: Spelled)
    requires s != "" && s[0] == 'u' && HexCode(s[1..]).Some? && !(0xD800 <= HexCode(s[1..]).value < 0xE000)
    ensures ValidChar(x) && x.c == HexCode(s[1..]).value as char && CharText(x) + s[5..] == "\\" + s
  {
    var u := s[1..];
    HexOfCode(u);
    hide HexCode, Hex4;
    x := Coded(HexCode(u).value as char, UpperCases(u[..4]));
    assert s == "u" + (u[..4] + s[5..]);
    assert "\\u" + u[..4] + s[5..] == "\\" + s;
  }

  lemma SurrogatesOf(high: nat, low: nat)
    requires 0xD800 <= high < 0xDC00 <= low < 0xE000
    ensures var n := 0x10000 + (high - 0xD800) * 0x400 + low - 0xDC00;
      0x10000 <= n < 0x110000 && HighSurrogate(n as char) == high && LowSurrogate(n as char) == low
  {
  }

  lemma {:induction false} CodedPair(high: nat, low: nat, up: seq<bool>, down: seq<bool>) returns (x: Spelled)
    requires 0xD800 <= high < 0xDC00 <= low < 0xE000 && |up| == 4 && |down| == 4
    ensures ValidChar(x) && x.c == (0x10000 + (high - 0xD800) * 0x400 + low - 0xDC00) as char
    ensures CharText(x) == "\\u" + Hex4(high, up) + ("\\u" + Hex4(low, down))
  {
    SurrogatesOf(high, low);
    hide Hex4, HighSurrogate, LowSurrogate;
    x := Coded((0x10000 + (high - 0xD800) * 0x400 + low - 0xDC00) as char, up + down);
    assert (up + down)[..4] == up && (up + down)[4..] == down;
  }

  lemma CaseLength(s: string)
    requires HexCode(s).Some?
    ensures |s| >= 4 && |UpperCases(s[..4])| == 4
  {
  }

  /** ... and the two of a surrogate pair. */
  lemma {:induction false} SpelledPair(s: string) returns (x: Spelled)
    requires s != "" && s[0] == 'u' && HexCode(s[1..]).Some? && 0xD800 <= HexCode(s[1..]).value < 0xDC00
    requires "\\u" <= s[5..] && HexCode(s[5..][2..]).Some? && 0xDC00 <= HexCode(s[5..][2..]).value < 0xE000
    ensures ValidChar(x) && CharText(x) + s[5..][6..] == "\\" + s
    ensures x.c == (0x10000 + (HexCode(s[1..]).value - 0xD800) * 0x400 + HexCode(s[5..][2..]).value - 0xDC00) as char
  {
    hide HexCode, Hex4, UpperCases, CharText, ValidChar;
    var u, w := s[1..], s[5..][2..];
    CaseLength(u);
    CaseLength(w);
    HexOfCode(u);
    HexOfCode(w);
    x := CodedPair(HexCode(u).value, HexCode(w).value, UpperCases(u[..4]), UpperCases(w[..4]));
    PairSlices(s);
    PairText(s, u[..4], w[..4], s[5..][6..]);
  }

  lemma PairSlices(s: string)
    requires |s| >= 11 && s[0] == 'u' && "\\u" <= s[5..]
    ensures s == "u" + s[1..][..4] + ("\\u" + s[5..][2..][..4] + s[5..][6..])
  {
    assert s == "u" + s[1..][..4] + s[5..];
    assert s[5..] == "\\u" + s[5..][2..][..4] + s[5..][6..];
  }

  lemma PairText(s: string, high: string, low: string, t: string)
    requires s == "u" + high + ("\\u" + low + t)
    ensures "\\u" + high + ("\\u" + low) + t == "\\" + s
  {
  }

  lemma {:induction false} SpelledEscape(s: string) returns (x: Spelled)
    requires ParseEscape(s).Some?
    ensures ValidChar(x) && x.c == ParseEscape(s).value.0 && CharText(x) + ParseEscape(s).value.1 == "\\" + s
  {
    hide HexCode, CharText, ValidChar;
    if ShortEscape(s[0]).Some? {
      x := Short(ShortEscape(s[0]).value);
      ShortText(s);
    } else if !(0xD800 <= HexCode(s[1..]).value < 0xE000) {
      x := SpelledCode(s);
    } else {
      x := SpelledPair(s);
    }
  }

  lemma ShortText(s: string)
    requires s != "" && ShortEscape(s[0]).Some?
    ensures var x := Short(ShortEscape(s[0]).value); ValidChar(x) && CharText(x) + s[1..] == "\\" + s
  {
    LetterOfEscape(s[0]);
    hide ShortEscape, EscapeLetter;
    assert s == [s[0]] + s[1..];
  }

  /** The characters of a string, as they are written. */
  lemma {:induction false} SpelledChars(s: string) returns (chars: seq<Spelled>)
    requires ParseChars(s).Some?
    ensures ValidChars(chars) && CharsValue(chars) == ParseChars(s).value.0
    ensures s == CharsText(chars) + "\"" + ParseChars(s).value.1
    decreases |s|
  {
    hide ParseEscape, CharText, ValidChar;
    var text, rest := ParseChars(s).value.0, ParseChars(s).value.1;
    if s[0] == '\"' {
      chars := [];
      assert s == "\"" + s[1..] && "" + "\"" + rest == "\"" + rest;
    } else {
      var x, t := OneSpelledChar(s);
      var more := SpelledChars(t);
      chars := [x] + more;
      assert chars[1..] == more && CharsValue(chars) == [x.c] + CharsValue(more);
      assert CharText(x) + (CharsText(more) + "\"" + rest) == CharText(x) + CharsText(more) + "\"" + rest;
    }
  }

  /** One character of a string, and the text behind it. */
  lemma {:induction false} OneSpelledChar(s: string) returns (x: Spelled, t: string)
    requires ParseChars(s).Some? && s[0] != '\"'
    ensures ValidChar(x) && s == CharText(x) + t && |t| < |s| && ParseChars(t).Some?
    ensures ParseChars(s).value == ([x.c] + ParseChars(t).value.0, ParseChars(t).value.1)
  {
    hide ParseEscape;
    if s[0] == '\\' {
      x := SpelledEscape(s[1..]);
      t := ParseEscape(s[1..]).value.1;
      hide CharText, ValidChar;
      assert s == "\\" + s[1..];
    } else {
      x, t := Raw(s[0]), s[1..];
      assert s == [s[0]] + s[1..];
    }
  }

  // ----- Values -----

  lemma {:induction false} WordOfText(s: string) returns (b: Body)
    requires ParseValue(s).Some? && s[0] != '\"' && s[0] != '[' && s[0] != '{'
    ensures ValidBody(b) && s == BodyText(b) + ParseValue(s).value.1 && BodyValue(b) == ParseValue(s).value.0
  {
    hide ParseChars, ParseItems, ParseMembers, SkipWs, IsNumberToken, NumberRun;
    if "null" <= s {
      b := NullWord;
      assert s == s[..4] + s[4..];
    } else if "true" <= s {
      b := BoolWord(true);
      assert s == s[..4] + s[4..];
    } else if "false" <= s {
      b := BoolWord(false);
      assert s == s[..5] + s[5..];
    } else {
      var n := NumeralOfToken(s[..NumberRun(s)]);
      hide NumeralText, ValidNumeral;
      b := Number(n);
      assert s == s[..NumberRun(s)] + s[NumberRun(s)..];
    }
  }

  lemma {:induction false} TextOfString(s: string) returns (b: Body)
    requires ParseValue(s).Some? && s[0] == '\"'
    ensures ValidBody(b) && s == BodyText(b) + ParseValue(s).value.1 && BodyValue(b) == ParseValue(s).value.0
  {
    hide ParseChars, ParseItems, ParseMembers, SkipWs, ParseNumber, CharsText, ValidChars;
    var chars := SpelledChars(s[1..]);
    b := Text(chars);
    var rest := ParseValue(s).value.1;
    assert s == "\"" + s[1..];
    assert "\"" + (CharsText(chars) + "\"" + rest) == "\"" + CharsText(chars) + "\"" + rest;
  }

  /** Whatever the parser takes for a value is the text of a body with that value, ... */
  lemma {:induction false} BodyOfText(s: string) returns (b: Body)
    requires ParseValue(s).Some?
    ensures ValidBody(b) && s == BodyText(b) + ParseValue(s).value.1 && BodyValue(b) == ParseValue(s).value.0
    decreases |s|, 1
  {
    hide ParseValue, BodyText, BodyValue, ValidBody;
    NotEmpty(s);
    if s[0] == '[' {
      b := ListOfText(s);
    } else if s[0] == '{' {
      b := RecordOfText(s);
    } else if s[0] == '\"' {
      b := TextOfString(s);
    } else {
      b := WordOfText(s);
    }
  }

  lemma NotEmpty(s: string)
    requires ParseValue(s).Some?
    ensures s != ""
  {
  }

  lemma {:induction false} ListOfText(s: string) returns (b: Body)
    requires ParseValue(s).Some? && s != "" && s[0] == '['
    ensures ValidBody(b) && s == BodyText(b) + ParseValue(s).value.1 && BodyValue(b) == ParseValue(s).value.0
    decreases |s|, 0
  {
    hide ParseValue, ParseItems, SkipWs, IsGap, ItemsText, TreeValues, ValidTrees, Gap;
    JsonScanner.ParseContainer(s);
    var t, rest := SkipWs(s[1..]), ParseValue(s).value.1;
    FirstAndRest(s);
    FirstAndRest(t);
    if t[0] == ']' {
      GapFacts(s[1..]);
      b := List(Gap(s[1..]), []);
      NoTrees();
      Regroup("[", Gap(s[1..]), "]", rest);
    } else {
      var items := ItemsOfText(s[1..]);
      b := List("", items);
      assert IsGap("") by { EmptyGap(); }
      Regroup("[", ItemsText(items), "]", rest);
    }
  }

  lemma EmptyGap()
    ensures IsGap("")
  {
  }

  lemma NoKeys()
    ensures KeyValues([]) == []
  {
  }

  lemma NoTrees()
    ensures ValidTrees([]) && TreeValues([]) == []
  {
  }

  lemma {:induction false} RecordOfText(s: string) returns (b: Body)
    requires ParseValue(s).Some? && s != "" && s[0] == '{'
    ensures ValidBody(b) && s == BodyText(b) + ParseValue(s).value.1 && BodyValue(b) == ParseValue(s).value.0
    decreases |s|, 0
  {
    hide ParseValue, ParseMembers, SkipWs, IsGap, MembersText, TreeValues, ValidTrees, ValidKey, KeyValues, Gap;
    JsonScanner.ParseContainer(s);
    var t, rest := SkipWs(s[1..]), ParseValue(s).value.1;
    FirstAndRest(s);
    FirstAndRest(t);
    if t[0] == '}' {
      GapFacts(s[1..]);
      b := Record(Gap(s[1..]), [], []);
      NoTrees();
      NoKeys();
      Regroup("{", Gap(s[1..]), "}", rest);
    } else {
      var keys, values := MembersOfText(s[1..]);
      b := Record("", keys, values);
      assert IsGap("") by { EmptyGap(); }
      Regroup("{", MembersText(keys, values), "}", rest);
    }
  }

  /** ... with the white space around it, of a tree; ... */
  lemma {:induction false} TreeOfText(u: string) returns (tree: Tree)
    requires ParseValue(SkipWs(u)).Some?
    ensures ValidTree(tree) && TreeValue(tree) == ParseValue(SkipWs(u)).value.0
    ensures u == TreeText(tree) + SkipWs(ParseValue(SkipWs(u)).value.1)
    decreases |u|, 2
  {
    hide ParseValue, SkipWs, BodyText, ValidBody, IsGap;
    var s := SkipWs(u);
    var w := ParseValue(s).value.1;
    GapFacts(u);
    GapFacts(w);
    var b := BodyOfText(s);
    tree := Tree(Gap(u), b, Gap(w));
    Regroup(Gap(u), BodyText(b), Gap(w), SkipWs(w));
  }

  /** ... and so for items ... */
  lemma {:induction false} ItemsOfText(u: string) returns (items: seq<Tree>)
    requires ParseItems(SkipWs(u)).Some?
    ensures items != [] && ValidTrees(items) && TreeValues(items) == ParseItems(SkipWs(u)).value.0
    ensures u == ItemsText(items) + "]" + ParseItems(SkipWs(u)).value.1
    decreases |u|, 3
  {
    hide ParseValue, ParseItems, SkipWs, TreeText, ValidTree, TreeValue, ItemsText, TreeValues, ValidTrees;
    var vs, rest := ParseItems(SkipWs(u)).value.0, ParseItems(SkipWs(u)).value.1;
    var after := JsonScanner.ParseItemsStep(SkipWs(u), vs, rest);
    var tree := TreeOfText(u);
    var t := SkipWs(after);
    FirstAndRest(t);
    FirstAndRest(vs);
    if |vs| == 1 {
      items := [tree];
      OneTree(tree);
      Regroup("", TreeText(tree), "]", rest);
    } else {
      var more := ItemsOfText(t[1..]);
      items := [tree] + more;
      MoreTrees(tree, more);
      ItemPieces(TreeText(tree), ItemsText(more), rest);
    }
  }

  lemma FirstAndRest<T>(s: seq<T>)
    requires s != []
    ensures s == [s[0]] + s[1..] && (|s| == 1 ==> s == [s[0]])
  {
  }

  lemma ItemPieces(tree: string, more: string, rest: string)
    ensures tree + ("," + (more + "]" + rest)) == tree + "," + more + "]" + rest
  {
  }

  lemma {:induction false} OneTree(tree: Tree)
    requires ValidTree(tree)
    ensures ValidTrees([tree]) && TreeValues([tree]) == [TreeValue(tree)] && ItemsText([tree]) == TreeText(tree)
  {
    assert [tree][1..] == [];
  }

  lemma {:induction false} MoreTrees(tree: Tree, more: seq<Tree>)
    requires ValidTree(tree) && ValidTrees(more) && more != []
    ensures var all := [tree] + more;
      ValidTrees(all) && TreeValues(all) == [TreeValue(tree)] + TreeValues(more)
      && ItemsText(all) == TreeText(tree) + "," + ItemsText(more)
  {
    hide ValidTree, TreeText, TreeValue;
    assert ([tree] + more)[1..] == more;
  }

  /** The key of a member, as it is written. */
  lemma {:induction false} KeyOfText(u: string) returns (k: Key, t: string)
    requires ParseKey(SkipWs(u)).Some?
    ensures ValidKey(k) && CharsValue(k.chars) == ParseKey(SkipWs(u)).value.0
    ensures u == KeyText(k) + ":" + t && SkipWs(t) == ParseKey(SkipWs(u)).value.1 && |t| < |u|
  {
    hide ParseChars, SkipWs, IsGap, CharsText, ValidChars;
    var s := SkipWs(u);
    GapFacts(u);
    var chars := SpelledChars(s[1..]);
    var r := ParseChars(s[1..]).value.1;
    GapFacts(r);
    k := Key(Gap(u), chars, Gap(r));
    t := SkipWs(r)[1..];
    assert s == "\"" + s[1..] && SkipWs(r) == ":" + t;
    KeyPieces(Gap(u), CharsText(chars), Gap(r), t);
  }

  lemma KeyPieces(a: string, b: string, c: string, t: string)
    ensures a + ("\"" + (b + "\"" + (c + (":" + t)))) == a + ("\"" + b + "\"") + c + ":" + t
  {
  }

  /** ... and for members. */
  lemma {:induction false} MembersOfText(u: string) returns (keys: seq<Key>, values: seq<Tree>)
    requires ParseMembers(SkipWs(u)).Some?
    ensures values != [] && |keys| == |values| && ValidTrees(values)
    ensures forall i :: 0 <= i < |keys| ==> ValidKey(keys[i])
    ensures KeyValues(keys) == ParseMembers(SkipWs(u)).value.0
    ensures TreeValues(values) == ParseMembers(SkipWs(u)).value.1
    ensures u == MembersText(keys, values) + "}" + ParseMembers(SkipWs(u)).value.2
    decreases |u|, 3
  {
    hide ParseValue, ParseMembers, ParseKey, SkipWs, TreeText, ValidTree, TreeValue, KeyText, ValidKey, CharsValue;
    hide MembersText, TreeValues, ValidTrees, KeyValues;
    var r := ParseMembers(SkipWs(u)).value;
    var ks, vs, rest := r.0, r.1, r.2;
    var start, after := JsonScanner.ParseMembersStep(SkipWs(u), ks, vs, rest);
    var k, w := KeyOfText(u);
    var tree := TreeOfText(w);
    var t := SkipWs(after);
    FirstAndRest(t);
    FirstAndRest(vs);
    FirstAndRest(ks);
    if |vs| == 1 {
      keys, values := [k], [tree];
      OneTree(tree);
      OneMember(k, tree);
      MemberPieces(KeyText(k), TreeText(tree), "}", rest);
    } else {
      var moreKeys, more := MembersOfText(t[1..]);
      keys, values := [k] + moreKeys, [tree] + more;
      MoreTrees(tree, more);
      MoreMembers(k, moreKeys, tree, more);
      MemberPieces(KeyText(k), TreeText(tree), ",", MembersText(moreKeys, more) + "}" + rest);
      Regroup(KeyText(k) + ":" + TreeText(tree) + ",", MembersText(moreKeys, more), "}", rest);
    }
  }

  lemma {:induction false} OneMember(k: Key, tree: Tree)
    requires ValidKey(k) && ValidTree(tree) && ValidTrees([tree])
    ensures KeyValues([k]) == [CharsValue(k.chars)]
    ensures MembersText([k], [tree]) == KeyText(k) + ":" + TreeText(tree)
  {
  }

  lemma MemberPieces(key: string, value: string, mark: string, t: string)
    ensures key + ":" + (value + (mark + t)) == key + ":" + value + mark + t
  {
  }

  lemma {:induction false} MoreMembers(k: Key, moreKeys: seq<Key>, tree: Tree, more: seq<Tree>)
    requires ValidTree(tree) && ValidTrees(more) && more != [] && ValidKey(k) && |moreKeys| == |more|
    requires forall i :: 0 <= i < |moreKeys| ==> ValidKey(moreKeys[i])
    requires ValidTrees([tree] + more)
    ensures MembersText([k] + moreKeys, [tree] + more) ==
      KeyText(k) + ":" + TreeText(tree) + "," + MembersText(moreKeys, more)
    ensures KeyValues([k] + moreKeys) == [CharsValue(k.chars)] + KeyValues(moreKeys)
  {
    hide ValidTree, TreeText, KeyText, ValidKey, CharsValue;
    assert ([tree] + more)[1..] == more && ([k] + moreKeys)[1..] == moreKeys;
  }

  /** The text is JSON with this value: it is the text of a syntax tree with the value. */
  ghost predicate SpellsJson(s: string, v: JsValue) {
    exists tree :: ValidTree(tree) && TreeText(tree) == s && TreeValue(tree) == v
  }

  /** The language of the parser: it gives `v` for a text exactly when the text is that of a syntax
      tree with the value `v`. */
  lemma AcceptsExactlyJson(s: string, v: JsValue)
    ensures ParseDocument(s) == Some(v) <==> SpellsJson(s, v)
  {
    hide ParseValue, SkipWs, ValidTree, TreeText, TreeValue;
    if ParseDocument(s) == Some(v) {
      var tree := TreeOfText(s);
      assert TreeText(tree) + "" == TreeText(tree);
    }
    forall tree | ValidTree(tree) && TreeText(tree) == s && TreeValue(tree) == v ensures ParseDocument(s) == Some(v) {
      DocumentParses(tree);
    }
  }

  // ----- The printed text -----

  /** The printer's spelling of a character. */
  function PrintedChar(c: char): Spelled {
    if EscapeLetter(c).Some? && c != '/' then Short(c)
    else if c < ' ' then Coded(c, [false, false, false, false])
    else Raw(c)
  }

  lemma PrintedCharText(c: char)
    ensures ValidChar(PrintedChar(c)) && CharText(PrintedChar(c)) == Escape(c) && PrintedChar(c).c == c
  {
    if PrintedChar(c).Coded? {
      var n := c as int;
      assert n / 4096 == 0 && n / 256 % 16 == 0 && n / 16 % 16 == n / 16;
      assert Hex4(n, [false, false, false, false]) == ['0', '0', HexChar(n / 16), HexChar(n % 16)];
      assert "\\u" + ['0', '0', HexChar(n / 16), HexChar(n % 16)] == "\\u00" + [HexChar(n / 16), HexChar(n % 16)];
    }
  }

  lemma {:induction false} PrintedChars(text: string) returns (chars: seq<Spelled>)
    ensures ValidChars(chars) && CharsText(chars) == EscapeAll(text) && CharsValue(chars) == text
  {
    hide CharText, ValidChar, Escape;
    if text == "" {
      chars := [];
    } else {
      PrintedCharText(text[0]);
      var more := PrintedChars(text[1..]);
      chars := [PrintedChar(text[0])] + more;
      assert chars[1..] == more && CharsValue(chars) == [text[0]] + CharsValue(more);
    }
  }

  /** The printed text of a value is the text of a tree without white space. */
  lemma {:induction false} PrintedTree(v: JsValue) returns (tree: Tree)
    requires IsJson(v)
    ensures ValidTree(tree) && TreeText(tree) == Print(v) && TreeValue(tree) == v
    decreases v, 1
  {
    var b: Body;
    match v {
      case Null => b := NullWord;
      case Bool(x) => b := BoolWord(x);
      case Num(token) =>
        var n := NumeralOfToken(token);
        b := Number(n);
      case Str(text) =>
        var chars := PrintedChars(text);
        b := Text(chars);
      case Arr(items) =>
        var trees := PrintedTrees(items);
        b := List("", trees);
      case Obj(keys, values) =>
        var ks, trees := PrintedMembers(keys, values);
        b := Record("", ks, trees);
    }
    hide Print, BodyText, BodyValue, ValidBody;
    tree := Tree("", b, "");
    assert "" + BodyText(b) + "" == BodyText(b);
  }

  lemma {:induction false} PrintedTrees(items: seq<JsValue>) returns (trees: seq<Tree>)
    requires AllJson(items)
    ensures ValidTrees(trees) && TreeValues(trees) == items
    ensures items != [] ==> ItemsText(trees) == PrintItems(items)
    decreases items, 0
  {
    hide IsJson, Print, ValidTree, TreeText, TreeValue;
    if items == [] {
      trees := [];
    } else {
      var tree := PrintedTree(items[0]);
      var more := PrintedTrees(items[1..]);
      trees := [tree] + more;
      FirstAndRest(items);
      if more == [] {
        OneTree(tree);
        assert [tree] + [] == [tree];
      } else {
        MoreTrees(tree, more);
      }
    }
  }

  lemma {:induction false} PrintedMembers(keys: seq<string>, values: seq<JsValue>)
    returns (ks: seq<Key>, trees: seq<Tree>)
    requires AllJson(values) && |keys| == |values|
    ensures |ks| == |trees| && ValidTrees(trees) && TreeValues(trees) == values && KeyValues(ks) == keys
    ensures forall i :: 0 <= i < |ks| ==> ValidKey(ks[i])
    ensures values != [] ==> MembersText(ks, trees) == PrintMembers(keys, values)
    decreases values, 0
  {
    hide IsJson, Print, ValidTree, TreeText, TreeValue, CharsValue, Quote, KeyText, ValidKey;
    if values == [] {
      ks, trees := [], [];
    } else {
      var k := PrintedKey(keys[0]);
      var tree := PrintedTree(values[0]);
      var moreKeys, more := PrintedMembers(keys[1..], values[1..]);
      ks, trees := [k] + moreKeys, [tree] + more;
      FirstAndRest(values);
      FirstAndRest(keys);
      if more == [] {
        OneTree(tree);
        OneMember(k, tree);
        assert [tree] + [] == [tree] && [k] + [] == [k];
      } else {
        MoreTrees(tree, more);
        MoreMembers(k, moreKeys, tree, more);
      }
    }
  }

  lemma {:induction false} PrintedKey(key: string) returns (k: Key)
    ensures ValidKey(k) && KeyText(k) == Quote(key) && CharsValue(k.chars) == key
  {
    var chars := PrintedChars(key);
    hide CharsText, EscapeAll;
    k := Key("", chars, "");
    assert "" + ("\"" + CharsText(chars) + "\"") + "" == "\"" + CharsText(chars) + "\"";
  }

  /** Every JSON value is what its printed text parses to. */
  lemma DocumentRoundTrip(v: JsValue)
    requires IsJson(v)
    ensures ParseDocument(Print(v)) == Some(v)
  {
    hide ParseDocument, Print, TreeText, TreeValue, ValidTree;
    var tree := PrintedTree(v);
    DocumentParses(tree);
  }
}
