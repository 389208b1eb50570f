/** Every JSON text parses to the value it stands for, whatever its white space and spelling. */
module JsonRoundTrip {
  import opened Prelude
  import opened NumberText
  import opened JsValues
  import opened JsonText
  import opened JsonSyntax

  lemma Regroup(a: string, b: string, c: string, d: string)
    ensures a + b + c + d == a + (b + (c + d)) && a + b + c + d == a + (b + c + d)
  {
  }

  lemma Behind(a: string, b: string)
    ensures (a + b)[|a|..] == b
  {
  }

  // ----- White space -----

  lemma {:induction false} SkipGap(gap: string, s: string)
    requires IsGap(gap) && (s == "" || !IsWs(s[0]))
    ensures SkipWs(gap + s) == s
    decreases |gap|
  {
    if gap == "" {
      assert gap + s == s;
    } else {
      assert (gap + s)[1..] == gap[1..] + s;
      SkipGap(gap[1..], s);
    }
  }

  /** The text goes on with something that cannot belong to a number. */
  ghost predicate Ends(t: string) {
    t == "" || !IsNumberChar(t[0])
  }

  lemma GapEnds(gap: string, t: string)
    requires IsGap(gap) && Ends(t)
    ensures Ends(gap + t)
  {
    assert gap == "" ==> gap + t == t;
  }

  // ----- Characters -----

  lemma HexDigitValue(d: nat, upper: bool)
    requires d < 16
    ensures HexValue(HexDigit(d, upper)) == Some(d)
  {
  }

  lemma HexCodeReads(n: nat, upper: seq<bool>, t: string)
    requires n < 0x10000 && |upper| == 4
    ensures HexCode(Hex4(n, upper) + t) == Some(n) && |Hex4(n, upper)| == 4
  {
    HexDigitValue(n / 4096, upper[0]);
    HexDigitValue(n / 256 % 16, upper[1]);
    HexDigitValue(n / 16 % 16, upper[2]);
    HexDigitValue(n % 16, upper[3]);
    var s := Hex4(n, upper) + t;
    assert s[0] == HexDigit(n / 4096, upper[0]) && s[1] == HexDigit(n / 256 % 16, upper[1]);
    assert s[2] == HexDigit(n / 16 % 16, upper[2]) && s[3] == HexDigit(n % 16, upper[3]);
    HexSum(n);
  }

  lemma HexSum(n: nat)
    ensures ((n / 4096 * 16 + n / 256 % 16) * 16 + n / 16 % 16) * 16 + n % 16 == n
  {
    assert n / 16 / 16 == n / 256 && n / 256 / 16 == n / 4096;
  }

  lemma ShortParses(c: char, t: string)
    requires EscapeLetter(c).Some?
    ensures ParseEscape([EscapeLetter(c).value] + t) == Some((c, t))
  {
    assert ([EscapeLetter(c).value] + t)[1..] == t;
  }

  lemma CodeParses(c: char, upper: seq<bool>, t: string)
    requires c as int < 0x10000 && |upper| == 4
    ensures ParseEscape("u" + Hex4(c as int, upper) + t) == Some((c, t))
  {
    hide Hex4, HexCode;
    HexCodeReads(c as int, upper, t);
    var s := "u" + Hex4(c as int, upper) + t;
    assert s[1..] == Hex4(c as int, upper) + t && s[5..] == t;
  }

  lemma SurrogatesMeet(c: char)
    requires c as int >= 0x10000
    ensures 0x10000 + (HighSurrogate(c) - 0xD800) * 0x400 + LowSurrogate(c) - 0xDC00 == c as int
  {
  }

  lemma PairParses(c: char, upper: seq<bool>, t: string)
    requires c as int >= 0x10000 && |upper| == 8
    ensures ParseEscape("u" + Hex4(HighSurrogate(c), upper[..4]) + ("\\u" + Hex4(LowSurrogate(c), upper[4..])) + t)
         == Some((c, t))
  {
    var high, low := Hex4(HighSurrogate(c), upper[..4]), Hex4(LowSurrogate(c), upper[4..]);
    var rest := "\\u" + low + t;
    HexCodeReads(HighSurrogate(c), upper[..4], rest);
    HexCodeReads(LowSurrogate(c), upper[4..], t);
    SurrogatesMeet(c);
    hide Hex4, HexCode, HighSurrogate, LowSurrogate;
    assert "u" + high + ("\\u" + low) + t == "u" + high + rest;
    CodePairParses(HighSurrogate(c), LowSurrogate(c), high, low, t);
  }

  lemma CodePairParses(high: nat, low: nat, h: string, l: string, t: string)
    requires 0xD800 <= high < 0xDC00 <= low < 0xE000 && |h| == 4 && |l| == 4
    requires HexCode(h + ("\\u" + l + t)) == Some(high) && HexCode(l + t) == Some(low)
    ensures ParseEscape("u" + h + ("\\u" + l + t))
         == Some(((0x10000 + (high - 0xD800) * 0x400 + low - 0xDC00) as char, t))
  {
    hide HexCode;
    var rest := "\\u" + l + t;
    var s := "u" + h + rest;
    assert s[1..] == h + rest;
    assert s[5..] == rest by { Behind("u" + h, rest); }
    assert rest[2..] == l + t;
    assert rest[6..] == t by { Behind("\\u" + l, t); }
    assert rest[0] == '\\' && rest[1] == 'u';
  }

  /** A spelled character is read as that character. */
  lemma {:induction false} CharParses(x: Spelled, t: string)
    requires ValidChar(x)
    ensures var e := CharText(x) + t;
      && e != "" && e[0] >= ' ' && e[0] != '\"'
      && (if e[0] == '\\' then ParseEscape(e[1..]) == Some((x.c, t)) else e[0] == x.c && e[1..] == t)
  {
    hide ParseEscape, Hex4, EscapeLetter, HighSurrogate, LowSurrogate;
    match x
    case Raw(c) => Behind([c], t);
    case Short(c) =>
      ShortParses(c, t);
      BackslashFirst([EscapeLetter(c).value], t);
      assert CharText(x) == "\\" + [EscapeLetter(c).value];
    case Coded(c, upper) =>
      if c as int < 0x10000 {
        CodeParses(c, upper, t);
        BackslashFirst("u" + Hex4(c as int, upper), t);
        assert "\\u" + Hex4(c as int, upper) == "\\" + ("u" + Hex4(c as int, upper));
      } else {
        PairParses(c, upper, t);
        var high, low := Hex4(HighSurrogate(c), upper[..4]), "\\u" + Hex4(LowSurrogate(c), upper[4..]);
        BackslashFirst("u" + high + low, t);
        assert "\\u" + high + low == "\\" + ("u" + high + low);
      }
  }

  lemma BackslashFirst(s: string, t: string)
    ensures var e := "\\" + s + t; e[0] == '\\' && e[1..] == s + t
  {
  }

  lemma {:induction false} CharsParse(chars: seq<Spelled>, t: string)
    requires ValidChars(chars)
    ensures ParseChars(CharsText(chars) + "\"" + t) == Some((CharsValue(chars), t))
    decreases |chars|
  {
    hide CharText, ParseEscape, ValidChar;
    if chars == [] {
      assert (CharsText(chars) + "\"" + t)[1..] == t;
    } else {
      var rest := CharsText(chars[1..]) + "\"" + t;
      assert CharsText(chars) + "\"" + t == CharText(chars[0]) + rest;
      CharParses(chars[0], rest);
      CharsParse(chars[1..], t);
      assert CharsValue(chars) == [chars[0].c] + CharsValue(chars[1..]);
    }
  }

  // ----- Numbers -----

  lemma {:induction false} DigitRunExact(digits: string, t: string)
    requires (forall i :: 0 <= i < |digits| ==> IsDigit(digits[i])) && (t == "" || !IsDigit(t[0]))
    ensures DigitRun(digits + t) == |digits|
    decreases |digits|
  {
    if digits == "" {
      assert digits + t == t;
    } else {
      assert (digits + t)[1..] == digits[1..] + t;
      DigitRunExact(digits[1..], t);
    }
  }

  lemma ExponentIsExponent(e: Option<Exponent>)
    requires e.Some? ==> IsDigits(e.value.digits) && (e.value.letter == 'e' || e.value.letter == 'E')
    requires e.Some? ==> e.value.sign == "" || e.value.sign == "+" || e.value.sign == "-"
    ensures IsExponent(ExponentText(e))
  {
    if e.Some? {
      var x := e.value;
      var s := ExponentText(e);
      assert x.digits + "" == x.digits;
      DigitRunExact(x.digits, "");
      if x.sign == "" {
        assert s[1..] == x.digits;
      } else {
        assert s[2..] == x.digits && s[1] == x.sign[0];
      }
    }
  }

  lemma DigitsThenExponent(digits: string, x: string)
    requires IsDigits(digits) && IsExponent(x) && (x == "" || !IsDigit(x[0]))
    ensures IsFractionAndExponent("." + digits + x)
  {
    hide IsExponent, DigitRun;
    var s := "." + digits + x;
    var u := digits + x;
    assert s[0] == '.' && s[1..] == u;
    DigitRunExact(digits, x);
    assert u[|digits|..] == x;
  }

  lemma FractionIsFraction(f: Option<string>, e: Option<Exponent>)
    requires ValidNumeral(Numeral(false, "0", f, e))
    ensures IsFractionAndExponent(FractionText(f) + ExponentText(e))
  {
    ExponentIsExponent(e);
    ExponentStart(e);
    var x := ExponentText(e);
    hide ExponentText;
    if f.Some? {
      hide IsExponent, IsFractionAndExponent;
      DigitsThenExponent(f.value, x);
    } else {
      hide IsExponent, DigitRun;
      assert "" + x == x;
    }
  }

  lemma ExponentStart(e: Option<Exponent>)
    requires e.Some? ==> e.value.letter == 'e' || e.value.letter == 'E'
    ensures var x := ExponentText(e); x == "" || x[0] == 'e' || x[0] == 'E'
  {
  }

  lemma TailStart(f: Option<string>, e: Option<Exponent>)
    requires ValidNumeral(Numeral(false, "0", f, e))
    ensures var tail := FractionText(f) + ExponentText(e); tail == "" || !IsDigit(tail[0])
  {
    ExponentStart(e);
    hide ExponentText;
  }

  lemma {:induction false} UnsignedChars(n: Numeral)
    requires ValidNumeral(n)
    ensures var u := UnsignedText(n);
      u != "" && IsDigit(u[0]) && forall i :: 0 <= i < |u| ==> IsNumberChar(u[i])
  {
  }

  lemma {:induction false} NumeralStart(n: Numeral)
    requires ValidNumeral(n)
    ensures NumeralText(n) != "" && (NumeralText(n)[0] == '-' || IsDigit(NumeralText(n)[0]))
  {
    UnsignedChars(n);
    hide UnsignedText;
  }

  /** A whole part and a tail make a number without a sign, ... */
  lemma UnsignedParts(whole: string, tail: string)
    requires IsDigits(whole) && (whole[0] == '0' ==> |whole| == 1)
    requires IsFractionAndExponent(tail) && (tail == "" || !IsDigit(tail[0]))
    ensures IsUnsigned(whole + tail)
  {
    hide IsFractionAndExponent;
    DigitRunExact(whole, tail);
    Behind(whole, tail);
    hide DigitRun;
  }

  ghost predicate IsUnsigned(u: string) {
    var n := DigitRun(u);
    n > 0 && (u[0] == '0' ==> n == 1) && IsFractionAndExponent(u[n..])
  }

  lemma SignedToken(minus: bool, u: string)
    requires IsUnsigned(u) && u != "" && IsDigit(u[0]) && forall i :: 0 <= i < |u| ==> IsNumberChar(u[i])
    ensures IsNumberToken((if minus then "-" else "") + u)
  {
    hide IsFractionAndExponent, DigitRun;
    Behind("-", u);
    assert "" + u == u;
  }

  /** ... and with the sign a token. */
  lemma {:induction false} NumeralIsToken(n: Numeral)
    requires ValidNumeral(n)
    ensures IsNumberToken(NumeralText(n))
  {
    UnsignedChars(n);
    FractionIsFraction(n.fraction, n.exponent);
    TailStart(n.fraction, n.exponent);
    hide IsFractionAndExponent, FractionText, ExponentText, IsUnsigned, IsNumberToken, IsNumberChar;
    UnsignedParts(n.whole, FractionText(n.fraction) + ExponentText(n.exponent));
    SignedToken(n.minus, UnsignedText(n));
  }

  lemma {:induction false} NumberRunExact(token: string, t: string)
    requires forall i :: 0 <= i < |token| ==> IsNumberChar(token[i])
    requires Ends(t)
    ensures NumberRun(token + t) == |token|
    decreases |token|
  {
    if token != "" {
      assert (token + t)[1..] == token[1..] + t;
      NumberRunExact(token[1..], t);
    } else {
      assert token + t == t;
    }
  }

  lemma TokenParses(token: string, t: string)
    requires IsNumberToken(token) && Ends(t)
    ensures ParseNumber(token + t) == Some((Num(token), t))
  {
    TokenChars(token);
    NumberRunExact(token, t);
    hide IsNumberToken;
    assert (token + t)[..|token|] == token && (token + t)[|token|..] == t;
  }

  lemma NumberParses(token: string, t: string)
    requires IsNumberToken(token) && Ends(t)
    ensures ParseValue(token + t) == Some((Num(token), t))
  {
    TokenChars(token);
    TokenParses(token, t);
    hide IsNumberToken, ParseChars, ParseItems, ParseMembers, ParseNumber, SkipWs;
    assert (token + t)[0] == token[0] && IsNumberChar(token[0]);
  }

  lemma TokenChars(token: string)
    requires IsNumberToken(token)
    ensures token != "" && (token[0] == '-' || '0' <= token[0] <= '9')
    ensures forall i :: 0 <= i < |token| ==> IsNumberChar(token[i])
  {
  }

  // ----- Values -----

  lemma NullParses(t: string)
    ensures ParseValue("null" + t) == Some((Null, t))
  {
    hide ParseChars, ParseItems, ParseMembers, ParseNumber, SkipWs;
    assert ("null" + t)[4..] == t;
  }

  lemma BoolParses(b: bool, t: string)
    ensures ParseValue((if b then "true" else "false") + t) == Some((Bool(b), t))
  {
    hide ParseChars, ParseItems, ParseMembers, ParseNumber, SkipWs;
    var s := (if b then "true" else "false") + t;
    assert s[(if b then 4 else 5)..] == t;
    assert s[0] == if b then 't' else 'f';
  }

  lemma {:induction false} StringParses(chars: seq<Spelled>, t: string)
    requires ValidChars(chars)
    ensures ParseValue("\"" + CharsText(chars) + "\"" + t) == Some((Str(CharsValue(chars)), t))
  {
    hide ParseChars, ParseItems, ParseMembers, ParseNumber, SkipWs, CharsText;
    CharsParse(chars, t);
    assert ("\"" + CharsText(chars) + "\"" + t)[1..] == CharsText(chars) + "\"" + t;
  }

  /** No value starts with white space or with a closing bracket or brace. */
  lemma {:induction false} BodyStart(b: Body)
    requires ValidBody(b)
    ensures var s := BodyText(b); s != "" && !IsWs(s[0]) && s[0] != ']' && s[0] != '}'
  {
    hide CharsText, ItemsText, MembersText;
    if b.Number? {
      NumeralStart(b.numeral);
    }
  }

  /** What a list of items or members starts with once its first gap is skipped. */
  lemma ArrayTextParses(u: string, t: string)
    requires SkipWs(u) == t && t != ""
    ensures t[0] == ']' ==> ParseValue("[" + u) == Some((Arr([]), t[1..]))
    ensures t[0] != ']' && ParseItems(t).Some? ==>
      ParseValue("[" + u) == Some((Arr(ParseItems(t).value.0), ParseItems(t).value.1))
  {
    hide ParseItems, ParseMembers, ParseChars, ParseNumber, SkipWs;
    assert ("[" + u)[1..] == u;
  }

  lemma ObjectTextParses(u: string, t: string)
    requires SkipWs(u) == t && t != ""
    ensures t[0] == '}' ==> ParseValue("{" + u) == Some((Obj([], []), t[1..]))
    ensures t[0] != '}' && ParseMembers(t).Some? ==>
      ParseValue("{" + u) == Some((Obj(ParseMembers(t).value.0, ParseMembers(t).value.1), ParseMembers(t).value.2))
  {
    hide ParseItems, ParseMembers, ParseChars, ParseNumber, SkipWs;
    assert ("{" + u)[1..] == u;
  }

  lemma {:induction false} ScalarParses(b: Body, t: string)
    requires ValidBody(b) && Ends(t) && !b.List? && !b.Record?
    ensures ParseValue(BodyText(b) + t) == Some((BodyValue(b), t))
  {
    hide ParseValue, CharsText, NumeralText, ValidNumeral, ValidChars;
    match b
    case NullWord => NullParses(t);
    case BoolWord(v) => BoolParses(v, t);
    case Number(numeral) =>
      NumeralIsToken(numeral);
      NumberParses(NumeralText(numeral), t);
    case Text(chars) => StringParses(chars, t);
  }

  /** The body of a value is read as its value, and the reader stops behind it. */
  lemma {:induction false} BodyParses(b: Body, t: string)
    requires ValidBody(b) && Ends(t)
    ensures ParseValue(BodyText(b) + t) == Some((BodyValue(b), t))
    decreases b, 3
  {
    hide ParseValue, BodyText, BodyValue, ValidBody;
    match b
    case List(_, _) => ListParses(b, t);
    case Record(_, _, _) => RecordParses(b, t);
    case _ => ScalarParses(b, t);
  }

  lemma {:induction false} ListParses(b: Body, t: string)
    requires ValidBody(b) && b.List?
    ensures ParseValue(BodyText(b) + t) == Some((BodyValue(b), t))
    decreases b, 2
  {
    hide ParseValue, ParseItems, SkipWs, IsGap, ItemsText, TreeValues, ValidTrees;
    var inner := if b.items == [] then b.gap else ItemsText(b.items);
    Regroup("[", inner, "]", t);
    assert BodyText(b) == "[" + inner + "]";
    if b.items == [] {
      SkipGap(b.gap, "]" + t);
      ArrayTextParses(b.gap + ("]" + t), "]" + t);
      Behind("]", t);
      NoValues(b.items);
    } else {
      ItemsParse(b.items, t);
      ArrayTextParses(inner + "]" + t, SkipWs(inner + "]" + t));
    }
  }

  lemma {:induction false} RecordParses(b: Body, t: string)
    requires ValidBody(b) && b.Record?
    ensures ParseValue(BodyText(b) + t) == Some((BodyValue(b), t))
    decreases b, 2
  {
    hide ParseValue, ParseMembers, SkipWs, IsGap, MembersText, TreeValues, ValidTrees, ValidKey, CharsValue;
    assert BodyValue(b) == Obj(KeyValues(b.keys), TreeValues(b.values));
    var inner := if b.values == [] then b.gap else MembersText(b.keys, b.values);
    Regroup("{", inner, "}", t);
    assert BodyText(b) == "{" + inner + "}";
    if b.values == [] {
      SkipGap(b.gap, "}" + t);
      ObjectTextParses(b.gap + ("}" + t), "}" + t);
      Behind("}", t);
      NoValues(b.values);
      assert KeyValues(b.keys) == [];
    } else {
      MembersParse(b.keys, b.values, t);
      ObjectTextParses(inner + "}" + t, SkipWs(inner + "}" + t));
    }
  }

  lemma {:induction false} NoValues(ts: seq<Tree>)
    ensures ts == [] ==> TreeValues(ts) == []
  {
  }

  /** A value with white space around it, and then text that starts with a comma or a bracket. */
  lemma {:induction false} TreeParses(tree: Tree, t: string)
    requires ValidTree(tree) && Ends(t) && (t == "" || !IsWs(t[0]))
    ensures var u := TreeText(tree) + t; var s := SkipWs(u);
      && s != "" && s[0] != ']' && s[0] != '}'
      && ParseValue(s).Some? && ParseValue(s).value.0 == TreeValue(tree) && SkipWs(ParseValue(s).value.1) == t
    decreases tree, 2
  {
    hide ParseValue, BodyText, SkipWs, IsGap;
    var body, rest := BodyText(tree.body), tree.after + t;
    GapEnds(tree.after, t);
    BodyParses(tree.body, rest);
    BodyStart(tree.body);
    assert TreeText(tree) + t == tree.before + (body + rest);
    SkipGap(tree.before, body + rest);
    SkipGap(tree.after, t);
  }

  lemma ItemsStep(s: string, v: JsValue, u: string, t: string)
    requires ParseValue(s) == Some((v, u)) && SkipWs(u) == t && t != ""
    ensures t[0] == ']' ==> ParseItems(s) == Some(([v], t[1..]))
    ensures t[0] == ',' && ParseItems(SkipWs(t[1..])).Some? ==>
      var more := ParseItems(SkipWs(t[1..])).value; ParseItems(s) == Some(([v] + more.0, more.1))
  {
    hide SkipWs, ParseValue;
  }

  lemma {:induction false} ItemsParse(items: seq<Tree>, t: string)
    requires items != [] && ValidTrees(items)
    ensures var s := SkipWs(ItemsText(items) + "]" + t);
      s != "" && s[0] != ']' && ParseItems(s) == Some((TreeValues(items), t))
    decreases items, 1
  {
    hide ParseValue, ParseItems, TreeText, SkipWs, TreeValue, ValidTree;
    var tail := if |items| == 1 then "]" + t else "," + (ItemsText(items[1..]) + "]" + t);
    var s := SkipWs(ItemsText(items) + "]" + t);
    assert ItemsText(items) + "]" + t == TreeText(items[0]) + tail;
    TreeParses(items[0], tail);
    ItemsStep(s, TreeValue(items[0]), ParseValue(s).value.1, tail);
    if |items| == 1 {
      assert tail[1..] == t && TreeValues(items) == [TreeValue(items[0])];
    } else {
      assert tail[1..] == ItemsText(items[1..]) + "]" + t;
      ItemsParse(items[1..], t);
    }
  }

  lemma {:induction false} KeyParses(k: Key, t: string)
    requires ValidKey(k)
    ensures var s := SkipWs(KeyText(k) + ":" + t);
      s != "" && s[0] == '\"' && ParseKey(s) == Some((CharsValue(k.chars), SkipWs(t)))
  {
    hide ParseChars, SkipWs, IsGap, CharsText, ValidChars;
    var rest := k.after + (":" + t);
    var s := "\"" + (CharsText(k.chars) + "\"" + rest);
    assert KeyText(k) + ":" + t == k.before + s;
    SkipGap(k.before, s);
    assert s[1..] == CharsText(k.chars) + "\"" + rest;
    CharsParse(k.chars, rest);
    SkipGap(k.after, ":" + t);
    assert (":" + t)[1..] == t;
  }

  lemma MembersStep(s: string, key: string, u: string, v: JsValue, w: string, t: string)
    requires ParseKey(s) == Some((key, u)) && ParseValue(u) == Some((v, w)) && SkipWs(w) == t && t != ""
    ensures t[0] == '}' ==> ParseMembers(s) == Some(([key], [v], t[1..]))
    ensures t[0] == ',' && ParseMembers(SkipWs(t[1..])).Some? ==>
      var more := ParseMembers(SkipWs(t[1..])).value;
      ParseMembers(s) == Some(([key] + more.0, [v] + more.1, more.2))
  {
    hide SkipWs, ParseValue, ParseKey;
  }

  lemma {:induction false} MembersParse(keys: seq<Key>, values: seq<Tree>, t: string)
    requires |keys| == |values| && values != [] && ValidTrees(values)
    requires forall i :: 0 <= i < |keys| ==> ValidKey(keys[i])
    ensures var s := SkipWs(MembersText(keys, values) + "}" + t);
      s != "" && s[0] == '\"' && ParseMembers(s) == Some((KeyValues(keys), TreeValues(values), t))
    decreases values, 1
  {
    hide ParseKey, ParseValue, ParseMembers, TreeText, KeyText, SkipWs, TreeValue, ValidTree, ValidKey, CharsValue;
    var tail := if |values| == 1 then "}" + t else "," + (MembersText(keys[1..], values[1..]) + "}" + t);
    var s := SkipWs(MembersText(keys, values) + "}" + t);
    var u := TreeText(values[0]) + tail;
    assert MembersText(keys, values) + "}" + t == KeyText(keys[0]) + ":" + u;
    KeyParses(keys[0], u);
    TreeParses(values[0], tail);
    MembersStep(s, CharsValue(keys[0].chars), SkipWs(u), TreeValue(values[0]), ParseValue(SkipWs(u)).value.1, tail);
    if |values| == 1 {
      assert tail[1..] == t && TreeValues(values) == [TreeValue(values[0])];
      assert KeyValues(keys) == [CharsValue(keys[0].chars)];
    } else {
      assert tail[1..] == MembersText(keys[1..], values[1..]) + "}" + t;
      MembersParse(keys[1..], values[1..], t);
      assert KeyValues(keys) == [CharsValue(keys[0].chars)] + KeyValues(keys[1..]);
    }
  }

  /** Every JSON text, with any white space around its tokens and any spelling of its characters,
      parses to the value it stands for. */
  lemma {:induction false} DocumentParses(tree: Tree)
    requires ValidTree(tree)
    ensures ParseDocument(TreeText(tree)) == Some(TreeValue(tree))
  {
    hide ParseValue, TreeText, TreeValue, SkipWs;
    TreeParses(tree, "");
    assert TreeText(tree) + "" == TreeText(tree);
  }
}
