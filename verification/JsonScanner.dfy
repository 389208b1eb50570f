/** The character scanner that checks the nesting of a raw JSON text before it is parsed. */
module JsonScanner {
  import opened Prelude
  import opened JsValues
  import opened JsonText

  /** The scanner's variables, and the greatest depth it has reached. */
  datatype ScanState = ScanState(depth: nat, inString: bool, escaping: bool, peak: nat)

  const START := ScanState(0, false, false, 0)

  function Step(st: ScanState, c: char): ScanState {
    if st.inString then
      if st.escaping then st.(escaping := false)
      else if c == '\\' then st.(escaping := true)
      else if c == '\"' then st.(inString := false)
      else st
    else if c == '\"' then st.(inString := true)
    else if c == '{' || c == '[' then st.(depth := st.depth + 1, peak := Max(st.peak, st.depth + 1))
    else if c == '}' || c == ']' then st.(depth := Max(0, st.depth - 1))
    else st
  }

  function Scan(st: ScanState, s: string): ScanState
    decreases |s|
  {
    if s == [] then st else Scan(Step(st, s[0]), s[1..])
  }

  /** `assertRawJsonNestingWithinBounds`: it throws exactly when the peak depth is over the limit. */
  method AssertRawJsonNestingWithinBounds(rawText: string, maxDepth: nat) returns (ok: bool)
    ensures ok <==> Scan(START, rawText).peak <= maxDepth
    ensures ok <==> !OpensBeyond(rawText, maxDepth)
  {
    ScannerRejectsExactly(rawText, maxDepth);
    hide OpensBeyond;
    var st := START;
    for index := 0 to |rawText|
      invariant st.peak <= maxDepth
      invariant Scan(START, rawText) == Scan(st, rawText[index..])
    {
      var c := rawText[index];
      assert rawText[index..][1..] == rawText[index + 1..];
      st := Step(st, c);
      if st.peak > maxDepth {
        PeakGrows(st, rawText[index + 1..]);
        return false;
      }
    }
    return true;
  }

  lemma {:induction false} PeakGrows(st: ScanState, s: string)
    ensures Scan(st, s).peak >= st.peak
    decreases |s|
  {
    if s != [] {
      PeakGrows(Step(st, s[0]), s[1..]);
    }
  }

  // ----- The scanner on any text -----

  /** What follows the string whose opening quote has just been read. */
  function AfterString(s: string): (rest: string)
    ensures |rest| <= |s|
    decreases |s|
  {
    if s == [] then []
    else if s[0] == '\\' then if |s| == 1 then [] else AfterString(s[2..])
    else if s[0] == '\"' then s[1..]
    else AfterString(s[1..])
  }

  /** The text without its strings. */
  function Bare(s: string): string
    decreases |s|
  {
    if s == [] then []
    else if s[0] == '\"' then Bare(AfterString(s[1..]))
    else [s[0]] + Bare(s[1..])
  }

  function Delta(c: char): int {
    if c == '{' || c == '[' then 1 else if c == '}' || c == ']' then -1 else 0
  }

  /** How many more brackets are opened than closed. */
  function Balance(s: string): int {
    if s == [] then 0 else Delta(s[0]) + Balance(s[1..])
  }

  /** Some stretch of the text opens more than `limit` brackets beyond those it closes, strings apart. */
  ghost predicate OpensBeyond(s: string, limit: nat) {
    exists i, j :: 0 <= i <= j <= |Bare(s)| && Balance(Bare(s)[i..j]) > limit
  }

  /** The greatest balance of a beginning of `s`, ... */
  function BestStart(s: string): nat {
    if s == [] then 0 else Max(0, Delta(s[0]) + BestStart(s[1..]))
  }

  /** ... and of any stretch of it. */
  function BestStretch(s: string): nat {
    if s == [] then 0 else Max(BestStart(s), BestStretch(s[1..]))
  }

  lemma {:induction false} BestStartReached(s: string) returns (j: nat)
    ensures j <= |s| && Balance(s[..j]) == BestStart(s)
    decreases |s|
  {
    if s == [] || BestStart(s) == 0 {
      j := 0;
    } else {
      j := BestStartReached(s[1..]);
      assert s[..j + 1][1..] == s[1..][..j];
      j := j + 1;
    }
  }

  lemma {:induction false} BestStartIsBest(s: string, j: nat)
    requires j <= |s|
    ensures Balance(s[..j]) <= BestStart(s)
    decreases j
  {
    if j > 0 {
      BestStartIsBest(s[1..], j - 1);
      assert s[..j][1..] == s[1..][..j - 1];
    }
  }

  lemma {:induction false} BestStretchReached(s: string) returns (i: nat, j: nat)
    ensures i <= j <= |s| && Balance(s[i..j]) == BestStretch(s)
    decreases |s|
  {
    if s == [] || BestStart(s) == BestStretch(s) {
      i := 0;
      j := BestStartReached(s);
    } else {
      i, j := BestStretchReached(s[1..]);
      assert s[1..][i..j] == s[i + 1..j + 1];
      i, j := i + 1, j + 1;
    }
  }

  lemma {:induction false} BestStretchIsBest(s: string, i: nat, j: nat)
    requires i <= j <= |s|
    ensures Balance(s[i..j]) <= BestStretch(s)
    decreases |s|
  {
    if i == 0 {
      BestStartIsBest(s, j);
      assert s[0..j] == s[..j];
    } else {
      BestStretchIsBest(s[1..], i - 1, j - 1);
      assert s[1..][i - 1..j - 1] == s[i..j];
    }
  }

  /** Inside a string only its end matters. */
  lemma {:induction false} ScanString(depth: nat, peak: nat, s: string)
    ensures Scan(Within(depth, peak), s).peak == Scan(Outside(depth, peak), AfterString(s)).peak
    decreases |s|
  {
    if s == [] {
    } else if s[0] == '\\' {
      if |s| > 1 {
        assert s[1..][1..] == s[2..];
        ScanString(depth, peak, s[2..]);
      }
    } else if s[0] != '\"' {
      ScanString(depth, peak, s[1..]);
    }
  }

  lemma {:induction false} ScanBest(depth: nat, peak: nat, s: string)
    requires depth <= peak
    ensures Scan(Outside(depth, peak), s).peak == Max(peak, Max(depth + BestStart(Bare(s)), BestStretch(Bare(s))))
    decreases |s|
  {
    if s == [] {
    } else if s[0] == '\"' {
      ScanString(depth, peak, s[1..]);
      ScanBest(depth, peak, AfterString(s[1..]));
    } else {
      var st := Step(Outside(depth, peak), s[0]);
      ScanBest(st.depth, st.peak, s[1..]);
      assert Bare(s)[1..] == Bare(s[1..]);
      StretchAtLeastStart(Bare(s[1..]));
    }
  }

  lemma StretchAtLeastStart(s: string)
    ensures BestStretch(s) >= BestStart(s)
  {
  }

  /** On any text, JSON or not: the peak is over the limit exactly when some stretch opens more than
      that many brackets beyond those it closes. Stray closing brackets make no room for others. */
  lemma ScannerRejectsExactly(rawText: string, limit: nat)
    ensures Scan(START, rawText).peak > limit <==> OpensBeyond(rawText, limit)
  {
    hide Scan, Bare, Balance, BestStart, BestStretch;
    var bare := Bare(rawText);
    ScanBest(0, 0, rawText);
    StretchAtLeastStart(bare);
    var best, end := BestStretchReached(bare);
    if i, j :| 0 <= i <= j <= |bare| && Balance(bare[i..j]) > limit {
      BestStretchIsBest(bare, i, j);
    }
  }

  // ----- The scanner and the grammar -----

  /** The scanner outside strings at the given depth. */
  function Outside(depth: nat, peak: nat): ScanState {
    ScanState(depth, false, false, peak)
  }

  function Within(depth: nat, peak: nat): ScanState {
    ScanState(depth, true, false, peak)
  }

  /** A character that does not concern the scanner outside strings. */
  ghost predicate Neutral(c: char) {
    c != '\"' && c != '{' && c != '[' && c != '}' && c != ']'
  }

  lemma {:induction false} ScanNeutral(st: ScanState, s: string, n: nat)
    requires !st.inString && n <= |s| && forall i :: 0 <= i < n ==> Neutral(s[i])
    ensures Scan(st, s) == Scan(st, s[n..])
    decreases n
  {
    if n > 0 {
      ScanNeutral(st, s[1..], n - 1);
      assert s[1..][n - 1..] == s[n..];
    } else {
      assert s[0..] == s;
    }
  }

  lemma {:induction false} ScanWs(st: ScanState, s: string)
    requires !st.inString
    ensures Scan(st, s) == Scan(st, SkipWs(s))
    decreases |s|
  {
    if s != [] && IsWs(s[0]) {
      ScanWs(st, s[1..]);
    }
  }

  /** Inside a string, characters that are no quote and no backslash are passed over. */
  lemma {:induction false} ScanPlain(depth: nat, peak: nat, s: string, n: nat)
    requires n <= |s| && forall i :: 0 <= i < n ==> s[i] != '\"' && s[i] != '\\'
    ensures Scan(Within(depth, peak), s) == Scan(Within(depth, peak), s[n..])
    decreases n
  {
    if n > 0 {
      ScanPlain(depth, peak, s[1..], n - 1);
      assert s[1..][n - 1..] == s[n..];
    } else {
      assert s[0..] == s;
    }
  }

  lemma ScanEscape(depth: nat, peak: nat, s: string)
    requires ParseEscape(s).Some?
    ensures Scan(ScanState(depth, true, true, peak), s) == Scan(Within(depth, peak), ParseEscape(s).value.1)
  {
    if ShortEscape(s[0]).None? {
      var rest := s[5..];
      assert forall i :: 0 <= i < 4 ==> s[1..][i] != '\"' && s[1..][i] != '\\';
      ScanPlain(depth, peak, s[1..], 4);
      assert s[1..][4..] == rest;
      if 0xD800 <= HexCode(s[1..]).value < 0xE000 {
        assert rest[0] == '\\' && rest[1] == 'u' && rest[1..][1..] == rest[2..];
        assert forall i :: 0 <= i < 4 ==> rest[2..][i] != '\"' && rest[2..][i] != '\\';
        ScanPlain(depth, peak, rest[2..], 4);
        assert rest[2..][4..] == rest[6..];
      }
    }
  }

  lemma {:induction false} ScanChars(depth: nat, peak: nat, s: string)
    requires ParseChars(s).Some?
    ensures Scan(Within(depth, peak), s) == Scan(Outside(depth, peak), ParseChars(s).value.1)
    decreases |s|
  {
    if s[0] != '\"' {
      if s[0] == '\\' {
        ScanEscape(depth, peak, s[1..]);
        ScanChars(depth, peak, ParseEscape(s[1..]).value.1);
      } else {
        ScanChars(depth, peak, s[1..]);
      }
    }
  }

  lemma {:induction false} NumberRunIsNeutral(s: string)
    ensures forall i :: 0 <= i < NumberRun(s) ==> IsNumberChar(s[i])
    decreases |s|
  {
    if s != [] && IsNumberChar(s[0]) {
      NumberRunIsNeutral(s[1..]);
      assert forall i :: 0 < i < NumberRun(s) ==> s[i] == s[1..][i - 1];
    }
  }

  /** Entering an array or object. */
  lemma ScanOpen(depth: nat, peak: nat, s: string)
    requires s != [] && (s[0] == '[' || s[0] == '{')
    ensures Scan(Outside(depth, peak), s) == Scan(Outside(depth + 1, Max(peak, depth + 1)), SkipWs(s[1..]))
  {
    ScanWs(Outside(depth + 1, Max(peak, depth + 1)), s[1..]);
  }

  /** Leaving it. */
  lemma ScanClose(depth: nat, peak: nat, s: string)
    requires s != [] && (s[0] == ']' || s[0] == '}')
    ensures Scan(Outside(depth + 1, peak), s) == Scan(Outside(depth, peak), s[1..])
  {
  }

  lemma ScanComma(depth: nat, peak: nat, s: string)
    requires s != [] && s[0] == ','
    ensures Scan(Outside(depth, peak), s) == Scan(Outside(depth, peak), SkipWs(s[1..]))
  {
    ScanWs(Outside(depth, peak), s[1..]);
  }

  lemma ScanQuote(depth: nat, peak: nat, s: string)
    requires s != [] && s[0] == '\"'
    ensures Scan(Outside(depth, peak), s) == Scan(Within(depth, peak), s[1..])
  {
  }

  lemma WordIsNeutral(s: string)
    ensures "null" <= s || "true" <= s ==> forall i :: 0 <= i < 4 ==> Neutral(s[i])
    ensures "false" <= s ==> forall i :: 0 <= i < 5 ==> Neutral(s[i])
  {
  }

  lemma ScanNumber(depth: nat, peak: nat, s: string)
    requires ParseNumber(s).Some?
    ensures Scan(Outside(depth, peak), s) == Scan(Outside(depth, peak), ParseNumber(s).value.1)
    ensures Nesting(ParseNumber(s).value.0) == 0
  {
    hide Scan, IsNumberToken;
    NumberRunIsNeutral(s);
    ScanNeutral(Outside(depth, peak), s, NumberRun(s));
  }

  /** Values that are no containers. */
  lemma ScanScalar(depth: nat, peak: nat, s: string)
    requires ParseValue(s).Some? && s[0] != '[' && s[0] != '{'
    ensures Scan(Outside(depth, peak), s) == Scan(Outside(depth, peak), ParseValue(s).value.1)
    ensures Nesting(ParseValue(s).value.0) == 0
  {
    hide Scan, ParseChars, IsNumberToken, ParseItems, ParseMembers, SkipWs, ParseNumber, Neutral;
    if s[0] == '\"' {
      ScanQuote(depth, peak, s);
      ScanChars(depth, peak, s[1..]);
    } else if "null" <= s || "true" <= s {
      WordIsNeutral(s);
      ScanNeutral(Outside(depth, peak), s, 4);
    } else if "false" <= s {
      WordIsNeutral(s);
      ScanNeutral(Outside(depth, peak), s, 5);
    } else {
      ScanNumber(depth, peak, s);
    }
  }

  /** How the text of an array or object comes apart. */
  lemma ParseContainer(s: string)
    requires ParseValue(s).Some? && (s[0] == '[' || s[0] == '{')
    ensures var t := SkipWs(s[1..]);
      && t != []
      && (s[0] == '[' && t[0] == ']' ==> ParseValue(s).value == (Arr([]), t[1..]))
      && (s[0] == '[' && t[0] != ']' ==>
            ParseItems(t).Some? && ParseValue(s).value == (Arr(ParseItems(t).value.0), ParseItems(t).value.1))
      && (s[0] == '{' && t[0] == '}' ==> ParseValue(s).value == (Obj([], []), t[1..]))
      && (s[0] == '{' && t[0] != '}' ==>
            && ParseMembers(t).Some?
            && ParseValue(s).value == (Obj(ParseMembers(t).value.0, ParseMembers(t).value.1), ParseMembers(t).value.2))
  {
  }

  /** How a list of items comes apart: the first item, and the rest of the text after it. */
  lemma ParseItemsStep(s: string, items: seq<JsValue>, rest: string) returns (after: string)
    requires ParseItems(s) == Some((items, rest))
    ensures ParseValue(s) == Some((items[0], after)) && |after| < |s|
    ensures var t := SkipWs(after);
      && t != [] && |t| <= |after|
      && (|items| == 1 ==> t[0] == ']' && rest == t[1..])
      && (|items| > 1 ==> t[0] == ',' && ParseItems(SkipWs(t[1..])) == Some((items[1..], rest)))
  {
    after := ParseValue(s).value.1;
    var t := SkipWs(after);
    if t[0] == ',' {
      assert items[1..] == ParseItems(SkipWs(t[1..])).value.0;
    }
  }

  lemma ParseMembersStep(s: string, keys: seq<string>, values: seq<JsValue>, rest: string)
    returns (u: string, after: string)
    requires ParseMembers(s) == Some((keys, values, rest))
    ensures ParseKey(s) == Some((keys[0], u)) && ParseValue(u) == Some((values[0], after)) && |after| < |u| < |s|
    ensures var t := SkipWs(after);
      && t != [] && |t| <= |after|
      && (|values| == 1 ==> t[0] == '}' && rest == t[1..])
      && (|values| > 1 ==> t[0] == ',' && ParseMembers(SkipWs(t[1..])) == Some((keys[1..], values[1..], rest)))
  {
    u := ParseKey(s).value.1;
    after := ParseValue(u).value.1;
    var t := SkipWs(after);
    if t[0] == ',' {
      var more := ParseMembers(SkipWs(t[1..])).value;
      assert keys[1..] == more.0 && values[1..] == more.1;
    }
  }

  lemma ScanKey(depth: nat, peak: nat, s: string)
    requires ParseKey(s).Some?
    ensures Scan(Outside(depth, peak), s) == Scan(Outside(depth, peak), ParseKey(s).value.1)
  {
    ScanChars(depth, peak, s[1..]);
    var rest := ParseChars(s[1..]).value.1;
    ScanWs(Outside(depth, peak), rest);
    ScanWs(Outside(depth, peak), SkipWs(rest)[1..]);
  }

  /** Scanning the text of a value brings the scanner back to where it was, and its peak up to
      the depth at which the value's containers nest. */
  lemma {:induction false} ScanValue(depth: nat, peak: nat, s: string, v: JsValue, rest: string)
    requires depth <= peak && ParseValue(s) == Some((v, rest))
    ensures Scan(Outside(depth, peak), s) == Scan(Outside(depth, Max(peak, depth + Nesting(v))), rest)
    decreases |s|, 1
  {
    hide Scan, ParseValue, ParseItems, ParseMembers, SkipWs;
    if s[0] == '[' || s[0] == '{' {
      ParseContainer(s);
      var t := SkipWs(s[1..]);
      ScanOpen(depth, peak, s);
      if Children(v) == [] {
        ScanClose(depth, Max(peak, depth + 1), t);
      } else if s[0] == '[' {
        ScanItems(depth, Max(peak, depth + 1), t, v.items, rest);
      } else {
        ScanMembers(depth, Max(peak, depth + 1), t, v.keys, v.values, rest);
      }
    } else {
      ScanScalar(depth, peak, s);
    }
  }

  lemma {:induction false} ScanItems(depth: nat, peak: nat, s: string, items: seq<JsValue>, rest: string)
    requires depth + 1 <= peak && ParseItems(s) == Some((items, rest))
    ensures Scan(Outside(depth + 1, peak), s) == Scan(Outside(depth, Max(peak, depth + 1 + MaxNesting(items))), rest)
    decreases |s|, 2
  {
    hide Scan, ParseValue, ParseItems, SkipWs;
    var after := ParseItemsStep(s, items, rest);
    ScanValue(depth + 1, peak, s, items[0], after);
    var peak1 := Max(peak, depth + 1 + Nesting(items[0]));
    ScanWs(Outside(depth + 1, peak1), after);
    var t := SkipWs(after);
    assert MaxNesting(items) == Max(Nesting(items[0]), MaxNesting(items[1..]));
    if |items| == 1 {
      assert Max(peak, depth + 1 + MaxNesting(items)) == peak1;
      ScanClose(depth, peak1, t);
    } else {
      assert Max(peak, depth + 1 + MaxNesting(items)) == Max(peak1, depth + 1 + MaxNesting(items[1..]));
      ScanComma(depth + 1, peak1, t);
      ScanItems(depth, peak1, SkipWs(t[1..]), items[1..], rest);
    }
  }

  lemma {:induction false} ScanMembers(
    depth: nat, peak: nat, s: string, keys: seq<string>, values: seq<JsValue>, rest: string)
    requires depth + 1 <= peak && ParseMembers(s) == Some((keys, values, rest))
    ensures Scan(Outside(depth + 1, peak), s) == Scan(Outside(depth, Max(peak, depth + 1 + MaxNesting(values))), rest)
    decreases |s|, 2
  {
    hide Scan, ParseKey, ParseValue, ParseMembers, SkipWs;
    var u, after := ParseMembersStep(s, keys, values, rest);
    ScanKey(depth + 1, peak, s);
    ScanValue(depth + 1, peak, u, values[0], after);
    var peak1 := Max(peak, depth + 1 + Nesting(values[0]));
    ScanWs(Outside(depth + 1, peak1), after);
    var t := SkipWs(after);
    assert MaxNesting(values) == Max(Nesting(values[0]), MaxNesting(values[1..]));
    if |values| == 1 {
      assert Max(peak, depth + 1 + MaxNesting(values)) == peak1;
      ScanClose(depth, peak1, t);
    } else {
      assert Max(peak, depth + 1 + MaxNesting(values)) == Max(peak1, depth + 1 + MaxNesting(values[1..]));
      ScanComma(depth + 1, peak1, t);
      ScanMembers(depth, peak1, SkipWs(t[1..]), keys[1..], values[1..], rest);
    }
  }

  /** On every JSON text, whatever its white space and escapes, the scanner ends outside strings
      at depth 0 and its peak is the container nesting of what the text says. */
  lemma ScanDocument(s: string)
    requires ParseDocument(s).Some?
    ensures Scan(START, s) == ScanState(0, false, false, Nesting(ParseDocument(s).value))
  {
    hide Scan, ParseValue, SkipWs;
    ScanWs(START, s);
    var r := ParseValue(SkipWs(s)).value;
    ScanValue(0, 0, SkipWs(s), r.0, r.1);
    ScanWs(Outside(0, Nesting(r.0)), r.1);
    ScanNothing(Outside(0, Nesting(r.0)));
  }

  lemma ScanNothing(st: ScanState)
    ensures Scan(st, "") == st
  {
  }
}
