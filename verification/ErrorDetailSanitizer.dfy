/** The depth-bounded sanitizer for error details, and the key names it drops. */
module ErrorDetailSanitizer {
  import opened Prelude
  import opened JsValues

  // ----- Key names -----

  predicate IsLowerOrDigit(c: char) {
    'a' <= c <= 'z' || '0' <= c <= '9'
  }

  predicate IsUpper(c: char) {
    'A' <= c <= 'Z'
  }

  predicate IsAlnum(c: char) {
    IsLowerOrDigit(c) || IsUpper(c)
  }

  /** `.replace(/([a-z0-9])([A-Z])/g, "$1_$2")`. */
  function SplitCamelCase(s: string): string {
    if |s| < 2 then s
    else if IsLowerOrDigit(s[0]) && IsUpper(s[1]) then [s[0], '_'] + SplitCamelCase(s[1..])
    else [s[0]] + SplitCamelCase(s[1..])
  }

  function DropSeparators(s: string): (r: string)
    ensures |r| <= |s| && (r != [] ==> IsAlnum(r[0]))
  {
    if s != [] && !IsAlnum(s[0]) then DropSeparators(s[1..]) else s
  }

  /** `.replace(/[^A-Za-z0-9]+/g, "_")`. */
  function CollapseSeparators(s: string): string
    decreases |s|
  {
    if s == [] then []
    else if IsAlnum(s[0]) then [s[0]] + CollapseSeparators(s[1..])
    else ['_'] + CollapseSeparators(DropSeparators(s[1..]))
  }

  function TrimUnderscoresLeft(s: string): string {
    if s != [] && s[0] == '_' then TrimUnderscoresLeft(s[1..]) else s
  }

  function TrimUnderscoresRight(s: string): string {
    if s != [] && s[|s| - 1] == '_' then TrimUnderscoresRight(s[..|s| - 1]) else s
  }

  function LowerChar(c: char): char {
    if IsUpper(c) then 'a' + (c - 'A') else c
  }

  function ToLower(s: string): string {
    seq(|s|, i requires 0 <= i < |s| => LowerChar(s[i]))
  }

  /** `normalizeErrorDetailKey`. */
  function NormalizeKey(key: string): string {
    ToLower(TrimUnderscoresRight(TrimUnderscoresLeft(CollapseSeparators(SplitCamelCase(key)))))
  }

  /** Letters or digits in groups that are joined by single underscores. */
  ghost predicate Joined(s: string) {
    && (forall i :: 0 <= i < |s| ==> IsAlnum(s[i]) || s[i] == '_')
    && (forall i :: 0 <= i < |s| - 1 ==> s[i] != '_' || s[i + 1] != '_')
  }

  ghost predicate Snug(s: string) {
    s != [] ==> s[0] != '_' && s[|s| - 1] != '_'
  }

  /** Lower-case words joined by single underscores. */
  ghost predicate IsNormalKey(s: string) {
    Joined(s) && Snug(s) && forall i :: 0 <= i < |s| ==> !IsUpper(s[i])
  }

  lemma {:induction false} CollapseJoins(s: string)
    ensures Joined(CollapseSeparators(s))
    ensures s != [] && IsAlnum(s[0]) ==> CollapseSeparators(s) != [] && CollapseSeparators(s)[0] != '_'
    decreases |s|
  {
    if s != [] {
      if IsAlnum(s[0]) {
        CollapseJoins(s[1..]);
      } else {
        CollapseJoins(DropSeparators(s[1..]));
      }
    }
  }

  lemma {:induction false} TrimLeftSnug(s: string)
    requires Joined(s)
    ensures Joined(TrimUnderscoresLeft(s)) && (TrimUnderscoresLeft(s) != [] ==> TrimUnderscoresLeft(s)[0] != '_')
    decreases |s|
  {
    if s != [] && s[0] == '_' {
      TrimLeftSnug(s[1..]);
    }
  }

  lemma {:induction false} TrimRightSnug(s: string)
    requires Joined(s) && (s != [] ==> s[0] != '_')
    ensures Joined(TrimUnderscoresRight(s)) && Snug(TrimUnderscoresRight(s))
    decreases |s|
  {
    if s != [] && s[|s| - 1] == '_' {
      TrimRightSnug(s[..|s| - 1]);
    }
  }

  lemma {:induction false} SplitKeepsNormal(s: string)
    requires forall i :: 0 <= i < |s| ==> !IsUpper(s[i])
    ensures SplitCamelCase(s) == s
  {
    if |s| >= 2 {
      SplitKeepsNormal(s[1..]);
    }
  }

  lemma {:induction false} CollapseKeepsJoined(s: string)
    requires Joined(s) && (s != [] ==> s[|s| - 1] != '_')
    ensures CollapseSeparators(s) == s
    decreases |s|
  {
    if s != [] {
      CollapseKeepsJoined(s[1..]);
      if !IsAlnum(s[0]) {
        assert |s| > 1 && s[1] != '_' && IsAlnum(s[1]);
        assert DropSeparators(s[1..]) == s[1..];
      }
    }
  }

  lemma LowerKeepsShape(s: string)
    requires Joined(s) && Snug(s)
    ensures IsNormalKey(ToLower(s))
  {
    assert forall i :: 0 <= i < |s| ==>
      && IsAlnum(LowerChar(s[i])) == IsAlnum(s[i]) && !IsUpper(LowerChar(s[i]))
      && (LowerChar(s[i]) == '_' <==> s[i] == '_');
  }

  /** Normalization always yields a normal key ... */
  lemma NormalizeImage(key: string)
    ensures IsNormalKey(NormalizeKey(key))
  {
    hide Joined, Snug, IsNormalKey, ToLower;
    var joined := CollapseSeparators(SplitCamelCase(key));
    CollapseJoins(SplitCamelCase(key));
    TrimLeftSnug(joined);
    TrimRightSnug(TrimUnderscoresLeft(joined));
    LowerKeepsShape(TrimUnderscoresRight(TrimUnderscoresLeft(joined)));
  }

  /** ... and changes nothing exactly on normal keys. */
  lemma NormalizeYieldsNormal(key: string)
    ensures IsNormalKey(NormalizeKey(key))
    ensures NormalizeKey(key) == key <==> IsNormalKey(key)
  {
    NormalizeImage(key);
    if IsNormalKey(key) {
      SplitKeepsNormal(key);
      CollapseKeepsJoined(key);
      assert ToLower(key) == key;
    }
  }

  lemma NormalizeIdempotent(key: string)
    ensures NormalizeKey(NormalizeKey(key)) == NormalizeKey(key)
  {
    NormalizeYieldsNormal(key);
    NormalizeYieldsNormal(NormalizeKey(key));
  }

  // Normalization works on separators and on case only.

  /** The letters and digits of a key, in order. */
  function Letters(s: string): string {
    if s == "" then "" else (if IsAlnum(s[0]) then [s[0]] else "") + Letters(s[1..])
  }

  /** A letter of either case, in lower case: the code of "a" is 32 above that of "A". */
  function InLowerCase(s: string): string {
    seq(|s|, i requires 0 <= i < |s| => if 'A' <= s[i] <= 'Z' then (s[i] as int + 32) as char else s[i])
  }

  lemma {:induction false} LettersAppend(a: string, b: string)
    ensures Letters(a + b) == Letters(a) + Letters(b)
    decreases |a|
  {
    if a == "" {
      assert a + b == b;
    } else {
      assert (a + b)[1..] == a[1..] + b;
      LettersAppend(a[1..], b);
      ThreeParts(if IsAlnum(a[0]) then [a[0]] else "", Letters(a[1..]), Letters(b));
    }
  }

  lemma ThreeParts(a: string, b: string, c: string)
    ensures a + (b + c) == a + b + c
  {
  }

  lemma {:induction false} SplitKeepsLetters(s: string)
    ensures Letters(SplitCamelCase(s)) == Letters(s)
  {
    if |s| >= 2 {
      SplitKeepsLetters(s[1..]);
      var rest := SplitCamelCase(s[1..]);
      if IsLowerOrDigit(s[0]) && IsUpper(s[1]) {
        assert ([s[0], '_'] + rest)[1..] == ['_'] + rest && (['_'] + rest)[1..] == rest;
      } else {
        assert ([s[0]] + rest)[1..] == rest;
      }
    }
  }

  lemma {:induction false} DropKeepsLetters(s: string)
    ensures Letters(DropSeparators(s)) == Letters(s)
  {
    if s != [] && !IsAlnum(s[0]) {
      DropKeepsLetters(s[1..]);
    }
  }

  lemma {:induction false} CollapseKeepsLetters(s: string)
    ensures Letters(CollapseSeparators(s)) == Letters(s)
    decreases |s|
  {
    if s != [] {
      if IsAlnum(s[0]) {
        CollapseKeepsLetters(s[1..]);
        assert ([s[0]] + CollapseSeparators(s[1..]))[1..] == CollapseSeparators(s[1..]);
      } else {
        var rest := DropSeparators(s[1..]);
        CollapseKeepsLetters(rest);
        DropKeepsLetters(s[1..]);
        assert (['_'] + CollapseSeparators(rest))[1..] == CollapseSeparators(rest);
      }
    }
  }

  lemma {:induction false} TrimLeftKeepsLetters(s: string)
    ensures Letters(TrimUnderscoresLeft(s)) == Letters(s)
  {
    if s != [] && s[0] == '_' {
      TrimLeftKeepsLetters(s[1..]);
    }
  }

  lemma {:induction false} TrimRightKeepsLetters(s: string)
    ensures Letters(TrimUnderscoresRight(s)) == Letters(s)
    decreases |s|
  {
    if s != [] && s[|s| - 1] == '_' {
      var init := s[..|s| - 1];
      TrimRightKeepsLetters(init);
      assert s == init + ['_'] && Letters(['_']) == Letters(['_'][1..]);
      LettersAppend(init, ['_']);
    }
  }

  lemma {:induction false} LowerKeepsLetters(s: string)
    ensures Letters(ToLower(s)) == InLowerCase(Letters(s))
  {
    if s != "" {
      LowerKeepsLetters(s[1..]);
      assert ToLower(s) == [LowerChar(s[0])] + ToLower(s[1..]);
      assert ([LowerChar(s[0])] + ToLower(s[1..]))[1..] == ToLower(s[1..]);
      var first := if IsAlnum(s[0]) then [s[0]] else "";
      assert InLowerCase(first + Letters(s[1..])) == InLowerCase(first) + InLowerCase(Letters(s[1..]));
    }
  }

  /** The letters and digits of a normalized key are those of the key, in order and in lower case. */
  lemma NormalizeKeepsLetters(key: string)
    ensures Letters(NormalizeKey(key)) == InLowerCase(Letters(key))
  {
    hide Letters, InLowerCase, ToLower;
    var split := SplitCamelCase(key);
    var collapsed := CollapseSeparators(split);
    SplitKeepsLetters(key);
    CollapseKeepsLetters(split);
    TrimLeftKeepsLetters(collapsed);
    TrimRightKeepsLetters(TrimUnderscoresLeft(collapsed));
    LowerKeepsLetters(TrimUnderscoresRight(TrimUnderscoresLeft(collapsed)));
  }

  lemma {:induction false} SplitConcat(x: string, y: string)
    requires x == "" || y == "" || !(IsLowerOrDigit(x[|x| - 1]) && IsUpper(y[0]))
    ensures SplitCamelCase(x + y) == SplitCamelCase(x) + SplitCamelCase(y)
    decreases |x|
  {
    if |x| <= 1 || y == "" {
      assert x == "" ==> x + y == y;
      assert y == "" ==> x + y == x && SplitCamelCase(y) == "";
      assert |x| == 1 ==> (x + y)[1..] == y;
    } else {
      assert (x + y)[1..] == x[1..] + y && (x + y)[0] == x[0] && (x + y)[1] == x[1];
      SplitConcat(x[1..], y);
    }
  }

  lemma {:induction false} SplitBoundary(x: string, y: string)
    requires x != "" && y != "" && IsLowerOrDigit(x[|x| - 1]) && IsUpper(y[0])
    ensures SplitCamelCase(x + y) == SplitCamelCase(x) + "_" + SplitCamelCase(y)
    decreases |x|
  {
    if |x| == 1 {
      assert (x + y)[1..] == y && [x[0], '_'] == x + "_";
    } else {
      assert (x + y)[1..] == x[1..] + y && (x + y)[0] == x[0] && (x + y)[1] == x[1];
      SplitBoundary(x[1..], y);
      var head := if IsLowerOrDigit(x[0]) && IsUpper(x[1]) then [x[0], '_'] else [x[0]];
      var tail := SplitCamelCase(x[1..]);
      assert SplitCamelCase(x) == head + tail;
      hide SplitCamelCase;
      assert head + (tail + "_" + SplitCamelCase(y)) == head + tail + "_" + SplitCamelCase(y);
    }
  }

  /** A change from lower to upper case separates words just as an underscore does. */
  lemma CamelCaseSeparates(x: string, y: string)
    requires x != "" && y != "" && IsLowerOrDigit(x[|x| - 1]) && IsUpper(y[0])
    ensures NormalizeKey(x + y) == NormalizeKey(x + "_" + y)
  {
    SplitBoundary(x, y);
    SplitConcat(x + "_", y);
    SplitConcat(x, "_");
  }

  ghost predicate IsSeparator(s: string) {
    s != "" && forall i :: 0 <= i < |s| ==> !IsAlnum(s[i])
  }

  lemma {:induction false} SplitSeparator(s: string)
    requires IsSeparator(s)
    ensures SplitCamelCase(s) == s
    decreases |s|
  {
    if |s| >= 2 {
      SplitSeparator(s[1..]);
    }
  }

  lemma {:induction false} DropSeparator(sep: string, b: string)
    requires forall i :: 0 <= i < |sep| ==> !IsAlnum(sep[i])
    ensures DropSeparators(sep + b) == DropSeparators(b)
    decreases |sep|
  {
    if sep == "" {
      assert sep + b == b;
    } else {
      assert (sep + b)[1..] == sep[1..] + b;
      DropSeparator(sep[1..], b);
    }
  }

  lemma {:induction false} DropKeepsRest(a: string, b: string)
    requires exists i :: 0 <= i < |a| && IsAlnum(a[i])
    ensures DropSeparators(a + b) == DropSeparators(a) + b && |DropSeparators(a)| <= |a|
    decreases |a|
  {
    if !IsAlnum(a[0]) {
      var i :| 0 <= i < |a| && IsAlnum(a[i]);
      assert a[1..][i - 1] == a[i] && (a + b)[1..] == a[1..] + b;
      DropKeepsRest(a[1..], b);
    }
  }

  lemma {:induction false} CollapseSeparator(a: string, sep: string, b: string)
    requires IsSeparator(sep)
    ensures CollapseSeparators(a + (sep + b)) == CollapseSeparators(a + ("_" + b))
    decreases |a|
  {
    if a == "" {
      assert a + (sep + b) == sep + b && a + ("_" + b) == "_" + b;
      assert (sep + b)[1..] == sep[1..] + b && ("_" + b)[1..] == b;
      DropSeparator(sep[1..], b);
    } else {
      var rest, rest' := sep + b, "_" + b;
      assert (a + rest)[1..] == a[1..] + rest && (a + rest')[1..] == a[1..] + rest';
      if IsAlnum(a[0]) {
        CollapseSeparator(a[1..], sep, b);
      } else if exists i :: 0 <= i < |a[1..]| && IsAlnum(a[1..][i]) {
        DropKeepsRest(a[1..], rest);
        DropKeepsRest(a[1..], rest');
        CollapseSeparator(DropSeparators(a[1..]), sep, b);
      } else {
        assert a[1..] + rest == (a[1..] + sep) + b && a[1..] + rest' == (a[1..] + "_") + b;
        DropSeparator(a[1..] + sep, b);
        DropSeparator(a[1..] + "_", b);
      }
    }
  }

  /** ... and so does any run of other characters: "api-key", "api key" and "api_key" are one key. */
  lemma SeparatorsAreInterchangeable(x: string, sep: string, y: string)
    requires IsSeparator(sep)
    ensures NormalizeKey(x + (sep + y)) == NormalizeKey(x + ("_" + y))
  {
    SplitConcat(x, sep + y);
    SplitConcat(sep, y);
    SplitConcat(x, "_" + y);
    SplitConcat("_", y);
    SplitSeparator(sep);
    CollapseSeparator(SplitCamelCase(x), sep, SplitCamelCase(y));
  }

  const PUBLIC_METADATA_KEYS: set<string> := {
    "allow_unauthenticated_gateway", "anthropic_version", "api_key_env", "api_key_masked", "auth_mode",
    "authentication_scheme", "auth_source", "inbound_api_key_env", "no_auth", "one_trusted_operator_boundary"
  }

  const SENSITIVE_EXACT_KEYS: set<string> := {
    "api_key", "auth_header", "auth_token", "authorization", "bearer_token", "client_secret", "inline_api_key",
    "inbound_api_key", "password", "refresh_token", "secret", "session_token", "sessiontoken", "token"
  }

  const SENSITIVE_SUFFIXES: seq<string> := ["_api_key", "_password", "_secret", "_token"]

  predicate IsSensitiveNormalKey(key: string) {
    && key !in PUBLIC_METADATA_KEYS
    && (|| key in SENSITIVE_EXACT_KEYS
        || exists i :: 0 <= i < |SENSITIVE_SUFFIXES| && EndsWith(key, SENSITIVE_SUFFIXES[i]))
  }

  /** `isSensitiveErrorDetailKey`. */
  predicate IsSensitiveKey(key: string) {
    IsSensitiveNormalKey(NormalizeKey(key))
  }

  /** All spellings with the same normal key are treated alike. */
  lemma SensitivityIsUpToSpelling(key: string)
    ensures IsSensitiveKey(NormalizeKey(key)) <==> IsSensitiveKey(key)
  {
    NormalizeIdempotent(key);
  }

  /** The table of key names, for a key in normal form. */
  lemma SensitiveNormalKeys(key: string)
    requires IsNormalKey(key)
    ensures IsSensitiveKey(key) <==>
      && key != "allow_unauthenticated_gateway" && key != "anthropic_version" && key != "api_key_env"
      && key != "api_key_masked" && key != "auth_mode" && key != "authentication_scheme" && key != "auth_source"
      && key != "inbound_api_key_env" && key != "no_auth" && key != "one_trusted_operator_boundary"
      && (|| key == "api_key" || key == "auth_header" || key == "auth_token" || key == "authorization"
          || key == "bearer_token" || key == "client_secret" || key == "inline_api_key" || key == "inbound_api_key"
          || key == "password" || key == "refresh_token" || key == "secret" || key == "session_token"
          || key == "sessiontoken" || key == "token"
          || EndsWith(key, "_api_key") || EndsWith(key, "_password") || EndsWith(key, "_secret")
          || EndsWith(key, "_token"))
  {
    NormalizeYieldsNormal(key);
    hide NormalizeKey, IsNormalKey, EndsWith;
    assert SENSITIVE_SUFFIXES[0] == "_api_key" && SENSITIVE_SUFFIXES[1] == "_password"
        && SENSITIVE_SUFFIXES[2] == "_secret" && SENSITIVE_SUFFIXES[3] == "_token";
  }

  // ----- The sanitizer -----

  /** The marker `{ truncated: true }` that stands for whatever is too deep. */
  const TRUNCATED := Obj(["truncated"], [Bool(true)])

  /** `redact` is the string redaction (the identity when it is off), `dropped` tells which keys go. */
  datatype Options = Options(maxDepth: nat, redact: string -> string, dropped: string -> bool)

  /** `sanitizeStructuredValue`; `None` is undefined. */
  function Sanitize(v: JsValue, depth: nat, o: Options): Option<JsValue>
    decreases v, 1
  {
    if depth > o.maxDepth then Some(TRUNCATED)
    else
      match v
      case Str(text) => Some(Str(o.redact(text)))
      case Arr(items) => Some(Arr(SanitizeItems(items, depth + 1, o)))
      case Obj(keys, values) =>
        var members := SanitizeMembers(keys, values, depth + 1, o);
        Some(Obj(members.0, members.1))
      case Opaque => None
      case _ => Some(v)
  }

  function SanitizeItems(items: seq<JsValue>, depth: nat, o: Options): (r: seq<JsValue>)
    ensures |r| <= |items|
    decreases items, 0
  {
    if items == [] then []
    else
      var first := Sanitize(items[0], depth, o);
      (if first.None? then [] else [first.value]) + SanitizeItems(items[1..], depth, o)
  }

  function SanitizeMembers(
    keys: seq<string>, values: seq<JsValue>, depth: nat, o: Options): (r: (seq<string>, seq<JsValue>))
    ensures |r.0| == |r.1| <= |values|
    decreases values, 0
  {
    if keys == [] || values == [] then ([], [])
    else
      var first := if o.dropped(keys[0]) then None else Sanitize(values[0], depth, o);
      var more := SanitizeMembers(keys[1..], values[1..], depth, o);
      if first.None? then more else ([keys[0]] + more.0, [first.value] + more.1)
  }

  /** Nothing is left to do on `v` at this depth: redacted strings, no dropped key, nothing
      opaque, and below the depth limit only the marker. */
  ghost predicate Sanitized(v: JsValue, depth: nat, o: Options)
    decreases v, 1
  {
    if depth > o.maxDepth then v == TRUNCATED
    else
      match v
      case Str(text) => o.redact(text) == text
      case Arr(items) => AllSanitized(items, depth + 1, o)
      case Obj(keys, values) =>
        && |keys| == |values| && (forall i :: 0 <= i < |keys| ==> !o.dropped(keys[i]))
        && AllSanitized(values, depth + 1, o)
      case Opaque => false
      case _ => true
  }

  ghost predicate AllSanitized(vs: seq<JsValue>, depth: nat, o: Options)
    decreases vs, 0
  {
    vs == [] || (Sanitized(vs[0], depth, o) && AllSanitized(vs[1..], depth, o))
  }

  ghost predicate RedactsOnce(o: Options) {
    forall s :: o.redact(o.redact(s)) == o.redact(s)
  }

  lemma {:induction false} SanitizeYieldsSanitized(v: JsValue, depth: nat, o: Options)
    requires RedactsOnce(o)
    ensures Sanitize(v, depth, o).Some? ==> Sanitized(Sanitize(v, depth, o).value, depth, o)
    decreases v, 1
  {
    if depth <= o.maxDepth {
      match v
      case Arr(items) => SanitizeItemsYields(items, depth + 1, o);
      case Obj(keys, values) => SanitizeMembersYields(keys, values, depth + 1, o);
      case _ =>
    }
  }

  lemma {:induction false} SanitizeItemsYields(items: seq<JsValue>, depth: nat, o: Options)
    requires RedactsOnce(o)
    ensures AllSanitized(SanitizeItems(items, depth, o), depth, o)
    decreases items, 0
  {
    if items != [] {
      SanitizeYieldsSanitized(items[0], depth, o);
      SanitizeItemsYields(items[1..], depth, o);
      var first := Sanitize(items[0], depth, o);
      if first.Some? {
        assert SanitizeItems(items, depth, o)[1..] == SanitizeItems(items[1..], depth, o);
      } else {
        assert SanitizeItems(items, depth, o) == SanitizeItems(items[1..], depth, o);
      }
    }
  }

  lemma {:induction false} SanitizeMembersYields(keys: seq<string>, values: seq<JsValue>, depth: nat, o: Options)
    requires RedactsOnce(o)
    ensures var r := SanitizeMembers(keys, values, depth, o);
      AllSanitized(r.1, depth, o) && forall i :: 0 <= i < |r.0| ==> !o.dropped(r.0[i])
    decreases values, 0
  {
    if keys != [] && values != [] {
      SanitizeYieldsSanitized(values[0], depth, o);
      SanitizeMembersYields(keys[1..], values[1..], depth, o);
      var first := if o.dropped(keys[0]) then None else Sanitize(values[0], depth, o);
      if first.Some? {
        assert SanitizeMembers(keys, values, depth, o).1[1..] == SanitizeMembers(keys[1..], values[1..], depth, o).1;
      }
    }
  }

  /** The sanitizer changes nothing exactly on what is already sanitized. */
  lemma {:induction false} FixedExactlyWhenSanitized(v: JsValue, depth: nat, o: Options)
    ensures Sanitize(v, depth, o) == Some(v) <==> Sanitized(v, depth, o)
    decreases v, 1
  {
    if depth <= o.maxDepth {
      match v
      case Arr(items) => ItemsFixed(items, depth + 1, o);
      case Obj(keys, values) => MembersFixed(keys, values, depth + 1, o);
      case _ =>
    }
  }

  lemma {:induction false} ItemsFixed(items: seq<JsValue>, depth: nat, o: Options)
    ensures SanitizeItems(items, depth, o) == items <==> AllSanitized(items, depth, o)
    decreases items, 0
  {
    if items != [] {
      FixedExactlyWhenSanitized(items[0], depth, o);
      ItemsFixed(items[1..], depth, o);
      var first := Sanitize(items[0], depth, o);
      if first.Some? {
        assert SanitizeItems(items, depth, o)[1..] == SanitizeItems(items[1..], depth, o);
        assert items == [items[0]] + items[1..];
      } else {
        assert |SanitizeItems(items, depth, o)| < |items|;
      }
    }
  }

  lemma {:induction false} MembersFixed(keys: seq<string>, values: seq<JsValue>, depth: nat, o: Options)
    ensures SanitizeMembers(keys, values, depth, o) == (keys, values) <==>
      |keys| == |values| && (forall i :: 0 <= i < |keys| ==> !o.dropped(keys[i])) && AllSanitized(values, depth, o)
    decreases values, 0
  {
    if keys != [] && values != [] {
      FixedExactlyWhenSanitized(values[0], depth, o);
      MembersFixed(keys[1..], values[1..], depth, o);
      var first := if o.dropped(keys[0]) then None else Sanitize(values[0], depth, o);
      var r, more := SanitizeMembers(keys, values, depth, o), SanitizeMembers(keys[1..], values[1..], depth, o);
      assert forall i :: 0 < i < |keys| ==> keys[i] == keys[1..][i - 1];
      if first.Some? {
        assert r.0[1..] == more.0 && r.1[1..] == more.1;
        assert keys == [keys[0]] + keys[1..] && values == [values[0]] + values[1..];
      } else {
        assert |r.1| < |values|;
      }
    }
  }

  /** Sanitizing twice is sanitizing once, if string redaction is idempotent or off. */
  lemma SanitizeIdempotent(v: JsValue, o: Options)
    requires RedactsOnce(o)
    ensures Sanitize(v, 0, o).Some? ==> Sanitize(Sanitize(v, 0, o).value, 0, o) == Sanitize(v, 0, o)
  {
    SanitizeYieldsSanitized(v, 0, o);
    if Sanitize(v, 0, o).Some? {
      FixedExactlyWhenSanitized(Sanitize(v, 0, o).value, 0, o);
    }
  }

  // ----- What sanitized values look like -----

  /** No object at any level has a key that is dropped. */
  ghost predicate NoDroppedKey(v: JsValue, dropped: string -> bool)
    decreases v, 1
  {
    match v
    case Arr(items) => NoDroppedKeys(items, dropped)
    case Obj(keys, values) => (forall i :: 0 <= i < |keys| ==> !dropped(keys[i])) && NoDroppedKeys(values, dropped)
    case _ => true
  }

  ghost predicate NoDroppedKeys(vs: seq<JsValue>, dropped: string -> bool)
    decreases vs, 0
  {
    vs == [] || (NoDroppedKey(vs[0], dropped) && NoDroppedKeys(vs[1..], dropped))
  }

  /** A sanitized value has no dropped key and nests at most two levels past the depth limit. */
  lemma {:induction false} SanitizedIsClean(v: JsValue, depth: nat, o: Options)
    requires Sanitized(v, depth, o) && depth <= o.maxDepth + 1 && !o.dropped("truncated")
    ensures NoDroppedKey(v, o.dropped) && depth + Nesting(v) <= o.maxDepth + 2
    decreases v, 1
  {
    if depth > o.maxDepth {
      assert [Bool(true)][1..] == [];
    } else {
      match v
      case Arr(items) => AllSanitizedAreClean(items, depth + 1, o);
      case Obj(_, values) => AllSanitizedAreClean(values, depth + 1, o);
      case _ =>
    }
  }

  lemma {:induction false} AllSanitizedAreClean(vs: seq<JsValue>, depth: nat, o: Options)
    requires AllSanitized(vs, depth, o) && depth <= o.maxDepth + 1 && !o.dropped("truncated")
    ensures NoDroppedKeys(vs, o.dropped) && depth + MaxNesting(vs) <= o.maxDepth + 2
    decreases vs, 0
  {
    if vs != [] {
      SanitizedIsClean(vs[0], depth, o);
      AllSanitizedAreClean(vs[1..], depth, o);
    }
  }

  /** Plain data: nothing opaque, one value per key, and no string that redaction would change. */
  ghost predicate Plain(v: JsValue, o: Options)
    decreases v, 1
  {
    match v
    case Str(text) => o.redact(text) == text
    case Arr(items) => AllPlain(items, o)
    case Obj(keys, values) => |keys| == |values| && AllPlain(values, o)
    case Opaque => false
    case _ => true
  }

  ghost predicate AllPlain(vs: seq<JsValue>, o: Options)
    decreases vs, 0
  {
    vs == [] || (Plain(vs[0], o) && AllPlain(vs[1..], o))
  }

  lemma {:induction false} ShallowPlainIsSanitized(v: JsValue, depth: nat, o: Options)
    requires Plain(v, o) && NoDroppedKey(v, o.dropped) && depth + Height(v) <= o.maxDepth + 1
    ensures Sanitized(v, depth, o)
    decreases v, 1
  {
    match v
    case Arr(items) => AllShallowPlain(items, depth + 1, o);
    case Obj(_, values) => AllShallowPlain(values, depth + 1, o);
    case _ =>
  }

  lemma {:induction false} AllShallowPlain(vs: seq<JsValue>, depth: nat, o: Options)
    requires AllPlain(vs, o) && NoDroppedKeys(vs, o.dropped) && depth + MaxHeight(vs) <= o.maxDepth + 1
    ensures AllSanitized(vs, depth, o)
    decreases vs, 0
  {
    if vs != [] {
      ShallowPlainIsSanitized(vs[0], depth, o);
      AllShallowPlain(vs[1..], depth, o);
    }
  }

  // ----- What sanitizing keeps -----

  datatype Step = Key(key: string) | Item(index: nat)

  function Child(v: JsValue, step: Step): Option<JsValue> {
    match step
    case Key(key) => Field(v, key)
    case Item(index) => if v.Arr? && index < |v.items| then Some(v.items[index]) else None
  }

  /** The part of the value that the path leads to. */
  function AtPath(v: JsValue, path: seq<Step>): Option<JsValue> {
    if path == [] then Some(v)
    else match Child(v, path[0]) case None => None case Some(child) => AtPath(child, path[1..])
  }

  lemma {:induction false} SanitizedItem(items: seq<JsValue>, depth: nat, o: Options, i: nat)
    requires AllPlain(items, o) && i < |items|
    ensures |SanitizeItems(items, depth, o)| == |items| && Plain(items[i], o)
    ensures Some(SanitizeItems(items, depth, o)[i]) == Sanitize(items[i], depth, o)
    decreases items
  {
    assert Sanitize(items[0], depth, o).Some?;
    if |items| > 1 {
      SanitizedItem(items[1..], depth, o, if i == 0 then 0 else i - 1);
    }
  }

  lemma {:induction false} SanitizedMember(keys: seq<string>, values: seq<JsValue>, depth: nat, o: Options, key: string)
    requires AllPlain(values, o) && |keys| == |values| && key in keys && !o.dropped(key)
    ensures var r := SanitizeMembers(keys, values, depth, o);
      && key in r.0 && IndexOf(r.0, key) < |r.1| && Plain(values[IndexOf(keys, key)], o)
      && Some(r.1[IndexOf(r.0, key)]) == Sanitize(values[IndexOf(keys, key)], depth, o)
    decreases values
  {
    assert Sanitize(values[0], depth, o).Some?;
    if keys[0] != key {
      SanitizedMember(keys[1..], values[1..], depth, o, key);
      var r, more := SanitizeMembers(keys, values, depth, o), SanitizeMembers(keys[1..], values[1..], depth, o);
      if !o.dropped(keys[0]) {
        assert r.0[1..] == more.0 && r.1[1..] == more.1;
      }
    }
  }

  lemma PlainSurvives(v: JsValue, depth: nat, o: Options)
    requires Plain(v, o)
    ensures Sanitize(v, depth, o).Some?
  {
  }

  /** One step down. */
  lemma SanitizeKeepsChild(v: JsValue, depth: nat, o: Options, step: Step)
    requires Plain(v, o) && Child(v, step).Some? && depth <= o.maxDepth && (step.Key? ==> !o.dropped(step.key))
    ensures Plain(Child(v, step).value, o) && Sanitize(v, depth, o).Some?
    ensures Child(Sanitize(v, depth, o).value, step) == Sanitize(Child(v, step).value, depth + 1, o)
  {
    hide IndexOf;
    match step
    case Key(key) => SanitizedMember(v.keys, v.values, depth + 1, o, key);
    case Item(index) => SanitizedItem(v.items, depth + 1, o, index);
  }

  /** A part of plain data that is reached through kept keys, within the depth limit, is found at
      the same place in the sanitized value, sanitized in its turn: nothing else is lost or moved. */
  lemma {:induction false} SanitizeKeepsPaths(v: JsValue, depth: nat, o: Options, path: seq<Step>)
    requires Plain(v, o) && AtPath(v, path).Some? && depth + |path| <= o.maxDepth + 1
    requires forall i :: 0 <= i < |path| && path[i].Key? ==> !o.dropped(path[i].key)
    ensures Sanitize(v, depth, o).Some?
    ensures AtPath(Sanitize(v, depth, o).value, path) == Sanitize(AtPath(v, path).value, depth + |path|, o)
    decreases |path|
  {
    PlainSurvives(v, depth, o);
    hide Sanitize, Plain, Child;
    if path != [] {
      SanitizeKeepsChild(v, depth, o, path[0]);
      SanitizeKeepsPaths(Child(v, path[0]).value, depth + 1, o, path[1..]);
    }
  }

  /** A part that lies one level below the limit is replaced by the marker. */
  lemma DeepPartsTruncated(v: JsValue, o: Options, path: seq<Step>)
    requires Plain(v, o) && AtPath(v, path).Some? && |path| == o.maxDepth + 1
    requires forall i :: 0 <= i < |path| && path[i].Key? ==> !o.dropped(path[i].key)
    ensures Sanitize(v, 0, o).Some?
    ensures AtPath(Sanitize(v, 0, o).value, path) == Some(Obj(["truncated"], [Bool(true)]))
  {
    SanitizeKeepsPaths(v, 0, o, path);
  }

  /** The values that JSON knows, and the keys that go with them. */
  function WithoutOpaque(values: seq<JsValue>): seq<JsValue> {
    if values == [] then [] else (if values[0].Opaque? then [] else [values[0]]) + WithoutOpaque(values[1..])
  }

  function KeysWithoutOpaque(keys: seq<string>, values: seq<JsValue>): seq<string>
    requires |keys| == |values|
  {
    if values == [] then []
    else (if values[0].Opaque? then [] else [keys[0]]) + KeysWithoutOpaque(keys[1..], values[1..])
  }

  /** Within the depth limit, opaque items count as absent, ... */
  lemma {:induction false} OpaqueItemsAbsent(items: seq<JsValue>, depth: nat, o: Options)
    requires depth <= o.maxDepth
    ensures SanitizeItems(items, depth, o) == SanitizeItems(WithoutOpaque(items), depth, o)
    ensures |SanitizeItems(items, depth, o)| == |WithoutOpaque(items)|
    decreases |items|
  {
    if items != [] {
      OpaqueItemsAbsent(items[1..], depth, o);
      var rest := WithoutOpaque(items[1..]);
      if items[0].Opaque? {
        assert [] + rest == rest;
        assert [] + SanitizeItems(items[1..], depth, o) == SanitizeItems(items[1..], depth, o);
      } else {
        assert ([items[0]] + rest)[1..] == rest;
      }
    }
  }

  /** ... and so do opaque members, ... */
  lemma {:induction false} OpaqueMembersAbsent(keys: seq<string>, values: seq<JsValue>, depth: nat, o: Options)
    requires depth <= o.maxDepth && |keys| == |values|
    ensures |KeysWithoutOpaque(keys, values)| == |WithoutOpaque(values)|
    ensures SanitizeMembers(keys, values, depth, o)
         == SanitizeMembers(KeysWithoutOpaque(keys, values), WithoutOpaque(values), depth, o)
    decreases |values|
  {
    if values != [] {
      OpaqueMembersAbsent(keys[1..], values[1..], depth, o);
      var ks, vs := KeysWithoutOpaque(keys[1..], values[1..]), WithoutOpaque(values[1..]);
      if values[0].Opaque? {
        assert [] + ks == ks && [] + vs == vs;
      } else {
        assert ([keys[0]] + ks)[1..] == ks && ([values[0]] + vs)[1..] == vs;
      }
    }
  }

  /** ... and of the other members exactly those with a dropped key are missing. */
  lemma {:induction false} MembersKeepKeys(keys: seq<string>, values: seq<JsValue>, depth: nat, o: Options)
    requires depth <= o.maxDepth && |keys| == |values|
    ensures SanitizeMembers(keys, values, depth, o).0 == KeptKeys(KeysWithoutOpaque(keys, values), o)
    decreases |values|
  {
    if values != [] {
      MembersKeepKeys(keys[1..], values[1..], depth, o);
      var ks := KeysWithoutOpaque(keys[1..], values[1..]);
      if values[0].Opaque? {
        assert [] + ks == ks;
      } else {
        assert ([keys[0]] + ks)[1..] == ks;
      }
    }
  }

  function KeptKeys(keys: seq<string>, o: Options): seq<string> {
    if keys == [] then [] else (if o.dropped(keys[0]) then [] else [keys[0]]) + KeptKeys(keys[1..], o)
  }

  /** `sanitizeStructuredSensitiveData` without string redaction. */
  function ErrorDetailOptions(maxDepth: nat): Options {
    Options(maxDepth, (s: string) => s, (key: string) => IsSensitiveKey(key))
  }

  lemma TruncatedIsNormal()
    ensures IsNormalKey("truncated")
  {
  }

  lemma TruncatedNotExact()
    ensures "truncated" !in SENSITIVE_EXACT_KEYS
  {
    assert forall k :: k in SENSITIVE_EXACT_KEYS && |k| == 9 ==> k[0] != 't';
  }

  lemma TruncatedHasNoSuffix()
    ensures var key := "truncated";
      !EndsWith(key, "_api_key") && !EndsWith(key, "_secret") && !EndsWith(key, "_token") && !EndsWith(key, "_password")
  {
    var key := "truncated";
    assert key[1..] == "runcated" && key[2..] == "uncated" && key[3..] == "ncated";
    assert !EndsWith(key, "_password") by { assert key[0..] == key && key[0] != "_password"[0]; }
  }

  lemma TruncatedIsPublic()
    ensures !IsSensitiveKey("truncated")
  {
    hide NormalizeKey, IsNormalKey, EndsWith;
    TruncatedIsNormal();
    NormalizeYieldsNormal("truncated");
    TruncatedNotExact();
    TruncatedHasNoSuffix();
  }

  /** The promises of `sanitizeStructuredSensitiveData`: its result has no sensitive key at any
      level, nests at most two levels past the limit, is not changed by sanitizing again, and is
      the input itself when that is shallow plain data without sensitive keys. */
  lemma ErrorDetailsSanitized(v: JsValue, maxDepth: nat)
    ensures var o := ErrorDetailOptions(maxDepth);
      && (Sanitize(v, 0, o).Some? ==>
            var r := Sanitize(v, 0, o).value;
            NoDroppedKey(r, o.dropped) && Nesting(r) <= maxDepth + 2 && Sanitize(r, 0, o) == Some(r))
      && (Plain(v, o) && NoDroppedKey(v, o.dropped) && Height(v) <= maxDepth + 1 ==> Sanitize(v, 0, o) == Some(v))
  {
    var o := ErrorDetailOptions(maxDepth);
    TruncatedIsPublic();
    SanitizeYieldsSanitized(v, 0, o);
    if Sanitize(v, 0, o).Some? {
      SanitizedIsClean(Sanitize(v, 0, o).value, 0, o);
      SanitizeIdempotent(v, o);
    }
    if Plain(v, o) && NoDroppedKey(v, o.dropped) && Height(v) <= maxDepth + 1 {
      ShallowPlainIsSanitized(v, 0, o);
      FixedExactlyWhenSanitized(v, 0, o);
    }
  }
}
