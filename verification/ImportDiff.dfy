/** Redaction of inline provider keys in config documents, and the diff that an import shows. */
module ImportDiff {
  import opened Prelude
  import opened JsValues
  import JsonBounds
  import LogLines

  const MASKED_SECRET_SENTINEL := "***masked***"
  const MAX_CONFIG_FILE_BYTES: nat := 8 * 1024 * 1024

  // ----- Documents -----

  /** The inline key of a provider value: a string that is not blank. */
  function InlineKey(provider: JsValue): Option<string> {
    match Field(provider, "api_key")
    case Some(Str(text)) => if IsBlank(text) then None else Some(text)
    case _ => None
  }

  /** An inline key is a string with something in it besides white space. */
  lemma InlineKeyExactly(provider: JsValue, key: string)
    ensures InlineKey(provider) == Some(key) <==> Field(provider, "api_key") == Some(Str(key)) && Trim(key) != ""
  {
    BlankIsTrimmedEmpty(key);
    hide Field, IsBlank;
  }

  /** The provider record of a document, if it has one. */
  function Providers(document: JsValue): Option<JsValue> {
    match Field(document, "service_providers")
    case Some(v) => if v.Obj? then Some(v) else None
    case None => None
  }

  function ProviderNames(document: JsValue): set<string> {
    match Providers(document)
    case Some(v) => set name | name in v.keys
    case None => {}
  }

  /** `getInlineProviderApiKey`. */
  function InlineProviderApiKey(document: JsValue, name: string): Option<string> {
    match Providers(document)
    case Some(v) => if Field(v, name).Some? then InlineKey(Field(v, name).value) else None
    case None => None
  }

  /** `configDocumentContainsInlineProviderApiKey`. */
  ghost predicate ContainsInlineKey(document: JsValue) {
    && Providers(document).Some?
    && var values := Providers(document).value.values;
       exists i :: 0 <= i < |values| && InlineKey(values[i]).Some?
  }

  // ----- Redaction -----

  function RedactProvider(provider: JsValue): JsValue {
    if InlineKey(provider).Some? then WithField(provider, "api_key", Str(MASKED_SECRET_SENTINEL)) else provider
  }

  function RedactProviders(providers: JsValue): JsValue
    requires providers.Obj?
  {
    var values := providers.values;
    providers.(values := seq(|values|, i requires 0 <= i < |values| => RedactProvider(values[i])))
  }

  function Redacted(document: JsValue): JsValue {
    if Providers(document).Some? then
      WithField(document, "service_providers", RedactProviders(Providers(document).value))
    else document
  }

  /** `sanitizeConfigDocumentForDisplay`: the loop that masks the keys of a cloned document in place. */
  method SanitizeConfigDocumentForDisplay(document: JsValue) returns (r: JsValue)
    ensures r == Redacted(document)
  {
    r := document;
    var providers := Providers(document);
    if providers.None? {
      return;
    }
    var values := providers.value.values;
    for i := 0 to |values|
      invariant |values| == |providers.value.values|
      invariant forall j :: 0 <= j < |values| ==>
        values[j] == if j < i then RedactProvider(providers.value.values[j]) else providers.value.values[j]
    {
      if InlineKey(values[i]).Some? {
        values := values[i := WithField(values[i], "api_key", Str(MASKED_SECRET_SENTINEL))];
      }
    }
    r := WithField(document, "service_providers", providers.value.(values := values));
    assert providers.value.(values := values) == RedactProviders(providers.value);
  }

  lemma RedactProviderFacts(provider: JsValue)
    ensures InlineKey(RedactProvider(provider)) ==
      if InlineKey(provider).Some? then Some(MASKED_SECRET_SENTINEL) else None
    ensures RedactProvider(RedactProvider(provider)) == RedactProvider(provider)
    ensures RedactProvider(provider) == provider <==>
      InlineKey(provider).GetOr(MASKED_SECRET_SENTINEL) == MASKED_SECRET_SENTINEL
  {
    assert !IsBlank(MASKED_SECRET_SENTINEL) by { assert !IsSpace(MASKED_SECRET_SENTINEL[0]); }
    if InlineKey(provider).Some? {
      WithFieldFacts(provider, "api_key", Str(MASKED_SECRET_SENTINEL));
    }
  }

  /** Redaction keeps the shape of a document: the same providers, each with its key masked. */
  lemma RedactedProviders(document: JsValue)
    ensures Providers(document).None? ==> Redacted(document) == document
    ensures Providers(document).Some? ==>
      Providers(Redacted(document)) == Some(RedactProviders(Providers(document).value))
  {
    if Providers(document).Some? {
      WithFieldFacts(document, "service_providers", RedactProviders(Providers(document).value));
    }
  }

  lemma RedactedNames(document: JsValue)
    ensures ProviderNames(Redacted(document)) == ProviderNames(document)
  {
    RedactedProviders(document);
  }

  /** Redacting twice is redacting once. */
  lemma RedactionIdempotent(document: JsValue)
    ensures Redacted(Redacted(document)) == Redacted(document)
  {
    RedactedProviders(document);
    if Providers(document).Some? {
      var p := Providers(document).value;
      forall i | 0 <= i < |p.values|
        ensures RedactProvider(RedactProvider(p.values[i])) == RedactProvider(p.values[i])
      {
        RedactProviderFacts(p.values[i]);
      }
      assert RedactProviders(RedactProviders(p)) == RedactProviders(p);
      WithFieldFacts(document, "service_providers", RedactProviders(p));
    }
  }

  /** Redaction changes nothing exactly when no provider has an inline key other than the mask. */
  lemma RedactionFixpoints(document: JsValue)
    ensures Redacted(document) == document <==>
      (Providers(document).Some? ==>
         forall i :: 0 <= i < |Providers(document).value.values| ==>
           InlineKey(Providers(document).value.values[i]).GetOr(MASKED_SECRET_SENTINEL) == MASKED_SECRET_SENTINEL)
  {
    if Providers(document).Some? {
      var p := Providers(document).value;
      WithFieldFacts(document, "service_providers", RedactProviders(p));
      forall i | 0 <= i < |p.values|
        ensures RedactProviders(p).values[i] == p.values[i] <==>
          InlineKey(p.values[i]).GetOr(MASKED_SECRET_SENTINEL) == MASKED_SECRET_SENTINEL
      {
        RedactProviderFacts(p.values[i]);
      }
      assert RedactProviders(p) == p <==>
        forall i :: 0 <= i < |p.values| ==> RedactProviders(p).values[i] == p.values[i];
    }
  }

  /** A redacted document says that there are inline keys, and shows only the mask. */
  lemma RedactionHidesKeys(document: JsValue)
    ensures ContainsInlineKey(Redacted(document)) <==> ContainsInlineKey(document)
    ensures forall name ::
      InlineProviderApiKey(Redacted(document), name) ==
        if InlineProviderApiKey(document, name).Some? then Some("***masked***") else None
  {
    RedactedProviders(document);
    if Providers(document).Some? {
      var p := Providers(document).value;
      forall i | 0 <= i < |p.values|
        ensures InlineKey(RedactProviders(p).values[i]) ==
          if InlineKey(p.values[i]).Some? then Some(MASKED_SECRET_SENTINEL) else None
      {
        RedactProviderFacts(p.values[i]);
      }
    }
  }

  /** Redaction touches nothing but the keys: every other field of the document and of each provider
      is as it was, and so is the order of the providers. */
  lemma RedactionKeepsTheRest(document: JsValue, field: string)
    ensures field != "service_providers" ==> Field(Redacted(document), field) == Field(document, field)
    ensures Providers(document).Some? ==>
      var p := Providers(document).value;
      && Providers(Redacted(document)).Some?
      && var q := Providers(Redacted(document)).value;
         && q.keys == p.keys && |q.values| == |p.values|
         && forall i :: 0 <= i < |p.values| && field != "api_key" ==>
              Field(q.values[i], field) == Field(p.values[i], field)
  {
    RedactedProviders(document);
    if Providers(document).Some? {
      var p := Providers(document).value;
      WithFieldFacts(document, "service_providers", RedactProviders(p));
      forall i | 0 <= i < |p.values| && field != "api_key"
        ensures Field(RedactProvider(p.values[i]), field) == Field(p.values[i], field)
      {
        if InlineKey(p.values[i]).Some? {
          WithFieldFacts(p.values[i], "api_key", Str(MASKED_SECRET_SENTINEL));
        }
      }
    }
  }

  // ----- Descriptions of key changes -----

  datatype Change = Unnoted | Added | Removed | Changed

  function KeyChange(current: Option<string>, next: Option<string>): Change {
    if current.None? && next.None? then Unnoted
    else if current.None? then Added
    else if next.None? then Removed
    else if current != next then Changed
    else Unnoted
  }

  function DisplayName(name: string): string {
    var shown := seq(|name|, i requires 0 <= i < |name| => if ' ' <= name[i] <= '~' then name[i] else '?');
    shown[..Min(|shown|, 128)]
  }

  function Description(name: string, change: Change): string {
    "provider '" + DisplayName(name) + "' inline api_key " +
    match change case Added => "added" case Removed => "removed" case _ => "changed"
  }

  function ChangeOf(current: JsValue, next: JsValue, name: string): Change {
    KeyChange(InlineProviderApiKey(current, name), InlineProviderApiKey(next, name))
  }

  function Descriptions(current: JsValue, next: JsValue, names: seq<string>): seq<string> {
    if names == [] then []
    else
      var last := |names| - 1;
      Descriptions(current, next, names[..last]) +
      var change := ChangeOf(current, next, names[last]);
      if change == Unnoted then [] else [Description(names[last], change)]
  }

  /** `describeInlineApiKeyChanges`; `sorted` is the engine's sort of a set of strings. */
  method DescribeInlineApiKeyChanges(current: JsValue, next: JsValue, sorted: set<string> -> seq<string>)
    returns (r: seq<string>)
    ensures r == Descriptions(current, next, sorted(ProviderNames(current) + ProviderNames(next)))
  {
    hide InlineProviderApiKey, Description, ProviderNames;
    var names := sorted(ProviderNames(current) + ProviderNames(next));
    r := [];
    for i := 0 to |names|
      invariant r == Descriptions(current, next, names[..i])
    {
      assert names[..i + 1][..i] == names[..i];
      var currentApiKey, nextApiKey := InlineProviderApiKey(current, names[i]), InlineProviderApiKey(next, names[i]);
      if currentApiKey.None? && nextApiKey.None? {
        continue;
      }
      if currentApiKey.None? {
        r := r + [Description(names[i], Added)];
      } else if nextApiKey.None? {
        r := r + [Description(names[i], Removed)];
      } else if currentApiKey != nextApiKey {
        r := r + [Description(names[i], Changed)];
      }
    }
    assert names[..|names|] == names;
  }

  /** Exactly the providers whose key was added, removed or changed are described. */
  lemma {:induction false} DescribesExactly(current: JsValue, next: JsValue, names: seq<string>, text: string)
    ensures text in Descriptions(current, next, names) <==>
      exists i :: 0 <= i < |names| && ChangeOf(current, next, names[i]) != Unnoted
               && text == Description(names[i], ChangeOf(current, next, names[i]))
    decreases |names|
  {
    hide ChangeOf, Description;
    if names != [] {
      var init := names[..|names| - 1];
      DescribesExactly(current, next, init, text);
      assert forall i :: 0 <= i < |init| ==> init[i] == names[i];
    }
  }

  /** A provider gets a description exactly when its key is set on one side only or differs. */
  lemma ChangeIsNoted(current: JsValue, next: JsValue, name: string)
    ensures ChangeOf(current, next, name) == Unnoted <==>
      InlineProviderApiKey(current, name) == InlineProviderApiKey(next, name)
  {
  }

  lemma KeyHasProvider(document: JsValue, name: string)
    ensures InlineProviderApiKey(document, name).Some? ==> name in ProviderNames(document)
  {
  }

  /** When the sort keeps what it sorts, a text is among the descriptions of two documents exactly
      when it describes the change of a provider name whose inline key differs between them. */
  lemma ProvidersDescribed(current: JsValue, next: JsValue, sorted: set<string> -> seq<string>, text: string)
    requires forall S :: (set name | name in sorted(S)) == S
    ensures text in Descriptions(current, next, sorted(ProviderNames(current) + ProviderNames(next))) <==>
      exists name :: InlineProviderApiKey(current, name) != InlineProviderApiKey(next, name)
                  && text == Description(name, ChangeOf(current, next, name))
  {
    hide Descriptions, Description, InlineProviderApiKey, ProviderNames, ChangeOf;
    var all := ProviderNames(current) + ProviderNames(next);
    var names := sorted(all);
    DescribesExactly(current, next, names, text);
    forall name
      ensures ChangeOf(current, next, name) == Unnoted <==>
        InlineProviderApiKey(current, name) == InlineProviderApiKey(next, name)
      ensures InlineProviderApiKey(current, name) != InlineProviderApiKey(next, name) ==> name in names
    {
      ChangeIsNoted(current, next, name);
      KeyHasProvider(current, name);
      KeyHasProvider(next, name);
      assert name in all <==> name in (set n | n in sorted(all));
    }
  }

  /** The kinds of change: added and removed are keys that only one side has, changed is a key that
      both sides have, with different values. */
  lemma ChangeKinds(current: JsValue, next: JsValue, name: string)
    ensures var before, after := InlineProviderApiKey(current, name), InlineProviderApiKey(next, name);
      && (ChangeOf(current, next, name) == Added <==> before.None? && after.Some?)
      && (ChangeOf(current, next, name) == Removed <==> before.Some? && after.None?)
      && (ChangeOf(current, next, name) == Changed <==> before.Some? && after.Some? && before != after)
  {
  }

  /** A shown provider name is printable and short, and is the name itself if that is. */
  lemma DisplayNameFacts(name: string)
    ensures var shown := DisplayName(name);
      && |shown| == Min(|name|, 128)
      && forall i :: 0 <= i < |shown| ==> shown[i] == if ' ' <= name[i] <= '~' then name[i] else '?'
    ensures |name| <= 128 && (forall i :: 0 <= i < |name| ==> ' ' <= name[i] <= '~') ==> DisplayName(name) == name
  {
  }

  /** What the source writes about a provider whose key differs. */
  function ChangeText(current: JsValue, next: JsValue, name: string): string {
    if InlineProviderApiKey(current, name).None? then "provider '" + DisplayName(name) + "' inline api_key added"
    else if InlineProviderApiKey(next, name).None? then "provider '" + DisplayName(name) + "' inline api_key removed"
    else "provider '" + DisplayName(name) + "' inline api_key changed"
  }

  /** The names whose key differs, in the order of the list. */
  function ChangedNames(current: JsValue, next: JsValue, names: seq<string>): seq<string> {
    if names == [] then []
    else
      var last := |names| - 1;
      var differs := InlineProviderApiKey(current, names[last]) != InlineProviderApiKey(next, names[last]);
      ChangedNames(current, next, names[..last]) + if differs then [names[last]] else []
  }

  lemma DescriptionText(current: JsValue, next: JsValue, name: string)
    requires InlineProviderApiKey(current, name) != InlineProviderApiKey(next, name)
    ensures Description(name, ChangeOf(current, next, name)) == ChangeText(current, next, name)
  {
    hide InlineProviderApiKey, DisplayName;
    var intro := "provider '" + DisplayName(name);
    assert "' inline api_key " + "added" == "' inline api_key added";
    assert "' inline api_key " + "removed" == "' inline api_key removed";
    assert "' inline api_key " + "changed" == "' inline api_key changed";
    assert intro + "' inline api_key " + "added" == intro + ("' inline api_key " + "added");
    assert intro + "' inline api_key " + "removed" == intro + ("' inline api_key " + "removed");
    assert intro + "' inline api_key " + "changed" == intro + ("' inline api_key " + "changed");
  }

  /** There is one description for each of these names, in that order. */
  lemma {:induction false} DescriptionsInOrder(current: JsValue, next: JsValue, names: seq<string>)
    ensures var all, changed := Descriptions(current, next, names), ChangedNames(current, next, names);
      |all| == |changed| && forall i :: 0 <= i < |all| ==> all[i] == ChangeText(current, next, changed[i])
    decreases |names|
  {
    hide InlineProviderApiKey, Description, ChangeText, ChangeOf;
    if names != [] {
      var last := |names| - 1;
      DescriptionsInOrder(current, next, names[..last]);
      ChangeIsNoted(current, next, names[last]);
      if InlineProviderApiKey(current, names[last]) != InlineProviderApiKey(next, names[last]) {
        DescriptionText(current, next, names[last]);
      }
    }
  }

  /** `a` comes before `b` in the list. */
  ghost predicate Precedes(names: seq<string>, a: string, b: string) {
    exists i, j :: 0 <= i < j < |names| && names[i] == a && names[j] == b
  }

  lemma {:induction false} ChangedNamesFacts(current: JsValue, next: JsValue, names: seq<string>)
    ensures var changed := ChangedNames(current, next, names);
      && (forall name :: name in changed <==>
            name in names && InlineProviderApiKey(current, name) != InlineProviderApiKey(next, name))
      && forall i, j :: 0 <= i < j < |changed| ==> Precedes(names, changed[i], changed[j])
    decreases |names|
  {
    hide InlineProviderApiKey;
    if names != [] {
      var last := |names| - 1;
      var init := names[..last];
      ChangedNamesFacts(current, next, init);
      var changed, before := ChangedNames(current, next, names), ChangedNames(current, next, init);
      assert forall name :: name in names <==> name in init || name == names[last];
      forall i, j | 0 <= i < j < |changed| ensures Precedes(names, changed[i], changed[j]) {
        if j < |before| {
          var a, b :| 0 <= a < b < |init| && init[a] == before[i] && init[b] == before[j];
          assert names[a] == changed[i] && names[b] == changed[j];
        } else {
          assert before[i] in init;
          var a :| 0 <= a < |init| && init[a] == before[i];
          assert names[a] == changed[i] && names[last] == changed[j];
        }
      }
    }
  }

  // ----- The diff -----

  /** The code the renderer calls: the serializer, the text differ, the regex redaction of raw
      text, and the sort. */
  datatype Deps = Deps(
    serialize: JsValue -> string, diff: (string, string) -> string, redactRaw: string -> string,
    sorted: set<string> -> seq<string>)

  datatype DiffInput = DiffInput(document: Option<JsValue>, displayText: string)

  /** `parseConfigTextForDiffDisplay`. */
  function DiffInputOf(rawText: string, deps: Deps): DiffInput {
    if rawText == "" then DiffInput(None, "")
    else
      match JsonBounds.Parsed(rawText, JsonBounds.Options(None, None, Some(MAX_CONFIG_FILE_BYTES)))
      case Err(_) => DiffInput(None, deps.redactRaw(rawText))
      case Ok(v) =>
        if v.Obj? then DiffInput(Some(v), deps.serialize(Redacted(v))) else DiffInput(None, deps.redactRaw(rawText))
  }

  const KEY_CHANGES_TITLE := "# Redacted inline api_key changes:"
  const NO_CHANGES := "No config changes.\n"
  const NO_NON_SECRET_CHANGES := "No non-secret config changes after redacting inline api_key values.\n"
  const REWRITE_ONLY :=
    "No displayable config changes after redacting inline api_key values; import would still rewrite config text.\n"

  function Lines(descriptions: seq<string>): string {
    if descriptions == [] then "" else "\n# - " + descriptions[0] + Lines(descriptions[1..])
  }

  /** `renderRedactedConfigImportDiff`. */
  method RenderRedactedConfigImportDiff(currentText: string, next: JsValue, changed: bool, deps: Deps)
    returns (r: string)
    ensures r == Rendered(DiffInputOf(currentText, deps), next, changed, deps)
  {
    var current := DiffInputOf(currentText, deps);
    var redactedNext := SanitizeConfigDocumentForDisplay(next);
    var descriptions := [];
    if current.document.Some? {
      descriptions := DescribeInlineApiKeyChanges(current.document.value, next, deps.sorted);
    }
    var diffText := deps.diff(current.displayText, deps.serialize(redactedNext));
    if diffText == NO_CHANGES {
      diffText := if |descriptions| > 0 then NO_NON_SECRET_CHANGES else if changed then REWRITE_ONLY else diffText;
    }
    if descriptions == [] {
      return diffText;
    }
    return TrimEnd(diffText) + "\n\n" + KEY_CHANGES_TITLE + Lines(descriptions) + "\n";
  }

  function Rendered(current: DiffInput, next: JsValue, changed: bool, deps: Deps): string {
    var descriptions := if current.document.None? then [] else
      Descriptions(current.document.value, next,
                   deps.sorted(ProviderNames(current.document.value) + ProviderNames(next)));
    var plain := deps.diff(current.displayText, deps.serialize(Redacted(next)));
    var diffText := if plain != NO_CHANGES then plain
      else if descriptions != [] then NO_NON_SECRET_CHANGES
      else if changed then REWRITE_ONLY else plain;
    if descriptions == [] then diffText
    else TrimEnd(diffText) + "\n\n" + KEY_CHANGES_TITLE + Lines(descriptions) + "\n"
  }

  lemma {:induction false} LinesJoin(head: seq<string>, descriptions: seq<string>)
    requires head != []
    ensures var lines := seq(|descriptions|, i requires 0 <= i < |descriptions| => "# - " + descriptions[i]);
      LogLines.JoinLines(head + lines) == LogLines.JoinLines(head) + Lines(descriptions)
    decreases |descriptions|
  {
    var lines := seq(|descriptions|, i requires 0 <= i < |descriptions| => "# - " + descriptions[i]);
    if descriptions == [] {
      assert head + lines == head;
    } else {
      var more := head + ["# - " + descriptions[0]];
      var rest := descriptions[1..];
      LinesJoin(more, rest);
      assert head + lines == more + seq(|rest|, i requires 0 <= i < |rest| => "# - " + rest[i]);
      JoinOneMore(head, "# - " + descriptions[0]);
      assert "\n" + ("# - " + descriptions[0]) == "\n# - " + descriptions[0];
      assert LogLines.JoinLines(head) + ("\n" + ("# - " + descriptions[0])) + Lines(rest)
          == LogLines.JoinLines(head) + ("\n# - " + descriptions[0] + Lines(rest));
    }
  }

  lemma {:induction false} JoinOneMore(head: seq<string>, line: string)
    requires head != []
    ensures LogLines.JoinLines(head + [line]) == LogLines.JoinLines(head) + ("\n" + line)
    decreases |head|
  {
    if |head| == 1 {
      assert head + [line] == [head[0], line] && [head[0], line][1..] == [line];
    } else {
      assert (head + [line])[1..] == head[1..] + [line];
      JoinOneMore(head[1..], line);
    }
  }

  /** The sort keeps what it sorts, each name once. */
  ghost predicate KeepsNames(sorted: set<string> -> seq<string>) {
    && (forall S :: (set name | name in sorted(S)) == S)
    && (forall S, i, j :: 0 <= i < j < |sorted(S)| ==> sorted(S)[i] != sorted(S)[j])
  }

  /** The text that stands for the current config: nothing for an empty text, the redacted document
      for an object, and the redacted raw text for anything else. */
  function ShownCurrent(rawText: string, deps: Deps): string {
    var parsed := JsonBounds.Parsed(rawText, JsonBounds.Options(None, None, Some(MAX_CONFIG_FILE_BYTES)));
    if rawText == "" then ""
    else if parsed.Ok? && parsed.value.Obj? then deps.serialize(Redacted(parsed.value))
    else deps.redactRaw(rawText)
  }

  /** The text with changed keys: the diff, or the notice that only keys changed, and one line for
      each of the names. */
  function WithChanges(plain: string, current: JsValue, next: JsValue, names: seq<string>): string {
    LogLines.JoinLines([TrimEnd(if plain == "No config changes.\n" then NO_NON_SECRET_CHANGES else plain),
                        "", KEY_CHANGES_TITLE] + ChangeLines(current, next, names)) + "\n"
  }

  ghost predicate SomeKeyDiffers(current: JsValue, next: JsValue) {
    exists name :: InlineProviderApiKey(current, name) != InlineProviderApiKey(next, name)
  }

  lemma ChangesShown(c: DiffInput, next: JsValue, changed: bool, deps: Deps)
    requires KeepsNames(deps.sorted) && c.document.Some? && SomeKeyDiffers(c.document.value, next)
    ensures exists names ::
      && ListsChanges(c.document.value, next, deps, names)
      && Rendered(c, next, changed, deps)
         == WithChanges(deps.diff(c.displayText, deps.serialize(Redacted(next))), c.document.value, next, names)
  {
    var current := c.document.value;
    ChangedSomewhere(current, next, deps);
    hide Redacted, InlineProviderApiKey, ProviderNames, TrimEnd, KeepsNames, ListsChanges, Lines, Descriptions;
    hide SomeKeyDiffers, ChangedNames, ChangeText, LogLines.JoinLines;
    var sorted := deps.sorted(ProviderNames(current) + ProviderNames(next));
    var names, all := ChangedNames(current, next, sorted), Descriptions(current, next, sorted);
    ChangesListed(current, next, deps);
    DescriptionsInOrder(current, next, sorted);
    assert ChangeLines(current, next, names) == seq(|all|, i requires 0 <= i < |all| => "# - " + all[i]);
    var plain := deps.diff(c.displayText, deps.serialize(Redacted(next)));
    var shown := TrimEnd(if plain == NO_CHANGES then NO_NON_SECRET_CHANGES else plain);
    LinesJoin([shown, "", KEY_CHANGES_TITLE], all);
    HeadJoins(shown, KEY_CHANGES_TITLE);
    assert WithChanges(plain, current, next, names)
        == shown + "\n\n" + KEY_CHANGES_TITLE + Lines(all) + "\n";
  }

  lemma DiffAloneShown(c: DiffInput, next: JsValue, changed: bool, deps: Deps)
    requires KeepsNames(deps.sorted) && (c.document.Some? ==> !SomeKeyDiffers(c.document.value, next))
    ensures var plain := deps.diff(c.displayText, deps.serialize(Redacted(next)));
      Rendered(c, next, changed, deps) == if plain == "No config changes.\n" && changed then REWRITE_ONLY else plain
  {
    hide Redacted, InlineProviderApiKey, ProviderNames, TrimEnd, KeepsNames, ListsChanges, Lines;
    if c.document.Some? {
      ChangedSomewhere(c.document.value, next, deps);
      DescriptionsInOrder(c.document.value, next, deps.sorted(ProviderNames(c.document.value) + ProviderNames(next)));
      hide Descriptions, ChangedNames;
    }
  }

  /** What an import shows. The current config, as it is shown, is compared with the redacted next
      document. If no key changed, or the current config is no document, the text is that diff, or
      a notice when there is nothing to show. Otherwise the diff, or its notice, is followed by one
      line for each provider whose key changed, in the order of the sort, and nothing else. */
  lemma DiffShows(text: string, next: JsValue, changed: bool, deps: Deps)
    requires KeepsNames(deps.sorted)
    ensures var c := DiffInputOf(text, deps);
      var plain := deps.diff(ShownCurrent(text, deps), deps.serialize(Redacted(next)));
      if c.document.Some? && SomeKeyDiffers(c.document.value, next) then
        exists names ::
          && ListsChanges(c.document.value, next, deps, names)
          && Rendered(c, next, changed, deps) == WithChanges(plain, c.document.value, next, names)
      else
        Rendered(c, next, changed, deps) == if plain == "No config changes.\n" && changed then REWRITE_ONLY else plain
  {
    hide DiffInputOf, Rendered, WithChanges, ListsChanges, SomeKeyDiffers, Redacted, KeepsNames, ShownCurrent;
    var c := DiffInputOf(text, deps);
    ShownIsDisplayed(text, deps);
    if c.document.Some? && SomeKeyDiffers(c.document.value, next) {
      ChangesShown(c, next, changed, deps);
    } else {
      DiffAloneShown(c, next, changed, deps);
    }
  }

  /** The lines about the providers of a list. */
  function ChangeLines(current: JsValue, next: JsValue, names: seq<string>): seq<string> {
    seq(|names|, i requires 0 <= i < |names| => "# - " + ChangeText(current, next, names[i]))
  }

  /** The list has exactly the names whose key differs, each once and in the order of the sort. */
  ghost predicate ListsChanges(current: JsValue, next: JsValue, deps: Deps, names: seq<string>) {
    var all := deps.sorted(ProviderNames(current) + ProviderNames(next));
    && (forall name :: name in names <==> InlineProviderApiKey(current, name) != InlineProviderApiKey(next, name))
    && (forall i, j :: 0 <= i < j < |names| ==> names[i] != names[j] && Precedes(all, names[i], names[j]))
  }

  lemma ChangesListed(current: JsValue, next: JsValue, deps: Deps)
    requires KeepsNames(deps.sorted)
    ensures var all := deps.sorted(ProviderNames(current) + ProviderNames(next));
      ListsChanges(current, next, deps, ChangedNames(current, next, all))
  {
    hide ChangedNames, InlineProviderApiKey, ProviderNames;
    var union := ProviderNames(current) + ProviderNames(next);
    var all := deps.sorted(union);
    ChangedNamesFacts(current, next, all);
    var names := ChangedNames(current, next, all);
    forall name ensures name in names <==> InlineProviderApiKey(current, name) != InlineProviderApiKey(next, name) {
      KeyHasProvider(current, name);
      KeyHasProvider(next, name);
      assert name in union <==> name in (set n | n in deps.sorted(union));
    }
    forall i, j | 0 <= i < j < |names| ensures names[i] != names[j] {
      assert Precedes(all, names[i], names[j]);
    }
  }

  lemma ChangedSomewhere(current: JsValue, next: JsValue, deps: Deps)
    requires KeepsNames(deps.sorted)
    ensures var names := ChangedNames(current, next, deps.sorted(ProviderNames(current) + ProviderNames(next)));
      names != [] <==> SomeKeyDiffers(current, next)
  {
    hide ChangedNames, InlineProviderApiKey, ProviderNames, KeepsNames;
    ChangesListed(current, next, deps);
    var names := ChangedNames(current, next, deps.sorted(ProviderNames(current) + ProviderNames(next)));
    if names != [] {
      assert names[0] in names;
    }
  }

  lemma JoinThree(a: string, b: string, c: string)
    ensures LogLines.JoinLines([a, b, c]) == a + "\n" + (b + "\n" + c)
  {
    assert [a, b, c][1..] == [b, c] && [b, c][1..] == [c];
    assert LogLines.JoinLines([b, c]) == b + "\n" + LogLines.JoinLines([c]) && LogLines.JoinLines([c]) == c;
  }

  lemma HeadJoins(shown: string, title: string)
    ensures LogLines.JoinLines([shown, "", title]) == shown + "\n\n" + title
  {
    JoinThree(shown, "", title);
    assert "" + "\n" + title == "\n" + title;
    assert shown + "\n" + ("\n" + title) == shown + ("\n" + "\n") + title;
    assert "\n" + "\n" == "\n\n";
  }

  lemma ShownIsDisplayed(text: string, deps: Deps)
    ensures DiffInputOf(text, deps).displayText == ShownCurrent(text, deps)
    ensures DiffInputOf(text, deps).document.Some? ==>
      text != "" && JsonBounds.Parsed(text, JsonBounds.Options(None, None, Some(MAX_CONFIG_FILE_BYTES)))
                 == Ok(DiffInputOf(text, deps).document.value)
  {
  }

  lemma {:induction false} SameDescriptions(
    current: JsValue, next: JsValue, current': JsValue, next': JsValue, names: seq<string>)
    requires forall name :: ChangeOf(current, next, name) == ChangeOf(current', next', name)
    ensures Descriptions(current, next, names) == Descriptions(current', next', names)
  {
    if names != [] {
      SameDescriptions(current, next, current', next', names[..|names| - 1]);
    }
  }

  lemma DisplayIsRedacted(rawText: string, deps: Deps)
    ensures var c := DiffInputOf(rawText, deps);
      c.document.Some? ==> c.displayText == deps.serialize(Redacted(c.document.value))
  {
  }

  /** What the diff may depend on: two imports whose documents agree after redaction, and in
      which each provider's key was added, removed or changed in the one when it was so in the
      other, show the same text. The keys themselves have no influence. A current text that is no
      JSON object acts only through what the raw-text redaction leaves of it. */
  lemma DiffNonInterference(text: string, next: JsValue, text': string, next': JsValue, changed: bool, deps: Deps)
    requires var c, c' := DiffInputOf(text, deps), DiffInputOf(text', deps);
      && Redacted(next) == Redacted(next')
      && (c.document.None? ==> c' == c)
      && (c.document.Some? ==>
            && c'.document.Some? && Redacted(c.document.value) == Redacted(c'.document.value)
            && forall name :: ChangeOf(c.document.value, next, name) == ChangeOf(c'.document.value, next', name))
    ensures Rendered(DiffInputOf(text, deps), next, changed, deps) ==
      Rendered(DiffInputOf(text', deps), next', changed, deps)
  {
    hide DiffInputOf, Redacted, Descriptions, ProviderNames, ChangeOf, Lines, TrimEnd;
    var c, c' := DiffInputOf(text, deps), DiffInputOf(text', deps);
    if c.document.None? {
      return;
    }
    var d, d' := c.document.value, c'.document.value;
    DisplayIsRedacted(text, deps);
    DisplayIsRedacted(text', deps);
    RedactedNames(d);
    RedactedNames(d');
    RedactedNames(next);
    RedactedNames(next');
    var names := deps.sorted(ProviderNames(d) + ProviderNames(next));
    SameDescriptions(d, next, d', next', names);
    assert names == deps.sorted(ProviderNames(d') + ProviderNames(next'));
  }
}
