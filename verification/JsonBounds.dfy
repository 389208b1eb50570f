/** Parsing and printing of JSON within bounds. */
module JsonBounds {
  import opened Prelude
  import opened JsValues
  import opened JsonText
  import opened JsonScanner
  import opened Utf8
  import opened JsonSyntax
  import JsonRoundTrip
  import JsonGrammar
  import BoundedWalk

  const HARD_MAX_JSON_NODE_COUNT: nat := 16_000
  const HARD_MAX_JSON_DEPTH: nat := 256
  const HARD_MAX_JSON_SERIALIZED_BYTES: nat := 8 * 1024 * 1024

  datatype Options = Options(maxNodeCount: Option<nat>, maxDepth: Option<nat>, maxSerializedBytes: Option<nat>) {
    function MaxNodeCount(): nat { maxNodeCount.GetOr(HARD_MAX_JSON_NODE_COUNT) }
    function MaxDepth(): nat { maxDepth.GetOr(HARD_MAX_JSON_DEPTH) }
    function MaxSerializedBytes(): nat { maxSerializedBytes.GetOr(HARD_MAX_JSON_SERIALIZED_BYTES) }
  }

  /** The limits that hold without options, and those that options set. */
  lemma Limits(nodes: nat, depth: nat, bytes: nat)
    ensures var none, all := Options(None, None, None), Options(Some(nodes), Some(depth), Some(bytes));
      && none.MaxNodeCount() == 16_000 && none.MaxDepth() == 256 && none.MaxSerializedBytes() == 8_388_608
      && all.MaxNodeCount() == nodes && all.MaxDepth() == depth && all.MaxSerializedBytes() == bytes
  {
  }

  datatype Error = StructureTooLarge | SerializedTooLarge | SyntaxError

  // ----- The walk on JSON values -----

  predicate WithinBounds(v: JsValue, options: Options) {
    NodeCount(v) <= options.MaxNodeCount() && Height(v) <= options.MaxDepth()
  }

  /** On a JSON value the walk's unfolding is the value itself. */
  lemma {:induction false} UnfoldingOfValue(v: JsValue, depth: nat)
    ensures BoundedWalk.WithinDepth(Children, v, depth) <==> Height(v) <= depth
    ensures Height(v) <= depth ==> BoundedWalk.Count(Children, v, depth) == NodeCount(v)
    decreases v, 1
  {
    if depth > 0 {
      match v
      case Arr(items) => UnfoldingOfValues(items, depth - 1);
      case Obj(_, values) => UnfoldingOfValues(values, depth - 1);
      case _ =>
    }
  }

  lemma {:induction false} UnfoldingOfValues(vs: seq<JsValue>, depth: nat)
    ensures BoundedWalk.AllWithinDepth(Children, vs, depth) <==> MaxHeight(vs) <= depth
    ensures MaxHeight(vs) <= depth ==> BoundedWalk.CountAll(Children, vs, depth) == TotalNodes(vs)
    decreases vs, 0
  {
    if vs != [] {
      UnfoldingOfValue(vs[0], depth);
      UnfoldingOfValues(vs[1..], depth);
    }
  }

  /** `assertJsonValueWithinBounds` on a JSON value throws exactly when the value has too many
      nodes or too many levels. */
  method AssertJsonValueWithinBounds(v: JsValue, options: Options) returns (ok: bool)
    ensures ok <==> WithinBounds(v, options)
  {
    ghost var pops;
    ok, pops := BoundedWalk.Walk(v, Children, options.MaxNodeCount(), options.MaxDepth());
    UnfoldingOfValue(v, options.MaxDepth());
  }

  // ----- Duplicate keys -----

  /** The members of an object after assigning them one by one: a repeated key keeps its first
      place and takes its last value. */
  function Assigned(keys: seq<string>, values: seq<JsValue>): (r: (seq<string>, seq<JsValue>))
    requires |keys| == |values|
    ensures |r.0| == |r.1| && Distinct(r.0)
  {
    if keys == [] then ([], [])
    else
      var last := |keys| - 1;
      var before := Assigned(keys[..last], values[..last]);
      if keys[last] in before.0 then (before.0, before.1[IndexOf(before.0, keys[last]) := values[last]])
      else (before.0 + [keys[last]], before.1 + [values[last]])
  }

  /** The last value of a key wins, and no key is lost or added. */
  lemma {:induction false} AssignedLast(keys: seq<string>, values: seq<JsValue>, i: nat)
    requires |keys| == |values| && i < |keys| && keys[i] !in keys[i + 1..]
    ensures var r := Assigned(keys, values);
      keys[i] in r.0 && r.1[IndexOf(r.0, keys[i])] == values[i] && forall key :: key in r.0 <==> key in keys
    decreases |keys|
  {
    var last := |keys| - 1;
    var before := Assigned(keys[..last], values[..last]);
    AssignedKeys(keys, values);
    AssignedKeys(keys[..last], values[..last]);
    if i < last {
      assert keys[last] == keys[i + 1..][last - i - 1];
      assert keys[..last][i + 1..] == keys[i + 1..][..last - i - 1];
      AssignedLast(keys[..last], values[..last], i);
    }
    var r := Assigned(keys, values);
    IndexIsUnique(r.0, keys[i], IndexOf(r.0, keys[i]));
    if i < last {
      IndexIsUnique(r.0, keys[i], IndexOf(before.0, keys[i]));
    } else if keys[last] !in before.0 {
      IndexIsUnique(r.0, keys[i], |before.0|);
    }
  }

  lemma IndexIsUnique(keys: seq<string>, key: string, i: nat)
    requires Distinct(keys) && i < |keys| && keys[i] == key
    ensures key in keys && IndexOf(keys, key) == i
  {
  }

  lemma {:induction false} AssignedKeys(keys: seq<string>, values: seq<JsValue>)
    requires |keys| == |values|
    ensures forall key :: key in Assigned(keys, values).0 <==> key in keys
    decreases |keys|
  {
    if keys != [] {
      var last := |keys| - 1;
      AssignedKeys(keys[..last], values[..last]);
      assert keys == keys[..last] + [keys[last]];
    }
  }

  /** The value that `JSON.parse` builds from the members as written. */
  function Built(v: JsValue): JsValue
    decreases v, 1
  {
    match v
    case Arr(items) => Arr(BuiltAll(items))
    case Obj(keys, values) =>
      var built := BuiltAll(values);
      if |keys| != |values| then Obj(keys, built)
      else Obj(Assigned(keys, built).0, Assigned(keys, built).1)
    case _ => v
  }

  function BuiltAll(vs: seq<JsValue>): (r: seq<JsValue>)
    ensures |r| == |vs|
    decreases vs, 0
  {
    if vs == [] then [] else [Built(vs[0])] + BuiltAll(vs[1..])
  }

  lemma AssignedNew(keys: seq<string>, values: seq<JsValue>)
    requires |keys| == |values| > 0
    requires var last := |keys| - 1; keys[last] !in Assigned(keys[..last], values[..last]).0
    ensures var last := |keys| - 1;
      var before := Assigned(keys[..last], values[..last]);
      Assigned(keys, values) == (before.0 + [keys[last]], before.1 + [values[last]])
  {
  }

  lemma {:induction false} AssignedDistinct(keys: seq<string>, values: seq<JsValue>)
    requires |keys| == |values| && Distinct(keys)
    ensures Assigned(keys, values) == (keys, values)
    decreases |keys|
  {
    hide IndexOf;
    if keys != [] {
      var last := |keys| - 1;
      var ks, vs := keys[..last], values[..last];
      assert Distinct(ks);
      AssignedDistinct(ks, vs);
      assert keys[last] !in ks;
      AssignedNew(keys, values);
      assert keys == ks + [keys[last]] && values == vs + [values[last]];
    }
  }

  /** Without repeated keys the built value is the one that was written. */
  lemma {:induction false} BuiltDistinct(v: JsValue)
    requires DistinctKeys(v)
    ensures Built(v) == v
    decreases v, 1
  {
    match v
    case Arr(items) => BuiltAllDistinct(items);
    case Obj(keys, values) =>
      BuiltAllDistinct(values);
      if |keys| == |values| {
        AssignedDistinct(keys, values);
      }
    case _ =>
  }

  lemma {:induction false} BuiltAllDistinct(vs: seq<JsValue>)
    requires AllDistinctKeys(vs)
    ensures BuiltAll(vs) == vs
    decreases vs, 0
  {
    if vs != [] {
      BuiltDistinct(vs[0]);
      BuiltAllDistinct(vs[1..]);
    }
  }

  // ----- Printing and parsing within bounds -----

  /** `Buffer.byteLength(s, "utf8")`. */
  function ByteLength(s: string): nat {
    |EncodeAll(s)|
  }

  /** The characters of a text from a code on. */
  function CountFrom(s: string, code: nat): nat {
    if s == "" then 0 else (if s[0] as int >= code then 1 else 0) + CountFrom(s[1..], code)
  }

  /** A byte per character, and one more from each of the codes 0x80, 0x800 and 0x10000 on. */
  lemma {:induction false} ByteLengthCounts(s: string)
    ensures ByteLength(s) == |s| + CountFrom(s, 0x80) + CountFrom(s, 0x800) + CountFrom(s, 0x10000)
  {
    if s != "" {
      ByteLengthCounts(s[1..]);
    }
  }

  function Stringified(v: JsValue, options: Options): Result<string, Error> {
    if !WithinBounds(v, options) then Err(StructureTooLarge)
    else if ByteLength(Print(v)) > options.MaxSerializedBytes() then Err(SerializedTooLarge)
    else Ok(Print(v))
  }

  function Parsed(rawText: string, options: Options): Result<JsValue, Error> {
    if ByteLength(rawText) > options.MaxSerializedBytes() then Err(SerializedTooLarge)
    else if Scan(START, rawText).peak > options.MaxDepth() then Err(StructureTooLarge)
    else
      match ParseDocument(rawText)
      case None => Err(SyntaxError)
      case Some(tree) => if WithinBounds(Built(tree), options) then Ok(Built(tree)) else Err(StructureTooLarge)
  }

  method SafeJsonStringifyWithinBounds(v: JsValue, options: Options) returns (r: Result<string, Error>)
    ensures r == Stringified(v, options)
  {
    var ok := AssertJsonValueWithinBounds(v, options);
    if !ok {
      return Err(StructureTooLarge);
    }
    var serialized := Print(v);
    if ByteLength(serialized) > options.MaxSerializedBytes() {
      return Err(SerializedTooLarge);
    }
    return Ok(serialized);
  }

  method ParseJsonWithinBounds(rawText: string, options: Options) returns (r: Result<JsValue, Error>)
    ensures r == Parsed(rawText, options)
  {
    if ByteLength(rawText) > options.MaxSerializedBytes() {
      return Err(SerializedTooLarge);
    }
    var nestingOk := AssertRawJsonNestingWithinBounds(rawText, options.MaxDepth());
    if !nestingOk {
      return Err(StructureTooLarge);
    }
    var tree := ParseDocument(rawText);
    if tree.None? {
      return Err(SyntaxError);
    }
    var parsed := Built(tree.value);
    var ok := AssertJsonValueWithinBounds(parsed, options);
    return if ok then Ok(parsed) else Err(StructureTooLarge);
  }

  /** The scanner on the text of any syntax tree: it ends outside strings at depth 0, and its peak is
      the container nesting of the tree. */
  lemma ScannerMeasuresText(tree: Tree)
    requires ValidTree(tree)
    ensures Scan(START, TreeText(tree)) == ScanState(0, false, false, Nesting(TreeValue(tree)))
  {
    hide Scan, ParseDocument, TreeText, TreeValue, ValidTree;
    JsonRoundTrip.DocumentParses(tree);
    ScanDocument(TreeText(tree));
  }

  /** Exactly when a text is accepted, and what it gives: it is short enough, it is JSON, its
      containers as written nest within the limit, and the value built from it is within bounds. */
  lemma ParseAcceptsExactly(rawText: string, options: Options, v: JsValue)
    ensures Parsed(rawText, options) == Ok(v) <==>
      && ByteLength(rawText) <= options.MaxSerializedBytes()
      && WithinBounds(v, options)
      && exists written ::
           JsonGrammar.SpellsJson(rawText, written) && v == Built(written) && Nesting(written) <= options.MaxDepth()
  {
    hide ParseDocument, Scan, JsonGrammar.SpellsJson, ByteLength, WithinBounds, Nesting;
    forall written ensures JsonGrammar.SpellsJson(rawText, written) <==> ParseDocument(rawText) == Some(written) {
      JsonGrammar.AcceptsExactlyJson(rawText, written);
    }
    if ParseDocument(rawText).Some? {
      ScanDocument(rawText);
    }
  }

  /** Which error a text is rejected with: too large comes first, then a stretch that opens too many
      brackets, then a text that is no JSON, then a value that is out of bounds. */
  lemma ParseErrors(rawText: string, options: Options)
    ensures var r := Parsed(rawText, options);
      && (r == Err(SerializedTooLarge) <==> ByteLength(rawText) > options.MaxSerializedBytes())
      && (r == Err(SyntaxError) <==>
            && ByteLength(rawText) <= options.MaxSerializedBytes() && !OpensBeyond(rawText, options.MaxDepth())
            && forall written :: !JsonGrammar.SpellsJson(rawText, written))
      && (r == Err(StructureTooLarge) <==>
            && ByteLength(rawText) <= options.MaxSerializedBytes()
            && (OpensBeyond(rawText, options.MaxDepth()) ||
                exists written :: JsonGrammar.SpellsJson(rawText, written) && !WithinBounds(Built(written), options)))
  {
    hide ParseDocument, Scan, JsonGrammar.SpellsJson, ByteLength, WithinBounds, OpensBeyond, Built;
    ScannerRejectsExactly(rawText, options.MaxDepth());
    forall written ensures JsonGrammar.SpellsJson(rawText, written) <==> ParseDocument(rawText) == Some(written) {
      JsonGrammar.AcceptsExactlyJson(rawText, written);
    }
  }

  /** For a text without repeated keys the scanner adds nothing: it never rejects a text whose
      value the walk accepts. */
  lemma ScannerNeverOverrejects(rawText: string, options: Options)
    requires ParseDocument(rawText).Some? && DistinctKeys(ParseDocument(rawText).value)
    ensures var v := ParseDocument(rawText).value;
      && (WithinBounds(v, options) ==> Scan(START, rawText).peak <= options.MaxDepth())
      && (Parsed(rawText, options) == Ok(v) <==>
            ByteLength(rawText) <= options.MaxSerializedBytes() && WithinBounds(v, options))
  {
    var v := ParseDocument(rawText).value;
    ScanDocument(rawText);
    BuiltDistinct(v);
    NestingVersusHeight(v);
  }

  /** An object as written with the key "a" twice, nesting three deep under the first. */
  const REPEATED_KEY := Obj(["a", "a"], [Arr([Arr([])]), Null])

  lemma RepeatedKeyBuilt()
    ensures Built(REPEATED_KEY) == Obj(["a"], [Null])
  {
    hide Built;
    var inner, values := Arr([Arr([])]), [Arr([Arr([])]), Null];
    assert values[1..] == [Null] && BuiltAll([Null]) == [Null] by { BuiltNull(); }
    var built := BuiltAll(values);
    assert built == [Built(inner), Null];
    assert ["a", "a"][..1] == ["a"] && built[..1] == [Built(inner)];
    AssignedDistinct(["a"], [Built(inner)]);
    assert IndexOf(["a"], "a") == 0 && [Built(inner)][0 := Null] == [Null];
    assert Assigned(["a", "a"], built) == (["a"], [Null]);
    BuiltObject(["a", "a"], values);
  }

  lemma BuiltNull()
    ensures Built(Null) == Null
  {
  }

  lemma BuiltObject(keys: seq<string>, values: seq<JsValue>)
    requires |keys| == |values|
    ensures Built(Obj(keys, values)) == Obj(Assigned(keys, BuiltAll(values)).0, Assigned(keys, BuiltAll(values)).1)
  {
  }

  lemma RepeatedKeyMeasures()
    ensures IsJson(REPEATED_KEY) && Nesting(REPEATED_KEY) == 3
  {
    var values := [Arr([Arr([])]), Null];
    assert values[1..] == [Null];
    assert AllJson([Arr([])]) && MaxNesting([Arr([])]) == 1;
    assert IsJson(values[0]) && Nesting(values[0]) == 2;
    assert AllJson(values) && MaxNesting(values) == 2;
  }

  lemma OneMemberWithin(options: Options)
    requires options.MaxDepth() == 2 && options.MaxNodeCount() == 2
    ensures WithinBounds(Obj(["a"], [Null]), options)
  {
    assert [Null][1..] == [];
  }

  /** With a repeated key it can: this text nests three deep and is rejected under a depth limit
      of two, but the value that it builds is an object with one null member. */
  lemma RepeatedKeyOverrejected()
    ensures ParseDocument(Print(REPEATED_KEY)) == Some(REPEATED_KEY)
    ensures var options := Options(Some(2), Some(2), Some(ByteLength(Print(REPEATED_KEY))));
      WithinBounds(Built(REPEATED_KEY), options) && Parsed(Print(REPEATED_KEY), options) == Err(StructureTooLarge)
  {
    hide Print, ParseDocument, Scan, ByteLength, WithinBounds, Built, Nesting, IsJson;
    RepeatedKeyMeasures();
    RepeatedKeyBuilt();
    OneMemberWithin(Options(Some(2), Some(2), Some(ByteLength(Print(REPEATED_KEY)))));
    JsonGrammar.DocumentRoundTrip(REPEATED_KEY);
    ScanDocument(Print(REPEATED_KEY));
  }

  /** What was printed within bounds is accepted under the same options and gives the value back. */
  lemma StringifyThenParse(v: JsValue, options: Options)
    requires IsJson(v) && DistinctKeys(v)
    ensures Stringified(v, options).Ok? ==> Parsed(Stringified(v, options).value, options) == Ok(v)
    ensures Stringified(v, options).Ok? <==> Parsed(Print(v), options) == Ok(v)
  {
    JsonGrammar.DocumentRoundTrip(v);
    ScannerNeverOverrejects(Print(v), options);
  }
}
