/** JavaScript values that are built from JSON, and the measures the platform code takes of them. */
module JsValues {
  import opened Prelude

  /** A number is represented by its JSON token. An object is given by what `Object.keys` and
      `Object.values` list. `Opaque` stands for everything that JSON does not know: undefined,
      functions, symbols, big integers and instances of classes. */
  datatype JsValue =
    | Null
    | Bool(b: bool)
    | Num(token: string)
    | Str(text: string)
    | Arr(items: seq<JsValue>)
    | Obj(keys: seq<string>, values: seq<JsValue>)
    | Opaque

  ghost predicate Distinct(keys: seq<string>) {
    forall i, j :: 0 <= i < j < |keys| ==> keys[i] != keys[j]
  }

  /** The first position of `key`. */
  function IndexOf(keys: seq<string>, key: string): (i: nat)
    requires key in keys
    ensures i < |keys| && keys[i] == key
  {
    if keys[0] == key then 0 else 1 + IndexOf(keys[1..], key)
  }

  /** `record[key]` for a value that is a record, else undefined. */
  function Field(v: JsValue, key: string): Option<JsValue> {
    if v.Obj? && key in v.keys && IndexOf(v.keys, key) < |v.values| then Some(v.values[IndexOf(v.keys, key)]) else None
  }

  /** `record[key] = value` for a key that the record has. */
  function WithField(v: JsValue, key: string, value: JsValue): JsValue
    requires Field(v, key).Some?
  {
    v.(values := v.values[IndexOf(v.keys, key) := value])
  }

  lemma WithFieldFacts(v: JsValue, key: string, value: JsValue)
    requires Field(v, key).Some?
    ensures Field(WithField(v, key, value), key) == Some(value)
    ensures WithField(WithField(v, key, value), key, Field(v, key).value) == v
    ensures forall other: JsValue :: WithField(WithField(v, key, value), key, other) == WithField(v, key, other)
    ensures WithField(v, key, value) == v <==> value == Field(v, key).value
  {
  }

  /** `Array.isArray(v) ? v : Object.values(v)`, and nothing for a value that is not an object. */
  function Children(v: JsValue): seq<JsValue> {
    match v
    case Arr(items) => items
    case Obj(_, values) => values
    case _ => []
  }

  /** No object anywhere in the value has a key twice. */
  ghost predicate DistinctKeys(v: JsValue)
    decreases v, 1
  {
    match v
    case Arr(items) => AllDistinctKeys(items)
    case Obj(keys, values) => Distinct(keys) && AllDistinctKeys(values)
    case _ => true
  }

  ghost predicate AllDistinctKeys(vs: seq<JsValue>)
    decreases vs, 0
  {
    vs == [] || (DistinctKeys(vs[0]) && AllDistinctKeys(vs[1..]))
  }

  /** How deep arrays and objects are nested in the value. */
  function Nesting(v: JsValue): nat
    decreases v, 1
  {
    match v
    case Arr(items) => 1 + MaxNesting(items)
    case Obj(_, values) => 1 + MaxNesting(values)
    case _ => 0
  }

  function MaxNesting(vs: seq<JsValue>): nat
    decreases vs, 0
  {
    if vs == [] then 0 else Max(Nesting(vs[0]), MaxNesting(vs[1..]))
  }

  /** The number of levels of the value as a tree; a value that is not an object has one. */
  function Height(v: JsValue): nat
    decreases v, 1
  {
    match v
    case Arr(items) => 1 + MaxHeight(items)
    case Obj(_, values) => 1 + MaxHeight(values)
    case _ => 1
  }

  function MaxHeight(vs: seq<JsValue>): nat
    decreases vs, 0
  {
    if vs == [] then 0 else Max(Height(vs[0]), MaxHeight(vs[1..]))
  }

  function NodeCount(v: JsValue): nat
    decreases v, 1
  {
    match v
    case Arr(items) => 1 + TotalNodes(items)
    case Obj(_, values) => 1 + TotalNodes(values)
    case _ => 1
  }

  function TotalNodes(vs: seq<JsValue>): nat
    decreases vs, 0
  {
    if vs == [] then 0 else NodeCount(vs[0]) + TotalNodes(vs[1..])
  }

  /** Containers nest at most as deep as the tree is high, and at least one level less. */
  lemma {:induction false} NestingVersusHeight(v: JsValue)
    ensures Nesting(v) <= Height(v) <= Nesting(v) + 1
    decreases v, 1
  {
    match v
    case Arr(items) => MaxNestingVersusHeight(items);
    case Obj(_, values) => MaxNestingVersusHeight(values);
    case _ =>
  }

  lemma {:induction false} MaxNestingVersusHeight(vs: seq<JsValue>)
    ensures MaxNesting(vs) <= MaxHeight(vs) <= MaxNesting(vs) + 1
    decreases vs, 0
  {
    if vs != [] {
      NestingVersusHeight(vs[0]);
      MaxNestingVersusHeight(vs[1..]);
    }
  }
}
