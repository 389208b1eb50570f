/** The deep check for reserved object keys over an object graph that may share and may be cyclic. */
module ObjectKeyPolicy {
  import opened Prelude
  import opened NumberText

  /** A JavaScript value as the check sees it: something that is not an object, or a reference. */
  datatype Value = Primitive | Object(ref: nat)

  datatype Node = ArrayNode(items: seq<Value>) | RecordNode(entries: seq<(string, Value)>)

  type Heap = map<nat, Node>

  const RESERVED_KEYS: set<string> := {
    "constructor", "__defineGetter__", "__defineSetter__", "hasOwnProperty", "__lookupGetter__", "__lookupSetter__",
    "isPrototypeOf", "propertyIsEnumerable", "toString", "valueOf", "__proto__", "toLocaleString", "prototype"
  }

  predicate IsReservedObjectKey(key: string) {
    Trim(key) in RESERVED_KEYS
  }

  /** White space around a key does not hide it. */
  lemma ReservedWithPadding(pre: string, key: string, post: string)
    requires IsBlank(pre) && IsBlank(post)
    ensures IsReservedObjectKey(pre + key + post) <==> IsReservedObjectKey(key)
  {
    TrimPadding(pre, key, post);
  }

  /** The reserved names: the properties of `Object.prototype` and `prototype`. */
  lemma ReservedNames(key: string)
    ensures IsReservedObjectKey(key) <==>
      var name := Trim(key);
      || name == "constructor" || name == "__defineGetter__" || name == "__defineSetter__"
      || name == "hasOwnProperty" || name == "__lookupGetter__" || name == "__lookupSetter__"
      || name == "isPrototypeOf" || name == "propertyIsEnumerable" || name == "toString" || name == "valueOf"
      || name == "__proto__" || name == "toLocaleString" || name == "prototype"
  {
  }

  // ----- The graph -----

  function Children(n: Node): seq<Value> {
    match n
    case ArrayNode(items) => items
    case RecordNode(entries) => seq(|entries|, i requires 0 <= i < |entries| => entries[i].1)
  }

  /** Every reference leads to an object of the heap. */
  ghost predicate Closed(heap: Heap) {
    forall r, i :: r in heap && 0 <= i < |Children(heap[r])| && Children(heap[r])[i].Object? ==>
      Children(heap[r])[i].ref in heap
  }

  ghost predicate InHeap(heap: Heap, v: Value) {
    v.Object? ==> v.ref in heap
  }

  ghost predicate Clean(n: Node, reserved: string -> bool) {
    n.RecordNode? ==> forall i :: 0 <= i < |n.entries| ==> !reserved(n.entries[i].0)
  }

  /** The value that the child positions `route` lead to from `root`. */
  ghost function At(heap: Heap, root: Value, route: seq<nat>): Option<Value> {
    if route == [] then Some(root)
    else
      var last := |route| - 1;
      match At(heap, root, route[..last])
      case None => None
      case Some(v) =>
        if v.Object? && v.ref in heap && route[last] < |Children(heap[v.ref])| then
          Some(Children(heap[v.ref])[route[last]])
        else None
  }

  /** How the check writes the path along `route`, starting with "$". */
  ghost function PathText(heap: Heap, root: Value, route: seq<nat>): string
    requires At(heap, root, route).Some?
  {
    if route == [] then "$"
    else
      var last := |route| - 1;
      PathText(heap, root, route[..last]) + StepText(heap[At(heap, root, route[..last]).value.ref], route[last])
  }

  function StepText(n: Node, i: nat): string
    requires i < |Children(n)|
  {
    match n
    case ArrayNode(_) => "[" + Decimal(i) + "]"
    case RecordNode(entries) => "." + entries[i].0
  }

  ghost predicate Reachable(heap: Heap, root: Value, ref: nat) {
    exists route: seq<nat> :: At(heap, root, route) == Some(Object(ref))
  }

  /** `route` leads to an object whose entry number `i` has a reserved key, and `path` and `key`
      are what the error message says about it. */
  ghost predicate Reports(
    heap: Heap, reserved: string -> bool, root: Value, route: seq<nat>, i: nat, path: string, key: string)
  {
    && At(heap, root, route).Some? && At(heap, root, route).value.Object?
    && var ref := At(heap, root, route).value.ref;
    && ref in heap && heap[ref].RecordNode? && i < |heap[ref].entries|
    && heap[ref].entries[i].0 == key && reserved(key)
    && path == PathText(heap, root, route) + "." + key
  }

  lemma AtChild(heap: Heap, root: Value, route: seq<nat>, ref: nat, i: nat)
    requires At(heap, root, route) == Some(Object(ref)) && ref in heap && i < |Children(heap[ref])|
    ensures At(heap, root, route + [i]) == Some(Children(heap[ref])[i])
    ensures PathText(heap, root, route + [i]) == PathText(heap, root, route) + StepText(heap[ref], i)
  {
    assert (route + [i])[..|route|] == route;
  }

  // ----- The traversal -----

  datatype Violation = Violation(path: string, key: string)

  class KeyCheck {
    const heap: Heap
    const reserved: string -> bool
    var seen: set<nat>

    constructor (heap: Heap, reserved: string -> bool)
      ensures this.heap == heap && this.reserved == reserved && seen == {}
    {
      this.heap := heap;
      this.reserved := reserved;
      seen := {};
    }

    /** A seen object that is not on the recursion stack is clean and all its children are seen. */
    ghost predicate Finished(stack: set<nat>)
      reads this
    {
      && seen <= heap.Keys
      && forall r :: r in seen && r !in stack ==> NodeFinished(r)
    }

    ghost predicate NodeFinished(r: nat)
      requires r in heap
      reads this
    {
      Clean(heap[r], reserved) && forall i :: 0 <= i < |Children(heap[r])| ==> IsSeen(Children(heap[r])[i])
    }

    ghost predicate IsSeen(v: Value)
      reads this
    {
      v.Object? ==> v.ref in seen
    }

    /** `visit`. Recursion ends because every nested visit starts with more objects seen. */
    method Visit(candidate: Value, path: string, ghost root: Value, ghost route: seq<nat>, ghost stack: set<nat>)
      returns (r: Result<(), Violation>, ghost where: seq<nat>, ghost entry: nat)
      requires Closed(heap) && At(heap, root, route) == Some(candidate) && InHeap(heap, candidate)
      requires path == PathText(heap, root, route)
      requires stack <= seen && Finished(stack)
      modifies this
      ensures old(seen) <= seen && seen <= heap.Keys
      ensures r.Ok? ==> Finished(stack) && IsSeen(candidate)
      ensures r.Err? ==> Reports(heap, reserved, root, where, entry, r.error.path, r.error.key)
      decreases heap.Keys - seen, 0
    {
      hide At, PathText;
      where, entry := [], 0;
      if candidate.Primitive? || candidate.ref in seen {
        return Ok(()), where, entry;
      }
      var ref := candidate.ref;
      seen := seen + {ref};
      var node := heap[ref];
      for i := 0 to |Children(node)|
        invariant old(seen) + {ref} <= seen && Finished(stack + {ref})
        invariant forall j :: 0 <= j < i ==> IsSeen(Children(node)[j])
        invariant node.RecordNode? ==> forall j :: 0 <= j < i ==> !reserved(node.entries[j].0)
      {
        r, where, entry := VisitChild(ref, i, path, root, route, stack + {ref});
        if r.Err? {
          return;
        }
      }
      r := Ok(());
    }

    /** One round of the loops of `visit`: child number `i` of the object `ref`. */
    method VisitChild(ref: nat, i: nat, path: string, ghost root: Value, ghost route: seq<nat>, ghost stack: set<nat>)
      returns (r: Result<(), Violation>, ghost where: seq<nat>, ghost entry: nat)
      requires Closed(heap) && At(heap, root, route) == Some(Object(ref)) && ref in heap && i < |Children(heap[ref])|
      requires path == PathText(heap, root, route)
      requires stack <= seen && Finished(stack)
      modifies this
      ensures old(seen) <= seen && seen <= heap.Keys
      ensures r.Ok? ==> Finished(stack) && IsSeen(Children(heap[ref])[i])
      ensures r.Ok? && heap[ref].RecordNode? ==> !reserved(heap[ref].entries[i].0)
      ensures r.Err? ==> Reports(heap, reserved, root, where, entry, r.error.path, r.error.key)
      decreases heap.Keys - seen, 1
    {
      AtChild(heap, root, route, ref, i);
      var node := heap[ref];
      if node.ArrayNode? {
        r, where, entry := Visit(node.items[i], path + ("[" + Decimal(i) + "]"), root, route + [i], stack);
      } else {
        var key := node.entries[i].0;
        var childPath := path + ("." + key);
        if reserved(key) {
          assert childPath == path + "." + key;
          return Err(Violation(childPath, key)), route, i;
        }
        r, where, entry := Visit(node.entries[i].1, childPath, root, route + [i], stack);
      }
    }
  }

  /** An object that is reachable from a seen root is seen, once nothing is left to finish. */
  lemma {:induction false} ReachableIsSeen(heap: Heap, root: Value, seen: set<nat>, route: seq<nat>)
    requires seen <= heap.Keys && (root.Object? ==> root.ref in seen)
    requires forall r, i ::
      r in seen && 0 <= i < |Children(heap[r])| && Children(heap[r])[i].Object? ==> Children(heap[r])[i].ref in seen
    ensures At(heap, root, route).Some? && At(heap, root, route).value.Object? ==>
      At(heap, root, route).value.ref in seen
  {
    if route != [] {
      ReachableIsSeen(heap, root, seen, route[..|route| - 1]);
    }
  }

  /** `assertNoReservedObjectKeysDeep`: on every finite graph, cyclic or not, it ends; it passes
      exactly when no object reachable from the value has a reserved key; and when it throws, the
      path and the key of the message belong to a reachable object with that reserved key. */
  method AssertNoReservedObjectKeysDeep(heap: Heap, value: Value)
    returns (r: Result<(), Violation>, ghost where: seq<nat>, ghost entry: nat)
    requires Closed(heap) && InHeap(heap, value)
    ensures r.Ok? <==>
      forall ref :: ref in heap && Reachable(heap, value, ref) ==> Clean(heap[ref], IsReservedObjectKey)
    ensures r.Err? ==> Reports(heap, IsReservedObjectKey, value, where, entry, r.error.path, r.error.key)
  {
    var check := new KeyCheck(heap, IsReservedObjectKey);
    r, where, entry := check.Visit(value, "$", value, [], {});
    if r.Ok? {
      forall ref | ref in heap && Reachable(heap, value, ref) ensures Clean(heap[ref], IsReservedObjectKey) {
        var route: seq<nat> :| At(heap, value, route) == Some(Object(ref));
        assert check.Finished({});
        ReachableIsSeen(heap, value, check.seen, route);
      }
    } else {
      var ref := At(heap, value, where).value.ref;
      assert Reachable(heap, value, ref) && !Clean(heap[ref], IsReservedObjectKey);
    }
  }
}
