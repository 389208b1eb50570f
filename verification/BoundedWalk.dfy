/** The explicit-stack walk with a node budget and a depth limit, over any graph. */
module BoundedWalk {

  /** The number of nodes in the unfolding of the graph from `v`, cut off after `depth` levels. */
  ghost function Count<T>(children: T -> seq<T>, v: T, depth: nat): nat
    decreases depth, 0
  {
    if depth == 0 then 0 else 1 + CountAll(children, children(v), depth - 1)
  }

  ghost function CountAll<T>(children: T -> seq<T>, vs: seq<T>, depth: nat): nat
    decreases depth, |vs| + 1
  {
    if vs == [] then 0 else Count(children, vs[0], depth) + CountAll(children, vs[1..], depth)
  }

  /** The unfolding of the graph from `v` has at most `depth` levels. */
  ghost predicate WithinDepth<T>(children: T -> seq<T>, v: T, depth: nat)
    decreases depth, 0
  {
    depth > 0 && AllWithinDepth(children, children(v), depth - 1)
  }

  ghost predicate AllWithinDepth<T>(children: T -> seq<T>, vs: seq<T>, depth: nat)
    decreases depth, |vs| + 1
  {
    vs == [] || (WithinDepth(children, vs[0], depth) && AllWithinDepth(children, vs[1..], depth))
  }

  /** A stack entry at depth `entry.1` may still use the levels from there to `maxDepth`. */
  ghost function LevelsLeft<T>(entry: (T, nat), maxDepth: nat): nat {
    if entry.1 <= maxDepth then maxDepth + 1 - entry.1 else 0
  }

  ghost function StackCount<T>(children: T -> seq<T>, stack: seq<(T, nat)>, maxDepth: nat): nat {
    if stack == [] then 0
    else
      var last := |stack| - 1;
      StackCount(children, stack[..last], maxDepth) + Count(children, stack[last].0, LevelsLeft(stack[last], maxDepth))
  }

  ghost predicate StackWithinDepth<T>(children: T -> seq<T>, stack: seq<(T, nat)>, maxDepth: nat) {
    stack == [] ||
    (StackWithinDepth(children, stack[..|stack| - 1], maxDepth)
     && WithinDepth(children, stack[|stack| - 1].0, LevelsLeft(stack[|stack| - 1], maxDepth)))
  }

  function Entries<T>(vs: seq<T>, depth: nat): seq<(T, nat)> {
    seq(|vs|, i requires 0 <= i < |vs| => (vs[i], depth))
  }

  lemma {:induction false} CountAllLast<T>(children: T -> seq<T>, vs: seq<T>, v: T, depth: nat)
    ensures CountAll(children, vs + [v], depth) == CountAll(children, vs, depth) + Count(children, v, depth)
    ensures AllWithinDepth(children, vs + [v], depth) <==>
      AllWithinDepth(children, vs, depth) && WithinDepth(children, v, depth)
    decreases |vs|
  {
    if vs == [] {
      assert (vs + [v])[1..] == [];
    } else {
      CountAllLast(children, vs[1..], v, depth);
      assert (vs + [v])[1..] == vs[1..] + [v];
    }
  }

  /** Pushing the children of a node adds exactly their part of the count. */
  lemma {:induction false} PushAll<T>(
    children: T -> seq<T>, stack: seq<(T, nat)>, vs: seq<T>, depth: nat, maxDepth: nat)
    requires 1 <= depth <= maxDepth + 1
    ensures var pushed, left := stack + Entries(vs, depth), maxDepth + 1 - depth;
      && StackCount(children, pushed, maxDepth) == StackCount(children, stack, maxDepth) + CountAll(children, vs, left)
      && (StackWithinDepth(children, pushed, maxDepth) <==>
            StackWithinDepth(children, stack, maxDepth) && AllWithinDepth(children, vs, left))
    decreases |vs|
  {
    var pushed := stack + Entries(vs, depth);
    if vs == [] {
      assert pushed == stack;
    } else {
      var init, last := vs[..|vs| - 1], vs[|vs| - 1];
      PushAll(children, stack, init, depth, maxDepth);
      CountAllLast(children, init, last, maxDepth + 1 - depth);
      assert vs == init + [last];
      assert pushed[..|pushed| - 1] == stack + Entries(init, depth);
      assert pushed[|pushed| - 1] == (last, depth);
    }
  }

  lemma CountIsPositive<T>(children: T -> seq<T>, v: T, depth: nat)
    requires depth > 0
    ensures Count(children, v, depth) >= 1
  {
  }

  lemma RootOnly<T>(children: T -> seq<T>, root: T, depth: nat)
    ensures CountAll(children, [root], depth) == Count(children, root, depth)
    ensures AllWithinDepth(children, [root], depth) <==> WithinDepth(children, root, depth)
  {
    assert [root][1..] == [];
    assert CountAll(children, [], depth) == 0 && AllWithinDepth(children, [], depth);
  }

  /** Replacing an entry by its children takes one node off the count. */
  lemma Visit<T>(children: T -> seq<T>, stack: seq<(T, nat)>, entry: (T, nat), maxDepth: nat)
    requires 1 <= entry.1 <= maxDepth
    ensures var pushed, levels := stack + Entries(children(entry.0), entry.1 + 1), LevelsLeft(entry, maxDepth);
      && 1 + StackCount(children, pushed, maxDepth) ==
           StackCount(children, stack, maxDepth) + Count(children, entry.0, levels)
      && (StackWithinDepth(children, pushed, maxDepth) <==>
            StackWithinDepth(children, stack, maxDepth) && WithinDepth(children, entry.0, levels))
  {
    PushAll(children, stack, children(entry.0), entry.1 + 1, maxDepth);
    hide StackCount, StackWithinDepth, CountAll, AllWithinDepth;
  }

  /** A stack with an entry past the limit is not within depth. */
  lemma TooDeep<T>(children: T -> seq<T>, entry: (T, nat), maxDepth: nat)
    requires entry.1 > maxDepth
    ensures !WithinDepth(children, entry.0, LevelsLeft(entry, maxDepth))
  {
  }

  /** `assertJsonValueWithinBounds` on any graph, given by the children of each value: it passes
      exactly when the unfolding of the graph has at most `maxDepth` levels and `maxNodeCount`
      nodes, and it always stops after at most `maxNodeCount + 1` pops, on cyclic graphs too. */
  method Walk<T>(root: T, children: T -> seq<T>, maxNodeCount: nat, maxDepth: nat) returns (ok: bool, pops: nat)
    ensures ok <==> WithinDepth(children, root, maxDepth) && Count(children, root, maxDepth) <= maxNodeCount
    ensures pops <= maxNodeCount + 1
  {
    var nodeCount := 0;
    var stack := [(root, 1)];
    assert stack == [] + Entries([root], 1);
    PushAll(children, [], [root], 1, maxDepth);
    RootOnly(children, root, maxDepth);
    hide Count, CountAll, WithinDepth, AllWithinDepth;
    while |stack| > 0
      invariant nodeCount <= maxNodeCount
      invariant forall i :: 0 <= i < |stack| ==> 1 <= stack[i].1 <= maxDepth + 1
      invariant nodeCount + StackCount(children, stack, maxDepth) == Count(children, root, maxDepth)
      invariant StackWithinDepth(children, stack, maxDepth) <==> WithinDepth(children, root, maxDepth)
      decreases maxNodeCount - nodeCount
    {
      var current := stack[|stack| - 1];
      stack := stack[..|stack| - 1];
      nodeCount := nodeCount + 1;
      if nodeCount > maxNodeCount || current.1 > maxDepth {
        if current.1 <= maxDepth {
          CountIsPositive(children, current.0, LevelsLeft(current, maxDepth));
        } else {
          TooDeep(children, current, maxDepth);
        }
        return false, nodeCount;
      }
      Visit(children, stack, current, maxDepth);
      stack := stack + Entries(children(current.0), current.1 + 1);
    }
    return true, nodeCount;
  }
}
