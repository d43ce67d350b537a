/**
 * An iterator over the integers of a nested list. The constructor walks the
 * list depth-first, left to right, and queues every integer it meets; `Next`
 * takes the front of the queue and `HasNext` says whether it is empty.
 */
module NestedIterator {

  /** A nested-list element: an integer, or a list of further elements. */
  datatype NestedInteger = Int(n: int) | List(items: seq<NestedInteger>)

  /** The integers of `items`, depth-first and left to right. */
  function Flatten(items: seq<NestedInteger>): seq<int>
    decreases items, 1
  {
    if items == [] then [] else FlattenOne(items[0]) + Flatten(items[1..])
  }

  /** The integers of one element: itself, or its list's integers. */
  function FlattenOne(x: NestedInteger): seq<int>
    decreases x, 0
  {
    match x
    case Int(n) => [n]
    case List(items) => Flatten(items)
  }

  /** Flattening distributes over concatenation of lists. */
  lemma {:induction false} FlattenConcat(a: seq<NestedInteger>, b: seq<NestedInteger>)
    ensures Flatten(a + b) == Flatten(a) + Flatten(b)
    decreases |a|
  {
    if a == [] {
      assert a + b == b;
    } else {
      assert (a + b)[1..] == a[1..] + b;
      FlattenConcat(a[1..], b);
    }
  }

  /** Extending a prefix by one element appends that element's integers. */
  lemma FlattenPrefix(items: seq<NestedInteger>, i: int)
    requires 0 <= i < |items|
    ensures Flatten(items[..i + 1]) == Flatten(items[..i]) + FlattenOne(items[i])
  {
    assert items[..i + 1] == items[..i] + [items[i]];
    FlattenConcat(items[..i], [items[i]]);
  }

  /** The list of the integers `ns`, each as a nested-list element. */
  function Ints(ns: seq<int>): (r: seq<NestedInteger>)
    ensures |r| == |ns| && forall k :: 0 <= k < |ns| ==> r[k] == Int(ns[k])
  {
    seq(|ns|, k requires 0 <= k < |ns| => Int(ns[k]))
  }

  /** A list holding only integers flattens to those integers. */
  lemma {:induction false} FlattenInts(ns: seq<int>)
    ensures Flatten(Ints(ns)) == ns
    decreases |ns|
  {
    if ns != [] {
      assert Ints(ns)[1..] == Ints(ns[1..]);
      FlattenInts(ns[1..]);
    }
  }

  /** Flattening is idempotent: the flattened list, as a list of integers, flattens to itself. */
  lemma FlattenIdempotent(items: seq<NestedInteger>)
    ensures Flatten(Ints(Flatten(items))) == Flatten(items)
  {
    FlattenInts(Flatten(items));
  }

  /** Nested lists, empty ones included, contribute exactly their integers. */
  lemma FlattenNested(before: seq<NestedInteger>, inner: seq<NestedInteger>, after: seq<NestedInteger>)
    ensures Flatten(before + [List(inner)] + after) == Flatten(before) + Flatten(inner) + Flatten(after)
  {
    FlattenConcat(before + [List(inner)], after);
    FlattenConcat(before, [List(inner)]);
  }

  class NestedIterator {
    /** The list iterated over; assigned once, by the constructor. */
    const nestedList: seq<NestedInteger>
    /** The integers not yet returned, front first. */
    var nextQueue: seq<int>

    /** Stores the list and queues all of its integers. */
    constructor(nestedList: seq<NestedInteger>)
      ensures this.nestedList == nestedList
      ensures nextQueue == Flatten(nestedList)
    {
      this.nestedList := nestedList;
      nextQueue := [];
      new;
      InitiateQueue();
    }

    /** Queues the integers of each top-level element in turn. */
    method InitiateQueue()
      modifies this
      ensures nextQueue == old(nextQueue) + Flatten(nestedList)
    {
      var i := 0;
      while i < |nestedList|
        invariant 0 <= i <= |nestedList|
        invariant nextQueue == old(nextQueue) + Flatten(nestedList[..i])
      {
        var nextItem := nestedList[i];
        FlattenPrefix(nestedList, i);
        match nextItem {
          case Int(n) =>
            nextQueue := nextQueue + [n];
          case List(items) =>
            PopulateQueue(items);
        }
        i := i + 1;
      }
      assert nestedList[..i] == nestedList;
    }

    /** Queues the integers of `list`, descending into nested lists. */
    method PopulateQueue(list: seq<NestedInteger>)
      modifies this
      ensures nextQueue == old(nextQueue) + Flatten(list)
      decreases list
    {
      var i := 0;
      while i < |list|
        invariant 0 <= i <= |list|
        invariant nextQueue == old(nextQueue) + Flatten(list[..i])
      {
        var nestedInteger := list[i];
        FlattenPrefix(list, i);
        match nestedInteger {
          case Int(n) =>
            nextQueue := nextQueue + [n];
          case List(items) =>
            PopulateQueue(items);
        }
        i := i + 1;
      }
      assert list[..i] == list;
    }

    /** Removes and returns the front integer; the queue must not be empty. */
    method Next() returns (x: int)
      requires nextQueue != []
      modifies this
      ensures x == old(nextQueue)[0] && nextQueue == old(nextQueue)[1..]
    {
      x := nextQueue[0];
      nextQueue := nextQueue[1..];
    }

    /** Whether an integer remains. */
    method HasNext() returns (b: bool)
      ensures b <==> nextQueue != []
    {
      b := nextQueue != [];
    }
  }

  /** Calls `Next` until `HasNext` is false, collecting the results: exactly the queued integers. */
  method Drain(it: NestedIterator) returns (out: seq<int>)
    modifies it
    ensures out == old(it.nextQueue) && it.nextQueue == []
  {
    out := [];
    var more := it.HasNext();
    while more
      invariant old(it.nextQueue) == out + it.nextQueue
      invariant more <==> it.nextQueue != []
      decreases |it.nextQueue|
    {
      var x := it.Next();
      out := out + [x];
      more := it.HasNext();
    }
  }

  /** A new iterator, drained, yields exactly the flattened list. */
  method IterateAll(nestedList: seq<NestedInteger>) returns (out: seq<int>)
    ensures out == Flatten(nestedList)
  {
    var it := new NestedIterator(nestedList);
    out := Drain(it);
  }
}
