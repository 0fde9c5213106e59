/**
 The queue of src/database.h as one thread runs it, on nodes in memory: push, and pop_all
 with its reversal in place. ActionQueue.dfy interleaves the steps of many threads.
 */
module WaitfreeQueue {
  /** What an action is told: an error, or a result set. */
  datatype Result = Failure(errno: nat) | Rows

  class DatabaseAction {
    var next: DatabaseAction?
    var results: seq<Result>

    constructor ()
      ensures results == []
    {
      next, results := null, [];
    }

    method AddResult(r: Result)
      modifies this`results
      ensures results == old(results) + [r]
    {
      results := results + [r];
    }
  }

  ghost predicate Distinct(nodes: seq<DatabaseAction>) {
    forall i, j :: 0 <= i < j < |nodes| ==> nodes[i] != nodes[j]
  }

  /** The node at `i`, NULL before the first and after the last. */
  function At(s: seq<DatabaseAction>, i: int): DatabaseAction? {
    if 0 <= i < |s| then s[i] else null
  }

  /** Following next from `p` meets `nodes` and then NULL. */
  ghost predicate Chain(p: DatabaseAction?, nodes: seq<DatabaseAction>)
    reads nodes
  {
    if nodes == [] then p == null
    else
      && p == nodes[0] && nodes[|nodes| - 1].next == null
      && forall i :: 0 <= i < |nodes| - 1 ==> nodes[i].next == nodes[i + 1]
  }

  function Reverse(s: seq<DatabaseAction>): (r: seq<DatabaseAction>)
    ensures |r| == |s| && forall i :: 0 <= i < |r| ==> r[i] in s
  {
    if s == [] then [] else Reverse(s[1..]) + [s[0]]
  }

  /** The oldest comes first. */
  lemma {:induction false} ReverseAt(s: seq<DatabaseAction>, i: nat)
    requires i < |s|
    ensures Reverse(s)[i] == s[|s| - 1 - i]
  {
    if i < |s| - 1 {
      ReverseAt(s[1..], i);
    }
  }

  class Queue {
    var head: DatabaseAction?
    /** The nodes in the queue, the newest first. */
    ghost var items: seq<DatabaseAction>

    ghost predicate Valid()
      reads this, items
    {
      Chain(head, items) && Distinct(items)
    }

    constructor ()
      ensures Valid() && items == []
    {
      head := null;
      items := [];
    }

    /** `failures` is how often the exchange fails for no reason. */
    method Push(data: DatabaseAction, failures: nat)
      requires Valid() && data !in items
      modifies this, data`next
      ensures Valid() && items == [data] + old(items)
    {
      var stale := head;
      var left := failures;
      var swung := false;
      while !swung
        invariant swung ==> head == data && Chain(head, [data] + old(items)) && data !in old(items)
        invariant !swung ==> head == old(head) && stale == head && Chain(head, old(items))
        invariant items == old(items)
        decreases !swung, left
      {
        data.next := stale;
        if left == 0 {
          assert ([data] + items)[1..] == items;
          head := data;
          swung := true;
        } else {
          left := left - 1;
          stale := head;
        }
      }
      items := [data] + items;
    }

    /** Takes everything; the list returned runs from the oldest to the newest. */
    method PopAll() returns (first: DatabaseAction?)
      requires Valid()
      modifies this, items
      ensures Valid() && items == []
      ensures Chain(first, Reverse(old(items)))
    {
      ghost var taken := items;
      ghost var n := |taken|;
      var last := head;
      head := null;
      items := [];
      first := null;
      ghost var i := 0;
      while last != null
        invariant 0 <= i <= n && items == [] && head == null
        invariant last == At(taken, i) && first == At(taken, i - 1)
        invariant forall k :: i <= k < n ==> taken[k].next == At(taken, k + 1)
        invariant forall k :: 0 <= k < i ==> taken[k].next == At(taken, k - 1)
        decreases n - i
      {
        var tmp := last;
        assert tmp == taken[i] && forall k :: 0 <= k < n && k != i ==> taken[k] != tmp;
        last := last.next;
        tmp.next := first;
        first := tmp;
        i := i + 1;
      }
      Reversed(first, taken);
    }
  }

  lemma {:induction false} Reversed(first: DatabaseAction?, s: seq<DatabaseAction>)
    requires first == At(s, |s| - 1)
    requires forall k :: 0 <= k < |s| ==> s[k].next == At(s, k - 1)
    ensures Chain(first, Reverse(s))
  {
    hide Reverse;
    var r := Reverse(s);
    forall i: nat | i < |s| ensures r[i] == s[|s| - 1 - i] {
      ReverseAt(s, i);
    }
    forall i | 0 <= i < |r| - 1 ensures r[i].next == r[i + 1] {
      assert r[i] == s[|s| - 1 - i] && r[i + 1] == s[|s| - 2 - i];
    }
    if s == [] {
      assert r == [];
    } else {
      assert r[0] == s[|s| - 1] && r[|r| - 1] == s[0];
    }
  }
}
