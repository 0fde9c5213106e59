/** The heap of tree nodes in src/zlib/trees.c: `smaller`, `pqdownheap` and `pqremove`. */
module Heap {

  /** Frequency and, to break ties, depth of every node. */
  datatype Keys = Keys(freq: seq<nat>, depth: seq<nat>)

  predicate Smaller(k: Keys, n: nat, m: nat)
    requires n < |k.freq| == |k.depth| && m < |k.freq|
  {
    k.freq[n] < k.freq[m] || (k.freq[n] == k.freq[m] && k.depth[n] <= k.depth[m])
  }

  /** The places 1 to `len` of the heap hold nodes. */
  ghost predicate Holds(k: Keys, heap: seq<nat>, len: nat) {
    len < |heap| && |k.depth| == |k.freq| && forall i :: 1 <= i <= len ==> heap[i] < |k.freq|
  }

  /** They hold the nodes in `nodes`, each once. */
  ghost predicate Lists(heap: seq<nat>, len: nat, nodes: set<nat>) {
    && len < |heap|
    && (forall i :: 1 <= i <= len ==> heap[i] in nodes)
    && (forall x :: x in nodes ==> exists i :: 1 <= i <= len && heap[i] == x)
    && (forall i, j :: 1 <= i < j <= len ==> heap[i] != heap[j])
  }

  /** Node `n` is smaller than those in the two places below `at`. */
  ghost predicate Tops(k: Keys, heap: seq<nat>, len: nat, n: nat, at: nat)
    requires Holds(k, heap, len) && n < |k.freq|
  {
    (1 <= 2 * at <= len ==> Smaller(k, n, heap[2 * at])) && (2 * at + 1 <= len ==> Smaller(k, n, heap[2 * at + 1]))
  }

  /** Every father from place `from` on is smaller than its sons. */
  ghost predicate Ordered(k: Keys, heap: seq<nat>, len: nat, from: nat)
    requires 1 <= from && Holds(k, heap, len)
  {
    forall i {:trigger Tops(k, heap, len, heap[i], i)} :: from <= i <= len ==> Tops(k, heap, len, heap[i], i)
  }

  lemma SwapLists(heap: seq<nat>, len: nat, nodes: set<nat>, a: nat, b: nat)
    requires Lists(heap, len, nodes) && 1 <= a <= len && 1 <= b <= len
    ensures Lists(heap[a := heap[b]][b := heap[a]], len, nodes)
  {
    var heap' := heap[a := heap[b]][b := heap[a]];
    forall x | x in nodes ensures exists i :: 1 <= i <= len && heap'[i] == x {
      var i :| 1 <= i <= len && heap[i] == x;
      var i' := if i == a then b else if i == b then a else i;
      assert heap'[i'] == x;
    }
  }

  /** The order holds except between place `at` and its sons, which are above the father of `at`. */
  ghost predicate Sinking(k: Keys, heap: seq<nat>, len: nat, from: nat, at: nat)
    requires 1 <= from && at <= len && Holds(k, heap, len)
  {
    && (forall i {:trigger Tops(k, heap, len, heap[i], i)} :: from <= i <= len && i != at ==>
       Tops(k, heap, len, heap[i], i))
    && (from <= at / 2 ==> Tops(k, heap, len, heap[at / 2], at))
  }

  /** What a place has under it after an exchange of `at` with its son `j`. */
  lemma SinkAt(k: Keys, heap: seq<nat>, len: nat, from: nat, at: nat, j: nat, i: nat)
    requires 1 <= from <= at && j / 2 == at && j <= len && Holds(k, heap, len)
    requires Holds(k, heap[at := heap[j]][j := heap[at]], len)
    requires Tops(k, heap, len, heap[j], at) && !Smaller(k, heap[at], heap[j])
    requires from <= i <= len && i != j && (i != at ==> Tops(k, heap, len, heap[i], i))
    requires from <= at / 2 ==> Tops(k, heap, len, heap[at / 2], at)
    ensures Tops(k, heap[at := heap[j]][j := heap[at]], len, heap[at := heap[j]][j := heap[at]][i], i)
  {
    hide Holds;
    assert |heap| > len by { HoldsBound(k, heap, len); }
    var heap' := heap[at := heap[j]][j := heap[at]];
    assert i != at ==> 2 * i != j && 2 * i + 1 != j;
    assert 2 * i == at || 2 * i + 1 == at ==> i == at / 2;
  }

  lemma HoldsBound(k: Keys, heap: seq<nat>, len: nat)
    requires Holds(k, heap, len)
    ensures |heap| > len
  {
  }

  /** Exchanging a node with the smaller of its sons. */
  lemma Sink(k: Keys, heap: seq<nat>, len: nat, from: nat, at: nat, j: nat)
    requires 1 <= from <= at && j / 2 == at && j <= len && Holds(k, heap, len) && Sinking(k, heap, len, from, at)
    requires Tops(k, heap, len, heap[j], at) && !Smaller(k, heap[at], heap[j])
    ensures Holds(k, heap[at := heap[j]][j := heap[at]], len)
    ensures Sinking(k, heap[at := heap[j]][j := heap[at]], len, from, j)
  {
    hide Smaller;
    var heap' := heap[at := heap[j]][j := heap[at]];
    forall i | from <= i <= len && i != j ensures Tops(k, heap', len, heap'[i], i) {
      SinkAt(k, heap, len, from, at, j, i);
    }
    assert Tops(k, heap, len, heap[j], j);
    assert Tops(k, heap', len, heap'[at], j);
  }

  lemma SonsSmallest(k: Keys, heap: seq<nat>, len: nat, at: nat, j: nat)
    requires Holds(k, heap, len) && 1 <= at && 2 * at <= j <= 2 * at + 1 && j <= len
    requires if j == 2 * at then j == len || !Smaller(k, heap[j + 1], heap[j]) else Smaller(k, heap[j], heap[j - 1])
    ensures Tops(k, heap, len, heap[j], at)
  {
  }

  lemma StopSinking(k: Keys, heap: seq<nat>, len: nat, at: nat, j: nat)
    requires Holds(k, heap, len) && 1 <= at <= len && 1 <= j <= len && Tops(k, heap, len, heap[j], at)
    requires Smaller(k, heap[at], heap[j])
    ensures Tops(k, heap, len, heap[at], at)
  {
  }

  lemma Bottom(k: Keys, heap: seq<nat>, len: nat, n: nat, at: nat)
    requires Holds(k, heap, len) && n < |k.freq| && 2 * at > len
    ensures Tops(k, heap, len, n, at)
  {
  }

  /** Moves the node at place `from` down until it is smaller than its sons. */
  method PqDownHeap(k: Keys, heap: seq<nat>, len: nat, from: nat, ghost nodes: set<nat>) returns (heap': seq<nat>)
    requires 1 <= from <= len && Holds(k, heap, len) && Lists(heap, len, nodes) && Ordered(k, heap, len, from + 1)
    ensures |heap'| == |heap| && Holds(k, heap', len) && Lists(heap', len, nodes) && Ordered(k, heap', len, from)
    ensures forall i :: 0 <= i < |heap| && (i < from || i > len) ==> heap'[i] == heap[i]
  {
    hide Lists, Tops;
    var v, at, j := heap[from], from, 2 * from;
    heap' := heap;
    ghost var h := heap;    // the heap with `v` in its place
    while j <= len
      invariant from <= at <= len && j == 2 * at && |h| == |heap'| == |heap| && h == heap'[at := v]
      invariant Holds(k, h, len) && Lists(h, len, nodes) && Sinking(k, h, len, from, at)
      invariant forall i :: 0 <= i < |heap| && (i < from || i > len) ==> heap'[i] == heap[i]
      decreases len - at
    {
      assert h[j] == heap'[j] && (j < len ==> h[j + 1] == heap'[j + 1]);
      if j < len && Smaller(k, heap'[j + 1], heap'[j]) {
        j := j + 1;
      }
      SonsSmallest(k, h, len, at, j);
      if Smaller(k, v, heap'[j]) {
        StopSinking(k, h, len, at, j);
        break;
      }
      Sink(k, h, len, from, at, j);
      SwapLists(h, len, nodes, at, j);
      h := h[at := h[j]][j := h[at]];
      heap' := heap'[at := heap'[j]];
      at := j;
      j := 2 * j;
    }
    heap' := heap'[at := v];
    if 2 * at > len {
      Bottom(k, h, len, h[at], at);
    }
    assert Tops(k, h, len, h[at], at);
  }

  /** The node in the first place is the smallest. */
  lemma {:induction false} FirstSmallest(k: Keys, heap: seq<nat>, len: nat, j: nat)
    requires Holds(k, heap, len) && Ordered(k, heap, len, 1) && 1 <= j <= len
    ensures Smaller(k, heap[1], heap[j])
    decreases j
  {
    if j > 1 {
      FirstSmallest(k, heap, len, j / 2);
      assert Tops(k, heap, len, heap[j / 2], j / 2);
    }
  }

  lemma FirstLeast(k: Keys, heap: seq<nat>, len: nat, nodes: set<nat>)
    requires Holds(k, heap, len) && Lists(heap, len, nodes) && Ordered(k, heap, len, 1) && len >= 1
    ensures heap[1] in nodes && forall x :: x in nodes ==> x < |k.freq| && k.freq[heap[1]] <= k.freq[x]
  {
    hide Tops, Ordered;
    forall x | x in nodes ensures x < |k.freq| && k.freq[heap[1]] <= k.freq[x] {
      var i :| 1 <= i <= len && heap[i] == x;
      FirstSmallest(k, heap, len, i);
    }
  }

  /** Takes the smallest node out of the heap. */
  method PqRemove(k: Keys, heap: seq<nat>, len: nat, ghost nodes: set<nat>) returns (top: nat, heap': seq<nat>)
    requires len >= 2 && Holds(k, heap, len) && Lists(heap, len, nodes) && Ordered(k, heap, len, 1)
    ensures top == heap[1] && top in nodes && |heap'| == |heap|
    ensures Holds(k, heap', len - 1) && Lists(heap', len - 1, nodes - {top}) && Ordered(k, heap', len - 1, 1)
    ensures forall i :: 0 <= i < |heap| && (i < 1 || i >= len) ==> heap'[i] == heap[i]
  {
    hide Tops;
    top := heap[1];
    heap' := heap[1 := heap[len]];
    DropFirst(heap, len, nodes);
    OrderedFrom2(k, heap, heap', len, len - 1);
    hide Lists, Ordered;
    heap' := PqDownHeap(k, heap', len - 1, 1, nodes - {top});
  }

  lemma DropFirst(heap: seq<nat>, len: nat, nodes: set<nat>)
    requires len >= 2 && Lists(heap, len, nodes)
    ensures Lists(heap[1 := heap[len]], len - 1, nodes - {heap[1]})
  {
    var heap' := heap[1 := heap[len]];
    forall x | x in nodes - {heap[1]} ensures exists i :: 1 <= i <= len - 1 && heap'[i] == x {
      var i :| 1 <= i <= len && heap[i] == x;
      assert heap'[if i == len then 1 else i] == x;
    }
  }

  /** With another node in the first place, the order holds below it. */
  lemma OrderedFrom2(k: Keys, heap: seq<nat>, heap': seq<nat>, len: nat, len': nat)
    requires 1 <= len' <= len && Holds(k, heap, len) && Ordered(k, heap, len, 1) && Holds(k, heap', len')
    requires forall i :: 2 <= i <= len' ==> heap'[i] == heap[i]
    ensures Ordered(k, heap', len', 2)
  {
    forall i | 2 <= i <= len' ensures Tops(k, heap', len', heap'[i], i) {
      assert Tops(k, heap, len, heap[i], i);
    }
  }
}
