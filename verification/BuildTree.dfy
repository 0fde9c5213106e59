/** The construction of the tree in `build_tree` of src/zlib/trees.c. */
module BuildTree {
  import opened Heap
  import opened Weights
  import opened Huffman
  import opened MinHeight

  const HEAP_SIZE := 573

  /** The fields that the construction works on; `len` and `max` are the source's `heap_len` and `heap_max`. */
  datatype Work = Work(keys: Keys, dad: seq<nat>, heap: seq<nat>, len: nat, max: nat)

  /** The pairs that have been merged stand at the end of the heap array, the first pair last. */
  ghost predicate Stored(heap: seq<nat>, merges: seq<(nat, nat)>) {
    && |heap| == HEAP_SIZE && 2 * |merges| < HEAP_SIZE
    && forall j :: 0 <= j < |merges| ==>
       heap[HEAP_SIZE - 1 - 2 * j] == merges[j].0 && heap[HEAP_SIZE - 2 - 2 * j] == merges[j].1
  }

  /** Both nodes of pair `j` have node `elems + j` as their father. */
  ghost predicate Fathers(elems: nat, dad: seq<nat>, merges: seq<(nat, nat)>) {
    forall j :: 0 <= j < |merges| ==>
      merges[j].0 < |dad| && merges[j].1 < |dad| && dad[merges[j].0] == elems + j && dad[merges[j].1] == elems + j
  }

  ghost predicate Sized(leaves: set<nat>, elems: nat, w: Work) {
    && (forall x :: x in leaves ==> x < elems) && 2 <= |leaves| <= elems <= 286
    && |w.keys.freq| == |w.keys.depth| == |w.dad| == 2 * elems + 1
  }

  /** What holds between two merges. */
  ghost predicate Building(leaves: set<nat>, elems: nat, w: Work, merges: seq<(nat, nat)>) {
    && Sized(leaves, elems, w) && |merges| < |leaves| && w.len == |leaves| - |merges|
    && w.max == HEAP_SIZE - 2 * |merges|
    && Stored(w.heap, merges) && Fathers(elems, w.dad, merges)
    && Holds(w.keys, w.heap, w.len) && Ordered(w.keys, w.heap, w.len, 1)
    && Lists(w.heap, w.len, Live(leaves, elems, merges, |merges|))
    && (forall j :: 0 <= j < |merges| ==> Merged(leaves, elems, w.keys.freq, merges, j))
    && ByDepth(leaves, elems, w.keys, merges)
  }

  lemma {:induction false} LiveAppend(leaves: set<nat>, elems: nat, merges: seq<(nat, nat)>, p: (nat, nat), k: nat)
    requires k <= |merges|
    ensures Live(leaves, elems, merges + [p], k) == Live(leaves, elems, merges, k)
    decreases k
  {
    if k > 0 {
      LiveAppend(leaves, elems, merges, p, k - 1);
    }
  }

  /** Earlier merges are not touched by a new one. */
  lemma MergedAppend(leaves: set<nat>, elems: nat, f: seq<nat>, f': seq<nat>,
                     merges: seq<(nat, nat)>, p: (nat, nat), j: nat)
    requires j < |merges| && Merged(leaves, elems, f, merges, j) && (forall x :: x in leaves ==> x < elems)
    requires elems + |merges| < |f| == |f'| && forall i :: 0 <= i < elems + |merges| ==> f'[i] == f[i]
    ensures Merged(leaves, elems, f', merges + [p], j)
  {
    LiveAppend(leaves, elems, merges, p, j);
    LiveBound(leaves, elems, merges, j);
  }

  /** Putting the new node in the place of the second one. */
  lemma Replaced(heap: seq<nat>, len: nat, nodes: set<nat>, c: nat)
    requires len >= 1 && Lists(heap, len, nodes) && c !in nodes
    ensures Lists(heap[1 := c], len, nodes - {heap[1]} + {c})
  {
    var heap' := heap[1 := c];
    forall x | x in nodes - {heap[1]} + {c} ensures exists i :: 1 <= i <= len && heap'[i] == x {
      if x == c {
        assert heap'[1] == x;
      } else {
        var i :| 1 <= i <= len && heap[i] == x;
        assert heap'[i] == x;
      }
    }
  }

  lemma ListsFrame(heap: seq<nat>, heap': seq<nat>, len: nat, nodes: set<nat>)
    requires Lists(heap, len, nodes) && |heap'| == |heap| && forall i :: 1 <= i <= len ==> heap'[i] == heap[i]
    ensures Lists(heap', len, nodes)
  {
    forall x | x in nodes ensures exists i :: 1 <= i <= len && heap'[i] == x {
      var i :| 1 <= i <= len && heap[i] == x;
      assert heap'[i] == x;
    }
  }

  /** Setting the keys of a node that is not in the heap. */
  lemma OrderedFrame(k: Keys, k': Keys, heap: seq<nat>, heap': seq<nat>, len: nat)
    requires Holds(k, heap, len) && Ordered(k, heap, len, 1) && Holds(k', heap', len)
    requires forall i :: 2 <= i <= len ==>
      heap'[i] == heap[i] && k'.freq[heap[i]] == k.freq[heap[i]] && k'.depth[heap[i]] == k.depth[heap[i]]
    requires |k'.freq| == |k.freq|
    ensures Ordered(k', heap', len, 2)
  {
    forall i | 2 <= i <= len ensures Tops(k', heap', len, heap'[i], i) {
      assert Tops(k, heap, len, heap[i], i);
    }
  }

  /** The nodes taken out are the two least frequent. */
  lemma TakenLeast(keys: Keys, heap: seq<nat>, len: nat, nodes: set<nat>, n: nat, rest: seq<nat>)
    requires len >= 2 && Holds(keys, heap, len) && Lists(heap, len, nodes) && Ordered(keys, heap, len, 1)
    requires n == heap[1]
    requires Holds(keys, rest, len - 1) && Lists(rest, len - 1, nodes - {n}) && Ordered(keys, rest, len - 1, 1)
    ensures Least(nodes, keys.freq, n, rest[1]) && Lowest(nodes, keys, n, rest[1])
  {
    hide Lists, Ordered;
    FirstLeast(keys, heap, len, nodes);
    FirstLeast(keys, rest, len - 1, nodes - {n});
    AllLarger(keys, heap, len, nodes);
    AllLarger(keys, rest, len - 1, nodes - {n});
  }

  lemma AllLarger(keys: Keys, heap: seq<nat>, len: nat, nodes: set<nat>)
    requires len >= 1 && Holds(keys, heap, len) && Lists(heap, len, nodes) && Ordered(keys, heap, len, 1)
    ensures forall x :: x in nodes ==> x < |keys.freq| && Smaller(keys, heap[1], x)
  {
    hide Ordered;
    forall x | x in nodes ensures x < |keys.freq| && Smaller(keys, heap[1], x) {
      var i :| 1 <= i <= len && heap[i] == x;
      FirstSmallest(keys, heap, len, i);
    }
  }

  /** A node that has been merged does not come back. */
  lemma {:induction false} MergedGone(leaves: set<nat>, elems: nat, f: seq<nat>, merges: seq<(nat, nat)>, j: nat,
                                      k: nat)
    requires j < k <= |merges| && (forall x :: x in leaves ==> x < elems) && Merged(leaves, elems, f, merges, j)
    ensures merges[j].0 !in Live(leaves, elems, merges, k) && merges[j].1 !in Live(leaves, elems, merges, k)
    decreases k
  {
    LiveBound(leaves, elems, merges, j);
    if j < k - 1 {
      MergedGone(leaves, elems, f, merges, j, k - 1);
    }
  }

  /** The heap with the new node in the first place. */
  lemma JoinHeap(keys: Keys, keys': Keys, rest: seq<nat>, heap': seq<nat>, len: nat, nodes: set<nat>, node: nat)
    requires len >= 1 && Holds(keys, rest, len) && Lists(rest, len, nodes) && Ordered(keys, rest, len, 1)
    requires node !in nodes && node < |keys.freq| == |keys'.freq| == |keys'.depth| && |heap'| == |rest|
    requires forall i :: 0 <= i < |keys.freq| && i != node ==>
      keys'.freq[i] == keys.freq[i] && keys'.depth[i] == keys.depth[i]
    requires heap'[1] == node && forall i :: 2 <= i <= len ==> heap'[i] == rest[i]
    ensures Holds(keys', heap', len) && Lists(heap', len, nodes - {rest[1]} + {node}) && Ordered(keys', heap', len, 2)
  {
    hide Tops, Ordered;
    Replaced(rest, len, nodes, node);
    ListsFrame(rest[1 := node], heap', len, nodes - {rest[1]} + {node});
    OrderedFrame(keys, keys', rest, heap', len);
  }

  lemma JoinStored(heap: seq<nat>, heap': seq<nat>, merges: seq<(nat, nat)>, n: nat, m: nat)
    requires Stored(heap, merges) && 2 * |merges| + 2 < HEAP_SIZE && |heap'| == HEAP_SIZE
    requires heap'[HEAP_SIZE - 1 - 2 * |merges|] == n && heap'[HEAP_SIZE - 2 - 2 * |merges|] == m
    requires forall i :: HEAP_SIZE - 2 * |merges| <= i < HEAP_SIZE ==> heap'[i] == heap[i]
    ensures Stored(heap', merges + [(n, m)])
  {
  }

  lemma {:induction false} JoinFathers(leaves: set<nat>, elems: nat, f: seq<nat>, dad: seq<nat>,
                                       merges: seq<(nat, nat)>, n: nat, m: nat)
    requires Fathers(elems, dad, merges) && n < |dad| && m < |dad| && (forall x :: x in leaves ==> x < elems)
    requires n in Live(leaves, elems, merges, |merges|) && m in Live(leaves, elems, merges, |merges|)
    requires forall j :: 0 <= j < |merges| ==> Merged(leaves, elems, f, merges, j)
    ensures Fathers(elems, dad[n := elems + |merges|][m := elems + |merges|], merges + [(n, m)])
  {
    hide Merged;
    forall j | 0 <= j < |merges| ensures merges[j].0 != n && merges[j].0 != m && merges[j].1 != n && merges[j].1 != m {
      MergedGone(leaves, elems, f, merges, j, |merges|);
    }
  }

  lemma {:induction false} JoinMerged(leaves: set<nat>, elems: nat, f: seq<nat>, f': seq<nat>, merges: seq<(nat, nat)>,
                                      n: nat, m: nat)
    requires (forall x :: x in leaves ==> x < elems)
    requires (forall j :: 0 <= j < |merges| ==> Merged(leaves, elems, f, merges, j))
    requires elems + |merges| < |f| == |f'| && (forall i :: 0 <= i < elems + |merges| ==> f'[i] == f[i])
    requires Least(Live(leaves, elems, merges, |merges|), f, n, m) && f'[elems + |merges|] == f[n] + f[m]
    ensures forall j :: 0 <= j <= |merges| ==> Merged(leaves, elems, f', merges + [(n, m)], j)
    ensures Live(leaves, elems, merges + [(n, m)], |merges| + 1)
         == Live(leaves, elems, merges, |merges|) - {n} - {m} + {elems + |merges|}
  {
    var k := |merges|;
    forall j | 0 <= j < k ensures Merged(leaves, elems, f', merges + [(n, m)], j) {
      MergedAppend(leaves, elems, f, f', merges, (n, m), j);
    }
    LiveAppend(leaves, elems, merges, (n, m), k);
    LiveBound(leaves, elems, merges, k);
    assert (merges + [(n, m)])[k] == (n, m);
  }

  /** The merges so far, and the new one, are by frequency and depth. */
  lemma JoinLowest(leaves: set<nat>, elems: nat, k: Keys, k': Keys, merges: seq<(nat, nat)>, n: nat, m: nat)
    requires ByDepth(leaves, elems, k, merges) && (forall x :: x in leaves ==> x < elems)
    requires Lowest(Live(leaves, elems, merges, |merges|), k, n, m) && elems + |merges| < |k.depth|
    requires |k'.freq| == |k'.depth| == |k.depth| && k'.depth[elems + |merges|] == Higher(k.depth[n], k.depth[m])
    requires forall i :: 0 <= i < elems + |merges| ==> k'.freq[i] == k.freq[i] && k'.depth[i] == k.depth[i]
    ensures ByDepth(leaves, elems, k', merges + [(n, m)])
  {
    var merges' := merges + [(n, m)];
    forall j | 0 <= j <= |merges| ensures MergedLowest(leaves, elems, k', merges', j) {
      LiveAppend(leaves, elems, merges, (n, m), j);
      LiveBound(leaves, elems, merges, j);
      if j < |merges| {
        assert MergedLowest(leaves, elems, k, merges, j);
        assert merges'[j] == merges[j];
      } else {
        assert merges'[j] == (n, m);
      }
    }
  }

  /** Merges the two least frequent nodes. */
  method MergeTwo(w: Work, node: nat, ghost leaves: set<nat>, ghost elems: nat, ghost merges: seq<(nat, nat)>)
    returns (w': Work, ghost merges': seq<(nat, nat)>)
    requires Building(leaves, elems, w, merges) && w.len >= 2 && node == elems + |merges|
    ensures Building(leaves, elems, w', merges') && |merges'| == |merges| + 1
    ensures forall i :: 0 <= i < elems ==> w'.keys.freq[i] == w.keys.freq[i]
    ensures forall i :: 0 <= i < elems && i !in leaves ==> w'.dad[i] == w.dad[i]
  {
    hide Lists, Ordered, Least, Live, Stored, Fathers, Merged, Holds, Higher, ByDepth, Lowest;
    ByDepthSize(leaves, elems, w.keys, merges);
    ghost var nodes := Live(leaves, elems, merges, |merges|);
    LiveBound(leaves, elems, merges, |merges|);
    assert |w.heap| == HEAP_SIZE by { StoredSize(w.heap, merges); }
    assert w.len < |w.heap| by { HoldsBound(w.keys, w.heap, w.len); }
    var n, heap := PqRemove(w.keys, w.heap, w.len, nodes);
    var m := heap[1];
    TakenLeast(w.keys, w.heap, w.len, nodes, n, heap);
    LeastIn(nodes, w.keys.freq, n, m);
    ghost var rest := heap;
    heap := heap[w.max - 1 := n];
    heap := heap[w.max - 2 := m];
    JoinStored(w.heap, heap, merges, n, m);
    ghost var stored := heap;
    var keys := Keys(w.keys.freq[node := w.keys.freq[n] + w.keys.freq[m]],
                     w.keys.depth[node := Higher(w.keys.depth[n], w.keys.depth[m])]);
    JoinFathers(leaves, elems, w.keys.freq, w.dad, merges, n, m);
    var dad := w.dad[n := node][m := node];
    JoinMerged(leaves, elems, w.keys.freq, keys.freq, merges, n, m);
    JoinLowest(leaves, elems, w.keys, keys, merges, n, m);
    heap := heap[1 := node];
    JoinHeap(w.keys, keys, rest, heap, w.len - 1, nodes - {n}, node);
    merges' := merges + [(n, m)];
    heap := PqDownHeap(keys, heap, w.len - 1, 1, Live(leaves, elems, merges', |merges'|));
    StoredFrame(stored, heap, merges');
    w' := Work(keys, dad, heap, w.len - 1, w.max - 2);
  }

  lemma ByDepthSize(leaves: set<nat>, elems: nat, k: Keys, merges: seq<(nat, nat)>)
    requires ByDepth(leaves, elems, k, merges)
    ensures |k.depth| == |k.freq|
  {
  }

  lemma StoredSize(heap: seq<nat>, merges: seq<(nat, nat)>)
    requires Stored(heap, merges)
    ensures |heap| == HEAP_SIZE
  {
  }

  lemma StoredFrame(heap: seq<nat>, heap': seq<nat>, merges: seq<(nat, nat)>)
    requires |heap| == |heap'| == HEAP_SIZE && 2 * |merges| < HEAP_SIZE
    requires forall i :: HEAP_SIZE - 2 * |merges| <= i < HEAP_SIZE ==> heap'[i] == heap[i]
    ensures Stored(heap, merges) ==> Stored(heap', merges)
  {
  }

  lemma LeastIn(nodes: set<nat>, f: seq<nat>, n: nat, m: nat)
    requires Least(nodes, f, n, m)
    ensures n in nodes && m in nodes && n != m && n < |f| && m < |f|
  {
  }

  // ------------------------------------------------- the first heap

  /** The symbols among the first `n` that occur. */
  ghost function Used(freq: seq<nat>, n: nat): set<nat>
    requires n <= |freq|
  {
    set i: nat | i < n && freq[i] != 0
  }

  lemma ListsAdd(heap: seq<nat>, len: nat, nodes: set<nat>, x: nat)
    requires Lists(heap, len, nodes) && len + 1 < |heap| && x !in nodes
    ensures Lists(heap[len + 1 := x], len + 1, nodes + {x})
  {
    var heap' := heap[len + 1 := x];
    forall y | y in nodes + {x} ensures exists i :: 1 <= i <= len + 1 && heap'[i] == y {
      if y == x {
        assert heap'[len + 1] == y;
      } else {
        var i :| 1 <= i <= len && heap[i] == y;
        assert heap'[i] == y;
      }
    }
  }

  lemma {:induction false} ListsSize(heap: seq<nat>, len: nat, nodes: set<nat>)
    requires Lists(heap, len, nodes)
    ensures |nodes| == len
    decreases len
  {
    if len == 0 {
      assert nodes == {};
    } else {
      var x := heap[len];
      assert Lists(heap, len - 1, nodes - {x}) by {
        forall y | y in nodes - {x} ensures exists i :: 1 <= i <= len - 1 && heap[i] == y {
          var i :| 1 <= i <= len && heap[i] == y;
        }
      }
      ListsSize(heap, len - 1, nodes - {x});
    }
  }

  /** Collects the symbols that occur; the others get length zero. */
  method Collect(freq: seq<nat>, elems: nat) returns (heap: seq<nat>, len: nat, maxCode: int, dad: seq<nat>)
    requires elems <= 286 && |freq| == 2 * elems + 1
    ensures |heap| == HEAP_SIZE && len <= elems && Lists(heap, len, Used(freq, elems))
    ensures |dad| == |freq| && forall i :: 0 <= i < elems && freq[i] == 0 ==> dad[i] == 0
    ensures -1 <= maxCode < elems && (maxCode >= 0 ==> freq[maxCode] != 0)
    ensures forall i :: maxCode < i < elems ==> freq[i] == 0
  {
    hide Lists;
    heap, len, maxCode, dad := seq(HEAP_SIZE, _ => 0), 0, -1, seq(|freq|, _ => 0);
    assert Lists(heap, len, Used(freq, 0)) by { ListsNone(heap, freq); }
    for n := 0 to elems
      invariant |heap| == HEAP_SIZE && len <= n && Lists(heap, len, Used(freq, n))
      invariant |dad| == |freq| && forall i :: 0 <= i < n && freq[i] == 0 ==> dad[i] == 0
      invariant -1 <= maxCode < n && (maxCode >= 0 ==> freq[maxCode] != 0)
      invariant forall i :: maxCode < i < n ==> freq[i] == 0
    {
      if freq[n] != 0 {
        ListsAdd(heap, len, Used(freq, n), n);
        assert Used(freq, n + 1) == Used(freq, n) + {n};
        len := len + 1;
        heap := heap[len := n];
        maxCode := n;
      } else {
        assert Used(freq, n + 1) == Used(freq, n);
        dad := dad[n := 0];
      }
    }
  }

  lemma ListsNone(heap: seq<nat>, freq: seq<nat>)
    requires |heap| > 0
    ensures Lists(heap, 0, Used(freq, 0))
  {
  }

  /** `freq'` is `freq` with some symbols that do not occur counted once, so that two symbols do. */
  ghost predicate Forced(freq: seq<nat>, elems: nat, freq': seq<nat>, forced: set<nat>) {
    && |freq'| == |freq| && elems <= |freq|
    && (forall i :: i in forced ==> i < elems && freq[i] == 0 && freq'[i] == 1)
    && (forall i :: 0 <= i < |freq| && i !in forced ==> freq'[i] == freq[i])
  }

  /** The heap lists the symbols that occur, of which `maxCode` is the last. */
  ghost predicate Counted(freq: seq<nat>, elems: nat, heap: seq<nat>, len: nat, maxCode: int) {
    && 3 <= elems <= 286 && |freq| == 2 * elems + 1 && |heap| == HEAP_SIZE && len <= elems
    && Lists(heap, len, Used(freq, elems))
    && -1 <= maxCode < elems && (maxCode >= 0 ==> freq[maxCode] != 0)
    && forall i :: maxCode < i < elems ==> freq[i] == 0
  }

  lemma AtLeastTwo(freq: seq<nat>, elems: nat, a: nat, b: nat)
    requires a < b < elems <= |freq|
    ensures freq[a] != 0 && freq[b] != 0 ==> |Used(freq, elems)| >= 2
  {
    if freq[a] != 0 && freq[b] != 0 {
      var used := Used(freq, elems);
      assert a in used && b in used;
      assert |used - {a} - {b}| == |used| - 2;
    }
  }

  lemma CountedNone(freq: seq<nat>, elems: nat, heap: seq<nat>, len: nat, maxCode: int)
    requires Counted(freq, elems, heap, len, maxCode)
    ensures maxCode < 0 <==> len == 0
  {
    if maxCode >= 0 {
      assert maxCode as nat in Used(freq, elems);
    }
    ListsSize(heap, len, Used(freq, elems));
    if maxCode < 0 {
      assert Used(freq, elems) == {};
    }
  }

  /** Counts one symbol that does not occur. */
  method ForceOne(freq: seq<nat>, elems: nat, heap: seq<nat>, len: nat, maxCode: int)
    returns (node: nat, heap': seq<nat>, maxCode': int)
    requires Counted(freq, elems, heap, len, maxCode) && len < 2
    ensures node < elems && freq[node] == 0 && Counted(freq[node := 1], elems, heap', len + 1, maxCode')
    ensures maxCode' >= 0
    ensures node <= 2 && node == (if maxCode < 2 then maxCode + 1 else 0)
    ensures maxCode' == if maxCode < 2 then maxCode + 1 else maxCode
  {
    hide Lists;
    ListsSize(heap, len, Used(freq, elems));
    if maxCode < 2 {
      maxCode' := maxCode + 1;
      node := maxCode';
    } else {
      AtLeastTwo(freq, elems, 0, maxCode);
      maxCode' := maxCode;
      node := 0;
    }
    ListsAdd(heap, len, Used(freq, elems), node);
    assert Used(freq[node := 1], elems) == Used(freq, elems) + {node};
    heap' := heap[len + 1 := node];
  }

  /** The totals are less by what the forced symbols will add: one bit each, or their static lengths. */
  ghost predicate Corrected(stree: seq<nat>, optLen: int, staticLen: int, optLen': int, staticLen': int,
                            forced: set<nat>) {
    && optLen' == optLen - |forced| && staticLen' == staticLen - Total(forced, stree)
    && forall i :: i in forced ==> i <= 2
  }

  lemma CorrectedNone(stree: seq<nat>, optLen: int, staticLen: int)
    ensures Corrected(stree, optLen, staticLen, optLen, staticLen, {})
  {
    TotalEmpty(stree);
  }

  lemma CorrectedMore(stree: seq<nat>, optLen: int, staticLen: int, optLen': int, staticLen': int,
                      forced: set<nat>, node: nat)
    requires Corrected(stree, optLen, staticLen, optLen', staticLen', forced) && node !in forced && node <= 2
    requires (stree == [] || node < |stree|)
    ensures Corrected(stree, optLen, staticLen, optLen' - 1,
      if stree == [] then staticLen' else staticLen' - stree[node], forced + {node})
  {
    if stree != [] {
      TotalRemove(forced + {node}, stree, node);
      assert forced + {node} - {node} == forced;
    }
  }

  /** Which symbols are forced: the first two, or the one after the only one that occurs, but never one above 2. */
  ghost predicate ForcedRule(freq: seq<nat>, elems: nat, forced: set<nat>)
    requires elems <= |freq|
  {
    && (|Used(freq, elems)| >= 2 ==> forced == {}) && (Used(freq, elems) == {} ==> forced == {0, 1})
    && forall x: nat :: x < elems && Used(freq, elems) == {x} ==> forced == {if x < 2 then x + 1 else 0}
  }

  lemma RuleHolds(freq: seq<nat>, elems: nat, heap: seq<nat>, len: nat, maxCode: int, forced: set<nat>)
    requires Counted(freq, elems, heap, len, maxCode)
    requires (len >= 2 ==> forced == {}) && (len == 0 ==> forced == {0, 1})
    requires len == 1 ==> forced == {if maxCode < 2 then maxCode + 1 else 0}
    ensures elems <= |freq| && ForcedRule(freq, elems, forced)
  {
    hide Lists;
    ListsSize(heap, len, Used(freq, elems));
    forall x: nat | x < elems && Used(freq, elems) == {x} ensures forced == {if x < 2 then x + 1 else 0} {
      assert x in Used(freq, elems) && maxCode >= 0;
      assert maxCode as nat in Used(freq, elems);
    }
  }

  /** Counts symbols that do not occur, until there are two. */
  method ForceTwo(freq: seq<nat>, elems: nat, heap0: seq<nat>, len0: nat, maxCode0: int, stree: seq<nat>, optLen: int,
                  staticLen: int)
    returns (freq': seq<nat>, heap: seq<nat>, len: nat, maxCode: int, optLen': int, staticLen': int,
             ghost forced: set<nat>)
    requires Counted(freq, elems, heap0, len0, maxCode0) && (stree == [] || |stree| == |freq|)
    ensures Forced(freq, elems, freq', forced) && Counted(freq', elems, heap, len, maxCode) && len >= 2 && maxCode >= 0
    ensures len0 >= 2 ==> forced == {}
    ensures len0 < 2 ==> len == 2 && |forced| == 2 - len0
    ensures elems <= |freq| && ForcedRule(freq, elems, forced)
    ensures Corrected(stree, optLen, staticLen, optLen', staticLen', forced)
  {
    hide Counted, Corrected;
    freq', heap, len, maxCode, forced := freq, heap0, len0, maxCode0, {};
    optLen', staticLen' := optLen, staticLen;
    CorrectedNone(stree, optLen, staticLen);
    CountedNone(freq', elems, heap, len, maxCode);
    assert elems <= |freq| by { CountedSize(freq, elems, heap, len, maxCode); }
    while len < 2
      invariant Forced(freq, elems, freq', forced) && Counted(freq', elems, heap, len, maxCode)
      invariant (maxCode < 0 ==> len == 0) && (len == 0 ==> maxCode < 0)
      invariant len0 == 0 ==> (len == 1 ==> forced == {0} && maxCode == 0) && (len == 2 ==> forced == {0, 1})
      invariant len0 == 1 ==> (len == 1 ==> maxCode == maxCode0)
      invariant len0 == 1 ==> (len == 2 ==> forced == {if maxCode0 < 2 then maxCode0 + 1 else 0})
      invariant (len0 >= 2 ==> forced == {} && len == len0) && (len0 < 2 ==> len <= 2 && |forced| == len - len0)
      invariant Corrected(stree, optLen, staticLen, optLen', staticLen', forced)
    {
      var node;
      node, heap, maxCode := ForceOne(freq', elems, heap, len, maxCode);
      CorrectedMore(stree, optLen, staticLen, optLen', staticLen', forced, node);
      optLen' := optLen' - 1;
      if stree != [] {
        staticLen' := staticLen' - stree[node];
      }
      freq' := freq'[node := 1];
      forced := forced + {node};
      len := len + 1;
    }
    RuleHolds(freq, elems, heap0, len0, maxCode0, forced);
  }

  lemma CountedSize(freq: seq<nat>, elems: nat, heap: seq<nat>, len: nat, maxCode: int)
    requires Counted(freq, elems, heap, len, maxCode)
    ensures 3 <= elems <= 286 && |freq| == 2 * elems + 1
  {
  }

  /** Establishes the order of the heap, from the last father up. */
  method Heapify(keys: Keys, heap: seq<nat>, len: nat, ghost nodes: set<nat>) returns (heap': seq<nat>)
    requires Holds(keys, heap, len) && Lists(heap, len, nodes)
    ensures |heap'| == |heap| && Holds(keys, heap', len) && Lists(heap', len, nodes) && Ordered(keys, heap', len, 1)
  {
    hide Lists;
    heap' := heap;
    var n := len / 2;
    forall i | n + 1 <= i <= len ensures Tops(keys, heap', len, heap'[i], i) {
      Bottom(keys, heap', len, heap'[i], i);
    }
    while n >= 1
      invariant 0 <= n <= len && |heap'| == |heap| && Holds(keys, heap', len) && Lists(heap', len, nodes)
      invariant Ordered(keys, heap', len, n + 1)
    {
      heap' := PqDownHeap(keys, heap', len, n, nodes);
      n := n - 1;
    }
  }

  /** The tree as a whole: what `build_tree` has when it comes to compute the lengths. */
  ghost predicate Built(freq: seq<nat>, elems: nat, w: Work, maxCode: int, forced: set<nat>, freq': seq<nat>,
                        merges: seq<(nat, nat)>) {
    && Forced(freq, elems, freq', forced) && |w.keys.freq| == |w.dad| == |freq| == 2 * elems + 1
    && (forall i :: 0 <= i < elems ==> w.keys.freq[i] == freq'[i])
    && IsHuffman(Used(freq', elems), elems, w.keys.freq, merges) && ByDepth(Used(freq', elems), elems, w.keys, merges)
    && merges != [] && |Used(freq', elems)| <= elems
    && Stored(w.heap, merges) && Fathers(elems, w.dad, merges)
    && w.max == HEAP_SIZE - 2 * |merges| - 1 && w.heap[w.max] == elems + |merges| - 1
    && (forall i :: 0 <= i < elems && freq'[i] == 0 ==> w.dad[i] == 0)
    && 0 <= maxCode < elems && freq'[maxCode] != 0 && (forall i :: maxCode < i < elems ==> freq'[i] == 0)
  }

  /** Makes the tree for the frequencies of the first `elems` nodes. */
  method Construct(freq: seq<nat>, elems: nat, stree: seq<nat>, optLen: int, staticLen: int)
    returns (w: Work, maxCode: int, optLen': int, staticLen': int,
             ghost forced: set<nat>, ghost freq': seq<nat>, ghost merges: seq<(nat, nat)>)
    requires 3 <= elems <= 286 && |freq| == 2 * elems + 1 && (stree == [] || |stree| == |freq|)
    ensures Built(freq, elems, w, maxCode, forced, freq', merges)
    ensures ForcedRule(freq, elems, forced)
    ensures |Used(freq, elems)| < 2 ==> |merges| == 1 && |forced| == 2 - |Used(freq, elems)|
    ensures Corrected(stree, optLen, staticLen, optLen', staticLen', forced)
  {
    hide Lists, Live, Least, Ordered, Corrected;
    var heap, len, dad;
    heap, len, maxCode, dad := Collect(freq, elems);
    ListsSize(heap, len, Used(freq, elems));
    var f;
    f, heap, len, maxCode, optLen', staticLen', forced := ForceTwo(freq, elems, heap, len, maxCode, stree, optLen,
                                                                   staticLen);
    freq' := f;
    ghost var leaves := Used(f, elems);
    ListsSize(heap, len, leaves);
    ListsBound(heap, len, leaves);
    var keys := Keys(f, seq(|f|, _ => 0));
    heap := Heapify(keys, heap, len, leaves);
    w := Work(keys, dad, heap, len, HEAP_SIZE);
    merges := [];
    assert Live(leaves, elems, merges, 0) == leaves by { LiveNone(leaves, elems, merges); }
    w, merges := MergeAll(w, elems, leaves);
  }

  lemma {:induction false} LiveNone(leaves: set<nat>, elems: nat, merges: seq<(nat, nat)>)
    ensures Live(leaves, elems, merges, 0) == leaves
  {
  }

  lemma ListsBound(heap: seq<nat>, len: nat, nodes: set<nat>)
    requires Lists(heap, len, nodes)
    ensures len < |heap| && forall i :: 1 <= i <= len ==> heap[i] in nodes
  {
  }

  method MergeAll(w0: Work, elems: nat, ghost leaves: set<nat>) returns (w: Work, ghost merges: seq<(nat, nat)>)
    requires Building(leaves, elems, w0, [])
    ensures IsHuffman(leaves, elems, w.keys.freq, merges) && |merges| == |leaves| - 1
    ensures ByDepth(leaves, elems, w.keys, merges)
    ensures |w.keys.freq| == |w.dad| == 2 * elems + 1
    ensures Stored(w.heap, merges) && Fathers(elems, w.dad, merges)
    ensures w.max == HEAP_SIZE - 2 * |merges| - 1 && w.heap[w.max] == elems + |merges| - 1
    ensures forall i :: 0 <= i < elems ==> w.keys.freq[i] == w0.keys.freq[i]
    ensures forall i :: 0 <= i < elems && i !in leaves ==> w.dad[i] == w0.dad[i]
  {
    hide Lists, Live, Least, Ordered, Stored, Fathers, Merged, ByDepth;
    w, merges := w0, [];
    var node := elems;
    while w.len >= 2
      invariant Building(leaves, elems, w, merges) && node == elems + |merges|
      invariant forall i :: 0 <= i < elems ==> w.keys.freq[i] == w0.keys.freq[i]
      invariant forall i :: 0 <= i < elems && i !in leaves ==> w.dad[i] == w0.dad[i]
      decreases w.len
    {
      w, merges := MergeTwo(w, node, leaves, elems, merges);
      node := node + 1;
    }
    StoredSize(w.heap, merges);
    RootLeft(leaves, elems, w, merges);
    ghost var stored := w.heap;
    w := w.(max := w.max - 1, heap := w.heap[w.max - 1 := w.heap[1]]);
    StoredFrame(stored, w.heap, merges);
  }

  /** The only node left is the last one made. */
  lemma RootLeft(leaves: set<nat>, elems: nat, w: Work, merges: seq<(nat, nat)>)
    requires Building(leaves, elems, w, merges) && w.len < 2
    ensures IsHuffman(leaves, elems, w.keys.freq, merges) && |merges| == |leaves| - 1
    ensures w.heap[1] == elems + |merges| - 1
  {
    hide Live, Least, Ordered, Stored, Fathers, Merged;
    LastLive(leaves, elems, w.keys.freq, merges);
    assert w.heap[1] in Live(leaves, elems, merges, |merges|);
  }
}
