/**
 What breaking ties by depth is good for (`smaller` and `build_tree` of src/zlib/trees.c):
 of all codes that cost as little, none has a shorter longest word.
 */
module MinHeight {
  import opened Heap
  import opened Weights
  import opened Huffman

  function Higher(a: nat, b: nat): nat {
    (if a >= b then a else b) + 1
  }

  /** `n` is the smallest of the nodes and `m` the smallest of the others, by frequency and then by depth. */
  ghost predicate Lowest(nodes: set<nat>, k: Keys, n: nat, m: nat) {
    && |k.depth| == |k.freq| && n in nodes && m in nodes && n != m && (forall x :: x in nodes ==> x < |k.freq|)
    && (forall x :: x in nodes ==> Smaller(k, n, x)) && forall x :: x in nodes && x != n ==> Smaller(k, m, x)
  }

  /** Merge `j` joins the two smallest nodes, and the depth of the new one is one more than that of its sons. */
  ghost predicate MergedLowest(leaves: set<nat>, elems: nat, k: Keys, merges: seq<(nat, nat)>, j: nat)
    requires j < |merges|
  {
    var (n, m) := merges[j];
    && Lowest(Live(leaves, elems, merges, j), k, n, m) && elems + j < |k.depth|
    && k.depth[elems + j] == Higher(k.depth[n], k.depth[m])
  }

  ghost predicate ByDepth(leaves: set<nat>, elems: nat, k: Keys, merges: seq<(nat, nat)>) {
    && |k.depth| == |k.freq| && (forall x :: x in leaves ==> x < |k.depth| && k.depth[x] == 0)
    && forall j :: 0 <= j < |merges| ==> MergedLowest(leaves, elems, k, merges, j)
  }

  // ------------------------------------------------- the depth of a node is its height

  function Root(elems: nat, merges: seq<(nat, nat)>): nat
    requires merges != []
  {
    elems + |merges| - 1
  }

  lemma DepthDown(leaves: set<nat>, elems: nat, k: Keys, merges: seq<(nat, nat)>, j: nat, x: nat)
    requires IsHuffman(leaves, elems, k.freq, merges) && j < |merges| && x in Live(leaves, elems, merges, j)
    ensures var (n, m) := merges[j];
      TreeDepth(elems, merges, x, j)
        == if x == n || x == m then 1 + TreeDepth(elems, merges, elems + j, j + 1)
          else TreeDepth(elems, merges, x, j + 1)
  {
  }

  /** A node and what is above it are no higher than the whole tree. */
  lemma {:induction false} HeightAtMost(leaves: set<nat>, elems: nat, k: Keys, merges: seq<(nat, nat)>, j: nat, x: nat)
    requires IsHuffman(leaves, elems, k.freq, merges) && ByDepth(leaves, elems, k, merges) && merges != []
    requires j <= |merges| && x in Live(leaves, elems, merges, j)
    ensures x < |k.depth| && TreeDepth(elems, merges, x, j) + k.depth[x] <= k.depth[Root(elems, merges)]
    decreases |merges| - j
  {
    hide IsHuffman, TreeDepth;
    if j == |merges| {
      LastLive(leaves, elems, k.freq, merges);
      assert MergedLowest(leaves, elems, k, merges, j - 1);
      AtRoot(elems, merges, x);
    } else {
      assert MergedLowest(leaves, elems, k, merges, j);
      DepthDown(leaves, elems, k, merges, j, x);
      var (n, m) := merges[j];
      if x == n || x == m {
        HeightAtMost(leaves, elems, k, merges, j + 1, elems + j);
      } else {
        HeightAtMost(leaves, elems, k, merges, j + 1, x);
      }
    }
  }

  lemma AtRoot(elems: nat, merges: seq<(nat, nat)>, x: nat)
    ensures TreeDepth(elems, merges, x, |merges|) == 0
  {
  }

  /** Some leaf is as deep as the tree is high. */
  lemma {:induction false} HeightReached(leaves: set<nat>, elems: nat, k: Keys, merges: seq<(nat, nat)>,
                                         j: nat, y: nat) returns (x: nat)
    requires IsHuffman(leaves, elems, k.freq, merges) && ByDepth(leaves, elems, k, merges) && merges != []
    requires j <= |merges| && y in Live(leaves, elems, merges, j) && y < |k.depth|
    requires TreeDepth(elems, merges, y, j) + k.depth[y] == k.depth[Root(elems, merges)]
    ensures x in leaves && TreeDepth(elems, merges, x, 0) == k.depth[Root(elems, merges)]
    decreases j
  {
    hide IsHuffman, TreeDepth;
    if j == 0 {
      x := y;
    } else {
      assert MergedLowest(leaves, elems, k, merges, j - 1);
      var (n, m) := merges[j - 1];
      var z := if y != elems + j - 1 then y else if k.depth[n] >= k.depth[m] then n else m;
      NotNew(leaves, elems, k, merges, j, y);
      DepthDown(leaves, elems, k, merges, j - 1, z);
      x := HeightReached(leaves, elems, k, merges, j - 1, z);
    }
  }

  lemma NotNew(leaves: set<nat>, elems: nat, k: Keys, merges: seq<(nat, nat)>, j: nat, y: nat)
    requires IsHuffman(leaves, elems, k.freq, merges) && 0 < j <= |merges| && y in Live(leaves, elems, merges, j)
    ensures y != elems + j - 1 ==>
      y in Live(leaves, elems, merges, j - 1) && y != merges[j - 1].0 && y != merges[j - 1].1
  {
  }

  /** The depth kept for the root is the length of the longest word. */
  lemma HeightIs(leaves: set<nat>, elems: nat, k: Keys, merges: seq<(nat, nat)>) returns (x: nat)
    requires IsHuffman(leaves, elems, k.freq, merges) && ByDepth(leaves, elems, k, merges) && merges != []
    ensures x in leaves && TreeDepth(elems, merges, x, 0) == k.depth[Root(elems, merges)]
    ensures forall y :: y in leaves ==> TreeDepth(elems, merges, y, 0) <= TreeDepth(elems, merges, x, 0)
  {
    hide IsHuffman, TreeDepth;
    LastLive(leaves, elems, k.freq, merges);
    AtRoot(elems, merges, Root(elems, merges));
    assert MergedLowest(leaves, elems, k, merges, |merges| - 1);
    x := HeightReached(leaves, elems, k, merges, |merges|, Root(elems, merges));
    forall y | y in leaves ensures TreeDepth(elems, merges, y, 0) <= k.depth[Root(elems, merges)] {
      HeightAtMost(leaves, elems, k, merges, 0, y);
    }
  }

  // ------------------------------------------------- no best code is lower

  /** With the heights of the nodes below them the words stay within `top`. */
  ghost predicate Reaching(nodes: set<nat>, l: seq<nat>, h: seq<nat>, top: nat)
    requires |l| == |h|
  {
    forall x :: x in nodes ==> x < |l| && l[x] + h[x] <= top
  }

  /** Exchanging a smallest node with a deepest one, where that cannot make the code cheaper, makes nothing higher. */
  lemma SwapReaching(nodes: set<nat>, k: Keys, l: seq<nat>, m: nat, x: nat, y: nat, top: nat, least: nat)
    returns (l': seq<nat>)
    requires |l| == |k.freq| == |k.depth| && Feasible(nodes, l, m) && x in nodes && y in nodes && Smaller(k, x, y)
    requires l[x] <= l[y] && Reaching(nodes, l, k.depth, top) && Cost(nodes, k.freq, l) == least
    requires forall v: seq<nat> :: |v| == |l| && Feasible(nodes, v, m) ==> Cost(nodes, k.freq, v) >= least
    ensures |l'| == |l| && l' == l[x := l[y]][y := l[x]] && Feasible(nodes, l', m)
    ensures Reaching(nodes, l', k.depth, top) && Cost(nodes, k.freq, l') == least
  {
    hide Cost, Feasible;
    l' := Swap(nodes, k.freq, l, m, x, y);
    if x != y && k.freq[x] < k.freq[y] && l[x] < l[y] {
      SwapCost(nodes, k.freq, l, l', x, y);
      assert false;
    }
  }

  lemma Bounded(leaves: set<nat>, elems: nat, f: seq<nat>, merges: seq<(nat, nat)>, j: nat, m: nat)
    requires IsHuffman(leaves, elems, f, merges) && j <= |merges|
    ensures forall v: seq<nat> :: |v| == |f| && Feasible(Live(leaves, elems, merges, j), v, m) ==>
      Cost(Live(leaves, elems, merges, j), f, v) >= InnerSum(elems, f, j, |merges|)
  {
    forall v: seq<nat> | |v| == |f| && Feasible(Live(leaves, elems, merges, j), v, m)
      ensures Cost(Live(leaves, elems, merges, j), f, v) >= InnerSum(elems, f, j, |merges|)
    {
      LowerBound(leaves, elems, f, merges, j, v, m);
    }
  }

  /** One merge, done to the lengths of any code that costs as little. */
  lemma MergeReaching(leaves: set<nat>, elems: nat, k: Keys, merges: seq<(nat, nat)>, j: nat, l: seq<nat>, m: nat,
                      top: nat) returns (l': seq<nat>)
    requires IsHuffman(leaves, elems, k.freq, merges) && ByDepth(leaves, elems, k, merges) && j < |merges|
    requires |l| == |k.freq| && Feasible(Live(leaves, elems, merges, j), l, m)
    requires Cost(Live(leaves, elems, merges, j), k.freq, l) == InnerSum(elems, k.freq, j, |merges|)
    requires Reaching(Live(leaves, elems, merges, j), l, k.depth, top)
    ensures |l'| == |l| && Feasible(Live(leaves, elems, merges, j + 1), l', m)
    ensures Cost(Live(leaves, elems, merges, j + 1), k.freq, l') == InnerSum(elems, k.freq, j + 1, |merges|)
    ensures Reaching(Live(leaves, elems, merges, j + 1), l', k.depth, top)
  {
    hide *;
    MergeFacts(leaves, elems, k, merges, j);
    var nodes, least := Live(leaves, elems, merges, j), InnerSum(elems, k.freq, j, |merges|);
    var (a, b) := merges[j];
    Bounded(leaves, elems, k.freq, merges, j, m);
    var y := Deepest(nodes, l);
    LowestAt(nodes, k, a, b, y);
    var l1 := SwapReaching(nodes, k, l, m, a, y, top, least);
    var z := Deepest(nodes - {a}, l1);
    LowestAt(nodes, k, a, b, z);
    var l2 := SwapReaching(nodes, k, l1, m, b, z, top, least);
    TwoDeepest(nodes, l, a, b, y, z);
    Shorten(nodes, k.freq, l2, m, a, l2[b]);
    var l3 := l2[a := l2[b]];
    Shortened(nodes, l2, k.depth, a, l2[b], top);
    l' := Joined(nodes, k, l3, m, a, b, elems + j, top);
    NextInner(elems, k.freq, j, |merges|);
  }

  /** After both exchanges the two are the deepest. */
  lemma TwoDeepest(nodes: set<nat>, l: seq<nat>, a: nat, b: nat, y: nat, z: nat)
    requires (forall x :: x in nodes ==> x < |l|) && a in nodes && b in nodes && a != b && y in nodes
    requires z in nodes && z != a && forall x :: x in nodes ==> l[x] <= l[y]
    requires var l1 := l[a := l[y]][y := l[a]]; forall x :: x in nodes && x != a ==> l1[x] <= l1[z]
    ensures var l1 := l[a := l[y]][y := l[a]];
      var l2 := l1[b := l1[z]][z := l1[b]];
      AtMost(nodes - {a}, l2, l2[b]) && l2[b] <= l2[a]
  {
  }

  lemma MergeFacts(leaves: set<nat>, elems: nat, k: Keys, merges: seq<(nat, nat)>, j: nat)
    requires IsHuffman(leaves, elems, k.freq, merges) && ByDepth(leaves, elems, k, merges) && j < |merges|
    ensures var nodes, (a, b) := Live(leaves, elems, merges, j), merges[j];
      && |k.depth| == |k.freq| && elems + |merges| <= |k.freq| && Lowest(nodes, k, a, b) && a in nodes && b in nodes
      && a != b && b in nodes - {a} && (forall x :: x in nodes ==> x < |k.freq|) && nodes != {} && nodes - {a} != {}
      && elems + j !in nodes && k.freq[elems + j] == k.freq[a] + k.freq[b]
      && k.depth[elems + j] == Higher(k.depth[a], k.depth[b])
      && nodes - {a, b} + {elems + j} == Live(leaves, elems, merges, j + 1)
  {
    hide Smaller;
    assert Merged(leaves, elems, k.freq, merges, j) && MergedLowest(leaves, elems, k, merges, j);
    LiveBound(leaves, elems, merges, j);
    var (a, b) := merges[j];
    assert b in Live(leaves, elems, merges, j) - {a};
  }

  lemma LowestAt(nodes: set<nat>, k: Keys, a: nat, b: nat, y: nat)
    requires Lowest(nodes, k, a, b)
    ensures |k.depth| == |k.freq| && a < |k.freq| && b < |k.freq|
    ensures y in nodes ==> y < |k.freq| && Smaller(k, a, y) && (y != a ==> Smaller(k, b, y))
  {
    hide Smaller;
  }

  lemma Shortened(nodes: set<nat>, l: seq<nat>, h: seq<nat>, a: nat, p: nat, top: nat)
    requires |l| == |h| && Reaching(nodes, l, h, top) && a < |l| && p <= l[a]
    ensures Reaching(nodes, l[a := p], h, top)
  {
  }

  lemma NextInner(elems: nat, f: seq<nat>, j: nat, n: nat)
    requires j < n && elems + n <= |f|
    ensures InnerSum(elems, f, j, n) == f[elems + j] + InnerSum(elems, f, j + 1, n)
  {
  }

  lemma Joined(nodes: set<nat>, k: Keys, l: seq<nat>, m: nat, a: nat, b: nat, c: nat, top: nat) returns (l': seq<nat>)
    requires |k.freq| == |l| == |k.depth| && Feasible(nodes, l, m) && a in nodes && b in nodes && a != b && l[a] == l[b]
    requires c !in nodes && c < |l| && k.freq[c] == k.freq[a] + k.freq[b] && Reaching(nodes, l, k.depth, top)
    requires k.depth[c] == Higher(k.depth[a], k.depth[b])
    ensures |l'| == |l| && Feasible(nodes - {a, b} + {c}, l', m) && Reaching(nodes - {a, b} + {c}, l', k.depth, top)
    ensures Cost(nodes - {a, b} + {c}, k.freq, l') + k.freq[c] == Cost(nodes, k.freq, l)
  {
    hide Cost, Kraft;
    l' := Join(nodes, k.freq, l, m, a, b, c);
  }

  /** Whatever costs as little as the tree reaches as far down. */
  lemma {:induction false} LowestHeight(leaves: set<nat>, elems: nat, k: Keys, merges: seq<(nat, nat)>, j: nat,
                                        l: seq<nat>, m: nat, top: nat)
    requires IsHuffman(leaves, elems, k.freq, merges) && ByDepth(leaves, elems, k, merges) && merges != []
    requires j <= |merges| && |l| == |k.freq| && Feasible(Live(leaves, elems, merges, j), l, m)
    requires Cost(Live(leaves, elems, merges, j), k.freq, l) == InnerSum(elems, k.freq, j, |merges|)
    requires Reaching(Live(leaves, elems, merges, j), l, k.depth, top)
    ensures Root(elems, merges) < |k.depth| && top >= k.depth[Root(elems, merges)]
    decreases |merges| - j
  {
    hide Cost, Feasible, IsHuffman, MergedLowest;
    if j == |merges| {
      LastLive(leaves, elems, k.freq, merges);
      assert Root(elems, merges) in Live(leaves, elems, merges, j);
    } else {
      var l' := MergeReaching(leaves, elems, k, merges, j, l, m, top);
      LowestHeight(leaves, elems, k, merges, j + 1, l', m, top);
    }
  }

  /**
   Words that form a prefix code and cost no more than the depths in the tree are not all
   shorter than the deepest leaf.
  */
  lemma LongestWord(leaves: set<nat>, elems: nat, k: Keys, merges: seq<(nat, nat)>, l: seq<nat>,
                    words: seq<seq<bool>>) returns (x: nat, y: nat)
    requires IsHuffman(leaves, elems, k.freq, merges) && ByDepth(leaves, elems, k, merges) && merges != []
    requires |l| == |k.freq| && Depths(elems, merges, l)
    requires |words| == |k.freq| && PrefixFree(leaves, words)
    requires Cost(leaves, k.freq, Lengths(words)) <= Cost(leaves, k.freq, l)
    ensures x in leaves && y in leaves && |words[x]| >= TreeDepth(elems, merges, y, 0)
    ensures forall z :: z in leaves ==> TreeDepth(elems, merges, z, 0) <= TreeDepth(elems, merges, y, 0)
  {
    hide Cost, IsHuffman, Depths, Feasible, TreeDepth;
    y := HeightIs(leaves, elems, k, merges);
    var m := Longest(leaves, words);
    KraftInequality(leaves, words, m);
    DepthsCost(leaves, elems, k.freq, merges, 0, l);
    LowerBound(leaves, elems, k.freq, merges, 0, Lengths(words), m);
    x := Deepest(leaves, Lengths(words));
    LowestHeight(leaves, elems, k, merges, 0, Lengths(words), m, |words[x]|);
  }
}
