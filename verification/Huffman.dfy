/**
 Huffman's construction as `build_tree` of src/zlib/trees.c carries it out, and why its
 result is best: a list of merges, each of the two least frequent nodes that are left.
 */
module Huffman {
  import opened Bits
  import opened Weights

  /** The nodes left before merge `k`: merge `j` turns `merges[j]` into node `elems + j`. */
  ghost function Live(leaves: set<nat>, elems: nat, merges: seq<(nat, nat)>, k: nat): set<nat>
    requires k <= |merges|
  {
    if k == 0 then leaves
    else Live(leaves, elems, merges, k - 1) - {merges[k - 1].0, merges[k - 1].1} + {elems + k - 1}
  }

  /** `n` and `m` are the two least frequent nodes. */
  ghost predicate Least(nodes: set<nat>, f: seq<nat>, n: nat, m: nat) {
    && n in nodes && m in nodes && n != m && (forall x :: x in nodes ==> x < |f|) && f[n] <= f[m]
    && forall x :: x in nodes && x != n && x != m ==> f[m] <= f[x]
  }

  /** Merge `k` joins the two least frequent nodes into one that has the sum of their frequencies. */
  ghost predicate Merged(leaves: set<nat>, elems: nat, f: seq<nat>, merges: seq<(nat, nat)>, k: nat)
    requires k < |merges|
  {
    var (n, m) := merges[k];
    Least(Live(leaves, elems, merges, k), f, n, m) && elems + k < |f| && f[elems + k] == f[n] + f[m]
  }

  /** The merges lead from the leaves to a single node. */
  ghost predicate IsHuffman(leaves: set<nat>, elems: nat, f: seq<nat>, merges: seq<(nat, nat)>) {
    && (forall x :: x in leaves ==> x < elems)
    && (forall k :: 0 <= k < |merges| ==> Merged(leaves, elems, f, merges, k))
    && elems + |merges| <= |f| && |leaves| == |merges| + 1
  }

  // ------------------------------------------------- the nodes left

  /** All nodes that are left were there from the start or made by a merge. */
  lemma {:induction false} LiveBound(leaves: set<nat>, elems: nat, merges: seq<(nat, nat)>, k: nat)
    requires k <= |merges| && forall x :: x in leaves ==> x < elems
    ensures forall x :: x in Live(leaves, elems, merges, k) ==> x in leaves || elems <= x < elems + k
    decreases k
  {
    if k > 0 {
      LiveBound(leaves, elems, merges, k - 1);
    }
  }

  lemma {:induction false} LiveSize(leaves: set<nat>, elems: nat, f: seq<nat>, merges: seq<(nat, nat)>, k: nat)
    requires k <= |merges| && (forall x :: x in leaves ==> x < elems)
    requires forall j :: 0 <= j < k ==> Merged(leaves, elems, f, merges, j)
    ensures |Live(leaves, elems, merges, k)| + k == |leaves|
    decreases k
  {
    if k > 0 {
      LiveSize(leaves, elems, f, merges, k - 1);
      LiveBound(leaves, elems, merges, k - 1);
      assert Merged(leaves, elems, f, merges, k - 1);
      var live := Live(leaves, elems, merges, k - 1);
      var (n, m) := merges[k - 1];
      assert |live - {n, m}| == |live| - |{n, m}|;
      assert elems + k - 1 !in live;
    }
  }

  // ------------------------------------------------- no node weighs more than all leaves

  lemma {:induction false} LiveTotal(leaves: set<nat>, elems: nat, f: seq<nat>, merges: seq<(nat, nat)>, k: nat)
    requires IsHuffman(leaves, elems, f, merges) && k <= |merges|
    ensures Total(Live(leaves, elems, merges, k), f) == Total(leaves, f)
    decreases k
  {
    if k > 0 {
      LiveTotal(leaves, elems, f, merges, k - 1);
      LiveBound(leaves, elems, merges, k - 1);
      assert Merged(leaves, elems, f, merges, k - 1);
      var live, next, c := Live(leaves, elems, merges, k - 1), Live(leaves, elems, merges, k), elems + k - 1;
      var (n, m) := merges[k - 1];
      TotalRemove(live, f, n);
      TotalRemove(live - {n}, f, m);
      TotalRemove(next, f, c);
      assert live - {n} - {m} == next - {c};
    }
  }

  lemma {:induction false} NodeBound(leaves: set<nat>, elems: nat, f: seq<nat>, merges: seq<(nat, nat)>, x: nat)
    requires IsHuffman(leaves, elems, f, merges) && (x in leaves || elems <= x < elems + |merges|)
    ensures x < |f| && f[x] <= Total(leaves, f)
  {
    hide Total;
    var k: nat := if x in leaves then 0 else x - elems + 1;
    LiveTotal(leaves, elems, f, merges, k);
    TotalRemove(Live(leaves, elems, merges, k), f, x);
  }

  // ------------------------------------------------- lower bound

  /** Lengths that a prefix code could have, in units of `2^-m`. */
  ghost predicate Feasible(nodes: set<nat>, l: seq<nat>, m: nat) {
    AtMost(nodes, l, m) && Kraft(nodes, l, m) <= Pow2(m)
  }

  /** A node of greatest length. */
  lemma {:induction false} Deepest(nodes: set<nat>, l: seq<nat>) returns (y: nat)
    requires nodes != {} && forall x :: x in nodes ==> x < |l|
    ensures y in nodes && forall x :: x in nodes ==> l[x] <= l[y]
    decreases |nodes|
  {
    y :| y in nodes;
    if nodes != {y} {
      var z := Deepest(nodes - {y}, l);
      if l[z] > l[y] {
        y := z;
      }
    }
  }

  lemma SwapProduct(a: nat, b: nat, p: nat, q: nat)
    requires a <= b && p <= q
    ensures a * q + b * p <= a * p + b * q
    ensures a < b && p < q ==> a * q + b * p < a * p + b * q
  {
    assert (b - a) * (q - p) >= 0;
    assert a < b && p < q ==> (b - a) * (q - p) > 0;
  }

  /** Giving the rarer of two nodes the longer code does not cost more. */
  lemma Swap(nodes: set<nat>, f: seq<nat>, l: seq<nat>, m: nat, x: nat, y: nat) returns (l': seq<nat>)
    requires |f| == |l| && Feasible(nodes, l, m) && x in nodes && y in nodes && f[x] <= f[y] && l[x] <= l[y]
    ensures |l'| == |l| && l' == l[x := l[y]][y := l[x]] && Feasible(nodes, l', m)
    ensures Cost(nodes, f, l') <= Cost(nodes, f, l)
  {
    hide Cost, Kraft, Pow2;
    l' := l[x := l[y]][y := l[x]];
    if x == y {
      assert l' == l;
    } else {
      SwapCost(nodes, f, l, l', x, y);
      SwapKraft(nodes, l, l', m, x, y);
    }
  }

  lemma SwapCost(nodes: set<nat>, f: seq<nat>, l: seq<nat>, l': seq<nat>, x: nat, y: nat)
    requires |f| == |l| && x in nodes && y in nodes && x != y && x < |l| && y < |l| && f[x] <= f[y] && l[x] <= l[y]
    requires l' == l[x := l[y]][y := l[x]]
    ensures Cost(nodes, f, l') <= Cost(nodes, f, l)
    ensures f[x] < f[y] && l[x] < l[y] ==> Cost(nodes, f, l') < Cost(nodes, f, l)
  {
    hide Cost;
    CostRemove(nodes, f, l, x);
    CostRemove(nodes - {x}, f, l, y);
    CostRemove(nodes, f, l', x);
    CostRemove(nodes - {x}, f, l', y);
    CostSame(nodes - {x} - {y}, f, f, l, l');
    SwapProduct(f[x], f[y], l[x], l[y]);
  }

  lemma SwapKraft(nodes: set<nat>, l: seq<nat>, l': seq<nat>, m: nat, x: nat, y: nat)
    requires AtMost(nodes, l, m) && x in nodes && y in nodes && x != y && l' == l[x := l[y]][y := l[x]]
    ensures Kraft(nodes, l', m) == Kraft(nodes, l, m)
  {
    hide Kraft, Pow2;
    KraftRemove(nodes, l, m, x);
    KraftRemove(nodes - {x}, l, m, y);
    KraftRemove(nodes, l', m, x);
    KraftRemove(nodes - {x}, l', m, y);
    KraftSame(nodes - {x} - {y}, nodes - {x} - {y}, l, l', m);
  }

  /** A node that is deeper than all others can be moved up to the deepest of them. */
  lemma Shorten(nodes: set<nat>, f: seq<nat>, l: seq<nat>, m: nat, n: nat, p: nat)
    requires |f| == |l| && Feasible(nodes, l, m) && n in nodes && p <= l[n] && AtMost(nodes - {n}, l, p)
    ensures Feasible(nodes, l[n := p], m) && Cost(nodes, f, l[n := p]) <= Cost(nodes, f, l)
  {
    hide Cost, Kraft, Pow2;
    var rest, l' := nodes - {n}, l[n := p];
    KraftRemove(nodes, l, m, n);
    KraftRemove(nodes, l', m, n);
    KraftSame(rest, rest, l, l', m);
    KraftScale(rest, l, p, m);
    RoomForOne(Kraft(rest, l, p), p, m);
    CostRemove(nodes, f, l, n);
    CostRemove(nodes, f, l', n);
    CostSame(rest, f, f, l, l');
    MulMono(f[n], p, l[n]);
  }

  lemma MulMono(a: nat, p: nat, q: nat)
    requires p <= q
    ensures a * p <= a * q
  {
    assert a * (q - p) >= 0;
  }

  /** What is less than all, in coarse units, leaves room for one of them. */
  lemma RoomForOne(k: nat, p: nat, m: nat)
    requires p <= m && Shl(k, m - p) < Pow2(m)
    ensures Shl(k, m - p) + Pow2(m - p) <= Pow2(m)
  {
    Pow2Shl(p, m - p);
    assert p + (m - p) == m;
    Pow2Shl(0, m - p);
    assert 0 + (m - p) == m - p;
    ShlAdd(k, 1, m - p);
    if k >= Pow2(p) {
      ShlMono(Pow2(p), k, m - p);
    }
    ShlMono(k + 1, Pow2(p), m - p);
  }

  /** The two least frequent nodes can be made the deepest, side by side, at no cost. */
  lemma MakeDeepest(nodes: set<nat>, f: seq<nat>, l: seq<nat>, m: nat, a: nat, b: nat) returns (l': seq<nat>)
    requires |f| == |l| && Feasible(nodes, l, m) && Least(nodes, f, a, b)
    ensures |l'| == |l| && Feasible(nodes, l', m) && l'[a] == l'[b] && Cost(nodes, f, l') <= Cost(nodes, f, l)
  {
    hide Cost, Kraft, Pow2;
    var y := Deepest(nodes, l);
    var l1 := Swap(nodes, f, l, m, a, y);
    assert b in nodes - {a};
    var z := Deepest(nodes - {a}, l1);
    var l2 := Swap(nodes, f, l1, m, b, z);
    Shorten(nodes, f, l2, m, a, l2[b]);
    l' := l2[a := l2[b]];
  }

  /** Joining two nodes that are side by side into one a level up. */
  lemma Join(nodes: set<nat>, f: seq<nat>, l: seq<nat>, m: nat, a: nat, b: nat, c: nat) returns (l': seq<nat>)
    requires |f| == |l| && Feasible(nodes, l, m) && a in nodes && b in nodes && a != b && l[a] == l[b]
    requires c !in nodes && c < |f| && f[c] == f[a] + f[b]
    ensures l[a] > 0 && l' == l[c := l[a] - 1] && Feasible(nodes - {a, b} + {c}, l', m)
    ensures Cost(nodes - {a, b} + {c}, f, l') + f[c] == Cost(nodes, f, l)
  {
    hide Cost, Kraft;
    KraftRemove(nodes, l, m, a);
    KraftRemove(nodes - {a}, l, m, b);
    CostRemove(nodes, f, l, a);
    CostRemove(nodes - {a}, f, l, b);
    assert nodes - {a} - {b} == nodes - {a, b};
    assert l[a] > 0;
    l' := l[c := l[a] - 1];
    var nodes' := nodes - {a, b} + {c};
    KraftRemove(nodes', l', m, c);
    CostRemove(nodes', f, l', c);
    assert nodes' - {c} == nodes - {a, b};
    KraftSame(nodes - {a, b}, nodes - {a, b}, l, l', m);
    CostSame(nodes - {a, b}, f, f, l, l');
    Distribute(f[a], f[b], l[a]);
    assert Pow2(m - l'[c]) == 2 * Pow2(m - l[a]);
  }

  lemma Distribute(a: nat, b: nat, n: nat)
    requires n > 0
    ensures (a + b) * (n - 1) + (a + b) == a * n + b * n
  {
  }

  /** The sum of the frequencies of the nodes made by the merges from `k` on. */
  function InnerSum(elems: nat, f: seq<nat>, k: nat, n: nat): nat
    requires k <= n && elems + n <= |f|
    decreases n - k
  {
    if k == n then 0 else f[elems + k] + InnerSum(elems, f, k + 1, n)
  }

  /** No lengths of a prefix code cost less than the frequencies of the inner nodes add up to. */
  lemma {:induction false} LowerBound(leaves: set<nat>, elems: nat, f: seq<nat>, merges: seq<(nat, nat)>, k: nat,
                                      l: seq<nat>, m: nat)
    requires IsHuffman(leaves, elems, f, merges) && k <= |merges| && |l| == |f|
    requires Feasible(Live(leaves, elems, merges, k), l, m)
    ensures Cost(Live(leaves, elems, merges, k), f, l) >= InnerSum(elems, f, k, |merges|)
    decreases |merges| - k
  {
    hide Cost, Kraft, Feasible;
    if k < |merges| {
      var nodes := Live(leaves, elems, merges, k);
      var (a, b) := merges[k];
      assert Merged(leaves, elems, f, merges, k);
      LiveBound(leaves, elems, merges, k);
      var l1 := MakeDeepest(nodes, f, l, m, a, b);
      var l2 := Join(nodes, f, l1, m, a, b, elems + k);
      LowerBound(leaves, elems, f, merges, k + 1, l2, m);
    }
  }

  // ------------------------------------------------- prefix codes

  function Lengths(words: seq<seq<bool>>): (l: seq<nat>)
    ensures |l| == |words| && forall i :: 0 <= i < |words| ==> l[i] == |words[i]|
  {
    seq(|words|, i requires 0 <= i < |words| => |words[i]|)
  }

  /** No word of a node begins with the word of another. */
  ghost predicate PrefixFree(nodes: set<nat>, words: seq<seq<bool>>) {
    && (forall i :: i in nodes ==> i < |words|)
    && forall i, j :: i in nodes && j in nodes && i != j ==> !(words[i] <= words[j])
  }

  function Tails(words: seq<seq<bool>>): (t: seq<seq<bool>>)
    ensures |t| == |words| && forall i :: 0 <= i < |words| ==> t[i] == if words[i] == [] then [] else words[i][1..]
  {
    seq(|words|, i requires 0 <= i < |words| => if words[i] == [] then [] else words[i][1..])
  }

  /** The words that begin with bit `b`. */
  ghost function Under(nodes: set<nat>, words: seq<seq<bool>>, b: bool): set<nat> {
    set i | i in nodes && i < |words| && words[i] != [] && words[i][0] == b
  }

  lemma ConsPrefix(b: bool, u: seq<bool>, v: seq<bool>)
    ensures u <= v ==> [b] + u <= [b] + v
  {
    if u <= v {
      assert v == u + v[|u|..];
    }
  }

  lemma TailsPrefixFree(nodes: set<nat>, words: seq<seq<bool>>, b: bool)
    requires PrefixFree(nodes, words)
    ensures PrefixFree(Under(nodes, words, b), Tails(words))
  {
    var under, tails := Under(nodes, words, b), Tails(words);
    forall i, j | i in under && j in under && i != j ensures !(tails[i] <= tails[j]) {
      assert words[i] == [b] + tails[i] && words[j] == [b] + tails[j];
      ConsPrefix(b, tails[i], tails[j]);
    }
  }

  lemma TailsKraft(nodes: set<nat>, words: seq<seq<bool>>, b: bool, m: nat)
    requires m > 0 && AtMost(nodes, Lengths(words), m)
    ensures AtMost(Under(nodes, words, b), Lengths(Tails(words)), m - 1)
    ensures Kraft(Under(nodes, words, b), Lengths(words), m)
         == Kraft(Under(nodes, words, b), Lengths(Tails(words)), m - 1)
  {
    hide Pow2;
    var under := Under(nodes, words, b);
    TotalSame(under, under, Shares(Lengths(words), m), Shares(Lengths(Tails(words)), m - 1));
  }

  /** The lengths of any prefix code satisfy the Kraft inequality. */
  lemma {:induction false} KraftInequality(nodes: set<nat>, words: seq<seq<bool>>, m: nat)
    requires PrefixFree(nodes, words) && AtMost(nodes, Lengths(words), m)
    ensures Feasible(nodes, Lengths(words), m)
    decreases m
  {
    hide Kraft;
    if i :| i in nodes && words[i] == [] {
      forall j | j in nodes ensures j == i {
        assert words[i] <= words[j];
      }
      assert nodes - {i} == {};
      KraftRemove(nodes, Lengths(words), m, i);
      KraftNone(Lengths(words), m);
    } else if m > 0 {
      var a, b := Under(nodes, words, false), Under(nodes, words, true);
      assert nodes == a + b;
      KraftSplit(a, b, Lengths(words), m);
      TailsPrefixFree(nodes, words, false);
      TailsPrefixFree(nodes, words, true);
      TailsKraft(nodes, words, false, m);
      TailsKraft(nodes, words, true, m);
      KraftInequality(a, Tails(words), m - 1);
      KraftInequality(b, Tails(words), m - 1);
    } else {
      assert forall j :: j in nodes ==> Lengths(words)[j] == 0;
      assert nodes == {};
      KraftNone(Lengths(words), m);
    }
  }

  lemma KraftNone(l: seq<nat>, m: nat)
    ensures Kraft({}, l, m) == 0
  {
    TotalEmpty(Shares(l, m));
  }

  lemma KraftSplit(a: set<nat>, b: set<nat>, l: seq<nat>, m: nat)
    requires a !! b
    ensures Kraft(a + b, l, m) == Kraft(a, l, m) + Kraft(b, l, m)
  {
    TotalSplit(a, b, Shares(l, m));
  }

  // ------------------------------------------------- the lengths of the tree

  /** The lengths are depths in the tree that the merges make. */
  ghost predicate Depths(elems: nat, merges: seq<(nat, nat)>, l: seq<nat>) {
    && merges != [] && elems + |merges| <= |l| && l[elems + |merges| - 1] == 0
    && forall k :: 0 <= k < |merges| ==>
      merges[k].0 < |l| && merges[k].1 < |l| && l[merges[k].0] == l[elems + k] + 1 && l[merges[k].1] == l[elems + k] + 1
  }

  /** How many merges, from the `k`-th on, lead from node `x` up to the root. */
  function TreeDepth(elems: nat, merges: seq<(nat, nat)>, x: nat, k: nat): nat
    decreases |merges| - k
  {
    if k >= |merges| then 0
    else if merges[k].0 == x || merges[k].1 == x then 1 + TreeDepth(elems, merges, elems + k, k + 1)
    else TreeDepth(elems, merges, x, k + 1)
  }

  /** Some node of `nodes`, which are those left before merge `k`, is more than `max` levels below the root. */
  ghost predicate TooDeep(nodes: set<nat>, elems: nat, merges: seq<(nat, nat)>, k: nat, max: nat) {
    exists x :: x in nodes && TreeDepth(elems, merges, x, k) > max
  }

  /** The root is all that is left in the end. */
  lemma {:induction false} LastLive(leaves: set<nat>, elems: nat, f: seq<nat>, merges: seq<(nat, nat)>)
    requires IsHuffman(leaves, elems, f, merges) && merges != []
    ensures Live(leaves, elems, merges, |merges|) == {elems + |merges| - 1}
  {
    LiveSize(leaves, elems, f, merges, |merges|);
    var live, root := Live(leaves, elems, merges, |merges|), elems + |merges| - 1;
    assert |live| == 1 && root in live;
    assert |live - {root}| == 0;
  }

  /** The cost of the depths is the sum of the frequencies of the inner nodes. */
  lemma {:induction false} DepthsCost(leaves: set<nat>, elems: nat, f: seq<nat>, merges: seq<(nat, nat)>, k: nat,
                                      l: seq<nat>)
    requires IsHuffman(leaves, elems, f, merges) && |l| == |f| && k <= |merges| && Depths(elems, merges, l)
    ensures Cost(Live(leaves, elems, merges, k), f, l) == InnerSum(elems, f, k, |merges|)
    decreases |merges| - k
  {
    hide Cost;
    if k == |merges| {
      var root := elems + |merges| - 1;
      LastLive(leaves, elems, f, merges);
      CostRemove({root}, f, l, root);
      assert {root} - {root} == {};
      CostNone(f, l);
      assert f[root] * l[root] == 0;
    } else {
      DepthsCost(leaves, elems, f, merges, k + 1, l);
      Unmerge(leaves, elems, f, merges, k, l);
    }
  }

  lemma CostNone(f: seq<nat>, l: seq<nat>)
    requires |f| == |l|
    ensures Cost({}, f, l) == 0
  {
    TotalEmpty(Products(f, l));
  }

  /** Splitting a node into its two sons, one level down. */
  lemma Unmerge(leaves: set<nat>, elems: nat, f: seq<nat>, merges: seq<(nat, nat)>, k: nat, l: seq<nat>)
    requires (forall x :: x in leaves ==> x < elems) && k < |merges| && Merged(leaves, elems, f, merges, k)
    requires |l| == |f|
    requires l[merges[k].0] == l[elems + k] + 1 && l[merges[k].1] == l[elems + k] + 1
    ensures Cost(Live(leaves, elems, merges, k), f, l) == Cost(Live(leaves, elems, merges, k + 1), f, l) + f[elems + k]
  {
    hide Cost;
    var nodes, c := Live(leaves, elems, merges, k), elems + k;
    var (a, b) := merges[k];
    LiveBound(leaves, elems, merges, k);
    CostRemove(nodes, f, l, a);
    CostRemove(nodes - {a}, f, l, b);
    CostRemove(Live(leaves, elems, merges, k + 1), f, l, c);
    assert nodes - {a} - {b} == Live(leaves, elems, merges, k + 1) - {c};
    Distribute(f[a], f[b], l[c] + 1);
  }

  /** The depths cost no more than the words of any prefix code. */
  lemma HuffmanOptimal(leaves: set<nat>, elems: nat, f: seq<nat>, merges: seq<(nat, nat)>,
                       l: seq<nat>, words: seq<seq<bool>>)
    requires IsHuffman(leaves, elems, f, merges) && |l| == |f| && Depths(elems, merges, l)
    requires |words| == |f| && PrefixFree(leaves, words)
    ensures Cost(leaves, f, l) <= Cost(leaves, f, Lengths(words))
  {
    hide Cost, IsHuffman, Depths, Feasible;
    var m := Longest(leaves, words);
    KraftInequality(leaves, words, m);
    DepthsCost(leaves, elems, f, merges, 0, l);
    LowerBound(leaves, elems, f, merges, 0, Lengths(words), m);
  }

  /** Rarer nodes have longer codes, or codes of the same length. */
  ghost predicate RarerLonger(nodes: set<nat>, f: seq<nat>, l: seq<nat>)
    requires |f| == |l|
  {
    forall x, y :: x in nodes && y in nodes && x < |f| && y < |f| && f[x] < f[y] ==> l[x] >= l[y]
  }

  /** So it is in the tree: else exchanging two lengths would be cheaper than the cheapest. */
  lemma DepthsRanked(leaves: set<nat>, elems: nat, f: seq<nat>, merges: seq<(nat, nat)>, l: seq<nat>, m: nat)
    requires IsHuffman(leaves, elems, f, merges) && |l| == |f| && Depths(elems, merges, l) && Feasible(leaves, l, m)
    ensures RarerLonger(leaves, f, l)
  {
    hide Cost, Depths, Kraft, IsHuffman;
    forall x, y | x in leaves && y in leaves && x < |f| && y < |f| && f[x] < f[y] ensures l[x] >= l[y] {
      if l[x] < l[y] {
        var l' := l[x := l[y]][y := l[x]];
        SwapCost(leaves, f, l, l', x, y);
        SwapKraft(leaves, l, l', m, x, y);
        DepthsCost(leaves, elems, f, merges, 0, l);
        LowerBound(leaves, elems, f, merges, 0, l', m);
        assert false;
      }
    }
  }

  lemma Longest(nodes: set<nat>, words: seq<seq<bool>>) returns (m: nat)
    requires forall x :: x in nodes ==> x < |words|
    ensures AtMost(nodes, Lengths(words), m)
  {
    if nodes == {} {
      m := 0;
    } else {
      var y := Deepest(nodes, Lengths(words));
      m := |words[y]|;
    }
  }

  /** Nodes are taken in order of frequency. */
  lemma RemovalOrder(leaves: set<nat>, elems: nat, f: seq<nat>, merges: seq<(nat, nat)>, k: nat)
    requires IsHuffman(leaves, elems, f, merges) && k < |merges|
    ensures merges[k].0 < |f| && merges[k].1 < |f| && f[merges[k].0] <= f[merges[k].1]
    ensures k + 1 < |merges| ==> merges[k + 1].0 < |f| && f[merges[k].1] <= f[merges[k + 1].0]
  {
    assert Merged(leaves, elems, f, merges, k);
    if k + 1 < |merges| {
      assert Merged(leaves, elems, f, merges, k + 1);
    }
  }
}
