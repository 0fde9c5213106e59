/** The lengths of the codes: the first pass of `gen_bitlen` of src/zlib/trees.c. */
module GenBitLen {
  import opened Bits
  import opened Weights
  import opened BitLengths
  import opened Huffman
  import opened BuildTree

  const MAX_LENGTHS := 15

  /** What does not change: frequencies, the extra bits of every symbol, the static lengths (or none), and the limit. */
  datatype Desc = Desc(freq: seq<nat>, xbits: seq<nat>, stree: seq<nat>, maxCode: nat, maxLength: nat)

  /** What is computed: Dad or Len of every node, the counts, and the totals. */
  datatype Sizes = Sizes(dl: seq<nat>, blCount: seq<nat>, overflow: nat, optLen: int, staticLen: int)

  ghost predicate DescOk(d: Desc) {
    |d.xbits| == |d.freq| && (d.stree == [] || |d.stree| == |d.freq|) && d.maxCode < |d.freq|
      && 1 <= d.maxLength <= MAX_LENGTHS
  }

  function Clamped(bits: nat, max: nat): nat {
    if bits > max then max else bits
  }

  /** Sets the length of node `n`, whose father has its length. */
  function WithLen(d: Desc, z: Sizes, n: nat): Sizes
    requires DescOk(d) && n < |z.dl| == |d.freq| && z.dl[n] < |z.dl| && |z.blCount| == MAX_LENGTHS + 1
  {
    var bits := Clamped(z.dl[z.dl[n]] + 1, d.maxLength);
    var overflow := if z.dl[z.dl[n]] + 1 > d.maxLength then z.overflow + 1 else z.overflow;
    if n > d.maxCode then z.(dl := z.dl[n := bits], overflow := overflow)
    else
      Sizes(z.dl[n := bits], z.blCount[bits := z.blCount[bits] + 1], overflow,
            z.optLen + d.freq[n] * (bits + d.xbits[n]),
            if d.stree == [] then z.staticLen else z.staticLen + d.freq[n] * (d.stree[n] + d.xbits[n]))
  }

  function Plus(a: seq<nat>, b: seq<nat>): (c: seq<nat>)
    requires |a| == |b|
    ensures |c| == |a| && forall i :: 0 <= i < |a| ==> c[i] == a[i] + b[i]
  {
    seq(|a|, i requires 0 <= i < |a| => a[i] + b[i])
  }

  /** The totals for the leaves in `nodes`. */
  ghost predicate Tallied(d: Desc, z0: Sizes, z: Sizes, nodes: set<nat>)
    requires DescOk(d)
  {
    && |z.dl| == |d.freq| && |z.blCount| == MAX_LENGTHS + 1
    && (forall b :: 0 <= b <= MAX_LENGTHS ==> z.blCount[b] == LenCount(nodes, z.dl, b))
    && z.optLen == z0.optLen + Cost(nodes, d.freq, Plus(z.dl, d.xbits))
    && z.staticLen == z0.staticLen + if d.stree == [] then 0 else Cost(nodes, d.freq, Plus(d.stree, d.xbits))
  }

  lemma AddLeaf(d: Desc, z0: Sizes, z: Sizes, nodes: set<nat>, n: nat)
    requires DescOk(d) && Tallied(d, z0, z, nodes) && n < |d.freq| && z.dl[n] < |d.freq| && n !in nodes
    ensures Tallied(d, z0, WithLen(d, z, n), if n <= d.maxCode then nodes + {n} else nodes)
  {
    hide LenCount, Cost;
    var z' := WithLen(d, z, n);
    forall b | 0 <= b <= MAX_LENGTHS ensures LenCount(nodes, z'.dl, b) == LenCount(nodes, z.dl, b) {
      LenCountSame(nodes, nodes, z.dl, z'.dl, b);
    }
    CostSame(nodes, d.freq, d.freq, Plus(z.dl, d.xbits), Plus(z'.dl, d.xbits));
    if n <= d.maxCode {
      forall b | 0 <= b <= MAX_LENGTHS
        ensures LenCount(nodes + {n}, z'.dl, b) == LenCount(nodes, z'.dl, b) + (if z'.dl[n] == b then 1 else 0)
      {
        LenCountAdd(nodes, z'.dl, n, b);
      }
      assert nodes + {n} - {n} == nodes;
      CostRemove(nodes + {n}, d.freq, Plus(z'.dl, d.xbits), n);
      if d.stree != [] {
        CostRemove(nodes + {n}, d.freq, Plus(d.stree, d.xbits), n);
      }
    }
  }

  // ------------------------------------------------- the nodes whose lengths are known

  /** The lengths of the nodes left before some merge, and how many nodes were cut. */
  ghost predicate Level(nodes: set<nat>, l: seq<nat>, m: nat, overflow: nat) {
    && AtMost(nodes, l, m) && overflow % 2 == 0 && Kraft(nodes, l, m) == Pow2(m) + overflow / 2
    && (overflow > 0 ==> LenCount(nodes, l, m) > overflow / 2)
  }

  lemma LevelKraft(nodes: set<nat>, l: seq<nat>, m: nat, c: nat, a: nat, b: nat, bits: nat)
    requires AtMost(nodes, l, m) && c in nodes && a !in nodes && b !in nodes && a != b && a < |l| && b < |l|
    requires bits == Clamped(l[c] + 1, m)
    ensures Kraft(nodes - {c} + {b} + {a}, l[a := bits][b := bits], m)
      == Kraft(nodes, l, m) + if l[c] == m then 1 else 0
  {
    hide Kraft;
    var l', nodes' := l[a := bits][b := bits], nodes - {c} + {b} + {a};
    KraftRemove(nodes, l, m, c);
    KraftRemove(nodes', l', m, a);
    KraftRemove(nodes' - {a}, l', m, b);
    assert nodes' - {a} - {b} == nodes - {c};
    KraftSame(nodes - {c}, nodes - {c}, l, l', m);
    assert bits == l[c] + 1 ==> 2 * Pow2(m - bits) == Pow2(m - l[c]);
  }

  lemma LevelCount(nodes: set<nat>, l: seq<nat>, m: nat, c: nat, a: nat, b: nat, bits: nat)
    requires AtMost(nodes, l, m) && c in nodes && a !in nodes && b !in nodes && a != b && a < |l| && b < |l|
    requires bits == Clamped(l[c] + 1, m)
    ensures LenCount(nodes - {c} + {b} + {a}, l[a := bits][b := bits], m)
      >= LenCount(nodes, l, m) + if l[c] == m then 1 else 0
    ensures l[c] == m ==> LenCount(nodes, l, m) >= 1
  {
    hide LenCount;
    var l', rest := l[a := bits][b := bits], nodes - {c};
    LenCountAdd(rest, l, c, m);
    assert rest + {c} == nodes;
    LenCountSame(rest, rest, l, l', m);
    LenCountAdd(rest, l', b, m);
    LenCountAdd(rest + {b}, l', a, m);
  }

  /** Giving the sons of a node their lengths. */
  lemma LevelSplit(nodes: set<nat>, l: seq<nat>, m: nat, overflow: nat, c: nat, a: nat, b: nat, bits: nat)
    requires Level(nodes, l, m, overflow) && c in nodes && a !in nodes && b !in nodes && a != b && a < |l| && b < |l|
    requires bits == Clamped(l[c] + 1, m)
    ensures Level(nodes - {c} + {b} + {a}, l[a := bits][b := bits], m, if l[c] == m then overflow + 2 else overflow)
  {
    hide Kraft, LenCount;
    LevelKraft(nodes, l, m, c, a, b, bits);
    LevelCount(nodes, l, m, c, a, b, bits);
  }

  // ------------------------------------------------- the pass

  /** The leaves among the nodes left before merge `j`. */
  ghost function LiveLeaves(leaves: set<nat>, elems: nat, merges: seq<(nat, nat)>, j: nat): set<nat>
    requires j <= |merges|
  {
    set x | x in Live(leaves, elems, merges, j) && x < elems
  }

  /** The sons of the merges from `j` on are one level below their fathers. */
  ghost predicate DepthsFrom(elems: nat, merges: seq<(nat, nat)>, l: seq<nat>, j: nat) {
    && merges != [] && elems + |merges| <= |l| && l[elems + |merges| - 1] == 0
    && forall k :: j <= k < |merges| ==>
      merges[k].0 < |l| && merges[k].1 < |l| && l[merges[k].0] == l[elems + k] + 1 && l[merges[k].1] == l[elems + k] + 1
  }

  /** The pairs before `j` still have their fathers. */
  ghost predicate FathersUpTo(elems: nat, dl: seq<nat>, merges: seq<(nat, nat)>, j: nat) {
    forall k :: 0 <= k < j && k < |merges| ==>
      merges[k].0 < |dl| && merges[k].1 < |dl| && dl[merges[k].0] == elems + k && dl[merges[k].1] == elems + k
  }

  /** Only the root, just below `top`, has length zero. */
  ghost predicate NotRoot(nodes: set<nat>, l: seq<nat>, top: nat) {
    forall x :: x in nodes && x < |l| && x + 1 != top ==> l[x] >= 1
  }

  /** What holds when the sons of the merges from `j` on have their lengths. */
  ghost predicate Passed(leaves: set<nat>, elems: nat, merges: seq<(nat, nat)>, d: Desc, z0: Sizes, z: Sizes, j: nat)
    requires DescOk(d) && j <= |merges|
  {
    && Tallied(d, z0, z, LiveLeaves(leaves, elems, merges, j))
    && Level(Live(leaves, elems, merges, j), z.dl, d.maxLength, z.overflow)
    && FathersUpTo(elems, z.dl, merges, j) && NotRoot(Live(leaves, elems, merges, j), z.dl, elems + |merges|)
    && (z.overflow == 0 ==> DepthsFrom(elems, merges, z.dl, j))
    && (forall i :: 0 <= i < elems && i < |z.dl| && i !in leaves ==> z.dl[i] == 0)
  }

  /** The lengths are the depths, cut at the limit, and there is overflow just if some node is below it. */
  ghost predicate CutDepths(nodes: set<nat>, elems: nat, merges: seq<(nat, nat)>, max: nat, z: Sizes, j: nat) {
    && (forall x :: x in nodes ==> x < |z.dl| && z.dl[x] == Clamped(TreeDepth(elems, merges, x, j), max))
    && (z.overflow > 0 <==> TooDeep(nodes, elems, merges, j, max))
  }

  /** So are those of the nodes made by the merges from `j` on. */
  ghost predicate CutInner(elems: nat, merges: seq<(nat, nat)>, max: nat, dl: seq<nat>, j: nat) {
    forall x :: elems + j <= x < elems + |merges| ==>
      x < |dl| && dl[x] == Clamped(TreeDepth(elems, merges, x, x - elems + 1), max)
  }

  /** The tree and the description belong together. */
  ghost predicate TreeOk(leaves: set<nat>, elems: nat, merges: seq<(nat, nat)>, d: Desc) {
    && DescOk(d) && IsHuffman(leaves, elems, d.freq, merges) && merges != [] && d.maxCode < elems
    && (forall x :: x in leaves ==> x <= d.maxCode)
  }

  /** Where the nodes of pair `j` come from and what is left without them. */
  lemma PairFacts(leaves: set<nat>, elems: nat, merges: seq<(nat, nat)>, d: Desc, j: nat)
    requires TreeOk(leaves, elems, merges, d) && j < |merges|
    ensures var (n, m) := merges[j]; var next := Live(leaves, elems, merges, j + 1);
      && n != m && n !in next && m !in next && n < |d.freq| && m < |d.freq| && elems + j in next
      && Live(leaves, elems, merges, j) == next - {elems + j} + {n} + {m} && n != elems + j && m != elems + j
      && (n <= d.maxCode <==> n < elems) && (m <= d.maxCode <==> m < elems) && n < elems + j && m < elems + j
      && (n < elems ==> n in leaves) && (m < elems ==> m in leaves)
  {
    var (n, m) := merges[j];
    assert Merged(leaves, elems, d.freq, merges, j);
    LiveBound(leaves, elems, merges, j);
    MergedGone(leaves, elems, d.freq, merges, j, j + 1);
  }

  lemma LiveLeavesStep(leaves: set<nat>, elems: nat, merges: seq<(nat, nat)>, d: Desc, j: nat)
    requires TreeOk(leaves, elems, merges, d) && j < |merges|
    ensures var (n, m) := merges[j]; var some := LiveLeaves(leaves, elems, merges, j + 1);
      && n !in some && m !in some
      && LiveLeaves(leaves, elems, merges, j)
         == if n <= d.maxCode && m <= d.maxCode then some + {m} + {n} else if m <= d.maxCode then some + {m}
            else if n <= d.maxCode then some + {n} else some
  {
    hide Live;
    PairFacts(leaves, elems, merges, d, j);
  }

  /** The two sons of node `elems + j` get their lengths. */
  lemma PairStep(leaves: set<nat>, elems: nat, merges: seq<(nat, nat)>, d: Desc, z0: Sizes, z: Sizes, j: nat)
    requires TreeOk(leaves, elems, merges, d) && j < |merges| && Passed(leaves, elems, merges, d, z0, z, j + 1)
    ensures var (n, m) := merges[j];
      && m < |z.dl| && z.dl[m] < |z.dl| && n < |WithLen(d, z, m).dl| && WithLen(d, z, m).dl[n] < |z.dl|
      && Passed(leaves, elems, merges, d, z0, WithLen(d, WithLen(d, z, m), n), j)
  {
    hide Live, LenCount, Cost, Kraft, LiveLeaves, IsHuffman, Level, Tallied, DepthsFrom;
    var (n, m) := merges[j];
    var c, next := elems + j, Live(leaves, elems, merges, j + 1);
    TreeSize(leaves, elems, merges, d);
    PassedSize(leaves, elems, merges, d, z0, z, j + 1);
    assert z.dl[m] == c && z.dl[n] == c;
    PairFacts(leaves, elems, merges, d, j);
    LiveLeavesStep(leaves, elems, merges, d, j);
    var z1 := WithLen(d, z, m);
    var z2 := WithLen(d, z1, n);
    var some := LiveLeaves(leaves, elems, merges, j + 1);
    AddLeaf(d, z0, z, some, m);
    AddLeaf(d, z0, z1, if m <= d.maxCode then some + {m} else some, n);
    var bits := Clamped(z.dl[c] + 1, d.maxLength);
    assert AtMost(next, z.dl, d.maxLength) by { LevelAtMost(next, z.dl, d.maxLength, z.overflow); }
    LevelSplit(next, z.dl, d.maxLength, z.overflow, c, m, n, bits);
    assert z2.dl == z.dl[m := bits][n := bits];
    assert next - {c} + {n} + {m} == Live(leaves, elems, merges, j);
    PairFathers(leaves, elems, merges, d, z.dl, bits, j);
  }

  /** The sons of a node are one level below it, and all others where they were. */
  lemma {:induction false} DepthStep(leaves: set<nat>, elems: nat, merges: seq<(nat, nat)>, d: Desc, j: nat, x: nat)
    requires TreeOk(leaves, elems, merges, d) && j < |merges| && x in Live(leaves, elems, merges, j)
    ensures
      var (n, m) := merges[j];
      TreeDepth(elems, merges, x, j)
        == if x == n || x == m then TreeDepth(elems, merges, elems + j, j + 1) + 1
          else TreeDepth(elems, merges, x, j + 1)
  {
    hide TreeOk, Live;
  }

  lemma CutStep(leaves: set<nat>, elems: nat, merges: seq<(nat, nat)>, d: Desc, z: Sizes, j: nat)
    requires TreeOk(leaves, elems, merges, d) && j < |merges| && |z.dl| == |d.freq| && |z.blCount| == MAX_LENGTHS + 1
    requires FathersUpTo(elems, z.dl, merges, j + 1)
    requires CutDepths(Live(leaves, elems, merges, j + 1), elems, merges, d.maxLength, z, j + 1)
    ensures var (n, m) := merges[j];
      && m < |z.dl| && z.dl[m] < |z.dl| && n < |WithLen(d, z, m).dl| && WithLen(d, z, m).dl[n] < |z.dl|
      && CutDepths(Live(leaves, elems, merges, j), elems, merges, d.maxLength, WithLen(d, WithLen(d, z, m), n), j)
  {
    hide Live, TreeDepth, IsHuffman;
    var (n, m) := merges[j];
    var c, max := elems + j, d.maxLength;
    var next, nodes := Live(leaves, elems, merges, j + 1), Live(leaves, elems, merges, j);
    TreeSize(leaves, elems, merges, d);
    PairFacts(leaves, elems, merges, d, j);
    assert z.dl[m] == c && z.dl[n] == c;
    var z2 := WithLen(d, WithLen(d, z, m), n);
    var bits := Clamped(z.dl[c] + 1, max);
    assert z2.dl == z.dl[m := bits][n := bits];
    forall x | x in nodes ensures x < |z2.dl| && z2.dl[x] == Clamped(TreeDepth(elems, merges, x, j), max) {
      DepthStep(leaves, elems, merges, d, j, x);
    }
    DepthStep(leaves, elems, merges, d, j, n);
    if TooDeep(next, elems, merges, j + 1, max) {
      var x :| x in next && TreeDepth(elems, merges, x, j + 1) > max;
      if x == c {
        assert TreeDepth(elems, merges, n, j) > max;
      } else {
        DepthStep(leaves, elems, merges, d, j, x);
        assert TreeDepth(elems, merges, x, j) > max;
      }
    }
    if TooDeep(nodes, elems, merges, j, max) {
      var x :| x in nodes && TreeDepth(elems, merges, x, j) > max;
      DepthStep(leaves, elems, merges, d, j, x);
      if x != n && x != m {
        assert TreeDepth(elems, merges, x, j + 1) > max;
      }
    }
    assert z2.overflow == if z.dl[c] + 1 > max then z.overflow + 2 else z.overflow;
    if TreeDepth(elems, merges, n, j) > max {
      assert TooDeep(nodes, elems, merges, j, max);
    }
  }

  lemma {:induction false} InnerStep(leaves: set<nat>, elems: nat, merges: seq<(nat, nat)>, d: Desc, z: Sizes, j: nat)
    requires TreeOk(leaves, elems, merges, d) && j < |merges| && |z.dl| == |d.freq| && |z.blCount| == MAX_LENGTHS + 1
    requires FathersUpTo(elems, z.dl, merges, j + 1)
    requires CutDepths(Live(leaves, elems, merges, j + 1), elems, merges, d.maxLength, z, j + 1)
    requires CutInner(elems, merges, d.maxLength, z.dl, j + 1)
    ensures var (n, m) := merges[j];
      && m < |z.dl| && z.dl[m] < |z.dl| && n < |WithLen(d, z, m).dl| && WithLen(d, z, m).dl[n] < |z.dl|
      && CutInner(elems, merges, d.maxLength, WithLen(d, WithLen(d, z, m), n).dl, j)
  {
    hide Live, TreeDepth, IsHuffman;
    var (n, m) := merges[j];
    TreeSize(leaves, elems, merges, d);
    PairFacts(leaves, elems, merges, d, j);
    assert z.dl[m] == elems + j && z.dl[n] == elems + j;
  }

  lemma {:induction false} CutStart(leaves: set<nat>, elems: nat, merges: seq<(nat, nat)>, d: Desc, z: Sizes)
    requires TreeOk(leaves, elems, merges, d) && |z.dl| == |d.freq| && z.dl[elems + |merges| - 1] == 0
    requires z.overflow == 0
    ensures CutDepths(Live(leaves, elems, merges, |merges|), elems, merges, d.maxLength, z, |merges|)
  {
    hide Live;
    TreeSize(leaves, elems, merges, d);
    LastLive(leaves, elems, d.freq, merges);
  }

  lemma LevelAtMost(nodes: set<nat>, l: seq<nat>, m: nat, overflow: nat)
    requires Level(nodes, l, m, overflow)
    ensures AtMost(nodes, l, m)
  {
  }

  /** Other pairs keep their fathers or their lengths. */
  lemma PairFathers(leaves: set<nat>, elems: nat, merges: seq<(nat, nat)>, d: Desc, dl: seq<nat>, bits: nat, j: nat)
    requires TreeOk(leaves, elems, merges, d) && j < |merges| && merges[j].0 < |dl| && merges[j].1 < |dl| == |d.freq|
    ensures var dl' := dl[merges[j].1 := bits][merges[j].0 := bits];
      && (FathersUpTo(elems, dl, merges, j + 1) ==> FathersUpTo(elems, dl', merges, j))
      && (DepthsFrom(elems, merges, dl, j + 1) && bits == dl[elems + j] + 1 ==> DepthsFrom(elems, merges, dl', j))
  {
    hide Live, Merged;
    var (n, m) := merges[j];
    PairFacts(leaves, elems, merges, d, j);
    forall k | 0 <= k < |merges| && k != j
      ensures merges[k].0 != n && merges[k].0 != m && merges[k].1 != n && merges[k].1 != m
    {
      PairsDiffer(leaves, elems, merges, d, j, k);
    }
  }

  lemma PairsDiffer(leaves: set<nat>, elems: nat, merges: seq<(nat, nat)>, d: Desc, j: nat, k: nat)
    requires TreeOk(leaves, elems, merges, d) && j < |merges| && k < |merges| && j != k
    ensures merges[k].0 != merges[j].0 && merges[k].0 != merges[j].1 && merges[k].1 != merges[j].0
    ensures merges[k].1 != merges[j].1
  {
    hide Live;
    var a, b := if j < k then j else k, if j < k then k else j;
    assert Merged(leaves, elems, d.freq, merges, a) && Merged(leaves, elems, d.freq, merges, b);
    MergedGone(leaves, elems, d.freq, merges, a, b);
  }

  /** At the root. */
  lemma PassedStart(leaves: set<nat>, elems: nat, merges: seq<(nat, nat)>, d: Desc, dad: seq<nat>, z: Sizes)
    requires TreeOk(leaves, elems, merges, d) && |dad| == |d.freq| && Fathers(elems, dad, merges)
    requires z.dl == dad[elems + |merges| - 1 := 0] && z.blCount == seq(MAX_LENGTHS + 1, _ => 0) && z.overflow == 0
    requires forall i :: 0 <= i < elems && i !in leaves ==> dad[i] == 0
    ensures Passed(leaves, elems, merges, d, z, z, |merges|)
  {
    hide Live, LenCount, Cost, Kraft;
    var root := elems + |merges| - 1;
    LastLive(leaves, elems, d.freq, merges);
    assert LiveLeaves(leaves, elems, merges, |merges|) == {};
    forall b | 0 <= b <= MAX_LENGTHS ensures LenCount({}, z.dl, b) == 0 {
      LenCountNone(z.dl, b);
    }
    CostNone(d.freq, Plus(z.dl, d.xbits));
    if d.stree != [] {
      CostNone(d.freq, Plus(d.stree, d.xbits));
    }
    KraftRemove({root}, z.dl, d.maxLength, root);
    assert {root} - {root} == {};
    KraftNone(z.dl, d.maxLength);
    forall k | 0 <= k < |merges| ensures merges[k].0 != root && merges[k].1 != root {
      PairFacts(leaves, elems, merges, d, k);
    }
  }

  /** Walks down from the root, pair by pair. */
  method FirstPass(w: Work, d: Desc, elems: nat, optLen: int, staticLen: int, ghost leaves: set<nat>,
                   ghost merges: seq<(nat, nat)>)
    returns (z: Sizes, ghost z0: Sizes)
    requires TreeOk(leaves, elems, merges, d) && |w.dad| == |d.freq| && Stored(w.heap, merges)
    requires Fathers(elems, w.dad, merges)
    requires w.max == HEAP_SIZE - 2 * |merges| - 1 && w.heap[w.max] == elems + |merges| - 1
    requires forall i :: 0 <= i < elems && i !in leaves ==> w.dad[i] == 0
    ensures Passed(leaves, elems, merges, d, z0, z, 0) && z0.optLen == optLen && z0.staticLen == staticLen
    ensures CutDepths(leaves, elems, merges, d.maxLength, z, 0) && CutInner(elems, merges, d.maxLength, z.dl, 0)
  {
    hide CutInner, Passed, TreeOk, Fathers, DescOk, CutDepths, Live;
    TreeSize(leaves, elems, merges, d);
    var blCount := seq(MAX_LENGTHS + 1, _ => 0);
    z := Sizes(w.dad[w.heap[w.max] := 0], blCount, 0, optLen, staticLen);
    z0 := z;
    PassedStart(leaves, elems, merges, d, w.dad, z);
    CutStart(leaves, elems, merges, d, z);
    assert CutInner(elems, merges, d.maxLength, z.dl, |merges|) by { NoInner(elems, merges, d.maxLength, z.dl); }
    var h := w.max + 1;
    ghost var j := |merges|;
    while h < HEAP_SIZE
      invariant 0 <= j <= |merges| && h == HEAP_SIZE - 2 * j && Passed(leaves, elems, merges, d, z0, z, j)
      invariant CutDepths(Live(leaves, elems, merges, j), elems, merges, d.maxLength, z, j)
      invariant CutInner(elems, merges, d.maxLength, z.dl, j)
      decreases j
    {
      PairStep(leaves, elems, merges, d, z0, z, j - 1);
      PassedSize(leaves, elems, merges, d, z0, z, j);
      CutStep(leaves, elems, merges, d, z, j - 1);
      InnerStep(leaves, elems, merges, d, z, j - 1);
      assert w.heap[h] == merges[j - 1].1 && w.heap[h + 1] == merges[j - 1].0;
      z := WithLen(d, z, w.heap[h]);
      z := WithLen(d, z, w.heap[h + 1]);
      h := h + 2;
      j := j - 1;
    }
    LiveNone(leaves, elems, merges);
  }

  lemma NoInner(elems: nat, merges: seq<(nat, nat)>, max: nat, dl: seq<nat>)
    ensures CutInner(elems, merges, max, dl, |merges|)
  {
  }

  lemma TreeSize(leaves: set<nat>, elems: nat, merges: seq<(nat, nat)>, d: Desc)
    requires TreeOk(leaves, elems, merges, d)
    ensures elems + |merges| <= |d.freq| && DescOk(d)
  {
  }

  lemma PassedSize(leaves: set<nat>, elems: nat, merges: seq<(nat, nat)>, d: Desc, z0: Sizes, z: Sizes, j: nat)
    requires DescOk(d) && j <= |merges| && Passed(leaves, elems, merges, d, z0, z, j)
    ensures |z.dl| == |d.freq| && |z.blCount| == MAX_LENGTHS + 1 && FathersUpTo(elems, z.dl, merges, j)
  {
  }
}
