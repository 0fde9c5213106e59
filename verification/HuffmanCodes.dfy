/** `gen_bitlen` and `build_tree` of src/zlib/trees.c as a whole: from frequencies to code lengths and codes. */
module HuffmanCodes {
  import opened Bits
  import opened Canonical
  import opened Weights
  import opened BitLengths
  import opened Huffman
  import opened Heap
  import opened MinHeight
  import opened Construction = BuildTree
  import opened Lengthening = GenBitLen
  import opened Reassign
  import opened Coding = GenCodes

  /** Lengths that make up a complete code for the leaves, none of them above the limit. */
  ghost predicate GoodLengths(leaves: set<nat>, elems: nat, d: Desc, dl: seq<nat>, blCount: seq<nat>)
    requires DescOk(d)
  {
    && |dl| == |d.freq| && |blCount| == MAX_LENGTHS + 1 && elems <= |dl|
    && (forall x :: x in leaves ==> x < |dl| && 1 <= dl[x] <= d.maxLength)
    && (forall i :: 0 <= i < elems && i !in leaves ==> dl[i] == 0)
    && blCount[0] == 0 && (forall b :: 1 <= b <= MAX_LENGTHS ==> blCount[b] == LenCount(leaves, dl, b))
    && CountKraft(blCount, d.maxLength) == Pow2(d.maxLength)
  }

  lemma {:induction false} LenCountAbove(nodes: set<nat>, l: seq<nat>, b: nat)
    requires forall i :: i in nodes && i < |l| ==> l[i] != b
    ensures LenCount(nodes, l, b) == 0
  {
    if l != [] {
      LenCountAbove(nodes, l[..|l| - 1], b);
    }
  }

  /** What the first pass leaves behind. */
  lemma PassDone(leaves: set<nat>, elems: nat, merges: seq<(nat, nat)>, d: Desc, z0: Sizes, z: Sizes)
    requires TreeOk(leaves, elems, merges, d) && Passed(leaves, elems, merges, d, z0, z, 0)
    ensures Tallied(d, z0, z, leaves) && Level(leaves, z.dl, d.maxLength, z.overflow)
    ensures forall x :: x in leaves ==> x < |z.dl| && 1 <= z.dl[x] <= d.maxLength
    ensures forall i :: 0 <= i < elems && i !in leaves ==> z.dl[i] == 0
    ensures z.overflow == 0 ==> Depths(elems, merges, z.dl) && RarerLonger(leaves, d.freq, z.dl)
  {
    hide Tallied, Cost, Kraft, LenCount;
    assert Live(leaves, elems, merges, 0) == leaves;
    assert LiveLeaves(leaves, elems, merges, 0) == leaves;
    TalliedSize(d, z0, z, leaves);
    if z.overflow == 0 {
      DepthsRanked(leaves, elems, d.freq, merges, z.dl, d.maxLength);
    }
  }

  lemma TalliedSize(d: Desc, z0: Sizes, z: Sizes, nodes: set<nat>)
    requires DescOk(d) && Tallied(d, z0, z, nodes)
    ensures |z.dl| == |d.freq| && |z.blCount| == MAX_LENGTHS + 1
  {
  }

  /** The counts say how far the Kraft sum is off. */
  lemma CountsExcess(leaves: set<nat>, d: Desc, z0: Sizes, z: Sizes)
    requires DescOk(d) && Tallied(d, z0, z, leaves) && Level(leaves, z.dl, d.maxLength, z.overflow)
    requires |leaves| <= Pow2(d.maxLength)
    requires forall x :: x in leaves ==> x < |z.dl| && 1 <= z.dl[x] <= d.maxLength
    ensures Excess(z.blCount, d.maxLength, z.overflow / 2, |leaves|) && z.blCount[0] == 0
    ensures forall b :: d.maxLength < b <= MAX_LENGTHS ==> z.blCount[b] == 0
  {
    hide Cost, Kraft, LenCount, CountKraft, CountSum, Pow2;
    KraftByCounts(leaves, z.dl, d.maxLength);
    LenTotalSize(leaves, z.dl);
    CountSame(Counts(leaves, z.dl, d.maxLength) + seq(MAX_LENGTHS - d.maxLength, _ => 0), z.blCount, d.maxLength);
    CountPad(Counts(leaves, z.dl, d.maxLength), seq(MAX_LENGTHS - d.maxLength, _ => 0), d.maxLength);
    LenCountAbove(leaves, z.dl, 0);
    forall b | d.maxLength < b <= MAX_LENGTHS ensures LenCount(leaves, z.dl, b) == 0 {
      LenCountAbove(leaves, z.dl, b);
    }
  }

  lemma {:induction false} CountPad(c: seq<nat>, more: seq<nat>, b: nat)
    requires b < |c|
    ensures CountKraft(c + more, b) == CountKraft(c, b) && CountSum(c + more, b) == CountSum(c, b)
  {
    if b > 0 {
      CountPad(c, more, b - 1);
    }
  }

  /** The depths of all nodes, cut at the limit. */
  function CutLengths(elems: nat, merges: seq<(nat, nat)>, size: nat, max: nat): (l: seq<nat>)
    ensures |l| == size
  {
    seq(size, x requires 0 <= x => Clamped(TreeDepth(elems, merges, x, 0), max))
  }

  ghost predicate RepairedIn(leaves: set<nat>, dl: seq<nat>, c: seq<nat>, max: nat, n: nat)
    requires 1 <= max < |c|
  {
    forall b :: 1 <= b <= max ==> LenCount(leaves, dl, b) == Repaired(c, max, n)[b]
  }

  /** There are as many of each length as the depths, cut at the limit and repaired in so many rounds, say. */
  ghost predicate CountsRepaired(leaves: set<nat>, elems: nat, merges: seq<(nat, nat)>, max: nat, dl: seq<nat>)
    requires 1 <= max
  {
    exists n: nat :: RepairedIn(leaves, dl, Counts(leaves, CutLengths(elems, merges, |dl|, max), max), max, n)
  }

  lemma {:induction false} SameRounds(c: seq<nat>, c': seq<nat>, m: nat, n: nat)
    requires 1 <= m < |c| && m < |c'| && forall b :: 0 <= b <= m ==> c[b] == c'[b]
    ensures forall b :: 0 <= b <= m ==> Repaired(c, m, n)[b] == Repaired(c', m, n)[b]
  {
    if n > 0 {
      SameRounds(c, c', m, n - 1);
      SameLongest(Repaired(c, m, n - 1), Repaired(c', m, n - 1), m - 1);
    }
  }

  lemma {:induction false} SameLongest(c: seq<nat>, c': seq<nat>, b: nat)
    requires b < |c| && b < |c'| && forall i :: 0 <= i <= b ==> c[i] == c'[i]
    ensures LongestUsed(c, b) == LongestUsed(c', b)
  {
    if b > 0 {
      SameLongest(c, c', b - 1);
    }
  }

  lemma RepairedFrom(leaves: set<nat>, elems: nat, merges: seq<(nat, nat)>, d: Desc, z0: Sizes, z: Sizes, dl: seq<nat>,
                     n: nat)
    requires DescOk(d) && Tallied(d, z0, z, leaves) && CutDepths(leaves, elems, merges, d.maxLength, z, 0)
    requires |dl| == |d.freq|
    requires forall b :: 1 <= b <= d.maxLength ==> LenCount(leaves, dl, b) == Repaired(z.blCount, d.maxLength, n)[b]
    ensures CountsRepaired(leaves, elems, merges, d.maxLength, dl)
  {
    hide LenCount, Cost, Repaired, TreeDepth, TooDeep;
    var l := CutLengths(elems, merges, |dl|, d.maxLength);
    forall b | 0 <= b <= d.maxLength ensures LenCount(leaves, l, b) == LenCount(leaves, z.dl, b) {
      LenCountSame(leaves, leaves, l, z.dl, b);
    }
    var m := d.maxLength;
    SameRounds(Counts(leaves, l, m), z.blCount, m, n);
    assert RepairedIn(leaves, dl, Counts(leaves, l, m), m, n);
  }

  lemma NoRounds(c: seq<nat>, m: nat)
    requires 1 <= m < |c|
    ensures Repaired(c, m, 0) == c
  {
  }

  /** Computes the lengths: they are the depths in the tree if none of the leaves is below the limit. */
  method GenBitLen(w: Work, d: Desc, elems: nat, optLen: int, staticLen: int, ghost leaves: set<nat>,
                   ghost merges: seq<(nat, nat)>)
    returns (dl: seq<nat>, blCount: seq<nat>, optLen': int, staticLen': int)
    requires TreeOk(leaves, elems, merges, d) && |w.dad| == |d.freq| && Stored(w.heap, merges)
    requires Fathers(elems, w.dad, merges)
    requires w.max == HEAP_SIZE - 2 * |merges| - 1 && w.heap[w.max] == elems + |merges| - 1
    requires (forall i :: 0 <= i < elems && i !in leaves ==> w.dad[i] == 0) && |leaves| <= Pow2(d.maxLength)
    ensures GoodLengths(leaves, elems, d, dl, blCount)
    ensures optLen' == optLen + Cost(leaves, d.freq, Plus(dl, d.xbits))
    ensures staticLen' == staticLen + if d.stree == [] then 0 else Cost(leaves, d.freq, Plus(d.stree, d.xbits))
    ensures !TooDeep(leaves, elems, merges, 0, d.maxLength) ==> Depths(elems, merges, dl)
    ensures RarerLonger(leaves, d.freq, dl) && CountsRepaired(leaves, elems, merges, d.maxLength, dl)
  {
    hide CountsRepaired, Repaired, TreeOk, Passed, Stored, Fathers, Cost, Kraft, LenCount, CountKraft, CountSum, Pow2,
      Depths, TooDeep;
    TreeSize(leaves, elems, merges, d);
    var z;
    ghost var z0;
    z, z0 := FirstPass(w, d, elems, optLen, staticLen, leaves, merges);
    PassDone(leaves, elems, merges, d, z0, z);
    CountsExcess(leaves, d, z0, z);
    if z.overflow == 0 {
      NoRounds(z.blCount, d.maxLength);
      RepairedFrom(leaves, elems, merges, d, z0, z, z.dl, 0);
      return z.dl, z.blCount, z.optLen, z.staticLen;
    }
    blCount := Repair(z.blCount, d.maxLength, z.overflow, |leaves|);
    dl, optLen' := SetLengths(w.heap, blCount, d, z, optLen, leaves, elems, merges);
    staticLen' := z.staticLen;
    RepairedFrom(leaves, elems, merges, d, z0, z, dl, z.overflow / 2);
    forall b | d.maxLength < b <= MAX_LENGTHS ensures LenCount(leaves, dl, b) == 0 {
      LenCountAbove(leaves, dl, b);
    }
  }

  // ------------------------------------------------- the lengths as a code

  lemma {:induction false} CountIs(leaves: set<nat>, dl: seq<nat>, n: nat, b: nat)
    requires n <= |dl| && 1 <= b && forall i :: 0 <= i < n && i !in leaves ==> dl[i] == 0
    ensures Count(dl[..n], b) == LenCount(leaves, dl[..n], b)
  {
    if n > 0 {
      CountIs(leaves, dl, n - 1, b);
      assert dl[..n][..n - 1] == dl[..n - 1];
    }
  }

  lemma {:induction false} LenCountPrefix(leaves: set<nat>, dl: seq<nat>, n: nat, b: nat)
    requires n <= |dl| && forall x :: x in leaves ==> x < n
    ensures LenCount(leaves, dl, b) == LenCount(leaves, dl[..n], b)
  {
    if n < |dl| {
      LenCountPrefix(leaves, dl[..|dl| - 1], n, b);
      assert dl[..|dl| - 1][..n] == dl[..n];
    } else {
      assert dl[..n] == dl;
    }
  }

  lemma {:induction false} EndIsKraft(lens: seq<nat>, c: seq<nat>, b: nat)
    requires 1 <= b < |c| && forall i :: 1 <= i <= b ==> c[i] == Count(lens, i)
    ensures EndCode(lens, b) == CountKraft(c, b)
  {
    hide Count;
    if b == 1 {
      assert FirstCode(lens, 0) == 0 && CountKraft(c, 0) == 0;
    } else {
      EndIsKraft(lens, c, b - 1);
    }
  }

  /** Too many codes of one length stay too many. */
  lemma {:induction false} StaysOver(lens: seq<nat>, b: nat, m: nat)
    requires 1 <= b <= m && EndCode(lens, b) > Pow2(b)
    ensures EndCode(lens, m) > Pow2(m)
    decreases m
  {
    hide Count;
    if b < m {
      StaysOver(lens, b, m - 1);
    }
  }

  lemma {:induction false} KraftOneComplete(lens: seq<nat>, m: nat)
    requires 1 <= m <= MAX_BITS && EndCode(lens, m) == Pow2(m) && forall b :: m < b <= MAX_BITS ==> Count(lens, b) == 0
    ensures Complete(lens)
  {
    hide Count, EndCode;
    forall b | 1 <= b <= MAX_BITS ensures EndCode(lens, b) <= Pow2(b) && (b >= m ==> EndCode(lens, b) == Pow2(b)) {
      if b < m {
        if EndCode(lens, b) > Pow2(b) {
          StaysOver(lens, b, m);
        }
      } else {
        EndCodeGap(lens, m, b);
        Pow2Shl(m, b - m);
        assert m + (b - m) == b;
      }
    }
  }

  /** The lengths up to `maxCode` are those of a complete code, and the counts are theirs. */
  lemma GoodComplete(leaves: set<nat>, elems: nat, d: Desc, dl: seq<nat>, blCount: seq<nat>)
    requires DescOk(d) && GoodLengths(leaves, elems, d, dl, blCount) && d.maxCode < elems
    requires forall x :: x in leaves ==> x <= d.maxCode
    ensures var lens := dl[..d.maxCode + 1];
      && ValidLens(lens) && Complete(lens) && (forall i :: 0 <= i < |lens| ==> lens[i] <= d.maxLength)
      && forall b :: 1 <= b <= MAX_BITS ==> blCount[b] == Count(lens, b)
  {
    hide LenCount, Count, CountKraft, EndCode;
    var lens := dl[..d.maxCode + 1];
    forall b | 1 <= b <= MAX_BITS ensures blCount[b] == Count(lens, b) && (b > d.maxLength ==> blCount[b] == 0) {
      CountIs(leaves, dl, d.maxCode + 1, b);
      LenCountPrefix(leaves, dl, d.maxCode + 1, b);
      if b > d.maxLength {
        LenCountAbove(leaves, dl, b);
      }
    }
    EndIsKraft(lens, blCount, d.maxLength);
    KraftOneComplete(lens, d.maxLength);
  }

  // ------------------------------------------------- what the totals mean

  /** The bits of a text in which symbol `i` occurs `f[i]` times and takes `l[i]` bits. */
  function Bill(f: seq<nat>, l: seq<nat>, n: nat): nat
    requires n <= |f| && n <= |l|
  {
    if n == 0 then 0 else Bill(f, l, n - 1) + f[n - 1] * l[n - 1]
  }

  /** Only symbols that occur cost anything. */
  lemma {:induction false} BillIsCost(f: seq<nat>, g: seq<nat>, l: seq<nat>, elems: nat, n: nat)
    requires elems <= |f| && elems <= |g| && |g| == |l| && n <= |l| && forall i :: 0 <= i < elems ==> f[i] == g[i]
    ensures Total(Used(f, elems), Products(g, l)[..n]) == Bill(f, l, if n <= elems then n else elems)
  {
    if n > 0 {
      BillIsCost(f, g, l, elems, n - 1);
      assert Products(g, l)[..n][..n - 1] == Products(g, l)[..n - 1];
      if n <= elems && f[n - 1] == 0 {
        assert f[n - 1] * l[n - 1] == 0;
      }
    }
  }

  lemma {:induction false} CostIsBill(f: seq<nat>, g: seq<nat>, l: seq<nat>, elems: nat)
    requires elems <= |f| && elems <= |g| && |g| == |l| && forall i :: 0 <= i < elems ==> f[i] == g[i]
    ensures Cost(Used(f, elems), g, l) == Bill(f, l, elems)
  {
    BillIsCost(f, g, l, elems, |l|);
    assert Products(g, l)[..|l|] == Products(g, l);
  }

  /** The forced symbols are counted once more than they occur. */
  lemma {:induction false} BillForced(f: seq<nat>, f': seq<nat>, elems: nat, forced: set<nat>, l: seq<nat>, n: nat)
    requires Forced(f, elems, f', forced) && n <= elems && elems <= |l|
    ensures Bill(f', l, n) == Bill(f, l, n) + Total(forced, l[..n])
  {
    if n > 0 {
      BillForced(f, f', elems, forced, l, n - 1);
      assert l[..n][..n - 1] == l[..n - 1];
    }
  }

  lemma {:induction false} TotalPrefix(nodes: set<nat>, l: seq<nat>, n: nat)
    requires n <= |l| && forall x :: x in nodes ==> x < n
    ensures Total(nodes, l[..n]) == Total(nodes, l)
  {
    if n < |l| {
      TotalPrefix(nodes, l[..|l| - 1], n);
      assert l[..|l| - 1][..n] == l[..n];
    } else {
      assert l[..n] == l;
    }
  }

  lemma {:induction false} TotalOnes(nodes: set<nat>, l: seq<nat>)
    requires forall x :: x in nodes ==> x < |l| && l[x] == 1
    ensures Total(nodes, l) == |nodes|
  {
    if l == [] {
      assert nodes == {};
    } else {
      var n := |l| - 1;
      TotalSame(nodes, nodes - {n}, l[..n], l[..n]);
      TotalOnes(nodes - {n}, l[..n]);
      if n in nodes {
        assert |nodes - {n}| == |nodes| - 1;
      } else {
        assert nodes - {n} == nodes;
      }
    }
  }

  /** Two symbols get one bit each. */
  lemma TwoLeaves(leaves: set<nat>, elems: nat, d: Desc, dl: seq<nat>, blCount: seq<nat>)
    requires DescOk(d) && GoodLengths(leaves, elems, d, dl, blCount) && |leaves| == 2
    ensures forall x :: x in leaves ==> dl[x] == 1
  {
    hide Kraft, LenCount, CountKraft;
    var m := d.maxLength;
    KraftByCounts(leaves, dl, m);
    CountPad(Counts(leaves, dl, m), blCount[m + 1..], m);
    CountSame(Counts(leaves, dl, m) + blCount[m + 1..], blCount, m);
    forall x | x in leaves ensures dl[x] == 1 {
      OtherLeaf(leaves, dl, m, x);
    }
  }

  lemma {:induction false} OtherLeaf(leaves: set<nat>, dl: seq<nat>, m: nat, x: nat)
    requires |leaves| == 2 && x in leaves && (forall i :: i in leaves ==> i < |dl| && 1 <= dl[i] <= m)
    requires Kraft(leaves, dl, m) == Pow2(m)
    ensures dl[x] == 1
  {
    hide Kraft;
    assert |leaves - {x}| == 1;
    var y :| y in leaves - {x};
    assert |leaves - {x} - {y}| == 0;
    KraftRemove(leaves, dl, m, x);
    KraftRemove(leaves - {x}, dl, m, y);
    KraftNone(dl, m);
    assert leaves - {x} - {y} == {};
    Pow2Mono(m - dl[x], m - 1);
    Pow2Mono(m - dl[y], m - 1);
  }

  /** The totals come out for the symbols as they occur: what the forced ones add has been taken off before. */
  lemma {:induction false} TotalsRight(f: seq<nat>, f': seq<nat>, g: seq<nat>, elems: nat, forced: set<nat>, d: Desc,
                                       dl: seq<nat>, blCount: seq<nat>)
    requires DescOk(d) && Forced(f, elems, f', forced) && |g| == |f| && d.freq == g && elems <= |g|
    requires forall i :: 0 <= i < elems ==> g[i] == f'[i]
    requires GoodLengths(Used(f', elems), elems, d, dl, blCount) && (forced == {} || |Used(f', elems)| == 2)
    requires forall i :: i in forced ==> d.xbits[i] == 0
    ensures Cost(Used(f', elems), g, Plus(dl, d.xbits)) == Bill(f, Plus(dl, d.xbits), elems) + |forced|
    ensures d.stree != [] ==>
      Cost(Used(f', elems), g, Plus(d.stree, d.xbits))
        == Bill(f, Plus(d.stree, d.xbits), elems) + Total(forced, d.stree)
  {
    hide Cost, Bill, GoodLengths, Total;
    GoodSize(Used(f', elems), elems, d, dl, blCount);
    var leaves, l := Used(f', elems), Plus(dl, d.xbits);
    CostIsBill(f', g, l, elems);
    BillForced(f, f', elems, forced, l, elems);
    TotalPrefix(forced, l, elems);
    if forced != {} {
      TwoLeaves(leaves, elems, d, dl, blCount);
      TotalOnes(forced, l);
    } else {
      TotalEmpty(l);
    }
    if d.stree != [] {
      var s := Plus(d.stree, d.xbits);
      CostIsBill(f', g, s, elems);
      BillForced(f, f', elems, forced, s, elems);
      TotalPrefix(forced, s, elems);
      TotalSame(forced, forced, s, d.stree);
    }
  }

  lemma GoodSize(leaves: set<nat>, elems: nat, d: Desc, dl: seq<nat>, blCount: seq<nat>)
    requires DescOk(d) && GoodLengths(leaves, elems, d, dl, blCount)
    ensures |dl| == |d.freq| && |blCount| == MAX_LENGTHS + 1
    ensures forall i :: 0 <= i < elems && i !in leaves ==> i < |dl| && dl[i] == 0
    ensures forall x :: x in leaves ==> x < |dl| && dl[x] != 0
  {
  }

  // ------------------------------------------------- the tree with its codes

  function FreqOf(tree: seq<CtData>): (f: seq<nat>)
    ensures |f| == |tree| && forall i :: 0 <= i < |tree| ==> f[i] == tree[i].fc
  {
    seq(|tree|, i requires 0 <= i < |tree| => tree[i].fc)
  }

  /** The codes of a finished tree: complete, within the limit, with a code for every symbol that occurs. */
  ghost predicate CodesFor(tree: seq<CtData>, f: seq<nat>, elems: nat, maxCode: nat, maxLength: nat)
    requires elems <= |f| && maxCode < elems <= |tree|
  {
    var lens := LensOf(tree, maxCode + 1);
    && ValidLens(lens) && Complete(lens) && (forall i :: 0 <= i <= maxCode ==> lens[i] <= maxLength)
    && (forall s :: 0 <= s <= maxCode && lens[s] > 0 ==> tree[s].fc == Huff(lens, s))
    && (forall i :: 0 <= i < elems && f[i] > 0 ==> i <= maxCode && lens[i] > 0)
    && (forall i :: maxCode < i < elems ==> tree[i].dl == 0)
  }

  /** No prefix code for the symbols does better. */
  ghost predicate Best(f: seq<nat>, elems: nat, l: seq<nat>)
    requires elems <= |f| == |l|
  {
    forall words: seq<seq<bool>> :: |words| == |f| && PrefixFree(Used(f, elems), words) ==>
      Bill(f, l, elems) <= Bill(f, Lengths(words), elems)
  }

  /** No other lengths of which there are as many of each do better. */
  ghost predicate BestOfCounts(f: seq<nat>, elems: nat, l: seq<nat>)
    requires elems <= |f| == |l|
  {
    forall l': seq<nat> ::
      |l'| == |l| && SameCounts(Used(f, elems), l', l) ==> Bill(f, l, elems) <= Bill(f, l', elems)
  }

  lemma RankedBestOf(f: seq<nat>, g: seq<nat>, elems: nat, dl: seq<nat>)
    requires elems <= |f| == |g| == |dl| && RarerLonger(Used(f, elems), g, dl)
    requires forall i :: 0 <= i < elems ==> g[i] == f[i]
    ensures BestOfCounts(f, elems, dl)
  {
    hide Cost, Bill, LenCount, RarerLonger;
    CostIsBill(f, g, dl, elems);
    forall l': seq<nat> | |l'| == |dl| && SameCounts(Used(f, elems), l', dl)
      ensures Bill(f, dl, elems) <= Bill(f, l', elems)
    {
      RankedBest(Used(f, elems), g, dl, l');
      CostIsBill(f, g, l', elems);
    }
  }

  // ------------------------------------------------- frequencies stay small

  /** How many symbols occur in all. */
  function Sum(f: seq<nat>, n: nat): nat
    requires n <= |f|
  {
    if n == 0 then 0 else Sum(f, n - 1) + f[n - 1]
  }

  lemma {:induction false} SumIsTotal(f: seq<nat>, g: seq<nat>, elems: nat, n: nat)
    requires elems <= |f| && elems <= |g| && n <= |g| && forall i :: 0 <= i < elems ==> f[i] == g[i]
    ensures Total(Used(f, elems), g[..n]) == Sum(f, if n <= elems then n else elems)
  {
    if n > 0 {
      SumIsTotal(f, g, elems, n - 1);
      assert g[..n][..n - 1] == g[..n - 1];
    }
  }

  lemma {:induction false} SumForced(f: seq<nat>, f': seq<nat>, elems: nat, forced: set<nat>, n: nat)
    requires Forced(f, elems, f', forced) && n <= elems
    ensures Sum(f', n) == Sum(f, n) + |set i | i in forced && i < n|
  {
    if n > 0 {
      SumForced(f, f', elems, forced, n - 1);
      var before, upTo := (set i | i in forced && i < n - 1), set i | i in forced && i < n;
      if n - 1 in forced {
        assert upTo == before + {n - 1};
      } else {
        assert upTo == before;
      }
    } else {
      assert (set i | i in forced && i < n) == {};
    }
  }

  /** No node of the tree counts more than all symbols, and those that were forced, together. */
  lemma {:induction false} NodesSmall(f: seq<nat>, elems: nat, freq': seq<nat>, forced: set<nat>, nodes: seq<nat>,
                                      merges: seq<(nat, nat)>, x: nat)
    requires Forced(f, elems, freq', forced) && elems <= |nodes| && forall i :: 0 <= i < elems ==> nodes[i] == freq'[i]
    requires IsHuffman(Used(freq', elems), elems, nodes, merges) && x < elems + |merges|
    ensures x < |nodes| && nodes[x] <= Sum(f, elems) + |forced|
  {
    hide Total, Sum;
    SumIsTotal(freq', nodes, elems, |nodes|);
    assert nodes[..|nodes|] == nodes;
    SumForced(f, freq', elems, forced, elems);
    assert (set i | i in forced && i < elems) == forced;
    if x >= elems || freq'[x] != 0 {
      NodeBound(Used(freq', elems), elems, nodes, merges, x);
    }
  }

  lemma BestLengths(f: seq<nat>, g: seq<nat>, elems: nat, merges: seq<(nat, nat)>, dl: seq<nat>)
    requires elems <= |f| == |g| == |dl| && IsHuffman(Used(f, elems), elems, g, merges) && Depths(elems, merges, dl)
    requires forall i :: 0 <= i < elems ==> g[i] == f[i]
    ensures Best(f, elems, dl)
  {
    hide IsHuffman, Depths, PrefixFree, Cost, Bill;
    CostIsBill(f, g, dl, elems);
    forall words: seq<seq<bool>> | |words| == |f| && PrefixFree(Used(f, elems), words)
      ensures Bill(f, dl, elems) <= Bill(f, Lengths(words), elems)
    {
      HuffmanOptimal(Used(f, elems), elems, g, merges, dl, words);
      CostIsBill(f, g, Lengths(words), elems);
    }
  }

  /** What a tree of lengths `l` is made from, and how good it is. */
  ghost predicate MadeBy(f: seq<nat>, elems: nat, maxCode: nat, maxLength: nat, l: seq<nat>, freq': seq<nat>,
                         forced: set<nat>, nodes: seq<nat>, merges: seq<(nat, nat)>)
    requires maxCode < elems <= |f| == |l| && 1 <= maxLength
  {
    && Forced(f, elems, freq', forced) && ForcedRule(f, elems, forced)
    && |nodes| == |l| && (forall i :: 0 <= i < elems ==> nodes[i] == freq'[i])
    && IsHuffman(Used(freq', elems), elems, nodes, merges)
    && (exists depth :: ByDepth(Used(freq', elems), elems, Keys(nodes, depth), merges))
    && freq'[maxCode] != 0 && (forall i :: maxCode < i < elems ==> freq'[i] == 0)
    && (forall i :: 0 <= i < elems ==> (l[i] == 0 <==> freq'[i] == 0))
    && (!TooDeep(Used(freq', elems), elems, merges, 0, maxLength) ==> Best(freq', elems, l))
    && BestOfCounts(freq', elems, l) && CountsRepaired(Used(freq', elems), elems, merges, maxLength, l)
  }

  /** The first `|lens|` of `|f|` symbols have codes that are made so from the frequencies. */
  ghost predicate Fitted(f: seq<nat>, lens: seq<nat>, maxLength: nat) {
    exists full, l, freq', forced, nodes, merges :: FittedBy(f, lens, maxLength, full, l, freq', forced, nodes, merges)
  }

  ghost predicate FittedBy(f: seq<nat>, lens: seq<nat>, maxLength: nat, full: seq<nat>, l: seq<nat>, freq': seq<nat>,
                           forced: set<nat>, nodes: seq<nat>, merges: seq<(nat, nat)>) {
    && 1 <= |lens| <= |f| <= |full| == |l| && 1 <= maxLength && full[..|f|] == f && l[..|lens|] == lens
    && MadeBy(full, |f|, |lens| - 1, maxLength, l, freq', forced, nodes, merges)
  }

  lemma Making(f: seq<nat>, elems: nat, maxCode: nat, maxLength: nat, l: seq<nat>, freq': seq<nat>,
               forced: set<nat>, nodes: seq<nat>, merges: seq<(nat, nat)>)
    requires maxCode < elems <= |f| == |l| && 1 <= maxLength && elems <= |freq'| == |f|
    requires Forced(f, elems, freq', forced) && ForcedRule(f, elems, forced) && |nodes| == |l|
    requires IsHuffman(Used(freq', elems), elems, nodes, merges) && forall i :: 0 <= i < elems ==> nodes[i] == freq'[i]
    requires exists depth :: ByDepth(Used(freq', elems), elems, Keys(nodes, depth), merges)
    requires freq'[maxCode] != 0 && forall i :: maxCode < i < elems ==> freq'[i] == 0
    requires forall i :: 0 <= i < elems && i !in Used(freq', elems) ==> l[i] == 0
    requires forall x :: x in Used(freq', elems) ==> x < |l| && l[x] != 0
    requires !TooDeep(Used(freq', elems), elems, merges, 0, maxLength) ==> Best(freq', elems, l)
    requires BestOfCounts(freq', elems, l) && CountsRepaired(Used(freq', elems), elems, merges, maxLength, l)
    ensures MadeBy(f, elems, maxCode, maxLength, l, freq', forced, nodes, merges)
    ensures |forced| <= 2 && (|Used(f, elems)| >= 2 ==> forced == {})
  {
    hide Forced, IsHuffman, TooDeep, Best, BestOfCounts, CountsRepaired;
    if |Used(f, elems)| == 0 {
      assert Used(f, elems) == {};
    } else if |Used(f, elems)| == 1 {
      var x :| x in Used(f, elems);
      assert |Used(f, elems) - {x}| == 0;
      assert Used(f, elems) == {x};
      assert forced == {if x < 2 then x + 1 else 0};
    }
  }

  lemma ZerosBehind(f: seq<nat>, elems: nat, maxCode: nat, maxLength: nat, l: seq<nat>, freq': seq<nat>,
                    forced: set<nat>, nodes: seq<nat>, merges: seq<(nat, nat)>)
    requires maxCode < elems <= |f| == |l| && 1 <= maxLength
    requires MadeBy(f, elems, maxCode, maxLength, l, freq', forced, nodes, merges)
    ensures l[maxCode] != 0 && forall i :: maxCode < i < elems ==> l[i] == 0
  {
    hide IsHuffman, TooDeep, Best, BestOfCounts, CountsRepaired, Forced, ForcedRule;
  }

  lemma MadeFitted(full: seq<nat>, f: seq<nat>, l: seq<nat>, maxCode: nat, maxLength: nat, freq': seq<nat>,
                   forced: set<nat>, nodes: seq<nat>, merges: seq<(nat, nat)>)
    requires maxCode < |f| <= |full| == |l| && 1 <= maxLength && forall i :: 0 <= i < |f| ==> full[i] == f[i]
    requires MadeBy(full, |f|, maxCode, maxLength, l, freq', forced, nodes, merges)
    ensures Fitted(f, l[..maxCode + 1], maxLength)
  {
    hide MadeBy;
    assert full[..|f|] == f;
    assert FittedBy(f, l[..maxCode + 1], maxLength, full, l, freq', forced, nodes, merges);
  }

  /**
   Builds the tree: afterwards its elements hold lengths and codes, and the totals include the text in these codes.
  */
  method BuildTree(tree: array<CtData>, elems: nat, xbits: seq<nat>, stree: seq<nat>, maxLength: nat, optLen: int,
                   staticLen: int)
    returns (maxCode: nat, optLen': int, staticLen': int,
             ghost freq': seq<nat>, ghost forced: set<nat>, ghost nodes: seq<nat>, ghost merges: seq<(nat, nat)>)
    requires 3 <= elems <= 286 && tree.Length == |xbits| == 2 * elems + 1 && (stree == [] || |stree| == 2 * elems + 1)
    requires 1 <= maxLength <= MAX_LENGTHS && elems <= Pow2(maxLength) && xbits[0] == xbits[1] == xbits[2] == 0
    modifies tree
    ensures maxCode < elems && CodesFor(tree[..], old(FreqOf(tree[..])), elems, maxCode, maxLength)
    ensures optLen' == optLen + Bill(old(FreqOf(tree[..])), Plus(LensOf(tree[..], tree.Length), xbits), elems)
    ensures staticLen' == staticLen + if stree == [] then 0 else Bill(old(FreqOf(tree[..])), Plus(stree, xbits), elems)
    ensures Forced(old(FreqOf(tree[..])), elems, freq', forced)
    ensures |forced| <= 2 && (|Used(old(FreqOf(tree[..])), elems)| >= 2 ==> forced == {})
    ensures forall i :: 0 <= i < elems && freq'[i] == 0 ==> tree[i].dl == 0
    ensures |nodes| == tree.Length && (forall i :: 0 <= i < elems ==> nodes[i] == freq'[i])
    ensures IsHuffman(Used(freq', elems), elems, nodes, merges)
    ensures !TooDeep(Used(freq', elems), elems, merges, 0, maxLength) ==>
      Best(freq', elems, LensOf(tree[..], tree.Length))
    ensures BestOfCounts(freq', elems, LensOf(tree[..], tree.Length))
    ensures MadeBy(old(FreqOf(tree[..])), elems, maxCode, maxLength, LensOf(tree[..], tree.Length), freq', forced,
      nodes,
                   merges)
  {
    hide MadeBy, CountsRepaired, ForcedRule, RarerLonger, BestOfCounts, IsHuffman, Stored, Fathers, Cost, Bill,
      LenCount, Pow2, Depths, Total, GoodLengths,
      Best, CodesFor, NotOver,
         Complete, TooDeep;
    ghost var f := FreqOf(tree[..]);
    var w, mc, o, st;
    w, mc, o, st, forced, freq', merges := Construct(FreqOf(tree[..]), elems, stree, optLen, staticLen);
    maxCode := mc;
    ghost var leaves := Used(freq', elems);
    var d := Desc(w.keys.freq, xbits, stree, maxCode, maxLength);
    assert TreeOk(leaves, elems, merges, d);
    HuffmanSize(leaves, elems, d.freq, merges);
    RuleSize(f, elems, forced);
    TotalNil(forced);
    var dl, blCount;
    nodes := w.keys.freq;
    dl, blCount, optLen', staticLen' := GenBitLen(w, d, elems, o, st, leaves, merges);
    TotalsRight(f, freq', w.keys.freq, elems, forced, d, dl, blCount);
    GoodSize(leaves, elems, d, dl, blCount);
    RankedBestOf(freq', nodes, elems, dl);
    if !TooDeep(leaves, elems, merges, 0, maxLength) {
      BestLengths(freq', w.keys.freq, elems, merges, dl);
    }
    forall i | 0 <= i < tree.Length {
      tree[i] := CtData(w.keys.freq[i], dl[i]);
    }
    FinishTree(tree, elems, d, dl, blCount, f, freq', forced);
    assert ByDepth(leaves, elems, Keys(nodes, w.keys.depth), merges) by { assert Keys(nodes, w.keys.depth) == w.keys; }
    Making(f, elems, maxCode, maxLength, dl, freq', forced, nodes, merges);
  }

  /** Sets the codes. */
  method FinishTree(tree: array<CtData>, elems: nat, d: Desc, dl: seq<nat>, blCount: seq<nat>,
                    ghost f: seq<nat>, ghost freq': seq<nat>, ghost forced: set<nat>)
    requires Forced(f, elems, freq', forced) && d.maxCode < elems <= tree.Length == |dl| == |f|
    requires DescOk(d) && GoodLengths(Used(freq', elems), elems, d, dl, blCount)
    requires forall i :: d.maxCode < i < elems ==> freq'[i] == 0
    requires forall i :: 0 <= i < tree.Length ==> tree[i].dl == dl[i]
    modifies tree
    ensures CodesFor(tree[..], f, elems, d.maxCode, d.maxLength) && LensOf(tree[..], tree.Length) == dl
  {
    hide LenCount, Pow2, NotOver, Complete, CountKraft, Huff;
    ghost var leaves := Used(freq', elems);
    GoodComplete(leaves, elems, d, dl, blCount);
    ghost var lens := dl[..d.maxCode + 1];
    assert LensOf(tree[..], d.maxCode + 1) == lens;
    assert NotOver(lens) by { CompleteNotOver(lens); }
    Coding.GenCodes(tree, d.maxCode + 1, blCount);
    assert LensOf(tree[..], d.maxCode + 1) == lens;
  }

  lemma RuleSize(f: seq<nat>, elems: nat, forced: set<nat>)
    requires elems <= |f| && ForcedRule(f, elems, forced)
    ensures |Used(f, elems)| >= 2 ==> forced == {}
  {
  }

  lemma HuffmanSize(leaves: set<nat>, elems: nat, f: seq<nat>, merges: seq<(nat, nat)>)
    requires IsHuffman(leaves, elems, f, merges)
    ensures |leaves| == |merges| + 1
  {
  }

  lemma {:induction false} TotalNil(nodes: set<nat>)
    ensures Total(nodes, []) == 0
  {
  }

  lemma CompleteNotOver(lens: seq<nat>)
    ensures Complete(lens) ==> NotOver(lens)
  {
  }
}
