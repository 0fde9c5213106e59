/**
 The second half of `gen_bitlen` of src/zlib/trees.c: when codes were too long, all lengths are set anew from the
 counts.
*/
module Reassign {
  import opened Weights
  import opened BitLengths
  import opened Huffman
  import opened BuildTree
  import opened GenBitLen

  /** The nodes below the root in the order in which they were taken from the heap. */
  function Taken(merges: seq<(nat, nat)>, i: nat): nat
    requires i < 2 * |merges|
  {
    if i % 2 == 0 then merges[i / 2].0 else merges[i / 2].1
  }

  lemma TakenStored(heap: seq<nat>, merges: seq<(nat, nat)>, i: nat)
    requires Stored(heap, merges) && i < 2 * |merges|
    ensures heap[HEAP_SIZE - 1 - i] == Taken(merges, i)
  {
    var j := i / 2;
    assert heap[HEAP_SIZE - 1 - 2 * j] == merges[j].0 && heap[HEAP_SIZE - 2 - 2 * j] == merges[j].1;
  }

  lemma TakenOnce(leaves: set<nat>, elems: nat, merges: seq<(nat, nat)>, d: Desc, i: nat, t: nat)
    requires TreeOk(leaves, elems, merges, d) && t < i < 2 * |merges|
    ensures Taken(merges, t) != Taken(merges, i)
  {
    hide TreeOk;
    if t / 2 == i / 2 {
      PairFacts(leaves, elems, merges, d, i / 2);
    } else {
      PairsDiffer(leaves, elems, merges, d, i / 2, t / 2);
    }
  }

  lemma TakenLeaf(leaves: set<nat>, elems: nat, merges: seq<(nat, nat)>, d: Desc, i: nat)
    requires TreeOk(leaves, elems, merges, d) && i < 2 * |merges|
    ensures Taken(merges, i) < |d.freq| && (Taken(merges, i) <= d.maxCode <==> Taken(merges, i) in leaves)
  {
    hide Live;
    PairFacts(leaves, elems, merges, d, i / 2);
  }

  /** Every leaf is merged some time. */
  lemma {:induction false} LeafTaken(leaves: set<nat>, elems: nat, merges: seq<(nat, nat)>, d: Desc, x: nat,
                                     k: nat) returns (i: nat)
    requires TreeOk(leaves, elems, merges, d) && x in leaves && k <= |merges| && x in Live(leaves, elems, merges, k)
    ensures i < 2 * |merges| && Taken(merges, i) == x
    decreases |merges| - k
  {
    if k == |merges| {
      LastLive(leaves, elems, d.freq, merges);
      assert false;
    } else if merges[k].0 == x {
      i := 2 * k;
    } else if merges[k].1 == x {
      i := 2 * k + 1;
    } else {
      i := LeafTaken(leaves, elems, merges, d, x, k + 1);
    }
  }

  /** `done` are the leaves among the first `i` nodes taken. */
  ghost predicate Reached(leaves: set<nat>, merges: seq<(nat, nat)>, done: set<nat>, i: nat) {
    && i <= 2 * |merges| && done <= leaves
    && (forall t {:trigger Taken(merges, t)} :: 0 <= t < i && Taken(merges, t) in leaves ==> Taken(merges, t) in done)
    && (forall x :: x in done ==> exists t :: 0 <= t < i && Taken(merges, t) == x)
  }

  /** As long as there are leaves left there are nodes left. */
  lemma MoreNodes(leaves: set<nat>, elems: nat, merges: seq<(nat, nat)>, d: Desc, done: set<nat>, i: nat)
    requires TreeOk(leaves, elems, merges, d) && Reached(leaves, merges, done, i) && |done| < |leaves|
    ensures i < 2 * |merges|
  {
    hide TreeOk;
    assert done != leaves;
    var x :| x in leaves && x !in done;
    assert x in Live(leaves, elems, merges, 0);
    var t := LeafTaken(leaves, elems, merges, d, x, 0);
  }

  lemma ReachedNext(leaves: set<nat>, elems: nat, merges: seq<(nat, nat)>, d: Desc, done: set<nat>, i: nat)
    requires TreeOk(leaves, elems, merges, d) && Reached(leaves, merges, done, i) && i < 2 * |merges|
    ensures var m := Taken(merges, i);
      && m !in done && (m in leaves ==> Reached(leaves, merges, done + {m}, i + 1))
      && (m !in leaves ==> Reached(leaves, merges, done, i + 1))
  {
    hide TreeOk, Taken;
    var m := Taken(merges, i);
    if m in done {
      var t :| 0 <= t < i && Taken(merges, t) == m;
      TakenOnce(leaves, elems, merges, d, i, t);
    }
    forall x | x in done + {m} ensures exists t :: 0 <= t < i + 1 && Taken(merges, t) == x {
      if x in done {
        var t :| 0 <= t < i && Taken(merges, t) == x;
        assert t < i + 1;
      } else {
        assert Taken(merges, i) == x;
      }
    }
  }

  /** The counts of the lengths given so far: all of those above `bits`, and all but `n` of those of `bits`. */
  ghost predicate Given(done: set<nat>, dl: seq<nat>, c: seq<nat>, m: nat, bits: nat, n: nat)
    requires m < |c|
  {
    && (forall x :: x in done ==> x < |dl| && 1 <= dl[x] <= m)
    && forall b :: 1 <= b <= m ==>
      LenCount(done, dl, b) + (if b < bits then c[b] else if b == bits then n else 0) == c[b]
  }

  lemma GiveOne(done: set<nat>, dl: seq<nat>, c: seq<nat>, m: nat, bits: nat, n: nat, x: nat)
    requires m < |c| && 1 <= bits <= m && n > 0 && x < |dl| && x !in done && Given(done, dl, c, m, bits, n)
    ensures Given(done + {x}, dl[x := bits], c, m, bits, n - 1)
  {
    hide LenCount;
    forall b | 1 <= b <= m ensures LenCount(done + {x}, dl[x := bits], b) == LenCount(done, dl, b)
      + (if bits == b then 1 else 0) {
      LenCountSame(done, done, dl, dl[x := bits], b);
      LenCountAdd(done, dl[x := bits], x, b);
    }
  }

  lemma CostChange(nodes: set<nat>, f: seq<nat>, dl: seq<nat>, xbits: seq<nat>, x: nat, bits: nat)
    requires |f| == |dl| == |xbits| && x in nodes && x < |f|
    ensures Cost(nodes, f, Plus(dl[x := bits], xbits)) == Cost(nodes, f, Plus(dl, xbits)) + (bits - dl[x]) * f[x]
  {
    hide Cost;
    CostRemove(nodes, f, Plus(dl, xbits), x);
    CostRemove(nodes, f, Plus(dl[x := bits], xbits), x);
    CostSame(nodes - {x}, f, f, Plus(dl, xbits), Plus(dl[x := bits], xbits));
    ProductChange(f[x], bits, dl[x], xbits[x]);
  }

  lemma ProductChange(f: nat, a: nat, b: nat, x: nat)
    ensures f * (a + x) == f * (b + x) + (a - b) * f
  {
  }

  /** The length of a node, and the total with it. */
  function Relen(d: Desc, dl: seq<nat>, optLen: int, x: nat, bits: nat): (seq<nat>, int)
    requires x < |dl| && x < |d.freq|
  {
    if dl[x] != bits then (dl[x := bits], optLen + (bits - dl[x]) * d.freq[x]) else (dl, optLen)
  }

  // ------------------------------------------------- rarer leaves get longer codes

  lemma {:induction false} TakenOrder(leaves: set<nat>, elems: nat, merges: seq<(nat, nat)>, d: Desc, i: nat, t: nat)
    requires TreeOk(leaves, elems, merges, d) && i <= t < 2 * |merges|
    ensures Taken(merges, i) < |d.freq| && Taken(merges, t) < |d.freq|
    ensures d.freq[Taken(merges, i)] <= d.freq[Taken(merges, t)]
    decreases t
  {
    RemovalOrder(leaves, elems, d.freq, merges, i / 2);
    if i < t {
      TakenOrder(leaves, elems, merges, d, i, t - 1);
      RemovalOrder(leaves, elems, d.freq, merges, (t - 1) / 2);
    }
  }

  /** The leaves in `done` have at least `bits` bits, are ranked, and are no more frequent than the others. */
  ghost predicate Ranked(leaves: set<nat>, f: seq<nat>, done: set<nat>, dl: seq<nat>, bits: nat)
    requires |f| == |dl|
  {
    && RarerLonger(done, f, dl) && (forall x :: x in done ==> x < |dl| && dl[x] >= bits)
    && forall x, y :: x in done && y in leaves && y !in done ==> y < |f| && f[x] <= f[y]
  }

  lemma RankedStep(leaves: set<nat>, elems: nat, merges: seq<(nat, nat)>, d: Desc, done: set<nat>,
                   dl: seq<nat>, bits: nat, i: nat)
    requires TreeOk(leaves, elems, merges, d) && Reached(leaves, merges, done, i) && i < 2 * |merges|
    requires |dl| == |d.freq| && Ranked(leaves, d.freq, done, dl, bits) && Taken(merges, i) in leaves
    requires Taken(merges, i) < |dl| && Taken(merges, i) !in done
    ensures Ranked(leaves, d.freq, done + {Taken(merges, i)}, dl[Taken(merges, i) := bits], bits)
  {
    hide TreeOk, Taken;
    var m := Taken(merges, i);
    forall y | y in leaves && y !in done + {m} ensures y < |d.freq| && d.freq[m] <= d.freq[y] {
      assert y in Live(leaves, elems, merges, 0);
      var t := LeafTaken(leaves, elems, merges, d, y, 0);
      TakenOrder(leaves, elems, merges, d, i, t);
    }
  }

  lemma {:induction false} Rarest(nodes: set<nat>, f: seq<nat>, l: seq<nat>) returns (x: nat)
    requires nodes != {} && |f| == |l| && forall y :: y in nodes ==> y < |f|
    ensures x in nodes && forall y :: y in nodes ==> f[x] < f[y] || (f[x] == f[y] && l[y] <= l[x])
    decreases |nodes|
  {
    x :| x in nodes;
    if nodes != {x} {
      var z := Rarest(nodes - {x}, f, l);
      if f[z] < f[x] || (f[z] == f[x] && l[x] <= l[z]) {
        x := z;
      }
    }
  }

  /** As many nodes have each length. */
  ghost predicate SameCounts(nodes: set<nat>, l: seq<nat>, l': seq<nat>) {
    forall b: nat :: LenCount(nodes, l, b) == LenCount(nodes, l', b)
  }

  /** No other way to give out as many codes of each length costs less. */
  lemma {:induction false} RankedBest(nodes: set<nat>, f: seq<nat>, l: seq<nat>, l': seq<nat>)
    requires |f| == |l| == |l'| && (forall x :: x in nodes ==> x < |f|) && RarerLonger(nodes, f, l)
    requires SameCounts(nodes, l', l)
    ensures Cost(nodes, f, l) <= Cost(nodes, f, l')
    decreases |nodes|
  {
    hide Cost, LenCount;
    if nodes == {} {
      CostNone(f, l);
    } else {
      var x := Rarest(nodes, f, l);
      LenCountHas(nodes, l, x);
      var y := LenCountSome(nodes, l', l[x]);
      LenCountHas(nodes, l', x);
      var z := LenCountSome(nodes, l, l'[x]);
      var m := l'[x := l'[y]][y := l'[x]];
      if x == y {
        assert m == l';
      } else {
        SwapCost(nodes, f, l', m, x, y);
      }
      forall b: nat ensures LenCount(nodes - {x}, m, b) == LenCount(nodes - {x}, l, b) {
        WithoutOne(nodes, l, l', x, y, b);
      }
      RankedBest(nodes - {x}, f, l, m);
      CostRemove(nodes, f, l, x);
      CostRemove(nodes, f, m, x);
    }
  }

  lemma WithoutOne(nodes: set<nat>, l: seq<nat>, l': seq<nat>, x: nat, y: nat, b: nat)
    requires |l| == |l'| && x in nodes && y in nodes && x < |l| && y < |l| && l'[y] == l[x]
    requires LenCount(nodes, l', b) == LenCount(nodes, l, b)
    ensures LenCount(nodes - {x}, l'[x := l'[y]][y := l'[x]], b) == LenCount(nodes - {x}, l, b)
  {
    hide LenCount;
    assert nodes - {x} + {x} == nodes;
    LenCountSwap(nodes, l', x, y, b);
    LenCountAdd(nodes - {x}, l, x, b);
    LenCountAdd(nodes - {x}, l'[x := l'[y]][y := l'[x]], x, b);
  }

  /** What holds while lengths are given out. */
  ghost predicate Giving(leaves: set<nat>, elems: nat, merges: seq<(nat, nat)>, d: Desc, c: seq<nat>, dl0: seq<nat>,
                         opt0: int,
                         done: set<nat>, dl: seq<nat>, optLen: int, bits: nat, n: nat, i: nat)
    requires TreeOk(leaves, elems, merges, d) && d.maxLength < |c| && bits <= d.maxLength
  {
    && Reached(leaves, merges, done, i) && |dl| == |dl0| == |d.freq|
    && Given(done, dl, c, d.maxLength, bits, n) && Ranked(leaves, d.freq, done, dl, bits)
    && |done| + n + (if bits == 0 then 0 else CountSum(c, bits - 1)) == |leaves|
    && (forall x :: 0 <= x < |dl| && x !in leaves ==> dl[x] == dl0[x])
    && optLen == opt0 + Cost(leaves, d.freq, Plus(dl, d.xbits))
  }

  /** One node: a leaf gets the length, anything else is passed over. */
  lemma GivingStep(leaves: set<nat>, elems: nat, merges: seq<(nat, nat)>, d: Desc, c: seq<nat>,
                   dl0: seq<nat>, opt0: int, done: set<nat>, dl: seq<nat>, optLen: int, bits: nat, n: nat, i: nat)
    requires TreeOk(leaves, elems, merges, d) && d.maxLength < |c| && 1 <= bits <= d.maxLength && n > 0
    requires Giving(leaves, elems, merges, d, c, dl0, opt0, done, dl, optLen, bits, n, i)
    ensures i < 2 * |merges| && Taken(merges, i) < |dl| == |d.freq|
    ensures Taken(merges, i) > d.maxCode ==>
      Giving(leaves, elems, merges, d, c, dl0, opt0, done, dl, optLen, bits, n, i + 1)
    ensures Taken(merges, i) <= d.maxCode ==>
      var (dl', opt') := Relen(d, dl, optLen, Taken(merges, i), bits);
      Giving(leaves, elems, merges, d, c, dl0, opt0, done + {Taken(merges, i)}, dl', opt', bits, n - 1, i + 1)
  {
    hide TreeOk, Reached, Given, Cost, CountSum, Taken, Ranked;
    TreeSize(leaves, elems, merges, d);
    MoreNodes(leaves, elems, merges, d, done, i);
    TakenLeaf(leaves, elems, merges, d, i);
    ReachedNext(leaves, elems, merges, d, done, i);
    var m := Taken(merges, i);
    if m <= d.maxCode {
      GiveOne(done, dl, c, d.maxLength, bits, n, m);
      RankedStep(leaves, elems, merges, d, done, dl, bits, i);
      CostChange(leaves, d.freq, dl, d.xbits, m, bits);
      assert dl[m] == bits ==> dl[m := bits] == dl;
    }
  }

  /** Gives out the lengths by the counts `c`, the longest to the nodes that were taken first. */
  method SetLengths(heap: seq<nat>, c: seq<nat>, d: Desc, z: Sizes, ghost opt0: int,
                    ghost leaves: set<nat>, ghost elems: nat, ghost merges: seq<(nat, nat)>)
    returns (dl: seq<nat>, optLen: int)
    requires TreeOk(leaves, elems, merges, d) && Stored(heap, merges) && |c| == MAX_LENGTHS + 1 && |z.dl| == |d.freq|
    requires CountSum(c, d.maxLength) == |leaves| && z.optLen == opt0 + Cost(leaves, d.freq, Plus(z.dl, d.xbits))
    ensures |dl| == |z.dl| && (forall b :: 1 <= b <= d.maxLength ==> LenCount(leaves, dl, b) == c[b])
    ensures forall x :: x in leaves ==> x < |dl| && 1 <= dl[x] <= d.maxLength
    ensures forall x :: 0 <= x < |dl| && x !in leaves ==> dl[x] == z.dl[x]
    ensures RarerLonger(leaves, d.freq, dl)
    ensures optLen == opt0 + Cost(leaves, d.freq, Plus(dl, d.xbits))
  {
    hide TreeOk, Giving, Stored, Reached;
    TreeSize(leaves, elems, merges, d);
    StoredSize(heap, merges);
    dl, optLen := z.dl, z.optLen;
    ghost var done: set<nat>, i: nat := {}, 0;
    var h := HEAP_SIZE;
    var bits: nat := d.maxLength;
    GivingStart(leaves, elems, merges, d, c, dl, opt0, optLen);
    while bits != 0
      invariant 0 <= bits <= d.maxLength && h == HEAP_SIZE - i && i <= HEAP_SIZE
      invariant Giving(leaves, elems, merges, d, c, z.dl, opt0, done, dl, optLen, bits,
        if bits == 0 then 0 else c[bits], i)
    {
      var n := c[bits];
      while n != 0
        invariant h == HEAP_SIZE - i && i <= HEAP_SIZE && 0 <= n
        invariant Giving(leaves, elems, merges, d, c, z.dl, opt0, done, dl, optLen, bits, n, i)
        decreases 2 * |merges| - i
      {
        GivingStep(leaves, elems, merges, d, c, z.dl, opt0, done, dl, optLen, bits, n, i);
        TakenStored(heap, merges, i);
        GivingBound(heap, merges, i);
        h := h - 1;
        i := i + 1;
        var m := heap[h];
        if m <= d.maxCode {
          done := done + {m};
          var r := Relen(d, dl, optLen, m, bits);
          dl, optLen := r.0, r.1;
          n := n - 1;
        }
      }
      GivingNext(leaves, elems, merges, d, c, z.dl, opt0, done, dl, optLen, bits, i);
      bits := bits - 1;
    }
    GivingEnd(leaves, elems, merges, d, c, z.dl, opt0, done, dl, optLen, i);
  }

  lemma GivingBound(heap: seq<nat>, merges: seq<(nat, nat)>, i: nat)
    requires Stored(heap, merges) && i < 2 * |merges|
    ensures i + 1 <= HEAP_SIZE
  {
  }

  lemma {:induction false} GivingStart(leaves: set<nat>, elems: nat, merges: seq<(nat, nat)>, d: Desc, c: seq<nat>,
                                       dl: seq<nat>, opt0: int, optLen: int)
    requires TreeOk(leaves, elems, merges, d) && |c| == MAX_LENGTHS + 1 && |dl| == |d.freq|
    requires CountSum(c, d.maxLength) == |leaves|
    requires optLen == opt0 + Cost(leaves, d.freq, Plus(dl, d.xbits))
    ensures Giving(leaves, elems, merges, d, c, dl, opt0, {}, dl, optLen, d.maxLength, c[d.maxLength], 0)
  {
    hide Cost;
    forall b | 1 <= b <= d.maxLength ensures LenCount({}, dl, b) == 0 {
      LenCountNone(dl, b);
    }
  }

  lemma GivingNext(leaves: set<nat>, elems: nat, merges: seq<(nat, nat)>, d: Desc, c: seq<nat>,
                   dl0: seq<nat>, opt0: int, done: set<nat>, dl: seq<nat>, optLen: int, bits: nat, i: nat)
    requires TreeOk(leaves, elems, merges, d) && d.maxLength < |c| && 1 <= bits <= d.maxLength
    requires Giving(leaves, elems, merges, d, c, dl0, opt0, done, dl, optLen, bits, 0, i)
    ensures Giving(leaves, elems, merges, d, c, dl0, opt0, done, dl, optLen, bits - 1,
      if bits == 1 then 0 else c[bits - 1], i)
  {
    hide Cost, TreeOk, LenCount, Reached;
  }

  lemma {:induction false} GivingEnd(leaves: set<nat>, elems: nat, merges: seq<(nat, nat)>, d: Desc, c: seq<nat>,
                                     dl0: seq<nat>, opt0: int,
                                     done: set<nat>, dl: seq<nat>, optLen: int, i: nat)
    requires TreeOk(leaves, elems, merges, d) && d.maxLength < |c|
    requires Giving(leaves, elems, merges, d, c, dl0, opt0, done, dl, optLen, 0, 0, i)
    ensures |dl| == |dl0| && (forall b :: 1 <= b <= d.maxLength ==> LenCount(leaves, dl, b) == c[b])
    ensures forall x :: x in leaves ==> x < |dl| && 1 <= dl[x] <= d.maxLength
    ensures forall x :: 0 <= x < |dl| && x !in leaves ==> dl[x] == dl0[x]
    ensures RarerLonger(leaves, d.freq, dl)
    ensures optLen == opt0 + Cost(leaves, d.freq, Plus(dl, d.xbits))
  {
    hide Cost, TreeOk, LenCount;
    SubsetSame(done, leaves);
  }

  lemma SubsetSame(a: set<nat>, b: set<nat>)
    requires a <= b && |a| == |b|
    ensures a == b
  {
    assert |b - a| == |b| - |a|;
  }
}
