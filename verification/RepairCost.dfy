/**
 What a round of the repair in `gen_bitlen` of src/zlib/trees.c costs.  The frequencies are
 listed from the highest down and the codes are given out by length, so `CountSum(c, b)`
 symbols have at most `b` bits.
 */
module RepairCost {
  import opened Weights
  import opened BitLengths
  import opened Huffman

  /** The frequencies from the `k`-th on, together. */
  function Tail(f: seq<nat>, k: nat): nat
    decreases |f| - k
  {
    if k >= |f| then 0 else f[k] + Tail(f, k + 1)
  }

  /** Every symbol pays once for each bit that its code has, up to the `n`-th. */
  function LevelCost(f: seq<nat>, c: seq<nat>, n: nat): nat
    requires n <= |c|
  {
    if n == 0 then 0 else LevelCost(f, c, n - 1) + Tail(f, CountSum(c, n - 1))
  }

  // ------------------------------------------------- what a step adds

  /** The most frequent symbols with more than `j` bits, for each `j` from `i` up to the limit. */
  function Relieved(f: seq<nat>, c: seq<nat>, i: nat, m: nat): nat
    requires m < |c| && CountSum(c, m) == |f| && c[m] > 0
    decreases m - i
  {
    if i >= m then 0
    else
      SumBelow(c, i, m);
      f[CountSum(c, i)] + Relieved(f, c, i + 1, m)
  }

  lemma {:induction false} SumBelow(c: seq<nat>, i: nat, m: nat)
    requires i < m < |c| && c[m] > 0
    ensures CountSum(c, i) < CountSum(c, m)
    decreases m
  {
    if i < m - 1 {
      SumMono(c, i, m - 1);
    }
  }

  lemma {:induction false} SumMono(c: seq<nat>, i: nat, j: nat)
    requires i <= j < |c|
    ensures CountSum(c, i) <= CountSum(c, j)
    decreases j
  {
    if i < j {
      SumMono(c, i, j - 1);
    }
  }

  lemma {:induction false} MovedSum(c: seq<nat>, b: nat, m: nat, j: nat)
    requires 1 <= b < m < |c| && c[b] > 0 && c[m] > 0 && j <= m
    ensures CountSum(Moved(c, b, m), j) == CountSum(c, j) + if j < b || j == m then 0 else if j == b then -1 else 1
  {
    if j > 0 {
      MovedSum(c, b, m, j - 1);
    }
  }

  lemma {:induction false} StepLevels(f: seq<nat>, c: seq<nat>, b: nat, m: nat, n: nat)
    requires 1 <= b < m < |c| && c[b] > 0 && c[m] > 0 && CountSum(c, m) == |f| && n <= m
    ensures 1 <= CountSum(c, b) <= |f|
    ensures LevelCost(f, Moved(c, b, m), n) + (if n > b then Relieved(f, c, b + 1, m) - Relieved(f, c, n, m) else 0)
         == LevelCost(f, c, n) + (if n > b then f[CountSum(c, b) - 1] else 0)
  {
    SumBelow(c, b, m);
    if n > 0 {
      StepLevels(f, c, b, m, n - 1);
      MovedSum(c, b, m, n - 1);
      SumBelow(c, n - 1, m);
    }
  }

  /**
   Moving a code of length `b` down costs a bit for the rarest symbol with at most `b`
   bits, and saves one, at each length from there to the limit, for the most frequent of
   those that have more.
  */
  lemma StepAdds(f: seq<nat>, c: seq<nat>, b: nat, m: nat)
    requires 1 <= b < m < |c| && c[b] > 0 && c[m] > 0 && CountSum(c, m) == |f|
    ensures 1 <= CountSum(c, b) <= |f|
    ensures LevelCost(f, Moved(c, b, m), m) + Relieved(f, c, b + 1, m) == LevelCost(f, c, m) + f[CountSum(c, b) - 1]
  {
    StepLevels(f, c, b, m, m);
  }

  /**
   The length that the code chooses, the greatest below the limit, is no dearer than `b'` if
   and only if the rarest symbol with at most `b'` bits is as frequent as the one that is
   moved and the most frequent symbols with more than `j` bits, for all `j` between,
   together.
  */
  lemma ChosenCheapest(f: seq<nat>, c: seq<nat>, m: nat, b': nat)
    requires 1 <= m < |c| && c[m] > 0 && CountSum(c, m) == |f| && 1 <= b' < LongestUsed(c, m - 1) && c[b'] > 0
    ensures var b := LongestUsed(c, m - 1);
      && 1 <= CountSum(c, b') <= |f| && 1 <= CountSum(c, b) <= |f|
      && (LevelCost(f, Round(c, m), m) <= LevelCost(f, Moved(c, b', m), m)
          <==> f[CountSum(c, b') - 1] >= f[CountSum(c, b) - 1] + Relieved(f, c, b' + 1, m) - Relieved(f, c, b + 1, m))
  {
    hide LevelCost, Relieved, CountSum, Tail;
    var b := LongestUsed(c, m - 1);
    StepAdds(f, c, b, m);
    StepAdds(f, c, b', m);
  }

  /**
   It is not always the cheapest: these are the frequencies and the cut lengths of a
   Huffman tree with a limit of seven bits, and moving a code of five bits instead of the
   one of six would cost less.
  */
  lemma ChosenDearer()
    ensures var f, c := [104, 52, 26, 13, 5, 5, 1, 1, 1], [0, 1, 1, 1, 1, 1, 1, 3];
      && CountSum(c, 7) == |f| && Round(c, 7) == Moved(c, 6, 7)
      && LevelCost(f, Round(c, 7), 7) == 419 && LevelCost(f, Moved(c, 5, 7), 7) == 418
  {
    hide LevelCost, Relieved, Moved;
    var f, c := [104, 52, 26, 13, 5, 5, 1, 1, 1], [0, 1, 1, 1, 1, 1, 1, 3];
    assert CountSum(c, 0) == 0 && CountSum(c, 1) == 1 && CountSum(c, 2) == 2 && CountSum(c, 3) == 3;
    assert CountSum(c, 4) == 4 && CountSum(c, 5) == 5 && CountSum(c, 6) == 6 && CountSum(c, 7) == 9;
    StepAdds(f, c, 6, 7);
    StepAdds(f, c, 5, 7);
    assert Relieved(f, c, 7, 7) == 0 && Relieved(f, c, 6, 7) == f[6] by { LastRelieved(f, c, 7); }
    assert LevelCost(f, c, 7) == 414 by { CutCost(f, c); }
  }

  lemma LastRelieved(f: seq<nat>, c: seq<nat>, m: nat)
    requires 1 <= m < |c| && CountSum(c, m) == |f| && c[m] > 0
    ensures CountSum(c, m - 1) < |f|
    ensures Relieved(f, c, m, m) == 0 && Relieved(f, c, m - 1, m) == f[CountSum(c, m - 1)]
  {
    SumBelow(c, m - 1, m);
  }

  lemma CutCost(f: seq<nat>, c: seq<nat>)
    requires f == [104, 52, 26, 13, 5, 5, 1, 1, 1] && |c| == 8 && forall j :: 0 <= j < 7 ==> CountSum(c, j) == j
    ensures LevelCost(f, c, 7) == 414
  {
    hide CountSum;
    assert Tail(f, 9) == 0 && Tail(f, 8) == 1 && Tail(f, 7) == 2 && Tail(f, 6) == 3;
    assert Tail(f, 5) == 8 && Tail(f, 4) == 13 && Tail(f, 3) == 26 && Tail(f, 2) == 52;
    assert Tail(f, 1) == 104 && Tail(f, 0) == 208;
    assert LevelCost(f, c, 1) == 208 && LevelCost(f, c, 2) == 312 && LevelCost(f, c, 3) == 364;
    assert LevelCost(f, c, 4) == 390 && LevelCost(f, c, 5) == 403 && LevelCost(f, c, 6) == 411;
  }

  // ------------------------------------------------- level costs are costs

  /** Nodes of `nodes` with more than `b` bits. */
  ghost function Above(nodes: set<nat>, l: seq<nat>, b: nat): set<nat> {
    set x | x in nodes && x < |l| && l[x] > b
  }

  lemma {:induction false} TotalAdd(nodes: set<nat>, some: set<nat>, v: seq<nat>, w: seq<nat>, f: seq<nat>)
    requires |v| == |w| == |f| && some <= nodes
    requires forall i :: 0 <= i < |v| && i in nodes ==> w[i] == v[i] + if i in some then f[i] else 0
    ensures Total(nodes, w) == Total(nodes, v) + Total(some, f)
  {
    if v != [] {
      var n := |v| - 1;
      TotalAdd(nodes, some, v[..n], w[..n], f[..n]);
    }
  }

  function CutTo(l: nat, n: nat): nat {
    if l > n then n else l
  }

  function CutAt(l: seq<nat>, n: nat): (r: seq<nat>)
    ensures |r| == |l| && forall i :: 0 <= i < |l| ==> r[i] == CutTo(l[i], n)
  {
    seq(|l|, i requires 0 <= i < |l| => CutTo(l[i], n))
  }

  lemma OneBit(f: nat, l: nat, n: nat)
    ensures f * CutTo(l, n + 1) == f * CutTo(l, n) + if l > n then f else 0
  {
    if l > n {
      assert f * (n + 1) == f * n + f;
    }
  }

  lemma OneLevel(nodes: set<nat>, f: seq<nat>, l: seq<nat>, n: nat)
    requires |f| == |l| && forall x :: x in nodes ==> x < |l|
    ensures Cost(nodes, f, CutAt(l, n + 1)) == Cost(nodes, f, CutAt(l, n)) + Total(Above(nodes, l, n), f)
  {
    var v, w := Products(f, CutAt(l, n)), Products(f, CutAt(l, n + 1));
    hide Total;
    forall i | 0 <= i < |v| && i in nodes ensures w[i] == v[i] + if i in Above(nodes, l, n) then f[i] else 0 {
      OneBit(f[i], l[i], n);
    }
    TotalAdd(nodes, Above(nodes, l, n), v, w, f);
  }

  /** Some of the nodes are no more frequent than the others. */
  ghost predicate Rarest(nodes: set<nat>, some: set<nat>, f: seq<nat>) {
    some <= nodes && forall x, y :: x in some && y in nodes && y !in some && x < |f| && y < |f| ==> f[x] <= f[y]
  }

  /** `order` lists the nodes from the most frequent down. */
  ghost predicate Descending(nodes: set<nat>, f: seq<nat>, order: seq<nat>) {
    && (forall x :: x in nodes <==> x in order) && (forall x :: x in nodes ==> x < |f|)
    && (forall i :: 0 <= i < |order| ==> order[i] < |f|)
    && (forall i, j :: 0 <= i < j < |order| ==> order[i] != order[j] && f[order[i]] >= f[order[j]])
  }

  function Values(f: seq<nat>, order: seq<nat>): (v: seq<nat>)
    requires forall i :: 0 <= i < |order| ==> order[i] < |f|
    ensures |v| == |order| && forall i :: 0 <= i < |v| ==> v[i] == f[order[i]]
  {
    seq(|order|, i requires 0 <= i < |order| => f[order[i]])
  }

  lemma LastOff(nodes: set<nat>, f: seq<nat>, order: seq<nat>)
    requires Descending(nodes, f, order) && order != []
    ensures var n := |order| - 1;
      order[n] in nodes && Descending(nodes - {order[n]}, f, order[..n]) && forall x :: x in nodes ==>
        f[order[n]] <= f[x]
  {
    var n := |order| - 1;
    forall x | x in nodes - {order[n]} ensures x in order[..n] {
      var i :| 0 <= i < |order| && order[i] == x;
      assert order[..n][i] == x;
    }
    assert order[n] < |f| && order[n] in order;
    forall x | x in nodes ensures f[order[n]] <= f[x] {
      var i :| 0 <= i < |order| && order[i] == x;
    }
  }

  lemma {:induction false} AsMany(nodes: set<nat>, f: seq<nat>, order: seq<nat>)
    requires Descending(nodes, f, order)
    ensures |nodes| == |order|
    decreases |order|
  {
    if order == [] {
      assert nodes == {};
    } else {
      LastOff(nodes, f, order);
      AsMany(nodes - {order[|order| - 1]}, f, order[..|order| - 1]);
    }
  }

  lemma {:induction false} TailFront(v: seq<nat>, k: nat)
    requires k < |v|
    ensures Tail(v, k) == Tail(v[..|v| - 1], k) + v[|v| - 1]
    decreases |v| - k
  {
    if k < |v| - 1 {
      TailFront(v, k + 1);
    }
  }

  /** As many of the rarest always count the same. */
  lemma {:induction false} RarestTotal(nodes: set<nat>, some: set<nat>, f: seq<nat>, order: seq<nat>)
    requires Descending(nodes, f, order) && Rarest(nodes, some, f)
    ensures |some| <= |order| && Total(some, f) == Tail(Values(f, order), |order| - |some|)
    decreases |order|
  {
    hide Total, Tail, Descending;
    Within(nodes, f, order);
    var v := Values(f, order);
    if some == {} {
      TotalEmpty(f);
      NoTail(v);
    } else {
      assert order != [] by { NotEmpty(nodes, f, order, some); }
      var n := |order| - 1;
      LastOff(nodes, f, order);
      var u := OneOf(nodes, some, f, order[n]);
      assert |some - {u}| == |some| - 1;
      RarestTotal(nodes - {order[n]}, some - {u}, f, order[..n]);
      TotalRemove(some, f, u);
      TailFront(v, |order| - |some|);
      assert v[..n] == Values(f, order[..n]);
    }
  }

  lemma Within(nodes: set<nat>, f: seq<nat>, order: seq<nat>)
    requires Descending(nodes, f, order)
    ensures (forall i :: 0 <= i < |order| ==> order[i] < |f|) && forall x :: x in nodes ==> x < |f|
  {
  }

  lemma NotEmpty(nodes: set<nat>, f: seq<nat>, order: seq<nat>, some: set<nat>)
    requires Descending(nodes, f, order) && some <= nodes && some != {}
    ensures order != []
  {
    var x :| x in some;
    assert x in order;
  }

  /** If the least frequent node is not among some of the rarest, these are all as rare. */
  lemma OneOf(nodes: set<nat>, some: set<nat>, f: seq<nat>, z: nat) returns (u: nat)
    requires Rarest(nodes, some, f) && some != {} && z in nodes && z < |f|
    requires forall x :: x in nodes ==> x < |f| && f[z] <= f[x]
    ensures u in some && f[u] == f[z] && Rarest(nodes - {z}, some - {u}, f)
  {
    if z in some {
      u := z;
    } else {
      u :| u in some;
    }
  }

  lemma NoTail(v: seq<nat>)
    ensures Tail(v, |v|) == 0
  {
  }

  lemma {:induction false} CountAbove(nodes: set<nat>, l: seq<nat>, c: seq<nat>, b: nat)
    requires b < |c| && (forall x :: x in nodes ==> x < |l| && l[x] >= 1)
    requires forall i :: 1 <= i <= b ==> c[i] == LenCount(nodes, l, i)
    ensures |Above(nodes, l, b)| + CountSum(c, b) == |nodes|
    decreases b
  {
    hide LenCount;
    if b == 0 {
      assert Above(nodes, l, 0) == nodes;
    } else {
      CountAbove(nodes, l, c, b - 1);
      var same := set x | x in nodes && x < |l| && l[x] == b;
      LenCountSize(nodes, same, l, b);
      assert Above(nodes, l, b - 1) == Above(nodes, l, b) + same;
      assert |Above(nodes, l, b) + same| == |Above(nodes, l, b)| + |same|;
    }
  }

  lemma {:induction false} LenCountSize(nodes: set<nat>, same: set<nat>, l: seq<nat>, b: nat)
    requires forall x :: x in same <==> x in nodes && x < |l| && l[x] == b
    ensures LenCount(nodes, l, b) == |same|
  {
    if l == [] {
      assert same == {};
    } else {
      var n := |l| - 1;
      LenCountSize(nodes, same - {n}, l[..n], b);
      if n in same {
        assert |same - {n}| == |same| - 1;
      } else {
        assert same - {n} == same;
      }
    }
  }

  /** With the longer codes for the rarer symbols, the cost depends on the counts alone: it is the level cost. */
  lemma {:induction false} CostByLevels(nodes: set<nat>, f: seq<nat>, l: seq<nat>, c: seq<nat>, order: seq<nat>,
                                        n: nat)
    requires |f| == |l| && Descending(nodes, f, order) && RarerLonger(nodes, f, l) && n < |c|
    requires (forall x :: x in nodes ==> l[x] >= 1) && forall i :: 1 <= i < n ==> c[i] == LenCount(nodes, l, i)
    ensures Cost(nodes, f, CutAt(l, n)) == LevelCost(Values(f, order), c, n)
    decreases n
  {
    hide Cost, Total, Tail, LenCount, CountSum;
    if n == 0 {
      NoBits(nodes, f, CutAt(l, 0));
    } else {
      CostByLevels(nodes, f, l, c, order, n - 1);
      OneLevel(nodes, f, l, n - 1);
      RarestTotal(nodes, Above(nodes, l, n - 1), f, order);
      CountAbove(nodes, l, c, n - 1);
      AsMany(nodes, f, order);
    }
  }

  lemma NoBits(nodes: set<nat>, f: seq<nat>, l: seq<nat>)
    requires |f| == |l| && forall i :: 0 <= i < |l| ==> l[i] == 0
    ensures Cost(nodes, f, l) == 0
  {
    forall i | 0 <= i < |f| ensures Products(f, l)[i] == 0 {
      assert f[i] * 0 == 0;
    }
    NoTotal(nodes, Products(f, l));
  }

  lemma {:induction false} NoTotal(nodes: set<nat>, v: seq<nat>)
    requires forall i :: 0 <= i < |v| ==> v[i] == 0
    ensures Total(nodes, v) == 0
  {
    if v != [] {
      NoTotal(nodes, v[..|v| - 1]);
    }
  }

  /** The cost of ranked lengths up to `m`. */
  lemma RankedCost(nodes: set<nat>, f: seq<nat>, l: seq<nat>, c: seq<nat>, order: seq<nat>, m: nat)
    requires |f| == |l| && Descending(nodes, f, order) && RarerLonger(nodes, f, l) && m < |c|
    requires (forall x :: x in nodes ==> 1 <= l[x] <= m) && forall i :: 1 <= i <= m ==> c[i] == LenCount(nodes, l, i)
    ensures Cost(nodes, f, l) == LevelCost(Values(f, order), c, m)
  {
    hide Cost, LevelCost, LenCount;
    CostByLevels(nodes, f, l, c, order, m);
    CostSame(nodes, f, f, l, CutAt(l, m));
  }
}
