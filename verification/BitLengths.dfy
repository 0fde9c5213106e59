/** Counting codes by their length, and the repair of lengths that are too long (`gen_bitlen` of src/zlib/trees.c). */
module BitLengths {
  import opened Bits
  import opened Weights

  /** How many of the nodes have length `b`. */
  function LenCount(nodes: set<nat>, l: seq<nat>, b: nat): nat {
    if l == [] then 0
    else LenCount(nodes, l[..|l| - 1], b) + (if |l| - 1 in nodes && l[|l| - 1] == b then 1 else 0)
  }

  lemma {:induction false} LenCountSame(a: set<nat>, b: set<nat>, l: seq<nat>, l': seq<nat>, n: nat)
    requires |l| == |l'| && forall i :: 0 <= i < |l| ==> (i in a <==> i in b) && (i in a ==> l[i] == l'[i])
    ensures LenCount(a, l, n) == LenCount(b, l', n)
  {
    if l != [] {
      LenCountSame(a, b, l[..|l| - 1], l'[..|l'| - 1], n);
    }
  }

  lemma {:induction false} LenCountAdd(nodes: set<nat>, l: seq<nat>, x: nat, b: nat)
    requires x !in nodes && x < |l|
    ensures LenCount(nodes + {x}, l, b) == LenCount(nodes, l, b) + (if l[x] == b then 1 else 0)
  {
    if x < |l| - 1 {
      LenCountAdd(nodes, l[..|l| - 1], x, b);
    } else {
      LenCountSame(nodes + {x}, nodes, l[..|l| - 1], l[..|l| - 1], b);
    }
  }

  lemma {:induction false} LenCountHas(nodes: set<nat>, l: seq<nat>, x: nat)
    requires x in nodes && x < |l|
    ensures LenCount(nodes, l, l[x]) > 0
  {
    if x < |l| - 1 {
      LenCountHas(nodes, l[..|l| - 1], x);
    }
  }

  lemma {:induction false} LenCountSome(nodes: set<nat>, l: seq<nat>, b: nat) returns (x: nat)
    requires LenCount(nodes, l, b) > 0
    ensures x in nodes && x < |l| && l[x] == b
  {
    if |l| - 1 in nodes && l[|l| - 1] == b {
      x := |l| - 1;
    } else {
      x := LenCountSome(nodes, l[..|l| - 1], b);
    }
  }

  lemma LenCountSwap(nodes: set<nat>, l: seq<nat>, x: nat, y: nat, b: nat)
    requires x in nodes && y in nodes && x < |l| && y < |l|
    ensures LenCount(nodes, l[x := l[y]][y := l[x]], b) == LenCount(nodes, l, b)
  {
    var l' := l[x := l[y]][y := l[x]];
    if x == y {
      assert l' == l;
    } else {
      var rest := nodes - {x} - {y};
      assert rest + {y} == nodes - {x} && nodes - {x} + {x} == nodes;
      LenCountAdd(rest, l, y, b);
      LenCountAdd(rest + {y}, l, x, b);
      LenCountAdd(rest, l', y, b);
      LenCountAdd(rest + {y}, l', x, b);
      LenCountSame(rest, rest, l, l', b);
    }
  }

  lemma {:induction false} LenCountNone(l: seq<nat>, b: nat)
    ensures LenCount({}, l, b) == 0
  {
    if l != [] {
      LenCountNone(l[..|l| - 1], b);
    }
  }

  // ------------------------------------------------- counts by length

  /** The Kraft sum of codes counted by length, in units of `2^-b`, up to length `b`. */
  function CountKraft(c: seq<nat>, b: nat): nat
    requires b < |c|
  {
    if b == 0 then 0 else 2 * CountKraft(c, b - 1) + c[b]
  }

  function CountSum(c: seq<nat>, b: nat): nat
    requires b < |c|
  {
    if b == 0 then 0 else CountSum(c, b - 1) + c[b]
  }

  lemma {:induction false} CountSame(c: seq<nat>, c': seq<nat>, b: nat)
    requires b < |c| == |c'| && forall i :: 1 <= i <= b ==> c[i] == c'[i]
    ensures CountKraft(c, b) == CountKraft(c', b) && CountSum(c, b) == CountSum(c', b)
  {
    if b > 0 {
      CountSame(c, c', b - 1);
    }
  }

  /** Moving one code down a level and giving it a brother. */
  lemma {:induction false} MoveDown(c: seq<nat>, b: nat, m: nat)
    requires 1 <= b < m < |c| && c[b] > 0
    ensures CountKraft(c[b := c[b] - 1][b + 1 := c[b + 1] + 2], m) == CountKraft(c, m)
    ensures CountSum(c[b := c[b] - 1][b + 1 := c[b + 1] + 2], m) == CountSum(c, m) + 1
    decreases m
  {
    var c' := c[b := c[b] - 1][b + 1 := c[b + 1] + 2];
    if m == b + 1 {
      CountSame(c, c', b - 1);
      assert CountKraft(c', b) == CountKraft(c, b) - 1 && CountSum(c', b) == CountSum(c, b) - 1;
    } else {
      MoveDown(c, b, m - 1);
    }
  }

  lemma TakeOne(c: seq<nat>, m: nat)
    requires 1 <= m < |c| && c[m] > 0
    ensures CountKraft(c[m := c[m] - 1], m) == CountKraft(c, m) - 1
    ensures CountSum(c[m := c[m] - 1], m) == CountSum(c, m) - 1
  {
    CountSame(c, c[m := c[m] - 1], m - 1);
  }

  /** If all codes have the greatest length, they are as many as their Kraft sum says. */
  lemma {:induction false} AllLongest(c: seq<nat>, b: nat)
    requires b < |c| && forall i :: 1 <= i <= b ==> c[i] == 0
    ensures CountKraft(c, b) == 0
  {
    if b > 0 {
      AllLongest(c, b - 1);
    }
  }

  lemma {:induction false} LastCount(c: seq<nat>, b: nat)
    requires 1 <= b < |c|
    ensures c[b] <= CountSum(c, b)
  {
  }

  /** Too many codes are there by `excess`, in units of `2^-m`, and they are among the longest. */
  ghost predicate Excess(c: seq<nat>, m: nat, excess: nat, codes: nat) {
    && 1 <= m < |c| && CountKraft(c, m) == Pow2(m) + excess && CountSum(c, m) == codes <= Pow2(m)
    && (excess > 0 ==> c[m] > excess)
  }

  /** The greatest length from `b` down of which there are codes. */
  function LongestUsed(c: seq<nat>, b: nat): (d: nat)
    requires b < |c|
    ensures d <= b && (d > 0 ==> c[d] > 0) && forall i :: d < i <= b ==> c[i] == 0
  {
    if b == 0 || c[b] > 0 then b else LongestUsed(c, b - 1)
  }

  /** One code of length `b` goes one down, and one of the longest beside it. */
  function Moved(c: seq<nat>, b: nat, m: nat): (c': seq<nat>)
    requires 1 <= b < m < |c| && c[b] > 0 && c[m] > 0
    ensures |c'| == |c|
    ensures forall i :: 0 <= i < |c| ==>
      c'[i] == c[i] - (if i == b then 1 else 0) + (if i == b + 1 then 2 else 0) - (if i == m then 1 else 0)
  {
    var c' := c[b := c[b] - 1][b + 1 := c[b + 1] + 2];
    c'[m := c'[m] - 1]
  }

  /** A round of the repair: of the codes below the limit a longest one is moved down. */
  function Round(c: seq<nat>, m: nat): (c': seq<nat>)
    requires 1 <= m < |c|
    ensures |c'| == |c|
  {
    var b := LongestUsed(c, m - 1);
    if b == 0 || c[m] == 0 then c else Moved(c, b, m)
  }

  function Repaired(c: seq<nat>, m: nat, n: nat): (c': seq<nat>)
    requires 1 <= m < |c|
    ensures |c'| == |c|
  {
    if n == 0 then c else Round(Repaired(c, m, n - 1), m)
  }

  /**
   Makes room for the codes that were cut: each round moves a longest one of the shorter
   codes down and a longest one beside it.  It ends with the Kraft sum exactly one.
   */
  method Repair(blCount: seq<nat>, maxLength: nat, overflow0: nat, ghost codes: nat) returns (c: seq<nat>)
    requires 0 < overflow0 && overflow0 % 2 == 0 && Excess(blCount, maxLength, overflow0 / 2, codes)
    ensures |c| == |blCount| && Excess(c, maxLength, 0, codes)
    ensures forall i :: 0 <= i < |c| && (i == 0 || i > maxLength) ==> c[i] == blCount[i]
    ensures c == Repaired(blCount, maxLength, overflow0 / 2)
  {
    hide Round, Excess;
    c := blCount;
    ExcessSize(c, maxLength, overflow0 / 2, codes);
    var overflow: int := overflow0;
    while overflow > 0
      invariant 0 <= overflow && overflow % 2 == 0 && |c| == |blCount| && Excess(c, maxLength, overflow / 2, codes)
      invariant forall i :: 0 <= i < |c| && (i == 0 || i > maxLength) ==> c[i] == blCount[i]
      invariant overflow <= overflow0 && c == Repaired(blCount, maxLength, (overflow0 - overflow) / 2)
      decreases overflow
    {
      ExcessSize(c, maxLength, overflow / 2, codes);
      ShorterExists(c, maxLength, overflow / 2, codes);
      var bits: int := maxLength - 1;
      while c[bits] == 0
        invariant 1 <= bits < maxLength
        invariant exists b :: 1 <= b <= bits && c[b] != 0
        invariant forall b :: bits < b < maxLength ==> c[b] == 0
        decreases bits
      {
        bits := bits - 1;
      }
      ghost var c0 := c;
      c := c[bits := c[bits] - 1][bits + 1 := c[bits + 1] + 2];
      c := c[maxLength := c[maxLength] - 1];
      RoundIs(c0, maxLength, bits, overflow / 2, codes);
      overflow := overflow - 2;
    }
  }

  lemma ExcessSize(c: seq<nat>, m: nat, excess: nat, codes: nat)
    requires Excess(c, m, excess, codes)
    ensures 1 <= m < |c| && (excess > 0 ==> c[m] > excess)
  {
  }

  lemma {:induction false} LongestUsedIs(c: seq<nat>, b: nat, d: nat)
    requires 1 <= d <= b < |c| && c[d] > 0 && forall i :: d < i <= b ==> c[i] == 0
    ensures LongestUsed(c, b) == d
  {
  }

  lemma RoundIs(c: seq<nat>, m: nat, bits: nat, excess: nat, codes: nat)
    requires Excess(c, m, excess, codes) && excess > 0 && 1 <= bits < m && c[bits] > 0
    requires forall b :: bits < b < m ==> c[b] == 0
    ensures Round(c, m) == Moved(c, bits, m) && Excess(Moved(c, bits, m), m, excess - 1, codes)
  {
    hide CountKraft, CountSum, Pow2;
    LongestUsedIs(c, m - 1, bits);
    MoveDown(c, bits, m);
    TakeOne(c[bits := c[bits] - 1][bits + 1 := c[bits + 1] + 2], m);
  }

  /** There is always a code that can be moved down. */
  lemma ShorterExists(c: seq<nat>, m: nat, excess: nat, codes: nat)
    requires Excess(c, m, excess, codes) && excess > 0
    ensures exists b :: 1 <= b < m && c[b] != 0
  {
    LastCount(c, m);
    if forall b :: 1 <= b < m ==> c[b] == 0 {
      AllLongest(c, m - 1);
    }
  }

  // ------------------------------------------------- counts of the nodes

  function Counts(nodes: set<nat>, l: seq<nat>, m: nat): (c: seq<nat>)
    ensures |c| == m + 1 && forall b :: 0 <= b <= m ==> c[b] == LenCount(nodes, l, b)
  {
    seq(m + 1, b requires 0 <= b => LenCount(nodes, l, b))
  }

  lemma {:induction false} CountOneMore(c: seq<nat>, b: nat, m: nat)
    requires 1 <= b <= m < |c|
    ensures CountKraft(c[b := c[b] + 1], m) == CountKraft(c, m) + Pow2(m - b)
    ensures CountSum(c[b := c[b] + 1], m) == CountSum(c, m) + 1
    decreases m
  {
    if b == m {
      CountSame(c, c[b := c[b] + 1], m - 1);
    } else {
      CountOneMore(c, b, m - 1);
    }
  }

  lemma {:induction false} CountNone(c: seq<nat>, m: nat)
    requires m < |c| && forall b :: 1 <= b <= m ==> c[b] == 0
    ensures CountKraft(c, m) == 0 && CountSum(c, m) == 0
  {
    if m > 0 {
      CountNone(c, m - 1);
    }
  }

  /** The Kraft sum over the nodes is the Kraft sum of their counts. */
  lemma {:induction false} KraftByCounts(nodes: set<nat>, l: seq<nat>, m: nat)
    requires forall i :: i in nodes && i < |l| ==> 1 <= l[i] <= m
    ensures Kraft(nodes, l, m) == CountKraft(Counts(nodes, l, m), m)
    ensures CountSum(Counts(nodes, l, m), m) == LenTotal(nodes, l)
  {
    if l == [] {
      CountNone(Counts(nodes, l, m), m);
    } else {
      var n := |l| - 1;
      var most := l[..n];
      KraftByCounts(nodes, most, m);
      assert Shares(l, m)[..n] == Shares(most, m);
      if n in nodes {
        var c := Counts(nodes, most, m);
        CountOneMore(c, l[n], m);
        assert Counts(nodes, l, m) == c[l[n] := c[l[n]] + 1];
      } else {
        assert Counts(nodes, l, m) == Counts(nodes, most, m);
      }
    }
  }

  /** How many of the nodes there are among the first `|l|`. */
  function LenTotal(nodes: set<nat>, l: seq<nat>): nat {
    if l == [] then 0 else LenTotal(nodes, l[..|l| - 1]) + (if |l| - 1 in nodes then 1 else 0)
  }

  lemma {:induction false} LenTotalSize(nodes: set<nat>, l: seq<nat>)
    requires forall x :: x in nodes ==> x < |l|
    ensures LenTotal(nodes, l) == |nodes|
  {
    if l == [] {
      assert nodes == {};
    } else {
      var n := |l| - 1;
      LenTotalSame(nodes, nodes - {n}, l[..n]);
      LenTotalSize(nodes - {n}, l[..n]);
      if n in nodes {
        assert |nodes - {n}| == |nodes| - 1;
      } else {
        assert nodes - {n} == nodes;
      }
    }
  }

  lemma {:induction false} LenTotalSame(a: set<nat>, b: set<nat>, l: seq<nat>)
    requires forall i :: 0 <= i < |l| ==> (i in a <==> i in b)
    ensures LenTotal(a, l) == LenTotal(b, l)
  {
    if l != [] {
      LenTotalSame(a, b, l[..|l| - 1]);
    }
  }
}
