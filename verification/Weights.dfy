/** Sums over sets of tree nodes, the cost of code lengths, and the Kraft sum. */
module Weights {
  import opened Bits

  /** The sum of `v[i]` over the nodes in `nodes`. */
  function Total(nodes: set<nat>, v: seq<nat>): nat {
    if v == [] then 0
    else Total(nodes, v[..|v| - 1]) + (if |v| - 1 in nodes then v[|v| - 1] else 0)
  }

  lemma {:induction false} TotalRemove(nodes: set<nat>, v: seq<nat>, x: nat)
    requires x in nodes && x < |v|
    ensures Total(nodes, v) == Total(nodes - {x}, v) + v[x]
  {
    if x < |v| - 1 {
      TotalRemove(nodes, v[..|v| - 1], x);
    } else {
      TotalSame(nodes, nodes - {x}, v[..|v| - 1], v[..|v| - 1]);
    }
  }

  lemma {:induction false} TotalSame(a: set<nat>, b: set<nat>, v: seq<nat>, w: seq<nat>)
    requires |v| == |w| && forall i :: 0 <= i < |v| ==> (i in a <==> i in b) && (i in a ==> v[i] == w[i])
    ensures Total(a, v) == Total(b, w)
  {
    if v != [] {
      TotalSame(a, b, v[..|v| - 1], w[..|w| - 1]);
    }
  }

  lemma {:induction false} TotalSplit(a: set<nat>, b: set<nat>, v: seq<nat>)
    requires a !! b
    ensures Total(a + b, v) == Total(a, v) + Total(b, v)
  {
    if v != [] {
      TotalSplit(a, b, v[..|v| - 1]);
    }
  }

  lemma {:induction false} TotalEmpty(v: seq<nat>)
    ensures Total({}, v) == 0
  {
    if v != [] {
      TotalEmpty(v[..|v| - 1]);
    }
  }

  // ------------------------------------------------- cost

  function Products(f: seq<nat>, l: seq<nat>): (p: seq<nat>)
    requires |f| == |l|
    ensures |p| == |f| && forall i :: 0 <= i < |f| ==> p[i] == f[i] * l[i]
  {
    seq(|f|, i requires 0 <= i < |f| => f[i] * l[i])
  }

  /** The length of a text in which node `i` occurs `f[i]` times and has length `l[i]`. */
  function Cost(nodes: set<nat>, f: seq<nat>, l: seq<nat>): nat
    requires |f| == |l|
  {
    Total(nodes, Products(f, l))
  }

  lemma CostRemove(nodes: set<nat>, f: seq<nat>, l: seq<nat>, x: nat)
    requires |f| == |l| && x in nodes && x < |f|
    ensures Cost(nodes, f, l) == Cost(nodes - {x}, f, l) + f[x] * l[x]
  {
    hide Total;
    TotalRemove(nodes, Products(f, l), x);
  }

  lemma CostSame(nodes: set<nat>, f: seq<nat>, g: seq<nat>, l: seq<nat>, m: seq<nat>)
    requires |f| == |l| == |m| == |g| && forall i :: 0 <= i < |f| && i in nodes ==> f[i] == g[i] && l[i] == m[i]
    ensures Cost(nodes, f, l) == Cost(nodes, g, m)
  {
    hide Total;
    TotalSame(nodes, nodes, Products(f, l), Products(g, m));
  }

  // ------------------------------------------------- Kraft sum

  /** `2^(m - l[i])` for every node: the share of node `i` in units of `2^-m`. */
  function Shares(l: seq<nat>, m: nat): (p: seq<nat>)
    ensures |p| == |l| && forall i :: 0 <= i < |l| ==> p[i] == if l[i] <= m then Pow2(m - l[i]) else 0
  {
    seq(|l|, i requires 0 <= i < |l| => if l[i] <= m then Pow2(m - l[i]) else 0)
  }

  /** The Kraft sum of the lengths, in units of `2^-m`. */
  function Kraft(nodes: set<nat>, l: seq<nat>, m: nat): nat {
    Total(nodes, Shares(l, m))
  }

  ghost predicate AtMost(nodes: set<nat>, l: seq<nat>, m: nat) {
    forall i :: i in nodes ==> i < |l| && l[i] <= m
  }

  lemma {:induction false} KraftRemove(nodes: set<nat>, l: seq<nat>, m: nat, x: nat)
    requires x in nodes && x < |l| && l[x] <= m
    ensures Kraft(nodes, l, m) == Kraft(nodes - {x}, l, m) + Pow2(m - l[x])
  {
    hide Total, Pow2;
    TotalRemove(nodes, Shares(l, m), x);
  }

  lemma KraftSame(a: set<nat>, b: set<nat>, l: seq<nat>, l': seq<nat>, m: nat)
    requires |l| == |l'| && forall i :: 0 <= i < |l| ==> (i in a <==> i in b) && (i in a ==> l[i] == l'[i])
    ensures Kraft(a, l, m) == Kraft(b, l', m)
  {
    hide Total;
    TotalSame(a, b, Shares(l, m), Shares(l', m));
  }

  /** Changing the unit. */
  lemma {:induction false} TotalScale(nodes: set<nat>, v: seq<nat>, w: seq<nat>, k: nat)
    requires |v| == |w| && forall i :: 0 <= i < |v| && i in nodes ==> w[i] == Shl(v[i], k)
    ensures Total(nodes, w) == Shl(Total(nodes, v), k)
  {
    if v == [] {
      ShlZero(k);
    } else {
      TotalScale(nodes, v[..|v| - 1], w[..|w| - 1], k);
      if |v| - 1 in nodes {
        ShlAdd(Total(nodes, v[..|v| - 1]), v[|v| - 1], k);
      }
    }
  }

  lemma {:induction false} KraftScale(nodes: set<nat>, l: seq<nat>, p: nat, m: nat)
    requires p <= m && AtMost(nodes, l, p)
    ensures Kraft(nodes, l, m) == Shl(Kraft(nodes, l, p), m - p)
  {
    hide Total, Shl, Pow2;
    forall i | 0 <= i < |l| && i in nodes ensures Shares(l, m)[i] == Shl(Shares(l, p)[i], m - p) {
      Pow2Shl(p - l[i], m - p);
      assert p - l[i] + (m - p) == m - l[i];
    }
    TotalScale(nodes, Shares(l, p), Shares(l, m), m - p);
  }
}
