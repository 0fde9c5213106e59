/**
 The table sizes ENOUGH_LENS and ENOUGH_DISTS of src/zlib/inftrees.h are enough for
 every set of code lengths.  The source found them by exhaustive search; here they
 are derived.  The room taken by the sub-tables is the number of codes longer than
 the root, plus what each length between leaves over in its last sub-table.
 */
module Enough {
  import opened Bits
  import opened Canonical
  import opened DecodeTable
  import TableFill
  import InflateTable

  /** How many root entries the codes up to length `l` fill altogether. */
  function Whole(lens: seq<nat>, root: nat, l: nat): nat
    requires root <= l
  {
    Shr(EndCode(lens, l), l - root)
  }

  /** What the codes up to length `l` use of the next root entry. */
  function Rest(lens: seq<nat>, root: nat, l: nat): (r: nat)
    requires root <= l
    ensures r < Pow2(l - root)
  {
    Low(EndCode(lens, l), l - root)
  }

  /** The number of codes of length 1 to `b`. */
  function UpTo(lens: seq<nat>, b: nat): nat {
    if b == 0 then 0 else UpTo(lens, b - 1) + Count(lens, b)
  }

  /** The number of codes longer than `l`. */
  function Above(lens: seq<nat>, l: nat, max: nat): nat
    requires l <= max
    decreases max - l
  {
    if l == max then 0 else Count(lens, l + 1) + Above(lens, l + 1, max)
  }

  function Rests(lens: seq<nat>, root: nat, l: nat, max: nat): nat
    requires root <= l <= max
    decreases max - l
  {
    if l == max then 0 else Rest(lens, root, l + 1) + Rests(lens, root, l + 1, max)
  }

  lemma {:induction false} CutEnd(lens: seq<nat>, root: nat, l: nat)
    requires root <= l
    ensures EndCode(lens, l) == Rest(lens, root, l) + Shl(Whole(lens, root, l), l - root)
  {
    CutBits(EndCode(lens, l), l - root);
  }

  lemma EndStep(lens: seq<nat>, l: nat)
    requires l >= 2
    ensures EndCode(lens, l) == 2 * EndCode(lens, l - 1) + Count(lens, l)
  {
  }

  lemma WholeStep(lens: seq<nat>, root: nat, l: nat)
    requires 1 <= root < l
    ensures Whole(lens, root, l - 1) <= Whole(lens, root, l)
    ensures Count(lens, l) + 2 * Rest(lens, root, l - 1)
         == Shl(Whole(lens, root, l) - Whole(lens, root, l - 1), l - root) + Rest(lens, root, l)
  {
    hide EndCode, Count;
    var d, w, w' := l - root, Whole(lens, root, l - 1), Whole(lens, root, l);
    EndStep(lens, l);
    ShrMono(2 * EndCode(lens, l - 1), EndCode(lens, l), d);
    CutEnd(lens, root, l);
    CutEnd(lens, root, l - 1);
    ShlAdd(w, w' - w, d);
  }

  lemma {:induction false} WholeMono(lens: seq<nat>, root: nat, j: nat, l: nat)
    requires 1 <= root <= j <= l
    ensures Whole(lens, root, j) <= Whole(lens, root, l)
    decreases l
  {
    hide EndCode, Count, Shr, Low;
    if j < l {
      WholeMono(lens, root, j, l - 1);
      WholeStep(lens, root, l);
    }
  }

  lemma WholeIs(lens: seq<nat>, root: nat, l: nat, q: nat)
    requires root <= l
    ensures EndCode(lens, l) >= Shl(q + 1, l - root) <==> q < Whole(lens, root, l)
  {
    hide EndCode, Shr, Low;
    var d, w := l - root, Whole(lens, root, l);
    CutEnd(lens, root, l);
    if q < w {
      ShlMono(q + 1, w, d);
    } else {
      ShlMono(w + 1, q + 1, d);
      ShlAdd(w, 1, d);
      Pow2Shl(0, d);
      assert 0 + d == d;
    }
  }

  /** The sub-table of root entry `q` has the length at which the entry is filled up. */
  lemma {:induction false} SubLenIs(lens: seq<nat>, root: nat, max: nat, q: nat, j: nat, l: nat)
    requires 1 <= root < j <= l <= max && Whole(lens, root, l - 1) <= q < Whole(lens, root, l)
    ensures SubLen(lens, root, max, q, j) == l
    decreases l - j
  {
    hide EndCode, Shr, Low, Whole;
    WholeIs(lens, root, j, q);
    if j < l {
      WholeMono(lens, root, j, l - 1);
      SubLenIs(lens, root, max, q, j + 1, l);
    }
  }

  lemma ShlOneMore(n: nat, d: nat)
    requires n > 0
    ensures Shl(n, d) == Pow2(d) + Shl(n - 1, d)
  {
    ShlAdd(n - 1, 1, d);
    Pow2Shl(0, d);
    assert 0 + d == d;
  }

  /** The sub-tables of one length. */
  lemma {:induction false} Block(lens: seq<nat>, root: nat, max: nat, q: nat, l: nat)
    requires 1 <= root < l <= max && Whole(lens, root, l - 1) <= q <= Whole(lens, root, l) <= Pow2(root)
    ensures SubSpace(lens, root, max, q)
         == Shl(Whole(lens, root, l) - q, l - root) + SubSpace(lens, root, max, Whole(lens, root, l))
    decreases Whole(lens, root, l) - q
  {
    hide EndCode, Shr, Low, Whole, SubLen, Shl;
    var w := Whole(lens, root, l);
    if q < w {
      SubLenIs(lens, root, max, q, root + 1, l);
      Block(lens, root, max, q + 1, l);
      ShlOneMore(w - q, l - root);
    } else {
      ShlZero(l - root);
    }
  }

  lemma {:induction false} WholeEnd(lens: seq<nat>, root: nat, max: nat)
    requires root <= max && EndCode(lens, max) == Pow2(max)
    ensures Whole(lens, root, max) == Pow2(root) && Rest(lens, root, max) == 0
  {
    hide EndCode, Shr, Low;
    Pow2Shl(root, max - root);
    assert root + (max - root) == max;
    ShrShl(Pow2(root), max - root);
    CutEnd(lens, root, max);
  }

  /** The room of the sub-tables, exactly. */
  lemma {:induction false} SpaceIs(lens: seq<nat>, root: nat, max: nat, l: nat)
    requires 1 <= root <= l <= max && root < max && EndCode(lens, max) == Pow2(max)
    ensures SubSpace(lens, root, max, Whole(lens, root, l))
         == Above(lens, l, max) + 2 * Rest(lens, root, l) + Rests(lens, root, l, max)
    decreases max - l
  {
    hide EndCode, Count, Whole, Rest, Shl;
    WholeEnd(lens, root, max);
    if l < max {
      WholeStep(lens, root, l + 1);
      WholeMono(lens, root, l + 1, max);
      Block(lens, root, max, Whole(lens, root, l), l + 1);
      SpaceIs(lens, root, max, l + 1);
    }
  }

  lemma {:induction false} RestsBound(lens: seq<nat>, root: nat, l: nat, max: nat)
    requires root <= l < max && Rest(lens, root, max) == 0
    ensures Rests(lens, root, l, max) + Pow2(l + 1 - root) + (max - 1 - l) <= Pow2(max - root)
    decreases max - l
  {
    hide EndCode, Rest;
    if l + 1 < max {
      RestsBound(lens, root, l + 1, max);
    }
  }

  lemma {:induction false} SpaceEven(lens: seq<nat>, root: nat, max: nat, q: nat)
    requires root < max
    ensures SubSpace(lens, root, max, q) % 2 == 0
    decreases Pow2(root) - q
  {
    hide EndCode, SubLen;
    if q < Pow2(root) {
      SpaceEven(lens, root, max, q + 1);
    }
  }

  // ------------------------------------------------- how many codes there are

  lemma {:induction false} UpToTake(lens: seq<nat>, b: nat)
    requires lens != []
    ensures UpTo(lens, b) == UpTo(lens[..|lens| - 1], b) + (if 1 <= lens[|lens| - 1] <= b then 1 else 0)
  {
    if b > 0 {
      UpToTake(lens, b - 1);
    }
  }

  lemma {:induction false} UpToNone(b: nat)
    ensures UpTo([], b) == 0
  {
    if b > 0 {
      UpToNone(b - 1);
    }
  }

  lemma {:induction false} UpToBound(lens: seq<nat>, b: nat)
    ensures UpTo(lens, b) <= |lens|
  {
    if lens == [] {
      UpToNone(b);
    } else {
      UpToTake(lens, b);
      UpToBound(lens[..|lens| - 1], b);
    }
  }

  lemma {:induction false} UpToAbove(lens: seq<nat>, l: nat, max: nat)
    requires l <= max
    ensures UpTo(lens, l) + Above(lens, l, max) == UpTo(lens, max)
    decreases max - l
  {
    hide Count;
    if l < max {
      UpToAbove(lens, l + 1, max);
    }
  }

  /** Unused codes of length `l` need at least twice as many longer ones. */
  lemma {:induction false} AboveBound(lens: seq<nat>, l: nat, max: nat)
    requires 1 <= l < max && EndCode(lens, max) == Pow2(max) && NotOver(lens) && max <= MAX_BITS
    ensures Above(lens, l, max) >= 2 * (Pow2(l) - EndCode(lens, l))
    decreases max - l
  {
    hide EndCode, Count;
    EndStep(lens, l + 1);
    assert EndCode(lens, l + 1) <= Pow2(l + 1);
    if l + 1 < max {
      AboveBound(lens, l + 1, max);
    }
  }

  /** `x` units less `c`, `c` times doubled, are at least `x`. */
  lemma {:induction false} Doubling(x: nat, c: nat)
    requires c < x
    ensures Shl(x - c, c) >= x
  {
    if c > 0 {
      Doubling(x - 1, c - 1);
      assert x - 1 - (c - 1) == x - c;
    }
  }

  /** Each short code at most halves what is left. */
  lemma {:induction false} GapBound(lens: seq<nat>, l: nat)
    requires 1 <= l <= MAX_BITS && NotOver(lens) && EndCode(lens, l) < Pow2(l)
    ensures Shl(Pow2(l) - EndCode(lens, l), UpTo(lens, l)) >= Pow2(l)
  {
    hide Count, EndCode;
    if l == 1 {
      assert EndCode(lens, 1) == Count(lens, 1) by { FirstEnd(lens); }
      Doubling(Pow2(1), Count(lens, 1));
    } else {
      EndStep(lens, l);
      var g, c := Pow2(l - 1) - EndCode(lens, l - 1), Count(lens, l);
      assert Pow2(l) - EndCode(lens, l) == 2 * g - c;
      GapBound(lens, l - 1);
      Doubling(2 * g, c);
      ShlMono(2 * g, Shl(2 * g - c, c), UpTo(lens, l - 1));
      ShlShl(2 * g - c, c, UpTo(lens, l - 1));
      ShlAdd(g, g, UpTo(lens, l - 1));
    }
  }

  lemma {:induction false} FirstEnd(lens: seq<nat>)
    ensures EndCode(lens, 1) == Count(lens, 1)
  {
    assert FirstCode(lens, 0) == 0;
  }

  // ------------------------------------------------- the bounds

  /** The sub-tables take no more room than the long codes, and the waste of one full doubling. */
  lemma SubSpaceBound(lens: seq<nat>, root: nat, max: nat)
    requires 1 <= root < max && EndCode(lens, max) == Pow2(max)
    ensures SubSpace(lens, root, max, EndCode(lens, root)) + 1 + (max - root)
      <= Above(lens, root, max) + Pow2(max - root)
  {
    hide EndCode, Above, Rests, SubSpace;
    assert Whole(lens, root, root) == EndCode(lens, root);
    SpaceIs(lens, root, max, root);
    WholeEnd(lens, root, max);
    RestsBound(lens, root, root, max);
  }

  /** At least `k` short codes, when there are few symbols. */
  lemma ShortCodes(lens: seq<nat>, root: nat, max: nat, k: nat)
    requires 1 <= root < max <= MAX_BITS && NotOver(lens) && EndCode(lens, max) == Pow2(max)
    requires EndCode(lens, root) < Pow2(root)
    requires k <= root && UpTo(lens, root) + Above(lens, root, max) < 2 * Pow2(root - k)
    ensures UpTo(lens, root) > k
  {
    hide EndCode, Above, NotOver;
    var u, g := UpTo(lens, root), Pow2(root) - EndCode(lens, root);
    GapBound(lens, root);
    AboveBound(lens, root, max);
    if u <= k {
      ShlShl(g, u, k - u);
      assert u + (k - u) == k;
      ShlGrows(Shl(g, u), k - u);
      Pow2Shl(root - k, k);
      assert root - k + k == root;
      if g < Pow2(root - k) {
        ShlMono(g + 1, Pow2(root - k), k);
        ShlAdd(g, 1, k);
        ShlGrows(1, k);
      }
    }
  }

  lemma {:induction false} ShlGrows(v: nat, n: nat)
    ensures Shl(v, n) >= v
  {
    if n > 0 {
      ShlGrows(v, n - 1);
    }
  }

  /** Below the longest code there is always something left. */
  lemma {:induction false} RootLeaves(lens: seq<nat>, root: nat, max: nat)
    requires 1 <= root < max <= MAX_BITS && NotOver(lens) && EndCode(lens, max) == Pow2(max) && Count(lens, max) > 0
    ensures EndCode(lens, root) < Pow2(root)
    decreases max - root
  {
    hide EndCode, Count;
    EndStep(lens, root + 1);
    assert EndCode(lens, root) <= Pow2(root) && EndCode(lens, root + 1) <= Pow2(root + 1);
    if root + 1 < max {
      RootLeaves(lens, root + 1, max);
    }
  }

  /** With few symbols the shortest code is not longer than the root. */
  lemma {:induction false} RootIsBits(lens: seq<nat>, bits: nat, max: nat)
    requires max == Longest(lens) && 1 <= bits < max && NotOver(lens) && EndCode(lens, max) == Pow2(max)
    requires |lens| < 2 * Pow2(bits)
    ensures RootBits(lens, bits) == bits
  {
    hide EndCode, Count, Above, UpTo;
    var min := MinLen(lens, max, 1);
    if bits < min {
      EndCodeNone(lens, bits);
      AboveBound(lens, bits, max);
      UpToAbove(lens, bits, max);
      UpToBound(lens, max);
    }
  }

  lemma {:induction false} EndCodeNone(lens: seq<nat>, l: nat)
    requires 1 <= l && forall b :: 1 <= b <= l ==> Count(lens, b) == 0
    ensures EndCode(lens, l) == 0
  {
    hide Count, EndCode;
    if l == 1 {
      FirstEnd(lens);
    } else {
      EndStep(lens, l);
      EndCodeNone(lens, l - 1);
    }
  }

  lemma {:induction false} WasteMono(d: nat, e: nat)
    requires d <= e
    ensures Pow2(d) + e <= Pow2(e) + d
    decreases e
  {
    if d < e {
      WasteMono(d, e - 1);
    }
  }

  /** The room that a complete set of at most `n` lengths takes, when `bits` root bits are asked for. */
  lemma SpaceBound(lens: seq<nat>, bits: nat, n: nat, k: nat)
    requires 1 <= k < bits < MAX_BITS && |lens| <= n < 2 * Pow2(bits - k) && Complete(lens) && Longest(lens) > 0
    ensures Longest(lens) <= bits ==> Space(lens, RootBits(lens, bits)) <= Pow2(bits)
    ensures Longest(lens) > bits ==> (Space(lens, RootBits(lens, bits)) - Pow2(bits)) % 2 == 0
    ensures Longest(lens) > bits ==>
      Space(lens, RootBits(lens, bits)) + k + 2 + (MAX_BITS - bits) <= Pow2(bits) + n + Pow2(MAX_BITS - bits)
  {
    hide EndCode, Count, Above, UpTo, SubSpace, NotOver;
    var max := Longest(lens);
    TableFill.CompleteAtLongest(lens);
    if max <= bits {
      Pow2Mono(max, bits);
    } else {
      Pow2Mono(bits - k, bits);
      RootIsBits(lens, bits, max);
      LongBound(lens, bits, n, k, max);
      SpaceEven(lens, bits, max, EndCode(lens, bits));
    }
  }

  lemma LongBound(lens: seq<nat>, bits: nat, n: nat, k: nat, max: nat)
    requires 1 <= k < bits < max <= MAX_BITS && |lens| <= n < 2 * Pow2(bits - k)
    requires NotOver(lens) && EndCode(lens, max) == Pow2(max) && Count(lens, max) > 0
    ensures SubSpace(lens, bits, max, EndCode(lens, bits)) + k + 2 + (MAX_BITS - bits) <= n + Pow2(MAX_BITS - bits)
  {
    hide EndCode, Count, Above, UpTo, SubSpace, NotOver, Pow2;
    RootLeaves(lens, bits, max);
    UpToAbove(lens, bits, max);
    UpToBound(lens, max);
    ShortCodes(lens, bits, max, k);
    SubSpaceBound(lens, bits, max);
    WasteMono(max - bits, MAX_BITS - bits);
  }

  /** Any set of lengths that is taken has room in the tables of the decoder. */
  lemma EnoughRoom(lens: seq<nat>)
    requires ValidLens(lens)
    ensures |lens| <= 286 && Accepted(LENS, lens) ==> Fits(LENS, lens, 9)
    ensures |lens| <= 30 && Accepted(DISTS, lens) ==> Fits(DISTS, lens, 6)
  {
    hide Complete, Space, RootBits, Longest;
    Pow2Small();
    if Longest(lens) > 0 {
      if Complete(lens) {
        if |lens| <= 286 {
          SpaceBound(lens, 9, 286, 1);
        }
        if |lens| <= 30 {
          SpaceBound(lens, 6, 30, 2);
        }
      } else {
        LoneRoom(lens);
      }
    }
  }

  lemma LoneRoom(lens: seq<nat>)
    requires ValidLens(lens) && Longest(lens) > 0 && !Complete(lens)
    ensures !Empty(lens)
    ensures Lone(lens) ==> Space(lens, RootBits(lens, 9)) == 2 && Space(lens, RootBits(lens, 6)) == 2
  {
    hide Complete, NotOver;
    InflateTable.LeftOver(lens);
  }
}
