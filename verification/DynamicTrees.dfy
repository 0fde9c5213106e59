/** `build_bl_tree` and the three trees of a block (src/zlib/trees.c). */
module DynamicTrees {
  import opened Bits
  import opened Canonical
  import opened RunLength
  import opened CompressBlock
  import opened SendTree
  import opened SendAllTrees
  import opened BlockSizes
  import opened Huffing = HuffmanCodes
  import opened Coding = GenCodes
  import opened Lengthening = GenBitLen

  // ------------------------------------------------- trailing zeros

  function Zeros(n: nat): (z: seq<nat>)
    ensures |z| == n && forall i :: 0 <= i < n ==> z[i] == 0
  {
    seq(n, _ => 0)
  }

  lemma {:induction false} CountPadded(lens: seq<nat>, n: nat, b: nat)
    requires b >= 1
    ensures Count(lens + Zeros(n), b) == Count(lens, b)
  {
    if n == 0 {
      assert lens + Zeros(0) == lens;
    } else {
      CountPadded(lens, n - 1, b);
      assert (lens + Zeros(n))[..|lens| + n - 1] == lens + Zeros(n - 1);
    }
  }

  lemma {:induction false} FirstCodePadded(lens: seq<nat>, n: nat, b: nat)
    ensures FirstCode(lens + Zeros(n), b) == FirstCode(lens, b)
  {
    hide Count;
    if b > 0 {
      FirstCodePadded(lens, n, b - 1);
      if b > 1 {
        CountPadded(lens, n, b - 1);
      }
    }
  }

  /** Symbols without codes at the end change no code. */
  lemma HuffPadded(lens: seq<nat>, n: nat)
    requires ValidLens(lens) && Complete(lens)
    ensures ValidLens(lens + Zeros(n)) && Complete(lens + Zeros(n))
    ensures forall s :: 0 <= s < |lens| && lens[s] > 0 ==> Huff(lens + Zeros(n), s) == Huff(lens, s)
  {
    hide FirstCode, Count, Rev;
    var longer := lens + Zeros(n);
    forall b | 1 <= b <= MAX_BITS ensures EndCode(longer, b) == EndCode(lens, b) {
      CountPadded(lens, n, b);
      FirstCodePadded(lens, n, b);
    }
    forall s | 0 <= s < |lens| && lens[s] > 0 ensures Huff(longer, s) == Huff(lens, s) {
      FirstCodePadded(lens, n, lens[s]);
      assert longer[..s] == lens[..s];
    }
  }

  // ------------------------------------------------- the code-length tree

  lemma {:induction false} RunCounted(rs: seq<Run>, i: nat)
    requires i < |rs|
    ensures CountSym(rs, rs[i].sym) > 0
  {
    if i < |rs| - 1 {
      RunCounted(rs[..|rs| - 1], i);
    }
  }

  /** Without a symbol for a positive length all lengths are zero. */
  lemma {:induction false} OnlyZeros(acc: seq<nat>, rs: seq<Run>)
    requires (forall i :: 0 <= i < |acc| ==> acc[i] == 0)
    requires (forall i :: 0 <= i < |rs| ==> rs[i].sym == 0 || rs[i].sym >= 16)
    requires Expand(acc, rs).Some?
    ensures forall i :: 0 <= i < |Expand(acc, rs).value| ==> Expand(acc, rs).value[i] == 0
    decreases |rs|
  {
    if rs != [] {
      OnlyZeros(Apply(acc, rs[0]).value, rs[1..]);
    }
  }

  /** Some symbol for a positive length occurs, since some length is positive. */
  lemma SomeLength(llens: seq<nat>, dlens: seq<nat>, s: nat) returns (k: nat)
    requires Small(llens) && Small(dlens) && s < |llens| && llens[s] > 0
    ensures 1 <= k <= 15 && CountSym(AllRuns(llens) + AllRuns(dlens), k) > 0
  {
    var rs := AllRuns(llens) + AllRuns(dlens);
    TwoTreesRoundTrip(llens, dlens);
    assert (llens + dlens)[s] == llens[s];
    if i :| 0 <= i < |rs| && 1 <= rs[i].sym <= 15 {
      k := rs[i].sym;
      RunCounted(rs, i);
    } else {
      OnlyZeros([], rs);
      assert false;
    }
  }

  lemma BlOrderOnto(k: nat)
    requires 1 <= k <= 15
    ensures exists rank :: 3 <= rank < BL_CODES && BlOrder(rank) == k
  {
    assert BlOrder(17) == 1 && BlOrder(15) == 2 && BlOrder(13) == 3 && BlOrder(11) == 4 && BlOrder(9) == 5;
    assert BlOrder(7) == 6 && BlOrder(5) == 7 && BlOrder(4) == 8 && BlOrder(6) == 9 && BlOrder(8) == 10;
    assert BlOrder(10) == 11 && BlOrder(12) == 12 && BlOrder(14) == 13 && BlOrder(16) == 14 && BlOrder(18) == 15;
  }

  /** The last code length to send. */
  method LastBlIndex(blTree: seq<CtData>) returns (maxBlindex: nat)
    requires |blTree| >= BL_CODES && exists k :: 1 <= k <= 15 && blTree[k].dl > 0
    ensures 3 <= maxBlindex < BL_CODES && forall i :: maxBlindex < i < BL_CODES ==> blTree[BlOrder(i)].dl == 0
    ensures blTree[BlOrder(maxBlindex)].dl != 0
  {
    hide BlOrder;
    ghost var k :| 1 <= k <= 15 && blTree[k].dl > 0;
    BlOrderOnto(k);
    ghost var rank :| 3 <= rank < BL_CODES && BlOrder(rank) == k;
    maxBlindex := BL_CODES - 1;
    while maxBlindex >= 3 && blTree[BlOrder(maxBlindex)].dl == 0
      invariant rank <= maxBlindex < BL_CODES && forall i :: maxBlindex < i < BL_CODES ==> blTree[BlOrder(i)].dl == 0
    {
      maxBlindex := maxBlindex - 1;
    }
  }

  function BlExtra(): (x: seq<nat>)
    ensures |x| == 2 * BL_CODES + 1 && forall i :: 0 <= i < |x| ==> x[i] == ExtraBlBits(i)
  {
    seq(2 * BL_CODES + 1, i requires 0 <= i => ExtraBlBits(i))
  }

  lemma {:induction false} BillSame(f: seq<nat>, g: seq<nat>, l: seq<nat>, m: seq<nat>, n: nat)
    requires n <= |f| && n <= |g| && n <= |l| && n <= |m| && forall i :: 0 <= i < n ==> f[i] == g[i] && l[i] == m[i]
    ensures Bill(f, l, n) == Bill(g, m, n)
  {
    if n > 0 {
      BillSame(f, g, l, m, n - 1);
    }
  }

  /** What is known of the finished code-length tree. */
  lemma BlTreeDone(tree: seq<CtData>, f: seq<nat>, maxCode: nat, llens: seq<nat>, dlens: seq<nat>)
    requires |tree| == |f| == 2 * BL_CODES + 1 && maxCode < BL_CODES && CodesFor(tree, f, BL_CODES, maxCode, 7)
    requires Small(llens) && Small(dlens)
    requires forall k :: 0 <= k < BL_CODES ==> f[k] == CountSym(AllRuns(llens) + AllRuns(dlens), k)
    ensures var bllens := LensOf(tree, BL_CODES);
      && TreeFor(tree, bllens) && Complete(bllens) && (forall i :: 0 <= i < BL_CODES ==> bllens[i] < 8)
      && RunsCodable(bllens, AllRuns(llens) + AllRuns(dlens))
  {
    hide CountSym, AllRuns, Huff, Complete, NotOver;
    var bllens, lens, rs := LensOf(tree, BL_CODES), LensOf(tree, maxCode + 1), AllRuns(llens) + AllRuns(dlens);
    HuffPadded(lens, BL_CODES - maxCode - 1);
    assert bllens == lens + Zeros(BL_CODES - maxCode - 1);
    assert NotOver(bllens) by { CompleteNotOver(bllens); }
    TwoTreesRoundTrip(llens, dlens);
    forall i | 0 <= i < |rs| ensures HasCode(bllens, rs[i].sym) {
      assert rs[i] in rs;
      RunCounted(rs, i);
    }
  }

  /** Counts the code lengths of both trees. */
  method ScanBoth(ltree: array<CtData>, dtree: array<CtData>, blTree: array<CtData>, lmax: nat, dmax: nat)
    requires ltree != dtree && ltree != blTree && dtree != blTree && blTree.Length == 2 * BL_CODES + 1
    requires lmax + 1 < ltree.Length && dmax + 1 < dtree.Length
    requires Small(LensOf(ltree[..], lmax + 1)) && Small(LensOf(dtree[..], dmax + 1))
    requires forall k :: 0 <= k < BL_CODES ==> blTree[k].fc == 0
    modifies ltree, dtree, blTree
    ensures LenAt(ltree[..], old(LensOf(ltree[..], lmax + 1))) && LenAt(dtree[..], old(LensOf(dtree[..], dmax + 1)))
    ensures forall i :: 0 <= i < ltree.Length && i != lmax + 1 ==> ltree[i] == old(ltree[i])
    ensures forall i :: 0 <= i < dtree.Length && i != dmax + 1 ==> dtree[i] == old(dtree[i])
    ensures forall k :: 0 <= k < BL_CODES ==>
      blTree[k].fc == CountSym(old(AllRuns(LensOf(ltree[..], lmax + 1)) + AllRuns(LensOf(dtree[..], dmax + 1))), k)
  {
    hide CountSym, AllRuns;
    ghost var llens, dlens := LensOf(ltree[..], lmax + 1), LensOf(dtree[..], dmax + 1);
    ghost var bl0 := blTree[..];
    ScanTree(ltree, lmax, blTree);
    ghost var bl1 := blTree[..];
    assert LensOf(dtree[..], dmax + 1) == dlens;
    ScanTree(dtree, dmax, blTree);
    TalliedConcat(bl0, bl1, blTree[..], AllRuns(llens), AllRuns(dlens));
  }

  /** Counts the code lengths of both trees, builds the tree for them, and finds how much of it to send. */
  method BuildBlTree(ltree: array<CtData>, dtree: array<CtData>, blTree: array<CtData>, lmax: nat, dmax: nat,
                     optLen: int)
    returns (maxBlindex: nat, optLen': int)
    requires ltree != dtree && ltree != blTree && dtree != blTree && blTree.Length == 2 * BL_CODES + 1
    requires END_BLOCK <= lmax < 286 < ltree.Length - 1 && dmax < 30 < dtree.Length - 1 && ltree[END_BLOCK].dl > 0
    requires Small(LensOf(ltree[..], lmax + 1)) && Small(LensOf(dtree[..], dmax + 1))
    requires forall k :: 0 <= k < BL_CODES ==> blTree[k].fc == 0
    modifies ltree, dtree, blTree
    ensures LenAt(ltree[..], old(LensOf(ltree[..], lmax + 1))) && LenAt(dtree[..], old(LensOf(dtree[..], dmax + 1)))
    ensures forall i :: 0 <= i < ltree.Length && i != lmax + 1 ==> ltree[i] == old(ltree[i])
    ensures forall i :: 0 <= i < dtree.Length && i != dmax + 1 ==> dtree[i] == old(dtree[i])
    ensures BlTreeOk(old(LensOf(ltree[..], lmax + 1)), old(LensOf(dtree[..], dmax + 1)), blTree[..], maxBlindex + 1)
    ensures BlFitted(old(LensOf(ltree[..], lmax + 1)), old(LensOf(dtree[..], dmax + 1)), LensOf(blTree[..], BL_CODES))
    ensures optLen'
         == optLen + |HeaderBits(old(LensOf(ltree[..], lmax + 1)), old(LensOf(dtree[..], dmax + 1)),
           LensOf(blTree[..], BL_CODES), maxBlindex + 1)|
  {
    hide MadeBy, BlFitted, BestOfCounts, CountSym, AllRuns, Bill, Huff, Complete, NotOver, CodesFor, Best, BlOrder,
      Pow2, ExtraBlBits, TreeFor,
         RunsCodable, HeaderBits;
    ghost var llens, dlens := LensOf(ltree[..], lmax + 1), LensOf(dtree[..], dmax + 1);
    ScanBoth(ltree, dtree, blTree, lmax, dmax);
    ghost var f, rs := FreqOf(blTree[..]), AllRuns(llens) + AllRuns(dlens);
    Pow2Small();
    BlExtraStart();
    var maxCode, o, st;
    ghost var g, forced, nodes, merges;
    maxCode, o, st, g, forced, nodes, merges := Huffing.BuildTree(blTree, BL_CODES, BlExtra(), [], 7, optLen, 0);
    BlFits(f, RunFreq(rs), LensOf(blTree[..], blTree.Length), maxCode, g, forced, nodes, merges,
      LensOf(blTree[..], BL_CODES), llens, dlens);
    BlTreeDone(blTree[..], f, maxCode, llens, dlens);
    ghost var k := SomeLength(llens, dlens, END_BLOCK);
    BlLengthUsed(blTree[..], f, maxCode, k);
    maxBlindex := LastBlIndex(blTree[..]);
    optLen' := o + 3 * (maxBlindex + 1) + 5 + 5 + 4;
    ghost var bllens, l := LensOf(blTree[..], BL_CODES), Plus(LensOf(blTree[..], blTree.Length), BlExtra());
    HeaderSize(llens, dlens, bllens, maxBlindex + 1, l);
    BillSame(f, RunFreq(rs), l, l, BL_CODES);
  }

  ghost predicate BlTreeOk(llens: seq<nat>, dlens: seq<nat>, blTree: seq<CtData>, blcodes: nat) {
    && |blTree| >= BL_CODES && TreeFor(blTree, LensOf(blTree, BL_CODES)) && Complete(LensOf(blTree, BL_CODES))
    && HeaderOk(llens, dlens, LensOf(blTree, BL_CODES), blcodes)
    && (forall i :: blcodes <= i < BL_CODES ==> LensOf(blTree, BL_CODES)[BlOrder(i)] == 0)
    && LensOf(blTree, BL_CODES)[BlOrder(blcodes - 1)] != 0
  }

  /** The lengths that are sent, and how they come about from the lengths of the two other trees. */
  ghost predicate BlFitted(llens: seq<nat>, dlens: seq<nat>, bllens: seq<nat>) {
    |bllens| == BL_CODES && exists n: nat ::
      n <= BL_CODES && Fitted(RunFreq(AllRuns(llens) + AllRuns(dlens)), bllens[..n], 7)
        && forall i :: n <= i < BL_CODES ==> bllens[i] == 0
  }

  /** No shorter list of code-length lengths would do: a header with `n` of them is not shorter. */
  lemma HeaderShortest(llens: seq<nat>, dlens: seq<nat>, bllens: seq<nat>, blcodes: nat, n: nat)
    requires HeaderOk(llens, dlens, bllens, blcodes) && HeaderOk(llens, dlens, bllens, n)
    requires bllens[BlOrder(blcodes - 1)] != 0 && forall i :: n <= i < BL_CODES ==> bllens[BlOrder(i)] == 0
    ensures blcodes <= n && |HeaderBits(llens, dlens, bllens, blcodes)| + 3 * (n - blcodes)
      == |HeaderBits(llens, dlens, bllens, n)|
  {
    hide HeaderOk, HeaderBits, RunFreq, AllRuns, BlOrder;
    assert blcodes <= BL_CODES && |bllens| == BL_CODES by { HeaderSizes(llens, dlens, bllens, blcodes); }
    var l := seq(BL_CODES, k requires 0 <= k < BL_CODES => bllens[k] + ExtraBlBits(k));
    HeaderSize(llens, dlens, bllens, blcodes, l);
    HeaderSize(llens, dlens, bllens, n, l);
  }

  lemma HeaderSizes(llens: seq<nat>, dlens: seq<nat>, bllens: seq<nat>, blcodes: nat)
    requires HeaderOk(llens, dlens, bllens, blcodes)
    ensures 4 <= blcodes <= BL_CODES && |bllens| == BL_CODES
  {
  }

  lemma BlFits(full: seq<nat>, f: seq<nat>, l: seq<nat>, maxCode: nat, freq': seq<nat>, forced: set<nat>,
               nodes: seq<nat>, merges: seq<(nat, nat)>, bllens: seq<nat>, llens: seq<nat>, dlens: seq<nat>)
    requires maxCode < BL_CODES == |f| <= |full| == |l| && forall i :: 0 <= i < BL_CODES ==> full[i] == f[i]
    requires MadeBy(full, BL_CODES, maxCode, 7, l, freq', forced, nodes, merges)
    requires f == RunFreq(AllRuns(llens) + AllRuns(dlens)) && bllens == l[..BL_CODES]
    ensures BlFitted(llens, dlens, bllens)
  {
    hide RunFreq, AllRuns, Fitted;
    MadeFitted(full, f, l, maxCode, 7, freq', forced, nodes, merges);
    assert bllens[..maxCode + 1] == l[..maxCode + 1];
    assert forall i :: maxCode < i < BL_CODES ==> l[i] == 0 by {
      hide *;
      ZerosBehind(full, BL_CODES, maxCode, 7, l, freq', forced, nodes, merges);
    }
  }

  lemma BlExtraStart()
    ensures BlExtra()[0] == 0 && BlExtra()[1] == 0 && BlExtra()[2] == 0
  {
  }

  lemma BlLengthUsed(tree: seq<CtData>, f: seq<nat>, maxCode: nat, k: nat)
    requires |tree| == |f| == 2 * BL_CODES + 1 && maxCode < BL_CODES && CodesFor(tree, f, BL_CODES, maxCode, 7)
    requires k < BL_CODES && f[k] > 0
    ensures tree[k].dl > 0
  {
    hide Huff, Complete;
  }
}
