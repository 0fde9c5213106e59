/** The header of a dynamic block: `send_all_trees` of src/zlib/trees.c. */
module SendAllTrees {
  import opened Bits
  import opened GenCodes
  import opened BitWriter
  import opened RunLength
  import opened CompressBlock
  import opened SendTree

  const BL_CODES := 19

  /** The source's table `bl_order`. */
  function BlOrder(rank: nat): (s: nat)
    ensures s < BL_CODES
  {
    match rank
    case 0 => 16 case 1 => 17 case 2 => 18 case 3 => 0 case 4 => 8 case 5 => 7 case 6 => 9
    case 7 => 6 case 8 => 10 case 9 => 5 case 10 => 11 case 11 => 4 case 12 => 12 case 13 => 3
    case 14 => 13 case 15 => 2 case 16 => 14 case 17 => 1 case _ => 15
  }

  /** The rule behind the order, section 3.2.7 of RFC 1951: the repeats, zero, and then outwards from eight. */
  lemma OrderRule(k: nat)
    ensures BlOrder(0) == 16 && BlOrder(1) == 17 && BlOrder(2) == 18 && BlOrder(3) == 0
    ensures k < 8 ==> BlOrder(4 + 2 * k) == 8 + k
    ensures k < 7 ==> BlOrder(5 + 2 * k) == 7 - k
  {
  }

  /** The lengths of the code-length code, three bits each. */
  ghost function OrderBits(bllens: seq<nat>, n: nat): seq<bool>
    requires |bllens| == BL_CODES
  {
    if n == 0 then [] else OrderBits(bllens, n - 1) + BitsOf(bllens[BlOrder(n - 1)], 3)
  }

  ghost predicate HeaderOk(llens: seq<nat>, dlens: seq<nat>, bllens: seq<nat>, blcodes: nat) {
    && 257 <= |llens| <= 286 && 1 <= |dlens| <= 30 && 4 <= blcodes <= BL_CODES && Small(llens) && Small(dlens)
    && |bllens| == BL_CODES && (forall i :: 0 <= i < BL_CODES ==> bllens[i] < 8)
    && RunsCodable(bllens, AllRuns(llens) + AllRuns(dlens))
  }

  ghost function HeaderBits(llens: seq<nat>, dlens: seq<nat>, bllens: seq<nat>, blcodes: nat): seq<bool>
    requires HeaderOk(llens, dlens, bllens, blcodes)
  {
    BitsOf(|llens| - 257, 5) + BitsOf(|dlens| - 1, 5) + BitsOf(blcodes - 4, 4) + OrderBits(bllens, blcodes)
    + RunBits(bllens, AllRuns(llens) + AllRuns(dlens))
  }

  method SendAllTrees(w: Writer, lcodes: nat, dcodes: nat, blcodes: nat, ltree: seq<CtData>, dtree: seq<CtData>,
                      blTree: seq<CtData>,
                      ghost llens: seq<nat>, ghost dlens: seq<nat>, ghost bllens: seq<nat>)
    requires w.Valid() && HeaderOk(llens, dlens, bllens, blcodes) && lcodes == |llens| && dcodes == |dlens|
    requires LenAt(ltree, llens) && LenAt(dtree, dlens) && TreeFor(blTree, bllens)
    modifies w
    ensures w.Valid() && w.Stream() == old(w.Stream()) + HeaderBits(llens, dlens, bllens, blcodes)
  {
    hide Writer.Stream, Writer.Valid, RunBits, AllRuns, HasCode, BitsOf, BlOrder;
    Pow2Small();
    ghost var start := w.Stream();
    w.SendBits(lcodes - 257, 5);
    w.SendBits(dcodes - 1, 5);
    w.SendBits(blcodes - 4, 4);
    ghost var head := w.Stream();
    for rank := 0 to blcodes
      invariant w.Valid() && w.Stream() == head + OrderBits(bllens, rank)
    {
      w.SendBits(blTree[BlOrder(rank)].dl, 3);
    }
    CodableParts(bllens, AllRuns(llens), AllRuns(dlens));
    RunBitsConcat(bllens, AllRuns(llens), AllRuns(dlens));
    SendTree.SendTree(w, ltree, lcodes - 1, blTree, llens, bllens);
    SendTree.SendTree(w, dtree, dcodes - 1, blTree, dlens, bllens);
  }

  lemma CodableParts(bllens: seq<nat>, a: seq<Run>, b: seq<Run>)
    requires RunsCodable(bllens, a + b)
    ensures RunsCodable(bllens, a) && RunsCodable(bllens, b)
  {
    forall i | 0 <= i < |a| ensures HasCode(bllens, a[i].sym) {
      assert (a + b)[i] == a[i];
    }
    forall i | 0 <= i < |b| ensures HasCode(bllens, b[i].sym) {
      assert (a + b)[|a| + i] == b[i];
    }
  }
}
