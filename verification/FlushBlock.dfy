/**
 `_tr_tally` and `_tr_flush_block` of src/zlib/trees.c: tokens are counted, trees are
 built, and the block is written in one of the three forms.
 */
module FlushBlock {
  import opened Bits
  import opened Canonical
  import opened DecodeTable
  import opened StaticCodes
  import opened BitWriter
  import opened RunLength
  import opened Compressing = CompressBlock
  import opened Sending = SendTree
  import opened SendAllTrees
  import opened BlockSizes
  import Construction = BuildTree
  import opened BlockChoice
  import opened Huffing = HuffmanCodes
  import opened Coding = GenCodes
  import opened Lengthening = GenBitLen
  import opened DynamicTrees
  import opened StaticTrees
  import opened InflateSpec
  import opened RoundTrip
  import opened RoundTripBlocks
  import Trees = Huffman
  import Lz = Lz77

  const L_NODES := 573
  const D_NODES := 61

  /** The trees hold the frequencies of the tokens. */
  ghost predicate Counted(t: Tables, toks: seq<Lz.Token>, ltree: seq<CtData>, dtree: seq<CtData>, blTree: seq<CtData>) {
    && |t.lengthCode| == 256 && |t.distCode| == 512 && AllValid(toks)
    && |ltree| == L_NODES && |dtree| == D_NODES && |blTree| == 2 * BL_CODES + 1
    && (forall i :: 0 <= i < L_CODES ==> ltree[i].fc == LFreq(t, toks)[i])
    && (forall i :: 0 <= i < D_CODES ==> dtree[i].fc == DFreq(t, toks)[i])
    && (forall i :: 0 <= i < BL_CODES ==> blTree[i].fc == 0)
  }

  // ------------------------------------------------- every symbol that occurs gets a code

  lemma {:induction false} LFreqUsed(t: Tables, toks: seq<Lz.Token>, i: nat)
    requires |t.lengthCode| == 256 && AllValid(toks) && i < |toks| && LSym(t, toks[i]) < L_CODES
    ensures LFreq(t, toks)[LSym(t, toks[i])] > 0
  {
    hide LSym;
    if i < |toks| - 1 {
      LFreqUsed(t, toks[..|toks| - 1], i);
    }
  }

  lemma {:induction false} EndUsed(t: Tables, toks: seq<Lz.Token>)
    requires |t.lengthCode| == 256 && AllValid(toks)
    ensures LFreq(t, toks)[END_BLOCK] > 0
  {
    hide LSym;
    if toks != [] {
      EndUsed(t, toks[..|toks| - 1]);
    }
  }

  lemma {:induction false} DFreqUsed(t: Tables, toks: seq<Lz.Token>, i: nat)
    requires |t.distCode| == 512 && AllValid(toks) && i < |toks| && toks[i].Match?
    requires t.DCode(toks[i].dist - 1) < D_CODES
    ensures DFreq(t, toks)[t.DCode(toks[i].dist - 1)] > 0
  {
    if i < |toks| - 1 {
      DFreqUsed(t, toks[..|toks| - 1], i);
    }
  }

  lemma SymbolsSmall(t: Tables, tok: Lz.Token)
    requires t.Valid() && Lz.ValidToken(tok)
    ensures LSym(t, tok) < L_CODES && (tok.Match? ==> t.DCode(tok.dist - 1) < D_CODES)
  {
    hide BaseLength, BaseDist, ExtraLBits, ExtraDBits;
    match tok
    case Literal(b) =>
    case Match(len, dist) =>
      ExtraLengthFits(t, len - 3);
      ExtraDistFits(t, dist - 1);
  }

  /** Codes that cover the frequencies can write the tokens. */
  lemma {:induction false} AllCovered(t: Tables, toks: seq<Lz.Token>, llens: seq<nat>, dlens: seq<nat>)
    requires t.Valid() && |t.lengthCode| == 256 && |t.distCode| == 512 && AllValid(toks)
    requires forall s :: 0 <= s < L_CODES && LFreq(t, toks)[s] > 0 ==> HasCode(llens, s)
    requires forall s :: 0 <= s < D_CODES && DFreq(t, toks)[s] > 0 ==> HasCode(dlens, s)
    ensures BodyOk(t, Codes(llens, dlens), toks)
  {
    hide Tables.Valid, HasCode, LFreq, DFreq;
    forall i | 0 <= i < |toks| ensures Codable(t, llens, dlens, toks[i]) {
      SymbolsSmall(t, toks[i]);
      LFreqUsed(t, toks, i);
      if toks[i].Match? {
        DFreqUsed(t, toks, i);
      }
    }
    EndUsed(t, toks);
  }

  lemma FixedCovers(t: Tables, toks: seq<Lz.Token>)
    requires t.Valid() && |t.lengthCode| == 256 && |t.distCode| == 512 && AllValid(toks)
    ensures BodyOk(t, FixedCodes(), toks)
  {
    hide LFreq, DFreq, Tables.Valid;
    AllCovered(t, toks, FixedCodes().llens, FixedCodes().dlens);
    assert FixedCodes() == Codes(FixedCodes().llens, FixedCodes().dlens);
  }

  // ------------------------------------------------- extra bits and static lengths by node

  function LXbits(): (x: seq<nat>)
    ensures |x| == L_NODES && forall s :: 0 <= s < |x| ==> x[s] == LExtra(s)
  {
    seq(L_NODES, s requires 0 <= s => LExtra(s))
  }

  function DXbits(): (x: seq<nat>)
    ensures |x| == D_NODES && forall s :: 0 <= s < |x| ==> x[s] == ExtraDBits(s)
  {
    seq(D_NODES, s requires 0 <= s => ExtraDBits(s))
  }

  function StaticL(): (x: seq<nat>)
    ensures |x| == L_NODES && forall s :: 0 <= s < 288 ==> x[s] == FixedLen(s)
  {
    seq(L_NODES, s requires 0 <= s => FixedLen(s))
  }

  function StaticD(): (x: seq<nat>)
    ensures |x| == D_NODES && forall s :: 0 <= s < |x| ==> x[s] == 5
  {
    seq(D_NODES, _ => 5)
  }

  lemma XbitsStart()
    ensures LXbits()[0] == LXbits()[1] == LXbits()[2] == 0 && DXbits()[0] == DXbits()[1] == DXbits()[2] == 0
  {
  }

  /** The static total is the size of the block in the static codes. */
  lemma {:induction false} StaticSize(t: Tables, toks: seq<Lz.Token>)
    requires t.Valid() && |t.lengthCode| == 256 && |t.distCode| == 512 && AllValid(toks)
    ensures BodyOk(t, FixedCodes(), toks)
    ensures |BodyBits(t, FixedCodes(), toks)|
         == Bill(LFreq(t, toks), Plus(StaticL(), LXbits()), L_CODES)
           + Bill(DFreq(t, toks), Plus(StaticD(), DXbits()), D_CODES)
  {
    hide LFreq, DFreq, Tables.Valid, Bill, LExtra, ExtraDBits;
    FixedCovers(t, toks);
    BlockSize(t, FixedCodes().llens, FixedCodes().dlens, Plus(StaticL(), LXbits()), Plus(StaticD(), DXbits()), toks);
  }

  // ------------------------------------------------- the trees of a block

  /** The three trees are finished, and a dynamic block can be written with them. */
  ghost predicate TreesReady(t: Tables, toks: seq<Lz.Token>, ltree: seq<CtData>, dtree: seq<CtData>,
                             blTree: seq<CtData>,
                             llens: seq<nat>, dlens: seq<nat>, bllens: seq<nat>, blcodes: nat)
    requires t.Valid()
  {
    && TreeFor(ltree, llens) && TreeFor(dtree, dlens) && TreeFor(blTree, bllens) && LenAt(ltree, llens)
    && LenAt(dtree, dlens)
    && BlockOk(t, DynamicBlock(toks, llens, dlens, bllens, blcodes))
  }

  /** One tree of literals or distances, from its frequencies to its codes. */
  lemma TreeDone(tree: seq<CtData>, f: seq<nat>, elems: nat, maxCode: nat)
    requires maxCode < elems <= |tree| && elems <= |f| && CodesFor(tree, f, elems, maxCode, 15)
    ensures var lens := LensOf(tree, maxCode + 1);
      && TreeFor(tree, lens) && Small(lens) && ValidLens(lens) && Complete(lens)
      && forall i :: 0 <= i < elems && f[i] > 0 ==> HasCode(lens, i)
  {
    hide Huff, Complete, NotOver;
    CompleteNotOver(LensOf(tree, maxCode + 1));
  }

  lemma PricesReady(tree: seq<CtData>, maxCode: nat, x: seq<nat>)
    requires maxCode < |tree| && |x| == |tree|
    ensures forall s :: 0 <= s <= maxCode ==> Plus(LensOf(tree, |tree|), x)[s] == LensOf(tree, maxCode + 1)[s] + x[s]
  {
  }

  lemma {:induction false} CountedFreqs(t: Tables, toks: seq<Lz.Token>, ltree: seq<CtData>, dtree: seq<CtData>,
                                        blTree: seq<CtData>)
    requires Counted(t, toks, ltree, dtree, blTree)
    ensures |t.lengthCode| == 256 && |t.distCode| == 512 && AllValid(toks) && |ltree| == L_NODES && |dtree| == D_NODES
    ensures forall i :: 0 <= i < L_CODES ==> FreqOf(ltree)[i] == LFreq(t, toks)[i]
    ensures forall i :: 0 <= i < D_CODES ==> FreqOf(dtree)[i] == DFreq(t, toks)[i]
    ensures |StaticL()| == L_NODES && |StaticD()| == D_NODES && LXbits()[0] == LXbits()[1] == LXbits()[2] == 0
  {
    hide LFreq, DFreq;
    XbitsStart();
  }

  /** What the two finished trees are good for. */
  lemma LitDistDone(t: Tables, toks: seq<Lz.Token>, lt: seq<CtData>, dt: seq<CtData>, lf: seq<nat>,
                    df: seq<nat>, lmax: nat, dmax: nat)
    requires t.Valid() && |t.lengthCode| == 256 && |t.distCode| == 512 && AllValid(toks)
    requires |lt| == |lf| == L_NODES && |dt| == |df| == D_NODES && lmax < L_CODES && dmax < D_CODES
    requires CodesFor(lt, lf, L_CODES, lmax, 15) && CodesFor(dt, df, D_CODES, dmax, 15)
    requires forall i :: 0 <= i < L_CODES ==> lf[i] == LFreq(t, toks)[i]
    requires forall i :: 0 <= i < D_CODES ==> df[i] == DFreq(t, toks)[i]
    ensures END_BLOCK <= lmax && lt[END_BLOCK].dl > 0 && LitDist(t, toks, lt, dt, lmax, dmax)
    ensures BodyOk(t, FixedCodes(), toks)
    ensures Bill(lf, Plus(LensOf(lt, L_NODES), LXbits()), L_CODES)
      + Bill(df, Plus(LensOf(dt, D_NODES), DXbits()), D_CODES)
         == |BodyBits(t, Codes(LensOf(lt, lmax + 1), LensOf(dt, dmax + 1)), toks)|
    ensures Bill(lf, Plus(StaticL(), LXbits()), L_CODES) + Bill(df, Plus(StaticD(), DXbits()), D_CODES)
         == |BodyBits(t, FixedCodes(), toks)|
  {
    hide Bill, Huff, Complete, NotOver, CodesFor, LExtra, ExtraDBits, Tables.Valid, LFreq, DFreq, BodyOk, BodyBits,
         FixedCodes;
    TreeDone(lt, lf, L_CODES, lmax);
    TreeDone(dt, df, D_CODES, dmax);
    var llens, dlens := LensOf(lt, lmax + 1), LensOf(dt, dmax + 1);
    EndUsed(t, toks);
    AllCovered(t, toks, llens, dlens);
    StaticSize(t, toks);
    var l, d := Plus(LensOf(lt, L_NODES), LXbits()), Plus(LensOf(dt, D_NODES), DXbits());
    PricesReady(lt, lmax, LXbits());
    PricesReady(dt, dmax, DXbits());
    BodySize(t, llens, dlens, l, d, toks);
    BillSame(lf, LFreq(t, toks), l, l, L_CODES);
    BillSame(df, DFreq(t, toks), d, d, D_CODES);
    BillSame(lf, LFreq(t, toks), Plus(StaticL(), LXbits()), Plus(StaticL(), LXbits()), L_CODES);
    BillSame(df, DFreq(t, toks), Plus(StaticD(), DXbits()), Plus(StaticD(), DXbits()), D_CODES);
  }

  /** Literal and distance trees, and the totals of the block without its header. */
  method BuildLiteralAndDistance(t: Tables, ltree: array<CtData>, dtree: array<CtData>, blTree: array<CtData>,
                                 ghost toks: seq<Lz.Token>)
    returns (lmax: nat, dmax: nat, optLen: int, staticLen: int)
    requires ltree != dtree && ltree != blTree && dtree != blTree && t.Valid()
    requires Counted(t, toks, ltree[..], dtree[..], blTree[..])
    modifies ltree, dtree
    ensures END_BLOCK <= lmax < L_CODES && dmax < D_CODES && ltree[END_BLOCK].dl > 0
    ensures LitDist(t, toks, ltree[..], dtree[..], lmax, dmax)
    ensures optLen == |BodyBits(t, Codes(LensOf(ltree[..], lmax + 1), LensOf(dtree[..], dmax + 1)), toks)|
    ensures BodyOk(t, FixedCodes(), toks) && staticLen == |BodyBits(t, FixedCodes(), toks)|
    ensures |t.lengthCode| == 256 && |t.distCode| == 512 && AllValid(toks)
    ensures Lean(LFreq(t, toks), LensOf(ltree[..], lmax + 1))
    ensures Fitted(LFreq(t, toks), LensOf(ltree[..], lmax + 1), 15)
    ensures Fitted(DFreq(t, toks), LensOf(dtree[..], dmax + 1), 15)
  {
    hide MadeBy, Fitted, BestOfCounts, Construction.Forced, Trees.IsHuffman;
    hide Bill, Huff, Complete, NotOver, CodesFor, Best, Pow2, LExtra, ExtraDBits, Tables.Valid, LFreq, DFreq, BodyOk,
         BodyBits, FixedCodes, Lean, Trees.TooDeep,
         Counted, LitDist, AllValid;
    Pow2Small();
    XbitsStart();
    CountedFreqs(t, toks, ltree[..], dtree[..], blTree[..]);
    ghost var lf, df := FreqOf(ltree[..]), FreqOf(dtree[..]);
    ghost var g, forced, nodes, merges;
    lmax, optLen, staticLen, g, forced, nodes, merges := Huffing.BuildTree(ltree, L_CODES, LXbits(), StaticL(), 15, 0,
      0);
    LeanTree(ltree[..], lf, LFreq(t, toks), lmax, g, forced);
    TreeFitted(ltree[..], lf, LFreq(t, toks), lmax, g, forced, nodes, merges);
    dmax, optLen, staticLen, g, forced, nodes, merges := Huffing.BuildTree(dtree, D_CODES, DXbits(), StaticD(), 15,
      optLen, staticLen);
    TreeFitted(dtree[..], df, DFreq(t, toks), dmax, g, forced, nodes, merges);
    LitDistDone(t, toks, ltree[..], dtree[..], lf, df, lmax, dmax);
  }

  lemma LeanTree(tree: seq<CtData>, f: seq<nat>, g: seq<nat>, maxCode: nat, freq': seq<nat>, forced: set<nat>)
    requires |tree| == |f| && |g| == L_CODES <= |f| && maxCode < L_CODES
      && Construction.Forced(f, L_CODES, freq', forced)
    requires |Construction.Used(f, L_CODES)| >= 2 ==> forced == {}
    requires forall i :: 0 <= i < L_CODES ==> f[i] == g[i] && (freq'[i] == 0 ==> tree[i].dl == 0)
    ensures Lean(g, LensOf(tree, maxCode + 1))
  {
    assert Construction.Used(f, L_CODES) == Construction.Used(g, |g|);
  }

  lemma TreeFitted(tree: seq<CtData>, full: seq<nat>, f: seq<nat>, maxCode: nat, freq': seq<nat>, forced: set<nat>,
                   nodes: seq<nat>, merges: seq<(nat, nat)>)
    requires maxCode < |f| <= |full| == |tree| && forall i :: 0 <= i < |f| ==> full[i] == f[i]
    requires MadeBy(full, |f|, maxCode, 15, LensOf(tree, |tree|), freq', forced, nodes, merges)
    ensures Fitted(f, LensOf(tree, maxCode + 1), 15)
  {
    hide MadeBy, Fitted;
    MadeFitted(full, f, LensOf(tree, |tree|), maxCode, 15, freq', forced, nodes, merges);
    assert LensOf(tree, |tree|)[..maxCode + 1] == LensOf(tree, maxCode + 1);
  }

  /** All three codes are made from the frequencies as `gen_bitlen` makes them, and no length is sent in vain. */
  ghost predicate WellMade(t: Tables, toks: seq<Lz.Token>, llens: seq<nat>, dlens: seq<nat>, bllens: seq<nat>,
                           blcodes: nat) {
    && |t.lengthCode| == 256 && |t.distCode| == 512 && AllValid(toks)
    && Fitted(LFreq(t, toks), llens, 15) && Fitted(DFreq(t, toks), dlens, 15) && BlFitted(llens, dlens, bllens)
    && 1 <= blcodes <= BL_CODES && |bllens| == BL_CODES && bllens[BlOrder(blcodes - 1)] != 0
  }

  /** Both trees have complete codes for the tokens. */
  ghost predicate LitDist(t: Tables, toks: seq<Lz.Token>, ltree: seq<CtData>, dtree: seq<CtData>, lmax: nat, dmax: nat)
    requires t.Valid()
  {
    && lmax < |ltree| && dmax < |dtree| && TreeFor(ltree, LensOf(ltree, lmax + 1))
    && TreeFor(dtree, LensOf(dtree, dmax + 1))
    && Complete(LensOf(ltree, lmax + 1)) && Complete(LensOf(dtree, dmax + 1))
    && Small(LensOf(ltree, lmax + 1)) && Small(LensOf(dtree, dmax + 1))
    && BodyOk(t, Codes(LensOf(ltree, lmax + 1), LensOf(dtree, dmax + 1)), toks)
  }

  lemma {:induction false} BodySize(t: Tables, llens: seq<nat>, dlens: seq<nat>, l: seq<nat>, d: seq<nat>,
                                    toks: seq<Lz.Token>)
    requires t.Valid() && |t.lengthCode| == 256 && |t.distCode| == 512 && AllValid(toks)
    requires BodyOk(t, Codes(llens, dlens), toks)
    requires |llens| <= L_CODES <= |l| && |dlens| <= D_CODES <= |d|
    requires forall s :: 0 <= s < |llens| ==> l[s] == llens[s] + LExtra(s)
    requires forall s :: 0 <= s < |dlens| ==> d[s] == dlens[s] + ExtraDBits(s)
    ensures |BodyBits(t, Codes(llens, dlens), toks)|
         == Bill(LFreq(t, toks), l, L_CODES) + Bill(DFreq(t, toks), d, D_CODES)
  {
    hide LFreq, DFreq, Tables.Valid, Bill, LExtra, ExtraDBits;
    BlockSize(t, llens, dlens, l, d, toks);
  }

  /** All three trees; the totals are the sizes of the block in both codes, without the three bits that begin it. */
  method BuildTrees(t: Tables, ltree: array<CtData>, dtree: array<CtData>, blTree: array<CtData>,
                    ghost toks: seq<Lz.Token>)
    returns (lmax: nat, dmax: nat, maxBlindex: nat, optLen: int, staticLen: int,
             ghost llens: seq<nat>, ghost dlens: seq<nat>, ghost bllens: seq<nat>)
    requires ltree != dtree && ltree != blTree && dtree != blTree && t.Valid()
    requires Counted(t, toks, ltree[..], dtree[..], blTree[..])
    modifies ltree, dtree, blTree
    ensures TreesReady(t, toks, ltree[..], dtree[..], blTree[..], llens, dlens, bllens, maxBlindex + 1)
    ensures |llens| == lmax + 1 && |dlens| == dmax + 1
    ensures optLen + 3 == |BlockBits(t, DynamicBlock(toks, llens, dlens, bllens, maxBlindex + 1), false, 0)|
    ensures BodyOk(t, FixedCodes(), toks) && staticLen + 3 == |BlockBits(t, StaticBlock(toks), false, 0)|
    ensures |t.lengthCode| == 256 && AllValid(toks) && Lean(LFreq(t, toks), llens)
    ensures WellMade(t, toks, llens, dlens, bllens, maxBlindex + 1)
  {
    hide Fitted, BlFitted, Lean, Huff, Complete, NotOver, Pow2, Tables.Valid, LFreq, DFreq, BodyOk, BodyBits,
      FixedCodes, HeaderBits,
      HeaderOk,
         BlOrder, Accepted;
    lmax, dmax, optLen, staticLen := BuildLiteralAndDistance(t, ltree, dtree, blTree, toks);
    llens, dlens := LensOf(ltree[..], lmax + 1), LensOf(dtree[..], dmax + 1);
    ghost var lt, dt := ltree[..], dtree[..];
    maxBlindex, optLen := BuildBlTree(ltree, dtree, blTree, lmax, dmax, optLen);
    bllens := LensOf(blTree[..], BL_CODES);
    GuardKeeps(lt, ltree[..], llens, lmax);
    GuardKeeps(dt, dtree[..], dlens, dmax);
    CompleteAccepted(llens, dlens, bllens);
    HeaderSizes(llens, dlens, bllens, maxBlindex + 1);
  }

  lemma CompleteAccepted(llens: seq<nat>, dlens: seq<nat>, bllens: seq<nat>)
    requires Complete(llens) && Complete(dlens) && Complete(bllens)
    ensures Accepted(LENS, llens) && Accepted(DISTS, dlens) && Accepted(CODES, bllens)
  {
    hide Complete;
  }

  /** The guard behind the lengths does not touch them. */
  lemma GuardKeeps(tree: seq<CtData>, tree': seq<CtData>, lens: seq<nat>, max: nat)
    requires TreeFor(tree, lens) && |lens| == max + 1 && |tree'| == |tree|
    requires forall i :: 0 <= i < |tree| && i != max + 1 ==> tree'[i] == tree[i]
    ensures TreeFor(tree', lens)
  {
    hide Huff, NotOver;
  }

  // ------------------------------------------------- counting tokens

  lemma CountedSizes(t: Tables, toks: seq<Lz.Token>, ltree: seq<CtData>, dtree: seq<CtData>, blTree: seq<CtData>)
    requires Counted(t, toks, ltree, dtree, blTree)
    ensures |ltree| == L_NODES && |dtree| == D_NODES && |blTree| == 2 * BL_CODES + 1 && AllValid(toks)
  {
  }

  /** One more of the symbol at `i`. */
  function More(tree: seq<CtData>, i: nat): (r: seq<CtData>)
    requires i < |tree|
    ensures |r| == |tree|
  {
    tree[i := CtData(tree[i].fc + 1, tree[i].dl)]
  }

  lemma LiteralCounted(t: Tables, toks: seq<Lz.Token>, b: nat, ltree: seq<CtData>,
                       dtree: seq<CtData>, blTree: seq<CtData>)
    requires Counted(t, toks, ltree, dtree, blTree) && b < 256
    ensures Counted(t, toks + [Lz.Literal(b)], More(ltree, b), dtree, blTree)
  {
    hide LFreq, DFreq;
    LFreqNext(t, toks, Lz.Literal(b));
    DFreqNext(t, toks, Lz.Literal(b));
  }

  lemma MatchCounted(t: Tables, toks: seq<Lz.Token>, len: nat, dist: nat, ltree: seq<CtData>,
                     dtree: seq<CtData>, blTree: seq<CtData>)
    requires Counted(t, toks, ltree, dtree, blTree) && Lz.ValidToken(Lz.Match(len, dist))
    requires t.lengthCode[len - 3] + LITERALS + 1 < L_CODES && t.DCode(dist - 1) < D_CODES
    ensures Counted(t, toks + [Lz.Match(len, dist)], More(ltree, t.lengthCode[len - 3] + LITERALS + 1),
      More(dtree, t.DCode(dist - 1)), blTree)
  {
    hide LFreq, DFreq, Tables.DCode;
    LFreqNext(t, toks, Lz.Match(len, dist));
    DFreqNext(t, toks, Lz.Match(len, dist));
  }

  lemma {:induction false} LFreqNext(t: Tables, toks: seq<Lz.Token>, tok: Lz.Token)
    requires |t.lengthCode| == 256 && AllValid(toks) && Lz.ValidToken(tok)
    ensures AllValid(toks + [tok]) && LFreq(t, toks + [tok]) == Bumped(LFreq(t, toks), LSym(t, tok))
  {
    hide LSym, Bumped;
    assert (toks + [tok])[..|toks|] == toks;
  }

  lemma {:induction false} DFreqNext(t: Tables, toks: seq<Lz.Token>, tok: Lz.Token)
    requires |t.distCode| == 512 && AllValid(toks) && Lz.ValidToken(tok)
    ensures AllValid(toks + [tok])
    ensures DFreq(t, toks + [tok]) == if tok.Match? then Bumped(DFreq(t, toks), t.DCode(tok.dist - 1))
      else DFreq(t, toks)
  {
    hide Bumped, Tables.DCode;
    assert (toks + [tok])[..|toks|] == toks;
  }

  // ------------------------------------------------- frequencies in 16 bits

  /** What is kept of a number in a field of 16 bits. */
  function Ush(x: nat): nat {
    x % 0x1_0000
  }

  /** The largest `lit_bufsize`, 2^(memLevel + 6) for the largest memLevel. */
  const MAX_BUFSIZE := 0x8000

  lemma CountsSmall(t: Tables, toks: seq<Lz.Token>, ltree: seq<CtData>, dtree: seq<CtData>, blTree: seq<CtData>)
    requires Counted(t, toks, ltree, dtree, blTree)
    ensures Sum(FreqOf(ltree), L_CODES) <= |toks| + 1 && Sum(FreqOf(dtree), D_CODES) <= |toks|
    ensures forall i :: 0 <= i < L_CODES ==> ltree[i].fc <= |toks| + 1
    ensures forall i :: 0 <= i < D_CODES ==> dtree[i].fc <= |toks|
  {
    hide LFreq, DFreq, Sum;
    LFreqSum(t, toks);
    DFreqSum(t, toks);
    SumSame(FreqOf(ltree), LFreq(t, toks), L_CODES);
    SumSame(FreqOf(dtree), DFreq(t, toks), D_CODES);
    forall i | 0 <= i < L_CODES ensures ltree[i].fc <= |toks| + 1 {
      SumAt(FreqOf(ltree), L_CODES, i);
    }
    forall i | 0 <= i < D_CODES ensures dtree[i].fc <= |toks| {
      SumAt(FreqOf(dtree), D_CODES, i);
    }
  }

  /** A tree that `build_tree` makes from the frequencies `f`, with all its nodes. */
  ghost predicate TreeFrom(f: seq<nat>, elems: nat, freq': seq<nat>, forced: set<nat>, nodes: seq<nat>,
                           merges: seq<(nat, nat)>) {
    && Construction.Forced(f, elems, freq', forced) && |forced| <= 2 && elems <= |nodes|
    && (forall i :: 0 <= i < elems ==> nodes[i] == freq'[i])
    && Trees.IsHuffman(Construction.Used(freq', elems), elems, nodes, merges)
  }

  /** As many tokens as fit in the buffers make no frequency of any node in either tree exceed its 16 bits. */
  lemma NoWrap(t: Tables, toks: seq<Lz.Token>, ltree: seq<CtData>, dtree: seq<CtData>,
               blTree: seq<CtData>, freq': seq<nat>, forced: set<nat>, nodes: seq<nat>, merges: seq<(nat, nat)>, x: nat)
    requires Counted(t, toks, ltree, dtree, blTree) && |toks| < MAX_BUFSIZE
    ensures TreeFrom(FreqOf(ltree), L_CODES, freq', forced, nodes, merges) && x < L_CODES + |merges| ==>
      x < |nodes| && nodes[x] == Ush(nodes[x])
    ensures TreeFrom(FreqOf(dtree), D_CODES, freq', forced, nodes, merges) && x < D_CODES + |merges| ==>
      x < |nodes| && nodes[x] == Ush(nodes[x])
  {
    hide Sum, Trees.IsHuffman, Construction.Forced;
    CountsSmall(t, toks, ltree, dtree, blTree);
    if TreeFrom(FreqOf(ltree), L_CODES, freq', forced, nodes, merges) && x < L_CODES + |merges| {
      NodesSmall(FreqOf(ltree), L_CODES, freq', forced, nodes, merges, x);
    }
    if TreeFrom(FreqOf(dtree), D_CODES, freq', forced, nodes, merges) && x < D_CODES + |merges| {
      NodesSmall(FreqOf(dtree), D_CODES, freq', forced, nodes, merges, x);
    }
  }

  /** Nor do the lengths of both trees in the tree of the code lengths. */
  lemma NoWrapLengths(llens: seq<nat>, dlens: seq<nat>, f: seq<nat>, freq': seq<nat>,
                      forced: set<nat>, nodes: seq<nat>, merges: seq<(nat, nat)>, x: nat)
    requires |llens| <= L_CODES && |dlens| <= D_CODES && Small(llens) && Small(dlens) && BL_CODES <= |f|
    requires forall k :: 0 <= k < BL_CODES ==> f[k] == CountSym(AllRuns(llens) + AllRuns(dlens), k)
    requires TreeFrom(f, BL_CODES, freq', forced, nodes, merges) && x < BL_CODES + |merges|
    ensures x < |nodes| && nodes[x] == Ush(nodes[x])
  {
    hide Sum, Trees.IsHuffman, Construction.Forced, CountSym, AllRuns, Expand;
    var rs := AllRuns(llens) + AllRuns(dlens);
    TwoTreesRoundTrip(llens, dlens);
    ExpandGrows([], rs);
    RunFreqSum(rs);
    SumSame(f, RunFreq(rs), BL_CODES);
    NodesSmall(f, BL_CODES, freq', forced, nodes, merges, x);
  }

  /**
   Counts a token; `full` asks for the end of the block.  The buffers have room for
   `litBufsize` tokens.
  */
  method Tally(t: Tables, litBufsize: nat, dBuf: seq<nat>, lBuf: seq<nat>, dist: nat, lc: nat, ltree: array<CtData>,
               dtree: array<CtData>, ghost blTree: seq<CtData>)
    returns (dBuf': seq<nat>, lBuf': seq<nat>, full: bool)
    requires |lBuf| < litBufsize <= MAX_BUFSIZE
    requires t.Valid() && |dBuf| == |lBuf| && Lz.ValidToken(TokenOf(dist, lc)) && ltree != dtree
    requires Counted(t, Tokens(dBuf, lBuf), ltree[..], dtree[..], blTree)
    modifies ltree, dtree
    ensures |dBuf'| == |lBuf'| && Tokens(dBuf', lBuf') == Tokens(dBuf, lBuf) + [TokenOf(dist, lc)]
    ensures Counted(t, Tokens(dBuf', lBuf'), ltree[..], dtree[..], blTree)
    ensures full == (|lBuf'| == litBufsize - 1)
  {
    hide Tables.Valid, BaseLength, BaseDist, Counted, Tables.DCode;
    full := |lBuf| + 1 == litBufsize - 1;
    dBuf', lBuf' := dBuf + [dist], lBuf + [lc];
    assert dBuf'[..|dBuf|] == dBuf && lBuf'[..|lBuf|] == lBuf;
    ghost var toks, tok := Tokens(dBuf, lBuf), TokenOf(dist, lc);
    CountedSizes(t, toks, ltree[..], dtree[..], blTree);
    CountsSmall(t, toks, ltree[..], dtree[..], blTree);
    TokensSize(dBuf, lBuf);
    SymbolsSmall(t, tok);
    TableSizes(t);
    ghost var l0, d0 := ltree[..], dtree[..];
    if dist == 0 {
      LiteralCounted(t, toks, lc, l0, d0, blTree);
      ltree[lc] := CtData(Ush(ltree[lc].fc + 1), ltree[lc].dl);
      assert ltree[..] == More(l0, lc);
    } else {
      var s, d := t.lengthCode[lc] + LITERALS + 1, t.DCode(dist - 1);
      assert s == LSym(t, tok);
      MatchCounted(t, toks, lc + 3, dist, l0, d0, blTree);
      ltree[s] := CtData(Ush(ltree[s].fc + 1), ltree[s].dl);
      dtree[d] := CtData(Ush(dtree[d].fc + 1), dtree[d].dl);
      assert ltree[..] == More(l0, s) && dtree[..] == More(d0, d);
    }
  }

  lemma {:induction false} TokensSize(dBuf: seq<nat>, lBuf: seq<nat>)
    requires |dBuf| == |lBuf|
    ensures |Tokens(dBuf, lBuf)| == |dBuf|
  {
  }

  // ------------------------------------------------- a new block

  lemma {:induction false} NothingCounted(t: Tables)
    requires t.Valid()
    ensures |t.lengthCode| == 256 && |t.distCode| == 512 && AllValid([])
    ensures (forall i :: 0 <= i < L_CODES ==> LFreq(t, [])[i] == if i == END_BLOCK then 1 else 0)
    ensures forall i :: 0 <= i < D_CODES ==> DFreq(t, [])[i] == 0
  {
    TableSizes(t);
  }

  /** Begins a block: nothing is counted but its end. */
  method InitBlock(ltree: array<CtData>, dtree: array<CtData>, blTree: array<CtData>, ghost t: Tables)
    requires ltree != dtree && ltree != blTree && dtree != blTree && t.Valid()
    requires ltree.Length == L_NODES && dtree.Length == D_NODES && blTree.Length == 2 * BL_CODES + 1
    modifies ltree, dtree, blTree
    ensures Counted(t, [], ltree[..], dtree[..], blTree[..])
  {
    hide Tables.Valid, LFreq, DFreq;
    NothingCounted(t);
    for n := 0 to L_CODES
      invariant forall i :: 0 <= i < n ==> ltree[i].fc == 0
    {
      ltree[n] := CtData(0, ltree[n].dl);
    }
    for n := 0 to D_CODES
      invariant forall i :: 0 <= i < n ==> dtree[i].fc == 0
      invariant forall i :: 0 <= i < L_CODES ==> ltree[i].fc == 0
    {
      dtree[n] := CtData(0, dtree[n].dl);
    }
    for n := 0 to BL_CODES
      invariant forall i :: 0 <= i < n ==> blTree[i].fc == 0
      invariant (forall i :: 0 <= i < L_CODES ==> ltree[i].fc == 0) && forall i :: 0 <= i < D_CODES ==> dtree[i].fc == 0
    {
      blTree[n] := CtData(0, blTree[n].dl);
    }
    ltree[END_BLOCK] := CtData(1, ltree[END_BLOCK].dl);
  }

  // ------------------------------------------------- writing

  lemma AlignedPad(n: nat, z: nat)
    requires z < 8 && (n + z) % 8 == 0
    ensures Padding(n) == z
  {
  }

  /** The lengths and the bytes of a stored block, from a byte boundary on. */
  method SendRaw(w: Writer, buf: seq<Byte>)
    requires w.Valid() && w.biValid == 0 && |buf| < 0x10000
    modifies w
    ensures w.Valid()
    ensures w.Stream() == old(w.Stream()) + (BitsOf(|buf|, 16) + BitsOf(0xffff - |buf|, 16) + StreamOf(buf))
  {
    hide StreamOf, BitsOf, Pow2;
    Pow2Small();
    ghost var start := StreamOf(w.pending);
    assert BitsOf(w.biBuf, 0) == [];
    w.PutShort(|buf|);
    w.PutShort(0xffff - |buf|);
    StreamConcat(w.pending, buf);
    w.pending := w.pending + buf;
    assert StreamOf(w.pending) == start + (BitsOf(|buf|, 16) + BitsOf(0xffff - |buf|, 16) + StreamOf(buf));
  }

  /** Writes a stored block. */
  method SendStored(w: Writer, t: Tables, buf: seq<Byte>, last: bool)
    requires w.Valid() && t.Valid() && |buf| < 0x10000
    modifies w
    ensures w.Valid() && w.Stream() == old(w.Stream()) + BlockBits(t, StoredBlock(buf), last, |old(w.Stream())|)
  {
    hide Tables.Valid, StreamOf, BitsOf, Pow2, Writer.Valid, Writer.Stream;
    Pow2Small();
    ghost var start := w.Stream();
    w.SendBits(Bit(last), 3);
    w.BiWindup();
    ghost var z :| 0 <= z < 8 && w.Stream() == start + BitsOf(Bit(last), 3) + BitsOf(0, z);
    WholeBytes(w);
    AlignedPad(|start| + 3, z);
    SendRaw(w, buf);
  }

  lemma WholeBytes(w: Writer)
    requires w.biValid == 0
    ensures |w.Stream()| % 8 == 0
  {
  }

  /** Writes a block in the static codes. */
  method SendStatic(w: Writer, t: Tables, dBuf: seq<nat>, lBuf: seq<nat>, sltree: seq<CtData>, sdtree: seq<CtData>,
                    last: bool)
    requires w.Valid() && t.Valid() && |dBuf| == |lBuf| && TreeFor(sltree, FixedCodes().llens)
    requires TreeFor(sdtree, DistLens())
    requires BodyOk(t, FixedCodes(), Tokens(dBuf, lBuf))
    modifies w
    ensures w.Valid()
    ensures w.Stream() == old(w.Stream()) + BlockBits(t, StaticBlock(Tokens(dBuf, lBuf)), last, |old(w.Stream())|)
  {
    hide Tables.Valid, BitsOf, Writer.Stream, Writer.Valid, TreeFor, Codable, AllCodable, Encode, Pow2, FixedCodes,
         HasCode, DistLens, Tokens;
    hide Lz.AllFit, Lz.Expand, StreamOf, CodeBits;
    Pow2Small();
    SameBits(t, Tokens(dBuf, lBuf));
    ghost var start, body := w.Stream(), BodyBits(t, FixedCodes(), Tokens(dBuf, lBuf));
    w.SendBits(2 + Bit(last), 3);
    Compressing.CompressBlock(w, t, dBuf, lBuf, sltree, sdtree, FixedCodes().llens, DistLens());
    assert w.Stream() == start + (BitsOf(2 + Bit(last), 3) + body);
  }

  /** Writes a block in its own codes. */
  method SendDynamic(w: Writer, t: Tables, dBuf: seq<nat>, lBuf: seq<nat>, ltree: seq<CtData>, dtree: seq<CtData>,
                     blTree: seq<CtData>,
                     lmax: nat, dmax: nat, maxBlindex: nat, last: bool, ghost llens: seq<nat>, ghost dlens: seq<nat>,
                     ghost bllens: seq<nat>)
    requires w.Valid() && t.Valid() && |dBuf| == |lBuf| && |llens| == lmax + 1 && |dlens| == dmax + 1
    requires TreesReady(t, Tokens(dBuf, lBuf), ltree, dtree, blTree, llens, dlens, bllens, maxBlindex + 1)
    modifies w
    ensures w.Valid()
    ensures w.Stream()
         == old(w.Stream()) + BlockBits(t, DynamicBlock(Tokens(dBuf, lBuf), llens, dlens, bllens, maxBlindex + 1),
           last, |old(w.Stream())|)
  {
    hide Tables.Valid, BitsOf, Writer.Stream, Writer.Valid, TreeFor, Codable, Encode, Pow2, HasCode, HeaderBits,
         HeaderOk, LenAt, Accepted, BlOrder;
    Pow2Small();
    w.SendBits(4 + Bit(last), 3);
    SendAllTrees.SendAllTrees(w, lmax + 1, dmax + 1, maxBlindex + 1, ltree, dtree, blTree, llens, dlens, bllens);
    Compressing.CompressBlock(w, t, dBuf, lBuf, ltree, dtree, llens, dlens);
  }

  /**
   Writes the tokens of a block, or the bytes they stand for, in one of the three forms.
   `stored` tells whether those bytes are still at hand, and `fixed` whether the static
   codes are asked for.
   */
  method FlushBlock(w: Writer, t: Tables, dBuf: seq<nat>, lBuf: seq<nat>, ltree: array<CtData>, dtree: array<CtData>,
                    blTree: array<CtData>,
                    sltree: seq<CtData>, sdtree: seq<CtData>, buf: seq<Byte>, stored: bool, fixed: bool, last: bool)
    returns (ghost b: Block, ghost dynamic: Block)
    requires w.Valid() && t.Valid() && |dBuf| == |lBuf| && (stored ==> |buf| < 0x10000)
    requires ltree != dtree && ltree != blTree && dtree != blTree
    requires Counted(t, Tokens(dBuf, lBuf), ltree[..], dtree[..], blTree[..])
    requires TreeFor(sltree, FixedCodes().llens) && TreeFor(sdtree, DistLens())
    modifies w, ltree, dtree, blTree
    ensures w.Valid() && BlockOk(t, b) && BlockOk(t, dynamic) && BlockOk(t, StaticBlock(Tokens(dBuf, lBuf)))
    ensures dynamic.DynamicBlock? && dynamic.toks == Tokens(dBuf, lBuf)
    ensures if b.StoredBlock? then stored && b.bytes == buf else b.toks == Tokens(dBuf, lBuf)
    ensures exists z :: 0 <= z < 8 && (!last ==> z == 0)
              && w.Stream() == old(w.Stream()) + BlockBits(t, b, last, |old(w.Stream())|) + BitsOf(0, z)
    ensures last ==> w.biValid == 0
    ensures Counted(t, [], ltree[..], dtree[..], blTree[..])
    ensures Chosen(t, b, Tokens(dBuf, lBuf), dynamic, buf, stored, fixed)
    ensures Near(t, b, Tokens(dBuf, lBuf), dynamic, buf, stored, fixed, last, |old(w.Stream())|)
    ensures |t.lengthCode| == 256 && AllValid(dynamic.toks) && Lean(LFreq(t, dynamic.toks), dynamic.llens)
    ensures WellMade(t, dynamic.toks, dynamic.llens, dynamic.dlens, dynamic.bllens, dynamic.blcodes)
  {
    hide Tables.Valid, BitsOf, Writer.Stream, Writer.Valid, TreeFor, BlockBits, BlockOk, Counted, BodyOk, FixedCodes,
      Near;
    hide WellMade, Lean, LFreq, AllValid, Bytes;
    ghost var start, toks := w.Stream(), Tokens(dBuf, lBuf);
    var lmax, dmax, maxBlindex, optLen, staticLen;
    ghost var llens, dlens, bllens;
    assert ltree.Length == L_NODES && dtree.Length == D_NODES && blTree.Length == 2 * BL_CODES + 1 by {
      CountedSizes(t, toks, ltree[..], dtree[..], blTree[..]);
    }
    lmax, dmax, maxBlindex, optLen, staticLen, llens, dlens, bllens := BuildTrees(t, ltree, dtree, blTree, toks);
    dynamic := DynamicBlock(toks, llens, dlens, bllens, maxBlindex + 1);
    StaticOk(t, toks);
    var optLenb, staticLenb := Bytes(optLen + 3), Bytes(staticLen + 3);
    if staticLenb <= optLenb {
      optLenb := staticLenb;
    }
    if |buf| + 4 <= optLenb && stored {
      b := StoredBlock(buf);
      StoredOk(t, buf);
      SendStored(w, t, buf, last);
    } else if fixed || staticLenb == optLenb {
      b := StaticBlock(toks);
      SendStatic(w, t, dBuf, lBuf, sltree, sdtree, last);
    } else {
      b := dynamic;
      SendDynamic(w, t, dBuf, lBuf, ltree[..], dtree[..], blTree[..], lmax, dmax, maxBlindex, last, llens, dlens,
                  bllens);
    }
    ChosenNear(t, b, toks, dynamic, buf, stored, fixed, last, |start|);
    ghost var bits := BlockBits(t, b, last, |start|);
    assert w.Stream() == start + bits;
    assert start + bits + BitsOf(0, 0) == start + bits;
    InitBlock(ltree, dtree, blTree, t);
    if last {
      w.BiWindup();
    }
  }

  lemma StaticOk(t: Tables, toks: seq<Lz.Token>)
    requires t.Valid() && BodyOk(t, FixedCodes(), toks)
    ensures BlockOk(t, StaticBlock(toks))
  {
  }

  lemma StoredOk(t: Tables, buf: seq<Byte>)
    requires t.Valid() && |buf| < 0x10000
    ensures BlockOk(t, StoredBlock(buf))
  {
  }
}
