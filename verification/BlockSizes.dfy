/**
 The sizes that `_tr_flush_block` of src/zlib/trees.c compares are exact: frequencies
 counted by `_tr_tally` and `scan_tree`, times lengths and extra bits, are the bits sent.
 */
module BlockSizes {
  import opened Bits
  import opened Canonical
  import opened StaticCodes
  import opened RunLength
  import opened CompressBlock
  import opened SendTree
  import opened SendAllTrees
  import opened HuffmanCodes
  import opened Lz77

  const L_CODES := 286

  /** One more of symbol `s`. */
  function Bumped(f: seq<nat>, s: nat): (g: seq<nat>)
    ensures |g| == |f|
  {
    if s < |f| then f[s := f[s] + 1] else f
  }

  lemma {:induction false} BillBumped(f: seq<nat>, l: seq<nat>, n: nat, s: nat)
    requires s < |f| && n <= |f| && n <= |l|
    ensures Bill(Bumped(f, s), l, n) == Bill(f, l, n) + if s < n then l[s] else 0
  {
    if n > 0 {
      BillBumped(f, l, n - 1, s);
      if s == n - 1 {
        assert (f[s] + 1) * l[s] == f[s] * l[s] + l[s];
      }
    }
  }

  lemma {:induction false} BillZero(f: seq<nat>, l: seq<nat>, n: nat)
    requires n <= |f| && n <= |l| && forall i :: 0 <= i < n ==> f[i] == 0
    ensures Bill(f, l, n) == 0
  {
    if n > 0 {
      BillZero(f, l, n - 1);
      assert f[n - 1] * l[n - 1] == 0;
    }
  }

  /** The literal/length symbol of a token. */
  function LSym(t: Tables, tok: Token): nat
    requires |t.lengthCode| == 256 && ValidToken(tok)
  {
    match tok
    case Literal(b) => b
    case Match(len, _) => t.lengthCode[len - 3] + LITERALS + 1
  }

  /** The frequencies of a new block: only its end is certain. */
  function NoTokens(): (f: seq<nat>)
    ensures |f| == L_CODES && forall i :: 0 <= i < L_CODES ==> f[i] == if i == END_BLOCK then 1 else 0
  {
    seq(L_CODES, i => if i == END_BLOCK then 1 else 0)
  }

  ghost predicate AllValid(toks: seq<Token>) {
    forall i :: 0 <= i < |toks| ==> ValidToken(toks[i])
  }

  /** How often each literal/length symbol occurs in a block of tokens. */
  function LFreq(t: Tables, toks: seq<Token>): (f: seq<nat>)
    requires |t.lengthCode| == 256 && AllValid(toks)
    ensures |f| == L_CODES
  {
    if toks == [] then NoTokens() else Bumped(LFreq(t, toks[..|toks| - 1]), LSym(t, toks[|toks| - 1]))
  }

  /** How often each distance symbol occurs. */
  function DFreq(t: Tables, toks: seq<Token>): (f: seq<nat>)
    requires |t.distCode| == 512 && AllValid(toks)
    ensures |f| == D_CODES
  {
    if toks == [] then seq(D_CODES, _ => 0)
    else
      var f := DFreq(t, toks[..|toks| - 1]);
      match toks[|toks| - 1]
      case Literal(_) => f
      case Match(_, dist) => Bumped(f, t.DCode(dist - 1))
  }

  // frequencies add up to the number of tokens

  lemma {:induction false} SumBumped(f: seq<nat>, s: nat, n: nat)
    requires n <= |f|
    ensures Sum(Bumped(f, s), n) == Sum(f, n) + if s < n then 1 else 0
  {
    if n > 0 {
      SumBumped(f, s, n - 1);
    }
  }

  lemma {:induction false} SumAt(f: seq<nat>, n: nat, i: nat)
    requires i < n <= |f|
    ensures f[i] <= Sum(f, n)
  {
    if i < n - 1 {
      SumAt(f, n - 1, i);
    }
  }

  lemma {:induction false} SumSame(f: seq<nat>, g: seq<nat>, n: nat)
    requires n <= |f| && n <= |g| && forall i :: 0 <= i < n ==> f[i] == g[i]
    ensures Sum(f, n) == Sum(g, n)
  {
    if n > 0 {
      SumSame(f, g, n - 1);
    }
  }

  lemma {:induction false} SumZero(f: seq<nat>, n: nat)
    requires n <= |f| && forall i :: 0 <= i < n ==> f[i] == 0
    ensures Sum(f, n) == 0
  {
    if n > 0 {
      SumZero(f, n - 1);
    }
  }

  /** Each token counts once, and so does the end of the block. */
  lemma {:induction false} LFreqSum(t: Tables, toks: seq<Token>)
    requires |t.lengthCode| == 256 && AllValid(toks)
    ensures Sum(LFreq(t, toks), L_CODES) <= |toks| + 1
    decreases |toks|
  {
    hide LSym, Bumped, Sum;
    if toks == [] {
      var zeros := seq(L_CODES, _ => 0);
      SumZero(zeros, L_CODES);
      SumBumped(zeros, END_BLOCK, L_CODES);
      assert Bumped(zeros, END_BLOCK) == NoTokens() by { BumpedNone(zeros); }
    } else {
      var most := toks[..|toks| - 1];
      LFreqSum(t, most);
      SumBumped(LFreq(t, most), LSym(t, toks[|toks| - 1]), L_CODES);
    }
  }

  lemma BumpedNone(zeros: seq<nat>)
    requires |zeros| == L_CODES && forall i :: 0 <= i < L_CODES ==> zeros[i] == 0
    ensures Bumped(zeros, END_BLOCK) == NoTokens()
  {
  }

  lemma {:induction false} DFreqSum(t: Tables, toks: seq<Token>)
    requires |t.distCode| == 512 && AllValid(toks)
    ensures Sum(DFreq(t, toks), D_CODES) <= |toks|
    decreases |toks|
  {
    hide Bumped, Sum;
    if toks == [] {
      SumZero(DFreq(t, toks), D_CODES);
    } else {
      var most := toks[..|toks| - 1];
      DFreqSum(t, most);
      match toks[|toks| - 1]
      case Literal(_) =>
      case Match(_, dist) => SumBumped(DFreq(t, most), t.DCode(dist - 1), D_CODES);
    }
  }

  /** The extra bits of literal/length symbols. */
  function LExtra(s: nat): nat {
    if s < LITERALS + 1 then 0 else ExtraLBits(s - LITERALS - 1)
  }

  /** `l` gives the code lengths and the extra bits of the symbols that `lens` has lengths for. */
  ghost predicate PricesL(l: seq<nat>, llens: seq<nat>) {
    |l| >= L_CODES && forall s :: 0 <= s < |llens| && s < L_CODES ==> l[s] == llens[s] + LExtra(s)
  }

  ghost predicate PricesD(l: seq<nat>, dlens: seq<nat>) {
    |l| >= D_CODES && forall s :: 0 <= s < |dlens| && s < D_CODES ==> l[s] == dlens[s] + ExtraDBits(s)
  }

  lemma LengthBitsSize(t: Tables, llens: seq<nat>, len: nat)
    requires t.Valid() && 3 <= len <= 258 && HasCode(llens, t.lengthCode[len - 3] + LITERALS + 1)
    ensures var s := t.lengthCode[len - 3] + LITERALS + 1;
      s < L_CODES && |LengthBits(t, llens, len)| == llens[s] + LExtra(s)
  {
    hide Tables.Valid, BitsOf, ExtraLBits, BaseLength, Huff;
    TableSizes(t);
    ExtraLengthFits(t, len - 3);
    assert |CodeBits(llens, t.lengthCode[len - 3] + LITERALS + 1)| == llens[t.lengthCode[len - 3] + LITERALS + 1];
  }

  lemma DistBitsSize(t: Tables, dlens: seq<nat>, dist: nat)
    requires t.Valid() && 1 <= dist <= 32768 && HasCode(dlens, t.DCode(dist - 1))
    ensures var s := t.DCode(dist - 1); s < D_CODES && |DistBits(t, dlens, dist)| == dlens[s] + ExtraDBits(s)
  {
    hide BitsOf, ExtraDBits, BaseDist, Huff;
    ExtraDistFits(t, dist - 1);
  }

  /** The price of a token is what its bits take. */
  lemma TokenSize(t: Tables, llens: seq<nat>, dlens: seq<nat>, l: seq<nat>, d: seq<nat>, tok: Token)
    requires t.Valid() && PricesL(l, llens) && PricesD(d, dlens) && Codable(t, llens, dlens, tok)
    ensures LSym(t, tok) < L_CODES && (tok.Match? ==> t.DCode(tok.dist - 1) < D_CODES)
    ensures |EncodeToken(t, llens, dlens, tok)| == l[LSym(t, tok)] + if tok.Match? then d[t.DCode(tok.dist - 1)] else 0
  {
    hide Tables.Valid, LengthBits, DistBits, ExtraLBits, ExtraDBits, Huff;
    match tok
    case Literal(b) =>
    case Match(len, dist) =>
      LengthBitsSize(t, llens, len);
      DistBitsSize(t, dlens, dist);
  }

  /** The bits of a block's tokens, computed from the frequencies. */
  lemma {:induction false} BlockSize(t: Tables, llens: seq<nat>, dlens: seq<nat>, l: seq<nat>, d: seq<nat>,
                                     toks: seq<Token>)
    requires t.Valid() && PricesL(l, llens) && PricesD(d, dlens) && AllCodable(t, llens, dlens, toks)
    requires HasCode(llens, END_BLOCK)
    requires |t.lengthCode| == 256 && |t.distCode| == 512 && AllValid(toks)
    ensures |Encode(t, llens, dlens, toks) + CodeBits(llens, END_BLOCK)|
         == Bill(LFreq(t, toks), l, L_CODES) + Bill(DFreq(t, toks), d, D_CODES)
    decreases |toks|
  {
    hide Tables.Valid, Codable, EncodeToken, PricesL, PricesD, Bill, Huff, LSym;
    PriceSizes(l, llens, d, dlens);
    if toks == [] {
      EmptyBlock(llens, l);
      BillZero(DFreq(t, toks), d, D_CODES);
    } else {
      var most, tok := toks[..|toks| - 1], toks[|toks| - 1];
      assert Codable(t, llens, dlens, tok) && ValidToken(tok);
      BlockSize(t, llens, dlens, l, d, most);
      TokenSize(t, llens, dlens, l, d, tok);
      BillBumped(LFreq(t, most), l, L_CODES, LSym(t, tok));
      if tok.Match? {
        assert t.DCode(tok.dist - 1) < D_CODES;
        BillBumped(DFreq(t, most), d, D_CODES, t.DCode(tok.dist - 1));
      }
    }
  }

  lemma PriceSizes(l: seq<nat>, llens: seq<nat>, d: seq<nat>, dlens: seq<nat>)
    requires PricesL(l, llens) && PricesD(d, dlens)
    ensures |l| >= L_CODES && |d| >= D_CODES
  {
  }

  lemma {:induction false} EmptyBlock(llens: seq<nat>, l: seq<nat>)
    requires PricesL(l, llens) && HasCode(llens, END_BLOCK)
    ensures Bill(NoTokens(), l, L_CODES) == llens[END_BLOCK]
  {
    hide Bill;
    var zeros := seq(L_CODES, _ => 0);
    BillZero(zeros, l, L_CODES);
    BillBumped(zeros, l, L_CODES, END_BLOCK);
    assert Bumped(zeros, END_BLOCK) == NoTokens();
  }

  // ------------------------------------------------- headers

  /** How often each symbol of the code-length alphabet occurs. */
  function RunFreq(rs: seq<Run>): (f: seq<nat>)
    ensures |f| == BL_CODES && forall k :: 0 <= k < BL_CODES ==> f[k] == CountSym(rs, k)
  {
    seq(BL_CODES, k requires 0 <= k => CountSym(rs, k))
  }

  lemma RunFreqSnoc(rs: seq<Run>)
    requires rs != [] && rs[|rs| - 1].sym < BL_CODES
    ensures RunFreq(rs) == Bumped(RunFreq(rs[..|rs| - 1]), rs[|rs| - 1].sym)
  {
  }

  lemma {:induction false} RunFreqSum(rs: seq<Run>)
    ensures Sum(RunFreq(rs), BL_CODES) <= |rs|
    decreases |rs|
  {
    hide CountSym, Sum;
    if rs == [] {
      NoRuns();
      SumZero(RunFreq(rs), BL_CODES);
    } else {
      var most, s := rs[..|rs| - 1], rs[|rs| - 1].sym;
      RunFreqSum(most);
      SumBumped(RunFreq(most), s, BL_CODES);
      assert RunFreq(rs) == Bumped(RunFreq(most), s) by { RunFreqNext(rs); }
    }
  }

  lemma RunFreqNext(rs: seq<Run>)
    requires rs != []
    ensures RunFreq(rs) == Bumped(RunFreq(rs[..|rs| - 1]), rs[|rs| - 1].sym)
  {
  }

  /** The bits of run-length symbols, computed from their frequencies. */
  lemma {:induction false} RunsSize(bllens: seq<nat>, l: seq<nat>, rs: seq<Run>)
    requires |bllens| == BL_CODES && RunsCodable(bllens, rs) && |l| >= BL_CODES
    requires forall k :: 0 <= k < BL_CODES ==> l[k] == bllens[k] + ExtraBlBits(k)
    ensures |RunBits(bllens, rs)| == Bill(RunFreq(rs), l, BL_CODES)
    decreases |rs|
  {
    hide Bill, ExtraBlBits, Huff, CountSym;
    if rs == [] {
      assert forall k :: 0 <= k < BL_CODES ==> RunFreq(rs)[k] == 0 by { NoRuns(); }
      BillZero(RunFreq(rs), l, BL_CODES);
    } else {
      var most, r := rs[..|rs| - 1], rs[|rs| - 1];
      RunsSize(bllens, l, most);
      RunFreqSnoc(rs);
      BillBumped(RunFreq(most), l, BL_CODES, r.sym);
    }
  }

  lemma NoRuns()
    ensures forall k :: CountSym([], k) == 0
  {
  }

  lemma {:induction false} OrderSize(bllens: seq<nat>, n: nat)
    requires |bllens| == BL_CODES
    ensures |OrderBits(bllens, n)| == 3 * n
  {
    hide BlOrder, BitsOf;
    if n > 0 {
      OrderSize(bllens, n - 1);
    }
  }

  /** The bits of a header. */
  lemma {:induction false} HeaderSize(llens: seq<nat>, dlens: seq<nat>, bllens: seq<nat>, blcodes: nat, l: seq<nat>)
    requires HeaderOk(llens, dlens, bllens, blcodes) && |l| >= BL_CODES
    requires forall k :: 0 <= k < BL_CODES ==> l[k] == bllens[k] + ExtraBlBits(k)
    ensures |HeaderBits(llens, dlens, bllens, blcodes)|
         == 5 + 5 + 4 + 3 * blcodes + Bill(RunFreq(AllRuns(llens) + AllRuns(dlens)), l, BL_CODES)
  {
    hide Bill, ExtraBlBits, AllRuns, RunBits, OrderBits, BitsOf;
    OrderSize(bllens, blcodes);
    RunsSize(bllens, l, AllRuns(llens) + AllRuns(dlens));
  }
}
