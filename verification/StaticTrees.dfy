/**
 The static trees made by `tr_static_init` (src/zlib/trees.c), and their agreement with the fixed codes of the decoder.
*/
module StaticTrees {
  import opened Bits
  import opened Canonical
  import opened StaticCodes
  import opened CompressBlock
  import opened InflateSpec
  import opened InflateTheory
  import opened Coding = GenCodes
  import Lz = Lz77

  /** The lengths of the static distance tree. */
  function DistLens(): (d: seq<nat>)
    ensures |d| == D_CODES && forall i :: 0 <= i < D_CODES ==> d[i] == 5
  {
    seq(D_CODES, _ => 5)
  }

  lemma {:induction false} CountFives(d: seq<nat>, b: nat)
    requires forall i :: 0 <= i < |d| ==> d[i] == 5
    ensures Count(d, b) == if b == 5 then |d| else 0
  {
    if d != [] {
      CountFives(d[..|d| - 1], b);
    }
  }

  /** With five bits for every symbol the code of a symbol is its number. */
  lemma FivesCode(d: seq<nat>, s: nat)
    requires s < |d| && forall i :: 0 <= i < |d| ==> d[i] == 5
    ensures CodeOf(d, s) == s
  {
    hide FirstCode, Count;
    forall b | 1 <= b < 5 ensures Count(d, b) == 0 {
      CountFives(d, b);
    }
    NoneBelow(d, 5);
    CountFives(d[..s], 5);
  }

  lemma FivesFit(d: seq<nat>)
    requires |d| <= 32 && forall i :: 0 <= i < |d| ==> d[i] == 5
    ensures ValidLens(d) && NotOver(d)
  {
    hide FirstCode, Count;
    forall b: nat ensures Count(d, b) == if b == 5 then |d| else 0 {
      CountFives(d, b);
    }
    NoneBelow(d, 5);
    Pow2Small();
    forall b | 1 <= b <= MAX_BITS ensures EndCode(d, b) <= Pow2(b) {
      if b >= 5 {
        EndCodeGap(d, 5, b);
        ShlMono(EndCode(d, 5), Pow2(5), b - 5);
        Pow2Shl(5, b - 5);
        assert 5 + (b - 5) == b;
      }
    }
  }

  /** The decoder has two more distance symbols, which changes no code. */
  lemma SameDistBits(s: nat)
    requires s < D_CODES
    ensures |FixedCodes().dlens| == 32 && CodeBits(DistLens(), s) == CodeBits(FixedCodes().dlens, s)
  {
    hide CodeOf, Rev, BitsOf;
    FivesCode(DistLens(), s);
    FivesCode(FixedCodes().dlens, s);
  }

  lemma DistCodeBound(t: Tables, dist: nat)
    requires t.Valid() && 1 <= dist <= 32768
    ensures |t.distCode| == 512 && t.DCode(dist - 1) < D_CODES
  {
    ExtraDistFits(t, dist - 1);
  }

  /** What the encoder writes with its static trees is what the fixed codes of the decoder stand for. */
  lemma SameTokenBits(t: Tables, tok: Lz.Token)
    requires t.Valid() && Codable(t, FixedCodes().llens, FixedCodes().dlens, tok)
    ensures Codable(t, FixedCodes().llens, DistLens(), tok)
    ensures EncodeToken(t, FixedCodes().llens, DistLens(), tok)
         == EncodeToken(t, FixedCodes().llens, FixedCodes().dlens, tok)
  {
    hide Tables.Valid, CodeBits, LengthBits, FixedCodes, Tables.DCode, BitsOf;
    if tok.Match? {
      DistCodeBound(t, tok.dist);
      SameDistBits(t.DCode(tok.dist - 1));
    }
  }

  lemma {:induction false} SameBits(t: Tables, toks: seq<Lz.Token>)
    requires t.Valid() && AllCodable(t, FixedCodes().llens, FixedCodes().dlens, toks)
    ensures AllCodable(t, FixedCodes().llens, DistLens(), toks)
    ensures Encode(t, FixedCodes().llens, DistLens(), toks) == Encode(t, FixedCodes().llens, FixedCodes().dlens, toks)
    decreases |toks|
  {
    hide Tables.Valid, Codable, EncodeToken, FixedCodes;
    forall i | 0 <= i < |toks| ensures Codable(t, FixedCodes().llens, DistLens(), toks[i]) {
      SameTokenBits(t, toks[i]);
    }
    if toks != [] {
      SameBits(t, toks[..|toks| - 1]);
      SameTokenBits(t, toks[|toks| - 1]);
    }
  }

  // ------------------------------------------------- making the trees

  /** The lengths and counts of the static literal tree. */
  method StaticLengths(tree: array<CtData>) returns (blCount: seq<nat>)
    requires tree.Length == 288
    modifies tree
    ensures forall i :: 0 <= i < 288 ==> tree[i].dl == FixedLen(i)
    ensures |blCount| == MAX_BITS + 1
    ensures forall b :: 0 <= b <= MAX_BITS ==>
      blCount[b] == if b == 7 then 24 else if b == 8 then 152 else if b == 9 then 112 else 0
  {
    blCount := seq(MAX_BITS + 1, _ => 0);
    var n := 0;
    while n <= 143
      invariant 0 <= n <= 144 && |blCount| == MAX_BITS + 1 && forall i :: 0 <= i < n ==> tree[i].dl == FixedLen(i)
      invariant forall b :: 0 <= b <= MAX_BITS ==> blCount[b] == if b == 8 then n else 0
    {
      tree[n] := CtData(0, 8);
      n, blCount := n + 1, blCount[8 := blCount[8] + 1];
    }
    while n <= 255
      invariant 144 <= n <= 256 && |blCount| == MAX_BITS + 1 && forall i :: 0 <= i < n ==> tree[i].dl == FixedLen(i)
      invariant forall b :: 0 <= b <= MAX_BITS ==> blCount[b] == if b == 8 then 144 else if b == 9 then n - 144 else 0
    {
      tree[n] := CtData(0, 9);
      n, blCount := n + 1, blCount[9 := blCount[9] + 1];
    }
    while n <= 279
      invariant 256 <= n <= 280 && |blCount| == MAX_BITS + 1 && forall i :: 0 <= i < n ==> tree[i].dl == FixedLen(i)
      invariant forall b :: 0 <= b <= MAX_BITS ==>
        blCount[b] == if b == 8 then 144 else if b == 9 then 112 else if b == 7 then n - 256 else 0
    {
      tree[n] := CtData(0, 7);
      n, blCount := n + 1, blCount[7 := blCount[7] + 1];
    }
    while n <= 287
      invariant 280 <= n <= 288 && |blCount| == MAX_BITS + 1 && forall i :: 0 <= i < n ==> tree[i].dl == FixedLen(i)
      invariant forall b :: 0 <= b <= MAX_BITS ==>
        blCount[b] == if b == 8 then n - 136 else if b == 9 then 112 else if b == 7 then 24 else 0
    {
      tree[n] := CtData(0, 8);
      n, blCount := n + 1, blCount[8 := blCount[8] + 1];
    }
  }

  /** Builds both static trees. */
  method StaticTrees() returns (ltree: seq<CtData>, dtree: seq<CtData>)
    ensures TreeFor(ltree, FixedCodes().llens) && TreeFor(dtree, DistLens())
  {
    hide Huff, Count, NotOver, Complete;
    var tree := new CtData[288](_ => CtData(0, 0));
    var blCount := StaticLengths(tree);
    ghost var lens := FixedCodes().llens;
    assert LensOf(tree[..], 288) == lens;
    FixedCounts();
    FixedFit();
    Coding.GenCodes(tree, 288, blCount);
    ltree := tree[..];
    assert LensOf(tree[..], 288) == lens;
    FivesFit(DistLens());
    dtree := [];
    for n := 0 to D_CODES
      invariant |dtree| == n && forall s :: 0 <= s < n ==> dtree[s].dl == 5 && dtree[s].fc == Huff(DistLens(), s)
    {
      var code := BiReverse(n, 5);
      FivesHuff(n);
      dtree := dtree + [CtData(code, 5)];
    }
  }

  lemma FixedFit()
    ensures ValidLens(FixedCodes().llens) && NotOver(FixedCodes().llens)
  {
    hide EndCode;
    FixedComplete();
  }

  lemma {:induction false} FivesHuff(s: nat)
    requires s < D_CODES
    ensures Huff(DistLens(), s) == Rev(s, 5)
  {
    hide CodeOf, Rev;
    FivesCode(DistLens(), s);
  }
}
