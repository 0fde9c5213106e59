/**
 Writing a block of tokens with a pair of Huffman codes: `compress_block` of
 src/zlib/trees.c, with `send_code` and the token buffers `d_buf` and `l_buf`.
 */
module CompressBlock {
  import opened Bits
  import opened Canonical
  import opened GenCodes
  import opened StaticCodes
  import opened BitWriter
  import opened Lz77

  const END_BLOCK := 256
  const LITERALS := 256

  /** The token in one slot of the buffers. */
  function TokenOf(d: nat, lc: nat): Token {
    if d == 0 then Literal(lc) else Match(lc + 3, d)
  }

  function Tokens(dBuf: seq<nat>, lBuf: seq<nat>): (ts: seq<Token>)
    requires |dBuf| == |lBuf|
    ensures |ts| == |dBuf|
  {
    if dBuf == [] then []
    else Tokens(dBuf[..|dBuf| - 1], lBuf[..|lBuf| - 1]) + [TokenOf(dBuf[|dBuf| - 1], lBuf[|lBuf| - 1])]
  }

  /** A tree carries the lengths `lens` and their canonical codes. */
  ghost predicate TreeFor(tree: seq<CtData>, lens: seq<nat>) {
    && |lens| <= |tree| && ValidLens(lens) && NotOver(lens)
    && forall s :: 0 <= s < |lens| ==> tree[s].dl == lens[s] && (lens[s] > 0 ==> tree[s].fc == Huff(lens, s))
  }

  /** The code of symbol `s` in the bit stream. */
  function CodeBits(lens: seq<nat>, s: nat): seq<bool>
    requires s < |lens|
  {
    BitsOf(Huff(lens, s), lens[s])
  }

  ghost predicate HasCode(lens: seq<nat>, s: nat) {
    s < |lens| && lens[s] > 0
  }

  ghost predicate LengthCoded(t: Tables, llens: seq<nat>, len: nat)
    requires t.Valid()
  {
    3 <= len <= 258 && HasCode(llens, t.lengthCode[len - 3] + LITERALS + 1)
  }

  ghost predicate DistCoded(t: Tables, dlens: seq<nat>, dist: nat)
    requires t.Valid()
  {
    1 <= dist <= 32768 && HasCode(dlens, t.DCode(dist - 1))
  }

  /** The codes have a word for every symbol of the token. */
  ghost predicate Codable(t: Tables, llens: seq<nat>, dlens: seq<nat>, tok: Token)
    requires t.Valid()
  {
    ValidToken(tok) &&
    match tok
    case Literal(b) => HasCode(llens, b)
    case Match(len, dist) => LengthCoded(t, llens, len) && DistCoded(t, dlens, dist)
  }

  /** The bits of a match length: its code and the extra bits. */
  ghost function LengthBits(t: Tables, llens: seq<nat>, len: nat): seq<bool>
    requires t.Valid() && LengthCoded(t, llens, len)
  {
    var c := t.lengthCode[len - 3];
    CodeBits(llens, c + LITERALS + 1) + if ExtraLBits(c) == 0 then []
      else BitsOf(len - 3 - BaseLength(c), ExtraLBits(c))
  }

  ghost function DistBits(t: Tables, dlens: seq<nat>, dist: nat): seq<bool>
    requires t.Valid() && DistCoded(t, dlens, dist)
  {
    var c := t.DCode(dist - 1);
    CodeBits(dlens, c) + if ExtraDBits(c) == 0 then [] else BitsOf(dist - 1 - BaseDist(c), ExtraDBits(c))
  }

  ghost function EncodeToken(t: Tables, llens: seq<nat>, dlens: seq<nat>, tok: Token): seq<bool>
    requires t.Valid() && Codable(t, llens, dlens, tok)
  {
    match tok
    case Literal(b) => CodeBits(llens, b)
    case Match(len, dist) => LengthBits(t, llens, len) + DistBits(t, dlens, dist)
  }

  ghost predicate AllCodable(t: Tables, llens: seq<nat>, dlens: seq<nat>, toks: seq<Token>)
    requires t.Valid()
  {
    forall i :: 0 <= i < |toks| ==> Codable(t, llens, dlens, toks[i])
  }

  ghost function Encode(t: Tables, llens: seq<nat>, dlens: seq<nat>, toks: seq<Token>): seq<bool>
    requires t.Valid() && AllCodable(t, llens, dlens, toks)
  {
    if toks == [] then []
    else Encode(t, llens, dlens, toks[..|toks| - 1]) + EncodeToken(t, llens, dlens, toks[|toks| - 1])
  }

  method SendCode(w: Writer, c: nat, tree: seq<CtData>, ghost lens: seq<nat>)
    requires w.Valid() && TreeFor(tree, lens) && HasCode(lens, c)
    modifies w
    ensures w.Valid() && w.Stream() == old(w.Stream()) + CodeBits(lens, c)
  {
    CodeFits(lens, c);
    w.SendBits(tree[c].fc, tree[c].dl);
  }

  lemma ExtraLengthFits(t: Tables, lc: nat)
    requires t.Valid() && lc <= 255
    ensures t.lengthCode[lc] < LENGTH_CODES && ExtraLBits(t.lengthCode[lc]) <= 5
    ensures ExtraLBits(t.lengthCode[lc]) > 0 ==>
      BaseLength(t.lengthCode[lc]) <= lc && lc - BaseLength(t.lengthCode[lc]) < Pow2(ExtraLBits(t.lengthCode[lc]))
        && t.lengthCode[lc] < 28
  {
    hide BaseLength, ExtraLBits, Pow2, IsDistCode;
    assert IsLengthCode(lc, t.lengthCode[lc]);
    LengthTablesAgree(t.lengthCode[lc]);
    BaseLengthStep(t.lengthCode[lc]);
    LongestCode();
  }

  lemma LongestCode()
    ensures ExtraLBits(28) == 0
  {
  }

  lemma ExtraDistFits(t: Tables, d: nat)
    requires t.Valid() && d < 32768
    ensures t.DCode(d) < D_CODES && ExtraDBits(t.DCode(d)) <= 13
    ensures BaseDist(t.DCode(d)) <= d && d - BaseDist(t.DCode(d)) < Pow2(ExtraDBits(t.DCode(d)))
  {
    assert IsDistCode(d, t.DCode(d));
    DistExtraAgrees(t.DCode(d));
  }

  method SendLength(w: Writer, t: Tables, lc: nat, ltree: seq<CtData>, ghost llens: seq<nat>)
    requires w.Valid() && t.Valid() && TreeFor(ltree, llens)
    requires lc <= 255 && HasCode(llens, t.lengthCode[lc] + LITERALS + 1)
    modifies w
    ensures w.Valid() && w.Stream() == old(w.Stream()) + LengthBits(t, llens, lc + 3)
  {
    hide Pow2, BaseLength, ExtraLBits, BitsOf;
    var code := t.lengthCode[lc];
    ExtraLengthFits(t, lc);
    SendCode(w, code + LITERALS + 1, ltree, llens);
    var extra := ExtraLBits(code);
    if extra != 0 {
      w.SendBits(lc - t.baseLength[code], extra);
    }
  }

  method SendDist(w: Writer, t: Tables, d: nat, dtree: seq<CtData>, ghost dlens: seq<nat>)
    requires w.Valid() && t.Valid() && TreeFor(dtree, dlens)
    requires d < 32768 && HasCode(dlens, t.DCode(d))
    modifies w
    ensures w.Valid() && w.Stream() == old(w.Stream()) + DistBits(t, dlens, d + 1)
  {
    hide Pow2, BaseDist, ExtraDBits, BitsOf;
    var code := t.DCode(d);
    ExtraDistFits(t, d);
    SendCode(w, code, dtree, dlens);
    var extra := ExtraDBits(code);
    if extra != 0 {
      w.SendBits(d - t.baseDist[code], extra);
    }
  }

  method SendToken(w: Writer, t: Tables, dist: nat, lc: nat, ltree: seq<CtData>, dtree: seq<CtData>,
                   ghost llens: seq<nat>, ghost dlens: seq<nat>)
    requires w.Valid() && t.Valid() && TreeFor(ltree, llens) && TreeFor(dtree, dlens)
    requires Codable(t, llens, dlens, TokenOf(dist, lc))
    modifies w
    ensures w.Valid() && w.Stream() == old(w.Stream()) + EncodeToken(t, llens, dlens, TokenOf(dist, lc))
  {
    hide TreeFor, CodeBits, LengthBits, DistBits, IsLengthCode, IsDistCode, BaseLength, BaseDist, Writer.Valid,
         Writer.Stream;
    if dist == 0 {
      SendCode(w, lc, ltree, llens);
    } else {
      SendLength(w, t, lc, ltree, llens);
      SendDist(w, t, dist - 1, dtree, dlens);
    }
  }

  lemma {:induction false} EncodeSnoc(t: Tables, llens: seq<nat>, dlens: seq<nat>, toks: seq<Token>, tok: Token)
    requires t.Valid() && AllCodable(t, llens, dlens, toks) && Codable(t, llens, dlens, tok)
    ensures AllCodable(t, llens, dlens, toks + [tok])
    ensures Encode(t, llens, dlens, toks + [tok]) == Encode(t, llens, dlens, toks) + EncodeToken(t, llens, dlens, tok)
  {
    assert (toks + [tok])[..|toks|] == toks;
  }

  /** Writes the tokens in the buffers and the end-of-block code. */
  method CompressBlock(w: Writer, t: Tables, dBuf: seq<nat>, lBuf: seq<nat>, ltree: seq<CtData>, dtree: seq<CtData>,
                       ghost llens: seq<nat>, ghost dlens: seq<nat>)
    requires w.Valid() && t.Valid() && TreeFor(ltree, llens) && TreeFor(dtree, dlens) && |dBuf| == |lBuf|
    requires AllCodable(t, llens, dlens, Tokens(dBuf, lBuf)) && HasCode(llens, END_BLOCK)
    modifies w
    ensures w.Valid()
    ensures w.Stream() == old(w.Stream()) + Encode(t, llens, dlens, Tokens(dBuf, lBuf)) + CodeBits(llens, END_BLOCK)
  {
    hide TreeFor, CodeBits, EncodeToken, Codable, Tables.Valid, Writer.Valid, Writer.Stream;
    ghost var start := w.Stream();
    var lx: nat := 0;
    while lx < |lBuf|
      invariant lx <= |lBuf| && w.Valid()
      invariant AllCodable(t, llens, dlens, Tokens(dBuf[..lx], lBuf[..lx]))
      invariant w.Stream() == start + Encode(t, llens, dlens, Tokens(dBuf[..lx], lBuf[..lx]))
    {
      TokensStep(dBuf, lBuf, lx);
      assert Codable(t, llens, dlens, TokenOf(dBuf[lx], lBuf[lx]));
      EncodeSnoc(t, llens, dlens, Tokens(dBuf[..lx], lBuf[..lx]), TokenOf(dBuf[lx], lBuf[lx]));
      SendToken(w, t, dBuf[lx], lBuf[lx], ltree, dtree, llens, dlens);
      lx := lx + 1;
    }
    assert dBuf[..lx] == dBuf && lBuf[..lx] == lBuf;
    SendCode(w, END_BLOCK, ltree, llens);
  }

  lemma {:induction false} TokensStep(dBuf: seq<nat>, lBuf: seq<nat>, i: nat)
    requires |dBuf| == |lBuf| && i < |dBuf|
    ensures Tokens(dBuf[..i + 1], lBuf[..i + 1]) == Tokens(dBuf[..i], lBuf[..i]) + [TokenOf(dBuf[i], lBuf[i])]
    ensures Tokens(dBuf, lBuf)[i] == TokenOf(dBuf[i], lBuf[i])
  {
    assert dBuf[..i + 1][..i] == dBuf[..i] && lBuf[..i + 1][..i] == lBuf[..i];
    TokensAt(dBuf, lBuf, i);
  }

  lemma {:induction false} TokensAt(dBuf: seq<nat>, lBuf: seq<nat>, i: nat)
    requires |dBuf| == |lBuf| && i < |dBuf|
    ensures Tokens(dBuf, lBuf)[i] == TokenOf(dBuf[i], lBuf[i])
  {
    if i < |dBuf| - 1 {
      TokensAt(dBuf[..|dBuf| - 1], lBuf[..|lBuf| - 1], i);
    }
  }
}
