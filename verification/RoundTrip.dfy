/**
 What the encoder of src/zlib/trees.c writes is what the decoder of src/zlib/inflate.c
 reads: tokens, code lengths, blocks and whole streams.
 */
module RoundTrip {
  import opened Bits
  import opened Canonical
  import opened DecodeTable
  import opened StaticCodes
  import opened RunLength
  import opened CompressBlock
  import opened InflateSpec
  import opened InflateTheory
  import Lz = Lz77

  /** The bits `w` stand at `pos`. */
  ghost predicate Has(input: seq<bool>, pos: nat, w: seq<bool>) {
    pos + |w| <= |input| && input[pos..pos + |w|] == w
  }

  lemma HasParts(input: seq<bool>, pos: nat, v: seq<bool>, w: seq<bool>)
    requires Has(input, pos, v + w)
    ensures Has(input, pos, v) && Has(input, pos + |v|, w)
  {
    assert input[pos..pos + |v|] == input[pos..pos + |v + w|][..|v|];
    assert input[pos + |v|..pos + |v| + |w|] == input[pos..pos + |v + w|][|v|..];
  }

  lemma {:induction false} PeekHas(input: seq<bool>, pos: nat, skip: nat, v: nat, n: nat)
    requires Has(input, pos + skip, BitsOf(v, n)) && v < Pow2(n)
    ensures pos + skip + n <= |input| && Peek(input, pos, skip, n) == v
  {
    ValBitsOf(v, n);
    LowSmall(v, n);
  }

  /** A code in the bit string is decoded as its symbol. */
  lemma DecodeHas(ty: CodeType, lens: seq<nat>, input: seq<bool>, pos: nat, s: nat)
    requires ValidLens(lens) && Accepted(ty, lens) && HasCode(lens, s) && Has(input, pos, CodeBits(lens, s))
    ensures DecodeAt(lens, input, pos) == Symbol(s)
  {
    hide Accepted, Decode, Huff, Rev;
    var left, h := Left(input, pos), Huff(lens, s);
    ValSplit(left, lens[s]);
    assert left[..lens[s]] == CodeBits(lens, s);
    ValBitsOf(h, lens[s]);
    assert Huff(lens, s) < Pow2(lens[s]) by { HuffBound(lens, s); }
    LowSmall(h, lens[s]);
    DecodeIs(ty, lens, s, Val(left), |left|);
  }

  lemma HuffBound(lens: seq<nat>, s: nat)
    requires s < |lens|
    ensures Huff(lens, s) < Pow2(lens[s])
  {
    RevBound(CodeOf(lens, s), lens[s]);
  }

  // ------------------------------------------------- tokens

  /** Where the reader is when it has read a token and not yet written its bytes. */
  function TokenMode(codes: Codes, tok: Lz.Token): Mode {
    match tok
    case Literal(b) => Mode.Lit(codes, b)
    case Match(len, dist) => Mode.Match(codes, len, dist)
  }

  lemma LiteralRead(input: seq<bool>, c: Config, b: nat)
    requires c.mode.Len? && SaneCodes(c.mode.codes) && b < 256 && HasCode(c.mode.codes.llens, b)
    requires Has(input, c.pos, CodeBits(c.mode.codes.llens, b))
    ensures Reaches(input, c, c.(mode := Mode.Lit(c.mode.codes, b), pos := c.pos + c.mode.codes.llens[b]))
  {
    hide Step, DecodeAt, Accepted, CodeBits, Reaches;
    StepOfCodes(input, c);
    DecodeHas(LENS, c.mode.codes.llens, input, c.pos, b);
    ReachesStep(input, c);
  }

  lemma LengthValue(t: Tables, len: nat)
    requires t.Valid() && 3 <= len <= 258
    ensures var k := t.lengthCode[len - 3];
      && k < LENGTH_CODES && LExt(k) == 16 + ExtraLBits(k)
      && (ExtraLBits(k) == 0 ==> LBase(k) == len)
      && (ExtraLBits(k) > 0 ==>
            && BaseLength(k) <= len - 3 && LBase(k) + (len - 3 - BaseLength(k)) == len
            && len - 3 - BaseLength(k) < Pow2(ExtraLBits(k)))
  {
    hide LBase, LExt, ExtraLBits, BaseLength;
    var k := t.lengthCode[len - 3];
    assert IsLengthCode(len - 3, k);
    LengthTablesAgree(k);
    BaseLengthStep(k);
    BaseOne(k);
    LongestCode();
  }

  lemma BaseOne(k: nat)
    ensures ExtraLBits(k) == 0 ==> Pow2(ExtraLBits(k)) == 1
  {
  }

  lemma DistValue(t: Tables, dist: nat)
    requires t.Valid() && 1 <= dist <= 32768
    ensures var k := t.DCode(dist - 1);
      && k < D_CODES && DExt(k) == 16 + ExtraDBits(k) && BaseDist(k) <= dist - 1
      && (ExtraDBits(k) == 0 ==> DBase(k) == dist)
      && DBase(k) + (dist - 1 - BaseDist(k)) == dist && dist - 1 - BaseDist(k) < Pow2(ExtraDBits(k))
  {
    hide DBase, DExt, ExtraDBits;
    var k := t.DCode(dist - 1);
    assert IsDistCode(dist - 1, k);
    DistTablesAgree(k);
    DistExtraAgrees(k);
  }

  /** A length symbol leads to the mode that reads its extra bits. */
  lemma LenSymbolRead(input: seq<bool>, c: Config, k: nat)
    requires c.mode.Len? && SaneCodes(c.mode.codes) && k < LENGTH_CODES && LExt(k) == 16 + ExtraLBits(k)
    requires HasCode(c.mode.codes.llens, k + LITERALS + 1)
    requires Has(input, c.pos, CodeBits(c.mode.codes.llens, k + LITERALS + 1))
    ensures Reaches(input, c, c.(mode := LenExt(c.mode.codes, LBase(k), ExtraLBits(k)),
      pos := c.pos + c.mode.codes.llens[k + LITERALS + 1]))
  {
    hide Step, DecodeAt, Accepted, Reaches, LBase, LExt, ExtraLBits, Huff, BitsOf, Has;
    StepOfCodes(input, c);
    DecodeHas(LENS, c.mode.codes.llens, input, c.pos, k + LITERALS + 1);
    ReachesStep(input, c);
  }

  function ExtraBits(x: nat, v: nat): seq<bool> {
    if x == 0 then [] else BitsOf(v, x)
  }

  lemma {:induction false} ExtraPeek(input: seq<bool>, pos: nat, x: nat, v: nat)
    requires Has(input, pos, ExtraBits(x, v)) && (x > 0 ==> v < Pow2(x))
    ensures |ExtraBits(x, v)| == x && pos + x <= |input| && Peek(input, pos, 0, x) == if x == 0 then 0 else v
  {
    hide Peek, BitsOf;
    if x == 0 {
      PeekNone(input, pos);
    } else {
      PeekHas(input, pos, 0, v, x);
    }
  }

  /** The bits of a length lead to the mode that reads the distance. */
  lemma LengthRead(t: Tables, input: seq<bool>, c: Config, len: nat)
    requires t.Valid() && c.mode.Len? && SaneCodes(c.mode.codes) && 3 <= len <= 258
    requires HasCode(c.mode.codes.llens, t.lengthCode[len - 3] + LITERALS + 1)
    requires Has(input, c.pos, LengthBits(t, c.mode.codes.llens, len))
    ensures Reaches(input, c, c.(mode := Dist(c.mode.codes, len),
      pos := c.pos + |LengthBits(t, c.mode.codes.llens, len)|))
  {
    hide Step, SaneCodes, Reaches, LBase, LExt, ExtraLBits, BaseLength, Tables.Valid, Peek, Huff, BitsOf, Has;
    TableSizes(t);
    var codes, k := c.mode.codes, t.lengthCode[len - 3];
    var s, x := k + LITERALS + 1, ExtraLBits(k);
    LengthValue(t, len);
    var v := if x == 0 then 0 else len - 3 - BaseLength(k);
    HasParts(input, c.pos, CodeBits(codes.llens, s), ExtraBits(x, v));
    LenSymbolRead(input, c, k);
    var b := c.(mode := LenExt(codes, LBase(k), x), pos := c.pos + codes.llens[s]);
    ExtraPeek(input, b.pos, x, v);
    StepOfCodes(input, b);
    ReachesStep(input, b);
    ReachesTrans(input, c, b, Step(input, b).c);
  }

  lemma PeekNone(input: seq<bool>, pos: nat)
    requires pos <= |input|
    ensures Peek(input, pos, 0, 0) == 0
  {
    assert input[pos..pos] == [];
  }

  /** A distance symbol leads to the mode that reads its extra bits. */
  lemma DistSymbolRead(input: seq<bool>, c: Config, k: nat)
    requires c.mode.Dist? && SaneCodes(c.mode.codes) && k < D_CODES && DExt(k) == 16 + ExtraDBits(k)
    requires HasCode(c.mode.codes.dlens, k) && Has(input, c.pos, CodeBits(c.mode.codes.dlens, k))
    ensures Reaches(input, c, c.(mode := DistExt(c.mode.codes, c.mode.length, DBase(k), ExtraDBits(k)),
      pos := c.pos + c.mode.codes.dlens[k]))
  {
    hide Step, DecodeAt, Accepted, Reaches, DBase, DExt, ExtraDBits, Huff, BitsOf, Has;
    StepOfCodes(input, c);
    DecodeHas(DISTS, c.mode.codes.dlens, input, c.pos, k);
    ReachesStep(input, c);
  }

  /** The bits of a distance lead to the mode that copies. */
  lemma DistRead(t: Tables, input: seq<bool>, c: Config, dist: nat)
    requires t.Valid() && c.mode.Dist? && SaneCodes(c.mode.codes) && 1 <= dist <= 32768
    requires HasCode(c.mode.codes.dlens, t.DCode(dist - 1))
    requires Has(input, c.pos, DistBits(t, c.mode.codes.dlens, dist))
    ensures Reaches(input, c, c.(mode := Mode.Match(c.mode.codes, c.mode.length, dist),
                                 pos := c.pos + |DistBits(t, c.mode.codes.dlens, dist)|))
  {
    hide Step, SaneCodes, Reaches, DBase, DExt, ExtraDBits, BaseDist, Tables.Valid, Peek, Huff, BitsOf, Tables.DCode,
         Has;
    TableSizes(t);
    var codes, k := c.mode.codes, t.DCode(dist - 1);
    var x := ExtraDBits(k);
    DistValue(t, dist);
    var v := if x == 0 then 0 else dist - 1 - BaseDist(k);
    HasParts(input, c.pos, CodeBits(codes.dlens, k), ExtraBits(x, v));
    DistSymbolRead(input, c, k);
    var b := c.(mode := DistExt(codes, c.mode.length, DBase(k), x), pos := c.pos + codes.dlens[k]);
    ExtraPeek(input, b.pos, x, v);
    StepOfCodes(input, b);
    ReachesStep(input, b);
    ReachesTrans(input, c, b, Step(input, b).c);
  }

  /** A token's bits are read as that token. */
  lemma TokenRead(t: Tables, input: seq<bool>, c: Config, tok: Lz.Token)
    requires t.Valid() && c.mode.Len? && SaneCodes(c.mode.codes)
    requires Codable(t, c.mode.codes.llens, c.mode.codes.dlens, tok)
    requires Has(input, c.pos, EncodeToken(t, c.mode.codes.llens, c.mode.codes.dlens, tok))
    ensures Reaches(input, c, c.(mode := TokenMode(c.mode.codes, tok),
                                 pos := c.pos + |EncodeToken(t, c.mode.codes.llens, c.mode.codes.dlens, tok)|))
  {
    hide Step, SaneCodes, Reaches, HasCode, LengthBits, DistBits, Tables.Valid, BitsOf, Huff, Tables.DCode;
    var codes := c.mode.codes;
    match tok
    case Literal(b) => LiteralRead(input, c, b);
    case Match(len, dist) =>
      var lb, db := LengthBits(t, codes.llens, len), DistBits(t, codes.dlens, dist);
      HasParts(input, c.pos, lb, db);
      LengthRead(t, input, c, len);
      var b := c.(mode := Dist(codes, len), pos := c.pos + |lb|);
      DistRead(t, input, b, dist);
      ReachesTrans(input, c, b, b.(mode := Mode.Match(codes, len, dist), pos := b.pos + |db|));
  }

  /** Copying the bytes of a match. */
  lemma {:induction false} MatchWritten(input: seq<bool>, c: Config, len: nat, dist: nat)
    requires c.mode.Match? && c.mode.length == len > 0 && c.mode.offset == dist && 1 <= dist <= |c.out|
    ensures Reaches(input, c, c.(mode := Len(c.mode.codes), out := Lz.Copied(c.out, len, dist)))
    decreases len
  {
    hide Step, Reaches;
    StepOfOutput(input, c);
    ReachesStep(input, c);
    var b := Step(input, c).c;
    if len > 1 {
      MatchWritten(input, b, len - 1, dist);
      ReachesTrans(input, c, b, c.(mode := Len(c.mode.codes), out := Lz.Copied(c.out, len, dist)));
    }
  }

  lemma TokenWritten(input: seq<bool>, c: Config, codes: Codes, tok: Lz.Token)
    requires c.mode == TokenMode(codes, tok) && Lz.ValidToken(tok) && Lz.Fits(c.out, tok)
    ensures Reaches(input, c, c.(mode := Len(codes), out := Lz.After(c.out, tok)))
  {
    hide Step, Reaches;
    match tok
    case Literal(b) =>
      StepOfOutput(input, c);
      ReachesStep(input, c);
    case Match(len, dist) => MatchWritten(input, c, len, dist);
  }

  /** The reader after the tokens `toks`, which began at `c`. */
  ghost function AfterTokens(t: Tables, c: Config, toks: seq<Lz.Token>): Config
    requires t.Valid() && c.mode.Len? && AllCodable(t, c.mode.codes.llens, c.mode.codes.dlens, toks)
    requires Lz.AllFit(c.out, toks)
  {
    c.(pos := c.pos + |Encode(t, c.mode.codes.llens, c.mode.codes.dlens, toks)|, out := Lz.Expand(c.out, toks))
  }

  /** The bits of a token buffer are read back token by token, and their text is written. */
  lemma {:induction false} TokensRead(t: Tables, input: seq<bool>, c: Config, toks: seq<Lz.Token>)
    requires t.Valid() && c.mode.Len? && SaneCodes(c.mode.codes)
    requires AllCodable(t, c.mode.codes.llens, c.mode.codes.dlens, toks)
    requires Has(input, c.pos, Encode(t, c.mode.codes.llens, c.mode.codes.dlens, toks)) && Lz.AllFit(c.out, toks)
    ensures Reaches(input, c, AfterTokens(t, c, toks))
    decreases |toks|
  {
    hide Step, Reaches, SaneCodes, Tables.Valid, EncodeToken, Codable, Lz.Fits, Lz.After;
    var codes := c.mode.codes;
    if toks == [] {
      ReachesSelf(input, c);
    } else {
      var most, tok := toks[..|toks| - 1], toks[|toks| - 1];
      assert Codable(t, codes.llens, codes.dlens, tok);
      var bits, more := Encode(t, codes.llens, codes.dlens, most), EncodeToken(t, codes.llens, codes.dlens, tok);
      HasParts(input, c.pos, bits, more);
      TokensRead(t, input, c, most);
      var b := AfterTokens(t, c, most);
      TokenRead(t, input, b, tok);
      var d := b.(mode := TokenMode(codes, tok), pos := b.pos + |more|);
      CodableValid(t, codes, tok);
      TokenWritten(input, d, codes, tok);
      ReachesTrans(input, c, b, d);
      ReachesTrans(input, c, d, AfterTokens(t, c, toks));
    }
  }

  lemma CodableValid(t: Tables, codes: Codes, tok: Lz.Token)
    requires t.Valid() && Codable(t, codes.llens, codes.dlens, tok)
    ensures Lz.ValidToken(tok)
  {
  }

  lemma {:induction false} CodablePrefix(t: Tables, codes: Codes, toks: seq<Lz.Token>, k: nat)
    requires t.Valid() && AllCodable(t, codes.llens, codes.dlens, toks) && k <= |toks|
    ensures AllCodable(t, codes.llens, codes.dlens, toks[..k])
    ensures Encode(t, codes.llens, codes.dlens, toks[..k]) <= Encode(t, codes.llens, codes.dlens, toks)
    decreases |toks|
  {
    hide Codable, EncodeToken, Tables.Valid;
    if k < |toks| {
      CodablePrefix(t, codes, toks[..|toks| - 1], k);
      assert toks[..|toks| - 1][..k] == toks[..k];
    } else {
      assert toks[..k] == toks;
    }
  }

  /**
   Exactly the tokens written are read: with `k` tokens done, the reader comes to the
   mode of token `k`, just past the bits of that token.
   */
  lemma {:induction false} TokensRecovered(t: Tables, input: seq<bool>, c: Config, toks: seq<Lz.Token>, k: nat)
    requires t.Valid() && c.mode.Len? && SaneCodes(c.mode.codes)
    requires AllCodable(t, c.mode.codes.llens, c.mode.codes.dlens, toks)
    requires Has(input, c.pos, Encode(t, c.mode.codes.llens, c.mode.codes.dlens, toks)) && Lz.AllFit(c.out, toks)
    requires k < |toks|
    ensures AllCodable(t, c.mode.codes.llens, c.mode.codes.dlens, toks[..k + 1]) && Lz.AllFit(c.out, toks[..k])
    ensures Reaches(input, c, c.(mode := TokenMode(c.mode.codes, toks[k]), out := Lz.Expand(c.out, toks[..k]),
                                 pos := c.pos + |Encode(t, c.mode.codes.llens, c.mode.codes.dlens, toks[..k + 1])|))
  {
    hide Step, Reaches, SaneCodes, Tables.Valid, EncodeToken, Codable;
    var codes := c.mode.codes;
    CodablePrefix(t, codes, toks, k);
    CodablePrefix(t, codes, toks, k + 1);
    Lz.FitPrefix(c.out, toks, k);
    var bits, upto := Encode(t, codes.llens, codes.dlens, toks[..k]), Encode(t, codes.llens, codes.dlens,
      toks[..k + 1]);
    assert toks[..k + 1][..k] == toks[..k];
    assert Codable(t, codes.llens, codes.dlens, toks[k]);
    assert upto == bits + EncodeToken(t, codes.llens, codes.dlens, toks[k]);
    HasPrefix(input, c.pos, upto, Encode(t, codes.llens, codes.dlens, toks));
    HasParts(input, c.pos, bits, EncodeToken(t, codes.llens, codes.dlens, toks[k]));
    TokensRead(t, input, c, toks[..k]);
    TokenRead(t, input, AfterTokens(t, c, toks[..k]), toks[k]);
    ReachesTrans(input, c, AfterTokens(t, c, toks[..k]),
                 c.(mode := TokenMode(codes, toks[k]), out := Lz.Expand(c.out, toks[..k]), pos := c.pos + |upto|));
  }

  lemma HasPrefix(input: seq<bool>, pos: nat, v: seq<bool>, w: seq<bool>)
    requires Has(input, pos, w) && v <= w
    ensures Has(input, pos, v)
  {
    assert w == v + w[|v|..];
    HasParts(input, pos, v, w[|v|..]);
  }

  /** The bits of a block's tokens and its end, up to where the next block begins. */
  ghost function BodyBits(t: Tables, codes: Codes, toks: seq<Lz.Token>): seq<bool>
    requires t.Valid() && AllCodable(t, codes.llens, codes.dlens, toks) && HasCode(codes.llens, END_BLOCK)
  {
    Encode(t, codes.llens, codes.dlens, toks) + CodeBits(codes.llens, END_BLOCK)
  }

  lemma {:induction false} BodyRead(t: Tables, input: seq<bool>, c: Config, toks: seq<Lz.Token>)
    requires t.Valid() && c.mode.Len? && SaneCodes(c.mode.codes) && HasCode(c.mode.codes.llens, END_BLOCK)
    requires AllCodable(t, c.mode.codes.llens, c.mode.codes.dlens, toks) && Lz.AllFit(c.out, toks)
    requires Has(input, c.pos, BodyBits(t, c.mode.codes, toks))
    ensures Reaches(input, c, c.(mode := Type, pos := c.pos + |BodyBits(t, c.mode.codes, toks)|,
      out := Lz.Expand(c.out, toks)))
  {
    hide Step, Reaches, Tables.Valid, Codable, DecodeAt, Encode, Accepted, Huff, BitsOf;
    var codes := c.mode.codes;
    var bits, end := Encode(t, codes.llens, codes.dlens, toks), CodeBits(codes.llens, END_BLOCK);
    HasParts(input, c.pos, bits, end);
    TokensRead(t, input, c, toks);
    var b := AfterTokens(t, c, toks);
    DecodeHas(LENS, codes.llens, input, b.pos, END_BLOCK);
    StepOfCodes(input, b);
    ReachesStep(input, b);
    ReachesTrans(input, c, b, b.(mode := Type, pos := b.pos + |end|));
  }
}
