/**
 The codes of match lengths and distances, RFC 1951 section 3.2.5: the encoder's
 tables, made by the loops of `tr_static_init` (src/zlib/trees.c), against the
 decoder's base and extra tables (src/zlib/inftrees.c).
 */
module StaticCodes {
  import opened Bits
  import opened DecodeTable

  const LENGTH_CODES := 29
  const D_CODES := 30

  /** The source's table `extra_lbits`. */
  function ExtraLBits(c: nat): nat {
    match c
    case 0 => 0 case 1 => 0 case 2 => 0 case 3 => 0 case 4 => 0 case 5 => 0 case 6 => 0 case 7 => 0
    case 8 => 1 case 9 => 1 case 10 => 1 case 11 => 1 case 12 => 2 case 13 => 2 case 14 => 2 case 15 => 2
    case 16 => 3 case 17 => 3 case 18 => 3 case 19 => 3 case 20 => 4 case 21 => 4 case 22 => 4 case 23 => 4
    case 24 => 5 case 25 => 5 case 26 => 5 case 27 => 5 case 28 => 0
    case _ => 0
  }

  /** The source's table `extra_dbits`. */
  function ExtraDBits(c: nat): nat {
    match c
    case 0 => 0 case 1 => 0 case 2 => 0 case 3 => 0 case 4 => 1 case 5 => 1 case 6 => 2 case 7 => 2
    case 8 => 3 case 9 => 3 case 10 => 4 case 11 => 4 case 12 => 5 case 13 => 5 case 14 => 6 case 15 => 6
    case 16 => 7 case 17 => 7 case 18 => 8 case 19 => 8 case 20 => 9 case 21 => 9 case 22 => 10 case 23 => 10
    case 24 => 11 case 25 => 11 case 26 => 12 case 27 => 12 case 28 => 13 case 29 => 13
    case _ => 0
  }

  /** The first match length of code `c`, less three: the lengths that the codes before it stand for. */
  function BaseLength(c: nat): nat {
    if c == 0 then 0 else BaseLength(c - 1) + Pow2(ExtraLBits(c - 1))
  }

  /** The first distance of code `c`, less one. */
  function BaseDist(c: nat): nat {
    if c == 0 then 0 else BaseDist(c - 1) + Pow2(ExtraDBits(c - 1))
  }

  /** The encoder's first value and the decoder's base value agree, and so do the extra bits. */
  lemma {:induction false} LengthTablesAgree(c: nat)
    requires c < LENGTH_CODES
    ensures LExt(c) == 16 + ExtraLBits(c) && ExtraLBits(c) <= 5
    ensures c < 28 ==> LBase(c) == BaseLength(c) + 3
    ensures c == 28 ==> LBase(c) == 258 && BaseLength(c) == 256
  {
    hide LBase, ExtraLBits, LExt, Pow2;
    LengthValues(c);
    if c > 0 {
      LengthTablesAgree(c - 1);
      LengthStep(c);
    }
  }

  lemma LengthStep(c: nat)
    requires 0 < c < LENGTH_CODES
    ensures (if c == 28 then 259 else LBase(c)) == LBase(c - 1) + Pow2(ExtraLBits(c - 1))
  {
    Pow2Small();
  }

  lemma LengthValues(c: nat)
    requires c < LENGTH_CODES
    ensures LExt(c) == 16 + ExtraLBits(c) && ExtraLBits(c) <= 5 && LBase(0) == 3 && LBase(28) == 258
  {
  }

  lemma DistStep(c: nat)
    requires 0 < c < D_CODES
    ensures DBase(c) == DBase(c - 1) + Pow2(ExtraDBits(c - 1))
  {
    Pow2Small();
  }

  lemma DistZero()
    ensures DBase(0) == 1
  {
  }

  lemma {:induction false} DistTablesAgree(c: nat)
    requires c < D_CODES
    ensures DBase(c) == BaseDist(c) + 1 && DExt(c) == 16 + ExtraDBits(c)
  {
    hide DBase, ExtraDBits, Pow2, DExt;
    DistExtraAgrees(c);
    if c == 0 {
      DistZero();
    } else {
      DistTablesAgree(c - 1);
      DistStep(c);
    }
  }

  lemma DistExtraAgrees(c: nat)
    requires c < D_CODES
    ensures DExt(c) == 16 + ExtraDBits(c) && ExtraDBits(c) <= 13
    ensures if c < 16 then ExtraDBits(c) <= 6 else ExtraDBits(c) >= 7
  {
  }

  /**
   The rule behind the tables of lengths, section 3.2.5 of RFC 1951: from the ninth on there
   are four codes for each number of extra bits.
  */
  lemma LengthRule(c: nat)
    requires c < LENGTH_CODES
    ensures LExt(c) == 16 + if c < 8 || c == 28 then 0 else c / 4 - 1
    ensures LBase(c) == if c < 8 then 3 + c else if c == 28 then 258 else 3 + (4 + c % 4) * Pow2(c / 4 - 1)
  {
    Pow2Small();
  }

  /** For distances there are two codes for each number of extra bits. */
  lemma DistRule(c: nat)
    requires c < D_CODES
    ensures DExt(c) == 16 + if c < 4 then 0 else c / 2 - 1
    ensures DBase(c) == 1 + if c < 2 then c else (2 + c % 2) * Pow2(c / 2 - 1)
  {
    Pow2Small();
  }

  // ------------------------------------------------- the encoder's choice

  /** The code of match length `lc + 3`; the longest match has a code of its own. */
  ghost predicate IsLengthCode(lc: nat, c: nat) {
    if lc == 255 then c == 28 else c < 28 && BaseLength(c) <= lc < BaseLength(c + 1)
  }

  /** The code of distance `d + 1`. */
  ghost predicate IsDistCode(d: nat, c: nat) {
    c < D_CODES && BaseDist(c) <= d < BaseDist(c + 1)
  }

  datatype Tables = Tables(lengthCode: seq<nat>, baseLength: seq<nat>, distCode: seq<nat>, baseDist: seq<nat>)
  {
    ghost predicate Valid() {
      && |lengthCode| == 256 && |baseLength| == LENGTH_CODES && |distCode| == 512 && |baseDist| == D_CODES
      && (forall lc {:trigger lengthCode[lc]} :: 0 <= lc < 256 ==> IsLengthCode(lc, lengthCode[lc]))
      && (forall c :: 0 <= c < 28 ==> baseLength[c] == BaseLength(c)) && baseLength[28] == 0
      && (forall d: nat {:trigger DCode(d)} :: d < 32768 ==> IsDistCode(d, DCode(d)))
      && (forall c :: 0 <= c < D_CODES ==> baseDist[c] == BaseDist(c))
    }

    /** The distance code: by the distance itself, or by its top bits when it is large. */
    function DCode(d: nat): nat
      requires |distCode| == 512 && d < 32768
    {
      if d < 256 then distCode[d] else distCode[256 + d / 128]
    }
  }

  lemma TableSizes(t: Tables)
    requires t.Valid()
    ensures |t.lengthCode| == 256 && |t.distCode| == 512
  {
  }

  lemma LengthsCovered()
    ensures BaseLength(28) == 256
  {
    LengthTablesAgree(28);
  }

  lemma DistancesCovered()
    ensures BaseDist(16) == 256 && BaseDist(30) == 32768
  {
    hide BaseDist;
    DistTablesAgree(16);
    DistTablesAgree(29);
    BaseDistStep(29);
    Pow2Small();
  }

  lemma WideExtra(c: nat)
    requires 16 <= c < D_CODES
    ensures ExtraDBits(c) >= 7 && Pow2(ExtraDBits(c)) == 128 * Pow2(ExtraDBits(c) - 7)
  {
    DistExtraAgrees(c);
    var e := ExtraDBits(c) - 7;
    assert Pow2(e + 3) == 8 * Pow2(e);
    assert Pow2(e + 6) == 64 * Pow2(e);
  }

  lemma BaseLengthStep(c: nat)
    ensures BaseLength(0) == 0 && BaseLength(c + 1) == BaseLength(c) + Pow2(ExtraLBits(c))
  {
  }

  method LengthTables() returns (lengthCode: seq<nat>, baseLength: seq<nat>)
    ensures |lengthCode| == 256 && |baseLength| == LENGTH_CODES
    ensures forall lc :: 0 <= lc < 256 ==> IsLengthCode(lc, lengthCode[lc])
    ensures forall c :: 0 <= c < 28 ==> baseLength[c] == BaseLength(c)
    ensures baseLength[28] == 0
  {
    hide ExtraLBits, Pow2, BaseLength;
    lengthCode, baseLength := [], [];
    var length := 0;
    BaseLengthStep(0);
    for code := 0 to LENGTH_CODES - 1
      invariant |baseLength| == code && length == |lengthCode| == BaseLength(code)
      invariant forall c :: 0 <= c < code ==> baseLength[c] == BaseLength(c)
      invariant forall lc :: 0 <= lc < length ==>
        lengthCode[lc] < code && BaseLength(lengthCode[lc]) <= lc < BaseLength(lengthCode[lc] + 1)
    {
      baseLength := baseLength + [length];
      BaseLengthStep(code);
      for n := 0 to Pow2(ExtraLBits(code))
        invariant length == |lengthCode| == BaseLength(code) + n
        invariant forall lc :: 0 <= lc < length ==>
          lengthCode[lc] <= code && BaseLength(lengthCode[lc]) <= lc < BaseLength(lengthCode[lc] + 1)
      {
        lengthCode := lengthCode + [code];
        length := length + 1;
      }
    }
    LengthsCovered();
    lengthCode := lengthCode[length - 1 := LENGTH_CODES - 1];
    baseLength := baseLength + [0];
  }

  /** `distCode[256 + h]` is the code of the 128 distances whose top bits are `h`. */
  ghost predicate TopCode(distCode: seq<nat>, h: nat)
    requires 256 + h < |distCode|
  {
    var c := distCode[256 + h];
    16 <= c < D_CODES && BaseDist(c) <= 128 * h && 128 * h + 128 <= BaseDist(c + 1)
  }

  lemma BaseDistStep(c: nat)
    ensures BaseDist(0) == 0 && BaseDist(c + 1) == BaseDist(c) + Pow2(ExtraDBits(c))
  {
  }

  method DistTables() returns (distCode: seq<nat>, baseDist: seq<nat>)
    ensures |distCode| == 512 && |baseDist| == D_CODES
    ensures forall d :: 0 <= d < 256 ==> IsDistCode(d, distCode[d])
    ensures forall h :: 2 <= h < 256 ==> TopCode(distCode, h)
    ensures forall c :: 0 <= c < D_CODES ==> baseDist[c] == BaseDist(c)
  {
    hide ExtraDBits, Pow2, BaseDist, TopCode;
    distCode, baseDist := [], [];
    var dist := 0;
    BaseDistStep(0);
    for code := 0 to 16
      invariant |baseDist| == code && dist == |distCode| == BaseDist(code)
      invariant forall c :: 0 <= c < code ==> baseDist[c] == BaseDist(c)
      invariant forall d :: 0 <= d < dist ==>
        distCode[d] < code && BaseDist(distCode[d]) <= d < BaseDist(distCode[d] + 1)
    {
      baseDist := baseDist + [dist];
      BaseDistStep(code);
      for n := 0 to Pow2(ExtraDBits(code))
        invariant dist == |distCode| == BaseDist(code) + n
        invariant forall d :: 0 <= d < dist ==>
          distCode[d] <= code && BaseDist(distCode[d]) <= d < BaseDist(distCode[d] + 1)
      {
        distCode := distCode + [code];
        dist := dist + 1;
      }
    }
    DistancesCovered();
    distCode, baseDist := DistTop(distCode, baseDist);
  }

  /** The second half: distances divided by 128. */
  method DistTop(low: seq<nat>, baseLow: seq<nat>) returns (distCode: seq<nat>, baseDist: seq<nat>)
    requires |low| == 256 == BaseDist(16) && |baseLow| == 16
    requires forall c :: 0 <= c < 16 ==> baseLow[c] == BaseDist(c)
    ensures |distCode| == 512 && |baseDist| == D_CODES && distCode[..256] == low
    ensures forall h :: 2 <= h < 256 ==> TopCode(distCode, h)
    ensures forall c :: 0 <= c < D_CODES ==> baseDist[c] == BaseDist(c)
  {
    hide ExtraDBits, Pow2, BaseDist;
    distCode, baseDist := low + [0, 0], baseLow;
    var dist: nat := 2;
    for code := 16 to D_CODES
      invariant |baseDist| == code && 256 + dist == |distCode| && 128 * dist == BaseDist(code) && distCode[..256] == low
      invariant forall c :: 0 <= c < code ==> baseDist[c] == BaseDist(c)
      invariant forall h :: 2 <= h < dist ==> TopCode(distCode, h)
    {
      WideExtra(code);
      BaseDistStep(code);
      baseDist := baseDist + [dist * 128];
      for n := 0 to Pow2(ExtraDBits(code) - 7)
        invariant 256 + dist == |distCode| && 128 * dist == BaseDist(code) + 128 * n && distCode[..256] == low
        invariant forall h :: 2 <= h < dist ==> TopCode(distCode, h)
      {
        BaseDistStep(code);
        forall h | 2 <= h < dist ensures TopCode(distCode + [code], h) {
          assert TopCode(distCode, h);
        }
        assert TopCode(distCode + [code], dist);
        distCode := distCode + [code];
        dist := dist + 1;
      }
    }
    DistancesCovered();
  }

  method TrStaticInit() returns (t: Tables)
    ensures t.Valid()
  {
    hide BaseLength, BaseDist, IsLengthCode;
    var lengthCode, baseLength := LengthTables();
    var distCode, baseDist := DistTables();
    t := Tables(lengthCode, baseLength, distCode, baseDist);
    forall d: nat | d < 32768 ensures IsDistCode(d, t.DCode(d)) {
      if d >= 256 {
        assert TopCode(distCode, d / 128);
      }
    }
  }
}
