/**
 Which form `_tr_flush_block` of src/zlib/trees.c chooses for a block, and how good the
 choice is.  What it takes for the size of a stored block are its bytes and four for the two
 length words; the three bits that begin the block and the padding are not counted.
 */
module BlockChoice {
  import opened Bits
  import opened StaticCodes
  import opened RunLength
  import opened CompressBlock
  import opened SendTree
  import opened SendAllTrees
  import opened BlockSizes
  import opened Construction = BuildTree
  import opened InflateSpec
  import opened RoundTrip
  import opened RoundTripBlocks
  import Lz = Lz77

  /** The number of bytes that a block of `bits` bits takes, rounded up as the source does. */
  function Bytes(bits: int): int {
    (bits + 7) / 8
  }

  /** The bits of a block in either code, wherever it begins. */
  ghost function Size(t: Tables, b: Block): nat
    requires t.Valid() && BlockOk(t, b)
  {
    |BlockBits(t, b, false, 0)|
  }

  /** The bits of a stored block that begins at bit `at`: its start, the padding, the two lengths and the bytes. */
  function StoredSize(buf: seq<Byte>, at: nat): nat {
    35 + Padding(at + 3) + 8 * |buf|
  }

  lemma SizeAt(t: Tables, b: Block, last: bool, at: nat)
    requires t.Valid() && BlockOk(t, b)
    ensures |BlockBits(t, b, last, at)| == if b.StoredBlock? then StoredSize(b.bytes, at) else Size(t, b)
  {
    hide BitsOf, StreamOf, BodyBits, HeaderBits, HeaderOk, BodyOk, GoodCodes, Tables.Valid, AlignUp;
  }

  /**
   The rule of the source.  `stored` tells whether the bytes are at hand, `fixed` whether
   the static codes are asked for.
  */
  ghost predicate Chosen(t: Tables, b: Block, toks: seq<Lz.Token>, dynamic: Block, buf: seq<Byte>, stored: bool,
                         fixed: bool)
    requires t.Valid() && BlockOk(t, dynamic) && BlockOk(t, StaticBlock(toks))
  {
    var d, f := Bytes(Size(t, dynamic)), Bytes(Size(t, StaticBlock(toks)));
    && (b.StoredBlock? <==> stored && |buf| + 4 <= d && |buf| + 4 <= f)
    && (b.StoredBlock? ==> b.bytes == buf)
    && (b.StaticBlock? ==> b.toks == toks && (fixed || f <= d))
    && (b.DynamicBlock? ==> b == dynamic && !fixed && d < f)
  }

  /**
   How far the choice is from the best.  The block in its own codes has the fewest bits.
   The static codes may cost up to seven bits more, as whole bytes are compared, or any
   number when they are asked for; but some coded form is smaller than storing would be.
   Storing may cost up to 17 bits more than either code.
  */
  ghost predicate Near(t: Tables, b: Block, toks: seq<Lz.Token>, dynamic: Block, buf: seq<Byte>, stored: bool,
                       fixed: bool, last: bool, at: nat)
    requires t.Valid() && BlockOk(t, b) && BlockOk(t, dynamic) && BlockOk(t, StaticBlock(toks))
  {
    var size, d, f, s := |BlockBits(t, b, last, at)|, Size(t, dynamic), Size(t, StaticBlock(toks)), StoredSize(buf, at);
    && (b.DynamicBlock? ==> size == d && d < f && (stored ==> d < s))
    && (b.StaticBlock? ==> size == f && (stored ==> f < s || d < s) && (fixed || (f <= d + 7 && (stored ==> f < s))))
    && (b.StoredBlock? ==> size == s && s <= d + 17 && s <= f + 17)
  }

  lemma ChosenNear(t: Tables, b: Block, toks: seq<Lz.Token>, dynamic: Block, buf: seq<Byte>,
                   stored: bool, fixed: bool, last: bool, at: nat)
    requires t.Valid() && BlockOk(t, b) && BlockOk(t, dynamic) && BlockOk(t, StaticBlock(toks))
    requires Chosen(t, b, toks, dynamic, buf, stored, fixed) && dynamic.DynamicBlock?
    ensures Near(t, b, toks, dynamic, buf, stored, fixed, last, at)
  {
    hide BlockBits, BlockOk, Tables.Valid, Size;
    SizeAt(t, b, last, at);
  }

  function Min(a: nat, b: nat): nat {
    if a <= b then a else b
  }

  /** Storing is best exactly if the start and the padding fit in, too. */
  lemma StoredBest(t: Tables, b: Block, toks: seq<Lz.Token>, dynamic: Block, buf: seq<Byte>,
                   stored: bool, fixed: bool, last: bool, at: nat)
    requires t.Valid() && BlockOk(t, b) && BlockOk(t, dynamic) && BlockOk(t, StaticBlock(toks))
    requires Chosen(t, b, toks, dynamic, buf, stored, fixed) && b.StoredBlock? && !dynamic.StoredBlock?
    ensures var size, least := |BlockBits(t, b, last, at)|, Min(Size(t, dynamic), Size(t, StaticBlock(toks)));
      (size <= |BlockBits(t, dynamic, last, at)| && size <= |BlockBits(t, StaticBlock(toks), last, at)|)
      <==> 35 + Padding(at + 3) + 8 * |buf| <= least
  {
    hide BlockBits, BlockOk, Tables.Valid, Size;
    SizeAt(t, b, last, at);
    SizeAt(t, dynamic, last, at);
    SizeAt(t, StaticBlock(toks), last, at);
  }

  // ------------------------------------------------- a block that is stored though it becomes larger

  /** Fifteen bytes, chosen so far apart that the header of a dynamic block is long. */
  function Sparse(i: nat): nat {
    if i <= 6 then 144 + 12 * i else 216 + 4 * (i - 6)
  }

  function SparseText(): (text: seq<Byte>)
    ensures |text| == 15 && forall i :: 0 <= i < 15 ==> text[i] == Sparse(i)
  {
    seq(15, i requires 0 <= i < 15 => Sparse(i))
  }

  function SparseTokens(): (toks: seq<Lz.Token>)
    ensures |toks| == 15 && forall i :: 0 <= i < 15 ==> toks[i] == Lz.Literal(Sparse(i))
  {
    seq(15, i requires 0 <= i < 15 => Lz.Literal(Sparse(i)))
  }

  /** Codes only for the symbols that occur, unless there are fewer than two of them. */
  ghost predicate Lean(f: seq<nat>, lens: seq<nat>) {
    |Used(f, |f|)| >= 2 ==> forall s :: 0 <= s < |f| && s < |lens| && f[s] == 0 ==> lens[s] == 0
  }

  lemma {:induction false} StaticLiterals(t: Tables, toks: seq<Lz.Token>)
    requires t.Valid() && AllCodable(t, FixedCodes().llens, FixedCodes().dlens, toks)
    requires forall i :: 0 <= i < |toks| ==> toks[i].Literal? && 144 <= toks[i].b < 256
    ensures |Encode(t, FixedCodes().llens, FixedCodes().dlens, toks)| == 9 * |toks|
    decreases |toks|
  {
    hide Tables.Valid, BitsOf;
    if toks != [] {
      StaticLiterals(t, toks[..|toks| - 1]);
    }
  }

  lemma SparseStatic(t: Tables)
    requires t.Valid() && BlockOk(t, StaticBlock(SparseTokens()))
    ensures Size(t, StaticBlock(SparseTokens())) == 145
  {
    hide Tables.Valid, BitsOf, Encode, AllCodable;
    StaticLiterals(t, SparseTokens());
  }

  // every run takes one bit at least, and its extra bits

  function Weight(rs: seq<Run>): nat {
    if rs == [] then 0 else Weight(rs[..|rs| - 1]) + 1 + ExtraBlBits(rs[|rs| - 1].sym)
  }

  lemma {:induction false} WeightConcat(a: seq<Run>, b: seq<Run>)
    ensures Weight(a + b) == Weight(a) + Weight(b)
  {
    if b == [] {
      assert a + b == a;
    } else {
      WeightConcat(a, b[..|b| - 1]);
      assert (a + b)[..|a + b| - 1] == a + b[..|b| - 1];
    }
  }

  lemma {:induction false} WeightBits(bllens: seq<nat>, rs: seq<Run>)
    requires RunsCodable(bllens, rs)
    ensures |RunBits(bllens, rs)| >= Weight(rs)
    decreases |rs|
  {
    hide ExtraBlBits;
    if rs != [] {
      WeightBits(bllens, rs[..|rs| - 1]);
    }
  }

  lemma WeightOne(r: Run)
    ensures Weight([r]) == 1 + ExtraBlBits(r.sym)
  {
    assert [r][..0] == [];
    assert Weight([]) == 0;
  }

  /** Something is sent for the lengths from `n` on. */
  lemma {:induction false} SomeRun(lens: seq<nat>, n: nat, count: nat, prev: int)
    requires Small(lens) && n < |lens|
    ensures Weight(Runs(lens, n, count, prev)) >= 1
    decreases |lens| - n
  {
    if count + 1 < MaxCount(lens[n], prev) && lens[n] == NextLen(lens, n + 1) {
      SomeRun(lens, n + 1, count + 1, prev);
    } else {
      assert Emit(lens[n], prev, count + 1) != [];
    }
    var rs := Runs(lens, n, count, prev);
    assert rs != [] ==> Weight(rs) >= 1;
  }

  ghost predicate ZerosTo(lens: seq<nat>, n: nat, m: nat) {
    n < m < |lens| && lens[m] != 0 && forall i :: n <= i < m ==> lens[i] == 0
  }

  /** The zeros before `m` take no bits off. */
  lemma {:induction false} LeadingZeros(lens: seq<nat>, n: nat, m: nat, count: nat, prev: int)
    requires ZerosTo(lens, n, m)
    ensures Weight(Runs(lens, n, count, prev)) >= Weight(Runs(lens, m, 0, 0))
    decreases m - n
  {
    hide Emit, Weight;
    if count + 1 < 138 && lens[n] == NextLen(lens, n + 1) {
      LeadingZeros(lens, n + 1, m, count + 1, prev);
    } else {
      WeightConcat(Emit(0, prev, count + 1), Runs(lens, n + 1, 0, 0));
      if n + 1 < m {
        LeadingZeros(lens, n + 1, m, 0, 0);
      }
    }
  }

  /** A gap of zeros is sent as one symbol with three or seven extra bits. */
  lemma {:induction false} GapWeight(lens: seq<nat>, n: nat, m: nat, count: nat, prev: int)
    requires ZerosTo(lens, n, m) && 3 <= count + (m - n) < 138
    ensures Weight(Runs(lens, n, count, prev))
         == Weight(Runs(lens, m, 0, 0)) + if count + (m - n) <= 10 then 4 else 8
    decreases m - n
  {
    hide Weight;
    if n + 1 < m {
      GapWeight(lens, n + 1, m, count + 1, prev);
    } else {
      var rs := Emit(0, prev, count + 1);
      assert |rs| == 1;
      WeightOne(rs[0]);
      WeightConcat(rs, Runs(lens, n + 1, 0, 0));
    }
  }

  /** A length between zeros takes a symbol of its own. */
  lemma LoneWeight(lens: seq<nat>, n: nat)
    requires Small(lens) && n + 1 < |lens| && lens[n] != 0 && lens[n + 1] == 0
    ensures Weight(Runs(lens, n, 0, 0)) == 1 + Weight(Runs(lens, n + 1, 0, lens[n]))
  {
    hide Weight;
    var rs := Emit(lens[n], 0, 1);
    assert rs == [Run(lens[n], 0)];
    WeightOne(rs[0]);
    WeightConcat(rs, Runs(lens, n + 1, 0, lens[n]));
  }

  predicate IsSparse(s: nat) {
    (144 <= s <= 216 && s % 12 == 0) || (216 <= s <= 248 && s % 4 == 0)
  }

  function SparseIndex(s: nat): (i: nat)
    requires IsSparse(s)
    ensures i < 15 && Sparse(i) == s
  {
    if s <= 216 then (s - 144) / 12 else 6 + (s - 216) / 4
  }

  ghost predicate SparseLens(llens: seq<nat>) {
    && 257 <= |llens| && Small(llens) && llens[256] > 0
    && forall s :: 0 <= s < 256 ==> (llens[s] != 0 <==> IsSparse(s))
  }

  /** The weight of the lengths from the `i`-th literal on. */
  lemma {:induction false} SparseRuns(llens: seq<nat>, i: nat)
    requires SparseLens(llens) && i < 15
    ensures Weight(Runs(llens, Sparse(i), 0, 0)) >= if i < 6 then 9 * (6 - i) + 46 else 5 * (14 - i) + 6
    decreases 15 - i
  {
    hide Weight, Runs;
    var n := Sparse(i);
    assert IsSparse(n);
    var m := if i < 14 then Sparse(i + 1) else 256;
    LoneWeight(llens, n);
    assert m < 256 ==> IsSparse(m);
    GapWeight(llens, n + 1, m, 0, llens[n]);
    if i < 14 {
      SparseRuns(llens, i + 1);
    } else {
      SomeRun(llens, m, 0, 0);
    }
  }

  lemma SparseHeader(llens: seq<nat>, dlens: seq<nat>, bllens: seq<nat>, blcodes: nat)
    requires HeaderOk(llens, dlens, bllens, blcodes) && SparseLens(llens)
    ensures |HeaderBits(llens, dlens, bllens, blcodes)| >= 127
  {
    hide Weight, Runs, RunBits, BitsOf, OrderBits;
    assert IsSparse(144);
    LeadingZeros(llens, 0, 144, 0, -1);
    SparseRuns(llens, 0);
    SomeRun(dlens, 0, 0, -1);
    WeightConcat(AllRuns(llens), AllRuns(dlens));
    WeightBits(bllens, AllRuns(llens) + AllRuns(dlens));
    OrderSize(bllens, blcodes);
  }

  lemma {:induction false} BodyAtLeast(t: Tables, codes: Codes, toks: seq<Lz.Token>)
    requires t.Valid() && AllCodable(t, codes.llens, codes.dlens, toks)
    ensures |Encode(t, codes.llens, codes.dlens, toks)| >= |toks|
    decreases |toks|
  {
    hide Tables.Valid, BitsOf;
    if toks != [] {
      BodyAtLeast(t, codes, toks[..|toks| - 1]);
    }
  }

  // which symbols occur

  lemma {:induction false} Occurs(t: Tables, toks: seq<Lz.Token>, s: nat)
    requires |t.lengthCode| == 256 && AllValid(toks) && s < L_CODES
    requires forall i :: 0 <= i < |toks| ==> toks[i].Literal?
    ensures LFreq(t, toks)[s] > 0 <==> s == END_BLOCK || Lz.Literal(s) in toks
    decreases |toks|
  {
    if toks != [] {
      Occurs(t, toks[..|toks| - 1], s);
      assert toks == toks[..|toks| - 1] + [toks[|toks| - 1]];
    }
  }

  lemma InSparse(s: nat)
    ensures Lz.Literal(s) in SparseTokens() <==> IsSparse(s)
  {
    if IsSparse(s) {
      assert SparseTokens()[SparseIndex(s)] == Lz.Literal(s);
    }
  }

  lemma {:induction false} SparseLean(t: Tables, llens: seq<nat>)
    requires |t.lengthCode| == 256 && AllValid(SparseTokens()) && Lean(LFreq(t, SparseTokens()), llens)
    requires 257 <= |llens| && Small(llens) && llens[256] > 0
    requires forall i :: 0 <= i < 15 ==> llens[Sparse(i)] > 0
    ensures SparseLens(llens)
  {
    hide LFreq;
    var f := LFreq(t, SparseTokens());
    forall s | 0 <= s < L_CODES ensures f[s] > 0 <==> s == END_BLOCK || IsSparse(s) {
      Occurs(t, SparseTokens(), s);
      InSparse(s);
    }
    AtLeastTwo(f, |f|, 144, 256);
    forall s | 0 <= s < 256 ensures llens[s] != 0 <==> IsSparse(s) {
      if IsSparse(s) {
        assert llens[Sparse(SparseIndex(s))] > 0;
      }
    }
  }

  lemma {:induction false} SparseDynamic(t: Tables, b: Block)
    requires t.Valid() && BlockOk(t, b) && b.DynamicBlock? && b.toks == SparseTokens()
    requires |t.lengthCode| == 256 && AllValid(b.toks) && Lean(LFreq(t, b.toks), b.llens)
    ensures Size(t, b) >= 146
  {
    hide Tables.Valid, BitsOf, LFreq, HeaderBits, Encode, Lean, RunsCodable, BlOrder;
    forall i | 0 <= i < 15 ensures b.llens[Sparse(i)] > 0 {
      assert Codable(t, b.llens, b.dlens, SparseTokens()[i]);
    }
    SparseLean(t, b.llens);
    SparseHeader(b.llens, b.dlens, b.bllens, b.blcodes);
    BodyAtLeast(t, Codes(b.llens, b.dlens), b.toks);
  }

  /**
   These fifteen bytes are stored, wherever the block begins, though the static codes would
   take 10 to 17 bits less; 17 is as far as it goes.
  */
  lemma {:induction false} StoredLarger(t: Tables, b: Block, dynamic: Block, fixed: bool, last: bool, at: nat)
    requires t.Valid() && BlockOk(t, b) && BlockOk(t, dynamic) && BlockOk(t, StaticBlock(SparseTokens()))
    requires dynamic.DynamicBlock? && dynamic.toks == SparseTokens()
    requires |t.lengthCode| == 256 && AllValid(SparseTokens()) && Lean(LFreq(t, SparseTokens()), dynamic.llens)
    requires Chosen(t, b, SparseTokens(), dynamic, SparseText(), true, fixed)
    ensures b == StoredBlock(SparseText())
    ensures |BlockBits(t, b, last, at)| == |BlockBits(t, StaticBlock(SparseTokens()), last, at)| + 10 + Padding(at + 3)
    ensures at % 8 == 6 ==> |BlockBits(t, b, last, at)| == |BlockBits(t, StaticBlock(SparseTokens()), last, at)| + 17
  {
    hide BlockBits, BlockOk, Tables.Valid, Size, Lean, LFreq;
    SparseStatic(t);
    SparseDynamic(t, dynamic);
    SizeAt(t, b, last, at);
    SizeAt(t, StaticBlock(SparseTokens()), last, at);
  }
}
