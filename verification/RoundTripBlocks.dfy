/** The round trip for the headers of dynamic blocks, for blocks of every kind, and for streams of blocks. */
module RoundTripBlocks {
  import opened Bits
  import opened Canonical
  import opened DecodeTable
  import opened StaticCodes
  import opened RunLength
  import opened CompressBlock
  import opened SendTree
  import opened SendAllTrees
  import opened InflateSpec
  import opened InflateTheory
  import opened RoundTrip
  import Lz = Lz77
  import Enough

  /** The encoder's order and the decoder's are the same, and `Rank` is its inverse. */
  lemma OrdersAgree(i: nat)
    ensures BlOrder(i) == Order(i)
    ensures i < 19 ==> Rank(Order(i)) == i && Rank(i) < 19 && Order(Rank(i)) == i && Order(i) < 19
  {
  }

  // ------------------------------------------------- the header

  /** The first `n` lengths in the order in which they are sent. */
  function Sent(bllens: seq<nat>, n: nat): (cl: seq<nat>)
    requires |bllens| == 19
    ensures |cl| == n
  {
    seq(n, i requires 0 <= i => if Order(i) < 19 then bllens[Order(i)] else 0)
  }

  lemma SentAll(bllens: seq<nat>, n: nat)
    requires |bllens| == 19 && n <= 19 && forall i :: n <= i < 19 ==> Order(i) < 19 && bllens[Order(i)] == 0
    ensures ByOrder(Sent(bllens, n)) == bllens
  {
    hide Order, Rank;
    forall s: nat | s < 19 ensures ByOrder(Sent(bllens, n))[s] == bllens[s] {
      OrdersAgree(s);
      OrdersAgree(Rank(s));
    }
  }

  lemma {:induction false} CountsRead(input: seq<bool>, c: Config, l: nat, d: nat, b: nat)
    requires c.mode == Table && 257 <= l <= 286 && 1 <= d <= 30 && 4 <= b <= 19
    requires Has(input, c.pos, BitsOf(l - 257, 5) + BitsOf(d - 1, 5) + BitsOf(b - 4, 4))
    ensures Reaches(input, c, c.(mode := LenLens(l, d, b, []), pos := c.pos + 14))
  {
    hide Step, Peek, BitsOf, Reaches;
    Pow2Small();
    HasParts(input, c.pos, BitsOf(l - 257, 5) + BitsOf(d - 1, 5), BitsOf(b - 4, 4));
    HasParts(input, c.pos, BitsOf(l - 257, 5), BitsOf(d - 1, 5));
    PeekHas(input, c.pos, 0, l - 257, 5);
    PeekHas(input, c.pos, 5, d - 1, 5);
    PeekHas(input, c.pos, 10, b - 4, 4);
    StepOf(input, c);
    ReachesStep(input, c);
  }

  lemma {:induction false} OrderRead(input: seq<bool>, c: Config, l: nat, d: nat, b: nat, bllens: seq<nat>, n: nat)
    requires c.mode == LenLens(l, d, b, []) && |bllens| == 19 && (forall i :: 0 <= i < 19 ==> bllens[i] < 8)
    requires n <= b <= 19
    requires Has(input, c.pos, OrderBits(bllens, n))
    ensures Reaches(input, c, c.(mode := LenLens(l, d, b, Sent(bllens, n)), pos := c.pos + |OrderBits(bllens, n)|))
    decreases n
  {
    hide Step, Peek, BitsOf, Reaches, Order, BlOrder, ByOrder, BuildOk;
    if n == 0 {
      assert Sent(bllens, 0) == [];
      ReachesSelf(input, c);
    } else {
      OrdersAgree(n - 1);
      var bits, v := OrderBits(bllens, n - 1), bllens[Order(n - 1)];
      HasParts(input, c.pos, bits, BitsOf(v, 3));
      OrderRead(input, c, l, d, b, bllens, n - 1);
      var e := c.(mode := LenLens(l, d, b, Sent(bllens, n - 1)), pos := c.pos + |bits|);
      Pow2Small();
      PeekHas(input, e.pos, 0, v, 3);
      StepOfLengths(input, e);
      ReachesStep(input, e);
      assert Sent(bllens, n) == Sent(bllens, n - 1) + [v];
      ReachesTrans(input, c, e, Step(input, e).c);
    }
  }

  /** One run-length symbol is read and applied. */
  lemma RunRead(input: seq<bool>, c: Config, r: Run, more: seq<nat>)
    requires c.mode.CodeLens? && |c.mode.clens| == 19 && ValidLens(c.mode.clens) && Accepted(CODES, c.mode.clens)
    requires HasCode(c.mode.clens, r.sym) && ValidRun(r) && Has(input, c.pos, OneRunBits(c.mode.clens, r))
    requires |c.mode.lens| < c.mode.nlen + c.mode.ndist && Apply(c.mode.lens, r) == Some(more)
    requires |more| <= c.mode.nlen + c.mode.ndist
    ensures Reaches(input, c, c.(mode := CodeLens(c.mode.nlen, c.mode.ndist, c.mode.clens, more),
                                 pos := c.pos + |OneRunBits(c.mode.clens, r)|))
  {
    hide Step, Peek, BitsOf, Reaches, DecodeAt, Accepted, CodesReady, Huff;
    var lens := c.mode.clens;
    HasParts(input, c.pos, CodeBits(lens, r.sym), BitsOf(r.extra, ExtraBlBits(r.sym)));
    DecodeHas(CODES, lens, input, c.pos, r.sym);
    StepOfLengths(input, c);
    if r.sym < 16 {
      assert Step(input, c) == To(c.(mode := CodeLens(c.mode.nlen, c.mode.ndist, lens, more),
        pos := c.pos + lens[r.sym]));
    } else {
      PeekHas(input, c.pos, lens[r.sym], r.extra, ExtraBlBits(r.sym));
    }
    ReachesStep(input, c);
  }

  lemma {:induction false} ExpandUpTo(rs: seq<Run>, k: nat)
    requires Expand([], rs).Some? && k <= |rs|
    ensures Expand([], rs[..k]).Some? && |Expand([], rs[..k]).value| + (|rs| - k) <= |Expand([], rs).value|
    ensures k < |rs| ==> Expand([], rs[..k + 1]) == Apply(Expand([], rs[..k]).value, rs[k])
  {
    hide Apply;
    RunLength.ExpandConcat([], rs[..k], rs[k..]);
    assert rs == rs[..k] + rs[k..];
    ExpandGrows(Expand([], rs[..k]).value, rs[k..]);
    if k < |rs| {
      RunLength.ExpandConcat([], rs[..k], [rs[k]]);
      assert rs[..k + 1] == rs[..k] + [rs[k]];
      ExpandOne(Expand([], rs[..k]).value, rs[k]);
    }
  }

  lemma {:induction false} RunsRead(input: seq<bool>, c: Config, rs: seq<Run>, k: nat)
    requires c.mode.CodeLens? && c.mode.lens == [] && |c.mode.clens| == 19 && ValidLens(c.mode.clens)
    requires Accepted(CODES, c.mode.clens)
    requires k <= |rs| && RunsCodable(c.mode.clens, rs) && (forall r :: r in rs ==> ValidRun(r))
    requires RunsCodable(c.mode.clens, rs[..k]) && Has(input, c.pos, RunBits(c.mode.clens, rs[..k]))
    requires Expand([], rs).Some? && |Expand([], rs).value| == c.mode.nlen + c.mode.ndist
    ensures Expand([], rs[..k]).Some?
    ensures Reaches(input, c, c.(mode := CodeLens(c.mode.nlen, c.mode.ndist, c.mode.clens, Expand([], rs[..k]).value),
                                 pos := c.pos + |RunBits(c.mode.clens, rs[..k])|))
    decreases k
  {
    hide Step, BitsOf, Reaches, Accepted, OneRunBits, HasCode, ValidRun, Apply, ValidLens;
    ExpandUpTo(rs, k);
    if k == 0 {
      assert rs[..0] == [];
      ReachesSelf(input, c);
    } else {
      var lens, m := c.mode.clens, k - 1;
      assert rs[..k][..m] == rs[..m];
      assert rs[..k][m] == rs[m] && rs[m] in rs && HasCode(lens, rs[m].sym);
      HasParts(input, c.pos, RunBits(lens, rs[..m]), OneRunBits(lens, rs[m]));
      RunsRead(input, c, rs, m);
      ExpandUpTo(rs, m);
      var e := c.(mode := CodeLens(c.mode.nlen, c.mode.ndist, lens, Expand([], rs[..m]).value),
                  pos := c.pos + |RunBits(lens, rs[..m])|);
      RunRead(input, e, rs[m], Expand([], rs[..k]).value);
      ReachesTrans(input, c, e, c.(mode := CodeLens(c.mode.nlen, c.mode.ndist, lens, Expand([], rs[..k]).value),
                                   pos := c.pos + |RunBits(lens, rs[..k])|));
    }
  }

  /** Both codes are good, there is a code for the end, and nothing is cut off the code-length code. */
  ghost predicate GoodCodes(llens: seq<nat>, dlens: seq<nat>, bllens: seq<nat>, blcodes: nat) {
    && HeaderOk(llens, dlens, bllens, blcodes) && Accepted(LENS, llens) && Accepted(DISTS, dlens)
    && Accepted(CODES, bllens)
    && llens[END_BLOCK] > 0 && forall i :: blcodes <= i < 19 ==> bllens[BlOrder(i)] == 0
  }

  lemma ReadyIs(llens: seq<nat>, dlens: seq<nat>)
    requires 257 <= |llens| <= 286 && |dlens| <= 30 && Small(llens) && Small(dlens)
    requires Accepted(LENS, llens) && Accepted(DISTS, dlens) && llens[256] > 0
    ensures CodesReady(|llens|, llens + dlens) == Len(Codes(llens, dlens)) && SaneCodes(Codes(llens, dlens))
  {
    hide Accepted, DecodeTable.Fits;
    Enough.EnoughRoom(llens);
    Enough.EnoughRoom(dlens);
    assert (llens + dlens)[..|llens|] == llens && (llens + dlens)[|llens|..] == dlens;
  }

  /** The header is read as the codes it was made from. */
  lemma HeaderRead(input: seq<bool>, c: Config, llens: seq<nat>, dlens: seq<nat>, bllens: seq<nat>, blcodes: nat)
    requires c.mode == Table && GoodCodes(llens, dlens, bllens, blcodes)
    requires Has(input, c.pos, HeaderBits(llens, dlens, bllens, blcodes))
    ensures SaneCodes(Codes(llens, dlens))
    ensures Reaches(input, c, c.(mode := Len(Codes(llens, dlens)),
      pos := c.pos + |HeaderBits(llens, dlens, bllens, blcodes)|))
  {
    hide Step, BitsOf, Reaches, Accepted, HasCode, OrderBits, RunBits, BlOrder, ByOrder, AllRuns, Has, SaneCodes,
         CodesReady, DecodeTable.Fits;
    var l, d := |llens|, |dlens|;
    var counts := BitsOf(l - 257, 5) + BitsOf(d - 1, 5) + BitsOf(blcodes - 4, 4);
    var order, rs := OrderBits(bllens, blcodes), AllRuns(llens) + AllRuns(dlens);
    HasParts(input, c.pos, counts + order, RunBits(bllens, rs));
    HasParts(input, c.pos, counts, order);
    CountsRead(input, c, l, d, blcodes);
    var c1 := c.(mode := LenLens(l, d, blcodes, []), pos := c.pos + |counts|);
    OrderRead(input, c1, l, d, blcodes, bllens, blcodes);
    var c2 := c1.(mode := LenLens(l, d, blcodes, Sent(bllens, blcodes)), pos := c1.pos + |order|);
    ReachesTrans(input, c, c1, c2);
    LengthsBuilt(input, c2, l, d, bllens, blcodes);
    var c3 := c2.(mode := CodeLens(l, d, bllens, []));
    ReachesTrans(input, c, c2, c3);
    TwoTreesRoundTrip(llens, dlens);
    assert rs[..|rs|] == rs;
    RunsRead(input, c3, rs, |rs|);
    var c4 := c3.(mode := CodeLens(l, d, bllens, llens + dlens), pos := c3.pos + |RunBits(bllens, rs)|);
    ReachesTrans(input, c, c3, c4);
    ReadyIs(llens, dlens);
    StepOfLengths(input, c4);
    ReachesStep(input, c4);
    ReachesTrans(input, c, c4,
                 c.(mode := Len(Codes(llens, dlens)), pos := c.pos + |HeaderBits(llens, dlens, bllens, blcodes)|));
  }

  lemma LengthsBuilt(input: seq<bool>, c: Config, l: nat, d: nat, bllens: seq<nat>, n: nat)
    requires |bllens| == 19 && n <= 19 && c.mode == LenLens(l, d, n, Sent(bllens, n)) && Accepted(CODES, bllens)
    requires forall i :: n <= i < 19 ==> bllens[BlOrder(i)] == 0
    ensures Reaches(input, c, c.(mode := CodeLens(l, d, bllens, [])))
  {
    hide Step, Accepted, BlOrder, Order, Reaches, ByOrder, Sent;
    forall i | n <= i < 19 ensures Order(i) < 19 && bllens[Order(i)] == 0 {
      OrdersAgree(i);
    }
    SentAll(bllens, n);
    StepOfLengths(input, c);
    ReachesStep(input, c);
  }

  // ------------------------------------------------- blocks

  datatype Block =
    | StoredBlock(bytes: seq<Byte>)
    | StaticBlock(toks: seq<Lz.Token>)
    | DynamicBlock(toks: seq<Lz.Token>, llens: seq<nat>, dlens: seq<nat>, bllens: seq<nat>, blcodes: nat)

  /** The codes have words for all tokens. */
  ghost predicate BodyOk(t: Tables, codes: Codes, toks: seq<Lz.Token>)
    requires t.Valid()
  {
    AllCodable(t, codes.llens, codes.dlens, toks) && HasCode(codes.llens, END_BLOCK)
  }

  ghost predicate BlockOk(t: Tables, b: Block)
    requires t.Valid()
  {
    match b
    case StoredBlock(bytes) => |bytes| < 0x10000
    case StaticBlock(toks) => BodyOk(t, FixedCodes(), toks)
    case DynamicBlock(toks, llens, dlens, bllens, blcodes) =>
      GoodCodes(llens, dlens, bllens, blcodes) && BodyOk(t, Codes(llens, dlens), toks)
  }

  function Bit(last: bool): nat {
    if last then 1 else 0
  }

  function Padding(pos: nat): nat {
    AlignUp(pos) - pos
  }

  /** The bits of a block that is written from bit `pos` of the stream on. */
  ghost function BlockBits(t: Tables, b: Block, last: bool, pos: nat): seq<bool>
    requires t.Valid() && BlockOk(t, b)
  {
    match b
    case StoredBlock(bytes) =>
      BitsOf(Bit(last), 3) + BitsOf(0, Padding(pos + 3))
      + (BitsOf(|bytes|, 16) + BitsOf(0xffff - |bytes|, 16) + StreamOf(bytes))
    case StaticBlock(toks) => BitsOf(2 + Bit(last), 3) + BodyBits(t, FixedCodes(), toks)
    case DynamicBlock(toks, llens, dlens, bllens, blcodes) =>
      BitsOf(4 + Bit(last), 3) + (HeaderBits(llens, dlens, bllens, blcodes) + BodyBits(t, Codes(llens, dlens), toks))
  }

  predicate BlockFits(out: seq<nat>, b: Block) {
    b.StoredBlock? || Lz.AllFit(out, b.toks)
  }

  /** The text after a block. */
  function BlockText(out: seq<nat>, b: Block): seq<nat>
    requires BlockFits(out, b)
  {
    if b.StoredBlock? then out + b.bytes else Lz.Expand(out, b.toks)
  }

  /** The three bits at the start of a block. */
  lemma {:induction false} TypeRead(input: seq<bool>, c: Config, kind: nat, last: bool)
    requires c.mode == Type && !c.last && kind < 3 && Has(input, c.pos, BitsOf(2 * kind + Bit(last), 3))
    ensures Reaches(input, c, c.(mode := BlockMode(kind), last := last, pos := c.pos + 3))
  {
    hide Step, Reaches, FixedCodes;
    var v := 2 * kind + Bit(last);
    BitsOfSplit(v, 1, 2);
    assert Shr(v, 1) == kind && BitsOf(v, 1) == BitsOf(Bit(last), 1);
    HasParts(input, c.pos, BitsOf(v, 1), BitsOf(kind, 2));
    Pow2Small();
    PeekHas(input, c.pos, 0, Bit(last), 1);
    PeekHas(input, c.pos, 1, kind, 2);
    StepOf(input, c);
    ReachesStep(input, c);
  }

  /** Stored bytes are copied. */
  lemma {:induction false} BytesRead(input: seq<bool>, c: Config, bytes: seq<Byte>)
    requires c.mode == Copy(|bytes|) && Has(input, c.pos, StreamOf(bytes))
    ensures Reaches(input, c, c.(mode := Type, pos := c.pos + 8 * |bytes|, out := c.out + bytes))
    decreases |bytes|
  {
    hide Step, Reaches, BitsOf, Peek, Has;
    StepOf(input, c);
    if bytes == [] {
      assert c.out + bytes == c.out;
      ReachesStep(input, c);
    } else {
      HasParts(input, c.pos, BitsOf(bytes[0], 8), StreamOf(bytes[1..]));
      Pow2Small();
      PeekHas(input, c.pos, 0, bytes[0], 8);
      ReachesStep(input, c);
      var b := Step(input, c).c;
      BytesRead(input, b, bytes[1..]);
      assert b.out + bytes[1..] == c.out + bytes;
      ReachesTrans(input, c, b, c.(mode := Type, pos := c.pos + 8 * |bytes|, out := c.out + bytes));
    }
  }

  lemma AlignTwice(pos: nat)
    ensures pos <= AlignUp(pos) && AlignUp(pos) % 8 == 0 && (pos % 8 == 0 ==> AlignUp(pos) == pos)
  {
    assert (pos + 7) / 8 * 8 == pos + 7 - (pos + 7) % 8;
  }

  /** Skipping to the next byte. */
  lemma PaddingRead(input: seq<bool>, c: Config)
    requires c.mode == Stored && AlignUp(c.pos) <= |input|
    ensures AlignUp(c.pos) % 8 == 0 && Reaches(input, c, c.(pos := AlignUp(c.pos)))
  {
    hide Step, Reaches, Peek;
    AlignTwice(c.pos);
    if c.pos % 8 == 0 {
      ReachesSelf(input, c);
    } else {
      StepOf(input, c);
      ReachesStep(input, c);
    }
  }

  lemma {:induction false} StoredRead(input: seq<bool>, c: Config, bytes: seq<Byte>)
    requires c.mode == Stored && |bytes| < 0x10000
    requires Has(input, AlignUp(c.pos), BitsOf(|bytes|, 16) + BitsOf(0xffff - |bytes|, 16) + StreamOf(bytes))
    ensures Reaches(input, c, c.(mode := Type, pos := AlignUp(c.pos) + 32 + 8 * |bytes|, out := c.out + bytes))
  {
    hide Step, Reaches, BitsOf, Peek, StreamOf;
    var n, at := |bytes|, AlignUp(c.pos);
    Pow2Small();
    HasParts(input, at, BitsOf(n, 16) + BitsOf(0xffff - n, 16), StreamOf(bytes));
    HasParts(input, at, BitsOf(n, 16), BitsOf(0xffff - n, 16));
    PeekHas(input, at, 0, n, 16);
    PeekHas(input, at, 16, 0xffff - n, 16);
    PaddingRead(input, c);
    var b := c.(pos := at);
    StepOf(input, b);
    ReachesStep(input, b);
    var d := b.(mode := Copy(n), pos := at + 32);
    ReachesTrans(input, c, b, d);
    BytesRead(input, d, bytes);
    ReachesTrans(input, c, d, c.(mode := Type, pos := at + 32 + 8 * n, out := c.out + bytes));
  }

  /** The reader after block `b`. */
  ghost function AfterBlock(t: Tables, b: Block, last: bool, c: Config): Config
    requires t.Valid() && BlockOk(t, b) && BlockFits(c.out, b)
  {
    Config(Type, last, c.pos + |BlockBits(t, b, last, c.pos)|, BlockText(c.out, b))
  }

  /** Every block is read back as the text it was made from. */
  lemma BlockRead(t: Tables, input: seq<bool>, c: Config, b: Block, last: bool)
    requires t.Valid() && BlockOk(t, b) && BlockFits(c.out, b) && c.mode == Type && !c.last
    requires Has(input, c.pos, BlockBits(t, b, last, c.pos))
    ensures Reaches(input, c, AfterBlock(t, b, last, c))
  {
    hide Reaches, Tables.Valid, BodyOk, GoodCodes, HeaderBits, BodyBits, FixedCodes, Has, StreamOf, BitsOf;
    match b
    case StoredBlock(bytes) => StoredBlockRead(t, input, c, bytes, last);
    case StaticBlock(toks) => StaticBlockRead(t, input, c, toks, last);
    case DynamicBlock(toks, llens, dlens, bllens, blcodes) => DynamicBlockRead(t, input, c, toks, llens, dlens, bllens,
      blcodes, last);
  }

  lemma StoredBlockRead(t: Tables, input: seq<bool>, c: Config, bytes: seq<Byte>, last: bool)
    requires t.Valid() && |bytes| < 0x10000 && c.mode == Type && !c.last
    requires Has(input, c.pos, BlockBits(t, StoredBlock(bytes), last, c.pos))
    ensures Reaches(input, c, AfterBlock(t, StoredBlock(bytes), last, c))
  {
    hide Reaches, Tables.Valid, Has, StreamOf, BitsOf, AlignUp;
    var data := BitsOf(|bytes|, 16) + BitsOf(0xffff - |bytes|, 16) + StreamOf(bytes);
    AlignTwice(c.pos + 3);
    HasParts(input, c.pos, BitsOf(Bit(last), 3) + BitsOf(0, Padding(c.pos + 3)), data);
    HasParts(input, c.pos, BitsOf(Bit(last), 3), BitsOf(0, Padding(c.pos + 3)));
    TypeRead(input, c, 0, last);
    var d := c.(mode := Stored, last := last, pos := c.pos + 3);
    StoredRead(input, d, bytes);
    ReachesTrans(input, c, d, AfterBlock(t, StoredBlock(bytes), last, c));
  }

  lemma {:induction false} StaticBlockRead(t: Tables, input: seq<bool>, c: Config, toks: seq<Lz.Token>, last: bool)
    requires t.Valid() && BodyOk(t, FixedCodes(), toks) && Lz.AllFit(c.out, toks) && c.mode == Type && !c.last
    requires Has(input, c.pos, BlockBits(t, StaticBlock(toks), last, c.pos))
    ensures Reaches(input, c, AfterBlock(t, StaticBlock(toks), last, c))
  {
    hide Reaches, Tables.Valid, Has, BitsOf, FixedCodes, SaneCodes, BodyBits, Codable, HasCode;
    HasParts(input, c.pos, BitsOf(2 + Bit(last), 3), BodyBits(t, FixedCodes(), toks));
    TypeRead(input, c, 1, last);
    FixedAccepted();
    var d := c.(mode := Len(FixedCodes()), last := last, pos := c.pos + 3);
    BodyRead(t, input, d, toks);
    ReachesTrans(input, c, d, AfterBlock(t, StaticBlock(toks), last, c));
  }

  lemma {:induction false} DynamicBlockRead(t: Tables, input: seq<bool>, c: Config, toks: seq<Lz.Token>,
                                            llens: seq<nat>, dlens: seq<nat>, bllens: seq<nat>, blcodes: nat,
                                            last: bool)
    requires t.Valid() && BlockOk(t, DynamicBlock(toks, llens, dlens, bllens, blcodes)) && Lz.AllFit(c.out, toks)
    requires c.mode == Type && !c.last
    requires Has(input, c.pos, BlockBits(t, DynamicBlock(toks, llens, dlens, bllens, blcodes), last, c.pos))
    ensures Reaches(input, c, AfterBlock(t, DynamicBlock(toks, llens, dlens, bllens, blcodes), last, c))
  {
    hide Reaches, Tables.Valid, Has, BitsOf, SaneCodes, BodyBits, Codable, HasCode, HeaderBits, HeaderOk, FixedCodes,
         Accepted, BlOrder;
    var codes, b := Codes(llens, dlens), DynamicBlock(toks, llens, dlens, bllens, blcodes);
    var head, body := HeaderBits(llens, dlens, bllens, blcodes), BodyBits(t, codes, toks);
    HasParts(input, c.pos, BitsOf(4 + Bit(last), 3), head + body);
    HasParts(input, c.pos + 3, head, body);
    TypeRead(input, c, 2, last);
    var d := c.(mode := Table, last := last, pos := c.pos + 3);
    HeaderRead(input, d, llens, dlens, bllens, blcodes);
    var e := d.(mode := Len(codes), pos := d.pos + |head|);
    ReachesTrans(input, c, d, e);
    BodyRead(t, input, e, toks);
    ReachesTrans(input, c, e, AfterBlock(t, b, last, c));
  }

  // ------------------------------------------------- streams

  /** The blocks stand in the stream one after another, the last one marked, and make `out` into `text`. */
  ghost predicate Written(t: Tables, input: seq<bool>, pos: nat, out: seq<nat>, blocks: seq<Block>, end: nat,
                          text: seq<nat>)
    requires t.Valid()
    decreases |blocks|
  {
    blocks != [] && BlockOk(t, blocks[0]) && BlockFits(out, blocks[0]) &&
    var last := |blocks| == 1;
    var bits, next := BlockBits(t, blocks[0], last, pos), BlockText(out, blocks[0]);
    && Has(input, pos, bits)
    && if last then end == pos + |bits| && text == next
       else Written(t, input, pos + |bits|, next, blocks[1..], end, text)
  }

  /** A whole stream of blocks, of any kinds, is inflated to the text they were made from. */
  lemma {:induction false} StreamRead(t: Tables, input: seq<bool>, c: Config, blocks: seq<Block>, end: nat,
                                      text: seq<nat>)
    requires t.Valid() && c.mode == Type && !c.last && Written(t, input, c.pos, c.out, blocks, end, text)
    ensures Reaches(input, c, Config(Done, true, AlignUp(end), text))
    decreases |blocks|
  {
    hide Step, Reaches, Tables.Valid, Has, BlockOk, BlockFits, BlockBits, BlockText;
    var last := |blocks| == 1;
    BlockRead(t, input, c, blocks[0], last);
    var d := AfterBlock(t, blocks[0], last, c);
    if last {
      StepOf(input, d);
      ReachesStep(input, d);
    } else {
      StreamRead(t, input, d, blocks[1..], end, text);
    }
    ReachesTrans(input, c, d, Config(Done, true, AlignUp(end), text));
  }
}
