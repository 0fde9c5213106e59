/**
 The encoder as a whole: a text given to `deflate` in pieces and finished (src/zlib/deflate.c),
 its tokens tallied and written block by block (src/zlib/trees.c).
 */
module DeflateStream {
  import opened Bits
  import opened StaticCodes
  import opened BitWriter
  import opened CompressBlock
  import opened Coding = GenCodes
  import opened SendAllTrees
  import opened InflateSpec
  import opened RoundTrip
  import opened RoundTripBlocks
  import opened Codec
  import opened Flushing = FlushBlock
  import Statics = StaticTrees
  import Choice = BlockChoice
  import Sizes = BlockSizes
  import Chains = HashChains
  import LongestMatch
  import ChunkInvariance
  import D = Deflate
  import Loops = DeflateLoops
  import Lz = Lz77
  import Lazy = LazyMatching
  import Greedy = GreedyMatching
  import Runs = RunTokens

  // ------------------------------------------------- finding the tokens

  /** Which of the loops is used. */
  datatype Strategy = Fast | Slow(filtered: bool) | Rle

  /** The text, from the pieces in which it is given. */
  function Text(pieces: seq<seq<Byte>>): seq<Byte> {
    if pieces == [] then [] else Text(pieces[..|pieces| - 1]) + pieces[|pieces| - 1]
  }

  lemma TextNext(pieces: seq<seq<Byte>>, n: nat)
    requires n < |pieces|
    ensures Text(pieces[..n + 1]) == Text(pieces[..n]) + pieces[n]
  {
    assert pieces[..n + 1][..n] == pieces[..n];
  }

  lemma WholeText(pieces: seq<seq<Byte>>)
    ensures Text(pieces[..0]) == [] && pieces[..|pieces|] == pieces
  {
  }

  method FastTokens(p: Chains.Params, tuning: LongestMatch.Tuning, pieces: seq<seq<Byte>>)
    returns (toks: seq<Lz.Token>, ghost steps: seq<Greedy.Step>)
    requires p.Valid()
    ensures D.Covers(toks, Text(pieces), |Text(pieces)|)
    ensures Greedy.GreedyTokens(p, tuning, Text(pieces), steps, toks)
  {
    hide Loops.FastLinked, Greedy.GreedyTokens, Loops.FastOk, D.Covers, Text, Loops.Fresh;
    var s := Loops.Fresh(p);
    ghost var base: nat, ins: set<nat> := 0, {};
    steps := [];
    Loops.FreshOk(p);
    WholeText(pieces);
    for n := 0 to |pieces|
      invariant Loops.FastOk(p, s, Text(pieces[..n]), base, ins)
      invariant Loops.FastLinked(p, tuning, s, Text(pieces[..n]), base, ins, steps)
    {
      TextNext(pieces, n);
      s, base, ins, steps := Loops.DeflateFast(p, tuning, s, pieces[n], false, Text(pieces[..n]), base, ins, steps);
    }
    assert Text(pieces) + [] == Text(pieces);
    s, base, ins, steps := Loops.DeflateFast(p, tuning, s, [], true, Text(pieces), base, ins, steps);
    toks := s.toks;
  }

  method SlowTokens(p: Chains.Params, tuning: LongestMatch.Tuning, filtered: bool, pieces: seq<seq<Byte>>)
    returns (toks: seq<Lz.Token>, ghost rounds: seq<Lazy.Round>)
    requires p.Valid()
    ensures D.Covers(toks, Text(pieces), |Text(pieces)|)
    ensures Lazy.LazyTokens(p, tuning, filtered, Text(pieces), rounds, toks)
  {
    hide Loops.Linked, Lazy.LazyTokens, Loops.SlowOk, D.Covers, Text, Loops.Fresh;
    var s := Loops.Fresh(p);
    ghost var base: nat, ins: set<nat> := 0, {};
    rounds := [];
    Loops.FreshOk(p);
    WholeText(pieces);
    for n := 0 to |pieces|
      invariant Loops.SlowOk(p, s, Text(pieces[..n]), base, ins)
      invariant Loops.Linked(p, tuning, filtered, s, Text(pieces[..n]), base, ins, rounds)
    {
      TextNext(pieces, n);
      s, base, ins, rounds := Loops.DeflateSlow(p, tuning, filtered, s, pieces[n], false, Text(pieces[..n]), base, ins,
                                                rounds);
    }
    assert Text(pieces) + [] == Text(pieces);
    s, base, ins, rounds := Loops.DeflateSlow(p, tuning, filtered, s, [], true, Text(pieces), base, ins, rounds);
    toks := s.toks;
  }

  method RleTokens(p: Chains.Params, pieces: seq<seq<Byte>>) returns (toks: seq<Lz.Token>)
    requires p.Valid()
    ensures D.Covers(toks, Text(pieces), |Text(pieces)|)
    ensures toks == Runs.TokensFrom(Text(pieces), 0)
  {
    hide Loops.RleLinked, Runs.TokensFrom, Loops.RleOk, D.Covers, Text, Loops.Fresh;
    var s := Loops.Fresh(p);
    ghost var base: nat := 0;
    Loops.FreshOk(p);
    WholeText(pieces);
    for n := 0 to |pieces|
      invariant Loops.RleOk(p, s, Text(pieces[..n]), base) && Loops.RleLinked(p, s, Text(pieces[..n]), base)
    {
      TextNext(pieces, n);
      s, base := Loops.DeflateRle(p, s, pieces[n], false, Text(pieces[..n]), base);
    }
    assert Text(pieces) + [] == Text(pieces);
    s, base := Loops.DeflateRle(p, s, [], true, Text(pieces), base);
    toks := s.toks;
  }

  // ------------------------------------------------- blocks that are laid one after another

  /** As `Laid`, without a last block: the blocks reach from `pos` to `end` and make `out` into `now`. */
  ghost predicate LaidSoFar(t: Tables, input: seq<bool>, pos: nat, out: seq<nat>, blocks: seq<Block>,
                            parts: seq<seq<Lz.Token>>,
                            end: nat, now: seq<nat>)
    requires t.Valid()
    decreases |blocks|
  {
    |parts| == |blocks| &&
    if blocks == [] then end == pos && now == out
    else
      BlockOk(t, blocks[0]) && Lz.AllFit(out, parts[0]) && MadeFrom(out, blocks[0], parts[0]) &&
      var bits := BlockBits(t, blocks[0], false, pos);
      Has(input, pos, bits) && LaidSoFar(t, input, pos + |bits|, Lz.Expand(out, parts[0]), blocks[1..], parts[1..],
        end, now)
  }

  lemma HasMore(input: seq<bool>, more: seq<bool>, pos: nat, w: seq<bool>)
    requires Has(input, pos, w)
    ensures Has(input + more, pos, w)
  {
    assert (input + more)[pos..pos + |w|] == input[pos..pos + |w|];
  }

  /** More bits change nothing. */
  lemma {:induction false} SoFarMore(t: Tables, input: seq<bool>, more: seq<bool>, pos: nat, out: seq<nat>,
                                     blocks: seq<Block>,
                                     parts: seq<seq<Lz.Token>>, end: nat, now: seq<nat>)
    requires t.Valid() && LaidSoFar(t, input, pos, out, blocks, parts, end, now)
    ensures LaidSoFar(t, input + more, pos, out, blocks, parts, end, now)
    decreases |blocks|
  {
    hide Tables.Valid, BlockOk, BlockBits, Has, Lz.AllFit, Lz.Expand, MadeFrom;
    if blocks != [] {
      var bits := BlockBits(t, blocks[0], false, pos);
      HasMore(input, more, pos, bits);
      SoFarMore(t, input, more, pos + |bits|, Lz.Expand(out, parts[0]), blocks[1..], parts[1..], end, now);
    }
  }

  /** What block `b` at `pos` has to do with its tokens. */
  ghost predicate Stands(t: Tables, input: seq<bool>, pos: nat, now: seq<nat>, b: Block, part: seq<Lz.Token>,
                         last: bool)
    requires t.Valid()
  {
    && BlockOk(t, b) && Lz.AllFit(now, part) && MadeFrom(now, b, part) && Has(input, pos, BlockBits(t, b, last, pos))
  }

  lemma {:induction false} AddBlock(t: Tables, input: seq<bool>, pos: nat, out: seq<nat>, blocks: seq<Block>,
                                    parts: seq<seq<Lz.Token>>,
                                    mid: nat, now: seq<nat>, b: Block, part: seq<Lz.Token>)
    requires t.Valid() && LaidSoFar(t, input, pos, out, blocks, parts, mid, now)
    requires Stands(t, input, mid, now, b, part, false)
    ensures LaidSoFar(t, input, pos, out, blocks + [b], parts + [part], mid + |BlockBits(t, b, false, mid)|,
      Lz.Expand(now, part))
    decreases |blocks|
  {
    hide Tables.Valid, BlockOk, BlockBits, Has, Lz.AllFit, Lz.Expand, MadeFrom;
    if blocks == [] {
      assert (blocks + [b])[1..] == [] && (parts + [part])[1..] == [];
      assert LaidSoFar(t, input, mid + |BlockBits(t, b, false, mid)|, Lz.Expand(now, part), [], [],
                       mid + |BlockBits(t, b, false, mid)|, Lz.Expand(now, part));
    } else {
      AddBlock(t, input, pos + |BlockBits(t, blocks[0], false, pos)|, Lz.Expand(out, parts[0]), blocks[1..],
               parts[1..], mid, now, b, part);
      assert (blocks + [b])[1..] == blocks[1..] + [b] && (parts + [part])[1..] == parts[1..] + [part];
    }
  }

  lemma {:induction false} AddLast(t: Tables, input: seq<bool>, pos: nat, out: seq<nat>, blocks: seq<Block>,
                                   parts: seq<seq<Lz.Token>>,
                                   mid: nat, now: seq<nat>, b: Block, part: seq<Lz.Token>)
    requires t.Valid() && LaidSoFar(t, input, pos, out, blocks, parts, mid, now)
    requires Stands(t, input, mid, now, b, part, true)
    ensures Laid(t, input, pos, out, blocks + [b], parts + [part], mid + |BlockBits(t, b, true, mid)|)
    decreases |blocks|
  {
    hide Tables.Valid, BlockOk, BlockBits, Has, Lz.AllFit, Lz.Expand, MadeFrom;
    if blocks != [] {
      AddLast(t, input, pos + |BlockBits(t, blocks[0], false, pos)|, Lz.Expand(out, parts[0]), blocks[1..], parts[1..],
              mid, now, b, part);
      assert (blocks + [b])[1..] == blocks[1..] + [b] && (parts + [part])[1..] == parts[1..] + [part];
    }
  }

  lemma {:induction false} JoinedSnoc(parts: seq<seq<Lz.Token>>, part: seq<Lz.Token>)
    ensures Joined(parts + [part]) == Joined(parts) + part
  {
    if parts == [] {
      assert (parts + [part])[1..] == [];
      assert Joined([]) == [] && part + [] == part && [] + part == part;
    } else {
      JoinedSnoc(parts[1..], part);
      assert (parts + [part])[1..] == parts[1..] + [part];
      assert parts[0] + (Joined(parts[1..]) + part) == (parts[0] + Joined(parts[1..])) + part;
    }
  }

  // ------------------------------------------------- the text of some of the tokens

  /** The tokens up to the `i`-th stand for the first `pos` bytes. */
  ghost predicate UpTo(toks: seq<Lz.Token>, text: seq<nat>, i: nat, pos: nat) {
    && i <= |toks| && pos <= |text| && Lz.AllFit([], toks[..i]) && Lz.Expand([], toks[..i]) == text[..pos]
  }

  function Length(tok: Lz.Token): nat {
    if tok.Match? then tok.len else 1
  }

  lemma UpToNext(toks: seq<Lz.Token>, text: seq<nat>, i: nat, pos: nat)
    requires D.Covers(toks, text, |text|) && UpTo(toks, text, i, pos) && i < |toks|
    ensures UpTo(toks, text, i + 1, pos + Length(toks[i]))
  {
    hide Lz.AllFit, Lz.Expand;
    var front, rest := toks[..i + 1], toks[i + 1..];
    assert toks == front + rest && text[..|text|] == text;
    Lz.FitSplit([], front, rest);
    Lz.ExpandConcat([], front, rest);
    Lz.FitPrefix([], toks, i);
    Lz.ExpandSnoc([], toks[..i], toks[i]);
    assert toks[..i] + [toks[i]] == front;
    var out := Lz.Expand([], front);
    assert out <= text && |out| == pos + Length(toks[i]);
    assert out == text[..|out|];
  }

  lemma PartText(toks: seq<Lz.Token>, text: seq<nat>, i: nat, from: nat, j: nat, to: nat)
    requires UpTo(toks, text, i, from) && UpTo(toks, text, j, to) && i <= j
    ensures from <= to && Lz.AllFit(text[..from], toks[i..j]) && Lz.Expand(text[..from], toks[i..j]) == text[..to]
  {
    hide Lz.AllFit, Lz.Expand;
    assert toks[..j] == toks[..i] + toks[i..j];
    Lz.FitSplit([], toks[..i], toks[i..j]);
    Lz.ExpandConcat([], toks[..i], toks[i..j]);
    assert text[..from] <= text[..to];
  }

  // ------------------------------------------------- writing the blocks

  /**
   The form of the block is chosen by the sizes of its codes, which are made from the
   frequencies of its tokens.
  */
  ghost predicate WellChosen(t: Tables, b: Block, part: seq<Lz.Token>, fixed: bool)
    requires t.Valid()
  {
    exists dynamic, buf, stored :: ChosenBy(t, b, part, fixed, dynamic, buf, stored)
  }

  ghost predicate ChosenBy(t: Tables, b: Block, part: seq<Lz.Token>, fixed: bool, dynamic: Block, buf: seq<Byte>,
                           stored: bool)
    requires t.Valid()
  {
    && dynamic.DynamicBlock? && dynamic.toks == part && BlockOk(t, dynamic) && BlockOk(t, StaticBlock(part))
    && Choice.Chosen(t, b, part, dynamic, buf, stored, fixed)
    && WellMade(t, part, dynamic.llens, dynamic.dlens, dynamic.bllens, dynamic.blcodes)
  }

  /** One block, and what it adds to the stream. */
  method PutBlock(w: Writer, t: Tables, dBuf: seq<nat>, lBuf: seq<nat>, ltree: array<CtData>, dtree: array<CtData>,
                  blTree: array<CtData>,
                  sltree: seq<CtData>, sdtree: seq<CtData>, fixed: bool, kept: bool, last: bool, text: seq<Byte>,
                  from: nat, to: nat,
                  ghost toks: seq<Lz.Token>, ghost i: nat, ghost j: nat, ghost blocks: seq<Block>,
                  ghost parts: seq<seq<Lz.Token>>)
    returns (ghost b: Block, ghost end: nat)
    requires w.Valid() && t.Valid() && |dBuf| == |lBuf| && from <= to <= |text|
    requires ltree != dtree && ltree != blTree && dtree != blTree
    requires Counted(t, Tokens(dBuf, lBuf), ltree[..], dtree[..], blTree[..])
    requires TreeFor(sltree, FixedCodes().llens) && TreeFor(sdtree, Statics.DistLens())
    requires UpTo(toks, text, i, from) && UpTo(toks, text, j, to) && i <= j <= |toks|
    requires Tokens(dBuf, lBuf) == toks[i..j]
    requires LaidSoFar(t, w.Stream(), 0, [], blocks, parts, |w.Stream()|, text[..from])
    modifies w, ltree, dtree, blTree
    ensures w.Valid() && Counted(t, [], ltree[..], dtree[..], blTree[..]) && WellChosen(t, b, toks[i..j], fixed)
    ensures !last ==> LaidSoFar(t, w.Stream(), 0, [], blocks + [b], parts + [toks[i..j]], |w.Stream()|, text[..to])
    ensures last ==>
      && w.biValid == 0 && end <= |w.Stream()| < end + 8
      && Laid(t, w.Stream(), 0, [], blocks + [b], parts + [toks[i..j]], end)
  {
    hide Tables.Valid, BitsOf, Writer.Stream, Writer.Valid, TreeFor, BlockBits, BlockOk, Counted, FixedCodes,
         LaidSoFar, Laid, UpTo, Has,
         Lz.AllFit, Lz.Expand, Tokens, Statics.DistLens, MadeFrom, WellMade, Choice.Chosen, Choice.Near, Choice.Lean,
           Sizes.LFreq, Sizes.AllValid;
    ghost var start := w.Stream();
    PartText(toks, text, i, from, j, to);
    var buf := text[from..to];
    ghost var dynamic;
    b, dynamic := Flushing.FlushBlock(w, t, dBuf, lBuf, ltree, dtree, blTree, sltree, sdtree, buf,
                                      kept && |buf| < 0x1_0000, fixed, last);
    assert ChosenBy(t, b, toks[i..j], fixed, dynamic, buf, kept && |buf| < 0x1_0000);
    ghost var z :| 0 <= z < 8 && (!last ==> z == 0)
      && w.Stream() == start + BlockBits(t, b, last, |start|) + BitsOf(0, z);
    ghost var bits := BlockBits(t, b, last, |start|);
    end := |start| + |bits|;
    assert text[..from] + buf == text[..to];
    assert MadeFrom(text[..from], b, toks[i..j]) by { Made(text[..from], b, toks[i..j], buf, text[..to]); }
    Standing(start, bits, BitsOf(0, z));
    assert w.Stream() == start + (bits + BitsOf(0, z));
    SoFarMore(t, start, bits + BitsOf(0, z), 0, [], blocks, parts, |start|, text[..from]);
    if last {
      AddLast(t, w.Stream(), 0, [], blocks, parts, |start|, text[..from], b, toks[i..j]);
      assert |BitsOf(0, z)| == z;
    } else {
      AddBlock(t, w.Stream(), 0, [], blocks, parts, |start|, text[..from], b, toks[i..j]);
      assert |BitsOf(0, z)| == 0;
    }
  }

  lemma UpToBound(toks: seq<Lz.Token>, text: seq<nat>, i: nat, pos: nat)
    requires UpTo(toks, text, i, pos)
    ensures i <= |toks| && pos <= |text|
  {
  }

  lemma {:induction false} Made(now: seq<nat>, b: Block, part: seq<Lz.Token>, buf: seq<Byte>, next: seq<nat>)
    requires Lz.AllFit(now, part) && Lz.Expand(now, part) == next && now + buf == next
    requires if b.StoredBlock? then b.bytes == buf else b.toks == part
    ensures MadeFrom(now, b, part)
  {
  }

  lemma Standing(start: seq<bool>, bits: seq<bool>, pad: seq<bool>)
    ensures Has(start + bits + pad, |start|, bits)
  {
  }

  /** A token in the form in which the loops of `deflate` pass it on. */
  method TallyToken(t: Tables, litBufsize: nat, dBuf: seq<nat>, lBuf: seq<nat>, tok: Lz.Token, ltree: array<CtData>,
                    dtree: array<CtData>, ghost blTree: seq<CtData>)
    returns (dBuf': seq<nat>, lBuf': seq<nat>, full: bool)
    requires |lBuf| < litBufsize <= MAX_BUFSIZE
    requires t.Valid() && |dBuf| == |lBuf| && Lz.ValidToken(tok) && ltree != dtree
    requires Counted(t, Tokens(dBuf, lBuf), ltree[..], dtree[..], blTree)
    modifies ltree, dtree
    ensures |dBuf'| == |lBuf'| && Tokens(dBuf', lBuf') == Tokens(dBuf, lBuf) + [tok]
    ensures Counted(t, Tokens(dBuf', lBuf'), ltree[..], dtree[..], blTree)
    ensures |lBuf'| == |lBuf| + 1 && full == (|lBuf'| == litBufsize - 1)
  {
    hide Tables.Valid, Counted, Tokens;
    match tok {
      case Literal(b) => dBuf', lBuf', full := Tally(t, litBufsize, dBuf, lBuf, 0, b, ltree, dtree, blTree);
      case Match(len, dist) => dBuf', lBuf', full :=
        Tally(t, litBufsize, dBuf, lBuf, dist, len - 3, ltree, dtree, blTree);
    }
  }

  /**
   Tallies the tokens of a text and writes blocks: one whenever a buffer is full, and the
   last one at the end.  (Only what the last token asks for may be passed over, as it is
   when `deflate_slow` tallies its last literal.)  No buffer is ever overrun.
  */
  method WriteBlocks(w: Writer, t: Tables, litBufsize: nat, toks: seq<Lz.Token>, text: seq<Byte>, fixed: bool)
    returns (ghost blocks: seq<Block>, ghost parts: seq<seq<Lz.Token>>, ghost end: nat)
    requires w.Valid() && t.Valid() && w.Stream() == [] && D.Covers(toks, text, |text|)
    requires 2 < litBufsize <= MAX_BUFSIZE
    modifies w
    ensures w.Valid() && w.biValid == 0 && end <= |w.Stream()| < end + 8
    ensures Laid(t, w.Stream(), 0, [], blocks, parts, end) && Joined(parts) == toks
    ensures |blocks| == |parts| && forall k :: 0 <= k < |parts| ==>
      |parts[k]| < litBufsize && WellChosen(t, blocks[k], parts[k], fixed)
  {
    hide WellChosen;
    hide Tables.Valid, Writer.Stream, Writer.Valid, TreeFor, BlockBits, BlockOk, Counted, FixedCodes, LaidSoFar, Laid,
         UpTo,
         Lz.AllFit, Lz.Expand, Tokens, Statics.DistLens, Joined, D.Covers, Lz.ValidToken;
    var sltree, sdtree := Statics.StaticTrees();
    var ltree := new CtData[L_NODES](_ => CtData(0, 0));
    var dtree := new CtData[D_NODES](_ => CtData(0, 0));
    var blTree := new CtData[2 * BL_CODES + 1](_ => CtData(0, 0));
    InitBlock(ltree, dtree, blTree, t);
    var dBuf, lBuf := [], [];
    var from: nat, to: nat := 0, 0;
    ghost var i: nat := 0;
    blocks, parts := [], [];
    NoneWritten(t, w.Stream(), toks, text);
    for j := 0 to |toks|
      invariant w.Valid() && |dBuf| == |lBuf| && i <= j && from <= to <= |text| && Tokens(dBuf, lBuf) == toks[i..j]
      invariant Counted(t, Tokens(dBuf, lBuf), ltree[..], dtree[..], blTree[..])
      invariant UpTo(toks, text, i, from) && UpTo(toks, text, j, to) && Joined(parts) == toks[..i]
      invariant LaidSoFar(t, w.Stream(), 0, [], blocks, parts, |w.Stream()|, text[..from])
      invariant |lBuf| == j - i && (if j == |toks| then |lBuf| < litBufsize else |lBuf| < litBufsize - 1)
      invariant |blocks| == |parts| && forall k :: 0 <= k < |parts| ==>
        |parts[k]| < litBufsize && WellChosen(t, blocks[k], parts[k], fixed)
    {
      CoversValid(toks, text, j);
      UpToNext(toks, text, j, to);
      assert toks[i..j] + [toks[j]] == toks[i..j + 1];
      var full;
      dBuf, lBuf, full := TallyToken(t, litBufsize, dBuf, lBuf, toks[j], ltree, dtree, blTree[..]);
      to := to + Length(toks[j]);
      UpToBound(toks, text, j + 1, to);
      var passed: bool, kept: bool := *, *;
      if full && !(passed && j + 1 == |toks|) {
        ghost var b, _ := PutBlock(w, t, dBuf, lBuf, ltree, dtree, blTree, sltree, sdtree, fixed, kept, false, text,
          from, to,
                                toks, i, j + 1, blocks, parts);
        JoinedSnoc(parts, toks[i..j + 1]);
        assert toks[..i] + toks[i..j + 1] == toks[..j + 1];
        blocks, parts, i := blocks + [b], parts + [toks[i..j + 1]], j + 1;
        dBuf, lBuf, from := [], [], to;
        NoTokensYet();
        assert toks[i..j + 1] == [];
      }
    }
    var kept: bool := *;
    ghost var b;
    b, end := PutBlock(w, t, dBuf, lBuf, ltree, dtree, blTree, sltree, sdtree, fixed, kept, true, text, from, to,
                            toks, i, |toks|, blocks, parts);
    JoinedSnoc(parts, toks[i..]);
    assert toks[i..|toks|] == toks[i..] && toks[..i] + toks[i..] == toks;
    blocks, parts := blocks + [b], parts + [toks[i..]];
  }

  lemma NoTokensYet()
    ensures Tokens([], []) == []
  {
  }

  lemma {:induction false} NoneWritten(t: Tables, input: seq<bool>, toks: seq<Lz.Token>, text: seq<nat>)
    requires t.Valid() && input == []
    ensures LaidSoFar(t, input, 0, [], [], [], |input|, text[..0]) && UpTo(toks, text, 0, 0)
    ensures Joined([]) == toks[..0] == []
    ensures Tokens([], []) == toks[0..0] == []
  {
  }

  lemma CoversValid(toks: seq<Lz.Token>, text: seq<nat>, i: nat)
    requires D.Covers(toks, text, |text|) && i < |toks|
    ensures Lz.ValidToken(toks[i])
  {
  }

  // ------------------------------------------------- deflate

  lemma EndsThere(stream: seq<bool>, end: nat)
    requires end <= |stream| < end + 8 && |stream| % 8 == 0
    ensures AlignUp(end) == |stream|
  {
  }

  /** The tokens are those that the loop makes of the text. */
  ghost predicate TokensBy(p: Chains.Params, tuning: LongestMatch.Tuning, strategy: Strategy, text: seq<Byte>,
                           toks: seq<Lz.Token>)
    requires p.Valid()
  {
    match strategy
    case Fast => exists steps :: Greedy.GreedyTokens(p, tuning, text, steps, toks)
    case Slow(filtered) => exists rounds :: Lazy.LazyTokens(p, tuning, filtered, text, rounds, toks)
    case Rle => toks == Runs.TokensFrom(text, 0)
  }

  /** The raw stream of a text, laid from its tokens: whatever reads it, reads the text. */
  method Deflate(p: Chains.Params, tuning: LongestMatch.Tuning, strategy: Strategy, fixed: bool, litBufsize: nat,
                 pieces: seq<seq<Byte>>)
    returns (bytes: seq<Byte>, ghost t: Tables, ghost toks: seq<Lz.Token>, ghost blocks: seq<Block>,
             ghost parts: seq<seq<Lz.Token>>, ghost end: nat)
    requires p.Valid() && 2 < litBufsize <= MAX_BUFSIZE
    ensures Reaches(StreamOf(bytes), ChunkInvariance.START.c, Config(Done, true, 8 * |bytes|, Text(pieces)))
    ensures TokensBy(p, tuning, strategy, Text(pieces), toks)
    ensures t.Valid() && Laid(t, StreamOf(bytes), 0, [], blocks, parts, end) && Joined(parts) == toks
  {
    hide Lazy.LazyTokens, Greedy.GreedyTokens, Runs.TokensFrom;
    hide Tables.Valid, Writer.Stream, Writer.Valid, Laid, D.Covers, Text, Joined, Reaches, StreamOf;
    var found;
    match strategy {
      case Fast =>
        ghost var steps;
        found, steps := FastTokens(p, tuning, pieces);
      case Slow(filtered) =>
        ghost var rounds;
        found, rounds := SlowTokens(p, tuning, filtered, pieces);
      case Rle => found := RleTokens(p, pieces);
    }
    var tables := TrStaticInit();
    var w := new Writer();
    t, toks := tables, found;
    blocks, parts, end := WriteBlocks(w, tables, litBufsize, found, Text(pieces), fixed);
    StreamInflates(t, w.Stream(), blocks, parts, end, Text(pieces));
    bytes := w.pending;
    assert w.Stream() == StreamOf(bytes) && |StreamOf(bytes)| == 8 * |bytes| by { WholeStream(w); }
    EndsThere(StreamOf(bytes), end);
  }

  lemma WholeStream(w: Writer)
    requires w.biValid == 0
    ensures w.Stream() == StreamOf(w.pending) && |w.Stream()| == 8 * |w.pending|
  {
  }
}
