/**
 The whole way: tokens found by the match engine, cut into blocks and written by the
 encoder, are inflated to the text they were made from.
 */
module Codec {
  import opened Bits
  import opened StaticCodes
  import opened InflateSpec
  import opened RoundTrip
  import opened RoundTripBlocks
  import Deflate
  import Lz = Lz77
  import ChunkInvariance

  /** What a block is made from: its tokens, or the bytes they stand for when it is stored. */
  ghost predicate MadeFrom(out: seq<nat>, b: Block, toks: seq<Lz.Token>)
    requires Lz.AllFit(out, toks)
  {
    if b.StoredBlock? then out + b.bytes == Lz.Expand(out, toks) else b.toks == toks
  }

  function Joined(parts: seq<seq<Lz.Token>>): seq<Lz.Token> {
    if parts == [] then [] else parts[0] + Joined(parts[1..])
  }

  /** The blocks of a stream, in order from `pos` on, the last one marked; block `i` is made from `parts[i]`. */
  ghost predicate Laid(t: Tables, input: seq<bool>, pos: nat, out: seq<nat>, blocks: seq<Block>,
                       parts: seq<seq<Lz.Token>>, end: nat)
    requires t.Valid()
    decreases |blocks|
  {
    blocks != [] && |parts| == |blocks| && BlockOk(t, blocks[0]) && Lz.AllFit(out, parts[0]) &&
    MadeFrom(out, blocks[0], parts[0]) &&
    var last := |blocks| == 1;
    var bits := BlockBits(t, blocks[0], last, pos);
    && Has(input, pos, bits)
    && if last then end == pos + |bits|
       else Laid(t, input, pos + |bits|, Lz.Expand(out, parts[0]), blocks[1..], parts[1..], end)
  }

  lemma {:induction false} LaidWritten(t: Tables, input: seq<bool>, pos: nat, out: seq<nat>, blocks: seq<Block>,
                                       parts: seq<seq<Lz.Token>>, end: nat)
    requires t.Valid() && Laid(t, input, pos, out, blocks, parts, end)
    ensures Lz.AllFit(out, Joined(parts)) && Written(t, input, pos, out, blocks, end, Lz.Expand(out, Joined(parts)))
    decreases |blocks|
  {
    hide Has, BlockBits, BlockOk, Tables.Valid, Lz.Expand, Lz.AllFit;
    if |blocks| == 1 {
      assert parts[1..] == [] && parts[0] + [] == parts[0];
      assert Joined(parts) == parts[0];
    } else {
      var next := Lz.Expand(out, parts[0]);
      LaidWritten(t, input, pos + |BlockBits(t, blocks[0], false, pos)|, next, blocks[1..], parts[1..], end);
      Lz.ExpandConcat(out, parts[0], Joined(parts[1..]));
    }
  }

  /**
   However the tokens of a text are cut into blocks, and whichever form each block has,
   reading the stream gives back the text.
   */
  lemma {:induction false} StreamInflates(t: Tables, input: seq<bool>, blocks: seq<Block>, parts: seq<seq<Lz.Token>>,
                                          end: nat, text: seq<nat>)
    requires t.Valid() && Laid(t, input, 0, [], blocks, parts, end) && Deflate.Covers(Joined(parts), text, |text|)
    ensures Reaches(input, ChunkInvariance.START.c, Config(Done, true, AlignUp(end), text))
  {
    hide Reaches, Laid, Written, Tables.Valid, Lz.AllFit, Lz.Expand;
    LaidWritten(t, input, 0, [], blocks, parts, end);
    assert text[..|text|] == text;
    StreamRead(t, input, ChunkInvariance.START.c, blocks, end, text);
  }

  /** So does every session of `inflate` calls that is followed to its end. */
  lemma {:induction false} SessionInflates(t: Tables, all: seq<Byte>, offers: seq<ChunkInvariance.Offer>,
                                           points: seq<ChunkInvariance.Point>,
                                           blocks: seq<Block>, parts: seq<seq<Lz.Token>>, end: nat, text: seq<nat>)
    requires t.Valid() && Laid(t, StreamOf(all), 0, [], blocks, parts, end)
    requires Deflate.Covers(Joined(parts), text, |text|)
    requires ChunkInvariance.Session(all, offers, points) && ChunkInvariance.Finished(all, points[|points| - 1])
    ensures points[|points| - 1].c == Config(Done, true, AlignUp(end), text)
  {
    hide Reaches, Laid, Tables.Valid, StreamOf, Deflate.Covers, ChunkInvariance.Finished, ChunkInvariance.OneCall;
    var p := points[|points| - 1];
    StreamInflates(t, StreamOf(all), blocks, parts, end, text);
    ChunkInvariance.SessionReaches(all, offers, points, |points| - 1);
    ChunkInvariance.FinishedStops(all, p);
    StoppedSame(StreamOf(all), ChunkInvariance.START.c, p.c, Config(Done, true, AlignUp(end), text));
  }
}
