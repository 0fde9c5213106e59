/** A text through `deflate` and, however the stream is offered, through `inflate`. */
module EndToEnd {
  import opened Bits
  import opened InflateSpec
  import opened InflateTheory
  import opened ChunkInvariance
  import opened DeflateStream
  import opened FlushBlock
  import I = Inflater
  import Chains = HashChains
  import LongestMatch

  ghost predicate Positive(offers: seq<Offer>) {
    forall i :: 0 <= i < |offers| ==> offers[i].bytes > 0 && offers[i].room > 0
  }

  lemma SessionMore(all: seq<Byte>, given: seq<Offer>, points: seq<Point>, offer: Offer, q: Point)
    requires Session(all, given, points) && OneCall(all, offer, points[|points| - 1], q)
    ensures Session(all, given + [offer], points + [q])
  {
    hide OneCall;
  }

  /**
   A call that is offered input, if there is any, and room, and does nothing, has come to the end of what the input
   says.
  */
  lemma Idle(all: seq<Byte>, offer: Offer, p: Point, q: Point)
    requires OneCall(all, offer, p, q) && p.taken <= all && offer.room > 0 && (offer.bytes > 0 || p.taken == all)
    requires q.taken == p.taken && q.c.out == p.c.out
    ensures Finished(all, q)
  {
    hide Step, StreamOf, Reaches;
  }

  /** Offers a stream piece by piece to a new inflater, until a call returns anything but Z_OK. */
  method InflateAll(all: seq<Byte>, offers: seq<Offer>)
    returns (ret: I.Return, out: seq<nat>, consumed: nat, ghost given: seq<Offer>, ghost points: seq<Point>)
    ensures Session(all, given, points) && out == points[|points| - 1].c.out
    ensures consumed <= |all| && points[|points| - 1].taken == all[..consumed]
    ensures ret == I.STREAM_END <==> points[|points| - 1].c.mode == Done
    ensures ret == I.DATA_ERROR <==> points[|points| - 1].c.mode == Bad
    ensures ret == I.BUF_ERROR && Positive(offers) ==> Finished(all, points[|points| - 1])
    ensures ret == I.OK ==> consumed + |out| >= |offers|
  {
    hide I.Inflater.Valid, I.Called, Step, Finished;
    var z := new I.Inflater();
    ret, out, consumed := I.OK, [], 0;
    given, points := [], [START];
    assert points[|points| - 1] == Point([], Config(Type, false, 0, []));
    var i := 0;
    while i < |offers| && ret == I.OK
      invariant 0 <= i <= |offers| && z.Valid() && fresh(z) && fresh(z.win) && fresh(z.win.window)
      invariant Session(all, given, points) && points[|points| - 1] == Point(z.taken, z.c) && out == z.c.out
      invariant consumed <= |all| && z.taken == all[..consumed]
      invariant ret == I.STREAM_END <==> z.c.mode == Done
      invariant ret == I.DATA_ERROR <==> z.c.mode == Bad
      invariant ret == I.BUF_ERROR && Positive(offers) ==> Finished(all, points[|points| - 1])
      invariant ret == I.OK ==> consumed + |out| >= i
      decreases |offers| - i
    {
      ghost var p := Point(z.taken, z.c);
      var n := if offers[i].bytes <= |all| - consumed then offers[i].bytes else |all| - consumed;
      var used, written;
      ret, used, written := z.Inflate(all[consumed..consumed + n], offers[i].room);
      ghost var q, offer := Point(z.taken, z.c), Offer(n, offers[i].room);
      assert OneCall(all, offer, p, q);
      SessionMore(all, given, points, offer, q);
      given, points := given + [offer], points + [q];
      if ret == I.BUF_ERROR && offers[i].bytes > 0 && offers[i].room > 0 {
        assert all[..consumed] + [] == all[..consumed];
        Idle(all, offer, p, q);
      }
      assert all[..consumed] + all[consumed..consumed + n][..used] == all[..consumed + used];
      out := out + written;
      consumed := consumed + used;
      i := i + 1;
    }
  }

  /**
   A stream that stands for `text` is never found in error, and what comes out of it is never anything but the text.
   Whatever follows the stream is not touched.
  */
  lemma {:induction false} SessionText(all: seq<Byte>, given: seq<Offer>, points: seq<Point>, text: seq<nat>,
                                      pos: nat)
    requires Session(all, given, points) && Reaches(StreamOf(all), START.c, Config(Done, true, pos, text))
    ensures var p := points[|points| - 1];
      && p.taken <= all && p.c.out <= text
      && (Finished(all, p) ==> p.c.mode == Done && p.c.out == text && 8 * |p.taken| == pos)
  {
    hide Step, StreamOf, Reaches, OneCall, Session, Finished;
    SessionSize(all, given, points);
    var p, d := points[|points| - 1], Config(Done, true, pos, text);
    SessionReaches(all, given, points, |points| - 1);
    DoneStops(StreamOf(all), d);
    StoppedLast(StreamOf(all), START.c, p.c, d);
    if Finished(all, p) {
      FinishedStops(all, p);
      StoppedSame(StreamOf(all), START.c, p.c, d);
      StreamTaken(all, given, points, |points| - 1);
    }
  }

  lemma SessionSize(all: seq<Byte>, given: seq<Offer>, points: seq<Point>)
    requires Session(all, given, points)
    ensures |points| == |given| + 1
  {
  }

  lemma DoneStops(input: seq<bool>, c: Config)
    requires c.mode == Done
    ensures !Step(input, c).To?
  {
  }

  /** What follows changes nothing. */
  lemma {:induction false} Followed(bytes: seq<Byte>, rest: seq<Byte>, c: Config)
    requires Reaches(StreamOf(bytes), START.c, c)
    ensures Reaches(StreamOf(bytes + rest), START.c, c)
  {
    hide StreamOf, Reaches;
    StartSane();
    StreamConcat(bytes, rest);
    ReachesStable(StreamOf(bytes), StreamOf(rest), START.c, c);
  }

  lemma EndIsFinished(all: seq<Byte>, p: Point)
    requires p.c.mode == Done || p.c.mode == Bad
    ensures Finished(all, p)
  {
  }

  /**
   What is compressed is decompressed: for every text, window, level, loop and choice of
   blocks, whatever follows the stream, and however it is then offered.  Enough offers of
   some input and some room bring it to its end, and then the stream has been consumed
   and nothing of what follows.
   */
  method RoundTrip(p: Chains.Params, tuning: LongestMatch.Tuning, strategy: Strategy, fixed: bool, litBufsize: nat,
                   pieces: seq<seq<Byte>>, rest: seq<Byte>, offers: seq<Offer>)
    returns (bytes: seq<Byte>, ret: I.Return, out: seq<nat>, consumed: nat)
    requires p.Valid() && 2 < litBufsize <= MAX_BUFSIZE
    ensures ret != I.DATA_ERROR && out <= Text(pieces)
    ensures ret == I.STREAM_END ==> out == Text(pieces) && consumed == |bytes|
    ensures Positive(offers) && |offers| > |bytes + rest| + |Text(pieces)| ==> ret == I.STREAM_END
  {
    hide Text, StreamOf, Reaches, Session, Finished;
    ghost var given, points, t, toks, blocks, parts, end;
    bytes, t, toks, blocks, parts, end := Deflate(p, tuning, strategy, fixed, litBufsize, pieces);
    ret, out, consumed, given, points := InflateAll(bytes + rest, offers);
    Followed(bytes, rest, Config(Done, true, 8 * |bytes|, Text(pieces)));
    SessionText(bytes + rest, given, points, Text(pieces), 8 * |bytes|);
    SessionSize(bytes + rest, given, points);
    ghost var last := points[|points| - 1];
    if ret == I.STREAM_END || ret == I.DATA_ERROR {
      EndIsFinished(bytes + rest, last);
    }
  }
}
