/**
 However input and output space are split over calls of `inflate`, the outcome is
 the same (src/zlib/inflate.c).
 */
module ChunkInvariance {
  import opened Bits
  import opened InflateSpec
  import opened InflateTheory
  import opened Inflater

  /** What a caller offers: that many of the next input bytes, and so much room. */
  datatype Offer = Offer(bytes: nat, room: nat)

  /** Between two calls: the bytes consumed, and where the reader is. */
  datatype Point = Point(taken: seq<Byte>, c: Config)

  const START := Point([], Config(Type, false, 0, []))

  /** `points` are passed through when the input `all` is offered piece by piece. */
  ghost predicate Session(all: seq<Byte>, offers: seq<Offer>, points: seq<Point>) {
    && |points| == |offers| + 1 && points[0] == START
    && forall i :: 0 <= i < |offers| ==> OneCall(all, offers[i], points[i], points[i + 1])
  }

  ghost predicate OneCall(all: seq<Byte>, offer: Offer, p: Point, q: Point) {
    var from := |p.taken|;
    from + offer.bytes <= |all| && Called(p.taken, p.c, all[from..from + offer.bytes], offer.room, q.taken, q.c)
  }

  /** The stream has ended, or is in error, or there is no more input for it. */
  ghost predicate Finished(all: seq<Byte>, p: Point) {
    p.c.mode == Done || p.c.mode == Bad || (p.taken == all && Step(StreamOf(all), p.c) == Stuck)
  }

  lemma {:induction false} FinishedStops(all: seq<Byte>, p: Point)
    requires Finished(all, p)
    ensures !Step(StreamOf(all), p.c).To?
  {
    hide StreamOf;
  }

  lemma StartSane()
    ensures Sane(START.c)
  {
  }

  /** A call is a run of the reader on the whole input. */
  lemma {:induction false} CallReaches(all: seq<Byte>, offer: Offer, p: Point, q: Point)
    requires OneCall(all, offer, p, q) && p.taken <= all && Sane(p.c)
    ensures q.taken <= all && Sane(q.c) && Reaches(StreamOf(all), p.c, q.c)
  {
    hide Step, Sane, StreamOf, Reaches;
    var from := |p.taken|;
    var given := p.taken + all[from..from + offer.bytes];
    assert all == given + all[from + offer.bytes..];
    StreamConcat(given, all[from + offer.bytes..]);
    ReachesStable(StreamOf(given), StreamOf(all[from + offer.bytes..]), p.c, q.c);
  }

  /** A whole session is a run of the reader on the whole input. */
  lemma {:induction false} SessionReaches(all: seq<Byte>, offers: seq<Offer>, points: seq<Point>, n: nat)
    requires Session(all, offers, points) && n < |points|
    ensures points[n].taken <= all && Sane(points[n].c) && Reaches(StreamOf(all), START.c, points[n].c)
    decreases n
  {
    hide Sane, StreamOf, Reaches, OneCall;
    if n == 0 {
      StartSane();
      ReachesSelf(StreamOf(all), START.c);
    } else {
      SessionReaches(all, offers, points, n - 1);
      assert OneCall(all, offers[n - 1], points[n - 1], points[n - 1 + 1]);
      CallReaches(all, offers[n - 1], points[n - 1], points[n]);
      ReachesTrans(StreamOf(all), START.c, points[n - 1].c, points[n].c);
    }
  }

  /** When the stream has ended, the bytes taken are the bytes of the stream; what follows it is left alone. */
  lemma StreamTaken(all: seq<Byte>, offers: seq<Offer>, points: seq<Point>, n: nat)
    requires Session(all, offers, points) && n < |points| && points[n].c.mode == Done
    ensures points[n].taken <= all && 8 * |points[n].taken| == points[n].c.pos
  {
    hide Step, StreamOf, Reaches;
    SessionReaches(all, offers, points, n);
    assert OneCall(all, offers[n - 1], points[n - 1], points[n - 1 + 1]);
  }

  /**
   Any two ways to cut the same input into pieces and to provide room, followed to the
   end, give the same output, the same final mode and the same number of bits consumed.
   */
  lemma ChunkInvariant(all: seq<Byte>, offers: seq<Offer>, points: seq<Point>, offers': seq<Offer>, points': seq<Point>)
    requires Session(all, offers, points) && Finished(all, points[|points| - 1])
    requires Session(all, offers', points') && Finished(all, points'[|points'| - 1])
    ensures points[|points| - 1].c == points'[|points'| - 1].c
    ensures points[|points| - 1].c.mode == Done ==> points[|points| - 1].taken == points'[|points'| - 1].taken
  {
    hide OneCall, Finished, StreamOf, Reaches, Sane;
    var p, p' := points[|points| - 1], points'[|points'| - 1];
    SessionReaches(all, offers, points, |points| - 1);
    SessionReaches(all, offers', points', |points'| - 1);
    FinishedStops(all, p);
    FinishedStops(all, p');
    StoppedSame(StreamOf(all), START.c, p.c, p'.c);
    if p.c.mode == Done {
      StreamTaken(all, offers, points, |points| - 1);
      StreamTaken(all, offers', points', |points'| - 1);
    }
  }

  // ------------------------------------------------- one large call

  lemma StepGrows(input: seq<bool>, c: Config)
    requires Step(input, c).To?
    ensures c.out <= Step(input, c).c.out
  {
    hide BuildOk, CodesReady, Peek, DecodeAt;
  }

  lemma {:induction false} StepsGrow(input: seq<bool>, c: Config, n: nat, c': Config)
    requires Steps(input, c, n, c')
    ensures c.out <= c'.out
    decreases n
  {
    hide Step;
    if n > 0 {
      StepGrows(input, c);
      StepsGrow(input, Step(input, c).c, n - 1, c');
    }
  }

  /** What has stopped has written at least as much as anything on the way to it. */
  lemma StoppedLast(input: seq<bool>, c: Config, a: Config, b: Config)
    requires Reaches(input, c, a) && Reaches(input, c, b) && !Step(input, b).To?
    ensures a.out <= b.out
  {
    hide Step;
    var n: nat :| Steps(input, c, n, a);
    var m: nat :| Steps(input, c, m, b);
    if n <= m {
      StepsCompare(input, c, n, a, m, b);
      StepsGrow(input, a, m - n, b);
    } else {
      StepsCompare(input, c, m, b, n, a);
    }
  }

  /** A single call with all the input, and more room than is needed, does what any session does. */
  lemma LargeCall(all: seq<Byte>, offers: seq<Offer>, points: seq<Point>, room: nat, q: Point)
    requires Session(all, offers, points) && Finished(all, points[|points| - 1])
    requires room > |points[|points| - 1].c.out| && Called([], START.c, all, room, q.taken, q.c)
    ensures q.c == points[|points| - 1].c
  {
    hide OneCall, Step, StreamOf, Reaches, Sane;
    var p := points[|points| - 1];
    SessionReaches(all, offers, points, |points| - 1);
    FinishedStops(all, p);
    assert [] + all == all;
    StoppedLast(StreamOf(all), START.c, q.c, p.c);
    assert Finished(all, q);
    FinishedStops(all, q);
    StoppedSame(StreamOf(all), START.c, p.c, q.c);
  }

  /** A call that is given input and room gets on, until the stream has ended or is in error. */
  lemma CallProgress(all: seq<Byte>, offer: Offer, p: Point, q: Point)
    requires OneCall(all, offer, p, q) && offer.bytes > 0 && offer.room > 0 && q.c.mode != Done && q.c.mode != Bad
    ensures |p.taken| < |q.taken| || |p.c.out| < |q.c.out|
  {
    hide Step, StreamOf, Reaches;
  }
}
