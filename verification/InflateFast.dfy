/**
 `inflate_fast` (src/zlib/inffast.c): decoding without asking for each byte whether
 there is one.  It is proved to follow the reader of InflateSpec, as the slow modes
 LEN to MATCH do, and to stay within the input and the output space it was given.
 */
module InflateFast {
  import opened Bits
  import opened Canonical
  import opened DecodeTable
  import opened InflateSpec
  import opened InflateTheory
  import opened BitReader
  import opened TableLookup
  import opened Inflate
  import opened InflateCodes
  import opened InflateMatch
  import W = Window

  /** All the bits a call has been given. */
  ghost function Whole(base: seq<Byte>, input: seq<Byte>): seq<bool> {
    StreamOf(base + input)
  }

  /** The reader has come from `a0` to `a`, and the registers stand there. */
  ghost predicate At(base: seq<Byte>, input: seq<Byte>, a0: Config, r: Regs, a: Config) {
    && RegsOk(base, input, r) && a.pos == Pos(base, r) && Sane(a) && a.last == a0.last
    && Reaches(Whole(base, input), a0, a)
  }

  lemma TakenWhole(base: seq<Byte>, input: seq<Byte>, r: Regs)
    requires r.next <= |input|
    ensures Taken(base, input, r) <= Whole(base, input)
  {
    hide StreamOf;
    StreamConcat(base + input[..r.next], input[r.next..]);
    assert base + input == base + input[..r.next] + input[r.next..];
  }

  lemma AtRefilled(base: seq<Byte>, input: seq<Byte>, a0: Config, r: Regs, a: Config, r1: Regs)
    requires At(base, input, a0, r, a) && Refilled(base, input, r, r1)
    ensures At(base, input, a0, r1, a)
  {
    hide RegsOk, Reaches, Sane;
  }

  lemma AtFacts(base: seq<Byte>, input: seq<Byte>, a0: Config, r: Regs, a: Config)
    requires At(base, input, a0, r, a)
    ensures RegsOk(base, input, r) && r.next <= |input| && 0 <= a.pos == Pos(base, r) && Sane(a) && a.last == a0.last
  {
    hide Reaches, Sane, Val;
  }

  /** Taking one step that uses `n` of the bits at hand. */
  lemma Advance(base: seq<Byte>, input: seq<Byte>, a0: Config, r: Regs, a: Config, n: nat, a': Config)
    requires At(base, input, a0, r, a) && n <= r.bits && r.next <= |input|
    requires Step(Taken(base, input, r), a) == To(a') && a'.pos == a.pos + n && a'.last == a.last
    ensures At(base, input, a0, Drop(r, n), a')
  {
    hide Step, Sane, StreamOf, Val, Shr, Reaches;
    var all, whole := Taken(base, input, r), Whole(base, input);
    DropOk(base, input, r, n);
    StepSane(all, a);
    TakenWhole(base, input, r);
    StepStable(all, whole[|all|..], a);
    assert all + whole[|all|..] == whole;
    ReachesStep(whole, a);
    ReachesTrans(whole, a0, a, a');
  }

  // ------------------------------------------------- reading without checks

  /** Takes two bytes unless there are 15 bits. */
  method Top(input: seq<Byte>, r: Regs, ghost base: seq<Byte>) returns (r': Regs)
    requires RegsOk(base, input, r) && r.next + 2 <= |input|
    ensures Refilled(base, input, r, r') && 15 <= r'.bits
    ensures r'.next == r.next + (if r.bits < 15 then 2 else 0) && r'.bits == r.bits + (if r.bits < 15 then 16 else 0)
  {
    hide RegsOk, Shl, Taken;
    RefillSelf(base, input, r);
    r' := r;
    if r.bits < 15 {
      RefillMore(base, input, r, r);
      r' := Pull(input, r);
      RefillMore(base, input, r, r');
      r' := Pull(input, r');
    }
  }

  /** Takes a byte when fewer than `n` bits are there, and again. */
  method TopUp(input: seq<Byte>, r: Regs, n: nat, ghost base: seq<Byte>) returns (r': Regs)
    requires RegsOk(base, input, r) && n <= r.bits + 16
    requires r.next + (if n <= r.bits then 0 else if n <= r.bits + 8 then 1 else 2) <= |input|
    ensures Refilled(base, input, r, r') && n <= r'.bits
    ensures r'.next == r.next + (if n <= r.bits then 0 else if n <= r.bits + 8 then 1 else 2)
    ensures r'.bits == r.bits + 8 * (r'.next - r.next)
  {
    hide RegsOk, Shl, Taken;
    RefillSelf(base, input, r);
    r' := r;
    if r'.bits < n {
      RefillMore(base, input, r, r');
      r' := Pull(input, r');
      if r'.bits < n {
        RefillMore(base, input, r, r');
        r' := Pull(input, r');
      }
    }
  }

  /** The source tells links from symbols by the bits 16 and 64 of the operation. */
  predicate IsLink(op: nat) {
    op != 0 && op / 16 % 2 == 0 && op / 64 % 2 == 0
  }

  /** The operations of entries that are no links. */
  ghost predicate IsFinal(ty: CodeType, op: nat) {
    (op == 0 && ty != DISTS) || 16 <= op < 30 || op == 64 || op == 77 || op == 96 || op == 202
  }

  lemma EntryIsFinal(ty: CodeType, s: nat, bits: nat)
    requires s < Symbols(ty)
    ensures IsFinal(ty, Entry(ty, s, bits).op) && IsFinal(ty, INVALID.op)
  {
  }

  lemma SmallIsLink(op: nat)
    requires 0 < op < 16
    ensures IsLink(op)
  {
  }

  /** With 15 bits at hand a lookup always finds an entry. */
  lemma {:induction false} FastFinds(ty: CodeType, lens: seq<nat>, t: seq<Code>, root: nat, hold: nat, bits: nat)
    requires TableFor(ty, lens, t, root) && bits >= MAX_BITS && Pow2(root) <= |t|
    ensures Lookup(t, root, hold, bits).Got? && IsFinal(ty, Lookup(t, root, hold, bits).entry.op)
    ensures Lookup(t, root, hold, bits).drop <= MAX_BITS
  {
    hide Lookup, Entry, Accepted, Placed;
    LookupDecodes(ty, lens, t, root, hold, bits);
    match Decode(lens, hold, bits)
    case Starved => StarvedShort(lens, hold, bits);
    case Invalid => EntryIsFinal(ty, 0, 0);
    case Symbol(s) => EntryIsFinal(ty, s, EntryBits(lens[s], root));
  }

  /** The entry, with its bits dropped. */
  method FastLookup(r: Regs, t: seq<Code>, root: nat, ghost ty: CodeType, ghost lens: seq<nat>)
    returns (here: Code, r': Regs, ghost drop: nat)
    requires TableFor(ty, lens, t, root) && Pow2(root) <= |t| && r.bits >= MAX_BITS
    ensures Lookup(t, root, r.hold, r.bits) == Got(here, drop) && drop <= MAX_BITS && r' == Drop(r, drop)
    ensures IsFinal(ty, here.op)
  {
    hide TableFor, Low, Shr, Pow2;
    FastFinds(ty, lens, t, root, r.hold, r.bits);
    drop := Lookup(t, root, r.hold, r.bits).drop;
    here := t[Low(r.hold, root)];
    r' := Drop(r, here.bits);
    if here.op != 0 && here.op < 16 {
      SmallIsLink(here.op);
      LinkBounds(ty, lens, t, root, r.hold);
      SubIndex(r.hold, here);
      LinkIndex(r.hold, here);
    }
    if IsLink(here.op) {
      here := t[here.val + Low(r'.hold, here.op)];
      DropTwice(r, drop - here.bits, here.bits);
      r' := Drop(r', here.bits);
    }
  }

  lemma LinkIndex(hold: nat, link: Code)
    ensures Shr(Low(hold, link.bits + link.op), link.bits) == Low(Shr(hold, link.bits), link.op)
  {
    SplitBits(hold, link.bits, link.op);
  }

  lemma DropTwice(r: Regs, n: nat, m: nat)
    requires n + m <= r.bits
    ensures Drop(Drop(r, n), m) == Drop(r, n + m)
  {
    hide Low, Shr;
    SplitBits(r.hold, n, m);
  }

  // ------------------------------------------------- from a symbol to a match

  /** Decodes a literal/length symbol. */
  method FastLen(input: seq<Byte>, r: Regs, t: seq<Code>, root: nat, ghost base: seq<Byte>, ghost a0: Config,
                 ghost a: Config)
    returns (here: Code, r': Regs, ghost a': Config)
    requires At(base, input, a0, r, a) && a.mode.Len? && TableFor(LENS, a.mode.codes.llens, t, root)
    requires r.next + 2 <= |input| && r.bits <= 30
    ensures At(base, input, a0, r', a') && a'.mode == AfterLenEntry(a.mode.codes, here) && a'.out == a.out
    ensures IsFinal(LENS, here.op)
    ensures r'.next == r.next + (if r.bits < 15 then 2 else 0) && (if r.bits < 15 then 1 else 0) <= r'.bits < 30
    ensures a'.pos > a.pos && (Step(Taken(base, input, r), a) == Stuck ==> a'.pos > a.pos + r.bits)
  {
    hide At, Step, RegsOk, Refilled, Taken, TableFor, Lookup, Shr, AfterLenEntry, SaneCodes;
    AtFacts(base, input, a0, r, a);
    var r1 := Top(input, r, base);
    RefillBound(base, input, r, r1);
    AtRefilled(base, input, a0, r, a, r1);
    TableBound(LENS, a.mode.codes.llens, t, root);
    ghost var drop;
    here, r', drop := FastLookup(r1, t, root, LENS, a.mode.codes.llens);
    LenStep(base, input, r1, a, t, root);
    LenStep(base, input, r, a, t, root);
    a' := Step(Taken(base, input, r1), a).c;
    Advance(base, input, a0, r1, a, drop, a');
    NoSpare(LENS, a.mode.codes.llens, t, root, base, input, r, r1);
  }

  /** A symbol that was cut short before uses more bits than there were. */
  lemma {:induction false} NoSpare(ty: CodeType, lens: seq<nat>, t: seq<Code>, root: nat, base: seq<Byte>,
                                   input: seq<Byte>, r: Regs, r1: Regs)
    requires TableFor(ty, lens, t, root) && Pow2(root) <= |t| && Refilled(base, input, r, r1)
    requires Lookup(t, root, r1.hold, r1.bits).Got?
    ensures Lookup(t, root, r.hold, r.bits) == NeedMore ==> Lookup(t, root, r1.hold, r1.bits).drop > r.bits
  {
    hide Complete, Lookup, TableFor, RegsOk, Entry, Huff, Low;
    if Lookup(t, root, r.hold, r.bits) == NeedMore {
      LookupDecodes(ty, lens, t, root, r.hold, r.bits);
      LookupDecodes(ty, lens, t, root, r1.hold, r1.bits);
      if s: nat :| Decode(lens, r1.hold, r1.bits) == Symbol(s) {
        if lens[s] <= r.bits {
          LowRefilled(base, input, r, r1, lens[s]);
        }
      }
    }
  }

  lemma {:induction false} LowRefilled(base: seq<Byte>, input: seq<Byte>, r: Regs, r1: Regs, k: nat)
    requires Refilled(base, input, r, r1) && k <= r.bits
    ensures Low(r1.hold, k) == Low(r.hold, k)
  {
    hide StreamOf, Val, Low;
    var all, all1, p := Taken(base, input, r), Taken(base, input, r1), Pos(base, r);
    LowPrefix(all[p..], all1[|all|..], k);
    assert all1[p..] == all[p..] + all1[|all|..];
  }

  /** Reads the extra bits of a length. */
  method FastLenExt(input: seq<Byte>, r: Regs, here: Code, ghost base: seq<Byte>, ghost a0: Config, ghost a: Config)
    returns (len: nat, r': Regs, ghost a': Config)
    requires At(base, input, a0, r, a) && a.mode.LenExt? && a.mode.length == here.val && a.mode.extra == here.op % 16
    requires r.next + 1 <= |input| && r.bits <= 30
    ensures At(base, input, a0, r', a') && a'.mode == Dist(a.mode.codes, len) && a'.out == a.out && 3 <= len <= 258
    ensures r'.bits <= 30 && (r'.next == r.next || (r'.next == r.next + 1 && r.bits + 3 <= r'.bits < 8))
    ensures a.pos <= a'.pos
  {
    hide At, Step, RegsOk, Refilled, Taken, Low, Shr, Peek, Pow2;
    AtFacts(base, input, a0, r, a);
    var op := here.op % 16;
    r' := TopUp(input, r, op, base);
    RefillBound(base, input, r, r');
    AtRefilled(base, input, a0, r, a, r');
    StepOfCodes(Taken(base, input, r'), a);
    PeekIsLow(base, input, r', op);
    len := here.val + Low(r'.hold, op);
    a' := Step(Taken(base, input, r'), a).c;
    Advance(base, input, a0, r', a, op, a');
    r' := Drop(r', op);
    AtFacts(base, input, a0, r', a');
  }

  /** Decodes a distance symbol. */
  method FastDist(input: seq<Byte>, r: Regs, t: seq<Code>, root: nat, ghost base: seq<Byte>, ghost a0: Config,
                  ghost a: Config)
    returns (here: Code, r': Regs, ghost a': Config)
    requires At(base, input, a0, r, a) && a.mode.Dist? && TableFor(DISTS, a.mode.codes.dlens, t, root)
    requires r.next + 2 <= |input| && r.bits <= 30
    ensures At(base, input, a0, r', a') && a'.mode == AfterDistEntry(a.mode.codes, a.mode.length, here)
    ensures a'.out == a.out && IsFinal(DISTS, here.op)
    ensures r'.next == r.next + (if r.bits < 15 then 2 else 0) && r'.bits < 30 && a.pos <= a'.pos
    ensures r'.bits + 15 >= r.bits + (if r.bits < 15 then 16 else 0)
  {
    hide At, Step, RegsOk, Refilled, Taken, TableFor, Lookup, Shr, AfterDistEntry, SaneCodes;
    AtFacts(base, input, a0, r, a);
    var r1 := Top(input, r, base);
    RefillBound(base, input, r, r1);
    AtRefilled(base, input, a0, r, a, r1);
    TableBound(DISTS, a.mode.codes.dlens, t, root);
    ghost var drop;
    here, r', drop := FastLookup(r1, t, root, DISTS, a.mode.codes.dlens);
    DistStepOf(base, input, r1, a, t, root);
    a' := Step(Taken(base, input, r1), a).c;
    Advance(base, input, a0, r1, a, drop, a');
  }

  /** Reads the extra bits of a distance. */
  method FastDistExt(input: seq<Byte>, r: Regs, here: Code, ghost base: seq<Byte>, ghost a0: Config, ghost a: Config)
    returns (dist: nat, r': Regs, ghost a': Config)
    requires At(base, input, a0, r, a) && a.mode.DistExt? && a.mode.offset == here.val && a.mode.extra == here.op % 16
    requires r.next + (if r.bits < 5 then 2 else 1) <= |input| && r.bits < 30
    ensures At(base, input, a0, r', a') && a'.mode == Match(a.mode.codes, a.mode.length, dist) && a'.out == a.out
    ensures 1 <= dist <= WINDOW
    ensures r'.next <= r.next + (if r.bits < 5 then 2 else 1) && r'.bits < 30 && a.pos <= a'.pos
  {
    hide At, Step, RegsOk, Refilled, Taken, Low, Shr, Peek, Pow2;
    AtFacts(base, input, a0, r, a);
    var op := here.op % 16;
    r' := TopUp(input, r, op, base);
    RefillBound(base, input, r, r');
    AtRefilled(base, input, a0, r, a, r');
    StepOfCodes(Taken(base, input, r'), a);
    PeekIsLow(base, input, r', op);
    dist := here.val + Low(r'.hold, op);
    a' := Step(Taken(base, input, r'), a).c;
    Advance(base, input, a0, r', a, op, a');
    r' := Drop(r', op);
    AtFacts(base, input, a0, r', a');
  }

  // ------------------------------------------------- copying a match

  lemma RepeatsConcat(out: seq<nat>, w: seq<nat>, v: seq<nat>, offset: nat)
    requires Repeats(out, w, offset) && Repeats(out + w, v, offset)
    ensures Repeats(out, w + v, offset)
  {
    assert out + w + v == out + (w + v);
    forall i | 0 <= i < |w + v| ensures (w + v)[i] == (out + (w + v))[|out| + i - offset] {
      if i >= |w| {
        assert v[i - |w|] == (out + w + v)[|out + w| + (i - |w|) - offset];
      }
    }
  }

  /** `put` is `out` and then bytes that repeat what is `dist` back. */
  ghost predicate Grown(out: seq<nat>, put: seq<nat>, dist: nat) {
    && 1 <= dist <= |out| <= |put| && put[..|out|] == out
    && forall i :: |out| <= i < |put| ==> put[i] == put[i - dist]
  }

  function Grow(put: seq<nat>, dist: nat): seq<nat>
    requires 1 <= dist <= |put|
  {
    put + [put[|put| - dist]]
  }

  lemma GrownMore(out: seq<nat>, put: seq<nat>, dist: nat)
    requires Grown(out, put, dist)
    ensures 1 <= dist <= |out| <= |put| && Grown(out, Grow(put, dist), dist)
  {
  }

  lemma GrownRepeats(hist: seq<nat>, out: seq<nat>, put: seq<nat>, dist: nat)
    requires Grown(out, put, dist)
    ensures |out| <= |put| && Repeats(hist + out, put[|out|..], dist)
  {
    assert hist + out + put[|out|..] == hist + put;
  }

  /** Three bytes at a time from the output, then what is left of the length. */
  method CopyThrees(out: seq<nat>, dist: nat, len: nat, ghost hist: seq<nat>) returns (w: seq<nat>)
    requires 1 <= dist <= |out|
    ensures |w| == len && Repeats(hist + out, w, dist)
  {
    hide Repeats;
    var put, rest := out, len;
    assert Grown(out, put, dist);
    hide Grown;
    while rest > 2
      invariant Grown(out, put, dist) && |out| <= |put| && |put| + rest == |out| + len
    {
      GrownMore(out, put, dist);
      put := Grow(put, dist);
      GrownMore(out, put, dist);
      put := Grow(put, dist);
      GrownMore(out, put, dist);
      put := Grow(put, dist);
      rest := rest - 3;
    }
    if rest != 0 {
      GrownMore(out, put, dist);
      put := Grow(put, dist);
      if rest > 1 {
        GrownMore(out, put, dist);
        put := Grow(put, dist);
      }
    }
    GrownRepeats(hist, out, put, dist);
    w := put[|out|..];
  }

  /** The bytes of a match that begins in the window. */
  method FastWindow(win: W.Window, out: seq<nat>, len: nat, dist: nat, ghost hist: seq<nat>) returns (w: seq<nat>)
    requires win.Valid() && win.Contents() == W.Last(hist, WINDOW) && |out| < dist <= WINDOW && 0 < len
    requires dist - |out| <= win.whave
    ensures |w| == len && Repeats(hist + out, w, dist)
  {
    hide W.Last, W.Window.Contents, Repeats;
    var op := dist - |out|;
    w := [];
    if win.wnext == 0 {
      w := FromWindow(win, win.wsize - op, op, out, len, dist, hist);
    } else if win.wnext < op {
      w := WrapWindow(win, out, len, dist, hist);
    } else {
      w := FromWindow(win, win.wnext - op, op, out, len, dist, hist);
    }
  }

  /** The last `op` bytes of the window from `from` on, and then bytes from the output. */
  method FromWindow(win: W.Window, from: nat, op: nat, out: seq<nat>, len: nat, dist: nat,
                    ghost hist: seq<nat>) returns (w: seq<nat>)
    requires win.Valid() && win.Contents() == W.Last(hist, WINDOW) && |out| < dist <= WINDOW
    requires op == dist - |out| <= win.whave && from == win.From(op) && op == win.Run(op)
    ensures |w| == len && Repeats(hist + out, w, dist)
  {
    hide W.Last, W.Window.Contents, Repeats;
    WindowRepeats(win, hist, out, dist, if op < len then op else len);
    if op < len {
      w := CopyFromWindow(win, from, op);
      var v := CopyThrees(out + w, dist, len - op, hist);
      assert hist + out + w == hist + (out + w);
      RepeatsConcat(hist + out, w, v, dist);
      w := w + v;
    } else {
      w := CopyFromWindow(win, from, len);
    }
  }

  /** From the end of the window, then from its start, and then from the output. */
  method WrapWindow(win: W.Window, out: seq<nat>, len: nat, dist: nat, ghost hist: seq<nat>) returns (w: seq<nat>)
    requires win.Valid() && win.Contents() == W.Last(hist, WINDOW) && |out| < dist <= WINDOW
    requires 0 < win.wnext < dist - |out| <= win.whave
    ensures |w| == len && Repeats(hist + out, w, dist)
  {
    hide W.Last, W.Window.Contents, Repeats;
    var op := dist - |out|;
    var from := win.wsize + win.wnext - op;
    op := op - win.wnext;
    WindowRepeats(win, hist, out, dist, if op < len then op else len);
    if op < len {
      w := CopyFromWindow(win, from, op);
      var v := FromWindow(win, 0, win.wnext, out + w, len - op, dist, hist);
      assert hist + out + w == hist + (out + w);
      RepeatsConcat(hist + out, w, v, dist);
      w := w + v;
    } else {
      w := CopyFromWindow(win, from, len);
    }
  }

  /** Copies a match, unless it goes back too far. */
  method FastMatch(win: W.Window, out: seq<nat>, len: nat, dist: nat, ghost hist: seq<nat>)
    returns (ok: bool, w: seq<nat>)
    requires win.Valid() && win.Contents() == W.Last(hist, WINDOW) && 1 <= dist <= WINDOW && 0 < len
    ensures ok == (dist <= |hist + out|)
    ensures ok ==> |w| == len && Repeats(hist + out, w, dist)
    ensures !ok ==> w == []
  {
    hide W.Last, W.Window.Contents, Repeats;
    ok, w := true, [];
    if dist > |out| {
      TooFar(win, hist, out, dist);
      if dist - |out| > win.whave {
        return false, [];
      }
      w := FastWindow(win, out, len, dist, hist);
    } else {
      w := CopyThrees(out, dist, len, hist);
    }
  }

  // ------------------------------------------------- one round of the loop

  lemma AtWrote(base: seq<Byte>, input: seq<Byte>, a0: Config, r: Regs, a: Config, w: seq<nat>)
    requires At(base, input, a0, r, a) && a.mode.Match? && 0 < |w| <= a.mode.length && Repeats(a.out, w, a.mode.offset)
    ensures At(base, input, a0, r, Wrote(a, w))
  {
    hide Step, Sane, StreamOf, Val, Repeats, Reaches;
    var whole := Whole(base, input);
    MatchSteps(whole, a, w);
    ReachesTrans(whole, a0, a, Wrote(a, w));
    ReachesStable(whole, [], a, Wrote(a, w));
  }

  lemma AtLiteral(base: seq<Byte>, input: seq<Byte>, a0: Config, r: Regs, a: Config)
    requires At(base, input, a0, r, a) && a.mode.Lit?
    ensures At(base, input, a0, r, a.(mode := Len(a.mode.codes), out := a.out + [a.mode.byte]))
  {
    hide Step, Sane, StreamOf, Val, Reaches;
    var whole, b := Whole(base, input), a.(mode := Len(a.mode.codes), out := a.out + [a.mode.byte]);
    StepOfOutput(whole, a);
    StepSane(whole, a);
    ReachesStep(whole, a);
    ReachesTrans(whole, a0, a, b);
  }

  lemma AtTooFar(base: seq<Byte>, input: seq<Byte>, a0: Config, r: Regs, a: Config)
    requires At(base, input, a0, r, a) && a.mode.Match? && a.mode.offset > |a.out|
    ensures At(base, input, a0, r, a.(mode := Bad))
  {
    hide Step, Sane, StreamOf, Val, Reaches;
    var whole, b := Whole(base, input), a.(mode := Bad);
    StepOfOutput(whole, a);
    StepSane(whole, a);
    ReachesStep(whole, a);
    ReachesTrans(whole, a0, a, b);
  }

  /** The mode in which a round leaves the state. */
  ghost predicate Leaves(mode: InflateMode, was: Mode, m: Mode) {
    || (mode == LEN && m == was) || (mode == TYPE && m == Type) || (mode == BAD && m == Bad)
  }

  /** Decodes one literal, or one length and distance, with no check for input or room. */
  method FastRound(input: seq<Byte>, r: Regs, s: State, out: seq<nat>, win: W.Window,
                   ghost hist: seq<nat>, ghost base: seq<Byte>, ghost a0: Config, ghost a: Config)
    returns (mode: InflateMode, r': Regs, w: seq<nat>, ghost a': Config)
    requires At(base, input, a0, r, a) && a.mode.Len? && TablesFor(s, a.mode.codes)
    requires r.next + 6 <= |input| && r.bits <= 30 && a.out == hist + out
    requires win.Valid() && win.Contents() == W.Last(hist, WINDOW)
    ensures At(base, input, a0, r', a') && Leaves(mode, a.mode, a'.mode) && a'.out == a.out + w
    ensures r'.next <= r.next + 6 && r'.bits <= 30 && |w| <= 258
    ensures a'.pos > a.pos && (Step(Taken(base, input, r), a) == Stuck ==> a'.pos > a.pos + r.bits)
  {
    hide At, Step, Taken, TableFor, W.Last, W.Window.Contents;
    var here;
    here, r', a' := FastLen(input, r, s.lencode, s.lenbits, base, a0, a);
    if here.op == 0 {
      w := [here.val];
      AtLiteral(base, input, a0, r', a');
      a' := a'.(mode := Len(a.mode.codes), out := a'.out + [here.val]);
      return LEN, r', w, a';
    } else if here.op / 16 % 2 == 1 {
      mode, r', w, a' := FastPair(input, r, r', s, here, out, win, hist, base, a0, a');
    } else if here.op / 32 % 2 == 1 {
      return TYPE, r', [], a';
    } else {
      return BAD, r', [], a';
    }
  }

  /** Decodes the rest of a length and a distance, and copies. */
  method FastPair(input: seq<Byte>, ghost r0: Regs, r: Regs, s: State, here: Code, out: seq<nat>, win: W.Window,
                  ghost hist: seq<nat>, ghost base: seq<Byte>, ghost a0: Config, ghost a: Config)
    returns (mode: InflateMode, r': Regs, w: seq<nat>, ghost a': Config)
    requires At(base, input, a0, r, a) && a.mode.LenExt? && TablesFor(s, a.mode.codes)
    requires a.mode.length == here.val && a.mode.extra == here.op % 16
    requires r0.next + 6 <= |input| && a.out == hist + out && r.next == r0.next + (if r0.bits < 15 then 2 else 0)
    requires (if r0.bits < 15 then 1 else 0) <= r.bits < 30
    requires win.Valid() && win.Contents() == W.Last(hist, WINDOW)
    ensures At(base, input, a0, r', a') && Leaves(mode, Len(a.mode.codes), a'.mode) && a'.out == a.out + w
    ensures r'.next <= r0.next + 6 && r'.bits <= 30 && |w| <= 258 && a'.pos >= a.pos
  {
    hide At, Step, Taken, TableFor, W.Last, W.Window.Contents, Repeats;
    var len, dist, dhere;
    len, r', a' := FastLenExt(input, r, here, base, a0, a);
    dhere, r', a' := FastDist(input, r', s.distcode, s.distbits, base, a0, a');
    if dhere.op / 16 % 2 == 0 {
      return BAD, r', [], a';
    }
    dist, r', a' := FastDistExt(input, r', dhere, base, a0, a');
    var ok;
    ok, w := FastMatch(win, out, len, dist, hist);
    if !ok {
      AtTooFar(base, input, a0, r', a');
      a' := a'.(mode := Bad);
      return BAD, r', [], a';
    }
    AtWrote(base, input, a0, r', a', w);
    a' := Wrote(a', w);
    mode := LEN;
  }

  // ------------------------------------------------- the whole of it

  /** A pass writes `w`, follows the reader on the bits of this call, and goes on or has to stop there. */
  ghost predicate Ran(base: seq<Byte>, input: seq<Byte>, r: Regs, s: State, left: nat, a: Config,
                      go: bool, r': Regs, s': State, left': nat, a': Config, w: seq<nat>) {
    && Rel(base, input, r', s', a')
    && r.next <= r'.next && a'.out == a.out + w && left' + |w| == left
    && Reaches(Whole(base, input), a, a')
    && (!go ==> Blocked(base, input, r', left', a'))
    && (go ==> Progress(input, r, left, s.mode, r', left', s'.mode))
  }

  /** Gives back the bytes that have not been used. */
  function GiveBack(r: Regs): Regs
    requires r.bits / 8 <= r.next
  {
    Regs(Low(r.hold, r.bits % 8), r.bits % 8, r.next - r.bits / 8)
  }

  lemma GiveBackOk(base: seq<Byte>, input: seq<Byte>, r: Regs)
    requires RegsOk(base, input, r) && r.bits / 8 <= r.next
    ensures RegsOk(base, input, GiveBack(r)) && Pos(base, GiveBack(r)) == Pos(base, r)
  {
    hide StreamOf, Val, Low;
    var r', p := GiveBack(r), Pos(base, r);
    var all, all' := Taken(base, input, r), Taken(base, input, r');
    TakenMore(base, input, r', r);
    assert r.bits == 8 * (r.bits / 8) + r.bits % 8;
    ValSplit(all[p..], r'.bits);
    assert all'[p..] == all[p..][..r'.bits];
  }

  lemma EnterFast(base: seq<Byte>, input: seq<Byte>, r: Regs, s: State, a: Config)
    requires Rel(base, input, r, s, a) && s.mode == LEN
    ensures At(base, input, a, r, a) && a.mode.Len? && TablesFor(s, a.mode.codes) && r.next <= |input| && r.bits < 15
    ensures r.bits < 8 || Step(Taken(base, input, r), a) == Stuck
  {
    hide Step, Val, StreamOf, TableFor, SaneCodes, Lookup;
    AtCodes(base, input, r, s, a);
    ReachesSelf(Whole(base, input), a);
    TableBound(LENS, a.mode.codes.llens, s.lencode, s.lenbits);
    LenStep(base, input, r, a, s.lencode, s.lenbits);
  }

  /** No more bytes are given back than have been taken. */
  lemma LeaveFast(base: seq<Byte>, input: seq<Byte>, r: Regs, s: State, left: nat, a: Config,
                  r1: Regs, mode: InflateMode, left': nat, a': Config, w: seq<nat>)
    requires Rel(base, input, r, s, a) && s.mode == LEN && At(base, input, a, r1, a') && r.next <= |input|
    requires a.mode.Len? && Leaves(mode, a.mode, a'.mode) && a'.out == a.out + w && left' + |w| == left
    requires r.bits < 8 || Step(Taken(base, input, r), a) == Stuck
    requires a'.pos > a.pos && (Step(Taken(base, input, r), a) == Stuck ==> a'.pos > a.pos + r.bits)
    ensures r1.bits / 8 <= r1.next
    ensures Ran(base, input, r, s, left, a, true, GiveBack(r1), s.(mode := mode), left', a', w)
  {
    hide Step, Sane, Val, StreamOf, TableFor, Reaches, Low;
    AtFacts(base, input, a, r1, a');
    assert r.next <= r1.next - r1.bits / 8;
    GiveBackOk(base, input, r1);
  }

  method Fast(input: seq<Byte>, r: Regs, s: State, left: nat, out: seq<nat>, win: W.Window,
              ghost hist: seq<nat>, ghost base: seq<Byte>, ghost a: Config)
    returns (r': Regs, s': State, left': nat, w: seq<nat>, ghost a': Config)
    requires Rel(base, input, r, s, a) && s.mode == LEN && a.out == hist + out
    requires |input| - r.next >= 6 && left >= 258
    requires win.Valid() && win.Contents() == W.Last(hist, WINDOW)
    ensures Ran(base, input, r, s, left, a, true, r', s', left', a', w)
    ensures s'.mode == LEN || s'.mode == TYPE || s'.mode == BAD
  {
    hide At, Rel, Ran, Step, Taken, TableFor, W.Last, W.Window.Contents, RegsOk, SaneCodes, Low;
    EnterFast(base, input, r, s, a);
    r', left', w, a' := r, left, [], a;
    var mode, more := LEN, true;
    while more
      invariant At(base, input, a, r', a') && Leaves(mode, a.mode, a'.mode) && a'.out == a.out + w
      invariant left' + |w| == left
      invariant r'.next <= |input| && r'.bits <= 30 && (more ==> mode == LEN && |input| - r'.next >= 6 && left' >= 258)
      invariant (more && r' == r && a' == a) || Further(Step(Taken(base, input, r), a) == Stuck, r, a, a')
      decreases 8 * |base| + 8 * |input| - a'.pos, more
    {
      AtFacts(base, input, a, r', a');
      assert a'.out == hist + (out + w);
      var v;
      mode, r', v, a' := FastRound(input, r', s, out + w, win, hist, base, a, a');
      AtFacts(base, input, a, r', a');
      w := w + v;
      left' := left' - |v|;
      more := mode == LEN && |input| - r'.next >= 6 && left' >= 258;
    }
    LeaveFast(base, input, r, s, left, a, r', mode, left', a', w);
    s' := s.(mode := mode);
    r' := GiveBack(r');
  }

  /** Something has been read, and all that was left over if it had not been enough before. */
  ghost predicate Further(stuck: bool, r: Regs, a: Config, a': Config) {
    a'.pos > a.pos && (stuck ==> a'.pos > a.pos + r.bits)
  }
}
