/** The modes MATCH and LIT of `inflate` (src/zlib/inflate.c): writing to the output. */
module InflateMatch {
  import opened Bits
  import opened DecodeTable
  import opened InflateSpec
  import opened InflateTheory
  import opened BitReader
  import opened Inflate
  import W = Window

  const WINDOW := 32768

  lemma AtOutput(base: seq<Byte>, input: seq<Byte>, r: Regs, s: State, a: Config)
    requires Rel(base, input, r, s, a)
    ensures RegsOk(base, input, r) && a.pos == Pos(base, r) && a.last == s.last && |s.lens| == 320 && Sane(a)
    ensures s.mode == MATCH ==>
      a.mode.Match? && a.mode.length == s.length > 0 && 1 <= a.mode.offset == s.offset <= WINDOW
    ensures s.mode == MATCH ==> TablesFor(s, a.mode.codes) && r.bits < 8
    ensures s.mode == LIT ==> a.mode.Lit? && a.mode.byte == s.length && TablesFor(s, a.mode.codes) && r.bits < 8
  {
    hide Step, SaneCodes, Val, StreamOf, TableFor;
    StepOfOutput(Taken(base, input, r), a);
  }

  /** `w`, written after `out`, repeats what is `offset` bytes back. */
  ghost predicate Repeats(out: seq<nat>, w: seq<nat>, offset: nat) {
    && 1 <= offset <= |out|
    && forall i :: 0 <= i < |w| ==> w[i] == (out + w)[|out| + i - offset]
  }

  /** The configuration after `k` bytes `w` of the match have been written. */
  function Wrote(a: Config, w: seq<nat>): Config
    requires a.mode.Match? && |w| <= a.mode.length
  {
    a.(mode := if |w| == a.mode.length then Len(a.mode.codes)
      else Match(a.mode.codes, a.mode.length - |w|, a.mode.offset),
       out := a.out + w)
  }

  /** Copying a stretch of a match is that many steps of the reader. */
  lemma {:induction false} MatchSteps(input: seq<bool>, a: Config, w: seq<nat>)
    requires a.mode.Match? && 0 < |w| <= a.mode.length && Repeats(a.out, w, a.mode.offset)
    ensures Reaches(input, a, Wrote(a, w))
    decreases |w|
  {
    hide Step, Reaches;
    StepOfOutput(input, a);
    ReachesStep(input, a);
    var b := Step(input, a).c;
    assert w[0] == (a.out + w)[|a.out| - a.mode.offset];
    assert b.out == a.out + [w[0]];
    assert a.out + w == b.out + w[1..];
    if |w| > 1 {
      forall i | 0 <= i < |w| - 1 ensures w[1..][i] == (b.out + w[1..])[|b.out| + i - a.mode.offset] {
        assert w[i + 1] == (a.out + w)[|a.out| + (i + 1) - a.mode.offset];
      }
      MatchSteps(input, b, w[1..]);
      ReachesTrans(input, a, b, Wrote(a, w));
    } else {
      assert w == [w[0]];
    }
  }

  /** Having written part of a match, or a literal. */
  lemma Writing(base: seq<Byte>, input: seq<Byte>, r: Regs, s: State, left: nat, a: Config,
                s': State, a': Config, w: seq<nat>)
    requires Rel(base, input, r, s, a) && r.bits < 8 && Reaches(Taken(base, input, r), a, a') && 0 < |w| <= left
    requires a'.pos == a.pos && a'.last == s'.last && ModeRel(s', a'.mode) && a'.out == a.out + w && !a'.mode.Copy?
    ensures Moved(base, input, r, s, left, a, true, r, s', left - |w|, a', w)
  {
    hide Step, ModeRel, Sane, StreamOf, Val;
    var all := Taken(base, input, r);
    ReachesStable(all, [], a, a');
  }

  method ModeLit(input: seq<Byte>, r: Regs, s: State, left: nat, ghost base: seq<Byte>, ghost a: Config)
    returns (go: bool, s': State, left': nat, w: seq<nat>, ghost a': Config)
    requires Rel(base, input, r, s, a) && s.mode == LIT
    ensures Moved(base, input, r, s, left, a, go, r, s', left', a', w)
  {
    hide Moved, Rel, Step, RegsOk, Taken, TableFor, Sane;
    AtOutput(base, input, r, s, a);
    RegsBound(base, input, r);
    if left == 0 {
      Halting(base, input, r, s, left, a);
      return false, s, left, [], a;
    }
    StepOfOutput(Taken(base, input, r), a);
    ReachesStep(Taken(base, input, r), a);
    a' := Step(Taken(base, input, r), a).c;
    s' := s.(mode := LEN);
    w := [s.length];
    Writing(base, input, r, s, left, a, s', a', w);
    return true, s', left - 1, w, a';
  }

  /** The byte-by-byte copy out of the output itself; source and target may overlap. */
  method CopyFromOutput(out: seq<nat>, offset: nat, copy: nat, ghost hist: seq<nat>) returns (w: seq<nat>)
    requires 1 <= offset <= |out|
    ensures |w| == copy && Repeats(hist + out, w, offset)
  {
    var from, put := |out| - offset, out;
    w := [];
    while |w| < copy
      invariant |w| <= copy && from == |put| - offset && put == out + w
      invariant forall i :: 0 <= i < |w| ==> w[i] == put[|out| + i - offset]
    {
      w := w + [put[from]];
      put := put + [put[from]];
      from := from + 1;
    }
    forall i | 0 <= i < |w| ensures w[i] == (hist + out + w)[|hist + out| + i - offset] {
      assert hist + out + w == hist + put;
    }
  }

  /** The copy out of the window, which does not wrap. */
  method CopyFromWindow(win: W.Window, from: nat, copy: nat) returns (w: seq<nat>)
    requires from + copy <= win.window.Length
    ensures w == win.window[from..from + copy]
  {
    w := [];
    while |w| < copy
      invariant |w| <= copy && w == win.window[from..from + |w|]
    {
      w := w + [win.window[from + |w|]];
    }
  }

  lemma WindowReach(win: W.Window, hist: seq<nat>, back: nat)
    requires win.Valid() && win.Contents() == W.Last(hist, WINDOW) && 1 <= back <= win.whave
    ensures |win.Contents()| == win.whave <= |hist| && win.Run(back) <= back
  {
  }

  lemma WindowByte(win: W.Window, hist: seq<nat>, back: nat, i: nat)
    requires win.Valid() && win.Contents() == W.Last(hist, WINDOW) && 1 <= back <= win.whave <= |hist|
    requires |win.Contents()| == win.whave && i < back
    ensures win.Contents()[win.whave - back + i] == hist[|hist| - back + i]
  {
    hide W.Window.Contents;
  }

  /** What the window holds `back` bytes before this call's output is what a match copies. */
  lemma WindowRepeats(win: W.Window, hist: seq<nat>, out: seq<nat>, offset: nat, copy: nat)
    requires win.Valid() && win.Contents() == W.Last(hist, WINDOW) && |out| < offset <= WINDOW
    requires 1 <= offset - |out| <= win.whave && copy <= win.Run(offset - |out|)
    ensures win.From(offset - |out|) + copy <= win.window.Length
    ensures Repeats(hist + out, win.window[win.From(offset - |out|)..win.From(offset - |out|) + copy], offset)
  {
    hide W.Last, W.Window.Contents;
    var back := offset - |out|;
    var from := win.From(back);
    if copy > 0 {
      win.FromIsContents(back, copy - 1);
    } else {
      win.FromIsContents(back, 0);
    }
    var w := win.window[from..from + copy];
    WindowReach(win, hist, back);
    forall i | 0 <= i < copy ensures w[i] == (hist + out + w)[|hist + out| + i - offset] {
      win.FromIsContents(back, i);
      WindowByte(win, hist, back, i);
      assert (hist + out + w)[|hist| - back + i] == hist[|hist| - back + i];
    }
  }

  /** There is not enough history just when the window does not reach back far enough. */
  lemma TooFar(win: W.Window, hist: seq<nat>, out: seq<nat>, offset: nat)
    requires win.Valid() && win.Contents() == W.Last(hist, WINDOW) && |out| < offset <= WINDOW
    ensures offset - |out| > win.whave <==> offset > |hist + out|
  {
    assert |win.Contents()| == win.whave;
  }

  method ModeMatch(input: seq<Byte>, r: Regs, s: State, left: nat, out: seq<nat>, win: W.Window,
                   ghost hist: seq<nat>, ghost base: seq<Byte>, ghost a: Config)
    returns (go: bool, s': State, left': nat, w: seq<nat>, ghost a': Config)
    requires Rel(base, input, r, s, a) && s.mode == MATCH
    requires win.Valid() && win.Contents() == W.Last(hist, WINDOW) && a.out == hist + out
    ensures Moved(base, input, r, s, left, a, go, r, s', left', a', w)
  {
    hide Moved, Rel, Step, RegsOk, Taken, TableFor, Sane, W.Last, W.Window.Contents, Repeats;
    AtOutput(base, input, r, s, a);
    RegsBound(base, input, r);
    if left == 0 {
      Halting(base, input, r, s, left, a);
      return false, s, left, [], a;
    }
    var ok;
    ok, w := MatchBytes(win, out, s.offset, s.length, left, hist);
    if !ok {
      s', a' := TooFarBack(input, r, s, left, base, a);
      return true, s', left, [], a';
    }
    var copy := |w|;
    s' := s.(length := s.length - copy);
    if s'.length == 0 {
      s' := s'.(mode := LEN);
    }
    MatchSteps(Taken(base, input, r), a, w);
    a' := Wrote(a, w);
    Writing(base, input, r, s, left, a, s', a', w);
    return true, s', left - copy, w, a';
  }

  /**
   The bytes of a match that can be copied in one go: from the window, or from the output, or as many as there is room
   for.
  */
  method MatchBytes(win: W.Window, out: seq<nat>, offset: nat, length: nat, left: nat,
                    ghost hist: seq<nat>) returns (ok: bool, w: seq<nat>)
    requires win.Valid() && win.Contents() == W.Last(hist, WINDOW) && 1 <= offset <= WINDOW && length > 0 && left > 0
    ensures ok == (offset <= |hist + out|)
    ensures ok ==> 0 < |w| <= length && |w| <= left && Repeats(hist + out, w, offset)
    ensures !ok ==> w == []
  {
    hide W.Last, W.Window.Contents, Repeats;
    var copy := |out|;
    if offset > copy {
      copy := offset - copy;
      TooFar(win, hist, out, offset);
      if copy > win.whave {
        return false, [];
      }
      var from;
      if copy > win.wnext {
        copy := copy - win.wnext;
        from := win.wsize - copy;
      } else {
        from := win.wnext - copy;
      }
      if copy > length {
        copy := length;
      }
      if copy > left {
        copy := left;
      }
      WindowRepeats(win, hist, out, offset, copy);
      w := CopyFromWindow(win, from, copy);
    } else {
      copy := length;
      if copy > left {
        copy := left;
      }
      w := CopyFromOutput(out, offset, copy, hist);
    }
    ok := true;
  }

  /** The match goes back further than there is history. */
  method TooFarBack(input: seq<Byte>, r: Regs, s: State, left: nat, ghost base: seq<Byte>, ghost a: Config)
    returns (s': State, ghost a': Config)
    requires Rel(base, input, r, s, a) && s.mode == MATCH && s.offset > |a.out|
    ensures Moved(base, input, r, s, left, a, true, r, s', left, a', [])
  {
    hide Moved, Rel, Step, RegsOk, Taken, TableFor, Sane, Shr;
    AtOutput(base, input, r, s, a);
    RegsBound(base, input, r);
    StepOfOutput(Taken(base, input, r), a);
    s' := s.(mode := BAD);
    a' := Step(Taken(base, input, r), a).c;
    RefillSelf(base, input, r);
    Stepping(base, input, r, s, left, a, r, 0, s', a');
    assert Drop(r, 0) == r by { ShrZero(r.hold); }
  }
}
