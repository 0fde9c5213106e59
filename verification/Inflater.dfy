/**
 The `inflate` call of src/zlib/inflate.c as a whole: the loop over the modes, and
 what is carried from one call to the next.
 */
module Inflater {
  import opened Bits
  import opened DecodeTable
  import opened InflateSpec
  import opened InflateTheory
  import opened BitReader
  import opened Inflate
  import InflateCodes
  import InflateLengths
  import opened InflateMatch
  import opened InflateFast
  import InflateTable
  import W = Window

  /** The tables of the fixed codes. */
  ghost predicate FixedFor(fixedLen: seq<Code>, fixedDist: seq<Code>) {
    TableFor(LENS, FixedCodes().llens, fixedLen, 9) && TableFor(DISTS, FixedCodes().dlens, fixedDist, 5)
  }

  /** Builds the tables of the fixed codes from their lengths. */
  method FixedTables() returns (fixedLen: seq<Code>, fixedDist: seq<Code>)
    ensures FixedFor(fixedLen, fixedDist)
  {
    hide FixedCodes, TableFor, Fits, RootBits, Space, Accepted, Empty;
    FixedAccepted();
    FixedFits();
    var lens, dists := FixedCodes().llens, FixedCodes().dlens;
    var table := new Code[ENOUGH_LENS + ENOUGH_DISTS](_ => INVALID);
    var work := new nat[288](_ => 0);
    var ret, bits, used := InflateTable.Build(LENS, lens, table, 0, 9, work);
    fixedLen := table[0..used];
    ret, bits, used := InflateTable.Build(DISTS, dists, table, 0, 5, work);
    fixedDist := table[0..used];
  }

  lemma MovedRan(base: seq<Byte>, input: seq<Byte>, r: Regs, s: State, left: nat, a: Config,
                 go: bool, r': Regs, s': State, left': nat, a': Config, w: seq<nat>)
    requires Rel(base, input, r, s, a) && Moved(base, input, r, s, left, a, go, r', s', left', a', w)
    ensures Ran(base, input, r, s, left, a, go, r', s', left', a', w)
  {
    hide Step, Sane, ModeRel, BitsOk, Val, StreamOf, Blocked, Reaches;
    RegsBound(base, input, r');
    TakenWhole(base, input, r');
    var all, whole := Taken(base, input, r'), Whole(base, input);
    ReachesStable(all, whole[|all|..], a, a');
    assert all + whole[|all|..] == whole;
  }

  /** One turn of the loop: does what the mode asks for. */
  method Turn(input: seq<Byte>, r: Regs, s: State, left: nat, out: seq<nat>, win: W.Window, fixedLen: seq<Code>,
              fixedDist: seq<Code>,
              ghost hist: seq<nat>, ghost base: seq<Byte>, ghost a: Config)
    returns (go: bool, r': Regs, s': State, left': nat, w: seq<nat>, ghost a': Config)
    requires Rel(base, input, r, s, a) && r.next <= |input| && a.out == hist + out && FixedFor(fixedLen, fixedDist)
    requires s.mode == BAD || (win.Valid() && win.Contents() == W.Last(hist, WINDOW))
    ensures Ran(base, input, r, s, left, a, go, r', s', left', a', w)
    ensures s.mode == BAD ==> !go && s' == s && w == []
  {
    hide Rel, Moved, Ran, TableFor, FixedCodes, W.Last, W.Window.Contents;
    w := [];
    r', left' := r, left;
    match s.mode {
    case TYPE => go, r', s', a' := ModeType(input, r, s, left, fixedLen, fixedDist, base, a);
    case STORED => go, r', s', a' := ModeStored(input, r, s, left, base, a);
    case COPY => go, r', s', left', w, a' := ModeCopy(input, r, s, left, base, a);
    case TABLE => go, r', s', a' := ModeTable(input, r, s, left, base, a);
    case LENLENS => go, r', s', a' := InflateLengths.ModeLenLens(input, r, s, left, base, a);
    case CODELENS => go, r', s', a' := InflateLengths.ModeCodeLens(input, r, s, left, base, a);
    case LEN =>
      if |input| - r.next >= 6 && left >= 258 {
        r', s', left', w, a' := Fast(input, r, s, left, out, win, hist, base, a);
        go := true;
        return;
      }
      go, r', s', a' := InflateCodes.ModeLen(input, r, s, left, base, a);
    case LENEXT => go, r', s', a' := InflateCodes.ModeLenExt(input, r, s, left, base, a);
    case DIST => go, r', s', a' := InflateCodes.ModeDist(input, r, s, left, base, a);
    case DISTEXT => go, r', s', a' := InflateCodes.ModeDistExt(input, r, s, left, base, a);
    case MATCH => go, s', left', w, a' := ModeMatch(input, r, s, left, out, win, hist, base, a);
    case LIT => go, s', left', w, a' := ModeLit(input, r, s, left, base, a);
    case DONE =>
      AtEnd(base, input, r, s, left, a);
      go, s', a' := false, s, a;
    case BAD =>
      AtEnd(base, input, r, s, left, a);
      go, s', a' := false, s, a;
    }
    MovedRan(base, input, r, s, left, a, go, r', s', left', a', w);
  }

  lemma AtEnd(base: seq<Byte>, input: seq<Byte>, r: Regs, s: State, left: nat, a: Config)
    requires Rel(base, input, r, s, a) && (s.mode == DONE || s.mode == BAD)
    ensures Moved(base, input, r, s, left, a, false, r, s, left, a, [])
  {
    hide Step, Sane, Val, StreamOf, TableFor, Moved;
    RegsBound(base, input, r);
    Halting(base, input, r, s, left, a);
  }

  // ------------------------------------------------- calls

  datatype Return = OK | STREAM_END | DATA_ERROR | BUF_ERROR

  /**
   What a call that is given `chunk` and room for `room` bytes may do.  At the end of the
   stream the bytes taken are those of the stream and no more.
  */
  ghost predicate Called(taken: seq<Byte>, c: Config, chunk: seq<Byte>, room: nat, taken': seq<Byte>, c': Config) {
    && taken <= taken' <= taken + chunk && c.out <= c'.out && |c'.out| <= |c.out| + room
    && Reaches(StreamOf(taken + chunk), c, c')
    && c'.pos <= 8 * |taken'| <= c'.pos + 32 && (c'.mode == Done ==> 8 * |taken'| == c'.pos)
    && (|| c'.mode == Done || c'.mode == Bad
        || (taken' == taken + chunk && Step(StreamOf(taken'), c') == Stuck)
        || (|c'.out| == |c.out| + room && NeedsRoom(c'.mode)))
  }

  /** Between calls the accumulator is all there is of the input. */
  lemma NextCall(base: seq<Byte>, input: seq<Byte>, r: Regs, s: State, a: Config, more: seq<Byte>)
    requires Rel(base, input, r, s, a) && r.next <= |input|
    ensures Rel(base + input[..r.next], more, Regs(r.hold, r.bits, 0), s, a)
    ensures Taken(base + input[..r.next], more, Regs(r.hold, r.bits, 0)) == Taken(base, input, r)
  {
    hide Step, Sane, ModeRel, Val, StreamOf;
    assert base + input[..r.next] + more[..0] == base + input[..r.next];
  }

  lemma RegsBoundOf(base: seq<Byte>, input: seq<Byte>, r: Regs, s: State, a: Config)
    requires Rel(base, input, r, s, a)
    ensures r.next <= |input|
  {
    hide Step, Sane, ModeRel, BitsOk, Val, StreamOf;
  }

  /** What is known after a turn, of the call as a whole. */
  lemma AfterTurn(base: seq<Byte>, input: seq<Byte>, r: Regs, s: State, left: nat, a: Config,
                  go: bool, r': Regs, s': State, left': nat, a': Config, w: seq<nat>, c: Config)
    requires Ran(base, input, r, s, left, a, go, r', s', left', a', w) && Reaches(Whole(base, input), c, a)
    ensures Rel(base, input, r', s', a') && r'.next <= |input| && a'.out == a.out + w && left' + |w| == left
    ensures Reaches(Whole(base, input), c, a') && (!go ==> Blocked(base, input, r', left', a'))
    ensures go ==> Progress(input, r, left, s.mode, r', left', s'.mode)
  {
    hide Step, Sane, ModeRel, BitsOk, Val, StreamOf, Blocked, Reaches;
    RegsBoundOf(base, input, r', s', a');
    ReachesTrans(Whole(base, input), c, a, a');
  }

  lemma EndCall(base: seq<Byte>, input: seq<Byte>, r: Regs, s: State, room: nat, left: nat,
                c: Config, a: Config, out: seq<nat>)
    requires Rel(base, input, r, s, a) && r.next <= |input| && Blocked(base, input, r, left, a)
    requires Reaches(Whole(base, input), c, a)
    requires left + |out| == room && a.out == c.out + out
    ensures Called(base, c, input, room, base + input[..r.next], a)
    ensures Rel(base + input[..r.next], [], Regs(r.hold, r.bits, 0), s, a)
    ensures (s.mode == DONE <==> a.mode == Done) && (s.mode == BAD <==> a.mode == Bad)
  {
    hide Step, Val, StreamOf, Reaches, TableFor, Sane;
    NextCall(base, input, r, s, a, []);
    EndsThere(base, input, r, s, a);
    assert base + input == base + input[..r.next] + input[r.next..];
    assert input[..|input|] == input;
  }

  /** Few bits are held, and none at the end of the stream, which is at a byte boundary. */
  lemma EndsThere(base: seq<Byte>, input: seq<Byte>, r: Regs, s: State, a: Config)
    requires Rel(base, input, r, s, a) && r.next <= |input|
    ensures a.pos <= 8 * |base + input[..r.next]| <= a.pos + 32
    ensures a.mode == Done ==> 8 * |base + input[..r.next]| == a.pos
  {
    hide Val, StreamOf, TableFor, ModeRel, SaneMode;
    assert |base + input[..r.next]| == |base| + r.next;
  }

  /** The loop over the modes, until the call has to end. */
  method Turns(chunk: seq<Byte>, room: nat, r0: Regs, s0: State, win: W.Window, fixedLen: seq<Code>,
               fixedDist: seq<Code>,
               ghost taken: seq<Byte>, ghost c: Config)
    returns (r: Regs, s: State, out: seq<nat>, ghost a: Config)
    requires Rel(taken, [], r0, s0, c) && r0.next == 0 && FixedFor(fixedLen, fixedDist)
    requires win.Valid() && (s0.mode == BAD || win.Contents() == W.Last(c.out, WINDOW))
    ensures r.next <= |chunk| && |out| <= room && a.out == c.out + out
    ensures Rel(taken + chunk[..r.next], [], Regs(r.hold, r.bits, 0), s, a)
    ensures Called(taken, c, chunk, room, taken + chunk[..r.next], a)
    ensures (s.mode == DONE <==> a.mode == Done) && (s.mode == BAD <==> a.mode == Bad)
    ensures s0.mode == BAD ==> s.mode == BAD && out == []
  {
    hide Rel, Ran, FixedFor, W.Last, W.Window.Contents, Step, Called, Blocked;
    var left, go := room, true;
    r, s, out, a := r0, s0, [], c;
    NextCall(taken, [], r, s, c, chunk);
    assert taken + [][..0] == taken;
    ReachesSelf(Whole(taken, chunk), a);
    while go
      invariant r.next <= |chunk| && 0 <= left && left + |out| == room && Rel(taken, chunk, r, s, a)
      invariant a.out == c.out + out
      invariant Reaches(Whole(taken, chunk), c, a) && (!go ==> Blocked(taken, chunk, r, left, a))
      invariant s0.mode == BAD ==> s.mode == BAD && out == []
      decreases go, Unread(chunk, r), left, RankOf(s.mode)
    {
      ghost var r1, s1, left1, a1 := r, s, left, a;
      var w;
      go, r, s, left, w, a := Turn(chunk, r, s, left, out, win, fixedLen, fixedDist, c.out, taken, a);
      AfterTurn(taken, chunk, r1, s1, left1, a1, go, r, s, left, a, w, c);
      out := out + w;
    }
    EndCall(taken, chunk, r, s, room, left, c, a, out);
  }

  /** The state of a new stream. */
  function Fresh(): State {
    State(TYPE, false, 0, 0, 0, 0, 0, 0, 0, seq(320, _ => 0), [], 0, [], 0)
  }

  lemma StartRel()
    ensures Rel([], [], Regs(0, 0, 0), Fresh(), Config(Type, false, 0, []))
  {
    hide StreamOf, Val, Step;
    EmptyHold([], [], Regs(0, 0, 0));
  }

  /** The window holds the end of `hist`, unless an error came before it was ever used. */
  ghost predicate Keeps(win: W.Window, bad: bool, hist: seq<nat>)
    reads win, win.window
  {
    win.Valid() && win.window.Length == WINDOW && ((bad && win.wsize == 0) || win.Contents() == W.Last(hist, WINDOW))
  }

  lemma KeepsFacts(win: W.Window, bad: bool, hist: seq<nat>)
    requires Keeps(win, bad, hist)
    ensures win.Valid() && (bad || win.Contents() == W.Last(hist, WINDOW))
  {
  }

  /** The window takes in what has been written, unless there is no need of it any more. */
  method Remember(win: W.Window, out: seq<nat>, bad: bool, ghost hist: seq<nat>)
    requires Keeps(win, bad, hist) || Keeps(win, false, hist)
    modifies win, win.window
    ensures Keeps(win, bad, hist + out)
  {
    hide W.Last, W.Window.Contents;
    W.LastLast(hist, out, WINDOW);
    KeepsWindow(hist, out);
    if win.wsize != 0 || (out != [] && !bad) {
      win.Update(out);
    }
  }

  lemma KeepsWindow(hist: seq<nat>, out: seq<nat>)
    ensures out == [] ==> W.Last(hist + out, WINDOW) == W.Last(hist, WINDOW)
  {
    assert hist + [] == hist;
  }

  class Inflater {
    var state: State
    var hold: nat
    var bits: nat
    var lenfix: seq<Code>
    var distfix: seq<Code>
    const win: W.Window
    ghost var taken: seq<Byte>    // the bytes consumed by all calls
    ghost var c: Config           // where the reader is

    ghost predicate Valid()
      reads this, win, win.window
    {
      && Rel(taken, [], Regs(hold, bits, 0), state, c) && FixedFor(lenfix, distfix)
      && Keeps(win, state.mode == BAD, c.out)
    }

    /** A new stream: `inflateInit2` for raw data and the largest window. */
    constructor ()
      ensures Valid() && fresh(win) && fresh(win.window)
      ensures taken == [] && c == Config(Type, false, 0, [])
    {
      hide Rel, FixedFor, Fresh;
      state := Fresh();
      hold, bits := 0, 0;
      lenfix, distfix := [], [];
      win := new W.Window(WINDOW);
      taken, c := [], Config(Type, false, 0, []);
      new;
      StartRel();
      lenfix, distfix := FixedTables();
    }

    lemma ValidFacts()
      ensures Valid() <==>
        Rel(taken, [], Regs(hold, bits, 0), state, c) && FixedFor(lenfix, distfix)
        && Keeps(win, state.mode == BAD, c.out)
    {
    }

    method Inflate(chunk: seq<Byte>, room: nat) returns (ret: Return, consumed: nat, out: seq<nat>)
      requires Valid()
      modifies this, win, win.window
      ensures Valid() && consumed <= |chunk| && |out| <= room
      ensures taken == old(taken) + chunk[..consumed] && c.out == old(c.out) + out
      ensures Called(old(taken), old(c), chunk, room, taken, c)
      ensures ret == if c.mode == Done then STREAM_END else if c.mode == Bad then DATA_ERROR
                     else if consumed == 0 && out == [] then BUF_ERROR else OK
    {
      hide *;
      ghost var taken0, c0 := taken, c;
      ValidFacts();
      KeepsFacts(win, state.mode == BAD, c.out);
      var r, s;
      ghost var a;
      r, s, out, a := Turns(chunk, room, Regs(hold, bits, 0), state, win, lenfix, distfix, taken, c);
      state, hold, bits := s, r.hold, r.bits;
      taken, c := taken + chunk[..r.next], a;
      consumed := r.next;
      Remember(win, out, state.mode == BAD, c0.out);
      ValidFacts();
      if state.mode == DONE {
        ret := STREAM_END;
      } else if state.mode == BAD {
        ret := DATA_ERROR;
      } else {
        ret := if consumed == 0 && out == [] then BUF_ERROR else OK;
      }
    }

    /**
     The last bytes of all output, up to the size of the window; nothing if an error came before the window was ever
     used.
    */
    method GetDictionary() returns (dictionary: seq<nat>)
      requires Valid()
      ensures dictionary == if state.mode == BAD && win.wsize == 0 then [] else W.Last(c.out, WINDOW)
    {
      hide Rel, FixedFor, W.Last;
      dictionary := win.GetDictionary();
    }
  }
}
