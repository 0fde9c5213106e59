/**
 `inflate` of src/zlib/inflate.c for raw deflate data with a 32K window and
 Z_NO_FLUSH: one method for each mode of the machine, over the bit accumulator,
 the decoding tables and the circular window.  Every method is proved to follow
 the reader of InflateSpec, whose configuration is carried along as a ghost.
 */
module Inflate {
  import opened Bits
  import opened DecodeTable
  import opened InflateSpec
  import opened InflateTheory
  import opened BitReader

  datatype InflateMode = TYPE | STORED | COPY | TABLE | LENLENS | CODELENS
                       | LEN | LENEXT | DIST | DISTEXT | MATCH | LIT | DONE | BAD

  /** The fields of the source's `inflate_state` that are used here. */
  datatype State = State(
    mode: InflateMode, last: bool, length: nat, offset: nat, extra: nat,
    nlen: nat, ndist: nat, ncode: nat, have: nat, lens: seq<nat>,
    lencode: seq<Code>, lenbits: nat, distcode: seq<Code>, distbits: nat)

  function InOrder(lens: seq<nat>, n: nat): (cl: seq<nat>)
    requires |lens| >= 19
    ensures |cl| == n
  {
    seq(n, i requires 0 <= i => lens[Order(i)])
  }

  ghost predicate TablesFor(s: State, codes: Codes) {
    TableFor(LENS, codes.llens, s.lencode, s.lenbits) && TableFor(DISTS, codes.dlens, s.distcode, s.distbits)
  }

  /** The state stands for the mode of the reader. */
  ghost predicate ModeRel(s: State, m: Mode) {
    && |s.lens| == 320
    && match m
       case Type => s.mode == TYPE
       case Stored => s.mode == STORED
       case Copy(length) => s.mode == COPY && s.length == length
       case Table => s.mode == TABLE
       case LenLens(nlen, ndist, ncode, cl) =>
         s.mode == LENLENS && s.nlen == nlen && s.ndist == ndist && s.ncode == ncode && s.have == |cl|
           && InOrder(s.lens, |cl|) == cl
       case CodeLens(nlen, ndist, clens, lens) =>
         && s.mode == CODELENS && s.nlen == nlen && s.ndist == ndist && s.have == |lens| <= 320
         && s.lens[..|lens|] == lens
         && TableFor(CODES, clens, s.lencode, s.lenbits)
       case Len(codes) => s.mode == LEN && TablesFor(s, codes)
       case LenExt(codes, length, extra) => s.mode == LENEXT && TablesFor(s, codes) && s.length == length
         && s.extra == extra
       case Dist(codes, length) => s.mode == DIST && TablesFor(s, codes) && s.length == length
       case DistExt(codes, length, offset, extra) =>
         s.mode == DISTEXT && TablesFor(s, codes) && s.length == length && s.offset == offset && s.extra == extra
       case Match(codes, length, offset) => s.mode == MATCH && TablesFor(s, codes) && s.length == length
         && s.offset == offset
       case Lit(codes, byte) => s.mode == LIT && TablesFor(s, codes) && s.length == byte
       case Done => s.mode == DONE
       case Bad => s.mode == BAD
  }

  /** Either few bits are left over, or the bits at hand do not suffice for a step. */
  ghost predicate BitsOk(base: seq<Byte>, input: seq<Byte>, r: Regs, a: Config)
    requires RegsOk(base, input, r)
  {
    && r.bits <= 32 && (a.mode.Copy? ==> r.bits == 0)
    && (r.bits < 8 || a.mode == Bad || Step(Taken(base, input, r), a) == Stuck)
  }

  /** Registers and state stand for configuration `a` of the reader. */
  ghost predicate Rel(base: seq<Byte>, input: seq<Byte>, r: Regs, s: State, a: Config) {
    && RegsOk(base, input, r) && a.pos == Pos(base, r) && a.last == s.last
    && Sane(a) && ModeRel(s, a.mode) && BitsOk(base, input, r, a)
  }

  /** Why a call has to end at `a`. */
  ghost predicate Blocked(base: seq<Byte>, input: seq<Byte>, r: Regs, left: nat, a: Config)
    requires r.next <= |input|
  {
    || a.mode == Done || a.mode == Bad
    || (r.next == |input| && Step(Taken(base, input, r), a) == Stuck)
    || (left == 0 && NeedsRoom(a.mode))
  }

  function Unread(input: seq<Byte>, r: Regs): int {
    8 * (|input| - r.next) + r.bits
  }

  /** The place of a mode in a round through the machine that reads and writes nothing. */
  function RankOf(mode: InflateMode): nat {
    match mode
    case LENLENS => 5 case CODELENS => 4
    case LEN => 3 case LENEXT => 3 case DISTEXT => 3
    case COPY => 2 case DIST => 2 case MATCH => 2 case LIT => 2
    case TYPE => 1 case STORED => 1 case TABLE => 1
    case DONE => 0 case BAD => 0
  }

  ghost predicate Progress(input: seq<Byte>, r: Regs, left: nat, mode: InflateMode, r': Regs, left': nat,
                           mode': InflateMode) {
    || Unread(input, r') < Unread(input, r)
    || (Unread(input, r') == Unread(input, r) && (left' < left || (left' == left && RankOf(mode') < RankOf(mode))))
  }

  /** A pass through a mode writes `w`, follows the reader from `a` to `a'`, and goes on or has to stop there. */
  ghost predicate Moved(base: seq<Byte>, input: seq<Byte>, r: Regs, s: State, left: nat, a: Config,
                        go: bool, r': Regs, s': State, left': nat, a': Config, w: seq<nat>) {
    && Rel(base, input, r', s', a')
    && r.next <= r'.next && a'.out == a.out + w && left' + |w| == left
    && Reaches(Taken(base, input, r'), a, a')
    && (!go ==> Blocked(base, input, r', left', a'))
    && (go ==> Progress(input, r, left, s.mode, r', left', s'.mode))
  }

  // ------------------------------------------------------------ the step in each mode

  /** The relation in the modes that keep no codes. */
  lemma PlainModes(s: State)
    requires |s.lens| == 320
    ensures s.mode == TYPE ==> ModeRel(s, Type)
    ensures s.mode == STORED ==> ModeRel(s, Stored)
    ensures s.mode == COPY ==> ModeRel(s, Copy(s.length))
    ensures s.mode == TABLE ==> ModeRel(s, Table)
    ensures s.mode == LENLENS && s.have == 0 ==> ModeRel(s, LenLens(s.nlen, s.ndist, s.ncode, []))
    ensures s.mode == DONE ==> ModeRel(s, Done)
    ensures s.mode == BAD ==> ModeRel(s, Bad)
  {
  }

  /** What is needed of the relation in the modes that keep no state. */
  lemma AtMode(base: seq<Byte>, input: seq<Byte>, r: Regs, s: State, a: Config)
    requires Rel(base, input, r, s, a)
    ensures RegsOk(base, input, r) && a.pos == Pos(base, r) && a.last == s.last && |s.lens| == 320 && r.bits <= 32
    ensures r.bits < 8 || a.mode == Bad || Step(Taken(base, input, r), a) == Stuck
    ensures s.mode == TYPE ==> a.mode == Type
    ensures s.mode == STORED ==> a.mode == Stored
    ensures s.mode == TABLE ==> a.mode == Table
    ensures s.mode == COPY ==> a.mode == Copy(s.length) && r.bits == 0
  {
    hide Step, Sane, Val, StreamOf, TableFor;
  }

  /** Stopping for want of input. */
  lemma Starving(base: seq<Byte>, input: seq<Byte>, r: Regs, s: State, left: nat, a: Config, r': Regs)
    requires Rel(base, input, r, s, a) && Refilled(base, input, r, r') && r'.next == |input| && r'.bits <= 32
    requires Step(Taken(base, input, r'), a) == Stuck && !a.mode.Copy?
    ensures Moved(base, input, r, s, left, a, false, r', s, left, a, [])
  {
    hide Step, ModeRel, Sane;
    ReachesSelf(Taken(base, input, r'), a);
  }

  /** Taking one step. */
  lemma Stepping(base: seq<Byte>, input: seq<Byte>, r: Regs, s: State, left: nat, a: Config,
                 r1: Regs, n: nat, s': State, a': Config)
    requires Rel(base, input, r, s, a) && Refilled(base, input, r, r1) && n <= r1.bits
    requires Step(Taken(base, input, r1), a) == To(a')
    requires a'.pos == a.pos + n && a'.last == s'.last && ModeRel(s', a'.mode) && a'.out == a.out
    requires (r1.bits - n < 8 || (a'.mode == Bad && r1.bits - n <= 32)) && (a'.mode.Copy? ==> r1.bits == n)
    requires n > 0 || RankOf(s'.mode) < RankOf(s.mode)
    ensures Moved(base, input, r, s, left, a, true, Drop(r1, n), s', left, a', [])
  {
    hide Step, ModeRel, Sane, Shr;
    DropOk(base, input, r1, n);
    StepSane(Taken(base, input, r1), a);
    ReachesStep(Taken(base, input, r1), a);
  }

  // ------------------------------------------------------------ modes

  method ModeType(input: seq<Byte>, r: Regs, s: State, left: nat, fixedLen: seq<Code>, fixedDist: seq<Code>,
                  ghost base: seq<Byte>, ghost a: Config)
    returns (go: bool, r': Regs, s': State, ghost a': Config)
    requires Rel(base, input, r, s, a) && s.mode == TYPE
    requires TableFor(LENS, FixedCodes().llens, fixedLen, 9) && TableFor(DISTS, FixedCodes().dlens, fixedDist, 5)
    ensures Moved(base, input, r, s, left, a, go, r', s', left, a', [])
  {
    hide Moved, Rel, TableFor, Step, FixedCodes, Low, Shr, Peek, Val, StreamOf;
    AtMode(base, input, r, s, a);
    StepOf(Taken(base, input, r), a);
    if s.last {
      RegsBound(base, input, r);
      AlignIsDrop(base, r);
      s' := s.(mode := DONE);
      a' := Step(Taken(base, input, r), a).c;
      r' := Drop(r, r.bits % 8);
      Stepping(base, input, r, s, left, a, r, r.bits % 8, s', a');
      return true, r', s', a';
    }
    go, r' := NeedBits(input, r, 3, base);
    StepOf(Taken(base, input, r'), a);
    if !go {
      Starving(base, input, r, s, left, a, r');
      return go, r', s, a;
    }
    PeekIsLow(base, input, r', 1);
    PeekAfter(base, input, r', 1, 2);
    s' := s.(last := Low(r'.hold, 1) == 1);
    var kind := Low(Drop(r', 1).hold, 2);
    if kind == 0 {
      s' := s'.(mode := STORED);
    } else if kind == 1 {
      s' := s'.(lencode := fixedLen, lenbits := 9, distcode := fixedDist, distbits := 5, mode := LEN);
    } else if kind == 2 {
      s' := s'.(mode := TABLE);
    } else {
      s' := s'.(mode := BAD);
    }
    a' := Step(Taken(base, input, r'), a).c;
    Stepping(base, input, r, s, left, a, r', 3, s', a');
    r' := Drop(r', 3);
  }

  /** A pass that has come to `a1` and goes on from there. */
  lemma Then(base: seq<Byte>, input: seq<Byte>, r: Regs, s: State, left: nat, a: Config, r1: Regs,
             s1: State, a1: Config, go: bool, r': Regs, s': State, left': nat, a': Config, w: seq<nat>)
    requires r.next <= r1.next <= |input| && Rel(base, input, r, s, a) && Reaches(Taken(base, input, r1), a, a1)
    requires a1.out == a.out
    requires Moved(base, input, r1, s1, left, a1, go, r', s', left', a', w)
    requires s1.mode == s.mode && Unread(input, r1) <= Unread(input, r)
    requires Taken(base, input, r1) <= Taken(base, input, r')
    ensures Moved(base, input, r, s, left, a, go, r', s', left', a', w)
  {
    hide Step, Sane, ModeRel, StreamOf, Val, BitsOk, Blocked;
    var all, all' := Taken(base, input, r1), Taken(base, input, r');
    ReachesStable(all, all'[|all|..], a, a1);
    assert all + all'[|all|..] == all';
    ReachesTrans(all', a, a1, a');
  }

  lemma TakenMore(base: seq<Byte>, input: seq<Byte>, r: Regs, r': Regs)
    requires r.next <= r'.next <= |input|
    ensures Taken(base, input, r) <= Taken(base, input, r')
  {
    hide StreamOf;
    assert base + input[..r'.next] == base + input[..r.next] + input[r.next..r'.next];
    StreamConcat(base + input[..r.next], input[r.next..r'.next]);
  }

  method ModeStored(input: seq<Byte>, r: Regs, s: State, left: nat, ghost base: seq<Byte>, ghost a: Config)
    returns (go: bool, r': Regs, s': State, ghost a': Config)
    requires Rel(base, input, r, s, a) && s.mode == STORED
    ensures Moved(base, input, r, s, left, a, go, r', s', left, a', [])
  {
    hide Step, Sane, ModeRel, Shr, Val, StreamOf, BitsOk, Reaches, Blocked;
    ghost var a1 := Aligned(base, input, r, s, a);
    var r1 := Drop(r, r.bits % 8);
    go, r', s', a' := ReadStored(input, r1, s, left, base, a1);
    TakenMore(base, input, r1, r');
    Then(base, input, r, s, left, a, r1, s, a1, go, r', s', left, a', []);
  }

  method ReadStored(input: seq<Byte>, r: Regs, s: State, left: nat, ghost base: seq<Byte>, ghost a: Config)
    returns (go: bool, r': Regs, s': State, ghost a': Config)
    requires Rel(base, input, r, s, a) && s.mode == STORED && a.pos % 8 == 0
    ensures Moved(base, input, r, s, left, a, go, r', s', left, a', [])
  {
    hide Moved, Rel, Step, Low, Shr, RegsOk, Refilled, Taken, TableFor, ModeRel, Pos;
    hide Reaches, Sane, BitsOk, StreamOf, Val;
    AtMode(base, input, r, s, a);
    go, r' := NeedBits(input, r, 32, base);
    if !go {
      StoredStarves(base, input, r, s, left, a, r');
      return go, r', s, a;
    }
    if Low(r'.hold, 16) + Shr(r'.hold, 16) != 0xffff {
      s' := s.(mode := BAD);
      a' := StoredBad(base, input, r, s, left, a, r');
      return;
    }
    s' := s.(mode := COPY, length := Low(r'.hold, 16));
    a' := StoredGood(base, input, r, s, left, a, r');
    r' := Drop(r', 32);
  }

  lemma StoredStarves(base: seq<Byte>, input: seq<Byte>, r: Regs, s: State, left: nat, a: Config, r': Regs)
    requires Rel(base, input, r, s, a) && s.mode == STORED && a.pos % 8 == 0
    requires Refilled(base, input, r, r') && r'.next == |input| && r'.bits < 32
    ensures Moved(base, input, r, s, left, a, false, r', s, left, a, [])
  {
    hide Moved, Rel, Step, Low, Shr, Taken, TableFor, ModeRel, Pos;
    AtMode(base, input, r, s, a);
    RefillBound(base, input, r, r');
    StoredStep(base, input, r', a);
    Starving(base, input, r, s, left, a, r');
  }

  lemma StoredBad(base: seq<Byte>, input: seq<Byte>, r: Regs, s: State, left: nat, a: Config,
                  r': Regs) returns (a': Config)
    requires Rel(base, input, r, s, a) && s.mode == STORED && a.pos % 8 == 0
    requires Refilled(base, input, r, r') && 32 <= r'.bits < 40 && Low(r'.hold, 16) + Shr(r'.hold, 16) != 0xffff
    ensures Moved(base, input, r, s, left, a, true, r', s.(mode := BAD), left, a', [])
  {
    hide Moved, Rel, Step, Low, Shr, Taken, TableFor, ModeRel, Pos;
    AtMode(base, input, r, s, a);
    RefillBound(base, input, r, r');
    StoredStep(base, input, r', a);
    a' := a.(mode := Bad);
    PlainModes(s.(mode := BAD));
    Stepping(base, input, r, s, left, a, r', 0, s.(mode := BAD), a');
    ShrZero(r'.hold);
  }

  lemma StoredGood(base: seq<Byte>, input: seq<Byte>, r: Regs, s: State, left: nat, a: Config,
                   r': Regs) returns (a': Config)
    requires Rel(base, input, r, s, a) && s.mode == STORED && a.pos % 8 == 0
    requires Refilled(base, input, r, r') && 32 <= r'.bits < 40 && Low(r'.hold, 16) + Shr(r'.hold, 16) == 0xffff
    ensures Moved(base, input, r, s, left, a, true, Drop(r', 32), s.(mode := COPY, length := Low(r'.hold, 16)), left,
      a',
                  [])
  {
    hide Moved, Rel, Step, Low, Shr, Taken, TableFor, ModeRel, Pos;
    AtMode(base, input, r, s, a);
    RefillBound(base, input, r, r');
    StoredStep(base, input, r', a);
    var s' := s.(mode := COPY, length := Low(r'.hold, 16));
    a' := a.(mode := Copy(Low(r'.hold, 16)), pos := a.pos + 32);
    PlainModes(s');
    Stepping(base, input, r, s, left, a, r', 32, s', a');
  }

  /** Reading the two lengths of a stored block; then the accumulator is empty. */
  lemma StoredStep(base: seq<Byte>, input: seq<Byte>, r: Regs, a: Config)
    requires RegsOk(base, input, r) && a.mode == Stored && a.pos == Pos(base, r) && a.pos % 8 == 0 && r.bits < 40
    ensures r.bits < 32 ==> Step(Taken(base, input, r), a) == Stuck
    ensures r.bits >= 32 ==> r.bits == 32 && Drop(r, 32) == Regs(0, 0, r.next)
    ensures r.bits >= 32 && Low(r.hold, 16) + Shr(r.hold, 16) != 0xffff ==>
      Step(Taken(base, input, r), a) == To(a.(mode := Bad))
    ensures r.bits >= 32 && Low(r.hold, 16) + Shr(r.hold, 16) == 0xffff ==>
      Step(Taken(base, input, r), a) == To(a.(mode := Copy(Low(r.hold, 16)), pos := a.pos + 32))
  {
    hide Step, Low, Shr, Peek, Val, StreamOf;
    StepOf(Taken(base, input, r), a);
    if r.bits >= 32 {
      assert r.bits == 32 by { BytesLeft(base, r); }
      WordHalves(base, input, r);
    }
  }

  lemma BytesLeft(base: seq<Byte>, r: Regs)
    requires Pos(base, r) >= 0 && Pos(base, r) % 8 == 0
    ensures r.bits % 8 == 0
  {
  }

  /** Going to the byte boundary is a step of its own. */
  lemma Aligned(base: seq<Byte>, input: seq<Byte>, r: Regs, s: State, a: Config) returns (a1: Config)
    requires Rel(base, input, r, s, a) && s.mode == STORED
    ensures Rel(base, input, Drop(r, r.bits % 8), s, a1) && a1.out == a.out && a1.pos % 8 == 0
    ensures Reaches(Taken(base, input, Drop(r, r.bits % 8)), a, a1)
  {
    hide Step, Sane, Peek, Val, StreamOf, TableFor, Shr, Reaches, Taken, RegsOk, AlignUp, Steps;
    RegsBound(base, input, r);
    var all := Taken(base, input, r);
    AlignIsDrop(base, r);
    DropOk(base, input, r, r.bits % 8);
    WholeBytes(a.pos);
    if a.pos % 8 == 0 {
      a1 := a;
      ReachesSelf(all, a);
    } else {
      AlignStep(all, a);
      a1 := a.(pos := AlignUp(a.pos));
      StepSane(all, a);
      ReachesStep(all, a);
    }
  }

  lemma WholeBytes(pos: nat)
    ensures AlignUp(pos) % 8 == 0 && (pos % 8 == 0 ==> AlignUp(pos) == pos)
  {
  }

  lemma AlignStep(input: seq<bool>, a: Config)
    requires a.mode.Stored? && a.pos % 8 != 0 && AlignUp(a.pos) <= |input|
    ensures Step(input, a) == To(a.(pos := AlignUp(a.pos)))
  {
    StepOf(input, a);
    hide Step;
  }

  /** The two halves of a 32-bit word; nothing is left when it is dropped. */
  lemma WordHalves(base: seq<Byte>, input: seq<Byte>, r: Regs)
    requires RegsOk(base, input, r) && r.bits == 32
    ensures Peek(Taken(base, input, r), Pos(base, r), 0, 16) == Low(r.hold, 16)
    ensures Peek(Taken(base, input, r), Pos(base, r), 16, 16) == Shr(r.hold, 16)
    ensures Shr(r.hold, 32) == 0
  {
    hide Val, StreamOf, Pow2, Low, Shr;
    PeekIsLow(base, input, r, 16);
    PeekAfter(base, input, r, 16, 16);
    ValBound(Taken(base, input, r)[Pos(base, r)..]);
    ShrBound(r.hold, 16, 16);
    LowSmall(Shr(r.hold, 16), 16);
    LowSmall(r.hold, 32);
  }

  /** Reading the three counts of a dynamic block. */
  lemma TableStep(base: seq<Byte>, input: seq<Byte>, r: Regs, a: Config)
    requires RegsOk(base, input, r) && a.mode == Table && a.pos == Pos(base, r)
    ensures r.bits < 14 ==> Step(Taken(base, input, r), a) == Stuck
    ensures r.bits >= 14 ==>
      var nlen, ndist, ncode := Low(r.hold, 5) + 257, Low(Shr(r.hold, 5), 5) + 1, Low(Shr(r.hold, 10), 4) + 4;
      Step(Taken(base, input, r), a)
        == To(a.(mode := if nlen > 286 || ndist > 30 then Bad else LenLens(nlen, ndist, ncode, []), pos := a.pos + 14))
  {
    hide Step, Low, Shr, Peek, Val, StreamOf;
    StepOf(Taken(base, input, r), a);
    if r.bits >= 14 {
      PeekIsLow(base, input, r, 5);
      PeekAfter(base, input, r, 5, 5);
      PeekAfter(base, input, r, 10, 4);
    }
  }

  /** The counts and the next mode, from the accumulator. */
  method ReadCounts(r: Regs, s: State) returns (s': State)
    requires r.bits >= 14
    ensures s'.nlen == Low(r.hold, 5) + 257 && s'.ndist == Low(Shr(r.hold, 5), 5) + 1
    ensures s'.ncode == Low(Shr(r.hold, 10), 4) + 4
    ensures s'.mode == (if s'.nlen > 286 || s'.ndist > 30 then BAD else LENLENS)
    ensures (s'.mode == LENLENS ==> s'.have == 0)
    ensures s'.lens == s.lens && s'.last == s.last
  {
    hide Low, Shr;
    SplitBits(r.hold, 5, 5);
    var r2 := Drop(r, 5);
    var r3 := Drop(r2, 5);
    s' := s.(nlen := Low(r.hold, 5) + 257, ndist := Low(r2.hold, 5) + 1, ncode := Low(r3.hold, 4) + 4);
    if s'.nlen > 286 || s'.ndist > 30 {
      s' := s'.(mode := BAD);
    } else {
      s' := s'.(have := 0, mode := LENLENS);
    }
  }

  method ModeTable(input: seq<Byte>, r: Regs, s: State, left: nat, ghost base: seq<Byte>, ghost a: Config)
    returns (go: bool, r': Regs, s': State, ghost a': Config)
    requires Rel(base, input, r, s, a) && s.mode == TABLE
    ensures Moved(base, input, r, s, left, a, go, r', s', left, a', [])
  {
    hide Moved, Rel, TableFor, Step, Low, Shr, Peek, Val, StreamOf, ModeRel, RegsOk, Refilled, Taken, Pos;
    AtMode(base, input, r, s, a);
    RegsBound(base, input, r);
    go, r' := NeedBits(input, r, 14, base);
    RefillBound(base, input, r, r');
    TableStep(base, input, r, a);
    TableStep(base, input, r', a);
    if !go {
      Starving(base, input, r, s, left, a, r');
      return go, r', s, a;
    }
    s' := ReadCounts(r', s);
    PlainModes(s');
    a' := Step(Taken(base, input, r'), a).c;
    Stepping(base, input, r, s, left, a, r', 14, s', a');
    r' := Drop(r', 14);
  }

  // ------------------------------------------------------------ stored bytes

  /** Copying `k` stored bytes is `k` steps of the reader. */
  lemma {:induction false} CopySteps(base: seq<Byte>, input: seq<Byte>, from: nat, k: nat, a: Config, limit: nat)
    requires a.mode.Copy? && k <= a.mode.length && a.pos == 8 * (|base| + from) && from + k <= limit <= |input|
    ensures Reaches(StreamOf(base + input[..limit]), a,
                    a.(mode := Copy(a.mode.length - k), pos := a.pos + 8 * k, out := a.out + input[from..from + k]))
    decreases k
  {
    hide Step, StreamOf;
    var all := StreamOf(base + input[..limit]);
    if k == 0 {
      assert a.out + input[from..from] == a.out;
      ReachesSelf(all, a);
    } else {
      StepOf(all, a);
      ByteAt(base, input, from, limit);
      ReachesStep(all, a);
      var b := Step(all, a).c;
      CopySteps(base, input, from + 1, k - 1, b, limit);
      assert b.out + input[from + 1..from + 1 + (k - 1)] == a.out + input[from..from + k];
      ReachesTrans(all, a, b,
                   a.(mode := Copy(a.mode.length - k), pos := a.pos + 8 * k, out := a.out + input[from..from + k]));
    }
  }

  lemma {:induction false} ByteAt(base: seq<Byte>, input: seq<Byte>, from: nat, limit: nat)
    requires from < limit <= |input|
    ensures Peek(StreamOf(base + input[..limit]), 8 * (|base| + from), 0, 8) == input[from]
  {
    hide StreamOf, Val, BitsOf;
    var bytes := base + input[..limit];
    var i := |base| + from;
    assert bytes == bytes[..i] + ([bytes[i]] + bytes[i + 1..]);
    StreamConcat(bytes[..i], [bytes[i]] + bytes[i + 1..]);
    StreamConcat([bytes[i]], bytes[i + 1..]);
    StreamSnoc([], bytes[i]);
    assert [] + [bytes[i]] == [bytes[i]];
    assert StreamOf([]) == [] by { StreamNil(); }
    assert StreamOf(bytes)[8 * i..8 * i + 8] == BitsOf(bytes[i], 8);
    ValBitsOf(bytes[i], 8);
    LowSmall(bytes[i], 8);
  }

  lemma StreamNil()
    ensures StreamOf([]) == []
  {
  }

  /** Copying a stretch of stored bytes. */
  lemma Copying(base: seq<Byte>, input: seq<Byte>, r: Regs, s: State, left: nat, a: Config,
                copy: nat) returns (a': Config)
    requires Rel(base, input, r, s, a) && s.mode == COPY && 0 < copy <= s.length && r.next + copy <= |input|
    requires copy <= left
    ensures Moved(base, input, r, s, left, a, true, Regs(0, 0, r.next + copy), s.(length := s.length - copy),
      left - copy, a',
                  input[r.next..r.next + copy])
  {
    hide TableFor, Step, Sane, Val, StreamOf;
    var r' := Regs(0, 0, r.next + copy);
    a' := a.(mode := Copy(s.length - copy), pos := a.pos + 8 * copy, out := a.out + input[r.next..r.next + copy]);
    CopySteps(base, input, r.next, copy, a, r'.next);
    ReachesStable(Taken(base, input, r'), [], a, a');
    EmptyHold(base, input, r');
  }

  method ModeCopy(input: seq<Byte>, r: Regs, s: State, left: nat, ghost base: seq<Byte>, ghost a: Config)
    returns (go: bool, r': Regs, s': State, left': nat, w: seq<nat>, ghost a': Config)
    requires Rel(base, input, r, s, a) && s.mode == COPY
    ensures Moved(base, input, r, s, left, a, go, r', s', left', a', w)
  {
    hide Moved, Rel, TableFor, Step, Shr, Val, StreamOf;
    AtMode(base, input, r, s, a);
    var copy := s.length;
    StepOf(Taken(base, input, r), a);
    if copy == 0 {
      a' := Step(Taken(base, input, r), a).c;
      s' := s.(mode := TYPE);
      Stepping(base, input, r, s, left, a, r, 0, s', a');
      assert Drop(r, 0) == r by { ShrZero(r.hold); }
      return true, r, s', left, [], a';
    }
    if copy > |input| - r.next {
      copy := |input| - r.next;
    }
    if copy > left {
      copy := left;
    }
    if copy == 0 {
      Halting(base, input, r, s, left, a);
      return false, r, s, left, [], a;
    }
    a' := Copying(base, input, r, s, left, a, copy);
    return true, Regs(0, 0, r.next + copy), s.(length := s.length - copy), left - copy, input[r.next..r.next + copy],
      a';
  }

  /** Stopping where nothing can be done. */
  lemma Halting(base: seq<Byte>, input: seq<Byte>, r: Regs, s: State, left: nat, a: Config)
    requires Rel(base, input, r, s, a) && Blocked(base, input, r, left, a)
    ensures Moved(base, input, r, s, left, a, false, r, s, left, a, [])
  {
    hide Step, Sane, ModeRel, Val, StreamOf;
    ReachesSelf(Taken(base, input, r), a);
  }

  lemma {:induction false} ShrZero(v: nat)
    ensures Shr(v, 0) == v
  {
  }

  lemma EmptyHold(base: seq<Byte>, input: seq<Byte>, r: Regs)
    requires r.next <= |input| && r.hold == 0 && r.bits == 0
    ensures RegsOk(base, input, r)
  {
    hide StreamOf;
    assert Taken(base, input, r)[8 * (|base| + r.next)..] == [];
  }
}
