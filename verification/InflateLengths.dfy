/** The modes LENLENS and CODELENS of `inflate` (src/zlib/inflate.c): reading the codes of a dynamic block. */
module InflateLengths {
  import opened Bits
  import opened Canonical
  import opened DecodeTable
  import opened RunLength
  import opened InflateSpec
  import opened InflateTheory
  import opened BitReader
  import opened TableLookup
  import opened Inflate
  import InflateTable

  /** What the relation says in mode LENLENS. */
  ghost predicate AsLenLens(s: State, m: Mode) {
    && m.LenLens? && m.nlen == s.nlen && m.ndist == s.ndist && m.ncode == s.ncode && |s.lens| == 320
    && s.have == |m.cl| <= s.ncode <= 19 && InOrder(s.lens, s.have) == m.cl
    && forall i :: 0 <= i < s.have ==> m.cl[i] < 8
  }

  /** What the relation says in mode CODELENS. */
  ghost predicate AsCodeLens(s: State, m: Mode) {
    && m.CodeLens? && m.nlen == s.nlen && m.ndist == s.ndist && SaneCounts(s.nlen, s.ndist) && |s.lens| == 320
    && s.have == |m.lens| <= s.nlen + s.ndist && s.lens[..s.have] == m.lens && Small(m.lens)
    && |m.clens| == 19 && (forall i :: 0 <= i < 19 ==> m.clens[i] < 8) && Accepted(CODES, m.clens)
    && TableFor(CODES, m.clens, s.lencode, s.lenbits)
  }

  lemma AtLengths(base: seq<Byte>, input: seq<Byte>, r: Regs, s: State, a: Config)
    requires Rel(base, input, r, s, a)
    ensures RegsOk(base, input, r) && a.pos == Pos(base, r) && a.last == s.last && |s.lens| == 320 && r.bits <= 32
    ensures r.bits < 8 || a.mode == Bad || Step(Taken(base, input, r), a) == Stuck
    ensures s.mode == LENLENS ==> AsLenLens(s, a.mode)
    ensures s.mode == CODELENS ==> AsCodeLens(s, a.mode)
  {
    hide Step, Val, StreamOf, TableFor, Accepted;
  }

  /** Where a pass has come to, still in the same mode. */
  ghost predicate Came(base: seq<Byte>, input: seq<Byte>, r: Regs, s: State, a: Config, r1: Regs, s1: State,
                       a1: Config) {
    && r.next <= r1.next <= |input| && Rel(base, input, r1, s1, a1) && Reaches(Taken(base, input, r1), a, a1)
    && a1.out == a.out && s1.mode == s.mode && Unread(input, r1) <= Unread(input, r)
  }

  lemma CameStart(base: seq<Byte>, input: seq<Byte>, r: Regs, s: State, a: Config)
    requires Rel(base, input, r, s, a)
    ensures Came(base, input, r, s, a, r, s, a)
  {
    hide Step, Sane, ModeRel, Val, StreamOf, BitsOk;
    ReachesSelf(Taken(base, input, r), a);
  }

  lemma CameThen(base: seq<Byte>, input: seq<Byte>, r: Regs, s: State, left: nat, a: Config,
                 r1: Regs, s1: State, a1: Config, go: bool, r': Regs, s': State, a': Config)
    requires Rel(base, input, r, s, a) && Came(base, input, r, s, a, r1, s1, a1)
    requires Moved(base, input, r1, s1, left, a1, go, r', s', left, a', [])
    ensures Moved(base, input, r, s, left, a, go, r', s', left, a', [])
    ensures go && s'.mode == s.mode ==> Came(base, input, r, s, a, r', s', a')
  {
    hide Step, Sane, ModeRel, Val, StreamOf, BitsOk, Taken, RegsOk, Blocked;
    RegsBound(base, input, r');
    TakenMore(base, input, r1, r');
    Then(base, input, r, s, left, a, r1, s1, a1, go, r', s', left, a', []);
  }

  // ------------------------------------------------- LENLENS

  lemma InOrderPut(lens: seq<nat>, n: nat, v: nat)
    requires |lens| == 320 && n < 19
    ensures Order(n) < 19 && InOrder(lens[Order(n) := v], n + 1) == InOrder(lens, n) + [v]
  {
    forall i | 0 <= i < n ensures Order(i) != Order(n) {
    }
  }

  lemma InOrderAll(lens: seq<nat>, cl: seq<nat>)
    requires |lens| == 320 && |cl| <= 19 && InOrder(lens, 19) == cl + seq(19 - |cl|, _ => 0)
    ensures lens[..19] == ByOrder(cl)
  {
    forall s: nat | s < 19 ensures lens[s] == ByOrder(cl)[s] {
      assert Rank(s) < 19 && Order(Rank(s)) == s;
      assert lens[s] == InOrder(lens, 19)[Rank(s)];
    }
  }

  method OneLenLen(input: seq<Byte>, r: Regs, s: State, left: nat, ghost base: seq<Byte>, ghost a: Config)
    returns (go: bool, r': Regs, s': State, ghost a': Config)
    requires Rel(base, input, r, s, a) && s.mode == LENLENS && s.have < s.ncode
    ensures Moved(base, input, r, s, left, a, go, r', s', left, a', [])
    ensures s'.mode == LENLENS && s'.ncode == s.ncode && (go ==> s'.have == s.have + 1)
  {
    hide Moved, Rel, Step, Shr, Low, Peek, RegsOk, Refilled, Taken, TableFor, Pow2, InOrder, Order, ByOrder, BuildOk;
    AtLengths(base, input, r, s, a);
    RegsBound(base, input, r);
    StepOfLengths(Taken(base, input, r), a);
    go, r' := NeedBits(input, r, 3, base);
    RefillBound(base, input, r, r');
    StepOfLengths(Taken(base, input, r'), a);
    if !go {
      Starving(base, input, r, s, left, a, r');
      return go, r', s, a;
    }
    PeekIsLow(base, input, r', 3);
    InOrderPut(s.lens, s.have, Low(r'.hold, 3));
    a' := Step(Taken(base, input, r'), a).c;
    s' := s.(lens := s.lens[Order(s.have) := Low(r'.hold, 3)], have := s.have + 1);
    Stepping(base, input, r, s, left, a, r', 3, s', a');
    r' := Drop(r', 3);
  }

  method ClearRest(lens: seq<nat>, have: nat) returns (lens': seq<nat>)
    requires |lens| == 320 && have <= 19
    ensures |lens'| == 320 && lens'[..19] == ByOrder(InOrder(lens, have))
  {
    hide Order, InOrder, ByOrder;
    lens' := lens;
    ghost var cl := InOrder(lens, have);
    assert cl + seq(0, _ => 0) == cl;
    for i := have to 19
      invariant |lens'| == 320 && InOrder(lens', i) == cl + seq(i - have, _ => 0)
    {
      InOrderPut(lens', i, 0);
      assert cl + seq(i - have, _ => 0) + [0] == cl + seq(i + 1 - have, _ => 0);
      lens' := lens'[Order(i) := 0];
    }
    InOrderAll(lens', cl);
  }

  method FinishLenLens(input: seq<Byte>, r: Regs, s: State, left: nat, ghost base: seq<Byte>, ghost a: Config)
    returns (s': State, ghost a': Config)
    requires Rel(base, input, r, s, a) && s.mode == LENLENS && s.have >= s.ncode
    ensures Moved(base, input, r, s, left, a, true, r, s', left, a', [])
  {
    hide Moved, Rel, Step, Shr, RegsOk, Taken, TableFor, InOrder, Order, ByOrder, Accepted, Fits, RootBits, Space;
    AtLengths(base, input, r, s, a);
    RegsBound(base, input, r);
    StepOfLengths(Taken(base, input, r), a);
    var lens := ClearRest(s.lens, s.have);
    ghost var clens := ByOrder(a.mode.cl);
    ByOrderSmall(a.mode.cl);
    var table := new Code[ENOUGH_LENS](_ => INVALID);
    var work := new nat[19](_ => 0);
    Pow2Small();
    var ret, root, used := InflateTable.Build(CODES, lens[..19], table, 0, 7, work);
    a' := Step(Taken(base, input, r), a).c;
    if ret != 0 {
      s' := s.(lens := lens, mode := BAD);
    } else {
      s' := s.(lens := lens, lencode := table[0..used], lenbits := root, have := 0, mode := CODELENS);
      assert s'.lens[..0] == [];
    }
    RefillSelf(base, input, r);
    Stepping(base, input, r, s, left, a, r, 0, s', a');
    assert Drop(r, 0) == r by { ShrZero(r.hold); }
  }

  method ModeLenLens(input: seq<Byte>, r: Regs, s: State, left: nat, ghost base: seq<Byte>, ghost a: Config)
    returns (go: bool, r': Regs, s': State, ghost a': Config)
    requires Rel(base, input, r, s, a) && s.mode == LENLENS
    ensures Moved(base, input, r, s, left, a, go, r', s', left, a', [])
  {
    hide Moved, Rel, Came;
    r', s', a' := r, s, a;
    CameStart(base, input, r, s, a);
    CameRel(base, input, r, s, a, r', s', a');
    while s'.have < s'.ncode
      invariant Came(base, input, r, s, a, r', s', a') && s'.mode == LENLENS && Rel(base, input, r', s', a')
      decreases s'.ncode - s'.have
    {
      ghost var r1, s1, a1 := r', s', a';
      go, r', s', a' := OneLenLen(input, r', s', left, base, a');
      CameThen(base, input, r, s, left, a, r1, s1, a1, go, r', s', a');
      if !go {
        return;
      }
      CameRel(base, input, r, s, a, r', s', a');
    }
    ghost var s1, a1 := s', a';
    s', a' := FinishLenLens(input, r', s', left, base, a');
    CameThen(base, input, r, s, left, a, r', s1, a1, true, r', s', a');
    go := true;
  }

  lemma CameRel(base: seq<Byte>, input: seq<Byte>, r: Regs, s: State, a: Config, r1: Regs, s1: State, a1: Config)
    requires Came(base, input, r, s, a, r1, s1, a1)
    ensures Rel(base, input, r1, s1, a1) && s1.mode == s.mode
  {
    hide Step, Sane, ModeRel, Val, StreamOf, BitsOk;
  }

  // ------------------------------------------------- CODELENS

  lemma RefillTrans(base: seq<Byte>, input: seq<Byte>, r: Regs, r1: Regs, r2: Regs)
    requires Refilled(base, input, r, r1) && Refilled(base, input, r1, r2)
    ensures Refilled(base, input, r, r2)
  {
    hide RegsOk, StreamOf;
  }

  /** The step of the reader in mode CodeLens, from what the table gave. */
  ghost predicate CodeLensStep(next: Next, a: Config, r: Regs, here: Code, drop: nat)
    requires a.mode.CodeLens?
  {
    var CodeLens(nlen, ndist, clens, lens) := a.mode;
    var extra := ExtraBlBits(here.val);
    && 0 < drop <= MAX_BITS && here.val <= 18
    && if here.val < 16 then next == To(a.(mode := CodeLens(nlen, ndist, clens, lens + [here.val]),
       pos := a.pos + drop))
       else if r.bits < drop + extra then next == Stuck
       else match Apply(lens, Run(here.val, Low(Shr(r.hold, drop), extra)))
         case None => next == To(a.(mode := Bad, pos := a.pos + drop))
         case Some(more) =>
           next == To(a.(mode := if |more| > nlen + ndist then Bad else CodeLens(nlen, ndist, clens, more),
             pos := a.pos + (drop + extra)))
  }

  lemma {:induction false} CodeStep(base: seq<Byte>, input: seq<Byte>, r: Regs, a: Config, t: seq<Code>, root: nat)
    requires RegsOk(base, input, r) && a.pos == Pos(base, r) && a.mode.CodeLens?
    requires |a.mode.lens| < a.mode.nlen + a.mode.ndist
    requires |a.mode.clens| == 19 && TableFor(CODES, a.mode.clens, t, root) && Pow2(root) <= |t|
    ensures match Lookup(t, root, r.hold, r.bits)
      case NeedMore => Step(Taken(base, input, r), a) == Stuck && r.bits < MAX_BITS
      case Got(here, drop) => drop <= r.bits ==> CodeLensStep(Step(Taken(base, input, r), a), a, r, here, drop)
  {
    hide Step, Lookup, Val, StreamOf, Accepted, Decode, Apply, Low, Shr, Placed, Peek;
    var lens := a.mode.clens;
    StepOfLengths(Taken(base, input, r), a);
    DecodeIsHold(base, input, r, lens);
    LookupDecodes(CODES, lens, t, root, r.hold, r.bits);
    match Decode(lens, r.hold, r.bits)
    case Starved => StarvedShort(lens, r.hold, r.bits);
    case Invalid =>
    case Symbol(s) =>
      SymbolLength(lens, r.hold, r.bits);
      if 16 <= s && lens[s] + ExtraBlBits(s) <= r.bits {
        PeekAfter(base, input, r, lens[s], ExtraBlBits(s));
      }
  }

  /** The source's copy loop. */
  method FillLens(lens: seq<nat>, have: nat, copy: nat, v: nat) returns (lens': seq<nat>)
    requires |lens| == 320 && have + copy <= 320
    ensures |lens'| == 320 && lens'[..have + copy] == lens[..have] + Copies(copy, v)
  {
    lens' := lens;
    for i := 0 to copy
      invariant |lens'| == 320 && lens'[..have] == lens[..have] && forall j :: have <= j < have + i ==> lens'[j] == v
    {
      lens' := lens'[have + i := v];
    }
  }

  /** Reads one symbol of the code lengths. */
  method OneCodeLen(input: seq<Byte>, r: Regs, s: State, left: nat, ghost base: seq<Byte>, ghost a: Config)
    returns (go: bool, r': Regs, s': State, ghost a': Config)
    requires Rel(base, input, r, s, a) && s.mode == CODELENS && s.have < s.nlen + s.ndist
    ensures Moved(base, input, r, s, left, a, go, r', s', left, a', [])
    ensures go ==>
      s'.mode == BAD || (s'.mode == CODELENS && s'.nlen == s.nlen && s'.ndist == s.ndist
      && s.have < s'.have <= s.nlen + s.ndist)
  {
    hide Moved, Rel, Step, Shr, Low, Peek, RegsOk, Refilled, Taken, TableFor, Lookup, Pow2, Accepted, Apply;
    AtLengths(base, input, r, s, a);
    RegsBound(base, input, r);
    TableBound(CODES, a.mode.clens, s.lencode, s.lenbits);
    var here, drop;
    go, here, drop, r' := LookupCode(input, r, s.lencode, s.lenbits, CODES, a.mode.clens, base);
    RefillBound(base, input, r, r');
    CodeStep(base, input, r', a, s.lencode, s.lenbits);
    if !go {
      Starving(base, input, r, s, left, a, r');
      return go, r', s, a;
    }
    if here.val < 16 {
      a' := Step(Taken(base, input, r'), a).c;
      s' := s.(lens := s.lens[s.have := here.val], have := s.have + 1);
      assert s'.lens[..s'.have] == s.lens[..s.have] + [here.val];
      Stepping(base, input, r, s, left, a, r', drop, s', a');
      r' := Drop(r', drop);
      return;
    }
    go, r', s', a' := RepeatCodeLen(input, r, r', s, left, here, drop, base, a);
  }

  /** More bits do not change what was found. */
  lemma {:induction false} LookupSame(ty: CodeType, lens: seq<nat>, t: seq<Code>, root: nat, base: seq<Byte>,
                                      input: seq<Byte>, r1: Regs, r2: Regs)
    requires TableFor(ty, lens, t, root) && ValidLens(lens) && Accepted(ty, lens) && Pow2(root) <= |t|
    requires Refilled(base, input, r1, r2) && Lookup(t, root, r1.hold, r1.bits).Got?
    ensures Lookup(t, root, r2.hold, r2.bits) == Lookup(t, root, r1.hold, r1.bits)
  {
    hide TableFor, Accepted, Lookup, Decode, RegsOk, StreamOf, Entry, DecodeAt, ValidLens;
    RefillBound(base, input, r1, r2);
    RegsBound(base, input, r1);
    var all, all' := Taken(base, input, r1), Taken(base, input, r2);
    DecodeIsHold(base, input, r1, lens);
    DecodeIsHold(base, input, r2, lens);
    LookupDecodes(ty, lens, t, root, r1.hold, r1.bits);
    LookupDecodes(ty, lens, t, root, r2.hold, r2.bits);
    DecodeAtStable(ty, lens, all, all'[|all|..], Pos(base, r1));
    assert all + all'[|all|..] == all';
  }

  /** A symbol that repeats a length. */
  method RepeatCodeLen(input: seq<Byte>, ghost r: Regs, r1: Regs, s: State, left: nat, here: Code, drop: nat,
                       ghost base: seq<Byte>, ghost a: Config)
    returns (go: bool, r': Regs, s': State, ghost a': Config)
    requires Rel(base, input, r, s, a) && s.mode == CODELENS && s.have < s.nlen + s.ndist && a.mode.CodeLens?
    requires Refilled(base, input, r, r1) && (r1 == r || r1.bits < drop + 8) && drop <= r1.bits <= 32
    requires Pow2(s.lenbits) <= |s.lencode| && Lookup(s.lencode, s.lenbits, r1.hold, r1.bits) == Got(here, drop)
    requires 16 <= here.val <= 18
    ensures Moved(base, input, r, s, left, a, go, r', s', left, a', [])
    ensures go ==>
      s'.mode == BAD || (s'.mode == CODELENS && s'.nlen == s.nlen && s'.ndist == s.ndist
      && s.have < s'.have <= s.nlen + s.ndist)
  {
    hide Moved, Rel, Step, Shr, Low, Peek, RegsOk, Refilled, Taken, TableFor, Lookup, Pow2, Accepted, Apply, ModeRel;
    AtLengths(base, input, r, s, a);
    RefillBound(base, input, r, r1);
    CodeStep(base, input, r1, a, s.lencode, s.lenbits);
    var extra := if here.val == 16 then 2 else if here.val == 17 then 3 else 7;
    go, r' := NeedBits(input, r1, drop + extra, base);
    RefillBound(base, input, r1, r');
    RefillTrans(base, input, r, r1, r');
    LookupSame(CODES, a.mode.clens, s.lencode, s.lenbits, base, input, r1, r');
    CodeStep(base, input, r', a, s.lencode, s.lenbits);
    if !go {
      Starving(base, input, r, s, left, a, r');
      return go, r', s, a;
    }
    a' := Step(Taken(base, input, r'), a).c;
    var used;
    used, s' := ApplyRepeat(s, here.val, Low(Shr(r'.hold, drop), extra), a.mode);
    var n := if used then drop + extra else drop;
    Stepping(base, input, r, s, left, a, r', n, s', a');
    r' := Drop(r', n);
  }

  /** The lengths after a repeat, or an error; `used` tells whether the repeat count has been read. */
  method ApplyRepeat(s: State, sym: nat, count: nat, ghost m: Mode) returns (used: bool, s': State)
    requires AsCodeLens(s, m) && s.mode == CODELENS && 16 <= sym <= 18
    ensures s'.last == s.last && used == Apply(m.lens, Run(sym, count)).Some?
    ensures s'.mode == BAD || (s'.mode == CODELENS && s'.nlen == s.nlen && s'.ndist == s.ndist
      && s.have < s'.have <= s.nlen + s.ndist)
    ensures ModeRel(s', match Apply(m.lens, Run(sym, count))
      case None => Bad
      case Some(more) => if |more| > m.nlen + m.ndist then Bad else CodeLens(m.nlen, m.ndist, m.clens, more))
  {
    hide TableFor, Accepted;
    if sym == 16 && s.have == 0 {
      return false, s.(mode := BAD);
    }
    var v := if sym == 16 then s.lens[s.have - 1] else 0;
    var copy := (if sym == 18 then 11 else 3) + count;
    if s.have + copy > s.nlen + s.ndist {
      return true, s.(mode := BAD);
    }
    var lens := FillLens(s.lens, s.have, copy, v);
    return true, s.(lens := lens, have := s.have + copy);
  }

  /** The lengths are there: both tables are built, one behind the other. */
  method FinishCodeLens(input: seq<Byte>, r: Regs, s: State, left: nat, ghost base: seq<Byte>, ghost a: Config)
    returns (s': State, ghost a': Config)
    requires Rel(base, input, r, s, a) && s.mode == CODELENS && s.have >= s.nlen + s.ndist
    ensures Moved(base, input, r, s, left, a, true, r, s', left, a', [])
  {
    hide Moved, Rel, Step, Shr, RegsOk, Taken, TableFor, Accepted, Fits, BuildOk;
    AtLengths(base, input, r, s, a);
    RegsBound(base, input, r);
    StepOfLengths(Taken(base, input, r), a);
    a' := Step(Taken(base, input, r), a).c;
    if s.lens[256] == 0 {
      s' := s.(mode := BAD);
    } else {
      s' := BuildCodes(s, a.mode.lens);
    }
    RefillSelf(base, input, r);
    Stepping(base, input, r, s, left, a, r, 0, s', a');
    assert Drop(r, 0) == r by { ShrZero(r.hold); }
  }

  method BuildCodes(s: State, ghost lens: seq<nat>) returns (s': State)
    requires |s.lens| == 320 && SaneCounts(s.nlen, s.ndist) && |lens| == s.nlen + s.ndist && s.lens[..|lens|] == lens
    requires Small(lens)
    requires lens[256] != 0
    ensures ModeRel(s', CodesReady(s.nlen, lens)) && s'.last == s.last && (s'.mode == LEN || s'.mode == BAD)
  {
    hide TableFor, Accepted, Fits, Space, RootBits;
    var ldata, ddata := s.lens[..s.nlen], s.lens[s.nlen..s.nlen + s.ndist];
    assert ldata == lens[..s.nlen] && ddata == lens[s.nlen..];
    var table := new Code[ENOUGH_LENS + ENOUGH_DISTS](_ => INVALID);
    var work := new nat[288](_ => 0);
    var ret, lenbits, used := InflateTable.Build(LENS, ldata, table, 0, 9, work);
    if ret != 0 {
      return s.(mode := BAD);
    }
    LensRoom(ldata, lenbits, used);
    ghost var lencode := table[0..used];
    var ret2, distbits, used2 := InflateTable.Build(DISTS, ddata, table, used, 6, work);
    if ret2 != 0 {
      return s.(mode := BAD);
    }
    assert table[0..used] == lencode;
    s' := s.(lencode := table[0..used], lenbits := lenbits, distcode := table[used..used + used2],
             distbits := distbits, mode := LEN);
  }

  lemma LensRoom(lens: seq<nat>, root: nat, used: nat)
    requires ValidLens(lens) && Fits(LENS, lens, 9) && root == RootBits(lens, 9)
    requires used == if Empty(lens) then 2 else Space(lens, root)
    ensures used <= ENOUGH_LENS
  {
    hide Space, RootBits, Complete, Lone;
    InflateTable.LeftOver(lens);
  }

  method ModeCodeLens(input: seq<Byte>, r: Regs, s: State, left: nat, ghost base: seq<Byte>, ghost a: Config)
    returns (go: bool, r': Regs, s': State, ghost a': Config)
    requires Rel(base, input, r, s, a) && s.mode == CODELENS
    ensures Moved(base, input, r, s, left, a, go, r', s', left, a', [])
  {
    hide Moved, Rel, Came;
    r', s', a' := r, s, a;
    CameStart(base, input, r, s, a);
    CameRel(base, input, r, s, a, r', s', a');
    while s'.have < s'.nlen + s'.ndist
      invariant Came(base, input, r, s, a, r', s', a') && s'.mode == CODELENS && Rel(base, input, r', s', a')
      decreases s'.nlen + s'.ndist - s'.have
    {
      ghost var r1, s1, a1 := r', s', a';
      go, r', s', a' := OneCodeLen(input, r', s', left, base, a');
      CameThen(base, input, r, s, left, a, r1, s1, a1, go, r', s', a');
      if !go || s'.mode == BAD {
        return;
      }
      CameRel(base, input, r, s, a, r', s', a');
    }
    ghost var s1, a1 := s', a';
    s', a' := FinishCodeLens(input, r', s', left, base, a');
    CameThen(base, input, r, s, left, a, r', s1, a1, true, r', s', a');
    go := true;
  }
}
