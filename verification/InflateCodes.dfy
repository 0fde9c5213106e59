/** The modes of `inflate` (src/zlib/inflate.c) that decode literals, lengths and distances. */
module InflateCodes {
  import opened Bits
  import opened Canonical
  import opened DecodeTable
  import opened InflateSpec
  import opened InflateTheory
  import opened BitReader
  import opened TableLookup
  import opened Inflate

  // ------------------------------------------------- from entries to modes

  /** What the source does with a literal/length entry. */
  function AfterLenEntry(codes: Codes, here: Code): Mode {
    if here.op == 0 then Lit(codes, here.val)
    else if here.op / 32 % 2 == 1 then Type
    else if here.op / 64 % 2 == 1 then Bad
    else LenExt(codes, here.val, here.op % 16)
  }

  function AfterDistEntry(codes: Codes, length: nat, here: Code): Mode {
    if here.op / 64 % 2 == 1 then Bad else DistExt(codes, length, here.val, here.op % 16)
  }

  lemma LenEntries(codes: Codes, s: nat, bits: nat)
    requires s < 288
    ensures AfterLenEntry(codes, Entry(LENS, s, bits)) == AfterLen(codes, s)
  {
  }

  lemma DistEntries(codes: Codes, length: nat, s: nat, bits: nat)
    requires s < 32
    ensures AfterDistEntry(codes, length, Entry(DISTS, s, bits)) == AfterDist(codes, length, s)
  {
  }

  lemma AtCodes(base: seq<Byte>, input: seq<Byte>, r: Regs, s: State, a: Config)
    requires Rel(base, input, r, s, a)
    ensures RegsOk(base, input, r) && a.pos == Pos(base, r) && a.last == s.last && |s.lens| == 320 && r.bits <= 32
    ensures r.bits < 8 || a.mode == Bad || Step(Taken(base, input, r), a) == Stuck
    ensures s.mode == LEN ==> a.mode.Len? && TablesFor(s, a.mode.codes) && SaneCodes(a.mode.codes)
    ensures s.mode == LENEXT ==>
      a.mode.LenExt? && a.mode.length == s.length && a.mode.extra == s.extra <= 5 && TablesFor(s, a.mode.codes)
    ensures s.mode == DIST ==>
      a.mode.Dist? && a.mode.length == s.length && TablesFor(s, a.mode.codes) && SaneCodes(a.mode.codes)
    ensures s.mode == DISTEXT ==> a.mode.DistExt? && a.mode.length == s.length && a.mode.offset == s.offset
                                  && a.mode.extra == s.extra <= 13 && TablesFor(s, a.mode.codes)
  {
    hide Step, SaneCodes, Val, StreamOf, TableFor;
  }

  /** The step of the reader in mode Len, from what the table gave. */
  lemma LenStep(base: seq<Byte>, input: seq<Byte>, r: Regs, a: Config, t: seq<Code>, root: nat)
    requires RegsOk(base, input, r) && a.pos == Pos(base, r) && a.mode.Len? && SaneCodes(a.mode.codes)
    requires TableFor(LENS, a.mode.codes.llens, t, root)
    ensures match Lookup(t, root, r.hold, r.bits)
      case NeedMore => Step(Taken(base, input, r), a) == Stuck && r.bits < MAX_BITS
      case Got(here, drop) =>
        Step(Taken(base, input, r), a) == To(a.(mode := AfterLenEntry(a.mode.codes, here), pos := a.pos + drop))
          && drop > 0
  {
    hide Step, Lookup, TableFor, Val, StreamOf, AfterLen, AfterLenEntry, Entry, Accepted, Decode;
    var lens := a.mode.codes.llens;
    StepOfCodes(Taken(base, input, r), a);
    DecodeIsHold(base, input, r, lens);
    LookupDecodes(LENS, lens, t, root, r.hold, r.bits);
    match Decode(lens, r.hold, r.bits)
    case Starved => StarvedShort(lens, r.hold, r.bits);
    case Invalid => InvalidEntry(a.mode.codes);
    case Symbol(s) =>
      SymbolLength(lens, r.hold, r.bits);
      LenEntries(a.mode.codes, s, EntryBits(lens[s], root));
  }

  lemma InvalidEntry(codes: Codes)
    ensures AfterLenEntry(codes, INVALID) == Bad
    ensures forall length :: AfterDistEntry(codes, length, INVALID) == Bad
  {
  }

  lemma DistStepOf(base: seq<Byte>, input: seq<Byte>, r: Regs, a: Config, t: seq<Code>, root: nat)
    requires RegsOk(base, input, r) && a.pos == Pos(base, r) && a.mode.Dist? && SaneCodes(a.mode.codes)
    requires TableFor(DISTS, a.mode.codes.dlens, t, root)
    ensures match Lookup(t, root, r.hold, r.bits)
      case NeedMore => Step(Taken(base, input, r), a) == Stuck && r.bits < MAX_BITS
      case Got(here, drop) =>
        Step(Taken(base, input, r), a)
          == To(a.(mode := AfterDistEntry(a.mode.codes, a.mode.length, here), pos := a.pos + drop)) && drop > 0
  {
    hide Step, Lookup, TableFor, Val, StreamOf, AfterDist, AfterDistEntry, Entry, Accepted, Decode;
    var lens := a.mode.codes.dlens;
    StepOfCodes(Taken(base, input, r), a);
    DecodeIsHold(base, input, r, lens);
    LookupDecodes(DISTS, lens, t, root, r.hold, r.bits);
    match Decode(lens, r.hold, r.bits)
    case Starved => StarvedShort(lens, r.hold, r.bits);
    case Invalid => InvalidEntry(a.mode.codes);
    case Symbol(s) =>
      SymbolLength(lens, r.hold, r.bits);
      DistEntries(a.mode.codes, a.mode.length, s, EntryBits(lens[s], root));
  }

  // ------------------------------------------------- modes

  method ModeLen(input: seq<Byte>, r: Regs, s: State, left: nat, ghost base: seq<Byte>, ghost a: Config)
    returns (go: bool, r': Regs, s': State, ghost a': Config)
    requires Rel(base, input, r, s, a) && s.mode == LEN
    ensures Moved(base, input, r, s, left, a, go, r', s', left, a', [])
  {
    hide Moved, Rel, Step, Shr, RegsOk, Refilled, Taken, TableFor, Lookup, SaneCodes, Pow2;
    AtCodes(base, input, r, s, a);
    var here, drop;
    go, here, drop, r' := LookupCode(input, r, s.lencode, s.lenbits, LENS, a.mode.codes.llens, base);
    RefillBound(base, input, r, r');
    TableBound(LENS, a.mode.codes.llens, s.lencode, s.lenbits);
    LenStep(base, input, r', a, s.lencode, s.lenbits);
    if !go {
      Starving(base, input, r, s, left, a, r');
      return go, r', s, a;
    }
    a' := Step(Taken(base, input, r'), a).c;
    s' := s.(length := here.val);
    if here.op == 0 {
      s' := s'.(mode := LIT);
    } else if here.op / 32 % 2 == 1 {
      s' := s'.(mode := TYPE);
    } else if here.op / 64 % 2 == 1 {
      s' := s'.(mode := BAD);
    } else {
      s' := s'.(extra := here.op % 16, mode := LENEXT);
    }
    Stepping(base, input, r, s, left, a, r', drop, s', a');
    r' := Drop(r', drop);
  }

  method ModeLenExt(input: seq<Byte>, r: Regs, s: State, left: nat, ghost base: seq<Byte>, ghost a: Config)
    returns (go: bool, r': Regs, s': State, ghost a': Config)
    requires Rel(base, input, r, s, a) && s.mode == LENEXT
    ensures Moved(base, input, r, s, left, a, go, r', s', left, a', [])
  {
    hide Moved, Rel, Step, Shr, Low, Peek, RegsOk, Refilled, Taken, TableFor, Pow2;
    AtCodes(base, input, r, s, a);
    RegsBound(base, input, r);
    StepOfCodes(Taken(base, input, r), a);
    go, r' := NeedBits(input, r, s.extra, base);
    RefillBound(base, input, r, r');
    StepOfCodes(Taken(base, input, r'), a);
    if !go {
      Starving(base, input, r, s, left, a, r');
      return go, r', s, a;
    }
    PeekIsLow(base, input, r', s.extra);
    a' := Step(Taken(base, input, r'), a).c;
    s' := s.(length := s.length + Low(r'.hold, s.extra), mode := DIST);
    Stepping(base, input, r, s, left, a, r', s.extra, s', a');
    r' := Drop(r', s.extra);
  }

  method ModeDist(input: seq<Byte>, r: Regs, s: State, left: nat, ghost base: seq<Byte>, ghost a: Config)
    returns (go: bool, r': Regs, s': State, ghost a': Config)
    requires Rel(base, input, r, s, a) && s.mode == DIST
    ensures Moved(base, input, r, s, left, a, go, r', s', left, a', [])
  {
    hide Moved, Rel, Step, Shr, RegsOk, Refilled, Taken, TableFor, Lookup, SaneCodes, Pow2;
    AtCodes(base, input, r, s, a);
    var here, drop;
    go, here, drop, r' := LookupCode(input, r, s.distcode, s.distbits, DISTS, a.mode.codes.dlens, base);
    RefillBound(base, input, r, r');
    TableBound(DISTS, a.mode.codes.dlens, s.distcode, s.distbits);
    DistStepOf(base, input, r', a, s.distcode, s.distbits);
    if !go {
      Starving(base, input, r, s, left, a, r');
      return go, r', s, a;
    }
    a' := Step(Taken(base, input, r'), a).c;
    if here.op / 64 % 2 == 1 {
      s' := s.(mode := BAD);
    } else {
      s' := s.(offset := here.val, extra := here.op % 16, mode := DISTEXT);
    }
    Stepping(base, input, r, s, left, a, r', drop, s', a');
    r' := Drop(r', drop);
  }

  method ModeDistExt(input: seq<Byte>, r: Regs, s: State, left: nat, ghost base: seq<Byte>, ghost a: Config)
    returns (go: bool, r': Regs, s': State, ghost a': Config)
    requires Rel(base, input, r, s, a) && s.mode == DISTEXT
    ensures Moved(base, input, r, s, left, a, go, r', s', left, a', [])
  {
    hide Moved, Rel, Step, Shr, Low, Peek, RegsOk, Refilled, Taken, TableFor, Pow2;
    AtCodes(base, input, r, s, a);
    RegsBound(base, input, r);
    StepOfCodes(Taken(base, input, r), a);
    go, r' := NeedBits(input, r, s.extra, base);
    RefillBound(base, input, r, r');
    StepOfCodes(Taken(base, input, r'), a);
    if !go {
      Starving(base, input, r, s, left, a, r');
      return go, r', s, a;
    }
    PeekIsLow(base, input, r', s.extra);
    a' := Step(Taken(base, input, r'), a).c;
    s' := s.(offset := s.offset + Low(r'.hold, s.extra), mode := MATCH);
    Stepping(base, input, r, s, left, a, r', s.extra, s', a');
    r' := Drop(r', s.extra);
  }
}
