/**
 Raw inflate as a reader of one bit string: the modes of `inflate`
 (src/zlib/inflate.c) from TYPEDO to DONE, one small step at a time, with the codes
 decoded by their definition (RFC 1951) and not through tables.  A step reads the
 bits it needs, or writes one byte, or does neither.
 */
module InflateSpec {
  import opened Bits
  import opened DecodeTable
  import opened RunLength

  /** The code lengths in force: literals and lengths, and distances. */
  datatype Codes = Codes(llens: seq<nat>, dlens: seq<nat>)

  /** A mode together with the state that is live in it. */
  datatype Mode =
    | Type
    | Stored
    | Copy(length: nat)
    | Table
    | LenLens(nlen: nat, ndist: nat, ncode: nat, cl: seq<nat>)
    | CodeLens(nlen: nat, ndist: nat, clens: seq<nat>, lens: seq<nat>)
    | Len(codes: Codes)
    | LenExt(codes: Codes, length: nat, extra: nat)
    | Dist(codes: Codes, length: nat)
    | DistExt(codes: Codes, length: nat, offset: nat, extra: nat)
    | Match(codes: Codes, length: nat, offset: nat)
    | Lit(codes: Codes, byte: nat)
    | Done
    | Bad

  /** The mode, whether this is the last block, the bits consumed, and all bytes written. */
  datatype Config = Config(mode: Mode, last: bool, pos: nat, out: seq<nat>)

  datatype Next = Stuck | Halted | To(c: Config)

  // ------------------------------------------------------------ constants

  function FixedLen(s: nat): nat {
    if s < 144 then 8 else if s < 256 then 9 else if s < 280 then 7 else 8
  }

  function FixedCodes(): Codes {
    Codes(seq(288, s requires 0 <= s => FixedLen(s)), seq(32, _ => 5))
  }

  /** The order in which the lengths of the code-length code are sent. */
  function Order(i: nat): nat {
    match i
    case 0 => 16 case 1 => 17 case 2 => 18 case 3 => 0 case 4 => 8 case 5 => 7 case 6 => 9
    case 7 => 6 case 8 => 10 case 9 => 5 case 10 => 11 case 11 => 4 case 12 => 12 case 13 => 3
    case 14 => 13 case 15 => 2 case 16 => 14 case 17 => 1 case _ => 15
  }

  /** The place of symbol `s` in that order. */
  function Rank(s: nat): nat {
    match s
    case 16 => 0 case 17 => 1 case 18 => 2 case 0 => 3 case 8 => 4 case 7 => 5 case 9 => 6
    case 6 => 7 case 10 => 8 case 5 => 9 case 11 => 10 case 4 => 11 case 12 => 12 case 3 => 13
    case 13 => 14 case 2 => 15 case 14 => 16 case 1 => 17 case _ => 18
  }

  /** The code lengths by symbol, from those read in order; lengths not sent are zero. */
  function ByOrder(cl: seq<nat>): (lens: seq<nat>)
    ensures |lens| == 19
  {
    seq(19, s requires 0 <= s => if Rank(s) < |cl| then cl[Rank(s)] else 0)
  }

  /** The set of lengths is taken and its table fits. */
  ghost predicate BuildOk(ty: CodeType, lens: seq<nat>, bits: nat) {
    Accepted(ty, lens) && Fits(ty, lens, bits)
  }

  // ------------------------------------------------------------ reading

  function Left(input: seq<bool>, pos: nat): seq<bool> {
    if pos <= |input| then input[pos..] else []
  }

  function Peek(input: seq<bool>, pos: nat, skip: nat, n: nat): nat
    requires pos + skip + n <= |input|
  {
    Val(input[pos + skip..pos + skip + n])
  }

  function AlignUp(pos: nat): nat {
    (pos + 7) / 8 * 8
  }

  ghost function DecodeAt(lens: seq<nat>, input: seq<bool>, pos: nat): Decoded {
    Decode(lens, Val(Left(input, pos)), |Left(input, pos)|)
  }

  // ------------------------------------------------------------ steps

  function Go(c: Config, mode: Mode, bits: nat): Next {
    To(c.(mode := mode, pos := c.pos + bits))
  }

  function Put(c: Config, mode: Mode, bits: nat, b: nat): Next {
    To(c.(mode := mode, pos := c.pos + bits, out := c.out + [b]))
  }

  function BlockMode(ty: nat): Mode {
    if ty == 0 then Stored else if ty == 1 then Len(FixedCodes()) else if ty == 2 then Table else Bad
  }

  function StepType(input: seq<bool>, c: Config): Next {
    if c.last then To(c.(mode := Done, pos := AlignUp(c.pos)))
    else if |input| < c.pos + 3 then Stuck
    else
      var last := Peek(input, c.pos, 0, 1) == 1;
      To(c.(mode := BlockMode(Peek(input, c.pos, 1, 2)), last := last, pos := c.pos + 3))
  }

  function StepStored(input: seq<bool>, c: Config): Next {
    if c.pos % 8 != 0 then
      if AlignUp(c.pos) > |input| then Stuck else To(c.(pos := AlignUp(c.pos)))
    else if |input| < c.pos + 32 then Stuck
    else
      var length, check := Peek(input, c.pos, 0, 16), Peek(input, c.pos, 16, 16);
      if length + check != 0xffff then Go(c, Bad, 0) else Go(c, Copy(length), 32)
  }

  function StepCopy(input: seq<bool>, c: Config, length: nat): Next {
    if length == 0 then Go(c, Type, 0)
    else if |input| < c.pos + 8 then Stuck
    else Put(c, Copy(length - 1), 8, Peek(input, c.pos, 0, 8))
  }

  function StepTable(input: seq<bool>, c: Config): Next {
    if |input| < c.pos + 14 then Stuck
    else
      var nlen, ndist, ncode := Peek(input, c.pos, 0, 5) + 257, Peek(input, c.pos, 5, 5) + 1,
        Peek(input, c.pos, 10, 4) + 4;
      Go(c, if nlen > 286 || ndist > 30 then Bad else LenLens(nlen, ndist, ncode, []), 14)
  }

  ghost function StepLenLens(input: seq<bool>, c: Config, nlen: nat, ndist: nat, ncode: nat, cl: seq<nat>): Next {
    if |cl| < ncode then
      if |input| < c.pos + 3 then Stuck
      else Go(c, LenLens(nlen, ndist, ncode, cl + [Peek(input, c.pos, 0, 3)]), 3)
    else
      var clens := ByOrder(cl);
      Go(c, if BuildOk(CODES, clens, 7) then CodeLens(nlen, ndist, clens, []) else Bad, 0)
  }

  /** The lengths are all there: split them and see whether both codes are good. */
  ghost function CodesReady(nlen: nat, lens: seq<nat>): Mode
    requires 257 <= nlen <= |lens|
  {
    if lens[256] == 0 then Bad
    else if !BuildOk(LENS, lens[..nlen], 9) then Bad
    else if !BuildOk(DISTS, lens[nlen..], 6) then Bad
    else Len(Codes(lens[..nlen], lens[nlen..]))
  }

  ghost function StepCodeLens(input: seq<bool>, c: Config, nlen: nat, ndist: nat, clens: seq<nat>,
                              lens: seq<nat>): Next {
    if |lens| < nlen + ndist then
      match DecodeAt(clens, input, c.pos)
      case Starved => Stuck
      case Invalid => Go(c, CodeLens(nlen, ndist, clens, lens + [0]), 1)
      case Symbol(s) =>
        if s >= |clens| then Stuck
        else if s < 16 then Go(c, CodeLens(nlen, ndist, clens, lens + [s]), clens[s])
        else
          var extra := ExtraBlBits(s);
          if |input| < c.pos + clens[s] + extra then Stuck
          else
            match Apply(lens, Run(s, Peek(input, c.pos, clens[s], extra)))
            case None => Go(c, Bad, clens[s])
            case Some(more) =>
              Go(c, if |more| > nlen + ndist then Bad else CodeLens(nlen, ndist, clens, more), clens[s] + extra)
    else if 257 <= nlen <= |lens| then Go(c, CodesReady(nlen, lens), 0)
    else Stuck
  }

  /** What a literal/length symbol leads to. */
  function AfterLen(codes: Codes, s: nat): Mode {
    if s < 256 then Lit(codes, s)
    else if s == 256 then Type
    else if s < 286 then LenExt(codes, LBase(s - 257), LExt(s - 257) - 16)
    else Bad
  }

  ghost function StepLen(input: seq<bool>, c: Config, codes: Codes): Next {
    match DecodeAt(codes.llens, input, c.pos)
    case Starved => Stuck
    case Invalid => Go(c, Bad, 1)
    case Symbol(s) => if s < |codes.llens| then Go(c, AfterLen(codes, s), codes.llens[s]) else Stuck
  }

  function StepLenExt(input: seq<bool>, c: Config, codes: Codes, length: nat, extra: nat): Next {
    if |input| < c.pos + extra then Stuck
    else Go(c, Dist(codes, length + Peek(input, c.pos, 0, extra)), extra)
  }

  function AfterDist(codes: Codes, length: nat, s: nat): Mode {
    if s < 30 then DistExt(codes, length, DBase(s), DExt(s) - 16) else Bad
  }

  ghost function StepDist(input: seq<bool>, c: Config, codes: Codes, length: nat): Next {
    match DecodeAt(codes.dlens, input, c.pos)
    case Starved => Stuck
    case Invalid => Go(c, Bad, 1)
    case Symbol(s) => if s < |codes.dlens| then Go(c, AfterDist(codes, length, s), codes.dlens[s]) else Stuck
  }

  function StepDistExt(input: seq<bool>, c: Config, codes: Codes, length: nat, offset: nat, extra: nat): Next {
    if |input| < c.pos + extra then Stuck
    else Go(c, Match(codes, length, offset + Peek(input, c.pos, 0, extra)), extra)
  }

  function StepMatch(c: Config, codes: Codes, length: nat, offset: nat): Next {
    if offset > |c.out| || offset == 0 then Go(c, Bad, 0)
    else Put(c, if length <= 1 then Len(codes) else Match(codes, length - 1, offset), 0, c.out[|c.out| - offset])
  }

  ghost function Step(input: seq<bool>, c: Config): Next {
    match c.mode
    case Type => StepType(input, c)
    case Stored => StepStored(input, c)
    case Copy(length) => StepCopy(input, c, length)
    case Table => StepTable(input, c)
    case LenLens(nlen, ndist, ncode, cl) => StepLenLens(input, c, nlen, ndist, ncode, cl)
    case CodeLens(nlen, ndist, clens, lens) => StepCodeLens(input, c, nlen, ndist, clens, lens)
    case Len(codes) => StepLen(input, c, codes)
    case LenExt(codes, length, extra) => StepLenExt(input, c, codes, length, extra)
    case Dist(codes, length) => StepDist(input, c, codes, length)
    case DistExt(codes, length, offset, extra) => StepDistExt(input, c, codes, length, offset, extra)
    case Match(codes, length, offset) => StepMatch(c, codes, length, offset)
    case Lit(codes, byte) => Put(c, Len(codes), 0, byte)
    case Done => Halted
    case Bad => Halted
  }

  // the step, by groups of modes

  lemma StepOf(input: seq<bool>, c: Config)
    ensures c.mode == Type ==> Step(input, c) == StepType(input, c)
    ensures c.mode == Stored ==> Step(input, c) == StepStored(input, c)
    ensures c.mode.Copy? ==> Step(input, c) == StepCopy(input, c, c.mode.length)
    ensures c.mode == Table ==> Step(input, c) == StepTable(input, c)
  {
  }

  lemma StepOfCodes(input: seq<bool>, c: Config)
    ensures c.mode.Len? ==> Step(input, c) == StepLen(input, c, c.mode.codes)
    ensures c.mode.LenExt? ==> Step(input, c) == StepLenExt(input, c, c.mode.codes, c.mode.length, c.mode.extra)
    ensures c.mode.Dist? ==> Step(input, c) == StepDist(input, c, c.mode.codes, c.mode.length)
    ensures c.mode.DistExt? ==>
      Step(input, c) == StepDistExt(input, c, c.mode.codes, c.mode.length, c.mode.offset, c.mode.extra)
  {
  }

  lemma StepOfLengths(input: seq<bool>, c: Config)
    ensures c.mode.LenLens? ==>
      Step(input, c) == StepLenLens(input, c, c.mode.nlen, c.mode.ndist, c.mode.ncode, c.mode.cl)
    ensures c.mode.CodeLens? ==>
      Step(input, c) == StepCodeLens(input, c, c.mode.nlen, c.mode.ndist, c.mode.clens, c.mode.lens)
  {
  }

  lemma StepOfOutput(input: seq<bool>, c: Config)
    ensures c.mode.Match? ==> Step(input, c) == StepMatch(c, c.mode.codes, c.mode.length, c.mode.offset)
    ensures c.mode.Lit? ==> Step(input, c) == Put(c, Len(c.mode.codes), 0, c.mode.byte)
  {
  }

  /** The modes that cannot go on without room for output. */
  predicate NeedsRoom(mode: Mode) {
    mode.Lit? || mode.Match? || (mode.Copy? && mode.length > 0)
  }

  // ------------------------------------------------------------ runs

  ghost predicate Steps(input: seq<bool>, c: Config, n: nat, c': Config)
    decreases n
  {
    if n == 0 then c == c'
    else Step(input, c).To? && Steps(input, Step(input, c).c, n - 1, c')
  }

  ghost predicate Reaches(input: seq<bool>, c: Config, c': Config) {
    exists n: nat :: Steps(input, c, n, c')
  }

  lemma ReachesSelf(input: seq<bool>, c: Config)
    ensures Reaches(input, c, c)
  {
    assert Steps(input, c, 0, c);
  }

  lemma ReachesStep(input: seq<bool>, c: Config)
    requires Step(input, c).To?
    ensures Reaches(input, c, Step(input, c).c)
  {
    hide Step;
    assert Steps(input, Step(input, c).c, 0, Step(input, c).c);
    assert Steps(input, c, 1, Step(input, c).c);
  }

  lemma {:induction false} StepsAppend(input: seq<bool>, c: Config, n: nat, c': Config, m: nat, c'': Config)
    requires Steps(input, c, n, c') && Steps(input, c', m, c'')
    ensures Steps(input, c, n + m, c'')
    decreases n
  {
    hide Step;
    if n > 0 {
      StepsAppend(input, Step(input, c).c, n - 1, c', m, c'');
    }
  }

  lemma ReachesTrans(input: seq<bool>, a: Config, b: Config, c: Config)
    requires Reaches(input, a, b) && Reaches(input, b, c)
    ensures Reaches(input, a, c)
  {
    hide Steps;
    var n: nat :| Steps(input, a, n, b);
    var m: nat :| Steps(input, b, m, c);
    StepsAppend(input, a, n, b, m, c);
  }

  // ------------------------------------------------------------ determinism

  lemma {:induction false} StepsCompare(input: seq<bool>, c: Config, n: nat, a: Config, m: nat, b: Config)
    requires n <= m && Steps(input, c, n, a) && Steps(input, c, m, b)
    ensures Steps(input, a, m - n, b)
    decreases n
  {
    hide Step;
    if n > 0 {
      StepsCompare(input, Step(input, c).c, n - 1, a, m - 1, b);
    }
  }

  /** Two runs on the same input that cannot go on have come to the same place. */
  lemma StoppedSame(input: seq<bool>, c: Config, a: Config, b: Config)
    requires Reaches(input, c, a) && Reaches(input, c, b)
    requires !Step(input, a).To? && !Step(input, b).To?
    ensures a == b
  {
    hide Step;
    var n: nat :| Steps(input, c, n, a);
    var m: nat :| Steps(input, c, m, b);
    if n <= m {
      StepsCompare(input, c, n, a, m, b);
    } else {
      StepsCompare(input, c, m, b, n, a);
    }
  }
}
