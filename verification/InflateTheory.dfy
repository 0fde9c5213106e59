/**
 Properties of the reader in InflateSpec: what its state always satisfies, and that
 a step taken on some input is the same step on every longer input.
 */
module InflateTheory {
  import opened Bits
  import opened Canonical
  import opened DecodeTable
  import opened RunLength
  import opened InflateSpec

  ghost predicate SaneCodes(codes: Codes) {
    && |codes.llens| <= 288 && ValidLens(codes.llens) && Accepted(LENS, codes.llens)
    && |codes.dlens| <= 32 && ValidLens(codes.dlens) && Accepted(DISTS, codes.dlens)
  }

  ghost predicate SaneCounts(nlen: nat, ndist: nat) {
    257 <= nlen <= 286 && 1 <= ndist <= 30
  }

  /** What holds of the live state in every mode. */
  ghost predicate SaneMode(mode: Mode) {
    match mode
    case Type | Stored | Table | Done | Bad => true
    case Copy(length) => length < 0x10000
    case LenLens(nlen, ndist, ncode, cl) =>
      SaneCounts(nlen, ndist) && |cl| <= ncode <= 19 && forall i :: 0 <= i < |cl| ==> cl[i] < 8
    case CodeLens(nlen, ndist, clens, lens) =>
      && SaneCounts(nlen, ndist) && |lens| <= nlen + ndist && Small(lens)
      && |clens| == 19 && (forall s :: 0 <= s < 19 ==> clens[s] < 8) && Accepted(CODES, clens)
    case Len(codes) => SaneCodes(codes)
    case LenExt(codes, length, extra) => SaneCodes(codes) && extra <= 5 && 3 <= length && length + Pow2(extra) <= 259
    case Dist(codes, length) => SaneCodes(codes) && 3 <= length <= 258
    case DistExt(codes, length, offset, extra) =>
      SaneCodes(codes) && 3 <= length <= 258 && extra <= 13 && 1 <= offset && offset + Pow2(extra) <= 32769
    case Match(codes, length, offset) => SaneCodes(codes) && 1 <= length <= 258 && 1 <= offset <= 32768
    case Lit(codes, byte) => SaneCodes(codes) && byte < 256
  }

  /** The stream ends at a byte boundary. */
  ghost predicate Sane(c: Config) {
    && SaneMode(c.mode) && (c.mode == Done ==> c.pos % 8 == 0)
    && forall i :: 0 <= i < |c.out| ==> c.out[i] < 256
  }

  // ------------------------------------------------------------ decoding is stable

  lemma {:induction false} LowPrefix(a: seq<bool>, b: seq<bool>, l: nat)
    requires l <= |a|
    ensures Low(Val(a + b), l) == Low(Val(a), l)
  {
    ValSplit(a + b, l);
    ValSplit(a, l);
    assert (a + b)[..l] == a[..l];
  }

  lemma AcceptedUnique(ty: CodeType, lens: seq<nat>, s: nat, t: nat, hold: nat)
    requires ValidLens(lens) && Accepted(ty, lens) && Matches(lens, s, hold) && Matches(lens, t, hold)
    ensures s == t
  {
    hide EndCode;
    if Complete(lens) {
      MatchUnique(lens, s, t, hold);
    } else if r: nat :| LoneAt(lens, r) {
      assert s == r && t == r;
    }
  }

  lemma DecodeIs(ty: CodeType, lens: seq<nat>, s: nat, hold: nat, bits: nat)
    requires ValidLens(lens) && Accepted(ty, lens) && Matches(lens, s, hold) && lens[s] <= bits
    ensures Decode(lens, hold, bits) == Symbol(s)
  {
    hide Accepted, Complete;
    var t: nat :| Matches(lens, t, hold) && lens[t] <= bits && Decode(lens, hold, bits) == Symbol(t);
    AcceptedUnique(ty, lens, s, t, hold);
  }

  lemma {:induction false} DecodeStable(ty: CodeType, lens: seq<nat>, a: seq<bool>, b: seq<bool>)
    requires ValidLens(lens) && Accepted(ty, lens) && Decode(lens, Val(a), |a|) != Starved
    ensures Decode(lens, Val(a + b), |a + b|) == Decode(lens, Val(a), |a|)
  {
    hide Complete;
    if s: nat :| Matches(lens, s, Val(a)) && lens[s] <= |a| {
      LowPrefix(a, b, lens[s]);
      DecodeIs(ty, lens, s, Val(a), |a|);
      DecodeIs(ty, lens, s, Val(a + b), |a + b|);
    } else {
      forall t: nat | Matches(lens, t, Val(a + b)) && lens[t] <= |a + b| ensures false {
        LowPrefix(a, b, 1);
      }
    }
  }

  lemma LeftConcat(input: seq<bool>, more: seq<bool>, pos: nat)
    requires pos <= |input|
    ensures Left(input + more, pos) == Left(input, pos) + more
  {
  }

  lemma DecodeAtStable(ty: CodeType, lens: seq<nat>, input: seq<bool>, more: seq<bool>, pos: nat)
    requires ValidLens(lens) && Accepted(ty, lens) && DecodeAt(lens, input, pos) != Starved
    ensures DecodeAt(lens, input + more, pos) == DecodeAt(lens, input, pos)
  {
    hide Accepted, Decode;
    if pos <= |input| {
      LeftConcat(input, more, pos);
      DecodeStable(ty, lens, Left(input, pos), more);
    } else {
      NothingLeft(ty, lens);
    }
  }

  lemma NothingLeft(ty: CodeType, lens: seq<nat>)
    ensures Decode(lens, Val([]), 0) == Starved
  {
    forall s: nat | Matches(lens, s, Val([])) ensures lens[s] > 0 {
    }
  }

  lemma PeekStable(input: seq<bool>, more: seq<bool>, pos: nat, skip: nat, n: nat)
    requires pos + skip + n <= |input|
    ensures Peek(input + more, pos, skip, n) == Peek(input, pos, skip, n)
  {
    assert (input + more)[pos + skip..pos + skip + n] == input[pos + skip..pos + skip + n];
  }

  // ------------------------------------------------------------ steps are stable

  lemma StableHeader(input: seq<bool>, more: seq<bool>, c: Config)
    requires c.mode.Type? || c.mode.Stored? || c.mode.Copy? || c.mode.Table?
    requires Step(input, c).To?
    ensures Step(input + more, c) == Step(input, c)
  {
    hide Val;
    match c.mode
    case Type =>
      if !c.last {
        PeekStable(input, more, c.pos, 0, 1);
        PeekStable(input, more, c.pos, 1, 2);
      }
    case Stored =>
      if c.pos % 8 == 0 {
        PeekStable(input, more, c.pos, 0, 16);
        PeekStable(input, more, c.pos, 16, 16);
      }
    case Copy(length) =>
      if length > 0 {
        PeekStable(input, more, c.pos, 0, 8);
      }
    case Table =>
      PeekStable(input, more, c.pos, 0, 5);
      PeekStable(input, more, c.pos, 5, 5);
      PeekStable(input, more, c.pos, 10, 4);
  }

  lemma StableLengths(input: seq<bool>, more: seq<bool>, c: Config)
    requires c.mode.LenLens? || c.mode.CodeLens?
    requires Sane(c) && Step(input, c).To?
    ensures Step(input + more, c) == Step(input, c)
  {
    hide Val, BuildOk, Apply, CodesReady, DecodeAt, Accepted;
    match c.mode
    case LenLens(nlen, ndist, ncode, cl) =>
      if |cl| < ncode {
        PeekStable(input, more, c.pos, 0, 3);
      }
    case CodeLens(nlen, ndist, clens, lens) =>
      if |lens| < nlen + ndist {
        DecodeAtStable(CODES, clens, input, more, c.pos);
        match DecodeAt(clens, input, c.pos)
        case Symbol(s) =>
          if 16 <= s < |clens| {
            PeekStable(input, more, c.pos, clens[s], ExtraBlBits(s));
          }
        case _ =>
      }
  }

  lemma StableCodes(input: seq<bool>, more: seq<bool>, c: Config)
    requires c.mode.Len? || c.mode.LenExt? || c.mode.Dist? || c.mode.DistExt?
    requires Sane(c) && Step(input, c).To?
    ensures Step(input + more, c) == Step(input, c)
  {
    hide Val, AfterLen, AfterDist, DecodeAt, Accepted;
    match c.mode
    case Len(codes) => DecodeAtStable(LENS, codes.llens, input, more, c.pos);
    case LenExt(codes, length, extra) => PeekStable(input, more, c.pos, 0, extra);
    case Dist(codes, length) => DecodeAtStable(DISTS, codes.dlens, input, more, c.pos);
    case DistExt(codes, length, offset, extra) => PeekStable(input, more, c.pos, 0, extra);
  }

  /** A step that can be taken is the same step however much input follows. */
  lemma StepStable(input: seq<bool>, more: seq<bool>, c: Config)
    requires Sane(c) && Step(input, c).To?
    ensures Step(input + more, c) == Step(input, c)
  {
    match c.mode
    case Type | Stored | Copy(_) | Table => StableHeader(input, more, c);
    case LenLens(_, _, _, _) | CodeLens(_, _, _, _) => StableLengths(input, more, c);
    case Len(_) | LenExt(_, _, _) | Dist(_, _) | DistExt(_, _, _, _) => StableCodes(input, more, c);
    case _ =>
  }

  // ------------------------------------------------------------ the state stays sane

  lemma {:induction false} PeekBound(input: seq<bool>, pos: nat, skip: nat, n: nat)
    requires pos + skip + n <= |input|
    ensures Peek(input, pos, skip, n) < Pow2(n)
  {
    ValBound(input[pos + skip..pos + skip + n]);
  }

  lemma {:induction false} FixedCount(n: nat, b: nat)
    requires n <= 288
    ensures Count(FixedCodes().llens[..n], b) ==
            if b == 8 then (if n <= 144 then n else if n <= 280 then 144 else n - 136)
            else if b == 9 then (if n <= 144 then 0 else if n <= 256 then n - 144 else 112)
            else if b == 7 then (if n <= 256 then 0 else if n <= 280 then n - 256 else 24)
            else 0
  {
    if n > 0 {
      FixedCount(n - 1, b);
      CountPrefix(FixedCodes().llens, b, n - 1);
    }
  }

  lemma {:induction false} FixedDistCount(n: nat, b: nat)
    requires n <= 32
    ensures Count(FixedCodes().dlens[..n], b) == if b == 5 then n else 0
  {
    if n > 0 {
      FixedDistCount(n - 1, b);
      CountPrefix(FixedCodes().dlens, b, n - 1);
    }
  }

  /** A set of lengths whose longest codes fill the code space is complete. */
  lemma {:induction false} CompleteFrom(lens: seq<nat>, max: nat)
    requires 1 <= max <= MAX_BITS && EndCode(lens, max) == Pow2(max)
    requires forall b {:trigger EndCode(lens, b)} :: 1 <= b < max ==> EndCode(lens, b) <= Pow2(b)
    requires forall b :: max < b <= MAX_BITS ==> Count(lens, b) == 0
    ensures Complete(lens)
  {
    forall b | max <= b <= MAX_BITS ensures EndCode(lens, b) == Pow2(b) {
      EndCodeGap(lens, max, b);
      Pow2Shl(max, b - max);
    }
  }

  lemma {:induction false} NoneBelow(lens: seq<nat>, m: nat)
    requires forall b :: 1 <= b < m ==> Count(lens, b) == 0
    ensures forall b {:trigger EndCode(lens, b)} :: 1 <= b < m ==> EndCode(lens, b) == 0
    ensures m >= 1 ==> FirstCode(lens, m) == 0
  {
    if m > 1 {
      NoneBelow(lens, m - 1);
      assert FirstCode(lens, m) == 2 * (FirstCode(lens, m - 1) + (if m == 2 then 0 else Count(lens, m - 1))) || m == 2;
    }
  }

  lemma FixedCounts()
    ensures forall b: nat {:trigger Count(FixedCodes().llens, b)} ::
      Count(FixedCodes().llens, b) == if b == 7 then 24 else if b == 8 then 152 else if b == 9 then 112 else 0
    ensures forall b: nat {:trigger Count(FixedCodes().dlens, b)} ::
      Count(FixedCodes().dlens, b) == if b == 5 then 32 else 0
  {
    var l, d := FixedCodes().llens, FixedCodes().dlens;
    assert l[..288] == l && d[..32] == d;
    forall b: nat ensures Count(l, b) == if b == 7 then 24 else if b == 8 then 152 else if b == 9 then 112 else 0 {
      FixedCount(288, b);
    }
    forall b: nat ensures Count(d, b) == if b == 5 then 32 else 0 {
      FixedDistCount(32, b);
    }
  }

  lemma FixedComplete()
    ensures Complete(FixedCodes().llens) && Complete(FixedCodes().dlens)
  {
    var l, d := FixedCodes().llens, FixedCodes().dlens;
    FixedCounts();
    Pow2Small();
    NoneBelow(l, 7);
    NoneBelow(d, 5);
    assert FirstCode(l, 8) == 48;
    assert FirstCode(l, 9) == 400;
    CompleteFrom(l, 9);
    CompleteFrom(d, 5);
  }

  lemma FixedAccepted()
    ensures SaneCodes(FixedCodes())
  {
    hide Complete, Empty, Lone;
    FixedComplete();
  }

  /** The tables of the fixed codes are root tables of 512 and 32 entries. */
  lemma FixedFits()
    ensures RootBits(FixedCodes().llens, 9) == 9 && Fits(LENS, FixedCodes().llens, 9)
    ensures RootBits(FixedCodes().dlens, 5) == 5 && Fits(DISTS, FixedCodes().dlens, 5)
  {
    FixedCounts();
    Pow2Small();
    LongestIs(FixedCodes().llens, 9);
    LongestIs(FixedCodes().dlens, 5);
  }

  lemma {:induction false} LongestIs(lens: seq<nat>, max: nat)
    requires 0 < max <= MAX_BITS && Count(lens, max) > 0 && forall b :: max < b <= MAX_BITS ==> Count(lens, b) == 0
    ensures Longest(lens) == max
  {
  }

  lemma LengthBounds(c: nat)
    requires c < 29
    ensures 16 <= LExt(c) <= 21 && 3 <= LBase(c) && LBase(c) + Pow2(LExt(c) - 16) <= 259
  {
    Pow2Small();
  }

  lemma DistBounds(c: nat)
    requires c < 30
    ensures 16 <= DExt(c) <= 29 && 1 <= DBase(c) && DBase(c) + Pow2(DExt(c) - 16) <= 32769
  {
    Pow2Small();
  }

  lemma ByOrderSmall(cl: seq<nat>)
    requires forall i :: 0 <= i < |cl| ==> cl[i] < 8
    ensures forall s :: 0 <= s < 19 ==> ByOrder(cl)[s] < 8
  {
  }

  lemma ApplySmall(lens: seq<nat>, r: Run)
    requires Small(lens) && Apply(lens, r).Some?
    ensures Small(Apply(lens, r).value)
  {
  }

  lemma ReadySane(nlen: nat, ndist: nat, lens: seq<nat>)
    requires SaneCounts(nlen, ndist) && |lens| == nlen + ndist && Small(lens)
    ensures SaneMode(CodesReady(nlen, lens)) && CodesReady(nlen, lens) != Done
  {
    hide Accepted, Fits;
    var l, d := lens[..nlen], lens[nlen..];
    assert forall i :: 0 <= i < |l| ==> l[i] == lens[i];
    assert forall i :: 0 <= i < |d| ==> d[i] == lens[nlen + i];
  }

  lemma SaneHeader(input: seq<bool>, c: Config)
    requires c.mode.Type? || c.mode.Stored? || c.mode.Copy? || c.mode.Table?
    requires Sane(c) && Step(input, c).To?
    ensures Sane(Step(input, c).c)
  {
    hide Val, Peek, SaneCodes, FixedCodes;
    Pow2Small();
    match c.mode
    case Type => FixedAccepted();
    case Stored =>
      if c.pos % 8 == 0 {
        PeekBound(input, c.pos, 0, 16);
      }
    case Copy(length) =>
      if length > 0 {
        PeekBound(input, c.pos, 0, 8);
      }
    case Table =>
      PeekBound(input, c.pos, 10, 4);
  }

  lemma SaneLengths(input: seq<bool>, c: Config)
    requires c.mode.LenLens? || c.mode.CodeLens?
    requires Sane(c) && Step(input, c).To?
    ensures Sane(Step(input, c).c)
  {
    hide Val, Peek, Apply, CodesReady, DecodeAt, Accepted, ByOrder, Fits;
    match c.mode
    case LenLens(nlen, ndist, ncode, cl) =>
      if |cl| < ncode {
        PeekBound(input, c.pos, 0, 3);
        Pow2Small();
      } else {
        ByOrderSmall(cl);
      }
    case CodeLens(nlen, ndist, clens, lens) =>
      if |lens| < nlen + ndist {
        match DecodeAt(clens, input, c.pos)
        case Symbol(s) =>
          if 16 <= s < |clens| {
            var r := Run(s, Peek(input, c.pos, clens[s], ExtraBlBits(s)));
            if Apply(lens, r).Some? {
              ApplySmall(lens, r);
            }
          }
        case _ =>
      } else {
        ReadySane(nlen, ndist, lens);
      }
  }

  lemma SaneCodeModes(input: seq<bool>, c: Config)
    requires c.mode.Len? || c.mode.LenExt? || c.mode.Dist? || c.mode.DistExt?
    requires Sane(c) && Step(input, c).To?
    ensures Sane(Step(input, c).c)
  {
    hide Val, Peek, DecodeAt, SaneCodes, Accepted, LBase, LExt, DBase, DExt;
    match c.mode
    case Len(codes) =>
      match DecodeAt(codes.llens, input, c.pos) {
        case Symbol(s) => if 257 <= s < 286 { LengthBounds(s - 257); }
        case _ =>
      }
    case LenExt(codes, length, extra) => PeekBound(input, c.pos, 0, extra);
    case Dist(codes, length) =>
      match DecodeAt(codes.dlens, input, c.pos) {
        case Symbol(s) => if s < 30 { DistBounds(s); }
        case _ =>
      }
    case DistExt(codes, length, offset, extra) => PeekBound(input, c.pos, 0, extra);
  }

  lemma StepSane(input: seq<bool>, c: Config)
    requires Sane(c) && Step(input, c).To?
    ensures Sane(Step(input, c).c)
  {
    match c.mode
    case Type | Stored | Copy(_) | Table => SaneHeader(input, c);
    case LenLens(_, _, _, _) | CodeLens(_, _, _, _) => SaneLengths(input, c);
    case Len(_) | LenExt(_, _, _) | Dist(_, _) | DistExt(_, _, _, _) => SaneCodeModes(input, c);
    case _ =>
  }

  // ------------------------------------------------------------ whole runs

  lemma {:induction false} StepsStable(input: seq<bool>, more: seq<bool>, c: Config, n: nat, c': Config)
    requires Sane(c) && Steps(input, c, n, c')
    ensures Steps(input + more, c, n, c') && Sane(c')
    decreases n
  {
    hide Step, Sane;
    if n > 0 {
      StepStable(input, more, c);
      StepSane(input, c);
      StepsStable(input, more, Step(input, c).c, n - 1, c');
    }
  }

  /** A run on some input is a run on every longer input. */
  lemma ReachesStable(input: seq<bool>, more: seq<bool>, c: Config, c': Config)
    requires Sane(c) && Reaches(input, c, c')
    ensures Reaches(input + more, c, c') && Sane(c')
  {
    hide Steps, Sane;
    var n: nat :| Steps(input, c, n, c');
    StepsStable(input, more, c, n, c');
  }

  // ------------------------------------------------------------ errors

  /** A repeat of which there is nothing to repeat, or that reaches past the last of `n` lengths. */
  ghost predicate WrongRepeat(input: seq<bool>, c: Config, n: nat, clens: seq<nat>, lens: seq<nat>) {
    match DecodeAt(clens, input, c.pos)
    case Symbol(s) =>
      && 16 <= s < |clens|
      && var bits := if s == 16 then 2 else if s == 17 then 3 else 7;
      && c.pos + clens[s] + bits <= |input|
      && ((s == 16 && lens == [])
          || |lens| + (if s == 18 then 11 else 3) + Val(input[c.pos + clens[s]..c.pos + clens[s] + bits]) > n)
    case _ => false
  }

  /** What is wrong with the stream at `c`: the reasons for which `inflate` gives a message. */
  ghost predicate Wrong(input: seq<bool>, c: Config)
    requires Sane(c)
  {
    match c.mode
    case Type => !c.last && c.pos + 3 <= |input| && Val(input[c.pos + 1..c.pos + 3]) == 3
    case Stored =>
      && c.pos % 8 == 0 && c.pos + 32 <= |input|
      && Val(input[c.pos..c.pos + 16]) + Val(input[c.pos + 16..c.pos + 32]) != 65535
    case Table =>
      c.pos + 14 <= |input| && (Val(input[c.pos..c.pos + 5]) >= 30 || Val(input[c.pos + 5..c.pos + 10]) >= 30)
    case LenLens(_, _, ncode, cl) => |cl| == ncode && !(Accepted(CODES, ByOrder(cl)) && Fits(CODES, ByOrder(cl), 7))
    case CodeLens(nlen, ndist, clens, lens) =>
      if |lens| < nlen + ndist then WrongRepeat(input, c, nlen + ndist, clens, lens)
      else
        || lens[256] == 0 || !Accepted(LENS, lens[..nlen]) || !Fits(LENS, lens[..nlen], 9)
        || !Accepted(DISTS, lens[nlen..]) || !Fits(DISTS, lens[nlen..], 6)
    case Len(codes) =>
      match DecodeAt(codes.llens, input, c.pos) {
        case Starved => false
        case Invalid => true
        case Symbol(s) => s > 285
      }
    case Dist(codes, _) =>
      match DecodeAt(codes.dlens, input, c.pos) {
        case Starved => false
        case Invalid => true
        case Symbol(s) => s > 29
      }
    case Match(_, _, offset) => offset > |c.out|
    case _ => false
  }

  lemma WrongHeader(input: seq<bool>, c: Config)
    requires Sane(c) && (c.mode.Type? || c.mode.Stored? || c.mode.Copy? || c.mode.Table? || c.mode.LenLens?)
    ensures Wrong(input, c) <==> Step(input, c).To? && Step(input, c).c.mode == Bad
  {
    hide Val, Accepted, Fits, ByOrder, FixedCodes;
    if c.mode.Type? && c.pos + 3 <= |input| {
      PeekBound(input, c.pos, 1, 2);
      Pow2Small();
      assert Peek(input, c.pos, 1, 2) == Val(input[c.pos + 1..c.pos + 3]);
    }
  }

  lemma WrongLengths(input: seq<bool>, c: Config)
    requires Sane(c) && c.mode.CodeLens?
    ensures Wrong(input, c) <==> Step(input, c).To? && Step(input, c).c.mode == Bad
  {
    hide Val, Accepted, Fits, DecodeAt;
  }

  lemma WrongSymbols(input: seq<bool>, c: Config)
    requires Sane(c) && (c.mode.Len? || c.mode.Dist? || c.mode.LenExt? || c.mode.DistExt?)
    ensures Wrong(input, c) <==> Step(input, c).To? && Step(input, c).c.mode == Bad
  {
    hide Val, Accepted, Fits, LBase, LExt, DBase, DExt;
    if c.mode.Len? {
      DecodedLength(c.mode.codes.llens, input, c.pos);
    } else if c.mode.Dist? {
      DecodedLength(c.mode.codes.dlens, input, c.pos);
    }
    hide DecodeAt;
  }

  lemma DecodedLength(lens: seq<nat>, input: seq<bool>, pos: nat)
    ensures DecodeAt(lens, input, pos).Symbol? ==> DecodeAt(lens, input, pos).sym < |lens|
  {
    hide Val, Matches;
    if DecodeAt(lens, input, pos).Symbol? {
      SymbolLength(lens, Val(Left(input, pos)), |Left(input, pos)|);
    }
  }

  /** The reader goes to its error mode for these reasons and for no other. */
  lemma WrongExactly(input: seq<bool>, c: Config)
    requires Sane(c)
    ensures Wrong(input, c) <==> Step(input, c).To? && Step(input, c).c.mode == Bad
  {
    match c.mode
    case Type | Stored | Copy(_) | Table | LenLens(_, _, _, _) => WrongHeader(input, c);
    case CodeLens(_, _, _, _) => WrongLengths(input, c);
    case Len(_) | LenExt(_, _, _) | Dist(_, _) | DistExt(_, _, _, _) => WrongSymbols(input, c);
    case _ =>
  }
}
