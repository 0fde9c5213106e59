/**
 The input bit accumulator of src/zlib/inflate.c: the registers `hold` and `bits`,
 the input position, and the macros PULLBYTE, NEEDBITS, BITS, DROPBITS and BYTEBITS
 on them.  `base` stands for the input bytes taken by earlier calls.
 */
module BitReader {
  import opened Bits
  import opened DecodeTable
  import opened InflateSpec

  datatype Regs = Regs(hold: nat, bits: nat, next: nat)

  /** All the bits taken so far. */
  ghost function Taken(base: seq<Byte>, input: seq<Byte>, r: Regs): (s: seq<bool>)
    requires r.next <= |input|
    ensures |s| == 8 * (|base| + r.next)
  {
    StreamOf(base + input[..r.next])
  }

  /** The position, among the bits taken, of the first one that has not been used. */
  ghost function Pos(base: seq<Byte>, r: Regs): int {
    8 * (|base| + r.next) - r.bits
  }

  /** `hold` is the value of the bits that have been taken and not used. */
  ghost predicate RegsOk(base: seq<Byte>, input: seq<Byte>, r: Regs) {
    && r.next <= |input| && Pos(base, r) >= 0
    && r.hold == Val(Taken(base, input, r)[Pos(base, r)..])
  }

  lemma {:induction false} TakeByte(taken: seq<Byte>, bits: nat, b: Byte)
    requires bits <= 8 * |taken|
    ensures StreamOf(taken) <= StreamOf(taken + [b])
    ensures Val(StreamOf(taken + [b])[8 * |taken| - bits..])
         == Val(StreamOf(taken)[8 * |taken| - bits..]) + Shl(b, bits)
  {
    hide StreamOf, Val, Shl;
    var all, p := StreamOf(taken), 8 * |taken| - bits;
    StreamSnoc(taken, b);
    ValConcat(all[p..], BitsOf(b, 8));
    ValBitsOf(b, 8);
    LowSmall(b, 8);
    assert (all + BitsOf(b, 8))[p..] == all[p..] + BitsOf(b, 8);
  }

  function Pull(input: seq<Byte>, r: Regs): Regs
    requires r.next < |input|
  {
    Regs(r.hold + Shl(input[r.next], r.bits), r.bits + 8, r.next + 1)
  }

  lemma PullOk(base: seq<Byte>, input: seq<Byte>, r: Regs)
    requires RegsOk(base, input, r) && r.next < |input|
    ensures RegsOk(base, input, Pull(input, r)) && Pos(base, Pull(input, r)) == Pos(base, r)
    ensures Taken(base, input, r) <= Taken(base, input, Pull(input, r))
  {
    hide StreamOf, Val, Shl;
    TakeByte(base + input[..r.next], r.bits, input[r.next]);
    assert base + input[..r.next + 1] == base + input[..r.next] + [input[r.next]];
  }

  /** Bits taken by `r'` after `r`: nothing used, and all that was known before still is. */
  ghost predicate Refilled(base: seq<Byte>, input: seq<Byte>, r: Regs, r': Regs) {
    && RegsOk(base, input, r) && RegsOk(base, input, r') && r.next <= r'.next
    && Pos(base, r') == Pos(base, r) && Taken(base, input, r) <= Taken(base, input, r')
  }

  /** Assures that `n` bits are there, or finds that the input has run out. */
  method NeedBits(input: seq<Byte>, r: Regs, n: nat, ghost base: seq<Byte>) returns (ok: bool, r': Regs)
    requires RegsOk(base, input, r)
    ensures Refilled(base, input, r, r')
    ensures ok == (r'.bits >= n) && (r' == r || r'.bits < n + 8)
    ensures !ok ==> r'.next == |input|
  {
    hide StreamOf, Val, Shl, RegsOk;
    RegsBound(base, input, r);
    r' := r;
    while r'.bits < n
      invariant r'.next <= |input| && Refilled(base, input, r, r') && (r' == r || r'.bits < n + 8)
      decreases |input| - r'.next
    {
      if r'.next == |input| {
        return false, r';
      }
      PullOk(base, input, r');
      r' := Pull(input, r');
    }
    ok := true;
  }

  lemma RegsBound(base: seq<Byte>, input: seq<Byte>, r: Regs)
    requires RegsOk(base, input, r)
    ensures r.next <= |input| && Pos(base, r) >= 0
  {
  }

  lemma RefillSelf(base: seq<Byte>, input: seq<Byte>, r: Regs)
    requires RegsOk(base, input, r)
    ensures Refilled(base, input, r, r)
  {
  }

  lemma RefillBound(base: seq<Byte>, input: seq<Byte>, r: Regs, r': Regs)
    requires Refilled(base, input, r, r')
    ensures RegsOk(base, input, r') && r.next <= r'.next <= |input| && 0 <= Pos(base, r') == Pos(base, r)
  {
  }

  function Drop(r: Regs, n: nat): Regs
    requires n <= r.bits
  {
    Regs(Shr(r.hold, n), r.bits - n, r.next)
  }

  lemma DropOk(base: seq<Byte>, input: seq<Byte>, r: Regs, n: nat)
    requires RegsOk(base, input, r) && n <= r.bits
    ensures RegsOk(base, input, Drop(r, n)) && Pos(base, Drop(r, n)) == Pos(base, r) + n
    ensures Taken(base, input, Drop(r, n)) == Taken(base, input, r)
  {
    hide StreamOf, Val, Shr;
    var known := Taken(base, input, r)[Pos(base, r)..];
    ValSplit(known, n);
    assert known[n..] == Taken(base, input, r)[Pos(base, r) + n..];
  }

  lemma AlignIsDrop(base: seq<Byte>, r: Regs)
    requires Pos(base, r) >= 0
    ensures AlignUp(Pos(base, r)) == Pos(base, r) + r.bits % 8
  {
    var p, q := Pos(base, r), r.bits / 8;
    assert p + r.bits % 8 == 8 * (|base| + r.next - q);
  }

  // ------------------------------------------------ reading against the bit string

  lemma {:induction false} PeekIsLow(base: seq<Byte>, input: seq<Byte>, r: Regs, n: nat)
    requires RegsOk(base, input, r) && n <= r.bits
    ensures Peek(Taken(base, input, r), Pos(base, r), 0, n) == Low(r.hold, n)
  {
    hide StreamOf, Val, Low;
    var all, p := Taken(base, input, r), Pos(base, r);
    ValSplit(all[p..], n);
    assert all[p..p + n] == all[p..][..n];
  }

  lemma {:induction false} PeekAfter(base: seq<Byte>, input: seq<Byte>, r: Regs, skip: nat, n: nat)
    requires RegsOk(base, input, r) && skip + n <= r.bits
    ensures Peek(Taken(base, input, r), Pos(base, r), skip, n) == Low(Shr(r.hold, skip), n)
  {
    hide StreamOf, Val, Low, Shr;
    var all, p := Taken(base, input, r), Pos(base, r);
    ValSplit(all[p..], skip);
    ValSplit(all[p..][skip..], n);
    assert all[p + skip..p + skip + n] == all[p..][skip..][..n];
  }

  lemma DecodeIsHold(base: seq<Byte>, input: seq<Byte>, r: Regs, lens: seq<nat>)
    requires RegsOk(base, input, r)
    ensures DecodeAt(lens, Taken(base, input, r), Pos(base, r)) == Decode(lens, r.hold, r.bits)
  {
    hide StreamOf, Val, Decode;
    assert Left(Taken(base, input, r), Pos(base, r)) == Taken(base, input, r)[Pos(base, r)..];
  }
}
