/**
 What the two-level decoding tables of src/zlib/inftrees.c must contain, and how
 much room they take, stated on the canonical code alone.
 */
module DecodeTable {
  import opened Bits
  import opened Canonical

  datatype CodeType = CODES | LENS | DISTS

  /** A table entry: what to do, how many bits to drop, and a value. */
  datatype Code = Code(op: nat, bits: nat, val: nat)

  const ENOUGH_LENS := 852
  const ENOUGH_DISTS := 592

  /** Base values of the length symbols 257, 258, ...: the source's table `lbase`. */
  function LBase(c: nat): nat {
    match c
    case 0 => 3 case 1 => 4 case 2 => 5 case 3 => 6 case 4 => 7 case 5 => 8 case 6 => 9 case 7 => 10
    case 8 => 11 case 9 => 13 case 10 => 15 case 11 => 17 case 12 => 19 case 13 => 23 case 14 => 27 case 15 => 31
    case 16 => 35 case 17 => 43 case 18 => 51 case 19 => 59 case 20 => 67 case 21 => 83 case 22 => 99 case 23 => 115
    case 24 => 131 case 25 => 163 case 26 => 195 case 27 => 227 case 28 => 258 case 29 => 0 case 30 => 0
    case _ => 0
  }

  /** Their entry operations: the source's table `lext`. */
  function LExt(c: nat): nat {
    match c
    case 0 => 16 case 1 => 16 case 2 => 16 case 3 => 16 case 4 => 16 case 5 => 16 case 6 => 16 case 7 => 16
    case 8 => 17 case 9 => 17 case 10 => 17 case 11 => 17 case 12 => 18 case 13 => 18 case 14 => 18 case 15 => 18
    case 16 => 19 case 17 => 19 case 18 => 19 case 19 => 19 case 20 => 20 case 21 => 20 case 22 => 20 case 23 => 20
    case 24 => 21 case 25 => 21 case 26 => 21 case 27 => 21 case 28 => 16 case 29 => 77 case 30 => 202
    case _ => 0
  }

  /** Base values of the distance symbols: the source's table `dbase`. */
  function DBase(c: nat): nat {
    match c
    case 0 => 1 case 1 => 2 case 2 => 3 case 3 => 4 case 4 => 5 case 5 => 7 case 6 => 9 case 7 => 13
    case 8 => 17 case 9 => 25 case 10 => 33 case 11 => 49 case 12 => 65 case 13 => 97 case 14 => 129 case 15 => 193
    case 16 => 257 case 17 => 385 case 18 => 513 case 19 => 769 case 20 => 1025 case 21 => 1537
    case 22 => 2049 case 23 => 3073 case 24 => 4097 case 25 => 6145 case 26 => 8193 case 27 => 12289
    case 28 => 16385 case 29 => 24577 case 30 => 0 case 31 => 0
    case _ => 0
  }

  /** Their entry operations: the source's table `dext`. */
  function DExt(c: nat): nat {
    match c
    case 0 => 16 case 1 => 16 case 2 => 16 case 3 => 16 case 4 => 17 case 5 => 17 case 6 => 18 case 7 => 18
    case 8 => 19 case 9 => 19 case 10 => 20 case 11 => 20 case 12 => 21 case 13 => 21 case 14 => 22 case 15 => 22
    case 16 => 23 case 17 => 23 case 18 => 24 case 19 => 24 case 20 => 25 case 21 => 25 case 22 => 26 case 23 => 26
    case 24 => 27 case 25 => 27 case 26 => 28 case 27 => 28 case 28 => 29 case 29 => 29 case 30 => 64 case 31 => 64
    case _ => 0
  }

  function Symbols(ty: CodeType): nat {
    match ty
    case CODES => 19
    case LENS => 288
    case DISTS => 32
  }

  /** The entry that decodes symbol `s`, dropping `bits` bits. */
  function Entry(ty: CodeType, s: nat, bits: nat): Code
    requires s < Symbols(ty)
  {
    match ty
    case CODES => Code(0, bits, s)
    case LENS =>
      if s < 256 then Code(0, bits, s)
      else if s == 256 then Code(96, bits, 0)
      else Code(LExt(s - 257), bits, LBase(s - 257))
    case DISTS => Code(DExt(s), bits, DBase(s))
  }

  const INVALID := Code(64, 1, 0)

  // ------------------------------------------------------- acceptance, size

  function MaxLen(lens: seq<nat>, b: nat): (m: nat)
    ensures m <= b
    ensures m > 0 ==> Count(lens, m) > 0
    ensures forall l :: m < l <= b ==> Count(lens, l) == 0
  {
    if b == 0 then 0 else if Count(lens, b) != 0 then b else MaxLen(lens, b - 1)
  }

  function MinLen(lens: seq<nat>, max: nat, b: nat): (m: nat)
    requires b <= max
    ensures b <= m <= max
    ensures m < max ==> Count(lens, m) > 0
    ensures forall l :: b <= l < m ==> Count(lens, l) == 0
    decreases max - b
  {
    if b == max || Count(lens, b) != 0 then b else MinLen(lens, max, b + 1)
  }

  function Longest(lens: seq<nat>): nat {
    MaxLen(lens, MAX_BITS)
  }

  /** The number of root index bits used when `bits` are requested. */
  function RootBits(lens: seq<nat>, bits: nat): nat {
    var max := Longest(lens);
    if max == 0 then 1
    else
      var root := if bits > max then max else bits;
      var min := MinLen(lens, max, 1);
      if root < min then min else root
  }

  ghost predicate Empty(lens: seq<nat>) {
    forall s :: 0 <= s < |lens| ==> lens[s] == 0
  }

  ghost predicate LoneAt(lens: seq<nat>, s: nat) {
    s < |lens| && lens[s] == 1 && forall r :: 0 <= r < |lens| && r != s ==> lens[r] == 0
  }

  ghost predicate Lone(lens: seq<nat>) {
    exists s: nat :: LoneAt(lens, s)
  }

  /** The sets of lengths that are taken: complete, empty, or a lone one-bit code. */
  ghost predicate Accepted(ty: CodeType, lens: seq<nat>) {
    Complete(lens) || Empty(lens) || (ty != CODES && Lone(lens))
  }

  /** The longest code below root entry `q`, as found by looking ahead from length `l`. */
  function SubLen(lens: seq<nat>, root: nat, max: nat, q: nat, l: nat): (r: nat)
    requires root <= l <= max
    ensures l <= r <= max
    ensures r == max || EndCode(lens, r) >= Shl(q + 1, r - root)
    decreases max - l
  {
    if l == max || EndCode(lens, l) >= Shl(q + 1, l - root) then l
    else SubLen(lens, root, max, q, l + 1)
  }

  /** The room taken by the sub-tables of root entries `q` and above. */
  function SubSpace(lens: seq<nat>, root: nat, max: nat, q: nat): nat
    requires root < max
    decreases Pow2(root) - q
  {
    if q >= Pow2(root) then 0
    else Pow2(SubLen(lens, root, max, q, root + 1) - root) + SubSpace(lens, root, max, q + 1)
  }

  function Space(lens: seq<nat>, root: nat): nat {
    Pow2(root) + if root < Longest(lens) then SubSpace(lens, root, Longest(lens), EndCode(lens, root)) else 0
  }

  ghost predicate Fits(ty: CodeType, lens: seq<nat>, bits: nat) {
    Longest(lens) == 0
    || match ty
       case CODES => true
       case LENS => Space(lens, RootBits(lens, bits)) <= ENOUGH_LENS
       case DISTS => Space(lens, RootBits(lens, bits)) <= ENOUGH_DISTS
  }

  // ------------------------------------------------------- table contents

  /** The entries from `at` on whose `n`-bit index ends in the `l` bits `h` all are `e`. */
  ghost predicate Filled(t: seq<Code>, at: nat, n: nat, l: nat, h: nat, e: Code)
    requires at + Pow2(n) <= |t|
  {
    forall i :: 0 <= i < Pow2(n) && Low(i, l) == h ==> t[at + i] == e
  }

  /** Root entry and, for a code longer than the root, sub-table entries of symbol `s`. */
  ghost predicate Placed(ty: CodeType, lens: seq<nat>, t: seq<Code>, root: nat, s: nat)
    requires s < |lens| <= Symbols(ty) && |t| >= Pow2(root)
  {
    if lens[s] <= root then
      Filled(t, 0, root, lens[s], Huff(lens, s), Entry(ty, s, lens[s]))
    else
      var link := t[Low(Huff(lens, s), root)];
      && 1 <= link.op <= MAX_BITS && link.bits == root && lens[s] - root <= link.op
      && link.val + Pow2(link.op) <= |t|
      && Filled(t, link.val, link.op, lens[s] - root, Shr(Huff(lens, s), root), Entry(ty, s, lens[s] - root))
  }

  /** `t` with `root` index bits decodes the canonical code of `lens`. */
  ghost predicate TableFor(ty: CodeType, lens: seq<nat>, t: seq<Code>, root: nat) {
    && |lens| <= Symbols(ty) && ValidLens(lens) && Accepted(ty, lens)
    && 1 <= root <= MAX_BITS && Pow2(root) <= |t|
    && (forall s :: 0 <= s < |lens| && lens[s] > 0 ==> Placed(ty, lens, t, root, s))
    && (Empty(lens) ==> root == 1 && t[0] == INVALID && t[1] == INVALID)
    && (Lone(lens) ==> root == 1 && t[1] == INVALID)
  }

  // --------------------------------------------------------------- lookup

  datatype Found = NeedMore | Got(entry: Code, drop: nat)

  /** Looking up `hold`, of which `bits` bits are known; the bits above are zero. */
  function Lookup(t: seq<Code>, root: nat, hold: nat, bits: nat): Found
    requires Pow2(root) <= |t|
  {
    var here := t[Low(hold, root)];
    if here.bits > bits then NeedMore
    else if here.op == 0 || here.op >= 16 then Got(here, here.bits)
    else
      var at := here.val + Shr(Low(hold, here.bits + here.op), here.bits);
      if at >= |t| || here.bits + t[at].bits > bits then NeedMore
      else Got(t[at], here.bits + t[at].bits)
  }

  datatype Decoded = Starved | Invalid | Symbol(sym: nat)

  /** Decoding one symbol by comparing the known bits with the codes. */
  ghost function Decode(lens: seq<nat>, hold: nat, bits: nat): Decoded {
    if exists s: nat :: Matches(lens, s, hold) && lens[s] <= bits then
      var s: nat :| Matches(lens, s, hold) && lens[s] <= bits;
      Symbol(s)
    else if bits == 0 || Complete(lens) then Starved
    else Invalid
  }

  lemma SymbolLength(lens: seq<nat>, hold: nat, bits: nat)
    requires Decode(lens, hold, bits).Symbol?
    ensures var s := Decode(lens, hold, bits).sym; s < |lens| && lens[s] > 0
  {
  }

  /** The bits that the entry of `s` drops: its code, or what is left of it below the root. */
  function EntryBits(len: nat, root: nat): nat {
    if len <= root then len else len - root
  }

  lemma EntryIsNoLink(ty: CodeType, s: nat, bits: nat)
    requires s < Symbols(ty)
    ensures Entry(ty, s, bits).op == 0 || Entry(ty, s, bits).op >= 16
  {
  }

  lemma {:induction false} LookupShort(t: seq<Code>, root: nat, hold: nat, bits: nat, len: nat, h: nat, e: Code)
    requires len <= root && Pow2(root) <= |t| && Low(hold, len) == h && Filled(t, 0, root, len, h, e)
    requires e.bits == len && (e.op == 0 || e.op >= 16)
    ensures Lookup(t, root, hold, bits) == if len <= bits then Got(e, len) else NeedMore
  {
    SplitBits(hold, len, root - len);
    assert t[0 + Low(hold, root)] == e;
  }

  lemma LookupLong(t: seq<Code>, root: nat, hold: nat, bits: nat, len: nat, link: Code, h: nat, e: Code)
    requires root < len && Pow2(root) <= |t| && t[Low(hold, root)] == link
    requires 1 <= link.op <= MAX_BITS && link.bits == root && len - root <= link.op && link.val + Pow2(link.op) <= |t|
    requires Low(Shr(hold, root), len - root) == h && Filled(t, link.val, link.op, len - root, h, e)
    requires e.bits == len - root
    ensures Lookup(t, root, hold, bits) == if len <= bits then Got(e, len) else NeedMore
  {
    hide Low, Shr, Pow2;
    var i := Low(Shr(hold, root), link.op);
    assert Shr(Low(hold, root + link.op), root) == i by { SplitBits(hold, root, link.op); }
    assert Low(i, len - root) == h by { SplitBits(Shr(hold, root), len - root, link.op - (len - root)); }
    assert t[link.val + i] == e;
  }

  lemma {:induction false} LookupSymbol(ty: CodeType, lens: seq<nat>, t: seq<Code>, root: nat, hold: nat, bits: nat,
                                        s: nat)
    requires Matches(lens, s, hold) && |lens| <= Symbols(ty) && Pow2(root) <= |t|
    requires Placed(ty, lens, t, root, s)
    ensures Lookup(t, root, hold, bits) ==
            if lens[s] <= bits then Got(Entry(ty, s, EntryBits(lens[s], root)), lens[s]) else NeedMore
  {
    var len, h := lens[s], Huff(lens, s);
    var e := Entry(ty, s, EntryBits(len, root));
    EntryIsNoLink(ty, s, EntryBits(len, root));
    if len <= root {
      LookupShort(t, root, hold, bits, len, h, e);
    } else {
      SplitBits(hold, root, len - root);
      LookupLong(t, root, hold, bits, len, t[Low(h, root)], Shr(h, root), e);
    }
  }

  lemma LookupTooShort(ty: CodeType, lens: seq<nat>, t: seq<Code>, root: nat, hold: nat, bits: nat, s: nat)
    requires TableFor(ty, lens, t, root) && Matches(lens, s, hold) && lens[s] > bits
    ensures Lookup(t, root, hold, bits) == NeedMore
  {
    LookupSymbol(ty, lens, t, root, hold, bits, s);
  }

  /** `found` is the table's way of saying `decoded`. */
  ghost predicate Answers(ty: CodeType, lens: seq<nat>, root: nat, decoded: Decoded, found: Found) {
    match decoded
    case Starved => found == NeedMore
    case Invalid => found == Got(INVALID, 1)
    case Symbol(s) =>
      s < |lens| && s < Symbols(ty) && found == Got(Entry(ty, s, EntryBits(lens[s], root)), lens[s])
  }

  /**
   Looking up any known bits in a table gives exactly what comparing them with
   the canonical code gives, also while too few bits are known to decide.
   */
  lemma LookupDecodes(ty: CodeType, lens: seq<nat>, t: seq<Code>, root: nat, hold: nat, bits: nat)
    requires TableFor(ty, lens, t, root)
    ensures Answers(ty, lens, root, Decode(lens, hold, bits), Lookup(t, root, hold, bits))
  {
    if s: nat :| Decode(lens, hold, bits) == Symbol(s) {
      assert Matches(lens, s, hold) && lens[s] <= bits;
      LookupSymbol(ty, lens, t, root, hold, bits, s);
    } else if Complete(lens) {
      LookupStarved(ty, lens, t, root, hold, bits);
    } else {
      LookupIncomplete(ty, lens, t, root, hold, bits);
    }
  }

  lemma LookupStarved(ty: CodeType, lens: seq<nat>, t: seq<Code>, root: nat, hold: nat, bits: nat)
    requires TableFor(ty, lens, t, root) && Complete(lens)
    requires forall s: nat :: Matches(lens, s, hold) ==> lens[s] > bits
    ensures Lookup(t, root, hold, bits) == NeedMore
  {
    var s := MatchExists(lens, hold);
    LookupTooShort(ty, lens, t, root, hold, bits, s);
  }

  lemma LookupIncomplete(ty: CodeType, lens: seq<nat>, t: seq<Code>, root: nat, hold: nat, bits: nat)
    requires TableFor(ty, lens, t, root) && !Complete(lens)
    requires forall s: nat :: Matches(lens, s, hold) ==> lens[s] > bits
    ensures Lookup(t, root, hold, bits) == if bits == 0 then NeedMore else Got(INVALID, 1)
  {
    assert Low(hold, 1) == hold % 2;
    if Lone(lens) && hold % 2 == 0 {
      var s: nat :| LoneAt(lens, s);
      LoneMatches(lens, s, hold);
      LookupTooShort(ty, lens, t, root, hold, bits, s);
    }
  }

  lemma LoneMatches(lens: seq<nat>, s: nat, hold: nat)
    requires LoneAt(lens, s) && hold % 2 == 0
    ensures Matches(lens, s, hold)
  {
    CountAbsent(lens[..s], 1);
    assert FirstCode(lens, 1) == 0;
    assert Huff(lens, s) == 0 && Low(hold, 1) == 0;
  }
}
