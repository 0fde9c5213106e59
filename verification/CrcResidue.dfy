/**
 What the complements before and after are for (sections 8 and 2.3.1 of RFC 1952): a text that
 is followed by its own check leaves the same register, whatever the text.
 */
module CrcResidue {
  import opened Crc32
  import opened CrcTables
  import opened CrcCombine

  /** The check as it is stored behind a text, lowest byte first. */
  function Stored(c: bv32): seq<bv8> {
    [Byte0(c), Byte1(c), Byte2(c), Byte3(c)]
  }

  lemma StoredWord(c: bv32)
    ensures LittleWord(Byte0(c), Byte1(c), Byte2(c), Byte3(c)) == c
  {
  }

  lemma {:induction false} FourBytes(c: bv32, s: seq<bv8>)
    requires |s| == 4
    ensures Register(c, s) == Update(Update(Update(Update(c, s[0]), s[1]), s[2]), s[3])
  {
    hide Update;
    assert s[..3][..2] == s[..2] && s[..2][..1] == s[..1] && s[..1][..0] == [];
    assert Register(c, s[..1]) == Update(Register(c, []), s[0]);
    assert Register(c, s[..2]) == Update(Register(c, s[..1]), s[1]);
    assert Register(c, s[..3]) == Update(Register(c, s[..2]), s[2]);
  }

  lemma WithComplement(c: bv32)
    ensures Xor(c, Flip(c)) == 0xffffffff
  {
  }

  // thirty-two zero bits shifted into a register full of ones

  lemma Ones0()
    ensures Zeros(0xffffffff, 32) == Zeros(0xb2420de3, 28)
  {
    FourSteps(0xffffffff, 0x92477cdf, 0xa49b3d4f, 0xbff51d87, 0xb2420de3, 28);
  }

  lemma Ones1()
    ensures Zeros(0xb2420de3, 28) == Zeros(0x2dfd1072, 24)
  {
    FourSteps(0xb2420de3, 0xb49985d1, 0xb7f441c8, 0x5bfa20e4, 0x2dfd1072, 24);
  }

  lemma Ones2()
    ensures Zeros(0x2dfd1072, 24) == Zeros(0x39b1f1cf, 20)
  {
    FourSteps(0x2dfd1072, 0x16fe8839, 0xe6c7c73c, 0x7363e39e, 0x39b1f1cf, 20);
  }

  lemma Ones3()
    ensures Zeros(0x39b1f1cf, 20) == Zeros(0xbe26ed00, 16)
  {
    FourSteps(0x39b1f1cf, 0xf1607bc7, 0x9508bec3, 0xa73cdc41, 0xbe26ed00, 16);
  }

  lemma Ones4()
    ensures Zeros(0xbe26ed00, 16) == Zeros(0x0be26ed0, 12)
  {
    FourSteps(0xbe26ed00, 0x5f137680, 0x2f89bb40, 0x17c4dda0, 0x0be26ed0, 12);
  }

  lemma Ones5()
    ensures Zeros(0x0be26ed0, 12) == Zeros(0x00be26ed, 8)
  {
    FourSteps(0x0be26ed0, 0x05f13768, 0x02f89bb4, 0x017c4dda, 0x00be26ed, 8);
  }

  lemma Ones6()
    ensures Zeros(0x00be26ed, 8) == Zeros(0x86d830ba, 4)
  {
    FourSteps(0x00be26ed, 0xede79056, 0x76f3c82b, 0xd6c16735, 0x86d830ba, 4);
  }

  lemma Ones7()
    ensures Zeros(0x86d830ba, 4) == Zeros(0xdebb20e3, 0)
  {
    FourSteps(0x86d830ba, 0x436c185d, 0xcc0e8f0e, 0x66074787, 0xdebb20e3, 0);
  }

  lemma Ones()
    ensures Zeros(0xffffffff, 32) == 0xdebb20e3
  {
    hide Zeros, ZeroBit;
    Ones0();
    Ones1();
    Ones2();
    Ones3();
    Ones4();
    Ones5();
    Ones6();
    Ones7();
    NoZeros(0xdebb20e3);
  }

  lemma NoZeros(c: bv32)
    ensures Zeros(c, 0) == c
  {
  }

  /**
   The residue: a register that starts with ones and takes in a text and its check ends with
   this constant, so that the check of both together is its complement.
   */
  lemma CrcResidue(s: seq<bv8>)
    ensures Register(0xffffffff, s + Stored(Crc(0, s))) == 0xdebb20e3
    ensures Crc(0, s + Stored(Crc(0, s))) == 0x2144df1c
  {
    hide Register, Update, Zeros, Xor, Flip, LittleWord, Byte0, Byte1, Byte2, Byte3;
    var r := Register(0xffffffff, s);
    var check := Crc(0, s);
    FlipConstants();
    RegisterConcat(0xffffffff, s, Stored(check));
    FourBytes(r, Stored(check));
    FourUpdates(r, Byte0(check), Byte1(check), Byte2(check), Byte3(check));
    StoredWord(check);
    WithComplement(r);
    Ones();
  }

  lemma FlipConstants()
    ensures Flip(0) == 0xffffffff && Flip(0xdebb20e3) == 0x2144df1c
  {
  }
}
