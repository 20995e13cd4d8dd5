/** Error detection by calculate_crc32: no burst of up to 32 bits goes unnoticed, whatever surrounds it. */
module CrcBursts {
  import opened Crc
  import opened ShiftRegister

  // The laws of the 32-bit register, one bit-level fact each.

  lemma XorAssociates(a: bv32, b: bv32, c: bv32)
    ensures Xor(Xor(a, b), c) == Xor(a, Xor(b, c))
  {
  }

  lemma XorCommutes(a: bv32, b: bv32)
    ensures Xor(a, b) == Xor(b, a)
  {
  }

  lemma XorUnit(a: bv32)
    ensures Xor(a, 0) == a && Xor(a, a) == 0
  {
  }

  lemma ShlOfXor(x: bv32, y: bv32)
    ensures Shl(Xor(x, y)) == Xor(Shl(x), Shl(y))
  {
  }

  lemma TopOfXor(x: bv32, y: bv32)
    ensures Top(Xor(x, y)) == (Top(x) != Top(y))
  {
  }

  lemma OnlyZeroStepsToZero(x: bv32)
    requires Step(x, 0x04c1_1db7) == 0
    ensures x == 0
  {
  }

  /** Bit 31 - k alone. */
  function Mark(k: nat): bv32 {
    if k == 0 then 0x8000_0000 else Shr(Mark(k - 1))
  }

  predicate LowestIs(x: bv32, m: bv32) {
    x & m != 0 && x & (m - 1) == 0
  }

  predicate Lowest(k: nat, x: bv32) {
    k <= 31 && LowestIs(x, Mark(k))
  }

  lemma LowestStepsBack(x: bv32, m: bv32)
    requires m & 1 == 0 && m != 0 && LowestIs(Step(x, 0x04c1_1db7), m)
    ensures LowestIs(x, Shr(m)) && Shr(m) & 0x8000_0000 == 0 && (Shr(m) - 1) & 0x8000_0000 == 0
  {
  }

  lemma TopBitIsAbove(x: bv32, e: bv32, m: bv32)
    requires (e == 0 || e == 0x8000_0000) && m & 0x8000_0000 == 0 && (m - 1) & 0x8000_0000 == 0
    requires LowestIs(Xor(x, e), m)
    ensures LowestIs(x, m)
  {
  }

  lemma {:induction false} MarkVanishes(k: nat, n: nat)
    requires k <= n && Mark(k) == 0
    ensures Mark(n) == 0
    decreases n - k
  {
    if k < n {
      MarkVanishes(k + 1, n);
    }
  }

  lemma MarkShifts(m: bv32)
    requires m & (m - 1) == 0 && m != 0
    ensures Shr(m) != 0 ==> Shr(m) & (Shr(m) - 1) == 0 && m & 1 == 0
  {
  }

  lemma MarkAfter4(k: nat)
    ensures Mark(k + 4) == Shr(Shr(Shr(Shr(Mark(k)))))
  {
    assert Mark(k + 2) == Shr(Shr(Mark(k)));
  }

  lemma LastMark()
    ensures Mark(31) == 1
  {
    MarkAfter4(0);
    MarkAfter4(4);
    MarkAfter4(8);
    MarkAfter4(12);
    MarkAfter4(16);
    MarkAfter4(20);
    MarkAfter4(24);
    assert Mark(28) == 8;
    assert Mark(29) == 4;
    assert Mark(30) == 2;
  }

  lemma {:induction false} MarkIsOneBit(k: nat)
    requires k <= 31
    ensures Mark(k) != 0 && Mark(k) & (Mark(k) - 1) == 0
    ensures k < 31 ==> Mark(k) & 1 == 0
  {
    LastMark();
    if Mark(k) == 0 { MarkVanishes(k, 31); }
    if k > 0 {
      MarkIsOneBit(k - 1);
      MarkShifts(Mark(k - 1));
    }
    if k < 31 {
      MarkShifts(Mark(k));
      if Mark(k + 1) == 0 { MarkVanishes(k + 1, 31); }
    }
  }

  function Register32(): Ops<bv32> {
    Ops(Xor, 0, Shl, Top, 0x8000_0000, 0x04c1_1db7, Lowest)
  }

  lemma SameStep(x: bv32)
    ensures Register32().Step(x) == Step(x, 0x04c1_1db7)
  {
  }

  lemma RegisterIsGroup()
    ensures Group(Register32())
  {
    var o := Register32();
    forall a, b, c ensures o.xor(o.xor(a, b), c) == o.xor(a, o.xor(b, c)) { XorAssociates(a, b, c); }
    forall a, b ensures o.xor(a, b) == o.xor(b, a) { XorCommutes(a, b); }
    forall a ensures o.xor(a, o.zero) == a && o.xor(a, a) == o.zero { XorUnit(a); }
  }

  lemma TopIsTop(a: bv32)
    ensures Register32().top(a) == Top(a)
  {
  }

  lemma TopOfSum(a: bv32, b: bv32)
    ensures Register32().top(Register32().xor(a, b)) == (Register32().top(a) != Register32().top(b))
  {
    TopOfXor(a, b);
    TopIsTop(a);
    TopIsTop(b);
    TopIsTop(Xor(a, b));
    XorIsXor(a, b);
  }

  lemma XorIsXor(a: bv32, b: bv32)
    ensures Register32().xor(a, b) == Xor(a, b)
  {
  }

  lemma RegisterShifts()
    ensures Shifts(Register32())
  {
    var o := Register32();
    forall a, b ensures o.shl(o.xor(a, b)) == o.xor(o.shl(a), o.shl(b)) { ShlOfXor(a, b); }
    forall a, b ensures Register32().top(Register32().xor(a, b)) == (Register32().top(a) != Register32().top(b)) {
      TopOfSum(a, b);
    }
    HighAndZero();
  }

  lemma HighAndZero()
    ensures Top(0x8000_0000) && !Top(0) && Shl(0x8000_0000) == 0 && Shl(0) == 0
  {
  }

  lemma LowestGoesBack(k: nat, x: bv32, bit: bool)
    requires k < 31 && Lowest(k, Register32().Feed(x, bit))
    ensures Lowest(k + 1, x)
  {
    var e := Register32().Entry(bit);
    SameStep(Xor(x, e));
    MarkIsOneBit(k);
    LowestStepsBack(Xor(x, e), Mark(k));
    TopBitIsAbove(x, e, Mark(k + 1));
  }

  lemma RegisterRunsBackwards()
    ensures Backwards(Register32())
  {
    var o := Register32();
    forall x | o.Step(x) == o.zero ensures x == o.zero { SameStep(x); OnlyZeroStepsToZero(x); }
    forall k: nat ensures !o.lowest(k, o.zero) { ZeroHasNoLowest(Mark(k)); }
    HighIsLowest();
    forall k: nat, x, bit | k < 31 && o.lowest(k, o.Feed(x, bit))
      ensures o.lowest(k + 1, x) { LowestGoesBack(k, x, bit); }
  }

  lemma ZeroHasNoLowest(m: bv32)
    ensures !LowestIs(0, m)
  {
  }

  lemma HighIsLowest()
    ensures Lowest(0, 0x8000_0000)
  {
    assert Mark(0) == 0x8000_0000;
  }

  // calculate_crc32 as a run of that register.

  lemma {:induction false} SameSteps(c: bv32, n: nat)
    ensures Register32().Steps(c, n) == Steps(c, 0x04c1_1db7, n)
    decreases n
  {
    if n > 0 {
      SameSteps(c, n - 1);
      SameStep(Steps(c, 0x04c1_1db7, n - 1));
    }
  }

  /** A byte is gone from a word that held nothing else after eight shifts. */
  lemma ByteShiftsOut(w: bv32)
    ensures Register32().Shifted(HighByte(w), 8) == 0
  {
    var o := Register32();
    var y := HighByte(w);
    assert o.Shifted(y, 2) == Shl(Shl(y));
    assert o.Shifted(y, 4) == Shl(Shl(o.Shifted(y, 2)));
    assert o.Shifted(y, 6) == Shl(Shl(o.Shifted(y, 4)));
    assert o.Shifted(y, 8) == Shl(Shl(o.Shifted(y, 6)));
    EightShifts(w);
  }

  lemma EightShifts(w: bv32)
    ensures Shl(Shl(Shl(Shl(Shl(Shl(Shl(Shl(HighByte(w))))))))) == 0
  {
  }

  function ByteBits(b: byte): (bits: seq<bool>)
    ensures |bits| == 8
  {
    Register32().TopBits(Entering(b, true), 8)
  }

  /** A buffer as the bits in the order they reach the register. */
  function Bits(buffer: seq<byte>): seq<bool> {
    Spell(ByteBits, buffer)
  }

  lemma ByteIsEightFeeds(c: bv32, b: byte)
    ensures TakeByte(c, 0x04c1_1db7, true, b) == Register32().FeedAll(c, ByteBits(b))
  {
    var y := Entering(b, true);
    RegisterIsGroup();
    RegisterShifts();
    StepsAreFeeds(Register32(), c, y, 8);
    SameSteps(Xor(c, y), 8);
    ByteShiftsOut(if true then Reflect8(Word(b)) else 0);
  }

  lemma {:induction false} BufferIsFeeds(c: bv32, buffer: seq<byte>)
    ensures Register(c, 0x04c1_1db7, true, buffer) == Register32().FeedAll(c, Bits(buffer))
    decreases |buffer|
  {
    if buffer != [] {
      var n := |buffer| - 1;
      BufferIsFeeds(c, buffer[..n]);
      ByteIsEightFeeds(Register(c, 0x04c1_1db7, true, buffer[..n]), buffer[n]);
      FeedAllConcat(Register32(), c, Bits(buffer[..n]), ByteBits(buffer[n]));
    }
  }

  lemma FinishIsInjective(r: bv32, s: bv32)
    requires r != s
    ensures Xor(Reflect32(r), 0xffff_ffff) != Xor(Reflect32(s), 0xffff_ffff)
  {
    ReflectTwice(r);
    ReflectTwice(s);
    FinalXor(Reflect32(r));
    FinalXor(Reflect32(s));
  }

  lemma FinalXor(a: bv32)
    ensures Xor(Xor(a, 0xffff_ffff), 0xffff_ffff) == a
  {
  }

  /**
   * Two buffers whose bits, in transmission order, differ only inside one window of up to 32 bits have different CRCs.
   */
  lemma BurstChangesCrc(a: seq<byte>, b: seq<byte>, prefix: seq<bool>, x: seq<bool>, y: seq<bool>, suffix: seq<bool>)
    requires Bits(a) == prefix + x + suffix && Bits(b) == prefix + y + suffix
    requires |x| == |y| <= 32 && x != y
    ensures Crc32(a) != Crc32(b)
  {
    RegisterIsGroup();
    RegisterShifts();
    RegisterRunsBackwards();
    BurstIsSeen(Register32(), 0xffff_ffff, prefix, x, y, suffix);
    BufferIsFeeds(0xffff_ffff, a);
    BufferIsFeeds(0xffff_ffff, b);
    FinishIsInjective(Register(0xffff_ffff, 0x04c1_1db7, true, a), Register(0xffff_ffff, 0x04c1_1db7, true, b));
  }

  // Two bytes that agree in each of the eight bits that enter are equal.

  lemma SameTopByte(y: bv32, z: bv32)
    requires Top(y) == Top(z)
    requires Top(y << 1) == Top(z << 1) && Top(y << 2) == Top(z << 2) && Top(y << 3) == Top(z << 3)
    requires Top(y << 4) == Top(z << 4) && Top(y << 5) == Top(z << 5) && Top(y << 6) == Top(z << 6)
             && Top(y << 7) == Top(z << 7)
    ensures y & 0xff00_0000 == z & 0xff00_0000
  {
  }

  lemma ShiftedIs(y: bv32)
    ensures var o := Register32();
            && o.Shifted(y, 0) == y && o.Shifted(y, 1) == y << 1 && o.Shifted(y, 2) == y << 2
              && o.Shifted(y, 3) == y << 3
            && o.Shifted(y, 4) == y << 4 && o.Shifted(y, 5) == y << 5 && o.Shifted(y, 6) == y << 6
              && o.Shifted(y, 7) == y << 7
  {
  }

  lemma EnteringIsTopByte(b: byte)
    ensures Entering(b, true) & 0xff00_0000 == Entering(b, true)
  {
  }

  lemma EnteringDetermines(b: byte, c: byte)
    requires Entering(b, true) == Entering(c, true)
    ensures b == c
  {
    ReflectEntering(0, b);
    ReflectEntering(0, c);
    XorWithZero(Word(b));
    XorWithZero(Word(c));
  }

  lemma XorWithZero(w: bv32)
    ensures Xor(0, w) == w && Reflect32(0) == 0
  {
  }

  lemma {:induction false} TopBitsAt(y: bv32, n: nat, k: nat)
    requires k < n
    ensures Register32().TopBits(y, n)[k] == Top(Register32().Shifted(y, k))
    decreases n
  {
    if k < n - 1 {
      TopBitsAt(y, n - 1, k);
    }
  }

  lemma ByteBitsDetermine(b: byte, c: byte)
    requires ByteBits(b) == ByteBits(c)
    ensures b == c
  {
    var y, z := Entering(b, true), Entering(c, true);
    forall k: nat | k < 8
      ensures Top(Register32().Shifted(y, k)) == Top(Register32().Shifted(z, k))
    {
      TopBitsAt(y, 8, k);
      TopBitsAt(z, 8, k);
    }
    ShiftedIs(y);
    ShiftedIs(z);
    SameTopByte(y, z);
    EnteringIsTopByte(b);
    EnteringIsTopByte(c);
    EnteringDetermines(b, c);
  }

  lemma BitsDetermine(x: seq<byte>, y: seq<byte>)
    requires |x| == |y|
    ensures |Bits(x)| == |Bits(y)| == 8 * |x|
    ensures x != y ==> Bits(x) != Bits(y)
  {
    forall a, b | ByteBits(a) == ByteBits(b) ensures a == b { ByteBitsDetermine(a, b); }
    SpellDetermines(ByteBits, 8, x, y);
  }

  /** Buffers of equal length that differ only inside four consecutive bytes have different CRCs. */
  lemma FourBytesChangeCrc(prefix: seq<byte>, x: seq<byte>, y: seq<byte>, suffix: seq<byte>)
    requires |x| == |y| <= 4 && x != y
    ensures Crc32(prefix + x + suffix) != Crc32(prefix + y + suffix)
  {
    SpellConcat(ByteBits, prefix, x);
    SpellConcat(ByteBits, prefix + x, suffix);
    SpellConcat(ByteBits, prefix, y);
    SpellConcat(ByteBits, prefix + y, suffix);
    BitsDetermine(x, y);
    BurstChangesCrc(prefix + x + suffix, prefix + y + suffix, Bits(prefix), Bits(x), Bits(y), Bits(suffix));
  }
}
