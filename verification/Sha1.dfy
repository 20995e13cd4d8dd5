/** SHA-1 as section 4, 5 and 6.1 of RFC 3174 define it, over messages of any length. */
module Sha1 {
  type byte = bv8

  // The operators, named so that proofs above the bit level never look at bits.

  function Sum(a: bv32, b: bv32, c: bv32, d: bv32, e: bv32): bv32 { a + b + c + d + e }

  function Add(x: bv32, y: bv32): bv32 { x + y }

  function Xor(x: bv32, y: bv32): bv32 { x ^ y }

  function Rol1(x: bv32): bv32 { (x << 1) | (x >> 31) }

  function Rol5(x: bv32): bv32 { (x << 5) | (x >> 27) }

  function Rol30(x: bv32): bv32 { (x << 30) | (x >> 2) }

  function Ch(b: bv32, c: bv32, d: bv32): bv32 { (b & c) | (!b & d) }

  function Parity(b: bv32, c: bv32, d: bv32): bv32 { b ^ c ^ d }

  function Maj(b: bv32, c: bv32, d: bv32): bv32 { (b & c) | (b & d) | (c & d) }

  function F(t: nat, b: bv32, c: bv32, d: bv32): bv32 {
    if t < 20 then Ch(b, c, d) else if t < 40 then Parity(b, c, d) else if t < 60 then Maj(b, c, d) else Parity(b, c, d)
  }

  function K(t: nat): bv32 {
    if t < 20 then 0x5A82_7999 else if t < 40 then 0x6ED9_EBA1 else if t < 60 then 0x8F1B_BCDC else 0xCA62_C1D6
  }

  // What these are, without their expressions.

  /** The constants are the square roots of 2, 3, 5 and 10, scaled by 2^30, twenty rounds each. */
  lemma ConstantsAreRoots(t: nat)
    ensures var k := K(t) as int; var n := if t < 20 then 2 else if t < 40 then 3 else if t < 60 then 5 else 10;
            k * k <= n * 0x1000_0000_0000_0000 < (k + 1) * (k + 1)
  {
    ConstantsAsInt(t);
  }

  lemma ConstantsAsInt(t: nat)
    ensures K(t) as int == if t < 20 then 1518500249 else if t < 40 then 1859775393 else if t < 60 then 2400959708
                           else 3395469782
  {
  }

  /** A rotation by one doubles modulo 2^32 and adds the bit that is carried out. */
  lemma RotationDoubles(x: bv32)
    ensures Rol1(x) == x + x + (x >> 31)
  {
  }

  /** The other rotations repeat it, 5 and 30 times; two more than 30 go all the way round. */
  lemma RotationsRepeat(x: bv32)
    ensures Rol5(x) == Rol1(Rol1(Rol1(Rol1(Rol1(x)))))
    ensures Rol1(Rol1(Rol30(x))) == x
  {
  }

  function BigEndian(b0: byte, b1: byte, b2: byte, b3: byte): bv32 {
    ((b0 as bv32) << 24) | ((b1 as bv32) << 16) | ((b2 as bv32) << 8) | (b3 as bv32)
  }

  /** Byte k of a word, the highest first. */
  function ByteOf(w: bv32, k: nat): byte {
    if k == 0 then ((w >> 24) & 0xff) as byte
    else if k == 1 then ((w >> 16) & 0xff) as byte
    else if k == 2 then ((w >> 8) & 0xff) as byte
    else (w & 0xff) as byte
  }

  /** The sixteen words of a block of 64 bytes. */
  function Words(block: seq<byte>): (w: seq<bv32>)
    requires |block| == 64
    ensures |w| == 16
  {
    seq(16, i requires 0 <= i < 16 => BigEndian(block[4 * i], block[4 * i + 1], block[4 * i + 2], block[4 * i + 3]))
  }

  lemma BytesOfWord(b0: byte, b1: byte, b2: byte, b3: byte)
    ensures var w := BigEndian(b0, b1, b2, b3);
            ByteOf(w, 0) == b0 && ByteOf(w, 1) == b1 && ByteOf(w, 2) == b2 && ByteOf(w, 3) == b3
  {
  }

  /** Byte k of word i is byte 4 * i + k of the block. */
  lemma WordsHoldBytes(block: seq<byte>, i: nat, k: nat)
    requires |block| == 64 && i < 16 && k < 4
    ensures ByteOf(Words(block)[i], k) == block[4 * i + k]
  {
    BytesOfWord(block[4 * i], block[4 * i + 1], block[4 * i + 2], block[4 * i + 3]);
  }

  function NextOf(s: seq<bv32>): bv32
    requires |s| >= 16
  {
    Rol1(Xor(Xor(Xor(s[|s| - 3], s[|s| - 8]), s[|s| - 14]), s[|s| - 16]))
  }

  /** The first n words of the schedule of section 6.1. */
  function Schedule(words: seq<bv32>, n: nat): (s: seq<bv32>)
    requires |words| == 16
    ensures |s| == n
    decreases n, words
  {
    if n <= 16 then words[..n] else var s := Schedule(words, n - 1); s + [NextOf(s)]
  }

  lemma {:induction false} ScheduleAt(words: seq<bv32>, n: nat, t: nat)
    requires |words| == 16 && t < n
    ensures Schedule(words, n)[t] == if t < 16 then words[t] else NextOf(Schedule(words, n)[..t])
    decreases n
  {
    if n > 16 && t < n - 1 {
      ScheduleAt(words, n - 1, t);
      assert Schedule(words, n)[..t] == Schedule(words, n - 1)[..t];
    } else if n > 16 {
      assert Schedule(words, n)[..t] == Schedule(words, n - 1);
    }
  }

  datatype Regs = Regs(a: bv32, b: bv32, c: bv32, d: bv32, e: bv32)

  /** Round t with schedule word w. */
  function Step(s: Regs, t: nat, w: bv32): Regs {
    Regs(Sum(Rol5(s.a), F(t, s.b, s.c, s.d), s.e, w, K(t)), s.a, Rol30(s.b), s.c, s.d)
  }

  function Rounds(s: Regs, schedule: seq<bv32>, n: nat): Regs
    requires n <= |schedule|
    decreases n, s
  {
    if n == 0 then s else Step(Rounds(s, schedule, n - 1), n - 1, schedule[n - 1])
  }

  function Plus(s: Regs, t: Regs): Regs {
    Regs(Add(s.a, t.a), Add(s.b, t.b), Add(s.c, t.c), Add(s.d, t.d), Add(s.e, t.e))
  }

  function Compress(s: Regs, block: seq<byte>): Regs {
    if |block| != 64 then s else Plus(s, Rounds(s, Schedule(Words(block), 80), 80))
  }

  function Start(): Regs {
    Regs(0x6745_2301, 0xEFCD_AB89, 0x98BA_DCFE, 0x1032_5476, 0xC3D2_E1F0)
  }

  /** The bytes count up by hexadecimal digits and down again, lowest byte first, and end F0 E1 D2 C3. */
  lemma StartPattern(k: nat)
    requires k < 4
    ensures var i := k as bv8; var s := Start();
            && ByteOf(s.a, 3 - k) == 0x01 + 0x22 * i && ByteOf(s.b, 3 - k) == 0x89 + 0x22 * i
            && ByteOf(s.c, 3 - k) == 0xFE - 0x22 * i && ByteOf(s.d, 3 - k) == 0x76 - 0x22 * i
            && ByteOf(s.e, 3 - k) == 0xF0 - 0x0F * i
  {
  }

  /** The registers after the first n blocks of a message, for any compression function. */
  function Blocks(f: (Regs, seq<byte>) -> Regs, m: seq<byte>, n: nat): Regs
    requires 64 * n <= |m|
    decreases n, m
  {
    if n == 0 then Start() else f(Blocks(f, m, n - 1), m[64 * (n - 1)..64 * n])
  }

  lemma {:induction false} BlocksOfPrefix(f: (Regs, seq<byte>) -> Regs, m: seq<byte>, more: seq<byte>, n: nat)
    requires 64 * n <= |m|
    ensures Blocks(f, m + more, n) == Blocks(f, m, n)
    decreases n
  {
    if n > 0 {
      BlocksOfPrefix(f, m, more, n - 1);
      assert (m + more)[64 * (n - 1)..64 * n] == m[64 * (n - 1)..64 * n];
    }
  }

  // Padding, section 4.

  function Zeros(n: nat): seq<byte> {
    seq(n, _ => 0)
  }

  /** How many zero bytes bring a message and its 0x80 to 56 bytes past a block. */
  function ZeroCount(len: nat): nat {
    if len % 64 <= 55 then 55 - len % 64 else 119 - len % 64
  }

  /** A number below 2^64 as eight bytes, the highest first. */
  function EightBytes(n: nat): seq<byte> {
    seq(8, i requires 0 <= i < 8 => Digit(n, 7 - i) as byte)
  }

  /** Digit k of a number to base 256, the lowest first. */
  function Digit(n: nat, k: nat): (d: nat)
    ensures d < 256
    decreases k, n
  {
    if k == 0 then n % 256 else Digit(n / 256, k - 1)
  }

  lemma FourDigits(n: nat)
    ensures n == Digit(n, 0) + 0x100 * Digit(n, 1) + 0x1_0000 * Digit(n, 2) + 0x100_0000 * Digit(n, 3)
                 + 0x1_0000_0000 * (n / 0x1_0000_0000)
    ensures forall k: nat :: Digit(n, k + 4) == Digit(n / 0x1_0000_0000, k)
  {
    var n1 := n / 256;
    var n2 := n1 / 256;
    var n3 := n2 / 256;
    assert n3 / 256 == n / 0x1_0000_0000;
    forall k: nat ensures Digit(n, k + 4) == Digit(n3 / 256, k) {
      assert Digit(n, k + 4) == Digit(n1, k + 3) == Digit(n2, k + 2) == Digit(n3, k + 1);
    }
    assert Digit(n, 3) == Digit(n1, 2) == Digit(n2, 1) == Digit(n3, 0);
    assert Digit(n, 2) == Digit(n1, 1) == Digit(n2, 0);
  }

  /** The bytes are the digits of the number to base 256, highest first. */
  lemma EightBytesAre(n: nat, i: nat)
    requires i < 8
    ensures EightBytes(n)[i] == Digit(n, 7 - i) as byte
  {
  }

  lemma EightDigitsDecode(n: nat)
    requires n < 0x1_0000_0000_0000_0000
    ensures n == 0x100_0000_0000_0000 * Digit(n, 7) + 0x1_0000_0000_0000 * Digit(n, 6)
                 + 0x100_0000_0000 * Digit(n, 5) + 0x1_0000_0000 * Digit(n, 4) + 0x100_0000 * Digit(n, 3)
                 + 0x1_0000 * Digit(n, 2) + 0x100 * Digit(n, 1) + Digit(n, 0)
  {
    var high := n / 0x1_0000_0000;
    FourDigits(n);
    FourDigits(high);
    assert high / 0x1_0000_0000 == 0;
    assert Digit(n, 0 + 4) == Digit(high, 0) && Digit(n, 1 + 4) == Digit(high, 1);
    assert Digit(n, 2 + 4) == Digit(high, 2) && Digit(n, 3 + 4) == Digit(high, 3);
  }

  /** The number of bits of a message of len bytes; section 4 asks for it to be below 2^64. */
  function LengthOf(len: nat): seq<byte> {
    EightBytes(8 * len % 0x1_0000_0000_0000_0000)
  }

  function Padded(m: seq<byte>): seq<byte> {
    m + [0x80] + Zeros(ZeroCount(|m|)) + LengthOf(|m|)
  }

  lemma PaddedSize(len: nat)
    ensures (len + 9 + ZeroCount(len)) % 64 == 0
  {
  }

  lemma PaddedIsBlocks(m: seq<byte>)
    ensures |Padded(m)| % 64 == 0 && |Padded(m)| >= 9
  {
    PaddedSize(|m|);
    var z := Zeros(ZeroCount(|m|));
    assert |m + [0x80] + z + LengthOf(|m|)| == |m| + 1 + |z| + 8;
  }

  /** The digest of registers: five words, big-endian. */
  function DigestOf(s: Regs): (d: seq<byte>)
    ensures |d| == 20
  {
    seq(20, i requires 0 <= i < 20 => ByteOf(if i < 4 then s.a else if i < 8 then s.b else if i < 12 then s.c
      else if i < 16 then s.d else s.e, i % 4))
  }

  /** The digest's words, highest byte first, are the registers. */
  lemma DigestDecodes(s: Regs)
    ensures var d := DigestOf(s);
            && BigEndian(d[0], d[1], d[2], d[3]) == s.a && BigEndian(d[4], d[5], d[6], d[7]) == s.b
            && BigEndian(d[8], d[9], d[10], d[11]) == s.c && BigEndian(d[12], d[13], d[14], d[15]) == s.d
            && BigEndian(d[16], d[17], d[18], d[19]) == s.e
  {
    BytesDecode(s.a);
    BytesDecode(s.b);
    BytesDecode(s.c);
    BytesDecode(s.d);
    BytesDecode(s.e);
  }

  lemma BytesDecode(w: bv32)
    ensures BigEndian(ByteOf(w, 0), ByteOf(w, 1), ByteOf(w, 2), ByteOf(w, 3)) == w
    ensures w == 0x100_0000 * (ByteOf(w, 0) as bv32) + 0x1_0000 * (ByteOf(w, 1) as bv32)
                 + 0x100 * (ByteOf(w, 2) as bv32) + (ByteOf(w, 3) as bv32)
  {
  }

  function Digest(m: seq<byte>): seq<byte> {
    PaddedIsBlocks(m);
    DigestOf(Blocks(Compress, Padded(m), |Padded(m)| / 64))
  }
}
