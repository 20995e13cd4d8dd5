/** CheckCrc32, ReflectedData and calculate_crc32 of cxl_memory_sharing/crc.c on buffers of any length. */
module Crc {
  type byte = bv8

  // The operators of the register, named so that proofs above the bit level never look at bits.

  function Xor(a: bv32, b: bv32): bv32 { a ^ b }

  function Shl(a: bv32): bv32 { a << 1 }

  function Shr(a: bv32): bv32 { a >> 1 }

  predicate Top(a: bv32) { a & 0x8000_0000 != 0 }

  predicate Low(a: bv32) { a & 1 != 0 }

  /** ReflectedData in 32-bit mode: swap halves, bytes, nibbles, pairs, bits. */
  function Reflect32(data: bv32): bv32 {
    var a := ((data & 0xffff0000) >> 16) | ((data & 0x0000ffff) << 16);
    var b := ((a & 0xff00ff00) >> 8) | ((a & 0x00ff00ff) << 8);
    var c := ((b & 0xf0f0f0f0) >> 4) | ((b & 0x0f0f0f0f) << 4);
    var d := ((c & 0xcccccccc) >> 2) | ((c & 0x33333333) << 2);
    ((d & 0xaaaaaaaa) >> 1) | ((d & 0x55555555) << 1)
  }

  /** ReflectedData in 8-bit mode. */
  function Reflect8(data: bv32): bv32 {
    (Reflect32(data) >> 24) & 0xff
  }

  /** One round of the inner loop: shift left, and subtract the polynomial when a bit falls out. */
  function Step(crc: bv32, poly: bv32): bv32 {
    if Top(crc) then Xor(Shl(crc), poly) else Shl(crc)
  }

  function Steps(crc: bv32, poly: bv32, n: nat): bv32
    decreases n, crc
  {
    if n == 0 then crc else Step(Steps(crc, poly, n - 1), poly)
  }

  function Word(b: byte): bv32 { b as bv32 }

  function HighByte(w: bv32): bv32 { w << 24 }

  function Entering(b: byte, refIn: bool): bv32 {
    HighByte(if refIn then Reflect8(Word(b)) else Word(b))
  }

  function TakeByte(crc: bv32, poly: bv32, refIn: bool, b: byte): bv32 {
    Steps(Xor(crc, Entering(b, refIn)), poly, 8)
  }

  /** The register after the outer loop has taken every byte. */
  function Register(crc: bv32, poly: bv32, refIn: bool, buffer: seq<byte>): bv32
    decreases |buffer|
  {
    if buffer == [] then crc
    else TakeByte(Register(crc, poly, refIn, buffer[..|buffer| - 1]), poly, refIn, buffer[|buffer| - 1])
  }

  lemma RegisterExtends(crc: bv32, poly: bv32, refIn: bool, buffer: seq<byte>, n: nat)
    requires n < |buffer|
    ensures Register(crc, poly, refIn, buffer[..n + 1])
         == TakeByte(Register(crc, poly, refIn, buffer[..n]), poly, refIn, buffer[n])
  {
    assert buffer[..n + 1][..n] == buffer[..n];
  }

  method CheckCrc32(poly: bv32, init: bv32, refIn: bool, refOut: bool, xorOut: bv32,
    buffer: seq<byte>) returns (crc: bv32)
    requires |buffer| < 0x1_0000_0000
    ensures var r := Register(init, poly, refIn, buffer);
            crc == Xor(if refOut then Reflect32(r) else r, xorOut)
  {
    crc := init;
    var length: nat := |buffer|;
    while length > 0
      invariant length <= |buffer| && crc == Register(init, poly, refIn, buffer[..|buffer| - length])
    {
      var next := |buffer| - length;
      RegisterExtends(init, poly, refIn, buffer, next);
      length := length - 1;
      crc := Xor(crc, Entering(buffer[next], refIn));
      ghost var entered := crc;
      for i := 0 to 8
        invariant crc == Steps(entered, poly, i)
      {
        if Top(crc) {
          crc := Shl(crc);
          crc := Xor(crc, poly);
        } else {
          crc := Shl(crc);
        }
      }
    }
    assert buffer[..|buffer|] == buffer;
    if refOut {
      crc := Reflect32(crc);
    }
    crc := Xor(crc, xorOut);
  }

  /** calculate_crc32: polynomial 04c11db7, all-ones start and end, bytes and result reflected. */
  function Crc32(buffer: seq<byte>): bv32 {
    Xor(Reflect32(Register(0xffff_ffff, 0x04c1_1db7, true, buffer)), 0xffff_ffff)
  }

  method CalculateCrc32(buffer: seq<byte>) returns (crc: bv32)
    requires |buffer| < 0x1_0000_0000
    ensures crc == Crc32(buffer) == Xor(LsbFirst(0xffff_ffff, buffer), 0xffff_ffff)
  {
    crc := CheckCrc32(0x04c1_1db7, 0xffff_ffff, true, true, 0xffff_ffff, buffer);
    Crc32IsRfc1952(buffer);
  }

  // The bits of a word, in the order a shift register sees them.

  function Shifted(y: bv32, n: nat): bv32
    decreases n, y
  {
    if n == 0 then y else Shl(Shifted(y, n - 1))
  }

  function ShiftedDown(y: bv32, n: nat): bv32
    decreases n, y
  {
    if n == 0 then y else Shr(ShiftedDown(y, n - 1))
  }

  function TopBits(y: bv32, n: nat): (bits: seq<bool>)
    ensures |bits| == n
    decreases n, y
  {
    if n == 0 then [] else TopBits(y, n - 1) + [Top(Shifted(y, n - 1))]
  }

  function LowBits(y: bv32, n: nat): (bits: seq<bool>)
    ensures |bits| == n
    decreases n, y
  {
    if n == 0 then [] else LowBits(y, n - 1) + [Low(ShiftedDown(y, n - 1))]
  }

  lemma ReflectShift(x: bv32)
    ensures Reflect32(Shr(x)) == Shl(Reflect32(x)) && Reflect32(Shl(x)) == Shr(Reflect32(x))
    ensures Top(Reflect32(x)) == Low(x) && Low(Reflect32(x)) == Top(x)
  {
  }

  /** ReflectedData is true bit reversal: read from the top, the result shows the argument from the bottom. */
  lemma {:induction false} ReflectReverses(x: bv32, n: nat)
    ensures TopBits(Reflect32(x), n) == LowBits(x, n)
    ensures Reflect32(ShiftedDown(x, n)) == Shifted(Reflect32(x), n)
    decreases n
  {
    if n > 0 {
      ReflectShift(ShiftedDown(x, n - 1));
      ReflectReverses(x, n - 1);
    }
  }

  lemma ReflectTwice(x: bv32)
    ensures Reflect32(Reflect32(x)) == x
  {
  }

  // Equivalence with the least-significant-bit-first form.

  /** The update step of section 8 of RFC 1952. */
  function LsbStep(c: bv32): bv32 {
    if Low(c) then Xor(Shr(c), 0xedb8_8320) else Shr(c)
  }

  function LsbSteps(c: bv32, n: nat): bv32
    decreases n, c
  {
    if n == 0 then c else LsbStep(LsbSteps(c, n - 1))
  }

  function LsbTakeByte(c: bv32, b: byte): bv32 {
    LsbSteps(Xor(c, Word(b)), 8)
  }

  function LsbFirst(c: bv32, buffer: seq<byte>): bv32
    decreases |buffer|
  {
    if buffer == [] then c
    else LsbTakeByte(LsbFirst(c, buffer[..|buffer| - 1]), buffer[|buffer| - 1])
  }

  lemma ReflectSubtractBits(c: bv32)
    ensures Reflect32(c ^ 0x04c1_1db7) == Reflect32(c) ^ 0xedb8_8320
  {
  }

  lemma ReflectStep(c: bv32)
    ensures Reflect32(Step(c, 0x04c1_1db7)) == LsbStep(Reflect32(c))
  {
    ReflectShift(c);
    ReflectSubtractBits(Shl(c));
  }

  lemma {:induction false} ReflectSteps(c: bv32, n: nat)
    ensures Reflect32(Steps(c, 0x04c1_1db7, n)) == LsbSteps(Reflect32(c), n)
    decreases n
  {
    if n > 0 {
      ReflectSteps(c, n - 1);
      ReflectStep(Steps(c, 0x04c1_1db7, n - 1));
    }
  }

  lemma ReflectEntering(c: bv32, b: byte)
    ensures Reflect32(Xor(c, Entering(b, true))) == Xor(Reflect32(c), Word(b))
  {
  }

  lemma ReflectTakeByte(c: bv32, b: byte)
    ensures Reflect32(TakeByte(c, 0x04c1_1db7, true, b)) == LsbTakeByte(Reflect32(c), b)
  {
    ReflectEntering(c, b);
    ReflectSteps(Xor(c, Entering(b, true)), 8);
  }

  lemma {:induction false} ReflectRegister(c: bv32, buffer: seq<byte>)
    ensures Reflect32(Register(c, 0x04c1_1db7, true, buffer)) == LsbFirst(Reflect32(c), buffer)
    decreases |buffer|
  {
    if buffer != [] {
      ReflectRegister(c, buffer[..|buffer| - 1]);
      ReflectTakeByte(Register(c, 0x04c1_1db7, true, buffer[..|buffer| - 1]), buffer[|buffer| - 1]);
    }
  }

  lemma ReflectAllOnes()
    ensures Reflect32(0xffff_ffff) == 0xffff_ffff
  {
  }

  /** Reflecting every byte, running MSB-first and reflecting the result is the CRC of section 8 of RFC 1952. */
  lemma Crc32IsRfc1952(buffer: seq<byte>)
    ensures Crc32(buffer) == Xor(LsbFirst(0xffff_ffff, buffer), 0xffff_ffff)
  {
    ReflectAllOnes();
    ReflectRegister(0xffff_ffff, buffer);
  }
}
