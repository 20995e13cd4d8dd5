/** The check value that catalogues of CRCs give: the checksum of the nine characters "123456789". */
module CrcVectors {
  import opened Crc

  function Digits(): seq<byte> {
    [0x31, 0x32, 0x33, 0x34, 0x35, 0x36, 0x37, 0x38, 0x39]
  }

  function ReflectedRegs(): (regs: seq<bv32>)
    ensures |regs| == 10
  {
    [0xffff_ffff, 0x1208_c43e, 0x4cdd_350d, 0xb439_edee, 0x3af8_3826,
     0xc7a3_502c, 0x7934_b16f, 0x0669_3ff5, 0x0aa4_f8a6, 0x9b63_d02c]
  }

  lemma ReflectedTakes()
    ensures TakeByte(0xffff_ffff, 0x04c1_1db7, true, 0x31) == 0x1208_c43e
    ensures TakeByte(0x1208_c43e, 0x04c1_1db7, true, 0x32) == 0x4cdd_350d
    ensures TakeByte(0x4cdd_350d, 0x04c1_1db7, true, 0x33) == 0xb439_edee
    ensures TakeByte(0xb439_edee, 0x04c1_1db7, true, 0x34) == 0x3af8_3826
    ensures TakeByte(0x3af8_3826, 0x04c1_1db7, true, 0x35) == 0xc7a3_502c
    ensures TakeByte(0xc7a3_502c, 0x04c1_1db7, true, 0x36) == 0x7934_b16f
    ensures TakeByte(0x7934_b16f, 0x04c1_1db7, true, 0x37) == 0x0669_3ff5
    ensures TakeByte(0x0669_3ff5, 0x04c1_1db7, true, 0x38) == 0x0aa4_f8a6
    ensures TakeByte(0x0aa4_f8a6, 0x04c1_1db7, true, 0x39) == 0x9b63_d02c
  {
  }

  lemma ReflectedBytes()
    ensures var r := ReflectedRegs();
            forall k: nat :: k < 9 ==> TakeByte(r[k], 0x04c1_1db7, true, Digits()[k]) == r[k + 1]
  {
    ReflectedTakes();
  }

  function PlainRegs(): (regs: seq<bv32>)
    ensures |regs| == 10
  {
    [0xffff_ffff, 0x9efb_cf93, 0x3fec_5e6a, 0xd952_f164, 0xa695_c4aa,
     0xbd9a_b747, 0xd8f0_6c8f, 0x0d8a_14c4, 0x49e3_c2fb, 0x0376_e6e7]
  }

  lemma PlainTakes()
    ensures TakeByte(0xffff_ffff, 0x04c1_1db7, false, 0x31) == 0x9efb_cf93
    ensures TakeByte(0x9efb_cf93, 0x04c1_1db7, false, 0x32) == 0x3fec_5e6a
    ensures TakeByte(0x3fec_5e6a, 0x04c1_1db7, false, 0x33) == 0xd952_f164
    ensures TakeByte(0xd952_f164, 0x04c1_1db7, false, 0x34) == 0xa695_c4aa
    ensures TakeByte(0xa695_c4aa, 0x04c1_1db7, false, 0x35) == 0xbd9a_b747
    ensures TakeByte(0xbd9a_b747, 0x04c1_1db7, false, 0x36) == 0xd8f0_6c8f
    ensures TakeByte(0xd8f0_6c8f, 0x04c1_1db7, false, 0x37) == 0x0d8a_14c4
    ensures TakeByte(0x0d8a_14c4, 0x04c1_1db7, false, 0x38) == 0x49e3_c2fb
    ensures TakeByte(0x49e3_c2fb, 0x04c1_1db7, false, 0x39) == 0x0376_e6e7
  {
  }

  lemma PlainBytes()
    ensures var r := PlainRegs();
            forall k: nat :: k < 9 ==> TakeByte(r[k], 0x04c1_1db7, false, Digits()[k]) == r[k + 1]
  {
    PlainTakes();
  }

  /** One byte after another, as the registers above. */
  lemma {:induction false} RegistersFollow(refIn: bool, regs: seq<bv32>, n: nat)
    requires |regs| == 10 && n <= 9
    requires forall k: nat :: k < 9 ==> TakeByte(regs[k], 0x04c1_1db7, refIn, Digits()[k]) == regs[k + 1]
    ensures Register(regs[0], 0x04c1_1db7, refIn, Digits()[..n]) == regs[n]
  {
    if n > 0 {
      RegistersFollow(refIn, regs, n - 1);
      RegisterExtends(regs[0], 0x04c1_1db7, refIn, Digits(), n - 1);
    }
  }

  /** calculate_crc32 of the digits is cbf43926. */
  lemma DigitsCrc()
    ensures Crc32(Digits()) == 0xcbf4_3926
  {
    ReflectedBytes();
    RegistersFollow(true, ReflectedRegs(), 9);
    assert Digits()[..9] == Digits();
    LastReflected();
  }

  lemma LastReflected()
    ensures Xor(Reflect32(0x9b63_d02c), 0xffff_ffff) == 0xcbf4_3926
  {
  }

  /** Without reflection of bytes and result it is fc891918. */
  lemma PlainDigitsCrc()
    ensures Xor(Register(0xffff_ffff, 0x04c1_1db7, false, Digits()), 0xffff_ffff) == 0xfc89_1918
  {
    PlainBytes();
    RegistersFollow(false, PlainRegs(), 9);
    assert Digits()[..9] == Digits();
    LastPlain();
  }

  lemma LastPlain()
    ensures Xor(0x0376_e6e7, 0xffff_ffff) == 0xfc89_1918
  {
  }
}
