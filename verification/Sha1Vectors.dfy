/** The first test of section 7.3 of RFC 3174, worked through: the digest of "abc". */
module Sha1Vectors {
  import opened Sha1

  function Abc(): seq<byte> {
    [0x61, 0x62, 0x63]
  }

  /** Sixteen words of a schedule, from the t-th on. */
  predicate Are(s: seq<bv32>, t: nat, a: bv32, b: bv32, c: bv32, d: bv32, e: bv32, f: bv32, g: bv32, h: bv32,
    i: bv32, j: bv32, k: bv32, l: bv32, m: bv32, n: bv32, o: bv32, p: bv32)
  {
    && |s| == 80 && t <= 64
    && s[t] == a && s[t + 1] == b && s[t + 2] == c && s[t + 3] == d
    && s[t + 4] == e && s[t + 5] == f && s[t + 6] == g && s[t + 7] == h
    && s[t + 8] == i && s[t + 9] == j && s[t + 10] == k && s[t + 11] == l
    && s[t + 12] == m && s[t + 13] == n && s[t + 14] == o && s[t + 15] == p
  }

  /** Sixteen rounds, from round t on. */
  function Sixteen(r: Regs, t: nat, a: bv32, b: bv32, c: bv32, d: bv32, e: bv32, f: bv32, g: bv32, h: bv32,
    i: bv32, j: bv32, k: bv32, l: bv32, m: bv32, n: bv32, o: bv32, p: bv32): Regs
  {
    var r4 := Step(Step(Step(Step(r, t, a), t + 1, b), t + 2, c), t + 3, d);
    var r8 := Step(Step(Step(Step(r4, t + 4, e), t + 5, f), t + 6, g), t + 7, h);
    var r12 := Step(Step(Step(Step(r8, t + 8, i), t + 9, j), t + 10, k), t + 11, l);
    Step(Step(Step(Step(r12, t + 12, m), t + 13, n), t + 14, o), t + 15, p)
  }

  lemma RoundsOne(r: Regs, s: seq<bv32>, t: nat)
    requires t < |s|
    ensures Rounds(r, s, t + 1) == Step(Rounds(r, s, t), t, s[t])
  {
  }

  lemma RoundsOf(r: Regs, s: seq<bv32>, t: nat)
    requires t + 16 <= |s|
    ensures Rounds(r, s, t + 16)
         == Sixteen(Rounds(r, s, t), t, s[t], s[t + 1], s[t + 2], s[t + 3], s[t + 4], s[t + 5], s[t + 6], s[t + 7],
              s[t + 8], s[t + 9], s[t + 10], s[t + 11], s[t + 12], s[t + 13], s[t + 14], s[t + 15])
  {
    RoundsOne(r, s, t);
    RoundsOne(r, s, t + 1);
    RoundsOne(r, s, t + 2);
    RoundsOne(r, s, t + 3);
    RoundsOne(r, s, t + 4);
    RoundsOne(r, s, t + 5);
    RoundsOne(r, s, t + 6);
    RoundsOne(r, s, t + 7);
    RoundsOne(r, s, t + 8);
    RoundsOne(r, s, t + 9);
    RoundsOne(r, s, t + 10);
    RoundsOne(r, s, t + 11);
    RoundsOne(r, s, t + 12);
    RoundsOne(r, s, t + 13);
    RoundsOne(r, s, t + 14);
    RoundsOne(r, s, t + 15);
  }

  predicate FirstWords(s: seq<bv32>) {
    Are(s, 0, 0x6162_6380, 0x0000_0000, 0x0000_0000, 0x0000_0000, 0x0000_0000, 0x0000_0000, 0x0000_0000, 0x0000_0000,
        0x0000_0000, 0x0000_0000, 0x0000_0000, 0x0000_0000, 0x0000_0000, 0x0000_0000, 0x0000_0000, 0x0000_0018)
  }

  lemma FirstRounds()
    ensures Sixteen(Regs(0x6745_2301, 0xefcd_ab89, 0x98ba_dcfe, 0x1032_5476, 0xc3d2_e1f0), 0,
              0x6162_6380, 0x0000_0000, 0x0000_0000, 0x0000_0000, 0x0000_0000, 0x0000_0000, 0x0000_0000, 0x0000_0000,
              0x0000_0000, 0x0000_0000, 0x0000_0000, 0x0000_0000, 0x0000_0000, 0x0000_0000, 0x0000_0000, 0x0000_0018)
         == Regs(0x20bd_d62f, 0x196b_ee77, 0x644a_3da5, 0x1181_ed99, 0x18c6_23f9)
  {
  }

  predicate SecondWords(s: seq<bv32>) {
    Are(s, 16, 0xc2c4_c700, 0x0000_0000, 0x0000_0030, 0x8589_8e01, 0x0000_0000, 0x0000_0060, 0x0b13_1c03, 0x0000_0030,
        0x8589_8ec1, 0x1626_3806, 0x0000_0000, 0x0000_0180, 0x2c4c_700c, 0x0000_00f0, 0x93af_b507, 0x5898_e048)
  }

  lemma SecondRounds()
    ensures Sixteen(Regs(0x20bd_d62f, 0x196b_ee77, 0x644a_3da5, 0x1181_ed99, 0x18c6_23f9), 16,
              0xc2c4_c700, 0x0000_0000, 0x0000_0030, 0x8589_8e01, 0x0000_0000, 0x0000_0060, 0x0b13_1c03, 0x0000_0030,
              0x8589_8ec1, 0x1626_3806, 0x0000_0000, 0x0000_0180, 0x2c4c_700c, 0x0000_00f0, 0x93af_b507, 0x5898_e048)
         == Regs(0x3b84_5d33, 0x1267_b407, 0x717e_ebd7, 0xa0dc_2d4b, 0xd2aa_1365)
  {
  }

  predicate ThirdWords(s: seq<bv32>) {
    Are(s, 32, 0x8e9a_9202, 0x0000_0600, 0xb131_c0f0, 0x1626_3bc6, 0x4ebe_d41e, 0x6263_80a1, 0x1626_3806, 0x0000_18c0,
        0xd2e1_38c4, 0x0000_0f00, 0x3afb_5079, 0x898e_04e5, 0xe2ba_3c2b, 0x0000_60c0, 0x053a_37cd, 0x7445_8547)
  }

  lemma ThirdRounds()
    ensures Sixteen(Regs(0x3b84_5d33, 0x1267_b407, 0x717e_ebd7, 0xa0dc_2d4b, 0xd2aa_1365), 32,
              0x8e9a_9202, 0x0000_0600, 0xb131_c0f0, 0x1626_3bc6, 0x4ebe_d41e, 0x6263_80a1, 0x1626_3806, 0x0000_18c0,
              0xd2e1_38c4, 0x0000_0f00, 0x3afb_5079, 0x898e_04e5, 0xe2ba_3c2b, 0x0000_60c0, 0x053a_37cd, 0x7445_8547)
         == Regs(0xbead_02ca, 0xa01b_846c, 0x8714_787c, 0x503c_a382, 0xfb86_c6ab)
  {
  }

  predicate FourthWords(s: seq<bv32>) {
    Are(s, 48, 0xda94_15ed, 0x2638_0a16, 0x6263_83a1, 0x4ebf_54de, 0x3835_b44b, 0x0000_f600, 0x1e84_c7a3, 0x98e0_4d98,
        0x651d_16a0, 0x6265_8ca1, 0x4585_44d6, 0x4458_4cb7, 0x7ba0_6619, 0x6380_aea2, 0x0ae5_5269, 0x627b_49a1)
  }

  lemma FourthRounds()
    ensures Sixteen(Regs(0xbead_02ca, 0xa01b_846c, 0x8714_787c, 0x503c_a382, 0xfb86_c6ab), 48,
              0xda94_15ed, 0x2638_0a16, 0x6263_83a1, 0x4ebf_54de, 0x3835_b44b, 0x0000_f600, 0x1e84_c7a3, 0x98e0_4d98,
              0x651d_16a0, 0x6265_8ca1, 0x4585_44d6, 0x4458_4cb7, 0x7ba0_6619, 0x6380_aea2, 0x0ae5_5269, 0x627b_49a1)
         == Regs(0x6b61_c9e1, 0xb66c_020b, 0x9523_272c, 0xf5d5_b051, 0x8fd4_b796)
  {
  }

  predicate FifthWords(s: seq<bv32>) {
    Are(s, 64, 0x7cd4_5c9d, 0x000f_0000, 0xfb50_753a, 0xec67_65e8, 0xba3c_2be2, 0x0060_c000, 0x3a37_cd05, 0x4585_46f4,
        0xb859_9dd6, 0x380a_1a26, 0x01e0_2203, 0xe7cc_3456, 0xe6e6_0b69, 0x00f6_0a00, 0x5795_ef4f, 0x822e_0879)
  }

  lemma FifthRounds()
    ensures Sixteen(Regs(0x6b61_c9e1, 0xb66c_020b, 0x9523_272c, 0xf5d5_b051, 0x8fd4_b796), 64,
              0x7cd4_5c9d, 0x000f_0000, 0xfb50_753a, 0xec67_65e8, 0xba3c_2be2, 0x0060_c000, 0x3a37_cd05, 0x4585_46f4,
              0xb859_9dd6, 0x380a_1a26, 0x01e0_2203, 0xe7cc_3456, 0xe6e6_0b69, 0x00f6_0a00, 0x5795_ef4f, 0x822e_0879)
         == Regs(0x4254_1b35, 0x5738_d5e1, 0x2183_4873, 0x681e_6df6, 0xd8fd_f6ad)
  {
  }

  predicate Recurs(s: seq<bv32>, from: nat, to: nat) {
    && |s| == 80
    && forall t: nat {:trigger s[t]} :: 16 <= t && from <= t < to && t < 80 ==>
         s[t] == Rol1(Xor(Xor(Xor(s[t - 3], s[t - 8]), s[t - 14]), s[t - 16]))
  }

  predicate MiddleWords(s: seq<bv32>) {
    Are(s, 24, 0x8589_8ec1, 0x1626_3806, 0x0000_0000, 0x0000_0180, 0x2c4c_700c, 0x0000_00f0, 0x93af_b507, 0x5898_e048,
     0x8e9a_9202, 0x0000_0600, 0xb131_c0f0, 0x1626_3bc6, 0x4ebe_d41e, 0x6263_80a1, 0x1626_3806, 0x0000_18c0)
  }

  lemma ThirdBegin(s: seq<bv32>)
    requires Recurs(s, 32, 40) && SecondWords(s)
    ensures MiddleWords(s)
  {
  }

  lemma ThirdEnd(s: seq<bv32>)
    requires Recurs(s, 40, 48) && MiddleWords(s)
    ensures ThirdWords(s)
  {
  }

  lemma SecondFollow(s: seq<bv32>)
    requires Recurs(s, 16, 32) && FirstWords(s)
    ensures SecondWords(s)
  {
  }

  lemma FourthFollow(s: seq<bv32>)
    requires Recurs(s, 48, 64) && ThirdWords(s)
    ensures FourthWords(s)
  {
  }

  lemma FifthFollow(s: seq<bv32>)
    requires Recurs(s, 64, 80) && FourthWords(s)
    ensures FifthWords(s)
  {
  }

  lemma ScheduleRecurs(words: seq<bv32>)
    requires |words| == 16
    ensures Recurs(Schedule(words, 80), 16, 80) && forall t: nat :: t < 16 ==> Schedule(words, 80)[t] == words[t]
  {
    var s := Schedule(words, 80);
    forall t: nat {:trigger s[t]} | 16 <= t < 80
      ensures s[t] == Rol1(Xor(Xor(Xor(s[t - 3], s[t - 8]), s[t - 14]), s[t - 16]))
    {
      ScheduleAt(words, 80, t);
    }
    forall t: nat | t < 16 ensures s[t] == words[t] { ScheduleAt(words, 80, t); }
  }

  function AbcBlock(): seq<byte> {
    Abc() + [0x80] + Zeros(52) + [0, 0, 0, 0, 0, 0, 0, 0x18]
  }

  lemma {:induction false} ZeroDigits(k: nat)
    ensures Digit(0, k) == 0
  {
    if k > 0 {
      ZeroDigits(k - 1);
    }
  }

  lemma AbcIsPadded()
    ensures Padded(Abc()) == AbcBlock()
  {
    assert ZeroCount(3) == 52 && LengthOf(3) == EightBytes(24);
    AbcLength();
  }

  lemma AbcLength()
    ensures EightBytes(24) == [0, 0, 0, 0, 0, 0, 0, 0x18]
  {
    forall k: nat | 0 < k < 8 ensures Digit(24, k) == 0 {
      assert Digit(24, k) == Digit(0, k - 1);
      ZeroDigits(k - 1);
    }
    var bytes := EightBytes(24);
    assert forall i: nat :: i < 7 ==> bytes[i] == 0;
    assert bytes[7] == 0x18;
  }

  lemma AbcWords()
    ensures |AbcBlock()| == 64
    ensures var w := Words(AbcBlock());
            w[0] == 0x6162_6380 && w[15] == 0x18 && forall t: nat :: 0 < t < 15 ==> w[t] == 0
  {
    var m := AbcBlock();
    assert m[0] == 0x61 && m[1] == 0x62 && m[2] == 0x63 && m[3] == 0x80 && m[63] == 0x18;
    assert forall k: nat :: 4 <= k < 63 ==> m[k] == 0;
    assert BigEndian(0x61, 0x62, 0x63, 0x80) == 0x6162_6380 && BigEndian(0, 0, 0, 0) == 0;
    assert BigEndian(0, 0, 0, 0x18) == 0x18;
  }

  lemma AbcSchedule(s: seq<bv32>)
    requires Recurs(s, 16, 80) && FirstWords(s)
    ensures SecondWords(s) && ThirdWords(s) && FourthWords(s) && FifthWords(s)
  {
    SecondFollow(s);
    ThirdBegin(s);
    ThirdEnd(s);
    FourthFollow(s);
    FifthFollow(s);
  }

  lemma AbcFirstRounds(s: seq<bv32>)
    requires FirstWords(s) && SecondWords(s) && ThirdWords(s)
    ensures Rounds(Start(), s, 48) == Regs(0xbead_02ca, 0xa01b_846c, 0x8714_787c, 0x503c_a382, 0xfb86_c6ab)
  {
    FirstRounds();
    RoundsOf(Start(), s, 0);
    SecondRounds();
    RoundsOf(Start(), s, 16);
    ThirdRounds();
    RoundsOf(Start(), s, 32);
  }

  lemma AbcRounds(s: seq<bv32>)
    requires FirstWords(s) && SecondWords(s) && ThirdWords(s) && FourthWords(s) && FifthWords(s)
    ensures Rounds(Start(), s, 80) == Regs(0x4254_1b35, 0x5738_d5e1, 0x2183_4873, 0x681e_6df6, 0xd8fd_f6ad)
  {
    AbcFirstRounds(s);
    FourthRounds();
    RoundsOf(Start(), s, 48);
    FifthRounds();
    RoundsOf(Start(), s, 64);
  }

  /** The compression of that block. */
  lemma AbcCompressed()
    ensures |AbcBlock()| == 64
    ensures Compress(Start(), AbcBlock()) == Regs(0xa999_3e36, 0x4706_816a, 0xba3e_2571, 0x7850_c26c, 0x9cd0_d89d)
  {
    AbcWords();
    var words := Words(AbcBlock());
    var s := Schedule(words, 80);
    ScheduleRecurs(words);
    AbcSchedule(s);
    AbcRounds(s);
  }

  /** SHA-1 of "abc" is a9993e36 4706816a ba3e2571 7850c26c 9cd0d89d. */
  lemma AbcDigest()
    ensures Digest(Abc())
         == [0xa9, 0x99, 0x3e, 0x36, 0x47, 0x06, 0x81, 0x6a, 0xba, 0x3e, 0x25, 0x71, 0x78, 0x50, 0xc2, 0x6c,
             0x9c, 0xd0, 0xd8, 0x9d]
  {
    AbcIsPadded();
    AbcCompressed();
    var m := AbcBlock();
    assert m[..64] == m;
    assert Blocks(Compress, m, 1) == Compress(Start(), m);
    AbcBytes();
  }

  lemma AbcBytes()
    ensures DigestOf(Regs(0xa999_3e36, 0x4706_816a, 0xba3e_2571, 0x7850_c26c, 0x9cd0_d89d))
         == [0xa9, 0x99, 0x3e, 0x36, 0x47, 0x06, 0x81, 0x6a, 0xba, 0x3e, 0x25, 0x71, 0x78, 0x50, 0xc2, 0x6c,
             0x9c, 0xd0, 0xd8, 0x9d]
  {
  }
}
