/** wal_accel/src/sha1.c: the in-place transform over sixteen words, and the streaming update and final. */
module Sha1Contexts {
  import opened Sha1

  // The forms the macros compute, and what they are in section 5 of RFC 3174.

  function Select(w: bv32, x: bv32, y: bv32): bv32 { (w & (x ^ y)) ^ y }

  function Majority(w: bv32, x: bv32, y: bv32): bv32 { ((w | x) & y) | (w & x) }

  lemma SelectBits(w: bv32, x: bv32, y: bv32)
    ensures (w & (x ^ y)) ^ y == (w & x) | (!w & y)
  {
  }

  lemma SelectIsCh(w: bv32, x: bv32, y: bv32)
    ensures Select(w, x, y) == Ch(w, x, y)
  {
    SelectBits(w, x, y);
  }

  lemma MajorityBits(w: bv32, x: bv32, y: bv32)
    ensures ((w | x) & y) | (w & x) == (w & x) | (w & y) | (x & y)
  {
  }

  lemma MajorityIsMaj(w: bv32, x: bv32, y: bv32)
    ensures Majority(w, x, y) == Maj(w, x, y)
  {
    MajorityBits(w, x, y);
  }

  /** The additions of a round in the order the macros make them. */
  function MacroSum(z: bv32, f: bv32, w: bv32, k: bv32, v: bv32): bv32 { z + (f + w + k + v) }

  lemma MacroSumIsSum(z: bv32, f: bv32, w: bv32, k: bv32, v: bv32)
    ensures MacroSum(z, f, w, k, v) == Sum(v, f, z, w, k)
  {
  }

  /** What memcpy puts into a word on a little-endian host. */
  function LittleEndian(b0: byte, b1: byte, b2: byte, b3: byte): bv32 {
    BigEndian(b3, b2, b1, b0)
  }

  /** blk0 on such a host. */
  function Swapped(w: bv32): bv32 {
    (((w << 24) | (w >> 8)) & 0xFF00_FF00) | (((w << 8) | (w >> 24)) & 0x00FF_00FF)
  }

  lemma SwappedLoad(b0: byte, b1: byte, b2: byte, b3: byte)
    ensures Swapped(LittleEndian(b0, b1, b2, b3)) == BigEndian(b0, b1, b2, b3)
  {
  }

  /** The words memcpy leaves in `block`. */
  function Raw(buffer: seq<byte>): (r: seq<bv32>)
    requires |buffer| == 64
    ensures |r| == 16
  {
    seq(16, i requires 0 <= i < 16 => LittleEndian(buffer[4 * i], buffer[4 * i + 1], buffer[4 * i + 2],
      buffer[4 * i + 3]))
  }

  /**
   * Before round t the sixteen words hold the last sixteen of the schedule, and raw words where it has not come yet.
   */
  ghost predicate Holds(block: seq<bv32>, raw: seq<bv32>, schedule: seq<bv32>, t: nat) {
    && |block| == |raw| == 16 && t <= |schedule|
    && (forall u: nat :: u < t <= u + 16 ==> block[u % 16] == schedule[u])
    && (forall u: nat :: t <= u < 16 ==> block[u] == raw[u])
  }

  lemma SlotsDiffer(u: nat, t: nat)
    requires u < t < u + 16
    ensures u % 16 != t % 16
  {
  }

  lemma HoldsNext(block: seq<bv32>, raw: seq<bv32>, schedule: seq<bv32>, t: nat)
    requires Holds(block, raw, schedule, t) && t < |schedule|
    ensures Holds(block[t % 16 := schedule[t]], raw, schedule, t + 1)
  {
    var next := block[t % 16 := schedule[t]];
    forall u: nat | u < t + 1 <= u + 16
      ensures next[u % 16] == schedule[u]
    {
      if u < t {
        SlotsDiffer(u, t);
      }
    }
  }

  function ScheduleOf(buffer: seq<byte>): (s: seq<bv32>)
    requires |buffer| == 64
    ensures |s| == 80
  {
    Schedule(Words(buffer), 80)
  }

  /** What blk0 and blk compute is the next word of the schedule. */
  lemma NextInPlace(block: seq<bv32>, buffer: seq<byte>, t: nat)
    requires |buffer| == 64 && Holds(block, Raw(buffer), ScheduleOf(buffer), t) && t < 80
    ensures ScheduleOf(buffer)[t]
         == if t < 16 then Swapped(block[t])
            else Rol1(Xor(Xor(Xor(block[(t + 13) % 16], block[(t + 8) % 16]), block[(t + 2) % 16]), block[t % 16]))
  {
    var s := ScheduleOf(buffer);
    ScheduleAt(Words(buffer), 80, t);
    if t < 16 {
      SwappedLoad(buffer[4 * t], buffer[4 * t + 1], buffer[4 * t + 2], buffer[4 * t + 3]);
    } else {
      assert block[(t + 13) % 16] == s[t - 3] by { assert (t + 13) % 16 == (t - 3) % 16; }
      assert block[(t + 8) % 16] == s[t - 8] by { assert (t + 8) % 16 == (t - 8) % 16; }
      assert block[(t + 2) % 16] == s[t - 14] by { assert (t + 2) % 16 == (t - 14) % 16; }
      assert block[t % 16] == s[t - 16] by { assert t % 16 == (t - 16) % 16; }
    }
  }

  /** blk0(i) for the first sixteen rounds, blk(i) afterwards: word t of the schedule, written over word t - 16. */
  method NextWord(block: array<bv32>, t: nat, ghost buffer: seq<byte>) returns (w: bv32)
    requires block.Length == 16 && |buffer| == 64 && Holds(block[..], Raw(buffer), ScheduleOf(buffer), t) && t < 80
    modifies block
    ensures w == ScheduleOf(buffer)[t] && Holds(block[..], Raw(buffer), ScheduleOf(buffer), t + 1)
  {
    NextInPlace(block[..], buffer, t);
    HoldsNext(block[..], Raw(buffer), ScheduleOf(buffer), t);
    if t < 16 {
      block[t] := Swapped(block[t]);
      w := block[t];
    } else {
      block[t % 16] := Rol1(Xor(Xor(Xor(block[(t + 13) % 16], block[(t + 8) % 16]), block[(t + 2) % 16]),
        block[t % 16]));
      w := block[t % 16];
    }
    assert block[..] == old(block[..])[t % 16 := ScheduleOf(buffer)[t]];
  }

  /** The function of a round as the macros compute it. */
  function MacroF(t: nat, w: bv32, x: bv32, y: bv32): bv32 {
    if t < 20 then Select(w, x, y) else if t < 40 then Parity(w, x, y) else if t < 60 then Majority(w, x, y)
      else Parity(w, x, y)
  }

  lemma MacroFIsF(t: nat, w: bv32, x: bv32, y: bv32)
    ensures MacroF(t, w, x, y) == F(t, w, x, y)
  {
    SelectIsCh(w, x, y);
    MajorityIsMaj(w, x, y);
  }

  lemma MacroIsStep(v: bv32, w: bv32, x: bv32, y: bv32, z: bv32, t: nat, next: bv32)
    ensures Step(Regs(v, w, x, y, z), t, next)
         == Regs(MacroSum(z, MacroF(t, w, x, y), next, K(t), Rol5(v)), v, Rol30(w), x, y)
  {
    MacroFIsF(t, w, x, y);
    MacroSumIsSum(z, F(t, w, x, y), next, K(t), Rol5(v));
  }

  /** R0 to R4: the new z and w are those of round t. */
  method R(v: bv32, w: bv32, x: bv32, y: bv32, z: bv32, t: nat, block: array<bv32>, ghost buffer: seq<byte>,
    ghost start: Regs)
    returns (z': bv32, w': bv32)
    requires block.Length == 16 && |buffer| == 64 && Holds(block[..], Raw(buffer), ScheduleOf(buffer), t) && t < 80
    requires Regs(v, w, x, y, z) == Rounds(start, ScheduleOf(buffer), t)
    modifies block
    ensures Regs(z', v, w', x, y) == Rounds(start, ScheduleOf(buffer), t + 1)
    ensures Holds(block[..], Raw(buffer), ScheduleOf(buffer), t + 1)
  {
    var next := NextWord(block, t, buffer);
    MacroIsStep(v, w, x, y, z, t, next);
    z' := MacroSum(z, MacroF(t, w, x, y), next, K(t), Rol5(v));
    w' := Rol30(w);
  }

  /** The eighty macro calls, five to an iteration: after five the registers are back in their places. */
  method Transform(state: array<bv32>, buffer: seq<byte>)
    requires state.Length == 5 && |buffer| == 64
    modifies state
    ensures RegsOf(state[..]) == Compress(old(RegsOf(state[..])), buffer)
  {
    var raw := Raw(buffer);
    var block := new bv32[16](i requires 0 <= i < 16 => raw[i]);
    assert block[..] == raw;
    var a, b, c, d, e := state[0], state[1], state[2], state[3], state[4];
    ghost var start := RegsOf(state[..]);
    for g := 0 to 16
      invariant Holds(block[..], raw, ScheduleOf(buffer), 5 * g)
      invariant Regs(a, b, c, d, e) == Rounds(start, ScheduleOf(buffer), 5 * g)
      invariant state[..] == old(state[..])
    {
      e, b := R(a, b, c, d, e, 5 * g, block, buffer, start);
      d, a := R(e, a, b, c, d, 5 * g + 1, block, buffer, start);
      c, e := R(d, e, a, b, c, 5 * g + 2, block, buffer, start);
      b, d := R(c, d, e, a, b, 5 * g + 3, block, buffer, start);
      a, c := R(b, c, d, e, a, 5 * g + 4, block, buffer, start);
    }
    state[0] := Add(state[0], a);
    state[1] := Add(state[1], b);
    state[2] := Add(state[2], c);
    state[3] := Add(state[3], d);
    state[4] := Add(state[4], e);
  }

  function RegsOf(state: seq<bv32>): Regs
    requires |state| == 5
  {
    Regs(state[0], state[1], state[2], state[3], state[4])
  }

  // The counters.

  /** A length in bits, as far as 64 bits go. */
  function Bits(len: nat): nat {
    8 * len % 0x1_0000_0000_0000_0000
  }

  /** The two counters hold the length in bits modulo 2^64. */
  predicate Counts(low: nat, high: nat, len: nat) {
    low < 0x1_0000_0000 && high < 0x1_0000_0000 && high * 0x1_0000_0000 + low == Bits(len)
  }

  lemma CountsTail(low: nat, high: nat, len: nat)
    requires Counts(low, high, len)
    ensures low / 8 % 64 == len % 64
  {
    var turns := 8 * len / 0x1_0000_0000_0000_0000;
    assert 8 * len == turns * 0x1_0000_0000_0000_0000 + high * 0x1_0000_0000 + low;
    TailOf(low, len - turns * 0x2000_0000_0000_0000 - high * 0x2000_0000,
           turns * 0x80_0000_0000_0000 + high * 0x80_0000);
  }

  lemma TailOf(low: nat, y: nat, k: nat)
    requires low == 8 * y
    ensures low / 8 % 64 == y % 64 == (y + 64 * k) % 64
  {
  }

  lemma Remainder(q: nat, r: nat)
    requires r < 0x1_0000_0000_0000_0000
    ensures (q * 0x1_0000_0000_0000_0000 + r) % 0x1_0000_0000_0000_0000 == r
  {
  }

  /** A sum that wrapped is below what it was added to. */
  lemma Carry(low: nat, more: nat, low': nat)
    requires low < 0x1_0000_0000 && low' == (low + 8 * more) % 0x1_0000_0000
    ensures low + 8 * more == (more / 0x2000_0000 + if low' < low then 1 else 0) * 0x1_0000_0000 + low'
  {
    var q, r := more / 0x2000_0000, more % 0x2000_0000;
    assert low + 8 * more == q * 0x1_0000_0000 + (low + 8 * r);
    WholeTurns(q, low + 8 * r);
  }

  lemma WholeTurns(q: nat, n: nat)
    ensures (q * 0x1_0000_0000 + n) % 0x1_0000_0000 == n % 0x1_0000_0000
  {
  }

  lemma TwoRemainders(a: nat, b: nat)
    ensures (a % 0x1_0000_0000 + b) % 0x1_0000_0000 == (a + b) % 0x1_0000_0000
  {
  }

  lemma Regroup(bits: nat, more: nat, turns: nat, high: nat, low: nat, carry: nat, low': nat, wraps: nat, high': nat)
    requires bits == turns * 0x1_0000_0000_0000_0000 + (high * 0x1_0000_0000 + low)
    requires low + more == carry * 0x1_0000_0000 + low' && high + carry == wraps * 0x1_0000_0000 + high'
    ensures bits + more == (turns + wraps) * 0x1_0000_0000_0000_0000 + (high' * 0x1_0000_0000 + low')
  {
  }

  lemma CountsGrow(low: nat, high: nat, len: nat, more: nat, low': nat, high': nat)
    requires Counts(low, high, len)
    requires low' == (low + 8 * more) % 0x1_0000_0000
    requires high' == ((high + if low' < low then 1 else 0) % 0x1_0000_0000 + more / 0x2000_0000) % 0x1_0000_0000
    ensures Counts(low', high', len + more)
  {
    var carry := more / 0x2000_0000 + if low' < low then 1 else 0;
    Carry(low, more, low');
    TwoRemainders(high + (if low' < low then 1 else 0), more / 0x2000_0000);
    var turns, wraps := 8 * len / 0x1_0000_0000_0000_0000, (high + carry) / 0x1_0000_0000;
    Regroup(8 * len, 8 * more, turns, high, low, carry, low', wraps, high');
    Remainder(turns + wraps, high' * 0x1_0000_0000 + low');
  }

  /** finalcount. */
  function FinalCount(low: nat, high: nat): seq<byte> {
    seq(8, i requires 0 <= i < 8 => Digit(if i >= 4 then low else high, 3 - i % 4) as byte)
  }

  function Power(s: nat): nat {
    if s == 0 then 1 else 256 * Power(s - 1)
  }

  lemma Shifted(low: nat, n: nat)
    ensures (256 * n + low) / 256 == n + low / 256 && (256 * n + low) % 256 == low % 256
  {
  }

  /** A number put above s digits of another. */
  lemma {:induction false} DigitOfPair(low: nat, high: nat, s: nat, k: nat)
    requires low < Power(s)
    ensures Digit(high * Power(s) + low, k) == if k < s then Digit(low, k) else Digit(high, k - s)
    decreases s
  {
    if s > 0 {
      var n := high * Power(s - 1);
      assert high * Power(s) == 256 * n;
      Shifted(low, n);
      if k > 0 {
        DigitOfPair(low / 256, high, s - 1, k - 1);
      }
    }
  }

  lemma FinalCountAt(low: nat, high: nat, i: nat)
    requires low < 0x1_0000_0000 && i < 8
    ensures Digit(high * 0x1_0000_0000 + low, 7 - i) == Digit(if i >= 4 then low else high, 3 - i % 4)
  {
    assert Power(4) == 0x1_0000_0000;
    DigitOfPair(low, high, 4, 7 - i);
  }

  lemma FinalCountIsLength(low: nat, high: nat, len: nat)
    requires Counts(low, high, len)
    ensures FinalCount(low, high) == LengthOf(len)
  {
    var bits := high * 0x1_0000_0000 + low;
    forall i: nat | i < 8
      ensures Digit(bits, 7 - i) == Digit(if i >= 4 then low else high, 3 - i % 4)
    {
      FinalCountAt(low, high, i);
    }
    assert FinalCount(low, high) == EightBytes(bits);
  }

  lemma PadGrows(m: seq<byte>, k: nat)
    ensures m + [0x80] + Zeros(k) + [0] == m + [0x80] + Zeros(k + 1)
    ensures |m + [0x80] + Zeros(k)| == |m| + 1 + k
  {
    assert Zeros(k) + [0] == Zeros(k + 1);
  }

  lemma ZeroCountIsFirst(len: nat, k: nat)
    requires k <= ZeroCount(len)
    ensures (len + 1 + k) % 64 == 56 <==> k == ZeroCount(len)
  {
  }

  /** The padding loop stops at the number of zero bytes section 4 asks for. */
  lemma PaddedEnough(low: nat, high: nat, m: seq<byte>, k: nat)
    requires k <= ZeroCount(|m|) && Counts(low, high, |m + [0x80] + Zeros(k)|)
    ensures low / 8 % 64 == 56 <==> k == ZeroCount(|m|)
  {
    PadGrows(m, k);
    CountsTail(low, high, |m| + 1 + k);
    ZeroCountIsFirst(|m|, k);
  }

  // The 32-bit index of sha1_update.

  /** The index after k whole blocks, the first of which completes a buffer of j bytes. */
  function IndexAt(j: nat, k: nat): nat
    requires j < 64
  {
    (64 - j + 64 * k) % 0x1_0000_0000
  }

  /** What the loop compares with the length. */
  function Tested(i: nat): nat {
    (i + 63) % 0x1_0000_0000
  }

  /** The index behind the last whole block, and the 63 the loop adds to it, fit 32 bits. */
  predicate IndexStays(j: nat, len: nat) {
    j + len <= 63 || 64 * ((j + len) / 64) - j + 63 < 0x1_0000_0000
  }

  predicate Fits(message: seq<byte>, piece: seq<byte>) {
    IndexStays(|message| % 64, |piece|)
  }

  lemma LastIndex(j: nat, len: nat, v: nat)
    requires j < 64 < j + len + 1 && (v + j) % 64 == 0 && v + 63 >= len
    ensures 64 * ((j + len) / 64) - j <= v
  {
    var n := (v + j) / 64;
    assert v + j == 64 * n;
    assert (j + len) / 64 <= n;
  }

  lemma IndexResidue(j: nat, k: nat)
    requires j < 64
    ensures (IndexAt(j, k) + j) % 64 == 0
  {
    var n := 64 - j + 64 * k;
    var q := n / 0x1_0000_0000;
    assert IndexAt(j, k) + j == 64 * (1 + k - q * 0x400_0000);
  }

  /** The loop ends if and only if the index stays: beyond that it wraps, and tests the same indices again for ever. */
  lemma IndexLoopEnds(j: nat, len: nat)
    requires j < 64 && j + len > 63
    ensures (exists k: nat :: Tested(IndexAt(j, k)) >= len) <==> IndexStays(j, len)
  {
    if IndexStays(j, len) {
      var last := 64 * ((j + len) / 64) - j;
      var k: nat := (j + len) / 64 - 1;
      assert IndexAt(j, k) == last && last + 63 >= len;
    }
    if k: nat :| Tested(IndexAt(j, k)) >= len {
      IndexResidue(j, k);
      var v := IndexAt(j, k);
      if v + 63 < 0x1_0000_0000 {
        LastIndex(j, len, v);
      } else {
        assert len <= 62;
      }
    }
  }

  lemma TestedIs(i: nat)
    requires i + 63 < 0x1_0000_0000
    ensures Tested(i) == i + 63
  {
  }

  class Sha1Context {
    const state: array<bv32>
    const buffer: array<byte>
    var low: nat               // count[0]
    var high: nat              // count[1]
    ghost var message: seq<byte>

    /** The whole blocks of the message are in the state, and the rest is in the buffer. */
    ghost predicate Taken()
      reads this, state, buffer
    {
      && state.Length == 5 && buffer.Length == 64
      && RegsOf(state[..]) == Blocks(Compress, message, |message| / 64)
      && buffer[..|message| % 64] == message[64 * (|message| / 64)..]
    }

    ghost predicate Valid()
      reads this, state, buffer
    {
      Taken() && Counts(low, high, |message|)
    }

    /** sha1_init. */
    constructor ()
      ensures Valid() && message == [] && fresh(state) && fresh(buffer)
    {
      state, buffer := new bv32[5], new byte[64];
      low, high, message := 0, 0, [];
      new;
      state[0], state[1], state[2] := 0x6745_2301, 0xEFCD_AB89, 0x98BA_DCFE;
      state[3], state[4] := 0x1032_5476, 0xC3D2_E1F0;
    }

    /** sha1_update; see IndexLoopEnds for pieces on which its loop does not end. */
    method Update(data: seq<byte>)
      requires Valid() && Fits(message, data)
      modifies this, state, buffer
      ensures Valid() && message == old(message) + data
    {
      var j := Position();
      Count(|data|);
      Absorb(j, data);
    }

    /** How many bytes of the message are in the buffer. */
    method Position() returns (j: nat)
      requires Counts(low, high, |message|)
      ensures j == |message| % 64
    {
      CountsTail(low, high, |message|);
      j := low / 8 % 64;
    }

    /** The part of sha1_update that counts: a low word that wrapped carries into the high one. */
    method Count(len: nat)
      requires Counts(low, high, |message|)
      modifies this`low, this`high
      ensures Counts(low, high, |message| + len)
    {
      var j := low;
      low := (low + 8 * len) % 0x1_0000_0000;
      if low < j {
        high := (high + 1) % 0x1_0000_0000;
      }
      high := (high + len / 0x2000_0000) % 0x1_0000_0000;
      CountsGrow(old(low), old(high), |message|, len, low, high);
    }

    /** The part of sha1_update after the counters. */
    method Absorb(j: nat, data: seq<byte>)
      requires Taken() && j == |message| % 64 && IndexStays(j, |data|)
      modifies this`message, state, buffer
      ensures Taken() && message == old(message) + data
    {
      ghost var m, n := message, |message| / 64;
      var i, at := 0, j;
      if j + |data| > 63 {
        i, n := TakeBlocks(j, data);
        at := 0;
      } else {
        BlocksOfPrefix(Compress, m, data, n);
      }
      Copy(buffer, at, data[i..]);
      message := message + data;
      ghost var rest := buffer[..at + |data[i..]|];
      assert rest == if i == 0 && |m| >= 64 * n then m[64 * n..] + data else data[i..];
      RestIsTail(m, data, n, i, rest);
    }

    /** Its branch for data that completes a block: the blocks it completes, and how far they reach. */
    method TakeBlocks(j: nat, data: seq<byte>) returns (i: nat, ghost n: nat)
      requires state.Length == 5 && buffer.Length == 64 && j == |message| % 64 && j + |data| > 63
               && IndexStays(j, |data|)
      requires RegsOf(state[..]) == Blocks(Compress, message, |message| / 64)
      requires buffer[..j] == message[64 * (|message| / 64)..]
      modifies state, buffer
      ensures 0 < i <= |data| < i + 64 && |message| + i == 64 * n
      ensures RegsOf(state[..]) == Blocks(Compress, message + data, n)
    {
      ghost var last := LastBlock(j, data, message);
      i := FillBlock(j, data);
      i, n := WholeBlocks(data, i, message, |message| / 64 + 1, last);
    }

    /** How many blocks there are when the whole blocks of the data are taken. */
    ghost method LastBlock(j: nat, data: seq<byte>, m: seq<byte>) returns (last: nat)
      requires j == |m| % 64 && j + |data| > 63 && IndexStays(j, |data|)
      ensures |m| <= 64 * last <= |m| + |data| < 64 * (last + 1) && 64 * last - |m| + 63 < 0x1_0000_0000
    {
      last := |m| / 64 + (j + |data|) / 64;
    }

    /** Its loop, which transforms whole blocks where they lie in the data. */
    method WholeBlocks(data: seq<byte>, first: nat, ghost m: seq<byte>, ghost done: nat, ghost last: nat)
      returns (i: nat, ghost n: nat)
      requires state.Length == 5 && 0 < first <= |data| && |m| + first == 64 * done
      requires done <= last && 64 * last <= |m| + |data| < 64 * (last + 1) && 64 * last - |m| + 63 < 0x1_0000_0000
      requires RegsOf(state[..]) == Blocks(Compress, m + data, done)
      modifies state
      ensures first <= i <= |data| < i + 64 && |m| + i == 64 * n
      ensures RegsOf(state[..]) == Blocks(Compress, m + data, n)
    {
      i, n := first, done;
      TestedIs(i);
      while Tested(i) < |data|
        invariant first <= i <= |data| && |m| + i == 64 * n && n <= last && Tested(i) == i + 63
        invariant RegsOf(state[..]) == Blocks(Compress, m + data, n)
        decreases |data| - i
      {
        NextBlock(data, i, m, n);
        i := i + 64;
        n := n + 1;
        TestedIs(i);
      }
    }

    method NextBlock(data: seq<byte>, i: nat, ghost m: seq<byte>, ghost n: nat)
      requires state.Length == 5 && i + 64 <= |data| && |m| + i == 64 * n
      requires RegsOf(state[..]) == Blocks(Compress, m + data, n)
      modifies state
      ensures 64 * (n + 1) <= |m + data| && RegsOf(state[..]) == Blocks(Compress, m + data, n + 1)
    {
      BlockOfData(m, data, n, i);
      Transform(state, data[i..i + 64]);
    }

    method FillBlock(j: nat, data: seq<byte>) returns (i: nat)
      requires state.Length == 5 && buffer.Length == 64 && j == |message| % 64 && j + |data| > 63
      requires RegsOf(state[..]) == Blocks(Compress, message, |message| / 64)
      requires buffer[..j] == message[64 * (|message| / 64)..]
      modifies state, buffer
      ensures 0 < i <= |data| && |message| + i == 64 * (|message| / 64 + 1)
      ensures RegsOf(state[..]) == Blocks(Compress, message + data, |message| / 64 + 1)
    {
      ghost var n := |message| / 64;
      BlocksOfPrefix(Compress, message, data, n);
      i := 64 - j;
      Copy(buffer, j, data[..i]);
      FilledIsBlock(message, data, n, i, buffer[..]);
      BlocksNext(Compress, message + data, n, buffer[..]);
      Transform(state, buffer[..]);
    }

    /** sha1_final: the digest of everything taken in, however it was cut into pieces. */
    method Final() returns (digest: seq<byte>)
      requires Valid()
      modifies this, state, buffer
      ensures digest == Digest(old(message))
    {
      ghost var m := message;
      var finalCount := FinalCount(low, high);
      FinalCountIsLength(low, high, |m|);
      Pad();
      Update(finalCount);
      digest := DigestOf(RegsOf(state[..]));
    }

    method Pad()
      requires Valid()
      modifies this, state, buffer
      ensures Valid() && message == old(message) + [0x80] + Zeros(ZeroCount(|old(message)|))
    {
      ghost var m, k := message, 0;
      Update([0x80]);
      assert m + [0x80] + Zeros(0) == m + [0x80];
      while low / 8 % 64 != 56
        invariant Valid() && k <= ZeroCount(|m|) && message == m + [0x80] + Zeros(k)
        decreases ZeroCount(|m|) - k
      {
        PaddedEnough(low, high, m, k);
        PadByte(m, k);
        k := k + 1;
      }
      PaddedEnough(low, high, m, k);
    }

    method PadByte(ghost m: seq<byte>, ghost k: nat)
      requires Valid() && k < ZeroCount(|m|) && message == m + [0x80] + Zeros(k)
      modifies this, state, buffer
      ensures Valid() && message == m + [0x80] + Zeros(k + 1)
    {
      PadGrows(m, k);
      Update([0]);
    }
  }

  /** memcpy. */
  method Copy(buffer: array<byte>, at: nat, data: seq<byte>)
    requires at + |data| <= buffer.Length
    modifies buffer
    ensures buffer[..at + |data|] == old(buffer[..at]) + data
  {
    forall k | 0 <= k < |data| {
      buffer[at + k] := data[k];
    }
  }

  lemma FilledIsBlock(m: seq<byte>, data: seq<byte>, n: nat, i: nat, block: seq<byte>)
    requires 64 * n <= |m| < 64 * (n + 1) == |m| + i && i <= |data| && block == m[64 * n..] + data[..i]
    ensures block == (m + data)[64 * n..64 * (n + 1)]
  {
  }

  lemma BlockOfData(m: seq<byte>, data: seq<byte>, n: nat, i: nat)
    requires |m| + i == 64 * n && i + 64 <= |data|
    ensures 64 * (n + 1) <= |m + data|
    ensures Blocks(Compress, m + data, n + 1) == Compress(Blocks(Compress, m + data, n), data[i..i + 64])
  {
    assert data[i..i + 64] == (m + data)[64 * n..64 * (n + 1)];
    BlocksNext(Compress, m + data, n, data[i..i + 64]);
  }

  /** Less than a block is left over, after whole blocks or in the block the message was in. */
  lemma RestIsTail(m: seq<byte>, data: seq<byte>, n: nat, i: nat, rest: seq<byte>)
    requires i <= |data| && 64 * n <= |m| + |data| < 64 * (n + 1)
    requires if i == 0 && |m| >= 64 * n then rest == m[64 * n..] + data else |m| + i == 64 * n && rest == data[i..]
    ensures |m + data| / 64 == n && |m + data| % 64 == |rest| && rest == (m + data)[64 * n..]
  {
  }

  lemma BlocksNext(f: (Regs, seq<byte>) -> Regs, m: seq<byte>, n: nat, block: seq<byte>)
    requires 64 * (n + 1) <= |m| && block == m[64 * n..64 * (n + 1)]
    ensures Blocks(f, m, n + 1) == f(Blocks(f, m, n), block)
  {
  }

  function Joined(pieces: seq<seq<byte>>): seq<byte> {
    if pieces == [] then [] else Joined(pieces[..|pieces| - 1]) + pieces[|pieces| - 1]
  }

  /** However a message is cut into sha1_update calls, the digest is that of the padded message. */
  method DigestOfPieces(pieces: seq<seq<byte>>) returns (digest: seq<byte>)
    requires forall k: nat :: k < |pieces| ==> Fits(Joined(pieces[..k]), pieces[k])
    ensures digest == Digest(Joined(pieces))
  {
    var context := new Sha1Context();
    for k := 0 to |pieces|
      invariant context.Valid() && fresh(context) && fresh(context.state) && fresh(context.buffer)
      invariant context.message == Joined(pieces[..k])
    {
      context.Update(pieces[k]);
      assert pieces[..k + 1][..k] == pieces[..k];
    }
    assert pieces[..|pieces|] == pieces;
    digest := context.Final();
  }
}
