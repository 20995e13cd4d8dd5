/**
 * The block-aligned ring of wal_accel/src/aofguard.c: forward movement, wrapped slices and the packed metadata word.
 */
module Ring {
  type byte = bv8

  const LEN_LIMIT: nat := 0x1_0000_0000_0000 // the 48 bits that hold fsync_len

  // What the accelerator divides by is fixed, so the proofs see quotient and remainder as repeated subtraction; the
  // code below computes them with the operators.

  ghost function Quot(n: nat, d: nat): nat
    requires d > 0
  {
    if n < d then 0 else 1 + Quot(n - d, d)
  }

  ghost function Rem(n: nat, d: nat): (r: nat)
    requires d > 0
    ensures r < d
  {
    if n < d then n else Rem(n - d, d)
  }

  lemma {:induction false} QuotRem(n: nat, d: nat)
    requires d > 0
    ensures n == Quot(n, d) * d + Rem(n, d)
  {
    if n >= d {
      QuotRem(n - d, d);
      assert Quot(n, d) * d == Quot(n - d, d) * d + d;
    }
  }

  lemma {:induction false} QuotRemUnique(q: nat, r: nat, d: nat)
    requires d > 0 && r < d
    ensures Quot(q * d + r, d) == q && Rem(q * d + r, d) == r
  {
    if q > 0 {
      assert q * d + r - d == (q - 1) * d + r;
      QuotRemUnique(q - 1, r, d);
    }
  }

  lemma DivisionOperators(n: nat, d: nat)
    requires d > 0
    ensures Quot(n, d) == n / d && Rem(n, d) == n % d
  {
    var q, r := n / d, n % d;
    assert n == q * d + r;
    QuotRemUnique(q, r, d);
  }

  /** Counting in blocks of BLOCK_SIZE, 1 << 20 bytes. */
  function Bytes(blocks: nat): nat {
    blocks * 0x10_0000
  }

  ghost function Blocks(n: nat): nat {
    Quot(n, 0x10_0000)
  }

  ghost function InBlock(n: nat): (r: nat)
    ensures r < Bytes(1)
  {
    Rem(n, 0x10_0000)
  }

  lemma BlocksAndRest(n: nat)
    ensures n == Bytes(Blocks(n)) + InBlock(n)
  {
    QuotRem(n, 0x10_0000);
  }

  lemma {:induction false} SameWithinBlock(n: nat, blocks: nat)
    ensures InBlock(n + Bytes(blocks)) == InBlock(n)
  {
    if blocks > 0 {
      SameWithinBlock(n, blocks - 1);
      assert n + Bytes(blocks) - 0x10_0000 == n + Bytes(blocks - 1);
    }
  }

  /** The capacities that aofguard_init accepts: 2 to 65536 whole blocks. */
  ghost predicate ValidCapacity(cap: nat) {
    InBlock(cap) == 0 && Bytes(2) <= cap <= Bytes(0x1_0000)
  }

  /** The metadata word: the low 48 bits of the length, and 16 bits of start block above them. */
  ghost function MakeMeta(fsyncLen: nat, start: nat): nat {
    Rem(fsyncLen, 0x1_0000_0000_0000) + Rem(Blocks(start), 0x1_0000) * 0x1_0000_0000_0000
  }

  ghost function MetaFsyncLen(meta: nat): nat {
    Rem(meta, 0x1_0000_0000_0000)
  }

  ghost function MetaStart(meta: nat): nat {
    Bytes(Rem(Quot(meta, 0x1_0000_0000_0000), 0x1_0000))
  }

  lemma BlocksBelow(n: nat, limit: nat)
    requires n < Bytes(limit)
    ensures Blocks(n) < limit
  {
    BlocksAndRest(n);
  }

  /** The packed word fits 64 bits, and decodes to what was packed for exactly the aligned starts and 48-bit lengths. */
  lemma MetaRoundTrip(fsyncLen: nat, start: nat)
    requires start < Bytes(0x1_0000)
    ensures MakeMeta(fsyncLen, start) < 0x1_0000_0000_0000_0000
    ensures MetaFsyncLen(MakeMeta(fsyncLen, start)) == fsyncLen <==> fsyncLen < LEN_LIMIT
    ensures MetaStart(MakeMeta(fsyncLen, start)) == start <==> InBlock(start) == 0
  {
    BlocksBelow(start, 0x1_0000);
    BlocksAndRest(start);
    QuotRemUnique(Blocks(start), Rem(fsyncLen, 0x1_0000_0000_0000), 0x1_0000_0000_0000);
  }

  // The same, computed.

  method BlocksOf(n: nat) returns (blocks: nat)
    ensures blocks == Blocks(n)
  {
    blocks := n / 0x10_0000;
    DivisionOperators(n, 0x10_0000);
  }

  method RestOf(n: nat) returns (rest: nat)
    ensures rest == InBlock(n)
  {
    rest := n % 0x10_0000;
    DivisionOperators(n, 0x10_0000);
  }

  /** MAKE_MIXED_META. */
  method PackMeta(fsyncLen: nat, start: nat) returns (meta: nat)
    ensures meta == MakeMeta(fsyncLen, start)
  {
    var blocks := BlocksOf(start);
    meta := fsyncLen % 0x1_0000_0000_0000 + blocks % 0x1_0000 * 0x1_0000_0000_0000;
    DivisionOperators(fsyncLen, 0x1_0000_0000_0000);
    DivisionOperators(blocks, 0x1_0000);
  }

  /** GET_FSYNC_LEN and GET_BUF_START. */
  method UnpackMeta(meta: nat) returns (fsyncLen: nat, start: nat)
    ensures fsyncLen == MetaFsyncLen(meta) && start == MetaStart(meta)
  {
    fsyncLen := meta % 0x1_0000_0000_0000;
    start := meta / 0x1_0000_0000_0000 % 0x1_0000 * 0x10_0000;
    DivisionOperators(meta, 0x1_0000_0000_0000);
    DivisionOperators(meta / 0x1_0000_0000_0000, 0x1_0000);
  }

  /** RING_BUF_FORWARD and RING_BUF_END: one conditional subtraction stands for the modulo. */
  function Forward(pos: nat, n: nat, cap: nat): (r: nat)
    requires pos < cap && n <= cap
    ensures r < cap
  {
    if pos + n >= cap then pos + n - cap else pos + n
  }

  /** The `n` bytes that start at `pos`, read in the two pieces recovery writes. */
  function Slice(ring: seq<byte>, pos: nat, n: nat): (s: seq<byte>)
    requires pos < |ring| && n <= |ring|
    ensures |s| == n
  {
    if pos + n <= |ring| then ring[pos..pos + n] else ring[pos..] + ring[..pos + n - |ring|]
  }

  /** How far the ring index `i` lies ahead of `pos`. */
  function Distance(pos: nat, i: nat, cap: nat): (k: nat)
    requires pos < cap && i < cap
    ensures k < cap && Forward(pos, k, cap) == i
  {
    if i >= pos then i - pos else i + cap - pos
  }

  /** `after` differs from `ring` only inside the `n` bytes that start at `pos`. */
  predicate OnlyWithin(ring: seq<byte>, after: seq<byte>, pos: nat, n: nat)
    requires pos < |ring|
  {
    && |after| == |ring|
    && forall i: nat :: i < |ring| && Distance(pos, i, |ring|) >= n ==> after[i] == ring[i]
  }

  lemma SliceElements(ring: seq<byte>, pos: nat, n: nat)
    requires pos < |ring| && n <= |ring|
    ensures forall i: nat :: i < n ==> Slice(ring, pos, n)[i] == ring[Forward(pos, i, |ring|)]
  {
  }

  lemma SliceDrop(ring: seq<byte>, pos: nat, n: nat, m: nat)
    requires pos < |ring| && m <= n <= |ring|
    ensures Slice(ring, Forward(pos, m, |ring|), n - m) == Slice(ring, pos, n)[m..]
  {
    var cap := |ring|;
    if pos + n <= cap {
      assert ring[pos..pos + n][m..] == ring[pos + m..pos + n];
    } else if pos + m < cap {
      assert (ring[pos..] + ring[..pos + n - cap])[m..] == ring[pos + m..] + ring[..pos + n - cap];
    } else {
      assert (ring[pos..] + ring[..pos + n - cap])[m..] == ring[pos + m - cap..pos + n - cap];
    }
  }

  lemma SliceConcat(ring: seq<byte>, pos: nat, n: nat, m: nat)
    requires pos < |ring| && n + m <= |ring|
    ensures Slice(ring, pos, n + m) == Slice(ring, pos, n) + Slice(ring, Forward(pos, n, |ring|), m)
  {
    var whole := Slice(ring, pos, n + m);
    SliceDrop(ring, pos, n + m, n);
    assert whole[..n] == Slice(ring, pos, n);
    assert whole == whole[..n] + whole[n..];
  }

  /** Stores behind the live bytes leave them alone: no write touches a live byte. */
  lemma SliceFrame(ring: seq<byte>, after: seq<byte>, pos: nat, live: nat, n: nat)
    requires pos < |ring| && live + n <= |ring|
    requires OnlyWithin(ring, after, Forward(pos, live, |ring|), n)
    ensures Slice(after, pos, live) == Slice(ring, pos, live)
  {
    SliceElements(ring, pos, live);
    SliceElements(after, pos, live);
    var cap := |ring|;
    var end := Forward(pos, live, cap);
    forall i: nat | i < live
      ensures Slice(after, pos, live)[i] == Slice(ring, pos, live)[i]
    {
      assert Distance(end, Forward(pos, i, cap), cap) >= n;
    }
  }

  /** The live ring bytes are the file bytes from `from` on. */
  predicate Mirrors(ring: seq<byte>, pos: nat, live: nat, file: seq<byte>, from: nat)
    requires pos < |ring| && live <= |ring|
  {
    from + live <= |file| && Slice(ring, pos, live) == file[from..from + live]
  }

  lemma MirrorsDrop(ring: seq<byte>, pos: nat, live: nat, file: seq<byte>, from: nat, n: nat)
    requires pos < |ring| && n <= live <= |ring| && Mirrors(ring, pos, live, file, from)
    ensures Mirrors(ring, Forward(pos, n, |ring|), live - n, file, from + n)
  {
    SliceDrop(ring, pos, live, n);
    assert file[from..from + live][n..] == file[from + n..from + live];
  }

  lemma SliceOfAppend(head: seq<byte>, from: nat, data: seq<byte>)
    requires from <= |head|
    ensures (head + data)[from..|head| + |data|] == (head + data)[from..|head|] + data
  {
  }

  /** The file is written first, then the ring behind its live bytes; together they mirror again. */
  lemma MirrorsExtend(ring: seq<byte>, pos: nat, live: nat, head: seq<byte>, from: nat, data: seq<byte>)
    requires pos < |ring| && live + |data| <= |ring| && |head| == from + live
    requires Mirrors(ring, pos, live, head + data, from)
    requires Slice(ring, Forward(pos, live, |ring|), |data|) == data
    ensures Mirrors(ring, pos, live + |data|, head + data, from)
  {
    SliceConcat(ring, pos, live, |data|);
    SliceOfAppend(head, from, data);
  }
}
