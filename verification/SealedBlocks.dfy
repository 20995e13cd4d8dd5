/** The checksum at the end of a block: how writers put it there, and what a reader finds. */
module SealedBlocks {
  import Crc
  import M = SharedMemory
  import S = SharedBlocks
  import L = LockProtocol
  import H = Handoff
  import opened Wrappers

  type byte = bv8

  /** A 32-bit word stored at a char pointer of a little-endian host, and loaded back. */
  function Stored(w: bv32): (s: seq<byte>)
    ensures |s| == 4
  {
    [(w & 0xff) as byte, ((w >> 8) & 0xff) as byte, ((w >> 16) & 0xff) as byte, ((w >> 24) & 0xff) as byte]
  }

  function Loaded(s: seq<byte>): bv32
    requires |s| == 4
  {
    (s[0] as bv32) | ((s[1] as bv32) << 8) | ((s[2] as bv32) << 16) | ((s[3] as bv32) << 24)
  }

  lemma LoadedStored(w: bv32)
    ensures Loaded(Stored(w)) == w
  {
  }

  /** The lowest byte comes first. */
  lemma LoadedIs(s: seq<byte>)
    requires |s| == 4
    ensures Loaded(s)
         == (s[0] as bv32) + 0x100 * (s[1] as bv32) + 0x1_0000 * (s[2] as bv32) + 0x100_0000 * (s[3] as bv32)
  {
  }

  /** The last four bytes as a word. */
  function Trailer(data: seq<byte>): bv32
    requires |data| >= 4
  {
    Loaded(data[|data| - 4..])
  }

  predicate Sealed(data: seq<byte>) {
    |data| >= 4 && Crc.Crc32(data[..|data| - 4]) == Trailer(data)
  }

  /** What the writer does to its buffer between filling it and asking for the lock. */
  method Seal(data: array<byte>)
    requires 4 <= data.Length <= 0x1_0000_0000
    modifies data
    ensures Sealed(data[..]) && data[..data.Length - 4] == old(data[..data.Length - 4])
  {
    var n := data.Length - 4;
    var crc := Crc.CalculateCrc32(data[..n]);
    var word := Stored(crc);
    data[n], data[n + 1], data[n + 2], data[n + 3] := word[0], word[1], word[2], word[3];
    assert data[..][n..] == word;
    assert data[..][..n] == old(data[..n]);
    LoadedStored(crc);
  }

  /** The bytes of a block, line after line. */
  function Flatten(block: M.Block): seq<byte> {
    if block == [] then [] else Flatten(block[..|block| - 1]) + block[|block| - 1]
  }

  predicate SealedBlock(block: M.Block) {
    (forall line <- block :: |line| == 64) && Sealed(Flatten(block))
  }

  lemma TrailerIsInLastLine(block: M.Block)
    requires SealedBlock(block)
    ensures block != [] && |block[|block| - 1]| == 64 && Trailer(Flatten(block)) == Trailer(block[|block| - 1])
  {
    var last := block[|block| - 1];
    assert last in block;
    var all := Flatten(block);
    assert all[|all| - 4..] == last[60..];
  }

  /**
   * The reader's comparison never fails: the checksum of its copy equals the copy's trailer, and equals the trailer
   * it loads from shared memory through its own cache.
   */
  lemma ReaderCrcMatches(origin: S.World, es: seq<S.Event>, w: S.World, c: nat)
    requires S.Start(origin) && S.Run(origin, es, SealedBlock) == Some(w)
    requires c < |w.work| && w.work[c].Checked?
    ensures S.HoldsLock(w, c, L.Read)
    ensures var copy := Flatten(w.work[c].got);
            var line := M.Value(w.store, w.hostOf[c], M.Addr(S.HeldBlock(w, c), S.LINES - 1));
            |copy| >= 4 && |line| == 64 && Crc.Crc32(copy[..|copy| - 4]) == Trailer(copy) == Trailer(line)
  {
    S.ReadersGetLatest(origin, es, w, c, SealedBlock);
    TrailerIsInLastLine(w.work[c].got);
  }

  /** Every buffer the producer picks up is sealed before it looks at the flag. */
  predicate OnlySealed(es: seq<H.Event>) {
    forall e <- es :: e.SeeClear? ==> SealedBlock(e.data)
  }

  predicate SealedSoFar(s: H.Link) {
    && (forall data <- s.published :: SealedBlock(data))
    && (s.producer.Storing? || s.producer.Flushing? ==> SealedBlock(s.producer.data))
  }

  lemma EventKeepsSealed(e: H.Event, s: H.Link, whole: bool)
    requires SealedSoFar(s) && H.Enabled(e, s, whole) && (e.SeeClear? ==> SealedBlock(e.data))
    ensures SealedSoFar(H.Apply(e, s, whole))
  {
    var t := H.Apply(e, s, whole);
    assert t.published == if e.Publish? then s.published + [s.producer.data] else s.published;
  }

  lemma {:induction false} PublishedAreSealed(origin: H.Link, es: seq<H.Event>, whole: bool)
    requires H.Start(origin) && H.Run(origin, es, whole).Some? && OnlySealed(es)
    ensures SealedSoFar(H.Run(origin, es, whole).value)
    decreases |es|
  {
    if es != [] {
      var front := es[..|es| - 1];
      assert es[|es| - 1] in es;
      PublishedAreSealed(origin, front, whole);
      EventKeepsSealed(es[|es| - 1], H.Run(origin, front, whole).value, whole);
    }
  }

  /** The consumer's assertion on the payload it copied never fails. */
  lemma HandoffCrcMatches(origin: H.Link, es: seq<H.Event>, s: H.Link, k: nat)
    requires H.Start(origin) && H.Run(origin, es, true) == Some(s) && OnlySealed(es) && k < |s.consumed|
    ensures var copy := Flatten(s.consumed[k]);
            k < |s.published| && s.consumed[k] == s.published[k] && |copy| >= 4
              && Crc.Crc32(copy[..|copy| - 4]) == Trailer(copy)
  {
    H.ConsumedIsPublished(origin, es, s);
    PublishedAreSealed(origin, es, true);
    assert s.published[k] in s.published;
  }
}
