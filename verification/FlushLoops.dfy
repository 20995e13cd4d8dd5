/** The line-covering loops of cxl_memory_sharing/rw_info.c. Addresses are those of user space. */
module FlushLoops {
  /** `line` is the address of a cache line of 64 bytes that holds a byte of [addr, addr + len). */
  predicate Touches(line: nat, addr: nat, len: nat) {
    line % 64 == 0 && line < addr + len && addr < line + 64
  }

  predicate Increasing(lines: seq<nat>) {
    forall i, j :: 0 <= i < j < |lines| ==> lines[i] < lines[j]
  }

  /** Every line with a byte in the range, each once, in order, and no other. An empty range may have its own line. */
  ghost predicate Covers(lines: seq<nat>, addr: nat, len: nat) {
    Increasing(lines) && forall line: nat :: line in lines <==> Touches(line, addr, len)
  }

  /** `count` consecutive cache lines, from `first` up. */
  function LinesFrom(first: nat, count: nat): (lines: seq<nat>) {
    seq(count, k requires 0 <= k => first + 64 * k)
  }

  /** Consecutive lines are those between their ends. */
  lemma LinesAreBetween(first: nat, count: nat, line: nat)
    requires first % 64 == 0
    ensures line in LinesFrom(first, count) <==> line % 64 == 0 && first <= line < first + 64 * count
  {
    if line % 64 == 0 && first <= line < first + 64 * count {
      assert LinesFrom(first, count)[(line - first) / 64] == line;
    }
  }

  lemma LinesCover(first: nat, count: nat, addr: nat, len: nat)
    requires first % 64 == 0 && first <= addr < first + 64
    requires addr + len <= first + 64 * count < addr + len + 64
    ensures Covers(LinesFrom(first, count), addr, len)
  {
    forall line: nat ensures line in LinesFrom(first, count) <==> Touches(line, addr, len) {
      LinesAreBetween(first, count, line);
    }
  }

  /** The bound of the loop of __cflush, which is computed without a sign. */
  function Bound(addr: nat, len: nat): nat {
    (addr + len + 0x1_0000_0000_0000_0000 - 64) % 0x1_0000_0000_0000_0000
  }

  lemma BoundIs(addr: nat, len: nat)
    requires addr + len < 0x8000_0000_0000_0000
    ensures Bound(addr, len) == if addr + len < 64 then addr + len + 0xFFFF_FFFF_FFFF_FFC0 else addr + len - 64
  {
  }

  /**
   * __cflush, as the lines it flushes in order; the last one comes after the fence. It covers the range, and for an
   * empty range the line of its address. Below the first 64 bytes, where no program maps memory, the bound wraps, and
   * the loop flushes on and on.
   */
  method Cflush(addr: nat, len: nat) returns (lines: seq<nat>)
    requires addr + len < 0x8000_0000_0000_0000
    ensures forall i, j :: 0 <= i < j < |lines| ==> lines[i] < lines[j]
    ensures addr + len >= 64 && len >= 1 ==>
            forall line: nat :: line in lines <==> line % 64 == 0 && line < addr + len && addr < line + 64
    ensures addr + len >= 64 ==> Covers(lines, addr, if len == 0 then 1 else len)
    ensures (exists line :: line in lines && line >= addr + len + 64) <==> addr + len < 64
    ensures addr + len < 64 ==> Covers(lines, 0, addr + len + 0xFFFF_FFFF_FFFF_FFC0 + 64)
  {
    lines := [];
    var first := addr - addr % 64;
    var ptr, end := first, Bound(addr, len);
    BoundIs(addr, len);
    while ptr < end
      invariant ptr == first + 64 * |lines| && lines == LinesFrom(first, |lines|)
      invariant |lines| > 0 ==> ptr < end + 64
    {
      lines := lines + [ptr];
      ptr := ptr + 64;
    }
    lines := lines + [ptr];
    assert lines == LinesFrom(first, |lines|);
    if addr + len >= 64 {
      LinesCover(first, |lines|, addr, if len == 0 then 1 else len);
    } else {
      LinesCover(0, |lines|, 0, end + 64);
      assert lines[2] == 128;
      assert 128 in lines;
    }
  }

  /** __cflushopt, likewise; an empty range that starts a line has none. */
  method Cflushopt(addr: nat, len: nat) returns (lines: seq<nat>)
    requires addr + len < 0x8000_0000_0000_0000
    ensures forall i, j :: 0 <= i < j < |lines| ==> lines[i] < lines[j]
    ensures forall line: nat :: line in lines <==> line % 64 == 0 && line < addr + len && addr < line + 64
    ensures Covers(lines, addr, len)
  {
    lines := [];
    var first := addr - addr % 64;
    var ptr := first;
    while ptr < addr + len
      invariant ptr == first + 64 * |lines| && lines == LinesFrom(first, |lines|)
      invariant |lines| > 0 ==> ptr < addr + len + 64
    {
      lines := lines + [ptr];
      ptr := ptr + 64;
    }
    if addr % 64 + len > 0 {
      LinesCover(first, |lines|, addr, len);
    }
  }

  /** A range has one covering. */
  lemma {:induction false} CoversOnce(lines: seq<nat>, more: seq<nat>, addr: nat, len: nat, k: nat)
    requires Covers(lines, addr, len) && Covers(more, addr, len) && k <= |lines|
    ensures k <= |more| && lines[..k] == more[..k]
  {
    if k > 0 {
      CoversOnce(lines, more, addr, len, k - 1);
      var line := lines[k - 1];
      assert line in lines && line in more;
      forall j: nat | j < k - 1 ensures lines[j] == more[j] { assert lines[..k - 1][j] == more[..k - 1][j]; }
      assert k <= |more|;
      assert more[k - 1] in more && more[k - 1] in lines;
    }
  }

  /**
   * What either loop flushes of a block of whole lines is its lines in order: the FlushNext and InvalidateNext events
   * of SharedBlocks.
   */
  lemma BlockLines(lines: seq<nat>, base: nat, count: nat)
    requires base % 64 == 0 && Covers(lines, base, 64 * count)
    ensures |lines| == count && forall k: nat :: k < count ==> lines[k] == base + 64 * k
  {
    var all := LinesFrom(base, count);
    LinesCover(base, count, base, 64 * count);
    CoversOnce(lines, all, base, 64 * count, |lines|);
    CoversOnce(all, lines, base, 64 * count, count);
  }
}
