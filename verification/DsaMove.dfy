/**
 * The batched mover of cxl_memory_sharing/dsa_move.c: jobs submitted to slots that are reused once they are waited for.
 */
module DsaMove {
  type byte = bv8

  /** One move under way: `len` bytes at offset `at` of both buffers. */
  datatype Slot = Free | Busy(at: nat, len: nat)

  datatype Piece = Piece(at: nat, len: nat)

  /** The pieces follow each other without gap or overlap from 0 to `end`, and none is empty or above `limit`. */
  predicate Partition(pieces: seq<Piece>, end: nat, limit: nat) {
    if pieces == [] then end == 0
    else
      var last := pieces[|pieces| - 1];
      last.at + last.len == end && 0 < last.len <= limit && Partition(pieces[..|pieces| - 1], last.at, limit)
  }

  /** Piece k starts k blocks in, so that all but the last are full. */
  predicate Strided(pieces: seq<Piece>, block: nat) {
    forall k: nat :: k < |pieces| ==> pieces[k].at == Blocks(k, block)
  }

  /** Full blocks up to `end`. */
  predicate FullTo(pieces: seq<Piece>, end: nat, block: nat) {
    Partition(pieces, end, block) && Strided(pieces, block) && end == Blocks(|pieces|, block)
  }

  /** The pieces are those that cutting the range into blocks gives: all full but the last, as many as are needed. */
  lemma PiecesAreBlocks(pieces: seq<Piece>, end: nat, block: nat, k: nat)
    requires Partition(pieces, end, block) && Strided(pieces, block) && k < |pieces|
    ensures pieces[k].at == k * block
    ensures pieces[k].len == if k < |pieces| - 1 then block else end - k * block
    ensures (|pieces| - 1) * block < end <= |pieces| * block
  {
    var n := |pieces| - 1;
    BlocksIsProduct(k, block);
    BlocksIsProduct(n, block);
    assert (n + 1) * block == n * block + block;
    if k < n {
      PiecesAreBlocks(pieces[..n], pieces[n].at, block, k);
      BlocksIsProduct(k + 1, block);
    }
  }

  /** Every byte below `end` is in exactly one piece. */
  lemma {:induction false} PartitionCovers(pieces: seq<Piece>, end: nat, limit: nat, x: nat)
    requires Partition(pieces, end, limit)
    ensures x < end <==> exists k: nat :: k < |pieces| && pieces[k].at <= x < pieces[k].at + pieces[k].len
    ensures forall j: nat, k: nat ::
              j < |pieces| && k < |pieces| && pieces[j].at <= x < pieces[j].at + pieces[j].len
                && pieces[k].at <= x < pieces[k].at + pieces[k].len
              ==> j == k
    ensures forall k: nat :: k < |pieces| ==> 0 < pieces[k].len <= limit && pieces[k].at + pieces[k].len <= end
    decreases |pieces|
  {
    if pieces != [] {
      var n := |pieces| - 1;
      PartitionCovers(pieces[..n], pieces[n].at, limit, x);
      if pieces[n].at <= x < end {
        assert pieces[n].at <= x < pieces[n].at + pieces[n].len;
      }
      forall k: nat | k < n ensures pieces[..n][k] == pieces[k] {}
    }
  }

  /** The end of what slots 0 to k have under way, the first of them starting at `base`. */
  function EndOf(slots: seq<Slot>, k: nat, base: nat): nat {
    if k == 0 || k > |slots| || slots[k - 1].Free? then base else slots[k - 1].at + slots[k - 1].len
  }

  /** Slots 0 to n - 1 are busy with consecutive pieces from `base` on; the others are free. */
  predicate InFlight(slots: seq<Slot>, n: nat, base: nat) {
    && n <= |slots|
    && (forall k: nat :: k < n ==> slots[k].Busy?)
    && (forall k: nat {:trigger EndOf(slots, k, base)} :: k < n ==> slots[k].at == EndOf(slots, k, base))
    && (forall k: nat :: n <= k < |slots| ==> slots[k].Free?)
  }

  /** `dest` with the bytes of `source` from `at` to `end`. */
  function Filled(dest: seq<byte>, source: seq<byte>, at: nat, end: nat): seq<byte>
    requires at <= end <= |source| && end <= |dest|
  {
    dest[..at] + source[at..end] + dest[end..]
  }

  /** The size of n blocks. */
  function Blocks(n: nat, block: nat): nat {
    if n == 0 then 0 else Blocks(n - 1, block) + block
  }

  lemma {:induction false} BlocksIsProduct(n: nat, block: nat)
    ensures Blocks(n, block) == n * block
  {
    if n > 0 {
      BlocksIsProduct(n - 1, block);
      assert n * block == (n - 1) * block + block;
    }
  }

  /** max_move, in 64 bits. */
  function MaxMove(block: nat, jobs: nat): nat {
    block * jobs % 0x1_0000_0000_0000_0000
  }

  /** The batch loop is entered with less left than one batch takes: the remaining size would underflow. */
  predicate Overdrawn(size: nat, block: nat, jobs: nat) {
    MaxMove(block, jobs) < size < jobs * block
  }

  /** That happens exactly when the product wraps and the size is above what is left of it. */
  lemma OverdrawnWhen(size: nat, block: nat, jobs: nat)
    requires size < 0x1_0000_0000_0000_0000
    ensures Overdrawn(size, block, jobs) <==> block * jobs >= 0x1_0000_0000_0000_0000 && MaxMove(block, jobs) < size
    ensures MaxMove(block, jobs) <= jobs * block
    ensures !Overdrawn(size, block, jobs) && MaxMove(block, jobs) < size ==> MaxMove(block, jobs) == jobs * block
  {
  }

  class Engine {
    const source: seq<byte>
    const dest: array<byte>
    const slots: array<Slot>
    ghost var pieces: seq<Piece> // submitted, in order

    /** The job slots are no part of the buffers. */
    predicate Apart() {
      (dest as object) != (slots as object)
    }

    constructor (source: seq<byte>, dest: array<byte>, jobNum: nat)
      ensures this.source == source && this.dest == dest && fresh(slots) && slots.Length == jobNum
      ensures Apart() && InFlight(slots[..], 0, 0)
    {
      this.source, this.dest, pieces := source, dest, [];
      slots := new Slot[jobNum](_ => Free);
    }

    /** dml_submit_job. A slot may not be submitted again before it has been waited for. */
    method Submit(i: nat, at: nat, len: nat)
      requires i < slots.Length && slots[i].Free? && at + len <= |source| && at + len <= dest.Length
      modifies slots, this`pieces
      ensures slots[..] == old(slots[..])[i := Busy(at, len)] && pieces == old(pieces) + [Piece(at, len)]
    {
      slots[i] := Busy(at, len);
      pieces := pieces + [Piece(at, len)];
    }

    /** dml_wait_job: only then are the bytes there. */
    method Wait(i: nat)
      requires Apart() && i < slots.Length && slots[i].Busy?
      requires slots[i].at + slots[i].len <= |source| && slots[i].at + slots[i].len <= dest.Length
      modifies slots, dest
      ensures slots[..] == old(slots[..])[i := Free]
      ensures var at, end := old(slots[i].at), old(slots[i].at + slots[i].len);
              dest[..] == Filled(old(dest[..]), source, at, end)
    {
      var at, end := slots[i].at, slots[i].at + slots[i].len;
      Arrive(at, end);
      slots[i] := Free;
    }

    method Arrive(at: nat, end: nat)
      requires at <= end <= |source| && end <= dest.Length
      modifies dest
      ensures dest[..] == Filled(old(dest[..]), source, at, end)
    {
      forall k | at <= k < end {
        dest[k] := source[k];
      }
    }

    /** The loop that waits for n jobs. */
    method WaitAll(n: nat, ghost base: nat, ghost end: nat)
      requires Apart() && InFlight(slots[..], n, base) && end == EndOf(slots[..], n, base)
      requires end <= |source| && end <= dest.Length
      modifies slots, dest
      ensures InFlight(slots[..], 0, end) && base <= end
      ensures dest[..] == Filled(old(dest[..]), source, base, end)
    {
      ghost var was, from := slots[..], dest[..];
      EndsGrow(was, n, base, 0, n);
      for i := 0 to n
        invariant slots[..] == Freed(was, i)
        invariant base <= EndOf(was, i, base) <= end
        invariant |from| == dest.Length && dest[..] == Filled(from, source, base, EndOf(was, i, base))
      {
        NextEnd(was, n, base, i);
        FreedNext(was, i);
        assert slots[i] == slots[..][i];
        WaitNext(i, from, base);
      }
    }

    method WaitNext(i: nat, ghost from: seq<byte>, ghost base: nat)
      requires Apart() && i < slots.Length && slots[i].Busy? && base <= slots[i].at
      requires slots[i].at + slots[i].len <= |source| && slots[i].at + slots[i].len <= dest.Length == |from|
      requires dest[..] == Filled(from, source, base, slots[i].at)
      modifies slots, dest
      ensures slots[..] == old(slots[..])[i := Free]
      ensures dest[..] == Filled(from, source, base, old(slots[i].at + slots[i].len))
    {
      Joined(from, source, base, slots[i].at, slots[i].at + slots[i].len);
      Wait(i);
    }

    /** The loop that submits one full block to every slot. */
    method SubmitAll(from: nat, block: nat) returns (at: nat)
      requires InFlight(slots[..], 0, from) && FullTo(pieces, from, block) && block > 0
      requires from + Blocks(slots.Length, block) <= |source| && from + Blocks(slots.Length, block) <= dest.Length
      modifies slots, this`pieces
      ensures at == from + Blocks(slots.Length, block) == EndOf(slots[..], slots.Length, from)
      ensures InFlight(slots[..], slots.Length, from) && FullTo(pieces, at, block)
    {
      at := from;
      for i := 0 to slots.Length
        invariant at == from + Blocks(i, block) == EndOf(slots[..], i, from)
        invariant InFlight(slots[..], i, from) && FullTo(pieces, at, block)
      {
        FitsBelow(i, slots.Length, block);
        SubmitOne(i, from, at, block, block);
        at := at + block;
      }
    }

    /** The loop and the last submission for what fits into one batch; how many slots that takes. */
    method SubmitRest(from: nat, size: nat, block: nat) returns (used: nat)
      requires InFlight(slots[..], 0, from) && FullTo(pieces, from, block) && block > 0
      requires from <= size <= |source| && size <= dest.Length && size - from <= Blocks(slots.Length, block)
      modifies slots, this`pieces
      ensures used <= slots.Length && InFlight(slots[..], used, from) && EndOf(slots[..], used, from) == size
      ensures Partition(pieces, size, block) && Strided(pieces, block)
    {
      var i, at := SubmitFull(from, size, block);
      used := i;
      if at < size {
        SubmitOne(i, from, at, size - at, block);
        used := i + 1;
      }
    }

    /** The loop: full blocks while more than one is left, and a slot stays for what remains. */
    method SubmitFull(from: nat, size: nat, block: nat) returns (i: nat, at: nat)
      requires InFlight(slots[..], 0, from) && FullTo(pieces, from, block) && block > 0
      requires from <= size <= |source| && size <= dest.Length && size - from <= Blocks(slots.Length, block)
      modifies slots, this`pieces
      ensures i <= slots.Length && InFlight(slots[..], i, from) && EndOf(slots[..], i, from) == at
      ensures FullTo(pieces, at, block) && at <= size <= at + block && (at < size ==> i < slots.Length)
    {
      var left: nat := size - from;
      at, i := from, 0;
      while i < slots.Length && left > block
        invariant i <= slots.Length && at + left == size && left <= Blocks(slots.Length - i, block)
        invariant at == EndOf(slots[..], i, from)
        invariant InFlight(slots[..], i, from) && FullTo(pieces, at, block)
      {
        OneLess(slots.Length - i, block, left);
        SubmitOne(i, from, at, block, block);
        at := at + block;
        left := left - block;
        if left < block {
          i := i + 1;
          break;
        }
        i := i + 1;
      }
    }

    /** One job more, behind those under way. */
    method SubmitOne(i: nat, ghost from: nat, at: nat, len: nat, ghost block: nat)
      requires i < slots.Length && InFlight(slots[..], i, from) && at == EndOf(slots[..], i, from)
      requires FullTo(pieces, at, block) && 0 < len <= block && at + len <= |source| && at + len <= dest.Length
      modifies slots, this`pieces
      ensures InFlight(slots[..], i + 1, from) && EndOf(slots[..], i + 1, from) == at + len
      ensures Partition(pieces, at + len, block) && Strided(pieces, block)
      ensures len == block ==> FullTo(pieces, at + len, block)
    {
      SubmitExtends(slots[..], i, from, len);
      PieceExtends(pieces, at, block, len);
      Submit(i, at, len);
    }

    /** dsa_move_data. */
    method MoveData(size: nat, block: nat)
      requires Apart() && InFlight(slots[..], 0, 0) && slots.Length >= 1 && block >= 1
      requires size <= |source| && size <= dest.Length
      requires size < 0x1_0000_0000_0000_0000 && !Overdrawn(size, block, slots.Length)
      modifies slots, dest, this`pieces
      ensures dest[..] == source[..size] + old(dest[size..])
      ensures Partition(pieces, size, block) && Strided(pieces, block) && InFlight(slots[..], 0, 0)
    {
      pieces := [];
      ghost var was := dest[..];
      FromStart(was, source, size);
      var at: nat, left: nat, maxMove := 0, size, MaxMove(block, slots.Length);
      OverdrawnWhen(size, block, slots.Length);
      BlocksIsProduct(slots.Length, block);
      while left > maxMove
        invariant at + left == size && InFlight(slots[..], 0, at) && FullTo(pieces, at, block)
        invariant at <= |was| && dest[..] == Filled(was, source, 0, at)
      {
        var end := SubmitAll(at, block);
        WaitAll(slots.Length, at, end);
        Joined(was, source, 0, at, end);
        left := left - maxMove;
        at := end;
      }
      var used := SubmitRest(at, size, block);
      WaitAll(used, at, size);
      Joined(was, source, 0, at, size);
    }
  }

  lemma {:induction false} FitsBelow(i: nat, n: nat, block: nat)
    requires i < n
    ensures Blocks(i + 1, block) == Blocks(i, block) + block <= Blocks(n, block)
    decreases n
  {
    if i < n - 1 {
      FitsBelow(i, n - 1, block);
    }
  }

  /** More than a block left for k slots: there is a slot to spare for what remains. */
  lemma OneLess(k: nat, block: nat, left: nat)
    requires block < left <= Blocks(k, block)
    ensures k >= 2 && left - block <= Blocks(k - 1, block)
  {
    assert k > 0 && Blocks(k, block) == Blocks(k - 1, block) + block;
  }

  lemma SubmitExtends(slots: seq<Slot>, n: nat, base: nat, len: nat)
    requires InFlight(slots, n, base) && n < |slots|
    ensures var t := slots[n := Busy(EndOf(slots, n, base), len)];
            InFlight(t, n + 1, base) && EndOf(t, n + 1, base) == EndOf(slots, n, base) + len
  {
    var t := slots[n := Busy(EndOf(slots, n, base), len)];
    forall k: nat | k < n + 1
      ensures t[k].at == EndOf(t, k, base)
    {
      assert EndOf(t, k, base) == EndOf(slots, k, base);
    }
  }

  /** One piece more, full or not. */
  lemma PieceExtends(pieces: seq<Piece>, end: nat, block: nat, len: nat)
    requires FullTo(pieces, end, block) && 0 < len <= block
    ensures var more := pieces + [Piece(end, len)];
            && Partition(more, end + len, block) && Strided(more, block)
            && (len == block ==> FullTo(more, end + len, block))
  {
    var more := pieces + [Piece(end, len)];
    assert more[..|more| - 1] == pieces;
  }

  lemma FromStart(dest: seq<byte>, source: seq<byte>, end: nat)
    requires end <= |source| && end <= |dest|
    ensures Filled(dest, source, 0, 0) == dest && Filled(dest, source, 0, end) == source[..end] + dest[end..]
  {
  }

  lemma Joined(from: seq<byte>, source: seq<byte>, base: nat, mid: nat, end: nat)
    requires base <= mid <= end <= |source| && end <= |from|
    ensures Filled(Filled(from, source, base, mid), source, mid, end) == Filled(from, source, base, end)
  {
  }

  /** The slots after the first i have been waited for. */
  function Freed(slots: seq<Slot>, i: nat): (t: seq<Slot>)
    ensures |t| == |slots|
  {
    seq(|slots|, k requires 0 <= k < |slots| => if k < i then Free else slots[k])
  }

  lemma FreedNext(slots: seq<Slot>, i: nat)
    requires i < |slots|
    ensures Freed(slots, i)[i] == slots[i] && Freed(slots, i)[i := Free] == Freed(slots, i + 1)
  {
  }

  lemma NextEnd(slots: seq<Slot>, n: nat, base: nat, i: nat)
    requires InFlight(slots, n, base) && i < n
    ensures slots[i].Busy? && slots[i].at == EndOf(slots, i, base)
            && slots[i].at + slots[i].len == EndOf(slots, i + 1, base)
    ensures base <= EndOf(slots, i, base) && EndOf(slots, i + 1, base) <= EndOf(slots, n, base)
  {
    EndsGrow(slots, n, base, 0, i);
    EndsGrow(slots, n, base, i + 1, n);
  }

  lemma {:induction false} EndsGrow(slots: seq<Slot>, n: nat, base: nat, j: nat, k: nat)
    requires InFlight(slots, n, base) && j <= k <= n
    ensures EndOf(slots, j, base) <= EndOf(slots, k, base)
    decreases k
  {
    if j < k {
      EndsGrow(slots, n, base, j, k - 1);
      assert slots[k - 1].at == EndOf(slots, k - 1, base);
    }
  }
}
