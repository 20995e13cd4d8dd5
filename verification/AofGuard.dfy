/**
 * wal_accel/src/aofguard.c as an object. Every store that the worker or a crash could see is logged as one
 * label, so whatever holds of all runs of the machine holds at every point inside every call.
 */
module AofGuards {
  import opened Ring
  import opened WalMachine
  import opened WalSafety
  import opened WalTheorems
  import opened Wrappers

  class AofGuard {
    // struct aofguard
    var fsyncLen: nat
    const data: array<byte>
    var start: nat
    var len: nat
    var meta: nat
    var bufEnd: nat
    var blockCount: nat
    var semStart: nat
    var semDone: nat

    // the file behind the descriptor, and the background thread
    var file: seq<byte>
    var durable: nat
    var syncing: bool
    var target: nat

    ghost const base: nat
    ghost const origin: Wal
    ghost var pc: Pc
    ghost var acked: seq<byte>
    ghost var history: seq<Label>

    ghost function View(): Wal
      reads this, data
    {
      Wal(base, data.Length, file, durable, data[..], meta, bufEnd, fsyncLen, start, len, blockCount,
          semStart, semDone, syncing, target, pc, acked)
    }

    /** The object is where its logged history leads. */
    ghost predicate Valid()
      reads this, data
    {
      Init(origin) && Run(origin, history) == Some(View())
    }

    /** Between a fresh create and this moment nothing but legal labels happened. */
    lemma ReachableHere()
      requires Valid()
      ensures Invariant(View()) && base == |origin.file|
    {
      Reachable(origin, history, View());
    }

    ghost method Log(before: Wal, l: Label)
      requires Init(origin) && Run(origin, history) == Some(before) && Enabled(l, before) && View() == Apply(l, before)
      modifies this`history
      ensures Valid() && history == old(history) + [l]
    {
      RunOne(origin, history, l);
      history := history + [l];
    }

    /** aofguard_init with no ring file yet; a block count outside 2 to 65536 is refused. */
    static method Create(existing: seq<byte>, nvmSize: nat) returns (guard: Option<AofGuard>)
      requires |existing| < LEN_LIMIT
      ensures guard.Some? <==> 2 <= Blocks(nvmSize) <= 0x1_0000
      ensures guard.Some? ==> fresh(guard.value) && guard.value.Valid() && guard.value.pc.Idle?
      ensures guard.Some? ==>
              guard.value.file == guard.value.acked == existing && guard.value.data.Length == Bytes(Blocks(nvmSize))
    {
      var blockCount := BlocksOf(nvmSize);
      if blockCount < 2 || blockCount > 0x1_0000 {
        return None;
      }
      var ring := new byte[Bytes(blockCount)];
      var g := new AofGuard(existing, ring, blockCount);
      guard := Some(g);
    }

    constructor (existing: seq<byte>, ring: array<byte>, blockCount: nat)
      requires |existing| < LEN_LIMIT && 2 <= blockCount <= 0x1_0000 && ring.Length == Bytes(blockCount)
      ensures Valid() && pc.Idle? && file == acked == existing && data == ring && history == []
    {
      fsyncLen, start, len := |existing|, 0, 0;
      data := ring;
      meta, bufEnd := |existing|, 0;
      this.blockCount, semStart, semDone := 0, 0, 0;
      file, durable, syncing, target := existing, |existing|, false, 0;
      base := |existing|;
      pc, acked, history := Idle, existing, [];
      origin := Wal(|existing|, ring.Length, existing, |existing|, ring[..], |existing|, 0, |existing|, 0, 0, 0, 0, 0,
                    false, 0, Idle, existing);
      new;
      SameWithinBlock(0, blockCount);
    }

    /** afsync_thread: wake on sem_start. */
    method WorkerTakes()
      requires Valid() && Enabled(WorkerTake, View())
      modifies this
      ensures Valid() && View() == Apply(WorkerTake, old(View()))
    {
      ghost var before := View();
      semStart := semStart - 1;
      syncing, target := true, |file|;
      Log(before, WorkerTake);
    }

    /** afsync_thread: FSYNC returns and sem_done is posted. */
    method WorkerFinishes()
      requires Valid() && Enabled(WorkerDone, View())
      modifies this
      ensures Valid() && View() == Apply(WorkerDone, old(View()))
    {
      ghost var before := View();
      syncing := false;
      if target > durable {
        durable := target;
      }
      semDone := semDone + 1;
      Log(before, WorkerDone);
    }

    /** While the writer computes, the worker may move any number of times. */
    method Interfere()
      requires Valid()
      modifies this
      ensures Valid() && OnlyWorkerMoved(old(View()), View())
      ensures pc == old(pc) && file == old(file) && acked == old(acked)
    {
      var turns: nat := *;
      while turns > 0
        invariant Valid() && OnlyWorkerMoved(old(View()), View())
      {
        ReachableHere();
        if syncing {
          WorkerFinishes();
        } else if semStart > 0 {
          WorkerTakes();
        }
        turns := turns - 1;
      }
    }

    method UpdateAfterFsync(blocks: nat)
      requires Shaped(View()) && Bytes(blocks) <= len
      modifies this`start, this`len, this`fsyncLen, this`meta, this`blockCount
      ensures View() == Release(old(View()), blocks)
    {
      if blocks == 0 {
        blockCount := 0;
        return;
      }
      var fsyncSize := Bytes(blocks);
      start := Forward(start, fsyncSize, data.Length);
      len := len - fsyncSize;
      fsyncLen := fsyncLen + fsyncSize;
      meta := PackMeta(fsyncLen, start);
      blockCount := 0;
    }

    /** The done token is taken and the blocks it stands for leave the ring. */
    method TakeToken()
      requires Shaped(View()) && semDone > 0
      modifies this`semDone, this`start, this`len, this`fsyncLen, this`meta, this`blockCount
      ensures View() == HandOver(old(View()))
    {
      semDone := semDone - 1;
      UpdateAfterFsync(blockCount);
    }

    lemma ShapedHere()
      requires Valid()
      ensures Shaped(View())
      ensures pc.Waiting? ==> semDone > 0 || syncing || semStart > 0
      ensures Tokens(View()) <= 1
    {
      ReachableHere();
    }

    method HandleAfsyncIfFinish(bytes: seq<byte>)
      requires Valid() && pc == Entered(bytes)
      modifies this
      ensures Valid() && Shaped(old(View())) && View() == AfterPoll(old(View()), bytes)
      ensures pc == Polled(bytes) && file == old(file) && acked == old(acked)
      ensures if old(blockCount) > 0 && old(semDone) > 0
              then && len == old(len) - Bytes(old(blockCount)) && fsyncLen == old(fsyncLen) + Bytes(old(blockCount))
                   && blockCount == 0 && semDone == old(semDone) - 1
              else len == old(len) && fsyncLen == old(fsyncLen) && blockCount == old(blockCount)
                   && semDone == old(semDone)
    {
      ShapedHere();
      ghost var before := View();
      if blockCount != 0 && semDone > 0 {
        TakeToken();
      }
      pc := Polled(bytes);
      Log(before, Poll);
    }

    /** sem_wait: the worker runs until its token arrives, which it does within two moves. */
    method SemWaitDone()
      requires Valid() && pc.Waiting?
      modifies this
      ensures Valid() && OnlyWorkerMoved(old(View()), View()) && semDone > 0
    {
      while semDone == 0
        invariant Valid() && OnlyWorkerMoved(old(View()), View())
        decreases Rank(View())
      {
        ShapedHere();
        if syncing {
          WorkerFinishes();
        } else {
          WorkerTakes();
        }
      }
    }

    method WaitAfsyncDone(bytes: seq<byte>)
      requires Valid() && pc == Waiting(bytes)
      modifies this
      ensures Valid() && pc == Waited(bytes) && file == old(file) && acked == old(acked)
      ensures blockCount == 0 && len == old(len) - Bytes(old(blockCount))
    {
      SemWaitDone();
      ShapedHere();
      ghost var before := View();
      TakeToken();
      pc := Waited(bytes);
      Log(before, Wait);
    }

    /** The second room test, and do_fsync when the waiting alone did not make room. */
    method MakeRoom(bytes: seq<byte>)
      requires Valid() && pc == Waited(bytes)
      modifies this
      ensures Valid() && pc == Fits(bytes) && file == old(file) && acked == old(acked)
      ensures if old(len) + |bytes| <= data.Length then View() == old(View()).(pc := Fits(bytes))
              else len == InBlock(old(len)) && durable == |file|
    {
      ReachableHere();
      ghost var before := View();
      if len + |bytes| <= data.Length {
        pc := Fits(bytes);
        Log(before, Recheck);
        return;
      }
      durable := |file|;
      pc := Synced(bytes);
      Log(before, Recheck);
      AdvanceAfterFsync(bytes);
    }

    method AdvanceAfterFsync(bytes: seq<byte>)
      requires Valid() && pc == Synced(bytes)
      modifies this
      ensures Valid() && pc == Fits(bytes) && file == old(file) && acked == old(acked)
      ensures len == InBlock(old(len)) && durable == old(durable)
    {
      ShapedHere();
      BlocksAndRest(len);
      ghost var before := View();
      var blocks := BlocksOf(len);
      UpdateAfterFsync(blocks);
      pc := Fits(bytes);
      Log(before, Advance);
    }

    /** nvm_memcpy of one piece: byte after byte lands in the ring, and a crash may come between any two. */
    method NvmMemcpy(pos: nat, piece: seq<byte>)
      requires Valid() && pc.Copying? && Shaped(View()) && pos + |piece| <= data.Length
      requires forall k: nat :: pos <= k < pos + |piece| ==> Distance(End(View()), k, data.Length) < |pc.data|
      modifies data, this`history
      ensures Valid() && pc == old(pc)
      ensures data[..] == Patch(old(data[..]), pos, piece)
    {
      var i := 0;
      ghost var ring, end := data[..], End(View());
      PatchNothing(ring, pos);
      while i < |piece|
        invariant i <= |piece| && Valid() && pc == old(pc)
        invariant Shaped(View()) && End(View()) == end
        invariant data[..] == Patch(ring, pos, piece[..i])
      {
        ghost var k: nat := pos + i;
        assert Distance(end, k, data.Length) < |pc.data|;
        StoreByte(pos + i, piece[i]);
        PatchStep(ring, pos, piece, i);
        i := i + 1;
      }
      assert piece[..i] == piece;
    }

    method StoreByte(at: nat, b: byte)
      requires Valid() && pc.Copying? && Shaped(View()) && at < data.Length
      requires Distance(End(View()), at, data.Length) < |pc.data|
      modifies data, this`history
      ensures Valid() && pc == old(pc) && data[..] == old(data[..])[at := b]
    {
      ghost var before := View();
      data[at] := b;
      assert data[..] == before.ring[at := b];
      Log(before, Tear(data[..]));
    }

    lemma RoomHere(bytes: seq<byte>)
      requires Valid() && (pc == Fits(bytes) || pc == Copying(bytes) || pc == Copied(bytes))
      ensures Shaped(View()) && len + |bytes| <= data.Length
    {
      ReachableHere();
    }

    /** Lines 289 to 298: the copy is split where the ring wraps. */
    method CopyToRing(bytes: seq<byte>)
      requires Valid() && pc == Copying(bytes)
      modifies data, this`history, this`pc
      ensures Valid() && pc == Copied(bytes)
    {
      RoomHere(bytes);
      var writePos := Forward(start, len, data.Length);
      ghost var ring := data[..];
      if writePos + |bytes| <= data.Length {
        NvmMemcpy(writePos, bytes);
        WholeCopy(ring, writePos, bytes);
      } else {
        var front := data.Length - writePos;
        NvmMemcpy(writePos, bytes[..front]);
        NvmMemcpy(0, bytes[front..]);
        SplitCopy(ring, writePos, bytes);
      }
      ghost var before := View();
      pc := Copied(bytes);
      Log(before, CopyDone);
    }

    /** Lines 299 to 309: publish buf_end, start a background fsync when whole blocks wait, acknowledge. */
    method Publish(bytes: seq<byte>)
      requires Valid() && pc == Copied(bytes)
      modifies this
      ensures Valid() && pc.Idle? && file == acked == old(file)
      ensures len == old(len) + |bytes| && start == old(start)
      ensures if old(blockCount) > 0 then blockCount == old(blockCount) else blockCount == len / 0x10_0000
      ensures blockCount == 0 ==> len < Bytes(1)
    {
      RoomHere(bytes);
      ghost var before := View();
      len := len + |bytes|;
      bufEnd := Forward(start, len, data.Length);
      pc := Ended(bytes);
      Log(before, StoreEnd);
      Interfere();
      Acknowledge();
    }

    lemma ReturnHere()
      requires Valid() && pc.Ended?
      ensures Shaped(View()) && Blocks(len) == len / 0x10_0000
    {
      ReachableHere();
      DivisionOperators(len, 0x10_0000);
    }

    method Acknowledge()
      requires Valid() && pc.Ended?
      modifies this
      ensures Valid() && pc.Idle? && file == acked == old(file) && len == old(len) && start == old(start)
      ensures if old(blockCount) > 0 then blockCount == old(blockCount) else blockCount == len / 0x10_0000
      ensures blockCount == 0 ==> len < Bytes(1)
      ensures old(blockCount) == 0 && len >= Bytes(1) ==> semStart == old(semStart) + 1
    {
      ShapedHere();
      ReturnHere();
      ghost var before := View();
      if len >= Bytes(1) && blockCount == 0 {
        blockCount := BlocksOf(len);
        semStart := semStart + 1;
      }
      pc, acked := Idle, file;
      Log(before, Return);
    }

    method Enter(bytes: seq<byte>)
      requires Valid() && pc.Idle?
      modifies this
      ensures Valid() && pc == Entered(bytes) && file == old(file) == acked == old(acked)
    {
      ReachableHere();
      ShapedHere();
      ghost var before := View();
      pc := Entered(bytes);
      Log(before, Begin(bytes));
    }

    lemma DecideHere(bytes: seq<byte>)
      requires Valid() && pc == Polled(bytes)
      ensures Shaped(View())
      ensures Rejects(View(), |bytes|) <==> !Accepts(acked, base, |bytes|, data.Length)
    {
      ReachableHere();
      AcceptanceAt(View(), |bytes|);
    }

    /** Lines 277 to 285: refuse, or make room by waiting for the worker and then by a synchronous fsync. */
    method Admit(bytes: seq<byte>) returns (ok: bool)
      requires Valid() && pc == Polled(bytes)
      modifies this
      ensures Valid() && pc == (if ok then Fits(bytes) else Idle) && file == old(file) && acked == old(acked)
      ensures ok <==> Accepts(acked, base, |bytes|, data.Length)
      ensures old(len) + |bytes| <= data.Length ==> ok && View() == old(View()).(pc := Fits(bytes))
    {
      DecideHere(bytes);
      ghost var before := View();
      var rest := RestOf(len);
      if len + |bytes| <= data.Length {
        pc, ok := Fits(bytes), true;
        Log(before, Decide);
      } else if rest + |bytes| > data.Length {
        pc, ok := Idle, false;
        Log(before, Decide);
      } else {
        pc, ok := if blockCount == 0 then Waited(bytes) else Waiting(bytes), true;
        Log(before, Decide);
        if blockCount != 0 {
          WaitAfsyncDone(bytes);
        }
        MakeRoom(bytes);
      }
    }

    method AppendToFile(bytes: seq<byte>)
      requires Valid() && pc == Fits(bytes) && |file| + |bytes| < LEN_LIMIT
      modifies this
      ensures Valid() && pc == Copying(bytes) && file == old(file) + bytes && acked == old(acked)
    {
      RoomHere(bytes);
      ghost var before := View();
      file := file + bytes;
      pc := Copying(bytes);
      Log(before, Append);
    }

    /**
     * aofguard_write. It refuses exactly the writes that cannot fit beside the unfinished block, whatever the
     * worker does meanwhile; every other write ends acknowledged, in the file and in the ring, and leaves a background
     * fsync under way when whole blocks are in the ring.
     */
    method Write(bytes: seq<byte>) returns (ok: bool)
      requires Valid() && pc.Idle? && |file| + |bytes| < LEN_LIMIT
      modifies this, data
      ensures Valid() && pc.Idle?
      ensures ok <==> Accepts(old(acked), base, |bytes|, data.Length)
      ensures ok ==> len < Bytes(1) || blockCount > 0
      ensures Tokens(View()) == if blockCount > 0 then 1 else 0
      ensures file == acked == if ok then old(file) + bytes else old(file)
    {
      ok := Ask(bytes);
      if ok {
        Interfere();
        Store(bytes);
      }
      TokensHere();
    }

    /** Lines 275 to 286: the poll, and the room for the write or its refusal. */
    method Ask(bytes: seq<byte>) returns (ok: bool)
      requires Valid() && pc.Idle?
      modifies this
      ensures Valid() && pc == (if ok then Fits(bytes) else Idle) && file == acked == old(file) == old(acked)
      ensures ok <==> Accepts(old(acked), base, |bytes|, data.Length)
    {
      Enter(bytes);
      Interfere();
      HandleAfsyncIfFinish(bytes);
      Interfere();
      ok := Admit(bytes);
    }

    /** Lines 287 to 309: the write that fits. */
    method Store(bytes: seq<byte>)
      requires Valid() && pc == Fits(bytes) && |file| + |bytes| < LEN_LIMIT && acked == file
      modifies this, data
      ensures Valid() && pc.Idle? && file == acked == old(file) + bytes
      ensures len < Bytes(1) || blockCount > 0
    {
      AppendToFile(bytes);
      Interfere();
      CopyToRing(bytes);
      Interfere();
      Publish(bytes);
    }

    lemma TokensHere()
      requires Valid() && pc.Idle?
      ensures Tokens(View()) == if blockCount > 0 then 1 else 0
    {
      ReachableHere();
    }

    lemma CrashHere(survivor: seq<byte>)
      requires Valid() && durable <= |survivor| && durable <= |file| && survivor[..durable] == file[..durable]
      ensures Enabled(Crash(survivor), View()) && Recoverable(View()) && Recoverable(Restart(View(), survivor))
      ensures Image(Restart(View(), survivor)) == Image(View())
    {
      ReachableHere();
      ShapedHere();
      CrashKeepsImage(View(), survivor);
    }

    /** Power fails: the volatile half is gone, and of the file at least the durable prefix comes back. */
    method PowerFailure(survivor: seq<byte>)
      requires Valid() && durable <= |survivor| && durable <= |file| && survivor[..durable] == file[..durable]
      modifies this
      ensures Valid() && pc.Booting? && Recoverable(View()) && Recoverable(old(View()))
      ensures Image(View()) == Image(old(View()))
    {
      CrashHere(survivor);
      ghost var before := View();
      LoseVolatile(survivor);
      CrashIs(before, survivor);
      Log(before, Crash(survivor));
    }

    method LoseVolatile(survivor: seq<byte>)
      modifies this
      ensures View() == Restart(old(View()), survivor) && history == old(history)
    {
      LoseCounters();
      file, syncing, target, pc := survivor, false, 0, Booting;
    }

    method LoseCounters()
      modifies this
      ensures View() == old(View()).(fsyncLen := 0, start := 0, len := 0, blockCount := 0, semStart := 0, semDone := 0)
      ensures history == old(history)
    {
      fsyncLen, start, len, blockCount, semStart, semDone := 0, 0, 0, 0, 0, 0;
    }

    /** aofguard_init over an existing ring file: it never refuses, and it rebuilds exactly the image. */
    method Recover() returns (ok: bool)
      requires Valid() && pc.Booting?
      modifies this
      ensures ok && Valid() && pc.Idle?
      ensures Recoverable(old(View())) && file == acked == Image(old(View()))
    {
      ReachableHere();
      ok := ReadWords();
      if ok {
        ok := CutFile();
      }
      if ok {
        Replay();
      }
    }

    lemma WordsHere()
      requires Valid() && pc.Booting?
      ensures Enabled(Load, View()) && Apply(Load, View()) == AfterLoad(View())
      ensures MetaStart(meta) < data.Length && bufEnd < data.Length
      ensures Recoverable(View()) && Recoverable(AfterLoad(View())) && Image(AfterLoad(View())) == Image(View())
    {
      ReachableHere();
      BootReadsKeepImage(Load, View());
      LoadIs(View());
    }

    method ReadWords() returns (ok: bool)
      requires Valid() && pc.Booting?
      modifies this
      ensures ok && Valid() && pc.Loaded? && Recoverable(old(View())) && Recoverable(View())
      ensures Image(View()) == Image(old(View()))
    {
      WordsHere();
      ghost var before := View();
      var length, first := UnpackMeta(meta);
      if first >= data.Length || bufEnd >= data.Length {
        return false;
      }
      fsyncLen, start := length, first;
      len := if bufEnd >= start then bufEnd - start else data.Length + bufEnd - start;
      pc, ok := Loaded, true;
      assert View() == AfterLoad(before);
      Log(before, Load);
    }

    lemma CutHere()
      requires Valid() && pc.Loaded?
      ensures Enabled(Truncate, View()) && Apply(Truncate, View()) == AfterTruncate(View()) && fsyncLen <= |file|
      ensures Recoverable(View()) && Recoverable(AfterTruncate(View()))
      ensures Image(AfterTruncate(View())) == Image(View())
    {
      ReachableHere();
      BootReadsKeepImage(Truncate, View());
      TruncateIs(View());
    }

    method CutFile() returns (ok: bool)
      requires Valid() && pc.Loaded?
      modifies this
      ensures ok && Valid() && pc.Truncated? && Recoverable(old(View())) && Recoverable(View())
      ensures Image(View()) == Image(old(View()))
    {
      CutHere();
      ghost var before := View();
      if |file| < fsyncLen {
        return false;
      }
      if durable > fsyncLen {
        durable := fsyncLen;
      }
      file := file[..fsyncLen];
      pc, ok := Truncated, true;
      assert View() == AfterTruncate(before);
      Log(before, Truncate);
    }

    /** Lines 170 to 184: one write, or two where the ring wraps. */
    method Replay()
      requires Valid() && pc.Truncated?
      modifies this
      ensures Valid() && pc.Idle? && Recoverable(old(View())) && file == acked == Image(old(View()))
    {
      ReachableHere();
      ghost var before := View();
      ReplayFrontKeepsImage(before);
      if start + len <= data.Length {
        file := file + data[start..start + len];
        pc, acked := Idle, file;
        Log(before, ReplayFront);
        return;
      }
      file := file + data[start..];
      pc := HalfReplayed;
      Log(before, ReplayFront);
      ReplayRest();
    }

    method ReplayRest()
      requires Valid() && pc.HalfReplayed?
      modifies this
      ensures Valid() && pc.Idle? && Recoverable(old(View())) && file == acked == Image(old(View()))
    {
      ReachableHere();
      ghost var before := View();
      ReplayBackCompletesImage(before);
      file := file + data[..len - (data.Length - start)];
      pc, acked := Idle, file;
      Log(before, ReplayBack);
    }
  }

  lemma CrashIs(s: Wal, survivor: seq<byte>)
    requires Enabled(Crash(survivor), s)
    ensures Apply(Crash(survivor), s) == Restart(s, survivor)
  {
  }

  lemma LoadIs(s: Wal)
    requires Enabled(Load, s)
    ensures Apply(Load, s) == AfterLoad(s)
  {
  }

  lemma TruncateIs(s: Wal)
    requires Enabled(Truncate, s)
    ensures Apply(Truncate, s) == AfterTruncate(s)
  {
  }

  /** `ring` with `piece` stored at `pos`. */
  function Patch(ring: seq<byte>, pos: nat, piece: seq<byte>): seq<byte>
    requires pos + |piece| <= |ring|
  {
    ring[..pos] + piece + ring[pos + |piece|..]
  }

  lemma PatchNothing(ring: seq<byte>, pos: nat)
    requires pos <= |ring|
    ensures Patch(ring, pos, []) == ring
  {
  }

  lemma PatchStep(ring: seq<byte>, pos: nat, piece: seq<byte>, i: nat)
    requires pos + |piece| <= |ring| && i < |piece|
    ensures Patch(ring, pos, piece[..i])[pos + i := piece[i]] == Patch(ring, pos, piece[..i + 1])
  {
  }

  lemma WholeCopy(ring: seq<byte>, pos: nat, bytes: seq<byte>)
    requires pos < |ring| && pos + |bytes| <= |ring|
    ensures Slice(Patch(ring, pos, bytes), pos, |bytes|) == bytes
  {
  }

  lemma SplitCopy(ring: seq<byte>, pos: nat, bytes: seq<byte>)
    requires pos < |ring| < pos + |bytes| && |bytes| <= |ring|
    ensures var front := |ring| - pos;
            Slice(Patch(Patch(ring, pos, bytes[..front]), 0, bytes[front..]), pos, |bytes|) == bytes
  {
    var front := |ring| - pos;
    var after := Patch(Patch(ring, pos, bytes[..front]), 0, bytes[front..]);
    assert after[pos..] == bytes[..front];
    assert after[..|bytes| - front] == bytes[front..];
  }
}
