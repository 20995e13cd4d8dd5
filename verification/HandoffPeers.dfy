/**
 * One pass of the polling loops of cxl_memory_sharing/meta_write.c and meta_read.c, as methods on the link they share.
 * Between any two of their steps the other side and the caches may move at will.
 */
module HandoffPeers {
  import opened SharedMemory
  import opened Handoff
  import opened Wrappers

  /** A payload is announced, and the consumer's host sees the flag that says so. */
  predicate SetFor(s: Link) {
    Announced(s) && Flag(s, CONSUMER) == Set()
  }

  predicate ClearFor(s: Link) {
    Acknowledged(s) && Flag(s, PRODUCER) == Clear()
  }

  /** The flag line is stored in one piece. */
  class Channel {
    var link: Link
    ghost var origin: Link
    ghost var history: seq<Event>

    ghost predicate Valid()
      reads this
    {
      Start(origin) && Run(origin, history, true) == Some(link)
    }

    method Step(e: Event)
      requires Valid() && Enabled(e, link, true)
      modifies this
      ensures Valid() && link == Apply(e, old(link), true) && old(link.published) <= link.published
    {
      history := history + [e];
      assert history[..|history| - 1] == old(history);
      link := Apply(e, link, true);
    }

    /** Steps of the consumer and of the caches: the producer keeps its place, and nothing gets published. */
    method ConsumerMoves()
      requires Valid()
      modifies this
      ensures Valid() && link.producer == old(link.producer) && link.published == old(link.published)
              && link.size == old(link.size)
      ensures ClearFor(old(link)) ==> ClearFor(link) && link.consumed == old(link.consumed)
    {
      var turns: nat := *;
      while turns > 0
        invariant Valid() && link.producer == old(link.producer) && link.published == old(link.published)
                  && link.size == old(link.size)
        invariant ClearFor(old(link)) ==> ClearFor(link) && link.consumed == old(link.consumed)
      {
        var e: Event := *;
        if Enabled(e, link, true) && !ByProducer(e) {
          if Acknowledged(link) { EveryRunKeeps(origin, history); AcknowledgedStays(e, link); }
          Step(e);
        }
        turns := turns - 1;
      }
    }

    /** Steps of the producer and of the caches: the consumer keeps its place, and nothing gets consumed. */
    method ProducerMoves()
      requires Valid()
      modifies this
      ensures Valid() && link.consumer == old(link.consumer) && link.consumed == old(link.consumed)
              && link.size == old(link.size) && old(link.published) <= link.published
      ensures SetFor(old(link)) ==> SetFor(link) && link.published == old(link.published)
    {
      var turns: nat := *;
      while turns > 0
        invariant Valid() && link.consumer == old(link.consumer) && link.consumed == old(link.consumed)
                  && link.size == old(link.size) && old(link.published) <= link.published
        invariant SetFor(old(link)) ==> SetFor(link) && link.published == old(link.published)
      {
        var e: Event := *;
        if Enabled(e, link, true) && !ByConsumer(e) {
          if Announced(link) { EveryRunKeeps(origin, history); AnnouncedStays(e, link); }
          Step(e);
        }
        turns := turns - 1;
      }
    }

    /** The flush of the flag line before it is loaded: the host then sees what memory holds. */
    method FlushFlag(h: nat)
      requires Valid()
      modifies this
      ensures Valid() && link == old(link).(store := link.store)
      ensures h == CONSUMER && Announced(old(link)) ==> SetFor(link)
      ensures h == PRODUCER && Acknowledged(old(link)) ==> ClearFor(link)
    {
      EveryRunKeeps(origin, history);
      AfterFlush(link.store, h, FLAG);
      Step(Evict(h, FLAG));
    }

    method LoadFlag(h: nat) returns (flag: byte)
      requires Valid()
      modifies this
      ensures Valid() && link == old(link).(store := link.store) && flag == First(Flag(link, h))
      ensures SetFor(old(link)) ==> SetFor(link)
      ensures ClearFor(old(link)) ==> ClearFor(link)
    {
      AfterFetch(link.store, h, FLAG);
      Step(Prefetch(h, FLAG));
      flag := First(Flag(link, h));
    }

    /** What the consumer finds in the flag, flushed before it is loaded. */
    method WatchFlag() returns (flag: byte)
      requires Valid()
      modifies this
      ensures Valid() && link.consumer == old(link.consumer) && link.consumed == old(link.consumed)
              && link.size == old(link.size) && flag == First(Flag(link, CONSUMER))
      ensures Announced(old(link)) ==> flag == 0x10 && link.published == old(link.published)
    {
      FlushFlag(CONSUMER);
      ProducerMoves();
      flag := LoadFlag(CONSUMER);
      Flags();
    }

    method PollFlag() returns (flag: byte)
      requires Valid()
      modifies this
      ensures Valid() && link.producer == old(link.producer) && link.published == old(link.published)
              && link.size == old(link.size) && flag == First(Flag(link, PRODUCER))
      ensures Acknowledged(old(link)) ==> flag == 0
    {
      FlushFlag(PRODUCER);
      ConsumerMoves();
      flag := LoadFlag(PRODUCER);
      Flags();
    }

    /**
     * The producer flushes and loads the flag: when it is clear, the buffer is published whole; otherwise nothing is.
     * Once the consumer has lowered the flag in memory, no pass leaves the buffer unpublished.
     */
    method Produce(data: Block) returns (sent: bool)
      requires Valid() && link.producer.Polling? && |data| == link.size
      modifies this
      ensures Valid() && link.producer.Polling? && link.size == old(link.size)
      ensures link.published == if sent then old(link.published) + [data] else old(link.published)
      ensures |old(link.published)| == |old(link.consumed)| && Mem(old(link.store), FLAG) == Clear() ==> sent
      ensures |old(link.published)| == |old(link.consumed)| && old(link.consumer).Watching? ==> sent
    {
      OneSideGoesOn(origin, history, link);
      var flag := PollFlag();
      sent := flag == 0;
      if sent {
        Step(SeeClear(data));
        StoreData(data);
        Announce(data);
      }
    }

    method StoreData(data: Block)
      requires Valid() && link.producer == Storing(data, 0) && |data| == link.size
      modifies this
      ensures Valid() && link.producer == Flushing(data, link.size)
      ensures link.published == old(link.published) && link.size == old(link.size)
    {
      for k := 0 to link.size
        invariant Valid() && link.producer == Storing(data, k) && link.published == old(link.published)
                  && link.size == old(link.size)
      {
        ConsumerMoves();
        Step(Write);
      }
      Step(StartFlush);
      for k := 0 to link.size
        invariant Valid() && link.producer == Flushing(data, k) && link.published == old(link.published)
                  && link.size == old(link.size)
      {
        ConsumerMoves();
        Step(FlushNext);
      }
    }

    method Announce(data: Block)
      requires Valid() && link.producer == Flushing(data, link.size)
      modifies this
      ensures Valid() && link.producer.Polling? && link.published == old(link.published) + [data]
              && link.size == old(link.size)
    {
      Step(Publish);
      ConsumerMoves();
      Step(Raise);
      ConsumerMoves();
      Step(FlushRaised);
    }

    /**
     * The consumer does the same: when the flag is set, it takes the payload published after those it has, whole. Once
     * the producer has raised the flag in memory, no pass leaves the payload lying.
     */
    method Consume() returns (got: Option<Block>)
      requires Valid() && link.consumer.Watching?
      modifies this
      ensures Valid() && link.consumer.Watching? && link.size == old(link.size)
      ensures link.consumed
              == (if got.Some? then old(link.consumed) + [got.value] else old(link.consumed)) <= link.published
      ensures |old(link.published)| == |old(link.consumed)| + 1 && Mem(old(link.store), FLAG) == Set() ==>
              got.Some? && got.value == old(link.published)[|old(link.consumed)|]
      ensures |old(link.published)| == |old(link.consumed)| + 1 && old(link.producer).Polling? ==>
              got.Some? && got.value == old(link.published)[|old(link.consumed)|]
    {
      OneSideGoesOn(origin, history, link);
      var flag := WatchFlag();
      if flag != 0x10 {
        ConsumedIsPublished(origin, history, link);
        return None;
      }
      var data := TakePayload();
      return Some(data);
    }

    /** A pass that has seen the flag set. */
    method TakePayload() returns (data: Block)
      requires Valid() && link.consumer.Watching? && First(Flag(link, CONSUMER)) == 0x10
      modifies this
      ensures Valid() && link.consumer.Watching? && link.size == old(link.size)
      ensures link.consumed == old(link.consumed) + [data] <= link.published && old(link.published) <= link.published
    {
      Step(SeeSet);
      data := TakeData();
      Acknowledge();
      ConsumedIsPublished(origin, history, link);
    }

    method TakeData() returns (data: Block)
      requires Valid() && link.consumer == Invalidating(0)
      modifies this
      ensures Valid() && link.consumer == Lowering(0) && link.consumed == old(link.consumed) + [data]
              && link.size == old(link.size) && old(link.published) <= link.published
    {
      for k := 0 to link.size
        invariant Valid() && link.consumer == Invalidating(k) && link.consumed == old(link.consumed)
                  && link.size == old(link.size) && old(link.published) <= link.published
      {
        ProducerMoves();
        Step(InvalidateNext);
      }
      data := CopyData();
      Step(Event.Consume);
    }

    method CopyData() returns (data: Block)
      requires Valid() && link.consumer == Invalidating(link.size)
      modifies this
      ensures Valid() && link.consumer == Copying(data) && |data| == link.size && link.consumed == old(link.consumed)
              && link.size == old(link.size) && old(link.published) <= link.published
    {
      Step(StartCopy);
      data := [];
      for k := 0 to link.size
        invariant Valid() && |data| == k && link.consumer == Copying(data) && link.consumed == old(link.consumed)
                  && link.size == old(link.size) && old(link.published) <= link.published
      {
        ProducerMoves();
        Step(Load);
        data := link.consumer.got;
      }
    }

    method Acknowledge()
      requires Valid() && link.consumer.Lowering?
      modifies this
      ensures Valid() && link.consumer.Watching? && link.consumed == old(link.consumed)
              && link.size == old(link.size) && old(link.published) <= link.published
    {
      ProducerMoves();
      Step(Lower);
      ProducerMoves();
      Step(FlushLowered);
    }
  }
}
