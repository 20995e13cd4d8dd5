/**
 * The one-slot handoff of cxl_memory_sharing/meta_write.c and meta_read.c: a payload in the data lines, announced
 * and acknowledged through one flag line, between two hosts whose caches prefetch and evict as they please.
 */
module Handoff {
  import opened SharedMemory
  import opened Wrappers

  const PRODUCER: nat := 0
  const CONSUMER: nat := 1
  const FLAG: Addr := Addr(0, 0)

  function DataLine(k: nat): Addr {
    Addr(1, k)
  }

  function Clear(): Line { seq(64, _ => 0) }
  function Set(): Line { seq(64, _ => 0x10) }

  datatype Producer =
    | Polling                            // waiting for the flag to be 0x00
    | Storing(data: Block, next: nat)    // memcpy into the data lines
    | Flushing(data: Block, next: nat)   // cflush over the data lines
    | Raising(done: nat)                 // memset of the flag line to 0x10
    | Raised                             // about to cflush the flag line

  datatype Consumer =
    | Watching                           // waiting for the flag to be 0x10
    | Invalidating(next: nat)            // cflushopt over the data lines
    | Copying(got: Block)                // memcpy out of the data lines
    | Lowering(done: nat)                // memset of the flag line to 0x00
    | Lowered                            // about to cflush the flag line

  /** `size` is the number of data lines; `published` and `consumed` are the payloads so far, whole and in order. */
  datatype Link = Link(size: nat, store: Store, producer: Producer, consumer: Consumer,
                       published: seq<Block>, consumed: seq<Block>)

  datatype Event =
    | SeeClear(data: Block)   // the flag loaded is 0x00; `data` was filled before
    | Tear(v: Line)           // part of the next data line is stored
    | Write                   // the next data line is stored
    | StartFlush
    | FlushNext
    | Publish                 // every data line is flushed
    | Raise                   // the flag line is stored to its end
    | RaisePart(k: nat)       // only up to its first k bytes
    | FlushRaised
    | SeeSet                  // the flag loaded is 0x10
    | InvalidateNext
    | StartCopy
    | Load
    | Consume                 // every data line is copied
    | Lower
    | LowerPart(k: nat)
    | FlushLowered
    | Prefetch(h: nat, a: Addr)
    | Evict(h: nat, a: Addr)

  function Flag(s: Link, h: nat): Line {
    Value(s.store, h, FLAG)
  }

  /** What *(char *)addr reads. */
  function First(line: Line): byte {
    if line == [] then 0 else line[0]
  }

  /** Bytes from..to of a line overwritten with `v`. */
  function Filled(line: Line, from: nat, to: nat, v: byte): Line {
    seq(|line|, k requires 0 <= k < |line| => if from <= k < to then v else line[k])
  }

  /**
   * Both hosts flush the flag line before they load it: that is an Evict, and prefetches may come between. `whole`
   * says that memset stores the flag line in one piece.
   */
  predicate Enabled(e: Event, s: Link, whole: bool) {
    match e
    case SeeClear(data) => s.producer.Polling? && First(Flag(s, PRODUCER)) == 0 && |data| == s.size
    case Tear(_) => s.producer.Storing? && s.producer.next < s.size
    case Write => s.producer.Storing? && s.producer.next < s.size == |s.producer.data|
    case StartFlush => s.producer.Storing? && s.producer.next == s.size
    case FlushNext => s.producer.Flushing? && s.producer.next < s.size
    case Publish => s.producer.Flushing? && s.producer.next == s.size
    case Raise => s.producer.Raising?
    case RaisePart(k) => s.producer.Raising? && !whole && s.producer.done < k < 64
    case FlushRaised => s.producer.Raised?
    case SeeSet => s.consumer.Watching? && First(Flag(s, CONSUMER)) == 0x10
    case InvalidateNext => s.consumer.Invalidating? && s.consumer.next < s.size
    case StartCopy => s.consumer.Invalidating? && s.consumer.next == s.size
    case Load => s.consumer.Copying? && |s.consumer.got| < s.size
    case Consume => s.consumer.Copying? && |s.consumer.got| == s.size
    case Lower => s.consumer.Lowering?
    case LowerPart(k) => s.consumer.Lowering? && !whole && s.consumer.done < k < 64
    case FlushLowered => s.consumer.Lowered?
    case Prefetch(_, _) => true
    case Evict(_, _) => true
  }

  function Apply(e: Event, s: Link, whole: bool): Link
    requires Enabled(e, s, whole)
  {
    match e
    case SeeClear(data) => s.(producer := Storing(data, 0))
    case Tear(v) => s.(store := Put(s.store, PRODUCER, DataLine(s.producer.next), v))
    case Write => Wrote(s, s.producer.data, s.producer.next)
    case StartFlush => s.(producer := Flushing(s.producer.data, 0))
    case FlushNext => FlushedLine(s, s.producer.data, s.producer.next)
    case Publish => s.(producer := Raising(0), published := s.published + [s.producer.data])
    case Raise => s.(store := Put(s.store, PRODUCER, FLAG, Filled(Flag(s, PRODUCER), s.producer.done, 64, 0x10)),
      producer := Raised)
    case RaisePart(k) => s.(store := Put(s.store, PRODUCER, FLAG,
      Filled(Flag(s, PRODUCER), s.producer.done, k, 0x10)), producer := Raising(k))
    case FlushRaised => s.(store := Flush(s.store, PRODUCER, FLAG), producer := Polling)
    case SeeSet => s.(consumer := Invalidating(0))
    case InvalidateNext => Invalidated(s, s.consumer.next)
    case StartCopy => s.(consumer := Copying([]))
    case Load => Loaded(s, s.consumer.got)
    case Consume => s.(consumer := Lowering(0), consumed := s.consumed + [s.consumer.got])
    case Lower => s.(store := Put(s.store, CONSUMER, FLAG, Filled(Flag(s, CONSUMER), s.consumer.done, 64, 0)),
      consumer := Lowered)
    case LowerPart(k) => s.(store := Put(s.store, CONSUMER, FLAG, Filled(Flag(s, CONSUMER), s.consumer.done, k, 0)),
      consumer := Lowering(k))
    case FlushLowered => s.(store := Flush(s.store, CONSUMER, FLAG), consumer := Watching)
    case Prefetch(h, a) => s.(store := Fetch(s.store, h, a))
    case Evict(h, a) => s.(store := Flush(s.store, h, a))
  }

  function Wrote(s: Link, data: Block, next: nat): Link
    requires next < |data|
  {
    s.(store := Put(s.store, PRODUCER, DataLine(next), data[next]), producer := Storing(data, next + 1))
  }

  function FlushedLine(s: Link, data: Block, next: nat): Link {
    s.(store := Flush(s.store, PRODUCER, DataLine(next)), producer := Flushing(data, next + 1))
  }

  function Invalidated(s: Link, next: nat): Link {
    s.(store := Flush(s.store, CONSUMER, DataLine(next)), consumer := Invalidating(next + 1))
  }

  function Loaded(s: Link, got: Block): Link {
    var a := DataLine(|got|);
    s.(store := Fetch(s.store, CONSUMER, a), consumer := Copying(got + [Value(s.store, CONSUMER, a)]))
  }

  // Whose turn it is, and what each side's flag line can then be.

  predicate Pending(s: Link) {
    |s.published| == |s.consumed| + 1
  }

  /** A payload waits, or is being taken. The flag is raised in memory, or in the producer's cache on its way there. */
  predicate ConsumersTurn(s: Link) {
    && (s.producer.Raising? || s.producer.Raised? || s.producer.Polling?)
    && !s.consumer.Lowering? && !Dirty(s.store, CONSUMER, FLAG)
    && (Flag(s, CONSUMER) == Clear() || (Flag(s, CONSUMER) == Set() && Mem(s.store, FLAG) == Set()))
    && (s.producer.Raising? ==>
          && s.producer.done == 0 && Mem(s.store, FLAG) == Clear() && !Dirty(s.store, PRODUCER, FLAG)
          && (Flag(s, PRODUCER) == Set() || Flag(s, PRODUCER) == Clear()))
    && (!s.producer.Raising? ==>
          && Flag(s, PRODUCER) == Set()
          && (Dirty(s.store, PRODUCER, FLAG) ==> Mem(s.store, FLAG) == Clear() && s.producer.Raised?)
          && (!Dirty(s.store, PRODUCER, FLAG) ==> Mem(s.store, FLAG) == Set()))
    && (s.consumer.Invalidating? || s.consumer.Copying? ==> Mem(s.store, FLAG) == Set())
  }

  /** Everything published is taken. The flag is lowered in memory, or in the consumer's cache on its way there. */
  predicate ProducersTurn(s: Link) {
    && (s.consumer.Lowering? || s.consumer.Lowered? || s.consumer.Watching?)
    && !s.producer.Raising? && !Dirty(s.store, PRODUCER, FLAG)
    && (Flag(s, PRODUCER) == Set() || (Flag(s, PRODUCER) == Clear() && Mem(s.store, FLAG) == Clear()))
    && (s.consumer.Lowering? ==>
          && s.consumer.done == 0 && Mem(s.store, FLAG) == Set() && !Dirty(s.store, CONSUMER, FLAG)
          && (Flag(s, CONSUMER) == Set() || Flag(s, CONSUMER) == Clear()))
    && (!s.consumer.Lowering? ==>
          && Flag(s, CONSUMER) == Clear()
          && (Dirty(s.store, CONSUMER, FLAG) ==> Mem(s.store, FLAG) == Set() && s.consumer.Lowered?)
          && (!Dirty(s.store, CONSUMER, FLAG) ==> Mem(s.store, FLAG) == Clear()))
    && (s.producer.Storing? || s.producer.Flushing? ==> Mem(s.store, FLAG) == Clear())
  }

  ghost predicate FlagAgrees(s: Link) {
    && |s.store.caches| >= 2
    && (Pending(s) || |s.published| == |s.consumed|)
    && (if Pending(s) then ConsumersTurn(s) else ProducersTurn(s))
    && (forall h: nat :: h >= 2 ==> !Dirty(s.store, h, FLAG))
  }

  predicate MayBeDirty(p: Producer, k: nat) {
    match p
    case Storing(data, next) => k <= next && k < |data|
    case Flushing(data, next) => next <= k < |data|
    case _ => false
  }

  predicate HasStored(p: Producer, k: nat) {
    match p
    case Storing(data, next) => k < next && k < |data|
    case Flushing(data, _) => k < |data|
    case _ => false
  }

  /**
   * Dirty data lines are the producer's, at lines under way; what it has stored is in its cache, dirty, or in memory.
   */
  ghost predicate DataKept(s: Link) {
    && (s.producer.Storing? || s.producer.Flushing? ==> |s.producer.data| == s.size && s.producer.next <= s.size)
    && (forall h: nat, k: nat :: Dirty(s.store, h, DataLine(k)) ==> h == PRODUCER && MayBeDirty(s.producer, k))
    && (forall k: nat :: HasStored(s.producer, k) ==>
          (if Dirty(s.store, PRODUCER, DataLine(k)) then Value(s.store, PRODUCER, DataLine(k))
            else Mem(s.store, DataLine(k)))
          == s.producer.data[k])
  }

  predicate IsFresh(c: Consumer, k: nat) {
    match c
    case Invalidating(next) => k < next
    case Copying(_) => true
    case _ => false
  }

  /** Memory holds the payload, and the consumer's copy is a prefix of it. */
  ghost predicate Waits(s: Link, data: Block) {
    && (forall k: nat :: k < s.size && k < |data| ==> Mem(s.store, DataLine(k)) == data[k])
    && (forall k: nat :: k < s.size && IsFresh(s.consumer, k) ==>
      Value(s.store, CONSUMER, DataLine(k)) == Mem(s.store, DataLine(k)))
    && (s.consumer.Invalidating? ==> s.consumer.next <= s.size)
    && (s.consumer.Copying? ==> s.consumer.got <= data)
  }

  ghost predicate PayloadKept(s: Link) {
    && (forall data <- s.published :: |data| == s.size)
    && (Pending(s) ==> Waits(s, s.published[|s.consumed|]))
  }

  ghost predicate Invariant(s: Link) {
    FlagAgrees(s) && DataKept(s) && PayloadKept(s) && s.consumed <= s.published
  }

  /** Nobody has touched the flag since it was cleared and flushed; the other lines hold anything. */
  ghost predicate Start(s: Link) {
    && |s.store.caches| >= 2 && s.producer.Polling? && s.consumer.Watching? && s.published == s.consumed == []
    && Mem(s.store, FLAG) == Clear() && Flag(s, PRODUCER) == Clear() && Flag(s, CONSUMER) == Clear()
    && (forall h: nat, a :: !Dirty(s.store, h, a))
  }

  function Run(s: Link, es: seq<Event>, whole: bool): Option<Link>
    decreases |es|
  {
    if es == [] then Some(s)
    else
      var before := Run(s, es[..|es| - 1], whole);
      if before.Some? && Enabled(es[|es| - 1], before.value, whole)
        then Some(Apply(es[|es| - 1], before.value, whole)) else None
  }

  lemma Flags()
    ensures |Clear()| == |Set()| == 64 && First(Clear()) == 0 && First(Set()) == 0x10 && Clear() != Set()
  {
    assert First(Clear()) == 0 && First(Set()) == 0x10;
  }

  lemma EvictKeepsFlag(s: Link, h: nat, a: Addr)
    requires FlagAgrees(s)
    ensures FlagAgrees(s.(store := Flush(s.store, h, a)))
  {
    AfterFlush(s.store, h, a);
    Flags();
  }

  lemma EvictKeepsData(s: Link, h: nat, a: Addr)
    requires DataKept(s)
    ensures DataKept(s.(store := Flush(s.store, h, a)))
  {
    AfterFlush(s.store, h, a);
  }

  lemma EvictKeeps(s: Link, h: nat, a: Addr)
    requires Invariant(s)
    ensures Invariant(s.(store := Flush(s.store, h, a)))
  {
    AfterFlush(s.store, h, a);
    EvictKeepsFlag(s, h, a);
    EvictKeepsData(s, h, a);
  }

  lemma PrefetchKeeps(s: Link, h: nat, a: Addr)
    requires Invariant(s)
    ensures Invariant(s.(store := Fetch(s.store, h, a)))
  {
    AfterFetch(s.store, h, a);
  }

  /** A step at the data lines, by either side, leaves the flag and the turn alone. */
  lemma FlagStays(s: Link, t: Link)
    requires FlagAgrees(s) && t.published == s.published && t.consumed == s.consumed
    requires |t.store.caches| == |s.store.caches| && Mem(t.store, FLAG) == Mem(s.store, FLAG)
    requires forall h: nat :: Dirty(t.store, h, FLAG) == Dirty(s.store, h, FLAG) && Flag(t, h) == Flag(s, h)
    requires t.producer == s.producer || (t.producer.Storing? && s.producer.Storing?)
             || (t.producer.Flushing? && s.producer.Flushing?)
    requires t.consumer == s.consumer || (t.consumer.Invalidating? && s.consumer.Invalidating?)
             || (t.consumer.Copying? && s.consumer.Copying?)
    ensures FlagAgrees(t)
  {
  }

  lemma ProducerKeeps(e: Event, s: Link)
    requires Invariant(s) && Enabled(e, s, true)
    requires e.SeeClear? || e.StartFlush? || e.Publish?
    ensures Invariant(Apply(e, s, true))
  {
    Flags();
  }

  lemma WriteKeepsData(s: Link)
    requires DataKept(s) && Enabled(Write, s, true) && |s.store.caches| >= 2
    ensures DataKept(Wrote(s, s.producer.data, s.producer.next))
  {
    AfterPut(s.store, PRODUCER, DataLine(s.producer.next), s.producer.data[s.producer.next]);
  }

  lemma WriteKeeps(s: Link)
    requires Invariant(s) && Enabled(Write, s, true)
    ensures Invariant(Apply(Write, s, true))
  {
    AfterPut(s.store, PRODUCER, DataLine(s.producer.next), s.producer.data[s.producer.next]);
    WriteKeepsData(s);
    FlagStays(s, Wrote(s, s.producer.data, s.producer.next));
  }

  lemma TearKeeps(s: Link, v: Line)
    requires Invariant(s) && Enabled(Tear(v), s, true)
    ensures Invariant(Apply(Tear(v), s, true))
  {
    AfterPut(s.store, PRODUCER, DataLine(s.producer.next), v);
  }

  lemma FlushNextKeepsData(s: Link)
    requires DataKept(s) && Enabled(FlushNext, s, true)
    ensures DataKept(FlushedLine(s, s.producer.data, s.producer.next))
  {
    AfterFlush(s.store, PRODUCER, DataLine(s.producer.next));
  }

  lemma FlushNextKeeps(s: Link)
    requires Invariant(s) && Enabled(FlushNext, s, true)
    ensures Invariant(Apply(FlushNext, s, true))
  {
    AfterFlush(s.store, PRODUCER, DataLine(s.producer.next));
    FlushNextKeepsData(s);
    FlagStays(s, FlushedLine(s, s.producer.data, s.producer.next));
  }

  lemma RaiseKeeps(s: Link)
    requires Invariant(s) && Enabled(Raise, s, true)
    ensures Invariant(Apply(Raise, s, true))
  {
    Flags();
    assert Filled(Flag(s, PRODUCER), 0, 64, 0x10) == Set();
    AfterPut(s.store, PRODUCER, FLAG, Set());
  }

  lemma FlushRaisedKeeps(s: Link)
    requires Invariant(s) && Enabled(FlushRaised, s, true)
    ensures Invariant(Apply(FlushRaised, s, true))
  {
    Flags();
    AfterFlush(s.store, PRODUCER, FLAG);
  }

  lemma ConsumerKeeps(e: Event, s: Link)
    requires Invariant(s) && Enabled(e, s, true)
    requires e.SeeSet? || e.StartCopy?
    ensures Invariant(Apply(e, s, true))
  {
    Flags();
  }

  /** The copy is complete, and it is the payload published last. */
  lemma ConsumeKeeps(s: Link)
    requires Invariant(s) && Enabled(Consume, s, true)
    ensures Pending(s) && s.consumer.got == s.published[|s.consumed|]
    ensures Invariant(Apply(Consume, s, true))
  {
    Flags();
    var data := s.published[|s.consumed|];
    assert data in s.published && s.consumer.got <= data;
    assert s.published == s.consumed + [data];
  }

  lemma InvalidateKeeps(s: Link)
    requires Invariant(s) && Enabled(InvalidateNext, s, true)
    ensures Invariant(Apply(InvalidateNext, s, true))
  {
    AfterFlush(s.store, CONSUMER, DataLine(s.consumer.next));
    FlagStays(s, Invalidated(s, s.consumer.next));
  }

  lemma LoadKeepsData(s: Link)
    requires DataKept(s) && Enabled(Load, s, true)
    ensures DataKept(Loaded(s, s.consumer.got))
  {
    AfterFetch(s.store, CONSUMER, DataLine(|s.consumer.got|));
  }

  /** The next line copied is the next line of the payload. */
  lemma LoadKeepsPayload(s: Link)
    requires PayloadKept(s) && FlagAgrees(s) && Enabled(Load, s, true)
    ensures PayloadKept(Loaded(s, s.consumer.got))
  {
    AfterFetch(s.store, CONSUMER, DataLine(|s.consumer.got|));
    assert IsFresh(s.consumer, |s.consumer.got|);
  }

  lemma LoadKeeps(s: Link)
    requires Invariant(s) && Enabled(Load, s, true)
    ensures Invariant(Apply(Load, s, true))
  {
    AfterFetch(s.store, CONSUMER, DataLine(|s.consumer.got|));
    LoadKeepsData(s);
    LoadKeepsPayload(s);
    FlagStays(s, Loaded(s, s.consumer.got));
  }

  lemma LowerKeeps(s: Link)
    requires Invariant(s) && Enabled(Lower, s, true)
    ensures Invariant(Apply(Lower, s, true))
  {
    Flags();
    assert Filled(Flag(s, CONSUMER), 0, 64, 0) == Clear();
    AfterPut(s.store, CONSUMER, FLAG, Clear());
  }

  lemma FlushLoweredKeeps(s: Link)
    requires Invariant(s) && Enabled(FlushLowered, s, true)
    ensures Invariant(Apply(FlushLowered, s, true))
  {
    Flags();
    AfterFlush(s.store, CONSUMER, FLAG);
  }

  lemma EventKeeps(e: Event, s: Link)
    requires Invariant(s) && Enabled(e, s, true)
    ensures Invariant(Apply(e, s, true))
  {
    match e
    case SeeClear(_) => ProducerKeeps(e, s);
    case Tear(v) => TearKeeps(s, v);
    case Write => WriteKeeps(s);
    case StartFlush => ProducerKeeps(e, s);
    case FlushNext => FlushNextKeeps(s);
    case Publish => ProducerKeeps(e, s);
    case Raise => RaiseKeeps(s);
    case FlushRaised => FlushRaisedKeeps(s);
    case SeeSet => ConsumerKeeps(e, s);
    case InvalidateNext => InvalidateKeeps(s);
    case StartCopy => ConsumerKeeps(e, s);
    case Load => LoadKeeps(s);
    case Consume => ConsumeKeeps(s);
    case Lower => LowerKeeps(s);
    case FlushLowered => FlushLoweredKeeps(s);
    case Prefetch(h, a) => PrefetchKeeps(s, h, a);
    case Evict(h, a) => EvictKeeps(s, h, a);
  }

  lemma {:induction false} EveryRunKeeps(origin: Link, es: seq<Event>)
    requires Start(origin) && Run(origin, es, true).Some?
    ensures Invariant(Run(origin, es, true).value)
    decreases |es|
  {
    if es != [] {
      EveryRunKeeps(origin, es[..|es| - 1]);
      EventKeeps(es[|es| - 1], Run(origin, es[..|es| - 1], true).value);
    }
  }

  /**
   * Whatever the caches prefetch and evict: what the consumer has taken is what the producer has published, each
   * payload once, complete and in order, but for at most one still on its way.
   */
  lemma ConsumedIsPublished(origin: Link, es: seq<Event>, s: Link)
    requires Start(origin) && Run(origin, es, true) == Some(s)
    ensures s.consumed <= s.published && |s.published| <= |s.consumed| + 1
  {
    EveryRunKeeps(origin, es);
  }

  // No payload is left lying, and no buffer held back.

  predicate ByProducer(e: Event) {
    e.SeeClear? || e.Tear? || e.Write? || e.StartFlush? || e.FlushNext? || e.Publish? || e.Raise? || e.RaisePart?
      || e.FlushRaised?
  }

  predicate ByConsumer(e: Event) {
    e.SeeSet? || e.InvalidateNext? || e.StartCopy? || e.Load? || e.Consume? || e.Lower? || e.LowerPart?
      || e.FlushLowered?
  }

  /** The consumer has yet to take a payload, and the raised flag is in memory. */
  predicate Announced(s: Link) {
    Pending(s) && Mem(s.store, FLAG) == Set()
  }

  /** Everything published is taken, and the lowered flag is in memory. */
  predicate Acknowledged(s: Link) {
    !Pending(s) && Mem(s.store, FLAG) == Clear()
  }

  /** An announced payload stays so, and what the consumer sees of the flag too, until the consumer itself moves. */
  lemma AnnouncedStays(e: Event, s: Link)
    requires Invariant(s) && Enabled(e, s, true) && !ByConsumer(e) && Announced(s)
    ensures var t := Apply(e, s, true);
            && Announced(t) && t.published == s.published && t.consumed == s.consumed
            && (Flag(s, CONSUMER) == Set() ==> Flag(t, CONSUMER) == Set())
  {
    Flags();
    match e
    case FlushRaised => AfterFlush(s.store, PRODUCER, FLAG);
    case Prefetch(h, a) => AfterFetch(s.store, h, a);
    case Evict(h, a) => AfterFlush(s.store, h, a);
    case _ =>
  }

  lemma AcknowledgedStays(e: Event, s: Link)
    requires Invariant(s) && Enabled(e, s, true) && !ByProducer(e) && Acknowledged(s)
    ensures var t := Apply(e, s, true);
            && Acknowledged(t) && t.published == s.published && t.consumed == s.consumed
            && (Flag(s, PRODUCER) == Clear() ==> Flag(t, PRODUCER) == Clear())
  {
    Flags();
    match e
    case FlushLowered => AfterFlush(s.store, CONSUMER, FLAG);
    case Prefetch(h, a) => AfterFetch(s.store, h, a);
    case Evict(h, a) => AfterFlush(s.store, h, a);
    case _ =>
  }

  /**
   * Between two passes of the producer a payload on its way is announced; between two of the consumer, with none on
   * its way, the slot is acknowledged. One side can always go on.
   */
  lemma OneSideGoesOn(origin: Link, es: seq<Event>, s: Link)
    requires Start(origin) && Run(origin, es, true) == Some(s)
    ensures s.producer.Polling? && |s.published| == |s.consumed| + 1 ==> Announced(s)
    ensures s.consumer.Watching? && |s.published| == |s.consumed| ==> Acknowledged(s)
    ensures |s.published| == |s.consumed| + 1 || |s.published| == |s.consumed|
  {
    EveryRunKeeps(origin, es);
  }

  // When the flag line is stored in pieces.

  ghost predicate Reaches(origin: Link, s: Link) {
    exists es :: Run(origin, es, false) == Some(s)
  }

  lemma Then(origin: Link, s: Link, e: Event, t: Link)
    requires Reaches(origin, s) && Enabled(e, s, false) && t == Apply(e, s, false)
    ensures Reaches(origin, t)
  {
    var es :| Run(origin, es, false) == Some(s);
    assert (es + [e])[..|es + [e]| - 1] == es;
    assert Run(origin, es + [e], false) == Some(t);
  }

  function Half(): Line {
    Filled(Clear(), 0, 32, 0x10)
  }

  /** Both sides idle. */
  function Resting(v: Line): Link {
    Link(1, Store(map[FLAG := Clear(), DataLine(0) := v], [map[], map[]]), Polling, Watching, [], [])
  }

  function Announcing(v: Line): Link {
    Resting(v).(producer := Raising(0), published := [[v]])
  }

  /** Half of the flag line is stored; a cache wrote it back and fetched it again. */
  function HalfRaised(v: Line): Link {
    Announcing(v).(producer := Raising(32),
                   store := Store(map[FLAG := Half(), DataLine(0) := v], [map[FLAG := Cached(Half(), false)], map[]]))
  }

  lemma PublishIsReached(v: Line)
    ensures Reaches(Resting(v), Announcing(v))
  {
    var o := Resting(v);
    Flags();
    assert Run(o, [], false) == Some(o);
    var s1 := o.(producer := Storing([v], 0));
    Then(o, o, SeeClear([v]), s1);
    var s2 := o.(producer := Storing([v], 1),
      store := Store(o.store.mem, [map[DataLine(0) := Cached(v, true)], map[]]));
    Then(o, s1, Write, s2);
    var s3 := s2.(producer := Flushing([v], 0));
    Then(o, s2, StartFlush, s3);
    var s4 := o.(producer := Flushing([v], 1));
    assert Apply(FlushNext, s3, false).store.mem == o.store.mem;
    Then(o, s3, FlushNext, s4);
    Then(o, s4, Publish, Announcing(v));
  }

  lemma HalfRaisedIsReached(v: Line)
    ensures Reaches(Resting(v), HalfRaised(v))
  {
    var o, s := Resting(v), Announcing(v);
    PublishIsReached(v);
    var s1 := s.(producer := Raising(32), store := Store(s.store.mem, [map[FLAG := Cached(Half(), true)], map[]]));
    Then(o, s, RaisePart(32), s1);
    var s2 := s.(producer := Raising(32), store := Store(map[FLAG := Half(), DataLine(0) := v], [map[], map[]]));
    Then(o, s1, Evict(PRODUCER, FLAG), s2);
    Then(o, s2, Prefetch(PRODUCER, FLAG), HalfRaised(v));
  }

  /** A consumer that sees the flag set takes what is in the data line. */
  lemma ConsumerTakes(origin: Link, s: Link, v: Line) returns (t: Link)
    requires Reaches(origin, s) && s.size == 1 && |s.store.caches| == 2 && s.consumer.Watching?
    requires First(Flag(s, CONSUMER)) == 0x10 && Mem(s.store, DataLine(0)) == v
             && !Dirty(s.store, CONSUMER, DataLine(0))
    ensures Reaches(origin, t)
    ensures t == s.(store := t.store, consumer := Lowering(0), consumed := s.consumed + [[v]])
    ensures |t.store.caches| == 2 && t.store.mem == s.store.mem && t.store.caches[PRODUCER] == s.store.caches[PRODUCER]
    ensures Flag(t, CONSUMER) == Flag(s, CONSUMER) && !Dirty(t.store, CONSUMER, DataLine(0))
  {
    var s1 := s.(consumer := Invalidating(0));
    Then(origin, s, SeeSet, s1);
    var s2 := Invalidated(s1, 0);
    Then(origin, s1, InvalidateNext, s2);
    AfterFlush(s.store, CONSUMER, DataLine(0));
    var s3 := s2.(consumer := Copying([]));
    Then(origin, s2, StartCopy, s3);
    var s4 := Loaded(s3, []);
    Then(origin, s3, Load, s4);
    AfterFetch(s3.store, CONSUMER, DataLine(0));
    assert s4.consumer.got == [v];
    t := s4.(consumer := Lowering(0), consumed := s.consumed + [[v]]);
    Then(origin, s4, Consume, t);
  }

  lemma LateHalfRaises(o: Link, s: Link, v: Line) returns (t: Link)
    requires Reaches(o, s) && |s.store.caches| == 2 && s.store.mem == map[FLAG := Half(), DataLine(0) := v]
    requires s.producer == Raising(32) && s.store.caches[PRODUCER] == map[FLAG := Cached(Half(), false)]
    requires s.consumer == Lowering(0) && Flag(s, CONSUMER) == Half() && !Dirty(s.store, CONSUMER, DataLine(0))
    ensures Reaches(o, t)
    ensures t == s.(store := t.store, producer := Polling, consumer := Watching)
    ensures |t.store.caches| == 2 && Flag(t, CONSUMER) == Set() && Mem(t.store, DataLine(0)) == v
    ensures !Dirty(t.store, CONSUMER, DataLine(0))
  {
    var s1 := s.(store := Put(s.store, CONSUMER, FLAG, Filled(Half(), 0, 64, 0)), consumer := Lowered);
    Then(o, s, Lower, s1);
    AfterPut(s.store, CONSUMER, FLAG, Filled(Half(), 0, 64, 0));
    var s2 := s1.(store := Flush(s1.store, CONSUMER, FLAG), consumer := Watching);
    Then(o, s1, FlushLowered, s2);
    AfterFlush(s1.store, CONSUMER, FLAG);
    assert Flag(s2, PRODUCER) == Half() && Filled(Half(), 32, 64, 0x10) == Set();
    var s3 := s2.(store := Put(s2.store, PRODUCER, FLAG, Set()), producer := Raised);
    Then(o, s2, Raise, s3);
    AfterPut(s2.store, PRODUCER, FLAG, Set());
    t := s3.(store := Flush(s3.store, PRODUCER, FLAG), producer := Polling);
    Then(o, s3, FlushRaised, t);
    AfterFlush(s3.store, PRODUCER, FLAG);
  }

  /**
   * If the flag line may be stored in pieces the handoff repeats a payload: half a flag reaches memory, the consumer
   * answers it, and the producer's late second half raises the flag again.
   */
  lemma TornFlagRepeats(v: Line) returns (s: Link)
    ensures Start(Resting(v)) && Reaches(Resting(v), s)
    ensures s.published == [[v]] && s.consumed == [[v], [v]]
  {
    Flags();
    assert First(Half()) == 0x10;
    HalfRaisedIsReached(v);
    s := ConsumerTakes(Resting(v), HalfRaised(v), v);
    s := LateHalfRaises(Resting(v), s, v);
    s := ConsumerTakes(Resting(v), s, v);
  }
}
