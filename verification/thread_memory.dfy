/**
 * The scheduler's machine in guest memory: OSThread objects hold its threads and message rings its deques,
 * and no two of them share a cell. Stores into one of them change the encoded state in that place only.
 */
module ThreadMemory {
  import opened Bits
  import opened MemoryImage
  import opened GuestObjects
  import opened Extents
  import opened ThreadObjects
  import opened RingExtents
  import opened GuestThreads
  import MessageRing

  /** Memory holds a thread's object. */
  ghost predicate ThreadHeld(m: Memory, a: nat, o: OsThread)
    requires WellFormed(m)
  {
    MappedRange(m, a, THREAD_SIZE) && ThreadAt(m, a) == o
  }

  /** Memory holds a queue: its ring is the deque. */
  ghost predicate QueueHeld(m: Memory, q: nat, d: MessageQueue) {
    q != 0 && MessageRing.RingOk(m, q) && MessageRing.RingAt(m, q).capacity == d.capacity &&
    MessageRing.Contents(m, q) == d.messages
  }

  ghost function QueueSpan(m: Memory, q: nat): seq<Extent>
    requires MessageRing.RingOk(m, q)
  {
    QueueExtents(q, MessageRing.RingAt(m, q))
  }

  ghost predicate Held(m: Memory, w: World) {
    && WellFormed(m)
    && (forall a :: a in w.objects ==> ThreadHeld(m, a, w.objects[a]))
    && (forall q :: q in w.queues ==> QueueHeld(m, q, w.queues[q]))
  }

  /** No queue touches another thread's object. */
  ghost predicate ClearOf(m: Memory, a: nat, fs: seq<Extent>) {
    forall e :: e in fs ==> Sep(m, ThreadExtent(a), e) && Sep(m, e, ThreadExtent(a))
  }

  ghost predicate Disjoint(m: Memory, es: seq<Extent>, fs: seq<Extent>) {
    forall e, f :: e in es && f in fs ==> Sep(m, e, f)
  }

  /** Objects and queues share no cell. */
  ghost predicate Spread(m: Memory, w: World)
    requires Held(m, w)
  {
    && (forall a, b :: a in w.objects && b in w.objects && a != b ==> Sep(m, ThreadExtent(a), ThreadExtent(b)))
    && (forall a, q :: a in w.objects && q in w.queues ==> ClearOf(m, a, QueueSpan(m, q)))
    && (forall p, q :: p in w.queues && q in w.queues && p != q ==> Disjoint(m, QueueSpan(m, p), QueueSpan(m, q)))
  }

  ghost predicate Encoded(m: Memory, w: World) { Held(m, w) && Spread(m, w) }

  lemma ThreadKept(m: Memory, n: Memory, a: nat, o: OsThread)
    requires WellFormed(m) && WellFormed(n) && ThreadHeld(m, a, o) && Kept(m, n, ThreadExtent(a))
    ensures ThreadHeld(n, a, o)
  {
    hide WellFormed, CellOf, Mapped, MappedRange, LoadBytes, ThreadIn;
  }

  lemma QueueKept(m: Memory, n: Memory, q: nat, d: MessageQueue)
    requires QueueHeld(m, q, d) && SameLayout(m, n) && WellFormed(n)
    requires forall e :: e in QueueSpan(m, q) ==> Kept(m, n, e)
    ensures QueueHeld(n, q, d) && QueueSpan(n, q) == QueueSpan(m, q)
  {
    QueueSpanIs(m, q);
    hide *;
    QueueParts(m, q, d);
    assert Kept(m, n, HeaderExtent(q)) && Kept(m, n, ArrayExtent(MessageRing.RingAt(m, q)));
    RingKeptBy(m, n, q);
    QueueParts(n, q, d);
    SameSpan(m, n, q);
  }

  lemma QueueSpanIs(m: Memory, q: nat)
    requires MessageRing.RingOk(m, q)
    ensures HeaderExtent(q) in QueueSpan(m, q) && ArrayExtent(MessageRing.RingAt(m, q)) in QueueSpan(m, q)
  {
    assert QueueSpan(m, q)[0] == HeaderExtent(q) && QueueSpan(m, q)[1] == ArrayExtent(MessageRing.RingAt(m, q));
    hide WellFormed, CellOf, Mapped, MappedRange, LoadBytes, MessageRing.WellShaped, MessageRing.RingIn;
  }

  lemma QueueParts(m: Memory, q: nat, d: MessageQueue)
    ensures QueueHeld(m, q, d) <==>
      && q != 0 && MessageRing.RingOk(m, q) && MessageRing.RingAt(m, q).capacity == d.capacity
      && MessageRing.Contents(m, q) == d.messages
    ensures MessageRing.RingOk(m, q) ==> WellFormed(m) && MappedRange(m, q, MessageRing.QUEUE_SIZE)
  {
    hide WellFormed, CellOf, Mapped, MappedRange, LoadBytes, MessageRing.WellShaped, MessageRing.RingIn,
         MessageRing.Contents;
  }

  lemma SameSpan(m: Memory, n: Memory, q: nat)
    requires MessageRing.RingOk(m, q) && MessageRing.RingOk(n, q)
    requires MessageRing.RingAt(m, q) == MessageRing.RingAt(n, q)
    ensures QueueSpan(m, q) == QueueSpan(n, q)
  {
    hide WellFormed, CellOf, Mapped, MappedRange, LoadBytes, MessageRing.WellShaped, MessageRing.RingIn;
  }

  lemma RingKeptBy(m: Memory, n: Memory, q: nat)
    requires MessageRing.RingOk(m, q) && SameLayout(m, n) && WellFormed(n)
    requires Kept(m, n, HeaderExtent(q)) && Kept(m, n, ArrayExtent(MessageRing.RingAt(m, q)))
    ensures MessageRing.RingOk(n, q) && MessageRing.RingAt(n, q) == MessageRing.RingAt(m, q)
    ensures MessageRing.Contents(n, q) == MessageRing.Contents(m, q)
  {
    hide WellFormed, CellOf, Mapped, MappedRange, LoadBytes, MessageRing.Contents, MessageRing.RingOk, SpanKept,
         SameLayout, MessageRing.RingIn, MessageRing.WellShaped;
    RingKept(m, n, q);
  }

  lemma SepKept(m: Memory, n: Memory, es: seq<Extent>, fs: seq<Extent>, a: nat, b: nat)
    requires WellFormed(m) && SameLayout(m, n)
    ensures Disjoint(m, es, fs) ==> Disjoint(n, es, fs)
    ensures ClearOf(m, a, fs) ==> ClearOf(n, a, fs)
    ensures Sep(m, ThreadExtent(a), ThreadExtent(b)) ==> Sep(n, ThreadExtent(a), ThreadExtent(b))
  {
    hide WellFormed, CellOf, Mapped, SameLayout;
    SameCells(m, n);
  }

  /** A thread is untouched, or memory holds its new object. */
  ghost predicate ThreadStep(m: Memory, n: Memory, fs: seq<Extent>, a: nat, o: OsThread, u: OsThread)
    requires WellFormed(n)
  {
    (o == u && ApartFromAll(m, fs, ThreadExtent(a))) || ThreadHeld(n, a, u)
  }

  /** A queue is untouched, or memory holds the new one in the same place. */
  ghost predicate QueueStep(m: Memory, n: Memory, fs: seq<Extent>, q: nat, d: MessageQueue, u: MessageQueue)
    requires MessageRing.RingOk(m, q)
  {
    || (d == u && forall e :: e in QueueSpan(m, q) ==> ApartFromAll(m, fs, e))
    || (QueueHeld(n, q, u) && QueueSpan(n, q) == QueueSpan(m, q))
  }

  lemma ThreadStepHeld(m: Memory, n: Memory, fs: seq<Extent>, a: nat, o: OsThread, u: OsThread)
    requires Keeps(m, n, fs) && ThreadHeld(m, a, o) && ThreadStep(m, n, fs, a, o, u)
    ensures ThreadHeld(n, a, u)
  {
    hide WellFormed, CellOf, Mapped, MappedRange, LoadBytes, ThreadIn, SameLayout, SpanKept, ApartFromAll, ThreadAt;
    if o == u && ApartFromAll(m, fs, ThreadExtent(a)) { ThreadKept(m, n, a, o); }
  }

  lemma QueueStepHeld(m: Memory, n: Memory, fs: seq<Extent>, q: nat, d: MessageQueue, u: MessageQueue)
    requires Keeps(m, n, fs) && QueueHeld(m, q, d) && QueueStep(m, n, fs, q, d, u)
    ensures QueueHeld(n, q, u) && QueueSpan(n, q) == QueueSpan(m, q)
  {
    InsideQueue(m, q, MessageRing.RingAt(m, q));
    hide WellFormed, CellOf, Mapped, MappedRange, LoadBytes, SameLayout, SpanKept, ApartFromAll, MessageRing.RingIn,
         MessageRing.Contents, MessageRing.WellShaped, QueueExtents;
    if d == u && forall e :: e in QueueSpan(m, q) ==> ApartFromAll(m, fs, e) { QueueKept(m, n, q, d); }
  }

  /** Stores that leave every thread and queue either untouched or as in `v`. */
  lemma Updated(m: Memory, n: Memory, w: World, v: World, fs: seq<Extent>)
    requires Encoded(m, w) && Keeps(m, n, fs)
    requires v.objects.Keys == w.objects.Keys && v.queues.Keys == w.queues.Keys
    requires forall a :: a in w.objects ==> ThreadStep(m, n, fs, a, w.objects[a], v.objects[a])
    requires forall q :: q in w.queues ==> QueueStep(m, n, fs, q, w.queues[q], v.queues[q])
    ensures Encoded(n, v)
  {
    hide WellFormed, Keeps, ThreadHeld, ThreadStep, QueueStep, QueueSpan, ClearOf, Disjoint, Sep,
         MessageRing.RingOk, MessageRing.Contents, MessageRing.RingAt, SameLayout;
    KeepsLayout(m, n, fs);
    forall a | a in v.objects ensures ThreadHeld(n, a, v.objects[a]) {
      ThreadStepHeld(m, n, fs, a, w.objects[a], v.objects[a]);
    }
    forall q | q in v.queues ensures QueueHeld(n, q, v.queues[q]) && QueueSpan(n, q) == QueueSpan(m, q) {
      QueueStepHeld(m, n, fs, q, w.queues[q], v.queues[q]);
    }
    forall a, b ensures Sep(m, ThreadExtent(a), ThreadExtent(b)) ==> Sep(n, ThreadExtent(a), ThreadExtent(b)) {
      SepKept(m, n, [], [], a, b);
    }
    forall a: nat, gs: seq<Extent> ensures ClearOf(m, a, gs) ==> ClearOf(n, a, gs) { SepKept(m, n, [], gs, a, 0); }
    forall es, gs ensures Disjoint(m, es, gs) ==> Disjoint(n, es, gs) { SepKept(m, n, es, gs, 0, 0); }
  }

  /** Registers, clock and records are not in these objects. */
  lemma SameParts(m: Memory, w: World, v: World)
    requires Encoded(m, w) && v.objects == w.objects && v.queues == w.queues
    ensures Encoded(m, v)
  {
    hide WellFormed, ThreadHeld, QueueHeld, QueueSpan, ClearOf, Disjoint, Sep, MessageRing.RingOk;
  }

  /** The extents touch no thread and no queue. */
  ghost predicate Outside(m: Memory, w: World, fs: seq<Extent>)
    requires Held(m, w)
  {
    && (forall a :: a in w.objects ==> ApartFromAll(m, fs, ThreadExtent(a)))
    && (forall q, e :: q in w.queues && e in QueueSpan(m, q) ==> ApartFromAll(m, fs, e))
  }

  lemma GuestStored(m: Memory, n: Memory, w: World, fs: seq<Extent>)
    requires Encoded(m, w) && Keeps(m, n, fs) && Outside(m, w, fs)
    ensures Encoded(n, w)
  {
    hide WellFormed, Keeps, ThreadHeld, QueueSpan, ClearOf, Disjoint, Sep, MessageRing.RingOk,
         MessageRing.Contents, MessageRing.RingAt, ApartFromAll;
    KeepsLayout(m, n, fs);
    Updated(m, n, w, w, fs);
  }

  lemma ApartFromThread(m: Memory, w: World, a: Word, b: Word)
    requires Encoded(m, w) && a in w.objects && b in w.objects && a != b
    ensures ApartFromAll(m, [ThreadExtent(a)], ThreadExtent(b))
  {
    hide WellFormed, ThreadHeld, QueueHeld, QueueSpan, ClearOf, Disjoint, Sep, ApartFromAll;
    ApartFromOne(m, ThreadExtent(a), ThreadExtent(b));
  }

  lemma QueueApartFromThread(m: Memory, w: World, a: Word, q: Word, e: Extent)
    requires Encoded(m, w) && a in w.objects && q in w.queues
    requires MessageRing.RingOk(m, q) && e in QueueSpan(m, q)
    ensures ApartFromAll(m, [ThreadExtent(a)], e)
  {
    hide WellFormed, ThreadHeld, QueueHeld, QueueSpan, Disjoint, Sep, ApartFromAll, MessageRing.RingOk;
    assert ClearOf(m, a, QueueSpan(m, q));
    ApartFromOne(m, ThreadExtent(a), e);
  }

  /** Stores into one thread's object. */
  lemma ThreadStored(m: Memory, n: Memory, w: World, a: Word, u: OsThread)
    requires Encoded(m, w) && a in w.objects && Keeps(m, n, [ThreadExtent(a)])
    requires WellFormed(n) && ThreadHeld(n, a, u)
    ensures Encoded(n, w.(objects := w.objects[a := u]))
  {
    var v := w.(objects := w.objects[a := u]);
    hide WellFormed, Keeps, ThreadHeld, QueueSpan, ClearOf, Disjoint, Sep, MessageRing.RingOk,
         MessageRing.Contents, MessageRing.RingAt, ApartFromAll, Spread;
    forall b | b in w.objects ensures ThreadStep(m, n, [ThreadExtent(a)], b, w.objects[b], v.objects[b]) {
      if b != a { ApartFromThread(m, w, a, b); }
    }
    forall q | q in w.queues
      ensures QueueHeld(m, q, w.queues[q]) && QueueStep(m, n, [ThreadExtent(a)], q, w.queues[q], v.queues[q])
    {
      assert QueueHeld(m, q, w.queues[q]);
      forall e | e in QueueSpan(m, q) ensures ApartFromAll(m, [ThreadExtent(a)], e) {
        QueueApartFromThread(m, w, a, q, e);
      }
    }
    Updated(m, n, w, v, [ThreadExtent(a)]);
  }

  lemma ApartJoin(m: Memory, fs: seq<Extent>, gs: seq<Extent>, e: Extent)
    requires ApartFromAll(m, fs, e) && forall f :: f in gs ==> Sep(m, f, e)
    ensures ApartFromAll(m, fs + gs, e)
  {
    hide Sep;
    forall i | 0 <= i < |fs + gs| ensures Sep(m, (fs + gs)[i], e) {
      if i >= |fs| { assert (fs + gs)[i] in gs; }
    }
  }

  lemma ThreadApartFromQueue(m: Memory, w: World, q: Word, extra: seq<Extent>, a: Word)
    requires Encoded(m, w) && q in w.queues && MessageRing.RingOk(m, q) && a in w.objects && Outside(m, w, extra)
    ensures ApartFromAll(m, extra + QueueSpan(m, q), ThreadExtent(a))
  {
    hide WellFormed, ThreadHeld, QueueSpan, Sep, Disjoint, MessageRing.RingOk, MessageRing.Contents,
         MessageRing.RingAt, ApartFromAll;
    assert ClearOf(m, a, QueueSpan(m, q));
    ApartJoin(m, extra, QueueSpan(m, q), ThreadExtent(a));
  }

  lemma QueueApartFromQueue(m: Memory, w: World, q: Word, extra: seq<Extent>, p: Word, e: Extent)
    requires Encoded(m, w) && q in w.queues && MessageRing.RingOk(m, q) && Outside(m, w, extra)
    requires p in w.queues && p != q && MessageRing.RingOk(m, p) && e in QueueSpan(m, p)
    ensures ApartFromAll(m, extra + QueueSpan(m, q), e)
  {
    hide WellFormed, ThreadHeld, QueueSpan, Sep, ClearOf, MessageRing.RingOk, MessageRing.Contents,
         MessageRing.RingAt, ApartFromAll;
    assert Disjoint(m, QueueSpan(m, q), QueueSpan(m, p));
    ApartJoin(m, extra, QueueSpan(m, q), e);
  }

  lemma EncodedQueue(m: Memory, w: World, q: Word)
    requires Encoded(m, w) && q in w.queues
    ensures QueueHeld(m, q, w.queues[q]) && MessageRing.RingOk(m, q)
  {
    hide WellFormed, ThreadHeld, Spread, MessageRing.RingOk, MessageRing.Contents, MessageRing.RingAt;
  }

  /** Stores into one queue, and elsewhere outside all threads and queues. */
  lemma QueueStored(m: Memory, n: Memory, w: World, q: Word, u: MessageQueue, extra: seq<Extent>)
    requires Encoded(m, w) && q in w.queues && MessageRing.RingOk(m, q)
    requires Keeps(m, n, extra + QueueSpan(m, q)) && Outside(m, w, extra)
    requires QueueHeld(n, q, u) && QueueSpan(n, q) == QueueSpan(m, q)
    ensures Encoded(n, w.(queues := w.queues[q := u]))
  {
    hide *;
    var v, fs := w.(queues := w.queues[q := u]), extra + QueueSpan(m, q);
    KeepsLayout(m, n, fs);
    forall a | a in w.objects ensures ThreadStep(m, n, fs, a, w.objects[a], v.objects[a]) {
      ThreadApartFromQueue(m, w, q, extra, a);
      ThreadUntouched(m, n, fs, a, w.objects[a]);
    }
    forall p | p in w.queues
      ensures MessageRing.RingOk(m, p) && QueueStep(m, n, fs, p, w.queues[p], v.queues[p])
    {
      EncodedQueue(m, w, p);
      if p == q {
        QueueReplaced(m, n, fs, q, w.queues[q], u);
      } else {
        OtherQueueUntouched(m, n, w, q, extra, p);
      }
    }
    Updated(m, n, w, v, fs);
  }

  lemma ThreadUntouched(m: Memory, n: Memory, fs: seq<Extent>, a: nat, o: OsThread)
    requires WellFormed(n) && ApartFromAll(m, fs, ThreadExtent(a))
    ensures ThreadStep(m, n, fs, a, o, o)
  {
    hide ThreadHeld, ApartFromAll;
  }

  lemma QueueReplaced(m: Memory, n: Memory, fs: seq<Extent>, q: nat, d: MessageQueue, u: MessageQueue)
    requires MessageRing.RingOk(m, q) && QueueHeld(n, q, u) && QueueSpan(n, q) == QueueSpan(m, q)
    ensures QueueStep(m, n, fs, q, d, u)
  {
    hide ApartFromAll, QueueSpan, MessageRing.RingOk, MessageRing.Contents, MessageRing.RingAt;
  }

  lemma OtherQueueUntouched(m: Memory, n: Memory, w: World, q: Word, extra: seq<Extent>, p: Word)
    requires Encoded(m, w) && q in w.queues && MessageRing.RingOk(m, q) && Outside(m, w, extra)
    requires p in w.queues && p != q && MessageRing.RingOk(m, p)
    ensures QueueStep(m, n, extra + QueueSpan(m, q), p, w.queues[p], w.queues[p])
  {
    forall e | e in QueueSpan(m, p) ensures ApartFromAll(m, extra + QueueSpan(m, q), e) {
      QueueApartFromQueue(m, w, q, extra, p, e);
    }
    hide QueueHeld, QueueSpan, MessageRing.RingOk, ApartFromAll, Encoded, Outside;
  }

  // Threads and queues that come and go

  lemma DropQueue(m: Memory, w: World, q: Word)
    requires Encoded(m, w)
    ensures Encoded(m, w.(queues := w.queues - {q}))
  {
    hide WellFormed, ThreadHeld, QueueHeld, QueueSpan, ClearOf, Disjoint, Sep, MessageRing.RingOk;
  }

  /** The extents of a queue touch no thread and no queue. */
  ghost predicate Free(m: Memory, w: World, fs: seq<Extent>)
    requires Held(m, w)
  {
    && (forall a :: a in w.objects ==> ClearOf(m, a, fs))
    && (forall p :: p in w.queues ==> Disjoint(m, fs, QueueSpan(m, p)) && Disjoint(m, QueueSpan(m, p), fs))
  }

  lemma AddQueue(m: Memory, w: World, q: Word, d: MessageQueue)
    requires Encoded(m, w) && q !in w.queues && QueueHeld(m, q, d)
    requires MessageRing.RingOk(m, q) && Free(m, w, QueueSpan(m, q))
    ensures Encoded(m, w.(queues := w.queues[q := d]))
  {
    hide WellFormed, ThreadHeld, QueueSpan, ClearOf, Disjoint, Sep, MessageRing.RingOk, MessageRing.Contents,
         MessageRing.RingAt;
  }

  /** A place for an object that no thread and no queue uses. */
  ghost predicate FreePlace(m: Memory, w: World, a: nat)
    requires Held(m, w)
  {
    && (forall b :: b in w.objects ==>
          Sep(m, ThreadExtent(a), ThreadExtent(b)) && Sep(m, ThreadExtent(b), ThreadExtent(a)))
    && (forall q :: q in w.queues ==> ClearOf(m, a, QueueSpan(m, q)))
  }

  lemma AddThread(m: Memory, w: World, a: Word, o: OsThread)
    requires Encoded(m, w) && a !in w.objects && WellFormed(m) && ThreadHeld(m, a, o) && FreePlace(m, w, a)
    ensures Encoded(m, w.(objects := w.objects[a := o]))
  {
    hide WellFormed, ThreadHeld, QueueSpan, ClearOf, Disjoint, Sep, MessageRing.RingOk, MessageRing.Contents,
         MessageRing.RingAt;
  }

  /** Which places are free depends on the layout and on the queues only. */
  lemma FreeKept(m: Memory, n: Memory, w: World, fs: seq<Extent>, gs: seq<Extent>)
    requires Encoded(m, w) && Keeps(m, n, gs) && Outside(m, w, gs) && Free(m, w, fs)
    ensures Encoded(n, w) && Free(n, w, fs)
  {
    GuestStored(m, n, w, gs);
    KeepsLayout(m, n, gs);
    SpansKept(m, n, w, gs);
    hide WellFormed, ThreadHeld, QueueSpan, ClearOf, Disjoint, Sep, MessageRing.RingOk, MessageRing.Contents,
         MessageRing.RingAt, Keeps, Outside, SameLayout, Spread, Encoded, Held;
    forall a | a in w.objects ensures ClearOf(n, a, fs) { SepKept(m, n, [], fs, a, 0); }
    forall p | p in w.queues ensures Disjoint(n, fs, QueueSpan(n, p)) && Disjoint(n, QueueSpan(n, p), fs) {
      SepKept(m, n, fs, QueueSpan(m, p), 0, 0);
      SepKept(m, n, QueueSpan(m, p), fs, 0, 0);
    }
  }

  lemma OneSpanKept(m: Memory, n: Memory, w: World, gs: seq<Extent>, q: Word)
    requires Encoded(m, w) && Held(m, w) && Keeps(m, n, gs) && Outside(m, w, gs) && q in w.queues
    ensures MessageRing.RingOk(m, q) && MessageRing.RingOk(n, q) && QueueSpan(n, q) == QueueSpan(m, q)
  {
    hide *;
    EncodedQueue(m, w, q);
    OutsideStep(m, n, w, gs, q);
    QueueStepHeld(m, n, gs, q, w.queues[q], w.queues[q]);
    QueueParts(n, q, w.queues[q]);
  }

  lemma OutsideStep(m: Memory, n: Memory, w: World, gs: seq<Extent>, q: Word)
    requires Held(m, w) && Outside(m, w, gs) && q in w.queues && MessageRing.RingOk(m, q)
    ensures QueueStep(m, n, gs, q, w.queues[q], w.queues[q])
  {
    hide WellFormed, ThreadHeld, QueueHeld, QueueSpan, ApartFromAll, MessageRing.RingOk;
  }

  lemma SpansKept(m: Memory, n: Memory, w: World, gs: seq<Extent>)
    requires Encoded(m, w) && Keeps(m, n, gs) && Outside(m, w, gs)
    ensures Held(m, w) && Held(n, w)
    ensures forall q :: q in w.queues ==>
              MessageRing.RingOk(m, q) && MessageRing.RingOk(n, q) && QueueSpan(n, q) == QueueSpan(m, q)
  {
    GuestStored(m, n, w, gs);
    forall q | q in w.queues
      ensures MessageRing.RingOk(m, q) && MessageRing.RingOk(n, q) && QueueSpan(n, q) == QueueSpan(m, q)
    {
      OneSpanKept(m, n, w, gs, q);
    }
    hide WellFormed, ThreadHeld, QueueSpan, Spread, QueueHeld, Keeps, Outside, MessageRing.RingOk;
  }

  // The scheduler's stores

  lemma EncodedThread(m: Memory, w: World, a: Word)
    requires Encoded(m, w) && a in w.objects
    ensures WellFormed(m) && MappedRange(m, a, THREAD_SIZE) && ThreadAt(m, a) == w.objects[a]
  {
    hide WellFormed, ThreadAt, MappedRange, QueueHeld, Spread;
  }

  lemma HeldBy(n: Memory, a: nat, u: OsThread)
    requires WellFormed(n) && MappedRange(n, a, THREAD_SIZE) && ThreadAt(n, a) == u
    ensures ThreadHeld(n, a, u)
  {
    hide ThreadAt;
  }

  lemma StateEncoded(m: Memory, w: World, a: Word, v: Byte)
    requires Encoded(m, w) && a in w.objects
    ensures WellFormed(m) && MappedRange(m, a, THREAD_SIZE)
    ensures Encoded(SetState(m, a, v), w.(objects := w.objects[a := w.objects[a].(state := v)]))
  {
    hide *;
    EncodedThread(m, w, a);
    StateStored(m, a, v);
    HeldBy(SetState(m, a, v), a, w.objects[a].(state := v));
    ThreadStored(m, SetState(m, a, v), w, a, w.objects[a].(state := v));
  }

  lemma SuspendEncoded(m: Memory, w: World, a: Word, v: Word)
    requires Encoded(m, w) && a in w.objects
    ensures WellFormed(m) && MappedRange(m, a, THREAD_SIZE)
    ensures Encoded(SetSuspend(m, a, v), w.(objects := w.objects[a := w.objects[a].(suspend := v)]))
  {
    hide *;
    EncodedThread(m, w, a);
    SuspendStored(m, a, v);
    HeldBy(SetSuspend(m, a, v), a, w.objects[a].(suspend := v));
    ThreadStored(m, SetSuspend(m, a, v), w, a, w.objects[a].(suspend := v));
  }

  lemma ContextEncoded(m: Memory, w: World, a: Word, r: Registers, cia: Word)
    requires Encoded(m, w) && a in w.objects && ValidRegisters(r)
    ensures WellFormed(m) && MappedRange(m, a, THREAD_SIZE)
    ensures Encoded(SetContext(m, a, r, cia),
                    w.(objects := w.objects[a := w.objects[a].(context := r.(cia := cia))]))
  {
    hide *;
    EncodedThread(m, w, a);
    ContextStored(m, a, r, cia);
    HeldBy(SetContext(m, a, r, cia), a, w.objects[a].(context := r.(cia := cia)));
    ThreadStored(m, SetContext(m, a, r, cia), w, a, w.objects[a].(context := r.(cia := cia)));
  }
}
