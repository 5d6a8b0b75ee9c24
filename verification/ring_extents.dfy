/**
 * Where the stores of a message queue go: sends and receives store into the header, the array and the
 * destination, an initialisation into the header. A queue whose header and array keep their bytes is the
 * same queue with the same messages.
 */
module RingExtents {
  import opened Bits
  import opened MemoryImage
  import opened GuestObjects
  import opened Extents
  import opened MessageRing

  function QueueExtents(queue: nat, r: Ring): seq<Extent> {
    [Extent(queue, QUEUE_SIZE), Extent(r.messages, r.capacity * MESSAGE_SIZE)]
  }

  lemma InsideQueue(m: Memory, queue: nat, r: Ring)
    requires WellShaped(m, queue, r)
    ensures forall e :: e in QueueExtents(queue, r) ==> Inside(m, e)
  {
    hide CellOf, Mapped;
  }

  lemma SlotKept(m: Memory, n: Memory, queue: nat, r: Ring, k: nat)
    requires WellFormed(m) && WellShaped(m, queue, r) && WellFormed(n) && WellShaped(n, queue, r) && k < r.capacity
    requires SpanKept(m, n, r.messages, r.capacity * MESSAGE_SIZE)
    ensures MappedRange(m, SlotAddress(r, k), MESSAGE_SIZE) && MappedRange(n, SlotAddress(r, k), MESSAGE_SIZE)
    ensures Slot(n, r, k) == Slot(m, r, k)
  {
    hide WellFormed, CellOf, Mapped, MappedRange, LoadBytes, Injective, Separate;
    ObjectLoad(m, r.messages, r.capacity * MESSAGE_SIZE, k * MESSAGE_SIZE, MESSAGE_SIZE);
    ObjectLoad(n, r.messages, r.capacity * MESSAGE_SIZE, k * MESSAGE_SIZE, MESSAGE_SIZE);
  }

  /** A queue whose header and array keep their bytes is the same queue. */
  lemma RingKept(m: Memory, n: Memory, queue: nat)
    requires RingOk(m, queue) && SameLayout(m, n) && WellFormed(n)
    requires SpanKept(m, n, queue, QUEUE_SIZE)
    requires SpanKept(m, n, RingAt(m, queue).messages, RingAt(m, queue).capacity * MESSAGE_SIZE)
    ensures RingOk(n, queue) && RingAt(n, queue) == RingAt(m, queue) && Contents(n, queue) == Contents(m, queue)
  {
    var r := RingAt(m, queue);
    ShapeKept(m, n, queue, r);
    forall k | 0 <= k < r.capacity
      ensures MappedRange(m, SlotAddress(r, k), MESSAGE_SIZE) && MappedRange(n, SlotAddress(r, k), MESSAGE_SIZE)
      ensures Slot(n, r, k) == Slot(m, r, k)
    {
      SlotKept(m, n, queue, r, k);
    }
    hide WellFormed, CellOf, Mapped, MappedRange, LoadBytes, Injective, Separate, RingIn, InOrder, Slot, SameLayout;
    assert Slots(n, queue, r) == Slots(m, queue, r);
  }

  /** A store of bytes inside one of several extents. */
  lemma KeepsWithin(m: Memory, f: Extent, fs: seq<Extent>, a: nat, bs: seq<Byte>)
    requires WellFormed(m) && f in fs && Inside(m, f) && MappedRange(m, a, |bs|)
    requires f.address <= a && a + |bs| <= f.address + f.size
    ensures Keeps(m, StoreBytes(m, a, bs), fs)
  {
    hide *;
    KeepsStore(m, f, a - f.address, bs);
    KeepsMore(m, StoreBytes(m, a, bs), [f], fs);
  }

  function ArrayExtent(r: Ring): Extent { Extent(r.messages, r.capacity * MESSAGE_SIZE) }

  lemma SlotInArray(m: Memory, queue: nat, r: Ring, k: nat)
    requires WellShaped(m, queue, r) && k < r.capacity
    ensures ArrayExtent(r) in QueueExtents(queue, r) && Inside(m, ArrayExtent(r))
    ensures ArrayExtent(r).address <= SlotAddress(r, k)
    ensures SlotAddress(r, k) + MESSAGE_SIZE <= ArrayExtent(r).address + ArrayExtent(r).size
  {
    hide CellOf, Mapped, MappedRange;
    assert QueueExtents(queue, r)[1] == ArrayExtent(r);
    assert k * MESSAGE_SIZE + MESSAGE_SIZE <= r.capacity * MESSAGE_SIZE;
  }

  function HeaderExtent(queue: nat): Extent { Extent(queue, QUEUE_SIZE) }

  lemma HeaderInQueue(m: Memory, queue: nat, r: Ring)
    requires MappedRange(m, queue, QUEUE_SIZE)
    ensures HeaderExtent(queue) in QueueExtents(queue, r) && Inside(m, HeaderExtent(queue))
    ensures HeaderExtent(queue).address == queue && HeaderExtent(queue).size == QUEUE_SIZE
  {
    hide CellOf, Mapped, MappedRange;
    assert QueueExtents(queue, r)[0] == HeaderExtent(queue);
  }

  lemma SlotStoreKeeps(m: Memory, queue: nat, r: Ring, k: nat, bs: seq<Byte>)
    requires WellFormed(m) && WellShaped(m, queue, r) && k < r.capacity && |bs| == MESSAGE_SIZE
    requires MappedRange(m, SlotAddress(r, k), |bs|)
    ensures Keeps(m, StoreBytes(m, SlotAddress(r, k), bs), QueueExtents(queue, r))
  {
    hide *;
    SlotInArray(m, queue, r, k);
    KeepsWithin(m, ArrayExtent(r), QueueExtents(queue, r), SlotAddress(r, k), bs);
  }

  lemma WordIsBytes(m: Memory, a: nat, v: Word)
    requires WellFormed(m) && MappedRange(m, a, 4)
    ensures |BytesOf(v, 4)| == 4 && StoreWord(m, a, v) == StoreBytes(m, a, BytesOf(v, 4))
  {
    hide WellFormed, CellOf, Mapped, BytesOf, StoreBytes;
  }

  lemma HeaderStoreKeeps(m: Memory, queue: nat, r: Ring, o: nat, v: Word)
    requires WellFormed(m) && MappedRange(m, queue, QUEUE_SIZE) && o + 4 <= QUEUE_SIZE
    requires MappedRange(m, queue + o, 4)
    ensures Keeps(m, StoreWord(m, queue + o, v), QueueExtents(queue, r))
  {
    hide *;
    HeaderInQueue(m, queue, r);
    WordIsBytes(m, queue + o, v);
    KeepsWithin(m, HeaderExtent(queue), QueueExtents(queue, r), queue + o, BytesOf(v, 4));
  }

  lemma StillMapped(m: Memory, n: Memory, a: nat, k: nat)
    requires WellFormed(m) && SameLayout(m, n) && MappedRange(m, a, k)
    ensures WellFormed(n) && MappedRange(n, a, k)
  {
    hide CellOf, Mapped, WellFormed, SameLayout;
    SameCells(m, n);
  }

  lemma KeepsLayout(m: Memory, n: Memory, fs: seq<Extent>)
    requires Keeps(m, n, fs)
    ensures WellFormed(m) && WellFormed(n) && SameLayout(m, n)
  {
  }

  lemma OffsetsFit()
    ensures FIRST + 4 <= QUEUE_SIZE && USED + 4 <= QUEUE_SIZE
  {
  }

  lemma PushSlotKeeps(m: Memory, queue: nat, r: Ring, k: Word, bs: seq<Byte>, front: bool)
    requires WellFormed(m) && WellShaped(m, queue, r) && k < r.capacity && |bs| == MESSAGE_SIZE
    requires MappedRange(m, queue, QUEUE_SIZE) && MappedRange(m, SlotAddress(r, k), |bs|)
    ensures Keeps(m, PushSlot(m, queue, r, k, bs, front), QueueExtents(queue, r))
  {
    hide *;
    OffsetsFit();
    PushSlotUnfolds(m, queue, r, k, bs, front);
    var filled := StoreBytes(m, SlotAddress(r, k), bs);
    SlotStoreKeeps(m, queue, r, k, bs);
    if front {
      StillMapped(m, filled, queue, QUEUE_SIZE);
      HeaderStoreKeeps(filled, queue, r, FIRST, k);
      KeepsChain(m, filled, StoreWord(filled, queue + FIRST, k), QueueExtents(queue, r));
    }
  }

  lemma PushKeeps(m: Memory, queue: nat, r: Ring, k: Word, bs: seq<Byte>, front: bool)
    requires WellFormed(m) && WellShaped(m, queue, r) && k < r.capacity && |bs| == MESSAGE_SIZE
    requires MappedRange(m, queue, QUEUE_SIZE) && MappedRange(m, SlotAddress(r, k), |bs|) && r.used < r.capacity
    ensures Keeps(m, Push(m, queue, r, k, bs, front), QueueExtents(queue, r))
  {
    hide *;
    OffsetsFit();
    PushUnfolds(m, queue, r, k, bs, front);
    PushSlotKeeps(m, queue, r, k, bs, front);
    var moved := PushSlot(m, queue, r, k, bs, front);
    HeaderStoreKeeps(moved, queue, r, USED, r.used + 1);
    KeepsChain(m, moved, StoreWord(moved, queue + USED, r.used + 1), QueueExtents(queue, r));
  }

  lemma SendUnfolds(m: Memory, queue: Word, message: Word, flags: Word)
    returns (r: Ring, k: Word, bs: seq<Byte>, front: bool)
    requires RingOk(m, queue) && SendOutcome(m, queue, message, flags).Done?
    ensures WellFormed(m) && MappedRange(m, queue, QUEUE_SIZE) && r == RingAt(m, queue)
    ensures WellShaped(m, queue, r) && k < r.capacity && r.used < r.capacity && |bs| == MESSAGE_SIZE
    ensures MappedRange(m, SlotAddress(r, k), |bs|)
    ensures AfterSend(m, queue, message, flags) == Push(m, queue, r, k, bs, front)
  {
    r := RingAt(m, queue);
    k, bs, front := TargetSlot(r, flags), LoadBytes(m, message, MESSAGE_SIZE), HighPriority(flags);
    hide WellFormed, CellOf, Mapped, WellShaped, LoadBytes, Push, RingIn, TargetSlot, SameLayout, MappedRange;
  }

  /** A send changes only its queue. */
  lemma SendKeeps(m: Memory, queue: Word, message: Word, flags: Word)
    requires RingOk(m, queue) && SendOutcome(m, queue, message, flags).Done?
    ensures MappedRange(m, queue, QUEUE_SIZE)
    ensures Keeps(m, AfterSend(m, queue, message, flags), QueueExtents(queue, RingAt(m, queue)))
  {
    hide *;
    var r, k, bs, front := SendUnfolds(m, queue, message, flags);
    PushKeeps(m, queue, r, k, bs, front);
  }

  lemma AdvancedKeeps(m: Memory, queue: nat, r: Ring)
    requires WellFormed(m) && MappedRange(m, queue, QUEUE_SIZE) && 0 < r.used <= r.capacity
    ensures Keeps(m, Advanced(m, queue, r), QueueExtents(queue, r))
  {
    hide *;
    OffsetsFit();
    AdvancedUnfolds(m, queue, r);
    var first: Word := (r.first + 1) % r.capacity;
    var moved := StoreWord(m, queue + FIRST, first);
    HeaderStoreKeeps(m, queue, r, FIRST, first);
    StillMapped(m, moved, queue, QUEUE_SIZE);
    HeaderStoreKeeps(moved, queue, r, USED, r.used - 1);
    KeepsChain(m, moved, StoreWord(moved, queue + USED, r.used - 1), QueueExtents(queue, r));
  }

  lemma ReceiveUnfolds(m: Memory, queue: Word, destination: Word, flags: Word)
    requires RingOk(m, queue) && ReceiveOutcome(m, queue, destination, flags).Done?
    ensures MappedRange(m, queue, QUEUE_SIZE) && MappedRange(m, destination, MESSAGE_SIZE)
    ensures var r := RingAt(m, queue);
            && 0 < r.used <= r.capacity && MappedRange(m, SlotAddress(r, r.first), MESSAGE_SIZE)
            && (var bs := LoadBytes(m, SlotAddress(r, r.first), MESSAGE_SIZE);
                && |bs| == MESSAGE_SIZE && MappedRange(StoreBytes(m, destination, bs), queue, QUEUE_SIZE)
                && AfterReceive(m, queue, destination, flags) == Advanced(StoreBytes(m, destination, bs), queue, r))
  {
    hide WellFormed, CellOf, Mapped, WellShaped, LoadBytes, Advanced, RingIn, SameLayout;
  }

  function Destination(a: nat): Extent { Extent(a, MESSAGE_SIZE) }

  /** A receive changes only its destination and its queue. */
  lemma ReceiveKeeps(m: Memory, queue: Word, destination: Word, flags: Word)
    requires RingOk(m, queue) && ReceiveOutcome(m, queue, destination, flags).Done?
    ensures MappedRange(m, queue, QUEUE_SIZE)
    ensures Keeps(m, AfterReceive(m, queue, destination, flags),
                  [Destination(destination)] + QueueExtents(queue, RingAt(m, queue)))
  {
    assert WellFormed(m);
    assert Destination(destination).address == destination && Destination(destination).size == MESSAGE_SIZE;
    ReceiveUnfolds(m, queue, destination, flags);
    assert Inside(m, Destination(destination));
    hide *;
    var r := RingAt(m, queue);
    var bs := LoadBytes(m, SlotAddress(r, r.first), MESSAGE_SIZE);
    var copied := StoreBytes(m, destination, bs);
    var fs := [Destination(destination)] + QueueExtents(queue, r);
    assert fs[0] in fs;
    KeepsWithin(m, Destination(destination), fs, destination, bs);
    AdvancedKeeps(copied, queue, r);
    TailIn([Destination(destination)], QueueExtents(queue, r));
    KeepsMore(copied, Advanced(copied, queue, r), QueueExtents(queue, r), fs);
    KeepsChain(m, copied, Advanced(copied, queue, r), fs);
  }

  lemma TailIn(fs: seq<Extent>, gs: seq<Extent>)
    ensures forall i :: 0 <= i < |gs| ==> gs[i] in fs + gs
  {
    assert forall i :: 0 <= i < |gs| ==> (fs + gs)[|fs| + i] == gs[i];
  }

  /** The initialisation of a queue changes only its header. */
  lemma InitKeeps(m: Memory, queue: Word, messages: Word, capacity: Word)
    requires WellFormed(m) && MappedRange(m, queue, QUEUE_SIZE)
    ensures Keeps(m, AfterInit(m, queue, messages, capacity), [HeaderExtent(queue)])
  {
    var n := AfterInit(m, queue, messages, capacity);
    forall e | Inside(m, e) && ApartFromAll(m, [HeaderExtent(queue)], e) ensures Kept(m, n, e) {
      KeptByInit(m, queue, messages, capacity, e);
    }
    hide WellFormed, CellOf, Mapped, MappedRange, SameLayout, LoadBytes, Separate, AfterInit, Inside, ApartFromAll,
         Kept, Sep;
  }

  lemma KeptByInit(m: Memory, queue: Word, messages: Word, capacity: Word, e: Extent)
    requires WellFormed(m) && MappedRange(m, queue, QUEUE_SIZE)
    requires Inside(m, e) && ApartFromAll(m, [HeaderExtent(queue)], e)
    ensures Kept(m, AfterInit(m, queue, messages, capacity), e)
  {
    QueueWordsList(queue, messages, capacity);
    ApartFromOne(m, HeaderExtent(queue), e);
    hide WellFormed, CellOf, Mapped, MappedRange, SameLayout, LoadBytes, Separate, Initialised, SpanKept, ApartFromAll,
         QueueWords, StoresFit;
    InitialisedFrame(m, queue, QUEUE_SIZE, QueueWords(queue, messages, capacity), e.address, e.size);
  }
}
