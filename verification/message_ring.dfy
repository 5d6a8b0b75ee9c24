/**
 * The message ring in guest memory: a header with the array, its capacity, the first index and the used
 * count. A well-formed ring is a bounded deque; sends and receives store what pushes and pops of that
 * deque require, and nothing else.
 */
module MessageRing {
  import opened Bits
  import opened MemoryImage
  import opened GuestObjects
  import opened GuestMemoryModel
  import opened GuestAccess

  const QUEUE_SIZE: nat := 0x3C
  const MESSAGE_SIZE: nat := 0x10
  const MESSAGES: nat := 0x2C
  const CAPACITY: nat := 0x30
  const FIRST: nat := 0x34
  const USED: nat := 0x38

  datatype Ring = Ring(messages: Word, capacity: Word, first: Word, used: Word)

  /** An HLE execution error, a nonblocking refusal, a call that must block, or success. */
  datatype Outcome = Fault | Refused | WouldBlock | Done

  predicate Blocking(flags: Word) { flags % 2 == 1 }
  predicate HighPriority(flags: Word) { (flags / 2) % 2 == 1 }

  function RingIn(h: seq<Byte>): Ring
    requires |h| == QUEUE_SIZE
  {
    Ring(Word32(h, MESSAGES), Word32(h, CAPACITY), Word32(h, FIRST), Word32(h, USED))
  }

  ghost function RingAt(m: Memory, queue: nat): Ring
    requires WellFormed(m) && MappedRange(m, queue, QUEUE_SIZE)
  {
    RingIn(LoadBytes(m, queue, QUEUE_SIZE))
  }

  function SlotAddress(r: Ring, k: nat): nat { r.messages + k * MESSAGE_SIZE }

  ghost function Slot(m: Memory, r: Ring, k: nat): seq<Byte>
    requires WellFormed(m) && MappedRange(m, SlotAddress(r, k), MESSAGE_SIZE)
  {
    LoadBytes(m, SlotAddress(r, k), MESSAGE_SIZE)
  }

  /** Indices in range, and an array of distinct mapped cells apart from the header. */
  ghost predicate WellShaped(m: Memory, queue: nat, r: Ring) {
    && (r.capacity > 0 ==> r.first < r.capacity) && r.used <= r.capacity
    && MappedRange(m, queue, QUEUE_SIZE) && MappedRange(m, r.messages, r.capacity * MESSAGE_SIZE)
    && Injective(m, r.messages, r.capacity * MESSAGE_SIZE)
    && Separate(m, queue, QUEUE_SIZE, r.messages, r.capacity * MESSAGE_SIZE)
  }

  ghost predicate RingOk(m: Memory, queue: nat) {
    WellFormed(m) && MappedRange(m, queue, QUEUE_SIZE) && WellShaped(m, queue, RingAt(m, queue))
  }

  lemma SlotInside(m: Memory, queue: nat, r: Ring, k: nat)
    requires WellShaped(m, queue, r) && k < r.capacity
    ensures MappedRange(m, SlotAddress(r, k), MESSAGE_SIZE)
    ensures Separate(m, queue, QUEUE_SIZE, SlotAddress(r, k), MESSAGE_SIZE)
    ensures Separate(m, SlotAddress(r, k), MESSAGE_SIZE, queue, QUEUE_SIZE)
  {
    hide CellOf;
    SubRange(m, r.messages, r.capacity * MESSAGE_SIZE, k * MESSAGE_SIZE, MESSAGE_SIZE);
  }

  lemma SlotsApart(m: Memory, queue: nat, r: Ring, j: nat, k: nat)
    requires WellShaped(m, queue, r) && j < r.capacity && k < r.capacity && j != k
    ensures Separate(m, SlotAddress(r, j), MESSAGE_SIZE, SlotAddress(r, k), MESSAGE_SIZE)
  {
    hide CellOf, Mapped;
    forall x, y | SlotAddress(r, j) <= x < SlotAddress(r, j) + MESSAGE_SIZE &&
                  SlotAddress(r, k) <= y < SlotAddress(r, k) + MESSAGE_SIZE
      ensures CellOf(m, x) != CellOf(m, y)
    {
      assert r.messages <= x < r.messages + r.capacity * MESSAGE_SIZE;
      assert r.messages <= y < r.messages + r.capacity * MESSAGE_SIZE;
      assert x < y || y < x;
    }
  }

  /** The slot of the i-th message. */
  function SlotOf(r: Ring, i: nat): (k: nat)
    requires r.first < r.capacity && i <= r.capacity
    ensures k < r.capacity
    ensures k == if r.first + i < r.capacity then r.first + i else r.first + i - r.capacity
  {
    Wraps(r.first + i, r.capacity);
    (r.first + i) % r.capacity
  }

  lemma Wraps(i: nat, capacity: nat)
    requires i < 2 * capacity
    ensures i % capacity == if i < capacity then i else i - capacity
  {
    DivisionUnique(i, capacity, if i < capacity then 0 else 1, if i < capacity then i else i - capacity);
  }

  /** The contents of every slot. */
  ghost function Slots(m: Memory, queue: nat, r: Ring): (slots: seq<seq<Byte>>)
    requires WellFormed(m) && WellShaped(m, queue, r)
    ensures |slots| == r.capacity
    ensures forall k :: 0 <= k < r.capacity ==>
              MappedRange(m, SlotAddress(r, k), MESSAGE_SIZE) && slots[k] == Slot(m, r, k)
  {
    hide WellFormed, CellOf, Mapped, WellShaped, Slot, SlotAddress;
    assert forall k :: 0 <= k < r.capacity ==> MappedRange(m, SlotAddress(r, k), MESSAGE_SIZE) by {
      forall k | 0 <= k < r.capacity ensures MappedRange(m, SlotAddress(r, k), MESSAGE_SIZE) {
        SlotInside(m, queue, r, k);
      }
    }
    seq(r.capacity, k requires 0 <= k < r.capacity => Slot(m, r, k))
  }

  /** The messages in ring order, oldest first. */
  ghost function InOrder(r: Ring, slots: seq<seq<Byte>>): (ms: seq<seq<Byte>>)
    requires r.used <= r.capacity == |slots| && (r.capacity > 0 ==> r.first < r.capacity)
    ensures |ms| == r.used
    ensures forall i :: 0 <= i < r.used ==> ms[i] == slots[SlotOf(r, i)]
  {
    seq(r.used, i requires 0 <= i < r.used => slots[SlotOf(r, i)])
  }

  /** The messages of the queue, oldest first. */
  ghost function Contents(m: Memory, queue: nat): (ms: seq<seq<Byte>>)
    requires RingOk(m, queue)
    ensures |ms| == RingAt(m, queue).used
  {
    InOrder(RingAt(m, queue), Slots(m, queue, RingAt(m, queue)))
  }

  // Send

  /** The slot a send fills. */
  function TargetSlot(r: Ring, flags: Word): (k: nat)
    requires r.used < r.capacity
    ensures k < r.capacity
  {
    if HighPriority(flags) then (r.first + r.capacity - 1) % r.capacity else (r.first + r.used) % r.capacity
  }

  ghost function SendOutcome(m: Memory, queue: Word, message: Word, flags: Word): Outcome
    requires WellFormed(m)
  {
    if queue == 0 || !MappedRange(m, queue, QUEUE_SIZE) then Fault
    else
      var r := RingAt(m, queue);
      if r.capacity != 0 && r.first >= r.capacity then Fault
      else if r.used >= r.capacity then if Blocking(flags) then Fault else Refused
      else if message == 0 then Fault
      else if MappedRange(m, SlotAddress(r, TargetSlot(r, flags)), MESSAGE_SIZE) &&
              MappedRange(m, message, MESSAGE_SIZE) then Done
      else Fault
  }

  /** The stores that fill slot k and make it the first one. */
  ghost function PushSlot(m: Memory, queue: nat, r: Ring, k: Word, bs: seq<Byte>, front: bool): (n: Memory)
    requires WellFormed(m) && MappedRange(m, queue, QUEUE_SIZE) && MappedRange(m, SlotAddress(r, k), |bs|)
    ensures SameLayout(m, n) && WellFormed(n) && MappedRange(n, queue, QUEUE_SIZE)
  {
    hide WellFormed, CellOf, SameLayout, Mapped, MappedRange, StoreBytes;
    var filled := StoreBytes(m, SlotAddress(r, k), bs);
    HeaderWords(m, queue);
    var moved := if front then StoreWord(filled, queue + FIRST, k) else filled;
    LayoutChain(m, filled, moved);
    moved
  }

  /** The same, and the new count. */
  ghost function Push(m: Memory, queue: nat, r: Ring, k: Word, bs: seq<Byte>, front: bool): (n: Memory)
    requires WellFormed(m) && MappedRange(m, queue, QUEUE_SIZE) && r.used < r.capacity
    requires MappedRange(m, SlotAddress(r, k), |bs|)
    ensures SameLayout(m, n) && WellFormed(n)
  {
    hide WellFormed, CellOf, SameLayout, Mapped, MappedRange, PushSlot;
    var moved := PushSlot(m, queue, r, k, bs, front);
    HeaderWords(moved, queue);
    var counted := StoreWord(moved, queue + USED, r.used + 1);
    LayoutChain(m, moved, counted);
    counted
  }

  /** The stores of a send: the slot, the first index if it moves, the used count. */
  ghost function AfterSend(m: Memory, queue: Word, message: Word, flags: Word): (n: Memory)
    requires WellFormed(m) && SendOutcome(m, queue, message, flags).Done?
    ensures SameLayout(m, n) && WellFormed(n)
  {
    hide WellFormed, CellOf, LoadBytes, RingIn, SameLayout, Mapped, MappedRange;
    var r := RingAt(m, queue);
    Push(m, queue, r, TargetSlot(r, flags), LoadBytes(m, message, MESSAGE_SIZE), HighPriority(flags))
  }

  lemma HeaderWords(m: Memory, queue: nat)
    requires MappedRange(m, queue, QUEUE_SIZE)
    ensures MappedRange(m, queue + MESSAGES, 4) && MappedRange(m, queue + CAPACITY, 4)
    ensures MappedRange(m, queue + FIRST, 4) && MappedRange(m, queue + USED, 4)
  {
  }

  // The effect of the stores on header and slots

  /** Which cells lie where does not depend on the bytes. */
  lemma ShapeKept(m: Memory, n: Memory, queue: nat, r: Ring)
    requires WellFormed(m) && SameLayout(m, n) && WellShaped(m, queue, r)
    ensures WellFormed(n) && WellShaped(n, queue, r)
  {
    hide WellFormed, CellOf, Mapped, SameLayout, MappedRange;
    SameCells(m, n);
  }

  /** Memory holds a header and slots. `r` gives the array's place and size. */
  ghost predicate Holds(m: Memory, queue: nat, r: Ring, h: seq<Byte>, slots: seq<seq<Byte>>) {
    && WellFormed(m) && WellShaped(m, queue, r) && LoadBytes(m, queue, QUEUE_SIZE) == h && Slots(m, queue, r) == slots
  }

  /** Storing a message in slot k. */
  lemma SlotStored(m: Memory, queue: nat, r: Ring, h: seq<Byte>, slots: seq<seq<Byte>>, k: nat, bs: seq<Byte>)
    requires Holds(m, queue, r, h, slots) && k < r.capacity && |bs| == MESSAGE_SIZE
    ensures MappedRange(m, SlotAddress(r, k), MESSAGE_SIZE) && WellFormed(m) && |slots| == r.capacity
    ensures Holds(StoreBytes(m, SlotAddress(r, k), bs), queue, r, h, slots[k := bs])
  {
    SlotInside(m, queue, r, k);
    var n := StoreBytes(m, SlotAddress(r, k), bs);
    hide WellFormed, CellOf, Mapped, StoreBytes, LoadBytes, SlotAddress, Separate, Injective, SameLayout;
    ShapeKept(m, n, queue, r);
    StoreFrame(m, SlotAddress(r, k), bs, queue, QUEUE_SIZE);
    forall j | 0 <= j < r.capacity ensures Slots(n, queue, r)[j] == slots[k := bs][j] {
      SlotInside(m, queue, r, j);
      if j == k {
        ShortSpansInjective(m, SlotAddress(r, k), MESSAGE_SIZE);
        ReadBack(m, SlotAddress(r, k), bs);
      } else {
        SlotsApart(m, queue, r, k, j);
        StoreFrame(m, SlotAddress(r, k), bs, SlotAddress(r, j), MESSAGE_SIZE);
      }
    }
  }

  /** Storing a word of the header. */
  lemma HeaderStored(m: Memory, queue: nat, r: Ring, h: seq<Byte>, slots: seq<seq<Byte>>, o: nat, v: Word)
    requires Holds(m, queue, r, h, slots) && (o == FIRST || o == USED)
    ensures MappedRange(m, queue + o, 4) && |h| == QUEUE_SIZE && o + 4 <= QUEUE_SIZE
    ensures Holds(StoreWord(m, queue + o, v), queue, r, SetWord(h, o, v), slots)
  {
    SubRange(m, queue, QUEUE_SIZE, o, 4);
    var n := StoreWord(m, queue + o, v);
    ShapeKept(m, n, queue, r);
    WordStored(m, queue, QUEUE_SIZE, o, v);
    hide WellFormed, CellOf, Mapped, StoreBytes, LoadBytes, SlotAddress, Injective, SameLayout, SetWord;
    forall j | 0 <= j < r.capacity ensures Slots(n, queue, r)[j] == slots[j] {
      SlotInside(m, queue, r, j);
      WordApart(m, queue, QUEUE_SIZE, o, v, SlotAddress(r, j), MESSAGE_SIZE);
    }
  }

  /** A word store into the header changes one field. */
  lemma PatchedRing(h: seq<Byte>, o: nat, v: Word)
    requires |h| == QUEUE_SIZE && (o == FIRST || o == USED)
    ensures RingIn(SetWord(h, o, v)) == if o == FIRST then RingIn(h).(first := v) else RingIn(h).(used := v)
  {
    hide Word32, SetWord;
    SetWordMeans(h, o, v, MESSAGES);
    SetWordMeans(h, o, v, CAPACITY);
    SetWordMeans(h, o, v, FIRST);
    SetWordMeans(h, o, v, USED);
  }

  /** A well-shaped ring with these indices and these messages. */
  ghost predicate IsQueue(m: Memory, queue: nat, s: Ring, ms: seq<seq<Byte>>) {
    RingOk(m, queue) && RingAt(m, queue) == s && Contents(m, queue) == ms
  }

  /** A ring whose indices moved but whose array stayed. */
  lemma HeldRing(n: Memory, queue: nat, r: Ring, h: seq<Byte>, slots: seq<seq<Byte>>, s: Ring)
    requires Holds(n, queue, r, h, slots) && |h| == QUEUE_SIZE && RingIn(h) == s
    requires s.messages == r.messages && s.capacity == r.capacity && s.used <= s.capacity
    requires s.capacity > 0 ==> s.first < s.capacity
    ensures |slots| == s.capacity && IsQueue(n, queue, s, InOrder(s, slots))
  {
    hide WellFormed, CellOf, Mapped, MappedRange, LoadBytes, Word32, Injective, Separate;
  }

  /** The header after a push. */
  function PushedHeader(h: seq<Byte>, r: Ring, k: Word, front: bool): (g: seq<Byte>)
    requires |h| == QUEUE_SIZE && r.used < r.capacity
    ensures |g| == QUEUE_SIZE
  {
    SetWord(if front then SetWord(h, FIRST, k) else h, USED, r.used + 1)
  }

  lemma PushSlotHolds(m: Memory, queue: nat, r: Ring, h: seq<Byte>, slots: seq<seq<Byte>>, k: Word, bs: seq<Byte>,
                      front: bool)
    requires Holds(m, queue, r, h, slots) && |h| == QUEUE_SIZE && k < r.capacity == |slots|
    requires |bs| == MESSAGE_SIZE && MappedRange(m, SlotAddress(r, k), |bs|)
    requires MappedRange(m, queue, QUEUE_SIZE) && WellFormed(m)
    ensures Holds(PushSlot(m, queue, r, k, bs, front), queue, r, if front then SetWord(h, FIRST, k) else h,
                  slots[k := bs])
  {
    hide WellFormed, CellOf, SameLayout, Mapped, MappedRange, StoreBytes, StoreWord, SetWord, Holds, SlotAddress;
    SlotStored(m, queue, r, h, slots, k, bs);
    if front {
      HeaderStored(StoreBytes(m, SlotAddress(r, k), bs), queue, r, h, slots[k := bs], FIRST, k);
    }
  }

  lemma PushHolds(m: Memory, queue: nat, r: Ring, h: seq<Byte>, slots: seq<seq<Byte>>, k: Word, bs: seq<Byte>,
                  front: bool)
    requires Holds(m, queue, r, h, slots) && |h| == QUEUE_SIZE && k < r.capacity == |slots| && r.used < r.capacity
    requires |bs| == MESSAGE_SIZE && MappedRange(m, SlotAddress(r, k), |bs|)
    requires MappedRange(m, queue, QUEUE_SIZE) && WellFormed(m)
    ensures Holds(Push(m, queue, r, k, bs, front), queue, r, PushedHeader(h, r, k, front), slots[k := bs])
  {
    hide WellFormed, CellOf, SameLayout, Mapped, MappedRange, PushSlot, StoreWord, SetWord, Holds, SlotAddress;
    PushSlotHolds(m, queue, r, h, slots, k, bs, front);
    HeaderStored(PushSlot(m, queue, r, k, bs, front), queue, r, if front then SetWord(h, FIRST, k) else h,
                 slots[k := bs], USED, r.used + 1);
  }

  lemma PushedRing(h: seq<Byte>, r: Ring, k: Word, front: bool)
    requires |h| == QUEUE_SIZE && RingIn(h) == r && r.used < r.capacity
    ensures RingIn(PushedHeader(h, r, k, front)) == r.(first := if front then k else r.first, used := r.used + 1)
  {
    hide SetWord, Word32;
    PatchedRing(h, FIRST, k);
    PatchedRing(if front then SetWord(h, FIRST, k) else h, USED, r.used + 1);
  }

  /** The queue after slot k is filled and the indices moved. */
  ghost predicate PushedTo(m: Memory, n: Memory, queue: nat, k: Word, bs: seq<Byte>, front: bool) {
    RingOk(m, queue) &&
    var r := RingAt(m, queue);
    var s := r.(first := if front then k else r.first, used := r.used + 1);
    k < r.capacity && r.used < r.capacity && IsQueue(n, queue, s, InOrder(s, Slots(m, queue, r)[k := bs]))
  }

  lemma RingHolds(m: Memory, queue: nat, r: Ring)
    requires RingOk(m, queue) && RingAt(m, queue) == r
    ensures MappedRange(m, queue, QUEUE_SIZE) && WellFormed(m) && WellShaped(m, queue, r)
    ensures Holds(m, queue, r, LoadBytes(m, queue, QUEUE_SIZE), Slots(m, queue, r))
    ensures r.used <= r.capacity && (r.capacity > 0 ==> r.first < r.capacity)
    ensures RingIn(LoadBytes(m, queue, QUEUE_SIZE)) == r
  {
    hide WellFormed, CellOf, Mapped, MappedRange, LoadBytes, Word32, Injective, Separate;
  }

  /** What the ring looks like once the stores are done. */
  lemma PushDone(n: Memory, queue: nat, r: Ring, h: seq<Byte>, slots: seq<seq<Byte>>, k: Word, front: bool)
    requires |h| == QUEUE_SIZE && RingIn(h) == r && k < r.capacity && r.used < r.capacity && r.first < r.capacity
    requires Holds(n, queue, r, PushedHeader(h, r, k, front), slots)
    ensures var s := r.(first := if front then k else r.first, used := r.used + 1);
            |slots| == s.capacity && IsQueue(n, queue, s, InOrder(s, slots))
  {
    hide Holds, PushedHeader, RingIn, InOrder, IsQueue;
    PushedRing(h, r, k, front);
    HeldRing(n, queue, r, PushedHeader(h, r, k, front), slots,
             r.(first := if front then k else r.first, used := r.used + 1));
  }

  lemma PushEffect(m: Memory, queue: nat, r: Ring, k: Word, bs: seq<Byte>, front: bool)
    requires RingOk(m, queue) && |bs| == MESSAGE_SIZE && RingAt(m, queue) == r && k < r.capacity && r.used < r.capacity
    ensures MappedRange(m, queue, QUEUE_SIZE) && MappedRange(m, SlotAddress(r, k), |bs|)
    ensures PushedTo(m, Push(m, queue, r, k, bs, front), queue, k, bs, front)
  {
    hide WellFormed, CellOf, Mapped, LoadBytes, Push, MappedRange, SlotAddress, WellShaped, Holds,
         Slots, InOrder, RingOk, RingIn, IsQueue, PushedHeader;
    RingHolds(m, queue, r);
    SlotInside(m, queue, r, k);
    var h, slots := LoadBytes(m, queue, QUEUE_SIZE), Slots(m, queue, r);
    PushHolds(m, queue, r, h, slots, k, bs, front);
    PushDone(Push(m, queue, r, k, bs, front), queue, r, h, slots[k := bs], k, front);
  }

  // The deque

  /** Writing behind the last message appends. */
  lemma AppendInOrder(r: Ring, slots: seq<seq<Byte>>, bs: seq<Byte>)
    requires r.used < r.capacity == |slots| && r.first < r.capacity
    ensures InOrder(r.(used := r.used + 1), slots[SlotOf(r, r.used) := bs]) == InOrder(r, slots) + [bs]
  {
    var s := r.(used := r.used + 1);
    forall i | 0 <= i < s.used
      ensures InOrder(s, slots[SlotOf(r, r.used) := bs])[i] == (InOrder(r, slots) + [bs])[i]
    {
      assert SlotOf(s, i) == SlotOf(r, i);
    }
  }

  /** Writing before the first message and moving the first index prepends. */
  lemma PrependInOrder(r: Ring, slots: seq<seq<Byte>>, bs: seq<Byte>)
    requires r.used < r.capacity == |slots| && r.first < r.capacity
    ensures var k := SlotOf(r, r.capacity - 1);
            InOrder(r.(first := k, used := r.used + 1), slots[k := bs]) == [bs] + InOrder(r, slots)
  {
    var k := SlotOf(r, r.capacity - 1);
    var s := r.(first := k, used := r.used + 1);
    forall i | 0 <= i < s.used ensures InOrder(s, slots[k := bs])[i] == ([bs] + InOrder(r, slots))[i] {
      if i > 0 { assert SlotOf(s, i) == SlotOf(r, i - 1); }
    }
  }

  /** Moving the first index forward drops the front. */
  lemma DropInOrder(r: Ring, slots: seq<seq<Byte>>)
    requires 0 < r.used <= r.capacity == |slots| && r.first < r.capacity
    ensures InOrder(r.(first := SlotOf(r, 1), used := r.used - 1), slots) == InOrder(r, slots)[1..]
    ensures InOrder(r, slots)[0] == slots[r.first]
  {
    var s := r.(first := SlotOf(r, 1), used := r.used - 1);
    forall i | 0 <= i < s.used ensures InOrder(s, slots)[i] == InOrder(r, slots)[1..][i] {
      assert SlotOf(s, i) == SlotOf(r, i + 1);
    }
  }

  /** A full queue refuses; otherwise a valid message is accepted. */
  lemma SendAccepts(m: Memory, queue: Word, message: Word, flags: Word)
    requires RingOk(m, queue) && queue != 0
    ensures var o, r := SendOutcome(m, queue, message, flags), RingAt(m, queue);
            && (o.Done? <==> r.used < r.capacity && message != 0 && MappedRange(m, message, MESSAGE_SIZE))
            && (o.Refused? <==> r.used == r.capacity && !Blocking(flags))
  {
    var r := RingAt(m, queue);
    if r.used < r.capacity { SlotInside(m, queue, r, TargetSlot(r, flags)); }
    hide WellFormed, CellOf, Mapped, LoadBytes, RingIn, TargetSlot;
  }

  /** The same ring, one message longer at one end. */
  ghost predicate Extended(m: Memory, n: Memory, queue: nat, bs: seq<Byte>, front: bool) {
    && RingOk(m, queue) && RingOk(n, queue)
    && RingAt(n, queue).messages == RingAt(m, queue).messages
    && RingAt(n, queue).capacity == RingAt(m, queue).capacity
    && Contents(n, queue) == if front then [bs] + Contents(m, queue) else Contents(m, queue) + [bs]
  }

  lemma PushedExtends(m: Memory, n: Memory, queue: nat, k: Word, bs: seq<Byte>, front: bool)
    requires PushedTo(m, n, queue, k, bs, front)
    requires var r := RingAt(m, queue);
             k == if front then (r.first + r.capacity - 1) % r.capacity else (r.first + r.used) % r.capacity
    ensures Extended(m, n, queue, bs, front)
  {
    hide *;
    PushedParts(m, n, queue, k, bs, front);
    var r := RingAt(m, queue);
    var slots := Slots(m, queue, r);
    ContentsAre(m, queue, r);
    if front {
      FrontSlot(r);
      PrependInOrder(r, slots, bs);
    } else {
      BackSlot(r);
      AppendInOrder(r, slots, bs);
    }
    QueueParts(n, queue, r.(first := if front then k else r.first, used := r.used + 1),
               InOrder(r.(first := if front then k else r.first, used := r.used + 1), slots[k := bs]));
    ExtendedIs(m, n, queue, bs, front);
  }

  lemma PushedParts(m: Memory, n: Memory, queue: nat, k: Word, bs: seq<Byte>, front: bool)
    requires PushedTo(m, n, queue, k, bs, front)
    ensures RingOk(m, queue) && WellFormed(m) && MappedRange(m, queue, QUEUE_SIZE)
    ensures WellShaped(m, queue, RingAt(m, queue))
    ensures var r := RingAt(m, queue);
            var s := r.(first := if front then k else r.first, used := r.used + 1);
            && k < r.capacity && r.used < r.capacity == |Slots(m, queue, r)| && r.first < r.capacity
            && IsQueue(n, queue, s, InOrder(s, Slots(m, queue, r)[k := bs]))
  {
    hide WellFormed, CellOf, Mapped, MappedRange, LoadBytes, RingIn, InOrder, SlotAddress, Injective, Separate;
  }

  lemma ContentsAre(m: Memory, queue: nat, r: Ring)
    requires RingOk(m, queue) && RingAt(m, queue) == r && WellShaped(m, queue, r) && |Slots(m, queue, r)| == r.capacity
    ensures Contents(m, queue) == InOrder(r, Slots(m, queue, r))
  {
    hide WellFormed, MappedRange, LoadBytes, RingAt, WellShaped, Slots, InOrder;
  }

  lemma FrontSlot(r: Ring)
    requires r.first < r.capacity
    ensures SlotOf(r, r.capacity - 1) == (r.first + r.capacity - 1) % r.capacity
  {
    assert r.first + (r.capacity - 1) == r.first + r.capacity - 1;
  }

  lemma BackSlot(r: Ring)
    requires r.first < r.capacity && r.used <= r.capacity
    ensures SlotOf(r, r.used) == (r.first + r.used) % r.capacity
  {
  }

  lemma QueueParts(n: Memory, queue: nat, s: Ring, messages: seq<seq<Byte>>)
    requires IsQueue(n, queue, s, messages)
    ensures RingOk(n, queue) && RingAt(n, queue) == s && Contents(n, queue) == messages
  {
    hide WellFormed, MappedRange, LoadBytes, WellShaped, Slots, InOrder, RingIn;
  }

  lemma ExtendedIs(m: Memory, n: Memory, queue: nat, bs: seq<Byte>, front: bool)
    requires RingOk(m, queue) && RingOk(n, queue)
    requires RingAt(n, queue).messages == RingAt(m, queue).messages
    requires RingAt(n, queue).capacity == RingAt(m, queue).capacity
    requires Contents(n, queue) == if front then [bs] + Contents(m, queue) else Contents(m, queue) + [bs]
    ensures Extended(m, n, queue, bs, front)
  {
    hide WellFormed, MappedRange, LoadBytes, WellShaped, Contents, RingIn, RingOk;
  }

  /** A send that is accepted appends the message, or prepends it with high priority. */
  lemma SendRefinesPush(m: Memory, queue: Word, message: Word, flags: Word)
    requires RingOk(m, queue) && SendOutcome(m, queue, message, flags).Done?
    ensures MappedRange(m, message, MESSAGE_SIZE)
    ensures Extended(m, AfterSend(m, queue, message, flags), queue, LoadBytes(m, message, MESSAGE_SIZE),
                     HighPriority(flags))
  {
    var r := RingAt(m, queue);
    var k := TargetSlot(r, flags);
    assert MappedRange(m, message, MESSAGE_SIZE);
    var bs := LoadBytes(m, message, MESSAGE_SIZE);
    hide WellFormed, CellOf, Mapped, MappedRange, LoadBytes, RingIn, RingOk, Push, PushedTo, Extended, SlotAddress;
    PushEffect(m, queue, r, k, bs, HighPriority(flags));
    PushedExtends(m, AfterSend(m, queue, message, flags), queue, k, bs, HighPriority(flags));
  }

  // Receive

  ghost function ReceiveOutcome(m: Memory, queue: Word, destination: Word, flags: Word): Outcome
    requires WellFormed(m)
  {
    if queue == 0 || !MappedRange(m, queue, QUEUE_SIZE) then Fault
    else
      var r := RingAt(m, queue);
      var writable := destination != 0 && MappedRange(m, destination, MESSAGE_SIZE);
      if (r.capacity != 0 && r.first >= r.capacity) || r.used > r.capacity then Fault
      else if r.used == 0 then
        if !Blocking(flags) then Refused else if writable then WouldBlock else Fault
      else if writable && MappedRange(m, SlotAddress(r, r.first), MESSAGE_SIZE) then Done
      else Fault
  }

  /** The stores that move the indices past the first message. */
  ghost function Advanced(m: Memory, queue: nat, r: Ring): (n: Memory)
    requires WellFormed(m) && MappedRange(m, queue, QUEUE_SIZE) && 0 < r.used <= r.capacity
    ensures SameLayout(m, n) && WellFormed(n)
  {
    hide WellFormed, CellOf, SameLayout, Mapped, MappedRange;
    HeaderWords(m, queue);
    NextSlot(r);
    var moved := StoreWord(m, queue + FIRST, (r.first + 1) % r.capacity);
    var counted := StoreWord(moved, queue + USED, r.used - 1);
    LayoutChain(m, moved, counted);
    counted
  }

  lemma NextSlot(r: Ring)
    requires r.capacity > 0
    ensures 0 <= (r.first + 1) % r.capacity < r.capacity
  {
  }

  /** The stores of a receive: the destination, then the indices. */
  ghost function AfterReceive(m: Memory, queue: Word, destination: Word, flags: Word): (n: Memory)
    requires WellFormed(m) && ReceiveOutcome(m, queue, destination, flags).Done?
    ensures SameLayout(m, n) && WellFormed(n)
  {
    hide WellFormed, CellOf, LoadBytes, RingIn, SameLayout, Mapped, MappedRange, Advanced;
    var r := RingAt(m, queue);
    var copied := StoreBytes(m, destination, LoadBytes(m, SlotAddress(r, r.first), MESSAGE_SIZE));
    var n := Advanced(copied, queue, r);
    LayoutChain(m, copied, n);
    n
  }

  /** An empty queue blocks or refuses; otherwise a valid destination is filled. */
  lemma ReceiveAccepts(m: Memory, queue: Word, destination: Word, flags: Word)
    requires RingOk(m, queue) && queue != 0
    ensures var o, r := ReceiveOutcome(m, queue, destination, flags), RingAt(m, queue);
            var writable := destination != 0 && MappedRange(m, destination, MESSAGE_SIZE);
            && (o.Done? <==> r.used > 0 && writable)
            && (o.WouldBlock? <==> r.used == 0 && Blocking(flags) && writable)
            && (o.Refused? <==> r.used == 0 && !Blocking(flags))
  {
    var r := RingAt(m, queue);
    if r.used > 0 { SlotInside(m, queue, r, r.first); }
    hide WellFormed, CellOf, Mapped, LoadBytes, RingIn;
  }

  lemma SeparateSymmetric(m: Memory, a: nat, n: nat, b: nat, k: nat)
    requires Separate(m, a, n, b, k)
    ensures Separate(m, b, k, a, n)
  {
    hide CellOf;
  }

  /** A message buffer that shares no cell with the ring. */
  ghost predicate Clear(m: Memory, queue: nat, r: Ring, a: nat) {
    && MappedRange(m, a, MESSAGE_SIZE) && Separate(m, a, MESSAGE_SIZE, queue, QUEUE_SIZE)
    && Separate(m, a, MESSAGE_SIZE, r.messages, r.capacity * MESSAGE_SIZE)
  }

  lemma ClearSlot(m: Memory, queue: nat, r: Ring, a: nat, j: nat)
    requires Clear(m, queue, r, a) && j < r.capacity
    ensures Separate(m, a, MESSAGE_SIZE, SlotAddress(r, j), MESSAGE_SIZE)
  {
    hide CellOf, Mapped;
    forall x, y | a <= x < a + MESSAGE_SIZE && SlotAddress(r, j) <= y < SlotAddress(r, j) + MESSAGE_SIZE
      ensures CellOf(m, x) != CellOf(m, y)
    {
      assert r.messages <= y < r.messages + r.capacity * MESSAGE_SIZE;
    }
  }

  /** A store outside the ring leaves it alone. */
  lemma OutsideStored(m: Memory, queue: nat, r: Ring, h: seq<Byte>, slots: seq<seq<Byte>>, a: nat, bs: seq<Byte>)
    requires Holds(m, queue, r, h, slots) && Clear(m, queue, r, a) && |bs| == MESSAGE_SIZE
    ensures Holds(StoreBytes(m, a, bs), queue, r, h, slots)
  {
    var n := StoreBytes(m, a, bs);
    hide WellFormed, CellOf, Mapped, StoreBytes, LoadBytes, SlotAddress, Separate, Injective, SameLayout;
    ShapeKept(m, n, queue, r);
    StoreFrame(m, a, bs, queue, QUEUE_SIZE);
    forall j | 0 <= j < r.capacity ensures Slots(n, queue, r)[j] == slots[j] {
      SlotInside(m, queue, r, j);
      ClearSlot(m, queue, r, a, j);
      StoreFrame(m, a, bs, SlotAddress(r, j), MESSAGE_SIZE);
    }
  }

  function AdvancedHeader(h: seq<Byte>, r: Ring): (g: seq<Byte>)
    requires |h| == QUEUE_SIZE && 0 < r.used <= r.capacity
    ensures |g| == QUEUE_SIZE
  {
    NextSlot(r);
    SetWord(SetWord(h, FIRST, (r.first + 1) % r.capacity), USED, r.used - 1)
  }

  lemma AdvancedRing(h: seq<Byte>, r: Ring)
    requires |h| == QUEUE_SIZE && 0 < r.used <= r.capacity && RingIn(h) == r
    ensures RingIn(AdvancedHeader(h, r)) == r.(first := (r.first + 1) % r.capacity, used := r.used - 1)
  {
    hide SetWord, Word32;
    NextSlot(r);
    PatchedRing(h, FIRST, (r.first + 1) % r.capacity);
    PatchedRing(SetWord(h, FIRST, (r.first + 1) % r.capacity), USED, r.used - 1);
  }

  lemma AdvancedHolds(m: Memory, queue: nat, r: Ring, h: seq<Byte>, slots: seq<seq<Byte>>)
    requires Holds(m, queue, r, h, slots) && |h| == QUEUE_SIZE && 0 < r.used <= r.capacity
    requires MappedRange(m, queue, QUEUE_SIZE) && WellFormed(m)
    ensures Holds(Advanced(m, queue, r), queue, r, AdvancedHeader(h, r), slots)
  {
    hide WellFormed, CellOf, SameLayout, Mapped, MappedRange, StoreWord, SetWord, Holds;
    NextSlot(r);
    var next := (r.first + 1) % r.capacity;
    HeaderStored(m, queue, r, h, slots, FIRST, next);
    HeaderStored(StoreWord(m, queue + FIRST, next), queue, r, SetWord(h, FIRST, next), slots, USED, r.used - 1);
  }

  /** Moving the indices does not touch a buffer outside the ring. */
  lemma AdvancedApart(m: Memory, queue: nat, r: Ring, a: nat)
    requires WellFormed(m) && MappedRange(m, queue, QUEUE_SIZE) && 0 < r.used <= r.capacity
    requires MappedRange(m, a, MESSAGE_SIZE) && Separate(m, queue, QUEUE_SIZE, a, MESSAGE_SIZE)
    ensures MappedRange(Advanced(m, queue, r), a, MESSAGE_SIZE)
    ensures LoadBytes(Advanced(m, queue, r), a, MESSAGE_SIZE) == LoadBytes(m, a, MESSAGE_SIZE)
  {
    hide WellFormed, Mapped, LoadBytes, StoreBytes, BytesOf, CellOf, SameLayout, MappedRange;
    NextSlot(r);
    var next := (r.first + 1) % r.capacity;
    HeaderWords(m, queue);
    var moved := StoreWord(m, queue + FIRST, next);
    WordApart(m, queue, QUEUE_SIZE, FIRST, next, a, MESSAGE_SIZE);
    WordApart(moved, queue, QUEUE_SIZE, USED, r.used - 1, a, MESSAGE_SIZE);
  }

  /** The same ring without its front message, which is now at `a`. */
  ghost predicate Popped(m: Memory, n: Memory, queue: nat, a: nat) {
    && RingOk(m, queue) && RingOk(n, queue) && Contents(m, queue) != []
    && RingAt(n, queue).messages == RingAt(m, queue).messages
    && RingAt(n, queue).capacity == RingAt(m, queue).capacity
    && Contents(n, queue) == Contents(m, queue)[1..]
    && MappedRange(n, a, MESSAGE_SIZE) && LoadBytes(n, a, MESSAGE_SIZE) == Contents(m, queue)[0]
  }

  lemma PopDone(m: Memory, n: Memory, queue: nat, r: Ring)
    requires RingOk(m, queue) && RingAt(m, queue) == r && 0 < r.used
    requires Holds(n, queue, r, AdvancedHeader(LoadBytes(m, queue, QUEUE_SIZE), r), Slots(m, queue, r))
    ensures RingOk(n, queue) && RingAt(n, queue).messages == r.messages && RingAt(n, queue).capacity == r.capacity
    ensures Contents(n, queue) == Contents(m, queue)[1..]
  {
    hide *;
    RingHolds(m, queue, r);
    var h, slots := LoadBytes(m, queue, QUEUE_SIZE), Slots(m, queue, r);
    NextSlotIs(r);
    DropInOrder(r, slots);
    AdvancedRing(h, r);
    AdvancedLength(h, r);
    var s := r.(first := SlotOf(r, 1), used := r.used - 1);
    HeldRing(n, queue, r, AdvancedHeader(h, r), slots, s);
    QueueParts(n, queue, s, InOrder(s, slots));
    ContentsAre(m, queue, r);
  }

  lemma NextSlotIs(r: Ring)
    requires 0 < r.used <= r.capacity && r.first < r.capacity
    ensures SlotOf(r, 1) == (r.first + 1) % r.capacity
  {
  }

  lemma AdvancedLength(h: seq<Byte>, r: Ring)
    requires |h| == QUEUE_SIZE && 0 < r.used <= r.capacity
    ensures |AdvancedHeader(h, r)| == QUEUE_SIZE
  {
    hide SetWord;
  }

  lemma FrontMessage(m: Memory, queue: nat, r: Ring)
    requires RingOk(m, queue) && RingAt(m, queue) == r && 0 < r.used
    ensures MappedRange(m, SlotAddress(r, r.first), MESSAGE_SIZE)
    ensures Contents(m, queue)[0] == LoadBytes(m, SlotAddress(r, r.first), MESSAGE_SIZE)
  {
    hide WellFormed, CellOf, Mapped, MappedRange, LoadBytes, SlotAddress, RingIn;
    SlotInside(m, queue, r, r.first);
    DropInOrder(r, Slots(m, queue, r));
  }

  /** The copy to the destination. */
  lemma CopiedOut(m: Memory, queue: nat, r: Ring, destination: nat, bs: seq<Byte>)
    requires RingOk(m, queue) && RingAt(m, queue) == r && Clear(m, queue, r, destination) && |bs| == MESSAGE_SIZE
    ensures WellFormed(m) && MappedRange(m, queue, QUEUE_SIZE) && WellShaped(m, queue, r)
    ensures var n := StoreBytes(m, destination, bs);
            && Holds(n, queue, r, LoadBytes(m, queue, QUEUE_SIZE), Slots(m, queue, r))
            && MappedRange(n, destination, MESSAGE_SIZE) && LoadBytes(n, destination, MESSAGE_SIZE) == bs
            && MappedRange(n, queue, QUEUE_SIZE) && Separate(n, queue, QUEUE_SIZE, destination, MESSAGE_SIZE)
  {
    RingHolds(m, queue, r);
    SeparateSymmetric(m, destination, MESSAGE_SIZE, queue, QUEUE_SIZE);
    hide WellFormed, CellOf, Mapped, LoadBytes, StoreBytes, MappedRange, WellShaped, Holds, Slots, RingOk, RingIn,
         Injective, SameLayout;
    ShortSpansInjective(m, destination, MESSAGE_SIZE);
    ReadBack(m, destination, bs);
    OutsideStored(m, queue, r, LoadBytes(m, queue, QUEUE_SIZE), Slots(m, queue, r), destination, bs);
  }

  /** A receive that is accepted pops the front message into its destination. */
  lemma ReceiveRefinesPop(m: Memory, queue: Word, destination: Word, flags: Word)
    requires RingOk(m, queue) && ReceiveOutcome(m, queue, destination, flags).Done?
    requires Clear(m, queue, RingAt(m, queue), destination)
    ensures Popped(m, AfterReceive(m, queue, destination, flags), queue, destination)
  {
    var r := RingAt(m, queue);
    var bs := LoadBytes(m, SlotAddress(r, r.first), MESSAGE_SIZE);
    var copied := StoreBytes(m, destination, bs);
    hide WellFormed, CellOf, Mapped, LoadBytes, StoreBytes, Advanced, MappedRange, SlotAddress, WellShaped, Separate,
         Holds, Slots, InOrder, RingOk, RingIn, AdvancedHeader, Injective, SameLayout, Contents, Clear;
    CopiedOut(m, queue, r, destination, bs);
    AdvancedHolds(copied, queue, r, LoadBytes(m, queue, QUEUE_SIZE), Slots(m, queue, r));
    AdvancedApart(copied, queue, r, destination);
    PopDone(m, Advanced(copied, queue, r), queue, r);
    FrontMessage(m, queue, r);
  }

  // Runs

  /** What the guest does next; between calls it may store anything outside the ring. */
  datatype Operation = SendOp(message: Word, flags: Word) | ReceiveOp(destination: Word, flags: Word) | GuestOp

  ghost predicate Steps(m: Memory, n: Memory, queue: Word, op: Operation)
    requires RingOk(m, queue)
  {
    match op
    case SendOp(message, flags) =>
      n == if SendOutcome(m, queue, message, flags).Done? then AfterSend(m, queue, message, flags) else m
    case ReceiveOp(destination, flags) =>
      if ReceiveOutcome(m, queue, destination, flags).Done?
      then Clear(m, queue, RingAt(m, queue), destination) && n == AfterReceive(m, queue, destination, flags)
      else n == m
    case GuestOp =>
      && SameLayout(m, n)
      && Holds(n, queue, RingAt(m, queue), LoadBytes(m, queue, QUEUE_SIZE), Slots(m, queue, RingAt(m, queue)))
  }

  /** The same step of a bounded deque. */
  ghost function DequeStep(ms: seq<seq<Byte>>, capacity: nat, m: Memory, op: Operation): seq<seq<Byte>>
    requires WellFormed(m)
  {
    match op
    case SendOp(message, flags) =>
      if |ms| >= capacity || message == 0 || !MappedRange(m, message, MESSAGE_SIZE) then ms
      else if HighPriority(flags) then [LoadBytes(m, message, MESSAGE_SIZE)] + ms
      else ms + [LoadBytes(m, message, MESSAGE_SIZE)]
    case ReceiveOp(destination, flags) =>
      if ms == [] || destination == 0 || !MappedRange(m, destination, MESSAGE_SIZE) then ms else ms[1..]
    case GuestOp => ms
  }

  /** The ring is well shaped, keeps its array, and its contents are those of the deque. */
  ghost predicate Refines(n: Memory, queue: nat, capacity: nat, ms: seq<seq<Byte>>) {
    RingOk(n, queue) && RingAt(n, queue).capacity == capacity && Contents(n, queue) == ms
  }

  lemma StepRefines(m: Memory, n: Memory, queue: Word, op: Operation)
    requires RingOk(m, queue) && queue != 0 && Steps(m, n, queue, op)
    ensures Refines(n, queue, RingAt(m, queue).capacity,
                    DequeStep(Contents(m, queue), RingAt(m, queue).capacity, m, op))
  {
    var r := RingAt(m, queue);
    RingHolds(m, queue, r);
    hide WellFormed, CellOf, Mapped, LoadBytes, MappedRange, WellShaped, Holds, RingIn, AfterSend, AfterReceive,
         SameLayout, Contents, Clear, RingOk, SendOutcome, ReceiveOutcome;
    if op.SendOp? {
      SendAccepts(m, queue, op.message, op.flags);
      if SendOutcome(m, queue, op.message, op.flags).Done? { SendRefinesPush(m, queue, op.message, op.flags); }
    } else if op.ReceiveOp? {
      ReceiveAccepts(m, queue, op.destination, op.flags);
      if ReceiveOutcome(m, queue, op.destination, op.flags).Done? {
        ReceiveRefinesPop(m, queue, op.destination, op.flags);
      }
    } else {
      GuestRefines(m, n, queue);
    }
  }

  lemma GuestRefines(m: Memory, n: Memory, queue: Word)
    requires RingOk(m, queue) && Steps(m, n, queue, GuestOp)
    ensures Refines(n, queue, RingAt(m, queue).capacity, Contents(m, queue))
  {
    var r := RingAt(m, queue);
    RingHolds(m, queue, r);
    hide WellFormed, CellOf, Mapped, LoadBytes, MappedRange, WellShaped, Holds, RingIn, InOrder, Slots;
    HeldRing(n, queue, r, LoadBytes(m, queue, QUEUE_SIZE), Slots(m, queue, r), r);
  }

  ghost predicate IsRun(ms: seq<Memory>, queue: Word, ops: seq<Operation>) {
    && |ms| == |ops| + 1 && queue != 0 && RingOk(ms[0], queue)
    && forall i :: 0 <= i < |ops| ==> (RingOk(ms[i], queue) ==> Steps(ms[i], ms[i + 1], queue, ops[i]))
  }

  /** The deque after the first n operations of a run. */
  ghost function DequeRun(ms: seq<Memory>, queue: Word, ops: seq<Operation>, n: nat): seq<seq<Byte>>
    requires IsRun(ms, queue, ops) && n <= |ops|
  {
    if n == 0 then Contents(ms[0], queue)
    else if WellFormed(ms[n - 1])
    then DequeStep(DequeRun(ms, queue, ops, n - 1), RingAt(ms[0], queue).capacity, ms[n - 1], ops[n - 1])
    else []
  }

  /** Over any run of sends, receives and other guest activity the ring is the bounded deque. */
  lemma {:induction false} RunRefines(ms: seq<Memory>, queue: Word, ops: seq<Operation>, n: nat)
    requires IsRun(ms, queue, ops) && n <= |ops|
    ensures Refines(ms[n], queue, RingAt(ms[0], queue).capacity, DequeRun(ms, queue, ops, n))
  {
    hide CellOf, Mapped, LoadBytes, MappedRange, WellShaped, RingIn, Contents, Steps, DequeStep;
    if n > 0 {
      RunRefines(ms, queue, ops, n - 1);
      hide WellFormed, RingOk;
      StepRefines(ms[n - 1], ms[n], queue, ops[n - 1]);
    }
  }

  // The calls

  lemma RingWords(m: Memory, queue: nat)
    requires WellFormed(m) && MappedRange(m, queue, QUEUE_SIZE)
    ensures MappedRange(m, queue + MESSAGES, 4) && MappedRange(m, queue + CAPACITY, 4)
    ensures MappedRange(m, queue + FIRST, 4) && MappedRange(m, queue + USED, 4)
    ensures RingAt(m, queue) == Ring(WordAt(m, queue + MESSAGES), WordAt(m, queue + CAPACITY),
                                     WordAt(m, queue + FIRST), WordAt(m, queue + USED))
  {
    hide WellFormed, CellOf, Mapped, MappedRange, LoadBytes, Word32, WordAt;
    WordOfObject(m, queue, QUEUE_SIZE, MESSAGES);
    WordOfObject(m, queue, QUEUE_SIZE, CAPACITY);
    WordOfObject(m, queue, QUEUE_SIZE, FIRST);
    WordOfObject(m, queue, QUEUE_SIZE, USED);
  }

  method ReadRing(memory: GuestMemory, queue: Word) returns (r: Ring)
    requires memory.Valid() && MappedRange(memory.Image(), queue, QUEUE_SIZE)
    ensures r == RingAt(memory.Image(), queue)
  {
    assert WellFormed(memory.Image());
    hide *;
    RingWords(memory.Image(), queue);
    var messages := LoadWord(memory, queue + MESSAGES);
    var capacity := LoadWord(memory, queue + CAPACITY);
    var first := LoadWord(memory, queue + FIRST);
    var used := LoadWord(memory, queue + USED);
    r := Ring(messages, capacity, first, used);
  }

  lemma PushSlotUnfolds(m: Memory, queue: nat, r: Ring, k: Word, bs: seq<Byte>, front: bool)
    requires WellFormed(m) && MappedRange(m, queue, QUEUE_SIZE) && MappedRange(m, SlotAddress(r, k), |bs|)
    ensures var filled := StoreBytes(m, SlotAddress(r, k), bs);
            && MappedRange(filled, queue + FIRST, 4)
            && PushSlot(m, queue, r, k, bs, front) == if front then StoreWord(filled, queue + FIRST, k) else filled
  {
    hide WellFormed, CellOf, SameLayout, Mapped, MappedRange, StoreBytes, StoreWord;
    HeaderWords(m, queue);
  }

  method CommitSlot(memory: GuestMemory, queue: Word, r: Ring, k: Word, bs: seq<Byte>, front: bool)
    requires memory.Valid() && WellFormed(memory.Image()) && MappedRange(memory.Image(), queue, QUEUE_SIZE)
    requires bs != [] && MappedRange(memory.Image(), SlotAddress(r, k), |bs|)
    modifies memory, memory.bytes, memory.flatGenerations
    ensures memory.Valid() && memory.Image() == PushSlot(old(memory.Image()), queue, r, k, bs, front)
  {
    hide *;
    PushSlotUnfolds(memory.Image(), queue, r, k, bs, front);
    StoreRange(memory, SlotAddress(r, k), bs);
    if front { StoreWordAt(memory, queue + FIRST, k); }
  }

  lemma PushUnfolds(m: Memory, queue: nat, r: Ring, k: Word, bs: seq<Byte>, front: bool)
    requires WellFormed(m) && MappedRange(m, queue, QUEUE_SIZE) && r.used < r.capacity
    requires MappedRange(m, SlotAddress(r, k), |bs|)
    ensures var moved := PushSlot(m, queue, r, k, bs, front);
            && MappedRange(moved, queue + USED, 4)
            && Push(m, queue, r, k, bs, front) == StoreWord(moved, queue + USED, r.used + 1)
  {
    hide WellFormed, CellOf, SameLayout, Mapped, MappedRange, StoreWord;
    HeaderWords(PushSlot(m, queue, r, k, bs, front), queue);
  }

  /** The commit of a send, once everything is validated. */
  method CommitSend(memory: GuestMemory, queue: Word, r: Ring, k: Word, bs: seq<Byte>, front: bool)
    requires memory.Valid() && WellFormed(memory.Image()) && MappedRange(memory.Image(), queue, QUEUE_SIZE)
    requires r.used < r.capacity && bs != [] && MappedRange(memory.Image(), SlotAddress(r, k), |bs|)
    modifies memory, memory.bytes, memory.flatGenerations
    ensures memory.Valid() && memory.Image() == Push(old(memory.Image()), queue, r, k, bs, front)
  {
    hide *;
    PushUnfolds(memory.Image(), queue, r, k, bs, front);
    CommitSlot(memory, queue, r, k, bs, front);
    StoreWordAt(memory, queue + USED, r.used + 1);
  }

  /** `send_guest_message` up to the wake-up. */
  method SendGuestMessage(memory: GuestMemory, queue: Word, message: Word, flags: Word) returns (o: Outcome)
    requires memory.Valid()
    modifies memory, memory.bytes, memory.flatGenerations
    ensures memory.Valid() && o == SendOutcome(old(memory.Image()), queue, message, flags)
    ensures memory.Image() ==
            if o.Done? then AfterSend(old(memory.Image()), queue, message, flags) else old(memory.Image())
  {
    hide WellFormed, CellOf, Mapped, MappedRange, Push, LoadBytes, RingIn;
    if queue == 0 { return Fault; }
    var mapped := ValidateRange(memory, queue, QUEUE_SIZE);
    if !mapped { return Fault; }
    var r := ReadRing(memory, queue);
    if r.capacity != 0 && r.first >= r.capacity { return Fault; }
    if r.used >= r.capacity {
      return if flags % 2 == 1 then Fault else Refused;
    }
    if message == 0 { return Fault; }
    var slot := TargetSlot(r, flags);
    var readable, bs := memory.ReadBytes(message, MESSAGE_SIZE);
    var writable := ValidateRange(memory, r.messages + slot * MESSAGE_SIZE, MESSAGE_SIZE);
    if !readable || !writable { return Fault; }
    CommitSend(memory, queue, r, slot, bs, HighPriority(flags));
    return Done;
  }

  lemma AdvancedUnfolds(m: Memory, queue: nat, r: Ring)
    requires WellFormed(m) && MappedRange(m, queue, QUEUE_SIZE) && 0 < r.used <= r.capacity
    ensures 0 <= (r.first + 1) % r.capacity < r.capacity && MappedRange(m, queue + FIRST, 4)
    ensures var moved := StoreWord(m, queue + FIRST, (r.first + 1) % r.capacity);
            MappedRange(moved, queue + USED, 4) && Advanced(m, queue, r) == StoreWord(moved, queue + USED, r.used - 1)
  {
    hide WellFormed, CellOf, SameLayout, Mapped, MappedRange, StoreWord;
    HeaderWords(m, queue);
    NextSlot(r);
  }

  /** The commit of a receive. */
  method CommitReceive(memory: GuestMemory, queue: Word, r: Ring, destination: Word, bs: seq<Byte>)
    requires memory.Valid() && WellFormed(memory.Image()) && bs != []
    requires MappedRange(memory.Image(), queue, QUEUE_SIZE) && 0 < r.used <= r.capacity
    requires MappedRange(memory.Image(), destination, |bs|)
    requires MappedRange(StoreBytes(memory.Image(), destination, bs), queue, QUEUE_SIZE)
    modifies memory, memory.bytes, memory.flatGenerations
    ensures memory.Valid()
    ensures memory.Image() == Advanced(StoreBytes(old(memory.Image()), destination, bs), queue, r)
  {
    hide *;
    AdvancedUnfolds(StoreBytes(memory.Image(), destination, bs), queue, r);
    StoreRange(memory, destination, bs);
    StoreWordAt(memory, queue + FIRST, (r.first + 1) % r.capacity);
    StoreWordAt(memory, queue + USED, r.used - 1);
  }

  /** `receive_guest_message` on one ring; WouldBlock leaves the rest to the scheduler. */
  method ReceiveGuestMessage(memory: GuestMemory, queue: Word, destination: Word, flags: Word) returns (o: Outcome)
    requires memory.Valid()
    modifies memory, memory.bytes, memory.flatGenerations
    ensures memory.Valid() && o == ReceiveOutcome(old(memory.Image()), queue, destination, flags)
    ensures memory.Image() ==
            if o.Done? then AfterReceive(old(memory.Image()), queue, destination, flags) else old(memory.Image())
  {
    hide WellFormed, CellOf, Mapped, MappedRange, Advanced, LoadBytes, RingIn, StoreBytes;
    if queue == 0 { return Fault; }
    var mapped := ValidateRange(memory, queue, QUEUE_SIZE);
    if !mapped { return Fault; }
    var r := ReadRing(memory, queue);
    if (r.capacity != 0 && r.first >= r.capacity) || r.used > r.capacity { return Fault; }
    if r.used == 0 && flags % 2 == 0 { return Refused; }
    if destination == 0 { return Fault; }
    var writable := ValidateRange(memory, destination, MESSAGE_SIZE);
    if r.used == 0 { return if writable then WouldBlock else Fault; }
    var address: nat := r.messages + r.first * MESSAGE_SIZE;
    var readable := ValidateRange(memory, address, MESSAGE_SIZE);
    if !readable || !writable { return Fault; }
    var bs := LoadRange(memory, address, MESSAGE_SIZE);
    CommitReceive(memory, queue, r, destination, bs);
    return Done;
  }

  // Initialisation

  const QUEUE_TAG: Word := 0x6D53_6751

  /** `initialize_guest_message_queue` after the zero fill: tag, the two thread queues, the ring. */
  function QueueWords(queue: Word, messages: Word, capacity: Word): seq<WordStore> {
    [WordStore(0, QUEUE_TAG),
     WordStore(0x0C, 0), WordStore(0x10, 0), WordStore(0x14, queue), WordStore(0x18, 0),
     WordStore(0x1C, 0), WordStore(0x20, 0), WordStore(0x24, queue), WordStore(0x28, 0),
     WordStore(MESSAGES, messages), WordStore(CAPACITY, capacity), WordStore(FIRST, 0), WordStore(USED, 0)]
  }

  ghost function AfterInit(m: Memory, queue: Word, messages: Word, capacity: Word): (n: Memory)
    requires WellFormed(m) && MappedRange(m, queue, QUEUE_SIZE)
    ensures SameLayout(m, n) && WellFormed(n)
  {
    QueueWordsList(queue, messages, capacity);
    hide WellFormed, MappedRange, SameLayout, Initialised;
    Initialised(m, queue, QUEUE_SIZE, QueueWords(queue, messages, capacity))
  }

  lemma QueueWordsList(queue: Word, messages: Word, capacity: Word)
    ensures var ws := QueueWords(queue, messages, capacity);
            && |ws| == 13 && StoresFit(ws, QUEUE_SIZE)
            && ws[9] == WordStore(MESSAGES, messages) && ws[10] == WordStore(CAPACITY, capacity)
            && ws[11] == WordStore(FIRST, 0) && ws[12] == WordStore(USED, 0)
  {
  }

  lemma QueueWordsMeans(s: seq<Byte>, queue: Word, messages: Word, capacity: Word)
    requires |s| == QUEUE_SIZE
    ensures StoresFit(QueueWords(queue, messages, capacity), QUEUE_SIZE)
    ensures RingIn(SetWords(s, QueueWords(queue, messages, capacity))) == Ring(messages, capacity, 0, 0)
  {
    var ws := QueueWords(queue, messages, capacity);
    QueueWordsList(queue, messages, capacity);
    hide Word32, SetWords, QueueWords, StoresFit;
    LastStoreWins(s, ws, 9);
    LastStoreWins(s, ws, 10);
    LastStoreWins(s, ws, 11);
    LastStoreWins(s, ws, 12);
  }

  lemma InitHeader(m: Memory, queue: Word, messages: Word, capacity: Word)
    requires WellFormed(m) && MappedRange(m, queue, QUEUE_SIZE)
    ensures MappedRange(AfterInit(m, queue, messages, capacity), queue, QUEUE_SIZE)
    ensures RingAt(AfterInit(m, queue, messages, capacity), queue) == Ring(messages, capacity, 0, 0)
  {
    assert QUEUE_SIZE <= PAGE;
    QueueWordsList(queue, messages, capacity);
    hide WellFormed, CellOf, Mapped, SameLayout, MappedRange, Initialised, LoadBytes, Word32, SetWords, QueueWords,
         RingIn;
    InitialisedBytes(m, queue, QUEUE_SIZE, QueueWords(queue, messages, capacity));
    var s: seq<Byte> :| |s| == QUEUE_SIZE &&
      LoadBytes(AfterInit(m, queue, messages, capacity), queue, QUEUE_SIZE) ==
      SetWords(s, QueueWords(queue, messages, capacity));
    QueueWordsMeans(s, queue, messages, capacity);
  }

  /** A queue over an array of distinct mapped cells apart from the header starts as an empty ring. */
  lemma InitialQueueIsEmpty(m: Memory, queue: Word, messages: Word, capacity: Word)
    requires WellFormed(m) && WellShaped(m, queue, Ring(messages, capacity, 0, 0))
    ensures RingOk(AfterInit(m, queue, messages, capacity), queue)
    ensures RingAt(AfterInit(m, queue, messages, capacity), queue) == Ring(messages, capacity, 0, 0)
    ensures Contents(AfterInit(m, queue, messages, capacity), queue) == []
  {
    InitHeader(m, queue, messages, capacity);
    hide AfterInit, WellFormed, CellOf, Mapped, LoadBytes, Word32;
    ShapeKept(m, AfterInit(m, queue, messages, capacity), queue, Ring(messages, capacity, 0, 0));
  }

  method InitMessageQueue(memory: GuestMemory, queue: Word, messages: Word, capacity: Word) returns (ok: bool)
    requires memory.Valid()
    modifies memory, memory.bytes, memory.flatGenerations
    ensures memory.Valid() && (ok <==> queue != 0 && MappedRange(old(memory.Image()), queue, QUEUE_SIZE))
    ensures memory.Image() ==
            if ok then AfterInit(old(memory.Image()), queue, messages, capacity) else old(memory.Image())
  {
    if queue == 0 { return false; }
    QueueWordsList(queue, messages, capacity);
    hide WellFormed, CellOf, Mapped, MappedRange, Initialised, SameLayout, QueueWords;
    ok := ValidateRange(memory, queue, QUEUE_SIZE);
    if !ok { return; }
    InitialiseObject(memory, queue, QUEUE_SIZE, QueueWords(queue, messages, capacity));
  }
}
