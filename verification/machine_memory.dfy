/**
 * Runs in guest memory: if memory encodes the state of the scheduler, then after the stores of a step, be it
 * a send, a receive, a sleep, a yield, a creation, a resumption or guest code, it encodes the next state. So
 * context isolation and the wake-up theorem hold of the bytes in guest memory.
 */
module MachineMemory {
  import opened Bits
  import opened MemoryImage
  import opened GuestObjects
  import opened Extents
  import opened ThreadObjects
  import opened RingExtents
  import opened GuestThreads
  import opened ThreadInvariants
  import opened ThreadCalls
  import opened ThreadRuns
  import opened ThreadMemory
  import opened SwitchMemory
  import MessageRing
  import WakeUps

  // A send

  lemma OutsideNothing(m: Memory, w: World)
    requires Held(m, w)
    ensures Outside(m, w, [])
  {
    hide WellFormed, ThreadHeld, QueueSpan, Sep, MessageRing.RingOk, MessageRing.Contents, MessageRing.RingAt;
  }

  lemma EncodedHeld(m: Memory, w: World)
    requires Encoded(m, w)
    ensures Held(m, w) && WellFormed(m)
  {
    hide WellFormed, ThreadHeld, QueueHeld, Spread;
  }

  /** What an accepted send leaves in the ring. */
  lemma SentQueue(m: Memory, q: Word, d: MessageQueue, message: Word, flags: Word)
    requires QueueHeld(m, q, d) && MessageRing.SendOutcome(m, q, message, flags).Done?
    ensures MappedRange(m, message, MessageRing.MESSAGE_SIZE)
    ensures var n := MessageRing.AfterSend(m, q, message, flags);
            && QueueHeld(n, q, Pushed(d, LoadBytes(m, message, MessageRing.MESSAGE_SIZE), flags))
            && QueueSpan(n, q) == QueueSpan(m, q)
  {
    hide WellFormed, CellOf, Mapped, MappedRange, LoadBytes, MessageRing.WellShaped, MessageRing.Contents,
         MessageRing.AfterSend, MessageRing.SendOutcome, MessageRing.RingOk, MessageRing.RingAt;
    SpanIs(m, q);
    MessageRing.SendRefinesPush(m, q, message, flags);
    var n := MessageRing.AfterSend(m, q, message, flags);
    SpansAgree(m, n, q);
  }

  lemma SpansAgree(m: Memory, n: Memory, q: nat)
    requires MessageRing.RingOk(m, q) && MessageRing.RingOk(n, q)
    requires MessageRing.RingAt(m, q).messages == MessageRing.RingAt(n, q).messages
    requires MessageRing.RingAt(m, q).capacity == MessageRing.RingAt(n, q).capacity
    ensures QueueSpan(n, q) == QueueSpan(m, q)
  {
    hide WellFormed, CellOf, Mapped, MappedRange, LoadBytes, MessageRing.WellShaped, MessageRing.RingIn;
  }

  lemma PushEncoded(m: Memory, w: World, q: Word, message: Word, flags: Word)
    requires Encoded(m, w) && q in w.queues && MessageRing.RingOk(m, q)
    requires MessageRing.SendOutcome(m, q, message, flags).Done?
    ensures MappedRange(m, message, MessageRing.MESSAGE_SIZE)
    ensures var bs := LoadBytes(m, message, MessageRing.MESSAGE_SIZE);
            Encoded(MessageRing.AfterSend(m, q, message, flags),
                    w.(queues := w.queues[q := Pushed(w.queues[q], bs, flags)]))
  {
    hide *;
    EncodedQueue(m, w, q);
    EncodedHeld(m, w);
    OutsideNothing(m, w);
    SentQueue(m, q, w.queues[q], message, flags);
    SendKeeps(m, q, message, flags);
    SpanIs(m, q);
    var bs := LoadBytes(m, message, MessageRing.MESSAGE_SIZE);
    assert [] + QueueSpan(m, q) == QueueSpan(m, q);
    QueueStored(m, MessageRing.AfterSend(m, q, message, flags), w, q, Pushed(w.queues[q], bs, flags), []);
  }

  lemma SpanIs(m: Memory, q: nat)
    requires MessageRing.RingOk(m, q)
    ensures MappedRange(m, q, MessageRing.QUEUE_SIZE) && WellFormed(m)
    ensures QueueSpan(m, q) == QueueExtents(q, MessageRing.RingAt(m, q))
  {
    hide WellFormed, CellOf, Mapped, MappedRange, LoadBytes, MessageRing.WellShaped, MessageRing.RingIn;
  }

  /** The state byte that wakes a receiver, if there is one. */
  ghost function ReceiverMemory(m: Memory, w: World, q: Word): Memory
    requires Encoded(m, w) && Known(w.threads, w.objects)
  {
    hide Encoded, BestWaiter;
    var k := BestWaiter(w.threads, w.objects, q, |w.threads|);
    if k < 0 then m
    else
      EncodedThread(m, w, w.threads[k].address);
      SetState(m, w.threads[k].address, READY)
  }

  lemma ReceiverEncoded(m: Memory, w: World, q: Word)
    requires Encoded(m, w) && Known(w.threads, w.objects)
    ensures Encoded(ReceiverMemory(m, w, q), WakeReceiver(w, q))
  {
    hide Encoded, BestWaiter, SetState;
    var k := BestWaiter(w.threads, w.objects, q, |w.threads|);
    if k >= 0 {
      var a := w.threads[k].address;
      StateEncoded(m, w, a, READY);
      SameParts(SetState(m, a, READY), w.(objects := w.objects[a := w.objects[a].(state := READY)]),
                WakeReceiver(w, q));
    }
  }

  // A receive

  lemma DestinationClear(m: Memory, w: World, q: Word, destination: nat)
    requires Encoded(m, w) && q in w.queues && MessageRing.RingOk(m, q)
    requires MappedRange(m, destination, MessageRing.MESSAGE_SIZE)
    requires Held(m, w) && Outside(m, w, [Destination(destination)])
    ensures MappedRange(m, q, MessageRing.QUEUE_SIZE) && WellFormed(m)
    ensures MessageRing.Clear(m, q, MessageRing.RingAt(m, q), destination)
  {
    QueueSpanIs(m, q);
    var r := MessageRing.RingAt(m, q);
    ApartFromOne(m, Destination(destination), HeaderExtent(q));
    ApartFromOne(m, Destination(destination), ArrayExtent(r));
    hide WellFormed, CellOf, Mapped, MappedRange, LoadBytes, MessageRing.WellShaped, MessageRing.RingIn, Spread,
         ThreadHeld, MessageRing.Contents, QueueSpan, ApartFromAll, Separate;
    assert Sep(m, Destination(destination), HeaderExtent(q)) && Sep(m, Destination(destination), ArrayExtent(r));
  }

  lemma ReceivedQueue(m: Memory, q: Word, d: MessageQueue, destination: Word, flags: Word)
    requires QueueHeld(m, q, d) && MessageRing.ReceiveOutcome(m, q, destination, flags).Done?
    requires MappedRange(m, q, MessageRing.QUEUE_SIZE)
    requires MessageRing.Clear(m, q, MessageRing.RingAt(m, q), destination)
    ensures d.messages != []
    ensures var n := MessageRing.AfterReceive(m, q, destination, flags);
            && QueueHeld(n, q, d.(messages := d.messages[1..])) && QueueSpan(n, q) == QueueSpan(m, q)
            && MappedRange(n, destination, MessageRing.MESSAGE_SIZE)
            && LoadBytes(n, destination, MessageRing.MESSAGE_SIZE) == d.messages[0]
  {
    hide WellFormed, CellOf, Mapped, MappedRange, LoadBytes, MessageRing.WellShaped, MessageRing.Contents,
         MessageRing.AfterReceive, MessageRing.ReceiveOutcome, MessageRing.RingOk, MessageRing.RingAt,
         MessageRing.Clear;
    SpanIs(m, q);
    MessageRing.ReceiveRefinesPop(m, q, destination, flags);
    SpansAgree(m, MessageRing.AfterReceive(m, q, destination, flags), q);
  }

  lemma PopEncoded(m: Memory, w: World, q: Word, destination: Word, flags: Word)
    requires Encoded(m, w) && q in w.queues && MessageRing.RingOk(m, q)
    requires MessageRing.ReceiveOutcome(m, q, destination, flags).Done?
    requires Held(m, w) && Outside(m, w, [Destination(destination)])
    ensures w.queues[q].messages != []
    ensures Encoded(MessageRing.AfterReceive(m, q, destination, flags),
                    w.(queues := w.queues[q := w.queues[q].(messages := w.queues[q].messages[1..])]))
  {
    hide *;
    EncodedQueue(m, w, q);
    SpanIs(m, q);
    ReceiveUnfolds(m, q, destination, flags);
    DestinationClear(m, w, q, destination);
    ReceivedQueue(m, q, w.queues[q], destination, flags);
    ReceiveKeeps(m, q, destination, flags);
    QueueStored(m, MessageRing.AfterReceive(m, q, destination, flags), w, q,
                w.queues[q].(messages := w.queues[q].messages[1..]), [Destination(destination)]);
  }

  // A new queue

  ghost function WithoutQueue(w: World, q: Word): World { w.(queues := w.queues - {q}) }

  /** The header and the array are mapped, distinct cells that no thread and no other queue uses. */
  ghost predicate QueuePlace(m: Memory, w: World, q: Word, messages: Word, capacity: Word) {
    var r := MessageRing.Ring(messages, capacity, 0, 0);
    && q != 0 && WellFormed(m) && MessageRing.WellShaped(m, q, r)
    && Held(m, WithoutQueue(w, q)) && Free(m, WithoutQueue(w, q), QueueExtents(q, r))
  }

  /** A part of free extents is outside everything. */
  lemma FreeOutside(m: Memory, v: World, fs: seq<Extent>, f: Extent)
    requires Held(m, v) && Free(m, v, fs) && f in fs
    ensures Outside(m, v, [f])
  {
    hide WellFormed, ThreadHeld, QueueSpan, Sep, MessageRing.RingOk, MessageRing.Contents, MessageRing.RingAt,
         ApartFromAll;
    forall a | a in v.objects ensures ApartFromAll(m, [f], ThreadExtent(a)) {
      assert ClearOf(m, a, fs);
      ApartFromOne(m, f, ThreadExtent(a));
    }
    forall p, e | p in v.queues && e in QueueSpan(m, p) ensures ApartFromAll(m, [f], e) {
      assert Disjoint(m, fs, QueueSpan(m, p));
      ApartFromOne(m, f, e);
    }
  }

  lemma PlaceShape(m: Memory, w: World, q: Word, messages: Word, capacity: Word)
    requires QueuePlace(m, w, q, messages, capacity)
    ensures q != 0 && WellFormed(m) && MappedRange(m, q, MessageRing.QUEUE_SIZE)
    ensures MessageRing.WellShaped(m, q, MessageRing.Ring(messages, capacity, 0, 0))
    ensures Held(m, WithoutQueue(w, q))
    ensures Free(m, WithoutQueue(w, q), QueueExtents(q, MessageRing.Ring(messages, capacity, 0, 0)))
  {
    hide WellFormed, MappedRange, Injective, Separate, Held, Free;
  }

  lemma FreshQueue(m: Memory, q: Word, messages: Word, capacity: Word)
    requires q != 0 && WellFormed(m) && MappedRange(m, q, MessageRing.QUEUE_SIZE)
    requires MessageRing.WellShaped(m, q, MessageRing.Ring(messages, capacity, 0, 0))
    ensures var n := MessageRing.AfterInit(m, q, messages, capacity);
            && MessageRing.RingOk(n, q) && QueueHeld(n, q, MessageQueue(capacity, []))
            && QueueSpan(n, q) == QueueExtents(q, MessageRing.Ring(messages, capacity, 0, 0))
  {
    MessageRing.InitialQueueIsEmpty(m, q, messages, capacity);
    var n := MessageRing.AfterInit(m, q, messages, capacity);
    hide WellFormed, CellOf, Mapped, MappedRange, LoadBytes, MessageRing.WellShaped, MessageRing.Contents,
         MessageRing.AfterInit, MessageRing.RingOk, MessageRing.RingAt;
    SpanIs(n, q);
    ExtentsIgnoreIndices(q, MessageRing.RingAt(n, q), MessageRing.Ring(messages, capacity, 0, 0));
  }

  lemma ExtentsIgnoreIndices(q: nat, r: MessageRing.Ring, s: MessageRing.Ring)
    requires r.messages == s.messages && r.capacity == s.capacity
    ensures QueueExtents(q, r) == QueueExtents(q, s)
  {
  }

  lemma InitEncoded(m: Memory, w: World, q: Word, messages: Word, capacity: Word)
    requires Encoded(m, w) && QueuePlace(m, w, q, messages, capacity)
    ensures WellFormed(m) && MappedRange(m, q, MessageRing.QUEUE_SIZE)
    ensures Encoded(MessageRing.AfterInit(m, q, messages, capacity),
                    w.(queues := w.queues[q := MessageQueue(capacity, [])]))
  {
    hide *;
    PlaceShape(m, w, q, messages, capacity);
    var r := MessageRing.Ring(messages, capacity, 0, 0);
    var v, n := WithoutQueue(w, q), MessageRing.AfterInit(m, q, messages, capacity);
    DropQueue(m, w, q);
    WithoutIs(w, q, MessageQueue(capacity, []));
    InitKeeps(m, q, messages, capacity);
    HeaderInQueue(m, q, r);
    FreeOutside(m, v, QueueExtents(q, r), HeaderExtent(q));
    FreshQueue(m, q, messages, capacity);
    FreeKept(m, n, v, QueueExtents(q, r), [HeaderExtent(q)]);
    EncodedHeld(n, v);
    AddQueue(n, v, q, MessageQueue(capacity, []));
  }

  lemma WithoutIs(w: World, q: Word, d: MessageQueue)
    ensures WithoutQueue(w, q) == w.(queues := w.queues - {q}) && q !in WithoutQueue(w, q).queues
    ensures WithoutQueue(w, q).(queues := WithoutQueue(w, q).queues[q := d]) == w.(queues := w.queues[q := d])
  {
    assert WithoutQueue(w, q).queues[q := d] == w.queues[q := d];
  }

  // A new thread

  /** Stores outside all threads and queues that leave a new object in a free place. */
  ghost predicate CreateStores(m: Memory, n: Memory, w: World, a: Word, o: OsThread)
    requires Encoded(m, w)
  {
    && (exists fs :: Keeps(m, n, fs) && Held(m, w) && Outside(m, w, fs))
    && WellFormed(n) && ThreadHeld(n, a, o) && Held(n, w) && FreePlace(n, w, a)
  }

  lemma CreateEncoded(m: Memory, n: Memory, w: World, a: Word, o: OsThread)
    requires Encoded(m, w) && a !in w.objects && CreateStores(m, n, w, a, o)
    ensures Encoded(n, w.(objects := w.objects[a := o]))
  {
    hide WellFormed, Keeps, Held, Outside, ThreadHeld, FreePlace, Encoded;
    var fs :| Keeps(m, n, fs) && Held(m, w) && Outside(m, w, fs);
    GuestStored(m, n, w, fs);
    AddThread(n, w, a, o);
  }

  // Steps and runs

  /** Guest code, and calls that are none of the scheduler's, store outside its objects. */
  ghost predicate GuestStores(m: Memory, n: Memory, w: World)
    requires Encoded(m, w)
  {
    exists fs :: Keeps(m, n, fs) && Held(m, w) && Outside(m, w, fs)
  }

  lemma GuestEncoded(m: Memory, n: Memory, w: World)
    requires Encoded(m, w) && GuestStores(m, n, w)
    ensures Encoded(n, w)
  {
    hide Keeps, Held, Outside, Encoded;
    var fs :| Keeps(m, n, fs) && Held(m, w) && Outside(m, w, fs);
    GuestStored(m, n, w, fs);
  }

  /** OSSendMessage: nothing when the queue is full, else the ring's stores and the receiver's state. */
  ghost predicate SendStores(m: Memory, n: Memory, w: World, message: Message)
    requires Encoded(m, w) && Ready(w)
  {
    var q, source, flags := w.regs.gpr[3], w.regs.gpr[4], w.regs.gpr[5];
    && q in w.queues && MessageRing.RingOk(m, q)
    && if |w.queues[q].messages| >= w.queues[q].capacity then n == m
       else
         && MessageRing.SendOutcome(m, q, source, flags).Done?
         && MappedRange(m, source, MessageRing.MESSAGE_SIZE)
         && message == LoadBytes(m, source, MessageRing.MESSAGE_SIZE)
         && var v := w.(queues := w.queues[q := Pushed(w.queues[q], message, flags)]);
            PushEncoded(m, w, q, source, flags);
            n == ReceiverMemory(MessageRing.AfterSend(m, q, source, flags), v, q)
  }

  predicate Full(d: MessageQueue) { |d.messages| >= d.capacity }

  ghost function PushedWorld(w: World, message: Message): World
    requires ValidRegisters(w.regs) && w.regs.gpr[3] in w.queues
  {
    w.(queues := w.queues[w.regs.gpr[3] := Pushed(w.queues[w.regs.gpr[3]], message, w.regs.gpr[5])])
  }

  lemma SendParts(w: World, message: Message)
    requires Ready(w) && Send(w, message).Some?
    ensures ValidRegisters(w.regs) && |w.regs.gpr| == 32 && w.regs.gpr[3] in w.queues
    ensures var t := Send(w, message).value;
            if Full(w.queues[w.regs.gpr[3]]) then t.objects == w.objects && t.queues == w.queues
            else
              var v := PushedWorld(w, message);
              && Known(v.threads, v.objects)
              && t.objects == WakeReceiver(v, w.regs.gpr[3]).objects
              && t.queues == WakeReceiver(v, w.regs.gpr[3]).queues
  {
    hide BestWaiter, Pushed;
  }

  lemma SentMemory(m: Memory, n: Memory, w: World, message: Message)
    requires Encoded(m, w) && Ready(w) && SendStores(m, n, w, message)
    ensures w.regs.gpr[3] in w.queues
    ensures if Full(w.queues[w.regs.gpr[3]]) then n == m
            else Known(w.threads, w.objects) && Encoded(n, WakeReceiver(PushedWorld(w, message), w.regs.gpr[3]))
  {
    var q, source, flags := w.regs.gpr[3], w.regs.gpr[4], w.regs.gpr[5];
    if !Full(w.queues[q]) {
      PushEncoded(m, w, q, source, flags);
      hide Encoded, WakeReceiver, ReceiverMemory, MessageRing.AfterSend, MessageRing.SendOutcome,
           MessageRing.RingOk, LoadBytes, MappedRange, WellFormed, Pushed;
      ReceiverEncoded(MessageRing.AfterSend(m, q, source, flags), PushedWorld(w, message), q);
    }
  }

  lemma SendEncoded(m: Memory, n: Memory, w: World, message: Message)
    requires Encoded(m, w) && Ready(w) && SendStores(m, n, w, message)
    ensures Send(w, message).Some? ==> Encoded(n, Send(w, message).value)
  {
    hide *;
    if Send(w, message).Some? {
      SendParts(w, message);
      SentMemory(m, n, w, message);
      var q, t := w.regs.gpr[3], Send(w, message).value;
      if Full(w.queues[q]) {
        SameParts(m, w, t);
      } else {
        SameParts(n, WakeReceiver(PushedWorld(w, message), q), t);
      }
    }
  }

  /** OSReceiveMessage: the pop, a blocking switch, or nothing. */
  ghost predicate ReceiveStores(m: Memory, n: Memory, w: World)
    requires Encoded(m, w) && Scheduled(w) && Ready(w)
  {
    var q, destination, flags := w.regs.gpr[3], w.regs.gpr[4], w.regs.gpr[5];
    && q in w.queues && MessageRing.RingOk(m, q)
    && if w.queues[q].messages == [] then
         if !Blocking(flags) then n == m
         else n == SwitchedMemory(m, w, true, TICKS_MAX, Option<Word>.Some(w.regs.cia), q)
       else
         && MessageRing.ReceiveOutcome(m, q, destination, flags).Done?
         && Held(m, w) && Outside(m, w, [Destination(destination)])
         && n == MessageRing.AfterReceive(m, q, destination, flags)
  }

  ghost function PoppedWorld(w: World): World
    requires ValidRegisters(w.regs) && w.regs.gpr[3] in w.queues && w.queues[w.regs.gpr[3]].messages != []
  {
    var q := w.regs.gpr[3];
    w.(queues := w.queues[q := w.queues[q].(messages := w.queues[q].messages[1..])])
  }

  lemma ReceiveParts(w: World)
    requires Ready(w) && Receive(w).Some?
    ensures ValidRegisters(w.regs) && |w.regs.gpr| == 32 && w.regs.gpr[3] in w.queues
    ensures Known(w.threads, w.objects)
    ensures var t, q := Receive(w).value, w.regs.gpr[3];
            if w.queues[q].messages == [] then
              if Blocking(w.regs.gpr[5]) then
                t == Switch(w, true, TICKS_MAX, Option<Word>.Some(w.regs.cia), q).0
              else t.objects == w.objects && t.queues == w.queues
            else t.objects == PoppedWorld(w).objects && t.queues == PoppedWorld(w).queues
  {
    hide Switch;
  }

  lemma ReceivedMemory(m: Memory, n: Memory, w: World)
    requires Encoded(m, w) && Scheduled(w) && Ready(w) && ReceiveStores(m, n, w)
    ensures w.regs.gpr[3] in w.queues && Known(w.threads, w.objects)
    ensures var q := w.regs.gpr[3];
            if w.queues[q].messages == [] then
              if Blocking(w.regs.gpr[5]) then
                Encoded(n, Switch(w, true, TICKS_MAX, Option<Word>.Some(w.regs.cia), q).0)
              else n == m
            else Encoded(n, PoppedWorld(w))
  {
    var q := w.regs.gpr[3];
    if w.queues[q].messages == [] {
      SwitchEncoded(m, w, true, TICKS_MAX, Option<Word>.Some(w.regs.cia), q);
    } else {
      PopEncoded(m, w, q, w.regs.gpr[4], w.regs.gpr[5]);
    }
    hide Encoded, Scheduled, SwitchedMemory, Switch, MessageRing.AfterReceive, MessageRing.ReceiveOutcome,
         MessageRing.RingOk, Held, Outside, WellFormed;
  }

  lemma ReceiveEncoded(m: Memory, n: Memory, w: World)
    requires Encoded(m, w) && Scheduled(w) && Ready(w) && ReceiveStores(m, n, w)
    ensures Receive(w).Some? ==> Encoded(n, Receive(w).value)
  {
    hide *;
    if Receive(w).Some? {
      ReceiveParts(w);
      ReceivedMemory(m, n, w);
      var q, t := w.regs.gpr[3], Receive(w).value;
      if w.queues[q].messages == [] {
        if !Blocking(w.regs.gpr[5]) { SameParts(m, w, t); }
      } else {
        SameParts(n, PoppedWorld(w), t);
      }
    }
  }

  /** OSSleepTicks: the time of day moves on, and a switch. */
  ghost function Sleeping(w: World): World
    requires ValidRegisters(w.regs)
  {
    w.(sleepOffset := OffsetAfter(w.sleepOffset, SleepLength(w.regs)))
  }

  lemma SleepingKept(m: Memory, w: World)
    requires Encoded(m, w) && Scheduled(w) && ValidRegisters(w.regs)
    ensures Encoded(m, Sleeping(w)) && Scheduled(Sleeping(w)) && Known(Sleeping(w).threads, Sleeping(w).objects)
  {
    hide Encoded, Scheduled, SleepLength, OffsetAfter;
    SameParts(m, w, Sleeping(w));
    ScheduledAttached(w);
    RegistersOnly(w, Sleeping(w));
  }

  ghost predicate SleepStores(m: Memory, n: Memory, w: World)
    requires Encoded(m, w) && Scheduled(w) && Ready(w)
  {
    SleepingKept(m, w);
    n == SwitchedMemory(m, Sleeping(w), SleepLength(w.regs) > 0, SleepLength(w.regs), Option<Word>.None, 0)
  }

  lemma SleepIsSwitch(w: World)
    requires Ready(w)
    ensures Known(Sleeping(w).threads, Sleeping(w).objects)
    ensures Sleep(w) ==
            Option<World>.Some(
              Switch(Sleeping(w), SleepLength(w.regs) > 0, SleepLength(w.regs), Option<Word>.None, 0).0)
  {
    hide Switch, SleepLength, OffsetAfter;
  }

  lemma SleepEncoded(m: Memory, n: Memory, w: World)
    requires Encoded(m, w) && Scheduled(w) && Ready(w) && SleepStores(m, n, w)
    ensures Sleep(w).Some? && Encoded(n, Sleep(w).value)
  {
    SleepIsSwitch(w);
    SleepingKept(m, w);
    hide Encoded, Scheduled, SwitchedMemory, Switch, Sleep, SleepLength, Sleeping;
    SwitchEncoded(m, Sleeping(w), SleepLength(w.regs) > 0, SleepLength(w.regs), Option<Word>.None, 0);
  }

  /** OSYieldThread. */
  lemma YieldEncoded(m: Memory, w: World)
    requires Encoded(m, w) && Scheduled(w) && Ready(w)
    ensures Yield(w).Some? && Encoded(SwitchedMemory(m, w, false, 0, Option<Word>.None, 0), Yield(w).value)
  {
    hide Encoded, Scheduled, SwitchedMemory, Switch;
    SwitchEncoded(m, w, false, 0, Option<Word>.None, 0);
  }

  /** OSResumeThread: one less in the suspend count. */
  ghost predicate ResumeStores(m: Memory, n: Memory, w: World)
    requires Encoded(m, w) && Ready(w)
  {
    var t := w.regs.gpr[3];
    && t in w.objects && WellFormed(m) && MappedRange(m, t, THREAD_SIZE)
    && n == if w.objects[t].suspend == 0 then m else SetSuspend(m, t, w.objects[t].suspend - 1)
  }

  ghost function LessSuspended(w: World, t: Word): World
    requires t in w.objects && w.objects[t].suspend > 0
  {
    w.(objects := w.objects[t := w.objects[t].(suspend := w.objects[t].suspend - 1)])
  }

  lemma ResumeParts(w: World)
    requires Ready(w) && ResumeThread(w).Some?
    ensures |w.regs.gpr| == 32 && w.regs.gpr[3] in w.objects
    ensures var t, v := w.regs.gpr[3], ResumeThread(w).value;
            && v.queues == w.queues
            && if w.objects[t].suspend == 0 then v.objects == w.objects
               else v.objects == LessSuspended(w, t).objects && LessSuspended(w, t).queues == w.queues
  {
    var t := w.regs.gpr[3];
    assert w.objects[t].suspend == 0 ==> w.objects[t := w.objects[t].(suspend := 0)] == w.objects;
  }

  lemma ResumeStoresAre(m: Memory, n: Memory, w: World)
    requires Encoded(m, w) && Ready(w) && ResumeStores(m, n, w)
    ensures |w.regs.gpr| == 32 && w.regs.gpr[3] in w.objects
    ensures WellFormed(m) && MappedRange(m, w.regs.gpr[3], THREAD_SIZE)
    ensures var t := w.regs.gpr[3];
            n == if w.objects[t].suspend == 0 then m else SetSuspend(m, t, w.objects[t].suspend - 1)
  {
    hide Encoded, SetSuspend, WellFormed, MappedRange, Known;
  }

  lemma LessSuspendedIs(w: World, t: Word)
    requires t in w.objects && w.objects[t].suspend > 0
    ensures LessSuspended(w, t) ==
            w.(objects := w.objects[t := w.objects[t].(suspend := w.objects[t].suspend - 1)])
  {
  }

  lemma ResumedMemoryIs(m: Memory, n: Memory, w: World)
    requires Encoded(m, w) && Ready(w) && ResumeStores(m, n, w)
    ensures |w.regs.gpr| == 32 && w.regs.gpr[3] in w.objects
    ensures var t := w.regs.gpr[3];
            if w.objects[t].suspend == 0 then n == m else Encoded(n, LessSuspended(w, t))
  {
    hide *;
    ResumeStoresAre(m, n, w);
    var t := w.regs.gpr[3];
    if w.objects[t].suspend > 0 {
      LessSuspendedIs(w, t);
      SuspendEncoded(m, w, t, w.objects[t].suspend - 1);
    }
  }

  lemma ResumeThreadEncoded(m: Memory, n: Memory, w: World)
    requires Encoded(m, w) && Ready(w) && ResumeStores(m, n, w)
    ensures ResumeThread(w).Some? ==> Encoded(n, ResumeThread(w).value)
  {
    hide *;
    if ResumeThread(w).Some? {
      ResumeParts(w);
      ResumedMemoryIs(m, n, w);
      var t := w.regs.gpr[3];
      if w.objects[t].suspend == 0 {
        SameParts(m, w, ResumeThread(w).value);
      } else {
        SameParts(n, LessSuspended(w, t), ResumeThread(w).value);
      }
    }
  }

  /** OSCreateThread: refused, or a new object in a free place. */
  ghost predicate NewThreadStores(cfg: Config, m: Memory, n: Memory, w: World)
    requires Encoded(m, w) && Ready(w)
  {
    if !CreateAccepted(w.regs) then n == m
    else
      Create(w, cfg).Some? ==>
        && w.regs.gpr[3] in Create(w, cfg).value.objects
        && CreateStores(m, n, w, w.regs.gpr[3], Create(w, cfg).value.objects[w.regs.gpr[3]])
  }

  lemma CreateParts(cfg: Config, w: World)
    requires Ready(w) && Create(w, cfg).Some?
    ensures var t, a := Create(w, cfg).value, w.regs.gpr[3];
            && t.queues == w.queues
            && if !CreateAccepted(w.regs) then t.objects == w.objects
               else a !in w.objects && a in t.objects && t.objects == w.objects[a := t.objects[a]]
  {
    hide InitialContext, CreateAccepted;
  }

  lemma NewThreadEncoded(cfg: Config, m: Memory, n: Memory, w: World)
    requires Encoded(m, w) && Ready(w) && NewThreadStores(cfg, m, n, w)
    ensures Create(w, cfg).Some? ==> Encoded(n, Create(w, cfg).value)
  {
    hide Encoded, Create, CreateStores, CreateAccepted, Known;
    if Create(w, cfg).Some? {
      CreateParts(cfg, w);
      var t, a := Create(w, cfg).value, w.regs.gpr[3];
      if CreateAccepted(w.regs) {
        CreateEncoded(m, n, w, a, t.objects[a]);
        SameParts(n, w.(objects := w.objects[a := t.objects[a]]), t);
      } else {
        SameParts(m, w, t);
      }
    }
  }

  /** OSInitMessageQueue: the header of an empty ring over cells that nobody else uses. */
  ghost predicate InitStores(m: Memory, n: Memory, w: World)
    requires Encoded(m, w) && Ready(w)
  {
    var q, messages, capacity := w.regs.gpr[3], w.regs.gpr[4], w.regs.gpr[5];
    && QueuePlace(m, w, q, messages, capacity) && MappedRange(m, q, MessageRing.QUEUE_SIZE)
    && n == MessageRing.AfterInit(m, q, messages, capacity)
  }

  lemma InitQueueEncoded(m: Memory, n: Memory, w: World)
    requires Encoded(m, w) && Ready(w) && InitStores(m, n, w)
    ensures InitQueue(w).Some? ==> Encoded(n, InitQueue(w).value)
  {
    var q, messages, capacity := w.regs.gpr[3], w.regs.gpr[4], w.regs.gpr[5];
    hide Encoded, MessageRing.AfterInit, QueuePlace, MappedRange, Known;
    InitEncoded(m, w, q, messages, capacity);
  }

  /** The stores of one step. */
  ghost predicate StepStores(cfg: Config, m: Memory, n: Memory, w: World, e: Event)
    requires Encoded(m, w) && Scheduled(w) && Ready(w)
  {
    if w.regs.cia !in cfg.imports || e.Guest? then GuestStores(m, n, w)
    else
      match cfg.imports[w.regs.cia]
      case SendCall => SendStores(m, n, w, e.message)
      case ReceiveCall => ReceiveStores(m, n, w)
      case SleepCall => SleepStores(m, n, w)
      case YieldCall => n == SwitchedMemory(m, w, false, 0, Option<Word>.None, 0)
      case CreateCall => NewThreadStores(cfg, m, n, w)
      case ResumeCall => ResumeStores(m, n, w)
      case InitQueueCall => InitStores(m, n, w)
      case OtherCall => GuestStores(m, n, w)
      case UnimplementedCall => false
  }

  lemma HandleEncoded(cfg: Config, m: Memory, n: Memory, w: World, e: Event)
    requires Encoded(m, w) && Scheduled(w) && Ready(w) && StepStores(cfg, m, n, w, e)
    requires w.regs.cia in cfg.imports && e.Dispatch?
    ensures var h := Handle(cfg, w, cfg.imports[w.regs.cia], e); h.Some? ==> Encoded(n, h.value)
  {
    hide Encoded, Scheduled, Ready, GuestStores, SendStores, ReceiveStores, SleepStores, SwitchedMemory,
         NewThreadStores, ResumeStores, InitStores, Send, Receive, Sleep, Yield, Create, ResumeThread, InitQueue;
    match cfg.imports[w.regs.cia]
    case SendCall => SendEncoded(m, n, w, e.message);
    case ReceiveCall => ReceiveEncoded(m, n, w);
    case SleepCall => SleepEncoded(m, n, w);
    case YieldCall => YieldEncoded(m, w);
    case CreateCall => NewThreadEncoded(cfg, m, n, w);
    case ResumeCall => ResumeThreadEncoded(m, n, w);
    case InitQueueCall => InitQueueEncoded(m, n, w);
    case OtherCall =>
      GuestEncoded(m, n, w);
      SameParts(n, w, w.(regs := e.other));
    case UnimplementedCall =>
  }

  lemma StepParts(cfg: Config, w: World, e: Event)
    requires Ready(w) && Step(cfg, w, e).Some?
    ensures var v := Step(cfg, w, e).value;
            if w.regs.cia in cfg.imports then
              && e.Dispatch? && Handle(cfg, w, cfg.imports[w.regs.cia], e).Some?
              && v.objects == Handle(cfg, w, cfg.imports[w.regs.cia], e).value.objects
              && v.queues == Handle(cfg, w, cfg.imports[w.regs.cia], e).value.queues
            else v.objects == w.objects && v.queues == w.queues
  {
    hide Handle;
  }

  lemma GuestStep(cfg: Config, m: Memory, n: Memory, w: World, e: Event)
    requires Encoded(m, w) && Scheduled(w) && Ready(w) && StepStores(cfg, m, n, w, e)
    requires w.regs.cia !in cfg.imports
    ensures Encoded(n, w)
  {
    hide Encoded, Scheduled, Ready, GuestStores;
    GuestEncoded(m, n, w);
  }

  /** After the stores of a step, memory encodes the next state of the scheduler. */
  lemma StepEncoded(cfg: Config, m: Memory, n: Memory, w: World, e: Event)
    requires Encoded(m, w) && Scheduled(w) && Ready(w) && StepStores(cfg, m, n, w, e)
    ensures Step(cfg, w, e).Some? ==> Encoded(n, Step(cfg, w, e).value)
  {
    hide *;
    if Step(cfg, w, e).Some? {
      StepParts(cfg, w, e);
      if w.regs.cia in cfg.imports {
        HandleEncoded(cfg, m, n, w, e);
        SameParts(n, Handle(cfg, w, cfg.imports[w.regs.cia], e).value, Step(cfg, w, e).value);
      } else {
        GuestStep(cfg, m, n, w, e);
        SameParts(n, w, Step(cfg, w, e).value);
      }
    }
  }

  /** A run of the machine together with guest memory. */
  ghost predicate IsMemoryRun(cfg: Config, ms: seq<Memory>, ws: seq<World>, es: seq<Event>) {
    && IsRun(cfg, ws, es) && |ms| == |ws| && Encoded(ms[0], ws[0])
    && forall i :: 0 <= i < |es| ==>
         (Encoded(ms[i], ws[i]) && Scheduled(ws[i]) && Ready(ws[i]) ==> StepStores(cfg, ms[i], ms[i + 1], ws[i], es[i]))
  }

  /** Over any run guest memory holds the scheduler's threads, contexts and queues. */
  lemma {:induction false} RunEncoded(cfg: Config, ms: seq<Memory>, ws: seq<World>, es: seq<Event>, n: nat)
    requires IsMemoryRun(cfg, ms, ws, es) && n <= |es|
    ensures Encoded(ms[n], ws[n])
  {
    hide Encoded, Scheduled, Ready, Step, StepStores;
    if n > 0 {
      RunEncoded(cfg, ms, ws, es, n - 1);
      RunKeepsScheduled(cfg, ws, es, n - 1);
      StepEncoded(cfg, ms[n - 1], ms[n], ws[n - 1], es[n - 1]);
    }
  }

  /**
   * Context isolation in guest memory: the OSContext of a thread that lost control keeps all its registers
   * through any number of steps of other threads.
   */
  lemma ContextStaysInMemory(cfg: Config, ms: seq<Memory>, ws: seq<World>, es: seq<Event>, a: Word, n: nat)
    requires IsMemoryRun(cfg, ms, ws, es) && 1 <= n <= |es|
    requires ws[0].current == a && forall k :: 1 <= k <= n ==> ws[k].current != a
    ensures WellFormed(ms[1]) && WellFormed(ms[n])
    ensures MappedRange(ms[1], a, THREAD_SIZE) && MappedRange(ms[n], a, THREAD_SIZE)
    ensures ThreadAt(ms[n], a).context == ThreadAt(ms[1], a).context
  {
    assert IsRun(cfg, ws, es) && |ms| == |ws| == |es| + 1;
    hide *;
    RunEncoded(cfg, ms, ws, es, 1);
    RunEncoded(cfg, ms, ws, es, n);
    ContextSurvives(cfg, ws, es, a, n);
    EncodedThread(ms[1], ws[1], a);
    EncodedThread(ms[n], ws[n], a);
  }

  /** A thread that has control again runs on with what its OSContext in guest memory holds. */
  lemma RegainsFromMemory(cfg: Config, ms: seq<Memory>, ws: seq<World>, es: seq<Event>)
    requires IsMemoryRun(cfg, ms, ws, es) && |es| >= 2
    requires ws[|es|].current == ws[0].current
    requires forall k :: 1 <= k < |es| ==> ws[k].current != ws[0].current
    ensures WellFormed(ms[1]) && MappedRange(ms[1], ws[0].current, THREAD_SIZE)
    ensures ws[|es|].regs == ThreadAt(ms[1], ws[0].current).context
  {
    assert IsRun(cfg, ws, es) && |ms| == |ws| == |es| + 1;
    hide *;
    RegainsRegisters(cfg, ws, es);
    RunEncoded(cfg, ms, ws, es, 1);
    LostContext(cfg, ws, es);
    EncodedThread(ms[1], ws[1], ws[0].current);
  }

  lemma LostContext(cfg: Config, ws: seq<World>, es: seq<Event>)
    requires IsRun(cfg, ws, es) && |es| >= 2 && ws[1].current != ws[0].current && ws[0].regs.cia in cfg.imports
    ensures ws[0].current in ws[1].objects
    ensures ws[1].objects[ws[0].current].context == ws[0].regs.(cia :=
              if cfg.imports[ws[0].regs.cia].ReceiveCall? then ws[0].regs.cia else ws[0].regs.lr)
  {
    RunKeepsScheduled(cfg, ws, es, 1);
    hide Scheduled, Step, Ready;
  }

  /** With one thread and no queue, holding its object is all it takes: where runs begin. */
  lemma OneThreadEncoded(m: Memory, w: World, a: Word)
    requires WellFormed(m) && w.objects.Keys == {a} && w.queues == map[] && ThreadHeld(m, a, w.objects[a])
    ensures Encoded(m, w)
  {
    hide WellFormed, ThreadHeld, Sep;
  }

  /**
   * No lost wake-up, down to guest memory: while a thread sleeps on a queue, the ring holds at most as many
   * messages as there are threads woken for it that have not retried; with none of those it is empty.
   */
  lemma NoLostWakeUpInMemory(cfg: Config, ms: seq<Memory>, ts: seq<WakeUps.Traced>, ws: seq<World>, es: seq<Event>,
                             n: nat, i: nat)
    requires IsMemoryRun(cfg, ms, ws, es) && WakeUps.IsTracedRun(cfg, ts, es) && n <= |es|
    requires |ws| == |ts| && forall k :: 0 <= k < |ts| ==> ws[k] == ts[k].world
    requires i < |ws[n].threads| && WakeUps.Queued(ws[n].threads[i])
    ensures var q := ws[n].threads[i].queue;
            && MessageRing.RingOk(ms[n], q)
            && |MessageRing.Contents(ms[n], q)| <= |WakeUps.Owing(ts[n].woken, q)|
            && (WakeUps.Owing(ts[n].woken, q) == {} ==> MessageRing.Contents(ms[n], q) == [])
  {
    RunEncoded(cfg, ms, ws, es, n);
    WakeUps.NoLostWakeUp(cfg, ts, es, n, i);
    hide *;
    var q := ws[n].threads[i].queue;
    EncodedQueue(ms[n], ws[n], q);
    QueueParts(ms[n], q, ws[n].queues[q]);
  }
}
