/** The decisions of the thread scheduler, as functions of records, OSThread objects and clock. */
module GuestThreads {
  import opened Bits

  const TICKS_MAX: nat := 0xFFFF_FFFF_FFFF_FFFF
  const READY: Byte := 1
  const RUNNING: Byte := 2
  const WAITING: Byte := 4
  const PRIORITY_BASE: nat := 64

  type Message = seq<Byte>

  /** The registers an OSContext keeps. */
  datatype Registers = Registers(
    gpr: seq<Word>, fpr: seq<DoubleWord>, ps1: seq<DoubleWord>, gqr: seq<Word>,
    cr: Word, lr: Word, ctr: Word, xer: Word, fpscr: Word, cia: Word)

  ghost predicate ValidRegisters(r: Registers) {
    |r.gpr| == 32 && |r.fpr| == 32 && |r.ps1| == 32 && |r.gqr| == 8
  }

  /** The scheduler's record of a thread. */
  datatype Runtime = Runtime(address: Word, wakeTick: nat, sleeping: bool, queue: Word)

  /** The part of an OSThread object in guest memory that the scheduler reads or writes. */
  datatype OsThread = OsThread(state: Byte, affinity: Byte, suspend: Word, priority: Word, context: Registers)

  /** A message queue as the bounded deque that its ring refines. */
  datatype MessageQueue = MessageQueue(capacity: nat, messages: seq<Message>)

  datatype World = World(
    regs: Registers, current: Word, ticks: nat, sleepOffset: nat,
    threads: seq<Runtime>, objects: map<Word, OsThread>, queues: map<Word, MessageQueue>)

  datatype Option<T> = None | Some(value: T)

  ghost predicate Known(threads: seq<Runtime>, objects: map<Word, OsThread>) {
    forall i :: 0 <= i < |threads| ==> threads[i].address in objects
  }

  ghost predicate Unique(threads: seq<Runtime>) {
    forall i, j :: 0 <= i < j < |threads| ==> threads[i].address != threads[j].address
  }

  predicate WaitsFor(r: Runtime, queue: Word) { r.sleeping && r.queue == queue }

  /** Among the first n records, the waiter a send wakes, or -1: lowest priority number, leftmost. */
  ghost function BestWaiter(threads: seq<Runtime>, objects: map<Word, OsThread>, queue: Word, n: nat): (k: int)
    requires Known(threads, objects) && n <= |threads|
    ensures -1 <= k < n
  {
    if n == 0 then -1
    else
      var k := BestWaiter(threads, objects, queue, n - 1);
      if WaitsFor(threads[n - 1], queue) &&
         (k < 0 || objects[threads[n - 1].address].priority < objects[threads[k].address].priority)
      then n - 1 else k
  }

  ghost function WakeReceiver(w: World, queue: Word): World
    requires Known(w.threads, w.objects)
  {
    var k := BestWaiter(w.threads, w.objects, queue, |w.threads|);
    if k < 0 then w
    else
      var a := w.threads[k].address;
      w.(threads := w.threads[k := Runtime(a, 0, false, 0)],
         objects := w.objects[a := w.objects[a].(state := READY)])
  }

  predicate Due(r: Runtime, ticks: nat) { r.sleeping && r.queue == 0 && r.wakeTick <= ticks }

  ghost function WakeDueThreads(threads: seq<Runtime>, ticks: nat): (after: seq<Runtime>)
    ensures |after| == |threads|
    ensures forall i :: 0 <= i < |threads| ==>
              after[i] == if Due(threads[i], ticks) then Runtime(threads[i].address, 0, false, 0) else threads[i]
  {
    seq(|threads|, i requires 0 <= i < |threads| =>
          if Due(threads[i], ticks) then Runtime(threads[i].address, 0, false, 0) else threads[i])
  }

  /** Some of the first n records is due at this address. */
  ghost predicate DueAt(threads: seq<Runtime>, ticks: nat, a: Word, n: nat)
    requires n <= |threads|
  {
    exists i :: 0 <= i < n && threads[i].address == a && Due(threads[i], ticks)
  }

  ghost function WakeDueObjects(threads: seq<Runtime>, objects: map<Word, OsThread>, ticks: nat, n: nat)
    : map<Word, OsThread>
    requires n <= |threads|
  {
    map a | a in objects ::
      if DueAt(threads, ticks, a, n) then objects[a].(state := READY) else objects[a]
  }

  ghost function WakeDue(w: World): World {
    w.(threads := WakeDueThreads(w.threads, w.ticks),
       objects := WakeDueObjects(w.threads, w.objects, w.ticks, |w.threads|))
  }

  /** READY bit set, not suspended, and allowed on the emulated core. */
  predicate Runnable(r: Runtime, t: OsThread, current: Word) {
    r.address != current && !r.sleeping && t.state % 2 == 1 && t.suspend == 0 &&
    (t.affinity == 0 || (t.affinity / 2) % 2 == 1)
  }

  /** Among the first n records, the runnable thread with the lowest priority number, leftmost, or -1. */
  ghost function BestReady(threads: seq<Runtime>, objects: map<Word, OsThread>, current: Word, n: nat): (k: int)
    requires Known(threads, objects) && n <= |threads|
    ensures -1 <= k < n
  {
    if n == 0 then -1
    else
      var k := BestReady(threads, objects, current, n - 1);
      var bound := if k < 0 then WORD_MAX else objects[threads[k].address].priority;
      if Runnable(threads[n - 1], objects[threads[n - 1].address], current) &&
         objects[threads[n - 1].address].priority < bound
      then n - 1 else k
  }

  /** `select_ready_thread`; zero for none. A yield is refused in favour of the current thread. */
  ghost function Select(w: World, block: bool, currentPriority: Word): Word
    requires Known(w.threads, w.objects)
  {
    var k := BestReady(w.threads, w.objects, w.current, |w.threads|);
    if k < 0 then 0
    else if !block && w.objects[w.threads[k].address].priority > currentPriority then 0
    else w.threads[k].address
  }

  /** The earliest timed deadline among the first n records. */
  ghost function NextWake(threads: seq<Runtime>, n: nat): nat
    requires n <= |threads|
  {
    if n == 0 then TICKS_MAX
    else
      var best := NextWake(threads, n - 1);
      if threads[n - 1].sleeping && threads[n - 1].queue == 0
      then Min(best, threads[n - 1].wakeTick) else best
  }

  /** Index of the record of an address, or the number of records. */
  function FindThread(threads: seq<Runtime>, a: Word, from: nat := 0): (i: nat)
    requires from <= |threads|
    ensures from <= i <= |threads|
    ensures i < |threads| ==> threads[i].address == a
    ensures forall j :: from <= j < i ==> threads[j].address != a
    decreases |threads| - from
  {
    if from == |threads| || threads[from].address == a then from else FindThread(threads, a, from + 1)
  }

  function Deadline(ticks: nat, sleep: nat, queue: Word): nat {
    if queue != 0 then TICKS_MAX
    else if sleep > TICKS_MAX - ticks then TICKS_MAX else ticks + sleep
  }

  /** The current thread is marked before anyone is chosen. */
  ghost function MarkCurrent(w: World, block: bool, sleep: nat, queue: Word): World
    requires w.current in w.objects && FindThread(w.threads, w.current) < |w.threads|
  {
    var i := FindThread(w.threads, w.current);
    w.(threads := w.threads[i := if block then Runtime(w.current, Deadline(w.ticks, sleep, queue), true, queue)
                                 else Runtime(w.current, 0, false, 0)],
       objects := w.objects[w.current := w.objects[w.current].(state := if block then WAITING else READY)])
  }

  /** The second attempt of a blocking switch: move the clock to the earliest deadline and wake again. */
  ghost function AdvanceClock(w: World): World {
    var next := NextWake(w.threads, |w.threads|);
    if next == TICKS_MAX then w else WakeDue(w.(ticks := Max(w.ticks, next)))
  }

  /** Nobody to run: the current thread carries on. */
  ghost function Resume(w: World): World
    requires w.current in w.objects && FindThread(w.threads, w.current) < |w.threads|
  {
    var i := FindThread(w.threads, w.current);
    w.(threads := w.threads[i := Runtime(w.current, 0, false, 0)],
       objects := w.objects[w.current := w.objects[w.current].(state := RUNNING)])
  }

  /** Save the outgoing context, load the incoming one. */
  ghost function Exchange(w: World, next: Word, resumeCia: Word): World
    requires w.current in w.objects && next in w.objects
  {
    var saved := w.objects[w.current := w.objects[w.current].(context := w.regs.(cia := resumeCia))];
    var objects := saved[next := saved[next].(state := RUNNING)];
    w.(objects := objects, regs := objects[next].context, current := next)
  }

  ghost predicate Attached(w: World) {
    && Known(w.threads, w.objects) && w.current != 0
    && FindThread(w.threads, w.current) < |w.threads|
  }

  /** Waking moves no record, and the chosen thread is one of them. */
  lemma WakeDueKeeps(w: World)
    requires Known(w.threads, w.objects)
    ensures Known(WakeDue(w).threads, WakeDue(w).objects) && WakeDue(w).objects.Keys == w.objects.Keys
    ensures |WakeDue(w).threads| == |w.threads|
    ensures forall i :: 0 <= i < |w.threads| ==> WakeDue(w).threads[i].address == w.threads[i].address
    ensures FindThread(WakeDue(w).threads, w.current) == FindThread(w.threads, w.current)
  {
    hide WakeDueThreads, DueAt;
    forall i | 0 <= i < |w.threads| ensures w.threads[i].address in WakeDue(w).objects {
      assert w.threads[i].address in w.objects;
    }
  }

  lemma SelectIsThread(w: World, block: bool, priority: Word)
    requires Known(w.threads, w.objects)
    ensures Select(w, block, priority) != 0 ==> Select(w, block, priority) in w.objects
  {
    hide BestReady;
  }

  /** The state in which a switch has marked and woken everyone it will, and the thread it picks. */
  ghost function Prepare(w: World, block: bool, sleep: nat, queue: Word): (r: (World, Word))
    requires Attached(w)
    ensures Attached(r.0) && r.0.current == w.current
    ensures r.1 != 0 ==> r.1 in r.0.objects
  {
    var priority := w.objects[w.current].priority;
    MarkCurrentAttached(w, block, sleep, queue);
    WakeDueKeeps(MarkCurrent(w, block, sleep, queue));
    hide MarkCurrent, Select, WakeDueThreads, WakeDueObjects, NextWake, Known;
    var marked := WakeDue(MarkCurrent(w, block, sleep, queue));
    SelectIsThread(marked, block, priority);
    var first := Select(marked, block, priority);
    if first == 0 && block then
      AdvanceAttached(marked);
      var later := AdvanceClock(marked);
      SelectIsThread(later, block, priority);
      (later, Select(later, block, priority))
    else (marked, first)
  }

  lemma MarkCurrentAttached(w: World, block: bool, sleep: nat, queue: Word)
    requires Attached(w)
    ensures Attached(MarkCurrent(w, block, sleep, queue))
  {
    var m := MarkCurrent(w, block, sleep, queue);
    assert m.threads[FindThread(w.threads, w.current)].address == m.current;
  }

  lemma AdvanceAttached(w: World)
    requires Attached(w)
    ensures Attached(AdvanceClock(w)) && AdvanceClock(w).current == w.current
  {
    hide WakeDueThreads, WakeDueObjects, NextWake;
    WakeDueKeeps(w.(ticks := Max(w.ticks, NextWake(w.threads, |w.threads|))));
  }

  /** `switch_guest_thread`. */
  ghost function Switch(w: World, block: bool, sleep: nat, resumeCia: Option<Word>, queue: Word): (World, bool)
    requires Known(w.threads, w.objects)
  {
    if !Attached(w) then (w, false)
    else
      var (ready, next) := Prepare(w, block, sleep, queue);
      if next == 0 then (Resume(ready), false)
      else (Exchange(ready, next, if resumeCia.Some? then resumeCia.value else w.regs.lr), true)
  }
}
