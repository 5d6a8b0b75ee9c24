/** No lost wake-up: sends, sleepers and the retries that woken threads still owe. */
module WakeUps {
  import opened Bits
  import opened GuestThreads
  import opened ThreadInvariants
  import opened ThreadClock
  import opened ThreadCalls
  import opened ThreadRuns

  /** A run's state with its history: the threads woken for a queue that have not received since. */
  datatype Traced = Traced(world: World, woken: map<Word, Word>)

  /** About to dispatch a blocking receive on the queue. */
  ghost predicate AtReceive(cfg: Config, r: Registers, queue: Word) {
    && |r.gpr| == 32 && r.cia in cfg.imports && cfg.imports[r.cia].ReceiveCall?
    && queue != 0 && r.gpr[3] == queue && r.gpr[4] != 0 && r.gpr[5] % 2 == 1
  }

  /** The registers a thread runs with, or will run with. */
  ghost function RegistersOf(w: World, a: Word): Registers
    requires a in w.objects
  {
    if a == w.current then w.regs else w.objects[a].context
  }

  ghost predicate Sends(cfg: Config, w: World) {
    w.regs.cia in cfg.imports && cfg.imports[w.regs.cia].SendCall?
  }

  /** The thread that the send at CIA wakes. */
  ghost function Target(w: World): Option<Word>
    requires Ready(w)
  {
    var queue := w.regs.gpr[3];
    if queue !in w.queues || |w.queues[queue].messages| >= w.queues[queue].capacity then None
    else
      var k := BestWaiter(w.threads, w.objects, queue, |w.threads|);
      if k < 0 then None else Some(w.threads[k].address)
  }

  ghost function StepTraced(cfg: Config, t: Traced, e: Event): Option<Traced>
    requires Ready(t.world)
  {
    var w := t.world;
    var v := Step(cfg, w, e);
    if v.None? then None
    else if Sends(cfg, w) then
      var a := Target(w);
      Some(Traced(v.value, if a.Some? then t.woken[a.value := w.regs.gpr[3]] else t.woken))
    else Some(Traced(v.value, if NotReceiving(cfg, w) then t.woken else t.woken - {w.current}))
  }

  /** The threads woken for a queue that still owe it a receive. */
  ghost function Owing(woken: map<Word, Word>, queue: Word): set<Word> {
    set a | a in woken && woken[a] == queue
  }

  ghost predicate SleeperServed(cfg: Config, t: Traced, r: Runtime) {
    && r.address in t.world.objects && AtReceive(cfg, t.world.objects[r.address].context, r.queue)
    && r.queue in t.world.queues && |t.world.queues[r.queue].messages| <= |Owing(t.woken, r.queue)|
  }

  ghost predicate Sleepers(cfg: Config, t: Traced) {
    forall i :: 0 <= i < |t.world.threads| && t.world.threads[i].sleeping && t.world.threads[i].queue != 0 ==>
      SleeperServed(cfg, t, t.world.threads[i])
  }

  ghost predicate Awake(threads: seq<Runtime>, woken: map<Word, Word>) {
    forall i :: 0 <= i < |threads| && threads[i].address in woken ==> !threads[i].sleeping
  }

  ghost predicate Retrying(cfg: Config, t: Traced) {
    forall a :: a in t.woken ==> a in t.world.objects && AtReceive(cfg, RegistersOf(t.world, a), t.woken[a])
  }

  ghost predicate WithinCapacity(w: World) {
    forall q :: q in w.queues ==> |w.queues[q].messages| <= w.queues[q].capacity
  }

  /** The queue invariant of every reachable state. */
  ghost predicate Served(cfg: Config, t: Traced) {
    Scheduled(t.world) && Sleepers(cfg, t) && Awake(t.world.threads, t.woken) && Retrying(cfg, t) &&
    WithinCapacity(t.world)
  }

  lemma OwingWithout(woken: map<Word, Word>, a: Word, queue: Word)
    ensures |Owing(woken, queue)| ==
            |Owing(woken - {a}, queue)| + (if a in woken && woken[a] == queue then 1 else 0)
  {
    if a in woken && woken[a] == queue {
      assert Owing(woken, queue) == Owing(woken - {a}, queue) + {a};
    } else {
      assert Owing(woken, queue) == Owing(woken - {a}, queue);
    }
  }

  lemma OwingWith(woken: map<Word, Word>, a: Word, queue: Word, q: Word)
    requires a !in woken
    ensures |Owing(woken[a := queue], q)| == |Owing(woken, q)| + (if q == queue then 1 else 0)
  {
    assert woken[a := queue] - {a} == woken;
    OwingWithout(woken[a := queue], a, q);
  }

  // What the calls other than a waking send do to records, queues and contexts

  /** Records of other threads only lose expired sleeps; new records are awake. */
  ghost predicate RecordsMoved(w: World, v: World) {
    && |v.threads| >= |w.threads| && v.ticks >= w.ticks
    && (forall i :: |w.threads| <= i < |v.threads| ==> !v.threads[i].sleeping && v.threads[i].address !in w.objects)
    && (forall i :: 0 <= i < |w.threads| ==> v.threads[i].address == w.threads[i].address)
    && (forall i :: 0 <= i < |w.threads| && w.threads[i].address != w.current ==>
          Slept(w.threads[i], v.threads[i], v.ticks))
  }

  ghost predicate WaitsAtReceive(cfg: Config, v: World, a: Word, queue: Word) {
    && a in v.objects && AtReceive(cfg, v.objects[a].context, queue)
    && queue in v.queues && v.queues[queue].messages == []
  }

  /** If the current thread went to sleep on a queue, it will retry there and the queue was empty. */
  ghost predicate BlockedProperly(cfg: Config, w: World, v: World) {
    forall i :: 0 <= i < |v.threads| && v.threads[i].address == w.current && Queued(v.threads[i]) ==>
      WaitsAtReceive(cfg, v, w.current, v.threads[i].queue)
  }

  ghost predicate Queued(r: Runtime) { r.sleeping && r.queue != 0 }

  /** The queue lost a message if the caller was retrying there, gained none, or is empty. */
  ghost predicate Shrunk(w: World, v: World, woken: map<Word, Word>, q: Word) {
    && q in w.queues && q in v.queues
    && (v.queues[q].messages == [] ||
        |v.queues[q].messages| + (if w.current in woken && woken[w.current] == q then 1 else 0)
        <= |w.queues[q].messages|)
  }

  /** Queues with sleepers only shrink. */
  ghost predicate QueuesShrunk(w: World, v: World, woken: map<Word, Word>) {
    && WithinCapacity(v)
    && forall i :: 0 <= i < |w.threads| && Queued(w.threads[i]) && w.threads[i].queue in w.queues ==>
         Shrunk(w, v, woken, w.threads[i].queue)
  }

  ghost predicate ContextsKept(w: World, v: World) {
    && w.objects.Keys <= v.objects.Keys
    && (forall a :: a in w.objects && a != w.current ==> v.objects[a].context == w.objects[a].context)
    && (v.current != w.current ==> v.current in w.objects && v.regs == w.objects[v.current].context)
  }

  lemma SleepersKept(cfg: Config, t: Traced, v: World)
    requires Served(cfg, t) && RecordsMoved(t.world, v) && BlockedProperly(cfg, t.world, v)
    requires QueuesShrunk(t.world, v, t.woken) && ContextsKept(t.world, v)
    ensures Sleepers(cfg, Traced(v, t.woken - {t.world.current}))
  {
    var w, woken := t.world, t.woken - {t.world.current};
    hide Scheduled, AtReceive, Owing, Awake, Retrying, WithinCapacity;
    forall i | 0 <= i < |v.threads| && v.threads[i].sleeping && v.threads[i].queue != 0
      ensures SleeperServed(cfg, Traced(v, woken), v.threads[i])
    {
      var r := v.threads[i];
      if r.address != w.current {
        assert Slept(w.threads[i], r, v.ticks) && w.threads[i] == r;
        assert SleeperServed(cfg, t, w.threads[i]);
        OwingWithout(t.woken, w.current, r.queue);
      }
    }
  }

  lemma AwakeKept(t: Traced, v: World)
    requires Records(t.world) && Awake(t.world.threads, t.woken) && RecordsMoved(t.world, v)
    requires forall a :: a in t.woken ==> a in t.world.objects
    ensures Awake(v.threads, t.woken - {t.world.current})
  {
    var w, woken := t.world, t.woken - {t.world.current};
    hide Records;
    forall i | 0 <= i < |v.threads| && v.threads[i].address in woken ensures !v.threads[i].sleeping {
      if i < |w.threads| { assert Slept(w.threads[i], v.threads[i], v.ticks); }
    }
  }

  lemma RetryingKept(cfg: Config, t: Traced, v: World)
    requires Retrying(cfg, t) && ContextsKept(t.world, v)
    ensures Retrying(cfg, Traced(v, t.woken - {t.world.current}))
  {
    var w, woken := t.world, t.woken - {t.world.current};
    hide AtReceive;
    forall a | a in woken ensures a in v.objects && AtReceive(cfg, RegistersOf(v, a), woken[a]) {
      assert AtReceive(cfg, RegistersOf(w, a), t.woken[a]);
    }
  }

  /** Any step but a waking send: the caller no longer owes a receive, and the invariant is kept. */
  lemma ServedKept(cfg: Config, t: Traced, v: World)
    requires Served(cfg, t) && RecordsMoved(t.world, v) && BlockedProperly(cfg, t.world, v) && Scheduled(v)
    requires QueuesShrunk(t.world, v, t.woken) && ContextsKept(t.world, v)
    ensures Served(cfg, Traced(v, t.woken - {t.world.current}))
  {
    SleepersKept(cfg, t, v);
    RetryingKept(cfg, t, v);
    assert forall a :: a in t.woken ==> a in t.world.objects;
    hide Records, Deadlines, Sleepers, BlockedProperly, Awake, ContextsKept, RecordsMoved, Retrying, WithinCapacity;
    AwakeKept(t, v);
  }

  // A send

  /** A sleeping thread is not the current one. */
  lemma SleeperIsNotCurrent(w: World, i: nat)
    requires Scheduled(w) && i < |w.threads| && w.threads[i].sleeping
    ensures w.threads[i].address != w.current && w.threads[i].address in w.objects
  {
    RecordAgrees(w, i);
  }

  /**
   * A send wakes exactly one of the queue's sleepers if there is one: the lowest priority number,
   * leftmost among equals. Nobody else is touched.
   */
  lemma SendWakesOne(w: World, m: Message)
    requires Scheduled(w)
    ensures Ready(w)
    ensures Send(w, m).Some? ==>
      var (v, queue) := (Send(w, m).value, w.regs.gpr[3]);
      && queue in w.queues && queue != 0 && |v.threads| == |w.threads| && v.current == w.current
      && v.ticks == w.ticks
      && (Target(w).None? ==> v.threads == w.threads)
      && (Target(w).None? ==> v.queues == w.queues || NoSleeper(w, queue))
      && (Target(w).Some? ==> exists k: nat :: Chosen(w, queue, k) && Woke(w, v, k) &&
                                               Target(w) == Option<Word>.Some(w.threads[k].address))
  {
    ScheduledReady(w);
    if Send(w, m).Some? {
      hide Scheduled, Pushed, Ready, NoLater;
      var queue := w.regs.gpr[3];
      BestWaiterMeans(w.threads, w.objects, queue, |w.threads|);
      hide BestWaiter;
      if Target(w).Some? {
        var k: nat := BestWaiter(w.threads, w.objects, queue, |w.threads|);
        assert Chosen(w, queue, k) && Woke(w, Send(w, m).value, k);
      }
    }
  }

  /** Only record k changed: it is awake. */
  ghost predicate Woke(w: World, v: World, k: nat) {
    k < |w.threads| && v.threads == w.threads[k := Runtime(w.threads[k].address, 0, false, 0)]
  }

  ghost predicate NoSleeper(w: World, queue: Word) {
    forall i :: 0 <= i < |w.threads| ==> !WaitsFor(w.threads[i], queue)
  }

  /** Record k is the queue's sleeper with the lowest priority number, leftmost among equals. */
  ghost predicate Chosen(w: World, queue: Word, k: nat) {
    && Known(w.threads, w.objects) && k < |w.threads| && WaitsFor(w.threads[k], queue)
    && forall i :: 0 <= i < |w.threads| && WaitsFor(w.threads[i], queue) ==> NoLater(w.threads, w.objects, k, i)
  }

  /** A send adds one message to its queue, at the front or the back, or is refused. */
  lemma SendPushes(w: World, m: Message)
    requires Scheduled(w)
    ensures Ready(w)
    ensures Send(w, m).Some? ==>
      var (v, queue) := (Send(w, m).value, w.regs.gpr[3]);
      && queue in w.queues
      && (v.queues == w.queues || (v.queues == w.queues[queue := Pushed(w.queues[queue], m, w.regs.gpr[5])] &&
                                   |w.queues[queue].messages| < w.queues[queue].capacity))
      && (Target(w).Some? ==> |w.queues[queue].messages| < w.queues[queue].capacity)
  {
    ScheduledReady(w);
    hide Scheduled, BestWaiter, Ready;
  }

  ghost predicate SameThreadContexts(w: World, v: World) {
    v.current == w.current && v.objects.Keys == w.objects.Keys &&
    forall a :: a in w.objects ==> v.objects[a].context == w.objects[a].context
  }

  /** A send at `queue` that wakes record k. */
  ghost predicate WakingSend(w: World, v: World, k: nat, queue: Word) {
    && Scheduled(v) && SameThreadContexts(w, v)
    && k < |w.threads| && WaitsFor(w.threads[k], queue) && queue != 0 && queue in w.queues
    && v.threads == w.threads[k := Runtime(w.threads[k].address, 0, false, 0)]
    && v.queues.Keys == w.queues.Keys && WithinCapacity(v)
    && forall q :: q in v.queues ==>
         |v.queues[q].messages| <= |w.queues[q].messages| + (if q == queue then 1 else 0)
  }

  lemma WokenSleepers(cfg: Config, t: Traced, v: World, k: nat, queue: Word)
    requires Sleepers(cfg, t) && WakingSend(t.world, v, k, queue) && t.world.threads[k].address !in t.woken
    ensures Sleepers(cfg, Traced(v, t.woken[t.world.threads[k].address := queue]))
  {
    var w, a := t.world, t.world.threads[k].address;
    hide Scheduled, AtReceive, Owing, WithinCapacity;
    forall i | 0 <= i < |v.threads| && v.threads[i].sleeping && v.threads[i].queue != 0
      ensures SleeperServed(cfg, Traced(v, t.woken[a := queue]), v.threads[i])
    {
      assert SleeperServed(cfg, t, w.threads[i]);
      OwingWith(t.woken, a, queue, v.threads[i].queue);
    }
  }

  lemma WokenRetrying(cfg: Config, t: Traced, v: World, k: nat, queue: Word)
    requires Retrying(cfg, t) && WakingSend(t.world, v, k, queue) && t.world.current !in t.woken
    requires SleeperServed(cfg, t, t.world.threads[k]) && t.world.threads[k].address != t.world.current
    ensures Retrying(cfg, Traced(v, t.woken[t.world.threads[k].address := queue]))
  {
    var w, a := t.world, t.world.threads[k].address;
    hide Scheduled, AtReceive, Owing, WithinCapacity;
    forall b | b in t.woken ensures b in v.objects && AtReceive(cfg, RegistersOf(v, b), t.woken[b]) {
      assert AtReceive(cfg, RegistersOf(w, b), t.woken[b]);
    }
  }

  /** A waking send: one more message, and one more thread that owes a receive. */
  lemma WakingSendServed(cfg: Config, t: Traced, v: World, k: nat, queue: Word)
    requires Served(cfg, t) && WakingSend(t.world, v, k, queue) && t.world.current !in t.woken
    ensures Served(cfg, Traced(v, t.woken[t.world.threads[k].address := queue]))
  {
    hide *;
    ServedParts(cfg, t);
    WakingParts(t.world, v, k, queue);
    ServedSleeper(cfg, t, k);
    SleeperIsNotCurrent(t.world, k);
    WokenSleepers(cfg, t, v, k, queue);
    WokenRetrying(cfg, t, v, k, queue);
    WokenAwake(t, v, k, queue);
    ServedIs(cfg, Traced(v, t.woken[t.world.threads[k].address := queue]));
  }

  lemma ServedParts(cfg: Config, t: Traced)
    requires Served(cfg, t)
    ensures Scheduled(t.world) && Sleepers(cfg, t) && Awake(t.world.threads, t.woken) && Retrying(cfg, t)
    ensures WithinCapacity(t.world)
  {
    hide Scheduled, Sleepers, Awake, Retrying, WithinCapacity;
  }

  lemma ServedIs(cfg: Config, t: Traced)
    requires Scheduled(t.world) && Sleepers(cfg, t) && Awake(t.world.threads, t.woken) && Retrying(cfg, t)
    requires WithinCapacity(t.world)
    ensures Served(cfg, t)
  {
    hide Scheduled, Sleepers, Awake, Retrying, WithinCapacity;
  }

  lemma WakingParts(w: World, v: World, k: nat, queue: Word)
    requires WakingSend(w, v, k, queue)
    ensures Scheduled(v) && WithinCapacity(v) && k < |w.threads| && queue != 0
    ensures w.threads[k].sleeping && w.threads[k].queue == queue
  {
    hide Scheduled, WithinCapacity, SameThreadContexts;
  }

  lemma ServedSleeper(cfg: Config, t: Traced, k: nat)
    requires Sleepers(cfg, t) && Awake(t.world.threads, t.woken) && k < |t.world.threads|
    requires t.world.threads[k].sleeping && t.world.threads[k].queue != 0
    ensures SleeperServed(cfg, t, t.world.threads[k]) && t.world.threads[k].address !in t.woken
  {
    hide SleeperServed;
  }

  lemma WokenAwake(t: Traced, v: World, k: nat, queue: Word)
    requires Scheduled(t.world) && Awake(t.world.threads, t.woken) && WakingSend(t.world, v, k, queue)
    ensures Awake(v.threads, t.woken[t.world.threads[k].address := queue])
  {
    assert Unique(t.world.threads);
    hide Scheduled, WithinCapacity, SameThreadContexts;
  }

  // The steps

  /** A thread that owes a receive takes no other step. */
  lemma OwesReceive(cfg: Config, t: Traced)
    requires Served(cfg, t) && NotReceiving(cfg, t.world)
    ensures t.world.current !in t.woken && t.woken - {t.world.current} == t.woken
  {
    hide Scheduled, Sleepers, Awake, WithinCapacity;
  }

  /** What a step other than a waking send does to records and queues. */
  ghost predicate Gentle(cfg: Config, w: World, v: World, woken: map<Word, Word>) {
    RecordsMoved(w, v) && BlockedProperly(cfg, w, v) && QueuesShrunk(w, v, woken)
  }

  /** Same records: gentle as long as the queues are. */
  lemma QuietGentle(cfg: Config, w: World, v: World, woken: map<Word, Word>)
    requires Scheduled(w) && v.threads == w.threads && v.ticks == w.ticks && QueuesShrunk(w, v, woken)
    ensures Gentle(cfg, w, v, woken)
  {
    hide QueuesShrunk, Deadlines;
    forall i | 0 <= i < |v.threads| && v.threads[i].address == w.current ensures !v.threads[i].sleeping {
      RecordAgrees(w, i);
    }
  }

  lemma SameQueues(w: World, v: World, woken: map<Word, Word>)
    requires w.current !in woken && v.queues == w.queues && WithinCapacity(w)
    ensures QueuesShrunk(w, v, woken)
  {
  }

  /** Changing the registers of the state reached makes no difference. */
  lemma RegistersGentle(cfg: Config, w: World, v: World, woken: map<Word, Word>, r: Registers)
    requires Gentle(cfg, w, v, woken)
    ensures Gentle(cfg, w, v.(regs := r), woken)
  {
    hide Slept, AtReceive;
    assert RecordsMoved(w, v.(regs := r));
  }

  lemma SwitchRecords(w: World, block: bool, sleep: nat, resumeCia: Option<Word>, queue: Word)
    requires Scheduled(w)
    ensures Known(w.threads, w.objects) && RecordsMoved(w, Switch(w, block, sleep, resumeCia, queue).0)
  {
    SwitchRespectsDeadlines(w, block, sleep, resumeCia, queue);
    CurrentWaits(w, block, sleep, resumeCia, queue);
    var v := Switch(w, block, sleep, resumeCia, queue).0;
    assert Unique(w.threads);
    hide Scheduled, Switch, ClockMoved, Slept;
    forall i | 0 <= i < |w.threads| ensures v.threads[i].address == w.threads[i].address {
      if w.threads[i].address != w.current { SleptAddress(w.threads[i], v.threads[i], v.ticks); }
    }
  }

  lemma SwitchBlocks(cfg: Config, w: World, block: bool, sleep: nat, resumeCia: Option<Word>, queue: Word)
    requires Scheduled(w)
    requires block && queue != 0 ==>
               (resumeCia == Option<Word>.Some(w.regs.cia) && AtReceive(cfg, w.regs, queue) &&
                queue in w.queues && w.queues[queue].messages == [])
    ensures Known(w.threads, w.objects)
    ensures BlockedProperly(cfg, w, Switch(w, block, sleep, resumeCia, queue).0)
  {
    CurrentWaits(w, block, sleep, resumeCia, queue);
    SwitchMovesContexts(w, block, sleep, resumeCia, queue);
    SwitchKeepsScheduled(w, block, sleep, resumeCia, queue);
    assert w.regs.(cia := w.regs.cia) == w.regs;
    var v := Switch(w, block, sleep, resumeCia, queue).0;
    assert Unique(v.threads);
    hide Scheduled, Switch, AtReceive;
    forall i | 0 <= i < |v.threads| && v.threads[i].address == w.current && Queued(v.threads[i])
      ensures WaitsAtReceive(cfg, v, w.current, v.threads[i].queue)
    {
      assert i == FindThread(w.threads, w.current);
    }
  }

  lemma SwitchGentle(cfg: Config, w: World, u: World, woken: map<Word, Word>, block: bool, sleep: nat,
                     resumeCia: Option<Word>, queue: Word)
    requires Scheduled(u) && u.threads == w.threads && u.objects == w.objects && u.current == w.current
    requires u.ticks == w.ticks && QueuesShrunk(w, u, woken)
    requires block && queue != 0 ==>
               (resumeCia == Option<Word>.Some(u.regs.cia) && AtReceive(cfg, u.regs, queue) &&
                queue in u.queues && u.queues[queue].messages == [])
    ensures Known(u.threads, u.objects) && Gentle(cfg, w, Switch(u, block, sleep, resumeCia, queue).0, woken)
  {
    SwitchRecords(u, block, sleep, resumeCia, queue);
    SwitchBlocks(cfg, u, block, sleep, resumeCia, queue);
    SwitchMovesContexts(u, block, sleep, resumeCia, queue);
    hide Scheduled, Switch, RecordsMoved, BlockedProperly, QueuesShrunk, ContextsMoved, Gentle, Known, SameContexts;
    GentleFrom(cfg, w, u, Switch(u, block, sleep, resumeCia, queue).0, woken);
  }

  lemma GentleFrom(cfg: Config, w: World, u: World, v: World, woken: map<Word, Word>)
    requires u.threads == w.threads && u.objects == w.objects && u.current == w.current && u.ticks == w.ticks
    requires RecordsMoved(u, v) && BlockedProperly(cfg, u, v) && QueuesShrunk(w, u, woken) && v.queues == u.queues
    ensures Gentle(cfg, w, v, woken)
  {
    hide Slept, AtReceive, WaitsAtReceive;
  }

  lemma CreateGentle(cfg: Config, w: World, woken: map<Word, Word>)
    requires Scheduled(w) && w.current !in woken && WithinCapacity(w)
    ensures Ready(w)
    ensures Create(w, cfg).Some? ==> Gentle(cfg, w, Create(w, cfg).value, woken)
  {
    ScheduledReady(w);
    hide Deadlines, InitialContext, AtReceive;
    if Create(w, cfg).Some? {
      var v := Create(w, cfg).value;
      SameQueues(w, v, woken);
      forall i | 0 <= i < |v.threads| && v.threads[i].address == w.current ensures !v.threads[i].sleeping {
        if i < |w.threads| { RecordAgrees(w, i); }
      }
      hide Scheduled;
      assert RecordsMoved(w, v);
    }
  }

  /** A receive that returns or blocks. */
  lemma ReceiveGentle(cfg: Config, t: Traced)
    requires Served(cfg, t) && t.world.regs.cia in cfg.imports && cfg.imports[t.world.regs.cia].ReceiveCall?
    ensures Ready(t.world)
    ensures Receive(t.world).Some? ==> Gentle(cfg, t.world, Receive(t.world).value, t.woken)
  {
    var w := t.world;
    ScheduledReady(w);
    hide Records, Deadlines, Switch, Gentle, Sleepers, Awake;
    if Receive(w).Some? {
      var queue, v := w.regs.gpr[3], Receive(w).value;
      OwesHere(cfg, t);
      if w.queues[queue].messages == [] && Blocking(w.regs.gpr[5]) {
        SwitchGentle(cfg, w, w, t.woken, true, TICKS_MAX, Option<Word>.Some(w.regs.cia), queue);
      } else {
        QuietGentle(cfg, w, v, t.woken);
      }
    }
  }

  /** A retry happens at the queue the thread was woken for. */
  lemma OwesHere(cfg: Config, t: Traced)
    requires Retrying(cfg, t) && ValidRegisters(t.world.regs)
    ensures t.world.current in t.woken ==> t.woken[t.world.current] == t.world.regs.gpr[3]
  {
  }

  lemma SleepGentle(cfg: Config, w: World, woken: map<Word, Word>)
    requires Scheduled(w) && w.current !in woken && WithinCapacity(w)
    ensures Ready(w) && Sleep(w).Some? && Gentle(cfg, w, Sleep(w).value, woken)
  {
    ScheduledReady(w);
    var sleep := SleepLength(w.regs);
    var u := w.(sleepOffset := OffsetAfter(w.sleepOffset, sleep));
    RegistersOnly(w, u);
    SameQueues(w, u, woken);
    hide Scheduled, Switch, SleepLength, OffsetAfter, Gentle, QueuesShrunk;
    SwitchGentle(cfg, w, u, woken, sleep > 0, sleep, Option<Word>.None, 0);
  }

  lemma YieldGentle(cfg: Config, w: World, woken: map<Word, Word>)
    requires Scheduled(w) && w.current !in woken && WithinCapacity(w)
    ensures Ready(w) && Yield(w).Some? && Gentle(cfg, w, Yield(w).value, woken)
  {
    ScheduledReady(w);
    SameQueues(w, w, woken);
    hide Scheduled, Switch, Gentle, QueuesShrunk;
    SwitchGentle(cfg, w, w, woken, false, 0, Option<Word>.None, 0);
  }

  lemma InitQueueGentle(cfg: Config, w: World, woken: map<Word, Word>)
    requires Scheduled(w) && w.current !in woken && WithinCapacity(w)
    ensures Ready(w)
    ensures InitQueue(w).Some? ==> Gentle(cfg, w, InitQueue(w).value, woken)
  {
    ScheduledReady(w);
    hide Records, Deadlines, Gentle;
    if InitQueue(w).Some? { QuietGentle(cfg, w, InitQueue(w).value, woken); }
  }

  /** Calls that leave threads and queues alone. */
  lemma QuietCall(cfg: Config, w: World, v: World, woken: map<Word, Word>)
    requires Scheduled(w) && w.current !in woken && WithinCapacity(w)
    requires v.threads == w.threads && v.ticks == w.ticks && v.queues == w.queues
    ensures Gentle(cfg, w, v, woken)
  {
    hide Scheduled, Gentle, QueuesShrunk;
    SameQueues(w, v, woken);
    QuietGentle(cfg, w, v, woken);
  }

  lemma HandleGentle(cfg: Config, t: Traced, e: Event)
    requires Served(cfg, t) && t.world.regs.cia in cfg.imports && e.Dispatch? && !Sends(cfg, t.world)
    ensures Ready(t.world)
    ensures var h := Handle(cfg, t.world, cfg.imports[t.world.regs.cia], e);
            h.Some? ==> Gentle(cfg, t.world, h.value, t.woken)
  {
    var w := t.world;
    ScheduledReady(w);
    if NotReceiving(cfg, w) { OwesReceive(cfg, t); }
    hide Scheduled, Sleepers, Awake, Retrying, WithinCapacity, Gentle, Ready,
         Switch, Send, Create, Receive, Sleep, Yield, InitQueue;
    var h := Handle(cfg, w, cfg.imports[w.regs.cia], e);
    if h.Some? {
      match cfg.imports[w.regs.cia]
      case SendCall =>
      case ReceiveCall => ReceiveGentle(cfg, t);
      case SleepCall => SleepGentle(cfg, w, t.woken);
      case YieldCall => YieldGentle(cfg, w, t.woken);
      case CreateCall => CreateGentle(cfg, w, t.woken);
      case ResumeCall => QuietCall(cfg, w, h.value, t.woken);
      case InitQueueCall => InitQueueGentle(cfg, w, t.woken);
      case OtherCall => QuietCall(cfg, w, h.value, t.woken);
      case UnimplementedCall =>
    }
  }

  lemma IsolatedKept(cfg: Config, w: World, v: World)
    requires Isolated(cfg, w, v)
    ensures ContextsKept(w, v)
  {
  }

  /** One step of anything but a send. */
  lemma OtherStepServed(cfg: Config, t: Traced, e: Event)
    requires Served(cfg, t) && !Sends(cfg, t.world)
    ensures Ready(t.world)
    ensures StepTraced(cfg, t, e).Some? ==> Served(cfg, StepTraced(cfg, t, e).value)
  {
    var w := t.world;
    ScheduledReady(w);
    if StepTraced(cfg, t, e).Some? {
      var v := Step(cfg, w, e).value;
      StepKeepsScheduled(cfg, w, e);
      IsolatedKept(cfg, w, v);
      if NotReceiving(cfg, w) { OwesReceive(cfg, t); }
      StepGentle(cfg, t, e);
      hide Scheduled, Sleepers, Awake, Retrying, WithinCapacity, Ready, Step, ContextsKept, Isolated,
           RecordsMoved, BlockedProperly, QueuesShrunk;
      ServedKept(cfg, t, v);
    }
  }

  lemma StepGentle(cfg: Config, t: Traced, e: Event)
    requires Served(cfg, t) && !Sends(cfg, t.world)
    ensures Ready(t.world)
    ensures Step(cfg, t.world, e).Some? ==> Gentle(cfg, t.world, Step(cfg, t.world, e).value, t.woken)
  {
    var w := t.world;
    ScheduledReady(w);
    if NotReceiving(cfg, w) { OwesReceive(cfg, t); }
    hide Scheduled, Sleepers, Awake, Retrying, WithinCapacity, Ready, Gentle, Handle;
    if Step(cfg, w, e).Some? {
      var v := Step(cfg, w, e).value;
      if w.regs.cia !in cfg.imports {
        QuietCall(cfg, w, v, t.woken);
      } else {
        HandleGentle(cfg, t, e);
        var h := Handle(cfg, w, cfg.imports[w.regs.cia], e).value;
        RegistersGentle(cfg, w, h, t.woken, v.regs);
        assert v == h.(regs := v.regs);
      }
    }
  }

  lemma SendStepServed(cfg: Config, t: Traced, e: Event)
    requires Served(cfg, t) && Sends(cfg, t.world)
    ensures Ready(t.world)
    ensures StepTraced(cfg, t, e).Some? ==> Served(cfg, StepTraced(cfg, t, e).value)
  {
    var w := t.world;
    ScheduledReady(w);
    if StepTraced(cfg, t, e).Some? {
      var v := Step(cfg, w, e).value;
      StepKeepsScheduled(cfg, w, e);
      OwesReceive(cfg, t);
      SendWakesOne(w, e.message);
      SendPushes(w, e.message);
      if Target(w).Some? {
        var k: nat :| Chosen(w, w.regs.gpr[3], k) && Woke(w, v, k) &&
                      Target(w) == Option<Word>.Some(w.threads[k].address);
        WakingSendHappened(cfg, w, e, k);
        hide Scheduled, Sleepers, Awake, Retrying, WithinCapacity, Ready, Step, WakingSend, Isolated, Target;
        WakingSendServed(cfg, t, v, k, w.regs.gpr[3]);
      } else {
        QuietSend(cfg, t, e);
        IsolatedKept(cfg, w, v);
        hide Scheduled, Sleepers, Awake, Retrying, WithinCapacity, Ready, Step, ContextsKept, Isolated, Target,
             RecordsMoved, BlockedProperly, QueuesShrunk;
        ServedKept(cfg, t, v);
      }
    }
  }

  lemma WakingSendHappened(cfg: Config, w: World, e: Event, k: nat)
    requires Scheduled(w) && WithinCapacity(w) && Sends(cfg, w) && Ready(w) && Step(cfg, w, e).Some?
    requires Chosen(w, w.regs.gpr[3], k) && Woke(w, Step(cfg, w, e).value, k)
    ensures WakingSend(w, Step(cfg, w, e).value, k, w.regs.gpr[3])
  {
    hide *;
    SendStepIs(cfg, w, e);
    StepKeepsScheduled(cfg, w, e);
    SendContexts(w, e.message);
    SendWakesOne(w, e.message);
    SendCounts(cfg, w, e);
    ContextsIgnoreRegisters(w, Send(w, e.message).value, Step(cfg, w, e).value);
    WakingIs(w, Step(cfg, w, e).value, k, w.regs.gpr[3]);
  }

  /** A send, and then the return to LR. */
  lemma SendStepIs(cfg: Config, w: World, e: Event)
    requires Sends(cfg, w) && Ready(w) && Step(cfg, w, e).Some?
    ensures e.Dispatch? && |w.regs.gpr| == 32 && Send(w, e.message).Some?
    ensures Step(cfg, w, e).value == Send(w, e.message).value.(regs := Step(cfg, w, e).value.regs)
  {
    hide Send;
  }

  lemma ContextsIgnoreRegisters(w: World, v: World, u: World)
    requires SameThreadContexts(w, v) && u == v.(regs := u.regs)
    ensures SameThreadContexts(w, u)
  {
  }

  lemma WakingIs(w: World, v: World, k: nat, queue: Word)
    requires Scheduled(v) && SameThreadContexts(w, v) && Chosen(w, queue, k) && Woke(w, v, k)
    requires queue != 0 && queue in w.queues && v.queues.Keys == w.queues.Keys && WithinCapacity(v)
    requires forall q :: q in v.queues ==>
               |v.queues[q].messages| <= |w.queues[q].messages| + (if q == queue then 1 else 0)
    ensures WakingSend(w, v, k, queue)
  {
    hide Scheduled, SameThreadContexts, WithinCapacity, NoLater;
  }

  lemma SendContexts(w: World, m: Message)
    requires Scheduled(w)
    ensures Ready(w) && (Send(w, m).Some? ==> SameThreadContexts(w, Send(w, m).value))
  {
    ScheduledReady(w);
    if Send(w, m).Some? {
      var queue := w.regs.gpr[3];
      if |w.queues[queue].messages| < w.queues[queue].capacity {
        var pushed := w.(queues := w.queues[queue := Pushed(w.queues[queue], m, w.regs.gpr[5])]);
        RegistersOnly(w, pushed);
        WakeReceiverScheduled(pushed, queue);
        hide Scheduled, WakeReceiver, Pushed, Ready;
        WakeReceiverFrame(pushed, queue);
      }
    }
  }

  /** One message at most joins the queue, and never above its capacity. */
  lemma SendCounts(cfg: Config, w: World, e: Event)
    requires Scheduled(w) && WithinCapacity(w) && Sends(cfg, w) && Ready(w) && Step(cfg, w, e).Some?
    ensures var v := Step(cfg, w, e).value;
            v.queues.Keys == w.queues.Keys && WithinCapacity(v) &&
            forall q :: q in v.queues ==>
              |v.queues[q].messages| <= |w.queues[q].messages| + (if q == w.regs.gpr[3] then 1 else 0)
  {
    SendPushes(w, e.message);
    hide Scheduled, Send, Ready, Target;
  }

  /** A send that wakes nobody: refused, or nobody sleeps on its queue. */
  lemma QuietSend(cfg: Config, t: Traced, e: Event)
    requires Served(cfg, t) && Sends(cfg, t.world) && t.world.current !in t.woken
    requires Ready(t.world) && Step(cfg, t.world, e).Some? && Target(t.world).None?
    ensures Gentle(cfg, t.world, Step(cfg, t.world, e).value, t.woken)
  {
    var w := t.world;
    var v := Step(cfg, w, e).value;
    SendWakesOne(w, e.message);
    QuietQueues(cfg, t, e);
    hide Scheduled, Send, Ready, Sleepers, Awake, Retrying, Target, Gentle, QueuesShrunk, WithinCapacity;
    QuietGentle(cfg, w, v, t.woken);
  }

  /** Nobody sleeps on the queue that grew. */
  lemma QuietQueues(cfg: Config, t: Traced, e: Event)
    requires Served(cfg, t) && Sends(cfg, t.world) && t.world.current !in t.woken
    requires Ready(t.world) && Step(cfg, t.world, e).Some? && Target(t.world).None?
    ensures QueuesShrunk(t.world, Step(cfg, t.world, e).value, t.woken)
  {
    var w := t.world;
    SendWakesOne(w, e.message);
    SendPushes(w, e.message);
    SendCounts(cfg, w, e);
    hide Scheduled, Send, Ready, Sleepers, Awake, Retrying, Target, WithinCapacity;
  }

  /** Every step keeps the queue invariant. */
  lemma StepServed(cfg: Config, t: Traced, e: Event)
    requires Served(cfg, t)
    ensures Ready(t.world)
    ensures StepTraced(cfg, t, e).Some? ==> Served(cfg, StepTraced(cfg, t, e).value)
  {
    hide Served, StepTraced;
    if Sends(cfg, t.world) { SendStepServed(cfg, t, e); } else { OtherStepServed(cfg, t, e); }
  }

  ghost predicate IsTracedRun(cfg: Config, ts: seq<Traced>, es: seq<Event>) {
    && |ts| == |es| + 1 && Served(cfg, ts[0])
    && forall i :: 0 <= i < |es| ==>
         Ready(ts[i].world) && StepTraced(cfg, ts[i], es[i]) == Option<Traced>.Some(ts[i + 1])
  }

  /** A machine where nobody waits for a queue and no queue overflows starts out right. */
  lemma FreshServed(cfg: Config, w: World)
    requires Scheduled(w) && WithinCapacity(w)
    requires forall i :: 0 <= i < |w.threads| ==> !w.threads[i].sleeping || w.threads[i].queue == 0
    ensures Served(cfg, Traced(w, map[]))
  {
  }

  function Zeroes(n: nat): (z: seq<Word>)
    ensures |z| == n && forall i :: 0 <= i < n ==> z[i] == 0
  {
    if n == 0 then [] else Zeroes(n - 1) + [0]
  }

  /** The context of a cleared OSThread object. */
  function NoContext(): Registers {
    Registers(Zeroes(32), Zeroes(32), Zeroes(32), Zeroes(8), 0, 0, 0, 0, 0, 0)
  }

  const DEFAULT_PRIORITY: Word := PRIORITY_BASE + 16

  /** The machine with its default thread, before the first guest call. */
  function DefaultWorld(a: Word, regs: Registers): World {
    World(regs, a, 0, 0, [Runtime(a, 0, false, 0)],
          map[a := OsThread(RUNNING, 2, 0, DEFAULT_PRIORITY, NoContext())], map[])
  }

  /** The default thread is where every run can start. */
  lemma DefaultThreadServed(cfg: Config, a: Word, regs: Registers)
    requires a != 0 && ValidRegisters(regs)
    ensures Scheduled(DefaultWorld(a, regs)) && Served(cfg, Traced(DefaultWorld(a, regs), map[]))
  {
    var w := DefaultWorld(a, regs);
    assert FindThread(w.threads, a) == 0;
    FreshServed(cfg, w);
  }

  lemma {:induction false} RunServed(cfg: Config, ts: seq<Traced>, es: seq<Event>, n: nat)
    requires IsTracedRun(cfg, ts, es) && n <= |es|
    ensures Served(cfg, ts[n])
  {
    hide Served, StepTraced, Ready;
    if n > 0 {
      RunServed(cfg, ts, es, n - 1);
      StepServed(cfg, ts[n - 1], es[n - 1]);
    }
  }

  /**
   * No lost wake-up, in any run: while some thread sleeps on a queue, every message in it is matched by
   * a thread that was woken for the queue and has not retried yet.
   */
  lemma NoLostWakeUp(cfg: Config, ts: seq<Traced>, es: seq<Event>, n: nat, i: nat)
    requires IsTracedRun(cfg, ts, es) && n <= |es|
    requires i < |ts[n].world.threads| && Queued(ts[n].world.threads[i])
    ensures var q := ts[n].world.threads[i].queue;
            q in ts[n].world.queues && |ts[n].world.queues[q].messages| <= |Owing(ts[n].woken, q)| &&
            (Owing(ts[n].woken, q) == {} ==> ts[n].world.queues[q].messages == [])
  {
    hide Scheduled, StepTraced, Ready, Owing, AtReceive, Awake, Retrying;
    RunServed(cfg, ts, es, n);
    assert SleeperServed(cfg, ts[n], ts[n].world.threads[i]);
  }

  /**
   * A thread woken for a queue retries the receive it slept in, with its original arguments: whenever it
   * has control, the only step it can take is that call.
   */
  lemma WokenRetriesReceive(cfg: Config, ts: seq<Traced>, es: seq<Event>, n: nat)
    requires IsTracedRun(cfg, ts, es) && n < |es| && ts[n].world.current in ts[n].woken
    ensures Ready(ts[n].world)
    ensures AtReceive(cfg, ts[n].world.regs, ts[n].woken[ts[n].world.current])
    ensures es[n].Dispatch? && Receive(ts[n].world).Some?
    ensures ts[n].world.current !in ts[n + 1].woken
  {
    RunServed(cfg, ts, es, n);
    hide Scheduled, Receive, Ready, Awake, Sleepers, Served;
    assert Ready(ts[n].world) && StepTraced(cfg, ts[n], es[n]) == Option<Traced>.Some(ts[n + 1]);
  }

  lemma TracedStep(cfg: Config, ts: seq<Traced>, es: seq<Event>, i: nat)
    requires IsTracedRun(cfg, ts, es) && i < |es|
    ensures |ts| == |es| + 1 && Ready(ts[i].world)
    ensures Step(cfg, ts[i].world, es[i]) == Option<World>.Some(ts[i + 1].world)
  {
    hide Step, Ready, Served;
    assert StepTraced(cfg, ts[i], es[i]) == Option<Traced>.Some(ts[i + 1]);
  }

  /** The worlds of a part of a traced run are a run. */
  lemma PartOfRun(cfg: Config, ts: seq<Traced>, es: seq<Event>, m: nat, n: nat) returns (ws: seq<World>)
    requires IsTracedRun(cfg, ts, es) && m <= n <= |es|
    ensures |ws| == n - m + 1 && forall i :: 0 <= i < |ws| ==> ws[i] == ts[m + i].world
    ensures IsRun(cfg, ws, es[m..n])
  {
    hide Scheduled, Step, StepTraced, Ready, Sleepers, Awake, Retrying, WithinCapacity, IsTracedRun;
    RunServed(cfg, ts, es, m);
    TracedLength(cfg, ts, es);
    ws := seq(n - m + 1, i requires 0 <= i < n - m + 1 => ts[m + i].world);
    var part := es[m..n];
    forall i | 0 <= i < |part|
      ensures Ready(ws[i]) && Step(cfg, ws[i], part[i]) == Option<World>.Some(ws[i + 1])
    {
      var k := m + i;
      TracedStep(cfg, ts, es, k);
      assert part[i] == es[k] && ws[i + 1] == ts[k + 1].world;
    }
  }

  lemma TracedLength(cfg: Config, ts: seq<Traced>, es: seq<Event>)
    requires IsTracedRun(cfg, ts, es)
    ensures |ts| == |es| + 1
  {
  }

  /**
   * A thread that lost control in a receive makes the same call again when it regains control: all its
   * registers, so also queue, destination and flags, are those of the first attempt.
   */
  lemma RetriesSameCall(cfg: Config, ts: seq<Traced>, es: seq<Event>, m: nat, n: nat)
    requires IsTracedRun(cfg, ts, es) && m + 1 < n < |es|
    requires ts[n].world.current == ts[m].world.current
    requires forall k :: m < k < n ==> ts[k].world.current != ts[m].world.current
    requires ts[m].world.regs.cia in cfg.imports && cfg.imports[ts[m].world.regs.cia].ReceiveCall?
    ensures ts[n].world.regs == ts[m].world.regs
    ensures es[n].Dispatch? && Ready(ts[n].world) && Receive(ts[n].world).Some?
  {
    hide Scheduled, Receive;
    var ws := PartOfRun(cfg, ts, es, m, n);
    forall k | 1 <= k < |es[m..n]| ensures ws[k].current != ws[0].current {
      assert ws[k] == ts[m + k].world;
    }
    RegainsRegisters(cfg, ws, es[m..n]);
    assert StepTraced(cfg, ts[n], es[n]) == Option<Traced>.Some(ts[n + 1]);
  }

  /** A woken thread stays awake and keeps its registers until it has control. */
  lemma WokenStaysReady(cfg: Config, ts: seq<Traced>, es: seq<Event>, n: nat, a: Word)
    requires IsTracedRun(cfg, ts, es) && n <= |es| && a in ts[n].woken
    ensures a in ts[n].world.objects && AtReceive(cfg, RegistersOf(ts[n].world, a), ts[n].woken[a])
    ensures forall i :: 0 <= i < |ts[n].world.threads| && ts[n].world.threads[i].address == a ==>
              !ts[n].world.threads[i].sleeping
  {
    hide Scheduled, AtReceive, StepTraced, Ready, Sleepers;
    RunServed(cfg, ts, es, n);
  }

  // Sleepers

  /** Across one step a timed sleeper sleeps on, or its deadline has come. */
  ghost predicate SleepsOn(t: Traced, u: Traced, i: nat) {
    i < |t.world.threads| <= |u.world.threads| && u.world.ticks >= t.world.ticks &&
    (u.world.threads[i] == t.world.threads[i] || t.world.threads[i].wakeTick <= u.world.ticks)
  }

  predicate TimedSleeper(r: Runtime) { r.sleeping && r.queue == 0 }

  lemma StepSleepsOn(cfg: Config, t: Traced, e: Event, i: nat)
    requires Served(cfg, t) && i < |t.world.threads| && TimedSleeper(t.world.threads[i])
    ensures Ready(t.world)
    ensures StepTraced(cfg, t, e).Some? ==> SleepsOn(t, StepTraced(cfg, t, e).value, i)
  {
    hide *;
    ServedParts(cfg, t);
    ScheduledReady(t.world);
    if StepTraced(cfg, t, e).Some? {
      TracedWorld(cfg, t, e);
      if Sends(cfg, t.world) {
        SendSleepsOn(cfg, t, e, i);
      } else {
        Asleep(t.world.threads[i]);
        SleeperIsNotCurrent(t.world, i);
        StepGentle(cfg, t, e);
        GentleSleepsOn(cfg, t, StepTraced(cfg, t, e).value, i);
      }
    }
  }

  lemma Asleep(r: Runtime)
    requires TimedSleeper(r)
    ensures r.sleeping
  {
  }

  lemma TracedWorld(cfg: Config, t: Traced, e: Event)
    requires Ready(t.world) && StepTraced(cfg, t, e).Some?
    ensures Step(cfg, t.world, e) == Option<World>.Some(StepTraced(cfg, t, e).value.world)
  {
    hide Ready, Step, Target, Sends, NotReceiving;
  }

  /** A send only wakes a thread that waits at its queue. */
  lemma SendSleepsOn(cfg: Config, t: Traced, e: Event, i: nat)
    requires Scheduled(t.world) && Ready(t.world) && Sends(cfg, t.world) && i < |t.world.threads|
    requires TimedSleeper(t.world.threads[i]) && StepTraced(cfg, t, e).Some?
    requires Step(cfg, t.world, e) == Option<World>.Some(StepTraced(cfg, t, e).value.world)
    ensures SleepsOn(t, StepTraced(cfg, t, e).value, i)
  {
    SendWakesOne(t.world, e.message);
    SendStepIs(cfg, t.world, e);
    hide Scheduled, Send, Ready, Target, NoLater, Step, StepTraced, Sends;
  }

  lemma GentleSleepsOn(cfg: Config, t: Traced, u: Traced, i: nat)
    requires i < |t.world.threads| && TimedSleeper(t.world.threads[i])
    requires t.world.threads[i].address != t.world.current && Gentle(cfg, t.world, u.world, t.woken)
    ensures SleepsOn(t, u, i)
  {
    hide BlockedProperly, QueuesShrunk;
  }

  /** Time never runs backwards, and records are never dropped. */
  lemma StepTicks(cfg: Config, t: Traced, e: Event)
    requires Served(cfg, t)
    ensures Ready(t.world)
    ensures StepTraced(cfg, t, e).Some? ==>
      var v := StepTraced(cfg, t, e).value.world;
      v.ticks >= t.world.ticks && |v.threads| >= |t.world.threads|
  {
    ScheduledReady(t.world);
    if StepTraced(cfg, t, e).Some? {
      if Sends(cfg, t.world) {
        SendWakesOne(t.world, e.message);
        hide Scheduled, Send, Ready, Sleepers, Awake, Retrying, Target, WithinCapacity, NoLater;
      } else {
        StepGentle(cfg, t, e);
        hide Scheduled, Step, Ready, Sleepers, Awake, Retrying, WithinCapacity, BlockedProperly, QueuesShrunk;
      }
    }
  }

  lemma {:induction false} SleepsUntilDeadline(cfg: Config, ts: seq<Traced>, es: seq<Event>, m: nat, n: nat, i: nat)
    requires IsTracedRun(cfg, ts, es) && m <= n <= |es|
    requires i < |ts[m].world.threads| && TimedSleeper(ts[m].world.threads[i])
    ensures SleepsOn(ts[m], ts[n], i)
    decreases n
  {
    hide Served, StepTraced, Ready;
    if n > m {
      SleepsUntilDeadline(cfg, ts, es, m, n - 1, i);
      RunServed(cfg, ts, es, n - 1);
      StepTicks(cfg, ts[n - 1], es[n - 1]);
      if ts[n - 1].world.threads[i] == ts[m].world.threads[i] { StepSleepsOn(cfg, ts[n - 1], es[n - 1], i); }
    }
  }

  /** In any run, a sleeping thread has control again only at or after its deadline. */
  lemma NoEarlyResume(cfg: Config, ts: seq<Traced>, es: seq<Event>, m: nat, n: nat, i: nat)
    requires IsTracedRun(cfg, ts, es) && m <= n <= |es|
    requires i < |ts[m].world.threads| && TimedSleeper(ts[m].world.threads[i])
    requires ts[n].world.current == ts[m].world.threads[i].address
    ensures ts[m].world.threads[i].wakeTick <= ts[n].world.ticks
  {
    SleepsUntilDeadline(cfg, ts, es, m, n, i);
    RunServed(cfg, ts, es, n);
    if ts[n].world.threads[i] == ts[m].world.threads[i] {
      assert Scheduled(ts[n].world);
      CurrentAwake(ts[n].world, i);
    }
  }

  lemma CurrentAwake(w: World, i: nat)
    requires Scheduled(w) && i < |w.threads| && w.threads[i].address == w.current
    ensures !w.threads[i].sleeping
  {
    if w.threads[i].sleeping { SleeperIsNotCurrent(w, i); }
  }
}
