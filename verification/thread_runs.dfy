/** Invariants and theorems over all runs of guest threads. */
module ThreadRuns {
  import opened Bits
  import opened GuestThreads
  import opened ThreadInvariants
  import opened ThreadCalls

  lemma ScheduledReady(w: World)
    requires Scheduled(w)
    ensures Ready(w)
  {
  }

  /** Changing registers, queues or the sleep offset does not concern the scheduler. */
  lemma RegistersOnly(w: World, v: World)
    requires Scheduled(w) && ValidRegisters(v.regs) && v.threads == w.threads && v.objects == w.objects
    requires v.current == w.current && v.ticks == w.ticks
    ensures Scheduled(v)
  {
  }

  /** Record k comes before record i in the order of wake-ups: smaller priority number, then position. */
  ghost predicate NoLater(threads: seq<Runtime>, objects: map<Word, OsThread>, k: nat, i: nat)
    requires Known(threads, objects) && k < |threads| && i < |threads|
  {
    var p, q := objects[threads[k].address].priority, objects[threads[i].address].priority;
    p < q || (p == q && k <= i)
  }

  lemma {:induction false} BestWaiterMeans(threads: seq<Runtime>, objects: map<Word, OsThread>, queue: Word, n: nat)
    requires Known(threads, objects) && n <= |threads|
    ensures var k := BestWaiter(threads, objects, queue, n);
            && (k < 0 <==> forall i :: 0 <= i < n ==> !WaitsFor(threads[i], queue))
            && (k >= 0 ==> WaitsFor(threads[k], queue))
            && (k >= 0 ==> forall i :: 0 <= i < n && WaitsFor(threads[i], queue) ==>
                  NoLater(threads, objects, k, i))
  {
    if n > 0 { BestWaiterMeans(threads, objects, queue, n - 1); }
  }

  /** Not suspended, and the affinity mask is empty or holds the emulated core. */
  ghost predicate Allowed(o: OsThread) { o.suspend == 0 && (o.affinity == 0 || o.affinity % 4 >= 2) }

  /** Another thread that is awake, has its READY bit set and is free to run. */
  ghost predicate CanRun(r: Runtime, o: OsThread, current: Word) {
    r.address != current && !r.sleeping && o.state % 2 == 1 && Allowed(o)
  }

  lemma RunnableCanRun(r: Runtime, o: OsThread, current: Word)
    ensures Runnable(r, o, current) <==> CanRun(r, o, current)
  {
    assert (o.affinity / 2) % 2 == 1 <==> o.affinity % 4 >= 2;
  }

  /**
   * The thread a switch picks can run and no thread that can comes before it; there is none exactly
   * when every thread that can run has the largest priority number, which is never picked.
   */
  lemma {:induction false} BestReadyMeans(threads: seq<Runtime>, objects: map<Word, OsThread>, current: Word, n: nat)
    requires Known(threads, objects) && n <= |threads|
    ensures var k := BestReady(threads, objects, current, n);
            && (k < 0 <==> forall i :: 0 <= i < n && CanRun(threads[i], objects[threads[i].address], current) ==>
                  objects[threads[i].address].priority == WORD_MAX)
            && (k >= 0 ==> CanRun(threads[k], objects[threads[k].address], current))
            && (k >= 0 ==> objects[threads[k].address].priority < WORD_MAX)
            && (k >= 0 ==> forall i :: 0 <= i < n && CanRun(threads[i], objects[threads[i].address], current) ==>
                  NoLater(threads, objects, k, i))
  {
    hide Runnable, CanRun;
    if n > 0 {
      BestReadyMeans(threads, objects, current, n - 1);
      RunnableCanRun(threads[n - 1], objects[threads[n - 1].address], current);
    }
  }

  /** What a send does to the sleeper it wakes: that record and that state change, nothing else. */
  lemma WakeReceiverScheduled(w: World, queue: Word)
    requires Scheduled(w) && queue != 0
    ensures Known(w.threads, w.objects) && Scheduled(WakeReceiver(w, queue))
    ensures SameContexts(w, WakeReceiver(w, queue))
  {
    RecordsKnown(w);
    hide BestWaiter, Scheduled, NoLater, Known, SameContexts;
    BestWaiterMeans(w.threads, w.objects, queue, |w.threads|);
    var k := BestWaiter(w.threads, w.objects, queue, |w.threads|);
    if k >= 0 { WokenScheduled(w, k); }
    WakeReceiverContexts(w, queue);
  }

  lemma WakeReceiverContexts(w: World, queue: Word)
    requires Known(w.threads, w.objects)
    ensures SameContexts(w, WakeReceiver(w, queue))
  {
    hide BestWaiter;
  }

  lemma WokenScheduled(w: World, k: nat)
    requires Scheduled(w) && k < |w.threads| && w.threads[k].sleeping
    ensures w.threads[k].address in w.objects
    ensures var a := w.threads[k].address;
            Scheduled(w.(threads := w.threads[k := Runtime(a, 0, false, 0)],
                         objects := w.objects[a := w.objects[a].(state := READY)]))
  {
    hide Records, Deadlines;
    RecordAgrees(w, k);
    var a := w.threads[k].address;
    UpdateScheduled(w, k, Runtime(a, 0, false, 0), w.objects[a].(state := READY));
  }

  lemma AppendedScheduled(w: World, a: Word, o: OsThread)
    requires Scheduled(w) && a != 0 && a !in w.objects
    requires Agrees(Runtime(a, 0, false, 0), o) && o.state != RUNNING
    ensures Scheduled(w.(threads := w.threads + [Runtime(a, 0, false, 0)], objects := w.objects[a := o]))
  {
    hide Agrees, Future;
    var v := w.(threads := w.threads + [Runtime(a, 0, false, 0)], objects := w.objects[a := o]);
    forall i | 0 <= i < |v.threads|
      ensures v.threads[i].address in v.objects && v.threads[i].address != 0
      ensures Agrees(v.threads[i], v.objects[v.threads[i].address])
    {
      if i < |w.threads| { RecordAgrees(w, i); }
    }
    AppendedFound(w, a, o);
    AppendedFuture(w, a);
  }

  lemma AppendedFound(w: World, a: Word, o: OsThread)
    requires Records(w) && a !in w.objects
    ensures var threads := w.threads + [Runtime(a, 0, false, 0)];
            Unique(threads) && forall b :: b in w.objects || b == a ==> FindThread(threads, b) < |threads|
  {
    hide Agrees;
    var threads := w.threads + [Runtime(a, 0, false, 0)];
    assert threads[|w.threads|].address == a;
    forall b | b in w.objects ensures FindThread(threads, b) < |threads| {
      RecordOf(w, b);
      assert threads[FindThread(w.threads, b)].address == b;
    }
  }

  lemma AppendedFuture(w: World, a: Word)
    requires Deadlines(w)
    ensures Deadlines(w.(threads := w.threads + [Runtime(a, 0, false, 0)]))
  {
    forall i | 0 <= i < |w.threads| ensures Future(w.threads[i], w.ticks) {}
  }

  lemma SuspendOnly(w: World, a: Word, suspend: Word)
    requires Scheduled(w) && a in w.objects
    ensures Scheduled(w.(objects := w.objects[a := w.objects[a].(suspend := suspend)]))
  {
    RecordOf(w, a);
    var i := FindThread(w.threads, a);
    assert Future(w.threads[i], w.ticks);
    hide Records, Deadlines, Future;
    UpdateScheduled(w, i, w.threads[i], w.objects[a].(suspend := suspend));
    assert w.threads[i := w.threads[i]] == w.threads;
  }

  /**
   * What a step does to contexts: threads that stay switched out keep theirs; a thread that loses
   * control has its registers stored with its resume address; one that gains control gets its own back.
   */
  ghost predicate Isolated(cfg: Config, w: World, v: World) {
    && w.objects.Keys <= v.objects.Keys && w.current in w.objects
    && (v.current == w.current ==>
          forall a :: a in w.objects ==> v.objects[a].context == w.objects[a].context)
    && (v.current != w.current ==>
          ContextsMoved(w, v, if w.regs.cia in cfg.imports && cfg.imports[w.regs.cia].ReceiveCall?
                              then w.regs.cia else w.regs.lr))
  }

  lemma SwitchIsolated(cfg: Config, w: World, block: bool, sleep: nat, resumeCia: Option<Word>, queue: Word)
    requires Scheduled(w)
    requires resumeCia == (if w.regs.cia in cfg.imports && cfg.imports[w.regs.cia].ReceiveCall?
                           then Option<Word>.Some(w.regs.cia) else Option<Word>.None)
    ensures Known(w.threads, w.objects)
    ensures var v := Switch(w, block, sleep, resumeCia, queue).0;
            Scheduled(v) && Isolated(cfg, w, v) && (v.current == w.current ==> v.regs == w.regs)
  {
    hide Records, Deadlines, Switch;
    SwitchKeepsScheduled(w, block, sleep, resumeCia, queue);
    SwitchMovesContexts(w, block, sleep, resumeCia, queue);
    RecordsKnown(w);
  }

  lemma SendScheduled(cfg: Config, w: World, m: Message)
    requires Scheduled(w)
    ensures Ready(w)
    ensures Send(w, m).Some? ==>
              Scheduled(Send(w, m).value) && Isolated(cfg, w, Send(w, m).value) && Send(w, m).value.current == w.current
  {
    hide Records, Deadlines, WakeReceiver, Pushed;
    ScheduledReady(w);
    var queue, flags := w.regs.gpr[3], w.regs.gpr[5];
    if Send(w, m).Some? {
      RegistersOnly(w, w.(regs := Returning(w.regs, 0)));
      if |w.queues[queue].messages| < w.queues[queue].capacity {
        var pushed := w.(queues := w.queues[queue := Pushed(w.queues[queue], m, flags)]);
        RegistersOnly(w, pushed);
        WakeReceiverScheduled(pushed, queue);
        WakeReceiverFrame(pushed, queue);
        RegistersOnly(WakeReceiver(pushed, queue), Send(w, m).value);
      }
    }
  }

  lemma WakeReceiverFrame(w: World, queue: Word)
    requires Known(w.threads, w.objects)
    ensures var v := WakeReceiver(w, queue);
            v.current == w.current && v.regs == w.regs && v.ticks == w.ticks && v.queues == w.queues &&
            v.sleepOffset == w.sleepOffset && |v.threads| == |w.threads| && v.objects.Keys == w.objects.Keys
  {
  }

  lemma CreateScheduled(cfg: Config, w: World)
    requires Scheduled(w)
    ensures Ready(w)
    ensures Create(w, cfg).Some? ==>
              Scheduled(Create(w, cfg).value) && Isolated(cfg, w, Create(w, cfg).value) &&
              Create(w, cfg).value.current == w.current
  {
    hide Records, Deadlines, InitialContext;
    ScheduledReady(w);
    var thread := w.regs.gpr[3];
    if Create(w, cfg).Some? {
      RegistersOnly(w, w.(regs := Returning(w.regs, 0)));
      if CreateAccepted(w.regs) {
        var v := Create(w, cfg).value;
        InitialContextValid(w.regs, cfg.exitThread);
        AppendedScheduled(w, thread, v.objects[thread]);
        RegistersOnly(w.(threads := v.threads, objects := v.objects), v);
      }
    }
  }

  lemma InitialContextValid(r: Registers, exitThread: Word)
    requires |r.gpr| == 32
    ensures ValidRegisters(InitialContext(r, exitThread))
  {
  }

  lemma ReceiveScheduled(cfg: Config, w: World)
    requires Scheduled(w) && w.regs.cia in cfg.imports && cfg.imports[w.regs.cia].ReceiveCall?
    ensures Ready(w)
    ensures Receive(w).Some? ==> Scheduled(Receive(w).value) && Isolated(cfg, w, Receive(w).value)
  {
    hide Records, Deadlines, Switch;
    ScheduledReady(w);
    if Receive(w).Some? {
      SwitchIsolated(cfg, w, true, TICKS_MAX, Option<Word>.Some(w.regs.cia), w.regs.gpr[3]);
      if Receive(w).value.current == w.current && Receive(w).value.threads == w.threads &&
         Receive(w).value.objects == w.objects && Receive(w).value.ticks == w.ticks {
        RegistersOnly(w, Receive(w).value);
      }
    }
  }

  /** Every step keeps the scheduler invariant and isolates contexts. */
  lemma StepKeepsScheduled(cfg: Config, w: World, e: Event)
    requires Scheduled(w)
    ensures Ready(w)
    ensures Step(cfg, w, e).Some? ==> Scheduled(Step(cfg, w, e).value) && Isolated(cfg, w, Step(cfg, w, e).value)
  {
    ScheduledReady(w);
    hide Records, Deadlines, Switch, Send, Create;
    if Step(cfg, w, e).Some? {
      var v := Step(cfg, w, e).value;
      if w.regs.cia !in cfg.imports {
        RegistersOnly(w, v);
      } else {
        HandleKeepsScheduled(cfg, w, e);
        var h := Handle(cfg, w, cfg.imports[w.regs.cia], e).value;
        if h.current == w.current { RegistersOnly(h, v); }
      }
    }
  }

  lemma HandleKeepsScheduled(cfg: Config, w: World, e: Event)
    requires Scheduled(w) && w.regs.cia in cfg.imports && e.Dispatch?
    ensures Ready(w)
    ensures var h := Handle(cfg, w, cfg.imports[w.regs.cia], e);
            h.Some? ==> Scheduled(h.value) && Isolated(cfg, w, h.value)
  {
    ScheduledReady(w);
    hide Records, Deadlines, Switch, Send, Create, Receive, Sleep, Yield, ResumeThread, InitQueue, Isolated, Ready;
    var h := Handle(cfg, w, cfg.imports[w.regs.cia], e);
    if h.Some? {
      match cfg.imports[w.regs.cia]
      case SendCall => SendScheduled(cfg, w, e.message);
      case ReceiveCall => ReceiveScheduled(cfg, w);
      case SleepCall => SleepScheduled(cfg, w);
      case YieldCall => YieldScheduled(cfg, w);
      case CreateCall => CreateScheduled(cfg, w);
      case ResumeCall => ResumeScheduled(cfg, w);
      case InitQueueCall => InitQueueScheduled(cfg, w);
      case OtherCall =>
        RegistersOnly(w, h.value);
        SameThreadIsolated(cfg, w, h.value);
      case UnimplementedCall =>
    }
  }

  lemma SameThreadIsolated(cfg: Config, w: World, v: World)
    requires w.current in w.objects && v.current == w.current && v.objects == w.objects
    ensures Isolated(cfg, w, v)
  {
  }

  ghost predicate NotReceiving(cfg: Config, w: World) {
    !(w.regs.cia in cfg.imports && cfg.imports[w.regs.cia].ReceiveCall?)
  }

  lemma SleepScheduled(cfg: Config, w: World)
    requires Scheduled(w) && NotReceiving(cfg, w)
    ensures Ready(w) && Sleep(w).Some? && Scheduled(Sleep(w).value) && Isolated(cfg, w, Sleep(w).value)
  {
    ScheduledReady(w);
    hide Records, Deadlines, Switch, SleepLength, OffsetAfter;
    var sleep := SleepLength(w.regs);
    var u := w.(sleepOffset := OffsetAfter(w.sleepOffset, sleep));
    RegistersOnly(w, u);
    SwitchIsolated(cfg, u, sleep > 0, sleep, Option<Word>.None, 0);
  }

  lemma YieldScheduled(cfg: Config, w: World)
    requires Scheduled(w) && NotReceiving(cfg, w)
    ensures Ready(w) && Yield(w).Some? && Scheduled(Yield(w).value) && Isolated(cfg, w, Yield(w).value)
  {
    ScheduledReady(w);
    hide Records, Deadlines, Switch;
    SwitchIsolated(cfg, w, false, 0, Option<Word>.None, 0);
  }

  lemma ResumeScheduled(cfg: Config, w: World)
    requires Scheduled(w)
    ensures Ready(w)
    ensures ResumeThread(w).Some? ==>
              Scheduled(ResumeThread(w).value) && Isolated(cfg, w, ResumeThread(w).value)
  {
    ScheduledReady(w);
    hide Records, Deadlines;
    if ResumeThread(w).Some? {
      var t, v := w.regs.gpr[3], ResumeThread(w).value;
      SuspendOnly(w, t, v.objects[t].suspend);
      RegistersOnly(w.(objects := v.objects), v);
    }
  }

  lemma InitQueueScheduled(cfg: Config, w: World)
    requires Scheduled(w)
    ensures Ready(w)
    ensures InitQueue(w).Some? ==> Scheduled(InitQueue(w).value) && Isolated(cfg, w, InitQueue(w).value)
  {
    ScheduledReady(w);
    hide Records, Deadlines;
    if InitQueue(w).Some? { RegistersOnly(w, InitQueue(w).value); }
  }

  /** Consecutive states of a run. */
  ghost predicate IsRun(cfg: Config, ws: seq<World>, es: seq<Event>) {
    && |ws| == |es| + 1 && Scheduled(ws[0])
    && forall i :: 0 <= i < |es| ==> Ready(ws[i]) && Step(cfg, ws[i], es[i]) == Option<World>.Some(ws[i + 1])
  }

  lemma {:induction false} RunKeepsScheduled(cfg: Config, ws: seq<World>, es: seq<Event>, n: nat)
    requires IsRun(cfg, ws, es) && n <= |es|
    ensures Scheduled(ws[n])
    ensures n > 0 ==> Isolated(cfg, ws[n - 1], ws[n])
  {
    hide Scheduled, Ready, Step, Isolated;
    if n > 0 {
      RunKeepsScheduled(cfg, ws, es, n - 1);
      StepKeepsScheduled(cfg, ws[n - 1], es[n - 1]);
    }
  }

  /** A switched-out thread's context survives any number of steps of other threads. */
  lemma {:induction false} ContextSurvives(cfg: Config, ws: seq<World>, es: seq<Event>, a: Word, n: nat)
    requires IsRun(cfg, ws, es) && 1 <= n <= |es|
    requires ws[0].current == a && forall k :: 1 <= k <= n ==> ws[k].current != a
    ensures a in ws[1].objects && a in ws[n].objects
    ensures ws[n].objects[a].context == ws[1].objects[a].context
  {
    hide Scheduled, Ready, Step;
    RunKeepsScheduled(cfg, ws, es, n);
    if n > 1 {
      ContextSurvives(cfg, ws, es, a, n - 1);
    }
  }

  /**
   * Context isolation over runs: when a thread regains control after any number of steps of other
   * threads, all its registers are what they were when it lost control; CIA is the return address of
   * its call, or the import itself if it blocked in a receive.
   */
  lemma RegainsRegisters(cfg: Config, ws: seq<World>, es: seq<Event>)
    requires IsRun(cfg, ws, es) && |es| >= 2
    requires ws[|es|].current == ws[0].current
    requires forall k :: 1 <= k < |es| ==> ws[k].current != ws[0].current
    ensures ws[0].regs.cia in cfg.imports
    ensures ws[|es|].regs == ws[0].regs.(cia :=
              if cfg.imports[ws[0].regs.cia].ReceiveCall? then ws[0].regs.cia else ws[0].regs.lr)
  {
    var n := |es|;
    assert Ready(ws[0]) && Step(cfg, ws[0], es[0]) == Option<World>.Some(ws[1]);
    hide Scheduled, Ready, Handle;
    RunKeepsScheduled(cfg, ws, es, 1);
    RunKeepsScheduled(cfg, ws, es, n);
    ContextSurvives(cfg, ws, es, ws[0].current, n - 1);
  }
}
