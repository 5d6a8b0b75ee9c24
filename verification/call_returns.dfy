/** What a call leaves in the registers of its caller, and those a created thread starts with. */
module CallReturns {
  import opened Bits
  import opened GuestThreads
  import opened ThreadInvariants
  import opened ThreadClock
  import opened ThreadCalls
  import opened ThreadRuns
  import opened ThreadTime
  import opened HandOver
  import opened SleepRuns

  // Returning to the caller

  /** The caller goes on at LR with its registers as they were, but for the result in r3. */
  ghost predicate Returns(r: Registers, s: Registers) {
    |r.gpr| == 32 == |s.gpr| && s == r.(cia := r.lr, gpr := r.gpr[3 := s.gpr[3]])
  }

  /** The message at the back of the queue, or at the front if bit 1 of the flags is set. */
  ghost function Joined(ms: seq<Message>, m: Message, flags: Word): seq<Message> {
    if flags % 4 >= 2 then [m] + ms else ms + [m]
  }

  /**
   * A send returns 1 with the message in its queue, or 0 with every queue and thread as it was if the queue is full
   * and bit 0 of the flags is clear.
   */
  ghost predicate SendResult(w: World, v: World, m: Message)
    requires |w.regs.gpr| == 32 == |v.regs.gpr|
  {
    var q := w.regs.gpr[3];
    && q in w.queues
    && if |w.queues[q].messages| < w.queues[q].capacity
       then v.regs.gpr[3] == 1 && v.queues == w.queues[q := MessageQueue(w.queues[q].capacity,
                                                       Joined(w.queues[q].messages, m, w.regs.gpr[5]))]
       else && v.regs.gpr[3] == 0 && w.regs.gpr[5] % 2 == 0
            && v.queues == w.queues && v.threads == w.threads && v.objects == w.objects
  }

  /** A receive that does not wait returns 1 and takes the front message, or 0 if there is none and bit 0 is clear. */
  ghost predicate ReceiveResult(w: World, v: World)
    requires |w.regs.gpr| == 32 == |v.regs.gpr|
  {
    var q := w.regs.gpr[3];
    && q in w.queues
    && if w.queues[q].messages != []
       then v.regs.gpr[3] == 1 &&
            v.queues == w.queues[q := MessageQueue(w.queues[q].capacity, w.queues[q].messages[1..])]
       else v.regs.gpr[3] == 0 && w.regs.gpr[5] % 2 == 0 && v.queues == w.queues
  }

  /**
   * A thread can be created at the address, with a priority from 0 to 31 and with at least twelve bytes of stack
   * between its bottom and its aligned top.
   */
  ghost predicate Creatable(r: Registers)
    requires |r.gpr| == 32
  {
    var thread: int, top: int, size: int := r.gpr[3], r.gpr[7], r.gpr[8];
    && 0 < thread <= 0xFFFF_F960 && 0 < size <= top && top % 8 + 12 <= size
    && r.gpr[9] <= 31 && r.gpr[10] <= 31
  }

  /** OSCreateThread returns 1 with one more thread if one can be created, and else 0 with none. */
  ghost predicate CreateResult(w: World, v: World)
    requires |w.regs.gpr| == 32 == |v.regs.gpr|
  {
    if Creatable(w.regs)
    then && v.regs.gpr[3] == 1 && w.regs.gpr[3] !in w.objects
         && v.objects.Keys == w.objects.Keys + {w.regs.gpr[3]}
    else v.regs.gpr[3] == 0 && v.objects == w.objects && v.threads == w.threads
  }

  lemma CreatableMeans(r: Registers)
    requires |r.gpr| == 32
    ensures Creatable(r) <==> CreateAccepted(r)
  {
  }

  lemma SendReturns(cfg: Config, w: World, e: Event)
    requires Ready(w) && Calls(cfg, w, SendCall) && Step(cfg, w, e).Some?
    ensures var v := Step(cfg, w, e).value;
            && e.Dispatch? && v.current == w.current && Returns(w.regs, v.regs) && SendResult(w, v, e.message)
  {
    WakeReceiverFrames(w, e.message);
    hide Known, WakeReceiver;
  }

  lemma WakeReceiverFrames(w: World, m: Message)
    requires Ready(w)
    ensures forall v: World, q: Word :: v.threads == w.threads && v.objects == w.objects ==>
              var u := WakeReceiver(v, q); u.current == v.current && u.regs == v.regs && u.queues == v.queues
  {
    hide BestWaiter;
  }

  lemma ReceiveReturns(cfg: Config, w: World, e: Event)
    requires Scheduled(w) && Calls(cfg, w, ReceiveCall)
    ensures Ready(w)
    ensures Step(cfg, w, e).Some? && Step(cfg, w, e).value.current == w.current ==>
              Returns(w.regs, Step(cfg, w, e).value.regs) && ReceiveResult(w, Step(cfg, w, e).value)
  {
    ScheduledReady(w);
    ReceiveOutcome(cfg, w);
    hide Scheduled, Receive, Known, SameContexts, ReceiveResult, Ready;
    if Step(cfg, w, e).Some? && Step(cfg, w, e).value.current == w.current {
      assert Step(cfg, w, e).value == Receive(w).value.(regs := Receive(w).value.regs.(cia := w.regs.lr));
      ResultIgnoresCia(w, Receive(w).value);
    }
  }

  lemma ResultIgnoresCia(w: World, v: World)
    requires |w.regs.gpr| == 32 == |v.regs.gpr| && ReceiveResult(w, v)
    ensures ReceiveResult(w, v.(regs := v.regs.(cia := w.regs.lr)))
  {
  }

  /** A receive that switches hands over, so a caller still in control did not wait. */
  lemma ReceiveOutcome(cfg: Config, w: World)
    requires Scheduled(w) && Ready(w)
    ensures Receive(w).Some? && Receive(w).value.current == w.current ==>
              var v := Receive(w).value;
              |v.regs.gpr| == 32 && v.regs == w.regs.(gpr := w.regs.gpr[3 := v.regs.gpr[3]]) && ReceiveResult(w, v)
  {
    hide Scheduled, Switch, Known, Returning;
    SwitchGone(w, TICKS_MAX, Option<Word>.Some(w.regs.cia), w.regs.gpr[3]);
    ResultOnly(w.regs, 0);
    ResultOnly(w.regs, 1);
  }

  lemma ResultOnly(r: Registers, v: Word)
    requires |r.gpr| == 32
    ensures |Returning(r, v).gpr| == 32 && Returning(r, v).gpr[3] == v
    ensures Returning(r, v) == r.(gpr := r.gpr[3 := v])
  {
  }

  lemma SwitchGone(w: World, sleep: nat, resumeCia: Option<Word>, queue: Word)
    requires Scheduled(w)
    ensures Known(w.threads, w.objects)
    ensures var (v, switched) := Switch(w, true, sleep, resumeCia, queue); switched ==> v.current != w.current
  {
    SwitchMovesContexts(w, true, sleep, resumeCia, queue);
    hide Scheduled, Switch, SameContexts;
  }

  lemma SwitchReturns(w: World, u: World, block: bool, sleep: nat)
    requires Scheduled(u) && u.regs == w.regs && u.current == w.current
    ensures Known(u.threads, u.objects)
    ensures var v := Switch(u, block, sleep, Option<Word>.None, 0).0;
            v.current == w.current ==> v.regs == w.regs
  {
    SwitchMovesContexts(u, block, sleep, Option<Word>.None, 0);
    hide Scheduled, Switch, SameContexts;
  }

  lemma WaitReturns(cfg: Config, w: World, e: Event)
    requires Scheduled(w) && (Calls(cfg, w, SleepCall) || Calls(cfg, w, YieldCall))
    ensures Ready(w)
    ensures Step(cfg, w, e).Some? && Step(cfg, w, e).value.current == w.current ==>
              Step(cfg, w, e).value.regs == w.regs.(cia := w.regs.lr)
  {
    hide *;
    ScheduledReady(w);
    ReadyRegisters(w);
    ReadyGpr(w);
    var sleep := SleepLength(w.regs);
    var u := w.(sleepOffset := OffsetAfter(w.sleepOffset, sleep));
    RegistersOnly(w, u);
    SwitchReturns(w, u, sleep > 0, sleep);
    SwitchReturns(w, w, false, 0);
    if Step(cfg, w, e).Some? { WaitStep(cfg, w, e); }
  }

  lemma WaitStep(cfg: Config, w: World, e: Event)
    requires Ready(w) && (Calls(cfg, w, SleepCall) || Calls(cfg, w, YieldCall)) && Step(cfg, w, e).Some?
    ensures var v, sleep := Step(cfg, w, e).value, SleepLength(w.regs);
            var u := w.(sleepOffset := OffsetAfter(w.sleepOffset, sleep));
            var s := Switch(u, sleep > 0, sleep, Option<Word>.None, 0).0;
            var y := Switch(w, false, 0, Option<Word>.None, 0).0;
            v.current == w.current ==>
              || (s.current == w.current && v.regs == s.regs.(cia := w.regs.lr))
              || (y.current == w.current && v.regs == y.regs.(cia := w.regs.lr))
  {
    hide Switch, Known, SleepLength, OffsetAfter;
  }

  lemma RecordReturns(cfg: Config, w: World, e: Event)
    requires Ready(w) && Step(cfg, w, e).Some?
    requires Calls(cfg, w, CreateCall) || Calls(cfg, w, ResumeCall) || Calls(cfg, w, InitQueueCall)
    ensures var v := Step(cfg, w, e).value;
            && v.current == w.current && Returns(w.regs, v.regs)
            && (Calls(cfg, w, CreateCall) ==> CreateResult(w, v))
            && (Calls(cfg, w, ResumeCall) ==> w.regs.gpr[3] in w.objects &&
                                              v.regs.gpr[3] == w.objects[w.regs.gpr[3]].suspend)
            && (Calls(cfg, w, InitQueueCall) ==> v.regs == w.regs.(cia := w.regs.lr) &&
                                                 v.queues == w.queues[w.regs.gpr[3] := MessageQueue(w.regs.gpr[5], [])])
  {
    CreatableMeans(w.regs);
    hide Known, InitialContext, CreateAccepted, Creatable;
  }

  /**
   * A call that does not switch threads goes on at LR with all other registers kept, and its result in r3 says
   * what it did.
   */
  lemma CallReturns(cfg: Config, w: World, e: Event)
    requires Scheduled(w) && w.regs.cia in cfg.imports && !cfg.imports[w.regs.cia].OtherCall?
    ensures Ready(w)
    ensures Step(cfg, w, e).Some? && Step(cfg, w, e).value.current == w.current ==>
              var v := Step(cfg, w, e).value;
              && Returns(w.regs, v.regs) && e.Dispatch?
              && (Calls(cfg, w, SendCall) ==> SendResult(w, v, e.message))
              && (Calls(cfg, w, ReceiveCall) ==> ReceiveResult(w, v))
              && (Calls(cfg, w, CreateCall) ==> CreateResult(w, v))
              && (Calls(cfg, w, SleepCall) || Calls(cfg, w, YieldCall) || Calls(cfg, w, InitQueueCall) ==>
                    v.regs.gpr[3] == w.regs.gpr[3])
  {
    hide *;
    ScheduledReady(w);
    ReadyGpr(w);
    CallKinds(cfg, w, e);
    if Step(cfg, w, e).Some? {
      if Calls(cfg, w, SendCall) {
        SendReturns(cfg, w, e);
      } else if Calls(cfg, w, ReceiveCall) {
        ReceiveReturns(cfg, w, e);
      } else if Calls(cfg, w, SleepCall) || Calls(cfg, w, YieldCall) {
        WaitReturns(cfg, w, e);
      } else {
        RecordReturns(cfg, w, e);
      }
      if Step(cfg, w, e).value.regs == w.regs.(cia := w.regs.lr) { SameReturns(w.regs); }
    }
  }

  /**
   * A blocking receive on an empty queue does not return: its caller loses control, and its record waits at the
   * queue without a deadline.
   */
  lemma ReceiveWaits(cfg: Config, w: World, e: Event)
    requires Scheduled(w) && Calls(cfg, w, ReceiveCall)
    ensures Ready(w)
    ensures Step(cfg, w, e).Some? && w.regs.gpr[5] % 2 == 1 && w.regs.gpr[3] in w.queues &&
            w.queues[w.regs.gpr[3]].messages == [] ==>
              var v, i := Step(cfg, w, e).value, FindThread(w.threads, w.current);
              v.current != w.current && i < |v.threads| &&
              v.threads[i] == Runtime(w.current, TICKS_MAX, true, w.regs.gpr[3])
  {
    hide *;
    ScheduledReady(w);
    ReadyGpr(w);
    var queue := w.regs.gpr[3];
    if Step(cfg, w, e).Some? && w.regs.gpr[5] % 2 == 1 && queue in w.queues && w.queues[queue].messages == [] {
      EmptyReceive(cfg, w, e);
      SwitchGone(w, TICKS_MAX, Option<Word>.Some(w.regs.cia), queue);
      SwitchQueued(w, Option<Word>.Some(w.regs.cia), queue);
    }
  }

  lemma EmptyReceive(cfg: Config, w: World, e: Event)
    requires Ready(w) && Calls(cfg, w, ReceiveCall) && Step(cfg, w, e).Some? && w.regs.gpr[5] % 2 == 1
    requires w.regs.gpr[3] in w.queues && w.queues[w.regs.gpr[3]].messages == []
    ensures w.regs.gpr[3] != 0
    ensures var (v, switched) := Switch(w, true, TICKS_MAX, Option<Word>.Some(w.regs.cia), w.regs.gpr[3]);
            switched && Step(cfg, w, e).value.threads == v.threads && Step(cfg, w, e).value.current == v.current
  {
    hide Switch, Known;
  }

  lemma SwitchQueued(w: World, resumeCia: Option<Word>, queue: Word)
    requires Scheduled(w) && queue != 0
    ensures Known(w.threads, w.objects)
    ensures var v, i := Switch(w, true, TICKS_MAX, resumeCia, queue).0, FindThread(w.threads, w.current);
            v.current != w.current ==>
              i < |v.threads| && v.threads[i] == Runtime(w.current, TICKS_MAX, true, queue)
  {
    RecordsKnown(w);
    PreparedAllSlept(w, true, TICKS_MAX, queue);
    SwitchAfter(w, true, TICKS_MAX, resumeCia, queue);
    QueuedOwn(w, Prepare(w, true, TICKS_MAX, queue).0, queue, FindThread(w.threads, w.current));
    hide Scheduled, Prepare, AllSlept, ClockMoved, MarkCurrent, FindThread, Known, Switch;
  }

  lemma QueuedOwn(w: World, u: World, queue: Word, i: nat)
    requires Attached(w) && w.current in w.objects && i == FindThread(w.threads, w.current) && queue != 0
    requires AllSlept(MarkCurrent(w, true, TICKS_MAX, queue), u)
    ensures i < |u.threads| && u.threads[i] == Runtime(w.current, TICKS_MAX, true, queue)
  {
    var m := MarkCurrent(w, true, TICKS_MAX, queue);
    assert Slept(m.threads[i], u.threads[i], u.ticks);
  }

  lemma SameReturns(r: Registers)
    requires |r.gpr| == 32
    ensures Returns(r, r.(cia := r.lr))
  {
    assert r.gpr[3 := r.gpr[3]] == r.gpr;
  }

  /** A call is of one kind, and only a dispatch steps through it. */
  lemma CallKinds(cfg: Config, w: World, e: Event)
    requires Ready(w) && w.regs.cia in cfg.imports && !cfg.imports[w.regs.cia].OtherCall?
    ensures Step(cfg, w, e).Some? ==>
              && e.Dispatch?
              && (Calls(cfg, w, SendCall) || Calls(cfg, w, ReceiveCall) || Calls(cfg, w, SleepCall) ||
                  Calls(cfg, w, YieldCall) || Calls(cfg, w, CreateCall) || Calls(cfg, w, ResumeCall) ||
                  Calls(cfg, w, InitQueueCall))
    ensures Calls(cfg, w, SendCall) ==> !Calls(cfg, w, ReceiveCall)
    ensures Calls(cfg, w, SendCall) || Calls(cfg, w, ReceiveCall) ==>
              !Calls(cfg, w, SleepCall) && !Calls(cfg, w, YieldCall)
    ensures (Calls(cfg, w, SendCall) || Calls(cfg, w, ReceiveCall) || Calls(cfg, w, SleepCall) ||
             Calls(cfg, w, YieldCall)) ==> !Calls(cfg, w, CreateCall) && !Calls(cfg, w, InitQueueCall)
  {
    hide Known, Send, Receive, Sleep, Yield, Create, ResumeThread, InitQueue;
  }

  // A created thread

  /**
   * The OSThread of a new thread: it starts at the entry and returns to the exit import, with its two arguments,
   * the stack pointer eight bytes below the aligned stack top and inside the stack, the inherited r2 and r13, and
   * it is suspended once if it has an entry.
   */
  ghost predicate NewThread(cfg: Config, r: Registers, o: OsThread)
    requires |r.gpr| == 32
  {
    var top: int, size: int, priority: int := r.gpr[7], r.gpr[8], r.gpr[9];
    && ValidRegisters(o.context)
    && o.context.cia == r.gpr[4] && o.context.lr == cfg.exitThread
    && o.context.gpr[3] == r.gpr[5] && o.context.gpr[4] == r.gpr[6]
    && o.context.gpr[2] == r.gpr[2] && o.context.gpr[13] == r.gpr[13]
    && o.context.gpr[1] == top - top % 8 - 8 && top - size <= o.context.gpr[1]
    && o.context.gqr == [0, 0, 0x40004, 0x50005, 0x60006, 0x70007, 0, 0] && o.context.fpscr == 4
    && o.context.cr == 0 && o.context.ctr == 0 && o.context.xer == 0
    && (forall i :: 0 <= i < 32 ==> o.context.fpr[i] == 0 && o.context.ps1[i] == 0)
    && (forall i :: 0 <= i < 32 && i !in [1, 2, 3, 4, 13] ==> o.context.gpr[i] == 0)
    && o.suspend == (if r.gpr[4] != 0 then 1 else 0) && o.state == (if r.gpr[4] != 0 then 1 else 0)
    && o.priority == 64 + priority && priority < 32
    && o.affinity == r.gpr[10] + (if r.gpr[10] % 8 == 0 then 2 else 0)
  }

  lemma CreatesThread(cfg: Config, w: World, e: Event)
    requires Ready(w) && Calls(cfg, w, CreateCall) && Step(cfg, w, e).Some?
    ensures var a, v := w.regs.gpr[3], Step(cfg, w, e).value;
            a !in w.objects && a in v.objects ==> NewThread(cfg, w.regs, v.objects[a])
  {
    hide Known;
  }

  /** The context of a thread waits unchanged until the thread has control, and then is what it runs with. */
  lemma {:induction false} ContextWaits(cfg: Config, ws: seq<World>, es: seq<Event>, a: Word, m: nat, n: nat)
    requires IsRun(cfg, ws, es) && m <= n <= |es| && a in ws[m].objects
    requires forall k :: m <= k < n ==> ws[k].current != a
    requires ws[m].current != a
    ensures a in ws[n].objects
    ensures if ws[n].current == a then ws[n].regs == ws[m].objects[a].context
            else ws[n].objects[a].context == ws[m].objects[a].context
    decreases n
  {
    hide Scheduled, Ready, Step;
    if m < n {
      ContextWaits(cfg, ws, es, a, m, n - 1);
      RunKeepsScheduled(cfg, ws, es, n);
    }
  }

  /**
   * A created thread first has control at its entry with its arguments, its stack and the exit import in LR; and
   * somebody has resumed it before, if it has an entry.
   */
  lemma CreatedThreadStarts(cfg: Config, ws: seq<World>, es: seq<Event>, m: nat, n: nat, a: Word)
    requires IsRun(cfg, ws, es) && m < n <= |es| && Calls(cfg, ws[m], CreateCall)
    requires |ws[m].regs.gpr| == 32 && a == ws[m].regs.gpr[3] && a !in ws[m].objects && a in ws[m + 1].objects
    requires ws[n].current == a && forall k :: m < k < n ==> ws[k].current != a
    ensures NewThread(cfg, ws[m].regs, ws[m + 1].objects[a]) && ws[n].regs == ws[m + 1].objects[a].context
    ensures ws[m].regs.gpr[4] != 0 ==> !NotResumed(cfg, ws, a, m + 1, n)
  {
    hide *;
    RunLength(cfg, ws, es);
    RunStepIs(cfg, ws, es, m);
    RunKeepsScheduled(cfg, ws, es, m);
    ScheduledCurrent(ws[m]);
    CreatesThread(cfg, ws[m], es[m]);
    RecordReturns(cfg, ws[m], es[m]);
    ContextWaits(cfg, ws, es, a, m + 1, n);
    NewSuspended(cfg, ws[m].regs, ws[m + 1].objects[a]);
    if ws[m].regs.gpr[4] != 0 && NotResumed(cfg, ws, a, m + 1, n) {
      SuspendedUntilResumed(cfg, ws, es, a, m + 1, n);
    }
  }

  lemma NewSuspended(cfg: Config, r: Registers, o: OsThread)
    requires |r.gpr| == 32 && NewThread(cfg, r, o)
    ensures r.gpr[4] != 0 ==> o.suspend > 0
  {
  }
}
