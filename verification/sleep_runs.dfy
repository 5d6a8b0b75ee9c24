/** How long a sleep lasts: the deadline of OSSleepTicks, and control again only at or after it. */
module SleepRuns {
  import opened Bits
  import opened GuestThreads
  import opened ThreadInvariants
  import opened ThreadClock
  import opened ThreadCalls
  import opened ThreadRuns
  import opened ThreadTime
  import opened HandOver
  import opened WakeUps

  // Records across one step

  /**
   * Records keep their places. A record other than the caller's changes only by waking, a timed one not
   * before its deadline; new records are awake.
   */
  ghost predicate RecordsStep(w: World, v: World) {
    && |v.threads| >= |w.threads| && v.ticks >= w.ticks
    && (forall i :: |w.threads| <= i < |v.threads| ==> !v.threads[i].sleeping && v.threads[i].address !in w.objects)
    && (forall i :: 0 <= i < |w.threads| ==> v.threads[i].address == w.threads[i].address)
    && (forall i :: 0 <= i < |w.threads| && w.threads[i].address != w.current ==>
          || v.threads[i] == w.threads[i]
          || (&& w.threads[i].sleeping && !v.threads[i].sleeping
              && (w.threads[i].queue == 0 ==> w.threads[i].wakeTick <= v.ticks)))
  }

  lemma MovedStep(w: World, v: World)
    requires RecordsMoved(w, v)
    ensures RecordsStep(w, v)
  {
  }

  lemma SameRecords(w: World, v: World)
    requires v.threads == w.threads && v.ticks == w.ticks
    ensures RecordsStep(w, v)
  {
  }

  lemma IgnoreRegisters(w: World, v: World, u: World)
    requires RecordsStep(w, v) && u.threads == v.threads && u.ticks == v.ticks
    ensures RecordsStep(w, u)
  {
  }

  lemma SendRecords(w: World, m: Message)
    requires Scheduled(w)
    ensures Ready(w) && (Send(w, m).Some? ==> RecordsStep(w, Send(w, m).value))
  {
    SendWakesOne(w, m);
    hide Scheduled, Send, Ready, NoLater, Target;
  }

  lemma SleepRecords(w: World)
    requires Scheduled(w)
    ensures Ready(w) && Sleep(w).Some? && RecordsStep(w, Sleep(w).value)
  {
    ScheduledReady(w);
    hide Scheduled, Switch, SleepLength, OffsetAfter, Known, RecordsMoved, RecordsStep;
    var sleep := SleepLength(w.regs);
    var u := w.(sleepOffset := OffsetAfter(w.sleepOffset, sleep));
    RegistersOnly(w, u);
    SwitchRecords(u, sleep > 0, sleep, Option<Word>.None, 0);
    MovedStep(u, Switch(u, sleep > 0, sleep, Option<Word>.None, 0).0);
    RecordsFrom(w, u, Sleep(w).value);
  }

  lemma RecordsFrom(w: World, u: World, v: World)
    requires u.threads == w.threads && u.ticks == w.ticks && u.current == w.current && u.objects == w.objects
    requires RecordsStep(u, v)
    ensures RecordsStep(w, v)
  {
  }

  lemma YieldRecords(w: World)
    requires Scheduled(w)
    ensures Ready(w) && Yield(w).Some? && RecordsStep(w, Yield(w).value)
  {
    ScheduledReady(w);
    hide Scheduled, Switch, Known, RecordsMoved, RecordsStep;
    SwitchRecords(w, false, 0, Option<Word>.None, 0);
    MovedStep(w, Switch(w, false, 0, Option<Word>.None, 0).0);
  }

  lemma ReceiveRecords(w: World)
    requires Scheduled(w)
    ensures Ready(w) && (Receive(w).Some? ==> RecordsStep(w, Receive(w).value))
  {
    hide *;
    ScheduledReady(w);
    ReadyGpr(w);
    SwitchRecords(w, true, TICKS_MAX, Option<Word>.Some(w.regs.cia), w.regs.gpr[3]);
    MovedStep(w, Switch(w, true, TICKS_MAX, Option<Word>.Some(w.regs.cia), w.regs.gpr[3]).0);
    ReceiveEither(w);
    if Receive(w).Some? && Receive(w).value.threads == w.threads && Receive(w).value.ticks == w.ticks {
      SameRecords(w, Receive(w).value);
    }
  }

  lemma ReceiveEither(w: World)
    requires Ready(w)
    ensures Receive(w).Some? ==>
              || Receive(w).value == Switch(w, true, TICKS_MAX, Option<Word>.Some(w.regs.cia), w.regs.gpr[3]).0
              || (Receive(w).value.threads == w.threads && Receive(w).value.ticks == w.ticks)
  {
    hide Switch, Known;
  }

  lemma CreateRecords(cfg: Config, w: World)
    requires Ready(w)
    ensures Create(w, cfg).Some? ==> RecordsStep(w, Create(w, cfg).value)
  {
    hide CreateAccepted, InitialContext;
  }

  lemma QuietRecords(w: World)
    requires Ready(w)
    ensures ResumeThread(w).Some? ==> RecordsStep(w, ResumeThread(w).value)
    ensures InitQueue(w).Some? ==> RecordsStep(w, InitQueue(w).value)
  {
  }

  lemma HandleRecords(cfg: Config, w: World, e: Event)
    requires Scheduled(w) && w.regs.cia in cfg.imports && e.Dispatch?
    ensures Ready(w)
    ensures var h := Handle(cfg, w, cfg.imports[w.regs.cia], e); h.Some? ==> RecordsStep(w, h.value)
  {
    ScheduledReady(w);
    hide Scheduled, Send, Receive, Sleep, Yield, Create, ResumeThread, InitQueue, RecordsStep, Ready;
    var h := Handle(cfg, w, cfg.imports[w.regs.cia], e);
    if h.Some? {
      match cfg.imports[w.regs.cia]
      case SendCall => SendRecords(w, e.message);
      case ReceiveCall => ReceiveRecords(w);
      case SleepCall => SleepRecords(w);
      case YieldCall => YieldRecords(w);
      case CreateCall => CreateRecords(cfg, w);
      case ResumeCall => QuietRecords(w);
      case InitQueueCall => QuietRecords(w);
      case OtherCall => SameRecords(w, h.value);
      case UnimplementedCall =>
    }
  }

  lemma StepRecords(cfg: Config, w: World, e: Event)
    requires Scheduled(w)
    ensures Ready(w)
    ensures Step(cfg, w, e).Some? ==> RecordsStep(w, Step(cfg, w, e).value)
  {
    ScheduledReady(w);
    hide Scheduled, Handle, RecordsStep;
    if Step(cfg, w, e).Some? {
      var v := Step(cfg, w, e).value;
      if w.regs.cia !in cfg.imports {
        SameRecords(w, v);
      } else {
        HandleRecords(cfg, w, e);
        IgnoreRegisters(w, Handle(cfg, w, cfg.imports[w.regs.cia], e).value, v);
      }
    }
  }

  // A sleeper over a run

  lemma {:induction false} TimeForward(cfg: Config, ws: seq<World>, es: seq<Event>, m: nat, n: nat)
    requires IsRun(cfg, ws, es) && m <= n <= |es|
    ensures ws[m].ticks <= ws[n].ticks && |ws[m].threads| <= |ws[n].threads|
    decreases n
  {
    hide Scheduled, Ready, Step;
    if m < n {
      TimeForward(cfg, ws, es, m, n - 1);
      RunKeepsScheduled(cfg, ws, es, n - 1);
      StepRecords(cfg, ws[n - 1], es[n - 1]);
    }
  }

  /** A timed sleeper sleeps on, or its deadline has come. */
  lemma {:induction false} AsleepUntil(cfg: Config, ws: seq<World>, es: seq<Event>, m: nat, n: nat, i: nat)
    requires IsRun(cfg, ws, es) && m <= n <= |es| && i < |ws[m].threads| && TimedSleeper(ws[m].threads[i])
    ensures i < |ws[n].threads| && ws[n].threads[i].address == ws[m].threads[i].address
    ensures ws[n].threads[i] == ws[m].threads[i] || ws[m].threads[i].wakeTick <= ws[n].ticks
    decreases n
  {
    hide Scheduled, Ready, Step;
    if m < n {
      AsleepUntil(cfg, ws, es, m, n - 1, i);
      RunKeepsScheduled(cfg, ws, es, n - 1);
      StepRecords(cfg, ws[n - 1], es[n - 1]);
      if ws[n - 1].threads[i] == ws[m].threads[i] { SleeperIsNotCurrent(ws[n - 1], i); }
    }
  }

  // The deadline of a sleep

  /** The clock value at which a sleep that starts now ends: the count later, saturating. */
  ghost function WakeTime(w: World): nat
    requires |w.regs.gpr| == 32 && SignedCount(w.regs) > 0
  {
    Min(TICKS_MAX, w.ticks + SignedCount(w.regs))
  }

  /** The record of a thread that went to sleep: asleep with that deadline, or awake again because it has come. */
  ghost predicate AsleepTill(v: World, i: nat, a: Word, d: nat) {
    && i < |v.threads| && v.threads[i].address == a
    && v.threads[i] == if v.ticks < d then Runtime(a, d, true, 0) else Runtime(a, 0, false, 0)
  }

  lemma SwitchAsleep(w: World, sleep: nat, resumeCia: Option<Word>)
    requires Scheduled(w)
    ensures Known(w.threads, w.objects)
    ensures var v := Switch(w, true, sleep, resumeCia, 0).0;
            v.current != w.current ==>
              AsleepTill(v, FindThread(w.threads, w.current), w.current, Deadline(w.ticks, sleep, 0))
  {
    RecordsKnown(w);
    PreparedAllSlept(w, true, sleep, 0);
    PreparedLoose(w, true, sleep, 0);
    var u := Prepare(w, true, sleep, 0).0;
    var i := FindThread(w.threads, w.current);
    SleptOwn(w, u, sleep, i);
    hide Scheduled, Prepare, Loose, Deadlines, AllSlept, ClockMoved, MarkCurrent, FindThread, Known;
    hide Deadline, AsleepTill;
    SwitchAfter(w, true, sleep, resumeCia, 0);
    if Switch(w, true, sleep, resumeCia, 0).0.current != w.current {
      AsleepSame(u, Switch(w, true, sleep, resumeCia, 0).0, i, w.current, Deadline(w.ticks, sleep, 0));
    }
  }

  /** When a switch hands over, records and clock are those it prepared. */
  lemma SwitchAfter(w: World, block: bool, sleep: nat, resumeCia: Option<Word>, queue: Word)
    requires Attached(w)
    ensures var u, v := Prepare(w, block, sleep, queue).0, Switch(w, block, sleep, resumeCia, queue).0;
            && v.ticks == u.ticks && (v.current != w.current ==> v.threads == u.threads)
  {
    hide Prepare, Known, FindThread;
  }

  lemma AsleepSame(u: World, v: World, i: nat, a: Word, d: nat)
    requires AsleepTill(u, i, a, d) && v.threads == u.threads && v.ticks == u.ticks
    ensures AsleepTill(v, i, a, d)
  {
  }

  lemma SleptOwn(w: World, u: World, sleep: nat, i: nat)
    requires Attached(w) && w.current in w.objects && i == FindThread(w.threads, w.current)
    requires AllSlept(MarkCurrent(w, true, sleep, 0), u) && Loose(u) && Deadlines(u)
    ensures AsleepTill(u, i, w.current, Deadline(w.ticks, sleep, 0))
  {
    var m := MarkCurrent(w, true, sleep, 0);
    assert Slept(m.threads[i], u.threads[i], u.ticks) && Future(u.threads[i], u.ticks);
    assert Agrees(u.threads[i], u.objects[u.threads[i].address]);
    hide Deadline;
  }

  /**
   * What OSSleepTicks does to a caller that loses control: its record sleeps until the clock plus the signed
   * 64-bit count in r3 and r4, saturating, unless the clock has moved there already; and the time-of-day
   * offset grows by the count.
   */
  lemma SleepDeadline(cfg: Config, ws: seq<World>, es: seq<Event>, m: nat)
    requires IsRun(cfg, ws, es) && m < |es| && Calls(cfg, ws[m], SleepCall)
    ensures |ws[m].regs.gpr| == 32
    ensures SignedCount(ws[m].regs) > 0 ==> ws[m + 1].sleepOffset ==
                                            Min(TICKS_MAX, ws[m].sleepOffset + SignedCount(ws[m].regs))
    ensures SignedCount(ws[m].regs) > 0 && ws[m + 1].current != ws[m].current ==>
              AsleepTill(ws[m + 1], FindThread(ws[m].threads, ws[m].current), ws[m].current, WakeTime(ws[m]))
  {
    hide *;
    RunLength(cfg, ws, es);
    var w, v := ws[m], ws[m + 1];
    RunKeepsScheduled(cfg, ws, es, m);
    RunStepIs(cfg, ws, es, m);
    ScheduledReady(w);
    ReadyGpr(w);
    SleepStepIs(cfg, w, es[m]);
    if SignedCount(w.regs) > 0 {
      SleepMeans(w.regs, w.ticks);
      var sleep := SleepLength(w.regs);
      var u := w.(sleepOffset := OffsetAfter(w.sleepOffset, sleep));
      OffsetMeans(w.sleepOffset, sleep);
      RegistersOnly(w, u);
      SwitchAsleep(u, sleep, Option<Word>.None);
      SwitchMovesContexts(u, true, sleep, Option<Word>.None, 0);
      WakeTimeIs(w);
      SameSleeper(w, u);
      if v.current != w.current {
        AsleepSame(Switch(u, true, sleep, Option<Word>.None, 0).0, v, FindThread(w.threads, w.current), w.current,
                   WakeTime(w));
      }
    }
  }

  lemma RunStepIs(cfg: Config, ws: seq<World>, es: seq<Event>, m: nat)
    requires IsRun(cfg, ws, es) && m < |es|
    ensures |ws| == |es| + 1 && Ready(ws[m]) && Step(cfg, ws[m], es[m]) == Option<World>.Some(ws[m + 1])
  {
    hide Scheduled, Ready, Step;
  }

  lemma SleepStepIs(cfg: Config, w: World, e: Event)
    requires Ready(w) && Calls(cfg, w, SleepCall) && Step(cfg, w, e).Some?
    ensures var sleep, v := SleepLength(w.regs), Step(cfg, w, e).value;
            var u := Switch(w.(sleepOffset := OffsetAfter(w.sleepOffset, sleep)), sleep > 0, sleep,
                            Option<Word>.None, 0).0;
            && v.threads == u.threads && v.ticks == u.ticks && v.current == u.current && v.sleepOffset == u.sleepOffset
            && v.objects == u.objects
  {
    hide Switch, SleepLength, OffsetAfter, Known;
  }

  lemma OffsetMeans(offset: nat, sleep: nat)
    requires sleep > 0
    ensures OffsetAfter(offset, sleep) == Min(TICKS_MAX, offset + sleep)
  {
  }

  lemma WakeTimeIs(w: World)
    requires |w.regs.gpr| == 32 && SignedCount(w.regs) > 0
    ensures WakeTime(w) == Deadline(w.ticks, SleepLength(w.regs), 0) && SleepLength(w.regs) == SignedCount(w.regs)
  {
    SleepMeans(w.regs, w.ticks);
    hide SignedCount, SleepLength, Deadline;
  }

  lemma SameSleeper(w: World, u: World)
    requires u.threads == w.threads && u.current == w.current && u.ticks == w.ticks
    ensures FindThread(u.threads, u.current) == FindThread(w.threads, w.current)
  {
  }

  /** A thread that lost control when it went to sleep has it again only at or after its deadline. */
  lemma SleepLasts(cfg: Config, ws: seq<World>, es: seq<Event>, m: nat, n: nat)
    requires IsRun(cfg, ws, es) && m < n <= |es| && Calls(cfg, ws[m], SleepCall)
    requires ws[m + 1].current != ws[m].current && ws[n].current == ws[m].current
    ensures |ws[m].regs.gpr| == 32
    ensures SignedCount(ws[m].regs) > 0 ==> WakeTime(ws[m]) <= ws[n].ticks
  {
    hide *;
    RunLength(cfg, ws, es);
    SleepDeadline(cfg, ws, es, m);
    if SignedCount(ws[m].regs) > 0 {
      var i, d := FindThread(ws[m].threads, ws[m].current), WakeTime(ws[m]);
      TimeForward(cfg, ws, es, m + 1, n);
      AsleepParts(ws[m + 1], i, ws[m].current, d);
      if ws[m + 1].ticks < d {
        AsleepUntil(cfg, ws, es, m + 1, n, i);
        RunKeepsScheduled(cfg, ws, es, n);
        CurrentAwake(ws[n], i);
      }
    }
  }

  lemma RunLength(cfg: Config, ws: seq<World>, es: seq<Event>)
    requires IsRun(cfg, ws, es)
    ensures |ws| == |es| + 1
  {
    hide Scheduled, Ready, Step;
  }

  lemma AsleepParts(v: World, i: nat, a: Word, d: nat)
    requires AsleepTill(v, i, a, d)
    ensures i < |v.threads| && v.threads[i].address == a
    ensures v.ticks < d ==> TimedSleeper(v.threads[i]) && v.threads[i].sleeping && v.threads[i].wakeTick == d
  {
  }

  // Going on at once

  /** Sleepers and the thread in control are threads that may be given control. */
  ghost predicate SleepersAllowed(w: World) {
    forall i :: 0 <= i < |w.threads| && (w.threads[i].sleeping || w.threads[i].address == w.current) ==>
      MayTakeOver(w, w.threads[i].address)
  }

  /** Every run can start that way. */
  lemma DefaultSleepersAllowed(a: Word, regs: Registers)
    requires a != 0 && ValidRegisters(regs)
    ensures SleepersAllowed(DefaultWorld(a, regs))
  {
  }

  lemma SleepersStep(cfg: Config, w: World, v: World)
    requires Known(w.threads, w.objects) && w.current in w.objects && SleepersAllowed(w) && RecordsStep(w, v)
    requires |w.regs.gpr| == 32 && DutiesStep(cfg, w, v) && HandsOver(w, v)
    ensures SleepersAllowed(v)
  {
    forall i | 0 <= i < |v.threads| && (v.threads[i].sleeping || v.threads[i].address == v.current)
      ensures MayTakeOver(v, v.threads[i].address)
    {
      var a := v.threads[i].address;
      if i >= |w.threads| {
        assert false;
      } else if a == v.current && v.current != w.current {
        assert MayTakeOver(w, a);
      } else {
        assert w.threads[i].address == a && MayTakeOver(w, a);
      }
    }
  }

  lemma {:induction false} RunSleepersAllowed(cfg: Config, ws: seq<World>, es: seq<Event>, n: nat)
    requires IsRun(cfg, ws, es) && n <= |es| && SleepersAllowed(ws[0])
    ensures SleepersAllowed(ws[n])
  {
    hide *;
    RunLength(cfg, ws, es);
    if n > 0 {
      RunSleepersAllowed(cfg, ws, es, n - 1);
      RunKeepsScheduled(cfg, ws, es, n - 1);
      RunStepIs(cfg, ws, es, n - 1);
      ReadyGpr(ws[n - 1]);
      ScheduledReady(ws[n - 1]);
      KnownRecords(ws[n - 1]);
      StepRecords(cfg, ws[n - 1], es[n - 1]);
      StepHandsOver(cfg, ws[n - 1], es[n - 1]);
      SleepersStep(cfg, ws[n - 1], ws[n]);
    }
  }

  /** Sleepers that were woken have their READY bit set. */
  ghost predicate WokenReady(w: World, v: World) {
    && |v.threads| == |w.threads| && Known(v.threads, v.objects)
    && forall i :: 0 <= i < |w.threads| ==>
         && v.threads[i].address == w.threads[i].address
         && (v.threads[i] == w.threads[i] ==>
               w.threads[i].address in w.objects &&
               v.objects[v.threads[i].address].state == w.objects[w.threads[i].address].state)
         && (v.threads[i] != w.threads[i] ==>
               w.threads[i].sleeping && v.objects[v.threads[i].address].state == READY)
  }

  lemma WakeWokenReady(w: World)
    requires Loose(w)
    ensures WokenReady(w, WakeDue(w))
  {
    var v := WakeDue(w);
    RecordsKnown(w);
    WakeDueKeeps(w);
    forall i | 0 <= i < |w.threads|
      ensures v.objects[w.threads[i].address] ==
              if Due(w.threads[i], w.ticks) then w.objects[w.threads[i].address].(state := READY)
              else w.objects[w.threads[i].address]
    {
      WokenObject(w, i);
    }
    hide Loose, WakeDueObjects;
  }

  lemma WokenChain(w: World, v: World, u: World)
    requires WokenReady(w, v) && WokenReady(v, u)
    requires forall i :: 0 <= i < |v.threads| && v.threads[i] != w.threads[i] ==> !v.threads[i].sleeping
    ensures WokenReady(w, u)
  {
  }

  lemma AdvanceWokenReady(w: World)
    requires Loose(w)
    ensures WokenReady(w, AdvanceClock(w))
  {
    hide Loose, WakeDue, NextWake;
    var later := w.(ticks := Max(w.ticks, NextWake(w.threads, |w.threads|)));
    ClockOnly(w, later.ticks);
    WakeWokenReady(later);
    LooseKnown(w);
    hide Known;
  }

  lemma WokenAreAwake(w: World)
    ensures forall i :: 0 <= i < |w.threads| && WakeDue(w).threads[i] != w.threads[i] ==>
              !WakeDue(w).threads[i].sleeping
  {
    hide WakeDueObjects;
  }

  /** From the marked state to the one in which a thread is picked. */
  lemma PreparedWokenReady(w: World, block: bool, sleep: nat, queue: Word)
    requires Scheduled(w)
    ensures Attached(w) && w.current in w.objects
    ensures WokenReady(MarkCurrent(w, block, sleep, queue), Prepare(w, block, sleep, queue).0)
  {
    MarkedLoose(w, block, sleep, queue);
    ScheduledCurrent(w);
    hide Scheduled, Loose, MarkCurrent, WakeDue, AdvanceClock, Select, WokenReady, Known, FindThread;
    var m := MarkCurrent(w, block, sleep, queue);
    WakeWokenReady(m);
    WakeDueLoose(m);
    WokenAreAwake(m);
    AdvanceWokenReady(WakeDue(m));
    WokenChainUp(m, WakeDue(m), AdvanceClock(WakeDue(m)));
  }

  lemma WokenChainUp(w: World, v: World, u: World)
    requires WokenReady(w, v) && WokenReady(v, u)
    requires forall i :: 0 <= i < |w.threads| && i < |v.threads| && v.threads[i] != w.threads[i] ==>
               !v.threads[i].sleeping
    ensures WokenReady(w, u)
  {
    WokenChain(w, v, u);
  }

  /**
   * A caller that is not switched out leaves no other sleeper whose deadline has come: that thread would
   * have been picked.
   */
  lemma NobodyWoken(w: World, sleep: nat, resumeCia: Option<Word>, i: nat)
    requires Scheduled(w) && SleepersAllowed(w) && i < |w.threads| && OtherSleeper(w, i)
    ensures Known(w.threads, w.objects)
    ensures var v := Switch(w, true, sleep, resumeCia, 0).0;
            v.current == w.current ==> v.ticks < w.threads[i].wakeTick
  {
    hide *;
    KnownRecords(w);
    ScheduledCurrent(w);
    PreparedLoose(w, true, sleep, 0);
    PreparedWokenReady(w, true, sleep, 0);
    PreparedAllSlept(w, true, sleep, 0);
    PreparedSelect(w, true, sleep, 0);
    PrepareDuties(w, true, sleep, 0);
    var (u, next) := Prepare(w, true, sleep, 0);
    LooseKnown(u);
    SwitchAfter(w, true, sleep, resumeCia, 0);
    SwitchPicks(w, sleep, resumeCia);
    OtherParts(w, sleep, i);
    SelectMeans(u, true, w.objects[w.current].priority);
    SelectIdle(u, w.objects[w.current].priority);
    if u.ticks >= w.threads[i].wakeTick {
      WokenCanRun(w, u, sleep, i);
      NotIdle(u, i);
    }
  }

  lemma SwitchPicks(w: World, sleep: nat, resumeCia: Option<Word>)
    requires Attached(w) && Scheduled(w)
    ensures var v, next := Switch(w, true, sleep, resumeCia, 0).0, Prepare(w, true, sleep, 0).1;
            next != 0 ==> v.current == next && next != w.current
  {
    PreparedTakesOver(w, true, sleep, 0);
    hide Prepare, Known, FindThread, Scheduled;
  }

  lemma OtherParts(w: World, sleep: nat, i: nat)
    requires Scheduled(w) && SleepersAllowed(w) && i < |w.threads| && OtherSleeper(w, i) && Attached(w)
    requires w.current in w.objects
    ensures TimedSleeper(w.threads[i]) && w.threads[i].address != w.current && MayTakeOver(w, w.threads[i].address)
    ensures var m := MarkCurrent(w, true, sleep, 0);
            i < |m.threads| && m.threads[i] == w.threads[i] && m.current == w.current
  {
    MarkedOther(w, true, sleep, 0, i);
    MarkedShape(w, true, sleep, 0);
    hide Scheduled, MarkCurrent, MayTakeOver, FindThread;
  }

  lemma WokenCanRun(w: World, u: World, sleep: nat, i: nat)
    requires i < |w.threads| && Attached(w) && w.current in w.objects && Known(u.threads, u.objects)
    requires TimedSleeper(w.threads[i]) && w.threads[i].address != w.current && MayTakeOver(w, w.threads[i].address)
    requires SameDuties(w, u) && u.current == w.current && Loose(u) && Deadlines(u)
    requires w.threads[i].wakeTick <= u.ticks
    requires var m := MarkCurrent(w, true, sleep, 0);
             i < |m.threads| && m.threads[i] == w.threads[i] && WokenReady(m, u) && AllSlept(m, u)
    ensures i < |u.threads| && Candidate(u, i)
  {
    var m := MarkCurrent(w, true, sleep, 0);
    assert Slept(m.threads[i], u.threads[i], u.ticks) && Future(u.threads[i], u.ticks);
    hide MarkCurrent, Loose, Known, FindThread;
  }

  lemma NotIdle(u: World, i: nat)
    requires Known(u.threads, u.objects) && i < |u.threads| && Candidate(u, i)
    ensures !Idle(u)
  {
    hide CanRun;
  }

  lemma SomebodyFirst(w: World)
    requires Known(w.threads, w.objects) && !Idle(w)
    ensures exists k: nat :: First(w, k)
  {
    BestReadyMeans(w.threads, w.objects, w.current, |w.threads|);
    hide BestReady, CanRun;
    var best := BestReady(w.threads, w.objects, w.current, |w.threads|);
    assert First(w, best);
  }

  lemma FirstIsOther(w: World, k: nat)
    requires Known(w.threads, w.objects) && First(w, k)
    ensures k < |w.threads| && w.threads[k].address != w.current
  {
    hide NoLater;
  }

  /** What the clock rule says of a sleep during which nobody else can run. */
  lemma SleepsAlone(cfg: Config, w: World, ticks: nat)
    requires Ready(w) && Calls(cfg, w, SleepCall) && SignedCount(w.regs) > 0 && Idle(w) && ClockStep(cfg, w, ticks)
    requires WakeTime(w) < TICKS_MAX
    ensures ticks == WakeTime(w) ||
            exists i :: 0 <= i < |w.threads| && OtherSleeper(w, i) && w.threads[i].wakeTick == ticks
  {
    hide SignedCount, Known, Idle;
    assert Pending(w, OwnDeadline(cfg, w), WakeTime(w));
  }

  lemma SleepWaits(cfg: Config, w: World)
    requires Ready(w) && Calls(cfg, w, SleepCall) && SignedCount(w.regs) > 0
    ensures Waits(cfg, w)
  {
    hide SignedCount, Known;
  }

  lemma AllowedSame(w: World, u: World)
    requires SleepersAllowed(w) && u.threads == w.threads && u.objects == w.objects && u.current == w.current
    ensures SleepersAllowed(u) && forall i :: 0 <= i < |w.threads| && OtherSleeper(w, i) ==> OtherSleeper(u, i)
  {
    hide MayTakeOver;
    forall i | 0 <= i < |u.threads| && (u.threads[i].sleeping || u.threads[i].address == u.current)
      ensures MayTakeOver(u, u.threads[i].address)
    {
      assert MayTakeOver(w, w.threads[i].address);
      MayTakeOverSame(w, u, w.threads[i].address);
    }
  }

  lemma MayTakeOverSame(w: World, u: World, a: Word)
    requires u.objects == w.objects && MayTakeOver(w, a)
    ensures MayTakeOver(u, a)
  {
  }

  /** A caller that sleeps and keeps control goes on at its deadline, or at once if that is the last clock value. */
  lemma SleepsOnAlone(cfg: Config, ws: seq<World>, es: seq<Event>, m: nat)
    requires IsRun(cfg, ws, es) && m < |es| && SleepersAllowed(ws[0]) && ws[0].ticks < TICKS_MAX
    requires Calls(cfg, ws[m], SleepCall) && ws[m + 1].current == ws[m].current
    ensures |ws[m].regs.gpr| == 32
    ensures SignedCount(ws[m].regs) > 0 ==>
              WakeTime(ws[m]) == ws[m + 1].ticks || WakeTime(ws[m]) == TICKS_MAX
  {
    hide *;
    RunLength(cfg, ws, es);
    var w, v := ws[m], ws[m + 1];
    RunKeepsScheduled(cfg, ws, es, m);
    RunStepIs(cfg, ws, es, m);
    ReadyGpr(w);
    KnownRecords(w);
    if SignedCount(w.regs) > 0 {
      RunSleepersAllowed(cfg, ws, es, m);
      RunClock(cfg, ws, es, m);
      SleepWaits(cfg, w);
      NobodyElse(cfg, w, es[m]);
      WakeTimeBound(w);
      if WakeTime(w) < TICKS_MAX {
        SleepsAlone(cfg, w, v.ticks);
        if v.ticks != WakeTime(w) {
          var i :| 0 <= i < |w.threads| && OtherSleeper(w, i) && w.threads[i].wakeTick == v.ticks;
          SleepMeans(w.regs, w.ticks);
          var u := w.(sleepOffset := OffsetAfter(w.sleepOffset, SleepLength(w.regs)));
          ReadyRegisters(w);
          RegistersOnly(w, u);
          AllowedSame(w, u);
          SleepStepIs(cfg, w, es[m]);
          NobodyWoken(u, SleepLength(w.regs), Option<Word>.None, i);
        }
      }
    }
  }

  lemma ReadyRegisters(w: World)
    requires Ready(w)
    ensures ValidRegisters(w.regs)
  {
    hide Known;
  }

  lemma WakeTimeBound(w: World)
    requires |w.regs.gpr| == 32 && SignedCount(w.regs) > 0
    ensures WakeTime(w) <= TICKS_MAX
  {
    hide SignedCount;
  }

  lemma NobodyElse(cfg: Config, w: World, e: Event)
    requires Scheduled(w) && Ready(w) && Waits(cfg, w) && Known(w.threads, w.objects)
    requires Step(cfg, w, e).Some? && Step(cfg, w, e).value.current == w.current
    ensures Idle(w)
  {
    hide *;
    if !Idle(w) {
      SomebodyFirst(w);
      var k: nat :| First(w, k);
      FirstIsOther(w, k);
      BlockTakesFirst(cfg, w, e, k);
    }
  }

  /**
   * The length of a sleep over any run from the default thread: a caller of OSSleepTicks with a positive count
   * has control again only when the clock has reached its value at the call plus the count, whether it lost
   * control or not. The one exception is a count that saturates: then the caller goes on at once if nobody
   * else can run.
   */
  lemma NoShortSleep(cfg: Config, ws: seq<World>, es: seq<Event>, m: nat, n: nat)
    requires IsRun(cfg, ws, es) && m < n <= |es| && SleepersAllowed(ws[0]) && ws[0].ticks < TICKS_MAX
    requires Calls(cfg, ws[m], SleepCall) && ws[n].current == ws[m].current
    ensures |ws[m].regs.gpr| == 32
    ensures var s := SignedCount(ws[m].regs);
            s > 0 ==> ws[m].ticks + s <= ws[n].ticks ||
                      (ws[m].ticks + s >= TICKS_MAX && ws[m + 1].current == ws[m].current)
  {
    hide *;
    RunLength(cfg, ws, es);
    TimeForward(cfg, ws, es, m + 1, n);
    SleepDeadline(cfg, ws, es, m);
    if SignedCount(ws[m].regs) > 0 {
      WakeTimeMeans(ws[m]);
      RunBounded(cfg, ws, es, n);
      if ws[m + 1].current == ws[m].current {
        SleepsOnAlone(cfg, ws, es, m);
      } else {
        SleepLasts(cfg, ws, es, m, n);
      }
    }
  }

  lemma WakeTimeMeans(w: World)
    requires |w.regs.gpr| == 32 && SignedCount(w.regs) > 0
    ensures WakeTime(w) == w.ticks + SignedCount(w.regs) || WakeTime(w) == TICKS_MAX <= w.ticks + SignedCount(w.regs)
  {
    hide SignedCount;
  }
}
