/** The clock over runs: it stands still, or moves to the earliest pending deadline. */
module ThreadTime {
  import opened Bits
  import opened GuestThreads
  import opened ThreadInvariants
  import opened ThreadCalls
  import opened ThreadClock
  import opened ThreadRuns

  ghost predicate Calls(cfg: Config, w: World, call: Call) {
    w.regs.cia in cfg.imports && cfg.imports[w.regs.cia] == call
  }

  /** The signed 64-bit count in r3 and r4. */
  ghost function SignedCount(r: Registers): int
    requires |r.gpr| == 32
  {
    var raw: int := (r.gpr[3] as int) * 0x1_0000_0000 + r.gpr[4];
    if r.gpr[3] >= 0x8000_0000 then raw - 0x1_0000_0000_0000_0000 else raw
  }

  /** The deadline that the next step asks for, if it is a sleep: the clock plus the count, saturating. */
  ghost function OwnDeadline(cfg: Config, w: World): Option<nat>
    requires ValidRegisters(w.regs)
  {
    if Calls(cfg, w, SleepCall) && SignedCount(w.regs) > 0
    then Some(Min(TICKS_MAX, w.ticks + SignedCount(w.regs))) else None
  }

  /** The length and the deadline the handler computes are these. */
  lemma SleepMeans(r: Registers, ticks: nat)
    requires |r.gpr| == 32
    ensures SleepLength(r) == if SignedCount(r) > 0 then SignedCount(r) else 0
    ensures Deadline(ticks, SleepLength(r), 0) == Min(TICKS_MAX, ticks + SleepLength(r))
  {
  }

  /** The next step blocks its caller: a sleep, or a blocking receive on an empty queue. */
  ghost predicate Waits(cfg: Config, w: World)
    requires ValidRegisters(w.regs)
  {
    || OwnDeadline(cfg, w).Some?
    || (&& Calls(cfg, w, ReceiveCall) && w.regs.gpr[5] % 2 == 1
        && w.regs.gpr[3] in w.queues && w.queues[w.regs.gpr[3]].messages == [])
  }

  /** A deadline pending at this step: another thread's, or the caller's own. */
  ghost predicate Pending(w: World, own: Option<nat>, d: nat) {
    || own == Option<nat>.Some(d)
    || exists i :: 0 <= i < |w.threads| && OtherSleeper(w, i) && w.threads[i].wakeTick == d
  }

  ghost predicate OtherSleeper(w: World, i: nat)
    requires i < |w.threads|
  {
    w.threads[i].address != w.current && w.threads[i].sleeping && w.threads[i].queue == 0
  }

  /** No other thread can run. */
  ghost predicate Idle(w: World)
    requires Known(w.threads, w.objects)
  {
    forall i :: 0 <= i < |w.threads| && CanRun(w.threads[i], w.objects[w.threads[i].address], w.current) ==>
      w.objects[w.threads[i].address].priority == WORD_MAX
  }

  ghost predicate Earliest(w: World, own: Option<nat>, ticks: nat) {
    Pending(w, own, ticks) && forall d: nat :: Pending(w, own, d) ==> ticks <= d
  }

  ghost predicate SomeFinite(w: World, own: Option<nat>) {
    exists d: nat :: d < TICKS_MAX && Pending(w, own, d)
  }

  /**
   * The clock across one step. It moves exactly when the step blocks, no other thread can run and a
   * finite deadline is pending, and then to the earliest of the pending deadlines.
   */
  ghost predicate ClockStep(cfg: Config, w: World, ticks: nat)
    requires Ready(w)
  {
    if Waits(cfg, w) && Idle(w) && SomeFinite(w, OwnDeadline(cfg, w))
    then Earliest(w, OwnDeadline(cfg, w), ticks) && w.ticks < ticks < TICKS_MAX
    else ticks == w.ticks
  }

  /** Marking a blocking caller makes nobody due. */
  lemma NothingDue(w: World, sleep: nat, queue: Word)
    requires Scheduled(w) && w.ticks < TICKS_MAX && (queue != 0 || sleep > 0)
    ensures Attached(w) && WakeDue(MarkCurrent(w, true, sleep, queue)) == MarkCurrent(w, true, sleep, queue)
  {
    MarkedLoose(w, true, sleep, queue);
    var m := MarkCurrent(w, true, sleep, queue);
    forall i | 0 <= i < |m.threads| ensures !Due(m.threads[i], m.ticks) {
      assert Future(w.threads[i], w.ticks);
    }
    Undisturbed(m);
  }

  lemma Undisturbed(m: World)
    requires forall i :: 0 <= i < |m.threads| ==> !Due(m.threads[i], m.ticks)
    ensures WakeDue(m) == m
  {
    assert WakeDueThreads(m.threads, m.ticks) == m.threads;
    assert WakeDueObjects(m.threads, m.objects, m.ticks, |m.threads|) == m.objects;
  }

  /** Marking changes no other record and no priority. */
  lemma MarkedRecord(w: World, sleep: nat, queue: Word, i: nat)
    requires Scheduled(w) && Attached(w) && i < |w.threads|
    ensures var m := MarkCurrent(w, true, sleep, queue);
            && |m.threads| == |w.threads| && m.threads[i].address == w.threads[i].address
            && m.threads[i].address in m.objects && w.threads[i].address in w.objects
            && (w.threads[i].address != w.current ==>
                  m.threads[i] == w.threads[i] && m.objects[w.threads[i].address] == w.objects[w.threads[i].address])
            && (w.threads[i].address == w.current ==>
                  m.threads[i] == Runtime(w.current, Deadline(w.ticks, sleep, queue), true, queue))
  {
    FindsUnique(w.threads, i);
    hide Agrees, Unique;
  }

  /** Marking changes for nobody whether they can run, nor in which order. */
  lemma SameRunnable(w: World, sleep: nat, queue: Word, i: nat)
    requires Scheduled(w) && Attached(w) && i < |w.threads|
    ensures var m, a := MarkCurrent(w, true, sleep, queue), w.threads[i].address;
            && |m.threads| == |w.threads| && m.threads[i].address == a && a in m.objects && a in w.objects
            && (CanRun(m.threads[i], m.objects[a], m.current) <==> CanRun(w.threads[i], w.objects[a], w.current))
            && (CanRun(w.threads[i], w.objects[a], w.current) ==> m.objects[a].priority == w.objects[a].priority)
  {
    MarkedRecord(w, sleep, queue, i);
    MarkedLoose(w, true, sleep, queue);
    MarkedShape(w, true, sleep, queue);
    hide Scheduled, Loose, MarkCurrent;
  }

  /** Somebody can be picked once the caller is marked exactly when another thread can run. */
  lemma IdleMeans(w: World, sleep: nat, queue: Word)
    requires Scheduled(w)
    ensures Attached(w)
    ensures var m := MarkCurrent(w, true, sleep, queue);
            Known(m.threads, m.objects) && m.current == w.current &&
            (Select(m, true, w.objects[w.current].priority) == 0 <==> Idle(w))
  {
    hide *;
    KnownRecords(w);
    MarkedLoose(w, true, sleep, queue);
    MarkedShape(w, true, sleep, queue);
    var m := MarkCurrent(w, true, sleep, queue);
    LooseKnown(m);
    MarkedLength(w, sleep, queue);
    forall i | 0 <= i < |w.threads| ensures Alike(w, m, i) { MarkedAlike(w, sleep, queue, i); }
    AlikeIdle(w, m);
    SelectIdle(m, w.objects[w.current].priority);
  }

  lemma KnownRecords(w: World)
    requires Scheduled(w)
    ensures Known(w.threads, w.objects) && w.current in w.objects
  {
  }

  lemma LooseKnown(m: World)
    requires Loose(m)
    ensures Known(m.threads, m.objects) && m.current in m.objects
    ensures forall i :: 0 <= i < |m.threads| ==> m.threads[i].address != 0
  {
  }

  lemma MarkedLength(w: World, sleep: nat, queue: Word)
    requires Attached(w) && w.current in w.objects
    ensures |MarkCurrent(w, true, sleep, queue).threads| == |w.threads|
  {
  }

  /** The same thread, as far as choosing it goes. */
  ghost predicate Alike(w: World, m: World, i: nat)
    requires i < |w.threads|
  {
    && i < |m.threads| && m.threads[i].address == w.threads[i].address
    && var a := w.threads[i].address;
    && a in m.objects && a in w.objects
    && (CanRun(m.threads[i], m.objects[a], m.current) <==> CanRun(w.threads[i], w.objects[a], w.current))
    && (CanRun(w.threads[i], w.objects[a], w.current) ==> m.objects[a].priority == w.objects[a].priority)
  }

  lemma MarkedAlike(w: World, sleep: nat, queue: Word, i: nat)
    requires Scheduled(w) && Attached(w) && w.current in w.objects && i < |w.threads|
    ensures Alike(w, MarkCurrent(w, true, sleep, queue), i)
  {
    SameRunnable(w, sleep, queue, i);
    hide Scheduled, Attached, MarkCurrent, CanRun;
  }

  lemma AlikeIdle(w: World, m: World)
    requires Known(w.threads, w.objects) && Known(m.threads, m.objects) && |m.threads| == |w.threads|
    requires forall i :: 0 <= i < |w.threads| ==> Alike(w, m, i)
    ensures Idle(m) <==> Idle(w)
  {
    hide CanRun;
    forall i | 0 <= i < |w.threads|
      ensures var a := m.threads[i].address;
              && a == w.threads[i].address
              && (CanRun(m.threads[i], m.objects[a], m.current) <==> CanRun(w.threads[i], w.objects[a], w.current))
              && (CanRun(w.threads[i], w.objects[a], w.current) ==> m.objects[a].priority == w.objects[a].priority)
    {
      assert Alike(w, m, i);
    }
  }

  lemma SelectIdle(m: World, priority: Word)
    requires Known(m.threads, m.objects) && forall i :: 0 <= i < |m.threads| ==> m.threads[i].address != 0
    ensures Select(m, true, priority) == 0 <==> Idle(m)
  {
    BestReadyMeans(m.threads, m.objects, m.current, |m.threads|);
    hide CanRun, BestReady, NoLater;
  }

  /** The timed sleepers once the caller is marked are the other sleepers, and the caller if it sleeps. */
  lemma MarkedSleepers(w: World, sleep: nat, queue: Word, own: Option<nat>)
    requires Scheduled(w)
    requires own == if queue == 0 then Option<nat>.Some(Deadline(w.ticks, sleep, queue)) else Option<nat>.None
    ensures Attached(w)
    ensures var m := MarkCurrent(w, true, sleep, queue);
            forall d: nat :: Pending(w, own, d) <==> SomeTimed(m, d)
  {
    hide *;
    KnownRecords(w);
    MarkedLoose(w, true, sleep, queue);
    var m, c := MarkCurrent(w, true, sleep, queue), FindThread(w.threads, w.current);
    CurrentFound(w);
    MarkedLength(w, sleep, queue);
    forall i | 0 <= i < |w.threads|
      ensures forall d: nat :: TimedAt(m, i, d) <==>
                if i == c then own == Option<nat>.Some(d) else OtherSleeper(w, i) && w.threads[i].wakeTick == d
    {
      MarkedTimed(w, sleep, queue, own, i);
    }
    TimedPending(w, m, own, c);
  }

  lemma CurrentFound(w: World)
    requires Attached(w)
    ensures FindThread(w.threads, w.current) < |w.threads|
    ensures w.threads[FindThread(w.threads, w.current)].address == w.current
  {
  }

  lemma MarkedTimed(w: World, sleep: nat, queue: Word, own: Option<nat>, i: nat)
    requires Scheduled(w) && Attached(w) && i < |w.threads|
    requires own == if queue == 0 then Option<nat>.Some(Deadline(w.ticks, sleep, queue)) else Option<nat>.None
    ensures w.current in w.objects && i < |MarkCurrent(w, true, sleep, queue).threads|
    ensures forall d: nat :: TimedAt(MarkCurrent(w, true, sleep, queue), i, d) <==>
              if i == FindThread(w.threads, w.current) then own == Option<nat>.Some(d)
              else OtherSleeper(w, i) && w.threads[i].wakeTick == d
  {
    MarkedRecord(w, sleep, queue, i);
    FindsUnique(w.threads, i);
    hide MarkCurrent, Unique, Agrees, Deadlines, FindThread, Known;
  }

  lemma TimedPending(w: World, m: World, own: Option<nat>, c: nat)
    requires |m.threads| == |w.threads| && c < |w.threads| && w.threads[c].address == w.current
    requires forall i :: 0 <= i < |w.threads| ==>
               forall d: nat :: TimedAt(m, i, d) <==>
                 if i == c then own == Option<nat>.Some(d) else OtherSleeper(w, i) && w.threads[i].wakeTick == d
    ensures forall d: nat :: Pending(w, own, d) <==> SomeTimed(m, d)
  {
    hide TimedAt;
    forall d: nat ensures Pending(w, own, d) <==> SomeTimed(m, d) {
      if own == Option<nat>.Some(d) {
        assert TimedAt(m, c, d);
      } else if Pending(w, own, d) {
        var i :| 0 <= i < |w.threads| && OtherSleeper(w, i) && w.threads[i].wakeTick == d;
        assert TimedAt(m, i, d);
      }
      if SomeTimed(m, d) {
        var i :| 0 <= i < |m.threads| && TimedAt(m, i, d);
        assert i == c || (OtherSleeper(w, i) && w.threads[i].wakeTick == d);
      }
    }
  }

  ghost predicate TimedAt(m: World, i: nat, d: nat)
    requires i < |m.threads|
  {
    m.threads[i].sleeping && m.threads[i].queue == 0 && m.threads[i].wakeTick == d
  }

  ghost predicate SomeTimed(m: World, d: nat) {
    exists i :: 0 <= i < |m.threads| && TimedAt(m, i, d)
  }

  /** The deadlines of the marked state, one by one. */
  lemma TimedMeans(m: World, ticks: nat)
    ensures HasDeadline(m) <==> exists d: nat :: d < TICKS_MAX && SomeTimed(m, d)
    ensures MovedToEarliest(m, ticks) <==> SomeTimed(m, ticks) && forall d: nat :: SomeTimed(m, d) ==> ticks <= d
  {
    forall i | 0 <= i < |m.threads| && m.threads[i].sleeping && m.threads[i].queue == 0
      ensures SomeTimed(m, m.threads[i].wakeTick)
    {
      assert TimedAt(m, i, m.threads[i].wakeTick);
    }
  }

  lemma EarliestTimed(m: World, w: World, own: Option<nat>, ticks: nat)
    requires forall d: nat :: Pending(w, own, d) <==> SomeTimed(m, d)
    ensures HasDeadline(m) <==> SomeFinite(w, own)
    ensures MovedToEarliest(m, ticks) <==> Earliest(w, own, ticks)
  {
    TimedMeans(m, ticks);
    hide Pending, SomeTimed, HasDeadline, MovedToEarliest;
    if SomeFinite(w, own) {
      var d: nat :| d < TICKS_MAX && Pending(w, own, d);
      assert SomeTimed(m, d);
    }
    if exists d: nat :: d < TICKS_MAX && SomeTimed(m, d) {
      var d: nat :| d < TICKS_MAX && SomeTimed(m, d);
      assert Pending(w, own, d);
    }
    if Earliest(w, own, ticks) {
      forall d: nat | SomeTimed(m, d) ensures ticks <= d {
        assert Pending(w, own, d);
      }
    }
  }

  /** A blocking switch, in terms of the state before it. */
  lemma SwitchClock(w: World, sleep: nat, resumeCia: Option<Word>, queue: Word, own: Option<nat>)
    requires Scheduled(w) && w.ticks < TICKS_MAX && (queue != 0 || sleep > 0)
    requires own == if queue == 0 then Option<nat>.Some(Deadline(w.ticks, sleep, queue)) else Option<nat>.None
    ensures Known(w.threads, w.objects)
    ensures var ticks := Switch(w, true, sleep, resumeCia, queue).0.ticks;
            if Idle(w) && SomeFinite(w, own) then Earliest(w, own, ticks) && w.ticks < ticks < TICKS_MAX
            else ticks == w.ticks
  {
    RecordsKnown(w);
    var ticks := Switch(w, true, sleep, resumeCia, queue).0.ticks;
    SwitchRespectsDeadlines(w, true, sleep, resumeCia, queue);
    NothingDue(w, sleep, queue);
    IdleMeans(w, sleep, queue);
    MarkedSleepers(w, sleep, queue, own);
    EarliestTimed(MarkCurrent(w, true, sleep, queue), w, own, ticks);
    hide Scheduled, MarkCurrent, WakeDue, Select, HasDeadline, MovedToEarliest, Idle, Pending, Switch;
  }

  /** A switch that only yields leaves the clock alone. */
  lemma YieldClock(w: World, sleep: nat, resumeCia: Option<Word>, queue: Word)
    requires Scheduled(w)
    ensures Known(w.threads, w.objects) && Switch(w, false, sleep, resumeCia, queue).0.ticks == w.ticks
  {
    SwitchRespectsDeadlines(w, false, sleep, resumeCia, queue);
    hide Scheduled, MarkCurrent, WakeDue, Select, Switch;
  }

  lemma SleepClock(cfg: Config, w: World)
    requires Scheduled(w) && w.ticks < TICKS_MAX && Calls(cfg, w, SleepCall)
    ensures Ready(w) && Sleep(w).Some? && ClockStep(cfg, w, Sleep(w).value.ticks)
  {
    ScheduledReady(w);
    SleepMeans(w.regs, w.ticks);
    var sleep := SleepLength(w.regs);
    var v := w.(sleepOffset := OffsetAfter(w.sleepOffset, sleep));
    RegistersOnly(w, v);
    var ticks := Switch(v, sleep > 0, sleep, Option<Word>.None, 0).0.ticks;
    assert Sleep(w).value.ticks == ticks;
    SamePending(w, v, OwnDeadline(cfg, w), ticks);
    hide Scheduled, Switch, CanRun, Idle, SomeFinite, Earliest, Known, ValidRegisters, SleepLength;
    if sleep > 0 {
      SwitchClock(v, sleep, Option<Word>.None, 0, OwnDeadline(cfg, w));
    } else {
      YieldClock(v, sleep, Option<Word>.None, 0);
    }
  }

  lemma SamePending(w: World, v: World, own: Option<nat>, ticks: nat)
    requires v.threads == w.threads && v.objects == w.objects && v.current == w.current
    requires Known(w.threads, w.objects)
    ensures Idle(v) == Idle(w) && SomeFinite(v, own) == SomeFinite(w, own)
    ensures Earliest(v, own, ticks) == Earliest(w, own, ticks)
  {
    assert forall d: nat :: Pending(v, own, d) == Pending(w, own, d);
    hide Pending, CanRun;
  }

  lemma ReceiveClock(cfg: Config, w: World)
    requires Scheduled(w) && w.ticks < TICKS_MAX && Calls(cfg, w, ReceiveCall)
    ensures Ready(w)
    ensures Receive(w).Some? ==> ClockStep(cfg, w, Receive(w).value.ticks)
  {
    ScheduledReady(w);
    hide Scheduled, Switch, CanRun, Idle, SomeFinite, Earliest, Receive, ClockStep, Ready;
    if BlocksAtReceive(w) {
      SwitchClock(w, TICKS_MAX, Option<Word>.Some(w.regs.cia), w.regs.gpr[3], Option<nat>.None);
      BlockedClock(cfg, w);
    } else {
      OpenClock(cfg, w);
    }
  }

  ghost predicate BlocksAtReceive(w: World)
    requires |w.regs.gpr| == 32
  {
    var queue := w.regs.gpr[3];
    queue != 0 && queue in w.queues && w.queues[queue].messages == [] && w.regs.gpr[5] % 2 == 1
  }

  lemma BlockedClock(cfg: Config, w: World)
    requires Ready(w) && Calls(cfg, w, ReceiveCall) && BlocksAtReceive(w)
    requires var ticks := Switch(w, true, TICKS_MAX, Option<Word>.Some(w.regs.cia), w.regs.gpr[3]).0.ticks;
             if Idle(w) && SomeFinite(w, Option<nat>.None)
             then Earliest(w, Option<nat>.None, ticks) && w.ticks < ticks < TICKS_MAX
             else ticks == w.ticks
    ensures Receive(w).Some? ==> ClockStep(cfg, w, Receive(w).value.ticks)
  {
    hide Switch, Idle, SomeFinite, Earliest;
  }

  lemma OpenClock(cfg: Config, w: World)
    requires Ready(w) && Calls(cfg, w, ReceiveCall) && !BlocksAtReceive(w)
    ensures Receive(w).Some? ==> ClockStep(cfg, w, Receive(w).value.ticks)
  {
    hide Switch, Idle, SomeFinite, Earliest, Known;
  }


  /** Calls that do not wait leave the clock alone. */
  lemma QuietClock(cfg: Config, w: World, e: Event)
    requires Scheduled(w) && w.regs.cia in cfg.imports && e.Dispatch?
    requires !Calls(cfg, w, SleepCall) && !Calls(cfg, w, ReceiveCall)
    ensures Ready(w)
    ensures var h := Handle(cfg, w, cfg.imports[w.regs.cia], e); h.Some? ==> h.value.ticks == w.ticks
  {
    hide *;
    ScheduledReady(w);
    NotWaiting(cfg, w);
    HandleCases(cfg, w, cfg.imports[w.regs.cia], e);
    YieldTicks(w);
    SendTicks(w, e.message);
    RecordTicks(cfg, w);
  }

  lemma NotWaiting(cfg: Config, w: World)
    requires w.regs.cia in cfg.imports && !Calls(cfg, w, SleepCall) && !Calls(cfg, w, ReceiveCall)
    ensures !cfg.imports[w.regs.cia].SleepCall? && !cfg.imports[w.regs.cia].ReceiveCall?
  {
  }

  lemma HandleCases(cfg: Config, w: World, call: Call, e: Event)
    requires Ready(w) && e.Dispatch? && !call.SleepCall? && !call.ReceiveCall?
    ensures var h := Handle(cfg, w, call, e);
            || h == Send(w, e.message) || h == Yield(w) || h == Create(w, cfg) || h == ResumeThread(w)
            || h == InitQueue(w) || h.None? || h.value.ticks == w.ticks
  {
    hide Ready, Send, Yield, Create, ResumeThread, InitQueue, ValidRegisters;
  }

  lemma YieldTicks(w: World)
    requires Scheduled(w)
    ensures Ready(w) && Yield(w).Some? && Yield(w).value.ticks == w.ticks
  {
    ScheduledReady(w);
    YieldClock(w, 0, Option<Word>.None, 0);
    hide Scheduled, Switch, Ready;
  }

  lemma SendTicks(w: World, m: Message)
    requires Ready(w)
    ensures Send(w, m).Some? ==> Send(w, m).value.ticks == w.ticks
  {
    hide BestWaiter, Pushed;
  }

  lemma RecordTicks(cfg: Config, w: World)
    requires Ready(w)
    ensures Create(w, cfg).Some? ==> Create(w, cfg).value.ticks == w.ticks
    ensures ResumeThread(w).Some? ==> ResumeThread(w).value.ticks == w.ticks
    ensures InitQueue(w).Some? ==> InitQueue(w).value.ticks == w.ticks
  {
    hide InitialContext, CreateAccepted, Returning;
  }

  lemma StillClock(cfg: Config, w: World)
    requires Ready(w) && !Waits(cfg, w)
    ensures ClockStep(cfg, w, w.ticks)
  {
  }

  lemma HandleClock(cfg: Config, w: World, e: Event)
    requires Scheduled(w) && w.ticks < TICKS_MAX && w.regs.cia in cfg.imports && e.Dispatch?
    ensures Ready(w)
    ensures var h := Handle(cfg, w, cfg.imports[w.regs.cia], e); h.Some? ==> ClockStep(cfg, w, h.value.ticks)
  {
    ScheduledReady(w);
    if Calls(cfg, w, SleepCall) {
      SleepClock(cfg, w);
    } else if Calls(cfg, w, ReceiveCall) {
      ReceiveClock(cfg, w);
    } else {
      QuietClock(cfg, w, e);
      StillClock(cfg, w);
    }
    hide Scheduled, Send, Receive, Sleep, Yield, Create, ResumeThread, InitQueue, ClockStep;
  }

  /** Every step moves the clock as `ClockStep` says. */
  lemma StepClock(cfg: Config, w: World, e: Event)
    requires Scheduled(w) && w.ticks < TICKS_MAX
    ensures Ready(w)
    ensures Step(cfg, w, e).Some? ==>
              ClockStep(cfg, w, Step(cfg, w, e).value.ticks) && Step(cfg, w, e).value.ticks < TICKS_MAX
  {
    ScheduledReady(w);
    if w.regs.cia in cfg.imports {
      if e.Dispatch? { HandleClock(cfg, w, e); }
    } else {
      StillClock(cfg, w);
    }
    hide Scheduled, Handle, Idle, Earliest, SomeFinite, Waits;
  }

  lemma {:induction false} RunBounded(cfg: Config, ws: seq<World>, es: seq<Event>, n: nat)
    requires IsRun(cfg, ws, es) && n <= |es| && ws[0].ticks < TICKS_MAX
    ensures ws[n].ticks < TICKS_MAX
  {
    hide Scheduled, Step, ClockStep, Ready;
    if n > 0 {
      RunBounded(cfg, ws, es, n - 1);
      RunKeepsScheduled(cfg, ws, es, n - 1);
      StepClock(cfg, ws[n - 1], es[n - 1]);
    }
  }

  /**
   * The clock over runs: in every step it stands still, or it moves to the earliest deadline pending at
   * that step, and exactly when the step blocks and no other thread can run.
   */
  lemma RunClock(cfg: Config, ws: seq<World>, es: seq<Event>, n: nat)
    requires IsRun(cfg, ws, es) && n < |es| && ws[0].ticks < TICKS_MAX
    ensures Ready(ws[n]) && ClockStep(cfg, ws[n], ws[n + 1].ticks)
    ensures ws[n].ticks <= ws[n + 1].ticks < TICKS_MAX
  {
    hide Scheduled, Step, ClockStep, Ready;
    RunBounded(cfg, ws, es, n);
    RunKeepsScheduled(cfg, ws, es, n);
    StepClock(cfg, ws[n], es[n]);
    ClockForward(cfg, ws[n], ws[n + 1].ticks);
  }

  lemma ClockForward(cfg: Config, w: World, ticks: nat)
    requires Ready(w) && ClockStep(cfg, w, ticks)
    ensures w.ticks <= ticks
  {
  }
}
