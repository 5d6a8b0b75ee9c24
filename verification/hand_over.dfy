/** Which thread gets control: never a suspended one, and the first one that can run. */
module HandOver {
  import opened Bits
  import opened GuestThreads
  import opened ThreadInvariants
  import opened ThreadCalls
  import opened ThreadRuns
  import opened ThreadTime

  // What no scheduling decision changes

  /** The suspend count, the affinity and the priority of every thread stay. */
  ghost predicate SameDuties(w: World, v: World) {
    && v.objects.Keys == w.objects.Keys
    && forall a :: a in w.objects ==>
         && v.objects[a].suspend == w.objects[a].suspend && v.objects[a].affinity == w.objects[a].affinity
         && v.objects[a].priority == w.objects[a].priority
  }

  lemma MarkDuties(w: World, block: bool, sleep: nat, queue: Word)
    requires Attached(w) && w.current in w.objects
    ensures SameDuties(w, MarkCurrent(w, block, sleep, queue))
  {
  }

  lemma WakeDuties(w: World)
    ensures SameDuties(w, WakeDue(w))
  {
    WakeKeepsKeys(w);
    hide WakeDueThreads, DueAt;
  }

  lemma AdvanceDuties(w: World)
    ensures SameDuties(w, AdvanceClock(w))
  {
    WakeDuties(w.(ticks := Max(w.ticks, NextWake(w.threads, |w.threads|))));
    hide WakeDue, NextWake;
  }

  lemma DutiesChain(w: World, v: World, u: World)
    requires SameDuties(w, v) && SameDuties(v, u)
    ensures SameDuties(w, u)
  {
  }

  lemma PrepareDuties(w: World, block: bool, sleep: nat, queue: Word)
    requires Scheduled(w)
    ensures Attached(w) && SameDuties(w, Prepare(w, block, sleep, queue).0)
  {
    MarkedLoose(w, block, sleep, queue);
    ScheduledCurrent(w);
    hide Scheduled, MarkCurrent, WakeDue, AdvanceClock, Select, SameDuties, Known, FindThread;
    var m := MarkCurrent(w, block, sleep, queue);
    MarkDuties(w, block, sleep, queue);
    WakeDuties(m);
    AdvanceDuties(WakeDue(m));
    DutiesChain(w, m, WakeDue(m));
    DutiesChain(w, WakeDue(m), AdvanceClock(WakeDue(m)));
  }

  lemma SwitchDuties(w: World, block: bool, sleep: nat, resumeCia: Option<Word>, queue: Word)
    requires Scheduled(w)
    ensures Known(w.threads, w.objects) && SameDuties(w, Switch(w, block, sleep, resumeCia, queue).0)
  {
    RecordsKnown(w);
    PrepareDuties(w, block, sleep, queue);
    PreparedLoose(w, block, sleep, queue);
    var (v, next) := Prepare(w, block, sleep, queue);
    LooseCurrent(v);
    hide Scheduled, Prepare, Loose, Known, FindThread, SameDuties, Resume, Exchange;
    var cia := if resumeCia.Some? then resumeCia.value else w.regs.lr;
    if next == 0 {
      ResumeDuties(v);
      DutiesChain(w, v, Resume(v));
    } else {
      ExchangeDuties(v, next, cia);
      DutiesChain(w, v, Exchange(v, next, cia));
    }
  }

  lemma ResumeDuties(v: World)
    requires v.current in v.objects && FindThread(v.threads, v.current) < |v.threads|
    ensures SameDuties(v, Resume(v))
  {
    hide FindThread;
  }

  lemma ExchangeDuties(v: World, next: Word, cia: Word)
    requires v.current in v.objects && next in v.objects
    ensures SameDuties(v, Exchange(v, next, cia))
  {
  }

  // Who takes over

  /** The thread of record i can be given control; priority number 2^32 - 1 is never picked. */
  ghost predicate Candidate(w: World, i: nat)
    requires i < |w.threads| && Known(w.threads, w.objects)
  {
    var o := w.objects[w.threads[i].address];
    CanRun(w.threads[i], o, w.current) && o.priority < WORD_MAX
  }

  /** The candidate with the smallest priority number, and of those the leftmost. */
  ghost predicate First(w: World, k: nat)
    requires Known(w.threads, w.objects)
  {
    && k < |w.threads| && Candidate(w, k)
    && forall i :: 0 <= i < |w.threads| && Candidate(w, i) ==> NoLater(w.threads, w.objects, k, i)
  }

  /** A thread that a switch may give control to. */
  ghost predicate MayTakeOver(w: World, a: Word) {
    && a in w.objects && w.objects[a].suspend == 0 && w.objects[a].priority < WORD_MAX
    && (w.objects[a].affinity == 0 || w.objects[a].affinity % 4 >= 2)
  }

  lemma SelectMeans(w: World, block: bool, priority: Word)
    requires Known(w.threads, w.objects) && forall i :: 0 <= i < |w.threads| ==> w.threads[i].address != 0
    ensures forall k: nat :: First(w, k) && (block || w.objects[w.threads[k].address].priority <= priority) ==>
              Select(w, block, priority) == w.threads[k].address
    ensures Select(w, block, priority) != 0 ==>
              exists k: nat :: First(w, k) && Select(w, block, priority) == w.threads[k].address &&
                               (block || w.objects[w.threads[k].address].priority <= priority)
  {
    BestReadyMeans(w.threads, w.objects, w.current, |w.threads|);
    hide BestReady, CanRun;
    var best := BestReady(w.threads, w.objects, w.current, |w.threads|);
    if best >= 0 { assert First(w, best); }
    forall k: nat | First(w, k) ensures best == k {
      assert Candidate(w, k);
    }
  }

  lemma FirstMayTakeOver(w: World, k: nat)
    requires Known(w.threads, w.objects) && First(w, k)
    ensures MayTakeOver(w, w.threads[k].address) && w.threads[k].address != w.current
  {
    hide NoLater;
  }

  lemma MayTakeOverBefore(w: World, v: World, a: Word)
    requires SameDuties(w, v) && MayTakeOver(v, a)
    ensures MayTakeOver(w, a) && w.objects[a].priority == v.objects[a].priority
  {
  }

  lemma PreparedTakesOver(w: World, block: bool, sleep: nat, queue: Word)
    requires Scheduled(w)
    ensures Attached(w) && w.current in w.objects
    ensures var next := Prepare(w, block, sleep, queue).1;
            next != 0 ==>
              && MayTakeOver(w, next) && next != w.current
              && (block || w.objects[next].priority <= w.objects[w.current].priority)
  {
    ScheduledCurrent(w);
    PreparedLoose(w, block, sleep, queue);
    PrepareDuties(w, block, sleep, queue);
    var (v, next) := Prepare(w, block, sleep, queue);
    PreparedSelect(w, block, sleep, queue);
    LooseKnown(v);
    hide *;
    if next != 0 {
      SelectMeans(v, block, w.objects[w.current].priority);
      var k: nat :| First(v, k) && next == v.threads[k].address &&
                    (block || v.objects[v.threads[k].address].priority <= w.objects[w.current].priority);
      FirstMayTakeOver(v, k);
      MayTakeOverBefore(w, v, next);
    }
  }

  /** The prepared state and the pick belong together. */
  lemma PreparedSelect(w: World, block: bool, sleep: nat, queue: Word)
    requires Attached(w) && w.current in w.objects
    ensures var (v, next) := Prepare(w, block, sleep, queue);
            Known(v.threads, v.objects) && next == Select(v, block, w.objects[w.current].priority)
  {
    hide MarkCurrent, Select, WakeDue, AdvanceClock, FindThread;
  }

  /**
   * Whoever gets control is not suspended and allowed on the core; a caller that does not block hands over
   * only to a thread whose priority number is at most its own.
   */
  lemma SwitchHandsOver(w: World, block: bool, sleep: nat, resumeCia: Option<Word>, queue: Word)
    requires Scheduled(w)
    ensures Known(w.threads, w.objects) && w.current in w.objects
    ensures var v := Switch(w, block, sleep, resumeCia, queue).0;
            v.current != w.current ==>
              && MayTakeOver(w, v.current)
              && (block || w.objects[v.current].priority <= w.objects[w.current].priority)
  {
    RecordsKnown(w);
    PreparedTakesOver(w, block, sleep, queue);
    hide Scheduled, Prepare, Known, MayTakeOver, FindThread;
  }

  // The first candidate takes over

  /** Marking and waking leave every other thread as it was. */
  lemma MarkedSame(w: World, block: bool, sleep: nat, queue: Word, i: nat)
    requires Scheduled(w) && Attached(w) && w.current in w.objects && i < |w.threads|
    requires w.threads[i].address != w.current
    ensures var m := WakeDue(MarkCurrent(w, block, sleep, queue));
            var a := w.threads[i].address;
            && i < |m.threads| && m.threads[i] == w.threads[i] && a in m.objects && a in w.objects
            && m.objects[a] == w.objects[a]
  {
    MarkedOther(w, block, sleep, queue, i);
    MarkedLoose(w, block, sleep, queue);
    var m := MarkCurrent(w, block, sleep, queue);
    WokenObject(m, i);
    WakeKeepsKeys(m);
    assert Future(w.threads[i], w.ticks);
    hide MarkCurrent, Agrees, Unique, WakeDueObjects, Known, FindThread;
  }

  lemma MarkedOther(w: World, block: bool, sleep: nat, queue: Word, i: nat)
    requires Scheduled(w) && Attached(w) && w.current in w.objects && i < |w.threads|
    requires w.threads[i].address != w.current
    ensures var m := MarkCurrent(w, block, sleep, queue);
            var a := w.threads[i].address;
            && i < |m.threads| && m.threads[i] == w.threads[i] && a in m.objects && a in w.objects
            && m.objects[a] == w.objects[a] && m.ticks == w.ticks
  {
    hide Agrees;
  }

  lemma MarkedAddresses(w: World, block: bool, sleep: nat, queue: Word)
    requires Scheduled(w) && Attached(w) && w.current in w.objects
    ensures var m := WakeDue(MarkCurrent(w, block, sleep, queue));
            && |m.threads| == |w.threads| && m.current == w.current
            && forall i :: 0 <= i < |w.threads| ==> m.threads[i].address == w.threads[i].address
  {
    hide Agrees, Future;
    var m := MarkCurrent(w, block, sleep, queue);
    MarkCurrentAttached(w, block, sleep, queue);
    WakeDueKeeps(m);
    hide WakeDue;
  }

  /** So they leave the candidates and their order as they were. */
  lemma MarkedFirst(w: World, block: bool, sleep: nat, queue: Word, k: nat)
    requires Scheduled(w) && Attached(w) && w.current in w.objects
    ensures var m := WakeDue(MarkCurrent(w, block, sleep, queue));
            Known(m.threads, m.objects) && (First(m, k) <==> First(w, k))
  {
    var m := WakeDue(MarkCurrent(w, block, sleep, queue));
    MarkCurrentAttached(w, block, sleep, queue);
    WakeDueKeeps(MarkCurrent(w, block, sleep, queue));
    MarkedAddresses(w, block, sleep, queue);
    forall i | 0 <= i < |w.threads| && w.threads[i].address != w.current
      ensures m.threads[i] == w.threads[i] && m.threads[i].address in m.objects
      ensures m.objects[m.threads[i].address] == w.objects[m.threads[i].address]
    {
      MarkedSame(w, block, sleep, queue, i);
    }
    hide Scheduled, MarkCurrent, WakeDue, Attached;
    FirstSame(w, m, k);
  }

  lemma FirstSame(w: World, m: World, k: nat)
    requires Known(w.threads, w.objects) && Known(m.threads, m.objects)
    requires |m.threads| == |w.threads| && m.current == w.current
    requires forall i :: 0 <= i < |w.threads| ==> m.threads[i].address == w.threads[i].address
    requires forall i :: 0 <= i < |w.threads| && w.threads[i].address != w.current ==>
               m.threads[i] == w.threads[i] && m.objects[m.threads[i].address] == w.objects[m.threads[i].address]
    ensures First(m, k) <==> First(w, k)
  {
    hide Allowed;
    forall i | 0 <= i < |w.threads| ensures Candidate(m, i) <==> Candidate(w, i) {
    }
  }

  /** If the first candidate is acceptable to the caller, it takes over. */
  lemma FirstTakesOver(w: World, block: bool, sleep: nat, resumeCia: Option<Word>, queue: Word, k: nat)
    requires Scheduled(w) && Known(w.threads, w.objects) && w.current in w.objects && First(w, k)
    requires block || w.objects[w.threads[k].address].priority <= w.objects[w.current].priority
    ensures Switch(w, block, sleep, resumeCia, queue).0.current == w.threads[k].address
  {
    PreparedLoose(w, block, sleep, queue);
    hide *;
    MarkedFirst(w, block, sleep, queue, k);
    MarkedAddresses(w, block, sleep, queue);
    MarkedLoose(w, block, sleep, queue);
    var m := WakeDue(MarkCurrent(w, block, sleep, queue));
    WakeDueLoose(MarkCurrent(w, block, sleep, queue));
    LooseKnown(m);
    WakeDuties(MarkCurrent(w, block, sleep, queue));
    MarkDuties(w, block, sleep, queue);
    DutiesChain(w, MarkCurrent(w, block, sleep, queue), m);
    SamePriority(w, m, w.threads[k].address);
    FirstIndex(w, k);
    SelectMeans(m, block, w.objects[w.current].priority);
    SwitchTo(w, block, sleep, resumeCia, queue, w.threads[k].address);
  }

  lemma FirstIndex(w: World, k: nat)
    requires Known(w.threads, w.objects) && First(w, k)
    ensures k < |w.threads| && w.threads[k].address in w.objects
  {
    hide Candidate, NoLater;
  }

  lemma SamePriority(w: World, v: World, a: Word)
    requires SameDuties(w, v) && a in w.objects
    ensures a in v.objects && v.objects[a].priority == w.objects[a].priority
  {
  }

  lemma SwitchTo(w: World, block: bool, sleep: nat, resumeCia: Option<Word>, queue: Word, a: Word)
    requires Attached(w) && w.current in w.objects && a != 0
    requires var m := WakeDue(MarkCurrent(w, block, sleep, queue));
             Known(m.threads, m.objects) && Select(m, block, w.objects[w.current].priority) == a
    ensures Switch(w, block, sleep, resumeCia, queue).0.current == a
  {
    hide MarkCurrent, WakeDue, AdvanceClock, Select, FindThread;
  }

  // Steps

  /** The suspend count of a thread after a step; only OSResumeThread changes it, by one and not below zero. */
  ghost function SuspendAfter(cfg: Config, w: World, a: Word): Word
    requires |w.regs.gpr| == 32 && a in w.objects
  {
    if Calls(cfg, w, ResumeCall) && w.regs.gpr[3] == a && w.objects[a].suspend > 0
    then w.objects[a].suspend - 1 else w.objects[a].suspend
  }

  /** What a step leaves of the threads there are: suspend counts, affinities and priorities. */
  ghost predicate DutiesStep(cfg: Config, w: World, v: World)
    requires |w.regs.gpr| == 32
  {
    && w.objects.Keys <= v.objects.Keys
    && forall a :: a in w.objects ==>
         && v.objects[a].suspend == SuspendAfter(cfg, w, a) && v.objects[a].affinity == w.objects[a].affinity
         && v.objects[a].priority == w.objects[a].priority
  }

  /** Control stays, or goes to a thread that may take over. */
  ghost predicate HandsOver(w: World, v: World) {
    v.current != w.current ==> MayTakeOver(w, v.current)
  }

  lemma SwitchStep(cfg: Config, w: World, u: World, block: bool, sleep: nat, resumeCia: Option<Word>, queue: Word)
    requires Scheduled(u) && |w.regs.gpr| == 32 && !Calls(cfg, w, ResumeCall)
    requires u.objects == w.objects && u.current == w.current
    ensures Known(u.threads, u.objects)
    ensures DutiesStep(cfg, w, Switch(u, block, sleep, resumeCia, queue).0)
    ensures HandsOver(w, Switch(u, block, sleep, resumeCia, queue).0)
  {
    hide *;
    SwitchDuties(u, block, sleep, resumeCia, queue);
    SwitchHandsOver(u, block, sleep, resumeCia, queue);
    SwitchedStep(cfg, w, u, Switch(u, block, sleep, resumeCia, queue).0);
  }

  lemma SwitchedStep(cfg: Config, w: World, u: World, v: World)
    requires |w.regs.gpr| == 32 && !Calls(cfg, w, ResumeCall)
    requires u.objects == w.objects && u.current == w.current && SameDuties(u, v)
    requires v.current != u.current ==> MayTakeOver(u, v.current)
    ensures DutiesStep(cfg, w, v) && HandsOver(w, v)
  {
  }

  lemma SendStep(cfg: Config, w: World, m: Message)
    requires Ready(w) && Calls(cfg, w, SendCall) && Send(w, m).Some?
    ensures DutiesStep(cfg, w, Send(w, m).value) && HandsOver(w, Send(w, m).value)
  {
    hide BestWaiter, Pushed;
  }

  lemma RecordStep(cfg: Config, w: World)
    requires Ready(w)
    ensures Calls(cfg, w, CreateCall) && Create(w, cfg).Some? ==>
              DutiesStep(cfg, w, Create(w, cfg).value) && HandsOver(w, Create(w, cfg).value)
    ensures Calls(cfg, w, ResumeCall) && ResumeThread(w).Some? ==>
              DutiesStep(cfg, w, ResumeThread(w).value) && HandsOver(w, ResumeThread(w).value)
    ensures Calls(cfg, w, InitQueueCall) && InitQueue(w).Some? ==>
              DutiesStep(cfg, w, InitQueue(w).value) && HandsOver(w, InitQueue(w).value)
  {
    hide CreateAccepted, InitialContext;
  }

  lemma SleepStep(cfg: Config, w: World)
    requires Scheduled(w) && Calls(cfg, w, SleepCall)
    ensures Ready(w) && Sleep(w).Some? && DutiesStep(cfg, w, Sleep(w).value) && HandsOver(w, Sleep(w).value)
  {
    ScheduledReady(w);
    hide Scheduled, Switch, SleepLength, OffsetAfter, DutiesStep, HandsOver, Known;
    var sleep := SleepLength(w.regs);
    var u := w.(sleepOffset := OffsetAfter(w.sleepOffset, sleep));
    RegistersOnly(w, u);
    SwitchStep(cfg, w, u, sleep > 0, sleep, Option<Word>.None, 0);
  }

  lemma YieldStep(cfg: Config, w: World)
    requires Scheduled(w) && Calls(cfg, w, YieldCall)
    ensures Ready(w) && Yield(w).Some? && DutiesStep(cfg, w, Yield(w).value) && HandsOver(w, Yield(w).value)
  {
    ScheduledReady(w);
    hide Scheduled, Switch, DutiesStep, HandsOver, Known;
    SwitchStep(cfg, w, w, false, 0, Option<Word>.None, 0);
  }

  lemma ReceiveStep(cfg: Config, w: World)
    requires Scheduled(w) && Calls(cfg, w, ReceiveCall)
    ensures Ready(w)
    ensures Receive(w).Some? ==> DutiesStep(cfg, w, Receive(w).value) && HandsOver(w, Receive(w).value)
  {
    hide *;
    ScheduledReady(w);
    ReadyGpr(w);
    NotResuming(cfg, w);
    SwitchStep(cfg, w, w, true, TICKS_MAX, Option<Word>.Some(w.regs.cia), w.regs.gpr[3]);
    ReceiveCases(w);
    if Receive(w).Some? && Receive(w).value.objects == w.objects && Receive(w).value.current == w.current {
      QuietStep(cfg, w, Receive(w).value);
    }
  }

  lemma NotResuming(cfg: Config, w: World)
    requires Calls(cfg, w, ReceiveCall)
    ensures !Calls(cfg, w, ResumeCall)
  {
  }

  lemma ReceiveCases(w: World)
    requires Ready(w)
    ensures Receive(w).Some? ==>
              || Receive(w).value == Switch(w, true, TICKS_MAX, Option<Word>.Some(w.regs.cia), w.regs.gpr[3]).0
              || (Receive(w).value.objects == w.objects && Receive(w).value.current == w.current)
  {
    hide Switch, Known;
  }

  lemma DutiesIgnoreRegisters(cfg: Config, w: World, v: World, r: Registers)
    requires |w.regs.gpr| == 32 && DutiesStep(cfg, w, v) && HandsOver(w, v)
    ensures DutiesStep(cfg, w, v.(regs := r)) && HandsOver(w, v.(regs := r))
  {
  }

  lemma QuietStep(cfg: Config, w: World, v: World)
    requires |w.regs.gpr| == 32 && !Calls(cfg, w, ResumeCall) && v.objects == w.objects && v.current == w.current
    ensures DutiesStep(cfg, w, v) && HandsOver(w, v)
  {
  }

  lemma HandleHandsOver(cfg: Config, w: World, e: Event)
    requires Scheduled(w) && w.regs.cia in cfg.imports && e.Dispatch?
    ensures Ready(w)
    ensures var h := Handle(cfg, w, cfg.imports[w.regs.cia], e);
            h.Some? ==> DutiesStep(cfg, w, h.value) && HandsOver(w, h.value)
  {
    ScheduledReady(w);
    hide Scheduled, Send, Receive, Sleep, Yield, Create, ResumeThread, InitQueue, DutiesStep, HandsOver;
    var h := Handle(cfg, w, cfg.imports[w.regs.cia], e);
    if h.Some? {
      match cfg.imports[w.regs.cia]
      case SendCall => SendStep(cfg, w, e.message);
      case ReceiveCall => ReceiveStep(cfg, w);
      case SleepCall => SleepStep(cfg, w);
      case YieldCall => YieldStep(cfg, w);
      case CreateCall => RecordStep(cfg, w);
      case ResumeCall => RecordStep(cfg, w);
      case InitQueueCall => RecordStep(cfg, w);
      case OtherCall => QuietStep(cfg, w, h.value);
      case UnimplementedCall =>
    }
  }

  /** One step of the machine, whatever the guest does. */
  lemma StepHandsOver(cfg: Config, w: World, e: Event)
    requires Scheduled(w)
    ensures Ready(w)
    ensures Step(cfg, w, e).Some? ==>
              DutiesStep(cfg, w, Step(cfg, w, e).value) && HandsOver(w, Step(cfg, w, e).value)
  {
    ScheduledReady(w);
    hide Scheduled, Handle, DutiesStep, HandsOver;
    if Step(cfg, w, e).Some? {
      var v := Step(cfg, w, e).value;
      if w.regs.cia !in cfg.imports {
        QuietStep(cfg, w, v);
      } else {
        HandleHandsOver(cfg, w, e);
        var h := Handle(cfg, w, cfg.imports[w.regs.cia], e).value;
        DutiesIgnoreRegisters(cfg, w, h, v.regs);
        assert v == h.(regs := v.regs);
      }
    }
  }

  // Runs

  /** In any run, a thread that is given control was not suspended and allowed on the core. */
  lemma NoSuspendedThreadStarts(cfg: Config, ws: seq<World>, es: seq<Event>, n: nat)
    requires IsRun(cfg, ws, es) && n < |es| && ws[n + 1].current != ws[n].current
    ensures ws[n + 1].current in ws[n].objects
    ensures var o := ws[n].objects[ws[n + 1].current];
            o.suspend == 0 && (o.affinity == 0 || o.affinity % 4 >= 2) && o.priority < WORD_MAX
  {
    RunKeepsScheduled(cfg, ws, es, n);
    StepHandsOver(cfg, ws[n], es[n]);
    hide Scheduled, Ready, Step, DutiesStep;
  }

  /** Nobody resumes the thread between the two states. */
  ghost predicate NotResumed(cfg: Config, ws: seq<World>, a: Word, m: nat, n: nat)
    requires m <= n <= |ws|
  {
    forall k :: m <= k < n ==> !(Calls(cfg, ws[k], ResumeCall) && |ws[k].regs.gpr| == 32 && ws[k].regs.gpr[3] == a)
  }

  /** A suspended thread that does not have control stays suspended, and gets none, until it is resumed. */
  lemma {:induction false} SuspendedUntilResumed(cfg: Config, ws: seq<World>, es: seq<Event>, a: Word, m: nat, n: nat)
    requires IsRun(cfg, ws, es) && m <= n <= |es| && NotResumed(cfg, ws, a, m, n)
    requires a in ws[m].objects && ws[m].objects[a].suspend > 0 && ws[m].current != a
    ensures a in ws[n].objects && ws[n].objects[a].suspend == ws[m].objects[a].suspend && ws[n].current != a
    decreases n
  {
    hide Scheduled, Ready, Step;
    if m < n {
      SuspendedUntilResumed(cfg, ws, es, a, m, n - 1);
      RunKeepsScheduled(cfg, ws, es, n - 1);
      StepHandsOver(cfg, ws[n - 1], es[n - 1]);
      assert Ready(ws[n - 1]) && Step(cfg, ws[n - 1], es[n - 1]) == Option<World>.Some(ws[n]);
      ReadyGpr(ws[n - 1]);
    }
  }

  lemma ReadyGpr(w: World)
    requires Ready(w)
    ensures |w.regs.gpr| == 32
  {
  }

  /** A yield of the caller is accepted by that candidate. */
  ghost predicate Accepts(w: World, k: nat)
    requires Known(w.threads, w.objects) && w.current in w.objects
  {
    First(w, k) && w.objects[w.threads[k].address].priority <= w.objects[w.current].priority
  }

  /** Without blocking, control goes only to the first candidate. */
  lemma OnlyFirst(w: World, sleep: nat, resumeCia: Option<Word>, queue: Word)
    requires Scheduled(w)
    ensures Known(w.threads, w.objects) && w.current in w.objects
    ensures Switch(w, false, sleep, resumeCia, queue).0.current != w.current ==> exists k: nat :: Accepts(w, k)
  {
    RecordsKnown(w);
    ScheduledCurrent(w);
    PreparedLoose(w, false, sleep, queue);
    hide *;
    var m := WakeDue(MarkCurrent(w, false, sleep, queue));
    MarkedLoose(w, false, sleep, queue);
    WakeDueLoose(MarkCurrent(w, false, sleep, queue));
    LooseKnown(m);
    SelectMeans(m, false, w.objects[w.current].priority);
    SwitchYields(w, sleep, resumeCia, queue);
    if Select(m, false, w.objects[w.current].priority) != 0 {
      var k: nat :| First(m, k) && Select(m, false, w.objects[w.current].priority) == m.threads[k].address &&
                    (false || m.objects[m.threads[k].address].priority <= w.objects[w.current].priority);
      FirstIndex(m, k);
      MarkedFirst(w, false, sleep, queue, k);
      MarkedAddresses(w, false, sleep, queue);
      WakeDuties(MarkCurrent(w, false, sleep, queue));
      MarkDuties(w, false, sleep, queue);
      DutiesChain(w, MarkCurrent(w, false, sleep, queue), m);
      FirstIndex(w, k);
      SamePriority(w, m, w.threads[k].address);
      AcceptsIs(w, k);
    }
  }

  lemma AcceptsIs(w: World, k: nat)
    requires Known(w.threads, w.objects) && w.current in w.objects && k < |w.threads| && First(w, k)
    requires w.objects[w.threads[k].address].priority <= w.objects[w.current].priority
    ensures Accepts(w, k)
  {
    hide First;
  }

  lemma AcceptsParts(w: World, k: nat)
    requires Known(w.threads, w.objects) && w.current in w.objects && Accepts(w, k)
    ensures k < |w.threads| && First(w, k)
    ensures w.objects[w.threads[k].address].priority <= w.objects[w.current].priority
  {
    hide Candidate, NoLater;
  }

  lemma SwitchYields(w: World, sleep: nat, resumeCia: Option<Word>, queue: Word)
    requires Attached(w) && w.current in w.objects
    ensures var m := WakeDue(MarkCurrent(w, false, sleep, queue));
            && Known(m.threads, m.objects)
            && (Select(m, false, w.objects[w.current].priority) == 0 ==>
                  Switch(w, false, sleep, resumeCia, queue).0.current == w.current)
  {
    MarkCurrentAttached(w, false, sleep, queue);
    WakeDueKeeps(MarkCurrent(w, false, sleep, queue));
    hide MarkCurrent, WakeDue, AdvanceClock, Select, FindThread;
  }

  /** OSYieldThread hands over to the first candidate if its priority number is at most the caller's, else not. */
  lemma YieldTakesFirst(cfg: Config, w: World, e: Event)
    requires Scheduled(w) && Calls(cfg, w, YieldCall)
    ensures Ready(w) && w.current in w.objects
    ensures Step(cfg, w, e).Some? ==>
              var v := Step(cfg, w, e).value;
              && (forall k: nat :: Accepts(w, k) ==> v.current == w.threads[k].address)
              && ((forall k: nat :: !Accepts(w, k)) ==> v.current == w.current)
  {
    hide *;
    ScheduledReady(w);
    ScheduledCurrent(w);
    OnlyFirst(w, 0, Option<Word>.None, 0);
    forall k: nat | Accepts(w, k)
      ensures k < |w.threads| && Switch(w, false, 0, Option<Word>.None, 0).0.current == w.threads[k].address
    {
      AcceptsParts(w, k);
      FirstTakesOver(w, false, 0, Option<Word>.None, 0, k);
    }
    YieldIs(cfg, w, e);
  }

  lemma YieldIs(cfg: Config, w: World, e: Event)
    requires Ready(w) && Calls(cfg, w, YieldCall)
    ensures Step(cfg, w, e).Some? ==>
              Step(cfg, w, e).value.current == Switch(w, false, 0, Option<Word>.None, 0).0.current
  {
    hide Switch, Known;
  }

  /** A call that blocks hands over to the first candidate if there is one. */
  lemma BlockTakesFirst(cfg: Config, w: World, e: Event, k: nat)
    requires Scheduled(w) && Known(w.threads, w.objects) && Waits(cfg, w) && First(w, k)
    ensures Ready(w) && k < |w.threads|
    ensures Step(cfg, w, e).Some? ==> Step(cfg, w, e).value.current == w.threads[k].address
  {
    hide *;
    ScheduledReady(w);
    ReadyGpr(w);
    ScheduledCurrent(w);
    FirstIndex(w, k);
    WaitsAt(cfg, w, e);
    if Calls(cfg, w, SleepCall) {
      SleepTakesFirst(cfg, w, k);
    } else {
      FirstTakesOver(w, true, TICKS_MAX, Option<Word>.Some(w.regs.cia), w.regs.gpr[3], k);
    }
  }

  /** Where a blocking step goes. */
  lemma WaitsAt(cfg: Config, w: World, e: Event)
    requires Ready(w) && Waits(cfg, w)
    ensures Calls(cfg, w, SleepCall) ==>
              SignedCount(w.regs) > 0 && Sleep(w).Some? &&
              (Step(cfg, w, e).Some? ==> Step(cfg, w, e).value.current == Sleep(w).value.current)
    ensures !Calls(cfg, w, SleepCall) && Step(cfg, w, e).Some? ==>
              Step(cfg, w, e).value.current ==
              Switch(w, true, TICKS_MAX, Option<Word>.Some(w.regs.cia), w.regs.gpr[3]).0.current
  {
    hide Switch, Known, SignedCount, SleepLength, OffsetAfter;
  }

  lemma SleepTakesFirst(cfg: Config, w: World, k: nat)
    requires Scheduled(w) && Ready(w) && w.current in w.objects && First(w, k) && k < |w.threads|
    requires SignedCount(w.regs) > 0
    ensures Sleep(w).Some? && Sleep(w).value.current == w.threads[k].address
  {
    SleepMeans(w.regs, w.ticks);
    var sleep := SleepLength(w.regs);
    var u := w.(sleepOffset := OffsetAfter(w.sleepOffset, sleep));
    RegistersOnly(w, u);
    FirstSame(w, u, k);
    FirstTakesOver(u, true, sleep, Option<Word>.None, 0, k);
    hide Scheduled, Switch, First, Known, OffsetAfter, SleepLength;
  }
}
