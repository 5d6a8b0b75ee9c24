/**
 * A thread switch in guest memory, store by store: marking the caller, waking due sleepers, and either
 * resuming the caller or saving its context and starting the next thread. Afterwards memory encodes the
 * state that the switch leaves.
 */
module SwitchMemory {
  import opened Bits
  import opened MemoryImage
  import opened GuestObjects
  import opened Extents
  import opened ThreadObjects
  import opened RingExtents
  import opened GuestThreads
  import opened ThreadInvariants
  import opened ThreadMemory
  import GuestSchedulerModel

  ghost predicate RecordsMapped(m: Memory, threads: seq<Runtime>) {
    WellFormed(m) && forall i :: 0 <= i < |threads| ==> MappedRange(m, threads[i].address, THREAD_SIZE)
  }

  lemma RecordsStillMapped(m: Memory, n: Memory, threads: seq<Runtime>)
    requires RecordsMapped(m, threads) && SameLayout(m, n)
    ensures RecordsMapped(n, threads)
  {
    hide WellFormed, SameLayout, CellOf, Mapped;
    SameCells(m, n);
  }

  /** The wake-up loop over the first k records: READY for every sleeper whose deadline has passed. */
  ghost function WokenMemory(m: Memory, threads: seq<Runtime>, ticks: nat, k: nat): (n: Memory)
    requires RecordsMapped(m, threads) && k <= |threads|
    ensures SameLayout(m, n) && RecordsMapped(n, threads)
  {
    hide WellFormed, SameLayout, CellOf, Mapped, MappedRange, SetState;
    LayoutRefl(m);
    if k == 0 then m
    else
      var before := WokenMemory(m, threads, ticks, k - 1);
      if Due(threads[k - 1], ticks) then
        var after := SetState(before, threads[k - 1].address, READY);
        LayoutChain(m, before, after);
        RecordsStillMapped(before, after, threads);
        after
      else before
  }

  lemma RecordsEncoded(m: Memory, w: World)
    requires Encoded(m, w) && Known(w.threads, w.objects)
    ensures RecordsMapped(m, w.threads)
  {
    hide Encoded, WellFormed, MappedRange;
    if w.threads == [] { EncodedWellFormed(m, w); }
    forall i | 0 <= i < |w.threads|
      ensures WellFormed(m) && MappedRange(m, w.threads[i].address, THREAD_SIZE)
    {
      EncodedThread(m, w, w.threads[i].address);
    }
    assert |w.threads| > 0 ==> MappedRange(m, w.threads[0].address, THREAD_SIZE);
  }

  lemma EncodedWellFormed(m: Memory, w: World)
    requires Encoded(m, w)
    ensures WellFormed(m)
  {
    hide WellFormed, ThreadHeld, QueueHeld, Spread;
  }

  /** The objects after the first k records are woken. */
  ghost function WokenWorld(w: World, k: nat): World
    requires k <= |w.threads|
  {
    w.(objects := WakeDueObjects(w.threads, w.objects, w.ticks, k))
  }

  lemma WokenStart(w: World)
    ensures WokenWorld(w, 0) == w
  {
    GuestSchedulerModel.WokenNone(w.threads, w.objects, w.ticks);
  }

  lemma WokenNext(w: World, k: nat)
    requires Known(w.threads, w.objects) && k < |w.threads|
    ensures w.threads[k].address in WokenWorld(w, k).objects
    ensures WokenWorld(w, k + 1) ==
            (var before, a := WokenWorld(w, k), w.threads[k].address;
             if Due(w.threads[k], w.ticks)
             then before.(objects := before.objects[a := before.objects[a].(state := READY)]) else before)
  {
    GuestSchedulerModel.WokenSoFar(w.threads, w.objects, w.ticks, k);
    hide WakeDueObjects;
  }

  lemma WokenMemoryNext(m: Memory, threads: seq<Runtime>, ticks: nat, k: nat)
    requires RecordsMapped(m, threads) && k < |threads|
    ensures var before := WokenMemory(m, threads, ticks, k);
            && WellFormed(before) && MappedRange(before, threads[k].address, THREAD_SIZE)
            && WokenMemory(m, threads, ticks, k + 1) ==
               if Due(threads[k], ticks) then SetState(before, threads[k].address, READY) else before
    ensures WokenMemory(m, threads, ticks, 0) == m
  {
    hide WellFormed, SameLayout, CellOf, Mapped, MappedRange, SetState;
  }

  lemma {:induction false} WokenEncoded(m: Memory, w: World, k: nat)
    requires Encoded(m, w) && Known(w.threads, w.objects) && k <= |w.threads|
    ensures RecordsMapped(m, w.threads)
    ensures Encoded(WokenMemory(m, w.threads, w.ticks, k), WokenWorld(w, k))
  {
    hide *;
    RecordsEncoded(m, w);
    if k == 0 {
      WokenStart(w);
      WokenMemoryStart(m, w.threads, w.ticks);
    } else {
      WokenEncoded(m, w, k - 1);
      WokenNext(w, k - 1);
      WokenMemoryNext(m, w.threads, w.ticks, k - 1);
      var before, a := WokenMemory(m, w.threads, w.ticks, k - 1), w.threads[k - 1].address;
      if Due(w.threads[k - 1], w.ticks) { StateEncoded(before, WokenWorld(w, k - 1), a, READY); }
    }
  }

  lemma WokenMemoryStart(m: Memory, threads: seq<Runtime>, ticks: nat)
    requires RecordsMapped(m, threads)
    ensures WokenMemory(m, threads, ticks, 0) == m
  {
    hide WellFormed, SameLayout, CellOf, Mapped, MappedRange;
  }

  /** The whole wake-up loop. */
  lemma WakeEncoded(m: Memory, w: World)
    requires Encoded(m, w) && Known(w.threads, w.objects)
    ensures RecordsMapped(m, w.threads)
    ensures Encoded(WokenMemory(m, w.threads, w.ticks, |w.threads|), WakeDue(w))
  {
    WokenEncoded(m, w, |w.threads|);
    var n := WokenMemory(m, w.threads, w.ticks, |w.threads|);
    assert WakeDue(w).objects == WokenWorld(w, |w.threads|).objects && WakeDue(w).queues == w.queues;
    hide *;
    SameParts(n, WokenWorld(w, |w.threads|), WakeDue(w));
  }

  // The switch, store by store

  ghost function MarkedMemory(m: Memory, w: World, block: bool): Memory
    requires Encoded(m, w) && w.current in w.objects
  {
    hide *;
    EncodedThread(m, w, w.current);
    SetState(m, w.current, if block then WAITING else READY)
  }

  lemma MarkEncoded(m: Memory, w: World, block: bool, sleep: nat, queue: Word)
    requires Encoded(m, w) && Attached(w) && w.current in w.objects
    ensures Known(MarkCurrent(w, block, sleep, queue).threads, MarkCurrent(w, block, sleep, queue).objects)
    ensures Encoded(MarkedMemory(m, w, block), MarkCurrent(w, block, sleep, queue))
  {
    MarkCurrentAttached(w, block, sleep, queue);
    var v, a := MarkCurrent(w, block, sleep, queue), w.current;
    var state := if block then WAITING else READY;
    var u := w.(objects := w.objects[a := w.objects[a].(state := state)]);
    assert v.objects == u.objects && v.queues == u.queues;
    hide Encoded, SetState, FindThread;
    StateEncoded(m, w, a, state);
    SameParts(SetState(m, a, state), u, v);
  }

  ghost function WakeMemory(m: Memory, w: World): Memory
    requires Encoded(m, w) && Known(w.threads, w.objects)
  {
    hide *;
    RecordsEncoded(m, w);
    WokenMemory(m, w.threads, w.ticks, |w.threads|)
  }

  lemma WakeMemoryEncoded(m: Memory, w: World)
    requires Encoded(m, w) && Known(w.threads, w.objects)
    ensures Known(WakeDue(w).threads, WakeDue(w).objects) && Encoded(WakeMemory(m, w), WakeDue(w))
  {
    WakeDueKeeps(w);
    hide Encoded, WokenMemory, RecordsMapped, WakeDue;
    WakeEncoded(m, w);
  }

  ghost function AdvancedMemory(m: Memory, w: World): Memory
    requires Encoded(m, w) && Known(w.threads, w.objects)
  {
    hide Encoded, WakeMemory, NextWake;
    var next := NextWake(w.threads, |w.threads|);
    if next == TICKS_MAX then m
    else
      SameParts(m, w, w.(ticks := Max(w.ticks, next)));
      WakeMemory(m, w.(ticks := Max(w.ticks, next)))
  }

  lemma AdvanceEncoded(m: Memory, w: World)
    requires Encoded(m, w) && Known(w.threads, w.objects)
    ensures Encoded(AdvancedMemory(m, w), AdvanceClock(w))
  {
    hide Encoded, WakeMemory, NextWake, WakeDue;
    var next := NextWake(w.threads, |w.threads|);
    if next != TICKS_MAX {
      SameParts(m, w, w.(ticks := Max(w.ticks, next)));
      WakeMemoryEncoded(m, w.(ticks := Max(w.ticks, next)));
    }
  }

  lemma ScheduledAttached(w: World)
    requires Scheduled(w)
    ensures Attached(w) && Known(w.threads, w.objects) && w.current in w.objects && ValidRegisters(w.regs)
  {
    MarkedLoose(w, false, 0, 0);
    RecordsKnown(w);
  }

  /** The stores up to the choice of the next thread. */
  ghost function PreparedMemory(m: Memory, w: World, block: bool, sleep: nat, queue: Word): Memory
    requires Encoded(m, w) && Scheduled(w)
  {
    hide Encoded, Scheduled, MarkCurrent, MarkedMemory, WakeDue, WakeMemory, Select, AdvancedMemory;
    ScheduledAttached(w);
    MarkEncoded(m, w, block, sleep, queue);
    var marked, u := MarkedMemory(m, w, block), MarkCurrent(w, block, sleep, queue);
    WakeMemoryEncoded(marked, u);
    var woken, v := WakeMemory(marked, u), WakeDue(u);
    if Select(v, block, w.objects[w.current].priority) == 0 && block then AdvancedMemory(woken, v) else woken
  }

  lemma PreparedEncoded(m: Memory, w: World, block: bool, sleep: nat, queue: Word)
    requires Encoded(m, w) && Scheduled(w)
    ensures Attached(w)
    ensures Encoded(PreparedMemory(m, w, block, sleep, queue), Prepare(w, block, sleep, queue).0)
  {
    hide Encoded, Scheduled, MarkCurrent, MarkedMemory, WakeDue, WakeMemory, Select, AdvancedMemory, AdvanceClock;
    ScheduledAttached(w);
    MarkEncoded(m, w, block, sleep, queue);
    var marked, u := MarkedMemory(m, w, block), MarkCurrent(w, block, sleep, queue);
    WakeMemoryEncoded(marked, u);
    AdvanceEncoded(WakeMemory(marked, u), WakeDue(u));
  }

  lemma PreparedKnows(w: World, block: bool, sleep: nat, queue: Word)
    requires Scheduled(w)
    ensures Attached(w)
    ensures var (v, next) := Prepare(w, block, sleep, queue);
            && v.current == w.current && v.regs == w.regs && v.current in v.objects && ValidRegisters(v.regs)
            && FindThread(v.threads, v.current) < |v.threads| && (next != 0 ==> next in v.objects)
  {
    ScheduledAttached(w);
    PreparedLoose(w, block, sleep, queue);
    ResumedScheduled(Prepare(w, block, sleep, queue).0);
    hide Prepare, Records, Deadlines;
  }

  /** Nobody to run: the caller's state goes back to RUNNING. */
  ghost function ResumedMemory(m: Memory, v: World): Memory
    requires Encoded(m, v) && v.current in v.objects
  {
    hide *;
    EncodedThread(m, v, v.current);
    SetState(m, v.current, RUNNING)
  }

  lemma ResumeEncoded(m: Memory, v: World)
    requires Encoded(m, v) && v.current in v.objects && FindThread(v.threads, v.current) < |v.threads|
    ensures Encoded(ResumedMemory(m, v), Resume(v))
  {
    var u := v.(objects := v.objects[v.current := v.objects[v.current].(state := RUNNING)]);
    assert Resume(v).objects == u.objects && Resume(v).queues == u.queues;
    hide Encoded, SetState, FindThread;
    StateEncoded(m, v, v.current, RUNNING);
    SameParts(SetState(m, v.current, RUNNING), u, Resume(v));
  }

  /** The caller's registers are saved, and the next thread's state becomes RUNNING. */
  ghost function ExchangedMemory(m: Memory, v: World, next: Word, cia: Word): Memory
    requires Encoded(m, v) && v.current in v.objects && next in v.objects && ValidRegisters(v.regs)
  {
    hide *;
    EncodedThread(m, v, v.current);
    ContextEncoded(m, v, v.current, v.regs, cia);
    EncodedThread(m, v, next);
    var saved := SetContext(m, v.current, v.regs, cia);
    StillMapped(m, saved, next, THREAD_SIZE);
    SetState(saved, next, RUNNING)
  }

  lemma ExchangeEncoded(m: Memory, v: World, next: Word, cia: Word)
    requires Encoded(m, v) && v.current in v.objects && next in v.objects && ValidRegisters(v.regs)
    ensures Encoded(ExchangedMemory(m, v, next, cia), Exchange(v, next, cia))
  {
    var u := v.(objects := v.objects[v.current := v.objects[v.current].(context := v.regs.(cia := cia))]);
    var t := u.(objects := u.objects[next := u.objects[next].(state := RUNNING)]);
    assert Exchange(v, next, cia).objects == t.objects && Exchange(v, next, cia).queues == t.queues;
    hide Encoded, SetState, SetContext;
    ContextEncoded(m, v, v.current, v.regs, cia);
    var saved := SetContext(m, v.current, v.regs, cia);
    StateEncoded(saved, u, next, RUNNING);
    SameParts(SetState(saved, next, RUNNING), t, Exchange(v, next, cia));
  }

  /** All stores of a switch. */
  ghost function SwitchedMemory(m: Memory, w: World, block: bool, sleep: nat, resumeCia: Option<Word>, queue: Word)
    : Memory
    requires Encoded(m, w) && Scheduled(w)
  {
    hide Encoded, Scheduled, Prepare, PreparedMemory, ExchangedMemory, ResumedMemory;
    PreparedKnows(w, block, sleep, queue);
    PreparedEncoded(m, w, block, sleep, queue);
    var (v, next) := Prepare(w, block, sleep, queue);
    var n := PreparedMemory(m, w, block, sleep, queue);
    if next == 0 then ResumedMemory(n, v)
    else ExchangedMemory(n, v, next, if resumeCia.Some? then resumeCia.value else w.regs.lr)
  }

  /** After the stores of a switch, memory encodes the state that the switch leaves. */
  lemma SwitchEncoded(m: Memory, w: World, block: bool, sleep: nat, resumeCia: Option<Word>, queue: Word)
    requires Encoded(m, w) && Scheduled(w)
    ensures Known(w.threads, w.objects)
    ensures Encoded(SwitchedMemory(m, w, block, sleep, resumeCia, queue),
                    Switch(w, block, sleep, resumeCia, queue).0)
  {
    hide Encoded, Scheduled, Prepare, PreparedMemory, ExchangedMemory, ResumedMemory, Exchange, Resume;
    ScheduledAttached(w);
    PreparedKnows(w, block, sleep, queue);
    PreparedEncoded(m, w, block, sleep, queue);
    var (v, next) := Prepare(w, block, sleep, queue);
    var n := PreparedMemory(m, w, block, sleep, queue);
    if next == 0 {
      ResumeEncoded(n, v);
    } else {
      ExchangeEncoded(n, v, next, if resumeCia.Some? then resumeCia.value else w.regs.lr);
    }
  }

  /** The registers that a switch loads are those in the next thread's object. */
  lemma SwitchLoads(m: Memory, w: World, block: bool, sleep: nat, resumeCia: Option<Word>, queue: Word)
    requires Encoded(m, w) && Scheduled(w)
    ensures Known(w.threads, w.objects)
    ensures var (v, switched) := Switch(w, block, sleep, resumeCia, queue);
            var n := SwitchedMemory(m, w, block, sleep, resumeCia, queue);
            && WellFormed(n) && MappedRange(n, v.current, THREAD_SIZE)
            && (switched ==> v.regs == ThreadAt(n, v.current).context)
  {
    SwitchEncoded(m, w, block, sleep, resumeCia, queue);
    SwitchKeepsScheduled(w, block, sleep, resumeCia, queue);
    var (v, switched) := Switch(w, block, sleep, resumeCia, queue);
    ScheduledAttached(v);
    assert switched ==> v.regs == v.objects[v.current].context;
    hide *;
    EncodedThread(SwitchedMemory(m, w, block, sleep, resumeCia, queue), v, v.current);
  }
}
