/** The scheduler object: the scans and in-place updates, proved equal to the functions of GuestThreads. */
module GuestSchedulerModel {
  import opened Bits
  import opened GuestThreads
  import opened ThreadCalls

  class GuestScheduler {
    var regs: Registers
    var current: Word
    var ticks: nat
    var sleepOffset: nat
    var threads: seq<Runtime>
    var objects: map<Word, OsThread>
    var queues: map<Word, MessageQueue>

    ghost function State(): World
      reads this
    {
      World(regs, current, ticks, sleepOffset, threads, objects, queues)
    }

    constructor (w: World)
      ensures State() == w
    {
      regs, current, ticks, sleepOffset := w.regs, w.current, w.ticks, w.sleepOffset;
      threads, objects, queues := w.threads, w.objects, w.queues;
    }

    /** `ensure_guest_thread`: the index of the record, appended if it is new. */
    method EnsureGuestThread(address: Word) returns (i: nat)
      modifies this`threads
      ensures i == FindThread(old(threads), address) < |threads|
      ensures threads == if i < |old(threads)| then old(threads)
                         else old(threads) + [Runtime(address, 0, false, 0)]
    {
      i := 0;
      while i < |threads|
        invariant i <= |threads| && threads == old(threads)
        invariant forall j :: 0 <= j < i ==> threads[j].address != address
      {
        if threads[i].address == address { return; }
        i := i + 1;
      }
      threads := threads + [Runtime(address, 0, false, 0)];
    }

    method WakeMessageQueueReceiver(queue: Word)
      requires Known(threads, objects)
      modifies this`threads, this`objects
      ensures State() == WakeReceiver(old(State()), queue)
    {
      var selected := -1;
      for i := 0 to |threads|
        invariant selected == BestWaiter(threads, objects, queue, i)
        invariant threads == old(threads) && objects == old(objects)
      {
        if threads[i].sleeping && threads[i].queue == queue {
          var priority := objects[threads[i].address].priority;
          if selected < 0 || priority < objects[threads[selected].address].priority {
            selected := i;
          }
        }
      }
      if selected < 0 { return; }
      var a := threads[selected].address;
      threads := threads[selected := Runtime(a, 0, false, 0)];
      objects := objects[a := objects[a].(state := READY)];
    }

    /** The `wake_due_threads` loop. */
    method WakeDueThreads()
      requires Known(threads, objects)
      modifies this`threads, this`objects
      ensures State() == WakeDue(old(State()))
    {
      ghost var before, table := threads, objects;
      hide WakeDueObjects;
      WokenNone(before, table, ticks);
      for i := 0 to |threads|
        invariant |threads| == |before| && Known(before, table)
        invariant forall j :: 0 <= j < i ==> threads[j] == GuestThreads.WakeDueThreads(before, ticks)[j]
        invariant forall j :: i <= j < |threads| ==> threads[j] == before[j]
        invariant objects == WakeDueObjects(before, table, ticks, i)
      {
        WokenSoFar(before, table, ticks, i);
        if threads[i].sleeping && threads[i].queue == 0 && threads[i].wakeTick <= ticks {
          var a := threads[i].address;
          threads := threads[i := Runtime(a, 0, false, 0)];
          objects := objects[a := objects[a].(state := READY)];
        }
      }
      assert threads == GuestThreads.WakeDueThreads(before, ticks);
    }

    /** `select_ready_thread` with its two passes; the second pass finds nothing the first did not. */
    method SelectReadyThread(block: bool, currentPriority: Word) returns (next: Word)
      requires Known(threads, objects) && forall i :: 0 <= i < |threads| ==> threads[i].address != 0
      ensures next == Select(State(), block, currentPriority)
    {
      var selected, selectedPriority := 0, WORD_MAX;
      ghost var k := -1;
      for pass := 0 to 2
        invariant k == if pass == 0 then -1 else BestReady(threads, objects, current, |threads|)
        invariant k >= 0 <==> selected != 0
        invariant k < |threads| && (k >= 0 ==> selected == threads[k].address)
        invariant selectedPriority == if k < 0 then WORD_MAX else objects[threads[k].address].priority
      {
        if selected != 0 { continue; }
        var afterCurrent := pass != 0;
        for i := 0 to |threads|
          invariant k == BestReady(threads, objects, current, i)
          invariant k >= 0 <==> selected != 0
          invariant k >= 0 ==> selected == threads[k].address
          invariant selectedPriority == if k < 0 then WORD_MAX else objects[threads[k].address].priority
        {
          if afterCurrent && threads[i].address == current {
            afterCurrent := false;
            continue;
          }
          if threads[i].address == current || threads[i].sleeping { continue; }
          var t := objects[threads[i].address];
          if t.state % 2 == 0 || t.suspend != 0 ||
             (t.affinity != 0 && (t.affinity / 2) % 2 == 0) {
            continue;
          }
          if t.priority < selectedPriority {
            selected, selectedPriority := threads[i].address, t.priority;
            k := i;
          }
        }
      }
      if selected != 0 && !block && selectedPriority > currentPriority { return 0; }
      return selected;
    }

    /** Marks the current thread, wakes due sleepers and picks the next thread. */
    method PrepareSwitch(block: bool, sleep: nat, queue: Word) returns (next: Word)
      requires Attached(State()) && forall i :: 0 <= i < |threads| ==> threads[i].address != 0
      modifies this`threads, this`objects, this`ticks
      ensures (State(), next) == Prepare(old(State()), block, sleep, queue)
    {
      hide BestReady, NextWake, GuestThreads.WakeDueThreads, WakeDueObjects, Select;
      var i := FindThread(threads, current);
      var priority := objects[current].priority;
      objects := objects[current := objects[current].(state := if block then WAITING else READY)];
      threads := threads[i := if block then Runtime(current, Deadline(ticks, sleep, queue), true, queue)
                              else Runtime(current, 0, false, 0)];
      WakeDueKeeps(State());
      WakeDueThreads();
      next := SelectReadyThread(block, priority);
      if next == 0 && block {
        var nextWake := EarliestDeadline();
        if nextWake != TICKS_MAX {
          ticks := Max(ticks, nextWake);
          WakeDueKeeps(State());
          WakeDueThreads();
          next := SelectReadyThread(block, priority);
        }
      }
    }

    method SwitchGuestThread(block: bool, sleep: nat, resumeCia: Option<Word>, queue: Word)
      returns (switched: bool)
      requires Known(threads, objects) && forall i :: 0 <= i < |threads| ==> threads[i].address != 0
      modifies this
      ensures (State(), switched) == Switch(old(State()), block, sleep, resumeCia, queue)
    {
      hide Prepare;
      if current == 0 { return false; }
      var i := FindThread(threads, current);
      if i == |threads| { return false; }
      var next := PrepareSwitch(block, sleep, queue);
      i := FindThread(threads, current);
      if next == 0 {
        threads := threads[i := Runtime(current, 0, false, 0)];
        objects := objects[current := objects[current].(state := RUNNING)];
        return false;
      }
      objects := objects[current := objects[current].(context :=
        regs.(cia := if resumeCia.Some? then resumeCia.value else regs.lr))];
      objects := objects[next := objects[next].(state := RUNNING)];
      regs := objects[next].context;
      current := next;
      return true;
    }

    // The handlers: true when the call completes, false when it raises an execution error

    method SendMessage(m: Message) returns (ok: bool)
      requires Ready(State())
      modifies this
      ensures ok <==> Send(old(State()), m).Some?
      ensures ok ==> State() == Send(old(State()), m).value
    {
      hide BestWaiter;
      var queue, message, flags := regs.gpr[3], regs.gpr[4], regs.gpr[5];
      if queue == 0 || queue !in queues { return false; }
      var q := queues[queue];
      if |q.messages| >= q.capacity {
        if flags % 2 == 1 { return false; }
        regs := regs.(gpr := regs.gpr[3 := 0]);
        return true;
      }
      if message == 0 { return false; }
      if (flags / 2) % 2 == 1 {
        queues := queues[queue := q.(messages := [m] + q.messages)];
      } else {
        queues := queues[queue := q.(messages := q.messages + [m])];
      }
      WakeMessageQueueReceiver(queue);
      regs := regs.(gpr := regs.gpr[3 := 1]);
      return true;
    }

    method ReceiveMessage() returns (ok: bool)
      requires Ready(State()) && forall i :: 0 <= i < |threads| ==> threads[i].address != 0
      modifies this
      ensures ok <==> Receive(old(State())).Some?
      ensures ok ==> State() == Receive(old(State())).value
    {
      hide Switch;
      var queue, destination, flags := regs.gpr[3], regs.gpr[4], regs.gpr[5];
      if queue == 0 || queue !in queues { return false; }
      var q := queues[queue];
      if |q.messages| == 0 {
        if flags % 2 == 1 {
          if destination == 0 { return false; }
          ok := SwitchGuestThread(true, TICKS_MAX, Option<Word>.Some(regs.cia), queue);
          return ok;
        }
        regs := regs.(gpr := regs.gpr[3 := 0]);
        return true;
      }
      if destination == 0 { return false; }
      queues := queues[queue := q.(messages := q.messages[1..])];
      regs := regs.(gpr := regs.gpr[3 := 1]);
      return true;
    }

    method SleepTicks()
      requires Ready(State()) && forall i :: 0 <= i < |threads| ==> threads[i].address != 0
      modifies this
      ensures Sleep(old(State())) == Option<World>.Some(State())
    {
      hide Switch;
      var raw := (regs.gpr[3] as int) * 0x1_0000_0000 + regs.gpr[4];
      if 0 < raw < 0x8000_0000_0000_0000 {
        sleepOffset := if raw > TICKS_MAX - sleepOffset then TICKS_MAX else sleepOffset + raw;
        var _ := SwitchGuestThread(true, raw, Option<Word>.None, 0);
      } else {
        var _ := SwitchGuestThread(false, 0, Option<Word>.None, 0);
      }
    }

    method YieldThread()
      requires Ready(State()) && forall i :: 0 <= i < |threads| ==> threads[i].address != 0
      modifies this
      ensures Yield(old(State())) == Option<World>.Some(State())
    {
      hide Switch;
      var _ := SwitchGuestThread(false, 0, Option<Word>.None, 0);
    }

    method CreateThread(cfg: Config) returns (ok: bool)
      requires Ready(State())
      modifies this
      ensures ok <==> Create(old(State()), cfg).Some?
      ensures ok ==> State() == Create(old(State()), cfg).value
    {
      hide InitialContext;
      if !CreateAccepted(regs) {
        regs := regs.(gpr := regs.gpr[3 := 0]);
        return true;
      }
      var thread, entry, attributes := regs.gpr[3], regs.gpr[4], regs.gpr[10];
      if thread in objects { return false; }
      var o := OsThread(0, attributes, 0, regs.gpr[9] + PRIORITY_BASE, InitialContext(regs, cfg.exitThread));
      if attributes % 8 == 0 { o := o.(affinity := attributes + 2); }
      if entry != 0 { o := o.(state := READY, suspend := 1); }
      objects := objects[thread := o];
      var _ := EnsureGuestThread(thread);
      regs := regs.(gpr := regs.gpr[3 := 1]);
      return true;
    }

    method EarliestDeadline() returns (next: nat)
      ensures next == NextWake(threads, |threads|)
    {
      next := TICKS_MAX;
      for i := 0 to |threads|
        invariant next == NextWake(threads, i)
      {
        if threads[i].sleeping && threads[i].queue == 0 { next := Min(next, threads[i].wakeTick); }
      }
    }
  }

  lemma WokenNone(threads: seq<Runtime>, objects: map<Word, OsThread>, ticks: nat)
    ensures WakeDueObjects(threads, objects, ticks, 0) == objects
  {
  }

  lemma WokenSoFar(threads: seq<Runtime>, objects: map<Word, OsThread>, ticks: nat, i: nat)
    requires i < |threads| && Known(threads, objects)
    ensures threads[i].address in WakeDueObjects(threads, objects, ticks, i)
    ensures WakeDueObjects(threads, objects, ticks, i + 1) ==
            (var before := WakeDueObjects(threads, objects, ticks, i);
             var a := threads[i].address;
             if Due(threads[i], ticks) then before[a := before[a].(state := READY)] else before)
  {
    forall a | a in objects
      ensures DueAt(threads, ticks, a, i + 1) <==>
              DueAt(threads, ticks, a, i) || (threads[i].address == a && Due(threads[i], ticks))
    {
    }
  }
}
