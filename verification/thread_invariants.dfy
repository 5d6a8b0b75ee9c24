/** What every switch keeps: the scheduler's state machine, its clock and the saved contexts. */
module ThreadInvariants {
  import opened Bits
  import opened GuestThreads

  /** A record agrees with its OSThread object, apart from who is running and the clock. */
  ghost predicate Agrees(r: Runtime, o: OsThread) {
    && (r.sleeping <==> o.state == WAITING)
    && (o.state == 0 || o.state == READY || o.state == RUNNING || o.state == WAITING)
    && (!r.sleeping ==> r.wakeTick == 0 && r.queue == 0)
    && (r.queue != 0 ==> r.wakeTick == TICKS_MAX)
    && ValidRegisters(o.context)
  }

  /** A timed sleeper's deadline lies strictly in the future. */
  ghost predicate Future(r: Runtime, ticks: nat) {
    r.sleeping && r.queue == 0 ==> r.wakeTick > ticks
  }

  ghost predicate Records(w: World) {
    && Unique(w.threads) && Known(w.threads, w.objects)
    && (forall a :: a in w.objects ==> FindThread(w.threads, a) < |w.threads|)
    && (forall i :: 0 <= i < |w.threads| ==> w.threads[i].address != 0)
    && (forall i :: 0 <= i < |w.threads| ==> Agrees(w.threads[i], w.objects[w.threads[i].address]))
  }

  /** Between marking the current thread and dispatching the next one, nobody is RUNNING. */
  ghost predicate Loose(w: World) {
    && Records(w) && w.current in w.objects && ValidRegisters(w.regs)
    && forall a :: a in w.objects ==> w.objects[a].state != RUNNING
  }

  ghost predicate Deadlines(w: World) {
    forall i :: 0 <= i < |w.threads| ==> Future(w.threads[i], w.ticks)
  }

  /** The scheduler invariant of every reachable state. */
  ghost predicate Scheduled(w: World) {
    && Records(w) && w.current in w.objects && ValidRegisters(w.regs) && Deadlines(w)
    && forall a :: a in w.objects ==> (w.objects[a].state == RUNNING <==> a == w.current)
  }

  lemma FindsUnique(threads: seq<Runtime>, i: nat)
    requires Unique(threads) && i < |threads|
    ensures FindThread(threads, threads[i].address) == i
  {
  }

  /** Records are found by address, so a record update and the matching object update agree again. */
  lemma UpdateRecord(w: World, i: nat, r: Runtime, o: OsThread)
    requires Records(w) && i < |w.threads| && r.address == w.threads[i].address && Agrees(r, o)
    ensures Records(w.(threads := w.threads[i := r], objects := w.objects[r.address := o]))
  {
    hide Agrees;
    var v := w.(threads := w.threads[i := r], objects := w.objects[r.address := o]);
    FindsUnique(w.threads, i);
    forall a | a in v.objects ensures FindThread(v.threads, a) < |v.threads| {
      var k := FindThread(w.threads, a);
      assert v.threads[k].address == a;
    }
  }

  /** An update of one record and its object that neither starts nor stops a thread. */
  lemma UpdateScheduled(w: World, i: nat, r: Runtime, o: OsThread)
    requires Scheduled(w) && i < |w.threads| && r.address == w.threads[i].address && Agrees(r, o)
    requires Future(r, w.ticks) && (o.state == RUNNING <==> r.address == w.current)
    ensures Scheduled(w.(threads := w.threads[i := r], objects := w.objects[r.address := o]))
  {
    hide Agrees, Records;
    UpdateRecord(w, i, r, o);
  }

  /** Wherever a record is, its object is there and agrees with it. */
  lemma RecordAgrees(w: World, i: nat)
    requires Records(w) && i < |w.threads|
    ensures w.threads[i].address in w.objects && Agrees(w.threads[i], w.objects[w.threads[i].address])
  {
  }

  lemma RecordOf(w: World, a: Word)
    requires Records(w) && a in w.objects
    ensures FindThread(w.threads, a) < |w.threads| && w.threads[FindThread(w.threads, a)].address == a
    ensures Agrees(w.threads[FindThread(w.threads, a)], w.objects[a])
  {
    RecordAgrees(w, FindThread(w.threads, a));
  }

  lemma MarkedLoose(w: World, block: bool, sleep: nat, queue: Word)
    requires Scheduled(w)
    ensures Attached(w) && Loose(MarkCurrent(w, block, sleep, queue))
  {
    var i := FindThread(w.threads, w.current);
    var o := w.objects[w.current].(state := if block then WAITING else READY);
    var r := if block then Runtime(w.current, Deadline(w.ticks, sleep, queue), true, queue)
             else Runtime(w.current, 0, false, 0);
    assert Agrees(w.threads[i], w.objects[w.current]);
    UpdateRecord(w, i, r, o);
    assert MarkCurrent(w, block, sleep, queue) ==
           w.(threads := w.threads[i := r], objects := w.objects[r.address := o]);
  }

  /** The object of a record is READY after the wake-up exactly when that record was due, else unchanged. */
  lemma WokenObject(w: World, i: nat)
    requires Records(w) && i < |w.threads|
    ensures var a := w.threads[i].address;
            WakeDue(w).objects[a] ==
            if Due(w.threads[i], w.ticks) then w.objects[a].(state := READY) else w.objects[a]
  {
    hide Agrees, WakeDueThreads;
    var a := w.threads[i].address;
    if DueAt(w.threads, w.ticks, a, |w.threads|) {
      var j :| 0 <= j < |w.threads| && w.threads[j].address == a && Due(w.threads[j], w.ticks);
      FindsUnique(w.threads, i);
      FindsUnique(w.threads, j);
    }
  }

  lemma WokenRecord(w: World, i: nat)
    requires Loose(w) && i < |w.threads|
    ensures var v := WakeDue(w);
            && v.threads[i].address == w.threads[i].address && v.threads[i].address in v.objects
            && Agrees(v.threads[i], v.objects[v.threads[i].address]) && Future(v.threads[i], v.ticks)
            && v.objects[v.threads[i].address].state != RUNNING
  {
    hide WakeDueObjects, Unique;
    WokenObject(w, i);
    WakeKeepsKeys(w);
    assert Agrees(w.threads[i], w.objects[w.threads[i].address]);
  }

  lemma WakeDueLoose(w: World)
    requires Loose(w)
    ensures Loose(WakeDue(w)) && Deadlines(WakeDue(w))
    ensures WakeDue(w).current == w.current && WakeDue(w).ticks == w.ticks && WakeDue(w).regs == w.regs
    ensures WakeDue(w).objects.Keys == w.objects.Keys
  {
    var v := WakeDue(w);
    WakeKeepsKeys(w);
    WakeKeepsLength(w);
    hide WakeDue, Agrees, Future;
    forall i | 0 <= i < |v.threads|
      ensures v.threads[i].address == w.threads[i].address && v.threads[i].address in v.objects
      ensures Agrees(v.threads[i], v.objects[v.threads[i].address]) && Future(v.threads[i], v.ticks)
      ensures v.objects[v.threads[i].address].state != RUNNING
    {
      WokenRecord(w, i);
    }
    SameAddresses(w, v);
    forall a | a in v.objects ensures v.objects[a].state != RUNNING {
      var k := FindThread(v.threads, a);
      assert v.threads[k].address == a;
    }
  }

  /** Records that keep their addresses and still agree are records again. */
  lemma SameAddresses(w: World, v: World)
    requires Records(w) && |v.threads| == |w.threads| && v.objects.Keys == w.objects.Keys
    requires forall i :: 0 <= i < |v.threads| ==> v.threads[i].address == w.threads[i].address
    requires forall i :: 0 <= i < |v.threads| ==> v.threads[i].address in v.objects
    requires forall i :: 0 <= i < |v.threads| ==> Agrees(v.threads[i], v.objects[v.threads[i].address])
    ensures Records(v)
  {
    hide Agrees;
    forall a | a in v.objects ensures FindThread(v.threads, a) < |v.threads| {
      var k := FindThread(w.threads, a);
      assert v.threads[k].address == a;
    }
  }

  lemma WakeKeepsLength(w: World)
    ensures |WakeDue(w).threads| == |w.threads|
    ensures WakeDue(w).current == w.current && WakeDue(w).ticks == w.ticks && WakeDue(w).regs == w.regs
  {
  }

  lemma WakeKeepsKeys(w: World)
    ensures WakeDue(w).objects.Keys == w.objects.Keys
    ensures forall a :: a in w.objects ==> WakeDue(w).objects[a].context == w.objects[a].context
  {
  }

  lemma AdvanceLoose(w: World)
    requires Loose(w) && Deadlines(w)
    ensures Loose(AdvanceClock(w)) && Deadlines(AdvanceClock(w))
    ensures AdvanceClock(w).current == w.current && AdvanceClock(w).regs == w.regs
    ensures AdvanceClock(w).objects.Keys == w.objects.Keys
  {
    hide Records, Deadlines, WakeDue;
    var next := NextWake(w.threads, |w.threads|);
    if next != TICKS_MAX {
      ClockOnly(w, Max(w.ticks, next));
      WakeDueLoose(w.(ticks := Max(w.ticks, next)));
    }
  }

  lemma ClockOnly(w: World, ticks: nat)
    requires Loose(w)
    ensures Loose(w.(ticks := ticks))
  {
  }

  lemma PreparedLoose(w: World, block: bool, sleep: nat, queue: Word)
    requires Scheduled(w)
    ensures Attached(w)
    ensures var (v, next) := Prepare(w, block, sleep, queue);
            && Loose(v) && Deadlines(v) && v.current == w.current && v.regs == w.regs
            && v.objects.Keys == w.objects.Keys
  {
    hide Records, Deadlines, WakeDue, AdvanceClock, Select, Loose;
    MarkedLoose(w, block, sleep, queue);
    MarkedShape(w, block, sleep, queue);
    WakeDueLoose(MarkCurrent(w, block, sleep, queue));
    AdvanceLoose(WakeDue(MarkCurrent(w, block, sleep, queue)));
  }

  lemma MarkedShape(w: World, block: bool, sleep: nat, queue: Word)
    requires Attached(w)
    ensures var m := MarkCurrent(w, block, sleep, queue);
            m.current == w.current && m.regs == w.regs && m.objects.Keys == w.objects.Keys && m.ticks == w.ticks
  {
  }

  /** A thread that is chosen is runnable, awake and not the current one. */
  lemma SelectedRunnable(w: World, block: bool, priority: Word, n: nat)
    requires Known(w.threads, w.objects) && n <= |w.threads|
    ensures var k := BestReady(w.threads, w.objects, w.current, n);
            k >= 0 ==> Runnable(w.threads[k], w.objects[w.threads[k].address], w.current)
  {
    if n > 0 { SelectedRunnable(w, block, priority, n - 1); }
  }

  lemma PickedRunnable(w: World, block: bool, priority: Word, next: Word)
    requires Records(w) && next == Select(w, block, priority) && next != 0
    ensures next in w.objects && next != w.current && w.objects[next].state == READY
    ensures !w.threads[FindThread(w.threads, next)].sleeping
  {
    SelectedRunnable(w, block, priority, |w.threads|);
    var k := BestReady(w.threads, w.objects, w.current, |w.threads|);
    FindsUnique(w.threads, k);
    assert Agrees(w.threads[k], w.objects[next]);
  }

  lemma PreparedPick(w: World, block: bool, sleep: nat, queue: Word)
    requires Scheduled(w)
    ensures Attached(w)
    ensures var (v, next) := Prepare(w, block, sleep, queue);
            next != 0 ==> next in v.objects && next != v.current && v.objects[next].state == READY &&
                          FindThread(v.threads, next) < |v.threads| &&
                          !v.threads[FindThread(v.threads, next)].sleeping
  {
    hide WakeDue, AdvanceClock, Select, Agrees, Unique;
    PreparedLoose(w, block, sleep, queue);
    var (v, next) := Prepare(w, block, sleep, queue);
    if next != 0 { PickedRunnable(v, block, w.objects[w.current].priority, next); }
  }

  lemma ResumedScheduled(v: World)
    requires Loose(v) && Deadlines(v)
    ensures FindThread(v.threads, v.current) < |v.threads| && Scheduled(Resume(v))
  {
    var i := FindThread(v.threads, v.current);
    var r, o := Runtime(v.current, 0, false, 0), v.objects[v.current].(state := RUNNING);
    assert Agrees(v.threads[i], v.objects[v.current]);
    UpdateRecord(v, i, r, o);
  }

  lemma ContextStored(v: World, cia: Word)
    requires Loose(v) && Deadlines(v)
    ensures var u := v.(objects := v.objects[v.current := v.objects[v.current].(context := v.regs.(cia := cia))]);
            Loose(u) && Deadlines(u)
  {
    var i := FindThread(v.threads, v.current);
    var o := v.objects[v.current].(context := v.regs.(cia := cia));
    assert Agrees(v.threads[i], v.objects[v.current]);
    UpdateRecord(v, i, v.threads[i], o);
    assert v.threads[i := v.threads[i]] == v.threads;
  }

  lemma NextStarted(u: World, next: Word)
    requires Loose(u) && Deadlines(u) && next in u.objects && u.objects[next].state == READY
    ensures Scheduled(u.(objects := u.objects[next := u.objects[next].(state := RUNNING)],
                         regs := u.objects[next].context, current := next))
  {
    var k := FindThread(u.threads, next);
    var o := u.objects[next].(state := RUNNING);
    assert Agrees(u.threads[k], u.objects[next]);
    UpdateRecord(u, k, u.threads[k], o);
    assert u.threads[k := u.threads[k]] == u.threads;
    OnlyRunning(u, next, o);
  }

  lemma OnlyRunning(u: World, next: Word, o: OsThread)
    requires Loose(u) && next in u.objects && o.state == RUNNING
    ensures forall a :: a in u.objects ==> (u.objects[next := o][a].state == RUNNING <==> a == next)
  {
    hide Records;
  }

  lemma ExchangedScheduled(v: World, next: Word, cia: Word)
    requires Loose(v) && Deadlines(v) && next in v.objects && next != v.current
    requires v.objects[next].state == READY
    ensures Scheduled(Exchange(v, next, cia))
  {
    hide Loose, Deadlines, Scheduled;
    assert v.current in v.objects by { LooseCurrent(v); }
    ContextStored(v, cia);
    var u := v.(objects := v.objects[v.current := v.objects[v.current].(context := v.regs.(cia := cia))]);
    NextStarted(u, next);
    assert Exchange(v, next, cia) ==
           u.(objects := u.objects[next := u.objects[next].(state := RUNNING)],
              regs := u.objects[next].context, current := next);
  }

  lemma LooseCurrent(v: World)
    requires Loose(v)
    ensures v.current in v.objects
  {
  }

  /** Every switch call, successful or not, keeps the scheduler invariant. */
  lemma SwitchKeepsScheduled(w: World, block: bool, sleep: nat, resumeCia: Option<Word>, queue: Word)
    requires Scheduled(w)
    ensures Scheduled(Switch(w, block, sleep, resumeCia, queue).0)
  {
    hide Records, Deadlines, Prepare, Exchange, Resume;
    assert Known(w.threads, w.objects) by { RecordsKnown(w); }
    PreparedLoose(w, block, sleep, queue);
    PreparedPick(w, block, sleep, queue);
    var (v, next) := Prepare(w, block, sleep, queue);
    if next == 0 {
      ResumedScheduled(v);
    } else {
      ExchangedScheduled(v, next, if resumeCia.Some? then resumeCia.value else w.regs.lr);
    }
  }

  lemma RecordsKnown(w: World)
    requires Records(w)
    ensures Known(w.threads, w.objects)
  {
  }

  // Contexts

  ghost predicate SameContexts(w: World, v: World) {
    v.objects.Keys == w.objects.Keys && forall a :: a in w.objects ==> v.objects[a].context == w.objects[a].context
  }

  /** The outgoing registers are in the outgoing context, the incoming ones come from it, no other changes. */
  ghost predicate ContextsMoved(w: World, v: World, resumeCia: Word) {
    && v.objects.Keys == w.objects.Keys && w.current in w.objects
    && v.current in w.objects && v.current != w.current && v.regs == w.objects[v.current].context
    && v.objects[w.current].context == w.regs.(cia := resumeCia)
    && forall a :: a in w.objects && a != w.current ==> v.objects[a].context == w.objects[a].context
  }

  /** Context isolation for one call of the scheduler. */
  lemma SwitchMovesContexts(w: World, block: bool, sleep: nat, resumeCia: Option<Word>, queue: Word)
    requires Scheduled(w)
    ensures Known(w.threads, w.objects)
    ensures var (v, switched) := Switch(w, block, sleep, resumeCia, queue);
            && v.queues == w.queues && v.sleepOffset == w.sleepOffset
            && (!switched ==> v.current == w.current && v.regs == w.regs && SameContexts(w, v))
            && (switched ==> ContextsMoved(w, v, if resumeCia.Some? then resumeCia.value else w.regs.lr))
  {
    hide Records, Deadlines, Prepare;
    RecordsKnown(w);
    PreparedLoose(w, block, sleep, queue);
    PreparedPick(w, block, sleep, queue);
    PrepareKeepsContexts(w, block, sleep, queue);
  }

  lemma PrepareKeepsContexts(w: World, block: bool, sleep: nat, queue: Word)
    requires Scheduled(w) && Attached(w)
    ensures var v := Prepare(w, block, sleep, queue).0;
            v.objects.Keys == w.objects.Keys && v.queues == w.queues && v.sleepOffset == w.sleepOffset &&
            forall a :: a in w.objects ==> v.objects[a].context == w.objects[a].context
  {
    ScheduledCurrent(w);
    hide Scheduled, WakeDue, Select, MarkCurrent, Known, FindThread, AdvanceClock;
    var m := MarkCurrent(w, block, sleep, queue);
    MarkKeepsContexts(w, block, sleep, queue);
    WakeKeepsContexts(m);
    AdvanceKeepsContexts(WakeDue(m));
  }

  lemma ScheduledCurrent(w: World)
    requires Scheduled(w)
    ensures w.current in w.objects
  {
  }

  lemma MarkKeepsContexts(w: World, block: bool, sleep: nat, queue: Word)
    requires Attached(w) && w.current in w.objects
    ensures var m := MarkCurrent(w, block, sleep, queue);
            m.objects.Keys == w.objects.Keys && m.queues == w.queues && m.sleepOffset == w.sleepOffset &&
            forall a :: a in w.objects ==> m.objects[a].context == w.objects[a].context
  {
  }

  lemma WakeKeepsContexts(w: World)
    ensures var v := WakeDue(w);
            v.objects.Keys == w.objects.Keys && v.queues == w.queues && v.sleepOffset == w.sleepOffset &&
            forall a :: a in w.objects ==> v.objects[a].context == w.objects[a].context
  {
    WakeKeepsKeys(w);
    hide WakeDueThreads, WakeDueObjects;
  }

  lemma AdvanceKeepsContexts(w: World)
    ensures var v := AdvanceClock(w);
            v.objects.Keys == w.objects.Keys && v.queues == w.queues && v.sleepOffset == w.sleepOffset &&
            forall a :: a in w.objects ==> v.objects[a].context == w.objects[a].context
  {
    WakeKeepsContexts(w.(ticks := Max(w.ticks, NextWake(w.threads, |w.threads|))));
    hide WakeDue, NextWake;
  }
}
