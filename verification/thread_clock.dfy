/** Sleepers and the virtual clock: who a switch wakes, and how far it moves time. */
module ThreadClock {
  import opened Bits
  import opened GuestThreads
  import opened ThreadInvariants

  /** From record `r` to record `s` while the clock reaches `ticks`. */
  ghost predicate Slept(r: Runtime, s: Runtime, ticks: nat) {
    && s.address == r.address
    && (r.sleeping && r.queue != 0 ==> s == r)
    && (r.sleeping && r.queue == 0 ==> s == r || (!s.sleeping && r.wakeTick <= ticks))
    && (!r.sleeping ==> s == r)
  }

  ghost predicate AllSlept(w: World, v: World) {
    && |v.threads| == |w.threads| && v.ticks >= w.ticks
    && forall i :: 0 <= i < |w.threads| ==> Slept(w.threads[i], v.threads[i], v.ticks)
  }

  lemma WakeSlept(w: World)
    requires Records(w)
    ensures AllSlept(w, WakeDue(w))
  {
    hide WakeDueObjects, Unique;
    forall i | 0 <= i < |w.threads| ensures Slept(w.threads[i], WakeDue(w).threads[i], w.ticks) {
      assert Agrees(w.threads[i], w.objects[w.threads[i].address]);
    }
  }

  /** Time moved to the earliest deadline of the sleepers of `w`, and to nothing else. */
  ghost predicate MovedToEarliest(w: World, ticks: nat) {
    && (exists i :: 0 <= i < |w.threads| && w.threads[i].sleeping && w.threads[i].queue == 0 &&
                    w.threads[i].wakeTick == ticks)
    && (forall i :: 0 <= i < |w.threads| && w.threads[i].sleeping && w.threads[i].queue == 0 ==>
          ticks <= w.threads[i].wakeTick)
  }

  lemma AdvanceSlept(w: World)
    requires Loose(w) && Deadlines(w)
    ensures AllSlept(w, AdvanceClock(w))
    ensures if HasDeadline(w) then MovedToEarliest(w, AdvanceClock(w).ticks) && AdvanceClock(w).ticks > w.ticks
            else AdvanceClock(w).ticks == w.ticks
  {
    hide WakeDueObjects, Unique, WakeDueThreads;
    var next := NextWake(w.threads, |w.threads|);
    SomeEarliest(w.threads, |w.threads|);
    if next != TICKS_MAX {
      ClockOnly(w, Max(w.ticks, next));
      WakeSlept(w.(ticks := Max(w.ticks, next)));
      EarliestMeans(w);
    }
  }

  lemma {:induction false} EarliestMeans(w: World)
    requires Loose(w) && Deadlines(w) && NextWake(w.threads, |w.threads|) != TICKS_MAX
    ensures MovedToEarliest(w, NextWake(w.threads, |w.threads|))
    ensures NextWake(w.threads, |w.threads|) > w.ticks
  {
    hide Agrees, Unique;
    SomeEarliest(w.threads, |w.threads|);
    var i :| 0 <= i < |w.threads| && w.threads[i].sleeping && w.threads[i].queue == 0 &&
             w.threads[i].wakeTick == NextWake(w.threads, |w.threads|);
    assert Future(w.threads[i], w.ticks);
  }

  lemma {:induction false} SomeEarliest(threads: seq<Runtime>, n: nat)
    requires n <= |threads|
    ensures forall i :: 0 <= i < n && threads[i].sleeping && threads[i].queue == 0 ==>
              NextWake(threads, n) <= threads[i].wakeTick
    ensures NextWake(threads, n) != TICKS_MAX ==>
              exists i :: 0 <= i < n && threads[i].sleeping && threads[i].queue == 0 &&
                          threads[i].wakeTick == NextWake(threads, n)
    ensures NextWake(threads, n) <= TICKS_MAX
  {
    if n > 0 { SomeEarliest(threads, n - 1); }
  }

  /** Some timed sleeper waits for a finite deadline. */
  ghost predicate HasDeadline(w: World) {
    exists i :: 0 <= i < |w.threads| && w.threads[i].sleeping && w.threads[i].queue == 0 &&
                w.threads[i].wakeTick < TICKS_MAX
  }

  /**
   * The clock after a switch. It moves exactly when the switch blocks, nobody can run once the current
   * thread is marked and the due sleepers are awake, and a deadline is pending; it then moves to the
   * earliest of the deadlines pending in that state.
   */
  ghost predicate ClockMoved(w: World, block: bool, sleep: nat, queue: Word, ticks: nat)
    requires Attached(w)
  {
    var woken := WakeDue(MarkCurrent(w, block, sleep, queue));
    && Known(woken.threads, woken.objects)
    && if block && Select(woken, block, w.objects[w.current].priority) == 0 && HasDeadline(woken)
       then MovedToEarliest(woken, ticks) && ticks > w.ticks
       else ticks == w.ticks
  }

  ghost predicate OthersSlept(w: World, v: World) {
    && |v.threads| == |w.threads| && v.ticks >= w.ticks
    && forall i :: 0 <= i < |w.threads| && w.threads[i].address != w.current ==>
         Slept(w.threads[i], v.threads[i], v.ticks)
  }

  lemma MarkedOthers(w: World, block: bool, sleep: nat, queue: Word, v: World)
    requires Scheduled(w) && Attached(w) && AllSlept(MarkCurrent(w, block, sleep, queue), v)
    ensures OthersSlept(w, v)
  {
    var m := MarkCurrent(w, block, sleep, queue);
    hide Slept, Agrees, Unique;
    forall i | 0 <= i < |w.threads| && w.threads[i].address != w.current
      ensures Slept(w.threads[i], v.threads[i], v.ticks)
    {
      assert m.threads[i] == w.threads[i];
      assert Slept(m.threads[i], v.threads[i], v.ticks);
    }
  }

  /** Once the current thread is marked, records only lose expired sleeps until one is dispatched. */
  lemma PreparedAllSlept(w: World, block: bool, sleep: nat, queue: Word)
    requires Scheduled(w)
    ensures Attached(w) && AllSlept(MarkCurrent(w, block, sleep, queue), Prepare(w, block, sleep, queue).0)
    ensures ClockMoved(w, block, sleep, queue, Prepare(w, block, sleep, queue).0.ticks)
  {
    MarkedLoose(w, block, sleep, queue);
    MarkedShape(w, block, sleep, queue);
    hide Scheduled, Records, Loose, Deadlines, WakeDue, AdvanceClock, MarkCurrent, Select, AllSlept, MovedToEarliest,
         HasDeadline;
    var m := MarkCurrent(w, block, sleep, queue);
    WakeDueLoose(m);
    LooseRecords(m);
    WakeSlept(m);
    AdvanceLoose(WakeDue(m));
    AdvanceSlept(WakeDue(m));
    SleptTwice(m, WakeDue(m), AdvanceClock(WakeDue(m)));
  }

  lemma PreparedSlept(w: World, block: bool, sleep: nat, queue: Word)
    requires Scheduled(w)
    ensures Attached(w) && OthersSlept(w, Prepare(w, block, sleep, queue).0)
    ensures ClockMoved(w, block, sleep, queue, Prepare(w, block, sleep, queue).0.ticks)
  {
    hide Scheduled, ClockMoved, AllSlept, OthersSlept, Prepare, MarkCurrent;
    PreparedAllSlept(w, block, sleep, queue);
    MarkedOthers(w, block, sleep, queue, Prepare(w, block, sleep, queue).0);
  }

  lemma LooseRecords(w: World)
    requires Loose(w)
    ensures Records(w)
  {
  }

  /**
   * The clock and the sleepers across one switch call: queue waiters are untouched, a timed sleeper
   * wakes only at or after its deadline, and the clock moves exactly as ClockMoved says.
   */
  lemma SwitchRespectsDeadlines(w: World, block: bool, sleep: nat, resumeCia: Option<Word>, queue: Word)
    requires Scheduled(w)
    ensures Known(w.threads, w.objects) && Attached(w)
    ensures OthersSlept(w, Switch(w, block, sleep, resumeCia, queue).0)
    ensures ClockMoved(w, block, sleep, queue, Switch(w, block, sleep, resumeCia, queue).0.ticks)
  {
    PreparedSlept(w, block, sleep, queue);
    CurrentOnly(w, block, sleep, resumeCia, queue);
    var v, u := Prepare(w, block, sleep, queue).0, Switch(w, block, sleep, resumeCia, queue).0;
    hide Scheduled, Prepare, Switch, Slept, ClockMoved;
    forall i | 0 <= i < |w.threads| && w.threads[i].address != w.current
      ensures Slept(w.threads[i], u.threads[i], u.ticks)
    {
      SleptAddress(w.threads[i], v.threads[i], v.ticks);
    }
  }

  lemma SleptAddress(r: Runtime, s: Runtime, ticks: nat)
    requires Slept(r, s, ticks)
    ensures s.address == r.address
  {
  }

  lemma SleptTwice(a: World, b: World, c: World)
    requires AllSlept(a, b) && AllSlept(b, c)
    ensures AllSlept(a, c)
  {
    forall i | 0 <= i < |a.threads| ensures Slept(a.threads[i], c.threads[i], c.ticks) {
      assert Slept(a.threads[i], b.threads[i], b.ticks) && Slept(b.threads[i], c.threads[i], c.ticks);
    }
  }

  /** After the preparation a switch changes no record but the current one, and not the clock. */
  lemma CurrentOnly(w: World, block: bool, sleep: nat, resumeCia: Option<Word>, queue: Word)
    requires Scheduled(w) && Attached(w)
    ensures var (v, next) := Prepare(w, block, sleep, queue);
            var u := Switch(w, block, sleep, resumeCia, queue).0;
            && u.ticks == v.ticks && |u.threads| == |v.threads|
            && forall i :: 0 <= i < |v.threads| && v.threads[i].address != w.current ==> u.threads[i] == v.threads[i]
  {
    hide Prepare, Unique, Agrees;
    PreparedLoose(w, block, sleep, queue);
  }

  /** Only a successful blocking switch on a queue leaves the caller waiting for that queue. */
  lemma CurrentWaits(w: World, block: bool, sleep: nat, resumeCia: Option<Word>, queue: Word)
    requires Scheduled(w)
    ensures Attached(w)
    ensures var (v, switched) := Switch(w, block, sleep, resumeCia, queue);
            var i := FindThread(w.threads, w.current);
            && |v.threads| == |w.threads| && v.threads[i].address == w.current
            && (v.threads[i].sleeping && v.threads[i].queue != 0 ==>
                  switched && block && v.threads[i].queue == queue)
  {
    PreparedAllSlept(w, block, sleep, queue);
    PreparedLoose(w, block, sleep, queue);
    var (u, next) := Prepare(w, block, sleep, queue);
    var i := FindThread(w.threads, w.current);
    assert Slept(MarkCurrent(w, block, sleep, queue).threads[i], u.threads[i], u.ticks);
    assert u.threads[i].address == w.current;
    FindsUnique(u.threads, i);
    hide Scheduled, Loose, Prepare, Deadlines, AllSlept, ClockMoved;
  }
}
