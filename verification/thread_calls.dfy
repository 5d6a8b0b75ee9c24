/** The HLE calls that touch threads and message queues, and one step of the machine. */
module ThreadCalls {
  import opened Bits
  import opened GuestThreads

  datatype Call =
    | SendCall | ReceiveCall | SleepCall | YieldCall | CreateCall | ResumeCall | InitQueueCall
    | OtherCall          // an implemented call that neither switches nor touches these objects
    | UnimplementedCall

  /** The bound imports, and the address of OSExitThread that new threads return to. */
  datatype Config = Config(imports: map<Word, Call>, exitThread: Word)

  /**
   * What happens next: guest code runs and leaves arbitrary registers, or the import at CIA is
   * dispatched (`message` is what a send finds at its source, `other` what another call leaves).
   */
  datatype Event = Guest(regs: Registers) | Dispatch(message: Message, other: Registers)

  function Returning(r: Registers, v: Word): Registers
    requires |r.gpr| == 32
  {
    r.(gpr := r.gpr[3 := v])
  }

  predicate Blocking(flags: Word) { flags % 2 == 1 }
  predicate HighPriority(flags: Word) { (flags / 2) % 2 == 1 }

  /** A send that finds room: the front or the back of the deque. */
  function Pushed(q: MessageQueue, m: Message, flags: Word): MessageQueue {
    q.(messages := if HighPriority(flags) then [m] + q.messages else q.messages + [m])
  }

  ghost predicate Ready(w: World) { Known(w.threads, w.objects) && ValidRegisters(w.regs) }

  /** OSSendMessage. */
  ghost function Send(w: World, m: Message): Option<World>
    requires Ready(w)
  {
    var queue, message, flags := w.regs.gpr[3], w.regs.gpr[4], w.regs.gpr[5];
    if queue == 0 || queue !in w.queues then None
    else if |w.queues[queue].messages| >= w.queues[queue].capacity then
      if Blocking(flags) then None else Some(w.(regs := Returning(w.regs, 0)))
    else if message == 0 then None
    else
      var pushed := w.(queues := w.queues[queue := Pushed(w.queues[queue], m, flags)]);
      var woken := WakeReceiver(pushed, queue);
      Some(woken.(regs := Returning(w.regs, 1)))
  }

  /** OSReceiveMessage. A blocked caller is saved at its own import and retries from there. */
  ghost function Receive(w: World): Option<World>
    requires Ready(w)
  {
    var queue, destination, flags := w.regs.gpr[3], w.regs.gpr[4], w.regs.gpr[5];
    if queue == 0 || queue !in w.queues then None
    else if w.queues[queue].messages == [] then
      if !Blocking(flags) then Some(w.(regs := Returning(w.regs, 0)))
      else if destination == 0 then None
      else
        var (v, switched) := Switch(w, true, TICKS_MAX, Option<Word>.Some(w.regs.cia), queue);
        if switched then Some(v) else None
    else if destination == 0 then None
    else
      var q := w.queues[queue];
      Some(w.(queues := w.queues[queue := q.(messages := q.messages[1..])], regs := Returning(w.regs, 1)))
  }

  /** OSSleepTicks takes a signed 64-bit count in r3:r4; only a positive one sleeps. */
  ghost function SleepLength(r: Registers): nat
    requires |r.gpr| == 32
  {
    var raw := (r.gpr[3] as int) * 0x1_0000_0000 + r.gpr[4];
    if raw < 0x8000_0000_0000_0000 then raw else 0
  }

  /** The saturating offset that sleeping adds to the time of day. */
  ghost function OffsetAfter(offset: nat, sleep: nat): nat {
    if sleep == 0 then offset else if sleep > TICKS_MAX - offset then TICKS_MAX else offset + sleep
  }

  ghost function Sleep(w: World): Option<World>
    requires Ready(w)
  {
    var sleep := SleepLength(w.regs);
    var v := w.(sleepOffset := OffsetAfter(w.sleepOffset, sleep));
    Some(Switch(v, sleep > 0, sleep, Option<Word>.None, 0).0)
  }

  /** OSYieldThread. */
  ghost function Yield(w: World): Option<World>
    requires Ready(w)
  {
    Some(Switch(w, false, 0, Option<Word>.None, 0).0)
  }

  /** OSResumeThread on a modelled OSThread object. */
  ghost function ResumeThread(w: World): Option<World>
    requires Ready(w)
  {
    var t := w.regs.gpr[3];
    if t !in w.objects then None
    else
      var previous := w.objects[t].suspend;
      Some(w.(objects := w.objects[t := w.objects[t].(suspend := if previous == 0 then 0 else previous - 1)],
              regs := Returning(w.regs, previous)))
  }

  /** The OSContext of a new thread. */
  function InitialContext(r: Registers, exitThread: Word): Registers
    requires |r.gpr| == 32
  {
    var zero := seq<Word>(32, _ => 0);
    var stack := r.gpr[7] - r.gpr[7] % 8;
    Registers(zero[1 := if stack >= 8 then stack - 8 else 0][2 := r.gpr[2]][3 := r.gpr[5]][4 := r.gpr[6]]
                  [13 := r.gpr[13]],
              seq<DoubleWord>(32, _ => 0), seq<DoubleWord>(32, _ => 0),
              [0, 0, 0x0004_0004, 0x0005_0005, 0x0006_0006, 0x0007_0007, 0, 0],
              0, exitThread, 0, 0, 4, r.gpr[4])
  }

  predicate CreateAccepted(r: Registers)
    requires |r.gpr| == 32
  {
    var thread: int, top: int, size: int := r.gpr[3], r.gpr[7], r.gpr[8];
    && thread != 0 && top != 0 && size != 0 && r.gpr[9] < 32 && r.gpr[10] < 0x20 && top >= size
    && thread + 0x6A0 <= ADDRESS_SPACE_END && top - top % 8 >= top - size + 12
  }

  /** OSCreateThread: the new thread is READY but suspended, or inert without an entry point. */
  ghost function Create(w: World, cfg: Config): Option<World>
    requires Ready(w)
  {
    var r := w.regs;
    var thread, entry, attributes := r.gpr[3], r.gpr[4], r.gpr[10];
    if !CreateAccepted(r) then Some(w.(regs := Returning(r, 0)))
    else if thread in w.objects then None
    else
      var affinity := if attributes % 8 == 0 then attributes + 2 else attributes;
      var o := OsThread(if entry != 0 then READY else 0, affinity, if entry != 0 then 1 else 0,
                        r.gpr[9] + PRIORITY_BASE, InitialContext(r, cfg.exitThread));
      Some(w.(threads := w.threads + [Runtime(thread, 0, false, 0)], objects := w.objects[thread := o],
              regs := Returning(r, 1)))
  }

  /** OSInitMessageQueue. */
  ghost function InitQueue(w: World): Option<World>
    requires Ready(w)
  {
    var queue, size := w.regs.gpr[3], w.regs.gpr[5];
    if queue == 0 || queue + 0x3C > ADDRESS_SPACE_END then None
    else Some(w.(queues := w.queues[queue := MessageQueue(size, [])]))
  }

  ghost function Handle(cfg: Config, w: World, call: Call, e: Event): Option<World>
    requires Ready(w) && e.Dispatch?
  {
    match call
    case SendCall => Send(w, e.message)
    case ReceiveCall => Receive(w)
    case SleepCall => Sleep(w)
    case YieldCall => Yield(w)
    case CreateCall => Create(w, cfg)
    case ResumeCall => ResumeThread(w)
    case InitQueueCall => InitQueue(w)
    case OtherCall => if ValidRegisters(e.other) then Some(w.(regs := e.other)) else None
    case UnimplementedCall => None
  }

  /** One interpreter step. `dispatch` returns to LR unless the call switched threads. */
  ghost function Step(cfg: Config, w: World, e: Event): Option<World>
    requires Ready(w)
  {
    if w.regs.cia in cfg.imports then
      if !e.Dispatch? then None
      else
        var handled := Handle(cfg, w, cfg.imports[w.regs.cia], e);
        if handled.None? then None
        else
          var v := handled.value;
          Some(if v.current == w.current then v.(regs := v.regs.(cia := w.regs.lr)) else v)
    else if e.Guest? && ValidRegisters(e.regs) then Some(w.(regs := e.regs))
    else None
  }
}
