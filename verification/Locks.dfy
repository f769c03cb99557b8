/** The reentrant lock of kernel/sync.c under preemption, and the tasks that wait for the disk.

    A transition system over the scheduler of `Scheduler`. Every task has a program counter naming the
    next memory access it performs inside Lock_Lock or Lock_UnLock; increments and decrements are split
    into a load and a store. The timer may fire between any two steps at which interrupts are on;
    Lock_P and Lock_V run with interrupts off, so each of their passes is one step.

    A disk channel (kernel/device/ide.c:117-124, 177-281, 412-427) has a semaphore, `diskDone`, which is a
    lock structure used through Lock_P and Lock_V only. The owner of the channel's lock announces a command,
    sends it and waits on the semaphore; the interrupt of the disk, wanted or stray, may come wherever
    interrupts are on, and its handler performs Lock_V. What ties semaphore, flag and commands together is
    the subject of `DiskChannel`.

    Repaired: Thread_UnBlock (thread.c:226) turns interrupts on although Lock_V (sync.c:39) relies on
    them being off; here it leaves them alone. `Advance(w, true)` keeps the text as it is written, so
    that the timer can fire inside Lock_V; the end of the module shows what that costs. */
module Locks {
  import opened Common
  import S = Scheduler

  /** `owner` is a history variable: the task that has passed Lock_P and not yet Lock_V. */
  datatype Lock = Lock(value: nat, holder: Option<nat>, repeatNum: nat, waiters: seq<nat>, owner: Option<nat>)

  /** An interrupt of the disk: the completion of a command, or nobody's. */
  datatype Irq = Of(command: nat) | Stray

  /** A disk channel: its lock, the flag, and the commands the drive has been given and not yet answered;
      `next` numbers the commands. History variables: the task with a command under way, and for each command
      so far the interrupt that was taken for its own. */
  datatype Channel = Channel(lock: nat, expectingIntr: bool, user: Option<nat>,
                             inFlight: set<nat>, next: nat, taken: seq<(nat, Irq)>)

  datatype PC =
    | Outside
      // Lock_Lock
    | TestHolder(l: nat)
    | EnterP(l: nat)
    | RecheckP(l: nat)
    | SetHolder(l: nat)
    | FirstLoad(l: nat)
    | FirstStore(l: nat, reg: nat)
    | FirstAssert(l: nat)
    | AgainLoad(l: nat)
    | AgainStore(l: nat, reg: nat)
      // Lock_UnLock
    | AssertHolder(l: nat)
    | TestRepeat(l: nat)
    | LessLoad(l: nat)
    | LessStore(l: nat, reg: nat)
    | ClearHolder(l: nat)
    | LastLoad(l: nat)
    | LastStore(l: nat, reg: nat)
    | EnterV(l: nat)
      // Lock_V as written, after Thread_UnBlock has turned interrupts on
    | WakePopped(l: nat, task: nat)
    | AddValue(l: nat)
      // Ide_CmdOut, between setting expectingIntr and writing the command register; l is the semaphore
    | SendCmd(l: nat)

  /** `chans` are the disk channels by their semaphore, which is one of `locks`.
      `depth[(t, l)]` counts the calls of Lock_Lock(l) that task t has completed and not yet undone. */
  datatype World = World(sched: S.State, locks: map<nat, Lock>, pcs: map<nat, PC>, depth: map<(nat, nat), nat>,
                         chans: map<nat, Channel>)

  datatype Result = Next(world: World) | Halt

  datatype Event =
    | Timer
    | CallLock(l: nat)
    | CallUnLock(l: nat)
    | Proceed
    | YieldCpu
    | Spawn(task: nat, priority: nat)
    | Announce(d: nat)
    | Interrupt(d: nat, irq: Irq)

  function Pc(w: World, t: nat): PC {
    if t in w.pcs then w.pcs[t] else Outside
  }

  function Depth(w: World, t: nat, l: nat): nat {
    if (t, l) in w.depth then w.depth[(t, l)] else 0
  }

  function PcLock(p: PC): Option<nat> {
    if p.Outside? then None else Some(p.l)
  }

  function Me(w: World): nat {
    w.sched.current
  }

  function Goto(w: World, p: PC): World {
    w.(pcs := w.pcs[Me(w) := p])
  }

  function SetLock(w: World, l: nat, k: Lock): World {
    w.(locks := w.locks[l := k])
  }

  function SetDepth(w: World, l: nat, d: nat): World {
    w.(depth := w.depth[(Me(w), l) := d])
  }

  function SetChan(w: World, d: nat, c: Channel): World {
    w.(chans := w.chans[d := c])
  }

  // ---------------------------------------------------------------- steps

  /** One pass of the loop of Lock_P, on a lock or on the semaphore of a channel. */
  function PassP(w: World, l: nat): Result
    requires S.Known(w.sched) && l in w.locks
  {
    var k := w.locks[l];
    if k.value == 0 then
      if Me(w) in k.waiters then Halt
      else
        match S.AfterBlock(w.sched, S.Blocked)
        case Panic => Halt
        case Ok(s) =>
          Next(Goto(SetLock(w, l, k.(waiters := k.waiters + [Me(w)])), RecheckP(l)).(sched := s))
    else if k.value != 1 then Halt
    else if l in w.chans then
      Next(Goto(SetChan(SetLock(w, l, k.(value := 0)), l,
                        w.chans[l].(user := None, next := w.chans[l].next + 1)), Outside))
    else Next(Goto(SetLock(w, l, k.(value := 0, owner := Some(Me(w)))), SetHolder(l)))
  }

  /** Lock_V on the semaphore by the handler, on top of whatever task is running. */
  function HandlerV(w: World, d: nat): Result
    requires S.Known(w.sched) && d in w.locks
  {
    var k := w.locks[d];
    if k.value != 0 then Halt
    else if k.waiters == [] then Next(SetLock(w, d, k.(value := 1)))
    else if k.waiters[0] !in w.sched.tasks then Halt
    else
      match S.AfterUnBlock(w.sched, k.waiters[0])
      case Panic => Halt
      case Ok(s) => Next(SetLock(w, d, k.(value := 1, waiters := k.waiters[1..])).(sched := s))
  }

  /** Ide_IntrHdHandler. */
  function OnInterrupt(w: World, d: nat, irq: Irq): Result
    requires S.Known(w.sched) && d in w.locks && d in w.chans
  {
    var c := w.chans[d];
    var rest := if irq.Of? then c.inFlight - {irq.command} else c.inFlight;
    if c.expectingIntr then
      HandlerV(SetChan(w, d, c.(inFlight := rest, expectingIntr := false, taken := c.taken + [(c.next, irq)])), d)
    else Next(SetChan(w, d, c.(inFlight := rest)))
  }

  /** Lock_V in one step: nothing can happen between its first and its last instruction. */
  function WholeV(w: World, l: nat): Result
    requires S.Known(w.sched) && l in w.locks
  {
    var k := w.locks[l];
    if k.value != 0 then Halt
    else if k.waiters == [] then
      Next(SetDepth(Goto(SetLock(w, l, k.(value := 1, owner := None)), Outside), l, 0))
    else if k.waiters[0] !in w.sched.tasks then Halt
    else
      match S.AfterUnBlock(w.sched, k.waiters[0])
      case Panic => Halt
      case Ok(s) =>
        Next(SetDepth(Goto(SetLock(w, l, k.(value := 1, owner := None, waiters := k.waiters[1..])), Outside), l, 0)
             .(sched := s))
  }

  /** Lock_V as written up to the point where Thread_UnBlock turns interrupts on. */
  function OpenV(w: World, l: nat): Result
    requires S.Known(w.sched) && l in w.locks
  {
    var k := w.locks[l];
    if k.value != 0 || k.waiters == [] then WholeV(w, l)
    else Next(Goto(SetLock(w, l, k.(waiters := k.waiters[1..])), WakePopped(l, k.waiters[0])))
  }

  /** The next step of the running task; `window` keeps the stray interrupt enable. */
  function Advance(w: World, window: bool): Result
    requires S.Known(w.sched) && !Pc(w, Me(w)).Outside?
  {
    var me := Me(w);
    var p := Pc(w, me);
    var l := p.l;
    if l !in w.locks then Halt else
    var k := w.locks[l];
    match p
    case TestHolder(_) => Next(Goto(w, if k.holder != Some(me) then EnterP(l) else AgainLoad(l)))
    case EnterP(_) => PassP(w, l)
    case RecheckP(_) => PassP(w, l)
    case SetHolder(_) => Next(Goto(SetLock(w, l, k.(holder := Some(me))), FirstLoad(l)))
    case FirstLoad(_) => Next(Goto(w, FirstStore(l, k.repeatNum)))
    case FirstStore(_, reg) => Next(Goto(SetLock(w, l, k.(repeatNum := reg + 1)), FirstAssert(l)))
    case FirstAssert(_) =>
      if k.repeatNum != 1 then Halt else Next(SetDepth(Goto(w, Outside), l, Depth(w, me, l) + 1))
    case AgainLoad(_) => Next(Goto(w, AgainStore(l, k.repeatNum)))
    case AgainStore(_, reg) =>
      Next(SetDepth(Goto(SetLock(w, l, k.(repeatNum := reg + 1)), Outside), l, Depth(w, me, l) + 1))
    case AssertHolder(_) => if k.holder != Some(me) then Halt else Next(Goto(w, TestRepeat(l)))
    case TestRepeat(_) => Next(Goto(w, if k.repeatNum > 1 then LessLoad(l) else ClearHolder(l)))
    case LessLoad(_) => Next(Goto(w, LessStore(l, k.repeatNum)))
    case LessStore(_, reg) =>
      if reg == 0 || Depth(w, me, l) == 0 then Halt
      else Next(SetDepth(Goto(SetLock(w, l, k.(repeatNum := reg - 1)), Outside), l, Depth(w, me, l) - 1))
    case ClearHolder(_) => Next(Goto(SetLock(w, l, k.(holder := None)), LastLoad(l)))
    case LastLoad(_) => Next(Goto(w, LastStore(l, k.repeatNum)))
    case LastStore(_, reg) =>
      if reg == 0 then Halt else Next(Goto(SetLock(w, l, k.(repeatNum := reg - 1)), EnterV(l)))
    case EnterV(_) => if window then OpenV(w, l) else WholeV(w, l)
    case WakePopped(_, t) =>
      if t !in w.sched.tasks then Halt
      else (match S.AfterUnBlock(w.sched, t)
       case Panic => Halt
       case Ok(s) => Next(Goto(w, AddValue(l)).(sched := s)))
    case AddValue(_) =>
      if k.value != 0 then Halt
      else Next(SetDepth(Goto(SetLock(w, l, k.(value := 1, owner := None)), Outside), l, 0))
    case SendCmd(_) =>
      if l !in w.chans then Halt
      else
        var c := w.chans[l];
        Next(SetChan(Goto(w, EnterP(l)), l, c.(inFlight := c.inFlight + {c.next})))
  }

  /** The timer is masked only for a task that has just been switched back into the loop of Lock_P. */
  predicate InterruptsOn(p: PC) {
    !p.RecheckP?
  }

  /** A task may call Lock_UnLock only for a lock it has taken, and give a command to a channel only while
      it has its lock; the rest is up to it. Between command and wait it may sleep (Ide_BusyWait). The
      interrupt that completes a command can come as soon as the drive has it, a stray one at any time. */
  predicate Enabled(w: World, e: Event) {
    var p := Pc(w, Me(w));
    match e
    case Timer => InterruptsOn(p)
    case CallLock(l) => p.Outside? && l in w.locks && l !in w.chans
    case CallUnLock(l) => p.Outside? && l in w.locks && l !in w.chans && Depth(w, Me(w), l) > 0
    case Proceed => !p.Outside?
    case YieldCpu => p.Outside? || (p.EnterP? && p.l in w.chans)
    case Spawn(t, _) => p.Outside? && t !in w.sched.tasks
    case Announce(d) => p.Outside? && d in w.locks && d in w.chans && Depth(w, Me(w), w.chans[d].lock) > 0
    case Interrupt(d, irq) =>
      InterruptsOn(p) && d in w.locks && d in w.chans && (irq.Of? ==> irq.command in w.chans[d].inFlight)
  }

  function OfSched(w: World, o: S.Outcome): Result {
    match o
    case Panic => Halt
    case Ok(s) => Next(w.(sched := s))
  }

  function Step(w: World, e: Event, window: bool): Result
    requires S.Known(w.sched) && Enabled(w, e)
  {
    match e
    case Timer => OfSched(w, S.AfterTick(w.sched))
    case CallLock(l) => Next(Goto(w, TestHolder(l)))
    case CallUnLock(l) => Next(Goto(w, AssertHolder(l)))
    case Proceed => Advance(w, window)
    case YieldCpu => OfSched(w, S.AfterYield(w.sched))
    case Spawn(t, p) => OfSched(w.(pcs := w.pcs[t := Outside]), S.AfterCreate(w.sched, t, p))
    case Announce(d) => Next(SetChan(Goto(w, SendCmd(d)), d, w.chans[d].(expectingIntr := true, user := Some(Me(w)))))
    case Interrupt(d, irq) => OnInterrupt(w, d, irq)
  }

  /** Lock_P is about to put the running task to sleep on lock l. */
  predicate WillSleep(w: World, e: Event) {
    && e.Proceed?
    && (Pc(w, Me(w)).EnterP? || Pc(w, Me(w)).RecheckP?)
    && Pc(w, Me(w)).l in w.locks
    && w.locks[Pc(w, Me(w)).l].value == 0
  }

  // ---------------------------------------------------------------- the invariant

  /** Points at which a task owns lock l although `depth` does not say so yet, or still says so. */
  predicate OwningAt(p: PC, l: nat) {
    && PcLock(p) == Some(l)
    && !p.TestHolder? && !p.EnterP? && !p.RecheckP? && !p.SendCmd?
  }

  /** What the fields of a lock look like while task o owns it, depending on where o is. */
  predicate OwnerView(k: Lock, o: nat, p: PC, d: nat, l: nat) {
    if PcLock(p) != Some(l) then k.holder == Some(o) && k.repeatNum == d > 0
    else match p
      case TestHolder(_) => k.holder == Some(o) && k.repeatNum == d > 0
      case EnterP(_) => false
      case RecheckP(_) => false
      case SetHolder(_) => k.holder == None && k.repeatNum == d == 0
      case FirstLoad(_) => k.holder == Some(o) && k.repeatNum == d == 0
      case FirstStore(_, reg) => k.holder == Some(o) && reg == k.repeatNum == d == 0
      case FirstAssert(_) => k.holder == Some(o) && k.repeatNum == 1 && d == 0
      case AgainLoad(_) => k.holder == Some(o) && k.repeatNum == d > 0
      case AgainStore(_, reg) => k.holder == Some(o) && reg == k.repeatNum == d > 0
      case AssertHolder(_) => k.holder == Some(o) && k.repeatNum == d > 0
      case TestRepeat(_) => k.holder == Some(o) && k.repeatNum == d > 0
      case LessLoad(_) => k.holder == Some(o) && k.repeatNum == d > 1
      case LessStore(_, reg) => k.holder == Some(o) && reg == k.repeatNum == d > 1
      case ClearHolder(_) => k.holder == Some(o) && k.repeatNum == d == 1
      case LastLoad(_) => k.holder == None && k.repeatNum == d == 1
      case LastStore(_, reg) => k.holder == None && reg == k.repeatNum == d == 1
      case EnterV(_) => k.holder == None && k.repeatNum == 0 && d == 1
      case WakePopped(_, _) => false
      case AddValue(_) => false
      case SendCmd(_) => false
  }

  /** Task t sleeps in Lock_P on lock l. */
  predicate SleepsOn(w: World, t: nat, l: nat) {
    t in w.sched.tasks && w.sched.tasks[t].status == S.Blocked && Pc(w, t) == RecheckP(l)
  }

  /** Task t was woken from lock l, can run, and has yet to look at the lock again. */
  predicate WokenFrom(w: World, t: nat, l: nat) {
    && t in w.sched.tasks && Pc(w, t) == RecheckP(l)
    && (w.sched.tasks[t].status == S.Ready || w.sched.tasks[t].status == S.Running)
  }

  /** A free lock with sleepers has a woken task on its way. */
  ghost predicate NoLostWakeUp(w: World, l: nat)
    requires l in w.locks
  {
    w.locks[l].value == 1 && w.locks[l].waiters != [] ==> exists t :: WokenFrom(w, t, l)
  }

  ghost predicate OwnershipOk(w: World, l: nat)
    requires l in w.locks
  {
    var k := w.locks[l];
    && (if l in w.chans then k.value <= 1 && k.owner.None? else k.value == (if k.owner.Some? then 0 else 1))
    && (k.owner.None? ==> k.holder.None? && k.repeatNum == 0)
    && (k.owner.Some? ==>
          k.owner.value in w.sched.tasks
          && OwnerView(k, k.owner.value, Pc(w, k.owner.value), Depth(w, k.owner.value, l), l))
    && (forall t :: t in w.sched.tasks && k.owner != Some(t) ==> Depth(w, t, l) == 0 && !OwningAt(Pc(w, t), l))
  }

  ghost predicate WaitersOk(w: World, l: nat)
    requires l in w.locks
  {
    var k := w.locks[l];
    && NoDup(k.waiters)
    && (forall t :: t in k.waiters <==> SleepsOn(w, t, l))
  }

  ghost predicate LockOk(w: World, l: nat)
    requires l in w.locks
  {
    OwnershipOk(w, l) && WaitersOk(w, l) && NoLostWakeUp(w, l)
  }

  predicate Locking(p: PC) {
    p.TestHolder? || p.SetHolder? || p.FirstLoad? || p.FirstStore? || p.FirstAssert? || p.AgainLoad? || p.AgainStore?
  }

  predicate Unlocking(p: PC) {
    p.AssertHolder? || p.TestRepeat? || p.LessLoad? || p.LessStore? || p.ClearHolder? || p.LastLoad? || p.LastStore?
  }

  /** Per task: the statuses that occur, and that sleeping happens in Lock_P only. */
  predicate TaskOk(w: World, t: nat)
    requires t in w.sched.tasks
  {
    var status := w.sched.tasks[t].status;
    && (status == S.Running || status == S.Ready || status == S.Blocked)
    && (status == S.Blocked ==> Pc(w, t).RecheckP?)
    && (PcLock(Pc(w, t)).Some? ==> Pc(w, t).l in w.locks)
    && (Locking(Pc(w, t)) || Unlocking(Pc(w, t)) || Pc(w, t).EnterV? ==> Pc(w, t).l !in w.chans)
    && (Pc(w, t).SendCmd? ==> Pc(w, t).l in w.chans)
    && !Pc(w, t).WakePopped? && !Pc(w, t).AddValue?
  }

  /** The locks and the tasks agree, whatever the ready queue looks like. */
  ghost predicate LocksInv(w: World) {
    && w.sched.current in w.sched.tasks && w.sched.tasks[w.sched.current].status == S.Running
    && (forall t {:trigger TaskOk(w, t)} :: t in w.sched.tasks ==> TaskOk(w, t))
    && (forall t :: t in w.pcs ==> t in w.sched.tasks)
    && (forall t, l :: (t, l) in w.depth ==> t in w.sched.tasks)
    && (forall l {:trigger LockOk(w, l)} :: l in w.locks ==> LockOk(w, l))
  }

  ghost predicate Inv(w: World) {
    S.Inv(w.sched) && LocksInv(w)
  }

  function FreshLock(): Lock {
    Lock(1, None, 0, [], None)
  }

  /** A semaphore starts at 0 (Ide_Init), a lock at 1. `chans` gives each channel's semaphore its lock. */
  function Boot(main: nat, locks: set<nat>, chans: map<nat, nat>): World {
    World(S.Boot(main),
          map l | l in locks + chans.Keys :: if l in chans then Lock(0, None, 0, [], None) else FreshLock(),
          map[], map[],
          map d | d in chans :: Channel(chans[d], false, None, {}, 0, []))
  }

  lemma BootSatisfiesInv(main: nat, locks: set<nat>, chans: map<nat, nat>)
    ensures Inv(Boot(main, locks, chans))
  {
    var w := Boot(main, locks, chans);
    assert forall l :: l in w.locks ==> LockOk(w, l);
  }

  // ---------------------------------------------------------------- frames

  /** Nothing that lock l depends on differs between the two worlds. */
  ghost predicate SameFor(w: World, w': World, l: nat) {
    && l in w.locks && l in w'.locks && w'.locks[l] == w.locks[l] && w'.chans.Keys == w.chans.Keys
    && (forall t :: t in w.sched.tasks ==> t in w'.sched.tasks)
    && (forall t :: t in w'.sched.tasks && t !in w.sched.tasks ==>
          PcLock(Pc(w', t)) != Some(l) && Depth(w', t, l) == 0)
    && (forall t :: t in w.sched.tasks ==>
          && Depth(w', t, l) == Depth(w, t, l)
          && (Pc(w', t) == Pc(w, t) || (PcLock(Pc(w, t)) != Some(l) && PcLock(Pc(w', t)) != Some(l))))
    && (forall t :: t in w.sched.tasks && Pc(w, t) == RecheckP(l) ==>
          (w'.sched.tasks[t].status == S.Blocked <==> w.sched.tasks[t].status == S.Blocked))
  }

  lemma LockFrame(w: World, w': World, l: nat)
    requires SameFor(w, w', l) && LockOk(w, l)
    requires forall t {:trigger TaskOk(w, t)} :: t in w.sched.tasks ==> TaskOk(w, t)
    requires forall t {:trigger TaskOk(w', t)} :: t in w'.sched.tasks ==> TaskOk(w', t)
    ensures LockOk(w', l)
  {
    assert OwnershipOk(w', l);
    forall t
      ensures SleepsOn(w', t, l) <==> SleepsOn(w, t, l)
    {
    }
    assert WaitersOk(w', l);
    if w'.locks[l].value == 1 && w'.locks[l].waiters != [] {
      var t :| WokenFrom(w, t, l);
      assert TaskOk(w', t);
      assert WokenFrom(w', t, l);
    }
  }

  /** A step that leaves the queues of lock l alone keeps its sleepers and its woken tasks. */
  lemma WaitersFrame(w: World, w': World, l: nat)
    requires l in w.locks && l in w'.locks && WaitersOk(w, l)
    requires w'.locks[l].waiters == w.locks[l].waiters
    requires forall t :: SleepsOn(w', t, l) <==> SleepsOn(w, t, l)
    ensures WaitersOk(w', l)
  {
  }

  /** The running task moves on inside the code for lock l and touches only `holder` and
      `repeatNum`; whether it owned the lock does not change. */
  lemma LocalLock(w: World, w': World, l: nat)
    requires l in w.locks && l in w'.locks && LockOk(w, l) && w'.sched == w.sched && w'.chans.Keys == w.chans.Keys
    requires Me(w) in w.sched.tasks && w.sched.tasks[Me(w)].status == S.Running
    requires var k, k' := w.locks[l], w'.locks[l];
             k'.value == k.value && k'.waiters == k.waiters && k'.owner == k.owner
    requires forall t :: t in w.sched.tasks && t != Me(w) ==>
               Pc(w', t) == Pc(w, t) && Depth(w', t, l) == Depth(w, t, l)
    requires !Pc(w, Me(w)).RecheckP? && !Pc(w', Me(w)).RecheckP?
    requires w.locks[l].owner == Some(Me(w)) ==>
               OwnerView(w'.locks[l], Me(w), Pc(w', Me(w)), Depth(w', Me(w), l), l)
    requires w.locks[l].owner != Some(Me(w)) ==>
               w'.locks[l] == w.locks[l] && Depth(w', Me(w), l) == 0 && !OwningAt(Pc(w', Me(w)), l)
    ensures LockOk(w', l)
  {
    assert OwnershipOk(w', l);
    WaitersFrame(w, w', l);
    if w'.locks[l].value == 1 && w'.locks[l].waiters != [] {
      var t :| WokenFrom(w, t, l);
      assert WokenFrom(w', t, l);
    }
  }

  /** All a step of the running task may touch: lock l, its own counter and its own depth on l. */
  ghost predicate Touches(w: World, w': World, l: nat) {
    && l in w.locks && l in w'.locks && w'.chans.Keys == w.chans.Keys
    && (forall x :: x in w'.locks <==> x in w.locks)
    && (forall x :: x in w.locks && x != l ==> w'.locks[x] == w.locks[x])
    && w'.pcs == w.pcs[Me(w) := Pc(w', Me(w))]
    && (w'.depth == w.depth || w'.depth == w.depth[(Me(w), l) := Depth(w', Me(w), l)])
    && (PcLock(Pc(w, Me(w))) == Some(l) || PcLock(Pc(w, Me(w))) == None)
    && (PcLock(Pc(w', Me(w))) == Some(l) || PcLock(Pc(w', Me(w))) == None)
    && (forall t :: t in w'.sched.tasks <==> t in w.sched.tasks)
    && (forall t :: t in w.sched.tasks && !(PcLock(Pc(w, t)) == Some(l)) ==>
          (w'.sched.tasks[t].status == S.Blocked <==> w.sched.tasks[t].status == S.Blocked))
  }

  lemma TouchSparesOthers(w: World, w': World, l: nat, x: nat)
    requires Touches(w, w', l) && x in w.locks && x != l
    ensures SameFor(w, w', x)
  {
  }

  lemma OtherLocks(w: World, w': World, l: nat)
    requires LocksInv(w) && Touches(w, w', l)
    requires forall t {:trigger TaskOk(w', t)} :: t in w'.sched.tasks ==> TaskOk(w', t)
    ensures forall x {:trigger LockOk(w', x)} :: x in w'.locks && x != l ==> LockOk(w', x)
  {
    forall x | x in w'.locks && x != l
      ensures LockOk(w', x)
    {
      assert LockOk(w, x);
      TouchSparesOthers(w, w', l, x);
      LockFrame(w, w', x);
    }
  }

  /** Reassembling the invariant after a step of the running task. */
  lemma AfterTouch(w: World, w': World, l: nat)
    requires LocksInv(w) && Touches(w, w', l)
    requires Me(w') in w'.sched.tasks && w'.sched.tasks[Me(w')].status == S.Running
    requires forall t {:trigger TaskOk(w', t)} :: t in w'.sched.tasks ==> TaskOk(w', t)
    requires LockOk(w', l)
    ensures LocksInv(w')
  {
    OtherLocks(w, w', l);
  }

  lemma LocalTasks(w: World, w': World, l: nat)
    requires LocksInv(w) && Touches(w, w', l) && w'.sched == w.sched && TaskOk(w', Me(w))
    ensures forall t {:trigger TaskOk(w', t)} :: t in w'.sched.tasks ==> TaskOk(w', t)
  {
    forall t | t in w'.sched.tasks
      ensures TaskOk(w', t)
    {
      assert TaskOk(w, t);
    }
  }

  lemma LocalStep(w: World, w': World, l: nat)
    requires LocksInv(w) && Touches(w, w', l) && w'.sched == w.sched
    requires var k, k' := w.locks[l], w'.locks[l];
             k'.value == k.value && k'.waiters == k.waiters && k'.owner == k.owner
    requires !Pc(w, Me(w)).RecheckP? && TaskOk(w', Me(w)) && !Pc(w', Me(w)).RecheckP?
    requires w.locks[l].owner == Some(Me(w)) ==>
               OwnerView(w'.locks[l], Me(w), Pc(w', Me(w)), Depth(w', Me(w), l), l)
    requires w.locks[l].owner != Some(Me(w)) ==>
               w'.locks[l] == w.locks[l] && Depth(w', Me(w), l) == 0 && !OwningAt(Pc(w', Me(w)), l)
    ensures LocksInv(w')
  {
    LocalTasks(w, w', l);
    assert LockOk(w, l);
    LocalLock(w, w', l);
    AfterTouch(w, w', l);
  }

  /** The scheduler moves tasks between RUNNING and READY only. */
  ghost predicate Switched(s: S.State, s': S.State) {
    && s'.current in s'.tasks && s'.tasks[s'.current].status == S.Running
    && (forall t :: t in s.tasks ==> t in s'.tasks)
    && (forall t :: t in s.tasks ==>
          s'.tasks[t].status == s.tasks[t].status
          || ((s.tasks[t].status == S.Running || s.tasks[t].status == S.Ready)
              && (s'.tasks[t].status == S.Running || s'.tasks[t].status == S.Ready)))
    && (forall t :: t in s'.tasks && t !in s.tasks ==> s'.tasks[t].status == S.Ready)
  }

  ghost predicate SwitchOnly(w: World, w': World) {
    && Switched(w.sched, w'.sched) && w'.locks == w.locks && w'.depth == w.depth && w'.chans == w.chans
    && (forall t :: t in w.sched.tasks ==> Pc(w', t) == Pc(w, t))
    && (forall t :: t in w'.sched.tasks && t !in w.sched.tasks ==> Pc(w', t) == Outside)
    && (forall t :: t in w'.pcs ==> t in w'.sched.tasks)
  }

  lemma SwitchSparesLocks(w: World, w': World, l: nat)
    requires SwitchOnly(w, w') && l in w.locks
    requires forall t, x :: (t, x) in w.depth ==> t in w.sched.tasks
    ensures SameFor(w, w', l)
  {
  }

  lemma SwitchKeepsTask(w: World, w': World, t: nat)
    requires SwitchOnly(w, w') && t in w'.sched.tasks
    requires t in w.sched.tasks ==> TaskOk(w, t)
    ensures TaskOk(w', t)
  {
  }

  lemma SwitchStep(w: World, w': World)
    requires LocksInv(w) && SwitchOnly(w, w')
    ensures LocksInv(w')
  {
    forall t | t in w'.sched.tasks
      ensures TaskOk(w', t)
    {
      assert t in w.sched.tasks ==> TaskOk(w, t);
      SwitchKeepsTask(w, w', t);
    }
    forall l | l in w'.locks
      ensures LockOk(w', l)
    {
      assert LockOk(w, l);
      SwitchSparesLocks(w, w', l);
      LockFrame(w, w', l);
    }
  }

  lemma TickSwitches(s: S.State)
    requires S.Inv(s)
    ensures S.AfterTick(s).Ok? && S.Inv(S.AfterTick(s).state) && Switched(s, S.AfterTick(s).state)
  {
    S.TimerKeepsInv(s);
  }

  lemma YieldSwitches(s: S.State)
    requires S.Inv(s)
    ensures S.AfterYield(s).Ok? && S.Inv(S.AfterYield(s).state) && Switched(s, S.AfterYield(s).state)
  {
    S.YieldKeepsInv(s);
  }

  lemma CreateSwitches(s: S.State, t: nat, p: nat)
    requires S.Inv(s) && t !in s.tasks
    ensures var r := S.AfterCreate(s, t, p); r.Ok? && S.Inv(r.state) && Switched(s, r.state)
    ensures var r := S.AfterCreate(s, t, p); r.state.tasks.Keys == s.tasks.Keys + {t}
  {
    S.CreateKeepsInv(s, t, p);
  }

  // ---------------------------------------------------------------- the three interesting steps

  lemma AcquireKeepsInv(w: World, l: nat)
    requires LocksInv(w) && S.Known(w.sched) && l in w.locks && w.locks[l].value != 0
    requires Pc(w, Me(w)) == EnterP(l) || Pc(w, Me(w)) == RecheckP(l)
    ensures PassP(w, l).Next? && PassP(w, l).world.sched == w.sched && LocksInv(PassP(w, l).world)
  {
    assert LockOk(w, l);
    var w' := PassP(w, l).world;
    AcquireTasks(w, w', l);
    AcquiredLock(w, w', l);
    hide LockOk;
    AfterTouch(w, w', l);
  }

  lemma AcquireTasks(w: World, w': World, l: nat)
    requires LocksInv(w) && w'.sched == w.sched && w'.locks.Keys == w.locks.Keys && w'.chans.Keys == w.chans.Keys
    requires w'.pcs == w.pcs[Me(w) := if l in w.chans then Outside else SetHolder(l)] && l in w.locks
    ensures forall t {:trigger TaskOk(w', t)} :: t in w'.sched.tasks ==> TaskOk(w', t)
  {
    forall t | t in w'.sched.tasks
      ensures TaskOk(w', t)
    {
      assert TaskOk(w, t);
    }
  }

  lemma AcquiredLock(w: World, w': World, l: nat)
    requires l in w.locks && l in w'.locks && LockOk(w, l) && w.locks[l].value == 1 && w'.sched == w.sched
    requires Me(w) in w.sched.tasks && w.sched.tasks[Me(w)].status == S.Running
    requires w'.chans.Keys == w.chans.Keys && w'.depth == w.depth
    requires Pc(w, Me(w)) == EnterP(l) || Pc(w, Me(w)) == RecheckP(l)
    requires w'.pcs == w.pcs[Me(w) := if l in w.chans then Outside else SetHolder(l)]
    requires w'.locks[l] == w.locks[l].(value := 0, owner := if l in w.chans then None else Some(Me(w)))
    ensures LockOk(w', l)
  {
    assert OwnershipOk(w', l);
    hide OwnershipOk, OwnerView;
    WaitersFrame(w, w', l);
  }

  /** The effect on statuses of blocking the running task. */
  lemma BlockStatuses(s: S.State)
    requires S.Inv(s) && s.ready != []
    ensures var r := S.AfterBlock(s, S.Blocked); r.Ok? && S.Inv(r.state)
    ensures var s' := S.AfterBlock(s, S.Blocked).state;
            && s'.tasks.Keys == s.tasks.Keys && s'.tasks[s.current].status == S.Blocked
            && s'.current != s.current && s'.tasks[s'.current].status == S.Running
            && (forall t :: t in s.tasks && t != s.current && t != s'.current ==> s'.tasks[t] == s.tasks[t])
            && s.tasks[s'.current].status == S.Ready
  {
    S.BlockKeepsInvIff(s, S.Blocked);
  }

  lemma SleepLock(w: World, w': World, l: nat)
    requires l in w.locks && l in w'.locks && LockOk(w, l) && w.locks[l].value == 0
    requires Pc(w, Me(w)) == EnterP(l) || Pc(w, Me(w)) == RecheckP(l)
    requires w'.locks[l] == w.locks[l].(waiters := w.locks[l].waiters + [Me(w)])
    requires w'.pcs == w.pcs[Me(w) := RecheckP(l)] && w'.depth == w.depth && w'.chans == w.chans
    requires w'.sched.tasks.Keys == w.sched.tasks.Keys && Me(w) in w.sched.tasks
    requires w.sched.tasks[Me(w)].status == S.Running && w'.sched.tasks[Me(w)].status == S.Blocked
    requires forall t :: t in w.sched.tasks && t != Me(w) ==>
               (w'.sched.tasks[t].status == S.Blocked <==> w.sched.tasks[t].status == S.Blocked)
    ensures LockOk(w', l)
  {
    assert OwnershipOk(w', l);
    assert !SleepsOn(w, Me(w), l);
    AppendKeepsNoDup(w.locks[l].waiters, Me(w));
    hide OwnershipOk, OwnerView;
    forall t
      ensures SleepsOn(w', t, l) <==> (SleepsOn(w, t, l) || t == Me(w))
    {
    }
  }

  /** What putting the running task to sleep changes. */
  lemma SleepChanges(w: World, l: nat)
    requires S.Inv(w.sched) && S.Known(w.sched) && w.sched.ready != [] && l in w.locks
    requires w.locks[l].value == 0 && Me(w) !in w.locks[l].waiters && PcLock(Pc(w, Me(w))) == Some(l)
    ensures PassP(w, l).Next? && S.Inv(PassP(w, l).world.sched)
    ensures var w' := PassP(w, l).world;
            && Touches(w, w', l) && w'.depth == w.depth && w'.chans == w.chans
            && w'.locks[l] == w.locks[l].(waiters := w.locks[l].waiters + [Me(w)])
            && Pc(w', Me(w)) == RecheckP(l)
            && w'.sched.tasks.Keys == w.sched.tasks.Keys && Me(w) in w'.sched.tasks
            && w'.sched.tasks[Me(w)].status == S.Blocked
            && Me(w') in w'.sched.tasks && w'.sched.tasks[Me(w')].status == S.Running
            && w.sched.tasks[Me(w')].status == S.Ready
            && (forall t :: t in w.sched.tasks && t != Me(w) && t != Me(w') ==> w'.sched.tasks[t] == w.sched.tasks[t])
  {
    BlockStatuses(w.sched);
    hide S.AfterBlock, S.Inv;
  }

  lemma SleepKeepsInv(w: World, l: nat)
    requires Inv(w) && l in w.locks && w.locks[l].value == 0
    requires Pc(w, Me(w)) == EnterP(l) || Pc(w, Me(w)) == RecheckP(l)
    requires w.sched.ready != []
    ensures PassP(w, l).Next? && Inv(PassP(w, l).world)
  {
    assert LockOk(w, l);
    assert !SleepsOn(w, Me(w), l);
    hide S.Inv, LocksInv, PassP;
    SleepChanges(w, l);
    SleepKeepsLocks(w, PassP(w, l).world, l);
  }

  lemma SleepKeepsLocks(w: World, w': World, l: nat)
    requires LocksInv(w) && Touches(w, w', l) && w.locks[l].value == 0
    requires Pc(w, Me(w)) == EnterP(l) || Pc(w, Me(w)) == RecheckP(l)
    requires w'.locks[l] == w.locks[l].(waiters := w.locks[l].waiters + [Me(w)])
    requires Pc(w', Me(w)) == RecheckP(l) && w'.depth == w.depth && w'.chans == w.chans
    requires w'.sched.tasks.Keys == w.sched.tasks.Keys && w'.sched.tasks[Me(w)].status == S.Blocked
    requires Me(w') in w'.sched.tasks && w'.sched.tasks[Me(w')].status == S.Running
    requires w.sched.tasks[Me(w')].status == S.Ready
    requires forall t :: t in w.sched.tasks && t != Me(w) && t != Me(w') ==>
               w'.sched.tasks[t] == w.sched.tasks[t]
    ensures LocksInv(w')
  {
    SleepTasks(w, w', l);
    assert LockOk(w, l);
    SleepLock(w, w', l);
    hide WaitersOk, NoLostWakeUp, OwnershipOk;
    AfterTouch(w, w', l);
  }

  lemma SleepTasks(w: World, w': World, l: nat)
    requires LocksInv(w) && Touches(w, w', l) && Pc(w', Me(w)) == RecheckP(l)
    requires w'.sched.tasks.Keys == w.sched.tasks.Keys && w'.sched.tasks[Me(w)].status == S.Blocked
    requires Me(w') in w'.sched.tasks && w'.sched.tasks[Me(w')].status == S.Running
    requires w.sched.tasks[Me(w')].status == S.Ready
    requires forall t :: t in w.sched.tasks && t != Me(w) && t != Me(w') ==>
               w'.sched.tasks[t] == w.sched.tasks[t]
    ensures forall t {:trigger TaskOk(w', t)} :: t in w'.sched.tasks ==> TaskOk(w', t)
  {
    forall t | t in w'.sched.tasks
      ensures TaskOk(w', t)
    {
      assert TaskOk(w, t);
    }
  }

  lemma ReleaseLock(w: World, w': World, l: nat)
    requires l in w.locks && l in w'.locks && LockOk(w, l) && w.locks[l].owner == Some(Me(w))
    requires Pc(w, Me(w)) == EnterV(l) && Me(w) in w.sched.tasks
    requires var k := w.locks[l];
             w'.locks[l] == k.(value := 1, owner := None,
                               waiters := if k.waiters == [] then [] else k.waiters[1..])
    requires w'.pcs == w.pcs[Me(w) := Outside] && w'.depth == w.depth[(Me(w), l) := 0] && w'.chans == w.chans
    requires l !in w.chans
    requires w'.sched.tasks.Keys == w.sched.tasks.Keys
    requires forall t :: t in w.sched.tasks && (w.locks[l].waiters == [] || t != w.locks[l].waiters[0]) ==>
               w'.sched.tasks[t] == w.sched.tasks[t]
    requires w.locks[l].waiters != [] && w.locks[l].waiters[0] in w.sched.tasks ==>
               w'.sched.tasks[w.locks[l].waiters[0]].status == S.Ready
    ensures LockOk(w', l)
  {
    var k := w.locks[l];
    assert OwnershipOk(w', l);
    forall t
      ensures t in w'.locks[l].waiters <==> SleepsOn(w', t, l)
    {
      assert t in k.waiters <==> SleepsOn(w, t, l);
    }
    if k.waiters != [] {
      assert SleepsOn(w, k.waiters[0], l);
      assert WokenFrom(w', k.waiters[0], l);
    }
  }

  /** What Lock_V changes. */
  lemma ReleaseChanges(w: World, l: nat)
    requires S.Known(w.sched) && l in w.locks && Pc(w, Me(w)) == EnterV(l) && WholeV(w, l).Next?
    requires w.locks[l].waiters != [] ==> Pc(w, w.locks[l].waiters[0]) == RecheckP(l)
    ensures var k, w' := w.locks[l], WholeV(w, l).world;
            && Touches(w, w', l) && w'.chans == w.chans && w'.sched.current == w.sched.current
            && w'.locks[l] == k.(value := 1, owner := None, waiters := if k.waiters == [] then [] else k.waiters[1..])
            && w'.pcs == w.pcs[Me(w) := Outside] && w'.depth == w.depth[(Me(w), l) := 0]
            && w'.sched.tasks.Keys == w.sched.tasks.Keys
            && (forall t :: t in w.sched.tasks && (k.waiters == [] || t != k.waiters[0]) ==>
                  w'.sched.tasks[t] == w.sched.tasks[t])
            && (k.waiters != [] ==> k.waiters[0] in w.sched.tasks && w'.sched.tasks[k.waiters[0]].status == S.Ready)
  {
  }

  /** Every task stays in order when one is woken and the running one may have left the lock code. */
  lemma WokenTasks(w: World, w': World, woken: seq<nat>)
    requires forall t {:trigger TaskOk(w, t)} :: t in w.sched.tasks ==> TaskOk(w, t)
    requires w'.locks.Keys == w.locks.Keys && w'.chans.Keys == w.chans.Keys && w'.sched.tasks.Keys == w.sched.tasks.Keys
    requires w'.pcs == w.pcs || w'.pcs == w.pcs[Me(w) := Outside]
    requires Me(w) in w.sched.tasks && w.sched.tasks[Me(w)].status == S.Running && Me(w) !in woken
    requires forall t :: t in w.sched.tasks && t !in woken ==> w'.sched.tasks[t] == w.sched.tasks[t]
    requires forall t :: t in w.sched.tasks && t in woken ==> w'.sched.tasks[t].status == S.Ready
    ensures forall t {:trigger TaskOk(w', t)} :: t in w'.sched.tasks ==> TaskOk(w', t)
  {
    forall t | t in w'.sched.tasks
      ensures TaskOk(w', t)
    {
      assert TaskOk(w, t);
    }
  }

  lemma OwnerReleases(w: World, l: nat)
    requires LocksInv(w) && l in w.locks && Pc(w, Me(w)) == EnterV(l)
    ensures w.locks[l].owner == Some(Me(w)) && l !in w.chans
  {
    assert LockOk(w, l) && TaskOk(w, Me(w));
  }

  lemma RunningOk(w: World, l: nat)
    requires LocksInv(w)
    ensures TaskOk(w, Me(w)) && (l in w.locks ==> LockOk(w, l))
    ensures w.sched.current in w.sched.tasks && w.sched.tasks[w.sched.current].status == S.Running
  {
  }

  lemma AllTasksOk(w: World)
    requires LocksInv(w)
    ensures forall t {:trigger TaskOk(w, t)} :: t in w.sched.tasks ==> TaskOk(w, t)
  {
  }

  lemma ReleaseKeepsLocks(w: World, l: nat)
    requires LocksInv(w) && S.Known(w.sched) && l in w.locks && Pc(w, Me(w)) == EnterV(l)
    requires WholeV(w, l).Next?
    ensures LocksInv(WholeV(w, l).world)
  {
    hide WholeV, OwnershipOk, NoLostWakeUp, OwnerView, LocksInv, TaskOk;
    RunningOk(w, l);
    assert w.locks[l].waiters != [] ==> SleepsOn(w, w.locks[l].waiters[0], l);
    ReleaseChanges(w, l);
    var w' := WholeV(w, l).world;
    hide LockOk, WaitersOk;
    AllTasksOk(w);
    WokenTasks(w, w', if w.locks[l].waiters == [] then [] else [w.locks[l].waiters[0]]);
    assert w.locks[l].owner == Some(Me(w)) by { OwnerReleases(w, l); }
    ReleaseLock(w, w', l);
    AfterTouch(w, w', l);
  }

  lemma ReleaseKeepsInv(w: World, l: nat)
    requires Inv(w) && l in w.locks && Pc(w, Me(w)) == EnterV(l)
    ensures WholeV(w, l).Next? && Inv(WholeV(w, l).world)
  {
    assert LockOk(w, l);
    if w.locks[l].waiters != [] {
      assert SleepsOn(w, w.locks[l].waiters[0], l);
      S.UnBlockKeepsInv(w.sched, w.locks[l].waiters[0]);
    }
    ReleaseKeepsLocks(w, l);
  }

  /** The steps of Lock_Lock outside Lock_P. */
  lemma LockingStepKeepsInv(w: World)
    requires LocksInv(w) && S.Known(w.sched) && Locking(Pc(w, Me(w)))
    ensures Advance(w, false).Next?
    ensures Advance(w, false).world.sched == w.sched && LocksInv(Advance(w, false).world)
  {
    var p := Pc(w, Me(w));
    hide LocksInv, Advance;
    if p.TestHolder? || p.SetHolder? { HolderStepKeepsInv(w); }
    else if p.AgainLoad? || p.AgainStore? { AgainStepKeepsInv(w); }
    else { FirstStepKeepsInv(w); }
  }

  lemma HolderStepKeepsInv(w: World)
    requires LocksInv(w) && S.Known(w.sched) && (Pc(w, Me(w)).TestHolder? || Pc(w, Me(w)).SetHolder?)
    ensures Advance(w, false).Next?
    ensures Advance(w, false).world.sched == w.sched && LocksInv(Advance(w, false).world)
  {
    hide LocksInv, WaitersOk, NoLostWakeUp, PassP, WholeV, OpenV, S.AfterUnBlock;
    RunningOk(w, Pc(w, Me(w)).l);
    LocalStep(w, Advance(w, false).world, Pc(w, Me(w)).l);
  }

  lemma AgainStepKeepsInv(w: World)
    requires LocksInv(w) && S.Known(w.sched) && (Pc(w, Me(w)).AgainLoad? || Pc(w, Me(w)).AgainStore?)
    ensures Advance(w, false).Next?
    ensures Advance(w, false).world.sched == w.sched && LocksInv(Advance(w, false).world)
  {
    hide LocksInv, WaitersOk, NoLostWakeUp, PassP, WholeV, OpenV, S.AfterUnBlock;
    RunningOk(w, Pc(w, Me(w)).l);
    LocalStep(w, Advance(w, false).world, Pc(w, Me(w)).l);
  }

  lemma FirstStepKeepsInv(w: World)
    requires LocksInv(w) && S.Known(w.sched)
    requires (Pc(w, Me(w)).FirstLoad? || Pc(w, Me(w)).FirstStore? || Pc(w, Me(w)).FirstAssert?)
    ensures Advance(w, false).Next?
    ensures Advance(w, false).world.sched == w.sched && LocksInv(Advance(w, false).world)
  {
    hide LocksInv, WaitersOk, NoLostWakeUp, PassP, WholeV, OpenV, S.AfterUnBlock;
    RunningOk(w, Pc(w, Me(w)).l);
    LocalStep(w, Advance(w, false).world, Pc(w, Me(w)).l);
  }

  /** The steps of Lock_UnLock outside Lock_V. */
  lemma UnlockingStepKeepsInv(w: World)
    requires LocksInv(w) && S.Known(w.sched) && Unlocking(Pc(w, Me(w)))
    ensures Advance(w, false).Next?
    ensures Advance(w, false).world.sched == w.sched && LocksInv(Advance(w, false).world)
  {
    var p := Pc(w, Me(w));
    hide LocksInv, Advance;
    if p.ClearHolder? || p.LastLoad? || p.LastStore? { LastStepKeepsInv(w); } else { LessStepKeepsInv(w); }
  }

  lemma LastStepKeepsInv(w: World)
    requires LocksInv(w) && S.Known(w.sched)
    requires (Pc(w, Me(w)).ClearHolder? || Pc(w, Me(w)).LastLoad? || Pc(w, Me(w)).LastStore?)
    ensures Advance(w, false).Next?
    ensures Advance(w, false).world.sched == w.sched && LocksInv(Advance(w, false).world)
  {
    hide LocksInv, WaitersOk, NoLostWakeUp, PassP, WholeV, OpenV, S.AfterUnBlock;
    RunningOk(w, Pc(w, Me(w)).l);
    LocalStep(w, Advance(w, false).world, Pc(w, Me(w)).l);
  }

  lemma LessStepKeepsInv(w: World)
    requires LocksInv(w) && S.Known(w.sched) && Unlocking(Pc(w, Me(w)))
    requires Pc(w, Me(w)).AssertHolder? || Pc(w, Me(w)).TestRepeat? || Pc(w, Me(w)).LessLoad? || Pc(w, Me(w)).LessStore?
    ensures Advance(w, false).Next?
    ensures Advance(w, false).world.sched == w.sched && LocksInv(Advance(w, false).world)
  {
    hide LocksInv, WaitersOk, NoLostWakeUp, PassP, WholeV, OpenV, S.AfterUnBlock;
    RunningOk(w, Pc(w, Me(w)).l);
    LocalStep(w, Advance(w, false).world, Pc(w, Me(w)).l);
  }

  /** The command register is written. */
  lemma SendKeepsInv(w: World)
    requires LocksInv(w) && S.Known(w.sched) && Pc(w, Me(w)).SendCmd?
    ensures Advance(w, false).Next?
    ensures Advance(w, false).world.sched == w.sched && LocksInv(Advance(w, false).world)
  {
    assert TaskOk(w, Me(w));
    assert LockOk(w, Pc(w, Me(w)).l);
    hide LocksInv, WaitersOk, NoLostWakeUp;
    LocalStep(w, Advance(w, false).world, Pc(w, Me(w)).l);
  }

  /** What the handler's Lock_V changes. */
  lemma HandlerChanges(w: World, d: nat)
    requires S.Known(w.sched) && d in w.locks && HandlerV(w, d).Next?
    ensures var k, w' := w.locks[d], HandlerV(w, d).world;
            && w'.chans == w.chans && w'.pcs == w.pcs && w'.depth == w.depth && w'.sched.current == w.sched.current
            && w'.locks == w.locks[d := k.(value := 1, waiters := if k.waiters == [] then [] else k.waiters[1..])]
            && w'.sched.tasks.Keys == w.sched.tasks.Keys
            && (forall t :: t in w.sched.tasks && (k.waiters == [] || t != k.waiters[0]) ==>
                  w'.sched.tasks[t] == w.sched.tasks[t])
            && (k.waiters != [] ==> k.waiters[0] in w.sched.tasks && w'.sched.tasks[k.waiters[0]].status == S.Ready
                                    && S.Asleep(w.sched.tasks[k.waiters[0]].status))
  {
  }

  lemma HandlerSem(w: World, w': World, d: nat)
    requires d in w.locks && d in w'.locks && d in w.chans && LockOk(w, d) && w'.chans.Keys == w.chans.Keys
    requires w'.pcs == w.pcs && w'.depth == w.depth && w'.sched.tasks.Keys == w.sched.tasks.Keys
    requires var k := w.locks[d];
             w'.locks[d] == k.(value := 1, waiters := if k.waiters == [] then [] else k.waiters[1..])
    requires forall t :: t in w.sched.tasks && (w.locks[d].waiters == [] || t != w.locks[d].waiters[0]) ==>
               w'.sched.tasks[t] == w.sched.tasks[t]
    requires w.locks[d].waiters != [] && w.locks[d].waiters[0] in w.sched.tasks ==>
               w'.sched.tasks[w.locks[d].waiters[0]].status == S.Ready
    ensures LockOk(w', d)
  {
    var k := w.locks[d];
    assert OwnershipOk(w', d);
    hide OwnershipOk;
    forall t
      ensures t in w'.locks[d].waiters <==> SleepsOn(w', t, d)
    {
      assert t in k.waiters <==> SleepsOn(w, t, d);
    }
    if k.waiters != [] {
      assert SleepsOn(w, k.waiters[0], d);
      assert WokenFrom(w', k.waiters[0], d);
    }
  }

  /** The handler leaves the locks in order: it touches the semaphore, and wakes at most one task from it. */
  lemma HandlerKeepsLocks(w: World, d: nat)
    requires LocksInv(w) && S.Known(w.sched) && d in w.locks && d in w.chans && HandlerV(w, d).Next?
    ensures LocksInv(HandlerV(w, d).world)
  {
    assert LockOk(w, d);
    assert w.locks[d].waiters != [] ==> SleepsOn(w, w.locks[d].waiters[0], d);
    assert w.locks[d].waiters != [] ==> Pc(w, w.locks[d].waiters[0]) == RecheckP(d);
    HandlerChanges(w, d);
    var w' := HandlerV(w, d).world;
    hide HandlerV, OwnershipOk, WaitersOk, NoLostWakeUp, OwnerView;
    WokenTasks(w, w', if w.locks[d].waiters == [] then [] else [w.locks[d].waiters[0]]);
    HandlerSem(w, w', d);
    hide LockOk, TaskOk, SameFor, SleepsOn;
    forall x | x in w'.locks && x != d
      ensures LockOk(w', x)
    {
      assert LockOk(w, x);
      HandlerSpares(w, w', d, x);
      LockFrame(w, w', x);
    }
  }

  lemma HandlerSpares(w: World, w': World, d: nat, x: nat)
    requires d in w.locks && x in w.locks && x != d && x in w'.locks && w'.locks[x] == w.locks[x]
    requires w'.chans.Keys == w.chans.Keys && w'.pcs == w.pcs && w'.depth == w.depth
    requires w'.sched.tasks.Keys == w.sched.tasks.Keys
    requires forall t :: t in w.sched.tasks && (w.locks[d].waiters == [] || t != w.locks[d].waiters[0]) ==>
               w'.sched.tasks[t] == w.sched.tasks[t]
    requires w.locks[d].waiters != [] ==> Pc(w, w.locks[d].waiters[0]) == RecheckP(d)
    ensures SameFor(w, w', x)
  {
  }

  /** Nothing about the locks depends on the fields of a channel. */
  lemma ChannelFields(w: World, d: nat, c: Channel)
    requires LocksInv(w) && d in w.chans
    ensures LocksInv(SetChan(w, d, c))
  {
    var w' := SetChan(w, d, c);
    assert w'.chans.Keys == w.chans.Keys;
    forall t | t in w'.sched.tasks
      ensures TaskOk(w', t)
    {
      assert TaskOk(w, t);
    }
    forall l | l in w'.locks
      ensures LockOk(w', l)
    {
      assert LockOk(w, l);
      assert SameFor(w, w', l);
      LockFrame(w, w', l);
    }
  }

  lemma InterruptKeepsLocks(w: World, d: nat, irq: Irq)
    requires Inv(w) && d in w.locks && d in w.chans && OnInterrupt(w, d, irq).Next?
    ensures LocksInv(OnInterrupt(w, d, irq).world)
  {
    var c := w.chans[d];
    var rest := if irq.Of? then c.inFlight - {irq.command} else c.inFlight;
    hide LocksInv, S.Inv, HandlerV;
    if c.expectingIntr {
      var c' := c.(inFlight := rest, expectingIntr := false, taken := c.taken + [(c.next, irq)]);
      ChannelFields(w, d, c');
      HandlerKeepsLocks(SetChan(w, d, c'), d);
    } else {
      ChannelFields(w, d, c.(inFlight := rest));
    }
  }

  // ---------------------------------------------------------------- safety of every run

  lemma ProceedIsSafe(w: World)
    requires Inv(w) && Enabled(w, Proceed)
    requires WillSleep(w, Proceed) ==> w.sched.ready != []
    ensures Advance(w, false).Next? && Inv(Advance(w, false).world)
  {
    assert TaskOk(w, Me(w));
    var p := Pc(w, Me(w));
    if p.EnterP? || p.RecheckP? {
      if w.locks[p.l].value == 0 { SleepKeepsInv(w, p.l); } else { AcquireKeepsInv(w, p.l); }
    } else if p.EnterV? {
      ReleaseKeepsInv(w, p.l);
    } else if p.SendCmd? {
      SendKeepsInv(w);
    } else if Locking(p) {
      LockingStepKeepsInv(w);
    } else {
      UnlockingStepKeepsInv(w);
    }
  }

  lemma CallIsSafe(w: World, e: Event)
    requires LocksInv(w) && S.Known(w.sched) && Enabled(w, e) && (e.CallLock? || e.CallUnLock? || e.Announce?)
    ensures Step(w, e, false).Next?
    ensures Step(w, e, false).world.sched == w.sched && LocksInv(Step(w, e, false).world)
  {
    hide LocksInv, WaitersOk, NoLostWakeUp;
    var l := if e.Announce? then e.d else e.l;
    RunningOk(w, l);
    LocalStep(w, Step(w, e, false).world, l);
  }

  /** Task t is new (or t is the running task and nothing is new). */
  lemma SwitchedWorld(w: World, s: S.State, t: nat)
    requires LocksInv(w) && Switched(w.sched, s) && t in s.tasks
    requires forall u :: u in s.tasks && u !in w.sched.tasks ==> u == t
    ensures t in w.sched.tasks ==> LocksInv(w.(sched := s))
    ensures t !in w.sched.tasks ==> LocksInv(w.(pcs := w.pcs[t := Outside], sched := s))
  {
    if t in w.sched.tasks {
      SwitchStep(w, w.(sched := s));
    } else {
      SwitchStep(w, w.(pcs := w.pcs[t := Outside], sched := s));
    }
  }

  lemma TimerIsSafe(w: World)
    requires Inv(w)
    ensures OfSched(w, S.AfterTick(w.sched)).Next? && Inv(OfSched(w, S.AfterTick(w.sched)).world)
  {
    TickSwitches(w.sched);
    SwitchedWorld(w, S.AfterTick(w.sched).state, Me(w));
  }

  lemma YieldIsSafe(w: World)
    requires Inv(w)
    ensures OfSched(w, S.AfterYield(w.sched)).Next? && Inv(OfSched(w, S.AfterYield(w.sched)).world)
  {
    YieldSwitches(w.sched);
    SwitchedWorld(w, S.AfterYield(w.sched).state, Me(w));
  }

  lemma SpawnIsSafe(w: World, t: nat, p: nat)
    requires Inv(w) && t !in w.sched.tasks
    ensures var r := OfSched(w.(pcs := w.pcs[t := Outside]), S.AfterCreate(w.sched, t, p));
            r.Next? && Inv(r.world)
  {
    CreateSwitches(w.sched, t, p);
    SwitchedWorld(w, S.AfterCreate(w.sched, t, p).state, t);
  }

  /** Reading `holder` with interrupts on is harmless: the test in Lock_Lock tells a task exactly
      whether it is inside already, whatever other tasks are in the middle of. */
  lemma HolderTestIsExact(w: World, l: nat)
    requires Inv(w) && l in w.locks && Pc(w, Me(w)) == TestHolder(l)
    ensures w.locks[l].holder == Some(Me(w)) <==> Depth(w, Me(w), l) > 0
  {
    assert LockOk(w, l);
  }

  /** A task that goes to sleep with nobody ready comes straight back and trips over the assertion
      that it is not yet among the waiters (sync.c:20). */
  lemma SleepingAloneHalts(w: World, l: nat)
    requires Inv(w) && l in w.locks && w.locks[l].value == 0 && w.sched.ready == []
    requires Pc(w, Me(w)) == EnterP(l) || Pc(w, Me(w)) == RecheckP(l)
    ensures PassP(w, l).Next?
    ensures var w' := PassP(w, l).world; Me(w') == Me(w) && Enabled(w', Proceed) && Step(w', Proceed, false) == Halt
  {
    assert LockOk(w, l);
    assert !SleepsOn(w, Me(w), l);
  }

  // ---------------------------------------------------------------- Lock_V as written

  /** Lock_V as written is the atomic one exactly when nobody waits. */
  lemma WindowOpensIff(w: World, l: nat)
    requires Inv(w) && l in w.locks && Pc(w, Me(w)) == EnterV(l)
    ensures OpenV(w, l) == WholeV(w, l) <==> w.locks[l].waiters == []
  {
    ReleaseKeepsInv(w, l);
  }

  /** Up to the moment the woken task runs: popped, pushed on the ready queue, switched to. */
  lemma IntoTheWindow(w: World, l: nat, v: nat) returns (w1: World, w2: World, w3: World)
    requires l in w.locks && Pc(w, Me(w)) == EnterV(l) && Me(w) in w.sched.tasks && v != Me(w)
    requires w.locks[l].value == 0 && w.locks[l].waiters != [] && w.locks[l].waiters[0] == v
    requires SleepsOn(w, v, l) && w.sched.tasks[Me(w)].status == S.Running
    requires w.sched.ready == [] && w.sched.tasks[Me(w)].ticks == 0
    ensures Step(w, Proceed, true) == Next(w1)
    ensures S.Known(w1.sched) && Enabled(w1, Proceed) && Step(w1, Proceed, true) == Next(w2)
    ensures S.Known(w2.sched) && Enabled(w2, Timer) && Step(w2, Timer, true) == Next(w3)
    ensures S.Known(w3.sched) && Me(w3) == v && w3.sched.ready == [Me(w)]
    ensures w3.locks == w.locks[l := w.locks[l].(waiters := w.locks[l].waiters[1..])]
    ensures w3.pcs == w.pcs[Me(w) := AddValue(l)] && w3.depth == w.depth
    ensures w3.sched.tasks.Keys == w.sched.tasks.Keys
    ensures forall t :: t in w.sched.tasks && t != Me(w) && t != v ==> w3.sched.tasks[t] == w.sched.tasks[t]
    ensures w3.sched.tasks[Me(w)].status == S.Ready
  {
    w1 := Step(w, Proceed, true).world;
    w2 := Step(w1, Proceed, true).world;
    w3 := Step(w2, Timer, true).world;
    assert w3.sched.ready == [Me(w)];
  }

  /** The woken task finds `value` still 0 and queues again; then the first task raises `value`. */
  lemma OutOfTheWindow(w3: World, l: nat, m: nat) returns (w4: World, w5: World)
    requires S.Known(w3.sched) && l in w3.locks && w3.locks[l].value == 0 && Me(w3) !in w3.locks[l].waiters
    requires Pc(w3, Me(w3)) == RecheckP(l) && w3.sched.ready == [m] && m != Me(w3)
    requires Pc(w3, m) == AddValue(l)
    ensures Enabled(w3, Proceed) && Step(w3, Proceed, true) == Next(w4)
    ensures S.Known(w4.sched) && Enabled(w4, Proceed) && Step(w4, Proceed, true) == Next(w5)
    ensures S.Known(w5.sched) && l in w5.locks && w5.locks[l].value == 1 && w5.locks[l].waiters != []
    ensures w5.sched.tasks.Keys == w3.sched.tasks.Keys
    ensures forall t :: t in w3.sched.tasks && t != m && t != Me(w3) ==> w5.sched.tasks[t] == w3.sched.tasks[t]
    ensures w5.sched.tasks[Me(w3)].status == S.Blocked && Pc(w5, m) == Outside
    ensures forall t :: t != m && t != Me(w3) ==> Pc(w5, t) == Pc(w3, t)
  {
    w4 := Step(w3, Proceed, true).world;
    w5 := Step(w4, Proceed, true).world;
  }

  /** One step of a run of the code as written. */
  ghost predicate Leads(w: World, e: Event, w': World) {
    S.Known(w.sched) && Enabled(w, e) && Step(w, e, true) == Next(w')
  }

  /** Whenever the releasing task is the only one that can run and its slice is used up, the code as
      written can lose the wake-up: the timer fires after Thread_UnBlock has pushed the woken task and
      before `value` is raised. */
  lemma LostWakeUp(w: World, l: nat) returns (w1: World, w2: World, w3: World, w4: World, w5: World)
    requires Inv(w) && l in w.locks && Pc(w, Me(w)) == EnterV(l) && w.locks[l].waiters != []
    requires w.sched.ready == [] && w.sched.tasks[Me(w)].ticks == 0
    ensures Leads(w, Proceed, w1) && Leads(w1, Proceed, w2) && Leads(w2, Timer, w3)
    ensures Leads(w3, Proceed, w4) && Leads(w4, Proceed, w5)
    ensures l in w5.locks && !NoLostWakeUp(w5, l)
  {
    hide S.Inv, LocksInv, Step;
    var v := w.locks[l].waiters[0];
    AllAsleep(w, l);
    w1, w2, w3 := IntoTheWindow(w, l, v);
    w4, w5 := OutOfTheWindow(w3, l, Me(w));
    NobodyWoken(w, w5, l, v);
  }

  /** Nobody but the running task is awake. */
  lemma AllAsleep(w: World, l: nat)
    requires Inv(w) && l in w.locks && Pc(w, Me(w)) == EnterV(l) && w.locks[l].waiters != [] && w.sched.ready == []
    ensures var v := w.locks[l].waiters[0];
            && SleepsOn(w, v, l) && v != Me(w) && v !in w.locks[l].waiters[1..] && Me(w) !in w.locks[l].waiters
            && v in w.sched.tasks && w.locks[l].value == 0
    ensures S.Known(w.sched) && Me(w) in w.sched.tasks && w.sched.tasks[Me(w)].status == S.Running
    ensures forall t :: t in w.sched.tasks && t != Me(w) ==> w.sched.tasks[t].status == S.Blocked
  {
    assert LockOk(w, l);
    assert SleepsOn(w, w.locks[l].waiters[0], l);
    forall t | t in w.sched.tasks && t != Me(w)
      ensures w.sched.tasks[t].status == S.Blocked
    {
      assert TaskOk(w, t);
    }
  }

  lemma NobodyWoken(w: World, w5: World, l: nat, v: nat)
    requires forall t :: t in w.sched.tasks && t != Me(w) ==> w.sched.tasks[t].status == S.Blocked
    requires w5.sched.tasks.Keys == w.sched.tasks.Keys && v in w5.sched.tasks
    requires forall t :: t in w.sched.tasks && t != Me(w) && t != v ==> w5.sched.tasks[t] == w.sched.tasks[t]
    requires w5.sched.tasks[v].status == S.Blocked && Pc(w5, Me(w)) == Outside
    ensures forall t :: !WokenFrom(w5, t, l)
  {
  }

  /** Task 1 is about to release the lock that the main task waits for. */
  function AboutToLose(): World {
    World(S.State(1, map[0 := S.Task(S.Blocked, 31, 31, 0), 1 := S.Task(S.Running, 0, 0, 0)], [], [0, 1], 0),
          map[0 := Lock(0, None, 0, [0], Some(1))], map[0 := RecheckP(0), 1 := EnterV(0)], map[(1, 0) := 1], map[])
  }

  lemma AboutToLoseSched()
    ensures S.Inv(AboutToLose().sched)
  {
  }

  lemma AboutToLoseLocks()
    ensures LocksInv(AboutToLose())
  {
    var w := AboutToLose();
    assert SleepsOn(w, 0, 0);
    assert LockOk(w, 0);
  }

  /** A state in which this happens. */
  lemma LostWakeUpExists()
    ensures exists w: World, l :: Inv(w) && l in w.locks && Pc(w, Me(w)) == EnterV(l)
              && w.locks[l].waiters != [] && w.sched.ready == [] && w.sched.tasks[Me(w)].ticks == 0
  {
    var w := AboutToLose();
    AboutToLoseSched();
    AboutToLoseLocks();
    hide S.Inv, LocksInv;
    assert Inv(w) && Pc(w, Me(w)) == EnterV(0);
  }
}
