/** What the calls of Lock_Lock and Lock_UnLock (kernel/sync.c:16-90) come to over whole runs from boot, told from the
    events alone: who has called what, whose call has come back, who has gone to sleep and who was woken. */
module LockRuns {
  import opened Common
  import opened Locks
  import opened DiskChannel
  import S = Scheduler

  datatype Call = LockCall(l: nat) | UnlockCall(l: nat)

  function CallOf(e: Event): Option<Call> {
    match e
    case CallLock(l) => Some(LockCall(l))
    case CallUnLock(l) => Some(UnlockCall(l))
    case _ => None
  }

  /** The call that task t has made and not come back from, after k events of a run. */
  ghost function Open(worlds: seq<World>, events: seq<Event>, t: nat, k: nat): Option<Call>
    requires |worlds| == |events| + 1 && k <= |events|
  {
    if k == 0 then None
    else if Me(worlds[k - 1]) == t && CallOf(events[k - 1]).Some? then CallOf(events[k - 1])
    else if Pc(worlds[k], t) == Outside then None
    else Open(worlds, events, t, k - 1)
  }

  /** The call that comes back to task t with event k. */
  ghost function Returned(worlds: seq<World>, events: seq<Event>, t: nat, k: nat): Option<Call>
    requires |worlds| == |events| + 1 && k < |events|
  {
    if Pc(worlds[k + 1], t) == Outside then Open(worlds, events, t, k) else None
  }

  /** How much more often Lock_Lock(l) has come back to task t than Lock_UnLock(l). */
  ghost function Count(worlds: seq<World>, events: seq<Event>, t: nat, l: nat, k: nat): int
    requires |worlds| == |events| + 1 && k <= |events|
  {
    if k == 0 then 0
    else Count(worlds, events, t, l, k - 1) + Worth(Returned(worlds, events, t, k - 1), l)
  }

  function Worth(call: Option<Call>, l: nat): int {
    if call == Some(LockCall(l)) then 1 else if call == Some(UnlockCall(l)) then -1 else 0
  }

  // ---------------------------------------------------------------- one step

  /** The call a task is in, by its program counter. */
  function Underway(w: World, t: nat): Option<Call> {
    var p := Pc(w, t);
    if Locking(p) || ((p.EnterP? || p.RecheckP?) && p.l !in w.chans) then Some(LockCall(p.l))
    else if Unlocking(p) || p.EnterV? then Some(UnlockCall(p.l))
    else None
  }

  /** What a step does for task t: a call begins, or comes back and counts, or goes on. */
  ghost predicate Counted(w: World, e: Event, w': World, t: nat, l: nat) {
    && (t != Me(w) || (e != Proceed && Pc(w, t) != Outside) ==> Pc(w', t) == Pc(w, t))
    && if t == Me(w) && CallOf(e).Some? then
      Underway(w', t) == CallOf(e) && Pc(w', t) != Outside && Depth(w', t, l) == Depth(w, t, l)
    else
      && Underway(w', t) == (if Pc(w', t) == Outside then None else Underway(w, t))
      && Depth(w', t, l) == Depth(w, t, l) + if Pc(w', t) == Outside then Worth(Underway(w, t), l) else 0
  }

  /** A task that does not run. */
  lemma OtherCounted(w: World, e: Event, w': World, t: nat, l: nat)
    requires t != Me(w) || (e != Proceed && CallOf(e) == None && !e.Announce?)
    requires Pc(w', t) == Pc(w, t) && Depth(w', t, l) == Depth(w, t, l) && w'.chans.Keys == w.chans.Keys
    ensures Counted(w, e, w', t, l)
  {
  }

  lemma CallCounted(w: World, e: Event, t: nat, l: nat)
    requires S.Known(w.sched) && Enabled(w, e) && (CallOf(e).Some? || e.Announce?)
    ensures Step(w, e, false).Next? && Counted(w, e, Step(w, e, false).world, t, l)
  {
  }

  lemma PassCounted(w: World, x: nat, t: nat, l: nat)
    requires Inv(w) && S.Known(w.sched) && x in w.locks && PassP(w, x).Next?
    requires Pc(w, Me(w)) == EnterP(x) || Pc(w, Me(w)) == RecheckP(x)
    ensures Counted(w, Proceed, PassP(w, x).world, t, l)
  {
    hide Inv, S.AfterBlock;
  }

  lemma BeforeRelease(w: World, x: nat)
    requires Inv(w) && x in w.locks && Pc(w, Me(w)) == EnterV(x)
    ensures Depth(w, Me(w), x) == 1 && x !in w.chans
  {
    assert LockOk(w, x);
    OwnerReleases(w, x);
  }

  lemma ReleaseCounted(w: World, x: nat, t: nat, l: nat)
    requires S.Known(w.sched) && x in w.locks && WholeV(w, x).Next? && Pc(w, Me(w)) == EnterV(x)
    requires Depth(w, Me(w), x) == 1 && x !in w.chans
    ensures Counted(w, Proceed, WholeV(w, x).world, t, l)
  {
    hide S.AfterUnBlock;
    var w' := WholeV(w, x).world;
    assert w'.pcs == w.pcs[Me(w) := Outside] && w'.depth == w.depth[(Me(w), x) := 0] && w'.chans == w.chans;
    hide WholeV;
  }

  lemma LockingCounted(w: World, t: nat, l: nat)
    requires S.Known(w.sched) && Locking(Pc(w, Me(w))) && Advance(w, false).Next? && TaskOk(w, Me(w))
    ensures Counted(w, Proceed, Advance(w, false).world, t, l)
  {
    hide PassP, WholeV, OpenV, S.AfterUnBlock;
  }

  lemma UnlockingCounted(w: World, t: nat, l: nat)
    requires S.Known(w.sched) && Unlocking(Pc(w, Me(w))) && Advance(w, false).Next?
    ensures Counted(w, Proceed, Advance(w, false).world, t, l)
  {
    hide PassP, WholeV, OpenV, S.AfterUnBlock;
  }

  lemma SendCounted(w: World, t: nat, l: nat)
    requires S.Known(w.sched) && Pc(w, Me(w)).SendCmd? && Advance(w, false).Next?
    ensures Counted(w, Proceed, Advance(w, false).world, t, l)
  {
    hide PassP, WholeV, OpenV, S.AfterUnBlock;
  }

  lemma NewTaskRests(w: World, e: Event)
    requires Inv(w) && Enabled(w, e)
    ensures e.Spawn? ==> Pc(w, e.task) == Outside
  {
  }

  lemma ScheduledCounted(w: World, e: Event, w': World, t: nat, l: nat)
    requires Takes(w, e, w') && (e.Timer? || e.YieldCpu? || e.Spawn?) && (e.Spawn? ==> Pc(w, e.task) == Outside)
    ensures Counted(w, e, w', t, l)
  {
    hide S.AfterTick, S.AfterYield, S.AfterCreate, Enabled, WillSleep, S.Known, Counted;
    OtherCounted(w, e, w', t, l);
  }

  lemma InterruptCounted(w: World, d: nat, irq: Irq, t: nat, l: nat)
    requires S.Known(w.sched) && d in w.locks && d in w.chans && OnInterrupt(w, d, irq).Next?
    ensures Counted(w, Interrupt(d, irq), OnInterrupt(w, d, irq).world, t, l)
  {
    hide S.AfterUnBlock, Counted;
    OtherCounted(w, Interrupt(d, irq), OnInterrupt(w, d, irq).world, t, l);
  }

  lemma StepCounted(w: World, e: Event, w': World, t: nat, l: nat)
    requires SystemInv(w) && Takes(w, e, w')
    ensures Counted(w, e, w', t, l)
  {
    RunningIsKnown(w);
    var p := Pc(w, Me(w));
    hide SystemInv, Counted, PassP, WholeV, OnInterrupt, S.Known;
    assert Inv(w) by { SystemInvMeans(w); }
    if e.Timer? || e.YieldCpu? || e.Spawn? {
      NewTaskRests(w, e);
      ScheduledCounted(w, e, w', t, l);
    } else if e.Interrupt? {
      InterruptCounted(w, e.d, e.irq, t, l);
    } else if e != Proceed {
      CallCounted(w, e, t, l);
    } else if p.EnterP? || p.RecheckP? {
      PassCounted(w, p.l, t, l);
    } else if p.EnterV? {
      BeforeRelease(w, p.l);
      ReleaseCounted(w, p.l, t, l);
    } else {
      hide Advance;
      if Locking(p) { LockingCounted(w, t, l); }
      else if Unlocking(p) { UnlockingCounted(w, t, l); }
      else { SendCounted(w, t, l); }
    }
  }

  // ---------------------------------------------------------------- every run

  lemma OneMore(worlds: seq<World>, events: seq<Event>, k: nat, t: nat, l: nat)
    requires |worlds| == |events| + 1 && k < |events|
    requires Counted(worlds[k], events[k], worlds[k + 1], t, l)
    requires Open(worlds, events, t, k) == Underway(worlds[k], t)
    requires Count(worlds, events, t, l, k) == Depth(worlds[k], t, l)
    ensures Open(worlds, events, t, k + 1) == Underway(worlds[k + 1], t)
    ensures Count(worlds, events, t, l, k + 1) == Depth(worlds[k + 1], t, l)
  {
    hide Underway, Depth, Pc, CallOf;
  }

  lemma SafeStep(main: nat, locks: set<nat>, chans: map<nat, nat>, worlds: seq<World>, events: seq<Event>, k: nat)
    requires IsRun(main, locks, chans, worlds, events) && k < |events|
    ensures SystemInv(worlds[k]) && SystemInv(worlds[k + 1]) && Takes(worlds[k], events[k], worlds[k + 1])
  {
    hide SystemInv, NextStepIsSafe, Takes;
    RunIsSafe(main, locks, chans, worlds, events, k);
    RunIsSafe(main, locks, chans, worlds, events, k + 1);
  }

  lemma AtBoot(main: nat, locks: set<nat>, chans: map<nat, nat>, t: nat, l: nat)
    ensures Underway(Boot(main, locks, chans), t) == None && Depth(Boot(main, locks, chans), t, l) == 0
  {
  }

  lemma {:induction false} CountsUpTo(main: nat, locks: set<nat>, chans: map<nat, nat>, worlds: seq<World>,
                                      events: seq<Event>, k: nat, t: nat, l: nat)
    requires IsRun(main, locks, chans, worlds, events) && k < |worlds|
    ensures Open(worlds, events, t, k) == Underway(worlds[k], t)
    ensures Count(worlds, events, t, l, k) == Depth(worlds[k], t, l)
  {
    hide SystemInv, Takes, Counted, Depth;
    if k > 0 {
      CountsUpTo(main, locks, chans, worlds, events, k - 1, t, l);
      SafeStep(main, locks, chans, worlds, events, k - 1);
      StepCounted(worlds[k - 1], events[k - 1], worlds[k], t, l);
      OneMore(worlds, events, k - 1, t, l);
    } else {
      AtBoot(main, locks, chans, t, l);
    }
  }

  /** What the fields of a lock say about a task at rest. */
  lemma AtRest(w: World, t: nat, l: nat)
    requires Inv(w) && l in w.locks && Pc(w, t) == Outside
    ensures var k := w.locks[l];
            Depth(w, t, l) > 0 <==> k.owner == Some(t) && k.holder == Some(t) && k.repeatNum == Depth(w, t, l)
  {
    assert LockOk(w, l);
  }

  /** Mutual exclusion, after every run: a task not in the middle of a call is inside a lock, that is, Lock_Lock has
      come back to it more often than Lock_UnLock, exactly if the lock says so, and as often as it says; and one task at
      most is inside, wherever the others are. */
  lemma OneInside(main: nat, locks: set<nat>, chans: map<nat, nat>, worlds: seq<World>, events: seq<Event>,
                  k: nat, l: nat)
    requires IsRun(main, locks, chans, worlds, events) && k < |worlds| && l in worlds[k].locks
    ensures forall t: nat :: Count(worlds, events, t, l, k) >= 0
    ensures forall t: nat :: Pc(worlds[k], t) == Outside ==>
              (Count(worlds, events, t, l, k) > 0 <==>
               worlds[k].locks[l].owner == Some(t) && worlds[k].locks[l].holder == Some(t)
               && worlds[k].locks[l].repeatNum == Count(worlds, events, t, l, k))
    ensures forall t: nat, u: nat ::
              Count(worlds, events, t, l, k) > 0 && Count(worlds, events, u, l, k) > 0 ==> t == u
  {
    RunIsSafe(main, locks, chans, worlds, events, k);
    hide NextStepIsSafe, LocksInv, Count, S.Inv, ChansOk, IsRun;
    LockPromises(worlds[k], l);
    forall t: nat
      ensures Count(worlds, events, t, l, k) == Depth(worlds[k], t, l)
    {
      CountsUpTo(main, locks, chans, worlds, events, k, t, l);
    }
    forall t: nat | Pc(worlds[k], t) == Outside
      ensures var lock := worlds[k].locks[l];
              Depth(worlds[k], t, l) > 0 <==>
              lock.owner == Some(t) && lock.holder == Some(t) && lock.repeatNum == Depth(worlds[k], t, l)
    {
      AtRest(worlds[k], t, l);
    }
  }

  lemma Inside(main: nat, locks: set<nat>, chans: map<nat, nat>, worlds: seq<World>, events: seq<Event>,
               k: nat, t: nat, l: nat)
    requires IsRun(main, locks, chans, worlds, events) && k < |events| && l in worlds[k + 1].locks
    requires Returned(worlds, events, t, k).Some? && Returned(worlds, events, t, k).value.l == l
    ensures Count(worlds, events, t, l, k) >= 0 && Count(worlds, events, t, l, k + 1) >= 0
    ensures var lock, n := worlds[k + 1].locks[l], Count(worlds, events, t, l, k + 1);
            n > 0 <==> lock.owner == Some(t) && lock.holder == Some(t) && lock.repeatNum == n
  {
    CountsUpTo(main, locks, chans, worlds, events, k, t, l);
    OneInside(main, locks, chans, worlds, events, k + 1, l);
  }

  /** A lock that has an owner is down, one that has none is up. */
  lemma DownIfOwned(w: World, l: nat)
    requires SystemInv(w) && l in w.locks && l !in w.chans
    ensures w.locks[l].value == if w.locks[l].owner.Some? then 0 else 1
    ensures w.locks[l].owner.None? ==> w.locks[l].holder.None? && w.locks[l].repeatNum == 0
  {
    assert LockOk(w, l);
  }

  lemma OwnedIsLock(w: World, l: nat)
    requires SystemInv(w) && l in w.locks && w.locks[l].owner.Some?
    ensures l !in w.chans
  {
    assert LockOk(w, l);
  }

  /** A call of Lock_Lock that comes back leaves its caller inside, once more than before. */
  lemma LockIsTaken(main: nat, locks: set<nat>, chans: map<nat, nat>, worlds: seq<World>, events: seq<Event>,
                    k: nat, t: nat, l: nat)
    requires IsRun(main, locks, chans, worlds, events) && k < |events| && l in worlds[k + 1].locks
    requires Returned(worlds, events, t, k) == Some(LockCall(l))
    ensures Count(worlds, events, t, l, k + 1) == Count(worlds, events, t, l, k) + 1
    ensures var lock := worlds[k + 1].locks[l];
            && lock.value == 0 && lock.owner == Some(t) && lock.holder == Some(t)
            && lock.repeatNum == Count(worlds, events, t, l, k + 1)
  {
    Inside(main, locks, chans, worlds, events, k, t, l);
    RunIsSafe(main, locks, chans, worlds, events, k + 1);
    hide SystemInv, NextStepIsSafe, IsRun, Open;
    OwnedIsLock(worlds[k + 1], l);
    DownIfOwned(worlds[k + 1], l);
  }

  /** The lock whose code a task is in is one. */
  lemma LockInCode(w: World, t: nat, l: nat)
    requires SystemInv(w) && Underway(w, t) == Some(UnlockCall(l))
    ensures l in w.locks
  {
    assert TaskOk(w, t);
  }

  /** The step with which Lock_UnLock comes back to a task for the last time. */
  lemma LastStepReleases(w: World, e: Event, w': World, t: nat, l: nat)
    requires SystemInv(w) && Takes(w, e, w') && Underway(w, t) == Some(UnlockCall(l)) && Pc(w', t) == Outside
    requires l in w.locks && Depth(w', t, l) == 0
    ensures l in w'.locks && w'.locks[l].owner == None && l !in w'.chans
  {
    assert LockOk(w, l);
    RunningIsKnown(w);
    StepCounted(w, e, w', t, l);
    hide SystemInv, S.AfterUnBlock, S.AfterBlock, WaitersOk, NoLostWakeUp;
  }

  lemma GivenUp(w: World, e: Event, w': World, t: nat, l: nat)
    requires SystemInv(w) && SystemInv(w') && Takes(w, e, w') && Underway(w, t) == Some(UnlockCall(l))
    requires Pc(w', t) == Outside && l in w'.locks
    ensures var k := w'.locks[l];
            && (Depth(w', t, l) == 0 ==> k.value == 1 && k.owner == None && k.holder == None && k.repeatNum == 0)
            && (k.owner.Some? ==> k.value == 0)
  {
    hide SystemInv, Takes, Underway, Depth;
    LockInCode(w, t, l);
    if Depth(w', t, l) == 0 { LastStepReleases(w, e, w', t, l); }
    if w'.locks[l].owner.Some? { OwnedIsLock(w', l); }
    if l !in w'.chans { DownIfOwned(w', l); }
  }

  /** A call of Lock_UnLock that comes back leaves its caller inside once less, and the last one gives the lock up. */
  lemma LockIsGivenUp(main: nat, locks: set<nat>, chans: map<nat, nat>, worlds: seq<World>, events: seq<Event>,
                      k: nat, t: nat, l: nat)
    requires IsRun(main, locks, chans, worlds, events) && k < |events| && l in worlds[k + 1].locks
    requires Returned(worlds, events, t, k) == Some(UnlockCall(l))
    ensures Count(worlds, events, t, l, k + 1) == Count(worlds, events, t, l, k) - 1 >= 0
    ensures var lock, n := worlds[k + 1].locks[l], Count(worlds, events, t, l, k + 1);
            if n > 0 then lock.value == 0 && lock.owner == Some(t) && lock.holder == Some(t) && lock.repeatNum == n
            else lock.value == 1 && lock.owner == None && lock.holder == None && lock.repeatNum == 0
  {
    hide SystemInv, Takes, Underway, Depth, Open;
    Inside(main, locks, chans, worlds, events, k, t, l);
    CountsUpTo(main, locks, chans, worlds, events, k, t, l);
    CountsUpTo(main, locks, chans, worlds, events, k + 1, t, l);
    SafeStep(main, locks, chans, worlds, events, k);
    GivenUp(worlds[k], events[k], worlds[k + 1], t, l);
  }

  // ---------------------------------------------------------------- the queue

  /** Who has gone to sleep on l in the first k steps of a run, in order. */
  ghost function Slept(worlds: seq<World>, l: nat, k: nat): seq<nat>
    requires k < |worlds|
  {
    if k == 0 then []
    else
      var t := Me(worlds[k - 1]);
      Slept(worlds, l, k - 1)
      + if SleepsOn(worlds[k], t, l) && !SleepsOn(worlds[k - 1], t, l) then [t] else []
  }

  /** And who has been woken from l: a task woken is the first to run next. */
  ghost function Woken(worlds: seq<World>, l: nat, k: nat): seq<nat>
    requires k < |worlds|
  {
    if k == 0 then []
    else
      var ready := worlds[k].sched.ready;
      Woken(worlds, l, k - 1)
      + if ready != [] && SleepsOn(worlds[k - 1], ready[0], l) && !SleepsOn(worlds[k], ready[0], l) then [ready[0]]
        else []
  }

  /** What a step does to the queue of l: nothing, or the running task goes to its end, or its first is woken. */
  ghost predicate QueueStep(w: World, w': World, l: nat) {
    && l in w.locks && l in w'.locks
    && var q, q' := w.locks[l].waiters, w'.locks[l].waiters;
       q' == q || q' == q + [Me(w)] || (q != [] && q' == q[1..] && w'.sched.ready == [q[0]] + w.sched.ready)
  }

  lemma PassQueues(w: World, x: nat, l: nat)
    requires S.Known(w.sched) && x in w.locks && PassP(w, x).Next? && l in w.locks
    ensures QueueStep(w, PassP(w, x).world, l)
  {
    hide S.AfterBlock;
  }

  lemma ReleaseQueues(w: World, x: nat, l: nat)
    requires S.Known(w.sched) && x in w.locks && WholeV(w, x).Next? && l in w.locks
    ensures QueueStep(w, WholeV(w, x).world, l)
  {
  }

  lemma HandlerQueues(w: World, d: nat, irq: Irq, l: nat)
    requires S.Known(w.sched) && d in w.locks && d in w.chans && OnInterrupt(w, d, irq).Next? && l in w.locks
    ensures QueueStep(w, OnInterrupt(w, d, irq).world, l)
  {
  }

  lemma LocalQueues(w: World, l: nat)
    requires S.Known(w.sched) && Enabled(w, Proceed) && Advance(w, false).Next? && l in w.locks
    requires var p := Pc(w, Me(w)); Locking(p) || Unlocking(p) || p.SendCmd?
    ensures QueueStep(w, Advance(w, false).world, l)
  {
    hide PassP, WholeV, OpenV, S.AfterUnBlock;
  }

  lemma OtherQueues(w: World, e: Event, w': World, l: nat)
    requires Takes(w, e, w') && l in w.locks && e != Proceed && !e.Interrupt?
    ensures QueueStep(w, w', l)
  {
    hide S.AfterTick, S.AfterYield, S.AfterCreate, Enabled, S.Known;
  }

  lemma StepQueues(w: World, e: Event, w': World, l: nat)
    requires SystemInv(w) && Takes(w, e, w') && l in w.locks
    ensures QueueStep(w, w', l)
  {
    hide SystemInv, QueueStep, PassP, WholeV, OnInterrupt;
    assert Inv(w) by { SystemInvMeans(w); }
    RunningIsKnown(w);
    var p := Pc(w, Me(w));
    if e.Interrupt? {
      HandlerQueues(w, e.d, e.irq, l);
    } else if e != Proceed {
      OtherQueues(w, e, w', l);
    } else if p.EnterP? || p.RecheckP? {
      PassQueues(w, p.l, l);
    } else if p.EnterV? {
      ReleaseQueues(w, p.l, l);
    } else {
      hide Advance;
      LocalQueues(w, l);
    }
  }

  lemma SleepersQueue(w: World, l: nat)
    requires SystemInv(w) && l in w.locks
    ensures NoDup(w.locks[l].waiters) && forall t :: t in w.locks[l].waiters <==> SleepsOn(w, t, l)
  {
    assert LockOk(w, l);
  }

  lemma QueueGoesOn(w: World, w': World, l: nat, slept: seq<nat>, woken: seq<nat>)
    requires QueueStep(w, w', l) && slept == woken + w.locks[l].waiters
    requires NoDup(w.locks[l].waiters) && NoDup(w'.locks[l].waiters)
    requires forall t :: t in w.locks[l].waiters <==> SleepsOn(w, t, l)
    requires forall t :: t in w'.locks[l].waiters <==> SleepsOn(w', t, l)
    ensures var t, ready := Me(w), w'.sched.ready;
            slept + (if SleepsOn(w', t, l) && !SleepsOn(w, t, l) then [t] else [])
              == woken
                 + (if ready != [] && SleepsOn(w, ready[0], l) && !SleepsOn(w', ready[0], l) then [ready[0]] else [])
                 + w'.locks[l].waiters
  {
    hide SleepsOn;
    var q, q' := w.locks[l].waiters, w'.locks[l].waiters;
    if q != [] && q' == q[1..] { assert q == [q[0]] + q'; }
    if q' == q + [Me(w)] {
      assert q'[|q|] == Me(w) && forall i :: 0 <= i < |q| ==> q'[i] == q[i];
      assert Me(w) !in q;
    }
  }

  /** First come, first served, over every run: tasks are woken from a lock, or from the semaphore of a channel, in the
      order in which they have gone to sleep on it, and its queue is those who have not been woken yet. */
  lemma {:induction false} FirstComeFirstServed(main: nat, locks: set<nat>, chans: map<nat, nat>, worlds: seq<World>,
                                                events: seq<Event>, k: nat, l: nat)
    requires IsRun(main, locks, chans, worlds, events) && k < |worlds| && l in locks + chans.Keys
    ensures l in worlds[k].locks && Slept(worlds, l, k) == Woken(worlds, l, k) + worlds[k].locks[l].waiters
  {
    hide SystemInv, Takes, QueueStep, SleepsOn;
    if k > 0 {
      FirstComeFirstServed(main, locks, chans, worlds, events, k - 1, l);
      SafeStep(main, locks, chans, worlds, events, k - 1);
      StepQueues(worlds[k - 1], events[k - 1], worlds[k], l);
      QueueStepMeans(worlds[k - 1], worlds[k], l);
      SleepersQueue(worlds[k - 1], l);
      SleepersQueue(worlds[k], l);
      QueueGoesOn(worlds[k - 1], worlds[k], l, Slept(worlds, l, k - 1), Woken(worlds, l, k - 1));
    }
  }

  lemma QueueStepMeans(w: World, w': World, l: nat)
    requires QueueStep(w, w', l)
    ensures l in w.locks && l in w'.locks
  {
  }

  // ---------------------------------------------------------------- one call, undisturbed

  /** The running task goes on for n steps and nothing comes between. */
  ghost function Undisturbed(w: World, n: nat): Result
    decreases n
  {
    if n == 0 then Next(w)
    else if !S.Known(w.sched) || !Enabled(w, Proceed) then Halt
    else
      match Step(w, Proceed, false)
      case Halt => Halt
      case Next(v) => Undisturbed(v, n - 1)
  }

  lemma OneStep(w: World, v: World, n: nat)
    requires Takes(w, Proceed, v)
    ensures Undisturbed(w, n + 1) == Undisturbed(v, n)
  {
  }

  /** The world with another state of lock l and another place of the running task. */
  function Here(w: World, l: nat, k: Lock, p: PC): World {
    w.(locks := w.locks[l := k], pcs := w.pcs[Me(w) := p])
  }

  lemma Onward(w: World, l: nat, k: Lock, p: PC, k': Lock, p': PC)
    ensures Goto(SetLock(Here(w, l, k, p), l, k'), p') == Here(w, l, k', p')
    ensures Goto(Here(w, l, k, p), p') == Here(w, l, k, p')
  {
    var v := Here(w, l, k, p);
    assert v.locks[l := k'] == w.locks[l := k'] && v.pcs[Me(w) := p'] == w.pcs[Me(w) := p'];
  }

  lemma TakesTest(w: World, l: nat, k: Lock)
    requires S.Known(w.sched) && l in w.locks && l !in w.chans && k.holder != Some(Me(w)) && k.value == 1
    ensures Takes(Here(w, l, k, TestHolder(l)), Proceed, Here(w, l, k, EnterP(l)))
    ensures var k' := k.(value := 0, owner := Some(Me(w)));
            Takes(Here(w, l, k, EnterP(l)), Proceed, Here(w, l, k', SetHolder(l)))
  {
    hide S.AfterBlock;
    Onward(w, l, k, TestHolder(l), k, EnterP(l));
    Onward(w, l, k, EnterP(l), k.(value := 0, owner := Some(Me(w))), SetHolder(l));
  }

  lemma TakesHolder(w: World, l: nat, k: Lock)
    requires S.Known(w.sched) && l in w.locks
    ensures Takes(Here(w, l, k, SetHolder(l)), Proceed, Here(w, l, k.(holder := Some(Me(w))), FirstLoad(l)))
  {
    hide S.AfterBlock, PassP, WholeV;
    Onward(w, l, k, SetHolder(l), k.(holder := Some(Me(w))), FirstLoad(l));
  }

  lemma TakesLoad(w: World, l: nat, k: Lock)
    requires S.Known(w.sched) && l in w.locks && k.repeatNum == 0
    ensures Takes(Here(w, l, k, FirstLoad(l)), Proceed, Here(w, l, k, FirstStore(l, 0)))
    ensures Takes(Here(w, l, k, FirstStore(l, 0)), Proceed, Here(w, l, k.(repeatNum := 1), FirstAssert(l)))
  {
    hide S.AfterBlock, PassP, WholeV;
    Onward(w, l, k, FirstLoad(l), k, FirstStore(l, 0));
    Onward(w, l, k, FirstStore(l, 0), k.(repeatNum := 1), FirstAssert(l));
  }

  /** The last step of Lock_Lock: what the task may do next is up to it. */
  lemma TakesAssert(w: World, l: nat, k: Lock)
    requires S.Known(w.sched) && l in w.locks && k.repeatNum == 1 && Depth(w, Me(w), l) == 0
    ensures Takes(Here(w, l, k, FirstAssert(l)), Proceed, SetDepth(Here(w, l, k, Outside), l, 1))
  {
    hide S.AfterBlock, PassP, WholeV;
    Onward(w, l, k, FirstAssert(l), k, Outside);
  }

  lemma {:induction false} Chain(v: seq<World>)
    requires v != [] && forall i :: 0 <= i < |v| - 1 ==> Takes(v[i], Proceed, v[i + 1])
    ensures Undisturbed(v[0], |v| - 1) == Next(v[|v| - 1])
    decreases |v|
  {
    hide Takes;
    if |v| > 1 {
      forall i | 0 <= i < |v[1..]| - 1
        ensures Takes(v[1..][i], Proceed, v[1..][i + 1])
      {
        assert Takes(v[i + 1], Proceed, v[i + 1 + 1]);
      }
      Chain(v[1..]);
      OneStep(v[0], v[1], |v| - 2);
    }
  }

  /** The six steps of Lock_Lock on a free lock. */
  lemma LockSteps(w: World, l: nat) returns (v: seq<World>)
    requires S.Known(w.sched) && l in w.locks && l !in w.chans && Depth(w, Me(w), l) == 0
    requires var k := w.locks[l]; k.value == 1 && k.holder == None && k.repeatNum == 0
    ensures |v| == 7 && (forall i :: 0 <= i < 6 ==> Takes(v[i], Proceed, v[i + 1]))
    ensures v[0] == Here(w, l, w.locks[l], TestHolder(l))
    ensures v[6] == SetDepth(Here(w, l, Lock(0, Some(Me(w)), 1, w.locks[l].waiters, Some(Me(w))), Outside), l, 1)
  {
    hide Takes, Here, SetDepth;
    var k0 := w.locks[l];
    var k1 := k0.(value := 0, owner := Some(Me(w)));
    var k2 := k1.(holder := Some(Me(w)));
    var k3 := k2.(repeatNum := 1);
    TakesTest(w, l, k0);
    TakesHolder(w, l, k1);
    TakesLoad(w, l, k2);
    TakesAssert(w, l, k3);
    v := [Here(w, l, k0, TestHolder(l)), Here(w, l, k0, EnterP(l)), Here(w, l, k1, SetHolder(l)),
          Here(w, l, k2, FirstLoad(l)), Here(w, l, k2, FirstStore(l, 0)), Here(w, l, k3, FirstAssert(l)),
          SetDepth(Here(w, l, k3, Outside), l, 1)];
  }

  /** What the fields of a lock say to the running task before a call. */
  lemma BeforeCall(w: World, l: nat)
    requires Inv(w) && l in w.locks && l !in w.chans && Pc(w, Me(w)) == Outside
    ensures S.Known(w.sched) && Me(w) !in w.locks[l].waiters
    ensures var k, d := w.locks[l], Depth(w, Me(w), l);
            && (d > 0 ==> k.value == 0 && k.owner == k.holder == Some(Me(w)) && k.repeatNum == d)
            && (d == 0 ==> k.holder != Some(Me(w)))
            && (k.value == 1 ==> d == 0 && k.owner == k.holder == None && k.repeatNum == 0)
  {
    RunningIsKnown(w);
    NotWaiting(w, l);
    assert LockOk(w, l);
  }

  lemma CallsLock(w: World, l: nat)
    requires S.Known(w.sched) && l in w.locks && Enabled(w, CallLock(l))
    ensures Takes(w, CallLock(l), Here(w, l, w.locks[l], TestHolder(l)))
  {
    assert w.locks[l := w.locks[l]] == w.locks;
  }

  /** A task that is not inside takes a free lock: afterwards it is inside, and the lock says so; all else is as it
      was. */
  lemma TakesFreeLock(w: World, l: nat)
    requires Inv(w) && Enabled(w, CallLock(l)) && Depth(w, Me(w), l) == 0 && w.locks[l].value == 1
    ensures S.Known(w.sched) && Step(w, CallLock(l), false).Next?
    ensures Undisturbed(Step(w, CallLock(l), false).world, 6)
              == Next(w.(locks := w.locks[l := Lock(0, Some(Me(w)), 1, w.locks[l].waiters, Some(Me(w)))],
                         pcs := w.pcs[Me(w) := Outside], depth := w.depth[(Me(w), l) := 1]))
  {
    hide Inv, Takes, Depth;
    BeforeCall(w, l);
    CallsLock(w, l);
    var v := LockSteps(w, l);
    Chain(v);
  }

  /** From boot: the first call of Lock_Lock leaves the main task inside. */
  lemma TakenAfterBoot(main: nat, locks: set<nat>, chans: map<nat, nat>, l: nat)
      returns (worlds: seq<World>, events: seq<Event>)
    requires WiredUp(locks, chans) && l in locks
    ensures events == [CallLock(l), Proceed, Proceed, Proceed, Proceed, Proceed, Proceed]
    ensures IsRun(main, locks, chans, worlds, events)
    ensures l in worlds[7].locks && worlds[7].locks[l] == Lock(0, Some(main), 1, [], Some(main))
    ensures Pc(worlds[7], main) == Outside && Count(worlds, events, main, l, 7) == 1
  {
    hide Takes, Count;
    var w := Boot(main, locks, chans);
    CallsLock(w, l);
    var v := LockSteps(w, l);
    worlds := [w] + v;
    events := [CallLock(l), Proceed, Proceed, Proceed, Proceed, Proceed, Proceed];
    forall i | 0 <= i < |events|
      ensures Takes(worlds[i], events[i], worlds[i + 1])
    {
      if i > 0 { assert Takes(v[i - 1], Proceed, v[i - 1 + 1]); }
    }
    CountsUpTo(main, locks, chans, worlds, events, 7, main, l);
  }

  lemma TakesAgain(w: World, l: nat, k: Lock, n: nat)
    requires S.Known(w.sched) && l in w.locks && k.holder == Some(Me(w)) && n == Depth(w, Me(w), l) + 1
    ensures Takes(Here(w, l, k, TestHolder(l)), Proceed, Here(w, l, k, AgainLoad(l)))
    ensures Takes(Here(w, l, k, AgainLoad(l)), Proceed, Here(w, l, k, AgainStore(l, k.repeatNum)))
    ensures Takes(Here(w, l, k, AgainStore(l, k.repeatNum)), Proceed,
                  SetDepth(Here(w, l, k.(repeatNum := k.repeatNum + 1), Outside), l, n))
  {
    hide S.AfterBlock, PassP, WholeV;
    Onward(w, l, k, TestHolder(l), k, AgainLoad(l));
    Onward(w, l, k, AgainLoad(l), k, AgainStore(l, k.repeatNum));
    Onward(w, l, k, AgainStore(l, k.repeatNum), k.(repeatNum := k.repeatNum + 1), Outside);
  }

  /** A task that is inside goes in once more. */
  lemma TakesOwnLock(w: World, l: nat)
    requires Inv(w) && Enabled(w, CallLock(l)) && Depth(w, Me(w), l) > 0
    ensures S.Known(w.sched) && Step(w, CallLock(l), false).Next?
    ensures var n := Depth(w, Me(w), l) + 1;
            Undisturbed(Step(w, CallLock(l), false).world, 3)
              == Next(w.(locks := w.locks[l := w.locks[l].(repeatNum := n)], pcs := w.pcs[Me(w) := Outside],
                         depth := w.depth[(Me(w), l) := n]))
  {
    hide Inv, Takes, Depth;
    BeforeCall(w, l);
    CallsLock(w, l);
    var k, n := w.locks[l], Depth(w, Me(w), l) + 1;
    TakesAgain(w, l, k, n);
    Chain([Here(w, l, k, TestHolder(l)), Here(w, l, k, AgainLoad(l)), Here(w, l, k, AgainStore(l, k.repeatNum)),
           SetDepth(Here(w, l, k.(repeatNum := k.repeatNum + 1), Outside), l, n)]);
  }

  lemma BlockGoes(w: World)
    requires Inv(w) && w.sched.ready != []
    ensures S.Known(w.sched) && S.AfterBlock(w.sched, S.Blocked).Ok?
  {
    RunningIsKnown(w);
    S.BlockKeepsInvIff(w.sched, S.Blocked);
  }

  /** A task that finds the lock taken goes to sleep behind those that wait already. */
  lemma WaitsForLock(w: World, l: nat)
    requires Inv(w) && Enabled(w, CallLock(l)) && Depth(w, Me(w), l) == 0
    requires w.locks[l].value == 0 && w.sched.ready != []
    ensures S.Known(w.sched) && Step(w, CallLock(l), false).Next? && S.AfterBlock(w.sched, S.Blocked).Ok?
    ensures Undisturbed(Step(w, CallLock(l), false).world, 2)
              == Next(w.(locks := w.locks[l := w.locks[l].(waiters := w.locks[l].waiters + [Me(w)])],
                         pcs := w.pcs[Me(w) := RecheckP(l)], sched := S.AfterBlock(w.sched, S.Blocked).state))
  {
    hide Inv, Takes, Depth, S.AfterBlock;
    BeforeCall(w, l);
    BlockGoes(w);
    CallsLock(w, l);
    var k := w.locks[l];
    WaitsSteps(w, l, k);
    Chain([Here(w, l, k, TestHolder(l)), Here(w, l, k, EnterP(l)),
           Here(w, l, k.(waiters := k.waiters + [Me(w)]), RecheckP(l))
             .(sched := S.AfterBlock(w.sched, S.Blocked).state)]);
  }

  lemma WaitsSteps(w: World, l: nat, k: Lock)
    requires S.Known(w.sched) && l in w.locks && k.holder != Some(Me(w)) && k.value == 0 && Me(w) !in k.waiters
    requires S.AfterBlock(w.sched, S.Blocked).Ok? && w.sched.ready != []
    ensures Takes(Here(w, l, k, TestHolder(l)), Proceed, Here(w, l, k, EnterP(l)))
    ensures var k' := k.(waiters := k.waiters + [Me(w)]);
            Takes(Here(w, l, k, EnterP(l)), Proceed,
                  Here(w, l, k', RecheckP(l)).(sched := S.AfterBlock(w.sched, S.Blocked).state))
  {
    hide S.AfterBlock;
    Onward(w, l, k, TestHolder(l), k, EnterP(l));
    Onward(w, l, k, EnterP(l), k.(waiters := k.waiters + [Me(w)]), RecheckP(l));
  }

  lemma CallsUnLock(w: World, l: nat)
    requires S.Known(w.sched) && l in w.locks && Enabled(w, CallUnLock(l))
    ensures Takes(w, CallUnLock(l), Here(w, l, w.locks[l], AssertHolder(l)))
  {
    assert w.locks[l := w.locks[l]] == w.locks;
  }

  lemma LeavesTest(w: World, l: nat, k: Lock)
    requires S.Known(w.sched) && l in w.locks && k.holder == Some(Me(w))
    ensures Takes(Here(w, l, k, AssertHolder(l)), Proceed, Here(w, l, k, TestRepeat(l)))
    ensures Takes(Here(w, l, k, TestRepeat(l)), Proceed,
                  Here(w, l, k, if k.repeatNum > 1 then LessLoad(l) else ClearHolder(l)))
  {
    hide S.AfterBlock, PassP, WholeV;
    Onward(w, l, k, AssertHolder(l), k, TestRepeat(l));
    Onward(w, l, k, TestRepeat(l), k, if k.repeatNum > 1 then LessLoad(l) else ClearHolder(l));
  }

  lemma LeavesOnce(w: World, l: nat, k: Lock, n: nat)
    requires S.Known(w.sched) && l in w.locks && k.repeatNum > 0 && n == Depth(w, Me(w), l) - 1
    ensures Takes(Here(w, l, k, LessLoad(l)), Proceed, Here(w, l, k, LessStore(l, k.repeatNum)))
    ensures Takes(Here(w, l, k, LessStore(l, k.repeatNum)), Proceed,
                  SetDepth(Here(w, l, k.(repeatNum := k.repeatNum - 1), Outside), l, n))
  {
    hide S.AfterBlock, PassP, WholeV;
    Onward(w, l, k, LessLoad(l), k, LessStore(l, k.repeatNum));
    Onward(w, l, k, LessStore(l, k.repeatNum), k.(repeatNum := k.repeatNum - 1), Outside);
  }

  lemma InnerSteps(w: World, l: nat, k: Lock, n: nat) returns (v: seq<World>)
    requires S.Known(w.sched) && l in w.locks && k.holder == Some(Me(w))
    requires k.repeatNum == Depth(w, Me(w), l) == n + 1 > 1
    ensures |v| == 5 && (forall i :: 0 <= i < 4 ==> Takes(v[i], Proceed, v[i + 1]))
    ensures v[0] == Here(w, l, k, AssertHolder(l)) && v[4] == SetDepth(Here(w, l, k.(repeatNum := n), Outside), l, n)
  {
    hide Takes, Here, SetDepth, Depth;
    LeavesTest(w, l, k);
    LeavesOnce(w, l, k, n);
    v := [Here(w, l, k, AssertHolder(l)), Here(w, l, k, TestRepeat(l)), Here(w, l, k, LessLoad(l)),
          Here(w, l, k, LessStore(l, k.repeatNum)), SetDepth(Here(w, l, k.(repeatNum := n), Outside), l, n)];
  }

  /** A task that is inside more than once leaves once. */
  lemma LeavesInnerLock(w: World, l: nat)
    requires Inv(w) && Enabled(w, CallUnLock(l)) && Depth(w, Me(w), l) > 1
    ensures S.Known(w.sched) && Step(w, CallUnLock(l), false).Next?
    ensures var n := Depth(w, Me(w), l) - 1;
            Undisturbed(Step(w, CallUnLock(l), false).world, 4)
              == Next(w.(locks := w.locks[l := w.locks[l].(repeatNum := n)], pcs := w.pcs[Me(w) := Outside],
                         depth := w.depth[(Me(w), l) := n]))
  {
    hide Inv, Depth;
    BeforeCall(w, l);
    CallsUnLock(w, l);
    var v := InnerSteps(w, l, w.locks[l], Depth(w, Me(w), l) - 1);
    Chain(v);
  }

  lemma LeavesLast(w: World, l: nat, k: Lock)
    requires S.Known(w.sched) && l in w.locks && k.repeatNum == 1
    ensures Takes(Here(w, l, k, ClearHolder(l)), Proceed, Here(w, l, k.(holder := None), LastLoad(l)))
    ensures Takes(Here(w, l, k, LastLoad(l)), Proceed, Here(w, l, k, LastStore(l, 1)))
    ensures Takes(Here(w, l, k, LastStore(l, 1)), Proceed, Here(w, l, k.(repeatNum := 0), EnterV(l)))
  {
    hide S.AfterBlock, PassP, WholeV;
    Onward(w, l, k, ClearHolder(l), k.(holder := None), LastLoad(l));
    Onward(w, l, k, LastLoad(l), k, LastStore(l, 1));
    Onward(w, l, k, LastStore(l, 1), k.(repeatNum := 0), EnterV(l));
  }

  /** The scheduler after Lock_V: the first that waits, if any, is woken. */
  function AfterWaking(s: S.State, waiters: seq<nat>): S.State
    requires S.Known(s) && (waiters != [] ==> waiters[0] in s.tasks && S.AfterUnBlock(s, waiters[0]).Ok?)
  {
    if waiters == [] then s else S.AfterUnBlock(s, waiters[0]).state
  }

  lemma LeavesV(w: World, l: nat, k: Lock)
    requires S.Known(w.sched) && l in w.locks && k.value == 0
    requires k.waiters != [] ==> k.waiters[0] in w.sched.tasks && S.AfterUnBlock(w.sched, k.waiters[0]).Ok?
    ensures var k' := k.(value := 1, owner := None, waiters := if k.waiters == [] then [] else k.waiters[1..]);
            Takes(Here(w, l, k, EnterV(l)), Proceed,
                  SetDepth(Here(w, l, k', Outside), l, 0).(sched := AfterWaking(w.sched, k.waiters)))
  {
    hide S.AfterUnBlock;
    Onward(w, l, k, EnterV(l), k.(value := 1, owner := None, waiters := if k.waiters == [] then [] else k.waiters[1..]),
           Outside);
  }

  lemma FirstIsWoken(w: World, l: nat)
    requires Inv(w) && l in w.locks && w.locks[l].waiters != []
    ensures var first := w.locks[l].waiters[0];
            SleepsOn(w, first, l) && S.Known(w.sched) && S.AfterUnBlock(w.sched, first).Ok?
  {
    RunningIsKnown(w);
    FirstWaiter(w, l);
    S.UnBlockKeepsInv(w.sched, w.locks[l].waiters[0]);
  }

  lemma LastSteps(w: World, l: nat, k: Lock) returns (v: seq<World>)
    requires S.Known(w.sched) && l in w.locks && k.holder == Some(Me(w)) && k.repeatNum == 1 && k.value == 0
    requires k.waiters != [] ==> k.waiters[0] in w.sched.tasks && S.AfterUnBlock(w.sched, k.waiters[0]).Ok?
    ensures |v| == 7 && (forall i :: 0 <= i < 6 ==> Takes(v[i], Proceed, v[i + 1]))
    ensures v[0] == Here(w, l, k, AssertHolder(l))
    ensures var k' := Lock(1, None, 0, if k.waiters == [] then [] else k.waiters[1..], None);
            v[6] == SetDepth(Here(w, l, k', Outside), l, 0).(sched := AfterWaking(w.sched, k.waiters))
  {
    hide Takes, Here, SetDepth, S.AfterUnBlock;
    var k1 := k.(holder := None);
    var k2 := k1.(repeatNum := 0);
    LeavesTest(w, l, k);
    LeavesLast(w, l, k);
    LeavesLast(w, l, k1);
    LeavesV(w, l, k2);
    var k' := Lock(1, None, 0, if k.waiters == [] then [] else k.waiters[1..], None);
    v := [Here(w, l, k, AssertHolder(l)), Here(w, l, k, TestRepeat(l)), Here(w, l, k, ClearHolder(l)),
          Here(w, l, k1, LastLoad(l)), Here(w, l, k1, LastStore(l, 1)), Here(w, l, k2, EnterV(l)),
          SetDepth(Here(w, l, k', Outside), l, 0).(sched := AfterWaking(w.sched, k.waiters))];
  }

  /** A task that is inside once gives the lock up, and wakes the first of those that wait. */
  lemma LeavesLock(w: World, l: nat)
    requires Inv(w) && Enabled(w, CallUnLock(l)) && Depth(w, Me(w), l) == 1
    ensures S.Known(w.sched) && Step(w, CallUnLock(l), false).Next?
    ensures var q := w.locks[l].waiters;
            && (q != [] ==> SleepsOn(w, q[0], l) && S.AfterUnBlock(w.sched, q[0]).Ok?)
            && Undisturbed(Step(w, CallUnLock(l), false).world, 6)
                 == Next(w.(locks := w.locks[l := Lock(1, None, 0, if q == [] then [] else q[1..], None)],
                            pcs := w.pcs[Me(w) := Outside], depth := w.depth[(Me(w), l) := 0],
                            sched := AfterWaking(w.sched, q)))
  {
    hide Inv, Depth, S.AfterUnBlock;
    BeforeCall(w, l);
    if w.locks[l].waiters != [] { FirstIsWoken(w, l); }
    CallsUnLock(w, l);
    var v := LastSteps(w, l, w.locks[l]);
    Chain(v);
  }
}
