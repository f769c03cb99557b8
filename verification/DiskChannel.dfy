/** The completion handshake of the disk (kernel/device/ide.c:117-124, 177-281, 412-427) and the locks of
    kernel/sync.c in one system: what holds in every state of every run, whatever task is preempted wherever and
    whatever interrupts come. */
module DiskChannel {
  import opened Common
  import opened Locks
  import S = Scheduler

  function One(b: bool): nat {
    if b then 1 else 0
  }

  /** Points at which a task has a command under way on channel d. */
  predicate InDisk(p: PC, d: nat) {
    p == SendCmd(d) || p == EnterP(d) || p == RecheckP(d)
  }

  /** Commands announced whose wait has not returned. */
  function Outstanding(c: Channel): nat {
    if c.user.Some? then 1 else 0
  }

  predicate IsBlocked(w: World, t: nat)
    requires t in w.sched.tasks
  {
    w.sched.tasks[t].status == S.Blocked
  }

  /** At most one task has a command under way, and it owns the lock of the channel. expectingIntr +
      diskDone.value is the number of outstanding commands; each of those so far has had at most one interrupt
      taken for its own, exactly one once the semaphore is up. A task asleep is one whose interrupt is still
      expected. */
  ghost predicate ChanOk(w: World, d: nat)
    requires d in w.chans
  {
    var c := w.chans[d];
    && d in w.locks && c.lock in w.locks && c.lock !in w.chans
    && (forall t {:trigger Pc(w, t)} :: t in w.sched.tasks ==> (InDisk(Pc(w, t), d) <==> c.user == Some(t)))
    && (c.user.Some? ==> c.user.value in w.sched.tasks && w.locks[c.lock].owner == c.user)
    && One(c.expectingIntr) + w.locks[d].value == Outstanding(c)
    && (c.user.Some? && Pc(w, c.user.value) == RecheckP(d) ==> (IsBlocked(w, c.user.value) <==> c.expectingIntr))
    && TakenOk(c, w.locks[d].value)
    && (forall k :: k in c.inFlight ==>
          k < c.next || (k == c.next && c.user.Some? && Pc(w, c.user.value) != SendCmd(d)))
  }

  ghost predicate TakenOk(c: Channel, up: nat) {
    |c.taken| == c.next + up && forall i :: 0 <= i < |c.taken| ==> c.taken[i].0 == i
  }

  ghost predicate ChansOk(w: World) {
    forall d {:trigger ChanOk(w, d)} :: d in w.chans ==> ChanOk(w, d)
  }

  ghost predicate SystemInv(w: World) {
    Inv(w) && ChansOk(w)
  }

  /** Every channel has a lock, which is not a semaphore, and the semaphores are no locks. */
  predicate WiredUp(locks: set<nat>, chans: map<nat, nat>) {
    forall d :: d in chans ==> d !in locks && chans[d] in locks
  }

  lemma BootSatisfiesSystemInv(main: nat, locks: set<nat>, chans: map<nat, nat>)
    requires WiredUp(locks, chans)
    ensures SystemInv(Boot(main, locks, chans))
  {
    BootSatisfiesInv(main, locks, chans);
    hide Inv;
    var w := Boot(main, locks, chans);
    forall d | d in w.chans
      ensures ChanOk(w, d)
    {
      assert chans[d] in locks;
    }
  }

  // ---------------------------------------------------------------- steps that leave a channel alone

  /** Nothing channel d depends on differs between the two worlds. */
  ghost predicate ChanSame(w: World, w': World, d: nat) {
    && d in w.chans && d in w'.chans && w'.chans[d] == w.chans[d] && w'.chans.Keys == w.chans.Keys
    && w'.locks.Keys == w.locks.Keys
    && (d in w.locks ==> w'.locks[d].value == w.locks[d].value)
    && (w.chans[d].user.Some? && w.chans[d].lock in w.locks ==>
          w'.locks[w.chans[d].lock].owner == w.locks[w.chans[d].lock].owner)
    && (forall t :: t in w.sched.tasks ==> t in w'.sched.tasks)
    && (forall t {:trigger Pc(w', t)} :: t in w'.sched.tasks ==>
          (InDisk(Pc(w', t), d) <==> t in w.sched.tasks && InDisk(Pc(w, t), d)))
    && (w.chans[d].user.Some? && w.chans[d].user.value in w.sched.tasks ==>
          var u := w.chans[d].user.value;
          u in w'.sched.tasks && Pc(w', u) == Pc(w, u) && (IsBlocked(w', u) <==> IsBlocked(w, u)))
  }

  /** Channel d and the task that has written expectingIntr but not yet the command are as they were. */
  ghost predicate Quiet(w: World, w': World, d: nat) {
    && d in w.chans && d in w'.chans && w'.chans[d] == w.chans[d]
    && (w.chans[d].user.Some? ==>
          (Pc(w', w.chans[d].user.value) == SendCmd(d) <==> Pc(w, w.chans[d].user.value) == SendCmd(d)))
  }

  lemma ChanFrame(w: World, w': World, d: nat)
    requires ChanSame(w, w', d) && ChanOk(w, d)
    ensures ChanOk(w', d)
  {
  }

  /** All a step of the running task in the code for lock l may do to the rest. */
  ghost predicate StepsOn(w: World, w': World, l: nat) {
    && Touches(w, w', l) && w'.locks.Keys == w.locks.Keys && w'.chans == w.chans
    && (Me(w) in w.sched.tasks ==> Me(w) in w'.sched.tasks)
    && (w'.locks[l].owner != w.locks[l].owner ==> w.locks[l].owner == None || w.locks[l].owner == Some(Me(w)))
    && !Pc(w, Me(w)).SendCmd? && !Pc(w', Me(w)).SendCmd?
  }

  lemma StepSpares(w: World, w': World, l: nat, d: nat)
    requires StepsOn(w, w', l) && l !in w.chans && d in w.chans && ChanOk(w, d) && Me(w) in w.sched.tasks
    ensures ChanSame(w, w', d)
  {
    var c := w.chans[d];
    assert !InDisk(Pc(w, Me(w)), d) && !InDisk(Pc(w', Me(w)), d);
    assert c.user != Some(Me(w));
    forall t | t in w'.sched.tasks
      ensures InDisk(Pc(w', t), d) <==> t in w.sched.tasks && InDisk(Pc(w, t), d)
    {
      assert t != Me(w) ==> Pc(w', t) == Pc(w, t);
    }
    if c.user.Some? {
      assert InDisk(Pc(w, c.user.value), d);
      assert PcLock(Pc(w, c.user.value)) == Some(d);
    }
  }

  lemma StepKeepsChans(w: World, w': World, l: nat)
    requires SystemInv(w) && StepsOn(w, w', l) && l !in w.chans
    ensures ChansOk(w') && forall d :: d in w.chans ==> Quiet(w, w', d)
  {
    hide Inv, Touches, LocksInv;
    assert Me(w) in w.sched.tasks by { RunningIsKnown(w); }
    forall d | d in w'.chans
      ensures ChanOk(w', d) && Quiet(w, w', d)
    {
      assert ChanOk(w, d);
      StepSpares(w, w', l, d);
      ChanFrame(w, w', d);
    }
  }

  lemma RunningIsKnown(w: World)
    requires Inv(w)
    ensures Me(w) in w.sched.tasks && w.sched.tasks[Me(w)].status == S.Running && S.Known(w.sched)
    ensures TaskOk(w, Me(w))
  {
    assert TaskOk(w, Me(w));
  }

  /** What the steps of Lock_Lock and Lock_UnLock outside Lock_P and Lock_V change. */
  lemma LockingEffect(w: World)
    requires S.Known(w.sched) && Locking(Pc(w, Me(w))) && Advance(w, false).Next?
    ensures StepsOn(w, Advance(w, false).world, Pc(w, Me(w)).l)
  {
    hide PassP, WholeV, OpenV, S.AfterUnBlock;
  }

  lemma UnlockingEffect(w: World)
    requires S.Known(w.sched) && Unlocking(Pc(w, Me(w))) && Advance(w, false).Next?
    ensures StepsOn(w, Advance(w, false).world, Pc(w, Me(w)).l)
  {
    hide PassP, WholeV, OpenV, S.AfterUnBlock;
  }

  /** Taking a lock that is free. */
  lemma AcquireEffect(w: World, l: nat)
    requires Inv(w) && S.Known(w.sched) && l in w.locks && l !in w.chans && w.locks[l].value != 0
    requires Pc(w, Me(w)) == EnterP(l) || Pc(w, Me(w)) == RecheckP(l)
    ensures PassP(w, l).Next? && StepsOn(w, PassP(w, l).world, l)
  {
    assert LockOk(w, l);
    hide S.Inv, LocksInv;
  }

  lemma SleepEffect(w: World, l: nat)
    requires Inv(w) && l in w.locks && w.locks[l].value == 0 && w.sched.ready != []
    requires Pc(w, Me(w)) == EnterP(l) || Pc(w, Me(w)) == RecheckP(l)
    ensures PassP(w, l).Next?
    ensures var w' := PassP(w, l).world;
            && StepsOn(w, w', l) && Pc(w', Me(w)) == RecheckP(l) && w'.locks[l].value == 0
            && w'.sched.tasks.Keys == w.sched.tasks.Keys && Me(w) in w'.sched.tasks && IsBlocked(w', Me(w))
  {
    RunningIsKnown(w);
    NotWaiting(w, l);
    assert S.Inv(w.sched);
    hide Inv, S.Inv, PassP, TaskOk;
    SleepChanges(w, l);
    PassSleeps(w, l);
  }

  lemma NotWaiting(w: World, l: nat)
    requires Inv(w) && l in w.locks
    ensures Me(w) !in w.locks[l].waiters
  {
    assert LockOk(w, l);
    assert !SleepsOn(w, Me(w), l);
  }

  lemma PassSleeps(w: World, l: nat)
    requires S.Known(w.sched) && l in w.locks && w.locks[l].value == 0 && PassP(w, l).Next?
    ensures PassP(w, l).world.chans == w.chans && PassP(w, l).world.locks.Keys == w.locks.Keys
  {
    hide S.AfterBlock;
  }

  lemma FirstWaiter(w: World, l: nat)
    requires Inv(w) && l in w.locks && w.locks[l].waiters != []
    ensures SleepsOn(w, w.locks[l].waiters[0], l)
  {
    assert LockOk(w, l);
  }

  lemma ReleaseEffect(w: World, l: nat)
    requires Inv(w) && S.Known(w.sched) && l in w.locks && Pc(w, Me(w)) == EnterV(l)
    ensures WholeV(w, l).Next? && StepsOn(w, WholeV(w, l).world, l) && l !in w.chans
  {
    ReleaseKeepsInv(w, l);
    OwnerReleases(w, l);
    if w.locks[l].waiters != [] { FirstWaiter(w, l); }
    hide Inv, WholeV;
    ReleaseChanges(w, l);
    hide Touches;
    assert WholeV(w, l).world.locks.Keys == w.locks.Keys by { TouchesKeys(w, WholeV(w, l).world, l); }
  }

  lemma TouchesKeys(w: World, w': World, l: nat)
    requires Touches(w, w', l)
    ensures w'.locks.Keys == w.locks.Keys
  {
  }

  // ---------------------------------------------------------------- steps on a channel

  /** Another channel than the one a step is about: its lock, its semaphore and its task stay as they are. */
  ghost predicate OnlyChannel(w: World, w': World, d: nat) {
    && d in w.locks && w'.chans.Keys == w.chans.Keys && w'.locks.Keys == w.locks.Keys
    && (forall x :: x in w.chans && x != d ==> w'.chans[x] == w.chans[x])
    && (forall x :: x in w.locks && x != d ==> w'.locks[x] == w.locks[x])
    && w'.sched.tasks.Keys == w.sched.tasks.Keys
    && (forall t {:trigger Pc(w', t)} :: t in w.sched.tasks ==>
          Pc(w', t) == Pc(w, t) || (t == Me(w) && OnOrOut(Pc(w, t), d) && OnOrOut(Pc(w', t), d)))
    && (forall t :: t in w.sched.tasks && !InDisk(Pc(w, t), d) ==> (IsBlocked(w', t) <==> IsBlocked(w, t)))
  }

  predicate OnOrOut(p: PC, d: nat) {
    p == Outside || InDisk(p, d)
  }

  lemma OtherChannel(w: World, w': World, d: nat, x: nat)
    requires OnlyChannel(w, w', d) && x in w.chans && x != d && ChanOk(w, x) && d in w.chans
    ensures ChanOk(w', x) && Quiet(w, w', x)
  {
    OtherSame(w, w', d, x);
    hide ChanOk, OnlyChannel;
    ChanFrame(w, w', x);
  }

  lemma OtherSame(w: World, w': World, d: nat, x: nat)
    requires OnlyChannel(w, w', d) && x in w.chans && x != d && ChanOk(w, x) && d in w.chans
    ensures ChanSame(w, w', x) && Quiet(w, w', x)
  {
    hide TakenOk, InDisk, OnOrOut;
    forall t | t in w'.sched.tasks
      ensures InDisk(Pc(w', t), x) <==> InDisk(Pc(w, t), x)
    {
      assert t in w.sched.tasks;
      OtherCode(Pc(w, t), d, x);
      OtherCode(Pc(w', t), d, x);
    }
    if w.chans[x].user.Some? { OtherCode(Pc(w, w.chans[x].user.value), d, x); }
  }

  lemma OtherCode(p: PC, d: nat, x: nat)
    requires x != d
    ensures InDisk(p, x) ==> !OnOrOut(p, d) && !InDisk(p, d)
  {
  }

  lemma ChannelStep(w: World, w': World, d: nat)
    requires ChansOk(w) && OnlyChannel(w, w', d) && d in w.chans && ChanOk(w', d)
    ensures ChansOk(w') && forall x :: x in w.chans && x != d ==> Quiet(w, w', x)
  {
    forall x | x in w'.chans
      ensures ChanOk(w', x) && (x != d ==> Quiet(w, w', x))
    {
      if x != d {
        assert ChanOk(w, x);
        OtherChannel(w, w', d, x);
      }
    }
  }

  /** Only the owner of the channel's lock can announce a command, so no other is under way. */
  lemma NobodyElse(w: World, d: nat)
    requires SystemInv(w) && Enabled(w, Announce(d))
    ensures w.chans[d].user == None && w.chans[d].lock in w.locks && w.locks[w.chans[d].lock].owner == Some(Me(w))
  {
    RunningIsKnown(w);
    assert ChanOk(w, d) && LockOk(w, w.chans[d].lock);
  }

  lemma AnnounceKeepsChans(w: World, d: nat)
    requires SystemInv(w) && S.Known(w.sched) && Enabled(w, Announce(d))
    ensures ChansOk(Step(w, Announce(d), false).world)
    ensures forall x :: x in w.chans && x != d ==> Quiet(w, Step(w, Announce(d), false).world, x)
  {
    NobodyElse(w, d);
    RunningIsKnown(w);
    var w' := Step(w, Announce(d), false).world;
    assert w' == SetChan(Goto(w, SendCmd(d)), d, w.chans[d].(expectingIntr := true, user := Some(Me(w))));
    assert ChanOk(w, d);
    AnnouncedIsFine(w, d);
    hide Inv, ChanOk;
    ChannelStep(w, w', d);
  }

  lemma AnnouncedIsFine(w: World, d: nat)
    requires d in w.chans && ChanOk(w, d) && Pc(w, Me(w)) == Outside && Me(w) in w.sched.tasks
    requires w.chans[d].user == None && w.locks[w.chans[d].lock].owner == Some(Me(w))
    ensures var w' := SetChan(Goto(w, SendCmd(d)), d, w.chans[d].(expectingIntr := true, user := Some(Me(w))));
            OnlyChannel(w, w', d) && ChanOk(w', d)
  {
    var w' := SetChan(Goto(w, SendCmd(d)), d, w.chans[d].(expectingIntr := true, user := Some(Me(w))));
    forall t | t in w'.sched.tasks
      ensures InDisk(Pc(w', t), d) <==> t == Me(w)
    {
      assert t != Me(w) ==> Pc(w', t) == Pc(w, t);
    }
    assert TakenOk(w'.chans[d], w'.locks[d].value);
  }

  lemma SendKeepsChans(w: World)
    requires SystemInv(w) && S.Known(w.sched) && Pc(w, Me(w)).SendCmd?
    ensures Advance(w, false).Next? && ChansOk(Advance(w, false).world)
    ensures forall x :: x in w.chans && x != Pc(w, Me(w)).l ==> Quiet(w, Advance(w, false).world, x)
  {
    RunningIsKnown(w);
    var d := Pc(w, Me(w)).l;
    WaiterIsUser(w, d);
    assert ChanOk(w, d);
    var w' := Advance(w, false).world;
    assert w' == SetChan(Goto(w, EnterP(d)), d, w.chans[d].(inFlight := w.chans[d].inFlight + {w.chans[d].next}));
    SentIsFine(w, d);
    hide Inv, ChanOk, Advance;
    ChannelStep(w, w', d);
  }

  lemma SentIsFine(w: World, d: nat)
    requires d in w.chans && ChanOk(w, d) && Pc(w, Me(w)) == SendCmd(d) && w.chans[d].user == Some(Me(w))
    ensures var c := w.chans[d];
            var w' := SetChan(Goto(w, EnterP(d)), d, c.(inFlight := c.inFlight + {c.next}));
            OnlyChannel(w, w', d) && ChanOk(w', d)
  {
    var c := w.chans[d];
    var w' := SetChan(Goto(w, EnterP(d)), d, c.(inFlight := c.inFlight + {c.next}));
    forall t | t in w'.sched.tasks
      ensures InDisk(Pc(w', t), d) <==> t == Me(w)
    {
      assert t != Me(w) ==> Pc(w', t) == Pc(w, t);
    }
    assert TakenOk(w'.chans[d], w'.locks[d].value);
  }

  /** The task in Lock_P on a semaphore is the one with the command under way. */
  lemma WaiterIsUser(w: World, d: nat)
    requires SystemInv(w) && d in w.chans && InDisk(Pc(w, Me(w)), d)
    ensures d in w.locks && w.chans[d].user == Some(Me(w))
  {
    RunningIsKnown(w);
    assert ChanOk(w, d);
  }

  /** A semaphore is used in these places only. */
  lemma OnlyDiskCode(w: World, d: nat)
    requires Inv(w) && d in w.chans
    ensures forall t {:trigger Pc(w, t)} :: t in w.sched.tasks && PcLock(Pc(w, t)) == Some(d) ==> InDisk(Pc(w, t), d)
  {
    forall t | t in w.sched.tasks && PcLock(Pc(w, t)) == Some(d)
      ensures InDisk(Pc(w, t), d)
    {
      assert TaskOk(w, t);
    }
  }

  lemma StepIsOnChannel(w: World, w': World, d: nat)
    requires StepsOn(w, w', d) && d in w.chans && InDisk(Pc(w, Me(w)), d) && InDisk(Pc(w', Me(w)), d)
    requires w'.sched.tasks.Keys == w.sched.tasks.Keys
    requires forall t {:trigger Pc(w, t)} :: t in w.sched.tasks && PcLock(Pc(w, t)) == Some(d) ==> InDisk(Pc(w, t), d)
    ensures OnlyChannel(w, w', d)
  {
    forall t | t in w.sched.tasks
      ensures Pc(w', t) == Pc(w, t) || (t == Me(w) && OnOrOut(Pc(w, t), d) && OnOrOut(Pc(w', t), d))
      ensures !InDisk(Pc(w, t), d) ==> (IsBlocked(w', t) <==> IsBlocked(w, t))
    {
    }
  }

  lemma WaitingIsFine(w: World, w': World, d: nat)
    requires d in w.chans && ChanOk(w, d) && w.chans[d].user == Some(Me(w)) && w.locks[d].value == 0
    requires StepsOn(w, w', d) && w'.sched.tasks.Keys == w.sched.tasks.Keys && Me(w) in w'.sched.tasks
    requires Pc(w', Me(w)) == RecheckP(d) && w'.locks[d].value == 0 && IsBlocked(w', Me(w))
    ensures ChanOk(w', d)
  {
    assert w'.locks[w.chans[d].lock] == w.locks[w.chans[d].lock];
    forall t | t in w'.sched.tasks
      ensures InDisk(Pc(w', t), d) <==> w.chans[d].user == Some(t)
    {
      assert t != Me(w) ==> Pc(w', t) == Pc(w, t);
    }
  }

  lemma WaitSleepKeepsChans(w: World, d: nat)
    requires SystemInv(w) && d in w.chans && d in w.locks && w.locks[d].value == 0 && w.sched.ready != []
    requires Pc(w, Me(w)) == EnterP(d) || Pc(w, Me(w)) == RecheckP(d)
    ensures PassP(w, d).Next? && ChansOk(PassP(w, d).world)
    ensures forall x :: x in w.chans ==> Quiet(w, PassP(w, d).world, x)
  {
    RunningIsKnown(w);
    WaiterIsUser(w, d);
    SleepEffect(w, d);
    var w' := PassP(w, d).world;
    assert ChanOk(w, d);
    OnlyDiskCode(w, d);
    hide Inv, TaskOk, PassP, ChansOk;
    StepIsOnChannel(w, w', d);
    WaitingIsFine(w, w', d);
    assert ChansOk(w);
    ChannelStep(w, w', d);
  }

  lemma WaitEndsKeepsChans(w: World, d: nat)
    requires SystemInv(w) && S.Known(w.sched) && d in w.chans && d in w.locks && w.locks[d].value != 0
    requires Pc(w, Me(w)) == EnterP(d) || Pc(w, Me(w)) == RecheckP(d)
    ensures PassP(w, d).Next? && ChansOk(PassP(w, d).world)
    ensures forall x :: x in w.chans && x != d ==> Quiet(w, PassP(w, d).world, x)
  {
    WaiterIsUser(w, d);
    assert ChanOk(w, d);
    WaitedIsFine(w, d);
    var w' := PassP(w, d).world;
    assert w' == Waited(w, d);
    hide Inv, ChanOk, PassP, Waited;
    ChannelStep(w, w', d);
  }

  function Waited(w: World, d: nat): World
    requires d in w.chans && d in w.locks
  {
    var c := w.chans[d];
    Goto(SetChan(SetLock(w, d, w.locks[d].(value := 0)), d, c.(user := None, next := c.next + 1)), Outside)
  }

  lemma WaitedIsFine(w: World, d: nat)
    requires d in w.chans && ChanOk(w, d) && w.locks[d].value != 0 && w.chans[d].user == Some(Me(w))
    requires Pc(w, Me(w)) == EnterP(d) || Pc(w, Me(w)) == RecheckP(d)
    ensures w.locks[d].value == 1 && OnlyChannel(w, Waited(w, d), d) && ChanOk(Waited(w, d), d)
  {
    var w' := Waited(w, d);
    forall t | t in w'.sched.tasks
      ensures !InDisk(Pc(w', t), d)
    {
      assert t != Me(w) ==> Pc(w', t) == Pc(w, t);
    }
    assert TakenOk(w'.chans[d], w'.locks[d].value);
  }

  lemma SingleElement(q: seq<nat>, u: nat)
    requires NoDup(q) && (forall i :: 0 <= i < |q| ==> q[i] == u) && |q| > 0
    ensures q == [u]
  {
    assert q[0] == q[|q| - 1];
  }

  /** The only task that can sleep on the semaphore. */
  lemma SleeperIsUser(w: World, d: nat)
    requires SystemInv(w) && d in w.chans
    ensures d in w.locks && w.locks[d].waiters ==
              if w.chans[d].user.Some? && SleepsOn(w, w.chans[d].user.value, d) then [w.chans[d].user.value] else []
  {
    assert ChanOk(w, d) && LockOk(w, d);
    var q, c := w.locks[d].waiters, w.chans[d];
    forall i | 0 <= i < |q|
      ensures c.user == Some(q[i]) && SleepsOn(w, q[i], d)
    {
      assert q[i] in q;
    }
    if q != [] {
      assert c.user == Some(q[0]);
      SingleElement(q, q[0]);
    } else if c.user.Some? {
      assert !SleepsOn(w, c.user.value, d);
    }
  }

  /** The interrupt: the handler's assertion holds, and every channel stays in order. */
  lemma InterruptKeepsChans(w: World, d: nat, irq: Irq)
    requires SystemInv(w) && S.Known(w.sched) && Enabled(w, Interrupt(d, irq))
    ensures OnInterrupt(w, d, irq).Next? && ChansOk(OnInterrupt(w, d, irq).world)
    ensures forall x :: x in w.chans && x != d ==> Quiet(w, OnInterrupt(w, d, irq).world, x)
    ensures S.Inv(OnInterrupt(w, d, irq).world.sched)
  {
    SleeperIsUser(w, d);
    if w.chans[d].expectingIntr {
      hide OnInterrupt;
      HandlerKeepsChans(w, d, irq);
    } else {
      assert ChanOk(w, d) && S.Inv(w.sched);
      var w' := OnInterrupt(w, d, irq).world;
      IgnoredIsFine(w, w', d);
      hide Inv, HandlerV, Enabled, ChanOk, OnInterrupt;
      ChannelStep(w, w', d);
    }
  }

  lemma IgnoredIsFine(w: World, w': World, d: nat)
    requires d in w.chans && ChanOk(w, d) && d in w'.chans
    requires w' == SetChan(w, d, w.chans[d].(inFlight := w'.chans[d].inFlight))
    requires w'.chans[d].inFlight <= w.chans[d].inFlight
    ensures OnlyChannel(w, w', d) && ChanOk(w', d)
  {
    forall t | t in w'.sched.tasks
      ensures Pc(w', t) == Pc(w, t)
    {
    }
    assert TakenOk(w'.chans[d], w'.locks[d].value);
  }

  lemma HandledIsFine(w: World, w': World, d: nat, irq: Irq)
    requires d in w.chans && ChanOk(w, d) && w.chans[d].expectingIntr
    requires w.locks[d].waiters ==
               if w.chans[d].user.Some? && SleepsOn(w, w.chans[d].user.value, d) then [w.chans[d].user.value] else []
    requires var c := w.chans[d];
             w'.chans == w.chans[d := c.(inFlight := if irq.Of? then c.inFlight - {irq.command} else c.inFlight,
                                         expectingIntr := false, taken := c.taken + [(c.next, irq)])]
    requires w'.pcs == w.pcs && w'.sched.tasks.Keys == w.sched.tasks.Keys
    requires w'.locks == w.locks[d := w.locks[d].(value := 1, waiters := [])]
    requires forall t :: t in w.sched.tasks && t !in w.locks[d].waiters ==> w'.sched.tasks[t] == w.sched.tasks[t]
    requires forall t :: t in w.locks[d].waiters ==> t in w'.sched.tasks && w'.sched.tasks[t].status == S.Ready
    ensures OnlyChannel(w, w', d) && ChanOk(w', d)
  {
    forall t | t in w.sched.tasks
      ensures Pc(w', t) == Pc(w, t) && (!InDisk(Pc(w, t), d) ==> (IsBlocked(w', t) <==> IsBlocked(w, t)))
    {
    }
  }

  lemma HandlerKeepsChans(w: World, d: nat, irq: Irq)
    requires SystemInv(w) && S.Known(w.sched) && d in w.chans && d in w.locks && w.chans[d].expectingIntr
    requires irq.Of? ==> irq.command in w.chans[d].inFlight
    requires w.locks[d].waiters ==
               if w.chans[d].user.Some? && SleepsOn(w, w.chans[d].user.value, d) then [w.chans[d].user.value] else []
    ensures OnInterrupt(w, d, irq).Next? && ChansOk(OnInterrupt(w, d, irq).world)
    ensures forall x :: x in w.chans && x != d ==> Quiet(w, OnInterrupt(w, d, irq).world, x)
    ensures S.Inv(OnInterrupt(w, d, irq).world.sched)
  {
    hide LocksInv;
    assert ChanOk(w, d);
    var c := w.chans[d];
    var rest := if irq.Of? then c.inFlight - {irq.command} else c.inFlight;
    var v := SetChan(w, d, c.(inFlight := rest, expectingIntr := false, taken := c.taken + [(c.next, irq)]));
    if w.locks[d].waiters != [] { S.UnBlockKeepsInv(w.sched, c.user.value); }
    assert HandlerV(v, d).Next? && S.Inv(HandlerV(v, d).world.sched);
    HandlerChanges(v, d);
    var w' := HandlerV(v, d).world;
    assert w' == OnInterrupt(w, d, irq).world;
    hide Inv, HandlerV, OnInterrupt, S.Inv, ChansOk;
    assert w.locks[d].waiters == [] || w.locks[d].waiters[1..] == [];
    HandledIsFine(w, w', d, irq);
    assert ChansOk(w);
    ChannelStep(w, w', d);
  }

  // ---------------------------------------------------------------- one step

  /** The channel a step does something to. */
  function About(w: World, e: Event): Option<nat> {
    match e
    case Announce(d) => Some(d)
    case Interrupt(d, _) => Some(d)
    case Proceed =>
      var p := Pc(w, Me(w));
      if p.SendCmd? then Some(p.l)
      else if (p.EnterP? || p.RecheckP?) && p.l in w.chans && p.l in w.locks && w.locks[p.l].value != 0 then Some(p.l)
      else None
    case _ => None
  }

  lemma ProceedKeepsChans(w: World)
    requires SystemInv(w) && S.Known(w.sched) && Enabled(w, Proceed)
    requires WillSleep(w, Proceed) ==> w.sched.ready != []
    requires Advance(w, false).Next?
    ensures ChansOk(Advance(w, false).world)
    ensures forall x :: x in w.chans && About(w, Proceed) != Some(x) ==> Quiet(w, Advance(w, false).world, x)
  {
    RunningIsKnown(w);
    var p := Pc(w, Me(w));
    if p.EnterP? || p.RecheckP? {
      if p.l in w.chans {
        if w.locks[p.l].value == 0 { WaitSleepKeepsChans(w, p.l); } else { WaitEndsKeepsChans(w, p.l); }
      } else {
        if w.locks[p.l].value == 0 { SleepEffect(w, p.l); } else { AcquireEffect(w, p.l); }
        StepKeepsChans(w, PassP(w, p.l).world, p.l);
      }
    } else if p.EnterV? {
      ReleaseEffect(w, p.l);
      StepKeepsChans(w, WholeV(w, p.l).world, p.l);
    } else if p.SendCmd? {
      SendKeepsChans(w);
    } else if Locking(p) {
      LockingEffect(w);
      StepKeepsChans(w, Advance(w, false).world, p.l);
    } else {
      UnlockingEffect(w);
      StepKeepsChans(w, Advance(w, false).world, p.l);
    }
  }

  lemma CallKeepsChans(w: World, e: Event)
    requires SystemInv(w) && S.Known(w.sched) && Enabled(w, e) && (e.CallLock? || e.CallUnLock?)
    ensures ChansOk(Step(w, e, false).world)
    ensures forall x :: x in w.chans ==> Quiet(w, Step(w, e, false).world, x)
  {
    assert StepsOn(w, Step(w, e, false).world, e.l);
    StepKeepsChans(w, Step(w, e, false).world, e.l);
  }

  lemma SwitchKeepsChans(w: World, w': World)
    requires ChansOk(w) && SwitchOnly(w, w')
    ensures ChansOk(w') && forall d :: d in w.chans ==> Quiet(w, w', d)
  {
    forall d | d in w'.chans
      ensures ChanOk(w', d) && Quiet(w, w', d)
    {
      assert ChanOk(w, d);
      SwitchSparesChannel(w, w', d);
      ChanFrame(w, w', d);
    }
  }

  lemma SwitchSparesChannel(w: World, w': World, d: nat)
    requires SwitchOnly(w, w') && d in w.chans && ChanOk(w, d)
    ensures ChanSame(w, w', d)
  {
  }

  lemma SchedulerSwitches(w: World, e: Event)
    requires Inv(w) && S.Known(w.sched) && Enabled(w, e) && (e.Timer? || e.YieldCpu? || e.Spawn?)
    requires Step(w, e, false).Next?
    ensures SwitchOnly(w, Step(w, e, false).world)
  {
    match e {
      case Timer =>
        TickSwitches(w.sched);
        Switches(w, S.AfterTick(w.sched).state, Me(w));
      case YieldCpu =>
        YieldSwitches(w.sched);
        Switches(w, S.AfterYield(w.sched).state, Me(w));
      case Spawn(t, p) =>
        CreateSwitches(w.sched, t, p);
        Switches(w, S.AfterCreate(w.sched, t, p).state, t);
    }
  }

  lemma Switches(w: World, s: S.State, t: nat)
    requires LocksInv(w) && Switched(w.sched, s) && t in s.tasks
    requires forall u :: u in s.tasks && u !in w.sched.tasks ==> u == t
    ensures t in w.sched.tasks ==> SwitchOnly(w, w.(sched := s))
    ensures t !in w.sched.tasks ==> SwitchOnly(w, w.(pcs := w.pcs[t := Outside], sched := s))
  {
    assert forall u :: u in w.pcs ==> u in w.sched.tasks;
    hide LocksInv;
  }

  lemma SchedulerKeepsChans(w: World, e: Event)
    requires SystemInv(w) && S.Known(w.sched) && Enabled(w, e) && (e.Timer? || e.YieldCpu? || e.Spawn?)
    requires Step(w, e, false).Next?
    ensures ChansOk(Step(w, e, false).world)
    ensures forall x :: x in w.chans ==> Quiet(w, Step(w, e, false).world, x)
  {
    hide Inv, ChansOk, Step, Enabled, SwitchOnly;
    SchedulerSwitches(w, e);
    SwitchKeepsChans(w, Step(w, e, false).world);
  }

  /** No assertion of sync.c, thread.c or the disk's handler can fail in one step from a good state, and the
      state stays good, whoever is preempted wherever and whatever interrupt comes; a task that goes to sleep
      must leave somebody to run. */
  lemma StepIsSafe(w: World, e: Event)
    requires SystemInv(w) && Enabled(w, e)
    requires WillSleep(w, e) ==> w.sched.ready != []
    ensures S.Known(w.sched) && Step(w, e, false).Next? && SystemInv(Step(w, e, false).world)
    ensures forall x :: x in w.chans && About(w, e) != Some(x) ==> Quiet(w, Step(w, e, false).world, x)
  {
    RunningIsKnown(w);
    match e {
      case Proceed =>
        ProceedIsSafe(w);
        ProceedKeepsChans(w);
      case CallLock(_) =>
        CallIsSafe(w, e);
        CallKeepsChans(w, e);
      case CallUnLock(_) =>
        CallIsSafe(w, e);
        CallKeepsChans(w, e);
      case Announce(d) =>
        CallIsSafe(w, e);
        AnnounceKeepsChans(w, d);
      case Interrupt(d, irq) =>
        InterruptKeepsChans(w, d, irq);
        InterruptKeepsLocks(w, d, irq);
      case Timer =>
        TimerIsSafe(w);
        SchedulerKeepsChans(w, e);
      case YieldCpu =>
        YieldIsSafe(w);
        SchedulerKeepsChans(w, e);
      case Spawn(t, p) =>
        SpawnIsSafe(w, t, p);
        SchedulerKeepsChans(w, e);
    }
  }

  // ---------------------------------------------------------------- every run

  /** Whatever the running task or an interrupt does next, no assertion fails. */
  ghost predicate NextStepIsSafe(w: World)
    requires S.Known(w.sched)
  {
    forall e :: Enabled(w, e) && (WillSleep(w, e) ==> w.sched.ready != []) ==> Step(w, e, false).Next?
  }

  lemma EveryStepIsSafe(w: World)
    requires S.Known(w.sched) && SystemInv(w)
    ensures NextStepIsSafe(w)
  {
    hide SystemInv, Enabled, WillSleep, Step, S.Known;
    forall e | Enabled(w, e) && (WillSleep(w, e) ==> w.sched.ready != [])
      ensures Step(w, e, false).Next?
    {
      StepIsSafe(w, e);
    }
  }

  /** A run from boot. A blocking step always has another ready task (thread.c:175-177). */
  ghost predicate IsRun(main: nat, locks: set<nat>, chans: map<nat, nat>, worlds: seq<World>, events: seq<Event>) {
    && WiredUp(locks, chans) && |worlds| == |events| + 1 && worlds[0] == Boot(main, locks, chans)
    && forall i :: 0 <= i < |events| ==> Takes(worlds[i], events[i], worlds[i + 1])
  }

  ghost predicate Takes(w: World, e: Event, w': World) {
    && S.Known(w.sched) && Enabled(w, e) && Step(w, e, false) == Next(w')
    && (WillSleep(w, e) ==> w.sched.ready != [])
  }

  lemma {:induction false} RunIsSafe(main: nat, locks: set<nat>, chans: map<nat, nat>, worlds: seq<World>,
                                     events: seq<Event>, i: nat)
    requires IsRun(main, locks, chans, worlds, events) && i < |worlds|
    ensures SystemInv(worlds[i]) && S.Known(worlds[i].sched) && NextStepIsSafe(worlds[i])
    decreases i
  {
    if i == 0 {
      BootSatisfiesSystemInv(main, locks, chans);
    } else {
      RunIsSafe(main, locks, chans, worlds, events, i - 1);
      assert Takes(worlds[i - 1], events[i - 1], worlds[i - 1 + 1]);
      hide SystemInv, Enabled, Step, WillSleep;
      StepIsSafe(worlds[i - 1], events[i - 1]);
    }
    assert Inv(worlds[i]) by { SystemInvMeans(worlds[i]); }
    RunningIsKnown(worlds[i]);
    EveryStepIsSafe(worlds[i]);
  }

  lemma SystemInvMeans(w: World)
    requires SystemInv(w)
    ensures Inv(w) && ChansOk(w)
  {
  }

  /** Task t is on the queue of lock or semaphore l. */
  predicate OnQueue(w: World, t: nat, l: nat) {
    l in w.locks && t in w.locks[l].waiters
  }

  /** What holds of the locks in every state of every run: one task at most is inside, the repeat count of a
      holder at rest is its nesting depth, a free lock or raised semaphore with sleepers has a woken task due to
      look at it; a task is BLOCKED exactly if it is on a queue, on one queue only and once; and no step that
      can follow fails an assertion. */
  lemma EveryRun(main: nat, locks: set<nat>, chans: map<nat, nat>, worlds: seq<World>, events: seq<Event>, i: nat)
    requires IsRun(main, locks, chans, worlds, events) && i < |worlds|
    ensures var w := worlds[i];
            && (forall l {:trigger w.locks[l]} :: l in w.locks ==>
                  w.locks[l].value <= 1 && NoDup(w.locks[l].waiters) && NoLostWakeUp(w, l))
            && (forall l, t: nat, u: nat :: l in w.locks && Depth(w, t, l) > 0 && Depth(w, u, l) > 0 ==> t == u)
            && (forall l, t: nat {:trigger w.locks[l], Pc(w, t)} ::
                  l in w.locks && Pc(w, t) == Outside && w.locks[l].holder == Some(t) ==>
                  w.locks[l].repeatNum == Depth(w, t, l))
    ensures var w := worlds[i];
            && (forall t {:trigger w.sched.tasks[t]} :: t in w.sched.tasks ==>
                  (w.sched.tasks[t].status == S.Blocked <==> exists l :: OnQueue(w, t, l)))
            && (forall t, l, k :: OnQueue(w, t, l) && OnQueue(w, t, k) ==> k == l)
    ensures S.Known(worlds[i].sched) && NextStepIsSafe(worlds[i])
  {
    RunIsSafe(main, locks, chans, worlds, events, i);
    var w := worlds[i];
    hide NextStepIsSafe, S.Known;
    forall l | l in w.locks
      ensures w.locks[l].value <= 1 && NoDup(w.locks[l].waiters) && NoLostWakeUp(w, l)
      ensures forall t: nat, u: nat :: Depth(w, t, l) > 0 && Depth(w, u, l) > 0 ==> t == u
      ensures forall t: nat {:trigger Pc(w, t)} :: Pc(w, t) == Outside && w.locks[l].holder == Some(t) ==>
                w.locks[l].repeatNum == Depth(w, t, l)
    {
      LockPromises(w, l);
    }
    forall t | t in w.sched.tasks
      ensures w.sched.tasks[t].status == S.Blocked <==> exists l :: OnQueue(w, t, l)
    {
      BlockedIsQueued(w, t);
    }
    forall t, l, k | OnQueue(w, t, l) && OnQueue(w, t, k)
      ensures k == l
    {
      QueuedOnce(w, t, l, k);
    }
  }

  lemma LockPromises(w: World, l: nat)
    requires Inv(w) && l in w.locks
    ensures w.locks[l].value <= 1 && NoDup(w.locks[l].waiters) && NoLostWakeUp(w, l)
    ensures forall t: nat, u: nat :: Depth(w, t, l) > 0 && Depth(w, u, l) > 0 ==> t == u
    ensures forall t: nat {:trigger Pc(w, t)} :: Pc(w, t) == Outside && w.locks[l].holder == Some(t) ==>
              w.locks[l].repeatNum == Depth(w, t, l)
  {
    assert LockOk(w, l);
    hide S.Inv;
    forall t: nat, u: nat | Depth(w, t, l) > 0 && Depth(w, u, l) > 0
      ensures t == u
    {
      assert (t, l) in w.depth && (u, l) in w.depth;
    }
  }

  lemma BlockedIsQueued(w: World, t: nat)
    requires Inv(w) && t in w.sched.tasks
    ensures w.sched.tasks[t].status == S.Blocked <==> exists l :: OnQueue(w, t, l)
  {
    assert TaskOk(w, t);
    hide S.Inv;
    if w.sched.tasks[t].status == S.Blocked {
      var l := Pc(w, t).l;
      assert LockOk(w, l) && SleepsOn(w, t, l);
      assert OnQueue(w, t, l);
    }
    if l :| OnQueue(w, t, l) {
      assert LockOk(w, l);
      assert SleepsOn(w, t, l);
    }
  }

  lemma QueuedOnce(w: World, t: nat, l: nat, k: nat)
    requires Inv(w) && OnQueue(w, t, l) && OnQueue(w, t, k)
    ensures k == l
  {
    assert LockOk(w, l) && LockOk(w, k);
    hide S.Inv;
    assert SleepsOn(w, t, l) && SleepsOn(w, t, k);
  }

  /** What holds of the disk in every state of every run: the flag and the semaphore add up to the outstanding
      commands, one at most; whoever has one under way is a single task, which is inside the channel's lock. */
  lemma EveryChannel(main: nat, locks: set<nat>, chans: map<nat, nat>, worlds: seq<World>, events: seq<Event>,
                     i: nat, d: nat)
    requires IsRun(main, locks, chans, worlds, events) && i < |worlds| && d in worlds[i].chans
    ensures var w, c := worlds[i], worlds[i].chans[d];
            && d in w.locks && c.lock in w.locks && One(c.expectingIntr) + w.locks[d].value == Outstanding(c) <= 1
            && (forall t :: t in w.sched.tasks && InDisk(Pc(w, t), d) ==> c.user == Some(t) && Depth(w, t, c.lock) > 0)
            && (Outstanding(c) == 1 <==> exists t :: t in w.sched.tasks && InDisk(Pc(w, t), d))
  {
    RunIsSafe(main, locks, chans, worlds, events, i);
    var w := worlds[i];
    hide NextStepIsSafe, S.Known;
    assert ChanOk(w, d);
    var c := w.chans[d];
    assert LockOk(w, c.lock);
    if c.user.Some? { assert InDisk(Pc(w, c.user.value), d); }
  }

  /** A wait returns only after an interrupt has been taken for its own command since that was announced. */
  lemma WaitReturns(w: World, d: nat)
    requires SystemInv(w) && S.Known(w.sched) && d in w.chans && InDisk(Pc(w, Me(w)), d) && Enabled(w, Proceed)
    requires Step(w, Proceed, false).Next? && Pc(Step(w, Proceed, false).world, Me(w)) == Outside
    ensures var c := w.chans[d];
            && c.user == Some(Me(w)) && |c.taken| == c.next + 1 && c.taken[c.next].0 == c.next
  {
    RunningIsKnown(w);
    WaiterIsUser(w, d);
    assert ChanOk(w, d);
    if w.locks[d].value == 0 { WaitsOn(w, d); }
  }

  /** With the semaphore down the step does not leave Lock_P. */
  lemma WaitsOn(w: World, d: nat)
    requires S.Known(w.sched) && d in w.chans && d in w.locks && w.locks[d].value == 0
    requires InDisk(Pc(w, Me(w)), d) && Advance(w, false).Next?
    ensures Pc(Advance(w, false).world, Me(w)) != Outside
  {
    hide S.AfterBlock;
  }

  // ---------------------------------------------------------------- whose interrupt it was

  /** Every interrupt taken so far was that of the command it was taken for. */
  ghost predicate AllOwn(c: Channel) {
    forall i :: 0 <= i < |c.taken| ==> c.taken[i].1 == Of(c.taken[i].0)
  }

  /** No stray interrupt came while one was expected. */
  ghost predicate NoStrayTaken(c: Channel) {
    forall i :: 0 <= i < |c.taken| ==> c.taken[i].1 != Stray
  }

  /** Without strays the drive never owes more than the answer to the outstanding command, and owes that
      until it is taken. */
  ghost predicate Clean(w: World, d: nat)
    requires d in w.chans
  {
    var c := w.chans[d];
    && AllOwn(c)
    && (c.user.Some? && Pc(w, c.user.value) == SendCmd(d) ==> c.expectingIntr)
    && (forall k :: k in c.inFlight ==> k == c.next && c.expectingIntr)
    && (c.user.Some? && Pc(w, c.user.value) != SendCmd(d) && c.expectingIntr ==> c.next in c.inFlight)
  }

  ghost predicate CleanIfNoStray(w: World, d: nat) {
    d in w.chans && (NoStrayTaken(w.chans[d]) ==> Clean(w, d))
  }

  lemma QuietKeepsClean(w: World, w': World, d: nat)
    requires Quiet(w, w', d) && CleanIfNoStray(w, d)
    ensures CleanIfNoStray(w', d)
  {
  }

  lemma AnnounceKeepsClean(w: World, d: nat)
    requires SystemInv(w) && S.Known(w.sched) && Enabled(w, Announce(d)) && CleanIfNoStray(w, d)
    ensures CleanIfNoStray(Step(w, Announce(d), false).world, d)
  {
    NobodyElse(w, d);
    assert ChanOk(w, d);
    hide Inv, ChansOk;
  }

  lemma SendKeepsClean(w: World, d: nat)
    requires SystemInv(w) && S.Known(w.sched) && Pc(w, Me(w)) == SendCmd(d) && CleanIfNoStray(w, d)
    ensures Advance(w, false).Next? && CleanIfNoStray(Advance(w, false).world, d)
  {
    RunningIsKnown(w);
    WaiterIsUser(w, d);
    assert ChanOk(w, d);
    hide Inv, ChansOk, ChanOk;
    var w' := Advance(w, false).world;
    assert w' == SetChan(Goto(w, EnterP(d)), d, w.chans[d].(inFlight := w.chans[d].inFlight + {w.chans[d].next}));
    hide Advance;
  }

  lemma WaitEndKeepsClean(w: World, d: nat)
    requires SystemInv(w) && S.Known(w.sched) && d in w.chans && d in w.locks && w.locks[d].value != 0
    requires Pc(w, Me(w)) == EnterP(d) || Pc(w, Me(w)) == RecheckP(d)
    requires CleanIfNoStray(w, d)
    ensures PassP(w, d).Next? && CleanIfNoStray(PassP(w, d).world, d)
  {
    WaiterIsUser(w, d);
    assert ChanOk(w, d) && LockOk(w, d);
    hide Inv, ChansOk;
  }

  lemma InterruptKeepsClean(w: World, d: nat, irq: Irq)
    requires SystemInv(w) && S.Known(w.sched) && Enabled(w, Interrupt(d, irq)) && CleanIfNoStray(w, d)
    requires OnInterrupt(w, d, irq).Next?
    ensures CleanIfNoStray(OnInterrupt(w, d, irq).world, d)
  {
    assert ChanOk(w, d);
    hide Inv, ChansOk;
    var c, w' := w.chans[d], OnInterrupt(w, d, irq).world;
    InterruptEffect(w, d, irq);
    hide OnInterrupt, HandlerV;
    if NoStrayTaken(w'.chans[d]) {
      forall i | 0 <= i < |c.taken|
        ensures c.taken[i].1 != Stray
      {
        assert w'.chans[d].taken[i] == c.taken[i];
      }
      if c.expectingIntr {
        assert w'.chans[d].taken[|c.taken|] == (c.next, irq);
        assert irq == Of(c.next);
      }
    }
  }

  lemma InterruptEffect(w: World, d: nat, irq: Irq)
    requires S.Known(w.sched) && d in w.locks && d in w.chans && OnInterrupt(w, d, irq).Next?
    ensures var c, w' := w.chans[d], OnInterrupt(w, d, irq).world;
            var rest := if irq.Of? then c.inFlight - {irq.command} else c.inFlight;
            && w'.pcs == w.pcs && d in w'.chans
            && w'.chans[d] == if c.expectingIntr
                              then c.(inFlight := rest, expectingIntr := false, taken := c.taken + [(c.next, irq)])
                              else c.(inFlight := rest)
  {
    hide S.AfterUnBlock;
  }

  lemma StepKeepsClean(w: World, e: Event, d: nat)
    requires SystemInv(w) && Enabled(w, e) && CleanIfNoStray(w, d) && (WillSleep(w, e) ==> w.sched.ready != [])
    ensures S.Known(w.sched) && Step(w, e, false).Next? && CleanIfNoStray(Step(w, e, false).world, d)
  {
    StepIsSafe(w, e);
    if About(w, e) == Some(d) {
      match e {
        case Announce(_) => AnnounceKeepsClean(w, d);
        case Interrupt(_, irq) => InterruptKeepsClean(w, d, irq);
        case Proceed =>
          if Pc(w, Me(w)).SendCmd? { SendKeepsClean(w, d); } else { WaitEndKeepsClean(w, d); }
      }
    } else {
      hide SystemInv, CleanIfNoStray, Step, Enabled, About;
      QuietKeepsClean(w, Step(w, e, false).world, d);
    }
  }

  lemma {:induction false} RunKeepsClean(main: nat, locks: set<nat>, chans: map<nat, nat>, worlds: seq<World>,
                                         events: seq<Event>, i: nat, d: nat)
    requires IsRun(main, locks, chans, worlds, events) && i < |worlds| && d in chans
    ensures CleanIfNoStray(worlds[i], d)
    decreases i
  {
    if i > 0 {
      RunKeepsClean(main, locks, chans, worlds, events, i - 1, d);
      RunIsSafe(main, locks, chans, worlds, events, i - 1);
      assert Takes(worlds[i - 1], events[i - 1], worlds[i - 1 + 1]);
      hide SystemInv, Enabled, Step, WillSleep, CleanIfNoStray, NextStepIsSafe;
      StepKeepsClean(worlds[i - 1], events[i - 1], d);
    }
  }

  /** After every run, whatever interrupts came: all waits so far were ended by the interrupts of their own
      commands exactly if no stray one came while one was expected. */
  lemma OwnInterruptsIff(main: nat, locks: set<nat>, chans: map<nat, nat>, worlds: seq<World>, events: seq<Event>,
                         i: nat, d: nat)
    requires IsRun(main, locks, chans, worlds, events) && i < |worlds| && d in chans
    ensures d in worlds[i].chans && (AllOwn(worlds[i].chans[d]) <==> NoStrayTaken(worlds[i].chans[d]))
  {
    RunKeepsClean(main, locks, chans, worlds, events, i, d);
  }

  /** And then nobody waits in vain: the drive still owes the answer, and when it comes, wherever interrupts are
      on, the task is woken. */
  lemma NobodyWaitsInVain(main: nat, locks: set<nat>, chans: map<nat, nat>, worlds: seq<World>, events: seq<Event>,
                          i: nat, d: nat, t: nat)
    requires IsRun(main, locks, chans, worlds, events) && i < |worlds| && d in chans && d in worlds[i].chans
    requires NoStrayTaken(worlds[i].chans[d]) && SleepsOn(worlds[i], t, d)
    ensures worlds[i].chans[d].next in worlds[i].chans[d].inFlight
    ensures var w, answer := worlds[i], Interrupt(d, Of(worlds[i].chans[d].next));
            && S.Known(w.sched) && (Enabled(w, answer) <==> InterruptsOn(Pc(w, Me(w))))
            && (Enabled(w, answer) ==> Step(w, answer, false).Next? && WokenFrom(Step(w, answer, false).world, t, d))
  {
    RunKeepsClean(main, locks, chans, worlds, events, i, d);
    RunIsSafe(main, locks, chans, worlds, events, i);
    var w := worlds[i];
    hide NextStepIsSafe;
    assert ChanOk(w, d);
    SleeperIsUser(w, d);
    var answer := Interrupt(d, Of(w.chans[d].next));
    if Enabled(w, answer) { AnswerWakes(w, d, Of(w.chans[d].next), t); }
  }

  lemma AnswerWakes(w: World, d: nat, irq: Irq, t: nat)
    requires SystemInv(w) && S.Known(w.sched) && Enabled(w, Interrupt(d, irq)) && w.chans[d].expectingIntr
    requires SleepsOn(w, t, d) && w.locks[d].waiters == [t]
    ensures OnInterrupt(w, d, irq).Next? && WokenFrom(OnInterrupt(w, d, irq).world, t, d)
  {
    InterruptKeepsChans(w, d, irq);
    hide Inv, ChansOk, S.Inv;
  }

  // ---------------------------------------------------------------- a stray interrupt

  /** From a state in which the running task has the channel to itself: the second command is about to be sent,
      and its wait is over already. */
  predicate Misled(w: World, d: nat, first: nat) {
    && d in w.chans && d in w.locks && Pc(w, Me(w)) == SendCmd(d)
    && w.chans[d].next == first + 1 && w.locks[d].value == 1
    && |w.chans[d].taken| >= 2
    && w.chans[d].taken[|w.chans[d].taken| - 2..] == [(first, Stray), (first + 1, Of(first))]
  }

  /** How far the running task and the channel have got; nobody sleeps. */
  ghost predicate At(w: World, d: nat, p: PC, expecting: bool, up: nat, next: nat, inFlight: set<nat>,
                     taken: seq<(nat, Irq)>) {
    && S.Known(w.sched) && d in w.locks && d in w.chans && Pc(w, Me(w)) == p && Depth(w, Me(w), w.chans[d].lock) > 0
    && w.chans[d].expectingIntr == expecting && w.locks[d].value == up && w.locks[d].waiters == []
    && w.chans[d].next == next && w.chans[d].inFlight == inFlight && w.chans[d].taken == taken
  }

  lemma ThenAnnounced(w: World, d: nat, n: nat, f: set<nat>, taken: seq<(nat, Irq)>) returns (v: World)
    requires At(w, d, Outside, false, 0, n, f, taken)
    ensures Takes(w, Announce(d), v) && At(v, d, SendCmd(d), true, 0, n, f, taken)
  {
    v := Step(w, Announce(d), false).world;
  }

  lemma ThenSent(w: World, d: nat, n: nat, f: set<nat>, taken: seq<(nat, Irq)>) returns (v: World)
    requires At(w, d, SendCmd(d), true, 0, n, f, taken)
    ensures Takes(w, Proceed, v) && At(v, d, EnterP(d), true, 0, n, f + {n}, taken)
  {
    v := Step(w, Proceed, false).world;
  }

  lemma ThenInterrupted(w: World, d: nat, p: PC, n: nat, f: set<nat>, taken: seq<(nat, Irq)>, irq: Irq)
      returns (v: World)
    requires At(w, d, p, true, 0, n, f, taken) && (p == SendCmd(d) || p == EnterP(d)) && (irq.Of? ==> irq.command in f)
    ensures Takes(w, Interrupt(d, irq), v)
    ensures At(v, d, p, false, 1, n, if irq.Of? then f - {irq.command} else f, taken + [(n, irq)])
  {
    v := Step(w, Interrupt(d, irq), false).world;
  }

  lemma ThenWaited(w: World, d: nat, n: nat, f: set<nat>, taken: seq<(nat, Irq)>) returns (v: World)
    requires At(w, d, EnterP(d), false, 1, n, f, taken)
    ensures Takes(w, Proceed, v) && At(v, d, Outside, false, 0, n + 1, f, taken)
  {
    v := Step(w, Proceed, false).world;
  }

  /** One stray interrupt at the wrong time: the first wait returns before its data is there, and the late
      answer then ends the wait for the second command, before that has even been sent. */
  lemma StrayInterrupt(w: World, d: nat) returns (w1: World, w2: World, w3: World, w4: World, w5: World, w6: World)
    requires SystemInv(w) && Enabled(w, Announce(d)) && w.chans[d].inFlight == {}
    ensures Takes(w, Announce(d), w1) && Takes(w1, Proceed, w2) && Takes(w2, Interrupt(d, Stray), w3)
    ensures Takes(w3, Proceed, w4) && Takes(w4, Announce(d), w5) && Takes(w5, Interrupt(d, Of(w.chans[d].next)), w6)
    ensures Misled(w6, d, w.chans[d].next)
  {
    hide SystemInv, Takes, At, Step, Misled;
    var n, taken := w.chans[d].next, w.chans[d].taken;
    StartsAlone(w, d);
    hide Enabled;
    w1 := ThenAnnounced(w, d, n, {}, taken);
    w2 := ThenSent(w1, d, n, {}, taken);
    assert {} + {n} == {n};
    w3 := ThenInterrupted(w2, d, EnterP(d), n, {n}, taken, Stray);
    w4 := ThenWaited(w3, d, n, {n}, taken + [(n, Stray)]);
    w5 := ThenAnnounced(w4, d, n + 1, {n}, taken + [(n, Stray)]);
    w6 := ThenInterrupted(w5, d, SendCmd(d), n + 1, {n}, taken + [(n, Stray)], Of(n));
    AtMisled(w6, d, n, {n} - {n}, taken);
  }

  lemma AtMisled(w: World, d: nat, n: nat, f: set<nat>, taken: seq<(nat, Irq)>)
    requires At(w, d, SendCmd(d), false, 1, n + 1, f, taken + [(n, Stray)] + [(n + 1, Of(n))])
    ensures Misled(w, d, n)
  {
    assert (taken + [(n, Stray)] + [(n + 1, Of(n))])[|taken|..] == [(n, Stray), (n + 1, Of(n))];
  }

  lemma StartsAlone(w: World, d: nat)
    requires SystemInv(w) && Enabled(w, Announce(d))
    ensures At(w, d, Outside, false, 0, w.chans[d].next, w.chans[d].inFlight, w.chans[d].taken)
  {
    RunningIsKnown(w);
    NobodyElse(w, d);
    SleeperIsUser(w, d);
    assert ChanOk(w, d);
  }

  /** A state in which this happens: task 7 alone, inside lock 0 of channel 1. */
  function Alone(): World {
    World(S.Boot(7), map[0 := Lock(0, Some(7), 1, [], Some(7)), 1 := Lock(0, None, 0, [], None)],
          map[], map[(7, 0) := 1], map[1 := Channel(0, false, None, {}, 0, [])])
  }

  lemma AloneIsFine()
    ensures SystemInv(Alone()) && Enabled(Alone(), Announce(1)) && Alone().chans[1].inFlight == {}
  {
    var w := Alone();
    assert LockOk(w, 0) && LockOk(w, 1);
    assert TaskOk(w, 7);
    assert ChanOk(w, 1);
    S.BootSatisfiesInv(7);
  }
}
