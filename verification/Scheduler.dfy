/** The task state machine of kernel/thread.c and the time slice of kernel/device/timer.c.

    Tasks are named by numbers (the C code names them by the address of their control block).
    `State` is a value; every operation is a function on it, and class `Kernel` performs the same
    operations in place, assignment by assignment. An assertion of the C code that fails stops the
    machine: `Panic`. */
module Scheduler {
  import opened Common

  datatype TaskStatus = Running | Ready | Blocked | Waiting | Handing | Died

  datatype Task = Task(status: TaskStatus, priority: nat, ticks: nat, elapsedTicks: nat)

  datatype State = State(current: nat, tasks: map<nat, Task>, ready: seq<nat>, all: seq<nat>, sysTicks: nat)

  datatype Outcome = Ok(state: State) | Panic

  const UINT8 := 0x100
  const UINT32 := 0x1_0000_0000

  /** The three statuses in which a task may wait (thread.c:212, thread.c:228). */
  predicate Asleep(status: TaskStatus) {
    status.Blocked? || status.Waiting? || status.Handing?
  }

  /** Every pointer followed by the code leads to a task. */
  predicate Known(s: State) {
    s.current in s.tasks && (forall t :: t in s.ready ==> t in s.tasks)
  }

  // ---------------------------------------------------------------- operations

  /** Timer and voluntary switches: a task that is still RUNNING goes to the back of the queue with a
      fresh slice; the front of the queue runs. With nobody ready the caller simply carries on. */
  function AfterSchedule(s: State): (r: Outcome)
    requires Known(s)
    ensures r.Ok? ==> Known(r.state)
  {
    var cur := s.tasks[s.current];
    if cur.status.Running? && s.current in s.ready then Panic
    else
      var s1 := if cur.status.Running?
                then s.(ready := s.ready + [s.current],
                        tasks := s.tasks[s.current := cur.(status := Ready, ticks := cur.priority)])
                else s;
      if s1.ready == [] then Ok(s1)
      else
        var next := s1.ready[0];
        Ok(s1.(ready := s1.ready[1..], current := next,
               tasks := s1.tasks[next := s1.tasks[next].(status := Running)]))
  }

  /** Yielding does not refill the slice: the status is READY before the scheduler looks at it. */
  function AfterYield(s: State): (r: Outcome)
    requires Known(s)
    ensures r.Ok? ==> Known(r.state)
  {
    if s.current in s.ready then Panic
    else AfterSchedule(s.(tasks := s.tasks[s.current := s.tasks[s.current].(status := Ready)],
                     ready := s.ready + [s.current]))
  }

  function AfterBlock(s: State, status: TaskStatus): (r: Outcome)
    requires Known(s)
    ensures r.Ok? ==> Known(r.state)
  {
    if !Asleep(status) then Panic
    else AfterSchedule(s.(tasks := s.tasks[s.current := s.tasks[s.current].(status := status)]))
  }

  /** A woken task goes to the front of the queue. */
  function AfterUnBlock(s: State, t: nat): (r: Outcome)
    requires Known(s) && t in s.tasks
    ensures r.Ok? ==> Known(r.state)
  {
    if !Asleep(s.tasks[t].status) || t in s.ready then Panic
    else Ok(s.(ready := [t] + s.ready, tasks := s.tasks[t := s.tasks[t].(status := Ready)]))
  }

  function AfterTick(s: State): (r: Outcome)
    requires Known(s)
    ensures r.Ok? ==> Known(r.state)
  {
    var cur := s.tasks[s.current];
    var cur1 := cur.(elapsedTicks := (cur.elapsedTicks + 1) % UINT32);
    var s1 := s.(sysTicks := (s.sysTicks + 1) % UINT32, tasks := s.tasks[s.current := cur1]);
    if cur.ticks == 0 then AfterSchedule(s1)
    else Ok(s1.(tasks := s1.tasks[s.current := cur1.(ticks := cur.ticks - 1)]))
  }

  /** The priority is stored in 8 bits. */
  function NewTask(priority: nat): Task {
    Task(Ready, priority % UINT8, priority % UINT8, 0)
  }

  function AfterCreate(s: State, t: nat, priority: nat): (r: Outcome)
    requires Known(s)
    ensures r.Ok? ==> Known(r.state)
  {
    if t in s.all || t in s.ready then Panic
    else Ok(s.(tasks := s.tasks[t := NewTask(priority)], all := s.all + [t], ready := s.ready + [t]))
  }

  // ---------------------------------------------------------------- the invariant

  /** Exactly the current task is RUNNING and it is on no queue; a task is READY iff it is on the
      ready queue, exactly once; slices never exceed priorities. */
  ghost predicate Inv(s: State) {
    && s.current in s.tasks
    && s.tasks[s.current].status == Running
    && NoDup(s.ready)
    && (forall t :: t in s.ready ==> t in s.tasks && s.tasks[t].status == Ready)
    && (forall t :: t in s.tasks && s.tasks[t].status == Ready ==> t in s.ready)
    && (forall t :: t in s.tasks && s.tasks[t].status == Running ==> t == s.current)
    && (forall t :: t in s.tasks ==> s.tasks[t].ticks <= s.tasks[t].priority < UINT8)
    && NoDup(s.all)
    && (forall t :: t in s.all <==> t in s.tasks)
  }

  function Boot(main: nat): State {
    State(main, map[main := Task(Running, 31, 31, 0)], [], [main], 0)
  }

  // ---------------------------------------------------------------- runs

  datatype Event =
    | Tick
    | YieldCpu
    | BlockCurrent(status: TaskStatus)
    | Wake(task: nat)
    | Spawn(task: nat, priority: nat)

  /** What the callers of thread.c guarantee. Sleeping needs somebody else to run; a control block is
      a page that is not in use; only sleeping tasks are woken. */
  predicate Allowed(s: State, e: Event) {
    match e
    case Tick => true
    case YieldCpu => true
    case BlockCurrent(status) => Asleep(status) && s.ready != []
    case Wake(t) => t in s.tasks && Asleep(s.tasks[t].status)
    case Spawn(t, _) => t !in s.tasks
  }

  function AfterEvent(s: State, e: Event): (r: Outcome)
    requires Known(s) && Allowed(s, e)
    ensures r.Ok? ==> Known(r.state)
  {
    match e
    case Tick => AfterTick(s)
    case YieldCpu => AfterYield(s)
    case BlockCurrent(status) => AfterBlock(s, status)
    case Wake(t) => AfterUnBlock(s, t)
    case Spawn(t, p) => AfterCreate(s, t, p)
  }

  /** States reached by a list of events, first to last. */
  ghost predicate IsRun(states: seq<State>, events: seq<Event>) {
    && |states| == |events| + 1
    && (forall i :: 0 <= i < |states| ==> Known(states[i]))
    && (forall i :: 0 <= i < |events| ==>
          Allowed(states[i], events[i]) && AfterEvent(states[i], events[i]) == Ok(states[i + 1]))
  }

  // ---------------------------------------------------------------- safety

  lemma BootSatisfiesInv(main: nat)
    ensures Inv(Boot(main))
  {
  }

  /** The scheduler called with the current task RUNNING, or with it put aside and somebody ready. */
  lemma ScheduleFromSleep(s: State)
    requires Known(s) && s.ready != [] && !s.tasks[s.current].status.Running?
    requires NoDup(s.ready) && NoDup(s.all)
    requires forall t :: t in s.ready <==> t in s.tasks && s.tasks[t].status == Ready
    requires forall t :: t in s.tasks ==> s.tasks[t].status != Running
    requires forall t :: t in s.tasks ==> s.tasks[t].ticks <= s.tasks[t].priority < UINT8
    requires forall t :: t in s.all <==> t in s.tasks
    ensures AfterSchedule(s).Ok? && Inv(AfterSchedule(s).state)
    ensures AfterSchedule(s).state.current == s.ready[0] && AfterSchedule(s).state.ready == s.ready[1..]
  {
    var r := AfterSchedule(s).state;
    forall t | t in r.tasks && r.tasks[t].status == Ready
      ensures t in r.ready
    {
      var i :| 0 <= i < |s.ready| && s.ready[i] == t;
      assert s.ready[1..][i - 1] == t;
    }
  }

  /** The end of a slice: to the back of the queue, slice refilled. */
  lemma ExpiryKeepsInv(s: State, s1: State)
    requires Inv(s) && s1.current == s.current && s1.ready == s.ready && s1.all == s.all
    requires s1.tasks.Keys == s.tasks.Keys
    requires forall t :: t in s.tasks && t != s.current ==> s1.tasks[t] == s.tasks[t]
    requires s1.tasks[s.current].status == Running
    requires s1.tasks[s.current].priority == s.tasks[s.current].priority
    ensures Known(s1) && AfterSchedule(s1).Ok? && Inv(AfterSchedule(s1).state)
  {
    var cur := s1.tasks[s.current];
    AppendKeepsNoDup(s.ready, s.current);
    ScheduleFromSleep(s1.(ready := s1.ready + [s.current],
                          tasks := s1.tasks[s.current := cur.(status := Ready, ticks := cur.priority)]));
  }

  lemma CountdownKeepsInv(s: State)
    requires Inv(s) && s.tasks[s.current].ticks > 0
    ensures AfterTick(s).Ok? && Inv(AfterTick(s).state)
  {
    var s' := AfterTick(s).state;
    assert forall t :: t in s.tasks && t != s.current ==> s'.tasks[t] == s.tasks[t];
  }

  lemma TimerKeepsInv(s: State)
    requires Inv(s)
    ensures AfterTick(s).Ok? && Inv(AfterTick(s).state)
  {
    var cur := s.tasks[s.current];
    if cur.ticks == 0 {
      var cur1 := cur.(elapsedTicks := (cur.elapsedTicks + 1) % UINT32);
      var s1 := s.(sysTicks := (s.sysTicks + 1) % UINT32, tasks := s.tasks[s.current := cur1]);
      assert AfterTick(s) == AfterSchedule(s1);
      ExpiryKeepsInv(s, s1);
    } else {
      CountdownKeepsInv(s);
    }
  }

  lemma YieldKeepsInv(s: State)
    requires Inv(s)
    ensures AfterYield(s).Ok? && Inv(AfterYield(s).state)
  {
    assert s.current !in s.ready;
    AppendKeepsNoDup(s.ready, s.current);
    ScheduleFromSleep(s.(tasks := s.tasks[s.current := s.tasks[s.current].(status := Ready)],
                         ready := s.ready + [s.current]));
  }

  /** Going to sleep keeps the queues and states in step exactly when another task is ready: with an
      empty queue `Schedule` returns to a caller that is marked asleep but still runs. */
  lemma BlockKeepsInvIff(s: State, status: TaskStatus)
    requires Inv(s) && Asleep(status)
    ensures AfterBlock(s, status).Ok?
    ensures Inv(AfterBlock(s, status).state) <==> s.ready != []
    ensures s.ready == [] ==> AfterBlock(s, status).state.current == s.current
  {
    if s.ready != [] {
      ScheduleFromSleep(s.(tasks := s.tasks[s.current := s.tasks[s.current].(status := status)]));
    }
  }

  lemma UnBlockKeepsInv(s: State, t: nat)
    requires Inv(s) && t in s.tasks && Asleep(s.tasks[t].status)
    ensures AfterUnBlock(s, t).Ok? && Inv(AfterUnBlock(s, t).state)
  {
    AppendKeepsNoDup(s.ready, t);
  }

  lemma CreateKeepsInv(s: State, t: nat, priority: nat)
    requires Inv(s) && t !in s.tasks
    ensures AfterCreate(s, t, priority).Ok? && Inv(AfterCreate(s, t, priority).state)
  {
    AppendKeepsNoDup(s.ready, t);
    AppendKeepsNoDup(s.all, t);
  }

  /** One step from a good state meets no failing assertion and ends in a good state. */
  lemma StepIsSafe(s: State, e: Event)
    requires Inv(s) && Allowed(s, e)
    ensures AfterEvent(s, e).Ok? && Inv(AfterEvent(s, e).state)
  {
    match e
    case Tick => TimerKeepsInv(s);
    case YieldCpu => YieldKeepsInv(s);
    case BlockCurrent(status) => BlockKeepsInvIff(s, status);
    case Wake(t) => UnBlockKeepsInv(s, t);
    case Spawn(t, p) => CreateKeepsInv(s, t, p);
  }

  /** Queue/state agreement in every reachable state. */
  lemma {:induction false} RunIsSafe(states: seq<State>, events: seq<Event>, k: nat)
    requires IsRun(states, events) && Inv(states[0]) && k < |states|
    ensures Inv(states[k])
    ensures forall e :: Allowed(states[k], e) ==> AfterEvent(states[k], e).Ok?
    decreases k
  {
    if k > 0 {
      RunIsSafe(states, events, k - 1);
      StepIsSafe(states[k - 1], events[k - 1]);
    }
    forall e | Allowed(states[k], e)
      ensures AfterEvent(states[k], e).Ok?
    {
      StepIsSafe(states[k], e);
    }
  }

  // ---------------------------------------------------------------- what the events do to each task

  /** Task t has the same slice, priority and running time in both states. */
  predicate SameTimes(s: State, s': State, t: nat) {
    && t in s.tasks && t in s'.tasks && s'.tasks[t].priority == s.tasks[t].priority
    && s'.tasks[t].ticks == s.tasks[t].ticks && s'.tasks[t].elapsedTicks == s.tasks[t].elapsedTicks
  }

  /** The first of the queue has taken over; nobody's status has changed but that of task t and its own. */
  ghost predicate FirstTakesOver(s: State, s': State, t: nat) {
    && s.ready != [] && s'.current == s.ready[0] && s'.current in s'.tasks && s'.tasks[s'.current].status == Running
    && s'.all == s.all && s'.tasks.Keys == s.tasks.Keys
    && forall u :: u in s.tasks && u != t && u != s.ready[0] ==> s'.tasks[u] == s.tasks[u]
  }

  /** At the end of its slice a task has a full one again. It goes to the end of the queue and the first of the
      queue runs, or it runs on if nobody is ready. Nobody else's slice changes. */
  lemma SliceEnds(s: State)
    requires Inv(s) && s.tasks[s.current].ticks == 0
    ensures AfterTick(s).Ok?
    ensures var s', me := AfterTick(s).state, s.current;
            && me in s'.tasks && s'.tasks[me].ticks == s'.tasks[me].priority == s.tasks[me].priority
            && s'.tasks[me].elapsedTicks == (s.tasks[me].elapsedTicks + 1) % UINT32
            && s'.sysTicks == (s.sysTicks + 1) % UINT32
            && (forall u :: u in s.tasks && u != me ==> SameTimes(s, s', u))
            && (s.ready != [] ==> FirstTakesOver(s, s', me) && s'.ready == s.ready[1..] + [me]
                                  && s'.tasks[me].status == Ready)
            && (s.ready == [] ==> s'.current == me && s'.ready == [] && s'.tasks[me].status == Running
                                  && s'.tasks.Keys == s.tasks.Keys)
  {
  }

  /** Before, an interrupt takes one tick from the running task and leaves everything else alone. */
  lemma SliceRunsDown(s: State)
    requires Inv(s) && s.tasks[s.current].ticks > 0
    ensures AfterTick(s).Ok?
    ensures var s', me := AfterTick(s).state, s.current;
            && s'.current == me && s'.ready == s.ready && s'.all == s.all && s'.sysTicks == (s.sysTicks + 1) % UINT32
            && s'.tasks.Keys == s.tasks.Keys && s'.tasks[me].ticks + 1 == s.tasks[me].ticks
            && s'.tasks[me].priority == s.tasks[me].priority && s'.tasks[me].status == Running
            && s'.tasks[me].elapsedTicks == (s.tasks[me].elapsedTicks + 1) % UINT32
            && forall u :: u in s.tasks && u != me ==> s'.tasks[u] == s.tasks[u]
  {
  }

  /** A task that yields keeps what is left of its slice, at the end of the queue. */
  lemma YieldKeepsSlice(s: State)
    requires Inv(s)
    ensures AfterYield(s).Ok?
    ensures var s', me := AfterYield(s).state, s.current;
            && s'.sysTicks == s.sysTicks && (forall u :: u in s.tasks ==> SameTimes(s, s', u))
            && (s.ready != [] ==> FirstTakesOver(s, s', me) && s'.ready == s.ready[1..] + [me]
                                  && s'.tasks[me].status == Ready)
            && (s.ready == [] ==> s' == s)
  {
    if s.ready == [] {
      assert AfterYield(s).state.tasks == s.tasks;
    }
  }

  /** So does one that goes to sleep; it is on no queue. */
  lemma BlockKeepsSlice(s: State, status: TaskStatus)
    requires Inv(s) && Asleep(status) && s.ready != []
    ensures AfterBlock(s, status).Ok?
    ensures var s', me := AfterBlock(s, status).state, s.current;
            && FirstTakesOver(s, s', me) && s'.ready == s.ready[1..] && s'.sysTicks == s.sysTicks
            && s'.tasks[me].status == status && forall u :: u in s.tasks ==> SameTimes(s, s', u)
  {
  }

  /** And one that is woken, at the front of the queue. */
  lemma WakeKeepsSlice(s: State, t: nat)
    requires Inv(s) && t in s.tasks && Asleep(s.tasks[t].status)
    ensures AfterUnBlock(s, t).Ok?
    ensures var s' := AfterUnBlock(s, t).state;
            && s'.current == s.current && s'.ready == [t] + s.ready && s'.all == s.all && s'.sysTicks == s.sysTicks
            && s'.tasks.Keys == s.tasks.Keys && SameTimes(s, s', t) && s'.tasks[t].status == Ready
            && forall u :: u in s.tasks && u != t ==> s'.tasks[u] == s.tasks[u]
  {
  }

  /** A new task has a full slice and has not run; it is last in both queues. */
  lemma SpawnIsFresh(s: State, n: nat, priority: nat)
    requires Inv(s) && n !in s.tasks
    ensures AfterCreate(s, n, priority).Ok?
    ensures var s' := AfterCreate(s, n, priority).state;
            && s'.tasks.Keys == s.tasks.Keys + {n} && s'.tasks[n].status == Ready
            && s'.tasks[n].ticks == s'.tasks[n].priority == priority % 256 && s'.tasks[n].elapsedTicks == 0
            && s'.ready == s.ready + [n] && s'.all == s.all + [n]
            && s'.current == s.current && s'.sysTicks == s.sysTicks
            && forall u :: u in s.tasks ==> s'.tasks[u] == s.tasks[u]
  {
  }

  // ---------------------------------------------------------------- slices and time along a run

  function Ticks(events: seq<Event>): nat {
    if events == [] then 0 else Ticks(events[..|events| - 1]) + if events[|events| - 1].Tick? then 1 else 0
  }

  function Wakes(events: seq<Event>): nat {
    if events == [] then 0 else Wakes(events[..|events| - 1]) + if events[|events| - 1].Wake? then 1 else 0
  }

  lemma RunPrefix(states: seq<State>, events: seq<Event>, n: nat)
    requires IsRun(states, events) && n <= |events|
    ensures IsRun(states[..n + 1], events[..n])
  {
  }

  /** The running task neither goes to sleep nor yields to another. */
  ghost predicate KeepsGoing(states: seq<State>, events: seq<Event>)
    requires |states| == |events| + 1
  {
    forall i :: 0 <= i < |events| ==> !events[i].BlockCurrent? && (events[i].YieldCpu? ==> states[i].ready == [])
  }

  /** A task that starts with a full slice and keeps going still runs after as many ticks as its priority says. */
  lemma {:induction false} SliceLasts(states: seq<State>, events: seq<Event>)
    requires IsRun(states, events) && Inv(states[0]) && KeepsGoing(states, events)
    requires states[0].tasks[states[0].current].ticks == states[0].tasks[states[0].current].priority
    requires Ticks(events) <= states[0].tasks[states[0].current].priority
    ensures var me, p := states[0].current, states[0].tasks[states[0].current].priority;
            var last := states[|events|];
            && last.current == me && me in last.tasks && last.tasks[me].priority == p
            && last.tasks[me].ticks == p - Ticks(events)
    decreases |events|
  {
    if events != [] {
      var n := |events| - 1;
      RunPrefix(states, events, n);
      SliceLasts(states[..n + 1], events[..n]);
      RunIsSafe(states, events, n);
      assert AfterEvent(states[n], events[n]) == Ok(states[n + 1]);
      match events[n]
      case Tick => SliceRunsDown(states[n]);
      case YieldCpu => YieldKeepsSlice(states[n]);
      case BlockCurrent(_) => assert false;
      case Wake(t) => WakeKeepsSlice(states[n], t);
      case Spawn(t, p) => SpawnIsFresh(states[n], t, p);
    }
  }

  /** And it leaves on the tick after that, to the end of the queue with a full slice, if another is ready. */
  lemma SliceIsOver(states: seq<State>, events: seq<Event>)
    requires IsRun(states, events) && Inv(states[0]) && events != [] && events[|events| - 1].Tick?
    requires KeepsGoing(states[..|events|], events[..|events| - 1])
    requires states[0].tasks[states[0].current].ticks == states[0].tasks[states[0].current].priority
    requires Ticks(events) == states[0].tasks[states[0].current].priority + 1
    ensures var me, n := states[0].current, |events| - 1;
            && me in states[n + 1].tasks && states[n + 1].tasks[me].priority == states[0].tasks[me].priority
            && states[n + 1].tasks[me].ticks == states[n + 1].tasks[me].priority
            && (states[n].ready == [] ==> states[n + 1].current == me)
            && (states[n].ready != [] ==> states[n + 1].current == states[n].ready[0] != me
                                          && states[n + 1].ready == states[n].ready[1..] + [me])
  {
    var n := |events| - 1;
    RunPrefix(states, events, n);
    SliceLasts(states[..n + 1], events[..n]);
    RunIsSafe(states, events, n);
    assert AfterEvent(states[n], events[n]) == Ok(states[n + 1]);
    SliceEnds(states[n]);
  }

  /** The ticks that came while task t was running. */
  function TicksOf(states: seq<State>, events: seq<Event>, t: nat): nat
    requires |states| >= |events|
  {
    if events == [] then 0
    else
      var n := |events| - 1;
      TicksOf(states, events[..n], t) + if events[n].Tick? && states[n].current == t then 1 else 0
  }

  /** Every tick since boot is counted once by the system and charged to the task that was running, and to no
      other. */
  lemma {:induction false} TicksAreCharged(main: nat, states: seq<State>, events: seq<Event>, t: nat)
    requires IsRun(states, events) && states[0] == Boot(main) && t in states[|events|].tasks
    ensures states[|events|].sysTicks == Ticks(events) % UINT32
    ensures states[|events|].tasks[t].elapsedTicks == TicksOf(states, events, t) % UINT32
    decreases |events|
  {
    hide Inv, AfterEvent, AfterTick, Allowed, Known;
    BootSatisfiesInv(main);
    if events != [] {
      var n := |events| - 1;
      RunPrefix(states, events, n);
      RunIsSafe(states, events, n);
      var s := states[n];
      assert AfterEvent(s, events[n]) == Ok(states[n + 1]);
      TicksOfSame(states, states[..n + 1], events[..n], t);
      if t in s.tasks {
        TicksAreCharged(main, states[..n + 1], events[..n], t);
        NextWraps(Ticks(events[..n]));
        NextWraps(TicksOf(states, events[..n], t));
        if events[n].Tick? { TickIsCharged(s, t); } else { OthersChargeNothing(s, events[n], t); }
      } else {
        TicksAreCharged(main, states[..n + 1], events[..n], s.current);
        NotThereYet(main, states, events, t);
        NewcomerIsSpawned(s, events[n], t);
      }
    }
  }

  lemma {:induction false} TicksOfSame(a: seq<State>, b: seq<State>, events: seq<Event>, t: nat)
    requires |a| >= |events| && |b| >= |events| && forall i :: 0 <= i < |events| ==> a[i] == b[i]
    ensures TicksOf(a, events, t) == TicksOf(b, events, t)
  {
    if events != [] { TicksOfSame(a, b, events[..|events| - 1], t); }
  }

  lemma NextWraps(n: nat)
    ensures (n % UINT32 + 1) % UINT32 == (n + 1) % UINT32
  {
  }

  lemma TickIsCharged(s: State, t: nat)
    requires Inv(s) && t in s.tasks
    ensures AfterEvent(s, Tick) == AfterTick(s) && AfterTick(s).Ok? && t in AfterTick(s).state.tasks
    ensures AfterTick(s).state.sysTicks == (s.sysTicks + 1) % UINT32
    ensures AfterTick(s).state.tasks[t].elapsedTicks
              == if t == s.current then (s.tasks[t].elapsedTicks + 1) % UINT32 else s.tasks[t].elapsedTicks
  {
    if s.tasks[s.current].ticks == 0 {
      SliceEnds(s);
      assert t != s.current ==> SameTimes(s, AfterTick(s).state, t);
    } else {
      SliceRunsDown(s);
    }
  }

  lemma OthersChargeNothing(s: State, e: Event, t: nat)
    requires Inv(s) && Allowed(s, e) && !e.Tick? && t in s.tasks
    ensures AfterEvent(s, e).Ok? && SameTimes(s, AfterEvent(s, e).state, t)
    ensures AfterEvent(s, e).state.sysTicks == s.sysTicks
  {
    match e
    case YieldCpu => YieldKeepsSlice(s);
    case BlockCurrent(status) => BlockKeepsSlice(s, status);
    case Wake(u) => WakeKeepsSlice(s, u);
    case Spawn(n, p) => SpawnIsFresh(s, n, p);
  }

  /** A task that was not there before has just been created, and nothing has run meanwhile. */
  lemma NewcomerIsSpawned(s: State, e: Event, t: nat)
    requires Inv(s) && Allowed(s, e) && AfterEvent(s, e).Ok? && t !in s.tasks && t in AfterEvent(s, e).state.tasks
    ensures e.Spawn? && e.task == t && AfterEvent(s, e).state.tasks[t].elapsedTicks == 0
    ensures AfterEvent(s, e).state.sysTicks == s.sysTicks
  {
    match e
    case Tick => TickIsCharged(s, s.current);
    case YieldCpu => YieldKeepsSlice(s);
    case BlockCurrent(status) => BlockKeepsSlice(s, status);
    case Wake(u) => WakeKeepsSlice(s, u);
    case Spawn(n, p) => SpawnIsFresh(s, n, p);
  }

  /** Tasks never go, and so one that is not there yet has not run. */
  lemma {:induction false} NotThereYet(main: nat, states: seq<State>, events: seq<Event>, t: nat)
    requires IsRun(states, events) && states[0] == Boot(main) && events != [] && t !in states[|events| - 1].tasks
    ensures TicksOf(states, events, t) == 0
    decreases |events|
  {
    BootSatisfiesInv(main);
    var n := |events| - 1;
    RunIsSafe(states, events, n);
    if n > 0 {
      RunPrefix(states, events, n);
      RunIsSafe(states, events, n - 1);
      assert AfterEvent(states[n - 1], events[n - 1]) == Ok(states[n - 1 + 1]);
      if t in states[n - 1].tasks { TasksStay(states[n - 1], events[n - 1], t); }
      NotThereYet(main, states[..n + 1], events[..n], t);
      TicksOfSame(states, states[..n + 1], events[..n], t);
    }
  }

  lemma TasksStay(s: State, e: Event, t: nat)
    requires Inv(s) && Allowed(s, e) && t in s.tasks
    ensures AfterEvent(s, e).Ok? && t in AfterEvent(s, e).state.tasks
  {
    if e.Tick? { TickIsCharged(s, t); } else { OthersChargeNothing(s, e, t); }
  }

  // ---------------------------------------------------------------- bounded waiting

  /** Timer interrupts that the tasks of a queue can use up, one more than its slice for each. */
  function Slices(tasks: map<nat, Task>, q: seq<nat>): nat
    requires forall t :: t in q ==> t in tasks
  {
    if q == [] then 0 else tasks[q[0]].ticks + 1 + Slices(tasks, q[1..])
  }

  function IndexOf(q: seq<nat>, t: nat): (i: nat)
    requires t in q
    ensures i < |q| && q[i] == t && t !in q[..i]
  {
    if q[0] == t then 0 else 1 + IndexOf(q[1..], t)
  }

  /** What stands between a ready task and the processor: the rest of the running slice and the
      slices of the tasks ahead of it. */
  function Potential(s: State, t: nat): nat
    requires Known(s) && t in s.ready
  {
    s.tasks[s.current].ticks + 1 + Slices(s.tasks, s.ready[..IndexOf(s.ready, t)])
  }

  lemma {:induction false} SlicesFrame(a: map<nat, Task>, b: map<nat, Task>, q: seq<nat>)
    requires forall t :: t in q ==> t in a && t in b && a[t].ticks == b[t].ticks
    ensures Slices(a, q) == Slices(b, q)
  {
    if q != [] {
      SlicesFrame(a, b, q[1..]);
    }
  }

  lemma IndexOfUnique(q: seq<nat>, t: nat, i: nat)
    requires NoDup(q) && i < |q| && q[i] == t
    ensures IndexOf(q, t) == i
  {
    assert q[IndexOf(q, t)] == q[i];
  }

  /** Dropping the head of the queue onto the processor: its slice moves from the sum to the front. */
  lemma PotentialAfterDispatch(s: State, s': State, t: nat)
    requires Known(s) && Known(s') && NoDup(s.ready)
    requires s.ready != [] && t in s.ready && t != s.ready[0]
    requires s'.current == s.ready[0] && s'.ready == s.ready[1..]
    requires forall u :: u in s.ready ==> u in s'.tasks && s'.tasks[u].ticks == s.tasks[u].ticks
    ensures t in s'.ready
    ensures Potential(s', t) == Slices(s.tasks, s.ready[..IndexOf(s.ready, t)])
  {
    var i := IndexOf(s.ready, t);
    assert i > 0;
    assert s'.ready[i - 1] == t;
    IndexOfUnique(s'.ready, t, i - 1);
    var ahead := s.ready[..i];
    assert ahead[1..] == s'.ready[..i - 1];
    assert Slices(s.tasks, ahead) == s.tasks[ahead[0]].ticks + 1 + Slices(s.tasks, ahead[1..]);
    SlicesFrame(s.tasks, s'.tasks, ahead[1..]);
  }

  lemma AppendedQueue(tasks: map<nat, Task>, tasks': map<nat, Task>, q: seq<nat>, x: nat, t: nat)
    requires NoDup(q) && x !in q && t in q
    requires forall u :: u in q ==> u in tasks && u in tasks' && tasks'[u].ticks == tasks[u].ticks
    requires forall u :: u in q + [x] ==> u in tasks'
    ensures IndexOf(q + [x], t) == IndexOf(q, t)
    ensures Slices(tasks', (q + [x])[..IndexOf(q + [x], t)]) == Slices(tasks, q[..IndexOf(q, t)])
  {
    AppendKeepsNoDup(q, x);
    var i := IndexOf(q, t);
    IndexOfUnique(q + [x], t, i);
    assert (q + [x])[..i] == q[..i];
    SlicesFrame(tasks, tasks', q[..i]);
  }

  /** The most an event can add to the potential: only waking somebody adds, and at most 256. */
  function Allowance(e: Event): int {
    match e
    case Tick => -1
    case Wake(_) => UINT8
    case _ => 0
  }

  lemma TickLowersPotential(s: State, t: nat)
    requires Inv(s) && t in s.ready
    requires AfterTick(s).Ok? && AfterTick(s).state.current != t
    ensures t in AfterTick(s).state.ready
    ensures Potential(AfterTick(s).state, t) == Potential(s, t) - 1
  {
    var cur := s.tasks[s.current];
    var s' := AfterTick(s).state;
    if cur.ticks == 0 {
      var s2 := s.(ready := s.ready + [s.current],
                   tasks := s.tasks[s.current := cur.(status := Ready, ticks := cur.priority)]);
      AppendKeepsNoDup(s.ready, s.current);
      AppendedQueue(s.tasks, s2.tasks, s.ready, s.current, t);
      PotentialAfterDispatch(s2, s', t);
    } else {
      SlicesFrame(s.tasks, s'.tasks, s.ready[..IndexOf(s.ready, t)]);
    }
  }

  lemma YieldLowersPotential(s: State, t: nat)
    requires Inv(s) && t in s.ready
    requires AfterYield(s).Ok? && AfterYield(s).state.current != t
    ensures t in AfterYield(s).state.ready
    ensures Potential(AfterYield(s).state, t) < Potential(s, t)
  {
    var s2 := s.(tasks := s.tasks[s.current := s.tasks[s.current].(status := Ready)],
                 ready := s.ready + [s.current]);
    AppendKeepsNoDup(s.ready, s.current);
    AppendedQueue(s.tasks, s2.tasks, s.ready, s.current, t);
    PotentialAfterDispatch(s2, AfterYield(s).state, t);
  }

  lemma BlockLowersPotential(s: State, status: TaskStatus, t: nat)
    requires Inv(s) && Asleep(status) && t in s.ready
    requires AfterBlock(s, status).Ok? && AfterBlock(s, status).state.current != t
    ensures t in AfterBlock(s, status).state.ready
    ensures Potential(AfterBlock(s, status).state, t) < Potential(s, t)
  {
    var s2 := s.(tasks := s.tasks[s.current := s.tasks[s.current].(status := status)]);
    SlicesFrame(s.tasks, s2.tasks, s.ready[..IndexOf(s.ready, t)]);
    PotentialAfterDispatch(s2, AfterBlock(s, status).state, t);
  }

  lemma WakeRaisesPotential(s: State, w: nat, t: nat)
    requires Inv(s) && t in s.ready && w in s.tasks && Asleep(s.tasks[w].status)
    ensures AfterUnBlock(s, w).Ok? && t in AfterUnBlock(s, w).state.ready
    ensures Potential(AfterUnBlock(s, w).state, t) == Potential(s, t) + s.tasks[w].ticks + 1
  {
    var s' := AfterUnBlock(s, w).state;
    AppendKeepsNoDup(s.ready, w);
    var i := IndexOf(s.ready, t);
    assert s'.ready[i + 1] == t;
    IndexOfUnique(s'.ready, t, i + 1);
    assert s'.ready[..i + 1][1..] == s.ready[..i];
    SlicesFrame(s.tasks, s'.tasks, s.ready[..i]);
  }

  lemma SpawnKeepsPotential(s: State, n: nat, priority: nat, t: nat)
    requires Inv(s) && t in s.ready && n !in s.tasks
    ensures AfterCreate(s, n, priority).Ok? && t in AfterCreate(s, n, priority).state.ready
    ensures Potential(AfterCreate(s, n, priority).state, t) == Potential(s, t)
  {
    AppendedQueue(s.tasks, AfterCreate(s, n, priority).state.tasks, s.ready, n, t);
  }

  /** Every event moves the potential by at most its allowance, as long as the task has not run. */
  lemma StepMovesPotential(s: State, e: Event, t: nat)
    requires Inv(s) && Allowed(s, e) && t in s.ready
    requires AfterEvent(s, e).Ok? && AfterEvent(s, e).state.current != t
    ensures t in AfterEvent(s, e).state.ready
    ensures Potential(AfterEvent(s, e).state, t) <= Potential(s, t) + Allowance(e)
  {
    match e
    case Tick => TickLowersPotential(s, t);
    case YieldCpu => YieldLowersPotential(s, t);
    case BlockCurrent(status) => BlockLowersPotential(s, status, t);
    case Wake(w) => WakeRaisesPotential(s, w, t);
    case Spawn(n, p) => SpawnKeepsPotential(s, n, p, t);
  }

  lemma {:induction false} PotentialAlongRun(states: seq<State>, events: seq<Event>, t: nat)
    requires IsRun(states, events) && Inv(states[0]) && t in states[0].ready
    requires forall i :: 0 <= i < |states| ==> states[i].current != t
    ensures t in states[|events|].ready
    ensures Potential(states[|events|], t) + Ticks(events) <= Potential(states[0], t) + UINT8 * Wakes(events)
    decreases |events|
  {
    if events != [] {
      var n := |events| - 1;
      RunPrefix(states, events, n);
      PotentialAlongRun(states[..n + 1], events[..n], t);
      RunIsSafe(states, events, n);
      assert AfterEvent(states[n], events[n]) == Ok(states[n + 1]);
      StepMovesPotential(states[n], events[n], t);
    }
  }

  /** A ready task runs before the timer has fired as often as its potential, counting 256 more for
      every task woken meanwhile; with nobody woken that is a fixed bound. */
  lemma BoundedWaiting(states: seq<State>, events: seq<Event>, t: nat)
    requires IsRun(states, events) && Inv(states[0]) && t in states[0].ready
    requires Ticks(events) >= Potential(states[0], t) + UINT8 * Wakes(events)
    ensures exists i :: 0 <= i < |states| && states[i].current == t
  {
    if forall i :: 0 <= i < |states| ==> states[i].current != t {
      PotentialAlongRun(states, events, t);
    }
  }

  // ---------------------------------------------------------------- in place

  /** The global variables of thread.c and timer.c and the operations on them. `ok == false` stands
      for a failed assertion: the kernel has stopped. */
  class Kernel {
    var current: nat
    var tasks: map<nat, Task>
    var ready: seq<nat>
    var all: seq<nat>
    var sysTicks: nat

    ghost function Abs(): State
      reads this
    {
      State(current, tasks, ready, all, sysTicks)
    }

    /** The main thread is the first task and already runs. */
    constructor (main: nat)
      ensures Abs() == Boot(main)
    {
      current, tasks, ready, all, sysTicks := main, map[main := Task(Running, 31, 31, 0)], [], [main], 0;
    }

    method Schedule() returns (ok: bool)
      requires Known(Abs())
      modifies this
      ensures ok <==> AfterSchedule(old(Abs())).Ok?
      ensures ok ==> Abs() == AfterSchedule(old(Abs())).state
      ensures !ok ==> Abs() == old(Abs())
    {
      if tasks[current].status.Running? {
        if current in ready { return false; }
        ready := ready + [current];
        tasks := tasks[current := tasks[current].(status := Ready)];
        tasks := tasks[current := tasks[current].(ticks := tasks[current].priority)];
      }
      if ready == [] { return true; }
      var next := ready[0];
      ready := ready[1..];
      tasks := tasks[next := tasks[next].(status := Running)];
      current := next;
      ok := true;
    }

    method Yield() returns (ok: bool)
      requires Known(Abs())
      modifies this
      ensures ok <==> AfterYield(old(Abs())).Ok?
      ensures ok ==> Abs() == AfterYield(old(Abs())).state
    {
      tasks := tasks[current := tasks[current].(status := Ready)];
      if current in ready { return false; }
      ready := ready + [current];
      ok := Schedule();
    }

    method Block(status: TaskStatus) returns (ok: bool)
      requires Known(Abs())
      modifies this
      ensures ok <==> AfterBlock(old(Abs()), status).Ok?
      ensures ok ==> Abs() == AfterBlock(old(Abs()), status).state
    {
      if !Asleep(status) { return false; }
      tasks := tasks[current := tasks[current].(status := status)];
      ok := Schedule();
    }

    method UnBlock(t: nat) returns (ok: bool)
      requires Known(Abs()) && t in tasks
      modifies this
      ensures ok <==> AfterUnBlock(old(Abs()), t).Ok?
      ensures ok ==> Abs() == AfterUnBlock(old(Abs()), t).state
    {
      if !Asleep(tasks[t].status) { return false; }
      if tasks[t].status != Ready {
        if t in ready { return false; }
        ready := [t] + ready;
        tasks := tasks[t := tasks[t].(status := Ready)];
      }
      ok := true;
    }

    method TimerInterrupt() returns (ok: bool)
      requires Known(Abs())
      modifies this
      ensures ok <==> AfterTick(old(Abs())).Ok?
      ensures ok ==> Abs() == AfterTick(old(Abs())).state
    {
      tasks := tasks[current := tasks[current].(elapsedTicks := (tasks[current].elapsedTicks + 1) % UINT32)];
      sysTicks := (sysTicks + 1) % UINT32;
      if tasks[current].ticks == 0 {
        ok := Schedule();
      } else {
        tasks := tasks[current := tasks[current].(ticks := tasks[current].ticks - 1)];
        ok := true;
      }
    }

    method CreateThread(t: nat, priority: nat) returns (ok: bool)
      requires Known(Abs())
      modifies this
      ensures ok <==> AfterCreate(old(Abs()), t, priority).Ok?
      ensures ok ==> Abs() == AfterCreate(old(Abs()), t, priority).state
    {
      if t in all { return false; }
      if t in ready { return false; }
      tasks := tasks[t := NewTask(priority)];
      all := all + [t];
      ready := ready + [t];
      ok := true;
    }
  }
}
