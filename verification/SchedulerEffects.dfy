/** What each step of the scheduler does, told from the states before and after it. */
module SchedulerEffects {
  import opened Common
  import opened FixedPoint
  import opened Scheduler
  import opened SchedulerInvariant
  import opened SchedulerSteps
  import opened SchedulerTheorems
  import Ordered

  // ----- The timer tick -----

  /** The threads that are ready or running, the idle thread excepted once it is known. */
  ghost function Runnable(status: map<Tid, Status>, known: bool): set<Tid> {
    set t | t in status && status[t] != Blocked && !(known && t == IDLE)
  }

  ghost function ElemsOf(s: seq<Tid>): set<Tid> {
    set t | t in s
  }

  lemma {:induction false} CountElems(s: seq<Tid>)
    requires forall t :: t in s ==> multiset(s)[t] == 1
    ensures |ElemsOf(s)| == |s|
  {
    if s != [] {
      var rest, x := s[..|s| - 1], s[|s| - 1];
      assert s == rest + [x] && x in s;
      assert x !in multiset(rest);
      forall t | t in rest ensures multiset(rest)[t] == 1 {
        assert t in s && t in multiset(rest);
      }
      CountElems(rest);
      assert ElemsOf(s) == ElemsOf(rest) + {x};
    }
  }

  lemma {:induction false} RunnableSplits(status: map<Tid, Status>, ready: seq<Tid>, known: bool, cur: Tid, t: Tid)
    requires ReadyOk(status, ready, known) && CurOk(status, cur)
    ensures t in Runnable(status, known) <==> t in ready || (t == cur && !(known && t == IDLE))
    ensures t in ready ==> t != cur && multiset(ready)[t] == 1
  {
    assert multiset(ready)[t] == if Queued(status, known, t) then 1 else 0;
    assert t in ready <==> t in multiset(ready);
  }

  /** What calculate_load_avg counts. */
  lemma {:induction false} ReadyAndRunning(status: map<Tid, Status>, ready: seq<Tid>, known: bool, cur: Tid)
    requires ReadyOk(status, ready, known) && CurOk(status, cur)
    ensures |ready| + (if known && cur == IDLE then 0 else 1) == |Runnable(status, known)|
  {
    forall t ensures t in Runnable(status, known) <==> t in ready || (t == cur && !(known && t == IDLE))
             ensures t in ready ==> t != cur && multiset(ready)[t] == 1
    {
      RunnableSplits(status, ready, known, cur, t);
    }
    CountElems(ready);
    if known && cur == IDLE {
      assert Runnable(status, known) == ElemsOf(ready);
    } else {
      assert Runnable(status, known) == ElemsOf(ready) + {cur};
      assert cur !in ElemsOf(ready);
    }
  }

  /** One tick of the CPU for the thread that runs. */
  function AgedRecent(cpu: map<Tid, Cpu>, cur: Tid, t: Tid): int
    requires t in cpu
  {
    cpu[t].recent + if t == cur then F else 0
  }

  /** `recent'` is `recent` decayed by 2 load / (2 load + 1), up to rounding toward zero, plus nice. */
  ghost predicate Decayed(load: int, recent: int, nice: int, recent': int) {
    var d := recent' - nice * F;
    if recent >= 0 then IsDecayOf(load, recent, d) else IsDecayOf(load, -recent, -d)
  }

  /** `p` is 63 - recent / 4 - 2 nice, up to rounding, cut off at 0 and 63. */
  ghost predicate PriorityFits(cpu: Cpu, p: int) {
    var exact := 4 * PRI_MAX * F - cpu.recent - 8 * cpu.nice * F;
    && PRI_MIN <= p <= PRI_MAX
    && (p < PRI_MAX ==> exact - 4 * F * p < 4 * F + 4)
    && (p > PRI_MIN ==> exact - 4 * F * p > -4)
  }

  /** load_avg and recent_cpu after a tick that is a multiple of 100, and after another. */
  ghost predicate CpuTicked(cpu: map<Tid, Cpu>, load: int, cur: Tid, r: State) {
    && r.cpu.Keys == cpu.Keys
    && (forall t :: t in cpu ==> r.cpu[t].nice == cpu[t].nice)
    && if r.ticks % TIMER_FREQ == 0 then
         && LoadTicked(load, |Runnable(r.status, r.idleKnown)|, r.load)
         && forall t :: t in cpu ==> Decayed(r.load, AgedRecent(cpu, cur, t), cpu[t].nice, r.cpu[t].recent)
       else
         r.load == load && forall t :: t in cpu ==> r.cpu[t].recent == AgedRecent(cpu, cur, t)
  }

  /** Priorities after a tick that is a multiple of 4, and after another. */
  ghost predicate PrioTicked(prio: map<Tid, int>, r: State) {
    if r.ticks % 4 == 0 then r.prio.Keys == r.cpu.Keys && forall t :: t in r.cpu ==> PriorityFits(r.cpu[t], r.prio[t])
    else r.prio == prio
  }

  lemma {:induction false} AgeMeans(st: State)
    requires st.cur in st.cpu && Age(st).Some?
    ensures var r := Age(st).value;
      r == st.(cpu := r.cpu) && r.cpu.Keys == st.cpu.Keys
      && forall t :: t in st.cpu ==> r.cpu[t] == Cpu(st.cpu[t].nice, AgedRecent(st.cpu, st.cur, t))
  {
  }

  /** `load'` is 59/60 of `load` plus 1/60 of `n` threads, rounded down. */
  ghost predicate LoadTicked(load: int, n: nat, load': int) {
    0 <= load' && 0 <= 59 * load + n * F - 60 * load' < 60
  }

  lemma {:induction false} LoadMeans(load: nat, n: nat)
    requires LoadAvg(load, n).Some?
    ensures LoadTicked(load, n, LoadAvg(load, n).value)
  {
    LoadAvgIsClose(load, n);
  }

  lemma {:induction false} DecayMeans(load: nat, recent: int, nice: int)
    requires RecentCpu(load, recent, nice).Some?
    ensures Decayed(load, recent, nice, RecentCpu(load, recent, nice).value)
  {
    RecentCpuIsClose(load, recent, nice);
  }

  lemma {:induction false} DecayAllMeans(load: nat, cpu: map<Tid, Cpu>)
    requires DecayAll(load, cpu).Some?
    ensures var r := DecayAll(load, cpu).value;
      && r.Keys == cpu.Keys
      && forall t :: t in cpu ==> r[t].nice == cpu[t].nice && Decayed(load, cpu[t].recent, cpu[t].nice, r[t].recent)
  {
    forall t | t in cpu
      ensures Decayed(load, cpu[t].recent, cpu[t].nice, RecentCpu(load, cpu[t].recent, cpu[t].nice).value)
    {
      DecayMeans(load, cpu[t].recent, cpu[t].nice);
    }
  }

  lemma {:induction false} SecondMeans(st: State)
    requires ReadyOk(st.status, st.ready, st.idleKnown) && CurOk(st.status, st.cur) && st.load >= 0 && EachSecond(st).Some?
    ensures var r := EachSecond(st).value;
      && r == st.(cpu := r.cpu, load := r.load) && r.cpu.Keys == st.cpu.Keys && r.load >= 0
      && (forall t :: t in st.cpu ==> r.cpu[t].nice == st.cpu[t].nice)
      && if st.ticks % TIMER_FREQ == 0 then
           && LoadTicked(st.load, |Runnable(st.status, st.idleKnown)|, r.load)
           && forall t :: t in st.cpu ==> Decayed(r.load, st.cpu[t].recent, st.cpu[t].nice, r.cpu[t].recent)
         else r == st
  {
    if st.ticks % TIMER_FREQ == 0 {
      ReadyAndRunning(st.status, st.ready, st.idleKnown, st.cur);
      var n := |Runnable(st.status, st.idleKnown)|;
      LoadMeans(st.load, n);
      DecayAllMeans(LoadAvg(st.load, n).value, st.cpu);
    }
  }

  lemma {:induction false} PriorityMeans(recent: int, nice: int)
    requires Priority(recent, nice).Some?
    ensures PriorityFits(Cpu(nice, recent), Priority(recent, nice).value)
  {
    PriorityIsClose(recent, nice);
  }

  lemma {:induction false} FourthMeans(st: State)
    requires EachFourth(st).Some?
    ensures var r := EachFourth(st).value;
      && r == st.(prio := r.prio, ready := r.ready)
      && if st.ticks % 4 == 0 then
           && r.prio.Keys == st.cpu.Keys && (forall t :: t in st.cpu ==> PriorityFits(st.cpu[t], r.prio[t]))
           && Ordered.StableOf(Higher(r.prio), st.ready, r.ready)
         else r == st
  {
    if st.ticks % 4 == 0 {
      var prio := PrioritiesOf(st.cpu).value;
      forall t | t in st.cpu ensures PriorityFits(st.cpu[t], prio[t]) {
        PriorityMeans(st.cpu[t].recent, st.cpu[t].nice);
      }
      HigherIsOrder(prio);
      Ordered.SortIsStable(Higher(prio), st.ready);
    }
  }

  /** Waking the sleepers changes neither figures nor priorities, and leaves every thread in its cpu. */
  lemma {:induction false} WakeKeepsFigures(st: State, i: nat)
    requires i <= |st.sleepers| && SleepersAsleep(st.at, st.sleepers)
    ensures var r := Wake(st, i);
      r.prio == st.prio && r.idleKnown == st.idleKnown && r.semas == st.semas && r.holders == st.holders && r.inside == st.inside && r.next == st.next
    decreases |st.sleepers| - i
  {
    if i < |st.sleepers| {
      var t := st.sleepers[i];
      if st.at[t].until <= st.ticks {
        WakeKeepsFigures(Woken(st, i), i);
      } else {
        WakeKeepsFigures(st, i + 1);
      }
    }
  }

  lemma {:induction false} NobodyDue(st: State, i: nat)
    requires i <= |st.sleepers| && SleepersAsleep(st.at, st.sleepers)
    requires forall t :: t in st.sleepers ==> st.at[t].until > st.ticks
    ensures Wake(st, i) == st
    decreases |st.sleepers| - i
  {
    if i < |st.sleepers| {
      assert st.sleepers[i] in st.sleepers;
      NobodyDue(st, i + 1);
    }
  }

  /** load_avg is never negative. */
  lemma {:induction false} LoadIsPositive(states: seq<State>, steps: seq<Step>, i: nat)
    requires IsRun(states, steps) && i < |states|
    ensures states[i].load >= 0
  {
    if i > 0 {
      var k := i - 1;
      LoadIsPositive(states, steps, k);
      RunKeepsInv(states, steps, k);
      assert Enabled(states[k], steps[k]) && Next(states[k], steps[k]) == Some(states[k + 1]);
      StepKeepsLoad(states[k], steps[k]);
    }
  }

  lemma {:induction false} StepKeepsLoad(st: State, step: Step)
    requires Inv(st) && st.load >= 0 && Enabled(st, step) && Next(st, step).Some?
    ensures Next(st, step).value.load >= 0
  {
    if step.Tick? {
      TickFigures(st);
    } else if IsSemaStep(step) || IsLockStep(step) {
      SynchStepKeepsFigures(st, step);
    } else if !step.SetNice? && !step.Create? && !step.Exit? {
      ThreadStepKeepsFigures(st, step);
    }
  }

  /** The part of a tick that only the feedback scheduler has. */
  lemma {:induction false} FeedbackMeans(st: State, st2: State, st3: State, r: State)
    requires ReadyOk(st.status, st.ready, st.idleKnown) && CurOk(st.status, st.cur) && st.load >= 0 && st.cur in st.cpu
    requires Age(st) == Some(st2) && EachSecond(st2) == Some(st3) && EachFourth(st3) == Some(r)
    ensures Fed(st, r)
  {
    AgeMeans(st);
    SecondMeans(st2);
    FourthMeans(st3);
  }

  /** What waking the sleepers leaves as it was. */
  ghost predicate SameFigures(st: State, st1: State) {
    && st1.cpu == st.cpu && st1.load == st.load && st1.cur == st.cur && st1.prio == st.prio
    && st1.mlfqs == st.mlfqs && st1.idleKnown == st.idleKnown
  }

  lemma {:induction false} TickWakesFirst(st: State, st1: State)
    requires Inv(st) && SleepersAsleep(st.at, st.sleepers) && st1 == Wake(st.(ticks := st.ticks + 1), 0)
    ensures ReadyOk(st1.status, st1.ready, st1.idleKnown) && CurOk(st1.status, st1.cur)
    ensures SameFigures(st, st1) && st1.ticks == st.ticks + 1 && st1.cur in st1.cpu
  {
    var st0 := st.(ticks := st.ticks + 1);
    assert Inv(st0);
    WakeKeepsInv(st0, 0);
    WakeKeepsFigures(st0, 0);
  }

  /** The figures, priorities and ready list after the feedback scheduler's part of a tick. */
  ghost predicate Fed(st1: State, r: State) {
    && CpuTicked(st1.cpu, st1.load, st1.cur, r) && PrioTicked(st1.prio, r) && r.load >= 0
    && r == st1.(cpu := r.cpu, load := r.load, prio := r.prio, ready := r.ready)
    && if st1.ticks % 4 == 0 then Ordered.StableOf(Higher(r.prio), st1.ready, r.ready) else r.ready == st1.ready
  }

  /** A tick, from waking the sleepers on. */
  lemma {:induction false} TickSplits(st: State, st1: State)
    requires Inv(st) && st.load >= 0 && Enabled(st, Tick) && DoTick(st).Some? && st1 == Wake(st.(ticks := st.ticks + 1), 0)
    ensures ReadyOk(st1.status, st1.ready, st1.idleKnown) && CurOk(st1.status, st1.cur)
    ensures SameFigures(st, st1) && st1.ticks == st.ticks + 1
    ensures if st.mlfqs then Fed(st1, DoTick(st).value) else DoTick(st).value == st1
  {
    TickWakesFirst(st, st1);
    if st.mlfqs {
      var st2 := Age(st1).value;
      var st3 := EachSecond(st2).value;
      FeedbackMeans(st1, st2, st3, DoTick(st).value);
    }
  }

  /** The figures after a tick. */
  lemma {:induction false} TickFigures(st: State)
    requires Inv(st) && st.load >= 0 && Enabled(st, Tick) && DoTick(st).Some?
    ensures var r := DoTick(st).value;
      && r.ticks == st.ticks + 1 && r.mlfqs == st.mlfqs && r.cur == st.cur && r.load >= 0
      && if st.mlfqs then CpuTicked(st.cpu, st.load, st.cur, r) && PrioTicked(st.prio, r)
         else r.cpu == st.cpu && r.load == st.load && r.prio == st.prio
  {
    TickSplits(st, Wake(st.(ticks := st.ticks + 1), 0));
  }

  /** Every tick of every run.  The running thread's recent_cpu gains one; at every 100th tick load_avg
      takes in the threads that are ready or running, and every recent_cpu is then decayed; at every
      fourth every priority is computed from recent_cpu and nice.  Without the feedback scheduler
      none of them changes. */
  lemma {:induction false} TickMeans(states: seq<State>, steps: seq<Step>, i: nat)
    requires IsRun(states, steps) && i < |steps| && steps[i] == Tick
    ensures var st, r := states[i], states[i + 1];
      && r.ticks == st.ticks + 1 && r.mlfqs == st.mlfqs && r.cur == st.cur
      && if st.mlfqs then CpuTicked(st.cpu, st.load, st.cur, r) && PrioTicked(st.prio, r)
         else r.cpu == st.cpu && r.load == st.load && r.prio == st.prio
  {
    RunKeepsInv(states, steps, i);
    LoadIsPositive(states, steps, i);
    assert Enabled(states[i], steps[i]) && Next(states[i], steps[i]) == Some(states[i + 1]);
    TickFigures(states[i]);
  }

  /** Every tick wakes exactly the sleepers whose time has come, and touches no other thread. */
  lemma {:induction false} TickWakes(states: seq<State>, steps: seq<Step>, i: nat, t: Tid)
    requires IsRun(states, steps) && i < |steps| && steps[i] == Tick
    ensures var st, r := states[i], states[i + 1];
      && (t in r.sleepers <==> t in st.sleepers && t in st.at && st.at[t].Asleep? && st.at[t].until > r.ticks)
      && (t !in st.sleepers ==> (t in r.status <==> t in st.status) && (t in st.status ==> r.status[t] == st.status[t]))
      && (t in st.sleepers && t !in r.sleepers ==> t in r.status && r.status[t] == Ready)
  {
    RunKeepsInv(states, steps, i);
    LoadIsPositive(states, steps, i);
    var st, st0 := states[i], states[i].(ticks := states[i].ticks + 1);
    assert Enabled(st, steps[i]) && Next(st, steps[i]) == Some(states[i + 1]);
    TickSplits(st, Wake(st0, 0));
    WakeIsExact(st0, 0, t);
  }

  /** When no sleeper is due, threads of equal priority keep their order in the ready list, also when
      all priorities were computed anew. */
  lemma {:induction false} TickKeepsTurns(states: seq<State>, steps: seq<Step>, i: nat)
    requires IsRun(states, steps) && i < |steps| && steps[i] == Tick
    requires forall t :: t in states[i].sleepers ==> t in states[i].at && states[i].at[t].Asleep? && states[i].at[t].until > states[i].ticks + 1
    ensures Ordered.StableOf(Higher(states[i + 1].prio), states[i].ready, states[i + 1].ready)
  {
    RunKeepsInv(states, steps, i);
    LoadIsPositive(states, steps, i);
    var st, st0 := states[i], states[i].(ticks := states[i].ticks + 1);
    assert Enabled(st, steps[i]) && Next(st, steps[i]) == Some(states[i + 1]);
    NobodyDue(st0, 0);
    TickSplits(st, st0);
  }

  // ----- Steps of threads -----

  function Get<V>(m: map<Tid, V>, t: Tid): Option<V> {
    if t in m then Some(m[t]) else None
  }

  /** All that the scheduler knows of thread `t`. */
  function Thread(st: State, t: Tid): (Option<Status>, Option<Place>, Option<int>, Option<Cpu>) {
    (Get(st.status, t), Get(st.at, t), Get(st.prio, t), Get(st.cpu, t))
  }

  /** No thread changes but those of `ts`. */
  ghost predicate OnlyThese(st: State, r: State, ts: set<Tid>) {
    forall t :: t !in ts ==> Thread(r, t) == Thread(st, t)
  }

  /** The CPU went from the running thread, of which `left` remains, to a thread that was ready or is
      the idle thread; no other thread changed. */
  ghost predicate Switched(st: State, r: State, left: (Option<Status>, Option<Place>, Option<int>, Option<Cpu>)) {
    && OnlyThese(st, r, {st.cur, r.cur})
    && (r.cur != st.cur ==> Thread(r, st.cur) == left)
    && Thread(r, r.cur) == (Some(Running), if r.cur == st.cur then left.1 else Get(st.at, r.cur), Get(st.prio, r.cur), Get(st.cpu, r.cur))
  }

  /** What a step of a thread other than on a semaphore or lock does to all threads. */
  ghost predicate ThreadSpec(st: State, step: Step, r: State) {
    var (status, place, prio, cpu) := Thread(st, st.cur);
    match step
    case Create(p) =>
      && st.next !in st.status && r.cur == st.cur && r.ready == st.ready && r.next > st.next
      && Thread(r, st.next) == (Some(Blocked), Some(Fresh), Some(p), cpu) && OnlyThese(st, r, {st.next})
    case Start(t) =>
      r.cur == st.cur && Thread(r, t) == (Some(Ready), Some(Busy), Get(st.prio, t), Get(st.cpu, t)) && OnlyThese(st, r, {t})
    case Yield => Switched(st, r, (Some(Ready), place, prio, cpu))
    case Exit => Switched(st, r, (None, None, None, None)) && r.cur != st.cur
    case Sleep(until, _) => Switched(st, r, (Some(Blocked), Some(Asleep(until)), prio, cpu)) && r.cur != st.cur
    case SetPriority(p) => r.cur == st.cur && Thread(r, st.cur) == (status, place, Some(p), cpu) && OnlyThese(st, r, {st.cur})
    case SetNice(n) =>
      && r.cur == st.cur && OnlyThese(st, r, {st.cur}) && st.cur in st.cpu && st.cur in r.prio
      && Thread(r, st.cur) == (status, place, Some(r.prio[st.cur]), Some(Cpu(n, st.cpu[st.cur].recent)))
      && PriorityFits(Cpu(n, st.cpu[st.cur].recent), r.prio[st.cur])
    case IdleStart => r.cur == st.cur && OnlyThese(st, r, {}) && r.idleKnown
    case IdleBlock => Switched(st, r, (Some(Blocked), place, prio, cpu)) && (r.cur == IDLE <==> st.ready == [])
    case _ => true
  }

  lemma {:induction false} DispatchChanges(mid: State, r: State)
    requires Dispatch(mid) == Some(r)
    ensures r == mid.(status := mid.status[r.cur := Running], ready := r.ready, cur := r.cur)
  {
  }

  lemma {:induction false} DispatchMeans(mid: State, r: State)
    requires r == mid.(status := mid.status[r.cur := Running], ready := r.ready, cur := r.cur)
    ensures OnlyThese(mid, r, {r.cur})
    ensures Thread(r, r.cur) == (Some(Running), Get(mid.at, r.cur), Get(mid.prio, r.cur), Get(mid.cpu, r.cur))
  {
    forall u | u != r.cur ensures Get(r.status, u) == Get(mid.status, u) {
    }
  }

  /** A switch from `mid`, in which only the running thread has changed so far. */
  lemma {:induction false} SwitchMeans(st: State, mid: State, r: State)
    requires Dispatch(mid) == Some(r) && mid.cur == st.cur && OnlyThese(st, mid, {st.cur})
    requires r.cur == st.cur ==> Get(mid.prio, st.cur) == Get(st.prio, st.cur) && Get(mid.cpu, st.cur) == Get(st.cpu, st.cur)
    ensures Switched(st, r, Thread(mid, st.cur))
  {
    DispatchChanges(mid, r);
    DispatchMeans(mid, r);
    var t := r.cur;
    if t != st.cur {
      assert Thread(mid, t) == Thread(st, t);
      assert Thread(r, st.cur) == Thread(mid, st.cur);
    }
    forall u | u !in {st.cur, t} ensures Thread(r, u) == Thread(st, u) {
      assert Thread(r, u) == Thread(mid, u);
    }
  }

  /** Who gets the CPU: the first of the ready list, or the idle thread. */
  lemma {:induction false} DispatchPicks(mid: State, r: State)
    requires Dispatch(mid) == Some(r)
    ensures if mid.ready != [] then r.cur == mid.ready[0] else r.cur == IDLE
  {
  }

  lemma {:induction false} CurIsNotReady(st: State)
    requires RunInv(st)
    ensures st.cur !in st.ready
  {
    assert st.cur in st.ready <==> st.cur in multiset(st.ready);
  }

  lemma {:induction false} YieldMeans(st: State, r: State)
    requires RunInv(st) && DoYield(st) == Some(r)
    ensures ThreadSpec(st, Yield, r)
  {
    if st.idleKnown && st.cur == IDLE {
      SwitchMeans(st, st.(status := st.status[st.cur := Ready]), r);
    } else {
      var mid := Unblock(st, st.cur);
      assert mid == st.(status := st.status[st.cur := Ready], ready := mid.ready);
      SwitchMeans(st, mid, r);
    }
  }

  lemma {:induction false} ExitMeans(st: State, r: State)
    requires RunInv(st) && Enabled(st, Exit) && DoExit(st) == Some(r)
    ensures ThreadSpec(st, Exit, r)
  {
    var gone := {st.cur};
    var mid := st.(status := st.status - gone, at := st.at - gone, prio := st.prio - gone, cpu := st.cpu - gone);
    CurIsNotReady(st);
    DispatchPicks(mid, r);
    SwitchMeans(st, mid, r);
  }

  lemma {:induction false} SleepMeans(st: State, until: int, k: nat, r: State)
    requires RunInv(st) && Enabled(st, Sleep(until, k)) && DoSleep(st, until, k) == Some(r)
    ensures ThreadSpec(st, Sleep(until, k), r)
  {
    var mid := st.(at := st.at[st.cur := Asleep(until)], sleepers := st.sleepers[..k] + [st.cur] + st.sleepers[k..],
                   status := st.status[st.cur := Blocked]);
    CurIsNotReady(st);
    DispatchPicks(mid, r);
    SwitchMeans(st, mid, r);
  }

  lemma {:induction false} IdleBlockMeans(st: State, r: State)
    requires RunInv(st) && Enabled(st, IdleBlock) && Block(st) == Some(r)
    ensures ThreadSpec(st, IdleBlock, r)
  {
    var mid := st.(status := st.status[st.cur := Blocked]);
    CurIsNotReady(st);
    DispatchPicks(mid, r);
    SwitchMeans(st, mid, r);
  }

  lemma {:induction false} QuietMeans(st: State, step: Step, r: State)
    requires RunInv(st) && Enabled(st, step) && Next(st, step) == Some(r)
    requires step.Create? || step.Start? || step.SetPriority? || step.SetNice? || step.IdleStart?
    ensures ThreadSpec(st, step, r)
  {
    if step.SetNice? {
      PriorityMeans(st.cpu[st.cur].recent, step.nice);
    }
  }

  /** What every step of a thread does, in every run. */
  lemma {:induction false} ThreadStepMeans(states: seq<State>, steps: seq<Step>, i: nat)
    requires IsRun(states, steps) && i < |steps|
    ensures ThreadSpec(states[i], steps[i], states[i + 1])
  {
    RunKeepsInv(states, steps, i);
    var st, step, r := states[i], steps[i], states[i + 1];
    assert Enabled(st, step) && Next(st, step) == Some(r);
    if step.Yield? {
      YieldMeans(st, r);
    } else if step.Exit? {
      ExitMeans(st, r);
    } else if step.Sleep? {
      SleepMeans(st, step.until, step.k, r);
    } else if step.IdleBlock? {
      IdleBlockMeans(st, r);
    } else if step.Create? || step.Start? || step.SetPriority? || step.SetNice? || step.IdleStart? {
      QuietMeans(st, step, r);
    }
  }

  // ----- Semaphores and locks -----

  /** No other semaphore changes, and no lock's holder. */
  ghost predicate OnlySema(st: State, r: State, s: SemaId) {
    && s in r.semas && r.semas == st.semas[s := r.semas[s]] && r.holders == st.holders && r.inside == st.inside
  }

  /** `x` has joined the queue before the first thread of lower priority. */
  ghost predicate JoinedQueue(prio: map<Tid, int>, queue: seq<Tid>, queue': seq<Tid>, x: Tid) {
    exists k :: 0 <= k <= |queue| && JoinedAt(prio, queue, queue', x, k)
  }

  ghost predicate JoinedAt(prio: map<Tid, int>, queue: seq<Tid>, queue': seq<Tid>, x: Tid, k: nat)
    requires k <= |queue|
  {
    && queue' == queue[..k] + [x] + queue[k..]
    && (forall i :: 0 <= i < k ==> Prio(prio, queue[i]) >= Prio(prio, x))
    && (k < |queue| ==> Prio(prio, queue[k]) < Prio(prio, x))
  }

  /** sema_down takes the semaphore if it is up, and then its thread goes on at `next`; otherwise the
      thread queues up by priority and another one runs. */
  ghost predicate DownSpec(st: State, s: SemaId, locking: bool, next: Place, r: State)
    requires s in st.semas
  {
    var sema, (status, place, prio, cpu) := st.semas[s], Thread(st, st.cur);
    && OnlySema(st, r, s)
    && if sema.value > 0 then
         && r.semas[s] == Semaphore(sema.value - 1, sema.waiters)
         && r.cur == st.cur && Thread(r, st.cur) == (status, Some(next), prio, cpu) && OnlyThese(st, r, {st.cur})
       else
         && r.semas[s].value == 0 && JoinedQueue(st.prio, sema.waiters, r.semas[s].waiters, st.cur)
         && r.cur != st.cur && Switched(st, r, (Some(Blocked), Some(Down(s, locking)), prio, cpu))
  }

  /** sema_up raises the value and makes the first waiter ready, if there is one. */
  ghost predicate UpSpec(st: State, s: SemaId, r: State)
    requires s in st.semas
  {
    var sema := st.semas[s];
    && OnlySema(st, r, s) && r.cur == st.cur && r.semas[s].value == sema.value + 1
    && if sema.waiters == [] then r.semas[s].waiters == []
       else
         var w := sema.waiters[0];
         sema.waiters == [w] + r.semas[s].waiters && Get(r.status, w) == Some(Ready)
  }

  ghost predicate SynchSpec(st: State, step: Step, r: State)
    requires Enabled(st, step)
  {
    var (status, place, prio, cpu) := Thread(st, st.cur);
    match step
    case SemaDown(s) => DownSpec(st, s, false, Busy, r)
    case Acquire(s) => DownSpec(st, s, true, Taken(s), r)
    case Resume =>
      var s, locking := st.at[st.cur].on, st.at[st.cur].locking;
      DownSpec(st, s, locking, if locking then Taken(s) else Busy, r)
    case SemaTry(s) =>
      && r.cur == st.cur && OnlyThese(st, r, {}) && OnlySema(st, r, s) && r.semas[s].waiters == st.semas[s].waiters
      && r.semas[s].value == (if st.semas[s].value > 0 then st.semas[s].value - 1 else 0)
    case TryAcquire(s) => if st.semas[s].value == 0 then r == st else DownSpec(st, s, true, Taken(s), r)
    case SemaUp(s) =>
      && UpSpec(st, s, r)
      && OnlyThese(st, r, if st.semas[s].waiters == [] then {} else {st.semas[s].waiters[0]})
    case SetHolder =>
      var l := st.at[st.cur].of;
      && r.cur == st.cur && r.semas == st.semas && Thread(r, st.cur) == (status, Some(Busy), prio, cpu) && OnlyThese(st, r, {st.cur})
      && l in r.holders && r.holders == st.holders[l := Some(st.cur)] && l in r.inside && st.cur in r.inside[l]
    case Release(l) =>
      && r.cur == st.cur && r.semas == st.semas && Thread(r, st.cur) == (status, Some(Freeing(l)), prio, cpu) && OnlyThese(st, r, {st.cur})
      && l in r.holders && r.holders == st.holders[l := None] && l in r.inside && st.cur !in r.inside[l]
    case FinishRelease =>
      var l := st.at[st.cur].of;
      && UpSpec(st, l, r) && Get(r.at, st.cur) == Some(Busy)
      && OnlyThese(st, r, {st.cur} + if st.semas[l].waiters == [] then {} else {st.semas[l].waiters[0]})
    case NewSema(s, v) => r.cur == st.cur && OnlyThese(st, r, {}) && OnlySema(st, r, s) && r.semas[s] == Semaphore(v, [])
    case NewLock(s) =>
      && r.cur == st.cur && OnlyThese(st, r, {}) && s in r.semas && r.semas[s] == Semaphore(1, [])
      && s in r.holders && r.holders[s] == None && s in r.inside && r.inside[s] == {}
    case _ => true
  }

  /** The thread has joined the queue and blocked. */
  lemma {:induction false} JoinedMeans(st: State, s: SemaId, locking: bool)
    requires s in st.semas
    ensures var mid := Joined(st, s, locking);
      && mid == st.(semas := st.semas[s := mid.semas[s]], at := mid.at, status := mid.status)
      && mid.semas[s].value == st.semas[s].value && JoinedQueue(st.prio, st.semas[s].waiters, mid.semas[s].waiters, st.cur)
      && OnlyThese(st, mid, {st.cur})
      && Thread(mid, st.cur) == (Some(Blocked), Some(Down(s, locking)), Get(st.prio, st.cur), Get(st.cpu, st.cur))
  {
    var mid, queue := Joined(st, s, locking), st.semas[s].waiters;
    var k := Ordered.InsertPlace(Higher(st.prio), queue, st.cur);
    assert JoinedAt(st.prio, queue, mid.semas[s].waiters, st.cur, k);
  }

  lemma {:induction false} DownBlocks(st: State, s: SemaId, locking: bool, next: Place, r: State)
    requires RunInv(st) && s in st.semas && st.semas[s].value == 0 && st.cur != IDLE && Dispatch(Joined(st, s, locking)) == Some(r)
    ensures DownSpec(st, s, locking, next, r)
  {
    var mid := Joined(st, s, locking);
    JoinedMeans(st, s, locking);
    CurIsNotReady(st);
    DispatchPicks(mid, r);
    DispatchChanges(mid, r);
    SwitchMeans(st, mid, r);
  }

  lemma {:induction false} DownTakes(st: State, s: SemaId, locking: bool, next: Place)
    requires s in st.semas && st.semas[s].value > 0 && next == if locking then Taken(s) else Busy
    ensures DownSpec(st, s, locking, next, Took(st, s, locking))
  {
  }

  lemma {:induction false} DownMeans(st: State, s: SemaId, locking: bool, next: Place, r: State)
    requires RunInv(st) && s in st.semas && st.cur != IDLE && DownOn(st, s, locking) == Some(r)
    requires next == if locking then Taken(s) else Busy
    ensures DownSpec(st, s, locking, next, r)
  {
    if st.semas[s].value == 0 {
      DownBlocks(st, s, locking, next, r);
    } else {
      DownTakes(st, s, locking, next);
    }
  }

  lemma {:induction false} UpMeans(st: State, s: SemaId, r: State)
    requires s in st.semas && r == UpOn(st, s)
    ensures UpSpec(st, s, r)
    ensures OnlyThese(st, r, if st.semas[s].waiters == [] then {} else {st.semas[s].waiters[0]})
  {
    var waiters := st.semas[s].waiters;
    if waiters == [] {
      assert r.status == st.status;
    } else {
      var w := waiters[0];
      assert r.status == st.status[w := Ready];
      forall u | u != w ensures Get(r.status, u) == Get(st.status, u) {
      }
      assert waiters == [w] + waiters[1..];
    }
  }

  lemma {:induction false} FinishMeans(st: State, r: State)
    requires Enabled(st, FinishRelease) && Next(st, FinishRelease) == Some(r)
    ensures SynchSpec(st, FinishRelease, r)
  {
    var mid, l := st.(at := st.at[st.cur := Busy]), st.at[st.cur].of;
    UpMeans(mid, l, r);
    var woken := if st.semas[l].waiters == [] then {} else {st.semas[l].waiters[0]};
    forall u | u !in {st.cur} + woken ensures Thread(r, u) == Thread(st, u) {
      assert Thread(r, u) == Thread(mid, u);
    }
  }

  lemma {:induction false} TryMeans(st: State, s: SemaId)
    requires Enabled(st, SemaTry(s))
    ensures SynchSpec(st, SemaTry(s), DoTry(st, s))
  {
  }

  lemma {:induction false} HolderMeans(st: State, step: Step, r: State)
    requires Enabled(st, step) && Next(st, step) == Some(r) && (step.SetHolder? || step.Release?)
    ensures SynchSpec(st, step, r)
  {
    forall u | u != st.cur ensures Get(r.at, u) == Get(st.at, u) {
    }
  }

  lemma {:induction false} NewSemaMeans(st: State, s: SemaId, v: nat, r: State)
    requires Enabled(st, NewSema(s, v)) && Next(st, NewSema(s, v)) == Some(r)
    ensures SynchSpec(st, NewSema(s, v), r)
  {
  }

  lemma {:induction false} NewLockMeans(st: State, s: SemaId, r: State)
    requires Enabled(st, NewLock(s)) && Next(st, NewLock(s)) == Some(r)
    ensures SynchSpec(st, NewLock(s), r)
  {
  }

  lemma {:induction false} TryAcquireMeans(st: State, s: SemaId, r: State)
    requires Enabled(st, TryAcquire(s)) && Next(st, TryAcquire(s)) == Some(r)
    ensures SynchSpec(st, TryAcquire(s), r)
  {
    if st.semas[s].value > 0 {
      DownTakes(st, s, true, Taken(s));
    }
  }

  lemma {:induction false} DownStepMeans(st: State, step: Step, r: State)
    requires RunInv(st) && Enabled(st, step) && Next(st, step) == Some(r)
    requires step.SemaDown? || step.Acquire? || step.Resume?
    ensures SynchSpec(st, step, r)
  {
    match step
    case SemaDown(s) => DownMeans(st, s, false, Busy, r);
    case Acquire(s) => DownMeans(st, s, true, Taken(s), r);
    case Resume =>
      var s, locking := st.at[st.cur].on, st.at[st.cur].locking;
      DownMeans(st, s, locking, if locking then Taken(s) else Busy, r);
  }

  /** What every step on a semaphore or a lock does, in every run. */
  lemma {:induction false} SynchStepMeans(states: seq<State>, steps: seq<Step>, i: nat)
    requires IsRun(states, steps) && i < |steps|
    ensures Enabled(states[i], steps[i]) && SynchSpec(states[i], steps[i], states[i + 1])
  {
    RunKeepsInv(states, steps, i);
    var st, step, r := states[i], steps[i], states[i + 1];
    assert Enabled(st, step) && Next(st, step) == Some(r);
    if step.SemaDown? || step.Acquire? || step.Resume? {
      DownStepMeans(st, step, r);
    } else if step.TryAcquire? {
      TryAcquireMeans(st, step.s, r);
    } else if step.SemaUp? {
      UpMeans(st, step.s, r);
    } else if step.FinishRelease? {
      FinishMeans(st, r);
    } else if step.SemaTry? {
      TryMeans(st, step.s);
    } else if step.SetHolder? || step.Release? {
      HolderMeans(st, step, r);
    } else if step.NewSema? {
      NewSemaMeans(st, step.s, step.value, r);
    } else if step.NewLock? {
      NewLockMeans(st, step.s, r);
    }
  }

  // ----- Over whole runs -----

  /** The step raises semaphore `s`. */
  predicate Raises(st: State, step: Step, s: SemaId) {
    step == SemaUp(s) || (step.FinishRelease? && st.cur in st.at && st.at[st.cur] == Freeing(s))
  }

  /** The step takes semaphore `s`: it asks for it, and finds it up. */
  predicate Takes(st: State, step: Step, s: SemaId) {
    && s in st.semas && st.semas[s].value > 0
    && (step == SemaDown(s) || step == SemaTry(s) || step == Acquire(s) || step == TryAcquire(s)
        || (step.Resume? && st.cur in st.at && st.at[st.cur].Down? && st.at[st.cur].on == s))
  }

  lemma {:induction false} OtherStepKeepsSemas(st: State, step: Step)
    requires Enabled(st, step) && Next(st, step).Some? && !IsSemaStep(step) && !IsLockStep(step) && !step.Tick?
    ensures Next(st, step).value.semas == st.semas
  {
  }

  lemma {:induction false} TickKeepsSemas(st: State)
    requires Inv(st) && st.load >= 0 && Enabled(st, Tick) && DoTick(st).Some?
    ensures DoTick(st).value.semas == st.semas
  {
    TickSplits(st, Wake(st.(ticks := st.ticks + 1), 0));
    WakeKeepsFigures(st.(ticks := st.ticks + 1), 0);
  }

  /** The value of `s` went up with a raise and down with a take. */
  ghost predicate Counted(st: State, step: Step, r: State, s: SemaId) {
    && s in st.semas && s in r.semas
    && r.semas[s].value + (if Takes(st, step, s) then 1 else 0) == st.semas[s].value + if Raises(st, step, s) then 1 else 0
  }

  lemma {:induction false} DownCounts(st: State, step: Step, r: State, s: SemaId)
    requires Enabled(st, step) && SynchSpec(st, step, r) && s in st.semas
    requires step.SemaDown? || step.Acquire? || step.Resume? || step.SemaTry? || step.TryAcquire?
    ensures Counted(st, step, r, s)
  {
  }

  lemma {:induction false} UpCounts(st: State, step: Step, r: State, s: SemaId)
    requires Enabled(st, step) && SynchSpec(st, step, r) && s in st.semas && (step.SemaUp? || step.FinishRelease?)
    ensures Counted(st, step, r, s)
  {
  }

  lemma {:induction false} QuietCounts(st: State, step: Step, r: State, s: SemaId)
    requires Enabled(st, step) && Next(st, step) == Some(r) && s in st.semas
    requires step.NewSema? || step.NewLock? || step.SetHolder? || step.Release?
    ensures Counted(st, step, r, s)
  {
  }

  lemma {:induction false} StepCounts(states: seq<State>, steps: seq<Step>, i: nat, s: SemaId)
    requires IsRun(states, steps) && i < |steps| && s in states[i].semas
    ensures Counted(states[i], steps[i], states[i + 1], s)
  {
    var st, step, r := states[i], steps[i], states[i + 1];
    SynchStepMeans(states, steps, i);
    assert Enabled(st, step) && Next(st, step) == Some(r);
    if step.Tick? {
      RunKeepsInv(states, steps, i);
      LoadIsPositive(states, steps, i);
      TickKeepsSemas(st);
    } else if step.SemaDown? || step.Acquire? || step.Resume? || step.SemaTry? || step.TryAcquire? {
      DownCounts(st, step, r, s);
    } else if step.SemaUp? || step.FinishRelease? {
      UpCounts(st, step, r, s);
    } else if IsSemaStep(step) || IsLockStep(step) {
      QuietCounts(st, step, r, s);
    } else {
      OtherStepKeepsSemas(st, step);
    }
  }

  ghost function TakeCount(states: seq<State>, steps: seq<Step>, s: SemaId, i: nat, j: nat): nat
    requires i <= j <= |steps| < |states|
    decreases j
  {
    if i == j then 0 else TakeCount(states, steps, s, i, j - 1) + if Takes(states[j - 1], steps[j - 1], s) then 1 else 0
  }

  ghost function RaiseCount(states: seq<State>, steps: seq<Step>, s: SemaId, i: nat, j: nat): nat
    requires i <= j <= |steps| < |states|
    decreases j
  {
    if i == j then 0 else RaiseCount(states, steps, s, i, j - 1) + if Raises(states[j - 1], steps[j - 1], s) then 1 else 0
  }

  lemma {:induction false} SemaStays(states: seq<State>, steps: seq<Step>, s: SemaId, i: nat, k: nat)
    requires IsRun(states, steps) && i <= k <= |steps| && s in states[i].semas
    ensures s in states[k].semas
    decreases k
  {
    if i < k {
      SemaStays(states, steps, s, i, k - 1);
      StepCounts(states, steps, k - 1, s);
    }
  }

  lemma {:induction false} CountsAddUp(states: seq<State>, steps: seq<Step>, s: SemaId, i: nat, j: nat)
    requires i <= j <= |steps| < |states| && s in states[i].semas
    requires forall k :: i <= k < j ==> Counted(states[k], steps[k], states[k + 1], s)
    ensures s in states[j].semas
    ensures states[j].semas[s].value + TakeCount(states, steps, s, i, j) == states[i].semas[s].value + RaiseCount(states, steps, s, i, j)
    decreases j
  {
    if i < j {
      var k := j - 1;
      CountsAddUp(states, steps, s, i, k);
      OneMoreCounted(states, steps, s, i, k);
      assert Counted(states[k], steps[k], states[k + 1], s);
    }
  }

  /** Between any two states of a run, a semaphore's value is what it was, plus the times it was raised,
      minus the times it was taken. */
  lemma {:induction false} ValuesAreConserved(states: seq<State>, steps: seq<Step>, s: SemaId, i: nat, j: nat)
    requires IsRun(states, steps) && i <= j <= |steps| && s in states[i].semas
    ensures s in states[j].semas
    ensures states[j].semas[s].value + TakeCount(states, steps, s, i, j) == states[i].semas[s].value + RaiseCount(states, steps, s, i, j)
  {
    forall k | i <= k < j ensures Counted(states[k], steps[k], states[k + 1], s) {
      SemaStays(states, steps, s, i, k);
      StepCounts(states, steps, k, s);
    }
    CountsAddUp(states, steps, s, i, j);
  }

  lemma {:induction false} OneMoreCounted(states: seq<State>, steps: seq<Step>, s: SemaId, i: nat, k: nat)
    requires i <= k < |steps| < |states|
    ensures TakeCount(states, steps, s, i, k + 1) == TakeCount(states, steps, s, i, k) + if Takes(states[k], steps[k], s) then 1 else 0
    ensures RaiseCount(states, steps, s, i, k + 1) == RaiseCount(states, steps, s, i, k) + if Raises(states[k], steps[k], s) then 1 else 0
  {
  }

  /** On the way through lock_acquire. */
  predicate Acquiring(at: map<Tid, Place>, t: Tid, l: SemaId) {
    t in at && (at[t] == Down(l, true) || at[t] == Taken(l))
  }

  /** Thread `t` is the holder of the lock, and past lock_acquire. */
  predicate Has(st: State, t: Tid, l: SemaId) {
    l in st.holders && st.holders[l] == Some(t) && l in st.inside && t in st.inside[l]
  }

  /** Waking sleepers moves nobody else. */
  lemma {:induction false} WakeKeepsPlace(st: State, i: nat, t: Tid)
    requires i <= |st.sleepers| && SleepersAsleep(st.at, st.sleepers) && t in st.at && !st.at[t].Asleep?
    ensures t in Wake(st, i).at && Wake(st, i).at[t] == st.at[t]
    decreases |st.sleepers| - i
  {
    if i < |st.sleepers| {
      var u := st.sleepers[i];
      if st.at[u].until <= st.ticks {
        WakeKeepsPlace(Woken(st, i), i, t);
      } else {
        WakeKeepsPlace(st, i + 1, t);
      }
    }
  }

  /** A thread in lock_acquire stays in it but for its own steps, and comes out of it holding the lock. */
  lemma {:induction false} AcquireGoesOn(states: seq<State>, steps: seq<Step>, i: nat, t: Tid, l: SemaId)
    requires IsRun(states, steps) && i < |steps| && Acquiring(states[i].at, t, l)
    ensures var r := states[i + 1];
      Acquiring(r.at, t, l) || (t in r.at && r.at[t] == Busy && Has(r, t, l))
  {
    var st, step, r := states[i], steps[i], states[i + 1];
    RunKeepsInv(states, steps, i);
    assert Enabled(st, step) && Next(st, step) == Some(r);
    if step.Tick? {
      LoadIsPositive(states, steps, i);
      TickSplits(st, Wake(st.(ticks := st.ticks + 1), 0));
      WakeKeepsPlace(st.(ticks := st.ticks + 1), 0, t);
    } else if step.SemaDown? || step.Acquire? || step.Resume? {
      DownMoves(st, step, r, t, l);
    } else if step.NewSema? || step.SemaTry? || step.SemaUp? || step.NewLock? {
      EasySemaMoves(st, step, r, t, l);
    } else if IsLockStep(step) {
      LockMoves(st, step, r, t, l);
    } else {
      ThreadMoves(st, step, r, t, l);
    }
  }

  lemma {:induction false} ThreadMoves(st: State, step: Step, r: State, t: Tid, l: SemaId)
    requires Enabled(st, step) && Next(st, step) == Some(r) && Acquiring(st.at, t, l) && st.next !in st.at
    requires !step.Tick? && !IsSemaStep(step) && !IsLockStep(step)
    ensures Acquiring(r.at, t, l)
  {
  }

  lemma {:induction false} DownPlace(st: State, s: SemaId, locking: bool, r: State)
    requires s in st.semas && DownOn(st, s, locking) == Some(r)
    ensures r.at == st.at[st.cur := if st.semas[s].value == 0 then Down(s, locking) else if locking then Taken(s) else Busy]
  {
  }

  lemma {:induction false} DownMoves(st: State, step: Step, r: State, t: Tid, l: SemaId)
    requires Enabled(st, step) && Next(st, step) == Some(r) && Acquiring(st.at, t, l)
    requires step.SemaDown? || step.Acquire? || step.Resume?
    ensures Acquiring(r.at, t, l)
  {
    match step
    case SemaDown(s) => DownPlace(st, s, false, r);
    case Acquire(s) => DownPlace(st, s, true, r);
    case Resume => DownPlace(st, st.at[st.cur].on, st.at[st.cur].locking, r);
  }

  lemma {:induction false} EasySemaMoves(st: State, step: Step, r: State, t: Tid, l: SemaId)
    requires Enabled(st, step) && Next(st, step) == Some(r) && Acquiring(st.at, t, l)
    requires step.NewSema? || step.SemaTry? || step.SemaUp? || step.NewLock?
    ensures Acquiring(r.at, t, l)
  {
  }

  lemma {:induction false} LockMoves(st: State, step: Step, r: State, t: Tid, l: SemaId)
    requires Enabled(st, step) && Next(st, step) == Some(r) && Acquiring(st.at, t, l)
    requires step.TryAcquire? || step.SetHolder? || step.Release? || step.FinishRelease?
    ensures Acquiring(r.at, t, l) || (t in r.at && r.at[t] == Busy && Has(r, t, l))
  {
  }

  /** lock_acquire returns only when its thread holds the lock: the next time that it runs its own code
      it is the holder. */
  lemma {:induction false} AcquireReturnsHolding(states: seq<State>, steps: seq<Step>, i: nat, j: nat, t: Tid, l: SemaId)
    requires IsRun(states, steps) && i < j <= |steps| && steps[i] == Acquire(l) && states[i].cur == t
    requires forall k :: i < k < j ==> t in states[k].at && states[k].at[t] != Busy
    ensures Acquiring(states[j].at, t, l) || (t in states[j].at && states[j].at[t] == Busy && Has(states[j], t, l))
    decreases j
  {
    if j == i + 1 {
      SynchStepMeans(states, steps, i);
    } else {
      AcquireReturnsHolding(states, steps, i, j - 1, t, l);
      AcquireGoesOn(states, steps, j - 1, t, l);
    }
  }
}
