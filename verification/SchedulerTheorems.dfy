/** What holds in every run of the scheduler and its synchronisation primitives. */
module SchedulerTheorems {
  import opened Common
  import opened FixedPoint
  import opened Scheduler
  import opened SchedulerInvariant
  import opened SchedulerSteps
  import Ordered

  ghost predicate IsRun(states: seq<State>, steps: seq<Step>) {
    && |states| == |steps| + 1
    && Init(states[0])
    && forall i {:trigger steps[i]} :: 0 <= i < |steps| ==> Enabled(states[i], steps[i]) && Next(states[i], steps[i]) == Some(states[i + 1])
  }

  lemma {:induction false} RunKeepsInv(states: seq<State>, steps: seq<Step>, i: nat)
    requires IsRun(states, steps) && i < |states|
    ensures Inv(states[i])
  {
    if i == 0 {
      InitIsInv(states[0]);
    } else {
      RunKeepsInv(states, steps, i - 1);
      StepKeepsInv(states[i - 1], steps[i - 1]);
    }
  }

  // ----- Scheduling -----

  /** The ready list holds exactly the READY threads other than the idle thread, once each, in
      non-increasing priority. */
  lemma {:induction false} ReadyListIsExact(states: seq<State>, steps: seq<Step>, i: nat)
    requires IsRun(states, steps) && i < |states|
    ensures var st := states[i];
      && (forall t :: t in st.ready <==> Queued(st.status, st.idleKnown, t))
      && (forall j, k :: 0 <= j < k < |st.ready| ==>
            st.ready[j] != st.ready[k] && Prio(st.prio, st.ready[j]) >= Prio(st.prio, st.ready[k]))
  {
    RunKeepsInv(states, steps, i);
    var st := states[i];
    forall t ensures t in st.ready <==> Queued(st.status, st.idleKnown, t) {
      assert multiset(st.ready)[t] == if Queued(st.status, st.idleKnown, t) then 1 else 0;
      assert t in st.ready <==> t in multiset(st.ready);
    }
    forall j, k | 0 <= j < k < |st.ready|
      ensures st.ready[j] != st.ready[k] && Prio(st.prio, st.ready[j]) >= Prio(st.prio, st.ready[k])
    {
      Distinct(st.ready, j, k, st.status, st.idleKnown);
      assert !Higher(st.prio)(st.ready[k], st.ready[j]);
    }
  }

  lemma {:induction false} Distinct(s: seq<Tid>, j: nat, k: nat, status: map<Tid, Status>, known: bool)
    requires ReadyOk(status, s, known) && j < k < |s|
    ensures s[j] != s[k]
  {
    var x := s[k];
    assert multiset(s)[x] <= 1;
    assert s == s[..k] + [x] + s[k + 1..];
    assert x !in multiset(s[..k]);
    assert s[..k][j] == s[j];
  }

  /** The step gives up the CPU. */
  ghost predicate Switches(st: State, step: Step) {
    || step.Yield? || step.Exit? || step.Sleep? || step.IdleBlock?
    || ((step.SemaDown? || step.Acquire?) && step.s in st.semas && st.semas[step.s].value == 0)
    || (step.Resume? && st.cur in st.at && st.at[st.cur].Down?
        && st.at[st.cur].on in st.semas && st.semas[st.at[st.cur].on].value == 0)
  }

  /** A thread switch always finds a thread, no READY thread is more urgent than the one that it
      picks, and the idle thread is picked only when no other thread is READY. */
  lemma {:induction false} SwitchPicksMostUrgent(states: seq<State>, steps: seq<Step>, step: Step)
    requires IsRun(states, steps)
    requires Enabled(states[|steps|], step) && Switches(states[|steps|], step)
    ensures Next(states[|steps|], step).Some?
    ensures var r := Next(states[|steps|], step).value;
      forall t :: Queued(r.status, r.idleKnown, t) ==>
        Prio(r.prio, t) <= Prio(r.prio, r.cur) && !(r.idleKnown && r.cur == IDLE)
  {
    var st := states[|steps|];
    RunKeepsInv(states, steps, |steps|);
    match step {
      case Yield => YieldKeepsInv(st);
      case Exit => ExitKeepsInv(st);
      case Sleep(until, k) => SleepKeepsInv(st, until, k);
      case IdleBlock => IdleBlockKeepsInv(st);
      case SemaDown(s) => DownKeepsInv(st, s, false);
      case Acquire(s) => DownKeepsInv(st, s, true);
      case Resume => ResumeIsLooking(st); DownKeepsInv(st, st.at[st.cur].on, st.at[st.cur].locking);
    }
    var r := Next(st, step).value;
    assert MostUrgent(r);
    if r.idleKnown && r.cur == IDLE {
      StepKeepsInv(st, step);
      EmptyMeansNone(r.status, r.idleKnown);
    }
  }

  /** A thread made ready goes behind every thread at least as urgent and before the others. */
  lemma {:induction false} ArrivalGoesBehindEquals(states: seq<State>, steps: seq<Step>, i: nat, t: Tid) returns (k: nat)
    requires IsRun(states, steps) && i < |states|
    ensures var st, ready := states[i], Unblock(states[i], t).ready;
      && k <= |st.ready| && ready == st.ready[..k] + [t] + st.ready[k..]
      && (forall j :: 0 <= j < k ==> Prio(st.prio, st.ready[j]) >= Prio(st.prio, t))
      && (forall j :: k <= j < |st.ready| ==> Prio(st.prio, st.ready[j]) < Prio(st.prio, t))
  {
    RunKeepsInv(states, steps, i);
    var st := states[i];
    HigherIsOrder(st.prio);
    k := Ordered.InsertSplits(Higher(st.prio), st.ready, t);
    assert forall j :: 0 <= j < k ==> !Higher(st.prio)(t, st.ready[j]);
    assert forall j :: k <= j < |st.ready| ==> Higher(st.prio)(t, st.ready[j]);
  }

  lemma {:induction false} LeavesList(s: seq<Tid>, i: nat, t: Tid)
    requires i < |s| && forall u :: u in s ==> multiset(s)[u] == 1
    ensures t in s[..i] + s[i + 1..] <==> t in s && t != s[i]
  {
    var r, u := s[..i] + s[i + 1..], s[i];
    WithoutOne(s, i);
    assert u in s;
    assert t in r <==> t in multiset(r);
    assert t in s <==> t in multiset(s);
  }

  /** block_check leaves asleep exactly the sleepers whose time has not come, and makes no other
      thread ready. */
  lemma {:induction false} WakeIsExact(st: State, i: nat, t: Tid)
    requires i <= |st.sleepers| && SleepersAsleep(st.at, st.sleepers)
    requires forall j :: 0 <= j < i ==> st.sleepers[j] in st.at && st.at[st.sleepers[j]].Asleep? && st.at[st.sleepers[j]].until > st.ticks
    ensures var r := Wake(st, i);
      && (t in r.sleepers <==> t in st.sleepers && t in st.at && st.at[t].Asleep? && st.at[t].until > st.ticks)
      && (t !in st.sleepers ==> (t in r.status <==> t in st.status) && (t in st.status ==> r.status[t] == st.status[t]))
      && (t in st.sleepers && t !in r.sleepers ==> t in r.status && r.status[t] == Ready)
    decreases |st.sleepers| - i
  {
    if i < |st.sleepers| {
      var u := st.sleepers[i];
      if st.at[u].until <= st.ticks {
        var st' := Woken(st, i);
        LeavesList(st.sleepers, i, t);
        WakeIsExact(st', i, t);
      } else {
        WakeIsExact(st, i + 1, t);
      }
    }
  }

  // ----- Locks and semaphores -----

  /** At most one thread is between the return of lock_acquire and its call of lock_release, it is
      the lock's holder, and the lock's semaphore is then down. */
  lemma {:induction false} MutualExclusion(states: seq<State>, steps: seq<Step>, i: nat, l: SemaId, t: Tid)
    requires IsRun(states, steps) && i < |states| && l in states[i].inside && l in states[i].holders
    ensures t in states[i].inside[l] <==> states[i].holders[l] == Some(t)
    ensures t in states[i].inside[l] ==> states[i].inside[l] == {t} && l in states[i].semas && states[i].semas[l].value == 0
  {
    RunKeepsInv(states, steps, i);
    var st := states[i];
    assert OneOwner(Edge(st.at, l), st.semas[l].value, st.holders[l], st.inside[l]);
    if t in st.inside[l] {
      assert |st.inside[l]| == 1;
    }
  }

  /** While a semaphore has waiters, the threads woken from it that have not yet run again are at
      least as many as its value, and each of them is ready or running. */
  lemma {:induction false} NoWakeupIsLost(states: seq<State>, steps: seq<Step>, i: nat, s: SemaId)
    requires IsRun(states, steps) && i < |states| && s in states[i].semas
    ensures var st := states[i];
      && (st.semas[s].waiters != [] ==> st.semas[s].value <= |Roused(st.status, st.at, s)|)
      && (forall t :: t in st.semas[s].waiters <==> Waits(st.status, st.at, t, s))
      && (forall t :: t in Roused(st.status, st.at, s) ==> t in st.ready || t == st.cur)
  {
    RunKeepsInv(states, steps, i);
    var st := states[i];
    assert WaitersOk(st.status, st.at, s, st.semas[s].waiters);
    forall t ensures t in st.semas[s].waiters <==> Waits(st.status, st.at, t, s) {
      assert multiset(st.semas[s].waiters)[t] == if Waits(st.status, st.at, t, s) then 1 else 0;
      assert t in st.semas[s].waiters <==> t in multiset(st.semas[s].waiters);
    }
    forall t | t in Roused(st.status, st.at, s) ensures t in st.ready || t == st.cur {
      if t != st.cur {
        assert Queued(st.status, st.idleKnown, t);
        assert multiset(st.ready)[t] == 1;
      }
    }
  }

  // ----- Arithmetic -----

  /** Ticks since recent_cpu was last recomputed. */
  function Phase(st: State): nat {
    if st.mlfqs then st.ticks % TIMER_FREQ else 0
  }

  ghost predicate CpuOk(cpu: map<Tid, Cpu>, r: nat, k: nat) {
    forall t :: t in cpu ==> NiceOk(cpu[t].nice) && RecentOk(cpu[t].recent, r, k)
  }

  ghost predicate Bounded(st: State, r: nat) {
    LoadOk(st.load, r) && CpuOk(st.cpu, r, Phase(st))
  }

  lemma {:induction false} FewerThan(s: seq<Tid>, keys: set<Tid>)
    requires forall t :: t in s ==> t in keys && multiset(s)[t] == 1
    ensures |s| <= |keys|
  {
    if s != [] {
      var rest, x := s[..|s| - 1], s[|s| - 1];
      assert x in s;
      assert s == rest + [x];
      forall t | t in rest ensures t in keys - {x} && multiset(rest)[t] == 1 {
        assert t in multiset(rest);
        assert t in s;
      }
      FewerThan(rest, keys - {x});
    }
  }

  lemma {:induction false} ReadyAreFew(st: State)
    requires RunInv(st)
    ensures |st.ready| + 1 <= |st.status|
  {
    forall t | t in st.ready ensures t in st.status.Keys - {st.cur} && multiset(st.ready)[t] == 1 {
      assert t in multiset(st.ready);
    }
    FewerThan(st.ready, st.status.Keys - {st.cur});
  }

  lemma {:induction false} SecondStays(st: State, r: nat)
    requires RunInv(st) && |st.status| <= r <= MAX_THREADS
    requires LoadOk(st.load, r) && CpuOk(st.cpu, r, if st.ticks % TIMER_FREQ == 0 then TIMER_FREQ else st.ticks % TIMER_FREQ)
    ensures EachSecond(st).Some?
    ensures var st' := EachSecond(st).value; LoadOk(st'.load, r) && CpuOk(st'.cpu, r, st.ticks % TIMER_FREQ)
  {
    if st.ticks % TIMER_FREQ == 0 {
      ReadyAreFew(st);
      LoadAvgStays(st.load, |st.ready| + if st.idleKnown && st.cur == IDLE then 0 else 1, r);
      var load := LoadAvg(st.load, |st.ready| + if st.idleKnown && st.cur == IDLE then 0 else 1).value;
      forall t | t in st.cpu
        ensures RecentCpu(load, st.cpu[t].recent, st.cpu[t].nice).Some?
        ensures RecentOk(RecentCpu(load, st.cpu[t].recent, st.cpu[t].nice).value, r, 0)
      {
        RecentCpuStays(load, st.cpu[t].recent, st.cpu[t].nice, r);
      }
    }
  }

  lemma {:induction false} AgeStays(st: State, r: nat)
    requires st.cur in st.cpu && st.ticks > 0 && r <= MAX_THREADS && CpuOk(st.cpu, r, (st.ticks - 1) % TIMER_FREQ)
    ensures Age(st).Some?
    ensures CpuOk(Age(st).value.cpu, r, (st.ticks - 1) % TIMER_FREQ + 1)
  {
    AgedStays(st.cpu[st.cur].recent, r, (st.ticks - 1) % TIMER_FREQ);
  }

  lemma {:induction false} SecondStaysAfterAge(st: State, r: nat)
    requires Inv(st) && st.cur in st.cpu && Age(st).Some? && |st.status| <= r <= MAX_THREADS && LoadOk(st.load, r)
    requires st.ticks > 0 && CpuOk(Age(st).value.cpu, r, (st.ticks - 1) % TIMER_FREQ + 1)
    ensures EachSecond(Age(st).value).Some?
    ensures var st' := EachSecond(Age(st).value).value; LoadOk(st'.load, r) && CpuOk(st'.cpu, r, st.ticks % TIMER_FREQ)
  {
    var st' := Age(st).value;
    assert st'.cpu.Keys == st.cpu.Keys;
    NewCpuKeepsInv(st, st'.cpu, st.load);
    SecondStays(st', r);
  }

  lemma {:induction false} FourthStays(st: State, r: nat)
    requires r <= MAX_THREADS && CpuOk(st.cpu, r, st.ticks % TIMER_FREQ)
    ensures EachFourth(st).Some?
  {
    forall t | t in st.cpu ensures Priority(st.cpu[t].recent, st.cpu[t].nice).Some? {
      PriorityStays(st.cpu[t].recent, st.cpu[t].nice, r, st.ticks % TIMER_FREQ);
    }
  }

  lemma {:induction false} TickStays(st: State, r: nat)
    requires Inv(st) && st.cur in st.cpu && SleepersAsleep(st.at, st.sleepers)
    requires |st.status| <= r <= MAX_THREADS && Bounded(st, r)
    ensures DoTick(st).Some? && Bounded(DoTick(st).value, r)
  {
    var st0 := st.(ticks := st.ticks + 1);
    WakeKeepsInv(st0, 0);
    var st1 := Wake(st0, 0);
    assert st1.status.Keys == st.status.Keys;
    assert |st1.status| == |st1.status.Keys| == |st.status|;
    if st.mlfqs {
      AgeStays(st1, r);
      SecondStaysAfterAge(st1, r);
      FourthStays(EachSecond(Age(st1).value).value, r);
    }
  }

  /** No more than `r` threads in the run so far, and nice values stay in their range. */
  ghost predicate Moderate(states: seq<State>, steps: seq<Step>, r: nat) {
    && (forall i :: 0 <= i < |states| ==> |states[i].status| <= r)
    && (forall i :: 0 <= i < |steps| ==> steps[i].SetNice? ==> NiceOk(steps[i].nice))
  }

  lemma {:induction false} StepStaysBounded(st: State, step: Step, r: nat)
    requires Inv(st) && Enabled(st, step) && Bounded(st, r) && |st.status| <= r <= MAX_THREADS
    requires step.SetNice? ==> NiceOk(step.nice)
    ensures Next(st, step).Some? && Bounded(Next(st, step).value, r)
  {
    if step.Tick? {
      TickStays(st, r);
    } else if step.SetNice? {
      PriorityStays(st.cpu[st.cur].recent, step.nice, r, Phase(st));
    } else {
      StepKeepsInv(st, step);
      OthersStayBounded(st, step, r);
    }
  }

  lemma {:induction false} SynchStepKeepsFigures(st: State, step: Step)
    requires Enabled(st, step) && Next(st, step).Some? && (IsSemaStep(step) || IsLockStep(step))
    ensures SameFigures(st, Next(st, step).value)
  {
  }

  lemma {:induction false} ThreadStepKeepsFigures(st: State, step: Step)
    requires Enabled(st, step) && Next(st, step).Some? && !IsSemaStep(step) && !IsLockStep(step)
    requires !step.Tick? && !step.SetNice? && !step.Create? && !step.Exit?
    ensures SameFigures(st, Next(st, step).value)
  {
  }

  lemma {:induction false} OthersStayBounded(st: State, step: Step, r: nat)
    requires Enabled(st, step) && Next(st, step).Some? && Bounded(st, r) && !step.Tick? && !step.SetNice?
    ensures Bounded(Next(st, step).value, r)
  {
    if IsSemaStep(step) || IsLockStep(step) {
      SynchStepKeepsFigures(st, step);
    } else if step.Create? {
      assert Bounded(DoCreate(st, step.priority), r);
    } else if step.Exit? {
      assert Bounded(st.(cpu := st.cpu - {st.cur}), r);
    } else {
      ThreadStepKeepsFigures(st, step);
    }
  }

  /** With at most 545 threads at a time and nice values in range, no step of the scheduler ever
      overflows, whatever threads are created, exit, sleep and wait: every further step is possible,
      load_avg is at most r * 2^14, and recent_cpu is within 120 * (2r + 1) * 2^14.  Of the two
      getters, thread_get_load_avg never overflows; thread_get_recent_cpu does exactly when
      recent_cpu is too large to be multiplied by 100. */
  lemma {:induction false} NeverOverflows(states: seq<State>, steps: seq<Step>, r: nat, i: nat)
    requires IsRun(states, steps) && Moderate(states, steps, r) && r <= MAX_THREADS && i < |states|
    ensures 0 <= states[i].load <= r * F
    ensures forall t :: t in states[i].cpu ==>
      -120 * (2 * r + 1) * F <= states[i].cpu[t].recent <= 120 * (2 * r + 1) * F
    ensures forall step :: Enabled(states[i], step) && (step.SetNice? ==> NiceOk(step.nice)) ==> Next(states[i], step).Some?
    ensures GetLoadAvg(states[i].load).Some?
    ensures forall t :: t in states[i].cpu ==>
      (GetRecentCpu(states[i].cpu[t].recent).Some? <==> -MAX_REPORTED <= states[i].cpu[t].recent <= MAX_REPORTED)
  {
    RunIsBounded(states, steps, r, i);
    GetLoadAvgIsSafe(states[i].load, r);
    forall t | t in states[i].cpu
      ensures GetRecentCpu(states[i].cpu[t].recent).Some? <==> -MAX_REPORTED <= states[i].cpu[t].recent <= MAX_REPORTED
    {
      GetRecentCpuIsSafe(states[i].cpu[t].recent);
    }
    RunKeepsInv(states, steps, i);
    forall step | Enabled(states[i], step) && (step.SetNice? ==> NiceOk(step.nice)) ensures Next(states[i], step).Some? {
      StepStaysBounded(states[i], step, r);
    }
  }

  lemma {:induction false} RunIsBounded(states: seq<State>, steps: seq<Step>, r: nat, i: nat)
    requires IsRun(states, steps) && Moderate(states, steps, r) && r <= MAX_THREADS && i < |states|
    ensures Bounded(states[i], r)
  {
    if i > 0 {
      RunIsBounded(states, steps, r, i - 1);
      RunKeepsInv(states, steps, i - 1);
      StepStaysBounded(states[i - 1], steps[i - 1], r);
    }
  }
}
