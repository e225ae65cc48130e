/** The kernel's threads, scheduler, semaphores and locks (threads/thread.c, threads/synch.c) as
    one state machine.  Each step is one stretch of code that runs with interrupts off, or one
    statement between two such stretches, so runs cover every interleaving of threads and timer
    interrupts.  A step yields None where the kernel would panic or overflow an integer. */
module Scheduler {
  import opened Common
  import opened FixedPoint
  import Ordered

  type Tid = int
  type SemaId = int

  const MAIN: Tid := 0
  const IDLE: Tid := 1
  const PRI_DEFAULT := 31

  datatype Status = Running | Ready | Blocked

  /** What a thread is in the middle of. */
  datatype Place =
    | Busy                              // its own code
    | Fresh                             // created, not yet unblocked by its creator
    | Asleep(until: int)                // in thread_block_with_time
    | Down(on: SemaId, locking: bool)   // in the loop of sema_down, perhaps called by lock_acquire
    | Taken(of: SemaId)                 // lock_acquire after sema_down, before setting the holder
    | Freeing(of: SemaId)               // lock_release after clearing the holder, before sema_up

  datatype Cpu = Cpu(nice: int, recent: int)

  datatype Semaphore = Semaphore(value: nat, waiters: seq<Tid>)

  datatype State = State(
    status: map<Tid, Status>,
    at: map<Tid, Place>,
    prio: map<Tid, int>,
    cpu: map<Tid, Cpu>,
    ready: seq<Tid>,
    sleepers: seq<Tid>,
    cur: Tid,
    next: Tid,                          // next thread identifier
    idleKnown: bool,                    // idle_thread has been set
    semas: map<SemaId, Semaphore>,
    holders: map<SemaId, Option<Tid>>,  // the lock around a semaphore, for those that have one
    inside: map<SemaId, set<Tid>>,      // threads between lock_acquire's return and lock_release
    load: int,
    ticks: nat,
    mlfqs: bool)

  datatype Step =
    | Create(priority: int)
    | Start(t: Tid)
    | Yield
    | Exit
    | Sleep(until: int, k: nat)
    | SetPriority(priority: int)
    | SetNice(nice: int)
    | Tick
    | IdleStart
    | IdleBlock
    | NewSema(s: SemaId, value: nat)
    | NewLock(s: SemaId)
    | SemaDown(s: SemaId)
    | SemaTry(s: SemaId)
    | SemaUp(s: SemaId)
    | Acquire(s: SemaId)
    | TryAcquire(s: SemaId)
    | Resume                            // the thread switched to goes on in sema_down's loop
    | SetHolder
    | Release(s: SemaId)
    | FinishRelease

  /** The state in which thread_start enables interrupts. */
  ghost predicate Init(st: State) {
    && st.status == map[MAIN := Running, IDLE := Ready]
    && st.at == map[MAIN := Busy, IDLE := Busy]
    && st.prio == map[MAIN := PRI_DEFAULT, IDLE := PRI_MIN]
    && st.cpu == map[MAIN := Cpu(0, 0), IDLE := Cpu(0, 0)]
    && st.ready == [IDLE] && st.sleepers == [] && st.cur == MAIN && st.next == 2 && !st.idleKnown
    && st.semas == map[] && st.holders == map[] && st.inside == map[]
    && st.load == 0 && st.ticks == 0
  }

  // ----- Queues -----

  function Prio(prio: map<Tid, int>, t: Tid): int {
    if t in prio then prio[t] else 0
  }

  /** list_compare_priority. */
  function Higher(prio: map<Tid, int>): (Tid, Tid) -> bool {
    (a, b) => Prio(prio, a) > Prio(prio, b)
  }

  function Enqueue(prio: map<Tid, int>, queue: seq<Tid>, t: Tid): seq<Tid> {
    Ordered.Insert(Higher(prio), queue, t)
  }

  // ----- Switching -----

  /** The figures that the scheduler computes with are as they were. */
  predicate SameFigures(st: State, st': State) {
    st'.load == st.load && st'.ticks == st.ticks && st'.mlfqs == st.mlfqs && st'.cpu == st.cpu
  }

  /** next_thread_to_run and schedule: None where there is no thread to switch to. */
  function Dispatch(st: State): (r: Option<State>)
    ensures r.Some? ==> SameFigures(st, r.value)
    ensures r.Some? ==> r.value == st.(status := st.status[r.value.cur := Running], ready := r.value.ready, cur := r.value.cur)
  {
    if st.ready != [] then
      Some(st.(status := st.status[st.ready[0] := Running], ready := st.ready[1..], cur := st.ready[0]))
    else if st.idleKnown then
      Some(st.(status := st.status[IDLE := Running], cur := IDLE))
    else
      None
  }

  function Unblock(st: State, t: Tid): State {
    st.(status := st.status[t := Ready], ready := Enqueue(st.prio, st.ready, t))
  }

  function Block(st: State): (r: Option<State>)
    ensures r.Some? ==> SameFigures(st, r.value)
  {
    Dispatch(st.(status := st.status[st.cur := Blocked]))
  }

  function DoYield(st: State): (r: Option<State>)
    ensures r.Some? ==> SameFigures(st, r.value)
  {
    Dispatch(
      if st.idleKnown && st.cur == IDLE then st.(status := st.status[st.cur := Ready])
      else Unblock(st, st.cur))
  }

  function DoExit(st: State): (r: Option<State>)
    ensures r.Some? ==> SameFigures(st.(cpu := st.cpu - {st.cur}), r.value)
  {
    var gone := {st.cur};
    Dispatch(st.(status := st.status - gone, at := st.at - gone, prio := st.prio - gone, cpu := st.cpu - gone))
  }

  // ----- Semaphores -----

  /** One turn of sema_down's loop. */
  function DownOn(st: State, s: SemaId, locking: bool): (r: Option<State>)
    requires s in st.semas
    ensures r.Some? ==> SameFigures(st, r.value)
  {
    if st.semas[s].value == 0 then Dispatch(Joined(st, s, locking)) else Some(Took(st, s, locking))
  }

  /** The running thread joins the waiters of `s` and blocks. */
  function Joined(st: State, s: SemaId, locking: bool): State
    requires s in st.semas
  {
    var sema := st.semas[s];
    st.(semas := st.semas[s := sema.(waiters := Enqueue(st.prio, sema.waiters, st.cur))],
        at := st.at[st.cur := Down(s, locking)], status := st.status[st.cur := Blocked])
  }

  function Took(st: State, s: SemaId, locking: bool): State
    requires s in st.semas && st.semas[s].value > 0
  {
    var sema := st.semas[s];
    st.(semas := st.semas[s := sema.(value := sema.value - 1)],
        at := st.at[st.cur := if locking then Taken(s) else Busy])
  }

  /** The semaphore's value goes up, and its first waiter leaves the list. */
  function Raised(semas: map<SemaId, Semaphore>, s: SemaId): (r: map<SemaId, Semaphore>)
    requires s in semas
    ensures r.Keys == semas.Keys
    ensures forall t :: t in semas ==> r[t].value == semas[t].value + if t == s then 1 else 0
  {
    semas[s := Semaphore(semas[s].value + 1, if semas[s].waiters == [] then [] else semas[s].waiters[1..])]
  }

  function UpOn(st: State, s: SemaId): (r: State)
    requires s in st.semas
    ensures SameFigures(st, r) && r.at == st.at && r.holders == st.holders && r.inside == st.inside
    ensures r.semas == Raised(st.semas, s) && r.cur == st.cur && r.prio == st.prio
    ensures r.status == if st.semas[s].waiters == [] then st.status else st.status[st.semas[s].waiters[0] := Ready]
  {
    var waiters, semas := st.semas[s].waiters, Raised(st.semas, s);
    if waiters == [] then st.(semas := semas) else Unblock(st, waiters[0]).(semas := semas)
  }

  // ----- The timer interrupt -----

  predicate SleepersAsleep(at: map<Tid, Place>, sleepers: seq<Tid>) {
    && (forall t :: t in sleepers ==> t in at && at[t].Asleep?)
    && (forall t :: t in sleepers ==> multiset(sleepers)[t] == 1)
  }

  lemma {:induction false} WithoutOne<T>(s: seq<T>, i: nat)
    requires i < |s|
    ensures multiset(s[..i] + s[i + 1..]) == multiset(s) - multiset{s[i]}
  {
    assert s == s[..i] + [s[i]] + s[i + 1..];
  }

  /** Sleeper `i` is unblocked. */
  function Woken(st: State, i: nat): (r: State)
    requires i < |st.sleepers| && SleepersAsleep(st.at, st.sleepers)
    ensures SleepersAsleep(r.at, r.sleepers) && |r.sleepers| == |st.sleepers| - 1
    ensures r.cur == st.cur && SameFigures(st, r)
  {
    var t := st.sleepers[i];
    WithoutOne(st.sleepers, i);
    Unblock(st, t).(at := st.at[t := Busy], sleepers := st.sleepers[..i] + st.sleepers[i + 1..])
  }

  /** block_check's loop, from sleeper `i` on. */
  function Wake(st: State, i: nat): (r: State)
    requires i <= |st.sleepers| && SleepersAsleep(st.at, st.sleepers)
    ensures r.cur == st.cur && SameFigures(st, r)
    decreases |st.sleepers| - i
  {
    if i == |st.sleepers| then st
    else
      var t := st.sleepers[i];
      if st.at[t].until <= st.ticks then Wake(Woken(st, i), i) else Wake(st, i + 1)
  }

  function DecayAll(load: int, cpu: map<Tid, Cpu>): Option<map<Tid, Cpu>> {
    if forall t :: t in cpu ==> RecentCpu(load, cpu[t].recent, cpu[t].nice).Some? then
      Some(map t | t in cpu :: Cpu(cpu[t].nice, RecentCpu(load, cpu[t].recent, cpu[t].nice).value))
    else None
  }

  function PrioritiesOf(cpu: map<Tid, Cpu>): Option<map<Tid, int>> {
    if forall t :: t in cpu ==> Priority(cpu[t].recent, cpu[t].nice).Some? then
      Some(map t | t in cpu :: Priority(cpu[t].recent, cpu[t].nice).value)
    else None
  }

  function Age(st: State): Option<State>
    requires st.cur in st.cpu
  {
    var recent :- Aged(st.cpu[st.cur].recent);
    Some(st.(cpu := st.cpu[st.cur := st.cpu[st.cur].(recent := recent)]))
  }

  function EachSecond(st: State): Option<State> {
    if st.ticks % TIMER_FREQ != 0 then Some(st)
    else
      var running := if st.idleKnown && st.cur == IDLE then 0 else 1;
      var load :- LoadAvg(st.load, |st.ready| + running);
      var cpu :- DecayAll(load, st.cpu);
      Some(st.(load := load, cpu := cpu))
  }

  function EachFourth(st: State): Option<State> {
    if st.ticks % 4 != 0 then Some(st)
    else
      var prio :- PrioritiesOf(st.cpu);
      Some(st.(prio := prio, ready := Ordered.Sort(Higher(prio), st.ready)))
  }

  /** thread_tick after the clock has advanced. */
  function DoTick(st: State): Option<State>
    requires st.cur in st.cpu && SleepersAsleep(st.at, st.sleepers)
  {
    var st1 := Wake(st.(ticks := st.ticks + 1), 0);
    if !st.mlfqs then Some(st1)
    else
      var st2 :- Age(st1);
      var st3 :- EachSecond(st2);
      EachFourth(st3)
  }

  // ----- Steps -----

  /** A running thread runs its own code, and is not the idle thread. */
  predicate Free(st: State) {
    st.cur in st.at && st.at[st.cur] == Busy && st.cur != IDLE
  }

  predicate Interruptible(st: State) {
    st.cur in st.at && !st.at[st.cur].Down?
  }

  predicate IsSema(st: State, s: SemaId) {
    s in st.semas && s !in st.holders
  }

  predicate IsLock(st: State, s: SemaId) {
    s in st.semas && s in st.holders && s in st.inside
  }

  predicate Enabled(st: State, step: Step) {
    match step
    case Create(p) => Free(st) && PRI_MIN <= p <= PRI_MAX && st.cur in st.cpu
    case Start(t) => Free(st) && t in st.at && t in st.status && st.at[t] == Fresh
    case Yield => Interruptible(st)
    case Exit => Free(st)
    case Sleep(_, k) => Free(st) && k <= |st.sleepers|
    case SetPriority(_) => Free(st)
    case SetNice(_) => Free(st) && st.cur in st.cpu
    case Tick => Interruptible(st) && st.cur in st.cpu && SleepersAsleep(st.at, st.sleepers)
    case IdleStart => st.cur == IDLE && !st.idleKnown
    case IdleBlock => st.cur == IDLE && st.idleKnown
    case NewSema(s, _) => Free(st) && s !in st.semas
    case NewLock(s) => Free(st) && s !in st.semas
    case SemaDown(s) => Free(st) && IsSema(st, s)
    case SemaTry(s) => Interruptible(st) && IsSema(st, s)
    case SemaUp(s) => Interruptible(st) && IsSema(st, s)
    case Acquire(s) => Free(st) && IsLock(st, s) && st.holders[s] != Some(st.cur)
    case TryAcquire(s) => Free(st) && IsLock(st, s) && st.holders[s] != Some(st.cur)
    case Resume => st.cur in st.at && st.at[st.cur].Down? && st.at[st.cur].on in st.semas
    case SetHolder => st.cur in st.at && st.at[st.cur].Taken? && st.at[st.cur].of in st.inside
    case Release(s) => Free(st) && IsLock(st, s) && st.holders[s] == Some(st.cur)
    case FinishRelease => st.cur in st.at && st.at[st.cur].Freeing? && st.at[st.cur].of in st.semas
  }

  function DoCreate(st: State, priority: int): State
    requires st.cur in st.cpu
  {
    st.(next := st.next + 1,
        status := st.status[st.next := Blocked], at := st.at[st.next := Fresh],
        prio := st.prio[st.next := priority], cpu := st.cpu[st.next := st.cpu[st.cur]])
  }

  function DoSleep(st: State, until: int, k: nat): (r: Option<State>)
    requires k <= |st.sleepers|
    ensures r.Some? ==> SameFigures(st, r.value)
  {
    Block(st.(at := st.at[st.cur := Asleep(until)],
              sleepers := st.sleepers[..k] + [st.cur] + st.sleepers[k..]))
  }

  function DoSetNice(st: State, nice: int): Option<State>
    requires st.cur in st.cpu
  {
    var p :- Priority(st.cpu[st.cur].recent, nice);
    Some(st.(prio := st.prio[st.cur := p], cpu := st.cpu[st.cur := st.cpu[st.cur].(nice := nice)]))
  }

  function DoTry(st: State, s: SemaId): (r: State)
    requires s in st.semas
    ensures SameFigures(st, r)
  {
    var v := st.semas[s].value;
    if v == 0 then st else st.(semas := st.semas[s := st.semas[s].(value := v - 1)])
  }

  function DoNewLock(st: State, s: SemaId): State {
    st.(semas := st.semas[s := Semaphore(1, [])], holders := st.holders[s := None], inside := st.inside[s := {}])
  }

  function DoSetHolder(st: State, l: SemaId): State
    requires l in st.inside
  {
    st.(at := st.at[st.cur := Busy], holders := st.holders[l := Some(st.cur)],
        inside := st.inside[l := st.inside[l] + {st.cur}])
  }

  function DoRelease(st: State, l: SemaId): State
    requires l in st.inside
  {
    st.(at := st.at[st.cur := Freeing(l)], holders := st.holders[l := None],
        inside := st.inside[l := st.inside[l] - {st.cur}])
  }

  function Next(st: State, step: Step): Option<State>
    requires Enabled(st, step)
  {
    match step
    case Create(p) => Some(DoCreate(st, p))
    case Start(t) => Some(Unblock(st.(at := st.at[t := Busy]), t))
    case Yield => DoYield(st)
    case Exit => DoExit(st)
    case Sleep(until, k) => DoSleep(st, until, k)
    case SetPriority(p) => Some(st.(prio := st.prio[st.cur := p]))
    case SetNice(n) => DoSetNice(st, n)
    case Tick => DoTick(st)
    case IdleStart => Some(st.(idleKnown := true))
    case IdleBlock => Block(st)
    case NewSema(s, v) => Some(st.(semas := st.semas[s := Semaphore(v, [])]))
    case NewLock(s) => Some(DoNewLock(st, s))
    case SemaDown(s) => DownOn(st, s, false)
    case SemaTry(s) => Some(DoTry(st, s))
    case SemaUp(s) => Some(UpOn(st, s))
    case Acquire(s) => DownOn(st, s, true)
    case TryAcquire(s) => Some(if st.semas[s].value == 0 then st else Took(st, s, true))
    case Resume => DownOn(st, st.at[st.cur].on, st.at[st.cur].locking)
    case SetHolder => Some(DoSetHolder(st, st.at[st.cur].of))
    case Release(s) => Some(DoRelease(st, s))
    case FinishRelease => Some(UpOn(st.(at := st.at[st.cur := Busy]), st.at[st.cur].of))
  }
}
