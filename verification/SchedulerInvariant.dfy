/** What every step of the scheduler and of the synchronisation primitives keeps. */
module SchedulerInvariant {
  import opened Common
  import opened FixedPoint
  import opened Scheduler
  import Ordered

  // ----- The ready list -----

  /** `t` belongs on the ready list: READY, and not the idle thread. */
  predicate Queued(status: map<Tid, Status>, known: bool, t: Tid) {
    t in status && status[t] == Ready && !(known && t == IDLE)
  }

  /** The ready list holds exactly the threads that belong on it, once each. */
  ghost predicate ReadyOk(status: map<Tid, Status>, ready: seq<Tid>, known: bool) {
    forall t: Tid :: multiset(ready)[t] == if Queued(status, known, t) then 1 else 0
  }

  /** Non-increasing priority. */
  ghost predicate Descending(prio: map<Tid, int>, queue: seq<Tid>) {
    Ordered.SortedBy(Higher(prio), queue)
  }

  ghost predicate QueueInv(status: map<Tid, Status>, ready: seq<Tid>, prio: map<Tid, int>, known: bool) {
    ReadyOk(status, ready, known) && Descending(prio, ready)
  }

  ghost predicate CurOk(status: map<Tid, Status>, cur: Tid) {
    cur in status && forall t :: t in status ==> (status[t] == Running <==> t == cur)
  }

  ghost predicate KeysOk(status: set<Tid>, at: set<Tid>, prio: set<Tid>, cpu: set<Tid>, next: Tid) {
    status == at == prio == cpu && (forall t :: t in status ==> 0 <= t < next) && IDLE in status
  }

  /** The idle thread never sleeps in anybody else's queue, and does not block before it is known. */
  ghost predicate IdleOk(status: map<Tid, Status>, at: map<Tid, Place>, known: bool) {
    IDLE in status && IDLE in at && at[IDLE] == Busy && (known || status[IDLE] != Blocked)
  }

  // ----- Waiting -----

  ghost predicate PlaceOk(status: map<Tid, Status>, at: map<Tid, Place>) {
    forall t :: t in at && t in status ==>
      && (status[t] == Blocked ==> !at[t].Taken? && !at[t].Freeing? && (at[t].Busy? ==> t == IDLE))
      && (at[t].Fresh? || at[t].Asleep? ==> status[t] == Blocked)
  }

  ghost predicate SleepOk(at: map<Tid, Place>, sleepers: seq<Tid>) {
    forall t: Tid :: multiset(sleepers)[t] == if t in at && at[t].Asleep? then 1 else 0
  }

  predicate DownIn(at: map<Tid, Place>, t: Tid, s: SemaId) {
    t in at && at[t].Down? && at[t].on == s
  }

  predicate Waits(status: map<Tid, Status>, at: map<Tid, Place>, t: Tid, s: SemaId) {
    DownIn(at, t, s) && t in status && status[t] == Blocked
  }

  ghost predicate WaitersOk(status: map<Tid, Status>, at: map<Tid, Place>, s: SemaId, waiters: seq<Tid>) {
    forall t: Tid :: multiset(waiters)[t] == if Waits(status, at, t, s) then 1 else 0
  }

  /** A semaphore's list holds exactly the threads blocked in its sema_down, once each. */
  ghost predicate WaitOk(status: map<Tid, Status>, at: map<Tid, Place>, semas: map<SemaId, Semaphore>) {
    forall s :: s in semas ==> WaitersOk(status, at, s, semas[s].waiters)
  }

  /** Threads woken from `s` that have not yet looked at its value again. */
  ghost function Roused(status: map<Tid, Status>, at: map<Tid, Place>, s: SemaId): set<Tid> {
    set t | t in at && DownIn(at, t, s) && t in status && status[t] != Blocked
  }

  ghost predicate NotLost(status: map<Tid, Status>, at: map<Tid, Place>, s: SemaId, sema: Semaphore) {
    sema.waiters != [] ==> sema.value <= |Roused(status, at, s)|
  }

  /** No wakeup is lost. */
  ghost predicate WakeOk(status: map<Tid, Status>, at: map<Tid, Place>, semas: map<SemaId, Semaphore>) {
    forall s :: s in semas ==> NotLost(status, at, s, semas[s])
  }

  // ----- Locks -----

  ghost predicate NameOk(at: map<Tid, Place>, semas: set<SemaId>, holders: set<SemaId>) {
    && holders <= semas
    && (forall t :: t in at && at[t].Down? ==> at[t].on in semas && (at[t].locking <==> at[t].on in holders))
    && (forall t :: t in at && (at[t].Taken? || at[t].Freeing?) ==> at[t].of in holders)
  }

  predicate AtEdge(at: map<Tid, Place>, t: Tid, l: SemaId) {
    t in at && (at[t] == Taken(l) || at[t] == Freeing(l))
  }

  ghost function Edge(at: map<Tid, Place>, l: SemaId): set<Tid> {
    set t | t in at && AtEdge(at, t, l)
  }

  /** A lock's semaphore is taken by at most one thread: one of `edge`, which is on its way in or
      out, or one of `inside`, which is past lock_acquire and is the lock's holder. */
  ghost predicate OneOwner(edge: set<Tid>, value: nat, holder: Option<Tid>, inside: set<Tid>) {
    && |edge| + |inside| + value == 1
    && inside == if holder.Some? then {holder.value} else {}
  }

  ghost predicate LockOk(at: map<Tid, Place>, semas: map<SemaId, Semaphore>, holders: map<SemaId, Option<Tid>>,
                         inside: map<SemaId, set<Tid>>)
  {
    forall l :: l in holders ==>
      l in semas && l in inside && OneOwner(Edge(at, l), semas[l].value, holders[l], inside[l])
  }

  // ----- The invariant -----

  ghost predicate RunInv(st: State) {
    && KeysOk(st.status.Keys, st.at.Keys, st.prio.Keys, st.cpu.Keys, st.next)
    && CurOk(st.status, st.cur)
    && QueueInv(st.status, st.ready, st.prio, st.idleKnown)
    && IdleOk(st.status, st.at, st.idleKnown)
  }

  ghost predicate SyncInv(st: State) {
    && PlaceOk(st.status, st.at)
    && SleepOk(st.at, st.sleepers)
    && WaitOk(st.status, st.at, st.semas)
    && WakeOk(st.status, st.at, st.semas)
    && NameOk(st.at, st.semas.Keys, st.holders.Keys)
    && LockOk(st.at, st.semas, st.holders, st.inside)
  }

  ghost predicate Inv(st: State) {
    RunInv(st) && SyncInv(st)
  }

  lemma {:induction false} InitIsInv(st: State)
    requires Init(st)
    ensures Inv(st)
  {
  }

  // ----- Queues -----

  lemma {:induction false} HigherIsOrder(prio: map<Tid, int>)
    ensures Ordered.StrictWeak(Higher(prio))
  {
  }

  lemma {:induction false} EnqueueKeeps(status: map<Tid, Status>, ready: seq<Tid>, prio: map<Tid, int>, known: bool, t: Tid)
    requires QueueInv(status, ready, prio, known) && !Queued(status, known, t) && !(known && t == IDLE)
    ensures QueueInv(status[t := Ready], Enqueue(prio, ready, t), prio, known)
  {
    HigherIsOrder(prio);
    Ordered.InsertSorts(Higher(prio), ready, t);
    Ordered.InsertAdds(Higher(prio), ready, t);
  }

  lemma {:induction false} PopFront<T>(s: seq<T>)
    requires s != []
    ensures multiset(s[1..]) == multiset(s) - multiset{s[0]}
  {
    assert s == [s[0]] + s[1..];
  }

  lemma {:induction false} FrontIsQueued(status: map<Tid, Status>, ready: seq<Tid>, known: bool)
    requires ReadyOk(status, ready, known) && ready != []
    ensures Queued(status, known, ready[0])
  {
    assert ready[0] in multiset(ready);
  }

  lemma {:induction false} FrontLeaves(status: map<Tid, Status>, ready: seq<Tid>, prio: map<Tid, int>, known: bool)
    requires QueueInv(status, ready, prio, known) && ready != []
    ensures QueueInv(status[ready[0] := Running], ready[1..], prio, known)
  {
    FrontIsQueued(status, ready, known);
    PopFront(ready);
  }

  lemma {:induction false} FrontIsMostUrgent(status: map<Tid, Status>, ready: seq<Tid>, prio: map<Tid, int>, known: bool)
    requires QueueInv(status, ready, prio, known) && ready != []
    ensures forall t :: Queued(status, known, t) ==> Prio(prio, t) <= Prio(prio, ready[0])
  {
    forall t | Queued(status, known, t) ensures Prio(prio, t) <= Prio(prio, ready[0]) {
      assert multiset(ready)[t] == 1;
      assert t in ready;
    }
  }

  /** What a switch leaves: nobody that belongs on the ready list is more urgent than the
      running thread, and the idle thread runs only when that list is empty. */
  ghost predicate MostUrgent(st: State) {
    && (forall t :: Queued(st.status, st.idleKnown, t) ==> Prio(st.prio, t) <= Prio(st.prio, st.cur))
    && (st.idleKnown && st.cur == IDLE ==> st.ready == [])
  }

  /** Switching wakes and blocks nobody, except that the idle thread may go on. */
  ghost predicate SameBlocked(status: map<Tid, Status>, status': map<Tid, Status>) {
    && status'.Keys == status.Keys
    && (forall t :: t in status && t != IDLE ==> (status'[t] == Blocked <==> status[t] == Blocked))
    && (IDLE in status && status'[IDLE] == Blocked ==> status[IDLE] == Blocked)
  }

  /** The running thread has left the CPU, and there is a thread to switch to. */
  ghost predicate Switching(st: State) {
    && QueueInv(st.status, st.ready, st.prio, st.idleKnown)
    && IDLE in st.status && (st.idleKnown || st.status[IDLE] == Ready)
    && (forall t :: t in st.status ==> st.status[t] != Running)
  }

  lemma {:induction false} SwitchHasNext(st: State)
    requires Switching(st)
    ensures st.idleKnown || st.ready != []
  {
    if !st.idleKnown {
      assert Queued(st.status, st.idleKnown, IDLE);
      assert multiset(st.ready)[IDLE] == 1;
    }
  }

  lemma {:induction false} DispatchKeeps(st: State)
    requires Switching(st)
    ensures Dispatch(st).Some?
    ensures var r := Dispatch(st).value; QueueInv(r.status, r.ready, r.prio, r.idleKnown)
  {
    SwitchHasNext(st);
    if st.ready != [] {
      FrontLeaves(st.status, st.ready, st.prio, st.idleKnown);
    } else {
      assert forall t :: Queued(st.status[IDLE := Running], true, t) <==> Queued(st.status, true, t);
    }
  }

  lemma {:induction false} DispatchRunsOne(st: State)
    requires Switching(st) && Dispatch(st).Some?
    ensures var r := Dispatch(st).value; CurOk(r.status, r.cur) && SameBlocked(st.status, r.status)
  {
    if st.ready != [] {
      FrontIsQueued(st.status, st.ready, st.idleKnown);
    }
  }

  lemma {:induction false} EmptyMeansNone(status: map<Tid, Status>, known: bool)
    requires ReadyOk(status, [], known)
    ensures forall t :: !Queued(status, known, t)
  {
    forall t: Tid ensures !Queued(status, known, t) {
      assert multiset([])[t] == 0;
    }
  }

  lemma {:induction false} DispatchIsMostUrgent(st: State)
    requires Switching(st) && Dispatch(st).Some?
    ensures MostUrgent(Dispatch(st).value)
  {
    if st.ready != [] {
      FrontIsMostUrgent(st.status, st.ready, st.prio, st.idleKnown);
      FrontIsQueued(st.status, st.ready, st.idleKnown);
    } else {
      EmptyMeansNone(st.status, st.idleKnown);
      var r := Dispatch(st).value;
      assert r.status == st.status[IDLE := Running] && r.idleKnown;
      assert forall t :: Queued(r.status, r.idleKnown, t) ==> Queued(st.status, st.idleKnown, t);
    }
  }

  // ----- Switching leaves the waiting threads alone -----

  lemma {:induction false} SwitchKeepsPlaces(status: map<Tid, Status>, status': map<Tid, Status>, at: map<Tid, Place>)
    requires PlaceOk(status, at) && SameBlocked(status, status') && IDLE in at && at[IDLE] == Busy
    ensures PlaceOk(status', at)
  {
  }

  lemma {:induction false} SwitchKeepsWaits(status: map<Tid, Status>, status': map<Tid, Status>, at: map<Tid, Place>,
                                            semas: map<SemaId, Semaphore>)
    requires WaitOk(status, at, semas) && SameBlocked(status, status') && IDLE in at && at[IDLE] == Busy
    ensures WaitOk(status', at, semas)
  {
    forall s | s in semas ensures WaitersOk(status', at, s, semas[s].waiters) {
      assert WaitersOk(status, at, s, semas[s].waiters);
      assert forall t :: Waits(status, at, t, s) <==> Waits(status', at, t, s);
    }
  }

  lemma {:induction false} SwitchKeepsWakes(status: map<Tid, Status>, status': map<Tid, Status>, at: map<Tid, Place>,
                                            semas: map<SemaId, Semaphore>)
    requires WakeOk(status, at, semas) && SameBlocked(status, status') && IDLE in at && at[IDLE] == Busy
    ensures WakeOk(status', at, semas)
  {
    forall s | s in semas ensures NotLost(status', at, s, semas[s]) {
      assert NotLost(status, at, s, semas[s]);
      assert Roused(status', at, s) == Roused(status, at, s);
    }
  }

  /** Everything but who runs; this is what a switch starts from. */
  ghost predicate AboutToSwitch(st: State) {
    && KeysOk(st.status.Keys, st.at.Keys, st.prio.Keys, st.cpu.Keys, st.next)
    && Switching(st) && IdleIsBusy(st.at) && SyncInv(st)
  }

  ghost predicate IdleIsBusy(at: map<Tid, Place>) {
    IDLE in at && at[IDLE] == Busy
  }

  lemma {:induction false} DispatchKeepsInv(st: State)
    requires AboutToSwitch(st)
    ensures Dispatch(st).Some? && Inv(Dispatch(st).value) && MostUrgent(Dispatch(st).value)
  {
    DispatchKeeps(st);
    DispatchRunsOne(st);
    DispatchIsMostUrgent(st);
    var r := Dispatch(st).value;
    SwitchKeepsPlaces(st.status, r.status, st.at);
    SwitchKeepsWaits(st.status, r.status, st.at, st.semas);
    SwitchKeepsWakes(st.status, r.status, st.at, st.semas);
  }
}
