/** Every step keeps the scheduler's invariant, one lemma for each thing that a step changes. */
module SchedulerSteps {
  import opened Common
  import opened FixedPoint
  import opened Scheduler
  import opened SchedulerInvariant
  import Ordered

  // ----- A thread moves, and no semaphore changes -----

  predicate NotDown(at: map<Tid, Place>, t: Tid) {
    t in at ==> !at[t].Down?
  }

  predicate NotEdge(at: map<Tid, Place>, t: Tid) {
    t in at ==> !at[t].Taken? && !at[t].Freeing?
  }

  lemma {:induction false} MoveKeepsWaits(status: map<Tid, Status>, at: map<Tid, Place>, semas: map<SemaId, Semaphore>,
                                          t: Tid, status': Status, p: Place)
    requires WaitOk(status, at, semas) && NotDown(at, t) && !p.Down?
    ensures WaitOk(status[t := status'], at[t := p], semas)
  {
    forall s | s in semas ensures WaitersOk(status[t := status'], at[t := p], s, semas[s].waiters) {
      assert WaitersOk(status, at, s, semas[s].waiters);
      assert forall u :: Waits(status[t := status'], at[t := p], u, s) <==> Waits(status, at, u, s);
    }
  }

  lemma {:induction false} MoveKeepsWakes(status: map<Tid, Status>, at: map<Tid, Place>, semas: map<SemaId, Semaphore>,
                                          t: Tid, status': Status, p: Place)
    requires WakeOk(status, at, semas) && NotDown(at, t) && !p.Down?
    ensures WakeOk(status[t := status'], at[t := p], semas)
  {
    forall s | s in semas ensures NotLost(status[t := status'], at[t := p], s, semas[s]) {
      assert NotLost(status, at, s, semas[s]);
      assert Roused(status[t := status'], at[t := p], s) == Roused(status, at, s);
    }
  }

  lemma {:induction false} SameOwnersKeepsLocks(at: map<Tid, Place>, at': map<Tid, Place>, semas: map<SemaId, Semaphore>,
                                                semas': map<SemaId, Semaphore>, holders: map<SemaId, Option<Tid>>,
                                                inside: map<SemaId, set<Tid>>)
    requires LockOk(at, semas, holders, inside)
    requires forall l :: l in holders ==> l in semas' && semas'[l].value == semas[l].value
    requires forall l :: l in holders ==> Edge(at', l) == Edge(at, l)
    ensures LockOk(at', semas', holders, inside)
  {
  }

  lemma {:induction false} OffEdge(at: map<Tid, Place>, t: Tid, p: Place, l: SemaId)
    requires NotEdge(at, t) && !p.Taken? && !p.Freeing?
    ensures Edge(at[t := p], l) == Edge(at, l)
  {
  }

  lemma {:induction false} MoveKeepsNames(at: map<Tid, Place>, semas: set<SemaId>, holders: set<SemaId>, t: Tid, p: Place)
    requires NameOk(at, semas, holders)
    requires p.Down? ==> p.on in semas && (p.locking <==> p.on in holders)
    requires p.Taken? || p.Freeing? ==> p.of in holders
    ensures NameOk(at[t := p], semas, holders)
  {
  }

  /** The moves of a thread that has nothing to do with semaphores and locks. */
  lemma {:induction false} MoveKeepsSync(st: State, t: Tid, status': Status, p: Place, sleepers: seq<Tid>)
    requires SyncInv(st) && NotDown(st.at, t) && NotEdge(st.at, t) && !p.Down? && !p.Taken? && !p.Freeing?
    requires PlaceOk(st.status[t := status'], st.at[t := p]) && SleepOk(st.at[t := p], sleepers)
    ensures SyncInv(st.(status := st.status[t := status'], at := st.at[t := p], sleepers := sleepers))
  {
    MoveKeepsWaits(st.status, st.at, st.semas, t, status', p);
    MoveKeepsWakes(st.status, st.at, st.semas, t, status', p);
    forall l ensures Edge(st.at[t := p], l) == Edge(st.at, l) {
      OffEdge(st.at, t, p, l);
    }
    SameOwnersKeepsLocks(st.at, st.at[t := p], st.semas, st.semas, st.holders, st.inside);
    MoveKeepsNames(st.at, st.semas.Keys, st.holders.Keys, t, p);
  }

  lemma {:induction false} StayKeepsSleep(at: map<Tid, Place>, sleepers: seq<Tid>, t: Tid, p: Place)
    requires SleepOk(at, sleepers) && (t in at ==> !at[t].Asleep?) && !p.Asleep?
    ensures SleepOk(at[t := p], sleepers)
  {
  }

  // ----- Leaving the CPU -----

  /** The running thread gives up the CPU with status `status'`, and is not put on the ready list. */
  lemma {:induction false} LeaveKeepsQueue(st: State, status': Status)
    requires RunInv(st) && status' != Running && !Queued(st.status[st.cur := status'], st.idleKnown, st.cur)
    requires st.cur == IDLE ==> st.idleKnown
    ensures Switching(st.(status := st.status[st.cur := status']))
  {
    assert forall t :: Queued(st.status[st.cur := status'], st.idleKnown, t) <==> Queued(st.status, st.idleKnown, t);
  }

  lemma {:induction false} RequeueKeepsQueue(st: State)
    requires RunInv(st) && !(st.idleKnown && st.cur == IDLE)
    ensures Switching(Unblock(st, st.cur))
  {
    EnqueueKeeps(st.status, st.ready, st.prio, st.idleKnown, st.cur);
  }

  lemma {:induction false} YieldKeepsInv(st: State)
    requires Inv(st) && Interruptible(st)
    ensures DoYield(st).Some? && Inv(DoYield(st).value) && MostUrgent(DoYield(st).value)
  {
    var status' := st.status[st.cur := Ready];
    var st' := if st.idleKnown && st.cur == IDLE then st.(status := status') else Unblock(st, st.cur);
    if st.idleKnown && st.cur == IDLE {
      LeaveKeepsQueue(st, Ready);
    } else {
      RequeueKeepsQueue(st);
    }
    SwitchKeepsPlaces(st.status, status', st.at);
    SwitchKeepsWaits(st.status, status', st.at, st.semas);
    SwitchKeepsWakes(st.status, status', st.at, st.semas);
    assert status'.Keys == st.status.Keys;
    DispatchKeepsInv(st');
  }

  lemma {:induction false} SleeperAdded(at: map<Tid, Place>, sleepers: seq<Tid>, t: Tid, until: int, k: nat)
    requires SleepOk(at, sleepers) && (t in at ==> !at[t].Asleep?) && k <= |sleepers|
    ensures SleepOk(at[t := Asleep(until)], sleepers[..k] + [t] + sleepers[k..])
  {
    assert sleepers == sleepers[..k] + sleepers[k..];
    assert multiset(sleepers[..k] + [t] + sleepers[k..]) == multiset(sleepers) + multiset{t};
  }

  lemma {:induction false} SleepKeepsInv(st: State, until: int, k: nat)
    requires Inv(st) && Free(st) && k <= |st.sleepers|
    ensures DoSleep(st, until, k).Some? && Inv(DoSleep(st, until, k).value) && MostUrgent(DoSleep(st, until, k).value)
  {
    var p := Asleep(until);
    var sleepers := st.sleepers[..k] + [st.cur] + st.sleepers[k..];
    SleeperAdded(st.at, st.sleepers, st.cur, until, k);
    LeaveKeepsQueue(st, Blocked);
    MoveKeepsSync(st, st.cur, Blocked, p, sleepers);
    var st' := st.(status := st.status[st.cur := Blocked], at := st.at[st.cur := p], sleepers := sleepers);
    assert st'.status.Keys == st.status.Keys && st'.at.Keys == st.at.Keys;
    DispatchKeepsInv(st');
  }

  lemma {:induction false} IdleBlockKeepsInv(st: State)
    requires Inv(st) && Enabled(st, IdleBlock)
    ensures Block(st).Some? && Inv(Block(st).value) && MostUrgent(Block(st).value)
  {
    LeaveKeepsQueue(st, Blocked);
    assert st.at == st.at[IDLE := Busy];
    MoveKeepsSync(st, IDLE, Blocked, Busy, st.sleepers);
    var st' := st.(status := st.status[st.cur := Blocked]);
    assert st'.status.Keys == st.status.Keys;
    DispatchKeepsInv(st');
  }

  // ----- Exit -----

  lemma {:induction false} ExitKeepsSync(st: State)
    requires Inv(st) && Free(st)
    ensures SyncInv(st.(status := st.status - {st.cur}, at := st.at - {st.cur}, prio := st.prio - {st.cur},
                        cpu := st.cpu - {st.cur}))
  {
    var status, at := st.status - {st.cur}, st.at - {st.cur};
    forall s | s in st.semas
      ensures WaitersOk(status, at, s, st.semas[s].waiters) && NotLost(status, at, s, st.semas[s])
    {
      assert WaitersOk(st.status, st.at, s, st.semas[s].waiters) && NotLost(st.status, st.at, s, st.semas[s]);
      assert forall t :: Waits(status, at, t, s) <==> Waits(st.status, st.at, t, s);
      assert Roused(status, at, s) == Roused(st.status, st.at, s);
    }
    forall l ensures Edge(at, l) == Edge(st.at, l) {
      assert forall t :: AtEdge(at, t, l) <==> AtEdge(st.at, t, l);
    }
    SameOwnersKeepsLocks(st.at, at, st.semas, st.semas, st.holders, st.inside);
  }

  lemma {:induction false} ExitKeepsQueue(st: State)
    requires RunInv(st) && st.cur != IDLE
    ensures Switching(st.(status := st.status - {st.cur}, at := st.at - {st.cur}, prio := st.prio - {st.cur},
                          cpu := st.cpu - {st.cur}))
  {
    var status := st.status - {st.cur};
    assert forall t :: Queued(status, st.idleKnown, t) <==> Queued(st.status, st.idleKnown, t);
    assert multiset(st.ready)[st.cur] == 0;
    assert st.cur !in st.ready;
    forall t | t in st.ready ensures Prio(st.prio - {st.cur}, t) == Prio(st.prio, t) {
    }
  }

  lemma {:induction false} ExitKeepsInv(st: State)
    requires Inv(st) && Free(st)
    ensures DoExit(st).Some? && Inv(DoExit(st).value) && MostUrgent(DoExit(st).value)
  {
    ExitKeepsSync(st);
    ExitKeepsQueue(st);
    DispatchKeepsInv(st.(status := st.status - {st.cur}, at := st.at - {st.cur}, prio := st.prio - {st.cur},
                         cpu := st.cpu - {st.cur}));
  }

  // ----- sema_down -----

  /** The running thread is about to look at semaphore `s`. */
  ghost predicate Looking(st: State, s: SemaId, locking: bool) {
    && s in st.semas && st.cur in st.at && st.cur != IDLE
    && (st.at[st.cur] == Busy || st.at[st.cur] == Down(s, locking))
    && (locking <==> s in st.holders)
  }

  lemma {:induction false} JoinKeepsWaits(status: map<Tid, Status>, at: map<Tid, Place>, semas: map<SemaId, Semaphore>,
                                          prio: map<Tid, int>, t: Tid, s: SemaId, locking: bool)
    requires WaitOk(status, at, semas) && s in semas && t in status && status[t] == Running
    ensures WaitOk(status[t := Blocked], at[t := Down(s, locking)],
                   semas[s := semas[s].(waiters := Enqueue(prio, semas[s].waiters, t))])
  {
    var status', at' := status[t := Blocked], at[t := Down(s, locking)];
    var semas' := semas[s := semas[s].(waiters := Enqueue(prio, semas[s].waiters, t))];
    Ordered.InsertAdds(Higher(prio), semas[s].waiters, t);
    forall r | r in semas' ensures WaitersOk(status', at', r, semas'[r].waiters) {
      assert WaitersOk(status, at, r, semas[r].waiters);
      assert forall u :: Waits(status', at', u, r) <==> Waits(status, at, u, r) || (u == t && r == s);
    }
  }

  lemma {:induction false} JoinKeepsWakes(status: map<Tid, Status>, at: map<Tid, Place>, semas: map<SemaId, Semaphore>,
                                          prio: map<Tid, int>, t: Tid, s: SemaId, locking: bool)
    requires WakeOk(status, at, semas) && s in semas && semas[s].value == 0
    requires t in at && (at[t] == Busy || at[t] == Down(s, locking))
    ensures WakeOk(status[t := Blocked], at[t := Down(s, locking)],
                   semas[s := semas[s].(waiters := Enqueue(prio, semas[s].waiters, t))])
  {
    var status', at' := status[t := Blocked], at[t := Down(s, locking)];
    forall r | r in semas && r != s ensures NotLost(status', at', r, semas[r]) {
      assert NotLost(status, at, r, semas[r]);
      assert Roused(status', at', r) == Roused(status, at, r);
    }
  }

  lemma {:induction false} JoinKeepsSync(st: State, s: SemaId, locking: bool)
    requires SyncInv(st) && Looking(st, s, locking) && st.semas[s].value == 0
    requires st.cur in st.status && st.status[st.cur] == Running
    ensures SyncInv(Joined(st, s, locking))
  {
    var p, st' := Down(s, locking), Joined(st, s, locking);
    JoinKeepsWaits(st.status, st.at, st.semas, st.prio, st.cur, s, locking);
    JoinKeepsWakes(st.status, st.at, st.semas, st.prio, st.cur, s, locking);
    StayKeepsSleep(st.at, st.sleepers, st.cur, p);
    MoveKeepsNames(st.at, st.semas.Keys, st.holders.Keys, st.cur, p);
    forall l ensures Edge(st'.at, l) == Edge(st.at, l) {
      OffEdge(st.at, st.cur, p, l);
    }
    SameOwnersKeepsLocks(st.at, st'.at, st.semas, st'.semas, st.holders, st.inside);
    assert st'.semas.Keys == st.semas.Keys;
  }

  lemma {:induction false} JoinKeepsInv(st: State, s: SemaId, locking: bool)
    requires Inv(st) && Looking(st, s, locking) && st.semas[s].value == 0
    ensures DownOn(st, s, locking).Some? && Inv(DownOn(st, s, locking).value)
    ensures MostUrgent(DownOn(st, s, locking).value)
  {
    var st' := Joined(st, s, locking);
    LeaveKeepsQueue(st, Blocked);
    JoinKeepsSync(st, s, locking);
    assert st'.status.Keys == st.status.Keys && st'.at.Keys == st.at.Keys;
    DispatchKeepsInv(st');
  }

  // ----- Taking a semaphore -----

  lemma {:induction false} TakeKeepsWakes(status: map<Tid, Status>, at: map<Tid, Place>, semas: map<SemaId, Semaphore>,
                                          t: Tid, s: SemaId, p: Place)
    requires WakeOk(status, at, semas) && s in semas && semas[s].value > 0 && !p.Down?
    requires t in at && (at[t] == Busy || DownIn(at, t, s))
    ensures WakeOk(status, at[t := p], semas[s := semas[s].(value := semas[s].value - 1)])
  {
    var at', semas' := at[t := p], semas[s := semas[s].(value := semas[s].value - 1)];
    forall r | r in semas' ensures NotLost(status, at', r, semas'[r]) {
      assert NotLost(status, at, r, semas[r]);
      if r == s {
        assert Roused(status, at', r) == Roused(status, at, r) - {t};
      } else {
        assert Roused(status, at', r) == Roused(status, at, r);
      }
    }
  }

  lemma {:induction false} TakeKeepsWaits(status: map<Tid, Status>, at: map<Tid, Place>, semas: map<SemaId, Semaphore>,
                                          t: Tid, s: SemaId, p: Place, value: nat)
    requires WaitOk(status, at, semas) && s in semas && !p.Down? && t in status && status[t] != Blocked
    ensures WaitOk(status, at[t := p], semas[s := semas[s].(value := value)])
  {
    var at', semas' := at[t := p], semas[s := semas[s].(value := value)];
    forall r | r in semas' ensures WaitersOk(status, at', r, semas'[r].waiters) {
      assert WaitersOk(status, at, r, semas[r].waiters);
      assert forall u :: Waits(status, at', u, r) <==> Waits(status, at, u, r);
    }
  }

  lemma {:induction false} OneTakes(edge: set<Tid>, value: nat, holder: Option<Tid>, inside: set<Tid>, t: Tid)
    requires OneOwner(edge, value, holder, inside) && value > 0
    ensures OneOwner(edge + {t}, value - 1, holder, inside)
  {
    assert edge == {} && edge + {t} == {t};
  }

  lemma {:induction false} TakeKeepsLocks(at: map<Tid, Place>, semas: map<SemaId, Semaphore>,
                                          holders: map<SemaId, Option<Tid>>, inside: map<SemaId, set<Tid>>,
                                          t: Tid, s: SemaId)
    requires LockOk(at, semas, holders, inside) && s in holders && s in semas && semas[s].value > 0 && NotEdge(at, t)
    ensures LockOk(at[t := Taken(s)], semas[s := semas[s].(value := semas[s].value - 1)], holders, inside)
  {
    OneTakes(Edge(at, s), semas[s].value, holders[s], inside[s], t);
    forall l ensures Edge(at[t := Taken(s)], l) == if l == s then Edge(at, l) + {t} else Edge(at, l) {
    }
  }

  lemma {:induction false} TookKeepsSync(st: State, s: SemaId, locking: bool)
    requires SyncInv(st) && Looking(st, s, locking) && st.semas[s].value > 0
    requires st.cur in st.status && st.status[st.cur] == Running
    ensures SyncInv(Took(st, s, locking))
  {
    var p, st' := if locking then Taken(s) else Busy, Took(st, s, locking);
    TakeKeepsWaits(st.status, st.at, st.semas, st.cur, s, p, st.semas[s].value - 1);
    TakeKeepsWakes(st.status, st.at, st.semas, st.cur, s, p);
    StayKeepsSleep(st.at, st.sleepers, st.cur, p);
    MoveKeepsNames(st.at, st.semas.Keys, st.holders.Keys, st.cur, p);
    if locking {
      TakeKeepsLocks(st.at, st.semas, st.holders, st.inside, st.cur, s);
    } else {
      forall l ensures Edge(st'.at, l) == Edge(st.at, l) {
        OffEdge(st.at, st.cur, p, l);
      }
      SameOwnersKeepsLocks(st.at, st'.at, st.semas, st'.semas, st.holders, st.inside);
    }
    assert st'.semas.Keys == st.semas.Keys;
  }

  lemma {:induction false} TookKeepsInv(st: State, s: SemaId, locking: bool)
    requires Inv(st) && Looking(st, s, locking) && st.semas[s].value > 0
    ensures Inv(Took(st, s, locking))
  {
    TookKeepsSync(st, s, locking);
    assert Took(st, s, locking).at.Keys == st.at.Keys;
  }

  // ----- sema_up -----

  lemma {:induction false} UpKeepsWaits(status: map<Tid, Status>, at: map<Tid, Place>, semas: map<SemaId, Semaphore>, s: SemaId)
    requires WaitOk(status, at, semas) && s in semas && semas[s].waiters != []
    ensures WaitOk(status[semas[s].waiters[0] := Ready], at, Raised(semas, s))
  {
    var t := semas[s].waiters[0];
    var status', semas' := status[t := Ready], Raised(semas, s);
    PopFront(semas[s].waiters);
    FrontWaits(status, at, s, semas[s].waiters);
    forall r | r in semas' ensures WaitersOk(status', at, r, semas'[r].waiters) {
      assert WaitersOk(status, at, r, semas[r].waiters);
      assert forall u :: Waits(status', at, u, r) <==> Waits(status, at, u, r) && !(u == t && r == s);
    }
  }

  lemma {:induction false} FrontWaits(status: map<Tid, Status>, at: map<Tid, Place>, s: SemaId, waiters: seq<Tid>)
    requires WaitersOk(status, at, s, waiters) && waiters != []
    ensures Waits(status, at, waiters[0], s)
  {
    assert waiters[0] in multiset(waiters);
  }

  lemma {:induction false} UpKeepsWakes(status: map<Tid, Status>, at: map<Tid, Place>, semas: map<SemaId, Semaphore>, s: SemaId)
    requires WakeOk(status, at, semas) && s in semas && semas[s].waiters != [] && Waits(status, at, semas[s].waiters[0], s)
    ensures WakeOk(status[semas[s].waiters[0] := Ready], at, Raised(semas, s))
  {
    var t := semas[s].waiters[0];
    var status', semas' := status[t := Ready], Raised(semas, s);
    forall r | r in semas' ensures NotLost(status', at, r, semas'[r]) {
      assert NotLost(status, at, r, semas[r]);
      if r == s {
        assert Roused(status', at, r) == Roused(status, at, r) + {t};
      } else {
        assert Roused(status', at, r) == Roused(status, at, r);
      }
    }
  }

  /** The invariant without the locks' values. */
  ghost predicate Unlocked(st: State) {
    && RunInv(st)
    && PlaceOk(st.status, st.at)
    && SleepOk(st.at, st.sleepers)
    && WaitOk(st.status, st.at, st.semas)
    && WakeOk(st.status, st.at, st.semas)
    && NameOk(st.at, st.semas.Keys, st.holders.Keys)
  }

  lemma {:induction false} RaiseKeepsUnlocked(st: State, s: SemaId)
    requires Unlocked(st) && s in st.semas && st.semas[s].waiters == []
    ensures Unlocked(UpOn(st, s))
  {
    var st' := UpOn(st, s);
    forall r | r in st'.semas
      ensures WaitersOk(st.status, st.at, r, st'.semas[r].waiters) && NotLost(st.status, st.at, r, st'.semas[r])
    {
      assert WaitersOk(st.status, st.at, r, st.semas[r].waiters) && NotLost(st.status, st.at, r, st.semas[r]);
    }
    assert st'.semas.Keys == st.semas.Keys;
  }

  lemma {:induction false} UnblockKeepsRun(st: State, t: Tid)
    requires RunInv(st) && t in st.status && st.status[t] == Blocked && t != IDLE
    ensures RunInv(Unblock(st, t))
  {
    EnqueueKeeps(st.status, st.ready, st.prio, st.idleKnown, t);
    assert Unblock(st, t).status.Keys == st.status.Keys;
  }

  lemma {:induction false} ReadyKeepsPlaces(status: map<Tid, Status>, at: map<Tid, Place>, t: Tid)
    requires PlaceOk(status, at) && t in at && at[t].Down?
    ensures PlaceOk(status[t := Ready], at)
  {
  }

  lemma {:induction false} RouseKeepsUnlocked(st: State, s: SemaId)
    requires Unlocked(st) && s in st.semas && st.semas[s].waiters != []
    ensures Unlocked(UpOn(st, s))
  {
    var t := st.semas[s].waiters[0];
    assert WaitersOk(st.status, st.at, s, st.semas[s].waiters);
    FrontWaits(st.status, st.at, s, st.semas[s].waiters);
    UnblockKeepsRun(st, t);
    ReadyKeepsPlaces(st.status, st.at, t);
    UpKeepsWaits(st.status, st.at, st.semas, s);
    UpKeepsWakes(st.status, st.at, st.semas, s);
  }

  lemma {:induction false} UpKeepsUnlocked(st: State, s: SemaId)
    requires Unlocked(st) && s in st.semas
    ensures Unlocked(UpOn(st, s))
  {
    if st.semas[s].waiters == [] {
      RaiseKeepsUnlocked(st, s);
    } else {
      RouseKeepsUnlocked(st, s);
    }
  }

  lemma {:induction false} SemaUpKeepsInv(st: State, s: SemaId)
    requires Inv(st) && IsSema(st, s)
    ensures Inv(UpOn(st, s))
  {
    UpKeepsUnlocked(st, s);
    var st' := UpOn(st, s);
    SameOwnersKeepsLocks(st.at, st'.at, st.semas, st'.semas, st.holders, st.inside);
  }

  // ----- Locks -----

  lemma {:induction false} OnlyOne(s: set<Tid>, t: Tid)
    requires |s| <= 1 && t in s
    ensures s == {t}
  {
    assert |s - {t}| == 0;
  }

  lemma {:induction false} OneHolds(edge: set<Tid>, value: nat, holder: Option<Tid>, inside: set<Tid>, t: Tid)
    requires OneOwner(edge, value, holder, inside) && t in edge
    ensures OneOwner(edge - {t}, value, Some(t), inside + {t})
  {
    OnlyOne(edge, t);
    assert edge - {t} == {} && inside == {} && inside + {t} == {t};
  }

  lemma {:induction false} OneReleases(edge: set<Tid>, value: nat, t: Tid, inside: set<Tid>)
    requires OneOwner(edge, value, Some(t), inside)
    ensures OneOwner(edge + {t}, value, None, inside - {t})
  {
    assert edge == {} && edge + {t} == {t} && inside - {t} == {};
  }

  lemma {:induction false} OneFrees(edge: set<Tid>, value: nat, holder: Option<Tid>, inside: set<Tid>, t: Tid)
    requires OneOwner(edge, value, holder, inside) && t in edge
    ensures OneOwner(edge - {t}, value + 1, holder, inside)
  {
    OnlyOne(edge, t);
    assert edge - {t} == {};
  }

  lemma {:induction false} LeaveEdge(at: map<Tid, Place>, t: Tid, p: Place, l: SemaId)
    requires t in at && (at[t] == Taken(l) || at[t] == Freeing(l)) && !p.Taken? && !p.Freeing?
    ensures forall r :: Edge(at[t := p], r) == if r == l then Edge(at, r) - {t} else Edge(at, r)
  {
  }

  lemma {:induction false} JoinEdge(at: map<Tid, Place>, t: Tid, p: Place, l: SemaId)
    requires NotEdge(at, t) && (p == Taken(l) || p == Freeing(l))
    ensures forall r :: Edge(at[t := p], r) == if r == l then Edge(at, r) + {t} else Edge(at, r)
  {
  }

  lemma {:induction false} HoldKeepsLocks(at: map<Tid, Place>, semas: map<SemaId, Semaphore>,
                                          holders: map<SemaId, Option<Tid>>, inside: map<SemaId, set<Tid>>,
                                          t: Tid, l: SemaId)
    requires LockOk(at, semas, holders, inside) && t in at && at[t] == Taken(l) && l in holders
    ensures l in inside && LockOk(at[t := Busy], semas, holders[l := Some(t)], inside[l := inside[l] + {t}])
  {
    assert t in Edge(at, l);
    OneHolds(Edge(at, l), semas[l].value, holders[l], inside[l], t);
    LeaveEdge(at, t, Busy, l);
  }

  lemma {:induction false} ReleaseKeepsLocks(at: map<Tid, Place>, semas: map<SemaId, Semaphore>,
                                             holders: map<SemaId, Option<Tid>>, inside: map<SemaId, set<Tid>>,
                                             t: Tid, l: SemaId)
    requires LockOk(at, semas, holders, inside) && NotEdge(at, t) && l in holders && holders[l] == Some(t)
    ensures l in inside && LockOk(at[t := Freeing(l)], semas, holders[l := None], inside[l := inside[l] - {t}])
  {
    OneReleases(Edge(at, l), semas[l].value, t, inside[l]);
    JoinEdge(at, t, Freeing(l), l);
  }

  lemma {:induction false} FreeKeepsLocks(at: map<Tid, Place>, semas: map<SemaId, Semaphore>, semas': map<SemaId, Semaphore>,
                                          holders: map<SemaId, Option<Tid>>, inside: map<SemaId, set<Tid>>,
                                          t: Tid, l: SemaId)
    requires LockOk(at, semas, holders, inside) && t in at && at[t] == Freeing(l) && l in holders
    requires forall r :: r in holders ==> r in semas && r in semas'
    requires forall r :: r in holders ==> semas'[r].value == semas[r].value + if r == l then 1 else 0
    ensures LockOk(at[t := Busy], semas', holders, inside)
  {
    assert t in Edge(at, l);
    OneFrees(Edge(at, l), semas[l].value, holders[l], inside[l], t);
    LeaveEdge(at, t, Busy, l);
  }

  lemma {:induction false} SetHolderKeepsInv(st: State, l: SemaId)
    requires Inv(st) && st.cur in st.at && st.at[st.cur] == Taken(l)
    ensures l in st.inside && Inv(DoSetHolder(st, l))
  {
    HoldKeepsLocks(st.at, st.semas, st.holders, st.inside, st.cur, l);
    var st' := DoSetHolder(st, l);
    assert st.status == st.status[st.cur := Running];
    MoveKeepsWaits(st.status, st.at, st.semas, st.cur, Running, Busy);
    MoveKeepsWakes(st.status, st.at, st.semas, st.cur, Running, Busy);
    MoveKeepsNames(st.at, st.semas.Keys, st.holders.Keys, st.cur, Busy);
    assert st'.at.Keys == st.at.Keys && st'.holders.Keys == st.holders.Keys;
  }

  lemma {:induction false} ReleaseKeepsInv(st: State, l: SemaId)
    requires Inv(st) && Free(st) && l in st.holders && st.holders[l] == Some(st.cur)
    ensures l in st.inside && Inv(DoRelease(st, l))
  {
    ReleaseKeepsLocks(st.at, st.semas, st.holders, st.inside, st.cur, l);
    var st' := DoRelease(st, l);
    assert st.status == st.status[st.cur := Running];
    MoveKeepsWaits(st.status, st.at, st.semas, st.cur, Running, Freeing(l));
    MoveKeepsWakes(st.status, st.at, st.semas, st.cur, Running, Freeing(l));
    MoveKeepsNames(st.at, st.semas.Keys, st.holders.Keys, st.cur, Freeing(l));
    assert st'.at.Keys == st.at.Keys && st'.holders.Keys == st.holders.Keys;
  }

  lemma {:induction false} EdgeToBusyKeepsUnlocked(st: State)
    requires Inv(st) && st.cur in st.at && st.at[st.cur].Freeing?
    ensures Unlocked(st.(at := st.at[st.cur := Busy]))
  {
    var st' := st.(at := st.at[st.cur := Busy]);
    assert st.status == st.status[st.cur := Running];
    MoveKeepsWaits(st.status, st.at, st.semas, st.cur, Running, Busy);
    MoveKeepsWakes(st.status, st.at, st.semas, st.cur, Running, Busy);
    MoveKeepsNames(st.at, st.semas.Keys, st.holders.Keys, st.cur, Busy);
    assert st'.at.Keys == st.at.Keys;
  }

  lemma {:induction false} FinishKeepsInv(st: State, l: SemaId)
    requires Inv(st) && st.cur in st.at && st.at[st.cur] == Freeing(l)
    ensures l in st.semas && Inv(UpOn(st.(at := st.at[st.cur := Busy]), l))
  {
    var st' := st.(at := st.at[st.cur := Busy]);
    EdgeToBusyKeepsUnlocked(st);
    UpKeepsUnlocked(st', l);
    FreeKeepsLocks(st.at, st.semas, UpOn(st', l).semas, st.holders, st.inside, st.cur, l);
  }

  // ----- Creating threads, semaphores and locks -----

  lemma {:induction false} CreateKeepsInv(st: State, priority: int)
    requires Inv(st) && st.cur in st.cpu
    ensures Inv(DoCreate(st, priority))
  {
    var st', t := DoCreate(st, priority), st.next;
    assert t !in st.status.Keys && t !in st.at.Keys;
    StayKeepsSleep(st.at, st.sleepers, t, Fresh);
    MoveKeepsSync(st, t, Blocked, Fresh, st.sleepers);
    CreateKeepsQueue(st.status, st.ready, st.prio, st.idleKnown, t, priority);
    assert st'.status.Keys == st.status.Keys + {t} && st'.at.Keys == st.at.Keys + {t};
    assert st'.prio.Keys == st.prio.Keys + {t} && st'.cpu.Keys == st.cpu.Keys + {t};
  }

  lemma {:induction false} RepriceKeepsOrder(status: map<Tid, Status>, ready: seq<Tid>, prio: map<Tid, int>, known: bool,
                                             t: Tid, priority: int)
    requires QueueInv(status, ready, prio, known) && !Queued(status, known, t)
    ensures Descending(prio[t := priority], ready)
  {
    assert multiset(ready)[t] == 0;
    assert t !in ready;
    assert forall i :: 0 <= i < |ready| ==> Prio(prio[t := priority], ready[i]) == Prio(prio, ready[i]);
  }

  lemma {:induction false} CreateKeepsQueue(status: map<Tid, Status>, ready: seq<Tid>, prio: map<Tid, int>, known: bool,
                                            t: Tid, priority: int)
    requires QueueInv(status, ready, prio, known) && t !in status
    ensures QueueInv(status[t := Blocked], ready, prio[t := priority], known)
  {
    RepriceKeepsOrder(status, ready, prio, known, t, priority);
  }

  lemma {:induction false} StartKeepsInv(st: State, t: Tid)
    requires Inv(st) && t in st.at && t in st.status && st.at[t] == Fresh
    ensures Inv(Unblock(st.(at := st.at[t := Busy]), t))
  {
    UnblockKeepsRun(st, t);
    StayKeepsSleep(st.at, st.sleepers, t, Busy);
    MoveKeepsSync(st, t, Ready, Busy, st.sleepers);
    assert st.at[t := Busy].Keys == st.at.Keys;
  }

  lemma {:induction false} SetPriorityKeepsInv(st: State, priority: int, cpu: map<Tid, Cpu>)
    requires Inv(st) && cpu.Keys == st.cpu.Keys
    ensures Inv(st.(prio := st.prio[st.cur := priority], cpu := cpu))
  {
    RepriceKeepsOrder(st.status, st.ready, st.prio, st.idleKnown, st.cur, priority);
    assert st.prio[st.cur := priority].Keys == st.prio.Keys;
  }

  lemma {:induction false} IdleStartKeepsInv(st: State)
    requires Inv(st) && st.cur == IDLE
    ensures Inv(st.(idleKnown := true))
  {
    assert forall t :: Queued(st.status, true, t) <==> Queued(st.status, st.idleKnown, t);
  }

  lemma {:induction false} FreshSemaKeeps(st: State, s: SemaId, value: nat)
    requires SyncInv(st) && s !in st.semas
    ensures WaitOk(st.status, st.at, st.semas[s := Semaphore(value, [])])
    ensures WakeOk(st.status, st.at, st.semas[s := Semaphore(value, [])])
    ensures NameOk(st.at, st.semas[s := Semaphore(value, [])].Keys, st.holders.Keys)
  {
    assert forall t :: !DownIn(st.at, t, s);
    assert WaitersOk(st.status, st.at, s, []);
  }

  lemma {:induction false} NewSemaKeepsInv(st: State, s: SemaId, value: nat)
    requires Inv(st) && s !in st.semas
    ensures Inv(st.(semas := st.semas[s := Semaphore(value, [])]))
  {
    FreshSemaKeeps(st, s, value);
  }

  lemma {:induction false} NewLockKeepsInv(st: State, s: SemaId)
    requires Inv(st) && s !in st.semas
    ensures Inv(DoNewLock(st, s))
  {
    FreshSemaKeeps(st, s, 1);
    assert s !in st.holders.Keys;
    assert Edge(st.at, s) == {};
    assert OneOwner({}, 1, None, {});
  }

  lemma {:induction false} TryKeepsInv(st: State, s: SemaId)
    requires Inv(st) && IsSema(st, s) && st.semas[s].value > 0
    ensures Inv(DoTry(st, s))
  {
    var st' := DoTry(st, s);
    forall r | r in st'.semas
      ensures WaitersOk(st.status, st.at, r, st'.semas[r].waiters) && NotLost(st.status, st.at, r, st'.semas[r])
    {
      assert WaitersOk(st.status, st.at, r, st.semas[r].waiters) && NotLost(st.status, st.at, r, st.semas[r]);
    }
    SameOwnersKeepsLocks(st.at, st.at, st.semas, st'.semas, st.holders, st.inside);
    assert st'.semas.Keys == st.semas.Keys;
  }

  // ----- The timer interrupt -----

  lemma {:induction false} SleepersAreAsleep(at: map<Tid, Place>, sleepers: seq<Tid>)
    requires SleepOk(at, sleepers)
    ensures SleepersAsleep(at, sleepers)
  {
    forall t | t in sleepers ensures multiset(sleepers)[t] == 1 && t in at && at[t].Asleep? {
      assert t in multiset(sleepers);
    }
  }

  lemma {:induction false} SleeperGone(at: map<Tid, Place>, sleepers: seq<Tid>, i: nat)
    requires SleepOk(at, sleepers) && i < |sleepers|
    ensures SleepOk(at[sleepers[i] := Busy], sleepers[..i] + sleepers[i + 1..])
  {
    WithoutOne(sleepers, i);
    assert sleepers[i] in multiset(sleepers);
  }

  lemma {:induction false} WokenKeepsInv(st: State, i: nat)
    requires Inv(st) && i < |st.sleepers| && SleepersAsleep(st.at, st.sleepers)
    ensures Inv(Woken(st, i))
  {
    var t := st.sleepers[i];
    assert t in st.at && t in st.at.Keys && t in st.status.Keys;
    UnblockKeepsRun(st, t);
    SleeperGone(st.at, st.sleepers, i);
    MoveKeepsSync(st, t, Ready, Busy, st.sleepers[..i] + st.sleepers[i + 1..]);
    assert st.at[t := Busy].Keys == st.at.Keys;
  }

  lemma {:induction false} WakeKeepsInv(st: State, i: nat)
    requires Inv(st) && i <= |st.sleepers|
    ensures SleepersAsleep(st.at, st.sleepers) && Inv(Wake(st, i))
    decreases |st.sleepers| - i
  {
    SleepersAreAsleep(st.at, st.sleepers);
    if i < |st.sleepers| {
      var t := st.sleepers[i];
      if st.at[t].until <= st.ticks {
        WokenKeepsInv(st, i);
        WakeKeepsInv(Woken(st, i), i);
      } else {
        WakeKeepsInv(st, i + 1);
      }
    }
  }

  lemma {:induction false} ResortKeepsQueue(status: map<Tid, Status>, ready: seq<Tid>, prio: map<Tid, int>, known: bool)
    requires ReadyOk(status, ready, known)
    ensures QueueInv(status, Ordered.Sort(Higher(prio), ready), prio, known)
  {
    HigherIsOrder(prio);
    Ordered.SortSorts(Higher(prio), ready);
    Ordered.SortPermutes(Higher(prio), ready);
  }

  lemma {:induction false} NewCpuKeepsInv(st: State, cpu: map<Tid, Cpu>, load: int)
    requires Inv(st) && cpu.Keys == st.cpu.Keys
    ensures Inv(st.(cpu := cpu, load := load))
  {
  }

  lemma {:induction false} EachFourthKeepsInv(st: State)
    requires Inv(st) && EachFourth(st).Some?
    ensures Inv(EachFourth(st).value)
  {
    if st.ticks % 4 == 0 {
      var prio := PrioritiesOf(st.cpu).value;
      ResortKeepsQueue(st.status, st.ready, prio, st.idleKnown);
      assert prio.Keys == st.cpu.Keys;
    }
  }

  lemma {:induction false} TickKeepsInv(st: State)
    requires Inv(st) && st.cur in st.cpu && SleepersAsleep(st.at, st.sleepers) && DoTick(st).Some?
    ensures Inv(DoTick(st).value)
  {
    var st0 := st.(ticks := st.ticks + 1);
    assert Inv(st0);
    WakeKeepsInv(st0, 0);
    if st.mlfqs {
      var st1 := Wake(st0, 0);
      var st2 := Age(st1).value;
      assert st2.cpu.Keys == st1.cpu.Keys;
      NewCpuKeepsInv(st1, st2.cpu, st1.load);
      var st3 := EachSecond(st2).value;
      assert st3.cpu.Keys == st2.cpu.Keys;
      NewCpuKeepsInv(st2, st3.cpu, st3.load);
      EachFourthKeepsInv(st3);
    }
  }

  // ----- All steps -----

  lemma {:induction false} DownKeepsInv(st: State, s: SemaId, locking: bool)
    requires Inv(st) && Looking(st, s, locking)
    ensures DownOn(st, s, locking).Some? && Inv(DownOn(st, s, locking).value)
    ensures st.semas[s].value == 0 ==> MostUrgent(DownOn(st, s, locking).value)
  {
    if st.semas[s].value == 0 {
      JoinKeepsInv(st, s, locking);
    } else {
      TookKeepsInv(st, s, locking);
    }
  }

  lemma {:induction false} ResumeIsLooking(st: State)
    requires Inv(st) && Enabled(st, Resume)
    ensures Looking(st, st.at[st.cur].on, st.at[st.cur].locking)
  {
  }

  predicate IsSemaStep(step: Step) {
    step.NewSema? || step.SemaDown? || step.SemaTry? || step.SemaUp? || step.Resume?
  }

  predicate IsLockStep(step: Step) {
    step.NewLock? || step.Acquire? || step.TryAcquire? || step.SetHolder? || step.Release? || step.FinishRelease?
  }

  lemma {:induction false} DownStepKeepsInv(st: State, step: Step)
    requires Inv(st) && (step.SemaDown? || step.Resume? || step.Acquire?) && Enabled(st, step)
    ensures Next(st, step).Some? && Inv(Next(st, step).value)
  {
    match step
    case SemaDown(s) => DownKeepsInv(st, s, false);
    case Resume => ResumeIsLooking(st); DownKeepsInv(st, st.at[st.cur].on, st.at[st.cur].locking);
    case Acquire(s) => DownKeepsInv(st, s, true);
  }

  lemma {:induction false} SemaStepKeepsInv(st: State, step: Step)
    requires Inv(st) && (step.NewSema? || step.SemaTry? || step.SemaUp?) && Enabled(st, step)
    ensures Next(st, step).Some? && Inv(Next(st, step).value)
  {
    match step
    case NewSema(s, v) => NewSemaKeepsInv(st, s, v);
    case SemaTry(s) => if st.semas[s].value > 0 { TryKeepsInv(st, s); }
    case SemaUp(s) => SemaUpKeepsInv(st, s);
  }

  lemma {:induction false} EasyLockStepKeepsInv(st: State, step: Step)
    requires Inv(st) && (step.TryAcquire? || step.NewLock?) && Enabled(st, step)
    ensures Next(st, step).Some? && Inv(Next(st, step).value)
  {
    match step
    case TryAcquire(s) => if st.semas[s].value > 0 { TookKeepsInv(st, s, true); }
    case NewLock(s) => NewLockKeepsInv(st, s);
  }

  lemma {:induction false} LockStepKeepsInv(st: State, step: Step)
    requires Inv(st) && (step.SetHolder? || step.Release? || step.FinishRelease?) && Enabled(st, step)
    ensures Next(st, step).Some? && Inv(Next(st, step).value)
  {
    match step
    case SetHolder => SetHolderKeepsInv(st, st.at[st.cur].of);
    case Release(s) => ReleaseKeepsInv(st, s);
    case FinishRelease => FinishKeepsInv(st, st.at[st.cur].of);
  }

  lemma {:induction false} SwitchStepKeepsInv(st: State, step: Step)
    requires Inv(st) && (step.Yield? || step.Exit? || step.Sleep? || step.IdleBlock?) && Enabled(st, step)
    ensures Next(st, step).Some? && Inv(Next(st, step).value)
  {
    match step
    case Yield => YieldKeepsInv(st);
    case Exit => ExitKeepsInv(st);
    case Sleep(until, k) => SleepKeepsInv(st, until, k);
    case IdleBlock => IdleBlockKeepsInv(st);
  }

  lemma {:induction false} ThreadStepKeepsInv(st: State, step: Step)
    requires Inv(st) && (step.Create? || step.Start? || step.SetPriority? || step.IdleStart?) && Enabled(st, step)
    ensures Next(st, step).Some? && Inv(Next(st, step).value)
  {
    match step
    case Create(p) => CreateKeepsInv(st, p);
    case Start(t) => StartKeepsInv(st, t);
    case SetPriority(p) => SetPriorityKeepsInv(st, p, st.cpu);
    case IdleStart => IdleStartKeepsInv(st);
  }

  /** The two steps whose arithmetic may fail. */
  lemma {:induction false} FigureStepKeepsInv(st: State, step: Step)
    requires Inv(st) && (step.SetNice? || step.Tick?) && Enabled(st, step)
    ensures Next(st, step).Some? ==> Inv(Next(st, step).value)
  {
    match step
    case SetNice(n) =>
      if DoSetNice(st, n).Some? {
        var st' := DoSetNice(st, n).value;
        SetPriorityKeepsInv(st, st'.prio[st.cur], st'.cpu);
      }
    case Tick => if DoTick(st).Some? { TickKeepsInv(st); }
  }

  /** Every step keeps the invariant, and only the arithmetic of the two last kinds can stop it. */
  lemma {:induction false} StepKeepsInv(st: State, step: Step)
    requires Inv(st) && Enabled(st, step)
    ensures Next(st, step).Some? ==> Inv(Next(st, step).value)
    ensures Next(st, step).None? ==> step.Tick? || step.SetNice?
  {
    if step.SemaDown? || step.Resume? || step.Acquire? {
      DownStepKeepsInv(st, step);
    } else if step.NewSema? || step.SemaTry? || step.SemaUp? {
      SemaStepKeepsInv(st, step);
    } else if step.TryAcquire? || step.NewLock? {
      EasyLockStepKeepsInv(st, step);
    } else if step.SetHolder? || step.Release? || step.FinishRelease? {
      LockStepKeepsInv(st, step);
    } else if step.Yield? || step.Exit? || step.Sleep? || step.IdleBlock? {
      SwitchStepKeepsInv(st, step);
    } else if step.Create? || step.Start? || step.SetPriority? || step.IdleStart? {
      ThreadStepKeepsInv(st, step);
    } else {
      FigureStepKeepsInv(st, step);
    }
  }
}
