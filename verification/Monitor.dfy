/** Condition variables (threads/synch.c): any number of threads and conditions under one lock, every
    interleaving.  A wait is known by the number of its semaphore, which lives on the waiting
    thread's stack. */
module Monitor {
  import opened Common
  import opened Seqs

  type Tid = nat
  type Cond = nat
  type Wait = nat

  /** Where a thread is. */
  datatype Pc =
    | Outside
    | Holding                       // has the lock
    | Queued(c: Cond, w: Wait)      // cond_wait: on the list of waiters, still has the lock
    | Released(c: Cond, w: Wait)    // has released it; before or in sema_down
    | Raised(c: Cond, w: Wait)      // past sema_down, about to acquire the lock again

  datatype State = State(
    pc: map<Tid, Pc>,
    holder: Option<Tid>,
    waiters: map<Cond, seq<Wait>>,
    value: map<Wait, nat>,
    begun: map<Cond, seq<Wait>>,    // history: the waits on a condition, in order
    raised: map<Cond, seq<Wait>>,   // history: those that a cond_signal was given to, in order
    owner: map<Wait, Tid>,
    cond: map<Wait, Cond>)

  datatype Step =
    | Enter(t: Tid)
    | Leave(t: Tid)
    | BeginWait(t: Tid, c: Cond, w: Wait)
    | Release(t: Tid)
    | Down(t: Tid)
    | Reacquire(t: Tid)
    | Signal(t: Tid, c: Cond)

  function Of(m: map<Cond, seq<Wait>>, c: Cond): seq<Wait> {
    if c in m then m[c] else []
  }

  predicate At(st: State, t: Tid, pc: Pc) {
    t in st.pc && st.pc[t] == pc
  }

  ghost predicate Init(st: State) {
    && (forall t :: t in st.pc ==> st.pc[t] == Outside) && st.holder == None
    && st.waiters == map[] && st.value == map[] && st.begun == map[] && st.raised == map[] && st.owner == map[] && st.cond == map[]
  }

  predicate Enabled(st: State, step: Step) {
    step.t in st.pc &&
    match step
    case Enter(t) => st.pc[t] == Outside && st.holder == None
    case Leave(t) => st.pc[t] == Holding
    case BeginWait(t, c, w) => st.pc[t] == Holding && w !in st.owner
    case Release(t) => st.pc[t].Queued?
    case Down(t) => st.pc[t].Released? && st.pc[t].w in st.value && st.value[st.pc[t].w] > 0
    case Reacquire(t) => st.pc[t].Raised? && st.holder == None
    case Signal(t, c) => st.pc[t] == Holding && (Of(st.waiters, c) != [] ==> Of(st.waiters, c)[0] in st.value)
  }

  function Apply(st: State, step: Step): State
    requires Enabled(st, step)
  {
    match step
    case Enter(t) => st.(pc := st.pc[t := Holding], holder := Some(t))
    case Leave(t) => st.(pc := st.pc[t := Outside], holder := None)
    case BeginWait(t, c, w) =>
      st.(pc := st.pc[t := Queued(c, w)], waiters := st.waiters[c := Of(st.waiters, c) + [w]], value := st.value[w := 0],
          begun := st.begun[c := Of(st.begun, c) + [w]], owner := st.owner[w := t], cond := st.cond[w := c])
    case Release(t) => st.(pc := st.pc[t := Released(st.pc[t].c, st.pc[t].w)], holder := None)
    case Down(t) =>
      var w := st.pc[t].w;
      st.(pc := st.pc[t := Raised(st.pc[t].c, w)], value := st.value[w := st.value[w] - 1])
    case Reacquire(t) => st.(pc := st.pc[t := Holding], holder := Some(t))
    case Signal(t, c) =>
      var list := Of(st.waiters, c);
      if list == [] then st
      else st.(waiters := st.waiters[c := list[1..]], value := st.value[list[0] := st.value[list[0]] + 1],
               raised := st.raised[c := Of(st.raised, c) + [list[0]]])
  }

  // ----- The invariant -----

  /** Only the holder is between acquiring the lock and releasing it. */
  ghost predicate HolderOk(pc: map<Tid, Pc>, holder: Option<Tid>) {
    && (holder.Some? ==> holder.value in pc)
    && forall t :: t in pc ==> (holder == Some(t) <==> pc[t] == Holding || pc[t].Queued?)
  }

  /** The waits on a condition are those signalled, then those on its list, each of them once. */
  ghost predicate OrderOk(begun: seq<Wait>, raised: seq<Wait>, waiters: seq<Wait>) {
    begun == raised + waiters && NoDup(begun)
  }

  ghost predicate CondOk(begun: seq<Wait>, cond: map<Wait, Cond>, c: Cond) {
    forall w :: w in begun ==> w in cond && cond[w] == c
  }

  ghost predicate ListsOk(st: State) {
    && (forall c :: OrderOk(Of(st.begun, c), Of(st.raised, c), Of(st.waiters, c)))
    && (forall c :: CondOk(Of(st.begun, c), st.cond, c))
  }

  predicate Waits(pc: Pc) {
    pc.Queued? || pc.Released? || pc.Raised?
  }

  /** A thread in cond_wait has a wait of its own. */
  ghost predicate OwnersOk(pc: map<Tid, Pc>, owner: map<Wait, Tid>, cond: map<Wait, Cond>) {
    && owner.Keys == cond.Keys && (forall w :: w in owner ==> owner[w] in pc)
    && forall t :: t in pc && Waits(pc[t]) ==>
         pc[t].w in owner && owner[pc[t].w] == t && cond[pc[t].w] == pc[t].c
  }

  /** How far its thread is with a wait that is on the list, or that was signalled. */
  ghost predicate WaitOk(pc: Pc, c: Cond, w: Wait, listed: bool, value: nat) {
    if listed then value == 0 && (pc == Queued(c, w) || pc == Released(c, w))
    else value == (if pc == Released(c, w) then 1 else 0) && pc != Queued(c, w)
  }

  ghost predicate OwnedOk(st: State, w: Wait) {
    && w in st.owner && w in st.cond && w in st.value && st.owner[w] in st.pc && w in Of(st.begun, st.cond[w])
    && WaitOk(st.pc[st.owner[w]], st.cond[w], w, w in Of(st.waiters, st.cond[w]), st.value[w])
  }

  ghost predicate WaitsOk(st: State) {
    forall w :: w in st.owner ==> OwnedOk(st, w)
  }

  ghost predicate Inv(st: State) {
    HolderOk(st.pc, st.holder) && ListsOk(st) && OwnersOk(st.pc, st.owner, st.cond) && WaitsOk(st)
  }

  lemma {:induction false} InitIsInv(st: State)
    requires Init(st)
    ensures Inv(st)
  {
  }

  // ----- Every step keeps it -----

  lemma {:induction false} StepKeepsHolder(st: State, step: Step)
    requires HolderOk(st.pc, st.holder) && Enabled(st, step)
    ensures HolderOk(Apply(st, step).pc, Apply(st, step).holder)
  {
  }

  lemma {:induction false} StepKeepsOwners(st: State, step: Step)
    requires OwnersOk(st.pc, st.owner, st.cond) && Enabled(st, step)
    ensures var r := Apply(st, step); OwnersOk(r.pc, r.owner, r.cond)
  {
  }

  lemma {:induction false} OrderPush(begun: seq<Wait>, raised: seq<Wait>, list: seq<Wait>, w: Wait)
    requires OrderOk(begun, raised, list) && w !in begun
    ensures OrderOk(begun + [w], raised, list + [w])
  {
    assert begun + [w] == raised + (list + [w]);
  }

  lemma {:induction false} OrderPop(begun: seq<Wait>, raised: seq<Wait>, list: seq<Wait>)
    requires OrderOk(begun, raised, list) && list != []
    ensures OrderOk(begun, raised + [list[0]], list[1..])
  {
    assert list == [list[0]] + list[1..];
  }

  lemma {:induction false} BeginKeepsOrder(st: State, step: Step, d: Cond)
    requires Enabled(st, step) && step.BeginWait? && step.w !in Of(st.begun, step.c)
    requires OrderOk(Of(st.begun, d), Of(st.raised, d), Of(st.waiters, d))
    ensures var r := Apply(st, step); OrderOk(Of(r.begun, d), Of(r.raised, d), Of(r.waiters, d))
  {
    if d == step.c {
      OrderPush(Of(st.begun, d), Of(st.raised, d), Of(st.waiters, d), step.w);
    }
  }

  lemma {:induction false} BeginKeepsCond(st: State, step: Step, d: Cond)
    requires Enabled(st, step) && step.BeginWait? && step.w !in st.cond && CondOk(Of(st.begun, d), st.cond, d)
    ensures var r := Apply(st, step); CondOk(Of(r.begun, d), r.cond, d)
  {
  }

  lemma {:induction false} BeginKeepsLists(st: State, step: Step)
    requires ListsOk(st) && st.owner.Keys == st.cond.Keys && Enabled(st, step) && step.BeginWait?
    ensures ListsOk(Apply(st, step))
  {
    var r := Apply(st, step);
    assert step.w !in st.cond.Keys;
    assert CondOk(Of(st.begun, step.c), st.cond, step.c);
    forall d ensures OrderOk(Of(r.begun, d), Of(r.raised, d), Of(r.waiters, d)) && CondOk(Of(r.begun, d), r.cond, d) {
      BeginKeepsOrder(st, step, d);
      BeginKeepsCond(st, step, d);
    }
  }

  lemma {:induction false} SignalKeepsLists(st: State, step: Step)
    requires ListsOk(st) && Enabled(st, step) && step.Signal?
    ensures ListsOk(Apply(st, step))
  {
    var r, c := Apply(st, step), step.c;
    forall d ensures OrderOk(Of(r.begun, d), Of(r.raised, d), Of(r.waiters, d)) {
      assert OrderOk(Of(st.begun, d), Of(st.raised, d), Of(st.waiters, d));
      if d == c && Of(st.waiters, c) != [] {
        OrderPop(Of(st.begun, c), Of(st.raised, c), Of(st.waiters, c));
      }
    }
  }

  lemma {:induction false} StepKeepsLists(st: State, step: Step)
    requires ListsOk(st) && OwnersOk(st.pc, st.owner, st.cond) && Enabled(st, step)
    ensures ListsOk(Apply(st, step))
  {
    if step.BeginWait? {
      BeginKeepsLists(st, step);
    } else if step.Signal? {
      SignalKeepsLists(st, step);
    } else {
      var r := Apply(st, step);
      assert r.begun == st.begun && r.raised == st.raised && r.waiters == st.waiters && r.cond == st.cond;
    }
  }

  /** The wait that a cond_signal is given to. */
  lemma {:induction false} FrontIsListed(st: State, c: Cond)
    requires ListsOk(st) && Of(st.waiters, c) != []
    ensures var w := Of(st.waiters, c)[0];
      && w in Of(st.begun, c) && w in st.cond && st.cond[w] == c && w == Of(st.begun, c)[|Of(st.raised, c)|]
      && forall v :: v in Of(st.waiters, c)[1..] <==> v in Of(st.waiters, c) && v != w
  {
    var begun, raised, list := Of(st.begun, c), Of(st.raised, c), Of(st.waiters, c);
    assert OrderOk(begun, raised, list);
    assert begun[|raised|] == list[0];
    assert forall i :: 0 <= i < |list| ==> list[i] == begun[|raised| + i];
    assert list == [list[0]] + list[1..];
  }

  lemma {:induction false} SignalKeepsWait(st: State, step: Step, w: Wait, v: Wait)
    requires HolderOk(st.pc, st.holder) && Enabled(st, step) && step.Signal? && OwnedOk(st, v) && OwnedOk(st, w)
    requires var list := Of(st.waiters, step.c);
      list != [] && w == list[0] && st.cond[w] == step.c && (v in list[1..] <==> v in list && v != w)
    ensures OwnedOk(Apply(st, step), v)
  {
    assert st.holder == Some(step.t);
    assert WaitOk(st.pc[st.owner[w]], step.c, w, true, st.value[w]);
  }

  lemma {:induction false} SignalKeepsWaits(st: State, step: Step)
    requires ListsOk(st) && WaitsOk(st) && HolderOk(st.pc, st.holder) && st.owner.Keys == st.cond.Keys
    requires Enabled(st, step) && step.Signal?
    ensures WaitsOk(Apply(st, step))
  {
    if Of(st.waiters, step.c) != [] {
      FrontIsListed(st, step.c);
      var w := Of(st.waiters, step.c)[0];
      assert w in st.owner.Keys;
      forall v | v in st.owner ensures OwnedOk(Apply(st, step), v) {
        SignalKeepsWait(st, step, w, v);
      }
    }
  }

  lemma {:induction false} BeginKeepsWait(st: State, step: Step, v: Wait)
    requires Enabled(st, step) && step.BeginWait? && OwnedOk(st, v)
    ensures OwnedOk(Apply(st, step), v)
  {
    var list, begun := Of(st.waiters, step.c), Of(st.begun, step.c);
    assert v in list + [step.w] <==> v in list || v == step.w;
    assert v in begun ==> v in begun + [step.w];
  }

  lemma {:induction false} BeginKeepsWaits(st: State, step: Step)
    requires WaitsOk(st) && Enabled(st, step) && step.BeginWait?
    ensures WaitsOk(Apply(st, step))
  {
    var r, w := Apply(st, step), step.w;
    assert w in Of(r.waiters, step.c) && w in Of(r.begun, step.c);
    forall v | v in r.owner ensures OwnedOk(r, v) {
      if v != w {
        BeginKeepsWait(st, step, v);
      }
    }
  }

  lemma {:induction false} OtherKeepsWaits(st: State, step: Step)
    requires WaitsOk(st) && OwnersOk(st.pc, st.owner, st.cond) && Enabled(st, step) && !step.Signal? && !step.BeginWait?
    ensures WaitsOk(Apply(st, step))
  {
    var r := Apply(st, step);
    assert r.begun == st.begun && r.waiters == st.waiters && r.cond == st.cond && r.owner == st.owner;
    forall w | w in r.owner ensures OwnedOk(r, w) {
      assert OwnedOk(st, w);
    }
  }

  lemma {:induction false} StepKeepsInv(st: State, step: Step)
    requires Inv(st) && Enabled(st, step)
    ensures Inv(Apply(st, step))
  {
    StepKeepsHolder(st, step);
    StepKeepsOwners(st, step);
    StepKeepsLists(st, step);
    if step.Signal? {
      SignalKeepsWaits(st, step);
    } else if step.BeginWait? {
      BeginKeepsWaits(st, step);
    } else {
      OtherKeepsWaits(st, step);
    }
  }

  // ----- Every run -----

  ghost predicate IsRun(states: seq<State>, steps: seq<Step>) {
    && |states| == |steps| + 1 && Init(states[0])
    && forall i {:trigger steps[i]} :: 0 <= i < |steps| ==> Enabled(states[i], steps[i]) && states[i + 1] == Apply(states[i], steps[i])
  }

  lemma {:induction false} RunKeepsInv(states: seq<State>, steps: seq<Step>, i: nat)
    requires IsRun(states, steps) && i < |states|
    ensures Inv(states[i])
  {
    if i == 0 {
      InitIsInv(states[0]);
    } else {
      RunKeepsInv(states, steps, i - 1);
      StepKeepsInv(states[i - 1], steps[i - 1]);
    }
  }

  /** A cond_signal made when threads wait is given to exactly one of them, the one that has waited
      longest.  Its thread has released the lock and is still in cond_wait, so that the semaphore on
      its stack is there, and it can go on from sema_down.  No other semaphore changes. */
  lemma {:induction false} SignalRaisesOldest(states: seq<State>, steps: seq<Step>, i: nat, t: Tid, c: Cond)
    requires IsRun(states, steps) && i < |states| && Enabled(states[i], Signal(t, c)) && Of(states[i].waiters, c) != []
    ensures var st, r := states[i], Apply(states[i], Signal(t, c));
      var n := |Of(st.raised, c)|;
      && n < |Of(st.begun, c)| && Of(r.raised, c) == Of(st.raised, c) + [Of(st.begun, c)[n]]
      && var w := Of(st.begun, c)[n];
         && w in st.owner && w in st.value && At(st, st.owner[w], Released(c, w)) && st.value[w] == 0
         && r.value == st.value[w := 1] && Enabled(r, Down(st.owner[w]))
  {
    RunKeepsInv(states, steps, i);
    var st := states[i];
    FrontIsListed(st, c);
    var w := Of(st.waiters, c)[0];
    assert OrderOk(Of(st.begun, c), Of(st.raised, c), Of(st.waiters, c));
    assert w in st.owner.Keys;
    assert OwnedOk(st, w);
    assert st.holder == Some(t);
  }

  /** The holder can always signal: the semaphore of a listed wait is there. */
  lemma {:induction false} HolderMaySignal(states: seq<State>, steps: seq<Step>, i: nat, t: Tid, c: Cond)
    requires IsRun(states, steps) && i < |states| && At(states[i], t, Holding)
    ensures Enabled(states[i], Signal(t, c))
  {
    RunKeepsInv(states, steps, i);
    if Of(states[i].waiters, c) != [] {
      FrontIsListed(states[i], c);
      assert Of(states[i].waiters, c)[0] in states[i].owner.Keys;
      assert OwnedOk(states[i], Of(states[i].waiters, c)[0]);
    }
  }

  /** Signals are given out in the order in which the waits began, each wait gets at most one, and
      every wait begun and not on the list has got its own. */
  lemma {:induction false} SignalsGoInOrder(states: seq<State>, steps: seq<Step>, i: nat, c: Cond)
    requires IsRun(states, steps) && i < |states|
    ensures var st := states[i];
      Of(st.begun, c) == Of(st.raised, c) + Of(st.waiters, c) && NoDup(Of(st.begun, c))
  {
    RunKeepsInv(states, steps, i);
    assert OrderOk(Of(states[i].begun, c), Of(states[i].raised, c), Of(states[i].waiters, c));
  }

  /** No signal is lost: a thread whose wait got one can go on from sema_down, also when the signal
      came between its lock_release and its sema_down.  And none goes on without: a wait that is past
      sema_down got one. */
  lemma {:induction false} NoSignalIsLost(states: seq<State>, steps: seq<Step>, i: nat, t: Tid)
    requires IsRun(states, steps) && i < |states| && t in states[i].pc && Waits(states[i].pc[t])
    ensures var st, c, w := states[i], states[i].pc[t].c, states[i].pc[t].w;
      && (st.pc[t].Released? ==> (Enabled(st, Down(t)) <==> w in Of(st.raised, c)))
      && (st.pc[t].Raised? ==> w in Of(st.raised, c))
      && (st.pc[t].Queued? ==> w !in Of(st.raised, c))
  {
    RunKeepsInv(states, steps, i);
    var st, c, w := states[i], states[i].pc[t].c, states[i].pc[t].w;
    OnOneSide(st, c, w);
    assert OwnedOk(st, w);
  }

  lemma {:induction false} OnOneSide(st: State, c: Cond, w: Wait)
    requires ListsOk(st) && w in Of(st.begun, c)
    ensures w in Of(st.raised, c) <==> w !in Of(st.waiters, c)
  {
    var begun, raised, list := Of(st.begun, c), Of(st.raised, c), Of(st.waiters, c);
    assert OrderOk(begun, raised, list);
    forall j, k | 0 <= j < |raised| && 0 <= k < |list| ensures raised[j] != list[k] {
      assert raised[j] == begun[j] && list[k] == begun[|raised| + k];
    }
  }

  /** The lock is held by one thread at a time, also across waits. */
  lemma {:induction false} OneInside(states: seq<State>, steps: seq<Step>, i: nat, t: Tid, u: Tid)
    requires IsRun(states, steps) && i < |states| && t in states[i].pc && u in states[i].pc
    requires (states[i].pc[t] == Holding || states[i].pc[t].Queued?) && (states[i].pc[u] == Holding || states[i].pc[u].Queued?)
    ensures t == u
  {
    RunKeepsInv(states, steps, i);
  }

  /** How many of the steps from `i` to `j` are steps of `t`. */
  ghost function Own(steps: seq<Step>, t: Tid, i: nat, j: nat): nat
    requires i <= j <= |steps|
    decreases j
  {
    if i == j then 0 else Own(steps, t, i, j - 1) + if steps[j - 1].t == t then 1 else 0
  }

  /** From `st` to `r` no wait began, and the first `n` waits on the list of `c`, or all of them, were
      signalled in order. */
  ghost predicate Signalled(st: State, r: State, c: Cond, n: nat) {
    var list := Of(st.waiters, c);
    var m := if n <= |list| then n else |list|;
    r.begun == st.begun && Of(r.waiters, c) == list[m..] && Of(r.raised, c) == Of(st.raised, c) + list[..m]
  }

  lemma {:induction false} OneMore(st: State, r: State, t: Tid, c: Cond, n: nat)
    requires Signalled(st, r, c, n) && Enabled(r, Signal(t, c))
    ensures Signalled(st, Apply(r, Signal(t, c)), c, n + 1)
  {
    var list := Of(st.waiters, c);
    if n < |list| {
      assert list[..n + 1] == list[..n] + [list[n]] && list[n..][1..] == list[n + 1..];
    }
  }

  /** While `t` has the lock, a step of another thread neither begins a wait nor signals, and does not
      take the lock away: it can only be the end of a sema_down. */
  lemma {:induction false} OthersStayOut(st: State, step: Step, t: Tid)
    requires HolderOk(st.pc, st.holder) && At(st, t, Holding) && Enabled(st, step) && step.t != t
    ensures var r := Apply(st, step);
      At(r, t, Holding) && r.begun == st.begun && r.waiters == st.waiters && r.raised == st.raised
  {
    assert st.holder == Some(t);
  }

  /** A thread that has the lock and does nothing but signal a condition keeps the lock and reaches
      the waits on its list in order, whatever the other threads do between its signals. */
  lemma {:induction false} SignalsReachInOrder(states: seq<State>, steps: seq<Step>, i: nat, j: nat, t: Tid, c: Cond)
    requires IsRun(states, steps) && i <= j < |states| && At(states[i], t, Holding)
    requires forall k :: i <= k < j && steps[k].t == t ==> steps[k] == Signal(t, c)
    ensures At(states[j], t, Holding) && Signalled(states[i], states[j], c, Own(steps, t, i, j))
    decreases j
  {
    if i < j {
      SignalsReachInOrder(states, steps, i, j - 1, t, c);
      var st, step := states[j - 1], steps[j - 1];
      if step.t == t {
        OneMore(states[i], st, t, c, Own(steps, t, i, j - 1));
      } else {
        RunKeepsInv(states, steps, j - 1);
        OthersStayOut(st, step, t);
      }
    }
  }

  /** cond_broadcast by the holder of the lock, with any steps of other threads between its signals:
      it keeps the lock, so no wait begins meanwhile; the list is empty exactly when it has signalled
      as often as there were waits on it, and then every wait begun before has got a signal, in order. */
  lemma {:induction false} BroadcastRaisesAll(states: seq<State>, steps: seq<Step>, i: nat, j: nat, t: Tid, c: Cond)
    requires IsRun(states, steps) && i <= j < |states| && At(states[i], t, Holding)
    requires forall k :: i <= k < j && steps[k].t == t ==> steps[k] == Signal(t, c)
    ensures At(states[j], t, Holding) && states[j].begun == states[i].begun
    ensures Of(states[j].waiters, c) == [] <==> Own(steps, t, i, j) >= |Of(states[i].waiters, c)|
    ensures Of(states[j].waiters, c) == [] ==> Of(states[j].raised, c) == Of(states[i].begun, c)
  {
    SignalsReachInOrder(states, steps, i, j, t, c);
    SignalsGoInOrder(states, steps, i, c);
    SignalsGoInOrder(states, steps, j, c);
  }

  // ----- What each step does -----

  /** Where each step takes the thread that makes it. */
  ghost predicate Moves(step: Step, pc: Pc, pc': Pc) {
    match step
    case Enter(_) => pc == Outside && pc' == Holding
    case Leave(_) => pc == Holding && pc' == Outside
    case BeginWait(_, c, w) => pc == Holding && pc' == Queued(c, w)
    case Release(_) => pc.Queued? && pc' == Released(pc.c, pc.w)
    case Down(_) => pc.Released? && pc' == Raised(pc.c, pc.w)
    case Reacquire(_) => pc.Raised? && pc' == Holding
    case Signal(_, _) => pc == pc' == Holding
  }

  lemma {:induction false} StepMovesThread(st: State, step: Step, u: Tid)
    requires HolderOk(st.pc, st.holder) && Enabled(st, step)
    ensures var r, t := Apply(st, step), step.t;
      && r.pc.Keys == st.pc.Keys && Moves(step, st.pc[t], r.pc[t]) && (u in st.pc && u != t ==> r.pc[u] == st.pc[u])
      && (step.Enter? || step.Reacquire? ==> st.holder == None && r.holder == Some(t))
      && (step.Leave? || step.Release? ==> st.holder == Some(t) && r.holder == None)
  {
  }

  lemma {:induction false} StepMovesList(st: State, step: Step, c: Cond)
    requires Enabled(st, step)
    ensures var r := Apply(st, step);
      && (Of(r.waiters, c) != Of(st.waiters, c) ==> (step.BeginWait? || step.Signal?) && step.c == c)
      && (step.Signal? && Of(st.waiters, step.c) == [] ==> r == st)
  {
  }

  /** Every step moves its thread and no other; acquiring takes a free lock and releasing frees it; the
      list of a condition changes by a wait or a signal on it only, and a signal to nobody does nothing. */
  lemma {:induction false} StepMoves(states: seq<State>, steps: seq<Step>, i: nat, u: Tid, c: Cond)
    requires IsRun(states, steps) && i < |steps|
    ensures var st, r, t := states[i], states[i + 1], steps[i].t;
      && t in st.pc && r.pc.Keys == st.pc.Keys && Moves(steps[i], st.pc[t], r.pc[t]) && (u in st.pc && u != t ==> r.pc[u] == st.pc[u])
      && (steps[i].Enter? || steps[i].Reacquire? ==> st.holder == None && r.holder == Some(t))
      && (steps[i].Leave? || steps[i].Release? ==> st.holder == Some(t) && r.holder == None)
      && (Of(r.waiters, c) != Of(st.waiters, c) ==> (steps[i].BeginWait? || steps[i].Signal?) && steps[i].c == c)
      && (steps[i].Signal? && Of(st.waiters, steps[i].c) == [] ==> r == st)
  {
    RunKeepsInv(states, steps, i);
    assert Enabled(states[i], steps[i]) && states[i + 1] == Apply(states[i], steps[i]);
    StepMovesThread(states[i], steps[i], u);
    StepMovesList(states[i], steps[i], c);
  }

  /** The waits on `c` that the first `i` steps began, in order. */
  ghost function Begun(steps: seq<Step>, c: Cond, i: nat): seq<Wait>
    requires i <= |steps|
  {
    if i == 0 then []
    else
      match steps[i - 1]
      case BeginWait(_, d, w) => if d == c then Begun(steps, c, i - 1) + [w] else Begun(steps, c, i - 1)
      case _ => Begun(steps, c, i - 1)
  }

  lemma {:induction false} BeginIsNoted(st: State, step: Step, c: Cond)
    requires Enabled(st, step)
    ensures Of(Apply(st, step).begun, c) ==
      match step
      case BeginWait(_, d, w) => if d == c then Of(st.begun, c) + [w] else Of(st.begun, c)
      case _ => Of(st.begun, c)
  {
  }

  /** The history of a condition is the order in which cond_wait was called on it. */
  lemma {:induction false} BegunInOrder(states: seq<State>, steps: seq<Step>, c: Cond, i: nat)
    requires IsRun(states, steps) && i < |states|
    ensures Of(states[i].begun, c) == Begun(steps, c, i)
  {
    if i > 0 {
      var k := i - 1;
      BegunInOrder(states, steps, c, k);
      assert Enabled(states[k], steps[k]);
      BeginIsNoted(states[k], steps[k], c);
    }
  }

  // ----- A whole cond_wait -----

  /** Thread `t` has made `n` steps since it called cond_wait. */
  ghost predicate Staged(st: State, t: Tid, c: Cond, w: Wait, n: nat) {
    t in st.pc && n <= 2 && st.pc[t] == if n == 0 then Queued(c, w) else if n == 1 then Released(c, w) else Raised(c, w)
  }

  lemma {:induction false} WaitGoesOn(st: State, step: Step, t: Tid, c: Cond, w: Wait, n: nat)
    requires Enabled(st, step) && Staged(st, t, c, w, n)
    ensures var r := Apply(st, step);
      if step.t != t then Staged(r, t, c, w, n)
      else if n < 2 then Staged(r, t, c, w, n + 1)
      else step == Reacquire(t) && At(r, t, Holding) && r.holder == Some(t)
  {
  }

  ghost predicate InWait(st: State, t: Tid) {
    t in st.pc && Waits(st.pc[t])
  }

  lemma {:induction false} WaitStage(states: seq<State>, steps: seq<Step>, i: nat, k: nat, t: Tid, c: Cond, w: Wait)
    requires IsRun(states, steps) && i < k < |states| && steps[i] == BeginWait(t, c, w)
    requires forall m :: i < m <= k ==> InWait(states[m], t)
    ensures Staged(states[k], t, c, w, Own(steps, t, i + 1, k))
    decreases k
  {
    var m := k - 1;
    assert Enabled(states[m], steps[m]) && states[k] == Apply(states[m], steps[m]);
    if i < m {
      WaitStage(states, steps, i, m, t, c, w);
      WaitGoesOn(states[m], steps[m], t, c, w, Own(steps, t, i + 1, m));
      assert InWait(states[k], t);
    }
  }

  /** cond_wait returns holding the lock, after exactly three further steps of its own, and only because
      its wait was signalled since it was called. */
  lemma {:induction false} WaitReturnsHolding(states: seq<State>, steps: seq<Step>, i: nat, j: nat, t: Tid, c: Cond, w: Wait)
    requires IsRun(states, steps) && i + 1 < j < |states| && steps[i] == BeginWait(t, c, w)
    requires (forall m :: i < m < j ==> InWait(states[m], t)) && !InWait(states[j], t)
    ensures At(states[j], t, Holding) && states[j].holder == Some(t) && Own(steps, t, i + 1, j) == 3
    ensures w in Of(states[j].raised, c) && w !in Of(states[i + 1].raised, c)
  {
    var k := j - 1;
    WaitStage(states, steps, i, k, t, c, w);
    WaitStage(states, steps, i, i + 1, t, c, w);
    assert Enabled(states[k], steps[k]) && states[j] == Apply(states[k], steps[k]);
    WaitGoesOn(states[k], steps[k], t, c, w, Own(steps, t, i + 1, k));
    NoSignalIsLost(states, steps, k, t);
    NoSignalIsLost(states, steps, i + 1, t);
    assert states[j].raised == states[k].raised;
  }
}
