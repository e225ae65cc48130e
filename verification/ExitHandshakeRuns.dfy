/** What process_wait returns, told from the steps of a run: who started whom, who has waited already,
    and which number a process stored last. */
module ExitHandshakeRuns {
  import opened Common
  import opened Seqs
  import opened ExitHandshake

  // ----- What the history fields say about the steps so far -----

  /** An earlier step of `p` started `c`. */
  ghost predicate Started(states: seq<State>, steps: seq<Step>, i: nat, p: Tid, c: Tid)
    requires i <= |steps| <= |states|
  {
    exists k :: 0 <= k < i && steps[k] == Spawn(p) && states[k].next == c
  }

  /** The step is the one in which a process_wait takes the exit number of `c`. */
  ghost predicate Takes(st: State, step: Step, c: Tid) {
    step.ReadNumber? && step.p in st.pc && Target(st.pc[step.p]) == Some(c)
  }

  /** An earlier process_wait took the exit number of `c`. */
  ghost predicate Taken(states: seq<State>, steps: seq<Step>, i: nat, c: Tid)
    requires i <= |steps| <= |states|
  {
    exists k :: 0 <= k < i && Takes(states[k], steps[k], c)
  }

  /** The number that `c` stored last; a process starts with 0. */
  ghost function LastNumber(steps: seq<Step>, c: Tid, i: nat): int
    requires i <= |steps|
  {
    if i == 0 then 0
    else
      match steps[i - 1]
      case SetExitNumber(p, v) => if p == c then v else LastNumber(steps, c, i - 1)
      case _ => LastNumber(steps, c, i - 1)
  }

  /** The next thread's number is not used yet. */
  ghost predicate NextIsNew(st: State) {
    && st.next !in st.pc && st.next !in st.parent && st.next !in st.sema1 && st.next !in st.sema2
    && st.next !in st.exitNumber && st.next !in st.readings
  }

  lemma {:induction false} RunStep(states: seq<State>, steps: seq<Step>, k: nat)
    requires IsRun(states, steps) && k < |steps|
    ensures NextIsNew(states[k]) && Enabled(states[k], steps[k]) && states[k + 1] == Apply(states[k], steps[k])
  {
    RunKeepsInv(states, steps, k);
    var st := states[k];
    assert st.next !in st.pc.Keys && st.next !in st.parent.Keys;
  }

  ghost predicate IsChild(st: State, p: Tid, c: Tid) {
    c in st.parent && st.parent[c] == p
  }

  ghost predicate IsRead(st: State, c: Tid) {
    c in st.readings && st.readings[c] > 0
  }

  lemma {:induction false} OneStepStarts(states: seq<State>, steps: seq<Step>, k: nat, p: Tid, c: Tid)
    requires IsRun(states, steps) && k < |steps|
    ensures IsChild(states[k + 1], p, c) <==> IsChild(states[k], p, c) || (steps[k] == Spawn(p) && states[k].next == c)
  {
    RunStep(states, steps, k);
  }

  lemma {:induction false} StartedNow(states: seq<State>, steps: seq<Step>, k: nat, p: Tid, c: Tid)
    requires k < |steps| <= |states|
    ensures Started(states, steps, k + 1, p, c) <==> Started(states, steps, k, p, c) || (steps[k] == Spawn(p) && states[k].next == c)
  {
    if Started(states, steps, k + 1, p, c) {
      var m :| 0 <= m < k + 1 && steps[m] == Spawn(p) && states[m].next == c;
      assert m < k ==> Started(states, steps, k, p, c);
    }
  }

  /** A process has the parent that started it, and no other. */
  lemma {:induction false} ParentIsStarter(states: seq<State>, steps: seq<Step>, i: nat, p: Tid, c: Tid)
    requires IsRun(states, steps) && i < |states|
    ensures IsChild(states[i], p, c) <==> Started(states, steps, i, p, c)
  {
    if i > 0 {
      var k := i - 1;
      ParentIsStarter(states, steps, k, p, c);
      OneStepStarts(states, steps, k, p, c);
      StartedNow(states, steps, k, p, c);
    }
  }

  lemma {:induction false} OneStepTakes(states: seq<State>, steps: seq<Step>, k: nat, c: Tid)
    requires IsRun(states, steps) && k < |steps|
    ensures IsRead(states[k + 1], c) <==> IsRead(states[k], c) || Takes(states[k], steps[k], c)
  {
    RunStep(states, steps, k);
  }

  lemma {:induction false} TakenNow(states: seq<State>, steps: seq<Step>, k: nat, c: Tid)
    requires k < |steps| <= |states|
    ensures Taken(states, steps, k + 1, c) <==> Taken(states, steps, k, c) || Takes(states[k], steps[k], c)
  {
    if Taken(states, steps, k + 1, c) {
      var m :| 0 <= m < k + 1 && Takes(states[m], steps[m], c);
      assert m < k ==> Taken(states, steps, k, c);
    }
  }

  /** The history field counts: it is positive once the number has been taken. */
  lemma {:induction false} ReadingsAreTaken(states: seq<State>, steps: seq<Step>, i: nat, c: Tid)
    requires IsRun(states, steps) && i < |states|
    ensures IsRead(states[i], c) <==> Taken(states, steps, i, c)
  {
    if i > 0 {
      var k := i - 1;
      ReadingsAreTaken(states, steps, k, c);
      OneStepTakes(states, steps, k, c);
      TakenNow(states, steps, k, c);
    }
  }

  /** A process's exit number is the one it stored last. */
  lemma {:induction false} NumberIsLast(states: seq<State>, steps: seq<Step>, i: nat, c: Tid)
    requires IsRun(states, steps) && i < |states|
    ensures NumberOf(states[i].exitNumber, c) == LastNumber(steps, c, i)
  {
    if i > 0 {
      var k := i - 1;
      NumberIsLast(states, steps, k, c);
      OneStepStores(states, steps, k, c);
    }
  }

  function NumberOf(m: map<Tid, int>, c: Tid): int {
    if c in m then m[c] else 0
  }

  ghost predicate Stored(m: map<Tid, int>, step: Step, m': map<Tid, int>, c: Tid) {
    match step
    case SetExitNumber(p, v) => NumberOf(m', c) == if p == c then v else NumberOf(m, c)
    case _ => NumberOf(m', c) == NumberOf(m, c)
  }

  lemma {:induction false} OneStepStores(states: seq<State>, steps: seq<Step>, k: nat, c: Tid)
    requires IsRun(states, steps) && k < |steps|
    ensures Stored(states[k].exitNumber, steps[k], states[k + 1].exitNumber, c)
  {
    RunStep(states, steps, k);
  }

  // ----- process_wait -----

  lemma {:induction false} ListedExactly(st: State, p: Tid, c: Tid)
    requires Inv(st) && Enabled(st, BeginWait(p, c))
    ensures c in st.children[p] <==> IsChild(st, p, c) && !IsRead(st, c)
  {
    if c in st.parent && st.parent[c] == p {
      assert ChildOk(st.pc, st.parent, st.children, st.sema1, st.sema2, st.readings, c);
    }
  }

  /** process_wait returns -1 at once, and changes nothing, exactly when `c` is not a child of `p` or its
      exit number has been read; otherwise `p` goes to wait for it. */
  lemma {:induction false} WaitFailsExactly(states: seq<State>, steps: seq<Step>, i: nat, p: Tid, c: Tid)
    requires IsRun(states, steps) && i < |states| && Enabled(states[i], BeginWait(p, c))
    ensures var st := states[i];
      var child := IsChild(st, p, c) && !IsRead(st, c);
      && (child <==> Started(states, steps, i, p, c) && !Taken(states, steps, i, c))
      && Returned(st, BeginWait(p, c)) == (if child then None else Some(-1))
      && Apply(st, BeginWait(p, c)) == (if child then st.(pc := st.pc[p := Waiting(c)]) else st)
  {
    RunKeepsInv(states, steps, i);
    ListedExactly(states[i], p, c);
    ParentIsStarter(states, steps, i, p, c);
    ReadingsAreTaken(states, steps, i, c);
  }

  /** A process in process_wait stays there until its own sema_up on the second semaphore. */
  lemma {:induction false} WaitGoesOn(st: State, step: Step, p: Tid, c: Tid)
    requires NextIsNew(st) && Enabled(st, step) && p in st.pc && Target(st.pc[p]) == Some(c)
    ensures var r := Apply(st, step);
      && p in r.pc
      && if step == UpSecond(p) then r.pc[p] == Running && st.pc[p].HasRead? else Target(r.pc[p]) == Some(c)
  {
  }

  ghost predicate IsRunning(st: State, p: Tid) {
    p in st.pc && st.pc[p] == Running
  }

  lemma {:induction false} StillWaiting(states: seq<State>, steps: seq<Step>, i: nat, k: nat, p: Tid, c: Tid)
    requires IsRun(states, steps) && i <= k < |states| && p in states[i].pc && states[i].pc[p] == Waiting(c)
    requires forall m :: i <= m <= k ==> !IsRunning(states[m], p)
    ensures p in states[k].pc && Target(states[k].pc[p]) == Some(c)
    decreases k
  {
    if i < k {
      var m := k - 1;
      StillWaiting(states, steps, i, m, p, c);
      RunStep(states, steps, m);
      WaitGoesOn(states[m], steps[m], p, c);
      assert !IsRunning(states[k], p);
    }
  }

  /** Both ends of a wait: before, nobody has read the number; at the last step it has been read once. */
  lemma {:induction false} ReadingsOfWait(states: seq<State>, steps: seq<Step>, i: nat, p: Tid, c: Tid)
    requires IsRun(states, steps) && i < |states| && p in states[i].pc && Target(states[i].pc[p]) == Some(c)
    ensures c in states[i].readings && c in states[i].pc && c in states[i].exitNumber && p != c
    ensures states[i].pc[p] == Waiting(c) ==> states[i].readings[c] == 0
    ensures states[i].pc[p].HasRead? ==> states[i].readings[c] == 1 && states[i].pc[c] == Offered
  {
    RunKeepsInv(states, steps, i);
    var st := states[i];
    assert ChildOk(st.pc, st.parent, st.children, st.sema1, st.sema2, st.readings, c);
    assert c in st.pc.Keys;
  }

  /** The step with which a wait ends. */
  lemma {:induction false} WaitEnds(states: seq<State>, steps: seq<Step>, k: nat, p: Tid, c: Tid)
    requires IsRun(states, steps) && k < |steps| && p in states[k].pc && Target(states[k].pc[p]) == Some(c)
    requires IsRunning(states[k + 1], p)
    ensures steps[k] == UpSecond(p) && Enabled(states[k], UpSecond(p)) && states[k].pc[p].HasRead?
    ensures states[k + 1].readings == states[k].readings
    ensures c in states[k].pc && c in states[k + 1].pc && states[k + 1].pc[c] == states[k].pc[c]
  {
    RunStep(states, steps, k);
    WaitGoesOn(states[k], steps[k], p, c);
    ReadingsOfWait(states, steps, k, p, c);
  }

  /** From waiting for `c` to running again: the step that ends it returns the number `c` stored last in
      the whole run, `c` has exited, and of all process_waits this one read its number, once. */
  lemma {:induction false} WaitReturns(states: seq<State>, steps: seq<Step>, i: nat, j: nat, p: Tid, c: Tid)
    requires IsRun(states, steps) && i < j < |states| && p in states[i].pc && states[i].pc[p] == Waiting(c)
    requires forall m :: i <= m < j ==> !IsRunning(states[m], p)
    requires IsRunning(states[j], p)
    ensures steps[j - 1] == UpSecond(p) && Enabled(states[j - 1], UpSecond(p))
    ensures Returned(states[j - 1], UpSecond(p)) == Some(LastNumber(steps, c, |steps|))
    ensures c in states[j].pc && states[j].pc[c] == Offered
    ensures c in states[i].readings && states[i].readings[c] == 0 && c in states[j].readings && states[j].readings[c] == 1
  {
    var k := j - 1;
    StillWaiting(states, steps, i, k, p, c);
    WaitEnds(states, steps, k, p, c);
    ReadingsOfWait(states, steps, i, p, c);
    ReadingsOfWait(states, steps, k, p, c);
    ReturnsFinalNumber(states, steps, k, |steps|, p);
    NumberIsLast(states, steps, |steps|, c);
  }

  // ----- The steps of process_exit, and the semaphores -----

  /** Where each step takes the process that makes it. */
  ghost predicate Moves(step: Step, pc: Pc, pc': Pc) {
    match step
    case Spawn(_) => pc == pc' == Running
    case SetExitNumber(_, _) => pc == pc' == Running
    case BeginWait(_, c) => pc == Running && (pc' == Running || pc' == Waiting(c))
    case DownFirst(_) => pc.Waiting? && pc' == Woken(pc.c)
    case Unlink(_) => pc.Woken? && pc' == Unlinked(pc.c)
    case ReadNumber(_) => pc.Unlinked? && pc'.HasRead? && pc'.c == pc.c
    case UpSecond(_) => pc.HasRead? && pc' == Running
    case BeginExit(_) => pc == Running && pc' == Exiting
    case UpFirst(_) => pc == Exiting && pc' == Offered
    case DownSecond(_) => pc == Offered && pc' == Claimed
    case FreePage(_) => pc == Claimed && pc' == Gone
  }

  /** Every step moves its process along process_wait or process_exit and no other process; a new
      process, with a number not used before, runs. */
  lemma {:induction false} StepMoves(states: seq<State>, steps: seq<Step>, i: nat, q: Tid)
    requires IsRun(states, steps) && i < |steps|
    ensures var st, r, p := states[i], states[i + 1], steps[i].p;
      && p in st.pc && p in r.pc && Moves(steps[i], st.pc[p], r.pc[p])
      && (q in r.pc <==> q in st.pc || (steps[i].Spawn? && q == st.next))
      && (q in st.pc && q != p ==> r.pc[q] == st.pc[q])
      && (steps[i].Spawn? ==> st.next !in st.pc && r.pc[st.next] == Running)
  {
    RunStep(states, steps, i);
    assert states[i].next !in states[i].pc.Keys;
  }

  /** How often the first semaphore of `c` has been upped, and downed. */
  ghost function Offers(steps: seq<Step>, c: Tid, i: nat): nat
    requires i <= |steps|
  {
    if i == 0 then 0 else Offers(steps, c, i - 1) + if steps[i - 1] == UpFirst(c) then 1 else 0
  }

  ghost predicate Downs(st: State, step: Step, c: Tid) {
    step.DownFirst? && step.p in st.pc && st.pc[step.p] == Waiting(c)
  }

  ghost function Waits(states: seq<State>, steps: seq<Step>, c: Tid, i: nat): nat
    requires i <= |steps| <= |states|
  {
    if i == 0 then 0 else Waits(states, steps, c, i - 1) + if Downs(states[i - 1], steps[i - 1], c) then 1 else 0
  }

  ghost predicate Ups(st: State, step: Step, c: Tid) {
    step.UpSecond? && step.p in st.pc && Target(st.pc[step.p]) == Some(c)
  }

  /** How often the second semaphore of `c` has been upped, and downed. */
  ghost function Answers(states: seq<State>, steps: seq<Step>, c: Tid, i: nat): nat
    requires i <= |steps| <= |states|
  {
    if i == 0 then 0 else Answers(states, steps, c, i - 1) + if Ups(states[i - 1], steps[i - 1], c) then 1 else 0
  }

  ghost function Claims(steps: seq<Step>, c: Tid, i: nat): nat
    requires i <= |steps|
  {
    if i == 0 then 0 else Claims(steps, c, i - 1) + if steps[i - 1] == DownSecond(c) then 1 else 0
  }

  function ValueOf(m: map<Tid, nat>, c: Tid): nat {
    if c in m then m[c] else 0
  }

  ghost predicate Counted(st: State, step: Step, r: State, c: Tid) {
    && ValueOf(r.sema1, c) + (if Downs(st, step, c) then 1 else 0)
       == ValueOf(st.sema1, c) + (if step == UpFirst(c) then 1 else 0)
    && ValueOf(r.sema2, c) + (if step == DownSecond(c) then 1 else 0)
       == ValueOf(st.sema2, c) + (if Ups(st, step, c) then 1 else 0)
  }

  lemma {:induction false} OneStepCounts(states: seq<State>, steps: seq<Step>, k: nat, c: Tid)
    requires IsRun(states, steps) && k < |steps|
    ensures Counted(states[k], steps[k], states[k + 1], c)
  {
    RunStep(states, steps, k);
  }

  /** Neither semaphore loses or invents anything: its value is the number of ups minus the number of
      downs since the process was started. */
  lemma {:induction false} SemaphoresCount(states: seq<State>, steps: seq<Step>, c: Tid, i: nat)
    requires IsRun(states, steps) && i < |states|
    ensures ValueOf(states[i].sema1, c) + Waits(states, steps, c, i) == Offers(steps, c, i)
    ensures ValueOf(states[i].sema2, c) + Claims(steps, c, i) == Answers(states, steps, c, i)
  {
    if i > 0 {
      var k := i - 1;
      SemaphoresCount(states, steps, c, k);
      OneStepCounts(states, steps, k, c);
    }
  }
}
