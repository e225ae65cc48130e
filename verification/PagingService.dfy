/** What becomes of a page fault, and of setting up the stack: served, or failed for a reason. */
module PagingService {
  import opened Common
  import opened Paging
  import opened PagingInvariant
  import opened PagingSteps
  import opened PagingTheorems

  /** With what access a page is mapped when it comes in: as the segment said if it comes from its
      file, else writable. */
  function Access(e: Entry): bool {
    e.status == FromFilesys ==> e.src.writable
  }

  /** Page `a` is mapped to the frame that its entry names. */
  ghost predicate Served(spt: Spt, ptes: Ptes, a: Addr, w: bool) {
    Present(ptes, a) && ptes[a].writable == w && OnFrameAt(spt, a, ptes[a].frame)
  }

  /** Its process is somewhere between the fault on page `a`, or the set-up of the stack there, and
      its end: mapped with access `w`, or on the way out. */
  ghost predicate Serving(c: Pc, spt: Spt, ptes: Ptes, a: Addr, kind: Kind, w: bool) {
    match c
    case Waiting(b, k) => b == a && k == kind && Promised(spt, a, kind, w)
    case Allocating(b, k) => b == a && k == kind && Promised(spt, a, kind, w)
    case Loading(b, k, f, stage) =>
      && b == a && k == kind
      && (match stage
          case Filled(x) => x == w
          case Mapped => Present(ptes, a) && ptes[a].writable == w && ptes[a].frame == f
          case Recorded => Served(spt, ptes, a, w) && ptes[a].frame == f
          case Dropping => true
          case _ => Promised(spt, a, kind, w))
    case _ => false
  }

  /** The access that the entry promises; a stack is writable. */
  ghost predicate Promised(spt: Spt, a: Addr, kind: Kind, w: bool) {
    if kind == Stack then w else a in spt && Access(spt[a]) == w
  }

  /** A step of process `p` that makes its fault fail. */
  predicate Fails(step: Step, p: Pid) {
    match step
    case Alloc(q, f) => q == p && f.InsertFail?
    case Copy(q, x) => q == p && x.FileFail?
    case Map(q, i) => q == p && (i.MapFail? || i.RecordFail?)
    case _ => false
  }

  /** On the way out. */
  predicate Failed(c: Pc) {
    c.Dead? || (c.Loading? && c.stage == Dropping)
  }

  /** The process was at `before` and is at `c`: served, or on its way; and on its way out exactly if
      it was before or `fails`. */
  ghost predicate GoesOn(before: Pc, fails: bool, c: Pc, spt: Spt, ptes: Ptes, a: Addr, kind: Kind, w: bool) {
    && (c == Running ==> Served(spt, ptes, a, w))
    && (c != Running && !c.Dead? ==> Serving(c, spt, ptes, a, kind, w))
    && (Failed(c) <==> Failed(before) || fails)
  }

  // ----- Steps of the process itself -----

  lemma {:induction false} OwnAlloc(st: State, p: Pid, step: AllocStep, a: Addr, kind: Kind, w: bool)
    requires p in st.pc && AllocEnabled(st, p, step) && Serving(st.pc[p], st.spt, st.ptes, a, kind, w)
    ensures var t := AllocApply(st, p, step); GoesOn(st.pc[p], step.InsertFail?, t.pc[p], t.spt, t.ptes, a, kind, w)
  {
  }

  lemma {:induction false} OwnFill(st: State, p: Pid, step: FillStep, a: Addr, kind: Kind, w: bool)
    requires p in st.pc && FillEnabled(st, p, step) && Serving(st.pc[p], st.spt, st.ptes, a, kind, w)
    requires PcOk(p, st.pc[p], st.spt, st.ptes)
    ensures var t := FillApply(st, p, step); GoesOn(st.pc[p], false, t.pc[p], t.spt, t.ptes, a, kind, w)
  {
  }

  lemma {:induction false} OwnCopy(st: State, p: Pid, step: CopyStep, a: Addr, kind: Kind, w: bool)
    requires p in st.pc && CopyEnabled(st, p, step) && Serving(st.pc[p], st.spt, st.ptes, a, kind, w)
    requires PcOk(p, st.pc[p], st.spt, st.ptes)
    ensures var t := CopyApply(st, p, step); GoesOn(st.pc[p], step.FileFail?, t.pc[p], t.spt, t.ptes, a, kind, w)
  {
  }

  lemma {:induction false} OwnMap(st: State, p: Pid, step: MapStep, a: Addr, kind: Kind, w: bool)
    requires p in st.pc && MapEnabled(st, p, step) && Serving(st.pc[p], st.spt, st.ptes, a, kind, w)
    ensures var t := MapApply(st, p, step);
      GoesOn(st.pc[p], step.MapFail? || step.RecordFail?, t.pc[p], t.spt, t.ptes, a, kind, w)
  {
  }

  // ----- Steps of the others -----

  lemma {:induction false} StartsKeep(st: State, step: StartStep, a: Addr, kind: Kind, w: bool)
    requires StartEnabled(st, step) && a.p in st.pc && Serving(st.pc[a.p], st.spt, st.ptes, a, kind, w)
    ensures var t := StartApply(st, step);
      a.p in t.pc && GoesOn(st.pc[a.p], false, t.pc[a.p], t.spt, t.ptes, a, kind, w)
  {
  }

  /** An access or a fault of a process concerns no page of another process. */
  lemma {:induction false} AccessIsOwn(st: State, step: UserStep, a: Addr)
    requires UserEnabled(st, step) && step.a.p != a.p && a.p in st.pc && !step.FaultBegin?
    ensures var t := UserApply(st, step);
      a.p in t.pc && t.pc[a.p] == st.pc[a.p] && t.ptes == st.ptes && t.spt == st.spt
  {
  }

  lemma {:induction false} FaultIsOwn(st: State, b: Addr, onStack: bool, a: Addr)
    requires UserEnabled(st, FaultBegin(b, onStack)) && b.p != a.p && a.p in st.pc
    ensures var t := UserApply(st, FaultBegin(b, onStack));
      && a.p in t.pc && t.pc[a.p] == st.pc[a.p] && t.ptes == st.ptes
      && (a in t.spt <==> a in st.spt) && (a in st.spt ==> t.spt[a] == st.spt[a])
  {
    if b in st.spt {
    } else if onStack {
    }
  }

  lemma {:induction false} UsersKeep(st: State, step: UserStep, a: Addr, kind: Kind, w: bool)
    requires UserEnabled(st, step) && a.p in st.pc && Serving(st.pc[a.p], st.spt, st.ptes, a, kind, w)
    ensures var t := UserApply(st, step);
      a.p in t.pc && GoesOn(st.pc[a.p], false, t.pc[a.p], t.spt, t.ptes, a, kind, w)
  {
    assert step.a.p != a.p;
    if step.FaultBegin? {
      FaultIsOwn(st, step.a, step.onStack, a);
    } else {
      AccessIsOwn(st, step, a);
    }
    SameServing(st.pc[a.p], st.spt, st.ptes, UserApply(st, step).spt, a, kind, w);
  }

  lemma {:induction false} SameServing(c: Pc, spt: Spt, ptes: Ptes, spt': Spt, a: Addr, kind: Kind, w: bool)
    requires Serving(c, spt, ptes, a, kind, w) && (a in spt' <==> a in spt) && (a in spt ==> spt'[a] == spt[a])
    ensures Serving(c, spt', ptes, a, kind, w)
  {
  }

  /** A victim is the page of an unpinned frame; the page being served is not one. */
  lemma {:induction false} VictimIsOther(st: State, a: Addr, kind: Kind, w: bool, k: Frame)
    requires a.p in st.pc && Serving(st.pc[a.p], st.spt, st.ptes, a, kind, w)
    requires PcOk(a.p, st.pc[a.p], st.spt, st.ptes) && FreshInv(st.pc, st.spt, st.ptes)
    requires FrameInv(st.spt, st.frames, st.lock) && PinInv(st.pc, st.frames)
    requires k in st.frames && !st.frames[k].pinned && !IsRetired(st.lock, k)
    ensures var c := st.pc[a.p];
      var mapped := c.Loading? && (c.stage == Mapped || c.stage == Recorded);
      var over := c.Loading? && (c.stage.Filled? || c.stage == Dropping);
      mapped || (kind == Fault && !over) ==> st.frames[k].a != a
  {
  }

  lemma {:induction false} EvictsKeep(st: State, q: Pid, step: EvictStep, a: Addr, kind: Kind, w: bool)
    requires EvictEnabled(st, q, step) && a.p in st.pc && Serving(st.pc[a.p], st.spt, st.ptes, a, kind, w)
    requires PcOk(a.p, st.pc[a.p], st.spt, st.ptes) && FreshInv(st.pc, st.spt, st.ptes)
    requires FrameInv(st.spt, st.frames, st.lock) && PinInv(st.pc, st.frames) && PoolInv(st.pool, st.frames, st.mem, st.lock)
    ensures var t := EvictApply(st, q, step);
      a.p in t.pc && GoesOn(st.pc[a.p], false, t.pc[a.p], t.spt, t.ptes, a, kind, w)
  {
    if step.Pick? {
      VictimIsOther(st, a, kind, w, step.victim);
    } else if step.SetSwap? {
      VictimIsOther(st, a, kind, w, st.lock.victim);
    }
  }

  lemma {:induction false} FillsKeep(st: State, q: Pid, step: FillStep, a: Addr, kind: Kind, w: bool)
    requires q in st.pc && q != a.p && FillEnabled(st, q, step) && a.p in st.pc && Serving(st.pc[a.p], st.spt, st.ptes, a, kind, w)
    ensures var t := FillApply(st, q, step);
      a.p in t.pc && GoesOn(st.pc[a.p], false, t.pc[a.p], t.spt, t.ptes, a, kind, w)
  {
  }

  lemma {:induction false} CopiesKeep(st: State, q: Pid, step: CopyStep, a: Addr, kind: Kind, w: bool)
    requires q in st.pc && q != a.p && CopyEnabled(st, q, step) && a.p in st.pc && Serving(st.pc[a.p], st.spt, st.ptes, a, kind, w)
    ensures var t := CopyApply(st, q, step);
      a.p in t.pc && GoesOn(st.pc[a.p], false, t.pc[a.p], t.spt, t.ptes, a, kind, w)
  {
  }

  lemma {:induction false} AllocsKeep(st: State, q: Pid, step: AllocStep, a: Addr, kind: Kind, w: bool)
    requires q in st.pc && q != a.p && AllocEnabled(st, q, step) && a.p in st.pc && Serving(st.pc[a.p], st.spt, st.ptes, a, kind, w)
    ensures var t := AllocApply(st, q, step);
      a.p in t.pc && GoesOn(st.pc[a.p], false, t.pc[a.p], t.spt, t.ptes, a, kind, w)
  {
  }

  lemma {:induction false} MapsKeep(st: State, q: Pid, step: MapStep, a: Addr, kind: Kind, w: bool)
    requires q in st.pc && q != a.p && MapEnabled(st, q, step) && a.p in st.pc && Serving(st.pc[a.p], st.spt, st.ptes, a, kind, w)
    requires PinInv(st.pc, st.frames)
    ensures var t := MapApply(st, q, step);
      a.p in t.pc && GoesOn(st.pc[a.p], false, t.pc[a.p], t.spt, t.ptes, a, kind, w)
  {
  }

  // ----- Every run -----

  lemma {:induction false} OwnAllocStep(st: State, step: Step, a: Addr, kind: Kind, w: bool)
    requires Enabled(st, step) && a.p in st.pc && Serving(st.pc[a.p], st.spt, st.ptes, a, kind, w)
    requires PcOk(a.p, st.pc[a.p], st.spt, st.ptes) && step.Alloc? && step.p == a.p
    ensures var t := Apply(st, step); a.p in t.pc && GoesOn(st.pc[a.p], Fails(step, a.p), t.pc[a.p], t.spt, t.ptes, a, kind, w)
  {
    OwnAlloc(st, a.p, step.f, a, kind, w);
  }

  lemma {:induction false} OwnFillStep(st: State, step: Step, a: Addr, kind: Kind, w: bool)
    requires Enabled(st, step) && a.p in st.pc && Serving(st.pc[a.p], st.spt, st.ptes, a, kind, w)
    requires PcOk(a.p, st.pc[a.p], st.spt, st.ptes) && step.Fill? && step.p == a.p
    ensures var t := Apply(st, step); a.p in t.pc && GoesOn(st.pc[a.p], Fails(step, a.p), t.pc[a.p], t.spt, t.ptes, a, kind, w)
  {
    OwnFill(st, a.p, step.l, a, kind, w);
  }

  lemma {:induction false} OwnCopyStep(st: State, step: Step, a: Addr, kind: Kind, w: bool)
    requires Enabled(st, step) && a.p in st.pc && Serving(st.pc[a.p], st.spt, st.ptes, a, kind, w)
    requires PcOk(a.p, st.pc[a.p], st.spt, st.ptes) && step.Copy? && step.p == a.p
    ensures var t := Apply(st, step); a.p in t.pc && GoesOn(st.pc[a.p], Fails(step, a.p), t.pc[a.p], t.spt, t.ptes, a, kind, w)
  {
    OwnCopy(st, a.p, step.x, a, kind, w);
  }

  lemma {:induction false} OwnMapStep(st: State, step: Step, a: Addr, kind: Kind, w: bool)
    requires Enabled(st, step) && a.p in st.pc && Serving(st.pc[a.p], st.spt, st.ptes, a, kind, w)
    requires PcOk(a.p, st.pc[a.p], st.spt, st.ptes) && step.Map? && step.p == a.p
    ensures var t := Apply(st, step); a.p in t.pc && GoesOn(st.pc[a.p], Fails(step, a.p), t.pc[a.p], t.spt, t.ptes, a, kind, w)
  {
    OwnMap(st, a.p, step.i, a, kind, w);
  }

  lemma {:induction false} OwnStep(st: State, step: Step, a: Addr, kind: Kind, w: bool)
    requires Enabled(st, step) && a.p in st.pc && Serving(st.pc[a.p], st.spt, st.ptes, a, kind, w)
    requires PcOk(a.p, st.pc[a.p], st.spt, st.ptes) && (step.Alloc? || step.Fill? || step.Copy? || step.Map?) && step.p == a.p
    ensures var t := Apply(st, step); a.p in t.pc && GoesOn(st.pc[a.p], Fails(step, a.p), t.pc[a.p], t.spt, t.ptes, a, kind, w)
  {
    if step.Alloc? {
      OwnAllocStep(st, step, a, kind, w);
    } else if step.Fill? {
      OwnFillStep(st, step, a, kind, w);
    } else if step.Copy? {
      OwnCopyStep(st, step, a, kind, w);
    } else {
      OwnMapStep(st, step, a, kind, w);
    }
  }

  lemma {:induction false} OtherStep(st: State, step: Step, a: Addr, kind: Kind, w: bool)
    requires Enabled(st, step) && a.p in st.pc && Serving(st.pc[a.p], st.spt, st.ptes, a, kind, w)
    requires PinInv(st.pc, st.frames)
    requires (step.Alloc? || step.Fill? || step.Copy? || step.Map?) && step.p != a.p
    ensures var t := Apply(st, step); a.p in t.pc && GoesOn(st.pc[a.p], false, t.pc[a.p], t.spt, t.ptes, a, kind, w)
  {
    match step
    case Alloc(q, f) => AllocsKeep(st, q, f, a, kind, w);
    case Fill(q, l) => FillsKeep(st, q, l, a, kind, w);
    case Copy(q, x) => CopiesKeep(st, q, x, a, kind, w);
    case Map(q, i) => MapsKeep(st, q, i, a, kind, w);
  }

  /** One step: the fault goes on, unless this step of its own process makes it fail or ends it. */
  lemma {:induction false} StepServes(st: State, step: Step, a: Addr, kind: Kind, w: bool)
    requires PcInv(st.pc, st.spt, st.ptes) && FreshInv(st.pc, st.spt, st.ptes)
    requires FrameInv(st.spt, st.frames, st.lock) && PinInv(st.pc, st.frames) && PoolInv(st.pool, st.frames, st.mem, st.lock)
    requires Enabled(st, step) && a.p in st.pc && Serving(st.pc[a.p], st.spt, st.ptes, a, kind, w)
    ensures var t := Apply(st, step); a.p in t.pc && GoesOn(st.pc[a.p], Fails(step, a.p), t.pc[a.p], t.spt, t.ptes, a, kind, w)
  {
    match step
    case Start(s) => StartsKeep(st, s, a, kind, w);
    case User(u) => UsersKeep(st, u, a, kind, w);
    case Evict(q, e) => EvictsKeep(st, q, e, a, kind, w);
    case _ =>
      if step.p != a.p {
        OtherStep(st, step, a, kind, w);
      } else {
        OwnStep(st, step, a, kind, w);
      }
  }

  /** From state `i` to state `j` process `p` is inside the kernel all the time. */
  ghost predicate Inside(run: seq<State>, p: Pid, i: nat, j: nat)
    requires i <= j < |run|
  {
    forall k {:trigger run[k]} :: i < k < j ==> p in run[k].pc && run[k].pc[p] != Running && !run[k].pc[p].Dead?
  }

  ghost predicate FailedBetween(steps: seq<Step>, p: Pid, i: nat, j: nat)
    requires i <= j <= |steps|
  {
    exists k :: i <= k < j && Fails(steps[k], p)
  }

  lemma {:induction false} OneStepMore(steps: seq<Step>, p: Pid, i: nat, j: nat)
    requires i <= j < |steps|
    ensures FailedBetween(steps, p, i, j + 1) <==> FailedBetween(steps, p, i, j) || Fails(steps[j], p)
  {
  }

  lemma {:induction false} RunStepServes(run: seq<State>, steps: seq<Step>, k: nat, a: Addr, kind: Kind, w: bool)
    requires IsRun(run, steps) && k < |steps| && a.p in run[k].pc && Serving(run[k].pc[a.p], run[k].spt, run[k].ptes, a, kind, w)
    ensures var t := run[k + 1]; a.p in t.pc && GoesOn(run[k].pc[a.p], Fails(steps[k], a.p), t.pc[a.p], t.spt, t.ptes, a, kind, w)
  {
    RunRefinesMemory(run, steps, k);
    StepServes(run[k], steps[k], a, kind, w);
  }

  lemma {:induction false} StaysServing(run: seq<State>, steps: seq<Step>, i: nat, j: nat, a: Addr, kind: Kind, w: bool)
    requires IsRun(run, steps) && i < j <= |steps| && Inside(run, a.p, i, j)
    requires a.p in run[i + 1].pc && Serving(run[i + 1].pc[a.p], run[i + 1].spt, run[i + 1].ptes, a, kind, w) && !Failed(run[i + 1].pc[a.p])
    ensures a.p in run[j].pc && GoesOn(Running, FailedBetween(steps, a.p, i + 1, j), run[j].pc[a.p], run[j].spt, run[j].ptes, a, kind, w)
    decreases j
  {
    if j > i + 1 {
      var k := j - 1;
      StaysServing(run, steps, i, k, a, kind, w);
      assert a.p in run[k].pc && run[k].pc[a.p] != Running && !run[k].pc[a.p].Dead?;
      RunStepServes(run, steps, k, a, kind, w);
      OneStepMore(steps, a.p, i + 1, k);
    }
  }

  /** A fault on a page that has an entry, or that grows the stack, is taken up: the process goes to
      wait for a frame, or, if its page is just being evicted, tries again.  Any other fault, and a
      write to a page that is not writable, kills it. */
  lemma {:induction false} FaultIsTakenUp(run: seq<State>, steps: seq<Step>, i: nat, a: Addr, onStack: bool)
    requires IsRun(run, steps) && i < |steps|
    requires steps[i] == User(FaultBegin(a, onStack)) || steps[i] == User(WriteFault(a))
    ensures a.p in run[i + 1].pc
    ensures var st, t := run[i], run[i + 1];
      if steps[i] == User(WriteFault(a)) || (a !in st.spt && !onStack) then t.pc[a.p].Dead?
      else if a in st.spt && st.spt[a].status == OnFrame then t == st
      else t.pc[a.p] == Waiting(a, Fault) && a in t.spt && (if a in st.spt then t.spt[a] == st.spt[a] else t.spt[a].status == AllZero)
  {
  }

  /** And it is served.  When its process next runs, the page is mapped to the frame that its entry
      names, with the right access: that of the segment for a page from its file, else writable.  It
      dies if and only if one of its own steps on the way failed: the entry of the frame table, the
      read of the file, or the page table. */
  lemma {:induction false} FaultIsServed(run: seq<State>, steps: seq<Step>, i: nat, j: nat, a: Addr, onStack: bool)
    requires IsRun(run, steps) && i < j <= |steps| && steps[i] == User(FaultBegin(a, onStack))
    requires if a in run[i].spt then run[i].spt[a].status != OnFrame else onStack
    requires Inside(run, a.p, i, j) && a.p in run[j].pc && (run[j].pc[a.p] == Running || run[j].pc[a.p].Dead?)
    ensures run[j].pc[a.p].Dead? <==> FailedBetween(steps, a.p, i + 1, j)
    ensures run[j].pc[a.p] == Running ==>
      Served(run[j].spt, run[j].ptes, a, a in run[i].spt && run[i].spt[a].status == FromFilesys ==> run[i].spt[a].src.writable)
  {
    var w := a in run[i].spt && run[i].spt[a].status == FromFilesys ==> run[i].spt[a].src.writable;
    FaultIsTakenUp(run, steps, i, a, onStack);
    StaysServing(run, steps, i, j, a, Fault, w);
  }

  /** setup_stack likewise: the process runs with a writable page there, or one of its steps failed. */
  lemma {:induction false} StackIsSetUp(run: seq<State>, steps: seq<Step>, i: nat, j: nat, a: Addr)
    requires IsRun(run, steps) && i < j <= |steps| && steps[i] == Start(StackBegin(a))
    requires Inside(run, a.p, i, j) && a.p in run[j].pc && (run[j].pc[a.p] == Running || run[j].pc[a.p].Dead?)
    ensures run[j].pc[a.p].Dead? <==> FailedBetween(steps, a.p, i + 1, j)
    ensures run[j].pc[a.p] == Running ==> Served(run[j].spt, run[j].ptes, a, true)
  {
    StaysServing(run, steps, i, j, a, Stack, true);
  }

  // ----- Setting up a process -----

  /** The entry of page `a` says where in which file it comes from, and with what access. */
  ghost predicate HasSource(spt: Spt, a: Addr, src: Backing) {
    a in spt && spt[a].src == src
  }

  lemma {:induction false} StartKeepsSource(st: State, step: StartStep, a: Addr, src: Backing)
    requires StartEnabled(st, step) && HasSource(st.spt, a, src)
    ensures HasSource(StartApply(st, step).spt, a, src)
  {
  }

  lemma {:induction false} UserKeepsSource(st: State, step: UserStep, a: Addr, src: Backing)
    requires UserEnabled(st, step) && HasSource(st.spt, a, src)
    ensures HasSource(UserApply(st, step).spt, a, src)
  {
  }

  lemma {:induction false} AllocKeepsSource(st: State, p: Pid, step: AllocStep, a: Addr, src: Backing)
    requires p in st.pc && AllocEnabled(st, p, step) && HasSource(st.spt, a, src)
    ensures HasSource(AllocApply(st, p, step).spt, a, src)
  {
  }

  lemma {:induction false} EvictKeepsSource(st: State, p: Pid, step: EvictStep, a: Addr, src: Backing)
    requires EvictEnabled(st, p, step) && HasSource(st.spt, a, src)
    ensures HasSource(EvictApply(st, p, step).spt, a, src)
  {
  }

  lemma {:induction false} FillKeepsSource(st: State, p: Pid, step: FillStep, a: Addr, src: Backing)
    requires p in st.pc && FillEnabled(st, p, step) && HasSource(st.spt, a, src)
    ensures HasSource(FillApply(st, p, step).spt, a, src)
  {
  }

  lemma {:induction false} CopyKeepsSource(st: State, p: Pid, step: CopyStep, a: Addr, src: Backing)
    requires p in st.pc && CopyEnabled(st, p, step) && HasSource(st.spt, a, src)
    ensures HasSource(CopyApply(st, p, step).spt, a, src)
  {
  }

  lemma {:induction false} MapKeepsSource(st: State, p: Pid, step: MapStep, a: Addr, src: Backing)
    requires p in st.pc && MapEnabled(st, p, step) && HasSource(st.spt, a, src)
    ensures HasSource(MapApply(st, p, step).spt, a, src)
  {
  }

  lemma {:induction false} StepKeepsSource(st: State, step: Step, a: Addr, src: Backing)
    requires Enabled(st, step) && HasSource(st.spt, a, src)
    ensures HasSource(Apply(st, step).spt, a, src)
  {
    match step
    case Start(x) => StartKeepsSource(st, x, a, src);
    case User(x) => UserKeepsSource(st, x, a, src);
    case Alloc(p, x) => AllocKeepsSource(st, p, x, a, src);
    case Evict(p, x) => EvictKeepsSource(st, p, x, a, src);
    case Fill(p, x) => FillKeepsSource(st, p, x, a, src);
    case Copy(p, x) => CopyKeepsSource(st, p, x, a, src);
    case Map(p, x) => MapKeepsSource(st, p, x, a, src);
  }

  lemma {:induction false} RunKeepsSource(run: seq<State>, steps: seq<Step>, k: nat, a: Addr, src: Backing)
    requires IsRun(run, steps) && k < |steps| && HasSource(run[k].spt, a, src)
    ensures HasSource(run[k + 1].spt, a, src)
  {
    StepKeepsSource(run[k], steps[k], a, src);
  }

  lemma {:induction false} SourceStays(run: seq<State>, steps: seq<Step>, i: nat, j: nat, a: Addr, src: Backing)
    requires IsRun(run, steps) && i <= j <= |steps| && HasSource(run[i].spt, a, src)
    ensures HasSource(run[j].spt, a, src)
    decreases j
  {
    if i < j {
      var k := j - 1;
      SourceStays(run, steps, i, k, a, src);
      RunKeepsSource(run, steps, k, a, src);
    }
  }

  lemma {:induction false} InstallIsNoted(run: seq<State>, steps: seq<Step>, i: nat, a: Addr, src: Backing)
    requires IsRun(run, steps) && i < |steps| && steps[i] == Start(InstallFile(a, src))
    ensures HasSource(run[i + 1].spt, a, src) && run[i + 1].spt[a].status == FromFilesys
  {
  }

  /** A page that load_segment enters is to come from its file, and keeps its place in the file and its
      access whatever happens to it later. */
  lemma {:induction false} InstalledStays(run: seq<State>, steps: seq<Step>, i: nat, j: nat, a: Addr, src: Backing)
    requires IsRun(run, steps) && i < j <= |steps| && steps[i] == Start(InstallFile(a, src))
    ensures HasSource(run[j].spt, a, src) && (j == i + 1 ==> run[j].spt[a].status == FromFilesys)
  {
    InstallIsNoted(run, steps, i, a, src);
    SourceStays(run, steps, i + 1, j, a, src);
  }

  /** A new process can enter any user page from any file, and set up its stack. */
  lemma {:induction false} NewProcessMayLoad(run: seq<State>, steps: seq<Step>, i: nat, a: Addr, src: Backing)
    requires IsRun(run, steps) && i < |steps| && steps[i] == Start(NewProcess(a.p)) && UserAddr(a)
    ensures Enabled(run[i + 1], Start(InstallFile(a, src))) && Enabled(run[i + 1], Start(StackBegin(a)))
  {
    RunRefinesMemory(run, steps, i);
    assert a.p !in run[i].pc;
    assert a !in run[i].spt;
  }

  /** A read of a page's file fails only at the end of the file, or where a sector is read in part
      through a bounce buffer that is not there yet. */
  lemma {:induction false} FileFailsAtEndOrBounce(st: State, p: Pid)
    requires p in st.pc && CopyEnabled(st, p, FileFail)
    ensures var c := st.pc[p];
      var src, done := st.spt[c.a].src, c.stage.done;
      || src.file !in st.files || src.offset + done >= |st.files[src.file]|
      || ((done == 0 || src.offset % SECTOR_SIZE == 0)
          && ((src.offset + done) % SECTOR_SIZE != 0 || src.readBytes - done < SECTOR_SIZE
              || |st.files[src.file]| - (src.offset + done) < SECTOR_SIZE))
  {
  }

  // ----- How long it takes -----

  const MOST_STEPS := 5030

  /** How far a process is from the end of its fault; every one of its own steps brings it nearer. */
  function Left(c: Pc, l: FrameLock): nat {
    match c
    case Waiting(_, _) => MOST_STEPS
    case Allocating(_, _) =>
      (match l
       case Free => 0
       case Locked(_) => 5020
       case Scanning(_, _) => 5019
       case Saving(_, _, _, done) => if done <= SECTORS_PER_PAGE then 5018 - done else 0
       case Saved(_, _, _) => 5009
       case Retired(_, _) => 5008
       case Retry(_) => 5007
       case Owning(_, _) => 5006)
    case Loading(_, _, _, stage) =>
      (match stage
       case Filling => 5000
       case Copying(done) => if done <= PAGE_SIZE then 100 + PAGE_SIZE - done else 0
       case Reading(done) => if done <= SECTORS_PER_PAGE then 20 - done else 0
       case Filled(_) => 5
       case Mapped => 4
       case Recorded => 3
       case Dropping => 2)
    case _ => 0
  }

  lemma {:induction false} AllocAdvances(st: State, p: Pid, step: AllocStep)
    requires p in st.pc && AllocEnabled(st, p, step)
    ensures var t := AllocApply(st, p, step); p in t.pc && Left(t.pc[p], t.lock) < Left(st.pc[p], st.lock)
  {
  }

  lemma {:induction false} EvictAdvances(st: State, p: Pid, step: EvictStep)
    requires p in st.pc && EvictEnabled(st, p, step) && LockInv(st.pc, st.lock)
    requires SwapInv(st.pc, st.spt, st.slots, st.avail, st.lock)
    ensures var t := EvictApply(st, p, step); p in t.pc && Left(t.pc[p], t.lock) < Left(st.pc[p], st.lock)
  {
  }

  lemma {:induction false} FillAdvances(st: State, p: Pid, step: FillStep)
    requires p in st.pc && FillEnabled(st, p, step)
    ensures var t := FillApply(st, p, step); p in t.pc && Left(t.pc[p], t.lock) < Left(st.pc[p], st.lock)
  {
  }

  lemma {:induction false} CopyAdvances(st: State, p: Pid, step: CopyStep)
    requires p in st.pc && CopyEnabled(st, p, step)
    ensures var t := CopyApply(st, p, step); p in t.pc && Left(t.pc[p], t.lock) < Left(st.pc[p], st.lock)
  {
  }

  lemma {:induction false} MapAdvances(st: State, p: Pid, step: MapStep)
    requires p in st.pc && MapEnabled(st, p, step)
    ensures var t := MapApply(st, p, step); p in t.pc && Left(t.pc[p], t.lock) < Left(st.pc[p], st.lock)
  {
  }

  lemma {:induction false} OwnStepAdvances(st: State, step: Step, p: Pid)
    requires Enabled(st, step) && ActsFor(step, p) && p in st.pc && LockInv(st.pc, st.lock)
    requires SwapInv(st.pc, st.spt, st.slots, st.avail, st.lock)
    ensures var t := Apply(st, step); p in t.pc && Left(t.pc[p], t.lock) < Left(st.pc[p], st.lock)
  {
    match step
    case Alloc(_, f) => AllocAdvances(st, p, f);
    case Evict(_, e) => EvictAdvances(st, p, e);
    case Fill(_, l) => FillAdvances(st, p, l);
    case Copy(_, x) => CopyAdvances(st, p, x);
    case Map(_, i) => MapAdvances(st, p, i);
  }

  predicate InFault(c: Pc) {
    c.Waiting? || c.Allocating? || c.Loading?
  }

  /** The place of `p` in its fault is the same. */
  ghost predicate SamePlace(st: State, t: State, p: Pid)
    requires p in st.pc
  {
    p in t.pc && t.pc[p] == st.pc[p] && (st.pc[p].Allocating? ==> t.lock == st.lock)
  }

  lemma {:induction false} AllocElsewhere(st: State, q: Pid, step: AllocStep, p: Pid)
    requires q in st.pc && AllocEnabled(st, q, step) && q != p && p in st.pc && LockInv(st.pc, st.lock)
    ensures SamePlace(st, AllocApply(st, q, step), p)
  {
  }

  lemma {:induction false} EvictElsewhere(st: State, q: Pid, step: EvictStep, p: Pid)
    requires EvictEnabled(st, q, step) && q != p && p in st.pc && LockInv(st.pc, st.lock)
    ensures SamePlace(st, EvictApply(st, q, step), p)
  {
  }

  lemma {:induction false} FillElsewhere(st: State, q: Pid, step: FillStep, p: Pid)
    requires q in st.pc && FillEnabled(st, q, step) && q != p && p in st.pc
    ensures SamePlace(st, FillApply(st, q, step), p)
  {
  }

  lemma {:induction false} CopyElsewhere(st: State, q: Pid, step: CopyStep, p: Pid)
    requires q in st.pc && CopyEnabled(st, q, step) && q != p && p in st.pc
    ensures SamePlace(st, CopyApply(st, q, step), p)
  {
  }

  lemma {:induction false} MapElsewhere(st: State, q: Pid, step: MapStep, p: Pid)
    requires q in st.pc && MapEnabled(st, q, step) && q != p && p in st.pc
    ensures SamePlace(st, MapApply(st, q, step), p)
  {
  }

  lemma {:induction false} StartElsewhere(st: State, step: StartStep, p: Pid)
    requires StartEnabled(st, step) && p in st.pc && InFault(st.pc[p])
    ensures SamePlace(st, StartApply(st, step), p)
  {
  }

  lemma {:induction false} UserElsewhere(st: State, step: UserStep, p: Pid)
    requires UserEnabled(st, step) && p in st.pc && InFault(st.pc[p])
    ensures SamePlace(st, UserApply(st, step), p)
  {
    if step.FaultBegin? {
      FaultIsOwn(st, step.a, step.onStack, Addr(p, 0, 0));
    } else {
      AccessIsOwn(st, step, Addr(p, 0, 0));
    }
  }

  lemma {:induction false} OthersKeepPlace(st: State, step: Step, p: Pid)
    requires Enabled(st, step) && !ActsFor(step, p) && p in st.pc && InFault(st.pc[p]) && LockInv(st.pc, st.lock)
    ensures SamePlace(st, Apply(st, step), p)
  {
    match step
    case Start(s) => StartElsewhere(st, s, p);
    case User(u) => UserElsewhere(st, u, p);
    case Alloc(q, f) => AllocElsewhere(st, q, f, p);
    case Evict(q, e) => EvictElsewhere(st, q, e, p);
    case Fill(q, l) => FillElsewhere(st, q, l, p);
    case Copy(q, x) => CopyElsewhere(st, q, x, p);
    case Map(q, i) => MapElsewhere(st, q, i, p);
  }

  /** How many of the steps from `i` to `j` are those of `p` in its fault. */
  ghost function OwnSteps(steps: seq<Step>, p: Pid, i: nat, j: nat): nat
    requires i <= j <= |steps|
    decreases j
  {
    if i == j then 0 else OwnSteps(steps, p, i, j - 1) + if ActsFor(steps[j - 1], p) then 1 else 0
  }

  /** One step of a run, of its process or not. */
  lemma {:induction false} StepAdvances(st: State, step: Step, p: Pid)
    requires Enabled(st, step) && p in st.pc && InFault(st.pc[p]) && LockInv(st.pc, st.lock)
    requires SwapInv(st.pc, st.spt, st.slots, st.avail, st.lock)
    ensures var t := Apply(st, step);
      p in t.pc && Left(t.pc[p], t.lock) + (if ActsFor(step, p) then 1 else 0) <= Left(st.pc[p], st.lock)
  {
    if ActsFor(step, p) {
      OwnStepAdvances(st, step, p);
    } else {
      OthersKeepPlace(st, step, p);
    }
  }

  lemma {:induction false} RunAdvances(run: seq<State>, steps: seq<Step>, k: nat, p: Pid)
    requires IsRun(run, steps) && k < |steps| && p in run[k].pc && InFault(run[k].pc[p])
    ensures p in run[k + 1].pc
    ensures Left(run[k + 1].pc[p], run[k + 1].lock) + (if ActsFor(steps[k], p) then 1 else 0) <= Left(run[k].pc[p], run[k].lock)
  {
    RunRefinesMemory(run, steps, k);
    StepAdvances(run[k], steps[k], p);
  }

  lemma {:induction false} LeftIsBounded(c: Pc, l: FrameLock)
    ensures Left(c, l) <= MOST_STEPS
  {
  }

  lemma {:induction false} StepsAreFew(left: seq<nat>, steps: seq<Step>, p: Pid, i: nat, j: nat)
    requires i <= j <= |steps| < |left|
    requires forall k :: i <= k < j ==> left[k + 1] + (if ActsFor(steps[k], p) then 1 else 0) <= left[k]
    ensures OwnSteps(steps, p, i, j) + left[j] <= left[i]
    decreases j
  {
    if i < j {
      StepsAreFew(left, steps, p, i, j - 1);
      assert left[j - 1 + 1] + (if ActsFor(steps[j - 1], p) then 1 else 0) <= left[j - 1];
    }
  }

  ghost function LeftAt(run: seq<State>, p: Pid): (left: seq<nat>)
    ensures |left| == |run| && forall k :: 0 <= k < |run| && p in run[k].pc ==> left[k] == Left(run[k].pc[p], run[k].lock)
  {
    seq(|run|, k requires 0 <= k < |run| => if p in run[k].pc then Left(run[k].pc[p], run[k].lock) else 0)
  }

  /** A fault, and the set-up of a stack, is over after at most 5030 steps of its process, whatever the
      others do in between. */
  lemma {:induction false} FaultIsShort(run: seq<State>, steps: seq<Step>, i: nat, j: nat, p: Pid)
    requires IsRun(run, steps) && i <= j <= |steps| && p in run[i].pc
    requires forall k {:trigger run[k]} :: i <= k < j ==> p in run[k].pc && InFault(run[k].pc[p])
    ensures OwnSteps(steps, p, i, j) <= MOST_STEPS
  {
    var left := LeftAt(run, p);
    LeftIsBounded(run[i].pc[p], run[i].lock);
    forall k | i <= k < j ensures left[k + 1] + (if ActsFor(steps[k], p) then 1 else 0) <= left[k] {
      assert p in run[k].pc && InFault(run[k].pc[p]);
      RunAdvances(run, steps, k, p);
    }
    StepsAreFew(left, steps, p, i, j);
  }
}
