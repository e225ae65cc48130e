/** How a parent collects its child's exit number (process_wait and process_exit in
    userprog/process.c): two semaphores in the child's own thread page, every interleaving. */
module ExitHandshake {
  import opened Common
  import opened Seqs

  type Tid = int

  /** Where a process is. */
  datatype Pc =
    | Running
    | Waiting(c: Tid)             // process_wait: in sema_down on the child's first semaphore
    | Woken(c: Tid)               // past it
    | Unlinked(c: Tid)            // has taken the child off its list
    | HasRead(c: Tid, v: int)     // has read the exit number, about to up the second semaphore
    | Exiting                     // process_exit: before the first sema_up
    | Offered                     // in sema_down on the second semaphore
    | Claimed                     // past it, on its way out
    | Gone                        // its thread page has been freed

  datatype State = State(
    pc: map<Tid, Pc>,
    parent: map<Tid, Tid>,
    children: map<Tid, seq<Tid>>, // child_list
    sema1: map<Tid, nat>,
    sema2: map<Tid, nat>,
    exitNumber: map<Tid, int>,
    readings: map<Tid, nat>,         // history: how often a process_wait has read the exit number
    next: Tid)

  datatype Step =
    | Spawn(p: Tid)
    | SetExitNumber(p: Tid, v: int)
    | BeginWait(p: Tid, c: Tid)
    | DownFirst(p: Tid)
    | Unlink(p: Tid)
    | ReadNumber(p: Tid)
    | UpSecond(p: Tid)
    | BeginExit(p: Tid)
    | UpFirst(p: Tid)
    | DownSecond(p: Tid)
    | FreePage(p: Tid)

  const ROOT: Tid := 0

  ghost predicate Init(st: State) {
    && st.pc == map[ROOT := Running] && st.parent == map[] && st.children == map[ROOT := []]
    && st.sema1 == map[ROOT := 0] && st.sema2 == map[ROOT := 0] && st.exitNumber == map[ROOT := 0]
    && st.readings == map[ROOT := 0] && st.next == 1
  }

  /** All per-process data is there. */
  predicate Known(st: State, p: Tid) {
    p in st.pc && p in st.children && p in st.sema1 && p in st.sema2 && p in st.exitNumber && p in st.readings
  }

  predicate Enabled(st: State, step: Step) {
    Known(st, step.p) &&
    match step
    case Spawn(p) => st.pc[p] == Running
    case SetExitNumber(p, _) => st.pc[p] == Running
    case BeginWait(p, _) => st.pc[p] == Running
    case DownFirst(p) => st.pc[p].Waiting? && st.pc[p].c in st.sema1 && st.sema1[st.pc[p].c] > 0
    case Unlink(p) => st.pc[p].Woken?
    case ReadNumber(p) => st.pc[p].Unlinked? && st.pc[p].c in st.exitNumber && st.pc[p].c in st.readings
    case UpSecond(p) => st.pc[p].HasRead? && st.pc[p].c in st.sema2
    case BeginExit(p) => st.pc[p] == Running
    case UpFirst(p) => st.pc[p] == Exiting
    case DownSecond(p) => st.pc[p] == Offered && st.sema2[p] > 0
    case FreePage(p) => st.pc[p] == Claimed
  }

  function Apply(st: State, step: Step): State
    requires Enabled(st, step)
  {
    match step
    case Spawn(p) =>
      var c := st.next;
      st.(next := c + 1, pc := st.pc[c := Running], parent := st.parent[c := p],
          children := st.children[p := st.children[p] + [c]][c := []],
          sema1 := st.sema1[c := 0], sema2 := st.sema2[c := 0], exitNumber := st.exitNumber[c := 0],
          readings := st.readings[c := 0])
    case SetExitNumber(p, v) => st.(exitNumber := st.exitNumber[p := v])
    case BeginWait(p, c) =>
      // A tid that is not on the child list makes process_wait return -1 at once.
      if c in st.children[p] then st.(pc := st.pc[p := Waiting(c)]) else st
    case DownFirst(p) =>
      var c := st.pc[p].c;
      st.(sema1 := st.sema1[c := st.sema1[c] - 1], pc := st.pc[p := Woken(c)])
    case Unlink(p) =>
      var c := st.pc[p].c;
      st.(children := st.children[p := Without(st.children[p], c)], pc := st.pc[p := Unlinked(c)])
    case ReadNumber(p) =>
      var c := st.pc[p].c;
      st.(pc := st.pc[p := HasRead(c, st.exitNumber[c])], readings := st.readings[c := st.readings[c] + 1])
    case UpSecond(p) =>
      var c := st.pc[p].c;
      st.(sema2 := st.sema2[c := st.sema2[c] + 1], pc := st.pc[p := Running])
    case BeginExit(p) => st.(pc := st.pc[p := Exiting])
    case UpFirst(p) => st.(sema1 := st.sema1[p := st.sema1[p] + 1], pc := st.pc[p := Offered])
    case DownSecond(p) => st.(sema2 := st.sema2[p := st.sema2[p] - 1], pc := st.pc[p := Claimed])
    case FreePage(p) => st.(pc := st.pc[p := Gone])
  }

  /** What a process_wait that ends with this step returns. */
  function Returned(st: State, step: Step): Option<int>
    requires Enabled(st, step)
  {
    match step
    case BeginWait(p, c) => if c in st.children[p] then None else Some(-1)
    case UpSecond(p) => Some(st.pc[p].v)
    case _ => None
  }

  // ----- The invariant -----

  /** How far the parent has come with a child. */
  datatype Progress = Unwaited | Down | Up | Off | Got | Finished

  function ProgressOf(pcParent: Pc, listed: bool, c: Tid): Progress {
    match pcParent
    case Waiting(d) => if d == c then Down else if listed then Unwaited else Finished
    case Woken(d) => if d == c then Up else if listed then Unwaited else Finished
    case Unlinked(d) => if d == c then Off else if listed then Unwaited else Finished
    case HasRead(d, _) => if d == c then Got else if listed then Unwaited else Finished
    case _ => if listed then Unwaited else Finished
  }

  /** What the semaphores, the list and the history say about a child, given how far both sides are. */
  predicate PairOk(w: Progress, pc: Pc, s1: nat, s2: nat, listed: bool, readings: nat) {
    && s1 == (if (pc == Offered || pc == Claimed || pc == Gone) && (w == Unwaited || w == Down) then 1 else 0)
    && s2 == (if w == Finished && pc == Offered then 1 else 0)
    && (w == Up || w == Off || w == Got ==> pc == Offered)
    && (w == Finished ==> pc == Offered || pc == Claimed || pc == Gone)
    && (pc == Claimed || pc == Gone ==> w == Finished)
    && (listed <==> w == Unwaited || w == Down || w == Up)
    && readings == (if w == Got || w == Finished then 1 else 0)
  }

  /** The tables have the same processes. */
  ghost predicate KeysOk(st: State) {
    && st.pc.Keys == st.children.Keys == st.sema1.Keys == st.sema2.Keys == st.exitNumber.Keys == st.readings.Keys
    && st.parent.Keys == st.pc.Keys - {ROOT} && ROOT in st.pc
    && (forall t :: t in st.pc ==> 0 <= t < st.next)
  }

  ghost predicate TreeOk(pc: map<Tid, Pc>, parent: map<Tid, Tid>, children: map<Tid, seq<Tid>>) {
    && (forall c :: c in parent ==> parent[c] in pc && parent[c] != c)
    && (forall p, c :: p in children && c in children[p] ==> c in parent && parent[c] == p)
    && (forall p :: p in pc && Target(pc[p]).Some? ==> Target(pc[p]).value in parent && parent[Target(pc[p]).value] == p)
  }

  /** The child that a process_wait is about. */
  function Target(pc: Pc): Option<Tid> {
    if pc.Waiting? || pc.Woken? || pc.Unlinked? || pc.HasRead? then Some(pc.c) else None
  }

  ghost predicate ChildOk(pc: map<Tid, Pc>, parent: map<Tid, Tid>, children: map<Tid, seq<Tid>>,
                          sema1: map<Tid, nat>, sema2: map<Tid, nat>, readings: map<Tid, nat>, c: Tid)
  {
    && c in parent && c in pc && c in sema1 && c in sema2 && c in readings && parent[c] in pc && parent[c] in children
    && var listed := c in children[parent[c]];
       PairOk(ProgressOf(pc[parent[c]], listed, c), pc[c], sema1[c], sema2[c], listed, readings[c])
  }

  ghost predicate PairsOk(pc: map<Tid, Pc>, parent: map<Tid, Tid>, children: map<Tid, seq<Tid>>,
                          sema1: map<Tid, nat>, sema2: map<Tid, nat>, readings: map<Tid, nat>)
  {
    forall c :: c in parent ==> ChildOk(pc, parent, children, sema1, sema2, readings, c)
  }

  ghost predicate RootOk(pc: map<Tid, Pc>, sema2: map<Tid, nat>) {
    ROOT in pc && ROOT in sema2 && sema2[ROOT] == 0 && pc[ROOT] != Claimed && pc[ROOT] != Gone
  }

  ghost predicate Inv(st: State) {
    && KeysOk(st) && TreeOk(st.pc, st.parent, st.children) && RootOk(st.pc, st.sema2)
    && PairsOk(st.pc, st.parent, st.children, st.sema1, st.sema2, st.readings)
  }

  lemma {:induction false} InitIsInv(st: State)
    requires Init(st)
    ensures Inv(st)
  {
  }

  // ----- A process moves, and nothing else changes for its own parent -----

  /** Whether a process is past the first sema_up of process_exit makes the difference to its parent. */
  predicate SameToParent(pc: Pc, pc': Pc) {
    pc == pc' || !(Late(pc) || Late(pc'))
  }

  predicate Late(pc: Pc) {
    pc == Offered || pc == Claimed || pc == Gone
  }

  /** The parent's part of a wait on `c`: only that pair changes. */
  lemma {:induction false} WaitStep(pc: map<Tid, Pc>, parent: map<Tid, Tid>, children: map<Tid, seq<Tid>>,
                                    sema1: map<Tid, nat>, sema2: map<Tid, nat>, readings: map<Tid, nat>,
                                    p: Tid, c: Tid, q: Pc, s1: nat, s2: nat, r: nat)
    requires PairsOk(pc, parent, children, sema1, sema2, readings) && p in pc && c in parent && parent[c] == p && p != c
    requires SameToParent(pc[p], q) && (Target(pc[p]).None? || Target(pc[p]) == Some(c)) && (Target(q).None? || Target(q) == Some(c))
    requires c in pc && p in children
    requires var listed := c in children[p]; PairOk(ProgressOf(q, listed, c), pc[c], s1, s2, listed, r)
    ensures PairsOk(pc[p := q], parent, children, sema1[c := s1], sema2[c := s2], readings[c := r])
  {
    forall d | d in parent
      ensures ChildOk(pc[p := q], parent, children, sema1[c := s1], sema2[c := s2], readings[c := r], d)
    {
      assert ChildOk(pc, parent, children, sema1, sema2, readings, d);
    }
  }

  /** Process `p` may be at `q` with these semaphores, as far as its parent's wait goes. */
  ghost predicate FitsParent(pc: map<Tid, Pc>, parent: map<Tid, Tid>, children: map<Tid, seq<Tid>>, readings: map<Tid, nat>,
                             p: Tid, q: Pc, s1: nat, s2: nat)
    requires p in parent
  {
    && parent[p] in pc && parent[p] in children && p in readings
    && var listed := p in children[parent[p]];
       PairOk(ProgressOf(pc[parent[p]], listed, p), q, s1, s2, listed, readings[p])
  }

  /** A step of a process that has nothing to do with any wait of its own. */
  lemma {:induction false} OwnStep(pc: map<Tid, Pc>, parent: map<Tid, Tid>, children: map<Tid, seq<Tid>>,
                                   sema1: map<Tid, nat>, sema2: map<Tid, nat>, readings: map<Tid, nat>,
                                   p: Tid, q: Pc, s1: nat, s2: nat)
    requires PairsOk(pc, parent, children, sema1, sema2, readings) && p in pc && Target(pc[p]).None? && Target(q).None?
    requires p in parent ==> parent[p] != p && FitsParent(pc, parent, children, readings, p, q, s1, s2)
    ensures PairsOk(pc[p := q], parent, children, sema1[p := s1], sema2[p := s2], readings)
  {
    forall d | d in parent ensures ChildOk(pc[p := q], parent, children, sema1[p := s1], sema2[p := s2], readings, d) {
      assert ChildOk(pc, parent, children, sema1, sema2, readings, d);
    }
  }

  lemma {:induction false} UnlinkStep(pc: map<Tid, Pc>, parent: map<Tid, Tid>, children: map<Tid, seq<Tid>>,
                                      sema1: map<Tid, nat>, sema2: map<Tid, nat>, readings: map<Tid, nat>, p: Tid, c: Tid)
    requires PairsOk(pc, parent, children, sema1, sema2, readings) && p in pc && p in children && pc[p] == Woken(c)
    requires c in parent && parent[c] == p && p != c
    ensures PairsOk(pc[p := Unlinked(c)], parent, children[p := Without(children[p], c)], sema1, sema2, readings)
  {
    var list := Without(children[p], c);
    WithoutIsLess(children[p], c);
    forall x ensures x in list <==> x in children[p] && x != c {
      assert x in Elems(list) <==> x in Elems(children[p]) - {c};
    }
    forall d | d in parent ensures ChildOk(pc[p := Unlinked(c)], parent, children[p := list], sema1, sema2, readings, d) {
      assert ChildOk(pc, parent, children, sema1, sema2, readings, d);
    }
  }

  lemma {:induction false} TreeMove(pc: map<Tid, Pc>, parent: map<Tid, Tid>, children: map<Tid, seq<Tid>>, p: Tid, q: Pc)
    requires TreeOk(pc, parent, children) && p in pc
    requires Target(q).Some? ==> Target(q).value in parent && parent[Target(q).value] == p
    ensures TreeOk(pc[p := q], parent, children)
  {
  }

  // ----- Steps -----

  lemma {:induction false} SpawnKeepsInv(st: State, p: Tid)
    requires Inv(st) && Enabled(st, Spawn(p))
    ensures Inv(Apply(st, Spawn(p)))
  {
    var st', c := Apply(st, Spawn(p)), st.next;
    assert c !in st.pc.Keys && c !in st.parent.Keys;
    SpawnKeepsTree(st.pc, st.parent, st.children, p, c);
    forall d | d in st'.parent ensures ChildOk(st'.pc, st'.parent, st'.children, st'.sema1, st'.sema2, st'.readings, d) {
      if d != c {
        assert ChildOk(st.pc, st.parent, st.children, st.sema1, st.sema2, st.readings, d);
      }
    }
  }

  lemma {:induction false} SpawnKeepsTree(pc: map<Tid, Pc>, parent: map<Tid, Tid>, children: map<Tid, seq<Tid>>, p: Tid, c: Tid)
    requires TreeOk(pc, parent, children) && p in pc && p in children && c !in pc && c !in parent && c !in children
    ensures TreeOk(pc[c := Running], parent[c := p], children[p := children[p] + [c]][c := []])
  {
  }

  lemma {:induction false} BeginWaitKeepsInv(st: State, p: Tid, c: Tid)
    requires Inv(st) && Enabled(st, BeginWait(p, c))
    ensures Inv(Apply(st, BeginWait(p, c)))
  {
    if c in st.children[p] {
      assert ChildOk(st.pc, st.parent, st.children, st.sema1, st.sema2, st.readings, c);
      TreeMove(st.pc, st.parent, st.children, p, Waiting(c));
      WaitStep(st.pc, st.parent, st.children, st.sema1, st.sema2, st.readings, p, c, Waiting(c),
               st.sema1[c], st.sema2[c], st.readings[c]);
      Same(st.sema1, c);
      Same(st.sema2, c);
      Same(st.readings, c);
    }
  }

  lemma {:induction false} Same(m: map<Tid, nat>, c: Tid)
    requires c in m
    ensures m[c := m[c]] == m
  {
  }

  lemma {:induction false} DownFirstKeepsInv(st: State, p: Tid)
    requires Inv(st) && Enabled(st, DownFirst(p))
    ensures Inv(Apply(st, DownFirst(p)))
  {
    var c := st.pc[p].c;
    assert ChildOk(st.pc, st.parent, st.children, st.sema1, st.sema2, st.readings, c);
    TreeMove(st.pc, st.parent, st.children, p, Woken(c));
    WaitStep(st.pc, st.parent, st.children, st.sema1, st.sema2, st.readings, p, c, Woken(c),
             st.sema1[c] - 1, st.sema2[c], st.readings[c]);
    Same(st.sema2, c);
    Same(st.readings, c);
  }

  lemma {:induction false} UnlinkKeepsTree(pc: map<Tid, Pc>, parent: map<Tid, Tid>, children: map<Tid, seq<Tid>>, p: Tid, c: Tid)
    requires TreeOk(pc, parent, children) && p in pc && p in children && c in parent && parent[c] == p
    ensures TreeOk(pc[p := Unlinked(c)], parent, children[p := Without(children[p], c)])
  {
    WithoutIsLess(children[p], c);
    forall x | x in Without(children[p], c) ensures x in children[p] {
      assert x in Elems(Without(children[p], c));
    }
    TreeMove(pc, parent, children, p, Unlinked(c));
  }

  lemma {:induction false} UnlinkKeepsInv(st: State, p: Tid)
    requires Inv(st) && Enabled(st, Unlink(p))
    ensures Inv(Apply(st, Unlink(p)))
  {
    var c := st.pc[p].c;
    UnlinkStep(st.pc, st.parent, st.children, st.sema1, st.sema2, st.readings, p, c);
    UnlinkKeepsTree(st.pc, st.parent, st.children, p, c);
  }

  lemma {:induction false} ReadNumberKeepsInv(st: State, p: Tid)
    requires Inv(st) && Enabled(st, ReadNumber(p))
    ensures Inv(Apply(st, ReadNumber(p)))
  {
    var c := st.pc[p].c;
    var q := HasRead(c, st.exitNumber[c]);
    assert ChildOk(st.pc, st.parent, st.children, st.sema1, st.sema2, st.readings, c);
    TreeMove(st.pc, st.parent, st.children, p, q);
    WaitStep(st.pc, st.parent, st.children, st.sema1, st.sema2, st.readings, p, c, q,
             st.sema1[c], st.sema2[c], st.readings[c] + 1);
    Same(st.sema1, c);
    Same(st.sema2, c);
  }

  lemma {:induction false} UpSecondKeepsInv(st: State, p: Tid)
    requires Inv(st) && Enabled(st, UpSecond(p))
    ensures Inv(Apply(st, UpSecond(p)))
  {
    var c := st.pc[p].c;
    assert ChildOk(st.pc, st.parent, st.children, st.sema1, st.sema2, st.readings, c);
    TreeMove(st.pc, st.parent, st.children, p, Running);
    WaitStep(st.pc, st.parent, st.children, st.sema1, st.sema2, st.readings, p, c, Running,
             st.sema1[c], st.sema2[c] + 1, st.readings[c]);
    Same(st.sema1, c);
    Same(st.readings, c);
  }

  lemma {:induction false} OwnStepKeepsInv(st: State, p: Tid, q: Pc, s1: nat, s2: nat)
    requires Inv(st) && p in st.pc && Target(st.pc[p]).None? && Target(q).None?
    requires p in st.parent ==> FitsParent(st.pc, st.parent, st.children, st.readings, p, q, s1, s2)
    requires p == ROOT ==> s2 == 0 && q != Claimed && q != Gone
    ensures Inv(st.(pc := st.pc[p := q], sema1 := st.sema1[p := s1], sema2 := st.sema2[p := s2]))
  {
    OwnStep(st.pc, st.parent, st.children, st.sema1, st.sema2, st.readings, p, q, s1, s2);
    TreeMove(st.pc, st.parent, st.children, p, q);
  }

  /** Each step of process_exit fits whatever the parent is doing. */
  lemma {:induction false} ExitFits(w: Progress, pc: Pc, s1: nat, s2: nat, listed: bool, readings: nat)
    requires PairOk(w, pc, s1, s2, listed, readings)
    ensures pc == Running ==> PairOk(w, Exiting, s1, s2, listed, readings)
    ensures pc == Exiting ==> PairOk(w, Offered, s1 + 1, s2, listed, readings)
    ensures pc == Offered && s2 > 0 ==> PairOk(w, Claimed, s1, s2 - 1, listed, readings)
    ensures pc == Claimed ==> PairOk(w, Gone, s1, s2, listed, readings)
  {
  }

  lemma {:induction false} OwnPairFits(st: State, p: Tid)
    requires Inv(st) && p in st.parent && p in st.pc && p in st.sema1 && p in st.sema2
    ensures st.pc[p] == Running ==> FitsParent(st.pc, st.parent, st.children, st.readings, p, Exiting, st.sema1[p], st.sema2[p])
    ensures st.pc[p] == Exiting ==> FitsParent(st.pc, st.parent, st.children, st.readings, p, Offered, st.sema1[p] + 1, st.sema2[p])
    ensures st.pc[p] == Offered && st.sema2[p] > 0 ==>
      FitsParent(st.pc, st.parent, st.children, st.readings, p, Claimed, st.sema1[p], st.sema2[p] - 1)
    ensures st.pc[p] == Claimed ==> FitsParent(st.pc, st.parent, st.children, st.readings, p, Gone, st.sema1[p], st.sema2[p])
  {
    assert ChildOk(st.pc, st.parent, st.children, st.sema1, st.sema2, st.readings, p);
    var q := st.parent[p];
    var listed := p in st.children[q];
    ExitFits(ProgressOf(st.pc[q], listed, p), st.pc[p], st.sema1[p], st.sema2[p], listed, st.readings[p]);
  }

  lemma {:induction false} HasParent(st: State, p: Tid)
    requires Inv(st) && p in st.pc && p != ROOT
    ensures p in st.parent
  {
    assert p in st.pc.Keys;
  }

  lemma {:induction false} BeginExitKeepsInv(st: State, p: Tid)
    requires Inv(st) && Enabled(st, BeginExit(p))
    ensures Inv(Apply(st, BeginExit(p)))
  {
    Same(st.sema1, p);
    Same(st.sema2, p);
    if p != ROOT {
      HasParent(st, p);
      OwnPairFits(st, p);
    }
    OwnStepKeepsInv(st, p, Exiting, st.sema1[p], st.sema2[p]);
  }

  lemma {:induction false} UpFirstKeepsInv(st: State, p: Tid)
    requires Inv(st) && Enabled(st, UpFirst(p))
    ensures Inv(Apply(st, UpFirst(p)))
  {
    Same(st.sema1, p);
    Same(st.sema2, p);
    if p != ROOT {
      HasParent(st, p);
      OwnPairFits(st, p);
    }
    OwnStepKeepsInv(st, p, Offered, st.sema1[p] + 1, st.sema2[p]);
  }

  lemma {:induction false} DownSecondKeepsInv(st: State, p: Tid)
    requires Inv(st) && Enabled(st, DownSecond(p))
    ensures Inv(Apply(st, DownSecond(p)))
  {
    Same(st.sema1, p);
    Same(st.sema2, p);
    if p != ROOT {
      HasParent(st, p);
      OwnPairFits(st, p);
    }
    OwnStepKeepsInv(st, p, Claimed, st.sema1[p], st.sema2[p] - 1);
  }

  lemma {:induction false} FreePageKeepsInv(st: State, p: Tid)
    requires Inv(st) && Enabled(st, FreePage(p))
    ensures Inv(Apply(st, FreePage(p)))
  {
    Same(st.sema1, p);
    Same(st.sema2, p);
    if p != ROOT {
      HasParent(st, p);
      OwnPairFits(st, p);
    }
    OwnStepKeepsInv(st, p, Gone, st.sema1[p], st.sema2[p]);
  }

  lemma {:induction false} StepKeepsInv(st: State, step: Step)
    requires Inv(st) && Enabled(st, step)
    ensures Inv(Apply(st, step))
  {
    match step
    case Spawn(p) => SpawnKeepsInv(st, p);
    case SetExitNumber(p, v) =>
    case BeginWait(p, c) => BeginWaitKeepsInv(st, p, c);
    case DownFirst(p) => DownFirstKeepsInv(st, p);
    case Unlink(p) => UnlinkKeepsInv(st, p);
    case ReadNumber(p) => ReadNumberKeepsInv(st, p);
    case UpSecond(p) => UpSecondKeepsInv(st, p);
    case BeginExit(p) => BeginExitKeepsInv(st, p);
    case UpFirst(p) => UpFirstKeepsInv(st, p);
    case DownSecond(p) => DownSecondKeepsInv(st, p);
    case FreePage(p) => FreePageKeepsInv(st, p);
  }

  // ----- Runs -----

  ghost predicate IsRun(states: seq<State>, steps: seq<Step>) {
    && |states| == |steps| + 1 && Init(states[0])
    && forall i {:trigger steps[i]} :: 0 <= i < |steps| ==> Enabled(states[i], steps[i]) && states[i + 1] == Apply(states[i], steps[i])
  }

  lemma {:induction false} RunKeepsInv(states: seq<State>, steps: seq<Step>, i: nat)
    requires IsRun(states, steps) && i < |states|
    ensures Inv(states[i])
  {
    if i == 0 {
      InitIsInv(states[0]);
    } else {
      RunKeepsInv(states, steps, i - 1);
      StepKeepsInv(states[i - 1], steps[i - 1]);
    }
  }

  /** Whenever a parent touches a child in process_wait, from the search of its list to the last
      sema_up, the child's thread page has not been freed; and when it reads the exit number, the
      child has entered process_exit and waits there. */
  lemma {:induction false} ChildIsThere(states: seq<State>, steps: seq<Step>, i: nat, p: Tid, c: Tid)
    requires IsRun(states, steps) && i < |states| && p in states[i].pc && p in states[i].children
    requires c in states[i].children[p] || Target(states[i].pc[p]) == Some(c)
    ensures c in states[i].pc && states[i].pc[c] != Gone
    ensures states[i].pc[p] == Woken(c) || states[i].pc[p] == Unlinked(c) ==> states[i].pc[c] == Offered
  {
    RunKeepsInv(states, steps, i);
    var st := states[i];
    assert ChildOk(st.pc, st.parent, st.children, st.sema1, st.sema2, st.readings, c);
  }

  /** A thread page is freed only after exactly one process_wait has read the exit number. */
  lemma {:induction false} FreedAfterOneRead(states: seq<State>, steps: seq<Step>, i: nat, c: Tid)
    requires IsRun(states, steps) && i < |states| && c in states[i].pc && c in states[i].readings
    ensures c != ROOT ==> states[i].readings[c] <= 1
    ensures states[i].pc[c] == Claimed || states[i].pc[c] == Gone ==> states[i].readings[c] == 1
  {
    RunKeepsInv(states, steps, i);
    var st := states[i];
    if c != ROOT {
      HasParent(st, c);
      assert ChildOk(st.pc, st.parent, st.children, st.sema1, st.sema2, st.readings, c);
    }
  }

  /** Once it has been read, no process has the child on its list: another process_wait for it
      returns -1 at once, and changes nothing. */
  lemma {:induction false} SecondWaitFails(states: seq<State>, steps: seq<Step>, i: nat, p: Tid, c: Tid)
    requires IsRun(states, steps) && i < |states| && c in states[i].readings && states[i].readings[c] > 0 && c != ROOT
    requires Enabled(states[i], BeginWait(p, c))
    ensures c !in states[i].children[p] && Apply(states[i], BeginWait(p, c)) == states[i]
    ensures Returned(states[i], BeginWait(p, c)) == Some(-1)
  {
    RunKeepsInv(states, steps, i);
    var st := states[i];
    assert c in st.readings.Keys && c in st.pc.Keys;
    HasParent(st, c);
    assert ChildOk(st.pc, st.parent, st.children, st.sema1, st.sema2, st.readings, c);
  }

  /** A waiting parent can go on once its child offers. */
  lemma {:induction false} ParentIsNotStuck(states: seq<State>, steps: seq<Step>, i: nat, p: Tid, c: Tid)
    requires IsRun(states, steps) && i < |states| && p in states[i].pc && c in states[i].pc
    requires states[i].pc[c] == Offered && states[i].pc[p] == Waiting(c)
    ensures Enabled(states[i], DownFirst(p))
  {
    RunKeepsInv(states, steps, i);
    var st := states[i];
    assert p in st.pc.Keys && c in st.pc.Keys;
    assert ChildOk(st.pc, st.parent, st.children, st.sema1, st.sema2, st.readings, c);
  }

  /** An offering child can go on once its parent has read its number and is done with it. */
  lemma {:induction false} ChildIsNotStuck(states: seq<State>, steps: seq<Step>, i: nat, c: Tid)
    requires IsRun(states, steps) && i < |states| && c in states[i].parent && states[i].parent[c] in states[i].pc
    requires c in states[i].pc && states[i].pc[c] == Offered && c in states[i].readings && states[i].readings[c] > 0
    requires Target(states[i].pc[states[i].parent[c]]) != Some(c)
    ensures Enabled(states[i], DownSecond(c))
  {
    RunKeepsInv(states, steps, i);
    var st := states[i];
    assert c in st.pc.Keys;
    assert ChildOk(st.pc, st.parent, st.children, st.sema1, st.sema2, st.readings, c);
  }

  ghost predicate NumbersOk(pc: map<Tid, Pc>, exitNumber: map<Tid, int>) {
    forall p :: p in pc && pc[p].HasRead? ==> pc[p].c in exitNumber && pc[p].v == exitNumber[pc[p].c]
  }

  lemma {:induction false} StepKeepsNumbers(st: State, step: Step)
    requires Inv(st) && Enabled(st, step) && NumbersOk(st.pc, st.exitNumber)
    ensures NumbersOk(Apply(st, step).pc, Apply(st, step).exitNumber)
  {
    if step.SetExitNumber? {
      forall p | p in st.pc && st.pc[p].HasRead? ensures st.pc[p].c != step.p {
        assert ChildOk(st.pc, st.parent, st.children, st.sema1, st.sema2, st.readings, st.pc[p].c);
      }
    } else if step.Spawn? {
      assert st.next !in st.exitNumber.Keys;
    }
  }

  /** Process `c` is past the first sema_up of process_exit and leaves `v`. */
  ghost predicate Leaves(st: State, c: Tid, v: int) {
    c < st.next && c in st.pc && c in st.exitNumber && Late(st.pc[c]) && st.exitNumber[c] == v
  }

  /** From there a process does not come back, nor change its number. */
  lemma {:induction false} LateStays(st: State, step: Step, c: Tid, v: int)
    requires Enabled(st, step) && Leaves(st, c, v)
    ensures Leaves(Apply(st, step), c, v)
  {
  }

  lemma {:induction false} NumberStays(states: seq<State>, steps: seq<Step>, i: nat, j: nat, c: Tid, v: int)
    requires IsRun(states, steps) && i <= j < |states| && Leaves(states[i], c, v)
    ensures Leaves(states[j], c, v)
    decreases j
  {
    if i < j {
      NumberStays(states, steps, i, j - 1, c, v);
      LateStays(states[j - 1], steps[j - 1], c, v);
    }
  }

  /** What process_wait returns is the number that the child left, which no longer changes: it has
      that value in every later state of the run. */
  lemma {:induction false} ReturnsFinalNumber(states: seq<State>, steps: seq<Step>, i: nat, j: nat, p: Tid)
    requires IsRun(states, steps) && i <= j < |states| && p in states[i].pc && states[i].pc[p].HasRead?
    ensures var c := states[i].pc[p].c;
      && c in states[i].exitNumber && c in states[j].exitNumber
      && states[i].exitNumber[c] == states[j].exitNumber[c] == states[i].pc[p].v
    ensures Enabled(states[i], UpSecond(p)) && Returned(states[i], UpSecond(p)) == Some(states[i].pc[p].v)
  {
    RunKeepsNumbers(states, steps, i);
    RunKeepsInv(states, steps, i);
    var st, c := states[i], states[i].pc[p].c;
    assert ChildOk(st.pc, st.parent, st.children, st.sema1, st.sema2, st.readings, c);
    assert p in st.pc.Keys;
    NumberStays(states, steps, i, j, c, st.pc[p].v);
  }

  lemma {:induction false} RunKeepsNumbers(states: seq<State>, steps: seq<Step>, i: nat)
    requires IsRun(states, steps) && i < |states|
    ensures NumbersOk(states[i].pc, states[i].exitNumber)
  {
    if i > 0 {
      RunKeepsNumbers(states, steps, i - 1);
      RunKeepsInv(states, steps, i - 1);
      StepKeepsNumbers(states[i - 1], steps[i - 1]);
    }
  }
}
