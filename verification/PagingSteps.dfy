/** Every step of the paging machine keeps the invariant, and plain memory allows its event.
    One lemma per group of steps and conjunct; each assumes only the conjuncts it needs. */
module PagingSteps {
  import opened Common
  import opened Paging
  import opened PagingInvariant

  // ----- Facts the groups share -----

  /** Writing a sector of one slot leaves every other slot alone. */
  lemma {:induction false} OtherSlotKept(dev: map<nat, Sector>, mine: Slot, i: nat, x: Sector, s: Slot, g: Page, n: nat)
    requires s != mine && i < SECTORS_PER_PAGE && n <= SECTORS_PER_PAGE && SlotHas(dev, s, g, n)
    ensures SlotHas(dev[SectorNo(mine, i) := x], s, g, n)
  {
  }

  /** A mapped page is on the frame it is mapped to, with the bytes of plain memory. */
  lemma {:induction false} AccessSeesMemory(st: State, m: Memory, a: Addr, s: nat, o: nat)
    requires ContentInv(st.pc, st.spt, st.mem, st.dev, m.pages) && MapInv(st.pc, st.spt, st.ptes)
    requires Accessible(st, a, s, o)
    ensures OnFrameAt(st.spt, a, st.ptes[a].frame)
    ensures a in m.pages && m.pages[a] == Bytes(st.mem[st.ptes[a].frame])
  {
    assert ContentOk(st.pc[a.p], a, st.spt[a], st.mem, st.dev, m.pages[a]);
  }

  /** A user write changes the bytes of that one page. */
  lemma {:induction false} WriteChangesOnePage(st: State, m: Memory, a: Addr, s: nat, o: nat, b: Byte)
    requires ContentInv(st.pc, st.spt, st.mem, st.dev, m.pages) && PinInv(st.pc, st.frames)
    requires FrameInv(st.spt, st.frames, st.lock) && MapInv(st.pc, st.spt, st.ptes)
    requires Accessible(st, a, s, o)
    ensures var k := st.ptes[a].frame;
            var g := SetByte(st.mem[k], s, o, b);
            ContentInv(st.pc, st.spt, st.mem[k := g], st.dev, m.pages[a := Bytes(g)])
  {
    AccessSeesMemory(st, m, a, s, o);
    var k := st.ptes[a].frame;
    assert st.frames[k].a == a;
    var mem' := st.mem[k := SetByte(st.mem[k], s, o, b)];
    forall d | d in st.spt && d.p in st.pc && !Doomed(st.pc[d.p]) && d != a
      ensures ContentOk(st.pc[d.p], d, st.spt[d], mem', st.dev, m.pages[d])
    {
      assert ContentOk(st.pc[d.p], d, st.spt[d], st.mem, st.dev, m.pages[d]);
    }
  }

  /** Overwriting a carried frame that holds no page's bytes disturbs no page. */
  lemma {:induction false} CarriedFrameApart(st: State, m: Memory, p: Pid, g: Page)
    requires ContentInv(st.pc, st.spt, st.mem, st.dev, m.pages) && PinInv(st.pc, st.frames)
    requires FrameInv(st.spt, st.frames, st.lock)
    requires p in st.pc && st.pc[p].Loading? && !InFlight(st.pc[p], st.pc[p].a) && !IsCopied(st.pc[p], st.pc[p].a)
    requires !OnFrameAt(st.spt, st.pc[p].a, st.pc[p].k)
    ensures ContentInv(st.pc, st.spt, st.mem[st.pc[p].k := g], st.dev, m.pages)
  {
    forall d | d in st.spt && d.p in st.pc && !Doomed(st.pc[d.p])
      ensures ContentOk(st.pc[d.p], d, st.spt[d], st.mem[st.pc[p].k := g], st.dev, m.pages[d])
    {
      assert ContentOk(st.pc[d.p], d, st.spt[d], st.mem, st.dev, m.pages[d]);
    }
  }

  /** The next stage of a load has only the page being loaded to get right. */
  lemma {:induction false} StageKeepsContent(pc: Pcs, spt: Spt, mem: map<Frame, Page>, dev: map<nat, Sector>,
                          pages: map<Addr, Content>, p: Pid, c: Pc, pages': map<Addr, Content>)
    requires ContentInv(pc, spt, mem, dev, pages)
    requires p in pc && pc[p].Loading? && c.Loading? && c.a == pc[p].a && c.a.p == p && !Doomed(pc[p])
    requires pages'.Keys == pages.Keys && forall d :: d in pages && d != c.a ==> pages'[d] == pages[d]
    requires c.a in spt && !Doomed(c) ==> ContentOk(c, c.a, spt[c.a], mem, dev, pages'[c.a])
    ensures ContentInv(pc[p := c], spt, mem, dev, pages')
  {
    forall d | d in spt && d.p in pc && !Doomed(pc[p := c][d.p]) && d != c.a
      ensures ContentOk(pc[p := c][d.p], d, spt[d], mem, dev, pages'[d])
    {
      assert ContentOk(pc[d.p], d, spt[d], mem, dev, pages[d]);
    }
  }

  /** Two pages that agree with the same eight sectors are equal. */
  lemma {:induction false} SlotFixesPage(dev: map<nat, Sector>, s: Slot, g: Page, h: Page)
    requires |g| == |h| == SECTORS_PER_PAGE
    requires SlotHas(dev, s, g, SECTORS_PER_PAGE) && SlotHas(dev, s, h, SECTORS_PER_PAGE)
    ensures g == h
  {
    forall i | 0 <= i < SECTORS_PER_PAGE ensures g[i] == h[i] {
      assert SectorNo(s, i) in dev;
    }
  }

  /** A swap-in that has read all eight sectors has the page's bytes. */
  lemma {:induction false} SwapInReadsBack(st: State, m: Memory, p: Pid)
    requires ContentInv(st.pc, st.spt, st.mem, st.dev, m.pages) && LoadInv(st.pc, st.spt, st.mem, st.dev)
    requires PcInv(st.pc, st.spt, st.ptes) && PoolInv(st.pool, st.frames, st.mem, st.lock)
    requires p in st.pc && st.pc[p].Loading? && st.pc[p].stage == Reading(SECTORS_PER_PAGE)
    ensures ReadBack(st, m, st.pc[p])
  {
    var c := st.pc[p];
    assert ContentOk(c, c.a, st.spt[c.a], st.mem, st.dev, m.pages[c.a]);
    SlotFixesPage(st.dev, st.spt[c.a].slot, st.mem[c.k], m.pages[c.a].page);
  }

  ghost predicate ReadBack(st: State, m: Memory, c: Pc)
    requires c.Loading?
  {
    c.k in st.mem && c.a in m.pages && m.pages[c.a] == Bytes(st.mem[c.k])
  }

  /** Slots stay covered if those who held one hold it still, unless it was made available. */
  lemma {:induction false} CoverStays(pc: Pcs, spt: Spt, slots: set<Slot>, avail: set<Slot>, l: FrameLock,
                                      pc': Pcs, spt': Spt, avail': set<Slot>, l': FrameLock)
    requires CoverInv(pc, spt, slots, avail, l)
    requires forall s :: s in slots && s !in avail' && s in avail ==> l'.Saved? && l'.slot == s
    requires l.Saved? ==> l' == l || Held(pc', spt', l.slot)
    requires forall a {:trigger spt[a]} :: HoldsSlot(pc, spt, a) && spt[a].slot !in avail' ==>
               HoldsSlot(pc', spt', a) && spt'[a].slot == spt[a].slot
    ensures CoverInv(pc', spt', slots, avail', l')
  {
    forall s | s in slots && s !in avail' && !(l'.Saved? && l'.slot == s) ensures Held(pc', spt', s) {
      if !(l.Saved? && l.slot == s) {
        assert Held(pc, spt, s);
        var a :| HoldsSlot(pc, spt, a) && spt[a].slot == s;
        assert HoldsSlot(pc', spt', a) && spt'[a].slot == s;
      }
    }
  }

  // ----- User steps -----

  /** Outside the fault handler and outside frame_allocate. */
  ghost predicate Idle(c: Pc) {
    c.Starting? || c.Running? || c.Dead? || c.Waiting?
  }

  /** A process moves between states in which it owns no frame and not the lock. */
  ghost predicate QuietMove(st: State, p: Pid, c: Pc) {
    && Idle(c) && PcOk(p, c, st.spt, st.ptes)
    && (if p in st.pc then Idle(st.pc[p]) && !st.pc[p].Dead? && (Fresh(c) ==> Fresh(st.pc[p])) else c == Starting)
  }

  lemma {:induction false} QuietMoveKeepsOwners(st: State, p: Pid, c: Pc)
    requires QuietMove(st, p, c) && LockInv(st.pc, st.lock) && PinInv(st.pc, st.frames)
    requires TableInv(st.pc.Keys, st.spt, st.tables, st.ptes)
    requires SwapInv(st.pc, st.spt, st.slots, st.avail, st.lock)
    ensures LockInv(st.pc[p := c], st.lock) && PinInv(st.pc[p := c], st.frames)
    ensures TableInv(st.pc[p := c].Keys, st.spt, st.tables, st.ptes)
    ensures SwapInv(st.pc[p := c], st.spt, st.slots, st.avail, st.lock)
  {
  }

  lemma {:induction false} QuietMoveKeepsProcessStates(st: State, p: Pid, c: Pc)
    requires QuietMove(st, p, c) && TableInv(st.pc.Keys, st.spt, st.tables, st.ptes)
    requires MapInv(st.pc, st.spt, st.ptes) && FreshInv(st.pc, st.spt, st.ptes) && PcInv(st.pc, st.spt, st.ptes)
    ensures MapInv(st.pc[p := c], st.spt, st.ptes) && FreshInv(st.pc[p := c], st.spt, st.ptes)
    ensures PcInv(st.pc[p := c], st.spt, st.ptes)
  {
  }

  lemma {:induction false} QuietMoveKeepsTransfers(st: State, p: Pid, c: Pc)
    requires QuietMove(st, p, c) && LockInv(st.pc, st.lock)
    requires SaveInv(st.pc, st.mem, st.dev, st.lock) && LoadInv(st.pc, st.spt, st.mem, st.dev)
    ensures SaveInv(st.pc[p := c], st.mem, st.dev, st.lock) && LoadInv(st.pc[p := c], st.spt, st.mem, st.dev)
  {
  }

  lemma {:induction false} QuietMoveKeepsContent(st: State, m: Memory, p: Pid, c: Pc)
    requires QuietMove(st, p, c) && TableInv(st.pc.Keys, st.spt, st.tables, st.ptes)
    requires ContentInv(st.pc, st.spt, st.mem, st.dev, m.pages)
    ensures ContentInv(st.pc[p := c], st.spt, st.mem, st.dev, m.pages)
  {
  }

  lemma {:induction false} QuietMoveKeepsOwnInv(st: State, p: Pid, c: Pc)
    requires QuietMove(st, p, c) && OwnInv(st)
    ensures OwnInv(Goto(st, p, c))
  {
    QuietMoveKeepsOwners(st, p, c);
    QuietMoveKeepsProcessStates(st, p, c);
    CoverStays(st.pc, st.spt, st.slots, st.avail, st.lock, st.pc[p := c], st.spt, st.avail, st.lock);
  }

  lemma {:induction false} QuietMoveKeepsInv(st: State, m: Memory, p: Pid, c: Pc)
    requires QuietMove(st, p, c) && Inv(st, m)
    ensures Inv(Goto(st, p, c), m)
  {
    QuietMoveKeepsOwnInv(st, p, c);
    QuietMoveKeepsTransfers(st, p, c);
    QuietMoveKeepsContent(st, m, p, c);
  }

  /** A page gets its first entry: promised from a file by load(), or zero by stack growth. */
  ghost predicate NewEntry(st: State, a: Addr, e: Entry) {
    && UserAddr(a) && a.p in st.pc && a !in st.spt && !Present(st.ptes, a)
    && (if st.pc[a.p] == Starting then e.status == FromFilesys else st.pc[a.p] == Running && e.status == AllZero)
  }

  function InitialContent(e: Entry): Content {
    if e.status == AllZero then Bytes(ZeroPage()) else Pending(e.src, [])
  }

  lemma {:induction false} NewEntryKeepsOwners(st: State, a: Addr, e: Entry)
    requires NewEntry(st, a, e) && TableInv(st.pc.Keys, st.spt, st.tables, st.ptes)
    requires FrameInv(st.spt, st.frames, st.lock) && EntryInv(st.spt, st.ptes, st.lock)
    ensures FrameInv(st.spt[a := e], st.frames, st.lock) && EntryInv(st.spt[a := e], st.ptes, st.lock)
    ensures TableInv(st.pc.Keys, st.spt[a := e], st.tables, st.ptes)
  {
  }

  lemma {:induction false} NewEntryKeepsProcessStates(st: State, a: Addr, e: Entry)
    requires NewEntry(st, a, e)
    requires MapInv(st.pc, st.spt, st.ptes) && FreshInv(st.pc, st.spt, st.ptes) && PcInv(st.pc, st.spt, st.ptes)
    ensures MapInv(st.pc, st.spt[a := e], st.ptes) && FreshInv(st.pc, st.spt[a := e], st.ptes)
    ensures PcInv(st.pc, st.spt[a := e], st.ptes)
  {
  }

  lemma {:induction false} NewEntryKeepsBytes(st: State, m: Memory, a: Addr, e: Entry)
    requires NewEntry(st, a, e) && SwapInv(st.pc, st.spt, st.slots, st.avail, st.lock)
    requires LoadInv(st.pc, st.spt, st.mem, st.dev) && ContentInv(st.pc, st.spt, st.mem, st.dev, m.pages)
    ensures SwapInv(st.pc, st.spt[a := e], st.slots, st.avail, st.lock)
    ensures LoadInv(st.pc, st.spt[a := e], st.mem, st.dev)
    ensures ContentInv(st.pc, st.spt[a := e], st.mem, st.dev, m.pages[a := InitialContent(e)])
  {
  }

  lemma {:induction false} NewEntryKeepsInv(st: State, m: Memory, a: Addr, e: Entry)
    requires NewEntry(st, a, e) && Inv(st, m)
    ensures Inv(st.(spt := st.spt[a := e]), m.(pages := m.pages[a := InitialContent(e)]))
  {
    NewEntryKeepsOwners(st, a, e);
    NewEntryKeepsProcessStates(st, a, e);
    NewEntryKeepsBytes(st, m, a, e);
    CoverStays(st.pc, st.spt, st.slots, st.avail, st.lock, st.pc, st.spt[a := e], st.avail, st.lock);
  }

  /** The frame a running process writes to is neither a victim nor being filled. */
  lemma {:induction false} WriteKeepsTransfers(st: State, a: Addr, g: Page)
    requires PoolInv(st.pool, st.frames, st.mem, st.lock) && SaveInv(st.pc, st.mem, st.dev, st.lock)
    requires LoadInv(st.pc, st.spt, st.mem, st.dev) && LockInv(st.pc, st.lock) && PinInv(st.pc, st.frames)
    requires FrameInv(st.spt, st.frames, st.lock) && EntryInv(st.spt, st.ptes, st.lock)
    requires Is(st, a.p, Running) && Present(st.ptes, a) && OnFrameAt(st.spt, a, st.ptes[a].frame) && WellFormed(g)
    ensures var mem' := st.mem[st.ptes[a].frame := g];
            && PoolInv(st.pool, st.frames, mem', st.lock) && SaveInv(st.pc, mem', st.dev, st.lock)
            && LoadInv(st.pc, st.spt, mem', st.dev)
  {
    assert st.frames[st.ptes[a].frame].a == a;
  }

  lemma {:induction false} WriteKeepsInv(st: State, m: Memory, a: Addr, s: nat, o: nat, b: Byte)
    requires Inv(st, m) && Accessible(st, a, s, o)
    ensures a in m.pages && m.pages[a] == Bytes(st.mem[st.ptes[a].frame])
    ensures var g := SetByte(st.mem[st.ptes[a].frame], s, o, b);
            Inv(st.(mem := st.mem[st.ptes[a].frame := g]), m.(pages := m.pages[a := Bytes(g)]))
  {
    AccessSeesMemory(st, m, a, s, o);
    WriteChangesOnePage(st, m, a, s, o, b);
    WriteKeepsTransfers(st, a, SetByte(st.mem[st.ptes[a].frame], s, o, b));
  }

  lemma {:induction false} FaultKeepsInv(st: State, m: Memory, a: Addr, onStack: bool)
    requires Inv(st, m) && UserEnabled(st, FaultBegin(a, onStack))
    ensures var step := FaultBegin(a, onStack);
            var e := EventOf(st, User(step));
            Allows(m, e) && Inv(UserApply(st, step), After(m, e))
  {
    if a in st.spt {
      if st.spt[a].status != OnFrame {
        QuietMoveKeepsInv(st, m, a.p, Waiting(a, Fault));
      }
    } else if onStack {
      var e := Entry(AllZero, None, 0, NO_FILE);
      NewEntryKeepsInv(st, m, a, e);
      QuietMoveKeepsInv(st.(spt := st.spt[a := e]), m.(pages := m.pages[a := InitialContent(e)]), a.p, Waiting(a, Fault));
    } else {
      QuietMoveKeepsInv(st, m, a.p, Dead);
    }
  }

  lemma {:induction false} StartStepKeepsInv(st: State, m: Memory, step: StartStep)
    requires Inv(st, m) && StartEnabled(st, step)
    ensures var e := EventOf(st, Start(step));
            Allows(m, e) && Inv(StartApply(st, step), After(m, e))
  {
    match step
    case NewProcess(p) => QuietMoveKeepsInv(st, m, p, Starting);
    case SetFile(f, bytes) =>
    case InstallFile(a, src) => NewEntryKeepsInv(st, m, a, Entry(FromFilesys, None, 0, src));
    case StackBegin(a) => QuietMoveKeepsInv(st, m, a.p, Waiting(a, Stack));
  }

  lemma {:induction false} AccessKeepsInv(st: State, m: Memory, step: UserStep)
    requires Inv(st, m) && UserEnabled(st, step) && (step.ReadByte? || step.WriteByte?)
    ensures var e := EventOf(st, User(step));
            Allows(m, e) && Inv(UserApply(st, step), After(m, e))
  {
    if step.ReadByte? {
      AccessSeesMemory(st, m, step.a, step.s, step.o);
    } else {
      WriteKeepsInv(st, m, step.a, step.s, step.o, step.b);
    }
  }

  lemma {:induction false} WriteFaultKeepsInv(st: State, m: Memory, step: UserStep)
    requires Inv(st, m) && UserEnabled(st, step) && step.WriteFault?
    ensures var e := EventOf(st, User(step));
            Allows(m, e) && Inv(UserApply(st, step), After(m, e))
  {
    WriteFaultIsQuiet(st, m, step);
    QuietMoveKeepsInv(st, m, step.a.p, Dead);
  }

  lemma {:induction false} WriteFaultIsQuiet(st: State, m: Memory, step: UserStep)
    requires UserEnabled(st, step) && step.WriteFault?
    ensures QuietMove(st, step.a.p, Dead) && UserApply(st, step) == Goto(st, step.a.p, Dead)
    ensures Allows(m, EventOf(st, User(step))) && After(m, EventOf(st, User(step))) == m
  {
  }

  lemma {:induction false} UserStepKeepsInv(st: State, m: Memory, step: UserStep)
    requires Inv(st, m) && UserEnabled(st, step)
    ensures var e := EventOf(st, User(step));
            Allows(m, e) && Inv(UserApply(st, step), After(m, e))
  {
    if step.FaultBegin? {
      FaultKeepsInv(st, m, step.a, step.onStack);
    } else if step.WriteFault? {
      WriteFaultKeepsInv(st, m, step);
    } else {
      AccessKeepsInv(st, m, step);
    }
  }

  // ----- frame_allocate -----

  lemma {:induction false} AllocKeepsLockAndPool(st: State, p: Pid, step: AllocStep)
    requires LockInv(st.pc, st.lock) && PoolInv(st.pool, st.frames, st.mem, st.lock)
    requires p in st.pc && AllocEnabled(st, p, step)
    ensures var t := AllocApply(st, p, step);
            LockInv(t.pc, t.lock) && PoolInv(t.pool, t.frames, t.mem, t.lock)
  {
  }

  lemma {:induction false} AllocKeepsPins(st: State, p: Pid, step: AllocStep)
    requires PinInv(st.pc, st.frames) && PcInv(st.pc, st.spt, st.ptes) && PoolInv(st.pool, st.frames, st.mem, st.lock)
    requires LockInv(st.pc, st.lock)
    requires p in st.pc && AllocEnabled(st, p, step)
    ensures var t := AllocApply(st, p, step);
            PinInv(t.pc, t.frames)
  {
  }

  lemma {:induction false} AllocKeepsFramesAndEntries(st: State, p: Pid, step: AllocStep)
    requires FrameInv(st.spt, st.frames, st.lock) && PoolInv(st.pool, st.frames, st.mem, st.lock)
    requires EntryInv(st.spt, st.ptes, st.lock)
    requires p in st.pc && AllocEnabled(st, p, step)
    ensures var t := AllocApply(st, p, step);
            FrameInv(t.spt, t.frames, t.lock) && EntryInv(t.spt, t.ptes, t.lock)
  {
  }

  lemma {:induction false} AllocKeepsTablesAndMappings(st: State, p: Pid, step: AllocStep)
    requires TableInv(st.pc.Keys, st.spt, st.tables, st.ptes) && MapInv(st.pc, st.spt, st.ptes)
    requires p in st.pc && AllocEnabled(st, p, step)
    ensures var t := AllocApply(st, p, step);
            TableInv(t.pc.Keys, t.spt, t.tables, t.ptes) && MapInv(t.pc, t.spt, t.ptes)
  {
  }

  lemma {:induction false} AllocKeepsProcessStates(st: State, p: Pid, step: AllocStep)
    requires FreshInv(st.pc, st.spt, st.ptes) && PcInv(st.pc, st.spt, st.ptes)
    requires p in st.pc && AllocEnabled(st, p, step)
    ensures var t := AllocApply(st, p, step);
            FreshInv(t.pc, t.spt, t.ptes) && PcInv(t.pc, t.spt, t.ptes)
  {
  }

  lemma {:induction false} AllocKeepsSlots(st: State, p: Pid, step: AllocStep)
    requires SwapInv(st.pc, st.spt, st.slots, st.avail, st.lock)
    requires p in st.pc && AllocEnabled(st, p, step)
    ensures var t := AllocApply(st, p, step);
            SwapInv(t.pc, t.spt, t.slots, t.avail, t.lock)
  {
  }

  lemma {:induction false} AllocKeepsSwapOut(st: State, p: Pid, step: AllocStep)
    requires SaveInv(st.pc, st.mem, st.dev, st.lock) && PoolInv(st.pool, st.frames, st.mem, st.lock)
    requires LockInv(st.pc, st.lock)
    requires p in st.pc && AllocEnabled(st, p, step)
    ensures var t := AllocApply(st, p, step);
            SaveInv(t.pc, t.mem, t.dev, t.lock)
  {
  }

  lemma {:induction false} AllocKeepsLoads(st: State, p: Pid, step: AllocStep)
    requires LoadInv(st.pc, st.spt, st.mem, st.dev) && PinInv(st.pc, st.frames)
    requires PoolInv(st.pool, st.frames, st.mem, st.lock) && SaveInv(st.pc, st.mem, st.dev, st.lock)
    requires p in st.pc && AllocEnabled(st, p, step)
    ensures var t := AllocApply(st, p, step);
            LoadInv(t.pc, t.spt, t.mem, t.dev)
  {
  }

  lemma {:induction false} AllocKeepsCover(st: State, p: Pid, step: AllocStep)
    requires CoverInv(st.pc, st.spt, st.slots, st.avail, st.lock)
    requires p in st.pc && AllocEnabled(st, p, step)
    ensures var t := AllocApply(st, p, step);
            CoverInv(t.pc, t.spt, t.slots, t.avail, t.lock)
  {
    var t := AllocApply(st, p, step);
    CoverStays(st.pc, st.spt, st.slots, st.avail, st.lock, t.pc, t.spt, t.avail, t.lock);
  }

  lemma {:induction false} AllocKeepsContent(st: State, m: Memory, p: Pid, step: AllocStep)
    requires ContentInv(st.pc, st.spt, st.mem, st.dev, m.pages) && PinInv(st.pc, st.frames)
    requires FrameInv(st.spt, st.frames, st.lock) && PoolInv(st.pool, st.frames, st.mem, st.lock)
    requires p in st.pc && AllocEnabled(st, p, step)
    ensures var t := AllocApply(st, p, step);
            ContentInv(t.pc, t.spt, t.mem, t.dev, m.pages)
  {
  }

  lemma {:induction false} AllocKeepsOwnInv(st: State, p: Pid, step: AllocStep)
    requires OwnInv(st) && p in st.pc && AllocEnabled(st, p, step)
    ensures OwnInv(AllocApply(st, p, step))
  {
    AllocKeepsLockAndPool(st, p, step);
    AllocKeepsPins(st, p, step);
    AllocKeepsFramesAndEntries(st, p, step);
    AllocKeepsTablesAndMappings(st, p, step);
    AllocKeepsProcessStates(st, p, step);
    AllocKeepsSlots(st, p, step);
    AllocKeepsCover(st, p, step);
  }

  lemma {:induction false} AllocKeepsByteInv(st: State, m: Memory, p: Pid, step: AllocStep)
    requires Inv(st, m) && p in st.pc && AllocEnabled(st, p, step)
    ensures var e := EventOf(st, Alloc(p, step));
            Allows(m, e) && ByteInv(AllocApply(st, p, step), After(m, e))
  {
    AllocKeepsSwapOut(st, p, step);
    AllocKeepsLoads(st, p, step);
    AllocKeepsContent(st, m, p, step);
  }

  lemma {:induction false} AllocStepKeepsInv(st: State, m: Memory, p: Pid, step: AllocStep)
    requires Inv(st, m) && p in st.pc && AllocEnabled(st, p, step)
    ensures var e := EventOf(st, Alloc(p, step));
            Allows(m, e) && Inv(AllocApply(st, p, step), After(m, e))
  {
    AllocKeepsOwnInv(st, p, step);
    AllocKeepsByteInv(st, m, p, step);
  }

  // ----- Eviction -----

  lemma {:induction false} EvictKeepsLockAndPool(st: State, p: Pid, step: EvictStep)
    requires LockInv(st.pc, st.lock) && PoolInv(st.pool, st.frames, st.mem, st.lock)
    requires EvictEnabled(st, p, step)
    ensures var t := EvictApply(st, p, step);
            LockInv(t.pc, t.lock) && PoolInv(t.pool, t.frames, t.mem, t.lock)
  {
  }

  lemma {:induction false} EvictKeepsPins(st: State, p: Pid, step: EvictStep)
    requires PinInv(st.pc, st.frames) && PoolInv(st.pool, st.frames, st.mem, st.lock)
    requires EvictEnabled(st, p, step)
    ensures var t := EvictApply(st, p, step);
            PinInv(t.pc, t.frames)
  {
  }

  lemma {:induction false} EvictKeepsFrames(st: State, p: Pid, step: EvictStep)
    requires FrameInv(st.spt, st.frames, st.lock) && PoolInv(st.pool, st.frames, st.mem, st.lock)
    requires EvictEnabled(st, p, step)
    ensures var t := EvictApply(st, p, step);
            FrameInv(t.spt, t.frames, t.lock)
  {
  }

  lemma {:induction false} EvictKeepsEntries(st: State, p: Pid, step: EvictStep)
    requires FrameInv(st.spt, st.frames, st.lock) && PoolInv(st.pool, st.frames, st.mem, st.lock)
    requires EntryInv(st.spt, st.ptes, st.lock)
    requires EvictEnabled(st, p, step)
    ensures var t := EvictApply(st, p, step);
            EntryInv(t.spt, t.ptes, t.lock)
  {
  }

  lemma {:induction false} EvictKeepsTablesAndMappings(st: State, p: Pid, step: EvictStep)
    requires TableInv(st.pc.Keys, st.spt, st.tables, st.ptes) && FrameInv(st.spt, st.frames, st.lock)
    requires PoolInv(st.pool, st.frames, st.mem, st.lock) && MapInv(st.pc, st.spt, st.ptes)
    requires EntryInv(st.spt, st.ptes, st.lock)
    requires EvictEnabled(st, p, step)
    ensures var t := EvictApply(st, p, step);
            TableInv(t.pc.Keys, t.spt, t.tables, t.ptes) && MapInv(t.pc, t.spt, t.ptes)
  {
  }

  lemma {:induction false} EvictKeepsFreshProcesses(st: State, p: Pid, step: EvictStep)
    requires FreshInv(st.pc, st.spt, st.ptes) && FrameInv(st.spt, st.frames, st.lock)
    requires PoolInv(st.pool, st.frames, st.mem, st.lock) && EntryInv(st.spt, st.ptes, st.lock)
    requires EvictEnabled(st, p, step)
    ensures var t := EvictApply(st, p, step);
            FreshInv(t.pc, t.spt, t.ptes)
  {
  }

  lemma {:induction false} EvictKeepsProcessStates(st: State, p: Pid, step: EvictStep)
    requires FrameInv(st.spt, st.frames, st.lock) && EntryInv(st.spt, st.ptes, st.lock)
    requires PoolInv(st.pool, st.frames, st.mem, st.lock) && PcInv(st.pc, st.spt, st.ptes) && PinInv(st.pc, st.frames)
    requires EvictEnabled(st, p, step)
    ensures var t := EvictApply(st, p, step);
            PcInv(t.pc, t.spt, t.ptes)
  {
  }

  lemma {:induction false} EvictKeepsSlots(st: State, p: Pid, step: EvictStep)
    requires SwapInv(st.pc, st.spt, st.slots, st.avail, st.lock) && PcInv(st.pc, st.spt, st.ptes)
    requires FrameInv(st.spt, st.frames, st.lock) && PoolInv(st.pool, st.frames, st.mem, st.lock)
    requires EvictEnabled(st, p, step)
    ensures var t := EvictApply(st, p, step);
            SwapInv(t.pc, t.spt, t.slots, t.avail, t.lock)
  {
  }

  lemma {:induction false} EvictKeepsSwapOut(st: State, p: Pid, step: EvictStep)
    requires SaveInv(st.pc, st.mem, st.dev, st.lock) && PoolInv(st.pool, st.frames, st.mem, st.lock)
    requires LockInv(st.pc, st.lock)
    requires EvictEnabled(st, p, step)
    ensures var t := EvictApply(st, p, step);
            SaveInv(t.pc, t.mem, t.dev, t.lock)
  {
  }

  lemma {:induction false} EvictKeepsLoads(st: State, p: Pid, step: EvictStep)
    requires LoadInv(st.pc, st.spt, st.mem, st.dev) && PcInv(st.pc, st.spt, st.ptes) && PinInv(st.pc, st.frames)
    requires PoolInv(st.pool, st.frames, st.mem, st.lock) && FrameInv(st.spt, st.frames, st.lock)
    requires SwapInv(st.pc, st.spt, st.slots, st.avail, st.lock)
    requires EvictEnabled(st, p, step)
    ensures var t := EvictApply(st, p, step);
            LoadInv(t.pc, t.spt, t.mem, t.dev)
  {
    var l, t := st.lock, EvictApply(st, p, step);
    if step.SaveSector? {
      forall q | q in st.pc && st.pc[q].Loading? && st.pc[q].stage.Reading?
        ensures SlotHas(t.dev, st.spt[st.pc[q].a].slot, st.mem[st.pc[q].k], st.pc[q].stage.done)
      {
        assert HoldsSlot(st.pc, st.spt, st.pc[q].a);
        OtherSlotKept(st.dev, l.slot, l.done, st.mem[l.victim][l.done],
                      st.spt[st.pc[q].a].slot, st.mem[st.pc[q].k], st.pc[q].stage.done);
      }
    }
  }

  lemma {:induction false} EvictKeepsCover(st: State, p: Pid, step: EvictStep)
    requires CoverInv(st.pc, st.spt, st.slots, st.avail, st.lock) && PinInv(st.pc, st.frames)
    requires PcInv(st.pc, st.spt, st.ptes)
    requires PoolInv(st.pool, st.frames, st.mem, st.lock) && FrameInv(st.spt, st.frames, st.lock)
    requires EvictEnabled(st, p, step)
    ensures var t := EvictApply(st, p, step);
            CoverInv(t.pc, t.spt, t.slots, t.avail, t.lock)
  {
    var t := EvictApply(st, p, step);
    if step.SetSwap? {
      var v := st.frames[st.lock.victim].a;
      assert st.spt[v].status == OnFrame;
      assert HoldsSlot(t.pc, t.spt, v) && t.spt[v].slot == st.lock.slot;
    }
    CoverStays(st.pc, st.spt, st.slots, st.avail, st.lock, t.pc, t.spt, t.avail, t.lock);
  }

  lemma {:induction false} EvictKeepsContent(st: State, m: Memory, p: Pid, step: EvictStep)
    requires ContentInv(st.pc, st.spt, st.mem, st.dev, m.pages) && PinInv(st.pc, st.frames)
    requires PoolInv(st.pool, st.frames, st.mem, st.lock) && FrameInv(st.spt, st.frames, st.lock)
    requires SwapInv(st.pc, st.spt, st.slots, st.avail, st.lock) && SaveInv(st.pc, st.mem, st.dev, st.lock)
    requires EvictEnabled(st, p, step)
    ensures var t := EvictApply(st, p, step);
            ContentInv(t.pc, t.spt, t.mem, t.dev, m.pages)
  {
    var l, t := st.lock, EvictApply(st, p, step);
    forall a | a in t.spt && a.p in t.pc && !Doomed(t.pc[a.p])
      ensures ContentOk(t.pc[a.p], a, t.spt[a], t.mem, t.dev, m.pages[a])
    {
      assert ContentOk(st.pc[a.p], a, st.spt[a], st.mem, st.dev, m.pages[a]);
      if step.SaveSector? && HoldsSlot(st.pc, st.spt, a) {
        OtherSlotKept(st.dev, l.slot, l.done, st.mem[l.victim][l.done],
                      st.spt[a].slot, m.pages[a].page, SECTORS_PER_PAGE);
      }
    }
  }

  lemma {:induction false} EvictKeepsOwnInv(st: State, p: Pid, step: EvictStep)
    requires OwnInv(st) && EvictEnabled(st, p, step)
    ensures OwnInv(EvictApply(st, p, step))
  {
    EvictKeepsLockAndPool(st, p, step);
    EvictKeepsPins(st, p, step);
    EvictKeepsFrames(st, p, step);
    EvictKeepsEntries(st, p, step);
    EvictKeepsTablesAndMappings(st, p, step);
    EvictKeepsFreshProcesses(st, p, step);
    EvictKeepsProcessStates(st, p, step);
    EvictKeepsSlots(st, p, step);
    EvictKeepsCover(st, p, step);
  }

  lemma {:induction false} EvictKeepsByteInv(st: State, m: Memory, p: Pid, step: EvictStep)
    requires Inv(st, m) && EvictEnabled(st, p, step)
    ensures var e := EventOf(st, Evict(p, step));
            Allows(m, e) && ByteInv(EvictApply(st, p, step), After(m, e))
  {
    EvictKeepsSwapOut(st, p, step);
    EvictKeepsLoads(st, p, step);
    EvictKeepsContent(st, m, p, step);
  }

  lemma {:induction false} EvictStepKeepsInv(st: State, m: Memory, p: Pid, step: EvictStep)
    requires Inv(st, m) && EvictEnabled(st, p, step)
    ensures var e := EventOf(st, Evict(p, step));
            Allows(m, e) && Inv(EvictApply(st, p, step), After(m, e))
  {
    EvictKeepsOwnInv(st, p, step);
    EvictKeepsByteInv(st, m, p, step);
  }

  // ----- Filling a frame -----

  lemma {:induction false} FillKeepsLock(st: State, p: Pid, step: FillStep)
    requires LockInv(st.pc, st.lock)
    requires p in st.pc && FillEnabled(st, p, step)
    ensures var t := FillApply(st, p, step);
            LockInv(t.pc, t.lock)
  {
  }

  lemma {:induction false} FillKeepsPool(st: State, m: Memory, p: Pid, step: FillStep)
    requires PoolInv(st.pool, st.frames, st.mem, st.lock) && PinInv(st.pc, st.frames)
    requires PcInv(st.pc, st.spt, st.ptes) && ContentInv(st.pc, st.spt, st.mem, st.dev, m.pages)
    requires p in st.pc && FillEnabled(st, p, step)
    ensures var t := FillApply(st, p, step);
            PoolInv(t.pool, t.frames, t.mem, t.lock)
  {
  }

  lemma {:induction false} FillKeepsPins(st: State, p: Pid, step: FillStep)
    requires PinInv(st.pc, st.frames)
    requires p in st.pc && FillEnabled(st, p, step)
    ensures var t := FillApply(st, p, step);
            PinInv(t.pc, t.frames)
  {
  }

  lemma {:induction false} FillKeepsFramesAndEntries(st: State, p: Pid, step: FillStep)
    requires FrameInv(st.spt, st.frames, st.lock) && PinInv(st.pc, st.frames) && PcInv(st.pc, st.spt, st.ptes)
    requires PoolInv(st.pool, st.frames, st.mem, st.lock) && EntryInv(st.spt, st.ptes, st.lock)
    requires p in st.pc && FillEnabled(st, p, step)
    ensures var t := FillApply(st, p, step);
            FrameInv(t.spt, t.frames, t.lock) && EntryInv(t.spt, t.ptes, t.lock)
  {
  }

  lemma {:induction false} FillKeepsTablesAndMappings(st: State, p: Pid, step: FillStep)
    requires TableInv(st.pc.Keys, st.spt, st.tables, st.ptes) && PcInv(st.pc, st.spt, st.ptes)
    requires MapInv(st.pc, st.spt, st.ptes)
    requires p in st.pc && FillEnabled(st, p, step)
    ensures var t := FillApply(st, p, step);
            TableInv(t.pc.Keys, t.spt, t.tables, t.ptes) && MapInv(t.pc, t.spt, t.ptes)
  {
  }

  lemma {:induction false} FillKeepsProcessStates(st: State, p: Pid, step: FillStep)
    requires FreshInv(st.pc, st.spt, st.ptes) && PcInv(st.pc, st.spt, st.ptes)
    requires p in st.pc && FillEnabled(st, p, step)
    ensures var t := FillApply(st, p, step);
            FreshInv(t.pc, t.spt, t.ptes) && PcInv(t.pc, t.spt, t.ptes)
  {
  }

  lemma {:induction false} FillKeepsSlots(st: State, p: Pid, step: FillStep)
    requires SwapInv(st.pc, st.spt, st.slots, st.avail, st.lock) && PcInv(st.pc, st.spt, st.ptes)
    requires p in st.pc && FillEnabled(st, p, step)
    ensures var t := FillApply(st, p, step);
            SwapInv(t.pc, t.spt, t.slots, t.avail, t.lock)
  {
  }

  lemma {:induction false} FillKeepsSwapOut(st: State, p: Pid, step: FillStep)
    requires SaveInv(st.pc, st.mem, st.dev, st.lock) && PinInv(st.pc, st.frames) && LockInv(st.pc, st.lock)
    requires PoolInv(st.pool, st.frames, st.mem, st.lock)
    requires p in st.pc && FillEnabled(st, p, step)
    ensures var t := FillApply(st, p, step);
            SaveInv(t.pc, t.mem, t.dev, t.lock)
  {
  }

  lemma {:induction false} FillKeepsLoads(st: State, p: Pid, step: FillStep)
    requires LoadInv(st.pc, st.spt, st.mem, st.dev) && PcInv(st.pc, st.spt, st.ptes) && PinInv(st.pc, st.frames)
    requires p in st.pc && FillEnabled(st, p, step)
    ensures var t := FillApply(st, p, step);
            LoadInv(t.pc, t.spt, t.mem, t.dev)
  {
  }

  lemma {:induction false} FillKeepsCover(st: State, p: Pid, step: FillStep)
    requires CoverInv(st.pc, st.spt, st.slots, st.avail, st.lock) && PcInv(st.pc, st.spt, st.ptes)
    requires p in st.pc && FillEnabled(st, p, step)
    ensures var t := FillApply(st, p, step);
            CoverInv(t.pc, t.spt, t.slots, t.avail, t.lock)
  {
    var t := FillApply(st, p, step);
    CoverStays(st.pc, st.spt, st.slots, st.avail, st.lock, t.pc, t.spt, t.avail, t.lock);
  }

  lemma {:induction false} QuietFillKeepsContent(st: State, m: Memory, p: Pid, step: FillStep)
    requires ContentInv(st.pc, st.spt, st.mem, st.dev, m.pages) && PinInv(st.pc, st.frames)
    requires PcInv(st.pc, st.spt, st.ptes) && FrameInv(st.spt, st.frames, st.lock)
    requires p in st.pc && FillEnabled(st, p, step)
    requires step.EndRead? ==> ReadBack(st, m, st.pc[p])
    ensures var t := FillApply(st, p, step);
            ContentInv(t.pc, t.spt, t.mem, t.dev, m.pages)
  {
    var c, t := st.pc[p], FillApply(st, p, step);
    if c.kind == Fault {
      assert ContentOk(c, c.a, st.spt[c.a], st.mem, st.dev, m.pages[c.a]);
      if step.FillZero? || step.ReadSector? {
        CarriedFrameApart(st, m, p, t.mem[c.k]);
      }
    }
    StageKeepsContent(st.pc, st.spt, t.mem, st.dev, m.pages, p, t.pc[p], m.pages);
  }

  lemma {:induction false} FillKeepsContent(st: State, m: Memory, p: Pid, step: FillStep)
    requires ContentInv(st.pc, st.spt, st.mem, st.dev, m.pages) && PinInv(st.pc, st.frames)
    requires PcInv(st.pc, st.spt, st.ptes) && FrameInv(st.spt, st.frames, st.lock)
    requires LoadInv(st.pc, st.spt, st.mem, st.dev) && PoolInv(st.pool, st.frames, st.mem, st.lock)
    requires p in st.pc && FillEnabled(st, p, step) && st.files == m.files
    ensures var t, e := FillApply(st, p, step), EventOf(st, Fill(p, step));
            Allows(m, e) && ContentInv(t.pc, t.spt, t.mem, t.dev, After(m, e).pages)
  {
    if step.EndRead? {
      SwapInReadsBack(st, m, p);
    }
    assert After(m, EventOf(st, Fill(p, step))) == m;
    QuietFillKeepsContent(st, m, p, step);
  }

  lemma {:induction false} FillKeepsOwnInv(st: State, m: Memory, p: Pid, step: FillStep)
    requires Inv(st, m) && p in st.pc && FillEnabled(st, p, step)
    ensures OwnInv(FillApply(st, p, step))
  {
    FillKeepsLock(st, p, step);
    FillKeepsPool(st, m, p, step);
    FillKeepsPins(st, p, step);
    FillKeepsFramesAndEntries(st, p, step);
    FillKeepsTablesAndMappings(st, p, step);
    FillKeepsProcessStates(st, p, step);
    FillKeepsSlots(st, p, step);
    FillKeepsCover(st, p, step);
  }

  lemma {:induction false} FillKeepsByteInv(st: State, m: Memory, p: Pid, step: FillStep)
    requires ByteInv(st, m) && LockInv(st.pc, st.lock) && PoolInv(st.pool, st.frames, st.mem, st.lock)
    requires PcInv(st.pc, st.spt, st.ptes) && PinInv(st.pc, st.frames) && FrameInv(st.spt, st.frames, st.lock)
    requires p in st.pc && FillEnabled(st, p, step)
    ensures var e := EventOf(st, Fill(p, step));
            Allows(m, e) && ByteInv(FillApply(st, p, step), After(m, e))
  {
    FillKeepsContent(st, m, p, step);
    FillKeepsSwapOut(st, p, step);
    FillKeepsLoads(st, p, step);
  }

  lemma {:induction false} FillStepKeepsInv(st: State, m: Memory, p: Pid, step: FillStep)
    requires Inv(st, m) && p in st.pc && FillEnabled(st, p, step)
    ensures var e := EventOf(st, Fill(p, step));
            Allows(m, e) && Inv(FillApply(st, p, step), After(m, e))
  {
    FillKeepsOwnInv(st, m, p, step);
    FillKeepsByteInv(st, m, p, step);
  }

  // ----- Reading a page from its file -----

  /** A load from a file goes on to `c` with `g` in its frame. */
  ghost predicate LoadMove(st: State, p: Pid, c: Pc, g: Page) {
    && p in st.pc && st.pc[p].Loading? && st.pc[p].kind == Fault && (st.pc[p].stage == Filling || st.pc[p].stage.Copying?)
    && c.Loading? && c.kind == Fault && c.a == st.pc[p].a && c.k == st.pc[p].k
    && (c.stage.Copying? || c.stage.Filled? || c.stage == Dropping)
    && PcOk(p, c, st.spt, st.ptes) && c.a in st.spt && st.spt[c.a].status == FromFilesys && WellFormed(g)
  }

  ghost function Moved(st: State, p: Pid, c: Pc, g: Page): State
    requires c.Loading?
  {
    st.(pc := st.pc[p := c], mem := st.mem[c.k := g])
  }

  lemma {:induction false} LoadMoveKeepsOwners(st: State, p: Pid, c: Pc, g: Page)
    requires LoadMove(st, p, c, g) && LockInv(st.pc, st.lock) && PinInv(st.pc, st.frames)
    requires PoolInv(st.pool, st.frames, st.mem, st.lock) && TableInv(st.pc.Keys, st.spt, st.tables, st.ptes)
    ensures var t := Moved(st, p, c, g);
            && LockInv(t.pc, t.lock) && PinInv(t.pc, t.frames)
            && PoolInv(t.pool, t.frames, t.mem, t.lock) && TableInv(t.pc.Keys, t.spt, t.tables, t.ptes)
  {
  }

  lemma {:induction false} LoadMoveKeepsProcessStates(st: State, p: Pid, c: Pc, g: Page)
    requires LoadMove(st, p, c, g) && PcInv(st.pc, st.spt, st.ptes)
    requires MapInv(st.pc, st.spt, st.ptes) && FreshInv(st.pc, st.spt, st.ptes)
    ensures var t := Moved(st, p, c, g);
            MapInv(t.pc, t.spt, t.ptes) && FreshInv(t.pc, t.spt, t.ptes) && PcInv(t.pc, t.spt, t.ptes)
  {
  }

  lemma {:induction false} LoadMoveKeepsSlots(st: State, p: Pid, c: Pc, g: Page)
    requires LoadMove(st, p, c, g) && PcInv(st.pc, st.spt, st.ptes)
    requires SwapInv(st.pc, st.spt, st.slots, st.avail, st.lock) && CoverInv(st.pc, st.spt, st.slots, st.avail, st.lock)
    ensures var t := Moved(st, p, c, g);
            SwapInv(t.pc, t.spt, t.slots, t.avail, t.lock) && CoverInv(t.pc, t.spt, t.slots, t.avail, t.lock)
  {
    CoverStays(st.pc, st.spt, st.slots, st.avail, st.lock, st.pc[p := c], st.spt, st.avail, st.lock);
  }

  lemma {:induction false} LoadMoveKeepsTransfers(st: State, p: Pid, c: Pc, g: Page)
    requires LoadMove(st, p, c, g) && LockInv(st.pc, st.lock) && PinInv(st.pc, st.frames)
    requires PoolInv(st.pool, st.frames, st.mem, st.lock)
    requires SaveInv(st.pc, st.mem, st.dev, st.lock) && LoadInv(st.pc, st.spt, st.mem, st.dev)
    ensures var t := Moved(st, p, c, g);
            SaveInv(t.pc, t.mem, t.dev, t.lock) && LoadInv(t.pc, t.spt, t.mem, t.dev)
  {
  }

  /** Overwriting the frame of a load disturbs no other page. */
  lemma {:induction false} LoadMoveKeepsContent(st: State, m: Memory, p: Pid, c: Pc, g: Page, content: Content)
    requires LoadMove(st, p, c, g) && PinInv(st.pc, st.frames) && FrameInv(st.spt, st.frames, st.lock)
    requires ContentInv(st.pc, st.spt, st.mem, st.dev, m.pages)
    requires !Doomed(c) ==> ContentOk(c, c.a, st.spt[c.a], st.mem[c.k := g], st.dev, content)
    ensures var t := Moved(st, p, c, g);
            ContentInv(t.pc, t.spt, t.mem, t.dev, m.pages[c.a := content])
  {
    var mem' := st.mem[c.k := g];
    forall d | d in st.spt && d.p in st.pc && !Doomed(st.pc[p := c][d.p]) && d != c.a
      ensures ContentOk(st.pc[p := c][d.p], d, st.spt[d], mem', st.dev, m.pages[d])
    {
      assert ContentOk(st.pc[d.p], d, st.spt[d], st.mem, st.dev, m.pages[d]);
    }
  }

  lemma {:induction false} LoadMoveKeepsInv(st: State, m: Memory, p: Pid, c: Pc, g: Page, content: Content)
    requires Inv(st, m) && LoadMove(st, p, c, g)
    requires !Doomed(c) ==> ContentOk(c, c.a, st.spt[c.a], st.mem[c.k := g], st.dev, content)
    ensures Inv(Moved(st, p, c, g), m.(pages := m.pages[c.a := content]))
  {
    LoadMoveKeepsOwners(st, p, c, g);
    LoadMoveKeepsProcessStates(st, p, c, g);
    LoadMoveKeepsSlots(st, p, c, g);
    LoadMoveKeepsTransfers(st, p, c, g);
    LoadMoveKeepsContent(st, m, p, c, g, content);
  }

  /** What a load in progress has to do with its file. */
  lemma {:induction false} LoadSees(st: State, m: Memory, p: Pid)
    requires ContentInv(st.pc, st.spt, st.mem, st.dev, m.pages) && PcInv(st.pc, st.spt, st.ptes)
    requires PinInv(st.pc, st.frames) && PoolInv(st.pool, st.frames, st.mem, st.lock)
    requires p in st.pc && st.pc[p].Loading? && st.pc[p].kind == Fault
    requires st.pc[p].stage.Copying? || FillingFrom(st, st.pc[p], FromFilesys)
    ensures var c := st.pc[p];
            && c.a.p == p && c.a in st.spt && c.a in m.pages && st.spt[c.a].status == FromFilesys && Faulting(st.spt, st.ptes, c.a)
            && m.pages[c.a].Pending? && m.pages[c.a].src == st.spt[c.a].src && c.k in st.mem
            && StartsWith(st.mem[c.k], m.pages[c.a].got)
            && |m.pages[c.a].got| == (if c.stage.Copying? then c.stage.done else 0)
  {
    var c := st.pc[p];
    assert ContentOk(c, c.a, st.spt[c.a], st.mem, st.dev, m.pages[c.a]);
  }

  lemma {:induction false} Extends(g: Page, got: seq<Byte>, bytes: seq<Byte>)
    requires StartsWith(g, got)
    ensures StartsWith(Patched(g, |got|, bytes), got + bytes)
  {
  }

  lemma {:induction false} StartsAndEnds(g: Page, got: seq<Byte>)
    requires StartsWith(g, got)
    ensures Cleared(g, |got|) == Padded(got)
  {
    var x, y := Cleared(g, |got|), Padded(got);
    forall s | 0 <= s < SECTORS_PER_PAGE ensures x[s] == y[s] {
      assert forall o :: 0 <= o < SECTOR_SIZE ==> x[s][o] == y[s][o];
    }
  }

  /** The step is the move to `c` with `g` in the frame, and the page's content becomes `content`. */
  ghost predicate IsMove(st: State, m: Memory, p: Pid, step: CopyStep, c: Pc, g: Page, content: Content)
    requires p in st.pc && CopyEnabled(st, p, step)
  {
    && LoadMove(st, p, c, g) && CopyApply(st, p, step) == Moved(st, p, c, g)
    && (!Doomed(c) ==> ContentOk(c, c.a, st.spt[c.a], st.mem[c.k := g], st.dev, content))
    && var e := EventOf(st, Copy(p, step)); Allows(m, e) && After(m, e) == m.(pages := m.pages[c.a := content])
  }

  /** A chunk of the file extends what has been read, in the frame as in plain memory. */
  lemma {:induction false} CopyChunkIsMove(st: State, m: Memory, p: Pid) returns (c: Pc, g: Page, content: Content)
    requires ContentInv(st.pc, st.spt, st.mem, st.dev, m.pages) && PcInv(st.pc, st.spt, st.ptes)
    requires PinInv(st.pc, st.frames) && PoolInv(st.pool, st.frames, st.mem, st.lock) && st.files == m.files
    requires p in st.pc && CopyEnabled(st, p, CopyChunk)
    ensures IsMove(st, m, p, CopyChunk, c, g, content)
  {
    LoadSees(st, m, p);
    var pc := st.pc[p];
    var src, done, got := st.spt[pc.a].src, pc.stage.done, m.pages[pc.a].got;
    var bytes := NextChunk(st.files, src, done);
    Extends(st.mem[pc.k], got, bytes);
    c, g, content := pc.(stage := Copying(done + |bytes|)), Patched(st.mem[pc.k], done, bytes), Pending(src, got + bytes);
  }

  /** At the end the rest of the page is cleared, and the page is what plain memory has. */
  lemma {:induction false} EndFileIsMove(st: State, m: Memory, p: Pid) returns (c: Pc, g: Page, content: Content)
    requires ContentInv(st.pc, st.spt, st.mem, st.dev, m.pages) && PcInv(st.pc, st.spt, st.ptes)
    requires PinInv(st.pc, st.frames) && PoolInv(st.pool, st.frames, st.mem, st.lock)
    requires p in st.pc && CopyEnabled(st, p, EndFile)
    ensures IsMove(st, m, p, EndFile, c, g, content)
  {
    LoadSees(st, m, p);
    var pc, got := st.pc[p], m.pages[st.pc[p].a].got;
    StartsAndEnds(st.mem[pc.k], got);
    c, g, content := pc.(stage := Filled(st.spt[pc.a].src.writable)), Padded(got), Bytes(Padded(got));
  }

  /** The load begins, or fails. */
  lemma {:induction false} QuietCopyIsMove(st: State, m: Memory, p: Pid, step: CopyStep) returns (c: Pc, g: Page, content: Content)
    requires ContentInv(st.pc, st.spt, st.mem, st.dev, m.pages) && PcInv(st.pc, st.spt, st.ptes)
    requires PinInv(st.pc, st.frames) && PoolInv(st.pool, st.frames, st.mem, st.lock)
    requires p in st.pc && CopyEnabled(st, p, step) && (step.BeginFile? || step.FileFail?)
    ensures IsMove(st, m, p, step, c, g, content)
  {
    LoadSees(st, m, p);
    var pc := st.pc[p];
    c := pc.(stage := if step.BeginFile? then Copying(0) else Dropping);
    g, content := st.mem[pc.k], m.pages[pc.a];
    assert st.mem[pc.k := g] == st.mem && m.pages[pc.a := content] == m.pages;
  }

  lemma {:induction false} CopyIsMove(st: State, m: Memory, p: Pid, step: CopyStep) returns (c: Pc, g: Page, content: Content)
    requires ContentInv(st.pc, st.spt, st.mem, st.dev, m.pages) && PcInv(st.pc, st.spt, st.ptes)
    requires PinInv(st.pc, st.frames) && PoolInv(st.pool, st.frames, st.mem, st.lock) && st.files == m.files
    requires p in st.pc && CopyEnabled(st, p, step)
    ensures IsMove(st, m, p, step, c, g, content)
  {
    if step.CopyChunk? {
      c, g, content := CopyChunkIsMove(st, m, p);
    } else if step.EndFile? {
      c, g, content := EndFileIsMove(st, m, p);
    } else {
      c, g, content := QuietCopyIsMove(st, m, p, step);
    }
  }

  lemma {:induction false} CopyStepKeepsInv(st: State, m: Memory, p: Pid, step: CopyStep)
    requires Inv(st, m) && p in st.pc && CopyEnabled(st, p, step)
    ensures var e := EventOf(st, Copy(p, step));
            Allows(m, e) && Inv(CopyApply(st, p, step), After(m, e))
  {
    var c, g, content := CopyIsMove(st, m, p, step);
    LoadMoveKeepsInv(st, m, p, c, g, content);
  }

  // ----- Mapping a frame -----

  lemma {:induction false} MapKeepsLockAndPool(st: State, p: Pid, step: MapStep)
    requires LockInv(st.pc, st.lock) && PoolInv(st.pool, st.frames, st.mem, st.lock)
    requires p in st.pc && MapEnabled(st, p, step)
    ensures var t := MapApply(st, p, step);
            LockInv(t.pc, t.lock) && PoolInv(t.pool, t.frames, t.mem, t.lock)
  {
  }

  lemma {:induction false} MapKeepsPins(st: State, p: Pid, step: MapStep)
    requires PinInv(st.pc, st.frames)
    requires p in st.pc && MapEnabled(st, p, step)
    ensures var t := MapApply(st, p, step);
            PinInv(t.pc, t.frames)
  {
  }

  lemma {:induction false} RecordKeepsFrames(st: State, p: Pid)
    requires FrameInv(st.spt, st.frames, st.lock) && PinInv(st.pc, st.frames) && PcInv(st.pc, st.spt, st.ptes)
    requires PoolInv(st.pool, st.frames, st.mem, st.lock)
    requires p in st.pc && MapEnabled(st, p, Record)
    ensures var t := MapApply(st, p, Record);
            FrameInv(t.spt, t.frames, t.lock)
  {
  }

  lemma {:induction false} QuietMapKeepsFrames(st: State, p: Pid, step: MapStep)
    requires FrameInv(st.spt, st.frames, st.lock) && PinInv(st.pc, st.frames) && PcInv(st.pc, st.spt, st.ptes)
    requires PoolInv(st.pool, st.frames, st.mem, st.lock)
    requires p in st.pc && MapEnabled(st, p, step) && step != Record
    ensures var t := MapApply(st, p, step);
            FrameInv(t.spt, t.frames, t.lock)
  {
  }

  lemma {:induction false} MapKeepsEntries(st: State, p: Pid, step: MapStep)
    requires EntryInv(st.spt, st.ptes, st.lock) && PcInv(st.pc, st.spt, st.ptes)
    requires FrameInv(st.spt, st.frames, st.lock) && PinInv(st.pc, st.frames)
    requires PoolInv(st.pool, st.frames, st.mem, st.lock) && FreshInv(st.pc, st.spt, st.ptes)
    requires p in st.pc && MapEnabled(st, p, step)
    ensures var t := MapApply(st, p, step);
            EntryInv(t.spt, t.ptes, t.lock)
  {
  }

  lemma {:induction false} MapKeepsTables(st: State, p: Pid, step: MapStep)
    requires TableInv(st.pc.Keys, st.spt, st.tables, st.ptes) && PcInv(st.pc, st.spt, st.ptes)
    requires p in st.pc && MapEnabled(st, p, step)
    ensures var t := MapApply(st, p, step);
            TableInv(t.pc.Keys, t.spt, t.tables, t.ptes)
  {
  }

  lemma {:induction false} MapKeepsMappings(st: State, p: Pid, step: MapStep)
    requires MapInv(st.pc, st.spt, st.ptes) && PcInv(st.pc, st.spt, st.ptes)
    requires p in st.pc && MapEnabled(st, p, step)
    ensures var t := MapApply(st, p, step);
            MapInv(t.pc, t.spt, t.ptes)
  {
  }

  lemma {:induction false} MapKeepsFreshEntries(st: State, p: Pid, step: MapStep)
    requires FreshInv(st.pc, st.spt, st.ptes) && p in st.pc && MapEnabled(st, p, step) && PcOk(p, st.pc[p], st.spt, st.ptes)
    ensures var t := MapApply(st, p, step);
            forall a {:trigger t.spt[a]} :: a in t.spt && a.p in t.pc && Fresh(t.pc[a.p]) ==> t.spt[a].status == FromFilesys
  {
  }

  lemma {:induction false} MapKeepsFreshProcesses(st: State, p: Pid, step: MapStep)
    requires FreshInv(st.pc, st.spt, st.ptes) && PcInv(st.pc, st.spt, st.ptes)
    requires p in st.pc && MapEnabled(st, p, step)
    ensures var t := MapApply(st, p, step);
            FreshInv(t.pc, t.spt, t.ptes)
  {
    MapKeepsFreshEntries(st, p, step);
  }

  lemma {:induction false} MapKeepsProcessStates(st: State, p: Pid, step: MapStep)
    requires PcInv(st.pc, st.spt, st.ptes) && FreshInv(st.pc, st.spt, st.ptes)
    requires p in st.pc && MapEnabled(st, p, step)
    ensures var t := MapApply(st, p, step);
            PcInv(t.pc, t.spt, t.ptes)
  {
  }

  lemma {:induction false} RecordKeepsSlots(st: State, p: Pid)
    requires SwapInv(st.pc, st.spt, st.slots, st.avail, st.lock) && PcInv(st.pc, st.spt, st.ptes)
    requires TableInv(st.pc.Keys, st.spt, st.tables, st.ptes)
    requires p in st.pc && MapEnabled(st, p, Record)
    ensures var t := MapApply(st, p, Record);
            SwapInv(t.pc, t.spt, t.slots, t.avail, t.lock)
  {
  }

  lemma {:induction false} QuietMapKeepsSlots(st: State, p: Pid, step: MapStep)
    requires SwapInv(st.pc, st.spt, st.slots, st.avail, st.lock) && PcInv(st.pc, st.spt, st.ptes)
    requires TableInv(st.pc.Keys, st.spt, st.tables, st.ptes)
    requires p in st.pc && MapEnabled(st, p, step) && step != Record
    ensures var t := MapApply(st, p, step);
            SwapInv(t.pc, t.spt, t.slots, t.avail, t.lock)
  {
  }

  lemma {:induction false} MapKeepsSwapOut(st: State, p: Pid, step: MapStep)
    requires SaveInv(st.pc, st.mem, st.dev, st.lock) && PinInv(st.pc, st.frames) && LockInv(st.pc, st.lock)
    requires PoolInv(st.pool, st.frames, st.mem, st.lock)
    requires p in st.pc && MapEnabled(st, p, step)
    ensures var t := MapApply(st, p, step);
            SaveInv(t.pc, t.mem, t.dev, t.lock)
  {
  }

  lemma {:induction false} MapKeepsLoads(st: State, p: Pid, step: MapStep)
    requires LoadInv(st.pc, st.spt, st.mem, st.dev) && PcInv(st.pc, st.spt, st.ptes) && PinInv(st.pc, st.frames)
    requires p in st.pc && MapEnabled(st, p, step)
    ensures var t := MapApply(st, p, step);
            LoadInv(t.pc, t.spt, t.mem, t.dev)
  {
  }

  lemma {:induction false} MapKeepsCover(st: State, p: Pid, step: MapStep)
    requires CoverInv(st.pc, st.spt, st.slots, st.avail, st.lock) && PcInv(st.pc, st.spt, st.ptes)
    requires p in st.pc && MapEnabled(st, p, step)
    ensures var t := MapApply(st, p, step);
            CoverInv(t.pc, t.spt, t.slots, t.avail, t.lock)
  {
    var t := MapApply(st, p, step);
    CoverStays(st.pc, st.spt, st.slots, st.avail, st.lock, t.pc, t.spt, t.avail, t.lock);
  }

  /** Recording the mapping turns the page in flight into a page on its frame. */
  lemma {:induction false} RecordKeepsContent(st: State, m: Memory, p: Pid)
    requires ContentInv(st.pc, st.spt, st.mem, st.dev, m.pages) && LoadInv(st.pc, st.spt, st.mem, st.dev)
    requires PcInv(st.pc, st.spt, st.ptes)
    requires p in st.pc && MapEnabled(st, p, Record)
    ensures var t, e := MapApply(st, p, Record), EventOf(st, Map(p, Record));
            Allows(m, e) && ContentInv(t.pc, t.spt, t.mem, t.dev, After(m, e).pages)
  {
    var c, t, e := st.pc[p], MapApply(st, p, Record), EventOf(st, Map(p, Record));
    assert t.spt.Keys == After(m, e).pages.Keys;
    if c.a in st.spt {
      assert ContentOk(c, c.a, st.spt[c.a], st.mem, st.dev, m.pages[c.a]);
    }
  }

  lemma {:induction false} QuietMapKeepsContent(st: State, m: Memory, p: Pid, step: MapStep)
    requires ContentInv(st.pc, st.spt, st.mem, st.dev, m.pages) && PcInv(st.pc, st.spt, st.ptes)
    requires PinInv(st.pc, st.frames) && FrameInv(st.spt, st.frames, st.lock)
    requires p in st.pc && MapEnabled(st, p, step) && step != Record
    ensures var t := MapApply(st, p, step);
            ContentInv(t.pc, t.spt, t.mem, t.dev, m.pages)
  {
    var c, t := st.pc[p], MapApply(st, p, step);
    if step.Drop? {
      CarriedFrameApart(st, m, p, ScrubbedPage());
    } else if !step.Unpin? {
      if c.a in st.spt {
        assert ContentOk(c, c.a, st.spt[c.a], st.mem, st.dev, m.pages[c.a]);
      }
      StageKeepsContent(st.pc, st.spt, t.mem, st.dev, m.pages, p, t.pc[p], m.pages);
    }
  }

  lemma {:induction false} MapKeepsContent(st: State, m: Memory, p: Pid, step: MapStep)
    requires ContentInv(st.pc, st.spt, st.mem, st.dev, m.pages) && LoadInv(st.pc, st.spt, st.mem, st.dev)
    requires PcInv(st.pc, st.spt, st.ptes) && PinInv(st.pc, st.frames) && FrameInv(st.spt, st.frames, st.lock)
    requires p in st.pc && MapEnabled(st, p, step)
    ensures var t, e := MapApply(st, p, step), EventOf(st, Map(p, step));
            Allows(m, e) && ContentInv(t.pc, t.spt, t.mem, t.dev, After(m, e).pages)
  {
    if step.Record? {
      RecordKeepsContent(st, m, p);
    } else {
      assert After(m, EventOf(st, Map(p, step))) == m;
      QuietMapKeepsContent(st, m, p, step);
    }
  }

  lemma {:induction false} MapKeepsOwnInv(st: State, p: Pid, step: MapStep)
    requires OwnInv(st) && p in st.pc && MapEnabled(st, p, step)
    ensures OwnInv(MapApply(st, p, step))
  {
    MapKeepsLockAndPool(st, p, step);
    MapKeepsPins(st, p, step);
    if step.Record? {
      RecordKeepsFrames(st, p);
      RecordKeepsSlots(st, p);
    } else {
      QuietMapKeepsFrames(st, p, step);
      QuietMapKeepsSlots(st, p, step);
    }
    MapKeepsEntries(st, p, step);
    MapKeepsTables(st, p, step);
    MapKeepsMappings(st, p, step);
    MapKeepsFreshProcesses(st, p, step);
    MapKeepsProcessStates(st, p, step);
    MapKeepsCover(st, p, step);
  }

  lemma {:induction false} MapKeepsByteInv(st: State, m: Memory, p: Pid, step: MapStep)
    requires ByteInv(st, m) && LockInv(st.pc, st.lock) && PoolInv(st.pool, st.frames, st.mem, st.lock)
    requires PcInv(st.pc, st.spt, st.ptes) && PinInv(st.pc, st.frames) && FrameInv(st.spt, st.frames, st.lock)
    requires p in st.pc && MapEnabled(st, p, step)
    ensures var e := EventOf(st, Map(p, step));
            Allows(m, e) && ByteInv(MapApply(st, p, step), After(m, e))
  {
    MapKeepsSwapOut(st, p, step);
    MapKeepsLoads(st, p, step);
    MapKeepsContent(st, m, p, step);
  }

  lemma {:induction false} MapStepKeepsInv(st: State, m: Memory, p: Pid, step: MapStep)
    requires Inv(st, m) && p in st.pc && MapEnabled(st, p, step)
    ensures var e := EventOf(st, Map(p, step));
            Allows(m, e) && Inv(MapApply(st, p, step), After(m, e))
  {
    MapKeepsOwnInv(st, p, step);
    MapKeepsByteInv(st, m, p, step);
  }

  lemma {:induction false} StepKeepsInv(st: State, m: Memory, step: Step)
    requires Inv(st, m) && Enabled(st, step)
    ensures Allows(m, EventOf(st, step)) && Inv(Apply(st, step), After(m, EventOf(st, step)))
  {
    match step
    case Start(s) => StartStepKeepsInv(st, m, s);
    case User(u) => UserStepKeepsInv(st, m, u);
    case Alloc(p, f) => AllocStepKeepsInv(st, m, p, f);
    case Evict(p, e) => EvictStepKeepsInv(st, m, p, e);
    case Fill(p, l) => FillStepKeepsInv(st, m, p, l);
    case Copy(p, x) => CopyStepKeepsInv(st, m, p, x);
    case Map(p, i) => MapStepKeepsInv(st, m, p, i);
  }
}
