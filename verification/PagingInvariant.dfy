/** The invariant of the paging machine, one conjunct per concern.  Each conjunct names
    only the parts of the state it speaks of. */
module PagingInvariant {
  import opened Common
  import opened Paging

  type Pcs = map<Pid, Pc>
  type Spt = map<Addr, Entry>
  type Frames = map<Frame, FrameEntry>
  type Ptes = map<Addr, Pte>

  // ----- Vocabulary -----

  /** The fault or the stack set-up has failed and the process will exit. */
  ghost predicate Doomed(c: Pc) {
    c.Dead? || (c.Loading? && c.stage == Dropping)
  }

  /** load() has not finished: the process has not yet run. */
  ghost predicate Fresh(c: Pc) {
    || c.Starting?
    || ((c.Waiting? || c.Allocating?) && c.kind == Stack)
    || (c.Loading? && c.kind == Stack && (c.stage == Filling || c.stage.Filled? || c.stage == Mapped))
  }

  /** The page's bytes are in the frame of the fault that is bringing it in. */
  ghost predicate InFlight(c: Pc, a: Addr) {
    c.Loading? && c.kind == Fault && c.a == a && (c.stage.Filled? || c.stage == Mapped)
  }

  /** The page is being read from its file into the frame of the fault. */
  ghost predicate IsCopied(c: Pc, a: Addr) {
    c.Loading? && c.kind == Fault && c.a == a && c.stage.Copying?
  }

  /** The page starts with these bytes. */
  ghost predicate StartsWith(g: Page, bytes: seq<Byte>) {
    && WellFormed(g)
    && forall s, o :: 0 <= s < SECTORS_PER_PAGE && 0 <= o < SECTOR_SIZE && At(s, o) < |bytes| ==> g[s][o] == bytes[At(s, o)]
  }

  /** The victim's mapping is cleared and its entry still says ON_FRAME. */
  ghost predicate IsVictim(l: FrameLock, k: Frame) {
    (l.Scanning? || l.Saving? || l.Saved?) && l.victim == k
  }

  /** The victim's entry already says ON_SWAP; the frame is about to be freed. */
  ghost predicate IsRetired(l: FrameLock, k: Frame) {
    l.Retired? && l.victim == k
  }

  /** The swap slot recorded in the entry belongs to this page. */
  ghost predicate HoldsSlot(pc: Pcs, spt: Spt, a: Addr) {
    a in spt && spt[a].status == OnSwap && a.p in pc && !InFlight(pc[a.p], a)
  }

  ghost predicate OnFrameAt(spt: Spt, a: Addr, k: Frame) {
    a in spt && spt[a].status == OnFrame && spt[a].kpage == Some(k)
  }

  // ----- The invariant -----
  // The triggers keep instantiation to pages, frames and processes already in play.

  ghost predicate LockInv(pc: Pcs, l: FrameLock) {
    && (forall p {:trigger pc[p]} :: p in pc && pc[p].Allocating? ==> l != Free && l.p == p)
    && (l != Free ==> l.p in pc && pc[l.p].Allocating?)
  }

  ghost predicate PoolInv(pool: set<Frame>, frames: Frames, mem: map<Frame, Page>, l: FrameLock) {
    && pool <= mem.Keys && frames.Keys <= mem.Keys && pool !! frames.Keys
    && (forall k {:trigger mem[k]} :: k in mem ==> WellFormed(mem[k]))
    && (l.Owning? ==> l.k in mem && l.k !in pool && l.k !in frames)
    && (l.Retry? ==> pool != {})
    && (l.Scanning? || l.Saving? || l.Saved? || l.Retired? ==> l.victim in frames && !frames[l.victim].pinned)
  }

  /** A pinned frame is carried by its owner, and every process carries at most one. */
  ghost predicate PinInv(pc: Pcs, frames: Frames) {
    && (forall k {:trigger frames[k]} :: k in frames ==>
          && frames[k].a.p in pc
          && (frames[k].pinned ==> Carries(pc[frames[k].a.p], frames[k].a, k)))
    && (forall p {:trigger pc[p]} :: p in pc && pc[p].Loading? ==>
          pc[p].a.p == p && pc[p].k in frames && frames[pc[p].k] == FrameEntry(pc[p].a, true))
  }

  ghost predicate Carries(c: Pc, a: Addr, k: Frame) {
    c.Loading? && c.k == k && c.a == a
  }

  /** An unpinned frame holds its owner's page; an entry on a frame owns that frame. */
  ghost predicate FrameInv(spt: Spt, frames: Frames, l: FrameLock) {
    && (forall k {:trigger frames[k]} ::
          k in frames && !frames[k].pinned && !IsRetired(l, k) ==>
            && frames[k].a in spt && spt[frames[k].a].status == OnFrame
            && spt[frames[k].a].kpage == Some(k))
    && (forall a {:trigger spt[a]} :: a in spt && spt[a].status == OnFrame ==>
          && spt[a].kpage.Some? && spt[a].kpage.value in frames && !IsRetired(l, spt[a].kpage.value)
          && frames[spt[a].kpage.value].a == a)
  }

  /** The page table of a page that has been on a frame exists and stays. */
  ghost predicate TableInv(pids: set<Pid>, spt: Spt, tables: set<(Pid, nat)>, ptes: Ptes) {
    && (forall a {:trigger spt[a]} :: a in spt ==> a.p in pids && UserAddr(a))
    && (forall a {:trigger spt[a]} ::
          a in spt && (spt[a].status == OnFrame || spt[a].status == OnSwap) ==> (a.p, a.pd) in tables)
    && (forall a {:trigger ptes[a]} :: a in ptes ==> a.p in pids && (a.p, a.pd) in tables)
  }

  /** A page on a frame is mapped to it, unless that frame is the victim. */
  ghost predicate EntryInv(spt: Spt, ptes: Ptes, l: FrameLock) {
    forall a {:trigger spt[a]} :: a in spt && spt[a].status == OnFrame && spt[a].kpage.Some? ==>
      if IsVictim(l, spt[a].kpage.value) then !Present(ptes, a)
      else Present(ptes, a) && ptes[a].frame == spt[a].kpage.value
  }

  /** A present mapping is one that the entry or the fault in progress accounts for. */
  ghost predicate MapInv(pc: Pcs, spt: Spt, ptes: Ptes) {
    forall a {:trigger ptes[a]} {:trigger Present(ptes, a)} :: Present(ptes, a) && a.p in pc && !Doomed(pc[a.p]) ==>
      || OnFrameAt(spt, a, ptes[a].frame)
      || (pc[a.p].Loading? && pc[a.p].stage == Mapped && pc[a.p].a == a && pc[a.p].k == ptes[a].frame)
  }

  /** Before a process first runs, its pages are promised but none is mapped. */
  ghost predicate FreshInv(pc: Pcs, spt: Spt, ptes: Ptes) {
    && (forall a {:trigger spt[a]} :: a in spt && a.p in pc && Fresh(pc[a.p]) ==> spt[a].status == FromFilesys)
    && (forall a {:trigger ptes[a]} {:trigger Present(ptes, a)} :: Present(ptes, a) && a.p in pc && Fresh(pc[a.p]) ==>
          pc[a.p].Loading? && pc[a.p].stage == Mapped && pc[a.p].a == a)
  }

  ghost predicate PcInv(pc: Pcs, spt: Spt, ptes: Ptes) {
    forall p {:trigger pc[p]} :: p in pc ==> PcOk(p, pc[p], spt, ptes)
  }

  ghost predicate PcOk(p: Pid, c: Pc, spt: Spt, ptes: Ptes) {
    match c
    case Starting => true
    case Running => true
    case Dead => true
    case Waiting(a, kind) => a.p == p && UserAddr(a) && (kind == Fault ==> Faulting(spt, ptes, a))
    case Allocating(a, kind) => a.p == p && UserAddr(a) && (kind == Fault ==> Faulting(spt, ptes, a))
    case Loading(a, kind, k, stage) =>
      && a.p == p && UserAddr(a)
      && match stage
         case Filling => kind == Fault ==> Faulting(spt, ptes, a)
         case Copying(done) =>
           kind == Fault && Faulting(spt, ptes, a) && spt[a].status == FromFilesys && done <= spt[a].src.readBytes
         case Reading(done) =>
           kind == Fault && Faulting(spt, ptes, a) && spt[a].status == OnSwap && done <= SECTORS_PER_PAGE
         case Filled(w) => kind == Fault ==> Faulting(spt, ptes, a)
         case Mapped => Present(ptes, a) && ptes[a].frame == k && (kind == Fault ==> a in spt && spt[a].status != OnFrame)
         case Recorded => OnFrameAt(spt, a, k)
         case Dropping => a in spt ==> spt[a].status != OnFrame
  }

  /** The page has an entry, is not on a frame and is not mapped. */
  ghost predicate Faulting(spt: Spt, ptes: Ptes, a: Addr) {
    a in spt && spt[a].status != OnFrame && !Present(ptes, a)
  }

  /** No two pages hold the same slot, and a slot that is held is not available. */
  ghost predicate SwapInv(pc: Pcs, spt: Spt, slots: set<Slot>, avail: set<Slot>, l: FrameLock) {
    && avail <= slots
    && (l.Saving? ==> l.slot in avail && l.done <= SECTORS_PER_PAGE)
    && (l.Saved? ==> l.slot in slots - avail)
    && (forall a {:trigger spt[a]} :: HoldsSlot(pc, spt, a) ==>
          spt[a].slot in slots - avail && (l.Saved? ==> l.slot != spt[a].slot))
    && (forall a, b {:trigger spt[a], spt[b]} ::
          HoldsSlot(pc, spt, a) && HoldsSlot(pc, spt, b) && spt[a].slot == spt[b].slot ==> a == b)
  }

  ghost predicate Held(pc: Pcs, spt: Spt, s: Slot) {
    exists a {:trigger spt[a]} :: HoldsSlot(pc, spt, a) && spt[a].slot == s
  }

  /** Every slot that is not available is held by a page, or was just written for the victim. */
  ghost predicate CoverInv(pc: Pcs, spt: Spt, slots: set<Slot>, avail: set<Slot>, l: FrameLock) {
    forall s {:trigger s in slots} :: s in slots && s !in avail ==> (l.Saved? && l.slot == s) || Held(pc, spt, s)
  }

  /** The first `n` sectors of slot `s` are those of page `g`. */
  ghost predicate SlotHas(dev: map<nat, Sector>, s: Slot, g: Page, n: nat) {
    && n <= |g|
    && forall i {:trigger SectorNo(s, i)} :: 0 <= i < n ==> SectorNo(s, i) in dev && dev[SectorNo(s, i)] == g[i]
  }

  /** A swap-out has copied the sectors it has counted; a frame meant for a stack is zero. */
  ghost predicate SaveInv(pc: Pcs, mem: map<Frame, Page>, dev: map<nat, Sector>, l: FrameLock) {
    && (l.Saving? ==> l.victim in mem && SlotHas(dev, l.slot, mem[l.victim], l.done))
    && (l.Saved? ==> l.victim in mem && SlotHas(dev, l.slot, mem[l.victim], SECTORS_PER_PAGE))
    && (l.Owning? && l.p in pc && pc[l.p].Allocating? && pc[l.p].kind == Stack ==>
          l.k in mem && mem[l.k] == ZeroPage())
  }

  ghost predicate LoadInv(pc: Pcs, spt: Spt, mem: map<Frame, Page>, dev: map<nat, Sector>) {
    forall p {:trigger pc[p]} :: p in pc && pc[p].Loading? ==>
      && pc[p].k in mem
      && (pc[p].stage.Reading? ==>
            pc[p].a in spt && SlotHas(dev, spt[pc[p].a].slot, mem[pc[p].k], pc[p].stage.done))
      && (pc[p].kind == Stack && (pc[p].stage == Filling || pc[p].stage.Filled? || pc[p].stage == Mapped) ==>
            mem[pc[p].k] == ZeroPage())
  }

  /** The bytes of each page, wherever they are, are those of plain memory. */
  ghost predicate ContentInv(pc: Pcs, spt: Spt, mem: map<Frame, Page>, dev: map<nat, Sector>, pages: map<Addr, Content>) {
    && spt.Keys == pages.Keys
    && forall a {:trigger spt[a]} :: a in spt && a.p in pc && !Doomed(pc[a.p]) ==>
         ContentOk(pc[a.p], a, spt[a], mem, dev, pages[a])
  }

  ghost predicate ContentOk(c: Pc, a: Addr, e: Entry, mem: map<Frame, Page>, dev: map<nat, Sector>, content: Content) {
    if InFlight(c, a) then
      c.k in mem && content == Bytes(mem[c.k])
    else
      match e.status
      case AllZero => content == Bytes(ZeroPage())
      case FromFilesys =>
        && content.Pending? && content.src == e.src
        && if IsCopied(c, a) then |content.got| == c.stage.done && c.k in mem && StartsWith(mem[c.k], content.got)
           else content.got == []
      case OnFrame => e.kpage.Some? && e.kpage.value in mem && content == Bytes(mem[e.kpage.value])
      case OnSwap =>
        content.Bytes? && WellFormed(content.page) && SlotHas(dev, e.slot, content.page, SECTORS_PER_PAGE)
  }

  /** The part of the invariant about who owns which frame and mapping. */
  ghost predicate OwnInv(st: State) {
    && LockInv(st.pc, st.lock)
    && PoolInv(st.pool, st.frames, st.mem, st.lock)
    && PinInv(st.pc, st.frames)
    && FrameInv(st.spt, st.frames, st.lock)
    && TableInv(st.pc.Keys, st.spt, st.tables, st.ptes)
    && EntryInv(st.spt, st.ptes, st.lock)
    && MapInv(st.pc, st.spt, st.ptes)
    && FreshInv(st.pc, st.spt, st.ptes)
    && PcInv(st.pc, st.spt, st.ptes)
    && SwapInv(st.pc, st.spt, st.slots, st.avail, st.lock)
    && CoverInv(st.pc, st.spt, st.slots, st.avail, st.lock)
  }

  /** The part of the invariant about bytes. */
  ghost predicate ByteInv(st: State, m: Memory) {
    && st.files == m.files
    && SaveInv(st.pc, st.mem, st.dev, st.lock)
    && LoadInv(st.pc, st.spt, st.mem, st.dev)
    && ContentInv(st.pc, st.spt, st.mem, st.dev, m.pages)
  }

  ghost predicate Inv(st: State, m: Memory) {
    OwnInv(st) && ByteInv(st, m)
  }
}
