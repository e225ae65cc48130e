/** What holds in every run of the paging machine, however its steps interleave. */
module PagingTheorems {
  import opened Common
  import opened Paging
  import opened PagingInvariant
  import opened PagingSteps

  // ----- Runs and their traces -----

  /** `run` starts after boot and takes `steps` one at a time. */
  ghost predicate IsRun(run: seq<State>, steps: seq<Step>) {
    && |run| == |steps| + 1 && Init(run[0])
    && forall i :: 0 <= i < |steps| ==> Enabled(run[i], steps[i]) && run[i + 1] == Apply(run[i], steps[i])
  }

  ghost function Trace(run: seq<State>, steps: seq<Step>): (events: seq<Event>)
    requires IsRun(run, steps)
    ensures |events| == |steps|
    ensures forall i :: 0 <= i < |steps| ==> events[i] == EventOf(run[i], steps[i])
  {
    seq(|steps|, i requires 0 <= i < |steps| => EventOf(run[i], steps[i]))
  }

  /** Plain memory after a trace, or None if it would not have allowed it. */
  ghost function Replay(m: Memory, events: seq<Event>): Option<Memory> {
    if events == [] then Some(m)
    else
      var before := Replay(m, events[..|events| - 1]);
      var e := events[|events| - 1];
      if before.Some? && Allows(before.value, e) then Some(After(before.value, e)) else None
  }

  // ----- The answer a read must give, found by looking back along the trace -----

  ghost function FilesAfter(files: map<FileId, seq<Byte>>, events: seq<Event>): map<FileId, seq<Byte>> {
    if events == [] then files
    else
      var e, before := events[|events| - 1], FilesAfter(files, events[..|events| - 1]);
      if e.FileChanged? then before[e.f := e.bytes] else before
  }

  /** What load_segment promised for the page. */
  ghost function Promise(events: seq<Event>, a: Addr): Option<Backing> {
    if events == [] then None
    else
      var e := events[|events| - 1];
      if e.Promised? && e.a == a then Some(e.src) else Promise(events[..|events| - 1], a)
  }

  /** The file's byte for byte `i` of a page. */
  ghost function FileByte(files: map<FileId, seq<Byte>>, src: Option<Backing>, i: nat): Option<Byte> {
    if src.Some? && src.value.file in files && src.value.offset + i < |files[src.value.file]| then
      Some(files[src.value.file][src.value.offset + i])
    else None
  }

  /** The last byte written there; failing that, what the page was first filled with: zero, or the
      file's byte as the file was when the sector with that byte was read. */
  ghost function Expected(files: map<FileId, seq<Byte>>, events: seq<Event>, a: Addr, s: nat, o: nat): Option<Byte> {
    if events == [] then None
    else
      var e, before := events[|events| - 1], events[..|events| - 1];
      if e.Wrote? && e.a == a && e.s == s && e.o == o then Some(e.b)
      else if e.Zeroed? && e.a == a then Some(0)
      else if e.Loaded? && e.a == a && At(s, o) >= e.n then Some(0)
      else if e.Copied? && e.a == a && e.at <= At(s, o) < e.at + e.n then
        FileByte(FilesAfter(files, before), Promise(before, a), At(s, o))
      else Expected(files, before, a, s, o)
  }

  /** Replayed memory agrees with looking back. */
  lemma {:induction false} ReplayIsExpected(files: map<FileId, seq<Byte>>, events: seq<Event>, a: Addr)
    requires Replay(Memory(files, map[]), events).Some?
    ensures var m := Replay(Memory(files, map[]), events).value;
            && m.files == FilesAfter(files, events)
            && (a in m.pages ==> ContentExpected(files, events, a, m.pages[a]))
  {
    if events != [] {
      var before := events[..|events| - 1];
      ReplayIsExpected(files, before, a);
      var m, e := Replay(Memory(files, map[]), before).value, events[|events| - 1];
      if e.Copied? && e.a == a {
        CopiedIsExpected(files, events, a, m, e.at, e.n);
      } else if e.Loaded? && e.a == a {
        LoadedIsExpected(files, events, a, m, e.n);
      } else if a in After(m, e).pages {
        OthersAreExpected(files, events, a, m);
      }
    }
  }

  ghost predicate GotExpected(files: map<FileId, seq<Byte>>, events: seq<Event>, a: Addr, got: seq<Byte>) {
    forall s, o :: 0 <= s < SECTORS_PER_PAGE && 0 <= o < SECTOR_SIZE && At(s, o) < |got| ==>
      Expected(files, events, a, s, o) == Some(got[At(s, o)])
  }

  ghost predicate PageExpected(files: map<FileId, seq<Byte>>, events: seq<Event>, a: Addr, g: Page)
    requires WellFormed(g)
  {
    forall s, o :: 0 <= s < SECTORS_PER_PAGE && 0 <= o < SECTOR_SIZE ==> Expected(files, events, a, s, o) == Some(g[s][o])
  }

  ghost predicate ContentExpected(files: map<FileId, seq<Byte>>, events: seq<Event>, a: Addr, content: Content) {
    match content
    case Pending(src, got) => Promise(events, a) == Some(src) && GotExpected(files, events, a, got)
    case Bytes(page) => WellFormed(page) && PageExpected(files, events, a, page)
  }

  lemma {:induction false} CopiedIsExpected(files: map<FileId, seq<Byte>>, events: seq<Event>, a: Addr, m: Memory, at: nat, n: nat)
    requires events != [] && events[|events| - 1] == Copied(a, at, n) && Allows(m, Copied(a, at, n))
    requires m.files == FilesAfter(files, events[..|events| - 1])
    requires ContentExpected(files, events[..|events| - 1], a, m.pages[a])
    ensures ContentExpected(files, events, a, After(m, Copied(a, at, n)).pages[a])
  {
    var before, src, got := events[..|events| - 1], m.pages[a].src, m.pages[a].got;
    var bytes := NextChunk(m.files, src, at);
    forall s, o | 0 <= s < SECTORS_PER_PAGE && 0 <= o < SECTOR_SIZE && At(s, o) < |got + bytes|
      ensures Expected(files, events, a, s, o) == Some((got + bytes)[At(s, o)])
    {
      if At(s, o) < |got| {
        assert Expected(files, before, a, s, o) == Some(got[At(s, o)]);
      } else {
        assert bytes[At(s, o) - at] == m.files[src.file][src.offset + At(s, o)];
      }
    }
  }

  lemma {:induction false} LoadedIsExpected(files: map<FileId, seq<Byte>>, events: seq<Event>, a: Addr, m: Memory, n: nat)
    requires events != [] && events[|events| - 1] == Loaded(a, n) && Allows(m, Loaded(a, n))
    requires ContentExpected(files, events[..|events| - 1], a, m.pages[a])
    ensures ContentExpected(files, events, a, After(m, Loaded(a, n)).pages[a])
  {
    var before, got := events[..|events| - 1], m.pages[a].got;
    forall s, o | 0 <= s < SECTORS_PER_PAGE && 0 <= o < SECTOR_SIZE
      ensures Expected(files, events, a, s, o) == Some(Padded(got)[s][o])
    {
      if At(s, o) < |got| {
        assert Expected(files, before, a, s, o) == Some(got[At(s, o)]);
      }
    }
  }

  lemma {:induction false} OthersAreExpected(files: map<FileId, seq<Byte>>, events: seq<Event>, a: Addr, m: Memory)
    requires events != [] && Allows(m, events[|events| - 1])
    requires var e := events[|events| - 1]; !(e.Copied? && e.a == a) && !(e.Loaded? && e.a == a)
    requires a in m.pages ==> ContentExpected(files, events[..|events| - 1], a, m.pages[a])
    requires a in After(m, events[|events| - 1]).pages
    ensures ContentExpected(files, events, a, After(m, events[|events| - 1]).pages[a])
  {
    var e, before := events[|events| - 1], events[..|events| - 1];
    if a in m.pages && m.pages[a].Bytes? {
      forall s, o | 0 <= s < SECTORS_PER_PAGE && 0 <= o < SECTOR_SIZE
        ensures Expected(files, events, a, s, o) == Some(After(m, e).pages[a].page[s][o])
      {
        assert Expected(files, before, a, s, o) == Some(m.pages[a].page[s][o]);
      }
    } else if a in m.pages {
      var got := m.pages[a].got;
      forall s, o | 0 <= s < SECTORS_PER_PAGE && 0 <= o < SECTOR_SIZE && At(s, o) < |got|
        ensures Expected(files, events, a, s, o) == Some(got[At(s, o)])
      {
        assert Expected(files, before, a, s, o) == Some(got[At(s, o)]);
      }
    }
  }

  // ----- Theorems -----

  lemma {:induction false} InitIsInv(st: State)
    requires Init(st)
    ensures Inv(st, Memory(st.files, map[]))
  {
  }

  /** Demand paging refines plain memory: every state of a run is plain memory in disguise. */
  lemma {:induction false} RunRefinesMemory(run: seq<State>, steps: seq<Step>, n: nat)
    requires IsRun(run, steps) && n <= |steps|
    ensures var r := Replay(Memory(run[0].files, map[]), Trace(run, steps)[..n]);
            r.Some? && Inv(run[n], r.value)
  {
    var events := Trace(run, steps);
    if n == 0 {
      InitIsInv(run[0]);
    } else {
      RunRefinesMemory(run, steps, n - 1);
      assert events[..n][..n - 1] == events[..n - 1];
      StepKeepsInv(run[n - 1], Replay(Memory(run[0].files, map[]), events[..n - 1]).value, steps[n - 1]);
    }
  }

  /** Plain memory allows every event of a run where it happens. */
  lemma {:induction false} EventIsAllowed(run: seq<State>, steps: seq<Step>, i: nat)
    requires IsRun(run, steps) && i < |steps|
    ensures var r := Replay(Memory(run[0].files, map[]), Trace(run, steps)[..i]);
            r.Some? && Allows(r.value, Trace(run, steps)[i])
  {
    RunRefinesMemory(run, steps, i);
    StepKeepsInv(run[i], Replay(Memory(run[0].files, map[]), Trace(run, steps)[..i]).value, steps[i]);
  }

  /** Whatever was evicted in between, a read returns the last byte its owner wrote there,
      or else the page's first contents. */
  lemma {:induction false} ReadReturnsLastWrite(run: seq<State>, steps: seq<Step>, i: nat)
    requires IsRun(run, steps) && i < |steps| && Trace(run, steps)[i].DidRead?
    ensures var e := Trace(run, steps)[i];
            Expected(run[0].files, Trace(run, steps)[..i], e.a, e.s, e.o) == Some(e.b)
  {
    EventIsAllowed(run, steps, i);
    ReplayIsExpected(run[0].files, Trace(run, steps)[..i], Trace(run, steps)[i].a);
  }

  /** Outside a fault in progress, a frame in the table belongs to one page, and that page
      names it; a swap slot in use is named by exactly one page. */
  lemma {:induction false} FramesAndSlotsHaveOneOwner(run: seq<State>, steps: seq<Step>, n: nat)
    requires IsRun(run, steps) && n <= |steps|
    ensures var st := run[n];
            && (forall k :: k in st.frames && !st.frames[k].pinned && !IsRetired(st.lock, k) ==>
                  OnFrameAt(st.spt, st.frames[k].a, k) && k !in st.pool)
            && (forall a, b, k :: OnFrameAt(st.spt, a, k) && OnFrameAt(st.spt, b, k) ==> a == b)
            && (forall s :: s in st.slots - st.avail && !(st.lock.Saved? && st.lock.slot == s) ==>
                  exists a :: HoldsSlot(st.pc, st.spt, a) && st.spt[a].slot == s)
            && (forall a, b ::
                  HoldsSlot(st.pc, st.spt, a) && HoldsSlot(st.pc, st.spt, b) && st.spt[a].slot == st.spt[b].slot ==> a == b)
  {
    RunRefinesMemory(run, steps, n);
    var st := run[n];
    forall s | s in st.slots - st.avail && !(st.lock.Saved? && st.lock.slot == s)
      ensures exists a :: HoldsSlot(st.pc, st.spt, a) && st.spt[a].slot == s
    {
      assert Held(st.pc, st.spt, s);
    }
  }

  /** An eviction that freed a frame finds one: the second palloc_get_page never fails. */
  lemma {:induction false} SecondPallocSucceeds(run: seq<State>, steps: seq<Step>, n: nat)
    requires IsRun(run, steps) && n <= |steps| && run[n].lock.Retry?
    ensures exists k :: Enabled(run[n], Alloc(run[n].lock.p, Palloc(k)))
  {
    RunRefinesMemory(run, steps, n);
    var k :| k in run[n].pool;
    assert Enabled(run[n], Alloc(run[n].lock.p, Palloc(k)));
  }

  /** Mapping a page that comes back from swap never fails, and pagedir_set_page's
      assertion that the page is not yet mapped holds. */
  lemma {:induction false} RemapNeverFails(run: seq<State>, steps: seq<Step>, n: nat, p: Pid)
    requires IsRun(run, steps) && n <= |steps|
    requires p in run[n].pc && run[n].pc[p].Loading? && run[n].pc[p].stage.Filled? && run[n].pc[p].kind == Fault
    ensures run[n].pc[p].a in run[n].spt && Enabled(run[n], Map(p, MapPage))
    ensures run[n].spt[run[n].pc[p].a].status == OnSwap ==> !Enabled(run[n], Map(p, MapFail))
  {
    RunRefinesMemory(run, steps, n);
  }

  /** Memory is exhausted: no free frame and none to evict, or no free swap slot. */
  ghost predicate Exhausted(st: State) {
    || (st.lock.Locked? && st.pool == {} && forall k :: k in st.frames ==> st.frames[k].pinned)
    || (st.lock.Scanning? && st.avail == {})
  }

  ghost predicate ActsFor(step: Step, p: Pid) {
    (step.Alloc? || step.Evict? || step.Fill? || step.Copy? || step.Map?) && step.p == p
  }

  ghost predicate CanGoOn(st: State, p: Pid) {
    exists step :: Enabled(st, step) && ActsFor(step, p)
  }

  lemma {:induction false} HolderGoesOn(st: State, p: Pid)
    requires LockInv(st.pc, st.lock) && PoolInv(st.pool, st.frames, st.mem, st.lock)
    requires FrameInv(st.spt, st.frames, st.lock) && SwapInv(st.pc, st.spt, st.slots, st.avail, st.lock)
    requires st.lock != Free && st.lock.p == p
    ensures CanGoOn(st, p) || Exhausted(st)
  {
    if !Exhausted(st) {
      var step := NextForHolder(st, p);
      assert Enabled(st, step) && ActsFor(step, p);
    }
  }

  ghost function NextForHolder(st: State, p: Pid): Step
    requires st.lock != Free && !Exhausted(st) && (st.lock.Retry? ==> st.pool != {})
  {
    match st.lock
    case Locked(_) =>
      if st.pool == {} then var k :| k in st.frames && !st.frames[k].pinned; Evict(p, Pick(k))
      else var k :| k in st.pool; Alloc(p, Palloc(k))
    case Scanning(_, _) => var x :| x in st.avail; Evict(p, Scan(x))
    case Saving(_, _, _, done) => if done < SECTORS_PER_PAGE then Evict(p, SaveSector) else Evict(p, MarkSaved)
    case Saved(_, _, _) => Evict(p, SetSwap)
    case Retired(_, _) => Evict(p, FreeVictim)
    case Retry(_) => var k :| k in st.pool; Alloc(p, Palloc(k))
    case Owning(_, _) => Alloc(p, Insert)
  }

  /** swap_in reads the eight sectors of the page's slot: they are there. */
  lemma {:induction false} ReadingGoesOn(st: State, m: Memory, p: Pid)
    requires ContentInv(st.pc, st.spt, st.mem, st.dev, m.pages) && PcInv(st.pc, st.spt, st.ptes)
    requires PinInv(st.pc, st.frames) && PoolInv(st.pool, st.frames, st.mem, st.lock)
    requires p in st.pc && st.pc[p].Loading? && st.pc[p].stage.Reading?
    ensures CanGoOn(st, p)
  {
    var c := st.pc[p];
    var done := c.stage.done;
    assert ContentOk(c, c.a, st.spt[c.a], st.mem, st.dev, m.pages[c.a]);
    if done < SECTORS_PER_PAGE {
      assert SectorNo(st.spt[c.a].slot, done) in st.dev;
      assert Enabled(st, Fill(p, ReadSector)) && ActsFor(Fill(p, ReadSector), p);
    } else {
      assert Enabled(st, Fill(p, EndRead)) && ActsFor(Fill(p, EndRead), p);
    }
  }

  /** A load from a file reads on, fails, or is done. */
  lemma {:induction false} CopyingGoesOn(st: State, p: Pid)
    requires PcInv(st.pc, st.spt, st.ptes) && PinInv(st.pc, st.frames) && PoolInv(st.pool, st.frames, st.mem, st.lock)
    requires p in st.pc && st.pc[p].Loading? && st.pc[p].stage.Copying?
    ensures CanGoOn(st, p)
  {
    var src, done := st.spt[st.pc[p].a].src, st.pc[p].stage.done;
    var step := if done == src.readBytes then EndFile else if Chunk(st.files, src, done) > 0 then CopyChunk else FileFail;
    assert st.pc[p].k in st.mem && WellFormed(st.mem[st.pc[p].k]);
    assert Enabled(st, Copy(p, step)) && ActsFor(Copy(p, step), p);
  }

  ghost function NextForLoader(st: State, p: Pid, c: Pc): Step
    requires c.Loading? && !c.stage.Reading? && !c.stage.Copying? && (c.stage == Filling && c.kind == Fault ==> c.a in st.spt)
  {
    match c.stage
    case Filling =>
      if c.kind == Stack then Fill(p, StackReady)
      else if st.spt[c.a].status == AllZero then Fill(p, FillZero)
      else if st.spt[c.a].status == OnSwap then Fill(p, BeginRead)
      else Copy(p, BeginFile)
    case Filled(_) => Map(p, MapPage)
    case Mapped => Map(p, if c.kind == Stack && c.a in st.spt then RecordFail else Record)
    case Recorded => Map(p, Unpin)
    case Dropping => Map(p, Drop)
  }

  /** What is left of the fault begins by acquiring frame_lock: frame_allocate, frame_unpin or
      frame_free comes next. */
  ghost predicate NeedsLock(c: Pc) {
    c.Waiting? || (c.Loading? && (c.stage == Recorded || c.stage == Dropping))
  }

  lemma {:induction false} LoaderGoesOn(st: State, p: Pid)
    requires PinInv(st.pc, st.frames) && FreshInv(st.pc, st.spt, st.ptes) && PcInv(st.pc, st.spt, st.ptes)
    requires SwapInv(st.pc, st.spt, st.slots, st.avail, st.lock)
    requires p in st.pc && st.pc[p].Loading? && !st.pc[p].stage.Reading? && !st.pc[p].stage.Copying?
    requires NeedsLock(st.pc[p]) ==> st.lock == Free
    ensures CanGoOn(st, p)
  {
    var c := st.pc[p];
    var step := NextForLoader(st, p, c);
    if FillingFrom(st, c, OnSwap) {
      assert HoldsSlot(st.pc, st.spt, c.a);
    }
    assert Enabled(st, step) && ActsFor(step, p);
  }

  /** A process inside a fault can go on, with two exceptions.  It may be about to acquire frame_lock
      while another process holds it; then that one can go on.  Or whoever holds the lock finds no
      frame to evict or no free slot.  So no assertion and no other PANIC of this machine is reached;
      memory for the entries of the supplemental page table is taken to be there. */
  lemma {:induction false} HandlerNeverStuck(run: seq<State>, steps: seq<Step>, n: nat, p: Pid)
    requires IsRun(run, steps) && n <= |steps|
    requires p in run[n].pc && (run[n].pc[p].Waiting? || run[n].pc[p].Allocating? || run[n].pc[p].Loading?)
    ensures var st := run[n];
            || CanGoOn(st, p)
            || (NeedsLock(st.pc[p]) && st.lock != Free && st.lock.p != p && (CanGoOn(st, st.lock.p) || Exhausted(st)))
            || (st.pc[p].Allocating? && st.lock != Free && st.lock.p == p && Exhausted(st))
  {
    RunRefinesMemory(run, steps, n);
    var st, m := run[n], Replay(Memory(run[0].files, map[]), Trace(run, steps)[..n]).value;
    if st.lock != Free && (st.lock.p == p || NeedsLock(st.pc[p])) {
      HolderGoesOn(st, st.lock.p);
    } else if st.pc[p].Loading? {
      if st.pc[p].stage.Reading? {
        ReadingGoesOn(st, m, p);
      } else if st.pc[p].stage.Copying? {
        CopyingGoesOn(st, p);
      } else {
        LoaderGoesOn(st, p);
      }
    } else {
      assert Enabled(st, Alloc(p, Acquire)) && ActsFor(Alloc(p, Acquire), p);
    }
  }
}
