/** Demand paging: the supplemental page table (vm/page.c), the frame table with
    eviction (vm/frame.c), the swap device (vm/swap.c) and the hardware page table
    (userprog/pagedir.c), as one transition system over any number of processes.

    Every step below is one uninterruptible action of one process.  Between any two of
    them any other process may run, so the eight sector writes of a swap-out, the eight
    sector reads of a swap-in, the sector reads of a load from a file, writes to that file
    and the bookkeeping around them all interleave. */
module Paging {
  import opened Common

  type Pid = nat
  type Frame = nat
  type Slot = nat
  type FileId = nat
  type Byte = bv8
  type Sector = seq<Byte>
  type Page = seq<Sector>

  const SECTOR_SIZE := 512
  const SECTORS_PER_PAGE := 8
  const PAGE_SIZE := SECTORS_PER_PAGE * SECTOR_SIZE
  /** Page-directory index of PHYS_BASE: user pages lie below it. */
  const USER_PD_LIMIT := 768
  /** The 8 MB below PHYS_BASE in which a fault may grow the stack. */
  const STACK_PD_FIRST := 766
  const PT_ENTRIES := 1024

  /** A user page of a process, named by the two indices the hardware uses. */
  datatype Addr = Addr(p: Pid, pd: nat, pt: nat)

  ghost predicate UserAddr(a: Addr) {
    a.pd < USER_PD_LIMIT && a.pt < PT_ENTRIES
  }

  ghost predicate WellFormed(g: Page) {
    && |g| == SECTORS_PER_PAGE
    && forall i :: 0 <= i < SECTORS_PER_PAGE ==> |g[i]| == SECTOR_SIZE
  }

  function ZeroPage(): (g: Page)
    ensures WellFormed(g)
    ensures forall s, o :: 0 <= s < SECTORS_PER_PAGE && 0 <= o < SECTOR_SIZE ==> g[s][o] == 0
  {
    seq(SECTORS_PER_PAGE, s => seq(SECTOR_SIZE, o => 0))
  }

  /** The page palloc_free_page leaves behind. */
  function ScrubbedPage(): (g: Page)
    ensures WellFormed(g)
  {
    seq(SECTORS_PER_PAGE, s => seq(SECTOR_SIZE, o => 0xcc))
  }

  /** load_segment reads at most a page into a page. */
  type Count = n: nat | n <= PAGE_SIZE

  /** Where a page loaded from a file gets its bytes. */
  datatype Backing = Backing(file: FileId, offset: nat, readBytes: Count, writable: bool)

  /** Byte `o` of sector `s`, counted from the start of the page. */
  function At(s: nat, o: nat): nat {
    s * SECTOR_SIZE + o
  }

  /** A page with `bytes` in it from byte `at` on. */
  function Patched(g: Page, at: nat, bytes: seq<Byte>): (r: Page)
    requires WellFormed(g)
    ensures WellFormed(r)
    ensures forall s, o :: 0 <= s < SECTORS_PER_PAGE && 0 <= o < SECTOR_SIZE ==>
      r[s][o] == if at <= At(s, o) < at + |bytes| then bytes[At(s, o) - at] else g[s][o]
  {
    seq(SECTORS_PER_PAGE, s requires 0 <= s < SECTORS_PER_PAGE =>
      seq(SECTOR_SIZE, o requires 0 <= o < SECTOR_SIZE =>
        if at <= At(s, o) < at + |bytes| then bytes[At(s, o) - at] else g[s][o]))
  }

  /** A page whose bytes from `at` on are zero. */
  function Cleared(g: Page, at: nat): (r: Page)
    requires WellFormed(g)
    ensures WellFormed(r)
    ensures forall s, o :: 0 <= s < SECTORS_PER_PAGE && 0 <= o < SECTOR_SIZE ==>
      r[s][o] == if at <= At(s, o) then 0 else g[s][o]
  {
    seq(SECTORS_PER_PAGE, s requires 0 <= s < SECTORS_PER_PAGE =>
      seq(SECTOR_SIZE, o requires 0 <= o < SECTOR_SIZE => if at <= At(s, o) then 0 else g[s][o]))
  }

  /** The page that holds these bytes, then zeros. */
  function Padded(bytes: seq<Byte>): (r: Page)
    ensures WellFormed(r)
    ensures forall s, o :: 0 <= s < SECTORS_PER_PAGE && 0 <= o < SECTOR_SIZE ==>
      r[s][o] == if At(s, o) < |bytes| then bytes[At(s, o)] else 0
  {
    seq(SECTORS_PER_PAGE, s requires 0 <= s < SECTORS_PER_PAGE =>
      seq(SECTOR_SIZE, o requires 0 <= o < SECTOR_SIZE => if At(s, o) < |bytes| then bytes[At(s, o)] else 0))
  }

  /** How many bytes inode_read_at takes from the next sector of the file, after `done` bytes: what
      is wanted, is left in the file, and is left in the sector. */
  function Chunk(files: map<FileId, seq<Byte>>, src: Backing, done: nat): (n: nat)
    ensures n > 0 ==> src.file in files && src.offset + done + n <= |files[src.file]| && done + n <= src.readBytes
  {
    if src.file !in files || done >= src.readBytes || src.offset + done >= |files[src.file]| then 0
    else
      var left := |files[src.file]| - (src.offset + done);
      var sectorLeft := SECTOR_SIZE - (src.offset + done) % SECTOR_SIZE;
      var minLeft := if left < sectorLeft then left else sectorLeft;
      if src.readBytes - done < minLeft then src.readBytes - done else minLeft
  }

  function NextChunk(files: map<FileId, seq<Byte>>, src: Backing, done: nat): (bytes: seq<Byte>)
    requires Chunk(files, src, done) > 0
    ensures |bytes| == Chunk(files, src, done)
    ensures forall i :: 0 <= i < |bytes| ==> bytes[i] == files[src.file][src.offset + done + i]
  {
    files[src.file][src.offset + done..src.offset + done + Chunk(files, src, done)]
  }

  /** A sector read in part goes through a bounce buffer, for which there may be no memory.  It is
      allocated once: if the first sector is read in part, the others have one. */
  predicate NeedsBounce(files: map<FileId, seq<Byte>>, src: Backing, done: nat) {
    && 0 < Chunk(files, src, done) < SECTOR_SIZE
    && !(done > 0 && src.offset % SECTOR_SIZE != 0)
  }

  function SectorNo(slot: Slot, i: nat): nat {
    slot * SECTORS_PER_PAGE + i
  }

  datatype Status = AllZero | OnFrame | OnSwap | FromFilesys
  datatype Entry = Entry(status: Status, kpage: Option<Frame>, slot: Slot, src: Backing)
  datatype FrameEntry = FrameEntry(a: Addr, pinned: bool)
  datatype Pte = Pte(frame: Frame, present: bool, writable: bool)

  /** Whether a frame is being obtained by load_page or by setup_stack. */
  datatype Kind = Fault | Stack

  /** How far load_page, or install_page, has got with the pinned frame it was given. */
  datatype Stage =
    | Filling
    | Copying(done: nat)
    | Reading(done: nat)
    | Filled(writable: bool)
    | Mapped
    | Recorded
    | Dropping

  /** Where a process stands: inside load(), running user code, or inside a fault. */
  datatype Pc =
    | Starting
    | Running
    | Dead
    | Waiting(a: Addr, kind: Kind)
    | Allocating(a: Addr, kind: Kind)
    | Loading(a: Addr, kind: Kind, k: Frame, stage: Stage)

  /** frame_lock, with the point its holder has reached inside frame_allocate. */
  datatype FrameLock =
    | Free
    | Locked(p: Pid)
    | Scanning(p: Pid, victim: Frame)
    | Saving(p: Pid, victim: Frame, slot: Slot, done: nat)
    | Saved(p: Pid, victim: Frame, slot: Slot)
    | Retired(p: Pid, victim: Frame)
    | Retry(p: Pid)
    | Owning(p: Pid, k: Frame)

  datatype State = State(
    pc: map<Pid, Pc>,
    spt: map<Addr, Entry>,
    tables: set<(Pid, nat)>,
    ptes: map<Addr, Pte>,
    frames: map<Frame, FrameEntry>,
    lock: FrameLock,
    pool: set<Frame>,
    mem: map<Frame, Page>,
    slots: set<Slot>,
    avail: set<Slot>,
    dev: map<nat, Sector>,
    files: map<FileId, seq<Byte>>)

  /** load() for a new process, and the file system beside it. */
  datatype StartStep =
    | NewProcess(p: Pid)
    | SetFile(f: FileId, bytes: seq<Byte>)
    | InstallFile(a: Addr, src: Backing)
    | StackBegin(a: Addr)

  /** An access to user memory. */
  datatype UserStep =
    | ReadByte(a: Addr, s: nat, o: nat)
    | WriteByte(a: Addr, s: nat, o: nat, b: Byte)
    | FaultBegin(a: Addr, onStack: bool)
    | WriteFault(a: Addr)

  /** The steps of frame_allocate around eviction. */
  datatype AllocStep =
    | Acquire
    | Palloc(k: Frame)
    | Insert
    | InsertFail

  /** The steps of eviction, swap_out included. */
  datatype EvictStep =
    | Pick(victim: Frame)
    | Scan(slot: Slot)
    | SaveSector
    | MarkSaved
    | SetSwap
    | FreeVictim

  /** The steps that give a pinned frame its contents, swap_in included. */
  datatype FillStep =
    | FillZero
    | StackReady
    | BeginRead
    | ReadSector
    | EndRead

  /** The steps of load_page_from_filesys. */
  datatype CopyStep =
    | BeginFile
    | CopyChunk
    | FileFail
    | EndFile

  /** The steps of load_page and install_page once the frame has its contents. */
  datatype MapStep =
    | MapPage
    | MapFail
    | Record
    | RecordFail
    | Unpin
    | Drop

  datatype Step =
    | Start(s: StartStep)
    | User(u: UserStep)
    | Alloc(p: Pid, f: AllocStep)
    | Evict(p: Pid, e: EvictStep)
    | Fill(p: Pid, l: FillStep)
    | Copy(p: Pid, x: CopyStep)
    | Map(p: Pid, i: MapStep)

  /** pagedir_get_page returns a frame.  A page-table entry exists only inside a page table
      that exists; one that was never written is absent from `ptes`. */
  predicate Present(ptes: map<Addr, Pte>, a: Addr) {
    a in ptes && ptes[a].present
  }

  predicate Is(st: State, p: Pid, c: Pc) {
    p in st.pc && st.pc[p] == c
  }

  /** The guards of the steps are the branch conditions of the code.  Where the code would
      panic, no step is enabled. */
  ghost predicate StartEnabled(st: State, step: StartStep) {
    match step
    case NewProcess(p) => p !in st.pc
    case SetFile(f, bytes) => true
    case InstallFile(a, src) => Is(st, a.p, Starting) && UserAddr(a) && a !in st.spt
    case StackBegin(a) => Is(st, a.p, Starting) && UserAddr(a)
  }

  ghost predicate UserEnabled(st: State, step: UserStep) {
    match step
    case ReadByte(a, s, o) => Accessible(st, a, s, o)
    case WriteByte(a, s, o, b) => Accessible(st, a, s, o) && st.ptes[a].writable
    case FaultBegin(a, onStack) =>
      && Is(st, a.p, Running) && UserAddr(a) && !Present(st.ptes, a)
      && (onStack ==> STACK_PD_FIRST <= a.pd)
    case WriteFault(a) =>
      Is(st, a.p, Running) && UserAddr(a) && Present(st.ptes, a) && !st.ptes[a].writable
  }

  ghost predicate Accessible(st: State, a: Addr, s: nat, o: nat) {
    && Is(st, a.p, Running) && UserAddr(a) && Present(st.ptes, a)
    && s < SECTORS_PER_PAGE && o < SECTOR_SIZE
    && st.ptes[a].frame in st.mem && WellFormed(st.mem[st.ptes[a].frame])
  }

  ghost predicate AllocEnabled(st: State, p: Pid, step: AllocStep)
    requires p in st.pc
  {
    var c, l := st.pc[p], st.lock;
    match step
    case Acquire => c.Waiting? && l == Free
    case Palloc(k) => c.Allocating? && (l == Locked(p) || l == Retry(p)) && k in st.pool
    case Insert => c.Allocating? && l.Owning? && l.p == p
    case InsertFail => c.Allocating? && l.Owning? && l.p == p
  }

  ghost predicate EvictEnabled(st: State, p: Pid, step: EvictStep) {
    var l := st.lock;
    l != Free && l.p == p &&
    match step
    case Pick(victim) =>
      l.Locked? && st.pool == {} && victim in st.frames && !st.frames[victim].pinned
    case Scan(slot) => l.Scanning? && slot in st.avail
    case SaveSector =>
      && l.Saving? && l.done < SECTORS_PER_PAGE
      && l.victim in st.mem && l.done < |st.mem[l.victim]|
    case MarkSaved => l.Saving? && l.done == SECTORS_PER_PAGE
    case SetSwap => l.Saved? && l.victim in st.frames && st.frames[l.victim].a in st.spt
    case FreeVictim => l.Retired? && l.victim in st.frames
  }

  ghost predicate FillEnabled(st: State, p: Pid, step: FillStep)
    requires p in st.pc
  {
    var c := st.pc[p];
    c.Loading? &&
    match step
    case FillZero => FillingFrom(st, c, AllZero)
    case StackReady => c.stage == Filling && c.kind == Stack
    case BeginRead => FillingFrom(st, c, OnSwap) && st.spt[c.a].slot in st.slots - st.avail
    case ReadSector =>
      && c.stage.Reading? && c.stage.done < SECTORS_PER_PAGE && c.a in st.spt
      && c.k in st.mem && c.stage.done < |st.mem[c.k]|
      && SectorNo(st.spt[c.a].slot, c.stage.done) in st.dev
    case EndRead => c.stage == Reading(SECTORS_PER_PAGE) && c.a in st.spt
  }

  ghost predicate CopyEnabled(st: State, p: Pid, step: CopyStep)
    requires p in st.pc
  {
    var c := st.pc[p];
    c.Loading? &&
    match step
    case BeginFile => FillingFrom(st, c, FromFilesys)
    case CopyChunk =>
      && c.stage.Copying? && c.a in st.spt && Chunk(st.files, st.spt[c.a].src, c.stage.done) > 0
      && c.k in st.mem && WellFormed(st.mem[c.k])
    case FileFail =>
      && c.stage.Copying? && c.a in st.spt && c.stage.done < st.spt[c.a].src.readBytes
      && var src := st.spt[c.a].src;
         Chunk(st.files, src, c.stage.done) == 0 || NeedsBounce(st.files, src, c.stage.done)
    case EndFile =>
      && c.stage.Copying? && c.a in st.spt && c.stage.done == st.spt[c.a].src.readBytes
      && c.k in st.mem && WellFormed(st.mem[c.k])
  }

  ghost predicate MapEnabled(st: State, p: Pid, step: MapStep)
    requires p in st.pc
  {
    var c := st.pc[p];
    c.Loading? &&
    match step
    case MapPage => c.stage.Filled? && !Present(st.ptes, c.a)
    case MapFail =>
      && c.stage.Filled?
      && ((c.a.p, c.a.pd) !in st.tables || (c.kind == Stack && Present(st.ptes, c.a)))
    case Record => c.stage == Mapped && (c.kind == Fault <==> c.a in st.spt)
    case RecordFail => c.stage == Mapped && c.kind == Stack && c.a in st.spt
    case Unpin => c.stage == Recorded && st.lock == Free && c.k in st.frames
    case Drop => c.stage == Dropping && st.lock == Free && c.k in st.frames
  }

  ghost predicate FillingFrom(st: State, c: Pc, status: Status)
    requires c.Loading?
  {
    c.stage == Filling && c.kind == Fault && c.a in st.spt && st.spt[c.a].status == status
  }

  ghost predicate Enabled(st: State, step: Step) {
    match step
    case Start(s) => StartEnabled(st, s)
    case User(u) => UserEnabled(st, u)
    case Alloc(p, f) => p in st.pc && AllocEnabled(st, p, f)
    case Evict(p, e) => EvictEnabled(st, p, e)
    case Fill(p, l) => p in st.pc && FillEnabled(st, p, l)
    case Copy(p, x) => p in st.pc && CopyEnabled(st, p, x)
    case Map(p, i) => p in st.pc && MapEnabled(st, p, i)
  }

  const NO_FILE := Backing(0, 0, 0, true)

  function Goto(st: State, p: Pid, c: Pc): State {
    st.(pc := st.pc[p := c])
  }

  function SetByte(g: Page, s: nat, o: nat, b: Byte): Page
    requires s < |g| && o < |g[s]|
  {
    g[s := g[s][o := b]]
  }

  ghost function StartApply(st: State, step: StartStep): State
    requires StartEnabled(st, step)
  {
    match step
    case NewProcess(p) => Goto(st, p, Starting)
    case SetFile(f, bytes) => st.(files := st.files[f := bytes])
    case InstallFile(a, src) => st.(spt := st.spt[a := Entry(FromFilesys, None, 0, src)])
    case StackBegin(a) => Goto(st, a.p, Waiting(a, Stack))
  }

  ghost function UserApply(st: State, step: UserStep): State
    requires UserEnabled(st, step)
  {
    match step
    case ReadByte(a, s, o) => st
    case WriteByte(a, s, o, b) =>
      st.(mem := st.mem[st.ptes[a].frame := SetByte(st.mem[st.ptes[a].frame], s, o, b)])
    case FaultBegin(a, onStack) =>
      if a in st.spt then
        if st.spt[a].status == OnFrame then st else Goto(st, a.p, Waiting(a, Fault))
      else if onStack then
        Goto(st.(spt := st.spt[a := Entry(AllZero, None, 0, NO_FILE)]), a.p, Waiting(a, Fault))
      else Goto(st, a.p, Dead)
    case WriteFault(a) => Goto(st, a.p, Dead)
  }

  /** pagedir_clear_page: "not present", everything else kept, the page table included. */
  function Unmap(ptes: map<Addr, Pte>, a: Addr): map<Addr, Pte> {
    if a in ptes then ptes[a := ptes[a].(present := false)] else ptes
  }

  /** frame_do_free: out of the frame table, back to the user pool. */
  function Release(st: State, k: Frame): State {
    st.(frames := st.frames - {k}, pool := st.pool + {k}, mem := st.mem[k := ScrubbedPage()])
  }

  ghost function AllocApply(st: State, p: Pid, step: AllocStep): State
    requires p in st.pc && AllocEnabled(st, p, step)
  {
    var c, l := st.pc[p], st.lock;
    match step
    case Acquire => Goto(st.(lock := Locked(p)), p, Allocating(c.a, c.kind))
    case Palloc(k) =>
      st.(pool := st.pool - {k}, lock := Owning(p, k),
          mem := if c.kind == Stack then st.mem[k := ZeroPage()] else st.mem)
    case Insert =>
      Goto(st.(frames := st.frames[l.k := FrameEntry(c.a, true)], lock := Free),
           p, Loading(c.a, c.kind, l.k, Filling))
    case InsertFail => Goto(st.(lock := Free), p, Dead)
  }

  ghost function EvictApply(st: State, p: Pid, step: EvictStep): State
    requires EvictEnabled(st, p, step)
  {
    var l := st.lock;
    match step
    case Pick(victim) =>
      st.(ptes := Unmap(st.ptes, st.frames[victim].a), lock := Scanning(p, victim))
    case Scan(slot) => st.(lock := Saving(p, l.victim, slot, 0))
    case SaveSector =>
      st.(dev := st.dev[SectorNo(l.slot, l.done) := st.mem[l.victim][l.done]],
          lock := Saving(p, l.victim, l.slot, l.done + 1))
    case MarkSaved => st.(avail := st.avail - {l.slot}, lock := Saved(p, l.victim, l.slot))
    case SetSwap =>
      var v := st.frames[l.victim].a;
      st.(spt := st.spt[v := st.spt[v].(status := OnSwap, kpage := None, slot := l.slot)],
          lock := Retired(p, l.victim))
    case FreeVictim => Release(st, l.victim).(lock := Retry(p))
  }

  ghost function FillApply(st: State, p: Pid, step: FillStep): State
    requires p in st.pc && FillEnabled(st, p, step)
  {
    var c := st.pc[p];
    match step
    case FillZero => Goto(st.(mem := st.mem[c.k := ZeroPage()]), p, c.(stage := Filled(true)))
    case StackReady => Goto(st, p, c.(stage := Filled(true)))
    case BeginRead => Goto(st, p, c.(stage := Reading(0)))
    case ReadSector =>
      var i := c.stage.done;
      Goto(st.(mem := st.mem[c.k := st.mem[c.k][i := st.dev[SectorNo(st.spt[c.a].slot, i)]]]),
           p, c.(stage := Reading(i + 1)))
    case EndRead =>
      Goto(st.(avail := st.avail + {st.spt[c.a].slot}), p, c.(stage := Filled(true)))
  }

  ghost function CopyApply(st: State, p: Pid, step: CopyStep): State
    requires p in st.pc && CopyEnabled(st, p, step)
  {
    var c := st.pc[p];
    match step
    case BeginFile => Goto(st, p, c.(stage := Copying(0)))
    case CopyChunk =>
      var bytes, done := NextChunk(st.files, st.spt[c.a].src, c.stage.done), c.stage.done;
      Goto(st.(mem := st.mem[c.k := Patched(st.mem[c.k], done, bytes)]), p, c.(stage := Copying(done + |bytes|)))
    case FileFail => Goto(st, p, c.(stage := Dropping))
    case EndFile =>
      Goto(st.(mem := st.mem[c.k := Cleared(st.mem[c.k], c.stage.done)]), p, c.(stage := Filled(st.spt[c.a].src.writable)))
  }

  ghost function MapApply(st: State, p: Pid, step: MapStep): State
    requires p in st.pc && MapEnabled(st, p, step)
  {
    var c := st.pc[p];
    match step
    case MapPage =>
      Goto(st.(tables := st.tables + {(c.a.p, c.a.pd)},
               ptes := st.ptes[c.a := Pte(c.k, true, c.stage.writable)]), p, c.(stage := Mapped))
    case MapFail => Goto(st, p, c.(stage := Dropping))
    case Record =>
      var e := if c.kind == Fault then st.spt[c.a].(status := OnFrame, kpage := Some(c.k))
               else Entry(OnFrame, Some(c.k), 0, NO_FILE);
      Goto(st.(spt := st.spt[c.a := e]), p, c.(stage := Recorded))
    case RecordFail => Goto(st, p, c.(stage := Dropping))
    case Unpin => Goto(st.(frames := st.frames[c.k := st.frames[c.k].(pinned := false)]), p, Running)
    case Drop => Goto(Release(st, c.k), p, Dead)
  }

  ghost function Apply(st: State, step: Step): State
    requires Enabled(st, step)
  {
    match step
    case Start(s) => StartApply(st, s)
    case User(u) => UserApply(st, u)
    case Alloc(p, f) => AllocApply(st, p, f)
    case Evict(p, e) => EvictApply(st, p, e)
    case Fill(p, l) => FillApply(st, p, l)
    case Copy(p, x) => CopyApply(st, p, x)
    case Map(p, i) => MapApply(st, p, i)
  }

  /** After frame_init and swap_init: no process, every frame and every slot free. */
  ghost predicate Init(st: State) {
    && st.pc == map[] && st.spt == map[] && st.tables == {} && st.ptes == map[] && st.frames == map[]
    && st.lock == Free && st.avail == st.slots && st.pool <= st.mem.Keys
    && forall k :: k in st.mem ==> WellFormed(st.mem[k])
  }

  // ----- What plain private memory would do -----

  /** The visible part of a step. */
  datatype Event =
    | Silent
    | FileChanged(f: FileId, bytes: seq<Byte>)
    | Promised(a: Addr, src: Backing)
    | Copied(a: Addr, at: nat, n: nat)
    | Loaded(a: Addr, n: nat)
    | Zeroed(a: Addr)
    | Wrote(a: Addr, s: nat, o: nat, b: Byte)
    | DidRead(a: Addr, s: nat, o: nat, b: Byte)

  ghost function EventOf(st: State, step: Step): Event
    requires Enabled(st, step)
  {
    match step
    case Start(SetFile(f, bytes)) => FileChanged(f, bytes)
    case Start(InstallFile(a, src)) => Promised(a, src)
    case User(FaultBegin(a, onStack)) => if a !in st.spt && onStack then Zeroed(a) else Silent
    case User(WriteByte(a, s, o, b)) => Wrote(a, s, o, b)
    case User(ReadByte(a, s, o)) => DidRead(a, s, o, st.mem[st.ptes[a].frame][s][o])
    case Copy(p, CopyChunk) =>
      var c := st.pc[p];
      Copied(c.a, c.stage.done, Chunk(st.files, st.spt[c.a].src, c.stage.done))
    case Copy(p, EndFile) => Loaded(st.pc[p].a, st.pc[p].stage.done)
    case Map(p, Record) => if st.pc[p].kind == Stack then Zeroed(st.pc[p].a) else Silent
    case _ => Silent
  }

  /** A page that is still to come from its file, as far as it has been read; or its bytes. */
  datatype Content = Pending(src: Backing, got: seq<Byte>) | Bytes(page: Page)

  /** Plain memory: one private array of bytes per page, and the files. */
  datatype Memory = Memory(files: map<FileId, seq<Byte>>, pages: map<Addr, Content>)

  /** Plain memory allows the event; for a read this fixes the byte. */
  ghost predicate Allows(m: Memory, e: Event) {
    match e
    case DidRead(a, s, o, b) =>
      && a in m.pages && m.pages[a].Bytes? && s < |m.pages[a].page| && o < |m.pages[a].page[s]|
      && m.pages[a].page[s][o] == b
    case Wrote(a, s, o, b) =>
      a in m.pages && m.pages[a].Bytes? && s < |m.pages[a].page| && o < |m.pages[a].page[s]|
    case Copied(a, at, n) =>
      && a in m.pages && m.pages[a].Pending? && |m.pages[a].got| == at
      && n > 0 && n == Chunk(m.files, m.pages[a].src, at)
    case Loaded(a, n) => a in m.pages && m.pages[a].Pending? && |m.pages[a].got| == n == m.pages[a].src.readBytes
    case Promised(a, src) => a !in m.pages
    case Zeroed(a) => a !in m.pages
    case _ => true
  }

  ghost function After(m: Memory, e: Event): Memory
    requires Allows(m, e)
  {
    match e
    case FileChanged(f, bytes) => m.(files := m.files[f := bytes])
    case Promised(a, src) => m.(pages := m.pages[a := Pending(src, [])])
    case Copied(a, at, n) =>
      var src := m.pages[a].src;
      m.(pages := m.pages[a := Pending(src, m.pages[a].got + NextChunk(m.files, src, at))])
    case Loaded(a, n) => m.(pages := m.pages[a := Bytes(Padded(m.pages[a].got))])
    case Zeroed(a) => m.(pages := m.pages[a := Bytes(ZeroPage())])
    case Wrote(a, s, o, b) =>
      m.(pages := m.pages[a := Bytes(SetByte(m.pages[a].page, s, o, b))])
    case _ => m
  }
}
