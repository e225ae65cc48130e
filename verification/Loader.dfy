/** Loading an ELF segment: the lazy load_segment (userprog/process.c), which only notes where the
    bytes of each page are, against the eager one (20171705), which reads them. */
module Loader {
  import opened Common
  import Paging

  type Byte = bv8
  type Page = s: seq<Byte> | |s| == PGSIZE witness seq(PGSIZE, _ => 0)

  const PGSIZE := 4096
  const PHYS_BASE := 0xc000_0000
  const WORD := 0x1_0000_0000

  type U32 = x: int | 0 <= x < WORD

  /** The largest off_t, a signed 32-bit integer. */
  const OFF_MAX := 0x7fff_ffff

  /** The length of a file. */
  type Length = x: int | 0 <= x <= OFF_MAX

  datatype Phdr = Phdr(offset: U32, vaddr: U32, filesz: U32, memsz: U32)

  /** The arguments of load_segment; pages are counted in units of PGSIZE. */
  datatype Segment = Segment(ofs: nat, first: nat, readBytes: nat, zeroBytes: nat)

  predicate IsUser(vaddr: int) {
    vaddr < PHYS_BASE
  }

  /** validate_segment, in 32-bit arithmetic. */
  predicate Validate(phdr: Phdr, fileLength: Length) {
    && phdr.offset % PGSIZE == phdr.vaddr % PGSIZE
    && phdr.offset <= fileLength
    && phdr.memsz >= phdr.filesz
    && phdr.memsz != 0
    && IsUser(phdr.vaddr)
    && IsUser((phdr.vaddr + phdr.memsz) % WORD)
    && (phdr.vaddr + phdr.memsz) % WORD >= phdr.vaddr
    && phdr.vaddr >= PGSIZE
  }

  /** Without wrapping around: the segment is not empty, has the page offset of its place in the file,
      and lies in user memory above page 0. */
  lemma {:induction false} ValidateMeans(phdr: Phdr, fileLength: Length)
    ensures Validate(phdr, fileLength) <==>
      && phdr.offset % PGSIZE == phdr.vaddr % PGSIZE && phdr.offset <= fileLength && phdr.filesz <= phdr.memsz
      && 0 < phdr.memsz && PGSIZE <= phdr.vaddr && phdr.vaddr + phdr.memsz < PHYS_BASE
  {
    var end := phdr.vaddr + phdr.memsz;
    assert end % WORD == if end < WORD then end else end - WORD;
  }

  function RoundUp(x: int): int {
    (x + PGSIZE - 1) % WORD / PGSIZE * PGSIZE
  }

  /** How load computes the segment, in 32-bit arithmetic. */
  function SegmentOf(phdr: Phdr): Segment {
    var pageOffset := phdr.vaddr % PGSIZE;
    var end := RoundUp((pageOffset + phdr.memsz) % WORD);
    var readBytes := if phdr.filesz > 0 then (pageOffset + phdr.filesz) % WORD else 0;
    Segment(phdr.offset - phdr.offset % PGSIZE, phdr.vaddr / PGSIZE, readBytes, (end - readBytes) % WORD)
  }

  /** What load_segment asserts of its arguments. */
  predicate Fits(seg: Segment) {
    seg.ofs % PGSIZE == 0 && (seg.readBytes + seg.zeroBytes) % PGSIZE == 0
  }

  function PageCount(seg: Segment): nat {
    (seg.readBytes + seg.zeroBytes) / PGSIZE
  }

  lemma {:induction false} RoundUpBounds(x: int)
    requires 0 <= x && x + PGSIZE <= WORD
    ensures x <= RoundUp(x) < x + PGSIZE && RoundUp(x) % PGSIZE == 0
  {
  }

  lemma {:induction false} Unwrapped(x: int)
    requires 0 <= x < WORD
    ensures x % WORD == x
  {
  }

  /** Nothing in the computation of a segment that passes wraps around. */
  lemma {:induction false} NothingWraps(phdr: Phdr, fileLength: Length)
    requires Validate(phdr, fileLength)
    ensures phdr.vaddr + phdr.memsz < PHYS_BASE && SegmentOf(phdr).ofs <= OFF_MAX
    ensures var pageOffset := phdr.vaddr % PGSIZE;
      var end := RoundUp(pageOffset + phdr.memsz);
      var readBytes := if phdr.filesz > 0 then pageOffset + phdr.filesz else 0;
      && pageOffset + phdr.memsz <= end < pageOffset + phdr.memsz + PGSIZE && end % PGSIZE == 0 && readBytes <= end
      && SegmentOf(phdr) == Segment(phdr.offset - pageOffset, phdr.vaddr / PGSIZE, readBytes, end - readBytes)
  {
    var pageOffset := phdr.vaddr % PGSIZE;
    Unwrapped(pageOffset + phdr.memsz);
    RoundUpBounds(pageOffset + phdr.memsz);
    Unwrapped(pageOffset + phdr.filesz);
    var end := RoundUp(pageOffset + phdr.memsz);
    Unwrapped(end - if phdr.filesz > 0 then pageOffset + phdr.filesz else 0);
  }

  /** A segment that passes is made of whole user pages, the first not page 0, and covers the bytes
      from vaddr to vaddr + memsz. */
  lemma {:induction false} ValidSegmentFits(phdr: Phdr, fileLength: Length)
    requires Validate(phdr, fileLength)
    ensures var seg := SegmentOf(phdr);
      && Fits(seg) && seg.first >= 1 && (seg.first + PageCount(seg)) * PGSIZE <= PHYS_BASE
      && seg.first * PGSIZE <= phdr.vaddr && phdr.vaddr + phdr.memsz <= (seg.first + PageCount(seg)) * PGSIZE
  {
    NothingWraps(phdr, fileLength);
  }

  // ----- What each page should hold -----

  /** Of the segment's file bytes, how many lie in page `k`. */
  function PageRead(readBytes: nat, k: nat): (r: nat)
    ensures r <= PGSIZE
  {
    if readBytes <= k * PGSIZE then 0
    else if readBytes - k * PGSIZE < PGSIZE then readBytes - k * PGSIZE else PGSIZE
  }

  /** The file is long enough for the segment. */
  predicate Covers(file: seq<Byte>, seg: Segment) {
    seg.readBytes > 0 ==> seg.ofs + seg.readBytes <= |file|
  }

  /** Page `k` of the segment, when the file is long enough. */
  function PageOf(file: seq<Byte>, seg: Segment, k: nat): Page
    requires Covers(file, seg)
  {
    seq(PGSIZE, j requires 0 <= j < PGSIZE =>
      if k * PGSIZE + j < seg.readBytes then file[seg.ofs + k * PGSIZE + j] else 0)
  }

  /** An entry of the supplemental page table for a page that is still in the file. */
  datatype Entry = Entry(ofs: nat, readBytes: nat, zeroBytes: nat, writable: bool)

  function EntryOf(seg: Segment, writable: bool, k: nat): Entry {
    Entry(seg.ofs + k * PGSIZE, PageRead(seg.readBytes, k), PGSIZE - PageRead(seg.readBytes, k), writable)
  }

  /** file_read of `size` bytes at `pos`. */
  function FileRead(file: seq<Byte>, pos: nat, size: nat): seq<Byte> {
    if pos >= |file| then [] else if pos + size <= |file| then file[pos..pos + size] else file[pos..]
  }

  /** load_page_from_filesys at a page's first fault. */
  function FirstFault(file: seq<Byte>, e: Entry): Option<Page>
    requires e.readBytes + e.zeroBytes == PGSIZE
  {
    var bytes := FileRead(file, e.ofs, e.readBytes);
    if |bytes| != e.readBytes then None else Some(bytes + seq(e.zeroBytes, _ => 0))
  }

  /** The bytes of a page's first fault are those of the segment. */
  lemma {:induction false} FirstFaultIsPage(file: seq<Byte>, seg: Segment, writable: bool, k: nat)
    requires Covers(file, seg)
    ensures FirstFault(file, EntryOf(seg, writable, k)) == Some(PageOf(file, seg, k))
  {
    var e := EntryOf(seg, writable, k);
    var bytes := FileRead(file, e.ofs, e.readBytes);
    assert |bytes| == e.readBytes;
    var page := bytes + seq(e.zeroBytes, _ => 0);
    assert page == PageOf(file, seg, k);
  }

  /** A page that the file is too short for fails. */
  lemma {:induction false} FirstFaultFails(file: seq<Byte>, seg: Segment, writable: bool, k: nat)
    requires PageRead(seg.readBytes, k) > 0 && seg.ofs + k * PGSIZE + PageRead(seg.readBytes, k) > |file|
    ensures FirstFault(file, EntryOf(seg, writable, k)) == None
  {
  }

  // ----- The two loaders -----

  /** The entries for the first `n` pages. */
  function Entries(seg: Segment, writable: bool, n: nat): map<nat, Entry> {
    if n == 0 then map[] else Entries(seg, writable, n - 1)[seg.first + n - 1 := EntryOf(seg, writable, n - 1)]
  }

  /** The first `n` pages with their bytes. */
  function Pages(file: seq<Byte>, seg: Segment, writable: bool, n: nat): map<nat, (Page, bool)>
    requires Covers(file, seg)
  {
    if n == 0 then map[]
    else Pages(file, seg, writable, n - 1)[seg.first + n - 1 := (PageOf(file, seg, n - 1), writable)]
  }

  /** The entries after `n` rounds of the demand-paging load_segment, which adds PGSIZE to its
      off_t once a page; None where that overflows. */
  function Lazy(seg: Segment, writable: bool, n: nat): Option<map<nat, Entry>> {
    if n == 0 then Some(map[])
    else
      var before := Lazy(seg, writable, n - 1);
      if before.None? || seg.ofs + (n - 1) * PGSIZE > OFF_MAX - PGSIZE then None
      else Some(before.value[seg.first + n - 1 := EntryOf(seg, writable, n - 1)])
  }

  /** load_segment of the demand-paging kernel. */
  method LoadLazy(seg: Segment, writable: bool) returns (table: Option<map<nat, Entry>>)
    requires Fits(seg) && seg.ofs <= OFF_MAX
    ensures table == Lazy(seg, writable, PageCount(seg))
  {
    var entries: map<nat, Entry> := map[];
    var readBytes, zeroBytes, upage, ofs := seg.readBytes, seg.zeroBytes, seg.first, seg.ofs;
    ghost var k := 0;
    while readBytes > 0 || zeroBytes > 0
      invariant k <= PageCount(seg) && upage == seg.first + k && ofs == seg.ofs + k * PGSIZE
      invariant readBytes + zeroBytes == (PageCount(seg) - k) * PGSIZE
      invariant readBytes == if seg.readBytes <= k * PGSIZE then 0 else seg.readBytes - k * PGSIZE
      invariant Some(entries) == Lazy(seg, writable, k)
      decreases readBytes + zeroBytes
    {
      var pageReadBytes := if readBytes < PGSIZE then readBytes else PGSIZE;
      var pageZeroBytes := PGSIZE - pageReadBytes;
      entries := entries[upage := Entry(ofs, pageReadBytes, pageZeroBytes, writable)];
      readBytes, zeroBytes := readBytes - pageReadBytes, zeroBytes - pageZeroBytes;
      if ofs > OFF_MAX - PGSIZE {
        LazyIsEntries(seg, writable, PageCount(seg));
        return None;
      }
      upage, ofs, k := upage + 1, ofs + PGSIZE, k + 1;
    }
    table := Some(entries);
  }

  /** The offset does not overflow exactly when the segment, rounded up to whole pages, ends below
      2^31 in the file. */
  lemma {:induction false} LazyIsEntries(seg: Segment, writable: bool, n: nat)
    ensures Lazy(seg, writable, n) ==
      if n == 0 || seg.ofs + n * PGSIZE <= OFF_MAX then Some(Entries(seg, writable, n)) else None
  {
    if n > 0 {
      LazyIsEntries(seg, writable, n - 1);
    }
  }

  /** load_segment of the earlier kernel, with memory for every page. */
  method LoadEager(file: seq<Byte>, seg: Segment, writable: bool) returns (pages: map<nat, (Page, bool)>, ok: bool)
    requires Fits(seg)
    ensures ok <==> Covers(file, seg)
    ensures ok ==> pages == Pages(file, seg, writable, PageCount(seg))
  {
    pages, ok := map[], true;
    var readBytes, zeroBytes, upage, pos := seg.readBytes, seg.zeroBytes, seg.first, seg.ofs;
    ghost var k := 0;
    ghost var long := Covers(file, seg);
    while readBytes > 0 || zeroBytes > 0
      invariant k <= PageCount(seg) && upage == seg.first + k
      invariant readBytes + zeroBytes == (PageCount(seg) - k) * PGSIZE
      invariant readBytes == if seg.readBytes <= k * PGSIZE then 0 else seg.readBytes - k * PGSIZE
      invariant pos == seg.ofs + seg.readBytes - readBytes && (seg.readBytes > readBytes ==> pos <= |file|)
      invariant long ==> pages == Pages(file, seg, writable, k)
      decreases readBytes + zeroBytes
    {
      var pageReadBytes := if readBytes < PGSIZE then readBytes else PGSIZE;
      var pageZeroBytes := PGSIZE - pageReadBytes;
      var bytes := FileRead(file, pos, pageReadBytes);
      if |bytes| != pageReadBytes {
        ok := false;
        return;
      }
      var page: Page := bytes + seq(pageZeroBytes, _ => 0);
      assert long ==> page == PageOf(file, seg, k);
      pages := pages[upage := (page, writable)];
      pos := pos + |bytes|;
      readBytes, zeroBytes := readBytes - pageReadBytes, zeroBytes - pageZeroBytes;
      upage, k := upage + 1, k + 1;
    }
  }

  /** Page `p` of both: the same access, and the first fault brings in the bytes that the eager
      loader installs. */
  ghost predicate SamePage(file: seq<Byte>, lazy: map<nat, Entry>, eager: map<nat, (Page, bool)>, p: nat) {
    && (p in lazy <==> p in eager)
    && (p in lazy ==> lazy[p].readBytes + lazy[p].zeroBytes == PGSIZE && lazy[p].writable == eager[p].1)
    && (p in lazy ==> FirstFault(file, lazy[p]) == Some(eager[p].0))
  }

  lemma {:induction false} EntriesArePages(file: seq<Byte>, seg: Segment, writable: bool, n: nat, p: nat)
    requires Covers(file, seg)
    ensures SamePage(file, Entries(seg, writable, n), Pages(file, seg, writable, n), p)
    ensures p in Entries(seg, writable, n) <==> seg.first <= p < seg.first + n
  {
    if n > 0 {
      EntriesArePages(file, seg, writable, n - 1, p);
      FirstFaultIsPage(file, seg, writable, n - 1);
    }
  }

  /** For a segment that passes and a file long enough for it, so that the eager loader succeeds:
      the lazy loader gives every page the same contents and access if and only if the segment
      lies a page short of 2^31 in the file; otherwise its offset overflows. */
  lemma {:induction false} LazyIsEager(phdr: Phdr, file: seq<Byte>, writable: bool)
    requires |file| <= OFF_MAX && Validate(phdr, |file|) && Covers(file, SegmentOf(phdr))
    ensures var seg := SegmentOf(phdr);
      var lazy := Lazy(seg, writable, PageCount(seg));
      var eager := Pages(file, seg, writable, PageCount(seg));
      (lazy.Some? && forall p: nat :: SamePage(file, lazy.value, eager, p))
      <==> phdr.offset + phdr.memsz <= OFF_MAX + 1 - PGSIZE
  {
    var seg := SegmentOf(phdr);
    var n := PageCount(seg);
    NothingWraps(phdr, |file|);
    LazyIsEntries(seg, writable, n);
    SegmentEnd(phdr, |file|);
    forall p: nat ensures SamePage(file, Entries(seg, writable, n), Pages(file, seg, writable, n), p) {
      EntriesArePages(file, seg, writable, n, p);
    }
  }

  lemma {:induction false} SegmentEnd(phdr: Phdr, fileLength: Length)
    requires Validate(phdr, fileLength)
    ensures var seg := SegmentOf(phdr);
      PageCount(seg) > 0 && (seg.ofs + PageCount(seg) * PGSIZE <= OFF_MAX <==> phdr.offset + phdr.memsz <= OFF_MAX + 1 - PGSIZE)
  {
    NothingWraps(phdr, fileLength);
    var seg := SegmentOf(phdr);
    assert PageCount(seg) * PGSIZE == seg.readBytes + seg.zeroBytes;
  }

  lemma {:induction false} PageAt(file: seq<Byte>, seg: Segment, writable: bool, n: nat, k: nat)
    requires Covers(file, seg) && k < n
    ensures var pages := Pages(file, seg, writable, n);
      seg.first + k in pages && pages[seg.first + k] == (PageOf(file, seg, k), writable)
  {
    if k < n - 1 {
      PageAt(file, seg, writable, n - 1, k);
    }
  }

  /** What loading is for: the byte at an address of the segment is the one at its place in the file, and
      zero past the segment's bytes in the file. */
  lemma {:induction false} ImageIsFile(phdr: Phdr, file: seq<Byte>, writable: bool, x: nat)
    requires |file| <= OFF_MAX && Validate(phdr, |file|) && x < phdr.memsz
    ensures Covers(file, SegmentOf(phdr)) <==> phdr.filesz == 0 || phdr.offset + phdr.filesz <= |file|
    ensures Covers(file, SegmentOf(phdr)) ==>
      var seg, a := SegmentOf(phdr), phdr.vaddr + x;
      var pages := Pages(file, seg, writable, PageCount(seg));
      && a / PGSIZE in pages && pages[a / PGSIZE].1 == writable
      && pages[a / PGSIZE].0[a % PGSIZE] == if x < phdr.filesz then file[phdr.offset + x] else 0
  {
    NothingWraps(phdr, |file|);
    var seg, a := SegmentOf(phdr), phdr.vaddr + x;
    var k := a / PGSIZE - seg.first;
    assert k * PGSIZE + a % PGSIZE == phdr.vaddr % PGSIZE + x;
    assert k < PageCount(seg);
    if Covers(file, seg) {
      PageAt(file, seg, writable, PageCount(seg), k);
    }
  }

  /** Such a segment exists: two pages of zeros at the end of a file just short of 2^31 bytes pass
      validate_segment, the eager loader installs them, and the lazy loader overflows. */
  lemma {:induction false} OffsetOverflows(file: seq<Byte>, writable: bool)
    requires |file| == 0x7fff_f000
    ensures var phdr := Phdr(0x7fff_f000, 0x1000, 0, 0x2000);
      var seg := SegmentOf(phdr);
      && Validate(phdr, |file|) && Covers(file, seg) && PageCount(seg) == 2
      && Lazy(seg, writable, 2) == None
      && Pages(file, seg, writable, 2).Keys == {1, 2}
  {
    var seg := SegmentOf(Phdr(0x7fff_f000, 0x1000, 0, 0x2000));
    assert seg == Segment(0x7fff_f000, 1, 0, 0x2000);
    LazyIsEntries(seg, writable, 2);
    assert Pages(file, seg, writable, 1).Keys == {1};
  }

  /** When the file is too short, the eager loader fails and so does the first fault on the last
      page that has bytes of the file. */
  lemma {:induction false} BothFail(file: seq<Byte>, seg: Segment, writable: bool)
    requires Fits(seg) && !Covers(file, seg)
    ensures var k, lazy := (seg.readBytes - 1) / PGSIZE, Lazy(seg, writable, PageCount(seg));
      && k < PageCount(seg) && FirstFault(file, EntryOf(seg, writable, k)) == None
      && (lazy.Some? ==> seg.first + k in lazy.value && lazy.value[seg.first + k] == EntryOf(seg, writable, k))
  {
    var k := (seg.readBytes - 1) / PGSIZE;
    FirstFaultFails(file, seg, writable, k);
    LazyIsEntries(seg, writable, PageCount(seg));
    EntryAt(seg, writable, PageCount(seg), k);
  }

  lemma {:induction false} EntryAt(seg: Segment, writable: bool, n: nat, k: nat)
    requires k < n
    ensures seg.first + k in Entries(seg, writable, n) && Entries(seg, writable, n)[seg.first + k] == EntryOf(seg, writable, k)
  {
    if k < n - 1 {
      EntryAt(seg, writable, n - 1, k);
    }
  }

  /** What the paging machine has read of a page's file, if nobody writes to it meanwhile: chunk after
      chunk until there is none. */
  ghost function CopyAll(files: map<Paging.FileId, seq<Byte>>, src: Paging.Backing, got: seq<Byte>): seq<Byte>
    decreases src.readBytes - |got|
  {
    if Paging.Chunk(files, src, |got|) == 0 then got
    else CopyAll(files, src, got + Paging.NextChunk(files, src, |got|))
  }

  lemma {:induction false} CopyAllIsRead(file: seq<Byte>, f: Paging.FileId, src: Paging.Backing, got: seq<Byte>)
    requires src.file == f && |got| <= src.readBytes
    requires got == [] || (src.offset + |got| <= |file| && got == file[src.offset..src.offset + |got|])
    ensures CopyAll(map[f := file], src, got) == FileRead(file, src.offset, src.readBytes)
    decreases src.readBytes - |got|
  {
    var files := map[f := file];
    if Paging.Chunk(files, src, |got|) > 0 {
      var bytes := Paging.NextChunk(files, src, |got|);
      assert got + bytes == file[src.offset..src.offset + |got + bytes|];
      CopyAllIsRead(file, f, src, got + bytes);
    }
  }

  /** Then a first fault is what the paging machine does with the entry: both have all the bytes of
      the same entries, those of no bytes past the end of the file included, and the same page. */
  lemma {:induction false} FaultIsFilePage(file: seq<Byte>, e: Entry, f: Paging.FileId)
    requires e.readBytes + e.zeroBytes == PGSIZE
    ensures var src, page := Paging.Backing(f, e.ofs, e.readBytes, e.writable), FirstFault(file, e);
      var got := CopyAll(map[f := file], src, []);
      && (page.Some? <==> |got| == src.readBytes)
      && (page.Some? ==> forall s, o :: 0 <= s < Paging.SECTORS_PER_PAGE && 0 <= o < Paging.SECTOR_SIZE ==>
            Paging.Padded(got)[s][o] == page.value[Paging.At(s, o)])
  {
    CopyAllIsRead(file, f, Paging.Backing(f, e.ofs, e.readBytes, e.writable), []);
  }
}
