/** The page allocator (threads/palloc.c): two pools of pages, each over its bitmap of used pages, and
    malloc over the page allocator.  A ghost map records the groups of pages that a pool has handed
    out, by their first page. */
module Palloc {
  import opened Common
  import opened Bitmap
  import Malloc

  const PGSIZE := Malloc.PGSIZE

  type Groups = map<nat, nat>

  /** Page `k` belongs to a group handed out. */
  ghost predicate Taken(groups: Groups, k: int) {
    exists i :: i in groups && i <= k < i + groups[i]
  }

  /** The groups handed out do not overlap, and the bitmap marks exactly their pages. */
  ghost predicate PoolOk(used: seq<bool>, groups: Groups) {
    && (forall i :: i in groups ==> groups[i] >= 1 && i + groups[i] <= |used|)
    && (forall i, j :: i in groups && j in groups && i < j ==> i + groups[i] <= j)
    && (forall k :: 0 <= k < |used| ==> (used[k] <==> Taken(groups, k)))
  }

  /** No group handed out has any of the `cnt` pages from `k` on. */
  ghost predicate AwayFrom(groups: Groups, k: nat, cnt: nat) {
    forall i :: i in groups ==> k + cnt <= i || i + groups[i] <= k
  }

  /** There are not `cnt` unused pages in a row, or none are asked for. */
  ghost predicate NoPages(used: seq<bool>, cnt: int) {
    cnt <= 0 || IsFirstGroup(used, 0, cnt, false, None)
  }

  lemma {:induction false} TakeKeepsPool(used: seq<bool>, groups: Groups, k: nat, cnt: nat)
    requires PoolOk(used, groups) && cnt >= 1 && k + cnt <= |used| && AllAre(used, k, cnt, false)
    ensures PoolOk(SetRange(used, k, cnt, true), groups[k := cnt])
    ensures AwayFrom(groups, k, cnt)
  {
    forall x | k <= x < k + cnt ensures !Taken(groups, x) {
      assert !used[x];
    }
    forall i | i in groups ensures k + cnt <= i || i + groups[i] <= k {
      assert !Taken(groups, k) && (k <= i < k + cnt ==> !Taken(groups, i));
    }
    var used', groups' := SetRange(used, k, cnt, true), groups[k := cnt];
    assert k !in groups;
    forall x | 0 <= x < |used'| ensures used'[x] <==> Taken(groups', x) {
      if k <= x < k + cnt {
        assert k in groups';
      } else if Taken(groups, x) {
        var i :| i in groups && i <= x < i + groups[i];
        assert i in groups' && groups'[i] == groups[i];
      }
    }
  }

  lemma {:induction false} GiveKeepsPool(used: seq<bool>, groups: Groups, k: nat)
    requires PoolOk(used, groups) && k in groups
    ensures AllAre(used, k, groups[k], true) && PoolOk(SetRange(used, k, groups[k], false), groups - {k})
  {
    var used', groups' := SetRange(used, k, groups[k], false), groups - {k};
    forall x | k <= x < k + groups[k] ensures used[x] && !Taken(groups', x) {
      assert Taken(groups, x);
    }
    forall x | 0 <= x < |used'| && !(k <= x < k + groups[k]) ensures used'[x] <==> Taken(groups', x) {
      if Taken(groups, x) {
        var i :| i in groups && i <= x < i + groups[i];
        assert i in groups';
      }
    }
  }

  class Pool {
    const used: Bitmap
    const base: int
    ghost var groups: Groups

    ghost predicate Valid()
      reads this, used.bits
    {
      used.Valid() && base > 0 && base % PGSIZE == 0 && PoolOk(used.Bits(), groups)
    }

    /** init_pool. */
    constructor (base: int, used: Bitmap)
      requires base > 0 && base % PGSIZE == 0 && used.Valid() && used.Bits() == seq(used.bitCnt, _ => false)
      ensures Valid() && groups == map[] && this.base == base && this.used == used
    {
      this.base, this.used, groups := base, used, map[];
    }

    /** What the pool has handed out, and its bitmap. */
    ghost function Now(): (Groups, seq<bool>)
      requires used.Sized()
      reads this, used.bits
    {
      (groups, used.Bits())
    }

    /** The search of palloc_get_multiple in this pool. */
    method Take(cnt: nat) returns (pages: Option<int>, ghost k: nat)
      requires Valid()
      modifies this`groups, used.bits
      ensures Valid()
      ensures pages.None? <==> NoPages(old(used.Bits()), cnt)
      ensures pages.None? ==> Now() == old(Now())
      ensures pages.Some? ==> IsTaken(this.base, old(used.Bits()), old(groups), groups, cnt, pages.value, k)
    {
      if cnt == 0 {
        return None, 0;
      }
      var idx := used.ScanAndFlip(0, cnt, false);
      if idx.None? {
        return None, 0;
      }
      TakeKeepsPool(old(used.Bits()), groups, idx.value, cnt);
      groups := groups[idx.value := cnt];
      return Some(base + PGSIZE * idx.value), idx.value;
    }

    /** page_from_pool. */
    predicate FromPool(page: int) {
      base / PGSIZE <= page / PGSIZE < base / PGSIZE + used.bitCnt
    }

    /** The end of palloc_free_multiple, of a group that this pool handed out: the assertion that all
        its pages are in use holds. */
    method Give(pages: int, cnt: nat)
      requires Valid() && IsGroup(base, groups, pages, cnt)
      modifies this`groups, used.bits
      ensures Valid() && groups == old(groups) - {(pages - base) / PGSIZE}
    {
      var idx: nat := pages / PGSIZE - base / PGSIZE;
      assert idx == (pages - base) / PGSIZE && idx in groups;
      GiveKeepsPool(used.Bits(), groups, idx);
      var hole := used.Contains(idx, cnt, false);
      assert !hole;
      used.SetMultiple(idx, cnt, false);
      groups := groups - {idx};
    }
  }

  /** The first free group of `cnt` pages, at `a`, is handed out; it is apart from all others. */
  ghost predicate IsTaken(base: int, used: seq<bool>, groups: Groups, groups': Groups, cnt: nat, a: int, k: nat) {
    && cnt >= 1 && a == base + PGSIZE * k && IsFirstGroup(used, 0, cnt, false, Some(k))
    && groups' == groups[k := cnt] && AwayFrom(groups, k, cnt)
  }

  /** The `n` pages at address `a` are a group handed out. */
  ghost predicate IsGroup(base: int, groups: Groups, a: int, n: int) {
    a >= base && (a - base) % PGSIZE == 0 && (a - base) / PGSIZE in groups && groups[(a - base) / PGSIZE] == n
  }

  // ----- The two pools -----

  type Byte = bv8

  datatype Answer = Pages(a: int) | Null | Panic

  /** memset over whole pages. */
  ghost predicate Filled(mem: int -> Byte, mem': int -> Byte, a: int, cnt: nat, b: Byte) {
    forall x :: mem'(x) == if a <= x < a + PGSIZE * cnt then b else mem(x)
  }

  /** The pages of the one pool come before those of the other. */
  ghost predicate Before(base: int, cnt: nat, base': int) {
    base + PGSIZE * cnt <= base'
  }

  /** page_from_pool holds of a group in the pool that handed it out, and not in the other. */
  lemma {:induction false} PoolIsFound(kernel: Pool, user: Pool, a: int, n: int)
    requires kernel.Valid() && user.Valid() && Before(kernel.base, kernel.used.bitCnt, user.base)
    ensures IsGroup(kernel.base, kernel.groups, a, n) ==> kernel.FromPool(a) && !user.FromPool(a)
    ensures IsGroup(user.base, user.groups, a, n) ==> user.FromPool(a) && !kernel.FromPool(a)
  {
  }

  class PageAllocator {
    const kernel: Pool
    const user: Pool
    var mem: int -> Byte

    ghost predicate Valid()
      reads kernel, kernel.used.bits, user, user.used.bits
    {
      && kernel != user && kernel.used.bits != user.used.bits && kernel.Valid() && user.Valid()
      && Before(kernel.base, kernel.used.bitCnt, user.base)
    }

    constructor (kernel: Pool, user: Pool, mem: int -> Byte)
      requires kernel != user && kernel.used.bits != user.used.bits && kernel.Valid() && user.Valid()
      requires Before(kernel.base, kernel.used.bitCnt, user.base)
      ensures Valid() && this.kernel == kernel && this.user == user && this.mem == mem
    {
      this.kernel, this.user, this.mem := kernel, user, mem;
      new;
      assert unchanged(kernel) && unchanged(kernel.used.bits) && unchanged(user) && unchanged(user.used.bits);
    }

    function PoolFor(inUser: bool): Pool {
      if inUser then user else kernel
    }

    method Memset(a: int, cnt: nat, b: Byte)
      modifies this`mem
      ensures Filled(old(mem), mem, a, cnt, b)
    {
      var before := mem;
      mem := x => if a <= x < a + PGSIZE * cnt then b else before(x);
    }

    /** palloc_get_multiple.  The flags are PAL_USER, PAL_ZERO and PAL_ASSERT. */
    method GetMultiple(inUser: bool, zero: bool, must: bool, cnt: nat) returns (r: Answer, ghost k: nat)
      requires Valid()
      modifies this`mem, PoolFor(inUser)`groups, PoolFor(inUser).used.bits
      ensures Valid()
      ensures r.Pages? <==> !NoPages(old(PoolFor(inUser).used.Bits()), cnt)
      ensures r == Panic <==> must && cnt > 0 && NoPages(old(PoolFor(inUser).used.Bits()), cnt)
      ensures r.Pages? ==>
        var pool := PoolFor(inUser);
        IsTaken(pool.base, old(pool.used.Bits()), old(pool.groups), pool.groups, cnt, r.a, k)
      ensures if r.Pages? && zero then Filled(old(mem), mem, r.a, cnt, 0) else mem == old(mem)
      ensures !r.Pages? ==> PoolFor(inUser).Now() == old(PoolFor(inUser).Now())
    {
      if cnt == 0 {
        return Null, 0;
      }
      var pool := PoolFor(inUser);
      var pages, k' := pool.Take(cnt);
      k := k';
      if pages.None? {
        r := if must then Panic else Null;
        return;
      }
      if zero {
        Memset(pages.value, cnt, 0);
      }
      r := Pages(pages.value);
    }

    /** palloc_free_multiple, of nothing or of a group that a pool has handed out: that pool is found,
        NOT_REACHED is not reached, and the pages are overwritten. */
    method FreeMultiple(pages: Option<int>, cnt: nat, ghost inUser: bool)
      requires Valid() && (pages.Some? ==> pages.value % PGSIZE == 0)
      requires pages.Some? && cnt > 0 ==> IsGroup(PoolFor(inUser).base, PoolFor(inUser).groups, pages.value, cnt)
      modifies this`mem, PoolFor(inUser)`groups, PoolFor(inUser).used.bits
      ensures Valid()
      ensures pages.None? || cnt == 0 ==> PoolFor(inUser).Now() == old(PoolFor(inUser).Now()) && mem == old(mem)
      ensures pages.Some? && cnt > 0 ==> Filled(old(mem), mem, pages.value, cnt, 0xcc)
      ensures pages.Some? && cnt > 0 ==>
        var pool := PoolFor(inUser);
        pool.groups == old(pool.groups) - {(pages.value - pool.base) / PGSIZE}
    {
      if pages.None? || cnt == 0 {
        return;
      }
      PoolIsFound(kernel, user, pages.value, cnt);
      var pool;
      if kernel.FromPool(pages.value) {
        pool := kernel;
      } else if user.FromPool(pages.value) {
        pool := user;
      } else {
        assert false;
      }
      Memset(pages.value, cnt, 0xcc);
      pool.Give(pages.value, cnt);
    }
  }

  // ----- Setting up -----

  /** The pages that a bitmap of `n` bits takes, its header of two words included. */
  function BitmapPages(n: nat): nat {
    (8 + 4 * ((n + ELEM_BITS - 1) / ELEM_BITS) + PGSIZE - 1) / PGSIZE
  }

  /** A pool of `n` pages has room for its bitmap exactly when it has a page; the bitmap for the pages
      that are left fits where it is put. */
  lemma {:induction false} BitmapFits(n: nat)
    ensures BitmapPages(n) <= n <==> n > 0
    ensures BitmapPages(n) <= n ==> 8 + 4 * ((n - BitmapPages(n) + ELEM_BITS - 1) / ELEM_BITS) <= BitmapPages(n) * PGSIZE
    ensures (BitmapPages(n) - 1) * PGSIZE < 8 + 4 * ((n + ELEM_BITS - 1) / ELEM_BITS) <= BitmapPages(n) * PGSIZE
  {
  }

  /** The user pool's share of `cnt` pages: half of them, or as many as its limit allows. */
  predicate IsShare(cnt: nat, limit: nat, n: nat) {
    n <= limit && 2 * n <= cnt && (n == limit || cnt <= 2 * n + 1)
  }

  /** A pool and its bitmap have `cnt` pages from `base` on. */
  ghost predicate Has(pool: Pool, base: int, cnt: nat) {
    && base < pool.base == base + BitmapPages(cnt) * PGSIZE
    && BitmapPages(cnt) + pool.used.bitCnt == cnt
  }

  /** init_pool; None is its PANIC. */
  method InitPool(base: int, cnt: nat) returns (r: Option<Pool>)
    requires base > 0 && base % PGSIZE == 0
    ensures r.None? <==> cnt == 0
    ensures r.Some? ==> fresh(r.value) && fresh(r.value.used.bits) && r.value.Valid() && r.value.groups == map[]
    ensures r.Some? ==> Has(r.value, base, cnt)
  {
    BitmapFits(cnt);
    var bmPages := BitmapPages(cnt);
    if bmPages > cnt {
      return None;
    }
    var used := new Bitmap(cnt - bmPages);
    var pool := new Pool(base + bmPages * PGSIZE, used);
    return Some(pool);
  }

  /** palloc_init for `cnt` pages of free memory, of which `share` go to the user pool and the others,
      before them, to the kernel pool: no page of a pool is one of the other pool or of a bitmap, and
      none lies outside of the free memory.  It panics exactly when a pool gets no pages. */
  method Init(start: int, cnt: nat, limit: nat, mem: int -> Byte) returns (r: Option<PageAllocator>, ghost share: nat)
    requires start > 0 && start % PGSIZE == 0
    ensures r.None? <==> cnt < 2 || limit == 0
    ensures IsShare(cnt, limit, share)
    ensures r.Some? ==> Has(r.value.kernel, start, cnt - share) && Has(r.value.user, start + (cnt - share) * PGSIZE, share)
    ensures r.Some? ==> r.value.Valid() && r.value.kernel.groups == map[] && r.value.user.groups == map[]
    ensures r.Some? ==>
      && start < r.value.kernel.base && r.value.kernel.base + PGSIZE * r.value.kernel.used.bitCnt < r.value.user.base
      && r.value.user.base + PGSIZE * r.value.user.used.bitCnt == start + PGSIZE * cnt
  {
    var userPages := cnt / 2;
    if userPages > limit {
      userPages := limit;
    }
    share := userPages;
    var kernelPages := cnt - userPages;
    var kernel := InitPool(start, kernelPages);
    if kernel.None? {
      r := None;
      return;
    }
    var user := InitPool(start + kernelPages * PGSIZE, userPages);
    if user.None? {
      r := None;
      return;
    }
    var pages := new PageAllocator(kernel.value, user.value, mem);
    r := Some(pages);
  }

  // ----- malloc over the page allocator -----

  /** Every arena of the heap is a group of pages of the pool. */
  ghost predicate Backed(base: int, groups: Groups, spans: map<int, int>) {
    forall a :: a in spans ==> IsGroup(base, groups, a, spans[a])
  }

  /** What the page allocator hands out is what malloc relies on. */
  lemma {:induction false} FreshIsUnused(base: int, groups: Groups, arenas: map<int, Malloc.Arena>, k: nat, cnt: nat)
    requires base > 0 && base % PGSIZE == 0 && cnt >= 1 && Backed(base, groups, Malloc.Spans(arenas))
    requires AwayFrom(groups, k, cnt)
    ensures Malloc.Unused(arenas, base + PGSIZE * k, cnt)
  {
    var a := base + PGSIZE * k;
    forall b | b in arenas ensures a + cnt * PGSIZE <= b || b + Malloc.Span(arenas[b]) * PGSIZE <= a {
      assert b in Malloc.Spans(arenas) && IsGroup(base, groups, b, Malloc.Span(arenas[b]));
      var i := (b - base) / PGSIZE;
      assert b == base + i * PGSIZE;
    }
  }

  lemma {:induction false} NewGroupIsAway(groups: Groups, k: nat, cnt: nat)
    requires AwayFrom(groups, k, cnt) && cnt >= 1 && forall i :: i in groups ==> groups[i] >= 1
    ensures k !in groups
  {
  }

  lemma {:induction false} BackedWith(base: int, groups: Groups, spans: map<int, int>, k: nat, cnt: nat)
    requires Backed(base, groups, spans) && k !in groups
    ensures Backed(base, groups[k := cnt], spans) && Backed(base, groups[k := cnt], spans[base + PGSIZE * k := cnt])
  {
    assert (base + PGSIZE * k - base) / PGSIZE == k;
  }

  lemma {:induction false} BackedWithout(base: int, groups: Groups, spans: map<int, int>, a: int)
    requires Backed(base, groups, spans) && a in spans && base % PGSIZE == 0
    ensures Backed(base, groups - {(a - base) / PGSIZE}, spans - {a})
  {
    forall b | b in spans && b != a ensures (b - base) / PGSIZE != (a - base) / PGSIZE {
      assert IsGroup(base, groups, a, spans[a]) && IsGroup(base, groups, b, spans[b]);
    }
  }

  /** The pool handed out the `n` pages from `k` on, which were free, and nothing else. */
  ghost predicate HandedOut(groups: Groups, groups': Groups, k: int, n: int) {
    k >= 0 && n >= 1 && AwayFrom(groups, k, n) && groups' == groups[k := n]
  }

  /** The group at `k` went back to the pool, and nothing else. */
  ghost predicate GivenBack(groups: Groups, groups': Groups, k: int) {
    k in groups && groups' == groups - {k}
  }

  /** No other block that is out is in the page of `p`. */
  ghost predicate LastOfPage(out: map<int, int>, p: int) {
    Malloc.Base(p) !in Malloc.Bases((out - {p}).Keys)
  }

  /** The group at `k` went back to the pool if `gone`, and nothing else did. */
  ghost predicate Reclaimed(groups: Groups, groups': Groups, gone: bool, k: int) {
    if gone then GivenBack(groups, groups', k) else groups' == groups
  }

  /** The spans with those of one more page, if it is given. */
  ghost function With(spans: map<int, int>, page: Option<int>, n: int): map<int, int> {
    if page.Some? then spans[page.value := n] else spans
  }

  ghost predicate Sound(pages: PageAllocator, heap: Malloc.Heap)
    reads pages.kernel, pages.kernel.used.bits, pages.user, pages.user.used.bits, heap
  {
    pages.Valid() && heap.Valid() && Backed(pages.kernel.base, pages.kernel.groups, Malloc.Spans(heap.arenas))
  }

  /** The index in the kernel pool of the page that a block lies in. */
  function PageOf(base: int, p: int): int {
    (Malloc.Base(p) - base) / PGSIZE
  }

  /** Whether malloc turns to the page allocator. */
  method Needs(heap: Malloc.Heap, size: int) returns (needs: bool)
    requires heap.Valid()
    ensures needs == Malloc.NeedsPages(size, heap.free)
  {
    if size <= 0 {
      return false;
    }
    var d := heap.FindDesc(size);
    needs := d == Malloc.DESCS || heap.free[d] == [];
    if d < Malloc.DESCS {
      assert Malloc.IsClass(d, size);
    }
    forall e: nat | e < Malloc.DESCS && Malloc.IsClass(e, size) ensures e == d {
    }
  }

  /** The pages that malloc asks for: they are what it relies on. */
  method TakePages(pages: PageAllocator, n: nat, ghost arenas: map<int, Malloc.Arena>) returns (page: Option<int>, ghost k: int)
    requires pages.Valid() && Backed(pages.kernel.base, pages.kernel.groups, Malloc.Spans(arenas))
    modifies pages`mem, pages.kernel`groups, pages.kernel.used.bits
    ensures pages.Valid()
    ensures page.None? <==> NoPages(old(pages.kernel.used.Bits()), n)
    ensures page.None? ==> pages.kernel.groups == old(pages.kernel.groups)
    ensures page.Some? ==> k == (page.value - pages.kernel.base) / PGSIZE
    ensures page.Some? ==> HandedOut(old(pages.kernel.groups), pages.kernel.groups, k, n)
    ensures page.Some? ==> Malloc.Unused(arenas, page.value, n)
    ensures Backed(pages.kernel.base, pages.kernel.groups, With(Malloc.Spans(arenas), page, n))
  {
    ghost var base, groups := pages.kernel.base, pages.kernel.groups;
    var answer, k' := pages.GetMultiple(false, false, false, n);
    k := k';
    if !answer.Pages? {
      page := None;
      return;
    }
    NewGroupIsAway(groups, k', n);
    FreshIsUnused(base, groups, arenas, k', n);
    BackedWith(base, groups, Malloc.Spans(arenas), k', n);
    assert (answer.a - base) / PGSIZE == k;
    page := Some(answer.a);
  }

  /** The same, beside the heap. */
  method TakePagesFor(pages: PageAllocator, heap: Malloc.Heap, n: nat) returns (page: Option<int>, ghost k: int)
    requires Sound(pages, heap)
    modifies pages`mem, pages.kernel`groups, pages.kernel.used.bits
    ensures pages.Valid() && heap.Valid()
    ensures page.None? <==> NoPages(old(pages.kernel.used.Bits()), n)
    ensures page.None? ==> pages.kernel.groups == old(pages.kernel.groups)
    ensures page.Some? ==> k == (page.value - pages.kernel.base) / PGSIZE
    ensures page.Some? ==> HandedOut(old(pages.kernel.groups), pages.kernel.groups, k, n)
    ensures page.Some? ==> Malloc.Unused(heap.arenas, page.value, n)
    ensures Backed(pages.kernel.base, pages.kernel.groups, With(Malloc.Spans(heap.arenas), page, n))
  {
    page, k := TakePages(pages, n, heap.arenas);
    assert unchanged(heap);
  }

  /** malloc of a block for which pages are needed, as far as the heap is concerned. */
  method MallocIn(pages: PageAllocator, heap: Malloc.Heap, size: int, page: Option<int>) returns (r: Option<int>)
    requires pages.Valid() && heap.Valid() && 0 < size < Malloc.WORD && Malloc.NeedsPages(size, heap.free)
    requires page.Some? ==> Malloc.Unused(heap.arenas, page.value, Malloc.Asked(size))
    modifies heap
    ensures pages.Valid() && heap.Valid() && (r.None? <==> page.None?)
    ensures r.None? ==> heap.out == old(heap.out)
    ensures r.Some? ==> r.value !in old(heap.out) && heap.out == old(heap.out)[r.value := Malloc.Granted(size)]
    ensures r.Some? ==> Malloc.Base(r.value) == page.value
    ensures Malloc.Spans(heap.arenas) == With(Malloc.Spans(old(heap.arenas)), page, Malloc.Asked(size))
  {
    r := heap.Malloc(size, page);
    assert unchanged(pages.kernel) && unchanged(pages.kernel.used.bits) && unchanged(pages.user) && unchanged(pages.user.used.bits);
  }

  method AllocPages(pages: PageAllocator, heap: Malloc.Heap, size: int) returns (r: Option<int>, ghost k: int)
    requires Sound(pages, heap) && 0 < size < Malloc.WORD && Malloc.NeedsPages(size, heap.free) && Malloc.Asked(size) >= 0
    modifies heap, pages`mem, pages.kernel`groups, pages.kernel.used.bits
    ensures Sound(pages, heap)
    ensures r.Some? ==> r.value !in old(heap.out) && heap.out == old(heap.out)[r.value := Malloc.Granted(size)]
    ensures r.None? ==> heap.out == old(heap.out) && pages.kernel.groups == old(pages.kernel.groups)
    ensures r.None? <==> NoPages(old(pages.kernel.used.Bits()), Malloc.Asked(size))
    ensures r.Some? ==> k == PageOf(pages.kernel.base, r.value)
    ensures r.Some? ==> HandedOut(old(pages.kernel.groups), pages.kernel.groups, k, Malloc.Asked(size))
  {
    var page, k' := TakePagesFor(pages, heap, Malloc.Asked(size));
    k := k';
    r := MallocIn(pages, heap, size, page);
  }

  /** malloc, with its pages from palloc_get_multiple.  A null result means size 0 or no pages; else the
      kernel pool hands out exactly the pages asked for, if any are needed, and the block lies in them. */
  method Alloc(pages: PageAllocator, heap: Malloc.Heap, size: int) returns (r: Option<int>, ghost k: int)
    requires Sound(pages, heap) && 0 <= size < Malloc.WORD
    modifies heap, pages`mem, pages.kernel`groups, pages.kernel.used.bits
    ensures Sound(pages, heap)
    ensures r.Some? ==> r.value !in old(heap.out) && heap.out == old(heap.out)[r.value := Malloc.Granted(size)]
    ensures r.None? ==> heap.out == old(heap.out)
    ensures r.None? <==> size == 0 || (Malloc.NeedsPages(size, old(heap.free)) && NoPages(old(pages.kernel.used.Bits()), Malloc.Asked(size)))
    ensures if r.Some? && Malloc.NeedsPages(size, old(heap.free))
      then k == PageOf(pages.kernel.base, r.value) && HandedOut(old(pages.kernel.groups), pages.kernel.groups, k, Malloc.Asked(size))
      else pages.kernel.groups == old(pages.kernel.groups)
  {
    var needs := Needs(heap, size);
    k := 0;
    if needs {
      Malloc.GrantedIsAll(size);
      r, k := AllocPages(pages, heap, size);
    } else {
      r := AllocBlock(pages, heap, size);
    }
  }

  /** malloc of a block that is on a free list. */
  method AllocBlock(pages: PageAllocator, heap: Malloc.Heap, size: int) returns (r: Option<int>)
    requires Sound(pages, heap) && 0 <= size < Malloc.WORD && !Malloc.NeedsPages(size, heap.free)
    modifies heap
    ensures Sound(pages, heap) && (r.None? <==> size == 0)
    ensures r.Some? ==> r.value !in old(heap.out) && heap.out == old(heap.out)[r.value := Malloc.Granted(size)]
    ensures r.None? ==> heap.out == old(heap.out)
  {
    r := heap.Malloc(size, None);
    assert unchanged(pages.kernel) && unchanged(pages.kernel.used.bits) && unchanged(pages.user) && unchanged(pages.user.used.bits);
  }

  method GiveBack(pages: PageAllocator, a: int, n: int, ghost spans: map<int, int>)
    requires pages.Valid() && Backed(pages.kernel.base, pages.kernel.groups, spans) && a in spans && spans[a] == n
    modifies pages`mem, pages.kernel`groups, pages.kernel.used.bits
    ensures pages.Valid()
    ensures GivenBack(old(pages.kernel.groups), pages.kernel.groups, (a - pages.kernel.base) / PGSIZE)
    ensures Backed(pages.kernel.base, pages.kernel.groups, spans - {a})
  {
    assert IsGroup(pages.kernel.base, pages.kernel.groups, a, n);
    BackedWithout(pages.kernel.base, pages.kernel.groups, spans, a);
    pages.FreeMultiple(Some(a), n, false);
  }

  method GiveFreed(pages: PageAllocator, gone: bool, a: int, n: int, ghost spans: map<int, int>) returns (ghost k: int)
    requires pages.Valid() && Backed(pages.kernel.base, pages.kernel.groups, spans) && (gone ==> a in spans && spans[a] == n)
    modifies pages`mem, pages.kernel`groups, pages.kernel.used.bits
    ensures pages.Valid() && k == (a - pages.kernel.base) / PGSIZE
    ensures Backed(pages.kernel.base, pages.kernel.groups, if gone then spans - {a} else spans)
    ensures Reclaimed(old(pages.kernel.groups), pages.kernel.groups, gone, k)
  {
    k := (a - pages.kernel.base) / PGSIZE;
    if gone {
      GiveBack(pages, a, n, spans);
    }
  }

  /** free of a block, as far as the heap is concerned: `gone` says whether its `n` pages at `a` are to
      go back. */
  method FreeInHeap(pages: PageAllocator, heap: Malloc.Heap, p: int) returns (gone: bool, a: int, n: int, ghost spans: map<int, int>)
    requires Sound(pages, heap) && p in heap.out
    modifies heap
    ensures pages.Valid() && heap.Valid() && heap.out == old(heap.out) - {p}
    ensures a == Malloc.Base(p) && (gone <==> LastOfPage(old(heap.out), p))
    ensures Backed(pages.kernel.base, pages.kernel.groups, spans) && (gone ==> a in spans && spans[a] == n)
    ensures Malloc.Spans(heap.arenas) == if gone then spans - {a} else spans
  {
    spans := Malloc.Spans(heap.arenas);
    var freed := heap.Free(Some(p));
    assert unchanged(pages.kernel) && unchanged(pages.kernel.used.bits) && unchanged(pages.user) && unchanged(pages.user.used.bits);
    gone, a, n := freed.Some?, Malloc.Base(p), if freed.Some? then freed.value.1 else 0;
  }

  method FreeBlock(pages: PageAllocator, heap: Malloc.Heap, p: int) returns (ghost gone: bool, ghost k: int)
    requires Sound(pages, heap) && p in heap.out
    modifies heap, pages`mem, pages.kernel`groups, pages.kernel.used.bits
    ensures Sound(pages, heap) && heap.out == old(heap.out) - {p}
    ensures k == PageOf(pages.kernel.base, p) && (gone <==> LastOfPage(old(heap.out), p))
    ensures Reclaimed(old(pages.kernel.groups), pages.kernel.groups, gone, k)
  {
    var gone', a, n, spans := FreeInHeap(pages, heap, p);
    gone := gone';
    k := GiveFreed(pages, gone', a, n, spans);
  }

  /** free, with its pages to palloc_free_multiple, whose assertions hold: the group at index `k`, in
      which the block lies, goes back to the kernel pool exactly when none of its blocks is out. */
  method Free(pages: PageAllocator, heap: Malloc.Heap, p: Option<int>) returns (ghost gone: bool, ghost k: int)
    requires Sound(pages, heap) && (p.Some? ==> p.value in heap.out)
    modifies heap, pages`mem, pages.kernel`groups, pages.kernel.used.bits
    ensures Sound(pages, heap) && heap.out == if p.Some? then old(heap.out) - {p.value} else old(heap.out)
    ensures p.Some? ==> k == PageOf(pages.kernel.base, p.value)
    ensures gone <==> p.Some? && LastOfPage(old(heap.out), p.value)
    ensures Reclaimed(old(pages.kernel.groups), pages.kernel.groups, gone, k)
  {
    gone, k := false, 0;
    if p.Some? {
      gone, k := FreeBlock(pages, heap, p.value);
    }
  }
}
