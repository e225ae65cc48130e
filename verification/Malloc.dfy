/** The kernel's block allocator (threads/malloc.c).  Blocks are byte addresses; pages come from a
    page allocator whose answer is a parameter.  A ghost map records every block handed out and not
    yet freed, with how many of the bytes asked for it has room for. */
module Malloc {
  import opened Common
  import opened Seqs

  const PGSIZE := 4096
  const HEADER := 12
  const WORD := 0x1_0000_0000
  const DESCS := 7

  /** Block sizes double from 16 up to, and not including, half a page. */
  function Size(d: nat): (r: int)
    requires d < DESCS
    ensures 16 <= r <= 1024
  {
    [16, 32, 64, 128, 256, 512, 1024][d]
  }

  function PerArena(d: nat): (r: int)
    requires d < DESCS
    ensures r > 0
  {
    (PGSIZE - HEADER) / Size(d)
  }

  /** Sizes start at 16 and double; the next would be half a page.  An arena has as many blocks of its
      size as fit behind the header. */
  lemma {:induction false} DescsFillPage(d: nat)
    requires d < DESCS
    ensures Size(0) == 16 && (d + 1 < DESCS ==> Size(d + 1) == 2 * Size(d)) && (d + 1 == DESCS ==> 2 * Size(d) == PGSIZE / 2)
    ensures HEADER + PerArena(d) * Size(d) <= PGSIZE < HEADER + (PerArena(d) + 1) * Size(d)
  {
    var n, size := PerArena(d), Size(d);
    assert n == (PGSIZE - HEADER) / size;
    assert n * size <= PGSIZE - HEADER < n * size + size;
  }

  datatype Arena = Small(desc: nat, freeCnt: int) | Big(pages: int)

  function Base(p: int): int {
    p - p % PGSIZE
  }

  /** arena_to_block. */
  function BlockAt(a: int, d: nat, i: int): int
    requires d < DESCS
  {
    a + HEADER + i * Size(d)
  }

  function Blocks(a: int, d: nat): set<int>
    requires d < DESCS
  {
    set i | 0 <= i < PerArena(d) :: BlockAt(a, d, i)
  }

  // ----- Blocks within a page -----

  lemma {:induction false} MulLe(x: int, y: int, d: int)
    requires x <= y && d >= 0
    ensures x * d <= y * d
  {
    assert (y - x) * d >= 0;
  }

  /** Every block lies in its page, past the header, and block_to_arena finds the page. */
  lemma {:induction false} BlockInPage(a: int, d: nat, i: int)
    requires d < DESCS && 0 <= i < PerArena(d) && a % PGSIZE == 0
    ensures a + HEADER <= BlockAt(a, d, i) && BlockAt(a, d, i) + Size(d) <= a + PGSIZE
    ensures Base(BlockAt(a, d, i)) == a
  {
    MulLe(0, i, Size(d));
    MulLe(i + 1, PerArena(d), Size(d));
    assert (i + 1) * Size(d) == i * Size(d) + Size(d);
    assert PerArena(d) * Size(d) <= PGSIZE - HEADER;
  }

  /** Different blocks of an arena do not overlap. */
  lemma {:induction false} BlocksApart(a: int, d: nat, i: int, j: int)
    requires d < DESCS && i < j
    ensures BlockAt(a, d, i) + Size(d) <= BlockAt(a, d, j)
  {
    MulLe(i + 1, j, Size(d));
    assert (i + 1) * Size(d) == i * Size(d) + Size(d);
  }

  ghost function FirstBlocks(a: int, d: nat, n: nat): set<int>
    requires d < DESCS
  {
    set i | 0 <= i < n :: BlockAt(a, d, i)
  }

  lemma {:induction false} CountBlocks(a: int, d: nat, n: nat)
    requires d < DESCS
    ensures |FirstBlocks(a, d, n)| == n
  {
    if n > 0 {
      CountBlocks(a, d, n - 1);
      var p := BlockAt(a, d, n - 1);
      forall i | 0 <= i < n - 1 ensures BlockAt(a, d, i) != p {
        BlocksApart(a, d, i, n - 1);
      }
      assert FirstBlocks(a, d, n) == FirstBlocks(a, d, n - 1) + {p};
    }
  }

  // ----- The invariant -----

  function Span(arena: Arena): int {
    if arena.Small? then 1 else arena.pages
  }

  ghost predicate PagesOk(arenas: map<int, Arena>) {
    && (forall a :: a in arenas ==> a > 0 && a % PGSIZE == 0 && Span(arenas[a]) >= 1)
    && (forall a, b :: a in arenas && b in arenas && a < b ==> a + Span(arenas[a]) * PGSIZE <= b)
  }

  /** `p` is a free block of size class `d`. */
  ghost predicate OnFree(arenas: map<int, Arena>, out: map<int, int>, d: nat, p: int)
    requires d < DESCS
  {
    && p !in out && Base(p) in arenas && p in Blocks(Base(p), d)
    && arenas[Base(p)].Small? && arenas[Base(p)].desc == d
  }

  ghost predicate ListOk(arenas: map<int, Arena>, out: map<int, int>, d: nat, list: seq<int>)
    requires d < DESCS
  {
    NoDup(list) && forall p :: p in list ==> OnFree(arenas, out, d, p)
  }

  ghost predicate FreeOk(arenas: map<int, Arena>, out: map<int, int>, free: seq<seq<int>>)
    requires |free| == DESCS
  {
    forall d: nat :: d < DESCS ==> ListOk(arenas, out, d, free[d])
  }

  /** `p` was handed out for `size` bytes, and has room for them. */
  ghost predicate IsOut(arenas: map<int, Arena>, p: int, size: int) {
    && Base(p) in arenas && size > 0
    && match arenas[Base(p)]
       case Small(d, _) => d < DESCS && p in Blocks(Base(p), d) && size <= Size(d)
       case Big(n) => p == Base(p) + HEADER && size + HEADER <= n * PGSIZE
  }

  ghost predicate OutOk(arenas: map<int, Arena>, out: map<int, int>) {
    forall p :: p in out ==> IsOut(arenas, p, out[p])
  }

  /** A small arena's blocks are free or out, and its count of free blocks is exact. */
  ghost predicate ArenaOk(a: int, arena: Arena, out: map<int, int>, free: seq<seq<int>>)
    requires |free| == DESCS
  {
    arena.Small? ==>
      && arena.desc < DESCS
      && arena.freeCnt == |Blocks(a, arena.desc) * Elems(free[arena.desc])|
      && (forall p :: p in Blocks(a, arena.desc) ==> p in free[arena.desc] || p in out)
  }

  ghost predicate ArenasOk(arenas: map<int, Arena>, out: map<int, int>, free: seq<seq<int>>)
    requires |free| == DESCS
  {
    forall a :: a in arenas ==> ArenaOk(a, arenas[a], out, free)
  }

  ghost predicate Core(arenas: map<int, Arena>, out: map<int, int>, free: seq<seq<int>>) {
    |free| == DESCS && PagesOk(arenas) && FreeOk(arenas, out, free) && OutOk(arenas, out) && ArenasOk(arenas, out, free)
  }

  ghost function Bases(ps: set<int>): set<int> {
    set p | p in ps :: Base(p)
  }

  /** The pages of block `p` when it is given back and `out` are the blocks out after that: all of its
      arena, if none of them is in it. */
  ghost function Emptied(arenas: map<int, Arena>, p: int, out: map<int, int>): Option<(int, int)>
    requires Base(p) in arenas
  {
    if Base(p) in Bases(out.Keys) then None else Some((Base(p), Span(arenas[Base(p)])))
  }

  /** The page allocator's promise about `n` pages at `a`: they are nobody else's. */
  ghost predicate Unused(arenas: map<int, Arena>, a: int, n: int) {
    && a > 0 && a % PGSIZE == 0 && n >= 1
    && forall b :: b in arenas ==> a + n * PGSIZE <= b || b + Span(arenas[b]) * PGSIZE <= a
  }

  /** The pages of the arenas. */
  ghost function Spans(arenas: map<int, Arena>): map<int, int> {
    map a | a in arenas :: Span(arenas[a])
  }

  /** The arenas have the same pages as before and, if it is given, the `n` pages at `a`. */
  ghost predicate Grown(arenas: map<int, Arena>, arenas': map<int, Arena>, a: Option<int>, n: int) {
    Spans(arenas') == if a.Some? then Spans(arenas)[a.value := n] else Spans(arenas)
  }

  /** From `before` to `after` exactly the pages `freed` went. */
  ghost predicate Returned(after: map<int, Arena>, before: map<int, Arena>, freed: Option<(int, int)>) {
    if freed.None? then Spans(after) == Spans(before)
    else
      var (a, n) := freed.value;
      a in Spans(before) && Spans(before)[a] == n && Spans(after) == Spans(before) - {a}
  }

  lemma {:induction false} SpansOfUpdate(arenas: map<int, Arena>, a: int, arena: Arena)
    ensures Spans(arenas[a := arena]) == Spans(arenas)[a := Span(arena)]
  {
  }

  lemma {:induction false} SpansOfRemoval(arenas: map<int, Arena>, a: int)
    ensures Spans(arenas - {a}) == Spans(arenas) - {a}
  {
  }

  // ----- Taking and giving back one block -----

  lemma {:induction false} BlockHasOnePage(a: int, b: int, d: nat, e: nat, p: int)
    requires d < DESCS && e < DESCS && a % PGSIZE == 0 && b % PGSIZE == 0 && p in Blocks(a, d) && p in Blocks(b, e)
    ensures a == b
  {
    var i :| 0 <= i < PerArena(d) && p == BlockAt(a, d, i);
    var j :| 0 <= j < PerArena(e) && p == BlockAt(b, e, j);
    BlockInPage(a, d, i);
    BlockInPage(b, e, j);
  }

  lemma {:induction false} BlockBase(a: int, d: nat, p: int)
    requires d < DESCS && a % PGSIZE == 0 && p in Blocks(a, d)
    ensures Base(p) == a && a + HEADER <= p && p + Size(d) <= a + PGSIZE
  {
    var i :| 0 <= i < PerArena(d) && p == BlockAt(a, d, i);
    BlockInPage(a, d, i);
  }

  function Recounted(arenas: map<int, Arena>, a: int, change: int): map<int, Arena>
    requires a in arenas && arenas[a].Small?
  {
    arenas[a := Small(arenas[a].desc, arenas[a].freeCnt + change)]
  }

  lemma {:induction false} RecountGrows(arenas: map<int, Arena>, a: int, change: int)
    requires a in arenas && arenas[a].Small?
    ensures Spans(Recounted(arenas, a, change)) == Spans(arenas)
    ensures Returned(Recounted(arenas, a, change) - {a}, arenas, Some((a, 1)))
  {
    SpansOfUpdate(arenas, a, Small(arenas[a].desc, arenas[a].freeCnt + change));
    SpansOfRemoval(Recounted(arenas, a, change), a);
  }

  lemma {:induction false} RecountKeepsPages(arenas: map<int, Arena>, a: int, change: int)
    requires PagesOk(arenas) && a in arenas && arenas[a].Small?
    ensures PagesOk(Recounted(arenas, a, change))
  {
    assert forall b :: b in arenas ==> Span(Recounted(arenas, a, change)[b]) == Span(arenas[b]);
  }

  lemma {:induction false} RecountKeepsOut(arenas: map<int, Arena>, out: map<int, int>, a: int, change: int)
    requires OutOk(arenas, out) && a in arenas && arenas[a].Small?
    ensures OutOk(Recounted(arenas, a, change), out)
  {
    forall p | p in out ensures IsOut(Recounted(arenas, a, change), p, out[p]) {
      assert IsOut(arenas, p, out[p]);
    }
  }

  lemma {:induction false} OtherArenaOk(a: int, b: int, arena: Arena, out: map<int, int>, out': map<int, int>,
                                        free: seq<seq<int>>, d: nat, list: seq<int>, p: int)
    requires |free| == DESCS && d < DESCS && ArenaOk(b, arena, out, free) && a != b && a % PGSIZE == 0 && b % PGSIZE == 0
    requires p in Blocks(a, d) && Elems(list) - {p} == Elems(free[d]) - {p} && out' - {p} == out - {p}
    ensures ArenaOk(b, arena, out', free[d := list])
  {
    if arena.Small? {
      if p in Blocks(b, arena.desc) {
        BlockHasOnePage(a, b, d, arena.desc, p);
      }
      if arena.desc == d {
        forall q | q in Blocks(b, d) ensures q in list <==> q in free[d] {
          assert q in Elems(list) - {p} <==> q in Elems(free[d]) - {p};
        }
        assert Blocks(b, d) * Elems(list) == Blocks(b, d) * Elems(free[d]);
      }
      forall q | q in Blocks(b, arena.desc) ensures q in out' <==> q in out {
        assert q in out' - {p} <==> q in out - {p};
      }
    }
  }

  lemma {:induction false} TakenArenaOk(a: int, arena: Arena, out: map<int, int>, free: seq<seq<int>>, d: nat, p: int, size: int)
    requires |free| == DESCS && d < DESCS && ArenaOk(a, arena, out, free) && arena.Small? && arena.desc == d
    requires p in Blocks(a, d) && free[d] != [] && p == free[d][0] && NoDup(free[d])
    ensures ArenaOk(a, Small(d, arena.freeCnt - 1), out[p := size], free[d := free[d][1..]])
  {
    PopElems(free[d]);
    assert Blocks(a, d) * Elems(free[d][1..]) == Blocks(a, d) * Elems(free[d]) - {p};
    forall q | q in Blocks(a, d) ensures q in free[d][1..] || q in out[p := size] {
      assert q in free[d] || q in out;
      assert q in free[d] && q != p ==> q in Elems(free[d][1..]);
    }
  }

  lemma {:induction false} TakeKeepsArenas(arenas: map<int, Arena>, out: map<int, int>, free: seq<seq<int>>, d: nat, size: int)
    requires |free| == DESCS && PagesOk(arenas) && ArenasOk(arenas, out, free)
    requires d < DESCS && free[d] != [] && NoDup(free[d]) && OnFree(arenas, out, d, free[d][0])
    ensures var p := free[d][0]; ArenasOk(Recounted(arenas, Base(p), -1), out[p := size], free[d := free[d][1..]])
  {
    var p := free[d][0];
    var a := Base(p);
    var arenas', out', list := Recounted(arenas, a, -1), out[p := size], free[d][1..];
    PopElems(free[d]);
    forall b | b in arenas' ensures ArenaOk(b, arenas'[b], out', free[d := list]) {
      assert ArenaOk(b, arenas[b], out, free);
      if b == a {
        TakenArenaOk(a, arenas[a], out, free, d, p, size);
      } else {
        assert out' - {p} == out - {p};
        OtherArenaOk(a, b, arenas[b], out, out', free, d, list, p);
      }
    }
  }

  lemma {:induction false} TakeKeepsOut(arenas: map<int, Arena>, out: map<int, int>, d: nat, p: int, size: int)
    requires OutOk(arenas, out) && d < DESCS && OnFree(arenas, out, d, p) && 0 < size <= Size(d)
    ensures OutOk(Recounted(arenas, Base(p), -1), out[p := size])
  {
    RecountKeepsOut(arenas, out, Base(p), -1);
  }

  lemma {:induction false} TakeKeepsCore(arenas: map<int, Arena>, out: map<int, int>, free: seq<seq<int>>, d: nat, size: int)
    requires Core(arenas, out, free) && d < DESCS && free[d] != [] && 0 < size <= Size(d)
    ensures OnFree(arenas, out, d, free[d][0])
    ensures var p := free[d][0]; Core(Recounted(arenas, Base(p), -1), out[p := size], free[d := free[d][1..]])
  {
    var p := free[d][0];
    assert ListOk(arenas, out, d, free[d]) && OnFree(arenas, out, d, p);
    RecountKeepsPages(arenas, Base(p), -1);
    TakeKeepsOut(arenas, out, d, p, size);
    TakeKeepsFree(arenas, out, free, d, size);
    TakeKeepsArenas(arenas, out, free, d, size);
  }

  lemma {:induction false} TakeKeepsFree(arenas: map<int, Arena>, out: map<int, int>, free: seq<seq<int>>, d: nat, size: int)
    requires Core(arenas, out, free) && d < DESCS && free[d] != [] && OnFree(arenas, out, d, free[d][0])
    ensures var p := free[d][0]; FreeOk(Recounted(arenas, Base(p), -1), out[p := size], free[d := free[d][1..]])
  {
    var p := free[d][0];
    var arenas', out', free' := Recounted(arenas, Base(p), -1), out[p := size], free[d := free[d][1..]];
    assert ListOk(arenas, out, d, free[d]);
    PopElems(free[d]);
    forall e: nat | e < DESCS ensures ListOk(arenas', out', e, free'[e]) {
      assert ListOk(arenas, out, e, free[e]);
      forall q | q in free'[e] ensures OnFree(arenas', out', e, q) {
        assert OnFree(arenas, out, e, q);
        assert q in Elems(free[d][1..]) || e != d;
      }
    }
  }

  // ----- Giving a block back -----

  lemma {:induction false} GiveKeepsFree(arenas: map<int, Arena>, out: map<int, int>, free: seq<seq<int>>, d: nat, p: int)
    requires |free| == DESCS && FreeOk(arenas, out, free) && d < DESCS && p in out
    requires Base(p) in arenas && arenas[Base(p)].Small? && arenas[Base(p)].desc == d && p in Blocks(Base(p), d)
    ensures p !in free[d] && FreeOk(Recounted(arenas, Base(p), 1), out - {p}, free[d := [p] + free[d]])
  {
    var arenas', out', free' := Recounted(arenas, Base(p), 1), out - {p}, free[d := [p] + free[d]];
    assert ListOk(arenas, out, d, free[d]);
    assert p in free[d] ==> OnFree(arenas, out, d, p);
    PushElems(p, free[d]);
    forall e: nat | e < DESCS ensures ListOk(arenas', out', e, free'[e]) {
      assert ListOk(arenas, out, e, free[e]);
      forall q | q in free'[e] ensures OnFree(arenas', out', e, q) {
        assert q in free[e] || (e == d && q == p);
        assert q in free[e] ==> OnFree(arenas, out, e, q);
      }
    }
  }

  lemma {:induction false} GivenArenaOk(a: int, arena: Arena, out: map<int, int>, free: seq<seq<int>>, d: nat, p: int)
    requires |free| == DESCS && d < DESCS && ArenaOk(a, arena, out, free) && arena.Small? && arena.desc == d
    requires p in Blocks(a, d) && p !in free[d] && NoDup(free[d])
    ensures ArenaOk(a, Small(d, arena.freeCnt + 1), out - {p}, free[d := [p] + free[d]])
  {
    PushElems(p, free[d]);
    assert Blocks(a, d) * Elems([p] + free[d]) == Blocks(a, d) * Elems(free[d]) + {p};
    assert p !in Blocks(a, d) * Elems(free[d]);
    forall q | q in Blocks(a, d) ensures q in [p] + free[d] || q in out - {p} {
      assert q in free[d] || q in out;
    }
  }

  lemma {:induction false} GiveKeepsArenas(arenas: map<int, Arena>, out: map<int, int>, free: seq<seq<int>>, d: nat, p: int)
    requires |free| == DESCS && PagesOk(arenas) && ArenasOk(arenas, out, free) && d < DESCS && p !in free[d] && NoDup(free[d])
    requires Base(p) in arenas && arenas[Base(p)].Small? && arenas[Base(p)].desc == d && p in Blocks(Base(p), d)
    ensures ArenasOk(Recounted(arenas, Base(p), 1), out - {p}, free[d := [p] + free[d]])
  {
    var a := Base(p);
    var arenas', out', list := Recounted(arenas, a, 1), out - {p}, [p] + free[d];
    PushElems(p, free[d]);
    forall b | b in arenas' ensures ArenaOk(b, arenas'[b], out', free[d := list]) {
      assert ArenaOk(b, arenas[b], out, free);
      if b == a {
        GivenArenaOk(a, arenas[a], out, free, d, p);
      } else {
        assert out' - {p} == out - {p};
        OtherArenaOk(a, b, arenas[b], out, out', free, d, list, p);
      }
    }
  }

  lemma {:induction false} GiveKeepsCore(arenas: map<int, Arena>, out: map<int, int>, free: seq<seq<int>>, d: nat, p: int)
    requires Core(arenas, out, free) && d < DESCS && p in out
    requires Base(p) in arenas && arenas[Base(p)].Small? && arenas[Base(p)].desc == d
    ensures Core(Recounted(arenas, Base(p), 1), out - {p}, free[d := [p] + free[d]])
  {
    assert IsOut(arenas, p, out[p]);
    assert ListOk(arenas, out, d, free[d]);
    RecountKeepsPages(arenas, Base(p), 1);
    RecountKeepsOut(arenas, out, Base(p), 1);
    GiveKeepsFree(arenas, out, free, d, p);
    GiveKeepsArenas(arenas, out, free, d, p);
  }

  // ----- Arenas come and go -----

  lemma {:induction false} AllFree(a: int, arena: Arena, out: map<int, int>, free: seq<seq<int>>)
    requires |free| == DESCS && ArenaOk(a, arena, out, free) && arena.Small?
    ensures arena.freeCnt <= PerArena(arena.desc)
    ensures arena.freeCnt == PerArena(arena.desc) <==> Blocks(a, arena.desc) <= Elems(free[arena.desc])
  {
    var d := arena.desc;
    CountBlocks(a, d, PerArena(d));
    assert Blocks(a, d) == FirstBlocks(a, d, PerArena(d));
    SubsetSize(Blocks(a, d) * Elems(free[d]), Blocks(a, d));
  }

  lemma {:induction false} SubsetSize<T>(x: set<T>, y: set<T>)
    requires x <= y
    ensures |x| <= |y| && (|x| == |y| <==> x == y)
  {
    assert |y| == |x| + |y - x|;
  }

  /** The blocks of an arena, in address order. */
  ghost function BlockList(a: int, d: nat, n: nat): seq<int>
    requires d < DESCS
  {
    if n == 0 then [] else BlockList(a, d, n - 1) + [BlockAt(a, d, n - 1)]
  }

  lemma {:induction false} BlockListElems(a: int, d: nat, n: nat)
    requires d < DESCS
    ensures Elems(BlockList(a, d, n)) == FirstBlocks(a, d, n) && NoDup(BlockList(a, d, n))
  {
    if n > 0 {
      BlockListElems(a, d, n - 1);
      var s, p := BlockList(a, d, n - 1), BlockAt(a, d, n - 1);
      forall q | q in s ensures q != p {
        assert q in Elems(s);
        var i :| 0 <= i < n - 1 && q == BlockAt(a, d, i);
        BlocksApart(a, d, i, n - 1);
      }
      assert Elems(s + [p]) == Elems(s) + {p};
    }
  }

  lemma {:induction false} NewPage(arenas: map<int, Arena>, a: int, n: int, arena: Arena)
    requires PagesOk(arenas) && Unused(arenas, a, n) && Span(arena) == n
    ensures a !in arenas && PagesOk(arenas[a := arena])
  {
    if a in arenas {
      MulLe(1, Span(arenas[a]), PGSIZE);
    }
    var arenas' := arenas[a := arena];
    forall b, c | b in arenas' && c in arenas' && b < c ensures b + Span(arenas'[b]) * PGSIZE <= c {
      if b == a {
        MulLe(1, Span(arenas[c]), PGSIZE);
      } else if c == a {
        MulLe(1, n, PGSIZE);
      }
    }
  }

  lemma {:induction false} NewArenaKeepsFree(arenas: map<int, Arena>, out: map<int, int>, free: seq<seq<int>>, a: int, d: nat)
    requires Core(arenas, out, free) && d < DESCS && a !in arenas && a % PGSIZE == 0 && free[d] == []
    ensures FreeOk(arenas[a := Small(d, PerArena(d))], out, free[d := BlockList(a, d, PerArena(d))])
  {
    var arenas', list := arenas[a := Small(d, PerArena(d))], BlockList(a, d, PerArena(d));
    var free' := free[d := list];
    BlockListElems(a, d, PerArena(d));
    forall e: nat | e < DESCS ensures ListOk(arenas', out, e, free'[e]) {
      assert ListOk(arenas, out, e, free[e]);
      forall q | q in free'[e] ensures OnFree(arenas', out, e, q) {
        if e == d {
          assert q in Elems(list);
          BlockBase(a, d, q);
          assert q in out ==> IsOut(arenas, q, out[q]);
        } else {
          assert OnFree(arenas, out, e, q);
        }
      }
    }
  }

  lemma {:induction false} NewArenaKeepsArenas(arenas: map<int, Arena>, out: map<int, int>, free: seq<seq<int>>, a: int, d: nat)
    requires Core(arenas, out, free) && d < DESCS && a !in arenas && a % PGSIZE == 0 && free[d] == []
    ensures ArenasOk(arenas[a := Small(d, PerArena(d))], out, free[d := BlockList(a, d, PerArena(d))])
  {
    var arenas', list := arenas[a := Small(d, PerArena(d))], BlockList(a, d, PerArena(d));
    BlockListElems(a, d, PerArena(d));
    CountBlocks(a, d, PerArena(d));
    forall b | b in arenas' ensures ArenaOk(b, arenas'[b], out, free[d := list]) {
      if b == a {
        assert Blocks(a, d) * Elems(list) == FirstBlocks(a, d, PerArena(d));
        assert forall q :: q in Blocks(a, d) ==> q in Elems(list);
      } else {
        assert ArenaOk(b, arenas[b], out, free);
        if arenas[b].Small? && arenas[b].desc == d {
          forall q | q in Blocks(b, d) ensures q !in Elems(list) {
            BlockBase(b, d, q);
            if q in Blocks(a, d) {
              BlockHasOnePage(a, b, d, d, q);
            }
          }
          assert Blocks(b, d) * Elems(list) == {} == Blocks(b, d) * Elems(free[d]);
        }
      }
    }
  }

  lemma {:induction false} NewArenaKeepsCore(arenas: map<int, Arena>, out: map<int, int>, free: seq<seq<int>>, a: int, d: nat)
    requires Core(arenas, out, free) && d < DESCS && Unused(arenas, a, 1) && free[d] == []
    ensures a !in arenas && Core(arenas[a := Small(d, PerArena(d))], out, free[d := BlockList(a, d, PerArena(d))])
  {
    NewPage(arenas, a, 1, Small(d, PerArena(d)));
    NewArenaKeepsFree(arenas, out, free, a, d);
    NewArenaKeepsArenas(arenas, out, free, a, d);
    forall p | p in out ensures IsOut(arenas[a := Small(d, PerArena(d))], p, out[p]) {
      assert IsOut(arenas, p, out[p]);
    }
  }

  lemma {:induction false} DropKeepsCore(arenas: map<int, Arena>, out: map<int, int>, free: seq<seq<int>>, a: int, list: seq<int>)
    requires Core(arenas, out, free) && a in arenas && arenas[a].Small? && arenas[a].desc < DESCS
    requires Blocks(a, arenas[a].desc) <= Elems(free[arenas[a].desc])
    requires Elems(list) == Elems(free[arenas[a].desc]) - Blocks(a, arenas[a].desc) && NoDup(list)
    ensures Core(arenas - {a}, out, free[arenas[a].desc := list])
  {
    var d := arenas[a].desc;
    var arenas', free' := arenas - {a}, free[d := list];
    assert ListOk(arenas, out, d, free[d]);
    forall p | p in out ensures IsOut(arenas', p, out[p]) {
      assert IsOut(arenas, p, out[p]);
      assert p in Elems(free[d]) ==> OnFree(arenas, out, d, p);
    }
    forall e: nat | e < DESCS ensures ListOk(arenas', out, e, free'[e]) {
      assert ListOk(arenas, out, e, free[e]);
      forall q | q in free'[e] ensures OnFree(arenas', out, e, q) {
        assert e == d ==> q in Elems(list);
        assert OnFree(arenas, out, e, q);
      }
    }
    forall b | b in arenas' ensures ArenaOk(b, arenas'[b], out, free') {
      DropKeepsOther(a, b, arenas[b], out, free, d, list);
    }
  }

  lemma {:induction false} DropKeepsOther(a: int, b: int, arena: Arena, out: map<int, int>, free: seq<seq<int>>, d: nat, list: seq<int>)
    requires |free| == DESCS && d < DESCS && ArenaOk(b, arena, out, free) && a != b && a % PGSIZE == 0 && b % PGSIZE == 0
    requires Elems(list) == Elems(free[d]) - Blocks(a, d)
    ensures ArenaOk(b, arena, out, free[d := list])
  {
    if arena.Small? && arena.desc == d {
      forall q | q in Blocks(b, d) ensures q in list <==> q in free[d] {
        if q in Blocks(a, d) {
          BlockHasOnePage(a, b, d, d, q);
        }
        assert q in Elems(list) <==> q in Elems(free[d]);
      }
      assert Blocks(b, d) * Elems(list) == Blocks(b, d) * Elems(free[d]);
    }
  }

  // ----- Big blocks -----

  lemma {:induction false} TakeBigKeepsCore(arenas: map<int, Arena>, out: map<int, int>, free: seq<seq<int>>, a: int, n: int, size: int)
    requires Core(arenas, out, free) && Unused(arenas, a, n) && 0 < size && size + HEADER <= n * PGSIZE
    ensures a !in arenas && a + HEADER !in out && Core(arenas[a := Big(n)], out[a + HEADER := size], free)
  {
    NewPage(arenas, a, n, Big(n));
    var p := a + HEADER;
    var arenas', out' := arenas[a := Big(n)], out[p := size];
    assert Base(p) == a;
    assert p in out ==> IsOut(arenas, p, out[p]);
    forall q | q in out' ensures IsOut(arenas', q, out'[q]) {
      assert q != p ==> IsOut(arenas, q, out[q]);
    }
    forall e: nat | e < DESCS ensures ListOk(arenas', out', e, free[e]) {
      assert ListOk(arenas, out, e, free[e]);
      forall q | q in free[e] ensures OnFree(arenas', out', e, q) {
        assert OnFree(arenas, out, e, q);
      }
    }
    forall b | b in arenas' ensures ArenaOk(b, arenas'[b], out', free) {
      assert b != a ==> ArenaOk(b, arenas[b], out, free);
    }
  }

  lemma {:induction false} GiveBigKeepsCore(arenas: map<int, Arena>, out: map<int, int>, free: seq<seq<int>>, p: int)
    requires Core(arenas, out, free) && p in out && Base(p) in arenas && arenas[Base(p)].Big?
    ensures Core(arenas - {Base(p)}, out - {p}, free)
  {
    var a := Base(p);
    var arenas', out' := arenas - {a}, out - {p};
    assert IsOut(arenas, p, out[p]);
    forall q | q in out' ensures IsOut(arenas', q, out'[q]) {
      assert IsOut(arenas, q, out[q]);
    }
    forall e: nat | e < DESCS ensures ListOk(arenas', out', e, free[e]) {
      assert ListOk(arenas, out, e, free[e]);
      forall q | q in free[e] ensures OnFree(arenas', out', e, q) {
        assert OnFree(arenas, out, e, q);
      }
    }
    forall b | b in arenas' ensures ArenaOk(b, arenas'[b], out', free) {
      assert ArenaOk(b, arenas[b], out, free);
      if arenas[b].Small? && p in Blocks(b, arenas[b].desc) {
        BlockBase(b, arenas[b].desc, p);
      }
    }
  }

  // ----- Which pages are held -----

  lemma {:induction false} BasesWith(ps: set<int>, p: int)
    ensures Bases(ps + {p}) == Bases(ps) + {Base(p)}
  {
    assert Base(p) in Bases(ps + {p});
    forall a | a in Bases(ps) ensures a in Bases(ps + {p}) {
      var q :| q in ps && Base(q) == a;
      assert q in ps + {p};
    }
  }

  lemma {:induction false} BasesWithout(ps: set<int>, p: int)
    requires p in ps
    ensures Bases(ps) == Bases(ps - {p}) + {Base(p)}
  {
    BasesWith(ps - {p}, p);
    assert ps - {p} + {p} == ps;
  }

  /** A small arena has a block out exactly while not all of its blocks are free. */
  lemma {:induction false} InUse(arenas: map<int, Arena>, out: map<int, int>, free: seq<seq<int>>, a: int)
    requires Core(arenas, out, free) && a in arenas && arenas[a].Small?
    ensures arenas[a].desc < DESCS && arenas[a].freeCnt <= PerArena(arenas[a].desc)
    ensures a in Bases(out.Keys) <==> arenas[a].freeCnt < PerArena(arenas[a].desc)
    ensures arenas[a].freeCnt == PerArena(arenas[a].desc) ==> Blocks(a, arenas[a].desc) <= Elems(free[arenas[a].desc])
  {
    assert ArenaOk(a, arenas[a], out, free);
    AllFree(a, arenas[a], out, free);
    var d := arenas[a].desc;
    assert ListOk(arenas, out, d, free[d]);
    if a in Bases(out.Keys) {
      var p :| p in out.Keys && Base(p) == a;
      assert IsOut(arenas, p, out[p]);
      assert p in Elems(free[d]) ==> OnFree(arenas, out, d, p);
    }
    if arenas[a].freeCnt < PerArena(d) {
      var p :| p in Blocks(a, d) && p !in Elems(free[d]);
      assert p in out.Keys;
      BlockBase(a, d, p);
    }
  }

  /** After a block went back, the pages held are those with a block out, and perhaps its own. */
  lemma {:induction false} StillHeld(arenas: map<int, Arena>, arenas': map<int, Arena>, out: map<int, int>, out': map<int, int>,
                                     free: seq<seq<int>>, p: int)
    requires arenas.Keys == Bases(out.Keys) && p in out && out' == out - {p}
    requires Base(p) in arenas && arenas[Base(p)].Small? && arenas' == Recounted(arenas, Base(p), 1) && Core(arenas', out', free)
    ensures var a := Base(p); var d := arenas[a].desc;
      && d < DESCS && arenas'.Keys == Bases(out'.Keys) + {a}
      && (a in Bases(out'.Keys) <==> arenas'[a].freeCnt < PerArena(d))
      && (arenas'[a].freeCnt >= PerArena(d) ==> Blocks(a, d) <= Elems(free[d]))
  {
    BasesWithout(out.Keys, p);
    assert out'.Keys == out.Keys - {p} && arenas'.Keys == arenas.Keys;
    InUse(arenas', out', free, Base(p));
  }

  // ----- Sizes -----

  /** The page count that malloc computes for a big block, in 32-bit arithmetic. */
  function PageCount(size: int): int {
    ((size + HEADER) % WORD + PGSIZE - 1) % WORD / PGSIZE
  }

  /** The pages hold the block and its header exactly when that arithmetic does not wrap around. */
  lemma {:induction false} PageCountIsEnough(size: int)
    requires 0 <= size < WORD
    ensures PageCount(size) * PGSIZE >= size + HEADER <==> size + HEADER + PGSIZE - 1 < WORD
  {
    if size + HEADER < WORD {
      assert (size + HEADER) % WORD == size + HEADER;
    } else {
      assert (size + HEADER) % WORD == size + HEADER - WORD;
    }
  }

  /** The pages that malloc asks for. */
  function Asked(size: int): int {
    if size > 1024 then PageCount(size) else 1
  }

  predicate IsClass(d: nat, size: int)
    requires d < DESCS
  {
    size <= Size(d) && forall e: nat :: e < d ==> Size(e) < size
  }

  /** malloc turns to the page allocator: no class is large enough, or the list of the smallest that
      is has no block. */
  predicate NeedsPages(size: int, free: seq<seq<int>>)
    requires |free| == DESCS
  {
    size > 0 && forall d: nat :: d < DESCS && IsClass(d, size) ==> free[d] == []
  }

  /** How many of the bytes asked for a block handed out has room for. */
  function Granted(size: int): int {
    if size > 1024 && size + HEADER > PageCount(size) * PGSIZE then PageCount(size) * PGSIZE - HEADER else size
  }

  /** A block is too small exactly when the size is within 11 bytes of 2^32.  From a page and a header
      short of that on, no pages are asked for and none are given. */
  lemma {:induction false} GrantedIsAll(size: int)
    requires 0 < size < WORD
    ensures Asked(size) < 1 <==> WORD - HEADER - PGSIZE + 1 <= size <= WORD - HEADER
    ensures Asked(size) >= 1 ==> (Granted(size) == size <==> size <= WORD - HEADER) && Granted(size) > 0
    ensures size > 1024 && Asked(size) >= 1 ==> Granted(size) + HEADER <= Asked(size) * PGSIZE
  {
    if size + HEADER < WORD {
      assert (size + HEADER) % WORD == size + HEADER;
    } else {
      assert (size + HEADER) % WORD == size + HEADER - WORD;
    }
  }

  /** Such a size: one page of 4084 bytes past its header is handed out for 0xfffffff5 bytes. */
  lemma {:induction false} TooSmall()
    ensures Asked(0xffff_fff5) == 1 && Granted(0xffff_fff5) == PGSIZE - HEADER < 0xffff_fff5
  {
    assert (0xffff_fff5 + HEADER) % WORD == 1;
  }

  /** malloc_init's loop fills in the descriptors. */
  method InitDescs() returns (sizes: seq<int>, counts: seq<int>)
    ensures |sizes| == |counts| == DESCS
    ensures forall d: nat :: d < DESCS ==> sizes[d] == Size(d) && counts[d] == PerArena(d)
  {
    sizes, counts := [], [];
    var blockSize := 16;
    while blockSize < PGSIZE / 2
      invariant |sizes| == |counts| <= DESCS && blockSize == if |sizes| < DESCS then Size(|sizes|) else 2048
      invariant forall d: nat :: d < |sizes| ==> sizes[d] == Size(d) && counts[d] == PerArena(d)
      decreases DESCS - |sizes|
    {
      counts := counts + [(PGSIZE - HEADER) / blockSize];
      sizes := sizes + [blockSize];
      blockSize := blockSize * 2;
    }
  }

  /** Takes every block of arena `a` off a free list. */
  method Unlink(list: seq<int>, a: int, d: nat) returns (r: seq<int>)
    requires d < DESCS && NoDup(list)
    ensures NoDup(r) && Elems(r) == Elems(list) - Blocks(a, d)
  {
    r := list;
    var i := 0;
    while i < PerArena(d)
      invariant 0 <= i <= PerArena(d) && NoDup(r) && Elems(r) == Elems(list) - FirstBlocks(a, d, i)
    {
      var p := BlockAt(a, d, i);
      WithoutIsLess(r, p);
      assert FirstBlocks(a, d, i + 1) == FirstBlocks(a, d, i) + {p};
      r := Without(r, p);
      i := i + 1;
    }
    assert Blocks(a, d) == FirstBlocks(a, d, i);
  }

  // ----- The allocator -----

  class Heap {
    var arenas: map<int, Arena>
    var free: seq<seq<int>>
    ghost var out: map<int, int>

    /** The structure is sound, and the pages held are those with a block out. */
    ghost predicate Valid()
      reads this
    {
      Core(arenas, out, free) && arenas.Keys == Bases(out.Keys)
    }

    constructor ()
      ensures Valid() && out == map[]
    {
      arenas, free, out := map[], [[], [], [], [], [], [], []], map[];
    }

    /** The smallest class that holds `size` bytes, or DESCS. */
    method FindDesc(size: int) returns (d: nat)
      ensures d <= DESCS && (forall e: nat :: e < d ==> Size(e) < size) && (d < DESCS ==> size <= Size(d))
    {
      d := 0;
      while d < DESCS && Size(d) < size
        invariant d <= DESCS && forall e: nat :: e < d ==> Size(e) < size
      {
        d := d + 1;
      }
    }

    /** Makes page `a` an arena and puts its blocks on the free list. */
    method AddArena(a: int, d: nat)
      requires Core(arenas, out, free) && d < DESCS && free[d] == [] && Unused(arenas, a, 1)
      modifies this`arenas, this`free
      ensures arenas == old(arenas)[a := Small(d, PerArena(d))] && a !in old(arenas)
      ensures Core(arenas, out, free) && |free| == DESCS && free[d] == BlockList(a, d, PerArena(d))
    {
      NewArenaKeepsCore(arenas, out, free, a, d);
      arenas := arenas[a := Small(d, PerArena(d))];
      var i := 0;
      while i < PerArena(d)
        invariant 0 <= i <= PerArena(d) && free == old(free)[d := BlockList(a, d, i)]
        invariant arenas == old(arenas)[a := Small(d, PerArena(d))]
      {
        free := free[d := free[d] + [BlockAt(a, d, i)]];
        i := i + 1;
      }
    }

    /** Pops a block off the free list. */
    method Take(d: nat, size: int) returns (p: int)
      requires Core(arenas, out, free) && d < DESCS && free[d] != [] && 0 < size <= Size(d)
      modifies this
      ensures Core(arenas, out, free) && p == old(free)[d][0] && p !in old(out)
      ensures out == old(out)[p := size] && Base(p) in arenas
      ensures arenas.Keys == old(arenas).Keys && Spans(arenas) == Spans(old(arenas))
    {
      TakeKeepsCore(arenas, out, free, d, size);
      RecountGrows(arenas, Base(free[d][0]), -1);
      p := free[d][0];
      free := free[d := free[d][1..]];
      arenas := Recounted(arenas, Base(p), -1);
      out := out[p := size];
    }

    /** A block too big for any class gets pages of its own. */
    method TakeBig(a: int, n: int, size: int) returns (p: int)
      requires Valid() && Unused(arenas, a, n) && 0 < size && size + HEADER <= n * PGSIZE
      modifies this
      ensures Valid() && p !in old(out) && out == old(out)[p := size] && Grown(old(arenas), arenas, Some(a), n)
      ensures Base(p) == a
    {
      TakeBigKeepsCore(arenas, out, free, a, n, size);
      BasesWith(out.Keys, a + HEADER);
      SpansOfUpdate(arenas, a, Big(n));
      arenas := arenas[a := Big(n)];
      p := a + HEADER;
      out := out[p := size];
      assert out.Keys == old(out).Keys + {p} && arenas.Keys == old(arenas).Keys + {a};
    }

    method TakeSmall(d: nat, size: int, page: Option<int>) returns (r: Option<int>)
      requires Valid() && d < DESCS && 0 < size <= Size(d) && (page.Some? ==> Unused(arenas, page.value, 1))
      modifies this
      ensures Valid()
      ensures r.Some? ==> r.value !in old(out) && out == old(out)[r.value := size]
      ensures r.None? <==> old(free)[d] == [] && page.None?
      ensures r.None? ==> unchanged(this)
      ensures r.Some? ==> Grown(old(arenas), arenas, if old(free)[d] == [] then page else None, 1)
      ensures r.Some? && old(free)[d] == [] ==> page == Some(Base(r.value))
    {
      if free[d] == [] {
        if page.None? {
          return None;
        }
        SpansOfUpdate(arenas, page.value, Small(d, PerArena(d)));
        AddArena(page.value, d);
        FirstBlockPage(page.value, d);
      } else {
        FrontPage(arenas, out, free, d);
      }
      assert arenas.Keys == old(arenas).Keys + {Base(free[d][0])};
      var p := Take(d, size);
      BasesWith(old(out).Keys, p);
      assert out.Keys == old(out).Keys + {p};
      return Some(p);
    }

    /** malloc.  `page` is what the page allocator answers, if it is asked: it never gives 0 pages. */
    method Malloc(size: int, page: Option<int>) returns (r: Option<int>)
      requires Valid() && 0 <= size < WORD
      requires page.Some? ==> Unused(arenas, page.value, Asked(size))
      modifies this
      ensures Valid()
      ensures r.Some? ==> size > 0 && r.value !in old(out) && out == old(out)[r.value := Granted(size)]
      ensures r.Some? ==> (Granted(size) == size <==> size <= WORD - HEADER)
      ensures r.None? <==> size == 0 || (NeedsPages(size, old(free)) && page.None?)
      ensures r.None? ==> unchanged(this)
      ensures r.Some? ==> Grown(old(arenas), arenas, if NeedsPages(size, old(free)) then page else None, Asked(size))
      ensures r.Some? && NeedsPages(size, old(free)) ==> page == Some(Base(r.value))
    {
      if size == 0 {
        return None;
      }
      var d := FindDesc(size);
      if d < DESCS {
        r := TakeSmall(d, size, page);
      } else if page.None? {
        r := None;
      } else {
        assert Size(6) < size;
        GrantedIsAll(size);
        var p := TakeBig(page.value, PageCount(size), Granted(size));
        r := Some(p);
      }
    }

    method DropArena(a: int, d: nat)
      requires Core(arenas, out, free) && a in arenas && arenas[a].Small? && d == arenas[a].desc && d < DESCS
      requires Blocks(a, d) <= Elems(free[d])
      modifies this`arenas, this`free
      ensures Core(arenas, out, free) && arenas == old(arenas) - {a}
    {
      assert ListOk(arenas, out, d, free[d]);
      var list := Unlink(free[d], a, d);
      DropKeepsCore(arenas, out, free, a, list);
      free := free[d := list];
      arenas := arenas - {a};
    }

    /** Puts block `p` back on its free list. */
    method Give(p: int, d: nat)
      requires Core(arenas, out, free) && p in out && Base(p) in arenas
      requires arenas[Base(p)].Small? && arenas[Base(p)].desc == d && d < DESCS
      modifies this
      ensures Core(arenas, out, free) && out == old(out) - {p} && arenas == Recounted(old(arenas), Base(p), 1)
    {
      GiveKeepsCore(arenas, out, free, d, p);
      free := free[d := [p] + free[d]];
      arenas := Recounted(arenas, Base(p), 1);
      out := out - {p};
    }

    /** Gives `p` back; `gone` says whether that was the last block of its page that was out. */
    method GiveAndCount(p: int, d: nat) returns (gone: bool)
      requires Valid() && p in out && Base(p) in arenas
      requires arenas[Base(p)].Small? && arenas[Base(p)].desc == d && d < DESCS
      modifies this
      ensures Core(arenas, out, free) && out == old(out) - {p} && arenas == Recounted(old(arenas), Base(p), 1)
      ensures arenas.Keys == Bases(out.Keys) + {Base(p)} && (gone <==> Base(p) !in Bases(out.Keys))
      ensures gone ==> Blocks(Base(p), d) <= Elems(free[d])
    {
      Give(p, d);
      StillHeld(old(arenas), arenas, old(out), out, free, p);
      gone := arenas[Base(p)].freeCnt >= PerArena(d);
    }

    method FreeSmall(p: int, d: nat) returns (freed: Option<(int, int)>)
      requires Valid() && p in out && Base(p) in arenas
      requires arenas[Base(p)].Small? && arenas[Base(p)].desc == d && d < DESCS
      modifies this
      ensures Valid() && out == old(out) - {p} && Returned(arenas, old(arenas), freed)
      ensures freed == if Base(p) in Bases(out.Keys) then None else Some((Base(p), 1))
    {
      RecountGrows(arenas, Base(p), 1);
      var gone := GiveAndCount(p, d);
      if gone {
        DropArena(Base(p), d);
        return Some((Base(p), 1));
      }
      return None;
    }

    /** free.  `freed` are the pages given back to the page allocator, which happens exactly when
        no block of theirs is out any more. */
    method Free(p: Option<int>) returns (freed: Option<(int, int)>)
      requires Valid() && (p.Some? ==> p.value in out)
      modifies this
      ensures Valid()
      ensures p.None? ==> unchanged(this) && freed == None
      ensures p.Some? ==> out == old(out) - {p.value} && Base(p.value) in old(arenas)
      ensures p.Some? ==> Returned(arenas, old(arenas), freed)
      ensures p.Some? ==> freed == Emptied(old(arenas), p.value, out)
    {
      if p.None? {
        return None;
      }
      assert IsOut(arenas, p.value, out[p.value]);
      var a := Base(p.value);
      match arenas[a]
      case Big(n) =>
        FreeBig(p.value);
        freed := Some((a, n));
      case Small(d, _) =>
        freed := FreeSmall(p.value, d);
    }

    method FreeBig(p: int)
      requires Valid() && p in out && Base(p) in arenas && arenas[Base(p)].Big?
      modifies this
      ensures Valid() && out == old(out) - {p} && Base(p) !in Bases(out.Keys)
      ensures Returned(arenas, old(arenas), Some((Base(p), old(arenas)[Base(p)].pages)))
    {
      GiveBigKeepsCore(arenas, out, free, p);
      BasesWithout(out.Keys, p);
      assert IsOut(arenas, p, out[p]);
      var a := Base(p);
      forall q | q in out && q != p ensures Base(q) != a {
        assert IsOut(arenas, q, out[q]);
      }
      SpansOfRemoval(arenas, a);
      arenas := arenas - {a};
      out := out - {p};
      assert out.Keys == old(out).Keys - {p};
    }
  }

  // ----- What callers may rely on -----

  lemma {:induction false} SamePageApart(a: int, d: nat, p: int, q: int)
    requires d < DESCS && p in Blocks(a, d) && q in Blocks(a, d) && p < q
    ensures p + Size(d) <= q
  {
    var i :| 0 <= i < PerArena(d) && p == BlockAt(a, d, i);
    var j :| 0 <= j < PerArena(d) && q == BlockAt(a, d, j);
    if i < j {
      BlocksApart(a, d, i, j);
    } else if j < i {
      BlocksApart(a, d, j, i);
    }
  }

  /** A block handed out lies past the header of its own pages and has the room asked for. */
  lemma {:induction false} OutstandingHasRoom(arenas: map<int, Arena>, out: map<int, int>, p: int)
    requires PagesOk(arenas) && OutOk(arenas, out) && p in out
    ensures Base(p) in arenas && Base(p) + HEADER <= p && p + out[p] <= Base(p) + Span(arenas[Base(p)]) * PGSIZE
  {
    assert IsOut(arenas, p, out[p]);
    if arenas[Base(p)].Small? {
      BlockBase(Base(p), arenas[Base(p)].desc, p);
    }
  }

  lemma {:induction false} BaseIsMonotone(p: int, q: int)
    requires p < q
    ensures Base(p) <= Base(q)
  {
  }

  /** Two blocks handed out never overlap. */
  lemma {:induction false} OutstandingAreDisjoint(arenas: map<int, Arena>, out: map<int, int>, free: seq<seq<int>>, p: int, q: int)
    requires Core(arenas, out, free) && p in out && q in out && p < q
    ensures p + out[p] <= q
  {
    assert IsOut(arenas, p, out[p]) && IsOut(arenas, q, out[q]);
    if Base(p) == Base(q) {
      if arenas[Base(p)].Small? {
        SamePageApart(Base(p), arenas[Base(p)].desc, p, q);
      }
    } else {
      BaseIsMonotone(p, q);
      OutstandingHasRoom(arenas, out, p);
      OutstandingHasRoom(arenas, out, q);
    }
  }

  lemma {:induction false} FirstIsBlockZero(a: int, d: nat, n: nat)
    requires d < DESCS && n > 0
    ensures BlockList(a, d, n) != [] && BlockList(a, d, n)[0] == BlockAt(a, d, 0)
  {
    if n > 1 {
      FirstIsBlockZero(a, d, n - 1);
    }
  }

  lemma {:induction false} FirstBlockPage(a: int, d: nat)
    requires d < DESCS && a % PGSIZE == 0
    ensures BlockList(a, d, PerArena(d)) != [] && Base(BlockList(a, d, PerArena(d))[0]) == a
  {
    FirstIsBlockZero(a, d, PerArena(d));
    BlockInPage(a, d, 0);
  }

  lemma {:induction false} FrontPage(arenas: map<int, Arena>, out: map<int, int>, free: seq<seq<int>>, d: nat)
    requires Core(arenas, out, free) && d < DESCS && free[d] != []
    ensures Base(free[d][0]) in arenas
  {
    assert ListOk(arenas, out, d, free[d]) && OnFree(arenas, out, d, free[d][0]);
  }
}
