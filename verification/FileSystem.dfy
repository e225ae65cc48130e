/** Creating, opening, closing and removing files (filesys/filesys.c, directory.c, inode.c,
    free-map.c): who owns which sectors of the device.  Allocations that can fail take the outcome
    as a parameter. */
module FileSystem {
  import opened Common
  import opened Bitmap
  import Inode

  const FREE_MAP_SECTOR := 0
  const ROOT_DIR_SECTOR := 1
  const NAME_MAX := 14

  /** An inode as it is on disk. */
  datatype DiskInode = DiskInode(start: nat, length: nat)

  /** An inode in memory. */
  datatype Opened = Opened(openCnt: nat, removed: bool, data: DiskInode)

  /** An entry of the root directory. */
  datatype Slot = Slot(inUse: bool, name: string, sector: nat)

  function DataSectors(d: DiskInode): (n: nat) {
    Inode.Sectors(d.length)
  }

  /** Sector `k` belongs to the inode in sector `s`. */
  predicate Owns(s: nat, d: DiskInode, k: int) {
    k == s || d.start <= k < d.start + DataSectors(d)
  }

  // ----- The invariant -----

  predicate Named(slots: seq<Slot>, s: nat) {
    exists i :: 0 <= i < |slots| && slots[i].inUse && slots[i].sector == s
  }

  predicate HasEntry(slots: seq<Slot>, name: string, s: nat) {
    exists i :: 0 <= i < |slots| && slots[i] == Slot(true, name, s)
  }

  /** The two fixed inodes and those with a name. */
  predicate Rooted(slots: seq<Slot>, s: nat) {
    s == FREE_MAP_SECTOR || s == ROOT_DIR_SECTOR || Named(slots, s)
  }

  /** The inodes in use: the two fixed ones, those with a name and those that are open. */
  predicate Live(slots: seq<Slot>, open: map<nat, Opened>, s: nat) {
    Rooted(slots, s) || s in open
  }

  /** `d` is a sound inode for sector `s`: all of its sectors are allocated, and the inode is not
      among its own data. */
  ghost predicate Allocated(used: seq<bool>, s: nat, d: DiskInode) {
    && s < |used| && d.start + DataSectors(d) <= |used|
    && !(d.start <= s < d.start + DataSectors(d))
    && forall k :: 0 <= k < |used| && Owns(s, d, k) ==> used[k]
  }

  ghost predicate Apart(s: nat, d: DiskInode, t: nat, e: DiskInode) {
    forall k :: Owns(s, d, k) ==> !Owns(t, e, k)
  }

  /** No inode in use shares a sector with `d` at `s`. */
  ghost predicate AloneAt(inodes: map<nat, DiskInode>, slots: seq<Slot>, open: map<nat, Opened>, s: nat, d: DiskInode) {
    forall t: nat :: Live(slots, open, t) && t in inodes ==> Apart(t, inodes[t], s, d)
  }

  ghost predicate LiveOk(used: seq<bool>, inodes: map<nat, DiskInode>, slots: seq<Slot>, open: map<nat, Opened>) {
    && (forall s: nat :: Live(slots, open, s) ==> s in inodes && Allocated(used, s, inodes[s]))
    && (forall s: nat, t: nat :: Live(slots, open, s) && Live(slots, open, t) && s != t ==>
          s in inodes && t in inodes && Apart(s, inodes[s], t, inodes[t]))
  }

  predicate ValidName(name: string) {
    0 < |name| <= NAME_MAX
  }

  /** No two entries in use share an inode. */
  ghost predicate SlotsOk(slots: seq<Slot>) {
    && (forall i :: 0 <= i < |slots| && slots[i].inUse ==>
          ValidName(slots[i].name) && slots[i].sector != FREE_MAP_SECTOR && slots[i].sector != ROOT_DIR_SECTOR)
    && (forall i, j :: 0 <= i < j < |slots| && slots[i].inUse && slots[j].inUse ==>
          slots[i].sector != slots[j].sector)
  }

  /** An open inode is what is on disk; one that is marked removed has no name. */
  ghost predicate OpenOk(inodes: map<nat, DiskInode>, slots: seq<Slot>, open: map<nat, Opened>) {
    forall s :: s in open ==>
      && open[s].openCnt > 0 && s in inodes && open[s].data == inodes[s]
      && (open[s].removed ==> !Rooted(slots, s))
  }

  /** What every operation keeps, whatever fails on the way. */
  ghost predicate Inv(used: seq<bool>, inodes: map<nat, DiskInode>, slots: seq<Slot>, open: map<nat, Opened>) {
    LiveOk(used, inodes, slots, open) && SlotsOk(slots) && OpenOk(inodes, slots, open)
  }

  /** No two entries in use share a name. */
  ghost predicate UniqueNames(slots: seq<Slot>) {
    forall i, j :: 0 <= i < j < |slots| && slots[i].inUse && slots[j].inUse ==> slots[i].name != slots[j].name
  }

  /** What holds besides as long as no entry was overlooked: names are unique, and an open inode
      without a name was removed. */
  ghost predicate Orderly(slots: seq<Slot>, open: map<nat, Opened>) {
    UniqueNames(slots) && forall s :: s in open && !open[s].removed ==> Rooted(slots, s)
  }

  // ----- Sectors come and go -----

  /** The sectors of an inode given back. */
  function Freed(used: seq<bool>, s: nat, d: DiskInode): seq<bool>
    requires s < |used| && d.start + DataSectors(d) <= |used|
  {
    SetRange(SetRange(used, s, 1, false), d.start, DataSectors(d), false)
  }

  lemma {:induction false} FreedSectors(used: seq<bool>, s: nat, d: DiskInode)
    requires Allocated(used, s, d)
    ensures |Freed(used, s, d)| == |used|
    ensures forall k :: 0 <= k < |used| ==> Freed(used, s, d)[k] == (used[k] && !Owns(s, d, k))
    ensures AllAre(used, s, 1, true) && AllAre(SetRange(used, s, 1, false), d.start, DataSectors(d), true)
  {
  }

  /** Giving back the sectors of an inode leaves those of every other inode allocated. */
  lemma {:induction false} FreeKeepsOther(used: seq<bool>, s: nat, d: DiskInode, t: nat, e: DiskInode)
    requires Allocated(used, s, d) && Allocated(used, t, e) && Apart(s, d, t, e)
    ensures |Freed(used, s, d)| == |used| && Allocated(Freed(used, s, d), t, e)
  {
    FreedSectors(used, s, d);
  }

  /** The last reference to a removed inode goes away. */
  lemma {:induction false} ReleaseKeepsInv(used: seq<bool>, inodes: map<nat, DiskInode>, slots: seq<Slot>, open: map<nat, Opened>, s: nat)
    requires Inv(used, inodes, slots, open) && s in open && open[s].removed
    ensures s in inodes && Allocated(used, s, inodes[s])
    ensures Inv(Freed(used, s, inodes[s]), inodes, slots, open - {s})
  {
    var open' := open - {s};
    assert Live(slots, open, s);
    forall t: nat | Live(slots, open', t) ensures Live(slots, open, t) && t != s {
    }
    forall t: nat | Live(slots, open', t) ensures Allocated(Freed(used, s, inodes[s]), t, inodes[t]) {
      FreeKeepsOther(used, s, inodes[s], t, inodes[t]);
    }
  }

  /** Closing an inode that stays. */
  lemma {:induction false} ForgetKeepsInv(used: seq<bool>, inodes: map<nat, DiskInode>, slots: seq<Slot>, open: map<nat, Opened>, s: nat)
    requires Inv(used, inodes, slots, open) && s in open
    ensures Inv(used, inodes, slots, open - {s})
  {
    assert forall t: nat :: Live(slots, open - {s}, t) ==> Live(slots, open, t);
  }

  lemma {:induction false} RecountKeepsInv(used: seq<bool>, inodes: map<nat, DiskInode>, slots: seq<Slot>, open: map<nat, Opened>, s: nat, n: nat)
    requires Inv(used, inodes, slots, open) && s in open && n > 0
    ensures Inv(used, inodes, slots, open[s := open[s].(openCnt := n)])
  {
    assert forall t: nat :: Live(slots, open[s := open[s].(openCnt := n)], t) <==> Live(slots, open, t);
  }

  lemma {:induction false} OpenKeepsInv(used: seq<bool>, inodes: map<nat, DiskInode>, slots: seq<Slot>, open: map<nat, Opened>, s: nat)
    requires Inv(used, inodes, slots, open) && Rooted(slots, s) && s !in open
    ensures s in inodes && Inv(used, inodes, slots, open[s := Opened(1, false, inodes[s])])
  {
    assert Live(slots, open, s);
    var open' := open[s := Opened(1, false, inodes[s])];
    assert forall t: nat :: Live(slots, open', t) <==> Live(slots, open, t);
  }

  /** The open inodes after one opener of `s` has closed it. */
  function ClosedOpen(open: map<nat, Opened>, s: nat): map<nat, Opened>
    requires s in open
  {
    if open[s].openCnt > 1 then open[s := open[s].(openCnt := open[s].openCnt - 1)] else open - {s}
  }

  /** The sectors of a removed inode are given back by the last close, and at no other time. */
  ghost predicate ClosedUsed(used: seq<bool>, used': seq<bool>, open: map<nat, Opened>, s: nat)
    requires s in open
  {
    if open[s].openCnt > 1 || !open[s].removed then used' == used
    else Allocated(used, s, open[s].data) && used' == Freed(used, s, open[s].data)
  }

  lemma {:induction false} CloseKeepsInv(used: seq<bool>, used': seq<bool>, inodes: map<nat, DiskInode>, slots: seq<Slot>,
                                         open: map<nat, Opened>, s: nat)
    requires Inv(used, inodes, slots, open) && s in open && ClosedUsed(used, used', open, s)
    ensures Inv(used', inodes, slots, ClosedOpen(open, s))
  {
    if open[s].openCnt > 1 {
      RecountKeepsInv(used, inodes, slots, open, s, open[s].openCnt - 1);
    } else if open[s].removed {
      ReleaseKeepsInv(used, inodes, slots, open, s);
    } else {
      ForgetKeepsInv(used, inodes, slots, open, s);
    }
  }

  lemma {:induction false} OpenIsAllocated(used: seq<bool>, inodes: map<nat, DiskInode>, slots: seq<Slot>, open: map<nat, Opened>, s: nat)
    requires Inv(used, inodes, slots, open) && s in open
    ensures s in inodes && open[s].data == inodes[s] && open[s].openCnt > 0 && Allocated(used, s, inodes[s])
    ensures open[s].removed ==> !Rooted(slots, s)
  {
    assert Live(slots, open, s);
  }

  // ----- A new file -----

  /** No inode in use owns a sector from `start` to `start + cnt`. */
  ghost predicate Unowned(inodes: map<nat, DiskInode>, slots: seq<Slot>, open: map<nat, Opened>, start: nat, cnt: nat) {
    forall t: nat, k :: Live(slots, open, t) && t in inodes && start <= k < start + cnt ==> !Owns(t, inodes[t], k)
  }

  lemma {:induction false} UnusedIsUnowned(used: seq<bool>, inodes: map<nat, DiskInode>, slots: seq<Slot>, open: map<nat, Opened>,
                                           start: nat, cnt: nat)
    requires LiveOk(used, inodes, slots, open) && start + cnt <= |used| && AllAre(used, start, cnt, false)
    ensures Unowned(inodes, slots, open, start, cnt)
    ensures cnt > 0 ==> start > ROOT_DIR_SECTOR
  {
    assert Live(slots, open, FREE_MAP_SECTOR) && Live(slots, open, ROOT_DIR_SECTOR);
    forall t: nat, k | Live(slots, open, t) && t in inodes && start <= k < start + cnt ensures !Owns(t, inodes[t], k) {
      assert Allocated(used, t, inodes[t]) && !used[k];
    }
    assert Owns(FREE_MAP_SECTOR, inodes[FREE_MAP_SECTOR], 0) && Owns(ROOT_DIR_SECTOR, inodes[ROOT_DIR_SECTOR], 1);
    assert used[0] && used[1] && (cnt > 0 ==> !used[start]);
  }

  /** Allocating sectors, or giving back sectors that no inode in use owns. */
  lemma {:induction false} SetRangeKeepsInv(used: seq<bool>, inodes: map<nat, DiskInode>, slots: seq<Slot>, open: map<nat, Opened>,
                                            start: nat, cnt: nat, value: bool)
    requires Inv(used, inodes, slots, open) && start + cnt <= |used| && (value || Unowned(inodes, slots, open, start, cnt))
    ensures Inv(SetRange(used, start, cnt, value), inodes, slots, open)
  {
    var used' := SetRange(used, start, cnt, value);
    forall t: nat | Live(slots, open, t) ensures Allocated(used', t, inodes[t]) {
      assert Allocated(used, t, inodes[t]);
    }
  }

  /** An inode is written to a sector that no inode in use owns. */
  lemma {:induction false} NewInodeKeepsInv(used: seq<bool>, inodes: map<nat, DiskInode>, slots: seq<Slot>, open: map<nat, Opened>,
                                            s: nat, d: DiskInode)
    requires Inv(used, inodes, slots, open) && Unowned(inodes, slots, open, s, 1)
    ensures !Live(slots, open, s) && Inv(used, inodes[s := d], slots, open)
  {
    assert Live(slots, open, s) ==> s in inodes && Owns(s, inodes[s], s);
  }

  lemma {:induction false} TakenGroup(used: seq<bool>, start: nat, cnt: nat, s: nat)
    requires start + cnt <= |used| && AllAre(used, start, cnt, false) && s < |used| && used[s]
    ensures var used' := SetRange(used, start, cnt, true);
      |used'| == |used| && used'[s] && AllAre(used', start, cnt, true) && !(start <= s < start + cnt)
  {
  }

  lemma {:induction false} UnownedIsNotLive(used: seq<bool>, inodes: map<nat, DiskInode>, slots: seq<Slot>, open: map<nat, Opened>, s: nat)
    requires LiveOk(used, inodes, slots, open) && Unowned(inodes, slots, open, s, 1)
    ensures !Live(slots, open, s)
  {
    assert Live(slots, open, s) ==> s in inodes && Owns(s, inodes[s], s);
  }

  /** An inode whose sector and data sectors were both free is sound, and apart from the others. */
  lemma {:induction false} NewInodeFits(used: seq<bool>, inodes: map<nat, DiskInode>, slots: seq<Slot>, open: map<nat, Opened>,
                                        s: nat, d: DiskInode)
    requires s < |used| && used[s] && d.start + DataSectors(d) <= |used| && AllAre(used, d.start, DataSectors(d), true)
    requires !(d.start <= s < d.start + DataSectors(d))
    requires Unowned(inodes, slots, open, s, 1) && Unowned(inodes, slots, open, d.start, DataSectors(d)) && !Live(slots, open, s)
    ensures Allocated(used, s, d) && Unowned(inodes[s := d], slots, open, s, 1)
    ensures AloneAt(inodes[s := d], slots, open, s, d)
  {
  }

  /** An entry is written to slot `i`, over whatever is there. */
  lemma {:induction false} AddedSlotsOk(slots: seq<Slot>, i: nat, name: string, s: nat)
    requires SlotsOk(slots) && i < |slots| && ValidName(name)
    requires !Named(slots, s) && s != FREE_MAP_SECTOR && s != ROOT_DIR_SECTOR
    ensures SlotsOk(slots[i := Slot(true, name, s)])
    ensures forall t: nat :: Named(slots[i := Slot(true, name, s)], t) ==> Named(slots, t) || t == s
    ensures HasEntry(slots[i := Slot(true, name, s)], name, s)
  {
    var slots' := slots[i := Slot(true, name, s)];
    assert slots'[i] == Slot(true, name, s);
    forall t: nat | Named(slots', t) ensures Named(slots, t) || t == s {
      var j :| 0 <= j < |slots'| && slots'[j].inUse && slots'[j].sector == t;
      assert j != i ==> slots[j].inUse && slots[j].sector == t;
    }
  }

  /** The new inode gets a name. */
  lemma {:induction false} AddKeepsInv(used: seq<bool>, inodes: map<nat, DiskInode>, slots: seq<Slot>, open: map<nat, Opened>,
                                       i: nat, name: string, s: nat)
    requires Inv(used, inodes, slots, open) && i < |slots| && ValidName(name)
    requires !Live(slots, open, s) && s in inodes && Allocated(used, s, inodes[s])
    requires AloneAt(inodes, slots, open, s, inodes[s])
    ensures Inv(used, inodes, slots[i := Slot(true, name, s)], open)
  {
    var slots' := slots[i := Slot(true, name, s)];
    AddedSlotsOk(slots, i, name, s);
    assert forall t: nat :: Live(slots', open, t) ==> Live(slots, open, t) || t == s;
    forall t: nat, u: nat | Live(slots', open, t) && Live(slots', open, u) && t != u ensures Apart(t, inodes[t], u, inodes[u]) {
      if t == s {
        assert Apart(u, inodes[u], s, inodes[s]);
      }
    }
  }

  // ----- Scans of the directory -----

  predicate Matches(slot: Slot, name: string) {
    slot.inUse && slot.name == name
  }

  /** The first of the first `k` entries that has the name. */
  function FirstMatch(slots: seq<Slot>, name: string, k: nat): (r: Option<nat>)
    requires k <= |slots|
    ensures r.Some? ==> r.value < k && Matches(slots[r.value], name) && forall j :: 0 <= j < r.value ==> !Matches(slots[j], name)
    ensures r.None? ==> forall j :: 0 <= j < k ==> !Matches(slots[j], name)
  {
    if k == 0 then None
    else
      var r := FirstMatch(slots, name, k - 1);
      if r.None? && Matches(slots[k - 1], name) then Some(k - 1) else r
  }

  /** The first of the first `k` entries that is free, or else `k`. */
  function FirstFree(slots: seq<Slot>, k: nat): (i: nat)
    requires k <= |slots|
    ensures i <= k && (forall j :: 0 <= j < i ==> slots[j].inUse) && (i < k ==> !slots[i].inUse)
  {
    if k == 0 then 0
    else
      var i := FirstFree(slots, k - 1);
      if i == k - 1 && slots[i].inUse then k else i
  }

  lemma {:induction false} MatchStays(slots: seq<Slot>, name: string, i: nat, k: nat)
    requires i < k <= |slots| && FirstMatch(slots, name, i).None? && Matches(slots[i], name)
    ensures FirstMatch(slots, name, k) == Some(i)
  {
  }

  lemma {:induction false} FreeStays(slots: seq<Slot>, i: nat, k: nat)
    requires i <= k <= |slots| && FirstFree(slots, i) == i && (i < k ==> !slots[i].inUse)
    ensures FirstFree(slots, k) == i
  {
  }

  /** dir_add writes its entry, when the search for the name reads only `k1` entries and the search
      for a free one only `k2`. */
  ghost predicate Adds(slots: seq<Slot>, slots': seq<Slot>, name: string, s: nat, k1: nat, k2: nat)
    requires k1 <= |slots| && k2 <= |slots|
  {
    && ValidName(name) && FirstMatch(slots, name, k1).None? && FirstFree(slots, k2) < |slots|
    && slots' == slots[FirstFree(slots, k2) := Slot(true, name, s)]
  }

  /** Every entry is still there. */
  ghost predicate KeepsEntries(slots: seq<Slot>, slots': seq<Slot>) {
    forall i :: 0 <= i < |slots| && slots[i].inUse ==> HasEntry(slots', slots[i].name, slots[i].sector)
  }

  /** No entry that the first search did not read has the name, and the second search ends at a free
      entry or at the end of the directory. */
  predicate Harmless(slots: seq<Slot>, name: string, k1: nat, k2: nat)
    requires k1 <= |slots| && k2 <= |slots|
  {
    && (forall j :: k1 <= j < |slots| ==> !Matches(slots[j], name))
    && (k2 == |slots| || !slots[k2].inUse || exists j :: 0 <= j < k2 && !slots[j].inUse)
  }

  /** A new entry leaves names unique and every other entry in place if and only if it is harmless. */
  lemma {:induction false} AddIsHarmless(slots: seq<Slot>, slots': seq<Slot>, name: string, s: nat, k1: nat, k2: nat)
    requires k1 <= |slots| && k2 <= |slots| && Adds(slots, slots', name, s, k1, k2)
    requires SlotsOk(slots) && UniqueNames(slots) && !Named(slots, s)
    ensures UniqueNames(slots') && KeepsEntries(slots, slots') <==> Harmless(slots, name, k1, k2)
  {
    var i := FirstFree(slots, k2);
    if slots[i].inUse {
      Overwrites(slots, name, s, i);
    } else {
      AddsToFree(slots, name, s, i);
      assert (forall j :: 0 <= j < |slots| ==> !Matches(slots[j], name)) <==> (forall j :: k1 <= j < |slots| ==> !Matches(slots[j], name));
    }
  }

  /** An entry that is overwritten is lost. */
  lemma {:induction false} Overwrites(slots: seq<Slot>, name: string, s: nat, i: nat)
    requires SlotsOk(slots) && !Named(slots, s) && i < |slots| && slots[i].inUse
    ensures !HasEntry(slots[i := Slot(true, name, s)], slots[i].name, slots[i].sector)
    ensures !KeepsEntries(slots, slots[i := Slot(true, name, s)])
  {
  }

  /** One written to a free slot keeps the others; the name stays unique if it was new. */
  lemma {:induction false} AddsToFree(slots: seq<Slot>, name: string, s: nat, i: nat)
    requires UniqueNames(slots) && i < |slots| && !slots[i].inUse
    ensures KeepsEntries(slots, slots[i := Slot(true, name, s)])
    ensures UniqueNames(slots[i := Slot(true, name, s)]) <==> forall j :: 0 <= j < |slots| ==> !Matches(slots[j], name)
  {
    var slots' := slots[i := Slot(true, name, s)];
    forall j | 0 <= j < |slots| && slots[j].inUse ensures HasEntry(slots', slots[j].name, slots[j].sector) {
      assert slots'[j] == Slot(true, slots[j].name, slots[j].sector);
    }
    if j :| 0 <= j < |slots| && Matches(slots[j], name) {
      assert Matches(slots'[j], name) && Matches(slots'[i], name) && i != j;
    }
  }

  /** A search for the name that ends too soon lets in a second file of that name. */
  lemma {:induction false} NameTwice(s: nat, t: nat)
    ensures var slots, slots' := [Slot(true, "a", s), Slot(false, "", 0)], [Slot(true, "a", s), Slot(true, "a", t)];
      Adds(slots, slots', "a", t, 0, 2) && UniqueNames(slots) && !UniqueNames(slots') && KeepsEntries(slots, slots')
  {
    var slots, slots' := [Slot(true, "a", s), Slot(false, "", 0)], [Slot(true, "a", s), Slot(true, "a", t)];
    assert FirstFree(slots, 1) == 1 && FirstFree(slots, 2) == 1;
    assert slots'[0].name == slots'[1].name;
    AddsToFree(slots, "a", t, 1);
  }

  /** A search for a free entry that ends too soon overwrites one in use. */
  lemma {:induction false} EntryLost(s: nat, t: nat)
    requires s != t && s > ROOT_DIR_SECTOR
    ensures var slots, slots' := [Slot(true, "a", s), Slot(false, "", 0)], [Slot(true, "b", t), Slot(false, "", 0)];
      Adds(slots, slots', "b", t, 2, 0) && UniqueNames(slots') && !KeepsEntries(slots, slots')
  {
    var slots := [Slot(true, "a", s), Slot(false, "", 0)];
    assert FirstMatch(slots, "b", 1) == None && FirstMatch(slots, "b", 2) == None;
    Overwrites(slots, "b", t, 0);
  }

  lemma {:induction false} AddKeepsOrder(slots: seq<Slot>, slots': seq<Slot>, open: map<nat, Opened>, name: string, s: nat, k1: nat, k2: nat)
    requires k1 <= |slots| && k2 <= |slots| && Adds(slots, slots', name, s, k1, k2)
    requires SlotsOk(slots) && Orderly(slots, open) && !Named(slots, s)
    ensures Orderly(slots', open) && KeepsEntries(slots, slots') <==> Harmless(slots, name, k1, k2)
  {
    AddIsHarmless(slots, slots', name, s, k1, k2);
    if KeepsEntries(slots, slots') {
      forall t: nat | Rooted(slots, t) ensures Rooted(slots', t) {
        EntryStaysRooted(slots, slots', t);
      }
    }
  }

  lemma {:induction false} NewEntry(used: seq<bool>, inodes: map<nat, DiskInode>, slots: seq<Slot>, open: map<nat, Opened>,
                                    name: string, s: nat, k1: nat, k2: nat)
    requires Inv(used, inodes, slots, open) && ValidName(name) && k1 <= |slots| && k2 <= |slots|
    requires FirstMatch(slots, name, k1).None? && FirstFree(slots, k2) < |slots|
    requires !Live(slots, open, s) && s in inodes && Allocated(used, s, inodes[s])
    requires AloneAt(inodes, slots, open, s, inodes[s])
    ensures var slots' := slots[FirstFree(slots, k2) := Slot(true, name, s)];
      && Inv(used, inodes, slots', open) && HasEntry(slots', name, s)
      && (Orderly(slots, open) ==> (Orderly(slots', open) && KeepsEntries(slots, slots') <==> Harmless(slots, name, k1, k2)))
  {
    var i := FirstFree(slots, k2);
    AddKeepsInv(used, inodes, slots, open, i, name, s);
    AddedSlotsOk(slots, i, name, s);
    if Orderly(slots, open) {
      AddKeepsOrder(slots, slots[i := Slot(true, name, s)], open, name, s, k1, k2);
    }
  }

  lemma {:induction false} EntryStaysRooted(slots: seq<Slot>, slots': seq<Slot>, t: nat)
    requires KeepsEntries(slots, slots') && Rooted(slots, t)
    ensures Rooted(slots', t)
  {
    if Named(slots, t) {
      var i :| 0 <= i < |slots| && slots[i].inUse && slots[i].sector == t;
      var j :| 0 <= j < |slots'| && slots'[j] == Slot(true, slots[i].name, t);
      assert slots'[j].inUse && slots'[j].sector == t;
    }
  }

  // ----- Removing a name -----

  lemma {:induction false} ErasedSlotsOk(slots: seq<Slot>, i: nat)
    requires SlotsOk(slots) && i < |slots| && slots[i].inUse
    ensures SlotsOk(slots[i := slots[i].(inUse := false)])
    ensures forall t: nat :: Named(slots[i := slots[i].(inUse := false)], t) <==> Named(slots, t) && t != slots[i].sector
  {
    var slots' := slots[i := slots[i].(inUse := false)];
    forall t: nat ensures Named(slots', t) <==> Named(slots, t) && t != slots[i].sector {
      if Named(slots, t) && t != slots[i].sector {
        var j :| 0 <= j < |slots| && slots[j].inUse && slots[j].sector == t;
        assert slots'[j].inUse && slots'[j].sector == t;
      }
      if Named(slots', t) {
        var j :| 0 <= j < |slots'| && slots'[j].inUse && slots'[j].sector == t;
        assert slots[j].inUse && slots[j].sector == t && j != i;
      }
    }
  }

  lemma {:induction false} EraseKeepsOrder(slots: seq<Slot>, open: map<nat, Opened>, i: nat)
    requires SlotsOk(slots) && Orderly(slots, open) && i < |slots| && slots[i].inUse && slots[i].sector in open
    ensures var s := slots[i].sector;
      Orderly(slots[i := slots[i].(inUse := false)], open[s := open[s].(removed := true)])
    ensures forall j :: 0 <= j < |slots| && j != i ==> !Matches(slots[j], slots[i].name)
  {
    ErasedSlotsOk(slots, i);
  }

  lemma {:induction false} EraseKeepsInv(used: seq<bool>, inodes: map<nat, DiskInode>, slots: seq<Slot>, open: map<nat, Opened>, i: nat)
    requires Inv(used, inodes, slots, open) && i < |slots| && slots[i].inUse && slots[i].sector in open
    ensures var s := slots[i].sector;
      Inv(used, inodes, slots[i := slots[i].(inUse := false)], open[s := open[s].(removed := true)])
  {
    var s := slots[i].sector;
    var slots', open' := slots[i := slots[i].(inUse := false)], open[s := open[s].(removed := true)];
    ErasedSlotsOk(slots, i);
    assert forall t: nat :: Live(slots', open', t) ==> Live(slots, open, t);
  }

  /** Every open file is counted by its openers. */
  ghost predicate Counted(handles: multiset<nat>, open: map<nat, Opened>) {
    forall s :: handles[s] == if s in open then open[s].openCnt else 0
  }

  /** One more opener of `s`. */
  ghost predicate OpenedOnce(open: map<nat, Opened>, open': map<nat, Opened>, s: nat) {
    && s in open' && open' == open[s := open'[s]] && open'[s].removed == (s in open && open[s].removed)
    && open'[s].openCnt == 1 + if s in open then open[s].openCnt else 0
  }

  lemma {:induction false} OpenThenClose(handles: multiset<nat>, open: map<nat, Opened>, open': map<nat, Opened>, s: nat)
    requires Counted(handles, open) && OpenedOnce(open, open', s)
    ensures Counted(handles + multiset{s}, open') && Counted(handles, ClosedOpen(open', s))
    ensures Counted(handles, ClosedOpen(open'[s := open'[s].(removed := true)], s))
  {
  }

  lemma {:induction false} CloseCounts(handles: multiset<nat>, open: map<nat, Opened>, s: nat)
    requires Counted(handles, open) && s in handles
    ensures s in open && Counted(handles - multiset{s}, ClosedOpen(open, s))
    ensures s in handles - multiset{s} <==> open[s].openCnt > 1
  {
  }

  /** Opening, erasing and closing: the sectors are given back unless somebody has the file open. */
  lemma {:induction false} RemoveGivesBack(used: seq<bool>, used': seq<bool>, handles: multiset<nat>,
                                           open: map<nat, Opened>, open': map<nat, Opened>, s: nat)
    requires Counted(handles, open) && OpenedOnce(open, open', s) && Allocated(used, s, open'[s].data)
    requires ClosedUsed(used, used', open'[s := open'[s].(removed := true)], s)
    ensures used' == if s in handles then used else Freed(used, s, open'[s].data)
  {
  }

  /** What closing a handle does to the free map. */
  ghost predicate GivenBack(used: seq<bool>, used': seq<bool>, inodes: map<nat, DiskInode>, slots: seq<Slot>,
                            handles: multiset<nat>, h: nat)
  {
    h in inodes &&
    if h in handles || Rooted(slots, h) then used' == used
    else Allocated(used, h, inodes[h]) && used' == Freed(used, h, inodes[h])
  }

  lemma {:induction false} CloseMeans(used: seq<bool>, used': seq<bool>, inodes: map<nat, DiskInode>, slots: seq<Slot>,
                                      open: map<nat, Opened>, handles: multiset<nat>, h: nat)
    requires Inv(used, inodes, slots, open) && Orderly(slots, open) && Counted(handles, open) && h in handles && h in open
    requires ClosedUsed(used, used', open, h)
    ensures GivenBack(used, used', inodes, slots, handles - multiset{h}, h)
  {
    CloseCounts(handles, open, h);
    OpenIsAllocated(used, inodes, slots, open, h);
  }

  lemma {:induction false} UndoRange(used: seq<bool>, start: nat, cnt: nat)
    requires start + cnt <= |used| && AllAre(used, start, cnt, false)
    ensures SetRange(SetRange(used, start, cnt, true), start, cnt, false) == used
  {
  }

  /** The data of the new file is zeros, so that it reads as zeros, and no other sector changed. */
  ghost predicate Zeroed(before: seq<Inode.Sector>, after: seq<Inode.Sector>, d: DiskInode) {
    && d.start + DataSectors(d) <= |after| == |before|
    && Inode.Contents(after, Inode.Inode(d.start, d.length, 0)) == seq(d.length, _ => 0)
    && forall k :: 0 <= k < |after| && !(d.start <= k < d.start + DataSectors(d)) ==> after[k] == before[k]
  }

  lemma {:induction false} FilledIsZeroed(before: seq<Inode.Sector>, after: seq<Inode.Sector>, d: DiskInode)
    requires d.start + DataSectors(d) <= |after| == |before|
    requires forall k :: 0 <= k < |after| ==>
      after[k] == if d.start <= k < d.start + DataSectors(d) then Inode.ZEROS else before[k]
    ensures Zeroed(before, after, d)
  {
    Inode.ZerosRead(after, Inode.Inode(d.start, d.length, 0));
  }

  /** inode_create asserts that the length is not negative; with memory for the inode it then
      computes the number of sectors, which may overflow. */
  predicate Undefined(length: int, memory: bool) {
    length < 0 || (memory && !Inode.SumFits(length))
  }

  /** One length of each kind: a size of 2^32 - 1 given by a user arrives as -1, and a whole sector
      more than 0x7ffffe00 is 2^31. */
  lemma {:induction false} UndefinedLengths(memory: bool)
    ensures Undefined(-1, memory) && Undefined(0x7fff_fe00, true) && !Undefined(0x7fff_fdff, memory)
  {
  }

  /** Somewhere `cnt` sectors in a row are free. */
  ghost predicate HasRoom(used: seq<bool>, cnt: nat) {
    exists k :: 0 <= k <= |used| - cnt && AllAre(used, k, cnt, false)
  }

  /** An inode of this length can be created. */
  ghost predicate CanCreate(used: seq<bool>, length: int, memory: bool, written: bool) {
    0 <= length && Inode.SumFits(length) && memory && written && HasRoom(used, Inode.Sectors(length))
  }

  /** dir_add can enter the name, with reads of the entries `k1` and `k2` coming out short. */
  predicate CanAdd(slots: seq<Slot>, name: string, k1: nat, k2: nat, written: bool)
    requires k1 <= |slots| && k2 <= |slots|
  {
    ValidName(name) && FirstMatch(slots, name, k1).None? && FirstFree(slots, k2) < |slots| && written
  }

  /** The data of `d` took the first sectors in a row that were free, and nothing else was taken. */
  ghost predicate Took(used: seq<bool>, used': seq<bool>, d: DiskInode) {
    && d.start + DataSectors(d) <= |used| && IsFirstGroup(used, 0, DataSectors(d), false, Some(d.start))
    && used' == SetRange(used, d.start, DataSectors(d), true)
  }

  /** What a failed filesys_create leaves in the free map: what was there, and the data sectors of an
      inode that got no name. */
  lemma {:induction false} GivesBackOne(used: seq<bool>, used': seq<bool>, s: nat, d: DiskInode)
    requires s < |used| && !used[s] && Took(SetRange(used, s, 1, true), used', d)
    ensures |used'| == |used| && SetRange(used', s, 1, false) == SetRange(used, d.start, DataSectors(d), true)
  {
    var used1, u1, u2 := SetRange(used, s, 1, true), SetRange(used', s, 1, false), SetRange(used, d.start, DataSectors(d), true);
    assert !(d.start <= s < d.start + DataSectors(d)) by {
      assert used1[s];
    }
    forall k | 0 <= k < |used| ensures u1[k] == u2[k] {
    }
  }

  lemma {:induction false} FreeSector(used: seq<bool>)
    ensures HasRoom(used, 1) <==> false in used
  {
    forall j | 0 <= j < |used| ensures AllAre(used, j, 1, false) <==> !used[j] {
    }
  }

  // ----- The operations -----

  class FileSystem {
    const freeMap: Bitmap
    const device: Inode.Device
    var inodes: map<nat, DiskInode>
    var slots: seq<Slot>
    var open: map<nat, Opened>
    ghost var handles: multiset<nat>

    ghost predicate Sound()
      reads this, freeMap.bits
    {
      freeMap.Valid() && Inv(freeMap.Bits(), inodes, slots, open)
    }

    /** Every open file is counted by its openers. */
    ghost predicate Valid()
      reads this, freeMap.bits
    {
      Sound() && Counted(handles, open)
    }

    /** The free map has a bit for every sector. */
    ghost predicate OnDevice()
      reads device
    {
      |device.sectors| == freeMap.bitCnt
    }

    /** The state that do_format leaves: `used` marks the sectors of the two fixed inodes. */
    constructor (freeMap: Bitmap, device: Inode.Device, inodes: map<nat, DiskInode>, entries: nat)
      requires freeMap.Valid()
      requires FREE_MAP_SECTOR in inodes && ROOT_DIR_SECTOR in inodes
      requires Allocated(freeMap.Bits(), FREE_MAP_SECTOR, inodes[FREE_MAP_SECTOR])
      requires Allocated(freeMap.Bits(), ROOT_DIR_SECTOR, inodes[ROOT_DIR_SECTOR])
      requires Apart(FREE_MAP_SECTOR, inodes[FREE_MAP_SECTOR], ROOT_DIR_SECTOR, inodes[ROOT_DIR_SECTOR])
      ensures Valid() && Orderly(slots, open)
      ensures this.freeMap == freeMap && this.device == device && handles == multiset{}
    {
      this.freeMap, this.device, this.inodes := freeMap, device, inodes;
      slots, open, handles := seq(entries, _ => Slot(false, "", 0)), map[], multiset{};
    }

    /** free_map_allocate; `written` says whether the map's own file could be written. */
    method TakeSectors(cnt: nat, written: bool) returns (r: Option<nat>)
      requires freeMap.Valid()
      modifies freeMap.bits
      ensures freeMap.Valid() && (r.None? ==> freeMap.Bits() == old(freeMap.Bits()))
      ensures r.Some? ==> written && IsFirstGroup(old(freeMap.Bits()), 0, cnt, false, r)
      ensures r.Some? <==> written && HasRoom(old(freeMap.Bits()), cnt)
      ensures r.Some? ==> freeMap.Bits() == SetRange(old(freeMap.Bits()), r.value, cnt, true)
    {
      r := freeMap.ScanAndFlip(0, cnt, false);
      if r.Some? && !written {
        UndoRange(old(freeMap.Bits()), r.value, cnt);
        freeMap.SetMultiple(r.value, cnt, false);
        r := None;
      }
    }

    method Allocate(cnt: nat, written: bool) returns (r: Option<nat>)
      requires Sound()
      modifies freeMap.bits
      ensures Sound()
      ensures r.None? ==> freeMap.Bits() == old(freeMap.Bits())
      ensures r.Some? <==> written && HasRoom(old(freeMap.Bits()), cnt)
      ensures r.Some? ==> IsFirstGroup(old(freeMap.Bits()), 0, cnt, false, r) && r.value + cnt <= freeMap.bitCnt
      ensures r.Some? ==> freeMap.Bits() == SetRange(old(freeMap.Bits()), r.value, cnt, true)
      ensures r.Some? ==> Unowned(inodes, slots, open, r.value, cnt) && (cnt > 0 ==> r.value > ROOT_DIR_SECTOR)
    {
      ghost var used := freeMap.Bits();
      r := TakeSectors(cnt, written);
      if r.Some? {
        UnusedIsUnowned(used, inodes, slots, open, r.value, cnt);
        SetRangeKeepsInv(used, inodes, slots, open, r.value, cnt, true);
      }
    }

    /** The sector of a new inode. */
    method AllocateOne(written: bool) returns (r: Option<nat>)
      requires Sound()
      modifies freeMap.bits
      ensures Sound() && (r.Some? <==> written && false in old(freeMap.Bits()))
      ensures r.None? ==> freeMap.Bits() == old(freeMap.Bits())
      ensures r.Some? ==> IsFirstGroup(old(freeMap.Bits()), 0, 1, false, r) && r.value < freeMap.bitCnt
      ensures r.Some? ==> freeMap.Bits() == SetRange(old(freeMap.Bits()), r.value, 1, true)
      ensures r.Some? ==> freeMap.Bits()[r.value] && Unowned(inodes, slots, open, r.value, 1)
    {
      r := Allocate(1, written);
      FreeSector(old(freeMap.Bits()));
    }

    /** free_map_release; the precondition is its assertion that the sectors are allocated. */
    method Release(sector: nat, cnt: nat)
      requires freeMap.Valid() && sector + cnt <= freeMap.bitCnt && AllAre(freeMap.Bits(), sector, cnt, true)
      modifies freeMap.bits
      ensures freeMap.Valid() && freeMap.Bits() == SetRange(old(freeMap.Bits()), sector, cnt, false)
    {
      freeMap.SetMultiple(sector, cnt, false);
    }

    /** The index of the entry for `name`.  The read of entry `k` is short: there is none, or there
        is no memory to read it. */
    method Lookup(name: string, k: nat) returns (r: Option<nat>)
      requires k <= |slots|
      ensures r == FirstMatch(slots, name, k)
    {
      var i := 0;
      while i < k
        invariant 0 <= i <= k && FirstMatch(slots, name, i).None?
      {
        if slots[i].inUse && slots[i].name == name {
          MatchStays(slots, name, i, k);
          return Some(i);
        }
        i := i + 1;
      }
      return None;
    }

    /** The second search of dir_add, which stops at a free entry or at the short read of entry `k`. */
    method FindFree(k: nat) returns (i: nat)
      requires k <= |slots|
      ensures i == FirstFree(slots, k)
    {
      i := 0;
      while i < k && slots[i].inUse
        invariant 0 <= i <= k && FirstFree(slots, i) == i
      {
        i := i + 1;
      }
      FreeStays(slots, i, k);
    }

    /** inode_create at `sector`.  `memory` and `written` are the outcomes of its allocations; None
        when its assertion fails or the number of sectors overflows. */
    method InodeCreate(sector: nat, length: int, memory: bool, written: bool) returns (ok: Option<bool>)
      requires Sound() && OnDevice() && Inode.IsOffset(length)
      requires sector < freeMap.bitCnt && freeMap.Bits()[sector] && Unowned(inodes, slots, open, sector, 1)
      modifies this`inodes, freeMap.bits, device
      ensures Sound() && OnDevice() && Unowned(inodes, slots, open, sector, 1) && freeMap.Bits()[sector]
      ensures ok.None? <==> Undefined(length, memory)
      ensures ok == Some(true) ==> sector in inodes && Allocated(freeMap.Bits(), sector, inodes[sector]) && inodes[sector].length == length
      ensures ok == Some(true) ==> AloneAt(inodes, slots, open, sector, inodes[sector])
      ensures ok == Some(true) ==> Zeroed(old(device.sectors), device.sectors, inodes[sector])
      ensures ok == Some(true) <==> CanCreate(old(freeMap.Bits()), length, memory, written)
      ensures ok == Some(true) ==> inodes == old(inodes)[sector := inodes[sector]] && Took(old(freeMap.Bits()), freeMap.Bits(), inodes[sector])
      ensures ok != Some(true) ==>
        device.sectors == old(device.sectors) && inodes == old(inodes) && freeMap.Bits() == old(freeMap.Bits())
    {
      if length < 0 {
        return None;
      }
      if !memory {
        return Some(false);
      }
      if !Inode.SumFits(length) {
        return None;
      }
      var n := Inode.Sectors(length);
      var start := Allocate(n, written);
      if start.None? {
        return Some(false);
      }
      TakenGroup(old(freeMap.Bits()), start.value, n, sector);
      WriteInode(sector, DiskInode(start.value, length));
      return Some(true);
    }

    method WriteInode(sector: nat, d: DiskInode)
      requires Sound() && OnDevice() && sector < freeMap.bitCnt && freeMap.Bits()[sector]
      requires d.start + DataSectors(d) <= freeMap.bitCnt && AllAre(freeMap.Bits(), d.start, DataSectors(d), true)
      requires !(d.start <= sector < d.start + DataSectors(d))
      requires Unowned(inodes, slots, open, sector, 1) && Unowned(inodes, slots, open, d.start, DataSectors(d))
      modifies this`inodes, device
      ensures Sound() && OnDevice() && Unowned(inodes, slots, open, sector, 1) && inodes == old(inodes)[sector := d]
      ensures Allocated(freeMap.Bits(), sector, d)
      ensures AloneAt(inodes, slots, open, sector, d)
      ensures Zeroed(old(device.sectors), device.sectors, d)
    {
      NewInodeKeepsInv(freeMap.Bits(), inodes, slots, open, sector, d);
      NewInodeFits(freeMap.Bits(), inodes, slots, open, sector, d);
      inodes := inodes[sector := d];
      device.ZeroFill(d.start, DataSectors(d));
      FilledIsZeroed(old(device.sectors), device.sectors, d);
    }

    /** dir_add.  The reads of entry `k1` in the first search and of entry `k2` in the second are
        short; `written` says whether the entry could be written. */
    method DirAdd(name: string, sector: nat, k1: nat, k2: nat, written: bool) returns (ok: bool)
      requires Sound() && !Live(slots, open, sector) && sector in inodes && Allocated(freeMap.Bits(), sector, inodes[sector])
      requires AloneAt(inodes, slots, open, sector, inodes[sector])
      requires k1 <= |slots| && k2 <= |slots|
      modifies this`slots
      ensures Sound() && |slots| == |old(slots)|
      ensures ok <==> CanAdd(old(slots), name, k1, k2, written)
      ensures ok ==> Adds(old(slots), slots, name, sector, k1, k2) && HasEntry(slots, name, sector)
      ensures ok && Orderly(old(slots), open) ==>
        (Orderly(slots, open) && KeepsEntries(old(slots), slots) <==> Harmless(old(slots), name, k1, k2))
      ensures !ok ==> slots == old(slots)
    {
      if !ValidName(name) {
        return false;
      }
      var dup := Lookup(name, k1);
      if dup.Some? {
        return false;
      }
      var i := FindFree(k2);
      if i == |slots| || !written {
        return false;
      }
      NewEntry(freeMap.Bits(), inodes, slots, open, name, sector, k1, k2);
      slots := slots[i := Slot(true, name, sector)];
      return true;
    }

    /** filesys_create.  A file that gets no name gives its inode's sector back. */
    method Create(name: string, size: int, dirOk: bool, write1: bool, memory: bool, write2: bool, k1: nat, k2: nat, write3: bool)
      returns (ok: Option<bool>, ghost s: nat)
      requires Valid() && OnDevice() && Inode.IsOffset(size) && k1 <= |slots| && k2 <= |slots|
      modifies this`inodes, this`slots, freeMap.bits, device
      ensures Valid() && OnDevice()
      ensures ok == Some(true) ==> Adds(old(slots), slots, name, s, k1, k2) && HasEntry(slots, name, s) && !Live(old(slots), open, s)
      ensures ok == Some(true) ==> s in inodes && inodes[s].length == size && Zeroed(old(device.sectors), device.sectors, inodes[s])
      ensures ok == Some(true) && Orderly(old(slots), open) ==>
        (Orderly(slots, open) && KeepsEntries(old(slots), slots) <==> Harmless(old(slots), name, k1, k2))
      ensures ok != Some(true) ==> slots == old(slots)
      ensures ok.None? <==> dirOk && write1 && false in old(freeMap.Bits()) && Undefined(size, memory)
      ensures dirOk && write1 && false in old(freeMap.Bits()) ==> IsFirstGroup(old(freeMap.Bits()), 0, 1, false, Some(s))
      ensures ok == Some(true) <==>
        && dirOk && write1 && false in old(freeMap.Bits())
        && CanCreate(SetRange(old(freeMap.Bits()), s, 1, true), size, memory, write2) && CanAdd(old(slots), name, k1, k2, write3)
      ensures ok == Some(true) ==>
        inodes == old(inodes)[s := inodes[s]] && Took(SetRange(old(freeMap.Bits()), s, 1, true), freeMap.Bits(), inodes[s])
      ensures ok == Some(false) ==>
        if dirOk && write1 && false in old(freeMap.Bits()) && CanCreate(SetRange(old(freeMap.Bits()), s, 1, true), size, memory, write2) then
          && s in inodes && inodes == old(inodes)[s := inodes[s]] && inodes[s].start + DataSectors(inodes[s]) <= freeMap.bitCnt
          && freeMap.Bits() == SetRange(old(freeMap.Bits()), inodes[s].start, DataSectors(inodes[s]), true)
        else inodes == old(inodes) && freeMap.Bits() == old(freeMap.Bits())
    {
      ok, s := Some(false), 0;
      if !dirOk {
        return;
      }
      var r := AllocateOne(write1);
      if r.None? {
        return;
      }
      var sector := r.value;
      s := sector;
      ok := CreateAt(name, sector, size, memory, write2, k1, k2, write3);
      if ok == Some(false) {
        SetRangeKeepsInv(freeMap.Bits(), inodes, slots, open, sector, 1, false);
        if CanCreate(SetRange(old(freeMap.Bits()), s, 1, true), size, memory, write2) {
          GivesBackOne(old(freeMap.Bits()), freeMap.Bits(), sector, inodes[sector]);
        } else {
          UndoRange(old(freeMap.Bits()), sector, 1);
        }
        Release(sector, 1);
      }
    }

    /** inode_create and dir_add for the sector that was allocated. */
    method CreateAt(name: string, sector: nat, size: int, memory: bool, written: bool, k1: nat, k2: nat, added: bool)
      returns (ok: Option<bool>)
      requires Sound() && OnDevice() && Inode.IsOffset(size) && k1 <= |slots| && k2 <= |slots|
      requires sector < freeMap.bitCnt && freeMap.Bits()[sector] && Unowned(inodes, slots, open, sector, 1)
      modifies this`inodes, this`slots, freeMap.bits, device
      ensures Sound() && OnDevice() && freeMap.Bits()[sector] && !Live(old(slots), open, sector)
      ensures ok == Some(true) ==> Adds(old(slots), slots, name, sector, k1, k2) && HasEntry(slots, name, sector)
      ensures ok == Some(true) ==>
        sector in inodes && inodes[sector].length == size && Zeroed(old(device.sectors), device.sectors, inodes[sector])
      ensures ok == Some(true) && Orderly(old(slots), open) ==>
        (Orderly(slots, open) && KeepsEntries(old(slots), slots) <==> Harmless(old(slots), name, k1, k2))
      ensures ok != Some(true) ==> slots == old(slots) && Unowned(inodes, slots, open, sector, 1)
      ensures ok.None? <==> Undefined(size, memory)
      ensures ok == Some(true) <==> CanCreate(old(freeMap.Bits()), size, memory, written) && CanAdd(old(slots), name, k1, k2, added)
      ensures CanCreate(old(freeMap.Bits()), size, memory, written) ==>
        sector in inodes && inodes == old(inodes)[sector := inodes[sector]] && Took(old(freeMap.Bits()), freeMap.Bits(), inodes[sector])
      ensures !CanCreate(old(freeMap.Bits()), size, memory, written) ==> inodes == old(inodes) && freeMap.Bits() == old(freeMap.Bits())
    {
      UnownedIsNotLive(freeMap.Bits(), inodes, slots, open, sector);
      ok := InodeCreate(sector, size, memory, written);
      if ok == Some(true) {
        var r := DirAdd(name, sector, k1, k2, added);
        ok := Some(r);
      }
    }

    /** inode_open. */
    method InodeOpen(sector: nat, memory: bool) returns (ok: bool)
      requires Sound() && Live(slots, open, sector)
      modifies this`open
      ensures Sound() && (ok <==> sector in old(open) || memory)
      ensures if ok then OpenedOnce(old(open), open, sector) else open == old(open)
      ensures ok ==> sector in inodes && Allocated(freeMap.Bits(), sector, inodes[sector]) && open[sector].data == inodes[sector]
    {
      if sector in open {
        RecountKeepsInv(freeMap.Bits(), inodes, slots, open, sector, open[sector].openCnt + 1);
        open := open[sector := open[sector].(openCnt := open[sector].openCnt + 1)];
        return true;
      }
      if !memory {
        return false;
      }
      OpenKeepsInv(freeMap.Bits(), inodes, slots, open, sector);
      open := open[sector := Opened(1, false, inodes[sector])];
      return true;
    }

    /** Gives back every sector of an inode, all of them while they are still allocated. */
    method ReleaseInode(sector: nat, d: DiskInode)
      requires freeMap.Valid() && Allocated(freeMap.Bits(), sector, d)
      modifies freeMap.bits
      ensures freeMap.Valid() && freeMap.Bits() == Freed(old(freeMap.Bits()), sector, d)
    {
      FreedSectors(freeMap.Bits(), sector, d);
      Release(sector, 1);
      Release(d.start, DataSectors(d));
    }

    /** inode_close. */
    method InodeClose(sector: nat)
      requires Sound() && sector in open
      modifies this`open, freeMap.bits
      ensures Sound() && open == ClosedOpen(old(open), sector)
      ensures ClosedUsed(old(freeMap.Bits()), freeMap.Bits(), old(open), sector)
    {
      ghost var used := freeMap.Bits();
      var inode := open[sector];
      OpenIsAllocated(used, inodes, slots, open, sector);
      if inode.openCnt == 1 {
        open := open - {sector};
        if inode.removed {
          ReleaseInode(sector, inode.data);
        }
      } else {
        open := open[sector := inode.(openCnt := inode.openCnt - 1)];
      }
      CloseKeepsInv(used, freeMap.Bits(), inodes, slots, old(open), sector);
    }

    method OpenFile(sector: nat, memory: bool, fileMemory: bool) returns (ok: bool)
      requires Valid() && Named(slots, sector)
      modifies this`open, this`handles, freeMap.bits
      ensures Valid() && freeMap.Bits() == old(freeMap.Bits())
      ensures ok <==> (sector in old(open) || memory) && fileMemory
      ensures handles == if ok then old(handles) + multiset{sector} else old(handles)
      ensures Orderly(slots, old(open)) ==> Orderly(slots, open)
    {
      ok := InodeOpen(sector, memory);
      if ok {
        OpenThenClose(handles, old(open), open, sector);
        if fileMemory {
          handles := handles + multiset{sector};
        } else {
          InodeClose(sector);
          ok := false;
        }
      }
    }

    /** filesys_open.  The handle is the inode's sector.  The read of entry `k` is short. */
    method Open(name: string, dirOk: bool, k: nat, memory: bool, fileMemory: bool) returns (h: Option<nat>)
      requires Valid() && k <= |slots|
      modifies this`open, this`handles, freeMap.bits
      ensures Valid() && freeMap.Bits() == old(freeMap.Bits())
      ensures var i := FirstMatch(slots, name, k);
        h == if dirOk && i.Some? && (slots[i.value].sector in old(open) || memory) && fileMemory then Some(slots[i.value].sector) else None
      ensures handles == if h.Some? then old(handles) + multiset{h.value} else old(handles)
      ensures Orderly(slots, old(open)) ==> Orderly(slots, open)
    {
      h := None;
      if dirOk {
        var i := Lookup(name, k);
        if i.Some? {
          var s := slots[i.value].sector;
          var ok := OpenFile(s, memory, fileMemory);
          h := if ok then Some(s) else None;
        }
      }
    }

    /** file_close.  The sectors of a removed file are given back when its last handle goes. */
    method Close(h: nat)
      requires Valid() && h in handles
      modifies this`open, this`handles, freeMap.bits
      ensures Valid() && handles == old(handles) - multiset{h}
      ensures h in old(open) && ClosedUsed(old(freeMap.Bits()), freeMap.Bits(), old(open), h)
      ensures Orderly(slots, old(open)) ==>
        Orderly(slots, open) && GivenBack(old(freeMap.Bits()), freeMap.Bits(), inodes, slots, handles, h)
    {
      CloseCounts(handles, open, h);
      InodeClose(h);
      if Orderly(slots, old(open)) {
        CloseMeans(old(freeMap.Bits()), freeMap.Bits(), inodes, slots, old(open), handles, h);
      }
      handles := handles - multiset{h};
    }

    /** The entry's inode loses its name and is marked removed. */
    method Erase(i: nat)
      requires Sound() && i < |slots| && slots[i].inUse && slots[i].sector in open
      modifies this`open, this`slots
      ensures Sound() && !Named(slots, old(slots)[i].sector) && slots == old(slots)[i := old(slots)[i].(inUse := false)]
      ensures var s := old(slots)[i].sector; open == old(open)[s := old(open)[s].(removed := true)]
    {
      EraseKeepsInv(freeMap.Bits(), inodes, slots, open, i);
      ErasedSlotsOk(slots, i);
      var s := slots[i].sector;
      slots := slots[i := slots[i].(inUse := false)];
      open := open[s := open[s].(removed := true)];
    }

    method EraseAndClose(i: nat)
      requires Sound() && i < |slots| && slots[i].inUse && slots[i].sector in open
      modifies this`open, this`slots, freeMap.bits
      ensures Sound() && !Named(slots, old(slots)[i].sector) && slots == old(slots)[i := old(slots)[i].(inUse := false)]
      ensures var s := old(slots)[i].sector;
        var erased := old(open)[s := old(open)[s].(removed := true)];
        open == ClosedOpen(erased, s) && ClosedUsed(old(freeMap.Bits()), freeMap.Bits(), erased, s)
      ensures Orderly(old(slots), old(open)) ==> Orderly(slots, open)
    {
      if Orderly(slots, open) {
        EraseKeepsOrder(slots, open, i);
      }
      var s := slots[i].sector;
      Erase(i);
      InodeClose(s);
    }

    method RemoveEntry(i: nat, memory: bool, written: bool) returns (ok: bool)
      requires Valid() && i < |slots| && slots[i].inUse
      modifies this`open, this`slots, freeMap.bits
      ensures Valid()
      ensures ok <==> (old(slots)[i].sector in old(open) || memory) && written
      ensures ok ==> var s := old(slots)[i].sector;
        && !Named(slots, s) && s in inodes && Allocated(old(freeMap.Bits()), s, inodes[s])
        && freeMap.Bits() == if s in handles then old(freeMap.Bits()) else Freed(old(freeMap.Bits()), s, inodes[s])
      ensures slots == if ok then old(slots)[i := old(slots)[i].(inUse := false)] else old(slots)
      ensures !ok ==> freeMap.Bits() == old(freeMap.Bits())
      ensures Orderly(old(slots), old(open)) ==> Orderly(slots, open)
    {
      var sector := slots[i].sector;
      ok := InodeOpen(sector, memory);
      if ok {
        OpenThenClose(handles, old(open), open, sector);
        if written {
          ghost var during := open;
          EraseAndClose(i);
          RemoveGivesBack(old(freeMap.Bits()), freeMap.Bits(), handles, old(open), during, sector);
        } else {
          ok := false;
          InodeClose(sector);
        }
      }
    }

    /** filesys_remove.  The read of entry `k` is short; `written` says whether the entry could be
        erased.  The sectors are given back at once when nobody has the file open. */
    method Remove(name: string, dirOk: bool, k: nat, memory: bool, written: bool) returns (ok: bool, ghost s: nat)
      requires Valid() && k <= |slots|
      modifies this`open, this`slots, freeMap.bits
      ensures Valid()
      ensures var i := FirstMatch(old(slots), name, k);
        && (ok <==> dirOk && i.Some? && (old(slots)[i.value].sector in old(open) || memory) && written)
        && (ok ==> s == old(slots)[i.value].sector)
        && slots == if ok then old(slots)[i.value := old(slots)[i.value].(inUse := false)] else old(slots)
      ensures ok ==> !Named(slots, s) && s in inodes && Allocated(old(freeMap.Bits()), s, inodes[s])
      ensures ok ==> freeMap.Bits() == if s in handles then old(freeMap.Bits()) else Freed(old(freeMap.Bits()), s, inodes[s])
      ensures !ok ==> freeMap.Bits() == old(freeMap.Bits())
      ensures Orderly(old(slots), old(open)) ==> Orderly(slots, open)
      ensures Orderly(old(slots), old(open)) && ok ==> FirstMatch(slots, name, |slots|).None?
    {
      ok, s := false, 0;
      if dirOk {
        var i := Lookup(name, k);
        if i.Some? {
          s := slots[i.value].sector;
          ok := RemoveEntry(i.value, memory, written);
        }
      }
    }
  }
}
