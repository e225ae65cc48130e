/** Reading and writing the bytes of a file (filesys/inode.c): loops over sector-sized chunks that
    refine an array of bytes. */
module Inode {

  type Byte = bv8
  type Sector = s: seq<Byte> | |s| == SECTOR witness seq(SECTOR, _ => 0)

  const SECTOR := 512

  datatype Inode = Inode(start: nat, length: nat, denyWriteCnt: nat)

  /** The largest off_t, a signed 32-bit integer. */
  const OFF_MAX := 0x7fff_ffff

  predicate IsOffset(x: int) {
    -OFF_MAX - 1 <= x <= OFF_MAX
  }

  /** bytes_to_sectors adds a whole sector to its off_t first; that must not overflow. */
  predicate SumFits(length: int) {
    length + SECTOR <= OFF_MAX
  }

  /** bytes_to_sectors. */
  function Sectors(length: nat): (n: nat) {
    (length + SECTOR - 1) / SECTOR
  }

  /** The sectors hold the bytes, and one fewer would not. */
  lemma {:induction false} SectorsSuffice(length: nat, n: nat)
    ensures n == Sectors(length) <==> (n - 1) * SECTOR < length <= n * SECTOR
  {
  }

  /** The inode's extent lies on the device. */
  ghost predicate OnDevice(sectors: seq<Sector>, inode: Inode) {
    inode.start + Sectors(inode.length) <= |sectors|
  }

  /** The sector of a byte that the inode has. */
  function SectorOf(inode: Inode, pos: nat): (r: nat)
    requires pos < inode.length
    ensures inode.start <= r < inode.start + Sectors(inode.length)
  {
    inode.start + pos / SECTOR
  }

  /** byte_to_sector: -1 exactly for a byte that the inode does not have, else a sector of its extent
      that has as many sectors of the inode before it as fit in `pos` bytes. */
  function ByteToSector(inode: Inode, pos: nat): (r: int)
    ensures r == -1 <==> pos >= inode.length
    ensures r != -1 ==> inode.start <= r < inode.start + Sectors(inode.length)
    ensures r != -1 ==> (r - inode.start) * SECTOR <= pos < (r - inode.start + 1) * SECTOR
  {
    if pos < inode.length then SectorOf(inode, pos) else -1
  }

  function ByteAt(sectors: seq<Sector>, inode: Inode, pos: nat): Byte
    requires OnDevice(sectors, inode) && pos < inode.length
  {
    sectors[SectorOf(inode, pos)][pos % SECTOR]
  }

  /** The file as an array of bytes. */
  function Contents(sectors: seq<Sector>, inode: Inode): (r: seq<Byte>)
    requires OnDevice(sectors, inode)
    ensures |r| == inode.length && forall i :: 0 <= i < |r| ==> r[i] == ByteAt(sectors, inode, i)
  {
    seq(inode.length, i requires 0 <= i < inode.length => ByteAt(sectors, inode, i))
  }

  function Joined(sectors: seq<Sector>): (r: seq<Byte>)
    ensures |r| == |sectors| * SECTOR
  {
    if sectors == [] then [] else Joined(sectors[..|sectors| - 1]) + sectors[|sectors| - 1]
  }

  lemma {:induction false} JoinedAt(sectors: seq<Sector>, i: nat)
    requires i < |sectors| * SECTOR
    ensures Joined(sectors)[i] == sectors[i / SECTOR][i % SECTOR]
  {
    var k := |sectors| - 1;
    if i < k * SECTOR {
      JoinedAt(sectors[..k], i);
    } else {
      assert i / SECTOR == k;
    }
  }

  /** The file is its sectors one after the other, cut off at its length. */
  lemma {:induction false} ContentsIsJoined(sectors: seq<Sector>, inode: Inode)
    requires OnDevice(sectors, inode)
    ensures inode.length <= Sectors(inode.length) * SECTOR
    ensures Contents(sectors, inode) == Joined(sectors[inode.start..inode.start + Sectors(inode.length)])[..inode.length]
  {
    var n := Sectors(inode.length);
    SectorsSuffice(inode.length, n);
    var part := sectors[inode.start..inode.start + n];
    forall i: nat | i < inode.length ensures ByteAt(sectors, inode, i) == Joined(part)[i] {
      JoinedAt(part, i);
    }
  }

  /** Both the request and the file have `n` bytes from `offset`. */
  predicate Has(inode: Inode, size: int, offset: nat, n: nat) {
    n <= size && offset + n <= inode.length
  }

  /** `n` is the largest multiple of `step` that both have, or else 0. */
  predicate IsMost(inode: Inode, size: int, offset: nat, step: nat, n: nat)
    requires step > 0
  {
    n % step == 0 && (n == 0 || Has(inode, size, offset, n)) && !Has(inode, size, offset, n + step)
  }

  /** How many bytes a transfer is to move: all that there are.  Without memory for the bounce buffer,
      whole sectors only, and none from an offset inside a sector. */
  predicate IsCount(inode: Inode, size: int, offset: nat, memory: bool, n: nat) {
    if memory then IsMost(inode, size, offset, 1, n)
    else if offset % SECTOR == 0 then IsMost(inode, size, offset, SECTOR, n)
    else n == 0
  }

  /** There is one such number. */
  lemma {:induction false} CountIsUnique(inode: Inode, size: int, offset: nat, memory: bool, m: nat, n: nat)
    requires IsCount(inode, size, offset, memory, m) && IsCount(inode, size, offset, memory, n)
    ensures m == n
  {
    if !memory && offset % SECTOR == 0 {
      var a, b := m / SECTOR, n / SECTOR;
      assert m == a * SECTOR && n == b * SECTOR;
      assert a < b ==> m + SECTOR <= n;
      assert b < a ==> n + SECTOR <= m;
    }
  }

  /** How many of `size` bytes at `offset` the file has. */
  function Clipped(inode: Inode, size: int, offset: nat): nat {
    if size <= 0 || offset >= inode.length then 0
    else if size < inode.length - offset then size else inode.length - offset
  }

  /** How many the loop moves: all of them, or whole sectors only when there is no memory for the
      bounce buffer. */
  function Moved(inode: Inode, size: int, offset: nat, memory: bool): nat {
    var n := Clipped(inode, size, offset);
    if memory then n else if offset % SECTOR == 0 then n - n % SECTOR else 0
  }

  lemma {:induction false} MovedIsCount(inode: Inode, size: int, offset: nat, memory: bool)
    ensures IsCount(inode, size, offset, memory, Moved(inode, size, offset, memory))
  {
    var n := Clipped(inode, size, offset);
    assert n - n % SECTOR == n / SECTOR * SECTOR;
  }

  /** The bytes of the next chunk: what is wanted, is left in the file, and is left in the sector. */
  function Chunk(inode: Inode, size: int, offset: nat): int {
    var inodeLeft, sectorLeft := inode.length - offset, SECTOR - offset % SECTOR;
    var minLeft := if inodeLeft < sectorLeft then inodeLeft else sectorLeft;
    if size < minLeft then size else minLeft
  }

  /** Skipping a chunk leaves the rest of the transfer to do. */
  lemma {:induction false} ChunkIsPart(inode: Inode, size: int, offset: nat, memory: bool)
    requires size > 0
    ensures var c := Chunk(inode, size, offset);
      && (c <= 0 ==> Moved(inode, size, offset, memory) == 0)
      && (c > 0 && (memory || (offset % SECTOR == 0 && c == SECTOR)) ==>
            Moved(inode, size, offset, memory) == c + Moved(inode, size - c, offset + c, memory))
      && (c > 0 && !memory && !(offset % SECTOR == 0 && c == SECTOR) ==> Moved(inode, size, offset, memory) == 0)
      && (c > 0 ==> c <= Clipped(inode, size, offset))
  {
  }

  /** Bytes of one chunk share a sector. */
  lemma {:induction false} SameSector(offset: nat, i: nat)
    requires offset % SECTOR + i < SECTOR
    ensures (offset + i) / SECTOR == offset / SECTOR && (offset + i) % SECTOR == offset % SECTOR + i
  {
  }

  /** memcpy of `n` bytes to `buffer[at..]`. */
  method Copy(buffer: array<Byte>, at: nat, from: seq<Byte>)
    requires at + |from| <= buffer.Length
    modifies buffer
    ensures forall i :: 0 <= i < buffer.Length ==>
      buffer[i] == if at <= i < at + |from| then from[i - at] else old(buffer[i])
  {
    forall i | at <= i < at + |from| {
      buffer[i] := from[i - at];
    }
  }

  // ----- What a write does -----

  /** Byte `j` of sector `k` after `data` has been written to the inode at `offset`. */
  ghost function WrittenByte(sectors: seq<Sector>, inode: Inode, offset: nat, data: seq<Byte>, k: nat, j: nat): Byte
    requires k < |sectors| && j < SECTOR
  {
    var pos := (k - inode.start) * SECTOR + j;
    if offset <= pos < offset + |data| then data[pos - offset] else sectors[k][j]
  }

  ghost predicate Wrote(before: seq<Sector>, after: seq<Sector>, inode: Inode, offset: nat, data: seq<Byte>) {
    && |after| == |before|
    && forall k: nat, j: nat :: k < |before| && j < SECTOR ==> after[k][j] == WrittenByte(before, inode, offset, data, k, j)
  }

  /** One sector with `part` in it at `ofs`; a part that fills the sector replaces all of it. */
  function Patched(sector: Sector, ofs: nat, part: seq<Byte>): Sector
    requires ofs + |part| <= SECTOR
  {
    sector[..ofs] + part + sector[ofs + |part|..]
  }

  lemma {:induction false} PatchWrites(before: seq<Sector>, mid: seq<Sector>, inode: Inode, offset: nat, data: seq<Byte>, part: seq<Byte>)
    requires Wrote(before, mid, inode, offset, data)
    requires (offset + |data|) % SECTOR + |part| <= SECTOR && inode.start + (offset + |data|) / SECTOR < |mid|
    ensures var k := inode.start + (offset + |data|) / SECTOR;
      Wrote(before, mid[k := Patched(mid[k], (offset + |data|) % SECTOR, part)], inode, offset, data + part)
  {
    var at := offset + |data|;
    var s, ofs := inode.start + at / SECTOR, at % SECTOR;
    var after := mid[s := Patched(mid[s], ofs, part)];
    forall k: nat, j: nat | k < |before| && j < SECTOR
      ensures after[k][j] == WrittenByte(before, inode, offset, data + part, k, j)
    {
      assert mid[k][j] == WrittenByte(before, inode, offset, data, k, j);
      var pos := (k - inode.start) * SECTOR + j;
      if k == s {
        assert pos == at - ofs + j;
      } else if k < s {
        assert pos < at;
      } else {
        assert pos >= at + |part|;
      }
    }
  }

  /** The file changes in exactly the bytes written. */
  lemma {:induction false} WriteIsSplice(before: seq<Sector>, after: seq<Sector>, inode: Inode, offset: nat, data: seq<Byte>)
    requires OnDevice(before, inode) && Wrote(before, after, inode, offset, data) && offset + |data| <= inode.length
    ensures var old_ := Contents(before, inode);
      Contents(after, inode) == old_[..offset] + data + old_[offset + |data|..]
  {
    var old_ := Contents(before, inode);
    forall i: nat | i < inode.length ensures ByteAt(after, inode, i) == (old_[..offset] + data + old_[offset + |data|..])[i] {
      var k, j := SectorOf(inode, i), i % SECTOR;
      assert after[k][j] == WrittenByte(before, inode, offset, data, k, j);
      assert (k - inode.start) * SECTOR + j == i;
    }
  }

  /** No byte of a file with another extent changes. */
  lemma {:induction false} OtherFilesStay(before: seq<Sector>, after: seq<Sector>, inode: Inode, offset: nat, data: seq<Byte>, other: Inode)
    requires OnDevice(before, inode) && OnDevice(before, other)
    requires Wrote(before, after, inode, offset, data) && offset + |data| <= inode.length
    requires other.start + Sectors(other.length) <= inode.start || inode.start + Sectors(inode.length) <= other.start
    ensures Contents(after, other) == Contents(before, other)
  {
    forall i: nat | i < other.length ensures ByteAt(after, other, i) == ByteAt(before, other, i) {
      var k, j := SectorOf(other, i), i % SECTOR;
      assert after[k][j] == WrittenByte(before, inode, offset, data, k, j);
    }
  }

  const ZEROS: Sector := seq(SECTOR, _ => 0)

  /** A file all of whose sectors are zeros reads as zeros. */
  lemma {:induction false} ZerosRead(sectors: seq<Sector>, inode: Inode)
    requires OnDevice(sectors, inode)
    requires forall k :: inode.start <= k < inode.start + Sectors(inode.length) ==> sectors[k] == ZEROS
    ensures Contents(sectors, inode) == seq(inode.length, _ => 0)
  {
    forall i: nat | i < inode.length ensures ByteAt(sectors, inode, i) == 0 {
      var k := SectorOf(inode, i);
      assert sectors[k] == ZEROS;
    }
  }

  class Device {
    var sectors: seq<Sector>

    /** The loop of inode_create over the new file's sectors. */
    method ZeroFill(start: nat, n: nat)
      requires start + n <= |sectors|
      modifies this
      ensures |sectors| == |old(sectors)|
      ensures forall k :: 0 <= k < |sectors| ==> sectors[k] == if start <= k < start + n then ZEROS else old(sectors)[k]
    {
      for i := 0 to n
        invariant |sectors| == |old(sectors)|
        invariant forall k :: 0 <= k < |sectors| ==> sectors[k] == if start <= k < start + i then ZEROS else old(sectors)[k]
      {
        sectors := sectors[start + i := ZEROS];
      }
    }

    /** inode_read_at.  `memory` says whether the bounce buffer can be allocated. */
    method ReadAt(inode: Inode, buffer: array<Byte>, size0: int, offset0: nat, memory: bool) returns (bytesRead: nat)
      requires OnDevice(sectors, inode) && size0 <= buffer.Length
      modifies buffer
      ensures IsCount(inode, size0, offset0, memory, bytesRead) && bytesRead <= buffer.Length
      ensures offset0 + bytesRead <= inode.length || bytesRead == 0
      ensures forall i :: 0 <= i < bytesRead ==> buffer[i] == Contents(sectors, inode)[offset0 + i]
      ensures forall i :: bytesRead <= i < buffer.Length ==> buffer[i] == old(buffer[i])
    {
      MovedIsCount(inode, size0, offset0, memory);
      var size, offset := size0, offset0;
      bytesRead := 0;
      while size > 0
        invariant offset == offset0 + bytesRead && size == size0 - bytesRead && 0 <= bytesRead <= buffer.Length
        invariant Moved(inode, size0, offset0, memory) == bytesRead + Moved(inode, size, offset, memory)
        invariant bytesRead > 0 ==> offset <= inode.length
        invariant forall i :: 0 <= i < bytesRead ==> buffer[i] == ByteAt(sectors, inode, offset0 + i)
        invariant forall i :: bytesRead <= i < buffer.Length ==> buffer[i] == old(buffer[i])
      {
        ChunkIsPart(inode, size, offset, memory);
        var sectorOfs := offset % SECTOR;
        var chunk := Chunk(inode, size, offset);
        var sectorIdx := ByteToSector(inode, offset);
        if chunk <= 0 {
          break;
        }
        if !(sectorOfs == 0 && chunk == SECTOR) && !memory {
          break;
        }
        var sector := sectors[sectorIdx];
        Copy(buffer, bytesRead, sector[sectorOfs..sectorOfs + chunk]);
        forall i | bytesRead <= i < bytesRead + chunk ensures buffer[i] == ByteAt(sectors, inode, offset0 + i) {
          SameSector(offset, i - bytesRead);
        }
        size, offset, bytesRead := size - chunk, offset + chunk, bytesRead + chunk;
      }
    }

    /** Writes the next `chunk` bytes of the buffer, which lie in one sector. */
    method PutChunk(inode: Inode, buffer: seq<Byte>, offset0: nat, written: nat, chunk: nat, ghost before: seq<Sector>)
      requires OnDevice(sectors, inode) && written + chunk <= |buffer| && offset0 + written < inode.length
      requires (offset0 + written) % SECTOR + chunk <= SECTOR
      requires Wrote(before, sectors, inode, offset0, buffer[..written])
      modifies this
      ensures Wrote(before, sectors, inode, offset0, buffer[..written + chunk])
    {
      var offset := offset0 + written;
      var idx, part := SectorOf(inode, offset), buffer[written..written + chunk];
      PatchWrites(before, sectors, inode, offset0, buffer[..written], part);
      assert buffer[..written] + part == buffer[..written + chunk];
      sectors := sectors[idx := Patched(sectors[idx], offset % SECTOR, part)];
    }

    /** inode_write_at.  Nothing is written while writes are denied. */
    method WriteAt(inode: Inode, buffer: seq<Byte>, size0: int, offset0: nat, memory: bool) returns (written: nat)
      requires OnDevice(sectors, inode) && size0 <= |buffer|
      modifies this
      ensures if inode.denyWriteCnt > 0 then written == 0 else IsCount(inode, size0, offset0, memory, written)
      ensures written <= |buffer| && (offset0 + written <= inode.length || written == 0)
      ensures Wrote(old(sectors), sectors, inode, offset0, buffer[..written])
    {
      written := 0;
      if inode.denyWriteCnt > 0 {
        return;
      }
      MovedIsCount(inode, size0, offset0, memory);
      var size, offset := size0, offset0;
      while size > 0
        invariant offset == offset0 + written && size == size0 - written && 0 <= written <= |buffer|
        invariant Moved(inode, size0, offset0, memory) == written + Moved(inode, size, offset, memory)
        invariant written > 0 ==> offset <= inode.length
        invariant Wrote(old(sectors), sectors, inode, offset0, buffer[..written])
      {
        ChunkIsPart(inode, size, offset, memory);
        var sectorOfs := offset % SECTOR;
        var chunk := Chunk(inode, size, offset);
        if chunk <= 0 {
          break;
        }
        if !(sectorOfs == 0 && chunk == SECTOR) && !memory {
          break;
        }
        PutChunk(inode, buffer, offset0, written, chunk, old(sectors));
        size, offset, written := size - chunk, offset + chunk, written + chunk;
      }
    }
  }
}
