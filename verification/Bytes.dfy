/** Byte buffers that are written part by part, and C strings. */
module Bytes {

  type Byte = x: int | 0 <= x < 256

  /** A C string without its terminator. */
  type CString = s: seq<Byte> | forall i :: 0 <= i < |s| ==> s[i] != 0 witness []

  /** A write of `bytes` at `at`. */
  method Write(mem: array<Byte>, at: int, bytes: seq<Byte>)
    requires 0 <= at && at + |bytes| <= mem.Length
    modifies mem
    ensures mem[..] == old(mem[..at]) + bytes + old(mem[at + |bytes|..])
  {
    forall i | at <= i < at + |bytes| {
      mem[i] := bytes[i - at];
    }
  }

  /** Writing elsewhere keeps a part of memory. */
  lemma {:induction false} KeptPart(before: seq<Byte>, after: seq<Byte>, at: int, bytes: seq<Byte>, x: int, y: int)
    requires 0 <= at && at + |bytes| <= |before| && after == before[..at] + bytes + before[at + |bytes|..]
    requires 0 <= x <= y <= |before| && (y <= at || at + |bytes| <= x)
    ensures after[x..y] == before[x..y]
  {
    forall k | x <= k < y ensures after[k] == before[k] {
    }
  }

  lemma {:induction false} WrittenPart(before: seq<Byte>, after: seq<Byte>, at: int, bytes: seq<Byte>)
    requires 0 <= at && at + |bytes| <= |before| && after == before[..at] + bytes + before[at + |bytes|..]
    ensures |after| == |before| && after[at..at + |bytes|] == bytes
  {
  }
}
