/** The word-packed bitmap (lib/kernel/bitmap.c) against a plain sequence of bits. */
module Bitmap {
  import opened Common
  import opened Arithmetic

  const ELEM_BITS := 32

  // ----- On sequences of bits -----

  ghost predicate AllAre(s: seq<bool>, start: int, cnt: int, value: bool)
    requires 0 <= start && 0 <= cnt && start + cnt <= |s|
  {
    forall i :: start <= i < start + cnt ==> s[i] == value
  }

  function SetRange(s: seq<bool>, start: nat, cnt: nat, value: bool): seq<bool>
    requires start + cnt <= |s|
  {
    s[..start] + seq(cnt, _ => value) + s[start + cnt..]
  }

  /** `r` is the first group of `cnt` bits equal to `value` at or after `start`, if there is one. */
  ghost predicate IsFirstGroup(s: seq<bool>, start: nat, cnt: nat, value: bool, r: Option<nat>) {
    match r
    case Some(k) =>
      && start <= k && k + cnt <= |s| && AllAre(s, k, cnt, value)
      && forall j :: start <= j < k ==> !AllAre(s, j, cnt, value)
    case None => forall j :: start <= j && j + cnt <= |s| ==> !AllAre(s, j, cnt, value)
  }

  // ----- Words -----

  /** Bit `k` of the word `x`. */
  predicate Bit(x: nat, k: nat)
    decreases k
  {
    if k == 0 then x % 2 == 1 else Bit(x / 2, k - 1)
  }

  /** OR with the mask whose only bit is `k`. */
  function OrBit(x: nat, k: nat): nat
    decreases k
  {
    if k == 0 then x / 2 * 2 + 1 else OrBit(x / 2, k - 1) * 2 + x % 2
  }

  /** AND with the complement of that mask. */
  function AndNotBit(x: nat, k: nat): nat
    decreases k
  {
    if k == 0 then x / 2 * 2 else AndNotBit(x / 2, k - 1) * 2 + x % 2
  }

  lemma {:induction false} OrChangesOneBit(x: nat, a: nat, b: nat)
    ensures Bit(OrBit(x, a), b) == (a == b || Bit(x, b))
    decreases a
  {
    if a > 0 && b > 0 {
      OrChangesOneBit(x / 2, a - 1, b - 1);
    }
  }

  lemma {:induction false} AndChangesOneBit(x: nat, a: nat, b: nat)
    ensures Bit(AndNotBit(x, a), b) == (a != b && Bit(x, b))
    decreases a
  {
    if a > 0 && b > 0 {
      AndChangesOneBit(x / 2, a - 1, b - 1);
    }
  }

  /** The mask's weight is added or taken off, so a word keeps its width. */
  lemma {:induction false} MaskWeight(x: nat, k: nat, n: nat)
    requires k < n && x < Pow2(n)
    ensures OrBit(x, k) == x + (if Bit(x, k) then 0 else Pow2(k)) && OrBit(x, k) < Pow2(n)
    ensures AndNotBit(x, k) == x - (if Bit(x, k) then Pow2(k) else 0)
    decreases k
  {
    if k > 0 {
      MaskWeight(x / 2, k - 1, n - 1);
    }
  }

  lemma {:induction false} ZeroHasNoBits(k: nat)
    ensures !Bit(0, k)
  {
    if k > 0 {
      ZeroHasNoBits(k - 1);
    }
  }

  lemma {:induction false} RangeGrows(s: seq<bool>, start: nat, cnt: nat, value: bool)
    requires start + cnt < |s|
    ensures SetRange(s, start, cnt, value)[start + cnt := value] == SetRange(s, start, cnt + 1, value)
  {
  }

  class Bitmap {
    const bitCnt: nat
    const bits: array<nat>

    predicate Sized() {
      bits.Length == (bitCnt + ELEM_BITS - 1) / ELEM_BITS
    }

    ghost predicate Valid()
      reads bits
    {
      Sized() && forall w :: 0 <= w < bits.Length ==> bits[w] < Pow2(ELEM_BITS)
    }

    /** bitmap_test on any index. */
    predicate At(i: nat)
      requires Sized() && i < bitCnt
      reads bits
    {
      Bit(bits[i / ELEM_BITS], i % ELEM_BITS)
    }

    ghost function Bits(): (s: seq<bool>)
      requires Sized()
      reads bits
      ensures |s| == bitCnt && forall i :: 0 <= i < bitCnt ==> s[i] == At(i)
    {
      seq(bitCnt, i requires 0 <= i < bitCnt reads bits => At(i))
    }

    constructor (bitCnt: nat)
      ensures Valid() && this.bitCnt == bitCnt && fresh(bits) && Bits() == seq(bitCnt, _ => false)
    {
      this.bitCnt := bitCnt;
      bits := new nat[(bitCnt + ELEM_BITS - 1) / ELEM_BITS](_ => 0);
      new;
      forall i: nat | i < bitCnt ensures !At(i) {
        ZeroHasNoBits(i % ELEM_BITS);
      }
    }

    method Mark(idx: nat)
      requires Valid() && idx < bitCnt
      modifies bits
      ensures Valid() && Bits() == old(Bits())[idx := true]
    {
      var w, k := idx / ELEM_BITS, idx % ELEM_BITS;
      MaskWeight(bits[w], k, ELEM_BITS);
      bits[w] := OrBit(bits[w], k);
      forall i: nat | i < bitCnt ensures At(i) == old(Bits())[idx := true][i] {
        OrChangesOneBit(old(bits[w]), k, i % ELEM_BITS);
      }
    }

    method Reset(idx: nat)
      requires Valid() && idx < bitCnt
      modifies bits
      ensures Valid() && Bits() == old(Bits())[idx := false]
    {
      var w, k := idx / ELEM_BITS, idx % ELEM_BITS;
      MaskWeight(bits[w], k, ELEM_BITS);
      bits[w] := AndNotBit(bits[w], k);
      forall i: nat | i < bitCnt ensures At(i) == old(Bits())[idx := false][i] {
        AndChangesOneBit(old(bits[w]), k, i % ELEM_BITS);
      }
    }

    method Set(idx: nat, value: bool)
      requires Valid() && idx < bitCnt
      modifies bits
      ensures Valid() && Bits() == old(Bits())[idx := value]
    {
      if value {
        Mark(idx);
      } else {
        Reset(idx);
      }
    }

    method SetMultiple(start: nat, cnt: nat, value: bool)
      requires Valid() && start + cnt <= bitCnt
      modifies bits
      ensures Valid() && Bits() == SetRange(old(Bits()), start, cnt, value)
    {
      var i := 0;
      while i < cnt
        invariant Valid() && 0 <= i <= cnt && Bits() == SetRange(old(Bits()), start, i, value)
      {
        RangeGrows(old(Bits()), start, i, value);
        Set(start + i, value);
        i := i + 1;
      }
    }

    /** Whether some bit of the range is `value`. */
    method Contains(start: nat, cnt: nat, value: bool) returns (r: bool)
      requires Valid() && start + cnt <= bitCnt
      ensures r <==> !AllAre(Bits(), start, cnt, !value)
    {
      var i := 0;
      while i < cnt
        invariant 0 <= i <= cnt && AllAre(Bits(), start, i, !value)
      {
        if At(start + i) == value {
          assert Bits()[start + i] == value;
          return true;
        }
        i := i + 1;
      }
      return false;
    }

    method Scan(start: nat, cnt: nat, value: bool) returns (r: Option<nat>)
      requires Valid() && start <= bitCnt
      ensures IsFirstGroup(Bits(), start, cnt, value, r)
    {
      if cnt <= bitCnt {
        var last := bitCnt - cnt;
        var i := start;
        while i <= last
          invariant start <= i && (i <= last + 1 || i == start)
          invariant forall j :: start <= j < i && j + cnt <= bitCnt ==> !AllAre(Bits(), j, cnt, value)
        {
          var other := Contains(i, cnt, !value);
          if !other {
            return Some(i);
          }
          i := i + 1;
        }
      }
      return None;
    }

    method ScanAndFlip(start: nat, cnt: nat, value: bool) returns (r: Option<nat>)
      requires Valid() && start <= bitCnt
      modifies bits
      ensures IsFirstGroup(old(Bits()), start, cnt, value, r)
      ensures Valid() && Bits() == if r.Some? then SetRange(old(Bits()), r.value, cnt, !value) else old(Bits())
    {
      r := Scan(start, cnt, value);
      if r.Some? {
        SetMultiple(r.value, cnt, !value);
      }
    }
  }
}
