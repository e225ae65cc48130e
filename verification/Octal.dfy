/** Zero-padded octal numbers: how snprintf prints them (lib/stdio.c) and how ustar headers are
    parsed (lib/ustar.c). */
module Octal {
  import opened Common
  import opened Bytes

  const ZERO: Byte := 48
  const SPACE: Byte := 32
  const ULONG_MAX := 0xffff_ffff

  /** `n` octal digits of `v`, most significant first. */
  function Digits(v: nat, n: nat): (r: seq<Byte>)
    ensures |r| == n && forall i :: 0 <= i < n ==> ZERO <= r[i] <= ZERO + 7
  {
    if n == 0 then [] else Digits(v / 8, n - 1) + [ZERO + v % 8]
  }

  function Pow8(n: nat): (r: int)
    ensures r > 0
  {
    if n == 0 then 1 else 8 * Pow8(n - 1)
  }

  function Reverse(s: seq<Byte>): (r: seq<Byte>)
    ensures |r| == |s|
  {
    if s == [] then [] else [s[|s| - 1]] + Reverse(s[..|s| - 1])
  }

  /** `buf` holds the low digits of `v0` in reverse, and `v` is what is left of it. */
  ghost predicate Partly(v0: nat, width: nat, v: nat, buf: seq<Byte>) {
    |buf| <= width && v < Pow8(width - |buf|) && Digits(v0, width) == Digits(v, width - |buf|) + Reverse(buf)
  }

  lemma {:induction false} NextDigit(v0: nat, width: nat, v: nat, buf: seq<Byte>)
    requires Partly(v0, width, v, buf) && (v > 0 || |buf| < width)
    ensures Partly(v0, width, v / 8, buf + [ZERO + v % 8])
  {
    var buf', k := buf + [ZERO + v % 8], width - |buf|;
    assert k > 0;
    assert buf'[..|buf'| - 1] == buf;
    assert Reverse(buf') == [ZERO + v % 8] + Reverse(buf);
    assert Digits(v, k) == Digits(v / 8, k - 1) + [ZERO + v % 8];
  }

  lemma {:induction false} ZeroDigits(n: nat)
    ensures Digits(0, n) == seq(n, _ => ZERO)
  {
    if n > 0 {
      ZeroDigits(n - 1);
    }
  }

  /** The digits of `v` in reverse, at least one. */
  method Accumulate(v: nat, ghost width: nat) returns (buf: seq<Byte>)
    requires width > 0 && v < Pow8(width)
    ensures 0 < |buf| <= width && Digits(v, width) == Digits(0, width - |buf|) + Reverse(buf)
  {
    buf := [];
    var value: nat := v;
    NoDigits(v, width);
    while value > 0
      invariant Partly(v, width, value, buf)
    {
      NextDigit(v, width, value, buf);
      buf := buf + [ZERO + value % 8];
      value := value / 8;
    }
    if |buf| < 1 {
      OneZero(v, width);
      buf := buf + [ZERO];
    }
  }

  lemma {:induction false} NoDigits(v: nat, width: nat)
    requires v < Pow8(width)
    ensures Partly(v, width, v, [])
  {
    assert Reverse([]) == [];
    assert Digits(v, width) + [] == Digits(v, width);
  }

  lemma {:induction false} OneZero(v: nat, width: nat)
    requires width > 0 && Partly(v, width, 0, [])
    ensures Partly(v, width, 0, [ZERO])
  {
    NextDigit(v, width, 0, []);
    assert [] + [ZERO + 0 % 8] == [ZERO];
  }

  /** format_integer for an unsigned octal conversion with the 0 flag and a field width: digits are
      accumulated in reverse, then put out after the padding. */
  method Format(v: nat, width: nat) returns (out: seq<Byte>)
    requires width > 0 && v < Pow8(width)
    ensures out == Digits(v, width)
  {
    var buf := Accumulate(v, width);
    var padCnt := width - |buf|;
    ZeroDigits(padCnt);
    out := seq(padCnt, _ => ZERO);
    var cp := |buf|;
    assert buf[..cp] == buf;
    while cp > 0
      invariant 0 <= cp <= |buf| && out + Reverse(buf[..cp]) == Digits(v, width)
    {
      cp := cp - 1;
      ReverseLast(buf[..cp + 1], out);
      assert buf[..cp + 1][..cp] == buf[..cp];
      out := out + [buf[cp]];
    }
  }

  lemma {:induction false} ReverseLast(s: seq<Byte>, out: seq<Byte>)
    requires s != []
    ensures out + Reverse(s) == out + [s[|s| - 1]] + Reverse(s[..|s| - 1])
  {
  }

  // ----- Parsing -----

  predicate IsDigit(c: Byte) {
    ZERO <= c <= ZERO + 7
  }

  /** How many octal digits `s` starts with. */
  function DigitCount(s: seq<Byte>): (n: nat)
    ensures n <= |s| && (forall i :: 0 <= i < n ==> IsDigit(s[i])) && (n < |s| ==> !IsDigit(s[n]))
  {
    if s == [] || !IsDigit(s[0]) then 0 else 1 + DigitCount(s[1..])
  }

  /** The number that the first `n` digits stand for. */
  function Value(s: seq<Byte>, n: nat): int
    requires n <= |s|
  {
    if n == 0 then 0 else 8 * Value(s, n - 1) + s[n - 1] - ZERO
  }

  /** The field is `n` octal digits for a `v` that fits an unsigned long, then a space or null. */
  ghost predicate Denotes(s: seq<Byte>, n: nat, v: int) {
    && 0 < n < |s| && (forall i :: 0 <= i < n ==> IsDigit(s[i])) && (s[n] == SPACE || s[n] == 0)
    && Value(s, n) == v <= ULONG_MAX
  }

  /** What a field means: the digits it starts with are the only ones that can count. */
  function Meaning(s: seq<Byte>): (r: Option<nat>)
    ensures forall v: nat :: r == Some(v) <==> exists n :: Denotes(s, n, v)
  {
    var n := DigitCount(s);
    ValueGrows(s, 0, n);
    if 0 < n < |s| && (s[n] == SPACE || s[n] == 0) && Value(s, n) <= ULONG_MAX then
      assert Denotes(s, n, Value(s, n));
      Some(Value(s, n))
    else None
  }

  lemma {:induction false} ValueGrows(s: seq<Byte>, m: nat, n: nat)
    requires m <= n <= |s| && forall i :: 0 <= i < n ==> IsDigit(s[i])
    ensures 0 <= Value(s, m) <= Value(s, n)
    decreases n
  {
    if m < n {
      ValueGrows(s, m, n - 1);
    } else if m > 0 {
      ValueGrows(s, m - 1, m - 1);
    }
  }

  lemma {:induction false} DigitsEnd(s: seq<Byte>, n: nat)
    requires n <= |s| && (forall i :: 0 <= i < n ==> IsDigit(s[i])) && (n < |s| ==> !IsDigit(s[n]))
    ensures DigitCount(s) == n
  {
  }

  /** parse_octal_field: for every field, the number it denotes, or None if it denotes none. */
  method ParseField(s: seq<Byte>) returns (r: Option<nat>)
    ensures r == Meaning(s) && forall v: nat :: r == Some(v) <==> exists n :: Denotes(s, n, v)
  {
    var value: nat := 0;
    var ofs := 0;
    while ofs < |s|
      invariant 0 <= ofs <= |s| && (forall i :: 0 <= i < ofs ==> IsDigit(s[i])) && value == Value(s, ofs) <= ULONG_MAX
    {
      var c := s[ofs];
      if ZERO <= c <= ZERO + 7 {
        if value > ULONG_MAX / 8 {
          ValueGrows(s, ofs + 1, DigitCount(s));
          return None;
        }
        value := c - ZERO + value * 8;
      } else if c == SPACE || c == 0 {
        DigitsEnd(s, ofs);
        return if ofs > 0 then Some(value) else None;
      } else {
        DigitsEnd(s, ofs);
        return None;
      }
      ofs := ofs + 1;
    }
    return None;
  }

  /** The digits of `v` stand for `v`. */
  lemma {:induction false} ValueOfDigits(s: seq<Byte>, v: nat, n: nat)
    requires n <= |s| && v < Pow8(n) && forall i :: 0 <= i < n ==> s[i] == Digits(v, n)[i]
    ensures Value(s, n) == v
  {
    if n > 0 {
      forall i | 0 <= i < n - 1 ensures s[i] == Digits(v / 8, n - 1)[i] {
        assert s[i] == Digits(v, n)[i];
      }
      ValueOfDigits(s, v / 8, n - 1);
      assert s[n - 1] == Digits(v, n)[n - 1];
    }
  }

  /** Parsing undoes printing. */
  lemma {:induction false} ParseUndoesPrint(v: nat, n: nat, s: seq<Byte>)
    requires 0 < n && v < Pow8(n) && v <= ULONG_MAX && s == Digits(v, n) + [0]
    ensures Meaning(s) == Some(v)
  {
    ValueOfDigits(s, v, n);
    DigitsEnd(s, n);
  }
}
