/** The 64-bit division routines of lib/arithmetic.c, over integers with their wrap-around written
    out.  The DIVL instruction is a function whose precondition is that it does not trap. */
module Arithmetic {
  import opened Common

  const B := 0x1_0000_0000
  const W := 0x1_0000_0000_0000_0000

  type U32 = x: int | 0 <= x < B
  type U64 = x: int | 0 <= x < W
  type I64 = x: int | -0x8000_0000_0000_0000 <= x < 0x8000_0000_0000_0000

  const INT64_MIN: I64 := -0x8000_0000_0000_0000

  function Wrap(x: int): U64 {
    x % W
  }

  function Low(x: int): U32 {
    x % B
  }

  /** A conversion to int64_t or int32_t keeps the low bits. */
  function ToI64(x: U64): I64 {
    if x < 0x8000_0000_0000_0000 then x else x - W
  }

  function ToI32(x: int): int {
    if x % B < 0x8000_0000 then x % B else x % B - B
  }

  function Pow2(k: nat): (r: int)
    ensures r > 0
  {
    if k == 0 then 1 else 2 * Pow2(k - 1)
  }

  lemma {:induction false} Pow2Adds(j: nat, k: nat)
    ensures Pow2(j + k) == Pow2(j) * Pow2(k)
  {
    if j > 0 {
      Pow2Adds(j - 1, k);
    }
  }

  lemma {:induction false} Pow2Small()
    ensures Pow2(1) == 2 && Pow2(2) == 4 && Pow2(4) == 16
  {
    assert Pow2(0) == 1;
    assert Pow2(1) == 2;
    assert Pow2(2) == 4;
    assert Pow2(3) == 8;
  }

  lemma {:induction false} Pow2Byte()
    ensures Pow2(8) == 256 && Pow2(16) == 0x1_0000
  {
    Pow2Small();
    Pow2Adds(4, 4);
    Pow2Adds(8, 8);
  }

  lemma {:induction false} Pow2Word()
    ensures Pow2(32) == B && Pow2(31) == 0x8000_0000
  {
    Pow2Byte();
    Pow2Adds(16, 16);
    assert Pow2(32) == 2 * Pow2(31);
  }

  /** divl: no trap means a nonzero divisor and a quotient of 32 bits. */
  function Divl(n: U64, d: U32): U32
    requires d != 0 && n / d < B
  {
    n / d
  }

  /** `x` shifted left by `k`, without losing bits. */
  function Shl(x: int, k: nat): int {
    if k == 0 then x else 2 * Shl(x, k - 1)
  }

  lemma {:induction false} ShlIsProduct(x: int, k: nat)
    ensures Shl(x, k) == x * Pow2(k)
  {
    if k > 0 {
      ShlIsProduct(x, k - 1);
      assert x * (2 * Pow2(k - 1)) == 2 * (x * Pow2(k - 1));
    }
  }

  lemma {:induction false} ShlMore(x: int, n: nat, k: nat)
    ensures Shl(x, n + k) == Shl(x, n) * Pow2(k)
  {
    ShlIsProduct(x, n + k);
    ShlIsProduct(x, n);
    Pow2Adds(n, k);
    assert x * (Pow2(n) * Pow2(k)) == (x * Pow2(n)) * Pow2(k);
  }

  /** Shifting the 32-bit value `x` by `k`, where it has `k` leading zeros at least. */
  lemma {:induction false} ShiftOn(x0: int, n: nat, x: int, k: nat, c: int)
    requires x == Shl(x0, n) && c == Pow2(k) && 0 <= x * c < B
    ensures Low(x * c) == x * c == Shl(x0, n + k)
  {
    ShlMore(x0, n, k);
  }

  /** nlz: `x0` shifted left by the result has its top bit in place. */
  method Nlz(x0: U32) returns (n: nat)
    requires x0 != 0
    ensures n <= 31 && 0x8000_0000 <= Shl(x0, n) < B
  {
    Pow2Small();
    Pow2Byte();
    var x := x0;
    n := 0;
    if x <= 0x0000_FFFF {
      ShiftOn(x0, n, x, 16, 0x1_0000);
      n := n + 16;
      x := Low(x * 0x1_0000);
    }
    assert 0x1_0000 <= x == Shl(x0, n) && n <= 16;
    if x <= 0x00FF_FFFF {
      ShiftOn(x0, n, x, 8, 256);
      n := n + 8;
      x := Low(x * 256);
    }
    assert 0x100_0000 <= x == Shl(x0, n) && n <= 24;
    if x <= 0x0FFF_FFFF {
      ShiftOn(x0, n, x, 4, 16);
      n := n + 4;
      x := Low(x * 16);
    }
    assert 0x1000_0000 <= x == Shl(x0, n) && n <= 28;
    if x <= 0x3FFF_FFFF {
      ShiftOn(x0, n, x, 2, 4);
      n := n + 2;
      x := Low(x * 4);
    }
    assert 0x4000_0000 <= x == Shl(x0, n) && n <= 30;
    if x <= 0x7FFF_FFFF {
      ShiftOn(x0, n, x, 1, 2);
      n := n + 1;
    }
  }

  // ----- Facts about division -----

  lemma {:induction false} DivUnique(n: int, d: int, q: int)
    requires d > 0 && q * d <= n < q * d + d
    ensures n / d == q
  {
    var q' := n / d;
    assert q' * d <= n < q' * d + d;
    if q' < q {
      MulLe(q' + 1, q, d);
    } else if q' > q {
      MulLe(q + 1, q', d);
    }
  }

  lemma {:induction false} MulLe(x: int, y: int, d: int)
    requires x <= y && d >= 0
    ensures x * d <= y * d
  {
    assert (y - x) * d >= 0;
  }

  lemma {:induction false} DivTwice(n: nat, a: int, b: int)
    requires a > 0 && b > 0
    ensures a * b > 0 && n / a / b == n / (a * b)
  {
    var q := n / a;
    var p := q / b;
    MulLe(1, a, b);
    assert p * b <= q < p * b + b;
    assert q * a <= n < q * a + a;
    MulLe(p * b, q, a);
    MulLe(q + 1, p * b + b, a);
    assert (p * b) * a == p * (a * b);
    assert (p * b + b) * a == p * (a * b) + a * b;
    assert (q + 1) * a == q * a + a;
    DivUnique(n, a * b, p);
  }

  // ----- udiv64 -----

  /** The second digit's division does not trap. */
  lemma {:induction false} DigitFits(d: int, r1: int, n0: int, t: int, q0: int)
    requires 0 <= r1 < d < B && 0 <= n0 < B && t == B * r1 + n0 && q0 == t / d
    ensures 0 <= t < W && 0 <= q0 < B
  {
    assert q0 * d <= t < q0 * d + d;
    if q0 >= B {
      MulLe(B, q0, d);
    }
  }

  /** A 32-bit divisor: long division by digits of 32 bits. */
  lemma {:induction false} DigitByDigit(n: int, d: int, q1: int, r1: int, n0: int, q0: int)
    requires d > 0 && n == B * (q1 * d + r1) + n0 && q0 == (B * r1 + n0) / d
    ensures q0 + B * q1 == n / d
  {
    var t := B * r1 + n0;
    assert q0 * d <= t < q0 * d + d;
    assert n == (B * q1) * d + t;
    assert (q0 + B * q1) * d == q0 * d + (B * q1) * d;
    DivUnique(n, d, q0 + B * q1);
  }

  lemma {:induction false} QuotientIsLess(n: nat, d: int)
    requires d > 0
    ensures 0 <= n / d <= n
  {
    Commuted(n / d, 1, d);
  }

  lemma {:induction false} LargerDivisor(n: nat, d: int, D: int)
    requires 0 < D <= d
    ensures n / d <= n / D
  {
    var q, q' := n / d, n / D;
    assert q * d <= n < q' * D + D;
    Commuted(q, D, d);
    if q' < q {
      MulLe(q' + 1, q, D);
    }
  }

  lemma {:induction false} AtMost(n: nat, d: int, q: int)
    requires d > 0 && (q - 1) * d <= n
    ensures q <= n / d + 1
  {
    var t := n / d;
    assert n < t * d + d;
    if q > t + 1 {
      MulLe(t + 1, q - 1, d);
    }
  }

  /** A divisor of more than 32 bits, replaced by its 32 leading bits `v` times `e`: the quotient
      is the true one, or one more. */
  lemma {:induction false} EstimateIsClose(n: U64, d: int, v: int, e: int)
    requires v >= 0x8000_0000 && e >= 2 && v * e <= d < v * e + e
    ensures v * e > 0 && n / d <= n / (v * e) <= n / d + 1
  {
    MulLe(0x8000_0000, v, e);
    LargerDivisor(n, d, v * e);
    ErrorIsSmall(n, d, v, e);
    Overshoot(n, d, v * e, n / (v * e));
    AtMost(n, d, n / (v * e));
  }

  lemma {:induction false} Commuted(q: int, x: int, y: int)
    requires q >= 0 && x <= y
    ensures q * x <= q * y
  {
    assert q * (y - x) >= 0;
  }

  /** n (d - D) <= d D, because W (e - 1) <= W / 4 * e * e. */
  lemma {:induction false} ErrorIsSmall(n: U64, d: int, v: int, e: int)
    requires v >= 0x8000_0000 && e >= 2 && v * e <= d < v * e + e
    ensures n * (d - v * e) <= d * (v * e)
  {
    var D := v * e;
    MulLe(0x8000_0000, v, e);
    Commuted(n, d - D, e - 1);
    MulLe(n, W, e - 1);
    Commuted(d, 0x8000_0000 * e, D);
    MulLe(0x8000_0000 * e, d, 0x8000_0000 * e);
    assert (e - 2) * (e - 2) == e * e - 4 * e + 4;
    assert (e - 2) * (e - 2) >= 0;
    assert (0x8000_0000 * e) * (0x8000_0000 * e) == 0x4000_0000_0000_0000 * (e * e);
  }

  lemma {:induction false} Overshoot(n: int, d: int, D: int, q: int)
    requires 0 < D <= d && n >= 0 && q == n / D && n * (d - D) <= d * D
    ensures (q - 1) * d <= n
  {
    MulLe(q * D, n, d - D);
    assert (q * D) * (d - D) == (q * (d - D)) * D;
    assert (d + 1) * D == d * D + D;
    if q * (d - D) > d {
      MulLe(d + 1, q * (d - D), D);
    }
    assert (q - 1) * d == q * D + q * (d - D) - d;
  }

  /** The divisor times `p`, where that brings the top bit into place. */
  lemma {:induction false} ScaledBounds(d: int, p: int, e: int)
    requires p > 0 && e > 0 && p * e == B && 0 <= d < W && 0x8000_0000 <= (d / B) * p < B
    ensures 0 <= d * p < W && 0x8000_0000 <= d * p / B < B
  {
    var d1 := d / B;
    assert d1 < e by {
      if d1 >= e {
        MulLe(e, d1, p);
      }
    }
    MulLe(d1 + 1, e, p);
    assert (d1 + 1) * p <= B;
    MulLe(d1 * B, d, p);
    MulLe(d + 1, (d1 + 1) * B, p);
    assert (d1 * B) * p == (d1 * p) * B;
    assert ((d1 + 1) * B) * p == ((d1 + 1) * p) * B;
    assert (d + 1) * p == d * p + p;
  }

  lemma {:induction false} LeadingBits(d: int, p: int, e: int, v: int)
    requires p > 0 && e > 0 && p * e == B && v == d * p / B
    ensures v * e <= d < v * e + e
  {
    assert v * B <= d * p < v * B + B;
    assert v * B == (v * e) * p;
    assert (v * e + e) * p == v * B + B;
    if d < v * e {
      MulLe(d + 1, v * e, p);
    }
    if d >= v * e + e {
      MulLe(v * e + e, d, p);
    }
  }

  lemma {:induction false} PowersOfWord(s: nat)
    requires s <= 31
    ensures Pow2(s) * (2 * Pow2(31 - s)) == B
  {
    Pow2Adds(s, 31 - s);
    Pow2Word();
    Regroup(Pow2(s), Pow2(31 - s));
  }

  lemma {:induction false} Regroup(a: int, b: int)
    ensures a * (2 * b) == 2 * (a * b)
  {
  }

  lemma {:induction false} Scaled(d: int, p: int, e: int, m: int, m1: int)
    requires p > 0 && e > 0 && p * e == B && 0 <= d < W && m == d * p && m1 == (d / B) * p && 0x8000_0000 <= m1 < B
    ensures 0 <= m < W && 0x8000_0000 <= m / B < B && (m / B) * e <= d < (m / B) * e + e
  {
    ScaledBounds(d, p, e);
    LeadingBits(d, p, e, m / B);
  }

  /** The divisor's 32 leading bits, after nlz. */
  lemma {:induction false} Normalised(d: int, s: nat, v: int, e: int)
    requires s <= 31 && B <= d < W && 0x8000_0000 <= Shl(d / B, s) < B && v == Shl(d, s) / B && e == 2 * Pow2(31 - s)
    ensures 0 <= Shl(d, s) < W && 0x8000_0000 <= v < B && v * e <= d < v * e + e
  {
    PowersOfWord(s);
    ShlIsProduct(d, s);
    ShlIsProduct(d / B, s);
    Scaled(d, Pow2(s), e, Shl(d, s), Shl(d / B, s));
  }

  lemma {:induction false} QuotientFits(n: U64, v: int)
    requires v >= 0x8000_0000
    ensures n / 2 / v < B
  {
    var h := n / 2;
    var q := h / v;
    assert q * v <= h < 0x8000_0000 * B;
    MulLe(0x8000_0000 * q, 0x8000_0000 * q, 1);
    if q >= B {
      MulLe(B, q, v);
    }
  }

  /** The shifted quotient of the halved dividend is the estimate. */
  lemma {:induction false} ShiftedQuotient(n: U64, v: int, k: nat, e: int)
    requires v > 0 && e == 2 * Pow2(k)
    ensures v * e > 0 && n / 2 / v / Pow2(k) == n / (v * e)
  {
    DivTwice(n, 2, v);
    DivTwice(n, 2 * v, Pow2(k));
    assert 2 * v * Pow2(k) == v * e;
  }

  /** The last comparison tells the two candidates apart, without wrapping around. */
  lemma {:induction false} PickQuotient(n: U64, d: U64, t: int, q: int)
    requires 0 < d <= n && t == n / d && t <= q <= t + 1
    ensures 0 < q <= n + 1 && 0 <= (q - 1) * d <= n
    ensures t == if n - (q - 1) * d < d then q - 1 else q
  {
    assert t * d <= n < t * d + d;
    assert t >= 1;
    assert (q - 1) * d == if q == t then t * d - d else t * d;
    Commuted(t, 1, d);
  }

  lemma {:induction false} WrapFits(x: int)
    requires 0 <= x < W
    ensures Wrap(x) == x
  {
  }

  lemma {:induction false} LowFits(x: int)
    requires 0 <= x < B
    ensures Low(x) == x
  {
  }

  method DivideByWord(n: U64, d: U64) returns (r: U64)
    requires 0 < d < B
    ensures r == n / d
  {
    var n1, n0, d0 := Low(n / B), Low(n), Low(d);
    LowFits(n / B);
    LowFits(d);
    var q1, r1 := n1 / d0, n1 % d0;
    ghost var t := B * r1 + n0;
    ghost var q0 := t / d;
    DigitFits(d, r1, n0, t, q0);
    DigitByDigit(n, d, q1, r1, n0, q0);
    QuotientIsLess(n, d);
    WrapFits(B * r1);
    WrapFits(t);
    WrapFits(B * q1);
    WrapFits(n / d);
    r := Wrap(Divl(Wrap(Wrap(B * r1) + n0), d0) + Wrap(B * q1));
  }

  method DivideByLong(n: U64, d: U64) returns (r: U64)
    requires B <= d <= n
    ensures r == n / d
  {
    var d1 := Low(d / B);
    LowFits(d / B);
    var s := Nlz(d1);
    ghost var v, e := Shl(d, s) / B, 2 * Pow2(31 - s);
    Normalised(d, s, v, e);
    WrapFits(Shl(d, s));
    LowFits(v);
    QuotientFits(n, v);
    var q := Divl(n / 2, Low(Wrap(Shl(d, s)) / B)) / Pow2(31 - s);
    ShiftedQuotient(n, v, 31 - s, e);
    EstimateIsClose(n, d, v, e);
    r := Choose(n, d, q);
  }

  /** The quotient is `q`, or one less. */
  method Choose(n: U64, d: U64, q: int) returns (r: U64)
    requires 0 < d <= n && n / d <= q <= n / d + 1
    ensures r == n / d
  {
    PickQuotient(n, d, n / d, q);
    WrapFits(q - 1);
    WrapFits((q - 1) * d);
    WrapFits(n - (q - 1) * d);
    r := if Wrap(n - Wrap(Wrap(q - 1) * d)) < d then Wrap(q - 1) else q;
  }

  method UDiv64(n: U64, d: U64) returns (r: U64)
    requires d != 0
    ensures r == n / d
  {
    if d / B == 0 {
      r := DivideByWord(n, d);
    } else if n < d {
      DivUnique(n, d, 0);
      r := 0;
    } else {
      r := DivideByLong(n, d);
    }
  }

  // ----- sdiv64, umod64, smod64 -----

  /** C's quotient, truncated toward zero. */
  function Quot(n: int, d: int): int
    requires d != 0
  {
    var q := Abs(n) / Abs(d);
    if (n < 0) == (d < 0) then q else -q
  }

  function Abs(x: int): nat {
    if x >= 0 then x else -x
  }

  /** The absolute value of an int64_t as the code computes it, with an unsigned negation. */
  function AbsWrapped(x: I64): (r: U64)
    ensures r == Abs(x)
  {
    if x >= 0 then x else var u: int := Wrap(x); Wrap(-u)
  }

  lemma {:induction false} QuotIsSmall(n: nat, d: int, q: int)
    requires n <= 0x8000_0000_0000_0000 && d > 0 && q == n / d
    ensures 0 <= q <= n && (q == 0x8000_0000_0000_0000 <==> n == 0x8000_0000_0000_0000 && d == 1)
  {
    assert q * d <= n < q * d + d;
    Commuted(q, 1, d);
    if d >= 2 {
      Commuted(q, 2, d);
    }
  }

  /** sdiv64 truncates toward zero exactly when it does not divide INT64_MIN by 1 or -1.  Divided by
      1 the negation of the quotient overflows, which C leaves undefined: None. */
  method SDiv64(n: I64, d: I64) returns (r: Option<I64>)
    requires d != 0
    ensures r == Some(Quot(n, d)) <==> !(n == INT64_MIN && (d == 1 || d == -1))
    ensures r == None <==> n == INT64_MIN && d == 1
    ensures n == INT64_MIN && d == -1 ==> r == Some(INT64_MIN)
  {
    assert n == INT64_MIN <==> n < 0 && Abs(n) == 0x8000_0000_0000_0000;
    assert (d == -1 <==> d < 0 && Abs(d) == 1) && (d == 1 <==> d > 0 && Abs(d) == 1);
    var nAbs, dAbs := AbsWrapped(n), AbsWrapped(d);
    var qAbs := UDiv64(nAbs, dAbs);
    QuotIsSmall(nAbs, dAbs, qAbs);
    r := Signed((n < 0) == (d < 0), qAbs);
  }

  /** The quotient, converted to int64_t, with its sign; INT64_MIN has no negation. */
  function Signed(positive: bool, q: U64): (r: Option<I64>)
    ensures q < 0x8000_0000_0000_0000 ==> r == Some(if positive then q else -(q as int))
    ensures q == 0x8000_0000_0000_0000 ==> r == if positive then Some(INT64_MIN) else None
  {
    if positive then Some(ToI64(q)) else Negated(ToI64(q))
  }

  function Negated(x: I64): Option<I64> {
    if x == INT64_MIN then None else Some(-(x as int))
  }

  /** umod64 drops the high half of the remainder. */
  method UMod64(n: U64, d: U64) returns (r: U32)
    requires d != 0
    ensures r == n % d <==> n % d < B
  {
    var q := UDiv64(n, d);
    assert n - d * q == n % d;
    QuotientIsLess(n, d);
    WrapFits(d * q);
    WrapFits(n - d * q);
    r := Low(Wrap(n - Wrap(d * q)));
  }

  /** The product of two int64_t, if it is one. */
  function Product(x: I64, y: I64): Option<I64> {
    if INT64_MIN <= x * y <= 0x7fff_ffff_ffff_ffff then Some(x * y) else None
  }

  lemma {:induction false} FloorTimes(n: nat, d: int)
    requires d > 0
    ensures 0 <= d * (n / d) <= n
  {
  }

  lemma {:induction false} Signs(x: int, y: int)
    ensures -x * y == -(x * y) && x * -y == -(x * y) && -x * -y == x * y
  {
  }

  lemma {:induction false} BackToDividend(n: I64, d: I64)
    requires d != 0
    ensures var p := d * Quot(n, d); if n >= 0 then 0 <= p <= n else n <= p <= 0
  {
    var a: int := Abs(d);
    var q: int := Abs(n) / Abs(d);
    FloorTimes(Abs(n), a);
    Signs(a, q);
    assert Quot(n, d) == if (n < 0) == (d < 0) then q else -q;
    if d > 0 {
      assert d == a;
    } else {
      assert d == -a;
    }
  }

  /** smod64 is the remainder that goes with C's quotient exactly when that fits 32 bits; None where
      its arithmetic overflows, which it does exactly for the two pairs above. */
  method SMod64(n: I64, d: I64) returns (r: Option<int>)
    requires d != 0
    ensures r == None <==> n == INT64_MIN && (d == 1 || d == -1)
    ensures var rem := n - d * Quot(n, d); r.Some? ==> (r.value == rem <==> -0x8000_0000 <= rem < 0x8000_0000)
  {
    var q := SDiv64(n, d);
    if q == None {
      return None;
    }
    BackToDividend(n, d);
    var p := Product(d, q.value);
    if p == None {
      return None;
    }
    assert INT64_MIN <= n - p.value < 0x8000_0000_0000_0000;
    return Some(ToI32(n - p.value));
  }
}
