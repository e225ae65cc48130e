/** The scheduler's fixed-point arithmetic (threads/thread.c): 32-bit signed integers with 14
    fraction bits.  Every operation yields None where the C code would overflow a 32-bit or
    64-bit signed integer, divide by zero, or lose bits in a conversion to int. */
module FixedPoint {
  import opened Common

  const F := 16384
  const PRI_MIN := 0
  const PRI_MAX := 63
  const NICE_MIN := -20
  const NICE_MAX := 20
  const TIMER_FREQ := 100

  function Int(x: int): Option<int> {
    if -0x8000_0000 <= x < 0x8000_0000 then Some(x) else None
  }

  function Int64(x: int): Option<int> {
    if -0x8000_0000_0000_0000 <= x < 0x8000_0000_0000_0000 then Some(x) else None
  }

  /** C division truncates toward zero. */
  function Quot(a: int, b: int): int
    requires b > 0
  {
    if a >= 0 then a / b else -((-a) / b)
  }

  function AddInt(fixed: int, num: int): Option<int> {
    var scaled :- Int(num * F);
    Int(fixed + scaled)
  }

  function MulInt(fixed: int, num: int): Option<int> {
    Int(fixed * num)
  }

  function DivInt(fixed: int, num: int): Option<int> {
    if num <= 0 then None else Int(Quot(fixed, num))
  }

  function IntSub(num: int, fixed: int): Option<int> {
    var scaled :- Int(num * F);
    Int(scaled - fixed)
  }

  function Mul(x: int, y: int): Option<int> {
    var product :- Int64(x * y);
    Int(Quot(product, F))
  }

  function Div(x: int, y: int): Option<int> {
    if y <= 0 then None
    else
      var scaled :- Int64(x * F);
      Int(Quot(scaled, y))
  }

  /** calculate_load_avg, with `ready` threads ready or running. */
  function LoadAvg(load: int, ready: int): Option<int> {
    var x :- MulInt(load, 59);
    var y :- AddInt(x, ready);
    DivInt(y, 60)
  }

  /** The factor calculate_recent_cpu multiplies by. */
  function Decay(load: int): Option<int> {
    var twice :- Int(2 * load);
    var more :- AddInt(twice, 1);
    Div(twice, more)
  }

  /** calculate_recent_cpu for one thread. */
  function RecentCpu(load: int, recent: int, nice: int): Option<int> {
    var term :- Decay(load);
    var cpu :- Int(recent);
    var decayed :- Mul(term, cpu);
    AddInt(decayed, nice)
  }

  /** thread_aging. */
  function Aged(recent: int): Option<int> {
    var cpu :- Int(recent);
    AddInt(cpu, 1)
  }

  function Clamp(x: int): int {
    if x > PRI_MAX then PRI_MAX else if x < PRI_MIN then PRI_MIN else x
  }

  /** calculate_priority for one thread; thread_set_nice computes the same. */
  function Priority(recent: int, nice: int): Option<int> {
    var cpu :- Int(recent);
    var quarter :- DivInt(cpu, 4);
    var twice :- Int(nice * 2);
    var term :- AddInt(quarter, twice);
    var left :- IntSub(PRI_MAX, term);
    Some(Clamp(Quot(left, F)))
  }

  // ----- Bounds that one second of scheduling keeps -----

  /** load_avg while at most `r` threads are ready or running. */
  ghost predicate LoadOk(load: int, r: nat) {
    0 <= load <= r * F
  }

  /** recent_cpu, `k` ticks after it was last recomputed. */
  ghost predicate RecentOk(recent: int, r: nat, k: nat) {
    -20 * (2 * r + 1) * F <= recent <= (240 * r + 20 + k) * F
  }

  ghost predicate NiceOk(nice: int) {
    NICE_MIN <= nice <= NICE_MAX
  }

  /** The largest number of threads for which 120 * (2r + 1) * 2^14 fits 31 bits. */
  const MAX_THREADS := 545

  lemma {:induction false} LoadAvgStays(load: int, ready: int, r: nat)
    requires r <= MAX_THREADS && LoadOk(load, r) && 0 <= ready <= r
    ensures LoadAvg(load, ready).Some? && LoadOk(LoadAvg(load, ready).value, r)
  {
  }

  /** The factor is at most 2r / (2r + 1). */
  lemma {:induction false} DecayBound(load: int, r: nat)
    requires r <= MAX_THREADS && LoadOk(load, r)
    ensures Decay(load).Some? && 0 <= Decay(load).value <= F
    ensures Decay(load).value * (2 * r + 1) <= 2 * r * F
  {
    var c := 2 * load * F / (2 * load + F);
    assert c * (2 * load + F) <= 2 * load * F;
    FactorBound(c, load, r);
    assert Decay(load) == Some(c);
  }

  lemma {:induction false} FactorBound(c: nat, load: nat, r: nat)
    requires load <= r * F && c * (2 * load + F) <= 2 * load * F
    ensures c <= F && c * (2 * r + 1) <= 2 * r * F
  {
    var more := 2 * load + F;
    assert (F - c) * more == F * more - c * more >= F * F;
    assert c <= F by {
      if c > F {
        Monotone(more, F - c, 0);
      }
    }
    Monotone(F - c, more, (2 * r + 1) * F);
    assert (F - c) * ((2 * r + 1) * F) == ((F - c) * (2 * r + 1)) * F;
    assert (F - c) * (2 * r + 1) == F * (2 * r + 1) - c * (2 * r + 1);
  }

  lemma {:induction false} Monotone(c: nat, x: int, y: int)
    requires x <= y
    ensures c * x <= c * y
  {
    assert c * (y - x) >= 0;
  }

  /** Decaying a magnitude of at most b * (2r + 1) leaves at most 2 * r * b. */
  lemma {:induction false} DecayedBound(c: nat, x: nat, b: nat, r: nat)
    requires c * (2 * r + 1) <= 2 * r * F && x <= b * F * (2 * r + 1)
    ensures c * x / F <= 2 * r * b * F
  {
    Monotone(c, x, b * F * (2 * r + 1));
    assert c * (b * F * (2 * r + 1)) == (b * F) * (c * (2 * r + 1));
    Monotone(b * F, c * (2 * r + 1), 2 * r * F);
    assert (b * F) * (2 * r * F) == (2 * r * b * F) * F;
  }

  lemma {:induction false} DecayedInRange(c: nat, recent: int, r: nat)
    requires r <= MAX_THREADS && c <= F && c * (2 * r + 1) <= 2 * r * F && RecentOk(recent, r, TIMER_FREQ)
    ensures Mul(c, recent).Some? && -40 * r * F <= Mul(c, recent).value <= 240 * r * F
  {
    var x := if recent >= 0 then recent else -recent;
    Monotone(x, c, F);
    assert 0 <= c * x <= x * F;
    assert c * recent == if recent >= 0 then c * x else -(c * x);
    DecayedBound(c, x, if recent >= 0 then 120 else 20, r);
  }

  lemma {:induction false} RecentCpuStays(load: int, recent: int, nice: int, r: nat)
    requires r <= MAX_THREADS && LoadOk(load, r) && RecentOk(recent, r, TIMER_FREQ) && NiceOk(nice)
    ensures RecentCpu(load, recent, nice).Some? && RecentOk(RecentCpu(load, recent, nice).value, r, 0)
  {
    DecayBound(load, r);
    DecayedInRange(Decay(load).value, recent, r);
  }

  lemma {:induction false} AgedStays(recent: int, r: nat, k: nat)
    requires r <= MAX_THREADS && k < TIMER_FREQ && RecentOk(recent, r, k)
    ensures Aged(recent).Some? && RecentOk(Aged(recent).value, r, k + 1)
  {
  }

  lemma {:induction false} PriorityStays(recent: int, nice: int, r: nat, k: nat)
    requires r <= MAX_THREADS && k <= TIMER_FREQ && RecentOk(recent, r, k) && NiceOk(nice)
    ensures Priority(recent, nice).Some? && PRI_MIN <= Priority(recent, nice).value <= PRI_MAX
  {
  }

  // ----- What the arithmetic approximates -----

  /** load_avg becomes 59/60 of itself plus 1/60 of the ready threads, rounded down. */
  lemma {:induction false} LoadAvgIsClose(load: nat, ready: nat)
    requires LoadAvg(load, ready).Some?
    ensures 0 <= 59 * load + ready * F - 60 * LoadAvg(load, ready).value < 60
  {
  }

  /** `y` is x * 2 load / (2 load + 1) rounded down, at most 1 + x / F units too small. */
  ghost predicate IsDecayOf(load: int, x: int, y: int) {
    var w := 2 * load + F;
    0 <= y && 0 <= 2 * load * x - y * w && (2 * load * x - y * w) * F <= w * (F + x)
  }

  /** Rounding `a / w` down to `c`, then `c * x / F` down to `d`: the two errors add up. */
  lemma {:induction false} TwoRoundings(a: int, w: nat, c: nat, x: nat, d: nat)
    requires c * w <= a < c * w + w && d * F <= c * x < d * F + F
    ensures (d * w) * F <= x * a <= (d * w) * F + w * (F + x)
  {
    var y := c * x;
    Monotone(x, c * w, a);
    Monotone(x, a, c * w + w);
    Monotone(w, d * F, y);
    Monotone(w, y, d * F + F);
    assert x * (c * w) == w * y && x * (c * w + w) == w * y + w * x;
    assert w * (d * F) == (d * w) * F && w * (d * F + F) == (d * w) * F + w * F;
    assert w * (F + x) == w * F + w * x;
  }

  lemma {:induction false} FloorBounds(a: int, w: int)
    requires w > 0
    ensures a / w * w <= a < a / w * w + w
  {
  }

  /** Decaying a magnitude `x` by the rounded factor `c`. */
  lemma {:induction false} DecayIsClose(load: nat, x: nat, c: nat, d: nat)
    requires c == 2 * load * F / (2 * load + F) && d == c * x / F
    ensures IsDecayOf(load, x, d)
  {
    var w := 2 * load + F;
    FloorBounds(2 * load * F, w);
    FloorBounds(c * x, F);
    TwoRoundings(2 * load * F, w, c, x, d);
    assert x * (2 * load * F) == (2 * load * x) * F;
  }

  lemma {:induction false} DecayValue(load: nat)
    requires Decay(load).Some?
    ensures Decay(load).value == 2 * load * F / (2 * load + F) >= 0
  {
  }

  lemma {:induction false} ProductSign(c: int, recent: int, x: int)
    requires c >= 0 && x >= 0 && (recent == x || recent == -x)
    ensures c * x >= 0 && Quot(c * recent, F) == if recent >= 0 then c * x / F else -(c * x / F)
  {
    assert c * -x == -(c * x);
  }

  lemma {:induction false} RecentCpuValue(load: nat, recent: int, nice: int, c: int, x: int)
    requires RecentCpu(load, recent, nice).Some? && Decay(load) == Some(c) && c >= 0
    requires x >= 0 && (recent == x || recent == -x)
    ensures RecentCpu(load, recent, nice).value - nice * F == if recent >= 0 then c * x / F else -(c * x / F)
  {
    ProductSign(c, recent, x);
  }

  /** recent_cpu becomes 2 load / (2 load + 1) of itself plus nice, up to rounding toward zero. */
  lemma {:induction false} RecentCpuIsClose(load: nat, recent: int, nice: int)
    requires RecentCpu(load, recent, nice).Some?
    ensures var d := RecentCpu(load, recent, nice).value - nice * F;
      if recent >= 0 then IsDecayOf(load, recent, d) else IsDecayOf(load, -recent, -d)
  {
    var x: nat := if recent >= 0 then recent else -recent;
    DecayValue(load);
    var c: nat := Decay(load).value;
    RecentCpuValue(load, recent, nice, c, x);
    DecayIsClose(load, x, c, c * x / F);
  }

  /** The priority is 63 - recent_cpu / 4 - 2 nice, up to rounding, cut off at both ends. */
  lemma {:induction false} PriorityIsClose(recent: int, nice: int)
    requires Priority(recent, nice).Some?
    ensures var p, exact := Priority(recent, nice).value, 4 * PRI_MAX * F - recent - 8 * nice * F;
      && (p < PRI_MAX ==> exact - 4 * F * p < 4 * F + 4)
      && (p > PRI_MIN ==> exact - 4 * F * p > -4)
  {
  }

  // ----- What the getters report -----

  /** thread_get_load_avg. */
  function GetLoadAvg(load: int): Option<int> {
    var x :- MulInt(load, 100);
    Some(Quot(x, F))
  }

  /** thread_get_recent_cpu. */
  function GetRecentCpu(recent: int): Option<int> {
    var x :- MulInt(recent, 100);
    Some(Quot(x, F))
  }

  /** 100 times load_avg, rounded down; nothing overflows. */
  lemma {:induction false} GetLoadAvgIsSafe(load: int, r: nat)
    requires r <= MAX_THREADS && LoadOk(load, r)
    ensures GetLoadAvg(load).Some? && 0 <= 100 * load - F * GetLoadAvg(load).value < F
  {
  }

  /** The largest recent_cpu that can be multiplied by 100. */
  const MAX_REPORTED := 21474836

  /** 100 times recent_cpu, rounded toward zero, exactly when that product fits. */
  lemma {:induction false} GetRecentCpuIsSafe(recent: int)
    ensures GetRecentCpu(recent).Some? <==> -MAX_REPORTED <= recent <= MAX_REPORTED
    ensures GetRecentCpu(recent).Some? ==> -F < 100 * recent - F * GetRecentCpu(recent).value < F
  {
  }

  /** load_avg and recent_cpu of a thread with nice 20, `n` seconds after boot, while 40 threads are
      ready all the time. */
  function After(n: nat): Option<(int, int)> {
    if n == 0 then Some((0, 0))
    else
      var before :- After(n - 1);
      var load :- LoadAvg(before.0, 40);
      var recent :- RecentCpu(load, before.1, 20);
      Some((load, recent))
  }

  /** load_avg climbs until it is at least 39. */
  lemma {:induction false} LoadClimbs(load: int)
    requires LoadOk(load, 40)
    ensures LoadAvg(load, 40).Some? && LoadOk(LoadAvg(load, 40).value, 40)
    ensures LoadAvg(load, 40).value >= if load + 272 <= 39 * F then load + 272 else 39 * F
  {
  }

  lemma {:induction false} DecayAtLeast(load: int)
    requires 39 * F <= load <= 40 * F
    ensures Decay(load).Some? && Decay(load).value >= 16176
  {
    DecayBound(load, 40);
    DecayValue(load);
    FloorAtLeast(2 * load * F, 2 * load + F, 16176);
  }

  lemma {:induction false} FloorAtLeast(a: int, w: int, k: int)
    requires w > 0 && k * w <= a
    ensures a / w >= k
  {
    assert a < (a / w + 1) * w;
    if a / w + 1 <= k {
      Monotone(w, a / w + 1, k);
    }
  }

  lemma {:induction false} RecentStaysPositive(load: int, recent: int)
    requires LoadOk(load, 40) && recent >= 0 && RecentOk(recent, 40, 0)
    ensures RecentCpu(load, recent, 20).Some? && RecentCpu(load, recent, 20).value >= 0
    ensures RecentOk(RecentCpu(load, recent, 20).value, 40, 0)
  {
    RecentCpuStays(load, recent, 20, 40);
    DecayBound(load, 40);
    var c := Decay(load).value;
    Monotone(recent, 0, c);
    RecentCpuValue(load, recent, 20, c, recent);
  }

  /** And recent_cpu climbs from then on, until it cannot be multiplied by 100 any more. */
  lemma {:induction false} RecentClimbs(load: int, recent: int)
    requires 39 * F <= load <= 40 * F && recent >= 0 && RecentOk(recent, 40, 0)
    ensures RecentCpu(load, recent, 20).Some?
    ensures RecentCpu(load, recent, 20).value >= if recent <= MAX_REPORTED then recent + 50000 else MAX_REPORTED + 1
  {
    RecentCpuStays(load, recent, 20, 40);
    DecayAtLeast(load);
    var c := Decay(load).value;
    Monotone(recent, 16176, c);
    assert Mul(c, recent) == Some(c * recent / F);
  }

  lemma {:induction false} AfterIsDefined(n: nat)
    ensures After(n).Some? && LoadOk(After(n).value.0, 40) && After(n).value.1 >= 0 && RecentOk(After(n).value.1, 40, 0)
    ensures After(n).value.0 >= if 272 * n <= 39 * F then 272 * n else 39 * F
  {
    if n > 0 {
      AfterIsDefined(n - 1);
      var before := After(n - 1).value;
      LoadClimbs(before.0);
      RecentStaysPositive(LoadAvg(before.0, 40).value, before.1);
    }
  }

  lemma {:induction false} AfterClimbs(n: nat)
    ensures After(2350 + n).Some?
    ensures After(2350 + n).value.1 >= if 50000 * n <= MAX_REPORTED then 50000 * n else MAX_REPORTED + 1
  {
    AfterIsDefined(2350 + n);
    if n > 0 {
      AfterClimbs(n - 1);
      AfterIsDefined(2350 + n - 1);
      var before := After(2350 + n - 1).value;
      LoadClimbs(before.0);
      RecentClimbs(LoadAvg(before.0, 40).value, before.1);
    }
  }

  /** After 2780 seconds thread_get_recent_cpu overflows, though recent_cpu itself does not. */
  lemma {:induction false} GetRecentCpuOverflows()
    ensures After(2780).Some? && RecentOk(After(2780).value.1, 40, 0) && GetRecentCpu(After(2780).value.1) == None
  {
    AfterIsDefined(2780);
    AfterClimbs(430);
    GetRecentCpuIsSafe(After(2780).value.1);
  }
}
