/** sort, heapify and binary_search of lib/stdlib.c, in place on an array.  Heap indices are
    1-based, as in the source. */
module HeapSort {

  /** `cmp` is a strcmp-type comparison: signs mirror each other, and order is transitive. */
  ghost predicate IsOrder<T(!new)>(cmp: (T, T) -> int) {
    && (forall a, b :: cmp(a, b) > 0 <==> cmp(b, a) < 0)
    && (forall a, b, c :: cmp(a, b) <= 0 && cmp(b, c) <= 0 ==> cmp(a, c) <= 0)
  }

  function At<T>(s: seq<T>, i: int): T
    requires 1 <= i <= |s|
  {
    s[i - 1]
  }

  function Swapped<T>(s: seq<T>, i: int, j: int): (r: seq<T>)
    requires 1 <= i <= |s| && 1 <= j <= |s|
    ensures |r| == |s| && At(r, i) == At(s, j) && At(r, j) == At(s, i)
    ensures forall k :: 1 <= k <= |s| && k != i && k != j ==> At(r, k) == At(s, k)
  {
    s[i - 1 := s[j - 1]][j - 1 := s[i - 1]]
  }

  /** The child `c` of its parent is in order. */
  ghost predicate ChildOk<T>(cmp: (T, T) -> int, s: seq<T>, c: int)
    requires 2 <= c <= |s|
  {
    cmp(At(s, c), At(s, c / 2)) <= 0
  }

  /** Elements 1 to `cnt` are a heap as far as parents from `lo` on go. */
  ghost predicate Heap<T>(cmp: (T, T) -> int, s: seq<T>, lo: int, cnt: int)
    requires 1 <= lo && cnt <= |s|
  {
    forall c :: 2 <= c <= cnt && lo <= c / 2 ==> ChildOk(cmp, s, c)
  }

  /** A heap but for the element at `i`, which may be less than its children; those are no greater
      than its parent. */
  ghost predicate Sinking<T>(cmp: (T, T) -> int, s: seq<T>, lo: int, i: int, cnt: int)
    requires 1 <= lo <= i && cnt <= |s|
  {
    && (forall c :: 2 <= c <= cnt && lo <= c / 2 && c / 2 != i ==> ChildOk(cmp, s, c))
    && (forall c :: 2 <= c <= cnt && c / 2 == i && lo <= i / 2 ==> cmp(At(s, c), At(s, i / 2)) <= 0)
  }

  lemma {:induction false} SwapPermutes<T>(s: seq<T>, i: int, j: int)
    requires 1 <= i < j <= |s|
    ensures multiset(Swapped(s, i, j)) == multiset(s)
  {
    var r := Swapped(s, i, j);
    assert s == s[..i - 1] + [s[i - 1]] + s[i..j - 1] + [s[j - 1]] + s[j..];
    assert r == s[..i - 1] + [s[j - 1]] + s[i..j - 1] + [s[i - 1]] + s[j..];
  }

  /** Exchanging the element at `i` with its greatest child moves the gap down. */
  lemma {:induction false} SinkStep<T(!new)>(cmp: (T, T) -> int, s: seq<T>, lo: int, i: int, m: int, cnt: int)
    requires IsOrder(cmp) && 1 <= lo <= i && cnt <= |s| && Sinking(cmp, s, lo, i, cnt)
    requires 2 <= m <= cnt && m / 2 == i && cmp(At(s, i), At(s, m)) <= 0
    requires forall c :: 2 <= c <= cnt && c / 2 == i ==> cmp(At(s, c), At(s, m)) <= 0
    ensures Sinking(cmp, Swapped(s, i, m), lo, m, cnt)
  {
    var r := Swapped(s, i, m);
    forall c | 2 <= c <= cnt && lo <= c / 2 && c / 2 != m ensures ChildOk(cmp, r, c) {
      if c == i {
        assert cmp(At(s, m), At(s, i / 2)) <= 0;
      } else if c / 2 != i {
        assert ChildOk(cmp, s, c);
      }
    }
    forall c | 2 <= c <= cnt && c / 2 == m ensures cmp(At(r, c), At(r, m / 2)) <= 0 {
      assert ChildOk(cmp, s, c);
    }
  }

  /** do_swap. */
  method Swap<T>(a: array<T>, i: int, j: int)
    requires 1 <= i < j <= a.Length
    modifies a
    ensures a[..] == Swapped(old(a[..]), i, j) && multiset(a[..]) == multiset(old(a[..]))
    ensures a[j..] == old(a[j..])
  {
    SwapPermutes(a[..], i, j);
    a[i - 1], a[j - 1] := a[j - 1], a[i - 1];
    assert a[..] == Swapped(old(a[..]), i, j);
  }

  /** The index of the greatest among `i` and its children. */
  method Greatest<T(!new)>(a: array<T>, i: int, cnt: int, cmp: (T, T) -> int) returns (max: int)
    requires IsOrder(cmp) && 1 <= i <= cnt <= a.Length
    ensures max == i || (max / 2 == i && 2 <= max <= cnt && cmp(At(a[..], i), At(a[..], max)) <= 0)
    ensures forall c :: 2 <= c <= cnt && c / 2 == i ==> cmp(At(a[..], c), At(a[..], max)) <= 0
  {
    var left, right := 2 * i, 2 * i + 1;
    max := i;
    if left <= cnt && cmp(a[left - 1], a[max - 1]) > 0 {
      max := left;
    }
    if right <= cnt && cmp(a[right - 1], a[max - 1]) > 0 {
      max := right;
    }
    forall c | 2 <= c <= cnt && c / 2 == i ensures cmp(At(a[..], c), At(a[..], max)) <= 0 {
      assert c == left || c == right;
    }
  }

  /** heapify floats the element at `i0` down to where it belongs. */
  method Heapify<T(!new)>(a: array<T>, i0: int, cnt: int, cmp: (T, T) -> int)
    requires IsOrder(cmp) && 1 <= i0 <= cnt <= a.Length && Sinking(cmp, a[..], i0, i0, cnt)
    modifies a
    ensures Heap(cmp, a[..], i0, cnt)
    ensures multiset(a[..]) == multiset(old(a[..])) && a[cnt..] == old(a[cnt..])
  {
    var i := i0;
    while true
      invariant i0 <= i <= cnt && Sinking(cmp, a[..], i0, i, cnt)
      invariant multiset(a[..]) == multiset(old(a[..])) && a[cnt..] == old(a[cnt..])
      decreases cnt - i
    {
      var max := Greatest(a, i, cnt, cmp);
      if max == i {
        Settled(cmp, a[..], i0, i, cnt);
        break;
      }
      SinkStep(cmp, a[..], i0, i, max, cnt);
      label before:
      Swap(a, i, max);
      SameTail(old@before(a[..]), a[..], max, cnt);
      i := max;
    }
  }

  lemma {:induction false} Settled<T>(cmp: (T, T) -> int, s: seq<T>, lo: int, i: int, cnt: int)
    requires 1 <= lo <= i <= cnt <= |s| && Sinking(cmp, s, lo, i, cnt)
    requires forall c :: 2 <= c <= cnt && c / 2 == i ==> cmp(At(s, c), At(s, i)) <= 0
    ensures Heap(cmp, s, lo, cnt)
  {
    forall c | 2 <= c <= cnt && lo <= c / 2 ensures ChildOk(cmp, s, c) {
    }
  }

  lemma {:induction false} SameTail<T>(s: seq<T>, r: seq<T>, j: int, cnt: int)
    requires |r| == |s| && 0 <= j <= cnt <= |s| && r[j..] == s[j..]
    ensures r[cnt..] == s[cnt..]
  {
    forall k | cnt <= k < |s| ensures r[k] == s[k] {
      assert r[k] == r[j..][k - j] && s[k] == s[j..][k - j];
    }
  }

  // ----- sort -----

  /** Everything from index `i` on is in its final place. */
  ghost predicate Placed<T>(cmp: (T, T) -> int, s: seq<T>, i: int) {
    forall x, y :: 0 <= x < y < |s| && i <= y ==> cmp(s[x], s[y]) <= 0
  }

  ghost predicate Sorted<T>(cmp: (T, T) -> int, s: seq<T>) {
    forall x, y :: 0 <= x < y < |s| ==> cmp(s[x], s[y]) <= 0
  }

  lemma {:induction false} RootIsMax<T(!new)>(cmp: (T, T) -> int, s: seq<T>, cnt: int, k: int)
    requires IsOrder(cmp) && cnt <= |s| && Heap(cmp, s, 1, cnt) && 1 <= k <= cnt
    ensures cmp(At(s, k), At(s, 1)) <= 0
    decreases k
  {
    if k == 1 {
      assert !(cmp(At(s, 1), At(s, 1)) > 0);
    } else {
      RootIsMax(cmp, s, cnt, k / 2);
      assert ChildOk(cmp, s, k);
    }
  }

  lemma {:induction false} SamePrefix<T>(s: seq<T>, r: seq<T>, k: int)
    requires |r| == |s| && 0 <= k <= |s| && multiset(r) == multiset(s) && r[k..] == s[k..]
    ensures multiset(r[..k]) == multiset(s[..k])
  {
    assert s == s[..k] + s[k..] && r == r[..k] + r[k..];
    assert multiset(s[..k]) + multiset(s[k..]) == multiset(r[..k]) + multiset(s[k..]);
    Cancel(multiset(s[..k]), multiset(r[..k]), multiset(s[k..]));
  }

  lemma {:induction false} Cancel<T>(x: multiset<T>, y: multiset<T>, z: multiset<T>)
    requires x + z == y + z
    ensures x == y
  {
    assert x == x + z - z && y == y + z - z;
  }

  /** An element of the heap part after a step was in the heap part before it. */
  lemma {:induction false} ComesFrom<T>(s: seq<T>, r: seq<T>, i: int, x: int) returns (k: int)
    requires 1 < i <= |s| == |r| && 0 <= x < i - 1
    requires multiset(r) == multiset(Swapped(s, 1, i)) && r[i - 1..] == Swapped(s, 1, i)[i - 1..]
    ensures 0 <= k < i && r[x] == s[k]
  {
    var t := Swapped(s, 1, i);
    SamePrefix(t, r, i - 1);
    assert r[x] in multiset(r[..i - 1]);
    assert r[x] in t[..i - 1];
    var j :| 0 <= j < i - 1 && t[j] == r[x];
    k := if j == 0 then i - 1 else j;
    assert t[j] == At(t, j + 1);
  }

  lemma {:induction false} StepPlaces<T(!new)>(cmp: (T, T) -> int, s: seq<T>, r: seq<T>, i: int)
    requires IsOrder(cmp) && 1 < i <= |s| == |r| && Heap(cmp, s, 1, i) && Placed(cmp, s, i)
    requires multiset(r) == multiset(Swapped(s, 1, i)) && r[i - 1..] == Swapped(s, 1, i)[i - 1..]
    ensures Placed(cmp, r, i - 1)
  {
    var t := Swapped(s, 1, i);
    forall y | i - 1 <= y < |s| ensures r[y] == if y == i - 1 then s[0] else s[y] {
      assert r[y] == r[i - 1..][y - (i - 1)] == t[i - 1..][y - (i - 1)] == At(t, y + 1);
    }
    forall x, y | 0 <= x < y < |r| && i - 1 <= y ensures cmp(r[x], r[y]) <= 0 {
      var k := x;
      if x < i - 1 {
        k := ComesFrom(s, r, i, x);
      } else if x == i - 1 {
        k := 0;
      }
      if y == i - 1 {
        RootIsMax(cmp, s, i, k + 1);
      }
    }
  }

  lemma {:induction false} SwapSinks<T>(cmp: (T, T) -> int, s: seq<T>, i: int)
    requires 1 < i <= |s| && Heap(cmp, s, 1, i)
    ensures Sinking(cmp, Swapped(s, 1, i), 1, 1, i - 1)
  {
    forall c | 2 <= c <= i - 1 && c / 2 != 1 && 1 <= c / 2 ensures ChildOk(cmp, Swapped(s, 1, i), c) {
      assert ChildOk(cmp, s, c);
    }
  }

  /** The first loop of sort. */
  method BuildHeap<T(!new)>(a: array<T>, cmp: (T, T) -> int)
    requires IsOrder(cmp)
    modifies a
    ensures Heap(cmp, a[..], 1, a.Length) && multiset(a[..]) == multiset(old(a[..]))
  {
    var cnt := a.Length;
    var i := cnt / 2;
    while i > 0
      invariant 0 <= i <= cnt / 2 && Heap(cmp, a[..], i + 1, cnt) && multiset(a[..]) == multiset(old(a[..]))
    {
      Heapify(a, i, cnt, cmp);
      i := i - 1;
    }
  }

  /** sort leaves a sorted permutation of its input. */
  method Sort<T(!new)>(a: array<T>, cmp: (T, T) -> int)
    requires IsOrder(cmp)
    modifies a
    ensures Sorted(cmp, a[..]) && multiset(a[..]) == multiset(old(a[..]))
  {
    BuildHeap(a, cmp);
    var i := a.Length;
    while i > 1
      invariant 0 <= i <= a.Length && (i > 0 || a.Length == 0)
      invariant Heap(cmp, a[..], 1, i) && Placed(cmp, a[..], i) && multiset(a[..]) == multiset(old(a[..]))
    {
      ghost var s := a[..];
      SwapSinks(cmp, s, i);
      Swap(a, 1, i);
      Heapify(a, 1, i - 1, cmp);
      StepPlaces(cmp, s, a[..], i);
      i := i - 1;
    }
  }

  // ----- binary_search -----

  /** binary_search on a sorted array finds a match exactly when there is one. */
  method BinarySearch<K, T(!new)>(key: K, a: array<T>, cmp: (T, T) -> int, probe: (K, T) -> int) returns (r: int)
    requires IsOrder(cmp) && Sorted(cmp, a[..])
    requires forall x, y :: cmp(x, y) <= 0 ==> (probe(key, x) < 0 ==> probe(key, y) < 0) && (probe(key, y) > 0 ==> probe(key, x) > 0)
    ensures r >= 0 ==> r < a.Length && probe(key, a[r]) == 0
    ensures r < 0 ==> forall i :: 0 <= i < a.Length ==> probe(key, a[i]) != 0
  {
    var first, last := 0, a.Length;
    while first < last
      invariant 0 <= first <= last <= a.Length
      invariant forall i :: 0 <= i < first ==> probe(key, a[i]) > 0
      invariant forall i :: last <= i < a.Length ==> probe(key, a[i]) < 0
    {
      var middle := first + (last - first) / 2;
      var c := probe(key, a[middle]);
      assert forall i :: 0 <= i < middle ==> cmp(a[..][i], a[..][middle]) <= 0;
      assert forall i :: middle < i < a.Length ==> cmp(a[..][middle], a[..][i]) <= 0;
      if c < 0 {
        last := middle;
      } else if c > 0 {
        first := middle + 1;
      } else {
        return middle;
      }
    }
    return -1;
  }
}
