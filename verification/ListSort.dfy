/** list_sort: a natural merge sort that relinks the elements of a list in place. */
module ListSort {
  import opened Ordered
  import opened List

  // ----- Runs -----

  /** `v` is in order from `i` to `j`. */
  ghost predicate SortedIn<V>(less: (V, V) -> bool, v: seq<V>, i: int, j: int)
    requires 0 <= i <= j <= |v|
  {
    forall a, b :: i <= a < b < j ==> !less(v[b], v[a])
  }

  /** No element from `i` to `j` is less than the one before it. */
  ghost predicate Run<V>(less: (V, V) -> bool, v: seq<V>, i: int, j: int)
    requires 0 <= i <= j <= |v|
  {
    forall a :: i < a < j ==> !less(v[a], v[a - 1])
  }

  lemma {:induction false} RunIsSorted<V(!new)>(less: (V, V) -> bool, v: seq<V>, i: int, j: int)
    requires StrictWeak(less) && 0 <= i <= j <= |v| && Run(less, v, i, j)
    ensures SortedIn(less, v, i, j)
    decreases j
  {
    if i < j {
      RunIsSorted(less, v, i, j - 1);
      if i < j - 1 {
        assert !less(v[j - 1], v[j - 2]);
        forall a | i <= a < j - 1 ensures !less(v[j - 1], v[a]) {
        }
      }
    }
  }

  /** How many runs `v` falls into. */
  ghost function Runs<V>(less: (V, V) -> bool, v: seq<V>): nat {
    if |v| <= 1 then |v|
    else Runs(less, v[..|v| - 1]) + if less(v[|v| - 1], v[|v| - 2]) then 1 else 0
  }

  lemma {:induction false} RunsOfConcat<V>(less: (V, V) -> bool, u: seq<V>, w: seq<V>)
    ensures u != [] && w != [] ==>
      Runs(less, u + w) + 1 == Runs(less, u) + Runs(less, w) + if less(w[0], u[|u| - 1]) then 1 else 0
    ensures u == [] || w == [] ==> Runs(less, u + w) == Runs(less, u) + Runs(less, w)
  {
    if w == [] {
      assert u + w == u;
    } else if u == [] {
      assert u + w == w;
    } else {
      assert (u + w)[..|u + w| - 1] == u + w[..|w| - 1];
      RunsOfConcat(less, u, w[..|w| - 1]);
      assert |w| == 1 ==> u + w[..|w| - 1] == u;
    }
  }

  lemma {:induction false} SortedIsOneRun<V>(less: (V, V) -> bool, v: seq<V>)
    ensures v != [] && Run(less, v, 0, |v|) <==> Runs(less, v) == 1
    ensures Runs(less, v) == 0 <==> v == []
  {
    if |v| > 1 {
      var u := v[..|v| - 1];
      SortedIsOneRun(less, u);
      assert Run(less, v, 0, |v| - 1) <==> Run(less, u, 0, |u|);
    }
  }

  // ----- Moving one element forward -----

  lemma {:induction false} ValuesOfSplice<V>(s: seq<Elem<V>>, i: int, j: int)
    requires 0 <= i <= j < |s|
    ensures Values(Spliced(s, i, j, j + 1)) == Spliced(Values(s), i, j, j + 1)
  {
  }

  lemma {:induction false} ClassInside<V>(less: (V, V) -> bool, p: seq<V>, m: seq<V>, m': seq<V>, q: seq<V>, a: V)
    requires Class(less, m, a) == Class(less, m', a)
    ensures Class(less, p + m + q, a) == Class(less, p + m' + q, a)
  {
    ClassOfConcat(less, p, m, a);
    ClassOfConcat(less, p, m', a);
    ClassOfConcat(less, p + m, q, a);
    ClassOfConcat(less, p + m', q, a);
  }

  lemma {:induction false} ClassOfSwap<V(!new)>(less: (V, V) -> bool, x: seq<V>, y: V, a: V)
    requires StrictWeak(less) && forall m :: 0 <= m < |x| ==> less(y, x[m])
    ensures Class(less, x + [y], a) == Class(less, [y] + x, a)
  {
    ClassOfConcat(less, x, [y], a);
    ClassOfConcat(less, [y], x, a);
    if Alike(less, a, y) {
      ClassAvoids(less, x, a);
    } else {
      ClassAvoids(less, [y], a);
    }
  }

  /** Moving an element before others that it is less than leaves every class as it is. */
  lemma {:induction false} MoveIsStable<V(!new)>(less: (V, V) -> bool, v: seq<V>, i: int, j: int)
    requires StrictWeak(less) && 0 <= i <= j < |v|
    requires forall m :: i <= m < j ==> less(v[j], v[m])
    ensures StableOf(less, v, Spliced(v, i, j, j + 1))
  {
    var p, x, q := v[..i], v[i..j], v[j + 1..];
    assert v == p + (x + [v[j]]) + q;
    assert Spliced(v, i, j, j + 1) == p + ([v[j]] + x) + q;
    forall a ensures Class(less, v, a) == Class(less, Spliced(v, i, j, j + 1), a) {
      ClassOfSwap(less, x, v[j], a);
      ClassInside(less, p, x + [v[j]], [v[j]] + x, q, a);
    }
  }

  // ----- Merging -----

  /** The part from `lo` to `j` is merged already up to `i`, and the part from `j` to `hi` is not. */
  ghost predicate Merging<V>(less: (V, V) -> bool, v: seq<V>, lo: int, i: int, j: int, hi: int) {
    && 0 <= lo <= i <= j <= hi < |v|
    && SortedIn(less, v, lo, j) && SortedIn(less, v, j, hi)
    && (j < hi ==> forall m :: lo <= m < i ==> !less(v[j], v[m]))
  }

  lemma {:induction false} MoveKeepsMerging<V(!new)>(less: (V, V) -> bool, v: seq<V>, lo: int, i: int, j: int, hi: int)
    requires StrictWeak(less) && Merging(less, v, lo, i, j, hi) && i < j < hi && less(v[j], v[i])
    ensures forall m :: i <= m < j ==> less(v[j], v[m])
    ensures Merging(less, Spliced(v, i, j, j + 1), lo, i + 1, j + 1, hi)
  {
    forall m | i <= m < j ensures less(v[j], v[m]) {
      assert m > i ==> !less(v[m], v[i]);
    }
    var w := Spliced(v, i, j, j + 1);
    assert forall m :: 0 <= m < i ==> w[m] == v[m];
    assert w[i] == v[j];
    assert forall m :: i < m <= j ==> w[m] == v[m - 1];
    assert forall m :: j < m < |v| ==> w[m] == v[m];
    MovedIsSorted(less, v, w, lo, i, j, hi);
  }

  lemma {:induction false} MovedIsSorted<V(!new)>(less: (V, V) -> bool, v: seq<V>, w: seq<V>, lo: int, i: int, j: int, hi: int)
    requires StrictWeak(less) && Merging(less, v, lo, i, j, hi) && i < j < hi && |w| == |v|
    requires forall m :: i <= m < j ==> less(v[j], v[m])
    requires forall m :: 0 <= m < i ==> w[m] == v[m]
    requires w[i] == v[j]
    requires forall m :: i < m <= j ==> w[m] == v[m - 1]
    requires forall m :: j < m < |v| ==> w[m] == v[m]
    ensures Merging(less, w, lo, i + 1, j + 1, hi)
  {
    forall a, b | lo <= a < b < j + 1 ensures !less(w[b], w[a]) {
      var a', b' := if a < i then a else if a == i then j else a - 1, if b < i then b else if b == i then j else b - 1;
      assert w[a] == v[a'] && w[b] == v[b'];
    }
    if j + 1 < hi {
      assert !less(v[j + 1], v[j]);
      forall m | lo <= m < i + 1 ensures !less(w[j + 1], w[m]) {
        assert w[m] == if m < i then v[m] else v[j];
        assert m < i ==> !less(v[j], v[m]);
      }
    }
  }

  lemma {:induction false} MergedIsSorted<V(!new)>(less: (V, V) -> bool, v: seq<V>, lo: int, i: int, j: int, hi: int)
    requires StrictWeak(less) && Merging(less, v, lo, i, j, hi) && (i == j || j == hi)
    ensures SortedIn(less, v, lo, hi)
  {
    if j < hi {
      forall a, b | lo <= a < b < hi ensures !less(v[b], v[a]) {
        if a < j <= b {
          assert !less(v[j], v[a]) && (b == j || !less(v[b], v[j]));
        }
      }
    }
  }

  // ----- Merging elements -----

  /** `r` links the same elements as `s`, and is `s` outside the part from `lo` to `hi`. */
  ghost predicate Rearranged<V>(s: seq<Elem<V>>, r: seq<Elem<V>>, lo: int, hi: int) {
    && |r| == |s| && 0 <= lo <= hi <= |s|
    && multiset(r) == multiset(s)
    && r[..lo] == s[..lo] && r[hi..] == s[hi..]
  }

  lemma {:induction false} SpliceRearranges<V>(s: seq<Elem<V>>, r: seq<Elem<V>>, lo: int, i: int, j: int, hi: int)
    requires Rearranged(s, r, lo, hi) && lo <= i <= j < hi
    ensures Rearranged(s, Spliced(r, i, j, j + 1), lo, hi)
  {
    assert r == r[..i] + r[i..j] + r[j..j + 1] + r[j + 1..];
    var t := Spliced(r, i, j, j + 1);
    assert multiset(t) == multiset(r);
    assert t[..lo] == r[..lo] && t[hi..] == r[hi..];
  }

  /** What is left to do of a merge, with the heads of the two parts at `i` and `j`. */
  ghost function MergeFrom<V>(less: (V, V) -> bool, r: seq<Elem<V>>, i: int, j: int, hi: int): seq<Elem<V>>
    requires 0 <= i <= j <= hi < |r|
    decreases hi - i
  {
    if i == j || j == hi then r
    else if !less(r[j].value, r[i].value) then MergeFrom(less, r, i + 1, j, hi)
    else MergeFrom(less, Spliced(r, i, j, j + 1), i + 1, j + 1, hi)
  }

  /** The same on values. */
  ghost function MergeValues<V>(less: (V, V) -> bool, v: seq<V>, i: int, j: int, hi: int): (w: seq<V>)
    requires 0 <= i <= j <= hi < |v|
    ensures |w| == |v|
    decreases hi - i
  {
    if i == j || j == hi then v
    else if !less(v[j], v[i]) then MergeValues(less, v, i + 1, j, hi)
    else MergeValues(less, Spliced(v, i, j, j + 1), i + 1, j + 1, hi)
  }

  lemma {:induction false} ValuesOfMerge<V>(less: (V, V) -> bool, r: seq<Elem<V>>, i: int, j: int, hi: int)
    requires 0 <= i <= j <= hi < |r|
    ensures Values(MergeFrom(less, r, i, j, hi)) == MergeValues(less, Values(r), i, j, hi)
    decreases hi - i
  {
    if i < j < hi {
      if !less(r[j].value, r[i].value) {
        ValuesOfMerge(less, r, i + 1, j, hi);
      } else {
        ValuesOfMerge(less, Spliced(r, i, j, j + 1), i + 1, j + 1, hi);
        ValuesOfSplice(r, i, j);
      }
    }
  }

  lemma {:induction false} MergeRearranges<V>(less: (V, V) -> bool, s: seq<Elem<V>>, r: seq<Elem<V>>, lo: int, i: int, j: int, hi: int)
    requires 0 <= lo <= i <= j <= hi < |r| && Rearranged(s, r, lo, hi)
    ensures Rearranged(s, MergeFrom(less, r, i, j, hi), lo, hi)
    decreases hi - i
  {
    if i < j < hi {
      if !less(r[j].value, r[i].value) {
        MergeRearranges(less, s, r, lo, i + 1, j, hi);
      } else {
        SpliceRearranges(s, r, lo, i, j, hi);
        MergeRearranges(less, s, Spliced(r, i, j, j + 1), lo, i + 1, j + 1, hi);
      }
    }
  }

  lemma {:induction false} MergeSorts<V(!new)>(less: (V, V) -> bool, v: seq<V>, lo: int, i: int, j: int, hi: int)
    requires StrictWeak(less) && Merging(less, v, lo, i, j, hi)
    ensures SortedIn(less, MergeValues(less, v, i, j, hi), lo, hi)
    decreases hi - i
  {
    if i == j || j == hi {
      MergedIsSorted(less, v, lo, i, j, hi);
    } else if !less(v[j], v[i]) {
      MergeSorts(less, v, lo, i + 1, j, hi);
    } else {
      MoveKeepsMerging(less, v, lo, i, j, hi);
      MergeSorts(less, Spliced(v, i, j, j + 1), lo, i + 1, j + 1, hi);
    }
  }

  lemma {:induction false} MergeIsStable<V(!new)>(less: (V, V) -> bool, v: seq<V>, lo: int, i: int, j: int, hi: int)
    requires StrictWeak(less) && Merging(less, v, lo, i, j, hi)
    ensures StableOf(less, v, MergeValues(less, v, i, j, hi))
    decreases hi - i
  {
    if i < j < hi {
      if !less(v[j], v[i]) {
        MergeIsStable(less, v, lo, i + 1, j, hi);
      } else {
        var w := Spliced(v, i, j, j + 1);
        MoveKeepsMerging(less, v, lo, i, j, hi);
        MoveIsStable(less, v, i, j);
        MergeIsStable(less, w, lo, i + 1, j + 1, hi);
        StableTwice(less, v, w, MergeValues(less, w, i + 1, j + 1, hi));
      }
    }
  }

  /** `r` is `s` with the part from `lo` to `hi` sorted in a stable way. */
  ghost predicate PartSorted<V(!new)>(less: (V, V) -> bool, s: seq<Elem<V>>, r: seq<Elem<V>>, lo: int, hi: int) {
    Rearranged(s, r, lo, hi) && StableOf(less, Values(s), Values(r)) && SortedIn(less, Values(r), lo, hi)
  }

  // ----- The pointer code -----

  method FindEndOfRun<V(!new)>(a: Elem<V>, b: Elem<V>, less: (V, V) -> bool,
                               ghost s: seq<Elem<V>>, ghost i: int, ghost n: int)
    returns (r: Elem<V>, ghost k: int)
    requires Chain(s) && 0 < i < n < |s| && a == s[i] && b == s[n]
    ensures i < k <= n && r == s[k] && Run(less, Values(s), i, k)
    ensures k < n ==> less(s[k].value, s[k - 1].value)
  {
    assert Link(s, i);
    r, k := a.next, i + 1;
    while r != b && !less(r.value, r.prev.value)
      invariant i < k <= n && r == s[k] && Link(s, k - 1) && Run(less, Values(s), i, k)
      decreases n - k
    {
      assert Link(s, k);
      r, k := r.next, k + 1;
    }
  }

  ghost predicate Within<V>(s: seq<Elem<V>>, all: set<Elem<V>>) {
    forall i :: 0 <= i < |s| ==> s[i] in all
  }

  lemma {:induction false} SpliceStaysWithin<V>(s: seq<Elem<V>>, i: int, j: int, all: set<Elem<V>>)
    requires 0 <= i <= j < |s| && Within(s, all)
    ensures Within(Spliced(s, i, j, j + 1), all)
    ensures forall x :: x in s ==> x in all
  {
  }

  /** The head `b` of the second part goes before `a`; `next` is then that part's head. */
  method PullForward<V>(a: Elem<V>, b: Elem<V>, ghost r: seq<Elem<V>>, ghost i: int, ghost j: int, ghost all: set<Elem<V>>)
    returns (next: Elem<V>)
    requires Chain(r) && 0 < i < j < |r| - 1 && a == r[i] && b == r[j] && Within(r, all)
    modifies all
    ensures Chain(Spliced(r, i, j, j + 1)) && Within(Spliced(r, i, j, j + 1), all) && next == r[j + 1]
  {
    assert Link(r, j);
    next := b.next;
    SpliceStaysWithin(r, i, j, all);
    Splice(a, next.prev, next, r, i, j, j + 1);
  }

  method InplaceMerge<V>(a: Elem<V>, b: Elem<V>, c: Elem<V>, less: (V, V) -> bool,
                         ghost s: seq<Elem<V>>, ghost lo: int, ghost mid: int, ghost hi: int, ghost all: set<Elem<V>>)
    returns (ghost r: seq<Elem<V>>)
    requires Chain(s) && 0 < lo < mid < hi < |s| && a == s[lo] && b == s[mid] && c == s[hi]
    requires Within(s, all)
    modifies all
    ensures Chain(r) && r == MergeFrom(less, s, lo, mid, hi)
  {
    var a0, a1b0, b1 := a, b, c;
    r := s;
    ghost var i, j := lo, mid;
    while a0 != a1b0 && a1b0 != b1
      invariant 0 < i <= j <= hi < |r| && MergeFrom(less, r, i, j, hi) == MergeFrom(less, s, lo, mid, hi)
      invariant Chain(r) && a0 == r[i] && a1b0 == r[j] && b1 == r[hi]
      invariant Within(r, all)
      decreases hi - i
    {
      assert Link(r, i);
      if !less(a1b0.value, a0.value) {
        a0, i := a0.next, i + 1;
      } else {
        a1b0 := PullForward(a0, a1b0, r, i, j, all);
        r, i, j := Spliced(r, i, j, j + 1), i + 1, j + 1;
      }
    }
  }

  // ----- Passes -----

  lemma {:induction false} FirstRunEnds<V>(less: (V, V) -> bool, v: seq<V>, i: int, k: int, n: int)
    requires 0 <= i < k <= n <= |v| && Run(less, v, i, k) && (k < n ==> less(v[k], v[k - 1]))
    ensures Runs(less, v[i..n]) == 1 + Runs(less, v[k..n])
  {
    var u, w := v[i..k], v[k..n];
    assert v[i..n] == u + w;
    forall a | 0 < a < |u| ensures !less(u[a], u[a - 1]) {
      assert u[a] == v[i + a] && u[a - 1] == v[i + a - 1];
    }
    SortedIsOneRun(less, u);
    RunsOfConcat(less, u, w);
  }

  lemma {:induction false} RunAddsOne<V>(less: (V, V) -> bool, v: seq<V>, p: int, k: int)
    requires 0 < p < k <= |v| && Run(less, v, p, k)
    ensures Runs(less, v[1..k]) <= Runs(less, v[1..p]) + 1
  {
    var u := v[p..k];
    forall a | 0 < a < |u| ensures !less(u[a], u[a - 1]) {
      assert u[a] == v[p + a] && u[a - 1] == v[p + a - 1];
    }
    SortedIsOneRun(less, u);
    RunsOfConcat(less, v[1..p], u);
    SortedIsOneRun(less, v[1..p]);
    assert v[1..k] == v[1..p] + u;
  }

  /** A pass over the list `s` has reached element `p` and put out `cnt` runs; the list is now `r`. */
  ghost predicate Passing<V(!new)>(less: (V, V) -> bool, s: seq<Elem<V>>, r: seq<Elem<V>>, p: int, cnt: int) {
    && |r| == |s| >= 2 && 0 < p < |s| && multiset(r) == multiset(s) && r[0] == s[0] && r[p..] == s[p..]
    && StableOf(less, Values(s), Values(r))
    && Halving(less, Values(s), Values(r), p, cnt)
  }

  /** The `cnt` runs put out so far hold two each of the runs of `v` met so far. */
  ghost predicate Halving<V>(less: (V, V) -> bool, v: seq<V>, w: seq<V>, p: int, cnt: int) {
    && |w| == |v| >= 2 && 0 < p < |v|
    && Runs(less, w[1..p]) <= cnt
    && 2 * cnt + Runs(less, w[p..|w| - 1]) == Runs(less, v[1..|v| - 1])
  }

  /** Merging the runs that end at `k` and `q` turns two runs into one. */
  lemma {:induction false} MergeSavesARun<V>(less: (V, V) -> bool, v: seq<V>, w: seq<V>, p: int, k: int, q: int, n: int)
    requires 0 < p < k < q <= n == |v| - 1 && |w| == |v|
    requires SortedIn(less, w, p, q) && w[1..p] == v[1..p] && w[q..n] == v[q..n]
    requires Run(less, v, p, k) && less(v[k], v[k - 1]) && Run(less, v, k, q) && (q < n ==> less(v[q], v[q - 1]))
    ensures forall u, cnt :: Halving(less, u, v, p, cnt) ==> Halving(less, u, w, q, cnt + 1)
  {
    FirstRunEnds(less, v, p, k, n);
    FirstRunEnds(less, v, k, q, n);
    RunAddsOne(less, w, p, q);
  }

  lemma {:induction false} StableTwice<V(!new)>(less: (V, V) -> bool, u: seq<V>, v: seq<V>, w: seq<V>)
    requires StableOf(less, u, v) && StableOf(less, v, w)
    ensures StableOf(less, u, w)
  {
    forall a ensures Class(less, u, a) == Class(less, w, a) {
      assert Class(less, u, a) == Class(less, v, a) == Class(less, w, a);
    }
  }

  lemma {:induction false} ValuesOfSlice<V>(s: seq<Elem<V>>, i: int, j: int)
    requires 0 <= i <= j <= |s|
    ensures Values(s[i..j]) == Values(s)[i..j]
  {
  }

  lemma {:induction false} SameSlice<V>(s: seq<Elem<V>>, r: seq<Elem<V>>, lo: int, hi: int, i: int, j: int)
    requires 0 <= lo <= i <= j <= hi <= |s| && hi <= |r| && s[lo..hi] == r[lo..hi]
    ensures s[i..j] == r[i..j]
  {
    forall x | i <= x < j ensures s[x] == r[x] {
      assert s[x] == s[lo..hi][x - lo] && r[x] == r[lo..hi][x - lo];
    }
  }

  lemma {:induction false} OutsideIsKept<V>(s: seq<Elem<V>>, r: seq<Elem<V>>, m: seq<Elem<V>>, p: int, q: int)
    requires |r| == |s| && 0 < p <= q < |s| && r[p..] == s[p..] && Rearranged(r, m, p, q)
    ensures m[0] == r[0] && m[q..] == s[q..]
    ensures Values(m)[1..p] == Values(r)[1..p] && Values(m)[q..|r| - 1] == Values(r)[q..|r| - 1]
  {
    var n := |r|;
    assert m[..p] == m[0..p] && r[..p] == r[0..p] && m[q..] == m[q..n] && r[q..] == r[q..n];
    SameSlice(m, r, 0, p, 0, 1);
    assert m[0] == m[0..1][0] && r[0] == r[0..1][0];
    SameSlice(m, r, 0, p, 1, p);
    SameSlice(m, r, q, n, q, n - 1);
    assert r[p..] == r[p..n] && s[p..] == s[p..n];
    SameSlice(r, s, p, n, q, n);
    ValuesOfSlice(m, 1, p);
    ValuesOfSlice(r, 1, p);
    ValuesOfSlice(m, q, n - 1);
    ValuesOfSlice(r, q, n - 1);
  }

  lemma {:induction false} MergeKeepsPassing<V(!new)>(less: (V, V) -> bool, s: seq<Elem<V>>, r: seq<Elem<V>>, m: seq<Elem<V>>,
                                                      p: int, k: int, q: int, cnt: int)
    requires Passing(less, s, r, p, cnt) && p < k < q < |s| && PartSorted(less, r, m, p, q)
    requires Run(less, Values(r), p, k) && less(r[k].value, r[k - 1].value)
    requires Run(less, Values(r), k, q) && (q < |s| - 1 ==> less(r[q].value, r[q - 1].value))
    ensures Passing(less, s, m, q, cnt + 1)
  {
    OutsideIsKept(s, r, m, p, q);
    StableTwice(less, Values(s), Values(r), Values(m));
    MergeSavesARun(less, Values(r), Values(m), p, k, q, |s| - 1);
  }

  /** The pass has met the end of the list inside its next run. */
  lemma {:induction false} LastRunEnds<V(!new)>(less: (V, V) -> bool, s: seq<Elem<V>>, r: seq<Elem<V>>, p: int, cnt: int)
    requires Passing(less, s, r, p, cnt) && p < |s| - 1 && Run(less, Values(r), p, |s| - 1)
    ensures Runs(less, Values(r)[1..|s| - 1]) <= cnt + 1 && 2 * (cnt + 1) == Runs(less, Values(s)[1..|s| - 1]) + 1
  {
    var v, n := Values(r), |s| - 1;
    FirstRunEnds(less, v, p, n, n);
    RunAddsOne(less, v, p, n);
  }

  // ----- list_sort -----

  lemma {:induction false} PairIsSorted<V(!new)>(less: (V, V) -> bool, s: seq<Elem<V>>, p: int, k: int, q: int)
    requires StrictWeak(less) && 0 < p < k < q < |s| && Run(less, Values(s), p, k) && Run(less, Values(s), k, q)
    ensures PartSorted(less, s, MergeFrom(less, s, p, k, q), p, q)
  {
    RunIsSorted(less, Values(s), p, k);
    RunIsSorted(less, Values(s), k, q);
    ValuesOfMerge(less, s, p, k, q);
    MergeRearranges(less, s, s, p, p, k, q);
    MergeSorts(less, Values(s), p, p, k, q);
    MergeIsStable(less, Values(s), p, p, k, q);
  }

  lemma {:induction false} StaysWithin<V>(s: seq<Elem<V>>, r: seq<Elem<V>>, all: set<Elem<V>>)
    requires multiset(r) == multiset(s) && Within(s, all)
    ensures Within(r, all)
  {
    forall i | 0 <= i < |r| ensures r[i] in all {
      assert r[i] in multiset(r);
      assert r[i] in s;
    }
  }

  /** The pass is over: it has put out `cnt` runs, half as many as there were, rounded up. */
  ghost predicate Passed<V(!new)>(less: (V, V) -> bool, s: seq<Elem<V>>, r: seq<Elem<V>>, cnt: int) {
    && |r| == |s| >= 2 && multiset(r) == multiset(s) && r[0] == s[0] && r[|s| - 1] == s[|s| - 1]
    && StableOf(less, Values(s), Values(r))
    && RunsBetween(less, r) <= cnt
    && cnt == (RunsBetween(less, s) + 1) / 2
  }

  /** The runs of a list between its sentinels. */
  ghost function RunsBetween<V>(less: (V, V) -> bool, s: seq<Elem<V>>): nat
    requires |s| >= 2
  {
    Runs(less, Values(s)[1..|s| - 1])
  }

  lemma {:induction false} PassEnds<V(!new)>(less: (V, V) -> bool, s: seq<Elem<V>>, r: seq<Elem<V>>, p: int, cnt: int)
    requires Passing(less, s, r, p, cnt)
    ensures p == |s| - 1 ==> Passed(less, s, r, cnt)
    ensures p < |s| - 1 && Run(less, Values(r), p, |s| - 1) ==> Passed(less, s, r, cnt + 1)
    ensures r[|s| - 1] == s[|s| - 1]
  {
    assert r[|s| - 1] == r[p..][|s| - 1 - p] == s[p..][|s| - 1 - p];
    if p < |s| - 1 && Run(less, Values(r), p, |s| - 1) {
      LastRunEnds(less, s, r, p, cnt);
    }
  }

  /** One turn of the pass: merge the two runs at `a0`, or find that there is only one. */
  method MergeNextRuns<V(!new)>(a0: Elem<V>, end: Elem<V>, less: (V, V) -> bool,
                                ghost s: seq<Elem<V>>, ghost r: seq<Elem<V>>, ghost p: int, ghost cnt: int,
                                ghost all: set<Elem<V>>)
    returns (b1: Elem<V>, ghost m: seq<Elem<V>>, ghost q: int)
    requires StrictWeak(less) && Passing(less, s, r, p, cnt) && p < |s| - 1
    requires Chain(r) && a0 == r[p] && end == r[|s| - 1] && Within(r, all)
    modifies all
    ensures Chain(m) && p < q < |s| == |m| && b1 == m[q]
    ensures Passing(less, s, m, q, cnt + 1) || (b1 == end && Passed(less, s, m, cnt + 1))
  {
    var a1b0, k := FindEndOfRun(a0, end, less, r, p, |s| - 1);
    if a1b0 == end {
      PassEnds(less, s, r, p, cnt);
      return end, r, k;
    }
    b1, q := FindEndOfRun(a1b0, end, less, r, k, |s| - 1);
    m := InplaceMerge(a0, a1b0, b1, less, r, p, k, q, all);
    PairIsSorted(less, r, p, k, q);
    MergeKeepsPassing(less, s, r, m, p, k, q, cnt);
    assert m[q] == m[q..][0] == r[q..][0] == r[q];
  }

  /** One pass merges the runs of the list in pairs. */
  method Pass<V(!new)>(first: Elem<V>, end: Elem<V>, less: (V, V) -> bool, ghost s: seq<Elem<V>>, ghost all: set<Elem<V>>)
    returns (cnt: nat, ghost r: seq<Elem<V>>)
    requires StrictWeak(less) && Chain(s) && first == s[1] && end == s[|s| - 1] && Within(s, all)
    modifies all
    ensures Chain(r) && Passed(less, s, r, cnt)
  {
    var a0 := first;
    cnt, r := 0, s;
    ghost var p := 1;
    while a0 != end
      invariant Chain(r) && 0 < p < |s| == |r| && a0 == r[p] && multiset(r) == multiset(s) && end == r[|s| - 1]
      invariant Passing(less, s, r, p, cnt) || (a0 == end && Passed(less, s, r, cnt))
      decreases |s| - p
    {
      StaysWithin(s, r, all);
      PassEnds(less, s, r, p, cnt);
      a0, r, p := MergeNextRuns(a0, end, less, s, r, p, cnt, all);
      cnt := cnt + 1;
      if Passing(less, s, r, p, cnt) {
        PassEnds(less, s, r, p, cnt);
      }
    }
    if Passing(less, s, r, p, cnt) {
      PassEnds(less, s, r, p, cnt);
    }
  }

  /** Sentinels stay, so a stable rearrangement of the whole chain is one of its contents. */
  lemma {:induction false} StableInside<V(!new)>(less: (V, V) -> bool, v: seq<V>, w: seq<V>)
    requires |v| == |w| >= 2 && StableOf(less, v, w) && v[0] == w[0] && v[|v| - 1] == w[|v| - 1]
    ensures StableOf(less, v[1..|v| - 1], w[1..|v| - 1])
  {
    var n := |v| - 1;
    var v', w' := v[1..n], w[1..n];
    forall a ensures Class(less, v', a) == Class(less, w', a) {
      assert v == [v[0]] + v' + [v[n]] && w == [v[0]] + w' + [v[n]];
      ClassOfConcat(less, [v[0]] + v', [v[n]], a);
      ClassOfConcat(less, [v[0]] + w', [v[n]], a);
      ClassOfConcat(less, [v[0]], v', a);
      ClassOfConcat(less, [v[0]], w', a);
      Cancel(Class(less, [v[0]], a), Class(less, v', a), Class(less, w', a), Class(less, [v[n]], a));
    }
  }

  lemma {:induction false} Cancel<T>(p: seq<T>, x: seq<T>, y: seq<T>, q: seq<T>)
    requires p + x + q == p + y + q
    ensures x == y
  {
    assert |x| == |y|;
    assert x == (p + x + q)[|p|..|p| + |x|];
    assert y == (p + y + q)[|p|..|p| + |x|];
  }

  /** The list `s` is on its way to being sorted, and is now `r`. */
  ghost predicate Sorting<V(!new)>(less: (V, V) -> bool, s: seq<Elem<V>>, r: seq<Elem<V>>) {
    && |r| == |s| >= 2 && multiset(r) == multiset(s) && r[0] == s[0] && r[|s| - 1] == s[|s| - 1]
    && StableOf(less, Values(s), Values(r))
  }

  lemma {:induction false} PassKeepsSorting<V(!new)>(less: (V, V) -> bool, s: seq<Elem<V>>, r: seq<Elem<V>>, m: seq<Elem<V>>, cnt: int)
    requires Sorting(less, s, r) && Passed(less, r, m, cnt)
    ensures Sorting(less, s, m) && RunsBetween(less, m) <= cnt && (cnt > 1 ==> RunsBetween(less, m) < RunsBetween(less, r))
  {
    StableTwice(less, Values(s), Values(r), Values(m));
  }

  lemma {:induction false} OneRunIsSorted<V(!new)>(less: (V, V) -> bool, v: seq<V>)
    requires StrictWeak(less) && Runs(less, v) <= 1
    ensures SortedBy(less, v)
  {
    SortedIsOneRun(less, v);
    RunIsSorted(less, v, 0, |v|);
  }

  lemma {:induction false} SortedAtLast<V(!new)>(less: (V, V) -> bool, s: seq<Elem<V>>, r: seq<Elem<V>>)
    requires StrictWeak(less) && Sorting(less, s, r) && RunsBetween(less, r) <= 1
    ensures Values(r[1..|s| - 1]) == Sort(less, Values(s[1..|s| - 1]))
  {
    var n := |s| - 1;
    var v, w := Values(s)[1..n], Values(r)[1..n];
    StableInside(less, Values(s), Values(r));
    OneRunIsSorted(less, w);
    SortCharacterised(less, v, w);
    ValuesOfSlice(s, 1, n);
    ValuesOfSlice(r, 1, n);
  }

  /** list_sort relinks the elements of the list into the one stable sorted order.  It stops
      because each pass over more than one run leaves fewer. */
  method SortList<V(!new)>(list: LinkedList<V>, less: (V, V) -> bool)
    requires list.Valid() && StrictWeak(less)
    modifies list, list.chain
    ensures list.Valid() && multiset(list.chain) == multiset(old(list.chain))
    ensures list.Contents() == Sort(less, old(list.Contents()))
  {
    ghost var s := list.chain;
    ghost var r := SortElems(list.head, list.tail, less, s, set x | x in s);
    list.chain := r;
  }

  method SortElems<V(!new)>(head: Elem<V>, tail: Elem<V>, less: (V, V) -> bool, ghost s: seq<Elem<V>>, ghost all: set<Elem<V>>)
    returns (ghost r: seq<Elem<V>>)
    requires Chain(s) && StrictWeak(less) && head == s[0] && tail == s[|s| - 1] && Within(s, all)
    modifies all
    ensures Chain(r) && |r| == |s| && r[0] == s[0] && r[|s| - 1] == s[|s| - 1] && multiset(r) == multiset(s)
    ensures Values(r[1..|s| - 1]) == Sort(less, Values(s[1..|s| - 1]))
  {
    r := SortChain(head, tail, less, s, all);
    SortedAtLast(less, s, r);
  }

  /** The passes of list_sort. */
  method SortChain<V(!new)>(head: Elem<V>, tail: Elem<V>, less: (V, V) -> bool, ghost s: seq<Elem<V>>, ghost all: set<Elem<V>>)
    returns (ghost r: seq<Elem<V>>)
    requires Chain(s) && StrictWeak(less) && head == s[0] && tail == s[|s| - 1] && Within(s, all)
    modifies all
    ensures Chain(r) && Sorting(less, s, r) && RunsBetween(less, r) <= 1
  {
    r := s;
    var more := true;
    while more
      invariant Chain(r) && Sorting(less, s, r) && (!more ==> RunsBetween(less, r) <= 1)
      decreases more, RunsBetween(less, r)
    {
      StaysWithin(s, r, all);
      assert Link(r, 0);
      var cnt, m := Pass(head.next, tail, less, r, all);
      PassKeepsSorting(less, s, r, m, cnt);
      r, more := m, cnt > 1;
    }
  }
}
