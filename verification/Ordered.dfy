/** What ordering a list means: insertion after equals, and the one stable sorted rearrangement
    of a sequence.  The list module proves its pointer code against these functions, and the
    scheduler uses them for its queues. */
module Ordered {

  /** `less` is a strict weak order: asymmetric, and whatever is not comparable is alike. */
  ghost predicate StrictWeak<T(!new)>(less: (T, T) -> bool) {
    && (forall a, b :: less(a, b) ==> !less(b, a))
    && (forall a, b, c :: less(a, c) ==> less(a, b) || less(b, c))
  }

  predicate Alike<T>(less: (T, T) -> bool, a: T, b: T) {
    !less(a, b) && !less(b, a)
  }

  ghost predicate SortedBy<T>(less: (T, T) -> bool, s: seq<T>) {
    forall i, j :: 0 <= i < j < |s| ==> !less(s[j], s[i])
  }

  /** Puts `x` before the first element that it is less than. */
  function Insert<T>(less: (T, T) -> bool, s: seq<T>, x: T): seq<T> {
    if s == [] then [x]
    else if less(x, s[0]) then [x] + s
    else [s[0]] + Insert(less, s[1..], x)
  }

  function Sort<T>(less: (T, T) -> bool, s: seq<T>): seq<T> {
    if s == [] then []
    else Insert(less, Sort(less, s[..|s| - 1]), s[|s| - 1])
  }

  /** The elements of `s` that are alike `a`, in order. */
  ghost function Class<T>(less: (T, T) -> bool, s: seq<T>, a: T): seq<T> {
    if s == [] then []
    else Class(less, s[..|s| - 1], a) + if Alike(less, a, s[|s| - 1]) then [s[|s| - 1]] else []
  }

  /** `r` keeps every class of alike elements of `s` in order, and has no others. */
  ghost predicate StableOf<T(!new)>(less: (T, T) -> bool, s: seq<T>, r: seq<T>) {
    forall a :: Class(less, s, a) == Class(less, r, a)
  }

  // ----- Insertion -----

  /** Insertion splits the sequence where its order says, after everything alike. */
  lemma {:induction false} InsertSplits<T(!new)>(less: (T, T) -> bool, s: seq<T>, x: T) returns (k: nat)
    requires StrictWeak(less) && SortedBy(less, s)
    ensures k <= |s| && Insert(less, s, x) == s[..k] + [x] + s[k..]
    ensures forall i :: 0 <= i < k ==> !less(x, s[i])
    ensures forall i :: k <= i < |s| ==> less(x, s[i])
  {
    if s == [] {
      k := 0;
    } else if less(x, s[0]) {
      k := 0;
      forall i | 0 <= i < |s| ensures less(x, s[i]) {
        if i > 0 {
          assert !less(s[i], s[0]);
        }
      }
    } else {
      var j := InsertSplits(less, s[1..], x);
      k := j + 1;
      assert s[..k] == [s[0]] + s[1..][..j];
      assert s[k..] == s[1..][j..];
      forall i | k <= i < |s| ensures less(x, s[i]) {
        assert s[i] == s[1..][i - 1];
      }
    }
  }

  /** In any sequence, sorted or not, insertion goes before the first element that `x` is less than. */
  lemma {:induction false} InsertPlace<T>(less: (T, T) -> bool, s: seq<T>, x: T) returns (k: nat)
    ensures k <= |s| && Insert(less, s, x) == s[..k] + [x] + s[k..]
    ensures (forall i :: 0 <= i < k ==> !less(x, s[i])) && (k < |s| ==> less(x, s[k]))
  {
    if s == [] || less(x, s[0]) {
      k := 0;
    } else {
      var j := InsertPlace(less, s[1..], x);
      k := j + 1;
      assert s[..k] == [s[0]] + s[1..][..j];
      assert s[k..] == s[1..][j..];
    }
  }

  lemma {:induction false} InsertSorts<T(!new)>(less: (T, T) -> bool, s: seq<T>, x: T)
    requires StrictWeak(less) && SortedBy(less, s)
    ensures SortedBy(less, Insert(less, s, x))
  {
    var k := InsertSplits(less, s, x);
  }

  lemma {:induction false} InsertAdds<T>(less: (T, T) -> bool, s: seq<T>, x: T)
    ensures multiset(Insert(less, s, x)) == multiset(s) + multiset{x}
  {
    if s != [] && !less(x, s[0]) {
      InsertAdds(less, s[1..], x);
      assert s == [s[0]] + s[1..];
    }
  }

  // ----- Sorting -----

  lemma {:induction false} SortSorts<T(!new)>(less: (T, T) -> bool, s: seq<T>)
    requires StrictWeak(less)
    ensures SortedBy(less, Sort(less, s))
  {
    if s != [] {
      SortSorts(less, s[..|s| - 1]);
      InsertSorts(less, Sort(less, s[..|s| - 1]), s[|s| - 1]);
    }
  }

  lemma {:induction false} SortPermutes<T>(less: (T, T) -> bool, s: seq<T>)
    ensures multiset(Sort(less, s)) == multiset(s)
  {
    if s != [] {
      SortPermutes(less, s[..|s| - 1]);
      InsertAdds(less, Sort(less, s[..|s| - 1]), s[|s| - 1]);
      assert s == s[..|s| - 1] + [s[|s| - 1]];
    }
  }

  lemma {:induction false} ClassOfConcat<T>(less: (T, T) -> bool, s: seq<T>, t: seq<T>, a: T)
    ensures Class(less, s + t, a) == Class(less, s, a) + Class(less, t, a)
  {
    if t == [] {
      assert s + t == s;
    } else {
      ClassOfConcat(less, s, t[..|t| - 1], a);
      assert (s + t)[..|s + t| - 1] == s + t[..|t| - 1];
    }
  }

  lemma {:induction false} ClassAvoids<T>(less: (T, T) -> bool, s: seq<T>, a: T)
    requires forall i :: 0 <= i < |s| ==> !Alike(less, a, s[i])
    ensures Class(less, s, a) == []
  {
    if s != [] {
      ClassAvoids(less, s[..|s| - 1], a);
    }
  }

  lemma {:induction false} InsertIsStable<T(!new)>(less: (T, T) -> bool, s: seq<T>, x: T, a: T)
    requires StrictWeak(less) && SortedBy(less, s)
    ensures Class(less, Insert(less, s, x), a) == Class(less, s + [x], a)
  {
    var k := InsertSplits(less, s, x);
    assert s == s[..k] + s[k..];
    ClassOfConcat(less, s[..k], s[k..], a);
    ClassOfConcat(less, s[..k] + [x], s[k..], a);
    ClassOfConcat(less, s[..k], [x], a);
    ClassOfConcat(less, s, [x], a);
    if Alike(less, a, x) {
      ClassAvoids(less, s[k..], a);
    }
  }

  lemma {:induction false} SortIsStable<T(!new)>(less: (T, T) -> bool, s: seq<T>)
    requires StrictWeak(less)
    ensures StableOf(less, s, Sort(less, s))
  {
    if s != [] {
      var front, last := s[..|s| - 1], s[|s| - 1];
      SortIsStable(less, front);
      SortSorts(less, front);
      forall a ensures Class(less, s, a) == Class(less, Sort(less, s), a) {
        InsertIsStable(less, Sort(less, front), last, a);
        ClassOfConcat(less, front, [last], a);
        ClassOfConcat(less, Sort(less, front), [last], a);
        assert s == front + [last];
      }
    }
  }

  lemma {:induction false} ClassMembers<T>(less: (T, T) -> bool, s: seq<T>, a: T, x: T)
    ensures x in Class(less, s, a) <==> x in s && Alike(less, a, x)
  {
    if s != [] {
      ClassMembers(less, s[..|s| - 1], a, x);
      assert s == s[..|s| - 1] + [s[|s| - 1]];
    }
  }

  /** Two sorted sequences with the same classes end alike. */
  lemma {:induction false} SameLast<T(!new)>(less: (T, T) -> bool, s: seq<T>, r: seq<T>)
    requires StrictWeak(less) && SortedBy(less, s) && SortedBy(less, r) && StableOf(less, s, r) && s != []
    ensures r != [] && s[|s| - 1] == r[|r| - 1]
  {
    var a := s[|s| - 1];
    assert Alike(less, a, a);
    ClassMembers(less, s, a, a);
    ClassMembers(less, r, a, a);
    var b := r[|r| - 1];
    ClassMembers(less, r, b, b);
    ClassMembers(less, s, b, b);
    assert Class(less, s, b) == Class(less, r, b);
    assert Alike(less, a, b);
    var cs, cr := Class(less, s, a), Class(less, r, a);
    assert cs == cr;
    assert cs[|cs| - 1] == a && cr[|cr| - 1] == b;
  }

  /** A sequence has only one stable sorted rearrangement. */
  lemma {:induction false} StableSortIsUnique<T(!new)>(less: (T, T) -> bool, s: seq<T>, r: seq<T>)
    requires StrictWeak(less) && SortedBy(less, s) && SortedBy(less, r) && StableOf(less, s, r)
    ensures s == r
  {
    if s == [] {
      if r != [] {
        SameLast(less, r, s);
      }
    } else {
      SameLast(less, s, r);
      var s', r' := s[..|s| - 1], r[..|r| - 1];
      forall a ensures Class(less, s', a) == Class(less, r', a) {
        var cs, cr := Class(less, s', a), Class(less, r', a);
        assert Class(less, s, a) == Class(less, r, a);
        assert |cs| == |cr|;
        assert cs == Class(less, s, a)[..|cs|] && cr == Class(less, r, a)[..|cs|];
      }
      StableSortIsUnique(less, s', r');
    }
  }

  /** Sorted and stable characterises Sort. */
  lemma {:induction false} SortCharacterised<T(!new)>(less: (T, T) -> bool, s: seq<T>, r: seq<T>)
    requires StrictWeak(less)
    ensures r == Sort(less, s) <==> SortedBy(less, r) && StableOf(less, s, r)
  {
    SortSorts(less, s);
    SortIsStable(less, s);
    if SortedBy(less, r) && StableOf(less, s, r) {
      StableSortIsUnique(less, r, Sort(less, s));
    }
  }
}
