/** The hash table (lib/kernel/hash.c) against a set with at most one element of each kind. */
module Hash {
  import opened Common
  import opened Arithmetic
  import opened Seqs
  import opened Ordered

  // ----- Bits -----

  /** Bitwise AND. */
  function And(x: nat, y: nat): nat {
    if x == 0 || y == 0 then 0 else 2 * And(x / 2, y / 2) + if x % 2 == 1 && y % 2 == 1 then 1 else 0
  }

  lemma {:induction false} AndSelf(x: nat)
    ensures And(x, x) == x
  {
    if x > 0 {
      AndSelf(x / 2);
    }
  }

  lemma {:induction false} AndOddMask(x: nat, p: int)
    requires p > 0
    ensures And(x, 2 * p - 1) == 2 * And(x / 2, p - 1) + x % 2
  {
    var y := 2 * p - 1;
    assert y / 2 == p - 1 && y % 2 == 1;
  }

  /** Masking with a power of two less one is the remainder. */
  lemma {:induction false} AndMask(x: nat, k: nat)
    ensures And(x, Pow2(k) - 1) == x % Pow2(k)
  {
    if k == 0 {
      assert Pow2(k) == 1;
    } else {
      var p := Pow2(k - 1);
      AndMask(x / 2, k - 1);
      AndOddMask(x, p);
      HalfRemainder(x, p);
      assert Pow2(k) == 2 * p;
    }
  }

  lemma {:induction false} HalfRemainder(x: nat, p: int)
    requires p > 0
    ensures x % (2 * p) == 2 * (x / 2 % p) + x % 2
  {
    var q, r := x / 2 / p, x / 2 % p;
    assert x / 2 == q * p + r;
    assert x == q * (2 * p) + (2 * r + x % 2);
    DivUnique(x, 2 * p, q);
  }

  function TurnOffLeast1Bit(x: nat): nat
    requires x > 0
  {
    And(x, x - 1)
  }

  predicate IsPowerOf2(x: nat) {
    x != 0 && TurnOffLeast1Bit(x) == 0
  }

  /** Turning off the lowest bit keeps the highest one, and reaches zero only from a power of two. */
  lemma {:induction false} LeastBit(x: nat, k: nat)
    requires Pow2(k) <= x < 2 * Pow2(k)
    ensures x == Pow2(k) ==> TurnOffLeast1Bit(x) == 0
    ensures x > Pow2(k) ==> Pow2(k) <= TurnOffLeast1Bit(x) < x
  {
    if k > 0 {
      var y := x / 2;
      LeastBit(y, k - 1);
      if x % 2 == 0 {
        assert (x - 1) / 2 == y - 1 && (x - 1) % 2 == 1;
        assert And(x, x - 1) == 2 * And(y, y - 1);
      } else {
        assert (x - 1) / 2 == y && (x - 1) % 2 == 0;
        AndSelf(y);
        assert And(x, x - 1) == 2 * y;
      }
    }
  }

  lemma {:induction false} HasHighBit(x: nat) returns (k: nat)
    requires x > 0
    ensures Pow2(k) <= x < 2 * Pow2(k)
  {
    if x == 1 {
      k := 0;
    } else {
      k := HasHighBit(x / 2);
      k := k + 1;
    }
  }

  /** Two elements or more, and fewer than four, for each of `n` buckets; or the least number of buckets. */
  predicate IsIdeal(elemCnt: nat, n: nat) {
    elemCnt < 4 * n && (n == 4 || 2 * n <= elemCnt)
  }

  /** rehash's choice of a bucket count: the power of two just below half the elements, or four. */
  method BucketsFor(elemCnt: nat) returns (n: nat, ghost k: nat)
    ensures n == Pow2(k) && k >= 2 && IsIdeal(elemCnt, n)
  {
    n := elemCnt / 2;
    if n < 4 {
      n := 4;
    }
    ghost var n0 := n;
    k := HasHighBit(n);
    assert k >= 2 by {
      assert k < 2 ==> Pow2(k) <= 2;
    }
    while !IsPowerOf2(n)
      invariant Pow2(k) <= n <= n0
      decreases n
    {
      LeastBit(n, k);
      n := TurnOffLeast1Bit(n);
    }
    LeastBit(n, k);
    FourIsLeast(k);
  }

  lemma {:induction false} FourIsLeast(k: nat)
    requires k >= 2
    ensures Pow2(k) >= 4
  {
    if k == 2 {
      assert Pow2(1) == 2;
    } else {
      FourIsLeast(k - 1);
    }
  }

  // ----- Buckets -----

  /** find_bucket: the bucket of a hash value among `n`. */
  function Index(hash: nat, n: nat): nat
    requires n > 0
  {
    And(hash, n - 1)
  }

  lemma {:induction false} IndexIsBucket(hash: nat, k: nat)
    ensures Index(hash, Pow2(k)) == hash % Pow2(k) < Pow2(k)
  {
    AndMask(hash, k);
  }

  /** The buckets hold exactly `contents`, each element once and where its hash says. */
  ghost predicate Holds<E(!new)>(buckets: seq<seq<E>>, hash: E -> nat, contents: set<E>) {
    && |buckets| > 0
    && (forall b, e :: 0 <= b < |buckets| && e in buckets[b] ==> e in contents && Index(hash(e), |buckets|) == b)
    && (forall e :: e in contents ==> Index(hash(e), |buckets|) < |buckets| && e in buckets[Index(hash(e), |buckets|)])
    && (forall b :: 0 <= b < |buckets| ==> NoDup(buckets[b]))
  }

  lemma {:induction false} PushHolds<E(!new)>(buckets: seq<seq<E>>, hash: E -> nat, contents: set<E>, e: E)
    requires Holds(buckets, hash, contents) && e !in contents && Index(hash(e), |buckets|) < |buckets|
    ensures var i := Index(hash(e), |buckets|); Holds(buckets[i := [e] + buckets[i]], hash, contents + {e})
  {
    var i := Index(hash(e), |buckets|);
    assert e !in buckets[i];
    PushElems(e, buckets[i]);
  }

  lemma {:induction false} DropHolds<E(!new)>(buckets: seq<seq<E>>, hash: E -> nat, contents: set<E>, e: E)
    requires Holds(buckets, hash, contents) && e in contents
    ensures var i := Index(hash(e), |buckets|); Holds(buckets[i := Without(buckets[i], e)], hash, contents - {e})
  {
    var i := Index(hash(e), |buckets|);
    WithoutIsLess(buckets[i], e);
    forall x ensures x in Without(buckets[i], e) <==> x in buckets[i] && x != e {
      assert x in Elems(Without(buckets[i], e)) <==> x in Elems(buckets[i]) - {e};
    }
  }

  lemma {:induction false} EmptyHolds<E(!new)>(hash: E -> nat, n: nat)
    requires n > 0
    ensures Holds(seq(n, _ => []), hash, {})
  {
  }

  // ----- The table -----

  /** At most one element of each kind. */
  ghost predicate OneOfEach<E>(less: (E, E) -> bool, contents: set<E>) {
    forall a, b :: a in contents && b in contents && a != b ==> !Alike(less, a, b)
  }

  lemma {:induction false} OneMore<E>(less: (E, E) -> bool, contents: set<E>, e: E)
    requires OneOfEach(less, contents) && forall x :: x in contents ==> !Alike(less, x, e) && !Alike(less, e, x)
    ensures OneOfEach(less, contents + {e})
  {
  }

  /** What the table asks of its functions: an order, and equal hashes for elements that are alike. */
  ghost predicate Lawful<E(!new)>(hash: E -> nat, less: (E, E) -> bool) {
    StrictWeak(less) && forall a, b :: Alike(less, a, b) ==> hash(a) == hash(b)
  }

  class Table<E(!new, ==)> {
    const hash: E -> nat
    const less: (E, E) -> bool
    var buckets: seq<seq<E>>
    var elemCnt: nat
    ghost var contents: set<E>
    ghost var log: nat

    ghost predicate Valid()
      reads this
    {
      && log >= 2 && |buckets| == Pow2(log)
      && Holds(buckets, hash, contents) && OneOfEach(less, contents) && elemCnt == |contents|
    }

    constructor (hash: E -> nat, less: (E, E) -> bool)
      ensures Valid() && contents == {} && this.hash == hash && this.less == less
    {
      this.hash, this.less := hash, less;
      buckets, elemCnt := seq(4, _ => []), 0;
      contents, log := {}, 2;
      new;
      assert Pow2(1) == 2;
      EmptyHolds(hash, 4);
    }

    /** find_elem in the bucket of `e`. */
    method FindElem(e: E) returns (r: Option<E>)
      requires Valid() && Lawful(hash, less)
      ensures r.Some? ==> r.value in contents && Alike(less, r.value, e)
      ensures r.None? ==> forall x :: x in contents ==> !Alike(less, x, e)
    {
      IndexIsBucket(hash(e), log);
      var bucket := buckets[Index(hash(e), |buckets|)];
      var i := 0;
      while i < |bucket|
        invariant 0 <= i <= |bucket| && forall j :: 0 <= j < i ==> !Alike(less, bucket[j], e)
      {
        if Alike(less, bucket[i], e) {
          assert bucket[i] in bucket;
          return Some(bucket[i]);
        }
        i := i + 1;
      }
      forall x | x in contents ensures !Alike(less, x, e) {
        assert Alike(less, x, e) ==> x in bucket;
      }
      return None;
    }

    method InsertElem(e: E)
      requires Valid() && forall x :: x in contents ==> !Alike(less, x, e) && !Alike(less, e, x)
      requires e !in contents
      modifies this
      ensures Valid() && contents == old(contents) + {e} && |buckets| == |old(buckets)|
    {
      IndexIsBucket(hash(e), log);
      PushHolds(buckets, hash, contents, e);
      OneMore(less, contents, e);
      var i := Index(hash(e), |buckets|);
      elemCnt := elemCnt + 1;
      buckets := buckets[i := [e] + buckets[i]];
      contents := contents + {e};
    }

    method RemoveElem(e: E)
      requires Valid() && e in contents
      modifies this
      ensures Valid() && contents == old(contents) - {e} && |buckets| == |old(buckets)|
    {
      DropHolds(buckets, hash, contents, e);
      var i := Index(hash(e), |buckets|);
      elemCnt := elemCnt - 1;
      buckets := buckets[i := Without(buckets[i], e)];
      contents := contents - {e};
    }

    /** Moves the elements of one old bucket into the new ones. */
    method MoveBucket(bucket: seq<E>, new_: seq<seq<E>>, ghost k: nat, ghost moved: set<E>) returns (r: seq<seq<E>>)
      requires |new_| == Pow2(k) && Holds(new_, hash, moved) && NoDup(bucket) && Elems(bucket) !! moved
      ensures |r| == |new_| && Holds(r, hash, moved + Elems(bucket))
    {
      r := new_;
      var i := 0;
      while i < |bucket|
        invariant 0 <= i <= |bucket| && |r| == Pow2(k) && Holds(r, hash, moved + Elems(bucket[..i]))
      {
        var e := bucket[i];
        IndexIsBucket(hash(e), k);
        assert e in Elems(bucket) && e !in Elems(bucket[..i]);
        PushHolds(r, hash, moved + Elems(bucket[..i]), e);
        assert moved + Elems(bucket[..i]) + {e} == moved + Elems(bucket[..i + 1]);
        var b := Index(hash(e), |r|);
        r := r[b := [e] + r[b]];
        i := i + 1;
      }
      assert bucket[..i] == bucket;
    }

    /** The elements whose old bucket comes before `i`. */
    ghost function Before(i: nat): set<E>
      requires |buckets| > 0
      reads this
    {
      set e | e in contents && Index(hash(e), |buckets|) < i
    }

    method MoveAll(n: nat, ghost k: nat) returns (r: seq<seq<E>>)
      requires Valid() && n == Pow2(k)
      ensures |r| == n && Holds(r, hash, contents)
    {
      r := seq(n, _ => []);
      EmptyHolds(hash, n);
      var i := 0;
      assert Before(0) == {};
      while i < |buckets|
        invariant 0 <= i <= |buckets| && |r| == n && Holds(r, hash, Before(i))
      {
        assert Before(i + 1) == Before(i) + Elems(buckets[i]);
        r := MoveBucket(buckets[i], r, k, Before(i));
        i := i + 1;
      }
      assert Before(i) == contents;
    }

    /** rehash.  `memory` says whether new buckets can be allocated; without, nothing changes. */
    method Rehash(memory: bool)
      requires Valid()
      modifies this`buckets, this`log
      ensures Valid()
      ensures !memory ==> buckets == old(buckets)
      ensures memory ==> IsIdeal(elemCnt, |buckets|)
    {
      var n, k := BucketsFor(elemCnt);
      if n == |buckets| || !memory {
        return;
      }
      buckets := MoveAll(n, k);
      log := k;
    }

    method Insert(e: E, memory: bool) returns (old_: Option<E>)
      requires Valid() && Lawful(hash, less)
      modifies this
      ensures Valid() && (memory ==> IsIdeal(elemCnt, |buckets|))
      ensures old_.None? ==> contents == old(contents) + {e} && forall x :: x in old(contents) ==> !Alike(less, x, e)
      ensures old_.Some? ==> contents == old(contents) && old_.value in contents && Alike(less, old_.value, e)
    {
      old_ := FindElem(e);
      if old_.None? {
        assert e in contents ==> Alike(less, e, e);
        InsertElem(e);
      }
      Rehash(memory);
    }

    method Replace(e: E, memory: bool) returns (old_: Option<E>)
      requires Valid() && Lawful(hash, less)
      modifies this
      ensures Valid() && (memory ==> IsIdeal(elemCnt, |buckets|))
      ensures old_.None? ==> contents == old(contents) + {e} && forall x :: x in old(contents) ==> !Alike(less, x, e)
      ensures old_.Some? ==> contents == old(contents) - {old_.value} + {e} && old_.value in old(contents) && Alike(less, old_.value, e)
    {
      old_ := FindElem(e);
      if old_.Some? {
        OnlyOneAlike(less, contents, old_.value, e);
        RemoveElem(old_.value);
      }
      assert e in contents ==> Alike(less, e, e);
      InsertElem(e);
      Rehash(memory);
    }

    method Find(e: E) returns (r: Option<E>)
      requires Valid() && Lawful(hash, less)
      ensures r.Some? ==> r.value in contents && Alike(less, r.value, e)
      ensures r.None? <==> forall x :: x in contents ==> !Alike(less, x, e)
    {
      r := FindElem(e);
    }

    method Delete(e: E, memory: bool) returns (r: Option<E>)
      requires Valid() && Lawful(hash, less)
      modifies this
      ensures Valid() && (r.Some? && memory ==> IsIdeal(elemCnt, |buckets|))
      ensures r.Some? ==> r.value in old(contents) && Alike(less, r.value, e) && contents == old(contents) - {r.value}
      ensures r.None? ==> contents == old(contents) && forall x :: x in contents ==> !Alike(less, x, e)
    {
      r := FindElem(e);
      if r.Some? {
        RemoveElem(r.value);
        Rehash(memory);
      }
    }
  }

  /** Being alike is transitive, so a table has only one element alike `e`. */
  lemma {:induction false} OnlyOneAlike<E(!new)>(less: (E, E) -> bool, contents: set<E>, x: E, e: E)
    requires StrictWeak(less) && OneOfEach(less, contents) && x in contents && Alike(less, x, e)
    ensures forall y :: y in contents - {x} ==> !Alike(less, y, e) && !Alike(less, e, y)
  {
    forall y | y in contents - {x} ensures !Alike(less, y, e) {
      assert !Alike(less, x, y);
    }
  }
}
