/** The kernel's doubly linked list (lib/kernel/list.c) on its own prev and next pointers.  A ghost
    sequence says which elements a list links together, sentinels included; every operation says
    what it does to that sequence, and the links keep agreeing with it in both directions. */
module List {
  import opened Seqs
  import Ordered

  class Elem<V> {
    const value: V
    var prev: Elem?<V>
    var next: Elem?<V>

    constructor (value: V)
      ensures this.value == value
    {
      this.value := value;
      prev, next := null, null;
    }
  }

  ghost predicate Link<V>(s: seq<Elem<V>>, i: int)
    requires 0 <= i < |s| - 1
    reads s[i], s[i + 1]
  {
    s[i].next == s[i + 1] && s[i + 1].prev == s[i]
  }

  /** `s` is a whole list, from its head to its tail. */
  ghost predicate Chain<V>(s: seq<Elem<V>>)
    reads s
  {
    && |s| >= 2 && NoDup(s)
    && s[0].prev == null && s[|s| - 1].next == null
    && forall i :: 0 <= i < |s| - 1 ==> Link(s, i)
  }

  function Values<V>(s: seq<Elem<V>>): (r: seq<V>)
    ensures |r| == |s| && forall i :: 0 <= i < |s| ==> r[i] == s[i].value
  {
    seq(|s|, i requires 0 <= i < |s| => s[i].value)
  }

  // ----- list_insert, list_remove, list_splice -----

  ghost function Inserted<T>(s: seq<T>, i: int, x: T): seq<T>
    requires 0 <= i <= |s|
  {
    s[..i] + [x] + s[i..]
  }

  method Insert<V>(before: Elem<V>, elem: Elem<V>, ghost s: seq<Elem<V>>, ghost i: int)
    requires Chain(s) && 0 < i < |s| && before == s[i] && elem !in s
    modifies elem, s[i - 1], s[i]
    ensures Chain(Inserted(s, i, elem))
  {
    assert Link(s, i - 1);
    elem.prev := before.prev;
    elem.next := before;
    before.prev.next := elem;
    before.prev := elem;
    ghost var r := Inserted(s, i, elem);
    forall k | 0 <= k < |r| - 1 ensures Link(r, k) {
      if k < i - 1 {
        assert old(Link(s, k));
      } else if k > i {
        assert old(Link(s, k - 1));
      }
    }
  }

  ghost function Removed<T>(s: seq<T>, i: int): seq<T>
    requires 0 <= i < |s|
  {
    s[..i] + s[i + 1..]
  }

  method Remove<V>(elem: Elem<V>, ghost s: seq<Elem<V>>, ghost i: int) returns (r: Elem<V>)
    requires Chain(s) && 0 < i < |s| - 1 && elem == s[i]
    modifies s[i - 1], s[i + 1]
    ensures Chain(Removed(s, i)) && r == s[i + 1]
  {
    assert Link(s, i - 1) && Link(s, i);
    elem.prev.next := elem.next;
    elem.next.prev := elem.prev;
    r := elem.next;
    ghost var t := Removed(s, i);
    forall k | 0 <= k < |t| - 1 ensures Link(t, k) {
      if k < i - 1 {
        assert old(Link(s, k));
      } else if k >= i {
        assert old(Link(s, k + 1));
      }
    }
  }

  /** The elements from `j` to `k` go before element `i`. */
  ghost function Spliced<T>(s: seq<T>, i: int, j: int, k: int): seq<T>
    requires 0 <= i <= j <= k <= |s|
  {
    s[..i] + s[j..k] + s[i..j] + s[k..]
  }

  /** Consecutive elements of a list. */
  ghost predicate Linked<V>(s: seq<Elem<V>>)
    reads s
  {
    NoDup(s) && forall i :: 0 <= i < |s| - 1 ==> Link(s, i)
  }

  /** list_splice's first half takes the elements from `first` to `end` out of their list. */
  method Detach<V>(first: Elem<V>, end: Elem<V>, ghost s: seq<Elem<V>>, ghost j: int, ghost k: int)
    requires Chain(s) && 0 < j < k < |s| && first == s[j] && end == s[k - 1]
    modifies s[j - 1], s[k]
    ensures Chain(s[..j] + s[k..]) && Linked(s[j..k])
  {
    assert Link(s, j - 1) && Link(s, k - 1);
    first.prev.next := end.next;
    end.next.prev := first.prev;
    ghost var r := s[..j] + s[k..];
    forall m | 0 <= m < |r| - 1 ensures Link(r, m) {
      if m < j - 1 {
        assert old(Link(s, m));
      } else if m >= j {
        assert old(Link(s, m + k - j));
      }
    }
    forall m | 0 <= m < k - j - 1 ensures Link(s[j..k], m) {
      assert old(Link(s, m + j));
    }
  }

  /** Its second half links them in before `before`. */
  method Attach<V>(before: Elem<V>, first: Elem<V>, end: Elem<V>,
                   ghost s: seq<Elem<V>>, ghost i: int, ghost part: seq<Elem<V>>)
    requires Chain(s) && 0 < i < |s| && before == s[i]
    requires Linked(part) && part != [] && first == part[0] && end == part[|part| - 1]
    requires forall a, b :: 0 <= a < |part| && 0 <= b < |s| ==> part[a] != s[b]
    modifies first, end, s[i - 1], s[i]
    ensures Chain(s[..i] + part + s[i..])
  {
    assert Link(s, i - 1);
    first.prev := before.prev;
    end.next := before;
    before.prev.next := first;
    before.prev := end;
    ghost var r := s[..i] + part + s[i..];
    forall m | 0 <= m < |r| - 1 ensures Link(r, m) {
      if m < i - 1 {
        assert old(Link(s, m));
      } else if i <= m < i + |part| - 1 {
        assert old(Link(part, m - i));
      } else if m >= i + |part| {
        assert old(Link(s, m - |part|));
      }
    }
  }

  /** The same when element `i` may also come after them. */
  ghost function Moved<T>(s: seq<T>, i: int, j: int, k: int): seq<T>
    requires 0 <= j <= k <= |s| && (0 <= i < j || k <= i <= |s|)
  {
    if i < j then Spliced(s, i, j, k) else s[..j] + s[k..i] + s[j..k] + s[i..]
  }

  /** Where element `i` is once those from `j` to `k` are gone. */
  ghost function PlaceIn(i: int, j: int, k: int): int {
    if i < j then i else i - (k - j)
  }

  lemma {:induction false} MovedIsAttached<T>(s: seq<T>, i: int, j: int, k: int)
    requires 0 < j < k < |s| && (0 < i < j || k <= i < |s|)
    ensures var rest, m := s[..j] + s[k..], PlaceIn(i, j, k);
      0 < m < |rest| && rest[m] == s[i] && rest[..m] + s[j..k] + rest[m..] == Moved(s, i, j, k)
  {
    var rest, m := s[..j] + s[k..], PlaceIn(i, j, k);
    if i < j {
      assert rest[m..] == s[i..j] + s[k..];
    } else {
      assert rest[..m] == s[..j] + s[k..i] && rest[m..] == s[i..];
    }
  }

  lemma {:induction false} MovedNothing<T>(s: seq<T>, i: int, j: int)
    requires 0 <= j <= |s| && 0 <= i <= |s|
    ensures Moved(s, i, j, j) == s
  {
  }

  lemma {:induction false} PartIsApart<T>(s: seq<T>, j: int, k: int)
    requires NoDup(s) && 0 <= j <= k <= |s|
    ensures var rest := s[..j] + s[k..]; forall a, b :: 0 <= a < |s[j..k]| && 0 <= b < |rest| ==> s[j..k][a] != rest[b]
  {
  }

  ghost predicate Disjoint<V>(s: seq<Elem<V>>, t: seq<Elem<V>>) {
    forall a, b :: 0 <= a < |s| && 0 <= b < |t| ==> s[a] != t[b]
  }

  /** list_splice within one list, to any place outside of what moves. */
  method Splice<V>(before: Elem<V>, first: Elem<V>, last: Elem<V>,
                   ghost s: seq<Elem<V>>, ghost i: int, ghost j: int, ghost k: int)
    requires Chain(s) && 0 < i < |s| && 0 < j <= k < |s| && (i < j || k <= i)
    requires before == s[i] && first == s[j] && last == s[k]
    modifies s
    ensures Chain(Moved(s, i, j, k))
  {
    if first == last {
      MovedNothing(s, i, j);
      return;
    }
    assert Link(s, k - 1);
    var end := last.prev;
    MovedIsAttached(s, i, j, k);
    PartIsApart(s, j, k);
    Detach(first, end, s, j, k);
    Attach(before, first, end, s[..j] + s[k..], PlaceIn(i, j, k), s[j..k]);
  }

  /** list_splice from the list `t` into another list. */
  method SpliceFrom<V>(before: Elem<V>, first: Elem<V>, last: Elem<V>,
                       ghost s: seq<Elem<V>>, ghost i: int, ghost t: seq<Elem<V>>, ghost j: int, ghost k: int)
    requires Chain(s) && Chain(t) && Disjoint(s, t) && 0 < i < |s| && 0 < j <= k < |t|
    requires before == s[i] && first == t[j] && last == t[k]
    modifies s, t
    ensures Chain(s[..i] + t[j..k] + s[i..]) && Chain(t[..j] + t[k..])
  {
    if first == last {
      assert s[..i] + t[j..k] + s[i..] == s && t[..j] + t[k..] == t;
      return;
    }
    assert Link(t, k - 1);
    var end := last.prev;
    Detach(first, end, t, j, k);
    ghost var rest, part := t[..j] + t[k..], t[j..k];
    label Detached:
    Attach(before, first, end, s, i, part);
    assert forall x :: x in rest ==> x !in part && x !in s;
    assert forall m :: 0 <= m < |rest| - 1 ==> old@Detached(Link(rest, m)) ==> Link(rest, m);
  }

  // ----- Whole lists -----

  lemma {:induction false} InsertAt<V>(less: (V, V) -> bool, v: seq<V>, x: V, k: nat)
    requires k <= |v| && (forall m :: 0 <= m < k ==> !less(x, v[m])) && (k < |v| ==> less(x, v[k]))
    ensures Ordered.Insert(less, v, x) == v[..k] + [x] + v[k..]
  {
    if k > 0 {
      InsertAt(less, v[1..], x, k - 1);
      assert v == [v[0]] + v[1..];
    } else if v != [] {
      assert v[..k] + [x] + v[k..] == [x] + v;
    }
  }

  lemma {:induction false} ValuesOfInsert<V>(s: seq<Elem<V>>, x: Elem<V>, k: nat)
    requires 0 < k < |s|
    ensures var v := Values(s[1..|s| - 1]); Values(Inserted(s, k, x)[1..|s|]) == v[..k - 1] + [x.value] + v[k - 1..]
  {
    var r, v := Inserted(s, k, x)[1..|s|], Values(s[1..|s| - 1]);
    var w := v[..k - 1] + [x.value] + v[k - 1..];
    forall i | 0 <= i < |r| ensures r[i].value == w[i] {
      if i < k - 1 {
        assert r[i] == s[i + 1] && w[i] == v[i];
      } else if i > k - 1 {
        assert r[i] == s[i] && w[i] == v[i - 1];
      }
    }
  }

  lemma {:induction false} InsertedInOrder<V>(less: (V, V) -> bool, s: seq<Elem<V>>, x: Elem<V>, k: nat)
    requires 0 < k < |s| && (forall m :: 1 <= m < k ==> !less(x.value, s[m].value))
    requires k < |s| - 1 ==> less(x.value, s[k].value)
    ensures Values(Inserted(s, k, x)[1..|s|]) == Ordered.Insert(less, Values(s[1..|s| - 1]), x.value)
  {
    var v := Values(s[1..|s| - 1]);
    forall m | 0 <= m < k - 1 ensures !less(x.value, v[m]) {
      assert v[m] == s[m + 1].value;
    }
    InsertAt(less, v, x.value, k - 1);
    ValuesOfInsert(s, x, k);
  }

  class LinkedList<V> {
    const head: Elem<V>
    const tail: Elem<V>
    ghost var chain: seq<Elem<V>>

    ghost predicate Valid()
      reads this, chain
    {
      Chain(chain) && chain[0] == head && chain[|chain| - 1] == tail
    }

    ghost function Contents(): seq<V>
      requires |chain| >= 2
      reads this
    {
      Values(chain[1..|chain| - 1])
    }

    constructor (head: Elem<V>, tail: Elem<V>)
      requires head != tail
      modifies head, tail
      ensures Valid() && this.head == head && this.tail == tail && chain == [head, tail] && Contents() == []
    {
      this.head, this.tail, chain := head, tail, [head, tail];
      new;
      head.prev, head.next := null, tail;
      tail.prev, tail.next := head, null;
    }

    method PushBack(elem: Elem<V>)
      requires Valid() && elem !in chain
      modifies this, chain, elem
      ensures Valid() && chain == Inserted(old(chain), |old(chain)| - 1, elem)
      ensures Contents() == old(Contents()) + [elem.value]
    {
      ghost var n := |chain| - 1;
      Insert(tail, elem, chain, n);
      chain := Inserted(chain, n, elem);
      assert chain[1..|chain| - 1] == old(chain)[1..n] + [elem];
    }

    method PopFront() returns (front: Elem<V>)
      requires Valid() && |chain| > 2
      modifies this, chain
      ensures Valid() && front == old(chain)[1] && chain == Removed(old(chain), 1)
      ensures [front.value] + Contents() == old(Contents())
    {
      assert Link(chain, 0);
      front := head.next;
      var _ := Remove(front, chain, 1);
      chain := Removed(chain, 1);
      assert [front] + chain[1..|chain| - 1] == old(chain)[1..|old(chain)| - 1];
    }

    /** The first element that `x` is less than, or the tail. */
    method FindPlace(x: V, less: (V, V) -> bool) returns (e: Elem<V>, ghost k: int)
      requires Valid()
      ensures 0 < k < |chain| && e == chain[k]
      ensures forall m :: 1 <= m < k ==> !less(x, chain[m].value)
      ensures k < |chain| - 1 ==> less(x, e.value)
    {
      assert Link(chain, 0);
      e, k := head.next, 1;
      while e != tail
        invariant 0 < k < |chain| && e == chain[k]
        invariant forall m :: 1 <= m < k ==> !less(x, chain[m].value)
        decreases |chain| - k
      {
        if less(x, e.value) {
          break;
        }
        assert Link(chain, k);
        e, k := e.next, k + 1;
      }
    }

    method InsertOrdered(elem: Elem<V>, less: (V, V) -> bool)
      requires Valid() && elem !in chain
      modifies this, chain, elem
      ensures Valid() && Contents() == Ordered.Insert(less, old(Contents()), elem.value)
    {
      var e, k := FindPlace(elem.value, less);
      InsertedInOrder(less, chain, elem, k);
      Insert(e, elem, chain, k);
      chain := Inserted(chain, k, elem);
    }
  }
}
