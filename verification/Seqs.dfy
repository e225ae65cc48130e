/** Sequences used as lists of distinct elements. */
module Seqs {

  function Elems<T>(s: seq<T>): set<T> {
    set x | x in s
  }

  ghost predicate NoDup<T>(s: seq<T>) {
    forall i, j :: 0 <= i < j < |s| ==> s[i] != s[j]
  }

  function Without<T(==)>(s: seq<T>, x: T): seq<T> {
    if s == [] then [] else if s[0] == x then Without(s[1..], x) else [s[0]] + Without(s[1..], x)
  }

  lemma {:induction false} WithoutIsLess<T>(s: seq<T>, x: T)
    ensures Elems(Without(s, x)) == Elems(s) - {x}
    ensures NoDup(s) ==> NoDup(Without(s, x))
  {
    if s != [] {
      WithoutIsLess(s[1..], x);
      assert s == [s[0]] + s[1..];
      assert Elems(s) == {s[0]} + Elems(s[1..]);
      if NoDup(s) {
        assert NoDup(s[1..]);
        assert s[0] !in Elems(s[1..]);
      }
      if s[0] != x {
        var r := Without(s[1..], x);
        assert Elems([s[0]] + r) == {s[0]} + Elems(r);
        if NoDup(s) {
          assert s[0] !in Elems(r);
          assert forall i :: 0 <= i < |r| ==> r[i] in Elems(r);
        }
      }
    }
  }

  lemma {:induction false} PopElems<T>(s: seq<T>)
    requires s != [] && NoDup(s)
    ensures Elems(s[1..]) == Elems(s) - {s[0]} && NoDup(s[1..])
  {
    assert s == [s[0]] + s[1..];
    assert s[0] !in s[1..];
  }

  lemma {:induction false} PushElems<T>(x: T, s: seq<T>)
    requires x !in s && NoDup(s)
    ensures Elems([x] + s) == Elems(s) + {x} && NoDup([x] + s)
  {
  }
}
