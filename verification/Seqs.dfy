/** Lists of distinct elements: the value that a circular doubly linked list of include/list.h
    stands for once a node can be linked at most once. */
module Seqs {

  datatype Option<+T> = None | Some(value: T)

  ghost predicate NoDup<T>(s: seq<T>)
  {
    forall i, j :: 0 <= i < j < |s| ==> s[i] != s[j]
  }

  /** list_del: unlink x. */
  function Remove<T(==)>(s: seq<T>, x: T): (r: seq<T>)
    ensures x !in s ==> r == s
    ensures x in s ==> |r| == |s| - 1
    ensures forall y :: y in r ==> y in s
    ensures forall y :: y in s && y != x ==> y in r
  {
    if s == [] then []
    else
      assert s == [s[0]] + s[1..];
      if s[0] == x then s[1..] else
      [s[0]] + Remove(s[1..], x)
  }

  lemma {:induction false} RemoveNoDup<T>(s: seq<T>, x: T)
    requires NoDup(s)
    ensures NoDup(Remove(s, x))
    ensures x !in Remove(s, x)
  {
    if s != [] && s[0] != x {
      var t := Remove(s[1..], x);
      RemoveNoDup(s[1..], x);
      assert s[0] !in s[1..];
      NoDupCons(s[0], t);
    }
  }

  lemma NoDupCons<T>(x: T, s: seq<T>)
    requires NoDup(s) && x !in s
    ensures NoDup([x] + s)
  {
    forall i, j | 0 <= i < j < |s| + 1
      ensures ([x] + s)[i] != ([x] + s)[j]
    {
      assert ([x] + s)[j] == s[j - 1];
    }
  }

  lemma NoDupSnoc<T>(s: seq<T>, x: T)
    requires NoDup(s) && x !in s
    ensures NoDup(s + [x])
  {
  }

  /** How often x occurs in s. */
  function Occurs<T(==)>(s: seq<T>, x: T): (n: nat)
    ensures n > 0 <==> x in s
  {
    multiset(s)[x]
  }

  lemma {:induction false} RemoveOccurs<T>(s: seq<T>, x: T, y: T)
    ensures Occurs(Remove(s, x), y) == Occurs(s, y) - if y == x && x in s then 1 else 0
  {
    if s != [] {
      assert s == [s[0]] + s[1..];
      if s[0] != x { RemoveOccurs(s[1..], x, y); }
    }
  }

  lemma SnocOccurs<T>(s: seq<T>, x: T, y: T)
    ensures Occurs(s + [x], y) == Occurs(s, y) + if y == x then 1 else 0
  {
  }

  lemma TailOccurs<T>(s: seq<T>, y: T)
    requires s != []
    ensures Occurs(s[1..], y) == Occurs(s, y) - if y == s[0] then 1 else 0
  {
    assert s == [s[0]] + s[1..];
  }

  /** Unlinking the node at position k splices its neighbours together. */
  lemma {:induction false} RemoveAt<T>(s: seq<T>, k: nat)
    requires k < |s| && NoDup(s)
    ensures Remove(s, s[k]) == s[..k] + s[k + 1..]
  {
    if k > 0 {
      RemoveAt(s[1..], k - 1);
      assert s[1..][..k - 1] == s[1..k];
      assert s[1..][k..] == s[k + 1..];
      assert [s[0]] + (s[1..k] + s[k + 1..]) == s[..k] + s[k + 1..];
    }
  }

  lemma {:induction false} NoDupCounts<T>(s: seq<T>, x: T)
    requires NoDup(s)
    ensures multiset(s)[x] == if x in s then 1 else 0
  {
    if s != [] {
      assert s == [s[0]] + s[1..];
      NoDupCounts(s[1..], x);
    }
  }

  /** Lists of distinct elements with the same members are permutations of each other. */
  lemma SameMembersPermute<T>(s: seq<T>, t: seq<T>)
    requires NoDup(s) && NoDup(t) && forall x :: x in s <==> x in t
    ensures multiset(s) == multiset(t) && |s| == |t|
  {
    forall x: T | x in s || x in t
      ensures multiset(s)[x] == multiset(t)[x]
    {
      NoDupCounts(s, x);
      NoDupCounts(t, x);
    }
    assert multiset(s) == multiset(t);
    assert |multiset(s)| == |s| && |multiset(t)| == |t|;
  }
}
