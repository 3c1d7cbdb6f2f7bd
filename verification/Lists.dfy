/** The intrusive circular doubly linked lists of include/list.h on the heap, and the mathematical
    sequences they stand for. */
module Lists {

  /** struct list_head; both links are null until the node is first linked or initialised. */
  class ListHead {
    var next: ListHead?
    var prev: ListHead?

    constructor ()
      ensures next == null && prev == null
    {
      next, prev := null, null;
    }
  }

  /** The node at position i of the ring through head and s; positions -1 and |s| are the head. */
  ghost function At(head: ListHead, s: seq<ListHead>, i: int): ListHead
  {
    if 0 <= i < |s| then s[i] else head
  }

  ghost predicate Distinct(head: ListHead, s: seq<ListHead>)
  {
    head !in s && forall i, j :: 0 <= i < j < |s| ==> s[i] != s[j]
  }

  /** head is the head of a list whose entries are s, in order. */
  ghost predicate Ring(head: ListHead, s: seq<ListHead>)
    reads head, s
  {
    && Distinct(head, s)
    && (forall i :: -1 <= i < |s| ==> At(head, s, i).next == At(head, s, i + 1))
    && (forall i :: 0 <= i <= |s| ==> At(head, s, i).prev == At(head, s, i - 1))
  }

  ghost function Inserted(s: seq<ListHead>, k: nat, x: ListHead): seq<ListHead>
    requires k <= |s|
  {
    s[..k] + [x] + s[k..]
  }

  ghost function Deleted(s: seq<ListHead>, k: nat): seq<ListHead>
    requires k < |s|
  {
    s[..k] + s[k + 1..]
  }

  method InitListHead(list: ListHead)
    modifies list
    ensures Ring(list, [])
  {
    list.next := list;
    list.prev := list;
  }

  /** __list_add: link x between positions k - 1 and k. */
  method LinkBetween(x: ListHead, prev: ListHead, next: ListHead, ghost head: ListHead, ghost s: seq<ListHead>,
                     ghost k: nat)
    requires Ring(head, s) && k <= |s| && x != head && x !in s
    requires prev == At(head, s, k - 1) && next == At(head, s, k)
    modifies x, prev, next
    ensures Ring(head, Inserted(s, k, x))
    ensures forall y: ListHead :: old(allocated(y)) && y != x && y != prev && y != next ==>
              y.next == old(y.next) && y.prev == old(y.prev)
  {
    next.prev := x;
    x.next := next;
    x.prev := prev;
    prev.next := x;
    ghost var t := Inserted(s, k, x);
    assert forall i :: -1 <= i < k ==> At(head, t, i) == At(head, s, i);
    assert At(head, t, k) == x;
    assert forall i :: k < i <= |t| ==> At(head, t, i) == At(head, s, i - 1);
  }

  /** list_add after the node at position k - 1 (the head for k == 0). */
  method ListAdd(x: ListHead, at: ListHead, ghost head: ListHead, ghost s: seq<ListHead>, ghost k: nat)
    requires Ring(head, s) && k <= |s| && x != head && x !in s && at == At(head, s, k - 1)
    modifies x, head, s
    ensures Ring(head, Inserted(s, k, x))
  {
    assert At(head, s, k - 1).next == At(head, s, k);
    LinkBetween(x, at, at.next, head, s, k);
  }

  method ListAddTail(x: ListHead, head: ListHead, ghost s: seq<ListHead>)
    requires Ring(head, s) && x != head && x !in s
    modifies x, head, s
    ensures Ring(head, s + [x])
  {
    assert At(head, s, |s|).prev == At(head, s, |s| - 1);
    LinkBetween(x, head.prev, head, head, s, |s|);
    assert Inserted(s, |s|, x) == s + [x];
  }

  /** list_del: the neighbours are spliced together, the entry's own links stay as they were. */
  method ListDel(entry: ListHead, ghost head: ListHead, ghost s: seq<ListHead>, ghost k: nat)
    requires Ring(head, s) && k < |s| && entry == s[k]
    modifies head, s
    ensures Ring(head, Deleted(s, k))
    ensures entry.next == old(entry.next) && entry.prev == old(entry.prev)
  {
    assert At(head, s, k).prev == At(head, s, k - 1) && At(head, s, k).next == At(head, s, k + 1);
    var prev, next := entry.prev, entry.next;
    next.prev := prev;
    prev.next := next;
    ghost var t := Deleted(s, k);
    assert forall i :: -1 <= i < k ==> At(head, t, i) == At(head, s, i);
    assert forall i :: k <= i <= |t| ==> At(head, t, i) == At(head, s, i + 1);
  }

  method ListEmpty(head: ListHead, ghost s: seq<ListHead>) returns (b: bool)
    requires Ring(head, s)
    ensures b <==> s == []
  {
    assert At(head, s, -1).next == At(head, s, 0);
    b := head.next == head;
  }

  // ---------------------------------------------------------------- a node is in one list at most

  /** From a shared node both lists would run through the same nodes and end at the same head. */
  lemma {:induction false} NodesDiffer(h: ListHead, s: seq<ListHead>, g: ListHead, t: seq<ListHead>, i: nat, j: nat)
    requires Ring(h, s) && Ring(g, t) && h != g && h !in t && g !in s
    requires i < |s| && j < |t|
    ensures s[i] != t[j]
    decreases |s| - i
  {
    assert At(h, s, i).next == At(h, s, i + 1);
    assert At(g, t, j).next == At(g, t, j + 1);
    if i + 1 < |s| && j + 1 < |t| {
      NodesDiffer(h, s, g, t, i + 1, j + 1);
    }
  }

  /** Two lists with different heads share no node: the links alone rule out membership in both. */
  lemma RingsDisjoint(h: ListHead, s: seq<ListHead>, g: ListHead, t: seq<ListHead>)
    requires Ring(h, s) && Ring(g, t) && h != g && h !in t && g !in s
    ensures forall x :: x in s ==> x !in t
  {
    forall x | x in s ensures x !in t {
      var i :| 0 <= i < |s| && s[i] == x;
      forall j | 0 <= j < |t| ensures t[j] != x { NodesDiffer(h, s, g, t, i, j); }
    }
  }

  /** The links determine the sequence. */
  lemma {:induction false} RingUnique(h: ListHead, s: seq<ListHead>, t: seq<ListHead>, i: nat)
    requires Ring(h, s) && Ring(h, t) && i <= |s| && i <= |t|
    requires forall j :: 0 <= j < i ==> s[j] == t[j]
    ensures s == t
    decreases |s| - i
  {
    assert At(h, s, i - 1).next == At(h, s, i);
    assert At(h, t, i - 1).next == At(h, t, i);
    assert At(h, s, i - 1) == At(h, t, i - 1);
    if i < |s| { RingUnique(h, s, t, i + 1); }
  }

  // ---------------------------------------------------------------- list_for_each

  lemma HeadAtEnd(head: ListHead, s: seq<ListHead>, i: nat)
    requires Distinct(head, s) && i <= |s|
    ensures At(head, s, i) == head <==> i == |s|
  {
  }

  /** list_for_each over an unchanging list visits its entries in order. */
  method Walk(head: ListHead, ghost s: seq<ListHead>) returns (visited: seq<ListHead>)
    requires Ring(head, s)
    ensures visited == s
  {
    visited := [];
    assert At(head, s, -1).next == At(head, s, 0);
    var pos := head.next;
    while pos != head
      invariant |visited| <= |s| && visited == s[..|visited|] && pos == At(head, s, |visited|)
      decreases |s| - |visited|
    {
      assert At(head, s, |visited|).next == At(head, s, |visited| + 1);
      visited := visited + [pos];
      pos := pos.next;
    }
    HeadAtEnd(head, s, |visited|);
    assert s[..|s|] == s;
  }

  /** list_for_each whose body deletes the node it stands on, as in wake_up: it still visits every
      entry, once and in order, and leaves the list empty. */
  method Drain(head: ListHead, ghost s: seq<ListHead>) returns (visited: seq<ListHead>)
    requires Ring(head, s)
    modifies head, s
    ensures visited == s && Ring(head, [])
  {
    visited := [];
    assert At(head, s, -1).next == At(head, s, 0);
    var pos := head.next;
    while pos != head
      invariant |visited| <= |s| && visited == s[..|visited|] && pos == At(head, s, |visited|)
      invariant Ring(head, s[|visited|..])
      decreases |s| - |visited|
    {
      ghost var rest := s[|visited|..];
      assert At(head, rest, 0).next == At(head, rest, 1);
      visited := visited + [pos];
      ListDel(pos, head, rest, 0);
      assert Deleted(rest, 0) == s[|visited|..];
      pos := pos.next;
    }
    HeadAtEnd(head, s, |visited|);
    assert s[..|s|] == s && s[|s|..] == [];
  }
}
