/** Many lists over one set of nodes, as src/mm.c has them: every page embeds a single list node, and
    each free area and each slab list has a head.  The heap refines a table of page-number sequences. */
module ListTable {
  import opened Seqs
  import opened Lists

  ghost function NodesOf(nodes: seq<ListHead>, l: seq<nat>): (r: seq<ListHead>)
    requires forall i :: 0 <= i < |l| ==> l[i] < |nodes|
    ensures |r| == |l| && forall i :: 0 <= i < |l| ==> r[i] == nodes[l[i]]
  {
    seq(|l|, i requires 0 <= i < |l| => nodes[l[i]])
  }

  ghost predicate InTable(nodes: seq<ListHead>, l: seq<nat>)
  {
    forall i :: 0 <= i < |l| ==> l[i] < |nodes|
  }

  /** The nodes and the heads are all different objects. */
  ghost predicate Separate(nodes: seq<ListHead>, heads: seq<ListHead>)
  {
    && (forall i, j :: 0 <= i < j < |nodes| ==> nodes[i] != nodes[j])
    && (forall i, j :: 0 <= i < j < |heads| ==> heads[i] != heads[j])
    && (forall i, j :: 0 <= i < |nodes| && 0 <= j < |heads| ==> nodes[i] != heads[j])
  }

  /** For every k the list at heads[k] holds the nodes of the pages lists[k], in order. */
  ghost predicate Represents(nodes: seq<ListHead>, heads: seq<ListHead>, lists: seq<seq<nat>>)
    reads nodes, heads
  {
    && Separate(nodes, heads)
    && |lists| == |heads|
    && (forall k :: 0 <= k < |lists| ==> InTable(nodes, lists[k]))
    && (forall k :: 0 <= k < |lists| ==> Ring(heads[k], NodesOf(nodes, lists[k])))
  }

  lemma NotAmongNodes(nodes: seq<ListHead>, heads: seq<ListHead>, l: seq<nat>, k: nat)
    requires Separate(nodes, heads) && k < |heads| && InTable(nodes, l)
    ensures heads[k] !in NodesOf(nodes, l)
  {
  }

  lemma NodeIn(nodes: seq<ListHead>, heads: seq<ListHead>, l: seq<nat>, p: nat)
    requires Separate(nodes, heads) && InTable(nodes, l) && p < |nodes|
    ensures nodes[p] in NodesOf(nodes, l) <==> p in l
  {
    var r := NodesOf(nodes, l);
    if p in l {
      var i :| 0 <= i < |l| && l[i] == p;
      assert r[i] == nodes[p];
    }
    if nodes[p] in r {
      var i :| 0 <= i < |r| && r[i] == nodes[p];
      assert l[i] == p;
    }
  }

  lemma ListsShareNoNode(nodes: seq<ListHead>, heads: seq<ListHead>, lists: seq<seq<nat>>, j: nat, k: nat)
    requires Represents(nodes, heads, lists) && j < |lists| && k < |lists| && j != k
    ensures forall x :: x in NodesOf(nodes, lists[j]) ==> x !in NodesOf(nodes, lists[k])
  {
    NotAmongNodes(nodes, heads, lists[j], k);
    NotAmongNodes(nodes, heads, lists[k], j);
    RingsDisjoint(heads[j], NodesOf(nodes, lists[j]), heads[k], NodesOf(nodes, lists[k]));
  }

  /** A page's single node is linked into at most one of the lists, and at most once. */
  lemma LinkedOnce(nodes: seq<ListHead>, heads: seq<ListHead>, lists: seq<seq<nat>>, p: nat, j: nat, k: nat)
    requires Represents(nodes, heads, lists) && j < |lists| && k < |lists| && p in lists[j] && p in lists[k]
    ensures j == k && NoDup(lists[j])
  {
    var s := NodesOf(nodes, lists[j]);
    assert Ring(heads[j], s);
    forall a, b | 0 <= a < b < |lists[j]| ensures lists[j][a] != lists[j][b] {
      assert s[a] != s[b];
    }
    if j != k {
      ListsShareNoNode(nodes, heads, lists, j, k);
      NodeIn(nodes, heads, lists[j], p);
      NodeIn(nodes, heads, lists[k], p);
    }
  }

  function Without(l: seq<nat>, i: nat): seq<nat>
    requires i < |l|
  {
    l[..i] + l[i + 1..]
  }

  lemma NodesWithout(nodes: seq<ListHead>, l: seq<nat>, i: nat)
    requires InTable(nodes, l) && i < |l|
    ensures InTable(nodes, Without(l, i)) && NodesOf(nodes, Without(l, i)) == Deleted(NodesOf(nodes, l), i)
  {
    forall j | 0 <= j < |l| - 1 ensures Without(l, i)[j] == if j < i then l[j] else l[j + 1] {}
  }

  /** list_add_tail of an unlinked page appends to one list and leaves every other list alone. */
  method AddTail(nodes: seq<ListHead>, heads: seq<ListHead>, ghost lists: seq<seq<nat>>, p: nat, k: nat)
    requires Represents(nodes, heads, lists) && p < |nodes| && k < |heads|
    requires forall j :: 0 <= j < |lists| ==> p !in lists[j]
    modifies nodes, heads
    ensures Represents(nodes, heads, lists[k := lists[k] + [p]])
  {
    ghost var s := NodesOf(nodes, lists[k]);
    forall j | 0 <= j < |lists|
      ensures nodes[p] !in NodesOf(nodes, lists[j]) && nodes[p] != heads[j]
    {
      NodeIn(nodes, heads, lists[j], p);
    }
    forall j | 0 <= j < |lists| && j != k
      ensures heads[k] !in NodesOf(nodes, lists[j]) && heads[j] !in s
      ensures forall x :: x in s ==> x !in NodesOf(nodes, lists[j])
    {
      NotAmongNodes(nodes, heads, lists[j], k);
      NotAmongNodes(nodes, heads, lists[k], j);
      ListsShareNoNode(nodes, heads, lists, k, j);
    }
    ListAddTail(nodes[p], heads[k], s);
    forall j | 0 <= j < |lists| && j != k
      ensures Ring(heads[j], NodesOf(nodes, lists[j]))
    {
      ghost var t := NodesOf(nodes, lists[j]);
      assert old(Ring(heads[j], t));
      assert heads[j].next == old(heads[j].next) && heads[j].prev == old(heads[j].prev);
      assert forall x :: x in t ==> x.next == old(x.next) && x.prev == old(x.prev);
    }
    ghost var lists' := lists[k := lists[k] + [p]];
    assert InTable(nodes, lists'[k]);
    assert NodesOf(nodes, lists'[k]) == s + [nodes[p]];
    assert forall j :: 0 <= j < |lists| && j != k ==> lists'[j] == lists[j];
  }

  /** list_del of a page needs no list head: it removes the page from the list that links it. */
  method Del(nodes: seq<ListHead>, ghost heads: seq<ListHead>, ghost lists: seq<seq<nat>>, p: nat, ghost k: nat,
             ghost i: nat)
    requires Represents(nodes, heads, lists) && p < |nodes| && k < |lists| && i < |lists[k]| && lists[k][i] == p
    modifies nodes, heads
    ensures Represents(nodes, heads, lists[k := Without(lists[k], i)])
  {
    ghost var s := NodesOf(nodes, lists[k]);
    forall j | 0 <= j < |lists| && j != k
      ensures heads[k] !in NodesOf(nodes, lists[j]) && heads[j] !in s
      ensures forall x :: x in s ==> x !in NodesOf(nodes, lists[j])
    {
      NotAmongNodes(nodes, heads, lists[j], k);
      NotAmongNodes(nodes, heads, lists[k], j);
      ListsShareNoNode(nodes, heads, lists, k, j);
    }
    ListDel(nodes[p], heads[k], s, i);
    forall j | 0 <= j < |lists| && j != k
      ensures Ring(heads[j], NodesOf(nodes, lists[j]))
    {
      ghost var t := NodesOf(nodes, lists[j]);
      assert old(Ring(heads[j], t));
      assert heads[j].next == old(heads[j].next) && heads[j].prev == old(heads[j].prev);
      assert forall x :: x in t ==> x.next == old(x.next) && x.prev == old(x.prev);
    }
    NodesWithout(nodes, lists[k], i);
    ghost var lists' := lists[k := Without(lists[k], i)];
    assert forall j :: 0 <= j < |lists| && j != k ==> lists'[j] == lists[j];
  }

  /** On a represented list this is the Remove that the allocator's model uses. */
  lemma DelIsRemove(nodes: seq<ListHead>, heads: seq<ListHead>, lists: seq<seq<nat>>, k: nat, i: nat)
    requires Represents(nodes, heads, lists) && k < |lists| && i < |lists[k]|
    ensures Without(lists[k], i) == Remove(lists[k], lists[k][i])
  {
    LinkedOnce(nodes, heads, lists, lists[k][i], k, k);
    RemoveAt(lists[k], i);
  }
}
