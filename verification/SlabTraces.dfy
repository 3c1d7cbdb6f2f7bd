/** The list calls of the object allocators, kmalloc and kfree, over the free lists and the full, partial
    and empty lists together, and the linked lists on the heap that they maintain. */
module SlabTraces {
  import opened Seqs
  import opened Buddy
  import opened BuddyInvariant
  import opened Slab
  import opened SlabInvariant
  import opened SlabRuns
  import opened KmallocRuns
  import opened KmallocGrants
  import opened ListTraces
  import Lists
  import ListTable

  // ---------------------------------------------------------------- the table of all lists

  /** The full, partial and empty list of an allocator, for j = 0, 1 and 2. */
  function SlabList(a: ObjAllocator, j: nat): seq<nat>
  {
    if j == 0 then a.full else if j == 1 then a.partial else a.empty
  }

  function SlabTable(pool: seq<ObjAllocator>): (r: seq<seq<nat>>)
    ensures |r| == 3 * |pool| && forall l :: 0 <= l < 3 * |pool| ==> r[l] == SlabList(pool[l / 3], l % 3)
  {
    seq(3 * |pool|, l requires 0 <= l < 3 * |pool| => SlabList(pool[l / 3], l % 3))
  }

  function TableOf(areas: seq<FreeArea>, pool: seq<ObjAllocator>): seq<seq<nat>>
  {
    FreeTable(areas) + SlabTable(pool)
  }

  /** The free lists of all orders, then three lists for each object allocator. */
  function Table(k: Heap): seq<seq<nat>> { TableOf(k.buddy.areas, k.pool) }

  /** Where list j of allocator t is in the table. */
  function Place(t: nat, j: nat): nat { MAX_ORDER + 1 + 3 * t + j }

  lemma SameLists(pool: seq<ObjAllocator>, pool': seq<ObjAllocator>, t: nat)
    requires |pool'| == |pool| && t < |pool| && forall u :: 0 <= u < |pool| && u != t ==> pool'[u] == pool[u]
    requires pool'[t].full == pool[t].full && pool'[t].partial == pool[t].partial && pool'[t].empty == pool[t].empty
    ensures SlabTable(pool') == SlabTable(pool)
  {
    forall l | 0 <= l < 3 * |pool| ensures SlabTable(pool')[l] == SlabTable(pool)[l] {
      if l / 3 != t { assert pool'[l / 3] == pool[l / 3]; }
    }
  }

  /** A page in a slab list is owned by that allocator, and live. */
  lemma SlabListed(k: Heap, l: nat, x: nat)
    requires KInv(k) && l < 3 * |k.pool| && x in SlabTable(k.pool)[l]
    ensures x < |k.objs| && k.buddy.pages[x].objAlloc == Some(l / 3) && x in k.buddy.live
  {
    var t := l / 3;
    assert AllocatorOk(k.buddy.pages, t, k.pool[t]);
    InPlace(k.buddy.pages, t, k.pool[t], x);
    assert PageOk(k, x);
  }

  lemma NoFreeList(k: Heap, p: nat)
    requires KInv(k) && p < |k.objs| && k.buddy.pages[p].objAlloc.Some?
    ensures Unlinked(FreeTable(k.buddy.areas), p)
  {
    var own :| InvBy(k.buddy, own);
    forall i: nat | i < |k.buddy.areas|
      ensures p !in k.buddy.areas[i].freelist
    {
      if Listed(k.buddy, i, p) { ListedHasNoOwner(k, own, i, p); }
    }
  }

  /** The lists that a page of allocator t can be in. */
  lemma OnlyOwnLists(k: Heap, p: nat, t: nat, l: nat)
    requires KInv(k) && p < |k.objs| && k.buddy.pages[p].objAlloc == Some(t) && t < |k.pool| && l < 3 * |k.pool|
    ensures p in SlabTable(k.pool)[l] ==> l / 3 == t
    ensures Occurs(k.pool[t].full, p) + Occurs(k.pool[t].partial, p) + Occurs(k.pool[t].empty, p)
            + Occurs(Curr(k.pool[t]), p) == 1
  {
    if p in SlabTable(k.pool)[l] { SlabListed(k, l, p); }
    assert AllocatorOk(k.buddy.pages, t, k.pool[t]);
    assert Places(k.pool[t], p) == 1;
  }

  // ---------------------------------------------------------------- single steps

  lemma SplitIndex(i: nat, t: nat, j: nat)
    requires j < 3
    ensures i == 3 * t + j <==> i / 3 == t && i % 3 == j
    ensures i % 3 < 3
  {
  }

  lemma OneOfThree(a: ObjAllocator, p: nat, j: nat, i: nat)
    requires j < 3 && i < 3 && p in SlabList(a, j) && Occurs(a.full, p) + Occurs(a.partial, p) + Occurs(a.empty, p) <= 1
    ensures Occurs(SlabList(a, i), p) == if i == j then 1 else 0
  {
  }

  lemma InOwnList(k: Heap, t: nat, j: nat, p: nat)
    requires KInv(k) && t < |k.pool| && j < 3 && p in SlabList(k.pool[t], j)
    ensures p < |k.objs| && k.buddy.pages[p].objAlloc == Some(t)
  {
    assert AllocatorOk(k.buddy.pages, t, k.pool[t]);
    InPlace(k.buddy.pages, t, k.pool[t], p);
  }

  /** A page in list j of allocator t is in no other slab list, and there once. */
  lemma NoOtherSlabList(k: Heap, t: nat, j: nat, p: nat, i: nat)
    requires KInv(k) && t < |k.pool| && j < 3 && p in SlabList(k.pool[t], j) && i < 3 * |k.pool|
    ensures p < |k.objs| && k.buddy.pages[p].objAlloc == Some(t)
    ensures Occurs(SlabTable(k.pool)[i], p) == if i == 3 * t + j then 1 else 0
  {
    InOwnList(k, t, j, p);
    OnlyOwnLists(k, p, t, i);
    SplitIndex(i, t, j);
    OneOfThree(k.pool[t], p, j, i % 3);
  }

  lemma LinkedInSlab(k: Heap, t: nat, j: nat, p: nat)
    requires KInv(k) && t < |k.pool| && j < 3 && p in SlabList(k.pool[t], j)
    ensures LinkedAt(Table(k), p, Place(t, j)) && p < |k.objs| && k.buddy.pages[p].objAlloc == Some(t)
  {
    NoOtherSlabList(k, t, j, p, 0);
    NoFreeList(k, p);
    forall i | 0 <= i < 3 * |k.pool|
      ensures Occurs(SlabTable(k.pool)[i], p) == if i == 3 * t + j then 1 else 0
    {
      NoOtherSlabList(k, t, j, p, i);
    }
    LinkedBeside(FreeTable(k.buddy.areas), SlabTable(k.pool), p, 3 * t + j);
  }

  lemma LinkedBeside(a: seq<seq<nat>>, b: seq<seq<nat>>, p: nat, i: nat)
    requires Unlinked(a, p) && i < |b| && forall l :: 0 <= l < |b| ==> Occurs(b[l], p) == if l == i then 1 else 0
    ensures LinkedAt(a + b, p, |a| + i)
  {
  }

  /** list_del of a page in a slab list. */
  lemma DelStep(k: Heap, t: nat, j: nat, p: nat, pool': seq<ObjAllocator>)
    requires KInv(k) && t < |k.pool| && j < 3 && p in SlabList(k.pool[t], j)
    requires pool' == k.pool[t := Unlink(k.pool[t], p)]
    ensures Step(Table(k), Del(p), TableOf(k.buddy.areas, pool'), |k.buddy.pages|)
    ensures Unlinked(TableOf(k.buddy.areas, pool'), p)
  {
    LinkedInSlab(k, t, j, p);
    NoFreeList(k, p);
    forall i | 0 <= i < 3 * |k.pool|
      ensures SlabTable(pool')[i] == Remove(SlabTable(k.pool)[i], p) && p !in SlabTable(pool')[i]
    {
      NoOtherSlabList(k, t, j, p, i);
      UnlinkedList(k.pool, t, p, i);
      RemoveOccurs(SlabTable(k.pool)[i], p, p);
    }
    DelBeside(FreeTable(k.buddy.areas), SlabTable(k.pool), SlabTable(pool'), p);
  }

  lemma DelBeside(a: seq<seq<nat>>, b: seq<seq<nat>>, b': seq<seq<nat>>, p: nat)
    requires Unlinked(a, p) && |b'| == |b| && forall i :: 0 <= i < |b| ==> b'[i] == Remove(b[i], p) && p !in b'[i]
    ensures Apply(a + b, Del(p)) == a + b' && Unlinked(a + b', p)
  {
  }

  lemma UnlinkedList(pool: seq<ObjAllocator>, t: nat, p: nat, i: nat)
    requires t < |pool| && i < 3 * |pool| && (i / 3 != t ==> p !in SlabTable(pool)[i])
    ensures SlabTable(pool[t := Unlink(pool[t], p)])[i] == Remove(SlabTable(pool)[i], p)
  {
  }

  function Appended(a: ObjAllocator, j: nat, p: nat): ObjAllocator
  {
    if j == 0 then a.(full := a.full + [p]) else if j == 1 then a.(partial := a.partial + [p])
    else a.(empty := a.empty + [p])
  }

  /** list_add_tail of a page that is linked nowhere. */
  lemma AddStep(areas: seq<FreeArea>, pool: seq<ObjAllocator>, t: nat, j: nat, p: nat, n: nat)
    requires |areas| == MAX_ORDER + 1 && t < |pool| && j < 3 && p < n && Unlinked(TableOf(areas, pool), p)
    ensures Step(TableOf(areas, pool), Add(p, Place(t, j)), TableOf(areas, pool[t := Appended(pool[t], j, p)]), n)
  {
    var table, table' := TableOf(areas, pool), TableOf(areas, pool[t := Appended(pool[t], j, p)]);
    assert table[Place(t, j)] == SlabList(pool[t], j);
    forall l | 0 <= l < |table|
      ensures table'[l] == if l == Place(t, j) then table[l] + [p] else table[l]
    {
      if l > MAX_ORDER {
        var i := l - MAX_ORDER - 1;
        assert table[l] == SlabList(pool[i / 3], i % 3);
        assert table'[l] == SlabList(pool[t := Appended(pool[t], j, p)][i / 3], i % 3);
      }
    }
    assert Apply(table, Add(p, Place(t, j))) == table';
  }

  // ---------------------------------------------------------------- the buddy layer beside the slab lists

  lemma AllocTable(k: Heap, order: int)
    requires KInv(k)
    ensures Leads(Table(k), AllocTrace(k.buddy, order), TableOf(Alloc(k.buddy, order).0.areas, k.pool), |k.buddy.pages|)
  {
    AllocLeads(k.buddy, order);
    var ops := AllocTrace(k.buddy, order);
    forall x: nat | Touches(ops, x)
      ensures Unlinked(SlabTable(k.pool), x)
    {
      forall l | 0 <= l < 3 * |k.pool| ensures x !in SlabTable(k.pool)[l] {
        if x in SlabTable(k.pool)[l] { SlabListed(k, l, x); }
      }
    }
    LeadsBeside(FreeTable(k.buddy.areas), ops, FreeTable(Alloc(k.buddy, order).0.areas), SlabTable(k.pool),
      |k.buddy.pages|);
  }

  lemma FreeTableLeads(b: Buddy.State, pool: seq<ObjAllocator>, p: nat)
    requires Inv(b) && p in b.live && p < |b.pages|
    requires forall l, x :: 0 <= l < 3 * |pool| && x in SlabTable(pool)[l] ==> x in b.live && x != p
    ensures Leads(TableOf(b.areas, pool), FreeTrace(b, p), TableOf(FreeBlock(b, p).areas, pool), |b.pages|)
  {
    FreeLeads(b, p);
    LeadsBeside(FreeTable(b.areas), FreeTrace(b, p), FreeTable(FreeBlock(b, p).areas), SlabTable(pool), |b.pages|);
  }

  // ---------------------------------------------------------------- obj_allocate and kmalloc

  /** Lines 234-244. */
  function ProvideTrace(k: Heap, t: nat): seq<ListOp>
    requires Sized(k) && t < |k.pool|
  {
    var a := k.pool[t];
    if a.currPage.Some? then []
    else if a.partial != [] then [Del(a.partial[0])]
    else if a.empty != [] then [Del(a.empty[0])]
    else AllocTrace(k.buddy, 0)
  }

  /** Lines 270-271. */
  function TakeTrace(k: Heap, t: nat, p: nat): seq<ListOp>
    requires t < |k.pool| && p < |k.buddy.pages|
  {
    if k.pool[t].objPerPage == k.buddy.pages[p].objUsed + 1 then [Add(p, Place(t, 0))] else []
  }

  lemma ProvideLeads(k: Heap, t: nat, writeBack: bool)
    requires Ok(k, writeBack) && t < |k.pool| && k.pool[t].objsize != 0 && ProvidePage(k, t).Some?
    ensures Leads(Table(k), ProvideTrace(k, t), Table(ProvidePage(k, t).value), |k.buddy.pages|)
  {
    var a, k' := k.pool[t], ProvidePage(k, t).value;
    var n := |k.buddy.pages|;
    if a.currPage.Some? {
      LeadsNowhere(Table(k), n);
    } else if a.partial != [] {
      ReuseLeads(k, t, 1, a.partial[0], k');
    } else if a.empty != [] {
      ReuseLeads(k, t, 2, a.empty[0], k');
    } else {
      AllocTable(k, 0);
      SameLists(k.pool, k'.pool, t);
    }
  }

  lemma ReuseLeads(k: Heap, t: nat, j: nat, p: nat, k': Heap)
    requires KInv(k) && t < |k.pool| && 1 <= j < 3 && SlabList(k.pool[t], j) != [] && p == SlabList(k.pool[t], j)[0]
    requires var a := k.pool[t];
             k' == k.(pool := k.pool[t := if j == 1 then a.(partial := a.partial[1..], currPage := Some(p))
                                          else a.(empty := a.empty[1..], currPage := Some(p))])
    ensures Leads(Table(k), [Del(p)], Table(k'), |k.buddy.pages|)
  {
    var pool' := k.pool[t := Unlink(k.pool[t], p)];
    DelStep(k, t, j, p, pool');
    NoOtherSlabList(k, t, j, p, 0);
    OnlyOwnLists(k, p, t, 0);
    UnlinkAbsent(k.pool[t], p);
    SameLists(pool', k'.pool, t);
    LeadsOne(Table(k), Del(p), Table(k'), |k.buddy.pages|);
  }

  lemma CurrentUnlinked(k: Heap, t: nat)
    requires KInv(k) && t < |k.pool| && k.pool[t].currPage.Some?
    ensures Unlinked(Table(k), k.pool[t].currPage.value) && k.pool[t].currPage.value < |k.objs|
  {
    CurrentPage(k, t);
    var p := k.pool[t].currPage.value;
    NoFreeList(k, p);
    forall i | 0 <= i < 3 * |k.pool| ensures p !in SlabTable(k.pool)[i] {
      CurrentNotListed(k, t, p, i);
    }
  }

  lemma CurrentNotListed(k: Heap, t: nat, p: nat, i: nat)
    requires KInv(k) && t < |k.pool| && k.pool[t].currPage == Some(p) && p < |k.objs| &&
             k.buddy.pages[p].objAlloc == Some(t)
    requires i < 3 * |k.pool|
    ensures p !in SlabTable(k.pool)[i]
  {
    OnlyOwnLists(k, p, t, i);
    assert p in Curr(k.pool[t]);
  }

  lemma TakeSlabLeads(k: Heap, t: nat, p: nat, writeBack: bool)
    requires KInv(k) && t < |k.pool| && k.pool[t].currPage == Some(p)
    ensures p < |k.objs|
    ensures Leads(Table(k), TakeTrace(k, t, p), Table(TakeObject(k, t, p, writeBack).0), |k.buddy.pages|)
  {
    CurrentUnlinked(k, t);
    var k' := TakeObject(k, t, p, writeBack).0;
    if k.pool[t].objPerPage == k.buddy.pages[p].objUsed + 1 {
      var pool' := k.pool[t := Appended(k.pool[t], 0, p)];
      AddStep(k.buddy.areas, k.pool, t, 0, p, |k.buddy.pages|);
      SameLists(pool', k'.pool, t);
      LeadsOne(Table(k), Add(p, Place(t, 0)), Table(k'), |k.buddy.pages|);
    } else {
      SameLists(k.pool, k'.pool, t);
      LeadsNowhere(Table(k), |k.buddy.pages|);
    }
  }

  function ObjAllocateTrace(k: Heap, token: int): seq<ListOp>
    requires Sized(k)
  {
    if token < 0 || token >= |k.pool| || k.pool[token].objsize == 0 || ProvidePage(k, token).None? then []
    else
      var k1 := ProvidePage(k, token).value;
      var c := k1.pool[token].currPage;
      ProvideTrace(k, token) + if c.Some? && c.value < |k1.buddy.pages| then TakeTrace(k1, token, c.value) else []
  }

  lemma ObjAllocateLeads(k: Heap, token: int, writeBack: bool)
    requires Ok(k, writeBack) && !ObjAllocate(k, token, writeBack).1.Fault?
    ensures Leads(Table(k), ObjAllocateTrace(k, token), Table(ObjAllocate(k, token, writeBack).0), |k.buddy.pages|)
  {
    if token < 0 || token >= |k.pool| {
      LeadsNowhere(Table(k), |k.buddy.pages|);
    } else {
      ProvideLeads(k, token, writeBack);
      ProvideGains(k, token, writeBack);
      var k1 := ProvidePage(k, token).value;
      CurrentPage(k1, token);
      var p := k1.pool[token].currPage.value;
      TakeSlabLeads(k1, token, p, writeBack);
      LeadsOn(Table(k), ProvideTrace(k, token), Table(k1), TakeTrace(k1, token, p),
              Table(TakeObject(k1, token, p, writeBack).0), |k.buddy.pages|);
    }
  }

  function KmallocTrace(k: Heap, size: int): seq<ListOp>
    requires Sized(k)
  {
    var i := SizeClass(size, MIN_KMALLOC_ORDER);
    if i <= MAX_KMALLOC_ORDER then ObjAllocateTrace(k, i - MIN_KMALLOC_ORDER)
    else if PageOrder(size, 0) <= MAX_ORDER then AllocTrace(k.buddy, PageOrder(size, 0))
    else []
  }

  lemma KmallocLeads(k: Heap, size: int, writeBack: bool)
    requires Ok(k, writeBack) && !Kmalloc(k, size, writeBack).1.Fault?
    ensures Leads(Table(k), KmallocTrace(k, size), Table(Kmalloc(k, size, writeBack).0), |k.buddy.pages|)
  {
    var i := SizeClass(size, MIN_KMALLOC_ORDER);
    if i <= MAX_KMALLOC_ORDER {
      ObjAllocateLeads(k, i - MIN_KMALLOC_ORDER, writeBack);
    } else if PageOrder(size, 0) <= MAX_ORDER {
      AllocTable(k, PageOrder(size, 0));
    } else {
      LeadsNowhere(Table(k), |k.buddy.pages|);
    }
  }

  // ---------------------------------------------------------------- obj_free and kfree

  /** Lines 318-321. */
  function GiveTrace(k: Heap, t: nat, p: nat): seq<ListOp>
    requires t < |k.pool| && p < |k.buddy.pages|
  {
    if k.pool[t].objPerPage - 1 == k.buddy.pages[p].objUsed - 1 then [Del(p), Add(p, Place(t, 1))] else []
  }

  /** Lines 325-343, on the state that line 321 leaves. */
  function SettleTrace(k: Heap, t: nat, p: nat): seq<ListOp>
    requires Sized(k) && t < |k.pool| && p < |k.buddy.pages|
  {
    var g := k.buddy.pages[p];
    if g.objUsed == 0 && k.pool[t].currPage != Some(p) then
      [Del(p)] + if k.pool[t].pageUsed >= RETURN_THRESHOLD then
                   FreeTrace(SetPage(k, p, g.(free := NULL, objAlloc := None, objUsed := 0)).buddy, p)
                 else [Add(p, Place(t, 2))]
    else []
  }

  function ObjFreeTrace(k: Heap, t: nat, p: nat, x: int): seq<ListOp>
    requires Sized(k) && t < |k.pool| && p < |k.buddy.pages|
  {
    GiveTrace(k, t, p) + SettleTrace(GiveBack(k, t, p, x), t, p)
  }

  function KfreeTrace(k: Heap, x: int): seq<ListOp>
    requires Sized(k)
  {
    var p := PhyAddrToPfn(x);
    if p >= |k.buddy.pages| then []
    else
      match k.buddy.pages[p].objAlloc
      case Some(t) => if t < |k.pool| then ObjFreeTrace(k, t, p, x) else []
      case None => FreeTrace(k.buddy, p)
  }

  lemma FullLeads(k: Heap, t: nat, p: nat, k': Heap)
    requires KInv(k) && t < |k.pool| && p < |k.objs| && p in k.pool[t].full
    requires k'.buddy.areas == k.buddy.areas
    requires var a := Unlink(k.pool[t].(objUsed := k.pool[t].objUsed - 1), p);
             k'.pool == k.pool[t := a.(partial := a.partial + [p])]
    ensures Leads(Table(k), [Del(p), Add(p, Place(t, 1))], Table(k'), |k.buddy.pages|)
  {
    var pool' := k.pool[t := Unlink(k.pool[t], p)];
    DelStep(k, t, 0, p, pool');
    AddStep(k.buddy.areas, pool', t, 1, p, |k.buddy.pages|);
    SameLists(pool'[t := Appended(pool'[t], 1, p)], k'.pool, t);
    LeadsOne(TableOf(k.buddy.areas, pool'), Add(p, Place(t, 1)), Table(k'), |k.buddy.pages|);
    LeadsCons(Table(k), Del(p), TableOf(k.buddy.areas, pool'), [Add(p, Place(t, 1))], Table(k'), |k.buddy.pages|);
    assert [Del(p)] + [Add(p, Place(t, 1))] == [Del(p), Add(p, Place(t, 1))];
  }

  /** A page that keeps objects, or is current, changes lists only when it was full. */
  lemma StayLeads(k: Heap, t: nat, p: nat, x: int)
    requires KInv(k) && p < |k.objs| && x in k.objs[p] && k.buddy.pages[p].objAlloc == Some(t) && t < |k.pool|
    requires k.buddy.pages[p].objUsed > 1 || k.pool[t].currPage == Some(p)
    ensures var k' := Settle(GiveBack(k, t, p, x), t, p);
            Leads(Table(k), ObjFreeTrace(k, t, p, x), Table(k'), |k.buddy.pages|)
  {
    var k' := GiveBack(k, t, p, x);
    assert Settle(k', t, p) == k' && SettleTrace(k', t, p) == [];
    assert ObjFreeTrace(k, t, p, x) == GiveTrace(k, t, p);
    if k.pool[t].objPerPage == k.buddy.pages[p].objUsed {
      PageIsFull(k, t, p);
      FullLeads(k, t, p, k');
    } else {
      SameLists(k.pool, k'.pool, t);
      LeadsNowhere(Table(k), |k.buddy.pages|);
    }
  }

  lemma PageIsFull(k: Heap, t: nat, p: nat)
    requires KInv(k) && p < |k.objs| && k.buddy.pages[p].objAlloc == Some(t) && t < |k.pool|
    requires k.pool[t].objPerPage == k.buddy.pages[p].objUsed
    ensures p in k.pool[t].full
  {
    assert PageOk(k, p);
    assert AllocatorOk(k.buddy.pages, t, k.pool[t]);
    PerPage(k.pool[t].objsize);
    InPlace(k.buddy.pages, t, k.pool[t], p);
  }

  lemma PageIsPartial(k: Heap, t: nat, p: nat)
    requires KInv(k) && p < |k.objs| && k.buddy.pages[p].objAlloc == Some(t) && t < |k.pool|
    requires k.buddy.pages[p].objUsed == 1 && k.pool[t].currPage != Some(p) && 1 < k.pool[t].objPerPage
    ensures p in k.pool[t].partial
  {
    assert AllocatorOk(k.buddy.pages, t, k.pool[t]);
    InPlace(k.buddy.pages, t, k.pool[t], p);
  }

  /** The last object of a page that is not current. */
  lemma LastLeads(k: Heap, t: nat, p: nat, x: int)
    requires KInv(k) && p < |k.objs| && x in k.objs[p] && k.buddy.pages[p].objAlloc == Some(t) && t < |k.pool|
    requires k.buddy.pages[p].objUsed <= 1 && k.pool[t].currPage != Some(p)
    ensures var k' := Settle(GiveBack(k, t, p, x), t, p);
            Leads(Table(k), ObjFreeTrace(k, t, p, x), Table(k'), |k.buddy.pages|)
  {
    LastObject(k, t, p, x);
    PageIsPartial(k, t, p);
    SettleLast(k, t, p, x);
    var k', a := Settle(GiveBack(k, t, p, x), t, p), k.pool[t];
    var g := k.buddy.pages[p].(free := NULL, objAlloc := None, objUsed := 0);
    LastTrace(k, t, p, x);
    if a.pageUsed < RETURN_THRESHOLD {
      EmptyLeads(k, t, p, k');
    } else {
      HandBackLeads(k, t, p, g, k');
    }
  }

  lemma LastTrace(k: Heap, t: nat, p: nat, x: int)
    requires Sized(k) && p < |k.objs| && t < |k.pool| && k.buddy.pages[p].objUsed == 1 && k.pool[t].currPage != Some(p)
    requires 1 < k.pool[t].objPerPage && Demote(k.pool[t], p, 0) == k.pool[t].(objUsed := k.pool[t].objUsed - 1)
    ensures var g := k.buddy.pages[p].(free := NULL, objAlloc := None, objUsed := 0);
            ObjFreeTrace(k, t, p, x) ==
            [Del(p)] + if k.pool[t].pageUsed >= RETURN_THRESHOLD then FreeTrace(SetPage(k, p, g).buddy, p)
              else [Add(p, Place(t, 2))]
  {
    var g := k.buddy.pages[p].(free := NULL, objAlloc := None, objUsed := 0);
    var k1 := GiveBack(k, t, p, x);
    assert SetPage(k1, p, g).buddy == SetPage(k, p, g).buddy;
    assert GiveTrace(k, t, p) == [];
  }

  lemma EmptyLeads(k: Heap, t: nat, p: nat, k': Heap)
    requires KInv(k) && t < |k.pool| && p < |k.objs| && p in k.pool[t].partial
    requires k'.buddy.areas == k.buddy.areas
    requires var a := k.pool[t].(objUsed := k.pool[t].objUsed - 1);
             k'.pool == k.pool[t := Unlink(a, p).(empty := Unlink(a, p).empty + [p])]
    ensures Leads(Table(k), [Del(p)] + [Add(p, Place(t, 2))], Table(k'), |k.buddy.pages|)
  {
    var pool' := k.pool[t := Unlink(k.pool[t], p)];
    DelStep(k, t, 1, p, pool');
    AddStep(k.buddy.areas, pool', t, 2, p, |k.buddy.pages|);
    SameLists(pool'[t := Appended(pool'[t], 2, p)], k'.pool, t);
    LeadsOne(TableOf(k.buddy.areas, pool'), Add(p, Place(t, 2)), Table(k'), |k.buddy.pages|);
    LeadsCons(Table(k), Del(p), TableOf(k.buddy.areas, pool'), [Add(p, Place(t, 2))], Table(k'), |k.buddy.pages|);
  }

  /** Once p is unlinked, the slab lists hold other live pages. */
  lemma OthersLive(k: Heap, pool': seq<ObjAllocator>, t: nat, p: nat, l: nat, x: nat)
    requires KInv(k) && t < |k.pool| && pool' == k.pool[t := Unlink(k.pool[t], p)]
    requires Unlinked(TableOf(k.buddy.areas, pool'), p) && l < 3 * |pool'| && x in SlabTable(pool')[l]
    ensures x in k.buddy.live && x != p
  {
    assert SlabTable(pool')[l] == TableOf(k.buddy.areas, pool')[|FreeTable(k.buddy.areas)| + l];
    assert x in SlabTable(k.pool)[l];
    SlabListed(k, l, x);
  }

  lemma HandBackLeads(k: Heap, t: nat, p: nat, g: Page, k': Heap)
    requires KInv(k) && t < |k.pool| && p < |k.objs| && p in k.pool[t].partial && p in k.buddy.live
    requires g == k.buddy.pages[p].(free := NULL, objAlloc := None, objUsed := 0)
    requires Numbered(SetPage(k, p, g).buddy) && k'.buddy == FreeBlock(SetPage(k, p, g).buddy, p)
    requires var a := k.pool[t].(objUsed := k.pool[t].objUsed - 1);
             k'.pool == k.pool[t := Unlink(a, p).(pageUsed := a.pageUsed - 1)]
    ensures Leads(Table(k), [Del(p)] + FreeTrace(SetPage(k, p, g).buddy, p), Table(k'), |k.buddy.pages|)
  {
    var b, pool' := SetPage(k, p, g).buddy, k.pool[t := Unlink(k.pool[t], p)];
    DelStep(k, t, 1, p, pool');
    SetPageInv(k.buddy, p, g);
    HandBackBuddy(k, b, pool', t, p);
    SameLists(pool', k'.pool, t);
    LeadsCons(Table(k), Del(p), TableOf(k.buddy.areas, pool'), FreeTrace(b, p), Table(k'), |k.buddy.pages|);
  }

  lemma HandBackBuddy(k: Heap, b: Buddy.State, pool': seq<ObjAllocator>, t: nat, p: nat)
    requires KInv(k) && t < |k.pool| && pool' == k.pool[t := Unlink(k.pool[t], p)]
    requires Unlinked(TableOf(k.buddy.areas, pool'), p)
    requires Inv(b) && b.live == k.buddy.live && b.areas == k.buddy.areas && p in b.live && p < |b.pages|
    ensures Leads(TableOf(b.areas, pool'), FreeTrace(b, p), TableOf(FreeBlock(b, p).areas, pool'), |b.pages|)
  {
    forall l, x | 0 <= l < 3 * |pool'| && x in SlabTable(pool')[l]
      ensures x in b.live && x != p
    {
      OthersLive(k, pool', t, p, l, x);
    }
    FreeTableLeads(b, pool', p);
  }

  lemma ObjFreeLeads(k: Heap, t: nat, p: nat, x: int)
    requires KInv(k) && p < |k.objs| && x in k.objs[p] && k.buddy.pages[p].objAlloc == Some(t) && t < |k.pool|
    ensures Leads(Table(k), ObjFreeTrace(k, t, p, x), Table(Settle(GiveBack(k, t, p, x), t, p)), |k.buddy.pages|)
  {
    if k.buddy.pages[p].objUsed > 1 || k.pool[t].currPage == Some(p) { StayLeads(k, t, p, x); }
    else { LastLeads(k, t, p, x); }
  }

  lemma KfreeTraceIs(k: Heap, z: Piece)
    requires KInv(k) && IsLive(k, z)
    ensures match z
            case Obj(p, x) =>
              && k.buddy.pages[p].objAlloc.Some? && k.buddy.pages[p].objAlloc.value < |k.pool|
              && var t := k.buddy.pages[p].objAlloc.value;
              && KfreeTrace(k, x) == ObjFreeTrace(k, t, p, x)
              && Kfree(k, x) == Settle(GiveBack(k, t, p, x), t, p)
            case Block(h) =>
              var x := k.buddy.pages[h].phyAddr;
              KfreeTrace(k, x) == FreeTrace(k.buddy, h) && Kfree(k, x) == k.(buddy := FreeBlock(k.buddy, h))
  {
    KfreeDispatches(k, z);
    if z.Obj? { ObjFreeUnfolds(k, z.page, z.addr); }
  }

  lemma KfreeLeads(k: Heap, z: Piece)
    requires KInv(k) && IsLive(k, z)
    ensures Leads(Table(k), KfreeTrace(k, Lo(k, z)), Table(Kfree(k, Lo(k, z))), |k.buddy.pages|)
  {
    KfreeTraceIs(k, z);
    match z {
      case Obj(p, x) => ObjFreeLeads(k, k.buddy.pages[p].objAlloc.value, p, x);
      case Block(h) => BlockFreeLeads(k, h);
    }
  }

  lemma BlockFreeLeads(k: Heap, h: nat)
    requires KInv(k) && IsLive(k, Block(h))
    ensures Leads(Table(k), FreeTrace(k.buddy, h), TableOf(FreeBlock(k.buddy, h).areas, k.pool), |k.buddy.pages|)
  {
    forall l, x | 0 <= l < 3 * |k.pool| && x in SlabTable(k.pool)[l]
      ensures x in k.buddy.live && x != h
    {
      SlabListed(k, l, x);
    }
    FreeTableLeads(k.buddy, k.pool, h);
  }

  // ---------------------------------------------------------------- whole runs, and the heap

  /** The list calls that a client call makes. */
  function ServeTrace(w: World, c: Call): seq<ListOp>
    requires Sized(w.heap)
  {
    match c
    case KmallocCall(size) => KmallocTrace(w.heap, size)
    case ObjAllocateCall(token) => ObjAllocateTrace(w.heap, token)
    case KfreeCall(i) => if i < |w.grants| then KfreeTrace(w.heap, w.grants[i].addr) else []
    case _ => []
  }

  lemma RegisterTable(k: Heap, objsize: int)
    requires KInv(k)
    ensures Table(WithPool(k, Register(k.pool, objsize).0)) == Table(k)
  {
    RegisterFromIs(k.pool, Clamp(objsize), 0);
    var (pool', r) := Register(k.pool, objsize);
    if r != -1 {
      assert AllocatorOk(k.buddy.pages, r, k.pool[r]);
      SameLists(k.pool, pool', r);
    }
  }

  /** In every run each list_add_tail meets a page that is linked nowhere, each list_del a page that is
      linked in exactly one list, and together they turn the lists before a call into those after it. */
  lemma ServeLeads(w: World, c: Call, zs: seq<Piece>, writeBack: bool)
    requires WorldOk(w, zs, writeBack) && Legal(w, c, writeBack)
    ensures Leads(Table(w.heap), ServeTrace(w, c), Table(Serve(w, c, writeBack).heap), |w.heap.buddy.pages|)
  {
    match c {
      case KmallocCall(size) => KmallocLeads(w.heap, size, writeBack);
      case ObjAllocateCall(token) => ObjAllocateLeads(w.heap, token, writeBack);
      case KfreeCall(i) =>
        assert Backs(w.heap, zs[i], w.grants[i]);
        KfreeLeads(w.heap, zs[i]);
      case RegisterCall(objsize) =>
        RegisterTable(w.heap, objsize);
        LeadsNowhere(Table(w.heap), |w.heap.buddy.pages|);
      case PokeCall(_, _, _) => LeadsNowhere(Table(w.heap), |w.heap.buddy.pages|);
    }
  }

  /** The lists that INIT_LIST_HEAD leaves. */
  function NoLists(): seq<seq<nat>> { seq(MAX_ORDER + 1 + 3 * MAX_OBJ_ALLOCATOR_NUM, _ => []) }

  /** The maximal blocks that free_area_init has pushed after i turns. */
  function Pushed(i: nat): (r: seq<nat>)
    ensures |r| == i && forall j :: 0 <= j < i ==> r[j] == j * MAX_ORDER_SIZE
  {
    seq(i, j requires 0 <= j => j * MAX_ORDER_SIZE)
  }

  function BootTrace(m: nat): (r: seq<ListOp>)
    ensures |r| == m && forall i :: 0 <= i < m ==> r[i] == Add(i * MAX_ORDER_SIZE, MAX_ORDER)
  {
    seq(m, i requires 0 <= i => Add(i * MAX_ORDER_SIZE, MAX_ORDER))
  }

  lemma PushStep(i: nat, n: nat)
    requires i * MAX_ORDER_SIZE < n
    ensures Step(NoLists()[MAX_ORDER := Pushed(i)], Add(i * MAX_ORDER_SIZE, MAX_ORDER),
            NoLists()[MAX_ORDER := Pushed(i + 1)], n)
  {
    var t := NoLists()[MAX_ORDER := Pushed(i)];
    assert i * MAX_ORDER_SIZE !in Pushed(i);
    assert Pushed(i) + [i * MAX_ORDER_SIZE] == Pushed(i + 1);
    assert t[MAX_ORDER := Pushed(i + 1)] == NoLists()[MAX_ORDER := Pushed(i + 1)];
  }

  lemma IdleLists(pages: seq<Page>, t: nat, a: ObjAllocator)
    requires AllocatorOk(pages, t, a) && forall p :: 0 <= p < |pages| ==> pages[p].objAlloc == None
    ensures a.full == [] && a.partial == [] && a.empty == []
  {
    if a.full != [] { InPlace(pages, t, a, a.full[0]); }
    if a.partial != [] { InPlace(pages, t, a, a.partial[0]); }
    if a.empty != [] { InPlace(pages, t, a, a.empty[0]); }
  }

  lemma BootedTable(m: nat)
    requires MAX_ORDER_SIZE * m < MAX_PFN
    ensures Table(Booted(m)) == NoLists()[MAX_ORDER := Pushed(m)]
  {
    BootedOk(m, true);
    var k := Booted(m);
    forall i | 0 <= i < 3 * |k.pool| ensures SlabTable(k.pool)[i] == [] {
      assert AllocatorOk(k.buddy.pages, i / 3, k.pool[i / 3]);
      IdleLists(k.buddy.pages, i / 3, k.pool[i / 3]);
    }
    assert k.buddy.areas[MAX_ORDER].freelist == Pushed(m);
  }

  /** mm_init, from heads initialised by INIT_LIST_HEAD. */
  lemma BootLeads(m: nat)
    requires MAX_ORDER_SIZE * m < MAX_PFN
    ensures Leads(NoLists(), BootTrace(m), Table(Booted(m)), MAX_ORDER_SIZE * m)
  {
    BootedTable(m);
    var ts := seq(m + 1, i requires 0 <= i => NoLists()[MAX_ORDER := Pushed(i)]);
    forall i | 0 <= i < m ensures Step(ts[i], BootTrace(m)[i], ts[i + 1], MAX_ORDER_SIZE * m) {
      PushStep(i, MAX_ORDER_SIZE * m);
    }
    assert Path(ts, BootTrace(m), MAX_ORDER_SIZE * m);
    assert ts[0] == NoLists();
  }

  /** All list calls of a run, from mm_init on. */
  function RunTrace(m: nat, calls: seq<Call>, writeBack: bool): seq<ListOp>
    requires MAX_ORDER_SIZE * m < MAX_PFN
  {
    if calls == [] then BootTrace(m)
    else RunTrace(m, Init(calls), writeBack) + ServeTrace(After(m, Init(calls), writeBack), Last(calls))
  }

  /** Over every run from mm_init all list calls are possible and lead to the lists of the model. */
  lemma {:induction false} EveryRunLists(m: nat, calls: seq<Call>, writeBack: bool)
    requires MAX_ORDER_SIZE * m < MAX_PFN && LegalRun(m, calls, writeBack)
    ensures Leads(NoLists(), RunTrace(m, calls, writeBack), Table(After(m, calls, writeBack).heap), MAX_ORDER_SIZE * m)
    decreases |calls|
  {
    if calls == [] {
      BootLeads(m);
    } else {
      EveryRunLists(m, Init(calls), writeBack);
      RunPages(m, Init(calls), writeBack);
      var zs := RunKeeps(m, Init(calls), writeBack);
      var w := After(m, Init(calls), writeBack);
      ServeLeads(w, Last(calls), zs, writeBack);
      LeadsOn(NoLists(), RunTrace(m, Init(calls), writeBack), Table(w.heap), ServeTrace(w, Last(calls)),
              Table(Serve(w, Last(calls), writeBack).heap), MAX_ORDER_SIZE * m);
    }
  }

  lemma {:induction false} RunPages(m: nat, calls: seq<Call>, writeBack: bool)
    requires MAX_ORDER_SIZE * m < MAX_PFN
    ensures |After(m, calls, writeBack).heap.buddy.pages| == MAX_ORDER_SIZE * m
    decreases |calls|
  {
    if calls != [] {
      RunPages(m, Init(calls), writeBack);
      ServePages(After(m, Init(calls), writeBack), Last(calls), writeBack);
    }
  }

  lemma ServePages(w: World, c: Call, writeBack: bool)
    requires Sized(w.heap)
    ensures |Serve(w, c, writeBack).heap.buddy.pages| == |w.heap.buddy.pages|
  {
    match c {
      case KmallocCall(size) =>
      case ObjAllocateCall(token) =>
      case KfreeCall(i) =>
      case RegisterCall(objsize) =>
      case PokeCall(_, _, _) =>
    }
  }

  /** One list call on the heap. */
  method Perform(nodes: seq<Lists.ListHead>, heads: seq<Lists.ListHead>, op: ListOp, ghost t: seq<seq<nat>>,
                 ghost t': seq<seq<nat>>)
    requires ListTable.Represents(nodes, heads, t) && Step(t, op, t', |nodes|)
    modifies nodes, heads
    ensures ListTable.Represents(nodes, heads, t')
  {
    match op {
      case Add(p, l) => ListTable.AddTail(nodes, heads, t, p, l);
      case Del(p) =>
        ghost var l: nat :| LinkedAt(t, p, l);
        ghost var i :| 0 <= i < |t[l]| && t[l][i] == p;
        ListTable.DelIsRemove(nodes, heads, t, l, i);
        assert t' == t[l := ListTable.Without(t[l], i)];
        ListTable.Del(nodes, heads, t, p, l, i);
    }
  }

  /** The list calls in turn: linked lists that stand for the table before stand for the table after. */
  method Replay(nodes: seq<Lists.ListHead>, heads: seq<Lists.ListHead>, ops: seq<ListOp>, ghost t: seq<seq<nat>>,
                ghost t': seq<seq<nat>>)
    requires ListTable.Represents(nodes, heads, t) && Leads(t, ops, t', |nodes|)
    modifies nodes, heads
    ensures ListTable.Represents(nodes, heads, t')
  {
    ghost var ts :| Path(ts, ops, |nodes|) && ts[0] == t && ts[|ops|] == t';
    for i := 0 to |ops|
      invariant ListTable.Represents(nodes, heads, ts[i])
    {
      assert Step(ts[i], ops[i], ts[i + 1], |nodes|);
      Perform(nodes, heads, ops[i], ts[i], ts[i + 1]);
    }
  }

  /** INIT_LIST_HEAD on every list head. */
  method InitHeads(nodes: seq<Lists.ListHead>, heads: seq<Lists.ListHead>)
    requires ListTable.Separate(nodes, heads)
    modifies heads
    ensures ListTable.Represents(nodes, heads, seq(|heads|, _ => []))
  {
    for i := 0 to |heads|
      invariant forall j :: 0 <= j < i ==> Lists.Ring(heads[j], [])
    {
      Lists.InitListHead(heads[i]);
      assert forall j :: 0 <= j < i ==> heads[j] != heads[i];
    }
    forall k | 0 <= k < |heads|
      ensures Lists.Ring(heads[k], ListTable.NodesOf(nodes, []))
    {
      assert ListTable.NodesOf(nodes, []) == [];
    }
  }

  /** The linked lists of include/list.h, set up by INIT_LIST_HEAD and changed by the list calls of any run,
      stand for the lists of the model at its end. */
  method LinkedListsOf(m: nat, calls: seq<Call>, writeBack: bool, nodes: seq<Lists.ListHead>,
                       heads: seq<Lists.ListHead>)
    requires MAX_ORDER_SIZE * m < MAX_PFN && LegalRun(m, calls, writeBack)
    requires ListTable.Separate(nodes, heads) && |nodes| == MAX_ORDER_SIZE * m && |heads| == |NoLists()|
    modifies nodes, heads
    ensures ListTable.Represents(nodes, heads, Table(After(m, calls, writeBack).heap))
  {
    InitHeads(nodes, heads);
    assert seq(|heads|, _ => []) == NoLists();
    EveryRunLists(m, calls, writeBack);
    Replay(nodes, heads, RunTrace(m, calls, writeBack), NoLists(), Table(After(m, calls, writeBack).heap));
  }
}
