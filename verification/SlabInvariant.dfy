/** The bookkeeping invariant of the object allocators, for the code as it stands and for the
    repaired pop alike: every slab page is in exactly one place, the lists mean what they say and
    the counters are sums over pages. */
module SlabInvariant {
  import opened Seqs
  import opened Buddy
  import opened BuddyInvariant
  import opened BuddyRuns
  import opened Slab

  function Curr(a: ObjAllocator): seq<nat>
  {
    if a.currPage.Some? then [a.currPage.value] else []
  }

  /** In how many of the places that a page of this allocator can be in page p is. */
  function Places(a: ObjAllocator, p: nat): nat
  {
    Occurs(a.full, p) + Occurs(a.partial, p) + Occurs(a.empty, p) + Occurs(Curr(a), p)
  }

  function UsedOn(pages: seq<Page>, p: nat): int
  {
    if p < |pages| then pages[p].objUsed else 0
  }

  function SumUsed(pages: seq<Page>, s: seq<nat>): int
  {
    if s == [] then 0 else UsedOn(pages, s[0]) + SumUsed(pages, s[1..])
  }

  predicate OwnedBy(pages: seq<Page>, t: nat, p: nat)
  {
    p < |pages| && pages[p].objAlloc == Some(t)
  }

  /** Every page of allocator t is in exactly one place, and nothing else is in any. */
  ghost predicate Placed(pages: seq<Page>, t: nat, a: ObjAllocator)
  {
    forall p: nat :: Places(a, p) == if OwnedBy(pages, t, p) then 1 else 0
  }

  /** What being in a list says about a page. */
  ghost predicate Kinds(pages: seq<Page>, a: ObjAllocator)
  {
    && (forall p :: p in a.full ==> p < |pages| && pages[p].objUsed == a.objPerPage)
    && (forall p :: p in a.partial ==> p < |pages| && 0 < pages[p].objUsed < a.objPerPage)
    && (forall p :: p in a.empty ==> p < |pages| && pages[p].objUsed == 0)
    && (forall p :: p in Curr(a) ==> p < |pages| && 0 <= pages[p].objUsed < a.objPerPage)
  }

  ghost predicate Counted(pages: seq<Page>, a: ObjAllocator)
  {
    && a.pageUsed == |a.full| + |a.partial| + |a.empty| + |Curr(a)|
    && a.objUsed == SumUsed(pages, a.full) + SumUsed(pages, a.partial) + SumUsed(pages, a.empty)
      + SumUsed(pages, Curr(a))
  }

  ghost predicate AllocatorOk(pages: seq<Page>, t: nat, a: ObjAllocator)
  {
    && (a.objsize == 0 ||
        (MIN_ALLOCATED_OBJ_SIZE <= a.objsize <= MAX_ALLOCATED_OBJ_SIZE && a.objPerPage == PAGE_SIZE / a.objsize))
    && (a.objsize == 0 ==> a == UNREGISTERED)
    && Placed(pages, t, a)
    && Kinds(pages, a)
    && Counted(pages, a)
  }

  /** x is an address inside page frame p. */
  predicate InFrame(pages: seq<Page>, p: nat, x: int)
    requires p < |pages|
  {
    pages[p].phyAddr <= x < pages[p].phyAddr + PAGE_SIZE
  }

  ghost predicate PageOk(k: Heap, p: nat)
    requires Sized(k) && p < |k.objs|
  {
    var g := k.buddy.pages[p];
    match g.objAlloc
    case None => k.objs[p] == multiset{}
    case Some(t) =>
      && t < |k.pool| && k.pool[t].objsize != 0
      && p in k.buddy.live && k.buddy.live[p] == 0
      && g.objUsed == |k.objs[p]|
      && (forall x :: x in k.objs[p] ==> InFrame(k.buddy.pages, p, x))
      && (g.free == NULL || InFrame(k.buddy.pages, p, g.free))
  }

  ghost predicate PoolOk(k: Heap)
  {
    Sized(k) && forall t :: 0 <= t < |k.pool| ==> AllocatorOk(k.buddy.pages, t, k.pool[t])
  }

  ghost predicate PagesOk(k: Heap)
  {
    Sized(k) && forall p :: 0 <= p < |k.objs| ==> PageOk(k, p)
  }

  ghost predicate KInv(k: Heap)
  {
    Inv(k.buddy) && PoolOk(k) && PagesOk(k)
  }

  // ---------------------------------------------------------------- lists and sums

  lemma {:induction false} SumFrame(pages: seq<Page>, pages': seq<Page>, s: seq<nat>)
    requires forall p :: p in s ==> UsedOn(pages', p) == UsedOn(pages, p)
    ensures SumUsed(pages', s) == SumUsed(pages, s)
  {
    if s != [] { SumFrame(pages, pages', s[1..]); }
  }

  lemma {:induction false} SumSnoc(pages: seq<Page>, s: seq<nat>, p: nat)
    ensures SumUsed(pages, s + [p]) == SumUsed(pages, s) + UsedOn(pages, p)
  {
    if s != [] {
      assert (s + [p])[1..] == s[1..] + [p];
      SumSnoc(pages, s[1..], p);
    }
  }

  lemma {:induction false} SumRemove(pages: seq<Page>, s: seq<nat>, p: nat)
    ensures SumUsed(pages, Remove(s, p)) == SumUsed(pages, s) - if p in s then UsedOn(pages, p) else 0
  {
    if s != [] && s[0] != p {
      assert s == [s[0]] + s[1..];
      SumRemove(pages, s[1..], p);
      assert Remove(s, p)[1..] == Remove(s[1..], p);
    }
  }

  lemma InPlace(pages: seq<Page>, t: nat, a: ObjAllocator, p: nat)
    requires Placed(pages, t, a)
    ensures p in a.full || p in a.partial || p in a.empty || p in Curr(a) <==> OwnedBy(pages, t, p)
    ensures Occurs(a.full, p) + Occurs(a.partial, p) + Occurs(a.empty, p) + Occurs(Curr(a), p) <= 1
  {
    assert Places(a, p) <= 1;
  }

  /** An allocator none of whose pages has changed is as it was. */
  lemma AllocatorFrame(pages: seq<Page>, pages': seq<Page>, t: nat, a: ObjAllocator)
    requires AllocatorOk(pages, t, a) && |pages'| == |pages|
    requires forall p: nat :: p < |pages| && OwnedBy(pages, t, p) ==> pages'[p].objUsed == pages[p].objUsed
    requires forall p: nat :: p < |pages| ==> (OwnedBy(pages', t, p) <==> OwnedBy(pages, t, p))
    ensures AllocatorOk(pages', t, a)
  {
    forall p: nat | p in a.full || p in a.partial || p in a.empty || p in Curr(a)
      ensures OwnedBy(pages, t, p)
    {
      InPlace(pages, t, a, p);
    }
    SumFrame(pages, pages', a.full);
    SumFrame(pages, pages', a.partial);
    SumFrame(pages, pages', a.empty);
    SumFrame(pages, pages', Curr(a));
  }

  // ---------------------------------------------------------------- an allocator's moves

  lemma MovePlaced(pages: seq<Page>, t: nat, a: ObjAllocator, b: ObjAllocator)
    requires Placed(pages, t, a) && forall q: nat :: Places(b, q) == Places(a, q)
    ensures Placed(pages, t, b)
  {
  }

  /** Lines 236-237 and 250: a partial page becomes current. */
  lemma ReusePartial(pages: seq<Page>, t: nat, a: ObjAllocator)
    requires AllocatorOk(pages, t, a) && a.currPage.None? && a.partial != []
    ensures AllocatorOk(pages, t, a.(partial := a.partial[1..], currPage := Some(a.partial[0])))
  {
    var b := a.(partial := a.partial[1..], currPage := Some(a.partial[0]));
    forall q: nat ensures Places(b, q) == Places(a, q) { TailOccurs(a.partial, q); }
    MovePlaced(pages, t, a, b);
    FirstSum(pages, a.partial);
    assert Curr(b) == [a.partial[0]] && Curr(a) == [];
    assert Counted(pages, b);
    assert Kinds(pages, b);
  }

  /** Lines 240-241 and 250: an empty page becomes current. */
  lemma ReuseEmpty(pages: seq<Page>, t: nat, a: ObjAllocator)
    requires AllocatorOk(pages, t, a) && a.currPage.None? && a.empty != []
    ensures AllocatorOk(pages, t, a.(empty := a.empty[1..], currPage := Some(a.empty[0])))
  {
    var b := a.(empty := a.empty[1..], currPage := Some(a.empty[0]));
    forall q: nat ensures Places(b, q) == Places(a, q) { TailOccurs(a.empty, q); }
    MovePlaced(pages, t, a, b);
    FirstSum(pages, a.empty);
    assert Curr(b) == [a.empty[0]] && Curr(a) == [];
    assert Counted(pages, b);
    PerPage(a.objsize);
    assert Kinds(pages, b);
  }

  lemma SumOne(pages: seq<Page>, p: nat)
    ensures SumUsed(pages, [p]) == UsedOn(pages, p)
  {
    assert [p][1..] == [];
    assert SumUsed(pages, []) == 0;
  }

  lemma FirstSum(pages: seq<Page>, s: seq<nat>)
    requires s != []
    ensures SumUsed(pages, [s[0]]) == UsedOn(pages, s[0])
    ensures SumUsed(pages, s) == SumUsed(pages, [s[0]]) + SumUsed(pages, s[1..])
  {
    SumOne(pages, s[0]);
  }

  lemma PerPage(objsize: int)
    requires MIN_ALLOCATED_OBJ_SIZE <= objsize <= MAX_ALLOCATED_OBJ_SIZE
    ensures PAGE_SIZE / objsize >= 2
    ensures objsize * (PAGE_SIZE / objsize) <= PAGE_SIZE
  {
    var q := PAGE_SIZE / objsize;
    assert PAGE_SIZE == objsize * q + PAGE_SIZE % objsize;
  }

  /** No page other than p has changed its owner or its object count. */
  ghost predicate OnlyPage(pages: seq<Page>, pages': seq<Page>, p: nat)
  {
    && p < |pages| == |pages'|
    && forall q :: 0 <= q < |pages| && q != p ==>
         pages'[q].objUsed == pages[q].objUsed && pages'[q].objAlloc == pages[q].objAlloc
  }

  lemma SumOthers(pages: seq<Page>, pages': seq<Page>, s: seq<nat>, p: nat)
    requires OnlyPage(pages, pages', p) && p !in s
    ensures SumUsed(pages', s) == SumUsed(pages, s)
  {
    SumFrame(pages, pages', s);
  }

  /** Lines 244-250: a page fresh from the buddy allocator becomes current. */
  lemma AdoptPage(pages: seq<Page>, pages': seq<Page>, t: nat, a: ObjAllocator, p: nat)
    requires AllocatorOk(pages, t, a) && a.objsize != 0 && a.currPage.None? && OnlyPage(pages, pages', p)
    requires pages[p].objAlloc == None && pages'[p].objAlloc == Some(t) && pages'[p].objUsed == 0
    ensures AllocatorOk(pages', t, a.(pageUsed := a.pageUsed + 1, currPage := Some(p)))
  {
    var b := a.(pageUsed := a.pageUsed + 1, currPage := Some(p));
    InPlace(pages, t, a, p);
    assert Curr(b) == [p] && Curr(a) == [];
    forall q: nat ensures Places(b, q) == if OwnedBy(pages', t, q) then 1 else 0 {
      assert Places(a, q) == if OwnedBy(pages, t, q) then 1 else 0;
      assert Places(b, q) == Places(a, q) + if q == p then 1 else 0;
    }
    PerPage(a.objsize);
    SumOthers(pages, pages', a.full, p);
    SumOthers(pages, pages', a.partial, p);
    SumOthers(pages, pages', a.empty, p);
    SumOne(pages', p);
  }

  /** The object count of page p has changed, its owner has not. */
  ghost predicate OnlyUsed(pages: seq<Page>, pages': seq<Page>, p: nat)
  {
    OnlyPage(pages, pages', p) && pages'[p].objAlloc == pages[p].objAlloc
  }

  lemma PlacedFrame(pages: seq<Page>, pages': seq<Page>, t: nat, a: ObjAllocator, b: ObjAllocator, p: nat)
    requires Placed(pages, t, a) && OnlyUsed(pages, pages', p) && forall q: nat :: Places(b, q) == Places(a, q)
    ensures Placed(pages', t, b)
  {
    forall q: nat ensures Places(b, q) == if OwnedBy(pages', t, q) then 1 else 0 {
      assert Places(a, q) == if OwnedBy(pages, t, q) then 1 else 0;
    }
  }

  /** Lines 266-267: one more object on the current page, which has room left. */
  lemma TakeStays(pages: seq<Page>, pages': seq<Page>, t: nat, a: ObjAllocator, p: nat)
    requires AllocatorOk(pages, t, a) && a.currPage == Some(p) && OnlyUsed(pages, pages', p)
    requires pages'[p].objUsed == pages[p].objUsed + 1 != a.objPerPage
    ensures AllocatorOk(pages', t, a.(objUsed := a.objUsed + 1))
  {
    var b := a.(objUsed := a.objUsed + 1);
    assert Curr(a) == [p] == Curr(b);
    InPlace(pages, t, a, p);
    assert forall q: nat :: Places(b, q) == Places(a, q);
    PlacedFrame(pages, pages', t, a, b, p);
    SumOthers(pages, pages', a.full, p);
    SumOthers(pages, pages', a.partial, p);
    SumOthers(pages, pages', a.empty, p);
    SumOne(pages, p);
    SumOne(pages', p);
  }

  /** Lines 266-273: the current page becomes full. */
  lemma TakeFills(pages: seq<Page>, pages': seq<Page>, t: nat, a: ObjAllocator, p: nat)
    requires AllocatorOk(pages, t, a) && a.currPage == Some(p) && OnlyUsed(pages, pages', p)
    requires pages'[p].objUsed == pages[p].objUsed + 1 == a.objPerPage
    ensures AllocatorOk(pages', t, a.(objUsed := a.objUsed + 1, full := a.full + [p], currPage := None))
  {
    var b := a.(objUsed := a.objUsed + 1, full := a.full + [p], currPage := None);
    assert Curr(a) == [p] && Curr(b) == [];
    InPlace(pages, t, a, p);
    forall q: nat ensures Places(b, q) == Places(a, q) { SnocOccurs(a.full, p, q); }
    PlacedFrame(pages, pages', t, a, b, p);
    SumOthers(pages, pages', a.full, p);
    SumOthers(pages, pages', a.partial, p);
    SumOthers(pages, pages', a.empty, p);
    SumSnoc(pages', a.full, p);
    SumOne(pages, p);
  }

  lemma UnlinkAbsent(a: ObjAllocator, p: nat)
    ensures p !in a.full ==> Unlink(a, p).full == a.full
    ensures p !in a.partial ==> Unlink(a, p).partial == a.partial
    ensures p !in a.empty ==> Unlink(a, p).empty == a.empty
  {
  }

  /** The lists of b hold pages of the same lists of a, except p, which fits where it is. */
  lemma RemoveKinds(pages: seq<Page>, pages': seq<Page>, a: ObjAllocator, b: ObjAllocator, p: nat)
    requires Kinds(pages, a) && OnlyPage(pages, pages', p) && b.objPerPage == a.objPerPage && Curr(b) == Curr(a)
    requires forall q :: q in b.full ==> q in a.full && q != p
    requires forall q :: q in b.partial ==>
               (q in a.partial && q != p) || (q == p && 0 < pages'[p].objUsed < a.objPerPage)
    requires forall q :: q in b.empty ==> (q in a.empty && q != p) || (q == p && pages'[p].objUsed == 0)
    requires p !in Curr(a)
    ensures Kinds(pages', b)
  {
  }

  lemma FullToPartialSum(pages: seq<Page>, pages': seq<Page>, t: nat, a: ObjAllocator, p: nat)
    requires Placed(pages, t, a) && p in a.full && p !in a.partial && OnlyPage(pages, pages', p)
    ensures SumUsed(pages', Remove(a.full, p)) == SumUsed(pages, a.full) - UsedOn(pages, p)
    ensures SumUsed(pages', a.partial + [p]) == SumUsed(pages, a.partial) + UsedOn(pages', p)
    ensures p !in Remove(a.full, p)
  {
    InPlace(pages, t, a, p);
    RemoveOccurs(a.full, p, p);
    SumRemove(pages, a.full, p);
    SumOthers(pages, pages', Remove(a.full, p), p);
    SumOthers(pages, pages', a.partial, p);
    SumSnoc(pages', a.partial, p);
  }

  /** Lines 314-321: a full page becomes partial. */
  lemma FullToPartial(pages: seq<Page>, pages': seq<Page>, t: nat, a: ObjAllocator, p: nat)
    requires AllocatorOk(pages, t, a) && OwnedBy(pages, t, p) && OnlyUsed(pages, pages', p) && a.objsize != 0
    requires pages[p].objUsed == a.objPerPage && pages'[p].objUsed == a.objPerPage - 1
    ensures AllocatorOk(pages', t, Demote(a, p, pages'[p].objUsed))
    ensures a.currPage != Some(p) && pages'[p].objUsed > 0
  {
    var b := Demote(a, p, pages'[p].objUsed);
    PerPage(a.objsize);
    InPlace(pages, t, a, p);
    assert p in a.full && p !in a.partial && p !in a.empty && p !in Curr(a);
    UnlinkAbsent(a.(objUsed := a.objUsed - 1), p);
    assert b == a.(objUsed := a.objUsed - 1, full := Remove(a.full, p), partial := a.partial + [p]);
    forall q: nat ensures Places(b, q) == Places(a, q) {
      RemoveOccurs(a.full, p, q);
      SnocOccurs(a.partial, p, q);
    }
    PlacedFrame(pages, pages', t, a, b, p);
    FullToPartialSum(pages, pages', t, a, p);
    RemoveKinds(pages, pages', a, b, p);
    SumOthers(pages, pages', a.empty, p);
    SumOthers(pages, pages', Curr(a), p);
    RemoveOccurs(a.full, p, p);
    assert Counted(pages', b);
  }

  lemma PartialSum(pages: seq<Page>, pages': seq<Page>, t: nat, a: ObjAllocator, p: nat)
    requires Placed(pages, t, a) && p in a.partial && OnlyPage(pages, pages', p)
    ensures p !in Remove(a.partial, p)
    ensures SumUsed(pages', Remove(a.partial, p)) == SumUsed(pages, a.partial) - UsedOn(pages, p)
    ensures SumUsed(pages', a.partial) == SumUsed(pages, a.partial) - UsedOn(pages, p) + UsedOn(pages', p)
  {
    InPlace(pages, t, a, p);
    RemoveOccurs(a.partial, p, p);
    SumRemove(pages, a.partial, p);
    SumRemove(pages', a.partial, p);
    SumOthers(pages, pages', Remove(a.partial, p), p);
  }

  /** Lines 314-315: one object less on a page that stays where it is. */
  lemma GiveStays(pages: seq<Page>, pages': seq<Page>, t: nat, a: ObjAllocator, p: nat)
    requires AllocatorOk(pages, t, a) && OwnedBy(pages, t, p) && OnlyUsed(pages, pages', p)
    requires 0 < pages[p].objUsed < a.objPerPage && pages'[p].objUsed == pages[p].objUsed - 1
    requires pages'[p].objUsed > 0 || a.currPage == Some(p)
    ensures AllocatorOk(pages', t, a.(objUsed := a.objUsed - 1))
  {
    var b := a.(objUsed := a.objUsed - 1);
    InPlace(pages, t, a, p);
    assert forall q: nat :: Places(b, q) == Places(a, q);
    PlacedFrame(pages, pages', t, a, b, p);
    SumOthers(pages, pages', a.full, p);
    SumOthers(pages, pages', a.empty, p);
    if p in Curr(a) {
      SumOthers(pages, pages', a.partial, p);
      SumOne(pages, p);
      SumOne(pages', p);
    } else {
      SumOthers(pages, pages', Curr(a), p);
      PartialSum(pages, pages', t, a, p);
    }
  }

  /** Lines 325-342: the last object of a partial page is gone; the page becomes empty. */
  lemma PartialToEmpty(pages: seq<Page>, pages': seq<Page>, t: nat, a: ObjAllocator, p: nat)
    requires AllocatorOk(pages, t, a) && OwnedBy(pages, t, p) && OnlyUsed(pages, pages', p) && a.objsize != 0
    requires pages[p].objUsed == 1 && pages'[p].objUsed == 0 && a.currPage != Some(p)
    ensures var u := Unlink(a.(objUsed := a.objUsed - 1), p);
            AllocatorOk(pages', t, u.(empty := u.empty + [p]))
  {
    var a1 := a.(objUsed := a.objUsed - 1);
    var u := Unlink(a1, p);
    var b := u.(empty := u.empty + [p]);
    PerPage(a.objsize);
    InPlace(pages, t, a, p);
    assert p in a.partial && p !in a.full && p !in a.empty && p !in Curr(a);
    UnlinkAbsent(a1, p);
    assert b == a1.(partial := Remove(a.partial, p), empty := a.empty + [p]);
    forall q: nat ensures Places(b, q) == Places(a, q) {
      RemoveOccurs(a.partial, p, q);
      SnocOccurs(a.empty, p, q);
    }
    PlacedFrame(pages, pages', t, a, b, p);
    PartialSum(pages, pages', t, a, p);
    SumOthers(pages, pages', a.full, p);
    SumOthers(pages, pages', a.empty, p);
    SumSnoc(pages', a.empty, p);
    SumOthers(pages, pages', Curr(a), p);
    RemoveKinds(pages, pages', a, b, p);
    RemoveOccurs(a.partial, p, p);
    assert Counted(pages', b);
  }

  /** Lines 325-339: the page goes back to the buddy allocator. */
  lemma PartialToBuddy(pages: seq<Page>, pages': seq<Page>, t: nat, a: ObjAllocator, p: nat)
    requires AllocatorOk(pages, t, a) && OwnedBy(pages, t, p) && OnlyPage(pages, pages', p) && a.objsize != 0
    requires pages[p].objUsed == 1 && a.currPage != Some(p) && pages'[p].objAlloc == None
    ensures AllocatorOk(pages', t, Unlink(a.(objUsed := a.objUsed - 1), p).(pageUsed := a.pageUsed - 1))
  {
    var a1 := a.(objUsed := a.objUsed - 1);
    var b := Unlink(a1, p).(pageUsed := a.pageUsed - 1);
    PerPage(a.objsize);
    InPlace(pages, t, a, p);
    assert p in a.partial && p !in a.full && p !in a.empty && p !in Curr(a);
    UnlinkAbsent(a1, p);
    assert b == a1.(partial := Remove(a.partial, p), pageUsed := a.pageUsed - 1);
    forall q: nat ensures Places(b, q) == if OwnedBy(pages', t, q) then 1 else 0 {
      RemoveOccurs(a.partial, p, q);
      assert Places(a, q) == if OwnedBy(pages, t, q) then 1 else 0;
    }
    PartialSum(pages, pages', t, a, p);
    SumOthers(pages, pages', a.full, p);
    SumOthers(pages, pages', a.empty, p);
    SumOthers(pages, pages', Curr(a), p);
    RemoveKinds(pages, pages', a, b, p);
    RemoveOccurs(a.partial, p, p);
    assert Counted(pages', b);
  }

  // ---------------------------------------------------------------- the buddy layer leaves slab fields alone

  ghost predicate SameObjFields(s: Buddy.State, t: Buddy.State)
  {
    && |t.pages| == |s.pages|
    && forall x :: 0 <= x < |s.pages| ==>
         && t.pages[x].objUsed == s.pages[x].objUsed && t.pages[x].objAlloc == s.pages[x].objAlloc
         && t.pages[x].free == s.pages[x].free && t.pages[x].phyAddr == s.pages[x].phyAddr
  }

  lemma {:induction false} SplitObjFields(s: Buddy.State, p: nat, current: nat, order: nat)
    requires Numbered(s) && p < |s.pages| && current <= MAX_ORDER
    ensures SameObjFields(s, Split(s, p, current, order))
    decreases current
  {
    if current > order {
      var b := FindBuddyPfn(s.pages[p].pfn, current - 1);
      if b < |s.pages| { SplitObjFields(Push(s, b, current - 1), p, current - 1, order); }
    }
  }

  lemma AllocObjFields(s: Buddy.State, order: int)
    requires Numbered(s)
    ensures SameObjFields(s, Alloc(s, order).0)
  {
    if 0 <= order <= MAX_ORDER {
      AllocFromFirst(s, order, order);
      var i := FirstFree(s, order);
      if i <= MAX_ORDER {
        var p := s.areas[i].freelist[0];
        if p < |s.pages| { SplitObjFields(SetOrder(Pop(s, p, i), p, order), p, i, order); }
      }
    }
  }

  lemma {:induction false} FreeObjFields(s: Buddy.State, p: nat)
    requires Numbered(s) && p < |s.pages|
    ensures SameObjFields(s, Coalesce(s, p))
    decreases MAX_ORDER - s.pages[p].order
  {
    if Mergeable(s, p) {
      var (t, q) := Merge(s, p);
      assert SameObjFields(s, t);
      FreeObjFields(t, q);
    }
  }

  /** The buddy invariant does not depend on the slab fields. */
  lemma SetPageInv(s: Buddy.State, p: nat, g: Page)
    requires Inv(s) && p < |s.pages|
    requires g.order == s.pages[p].order && g.used == s.pages[p].used && g.pfn == s.pages[p].pfn &&
             g.phyAddr == s.pages[p].phyAddr
    ensures Inv(s.(pages := s.pages[p := g]))
  {
    var own :| InvBy(s, own);
    var t := s.(pages := s.pages[p := g]);
    SameOrdersTile(s, t, own);
    assert forall h: nat, k: nat :: IsFreeBlock(t, own, h, k) <==> IsFreeBlock(s, own, h, k);
    assert forall h: nat, k: nat :: IsLiveBlock(t, own, h, k) <==> IsLiveBlock(s, own, h, k);
    assert forall h: nat, k: nat :: Listed(t, k, h) <==> Listed(s, k, h);
    assert InvBy(t, own);
  }
}
