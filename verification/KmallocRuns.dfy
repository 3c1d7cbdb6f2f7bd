/** kmalloc and kfree as a whole: what is live at any time, that live ranges never overlap, and that
    every free reaches the layer that issued the address. */
module KmallocRuns {
  import opened Bits
  import opened Seqs
  import opened Buddy
  import opened BuddyInvariant
  import opened BuddyRuns
  import opened BuddyTheorems
  import opened Slab
  import opened SlabInvariant
  import opened SlabRuns

  /** Something handed out: an object of a slab page, or a block of pages. */
  datatype Piece = Obj(page: nat, addr: int) | Block(head: nat)

  predicate IsLive(k: Heap, z: Piece)
  {
    match z
    case Obj(p, x) => p < |k.objs| && x in k.objs[p]
    case Block(h) => h < |k.buddy.pages| && h in k.buddy.live && k.buddy.pages[h].objAlloc == None
  }

  function Lo(k: Heap, z: Piece): int
    requires IsLive(k, z)
  {
    match z
    case Obj(p, x) => x
    case Block(h) => k.buddy.pages[h].phyAddr
  }

  function Bytes(k: Heap, z: Piece): int
    requires IsLive(k, z)
  {
    match z
    case Obj(p, x) =>
      if p < |k.buddy.pages| && k.buddy.pages[p].objAlloc.Some? && k.buddy.pages[p].objAlloc.value < |k.pool| then
        k.pool[k.buddy.pages[p].objAlloc.value].objsize
      else 0
    case Block(h) => BlockBytes(k.buddy.live[h])
  }

  /** How many times z is handed out and not given back: an object can be handed out twice when the
      free list is not popped. */
  function Held(k: Heap, z: Piece): nat
  {
    match z
    case Obj(p, x) => if p < |k.objs| then k.objs[p][x] else 0
    case Block(h) => if IsLive(k, z) then 1 else 0
  }

  // ---------------------------------------------------------------- disjointness

  predicate Apart(k: Heap, y: Piece, z: Piece)
    requires IsLive(k, y) && IsLive(k, z)
  {
    Lo(k, y) + Bytes(k, y) <= Lo(k, z) || Lo(k, z) + Bytes(k, z) <= Lo(k, y)
  }

  /** The bytes of a live piece lie inside the page frames of a live block of the buddy allocator. */
  lemma PieceInBlock(k: Heap, z: Piece) returns (h: nat)
    requires KInv(k) && AllSlotted(k) && IsLive(k, z)
    ensures h in k.buddy.live && h < |k.buddy.pages| && k.buddy.live[h] <= MAX_ORDER
    ensures h == match z case Obj(p, x) => p case Block(b) => b
    ensures Bytes(k, z) > 0
    ensures k.buddy.pages[h].phyAddr <= Lo(k, z)
    ensures Lo(k, z) + Bytes(k, z) <= k.buddy.pages[h].phyAddr + Pow2(k.buddy.live[h]) * PAGE_SIZE
  {
    match z {
      case Obj(p, x) =>
        h := p;
        ObjInFrame(k, p, x);
      case Block(b) =>
        h := b;
        LiveBlocksDisjoint(k.buddy, b, b);
        Pow2Add(k.buddy.live[b], PAGE_SHIFT);
        assert Pow2(12) == 4096;
    }
  }

  lemma ObjInFrame(k: Heap, p: nat, x: int)
    requires KInv(k) && AllSlotted(k) && p < |k.objs| && x in k.objs[p]
    ensures p in k.buddy.live && k.buddy.live[p] == 0
    ensures k.buddy.pages[p].objAlloc.Some? && k.buddy.pages[p].objAlloc.value < |k.pool|
    ensures var g, a := k.buddy.pages[p], k.pool[k.buddy.pages[p].objAlloc.value];
            && a.objsize > 0 && IsSlot(g.phyAddr, a.objsize, a.objPerPage, x)
            && g.phyAddr <= x && x + a.objsize <= g.phyAddr + PAGE_SIZE
  {
    assert PageOk(k, p) && SlottedOk(k, p);
    var t := k.buddy.pages[p].objAlloc.value;
    assert AllocatorOk(k.buddy.pages, t, k.pool[t]);
    IsSlotInFrame(k.buddy.pages, p, k.pool[t].objsize, x);
  }

  lemma BlocksApart(s: Buddy.State, g: nat, h: nat)
    requires Inv(s) && Numbered(s) && g in s.live && h in s.live && g != h && g < |s.pages| && h < |s.pages|
    ensures s.pages[g].phyAddr + Pow2(s.live[g]) * PAGE_SIZE <= s.pages[h].phyAddr
         || s.pages[h].phyAddr + Pow2(s.live[h]) * PAGE_SIZE <= s.pages[g].phyAddr
  {
    LiveBlocksDisjoint(s, g, h);
  }

  /** Two different live pieces never share a byte, with or without the pop: what can go wrong without
      it is that one piece is handed out twice. */
  lemma LivePiecesApart(k: Heap, y: Piece, z: Piece)
    requires KInv(k) && AllSlotted(k) && IsLive(k, y) && IsLive(k, z) && y != z
    ensures Apart(k, y, z)
  {
    var g := PieceInBlock(k, y);
    var h := PieceInBlock(k, z);
    if g != h {
      BlocksApart(k.buddy, g, h);
    } else {
      assert PageOk(k, g);
      assert y.Obj? && z.Obj?;
      SamePageApart(k, g, y.addr, z.addr);
    }
  }

  lemma SamePageApart(k: Heap, p: nat, x: int, y: int)
    requires KInv(k) && AllSlotted(k) && p < |k.objs| && x in k.objs[p] && y in k.objs[p] && x != y
    ensures k.buddy.pages[p].objAlloc.Some? && k.buddy.pages[p].objAlloc.value < |k.pool|
    ensures var size := k.pool[k.buddy.pages[p].objAlloc.value].objsize; x + size <= y || y + size <= x
  {
    ObjInFrame(k, p, x);
    ObjInFrame(k, p, y);
    var g := k.buddy.pages[p];
    SlotsDistinct(g.phyAddr, k.pool[g.objAlloc.value].objsize, k.pool[g.objAlloc.value].objPerPage, x, y);
  }

  lemma SlotsDistinct(base: int, size: int, n: int, x: int, y: int)
    requires size > 0 && IsSlot(base, size, n, x) && IsSlot(base, size, n, y) && x != y
    ensures x + size <= y || y + size <= x
  {
    var i :| 0 <= i < n && x == SlotAddr(base, size, i);
    var j :| 0 <= j < n && y == SlotAddr(base, size, j);
    if i < j { SlotsApart(base, size, i, j); } else { SlotsApart(base, size, j, i); }
  }

  /** With the pop nothing is handed out twice. */
  lemma HeldOnce(k: Heap, z: Piece)
    requires Ok(k, true)
    ensures Held(k, z) <= 1
  {
    if z.Obj? && IsLive(k, z) { ObjOnce(k, z.page, z.addr); }
  }

  lemma ObjOnce(k: Heap, p: nat, x: int)
    requires AllSlotsOk(k) && PagesOk(k) && p < |k.objs| && x in k.objs[p]
    ensures k.objs[p][x] == 1
  {
    assert PageOk(k, p) && SlotsOk(k, p);
    var g := k.buddy.pages[p];
    var a := k.pool[g.objAlloc.value];
    var c :| SlotsBy(g, a.objsize, a.objPerPage, k.mem, k.objs[p], c);
    assert k.objs[p][x] + Occurs(c, x) <= 1;
  }

  // ---------------------------------------------------------------- one list node per page

  /** In how many free lists page p is linked. */
  function FreeLinks(areas: seq<FreeArea>, p: nat): nat
  {
    if areas == [] then 0 else Occurs(areas[0].freelist, p) + FreeLinks(areas[1..], p)
  }

  /** In how many of the full, partial and empty lists page p is linked. */
  function SlabLinks(pool: seq<ObjAllocator>, p: nat): nat
  {
    if pool == [] then 0
    else Occurs(pool[0].full, p) + Occurs(pool[0].partial, p) + Occurs(pool[0].empty, p) + SlabLinks(pool[1..], p)
  }

  lemma {:induction false} FreeLinksBound(areas: seq<FreeArea>, p: nat, k: nat)
    requires forall j :: 0 <= j < |areas| ==> NoDup(areas[j].freelist) && (p in areas[j].freelist ==> j == k)
    ensures FreeLinks(areas, p) <= 1
    ensures (forall j :: 0 <= j < |areas| ==> p !in areas[j].freelist) ==> FreeLinks(areas, p) == 0
    decreases |areas|
  {
    if areas != [] {
      NoDupCounts(areas[0].freelist, p);
      FreeLinksBound(areas[1..], p, if k > 0 then k - 1 else |areas|);
    }
  }

  lemma {:induction false} SlabLinksBound(pool: seq<ObjAllocator>, p: nat, t: nat)
    requires forall u :: 0 <= u < |pool| ==> Places(pool[u], p) <= if u == t then 1 else 0
    ensures SlabLinks(pool, p) <= 1
    ensures (forall u :: 0 <= u < |pool| ==> Places(pool[u], p) == 0) ==> SlabLinks(pool, p) == 0
    decreases |pool|
  {
    if pool != [] {
      assert Places(pool[0], p) <= 1;
      forall u | 0 <= u < |pool| - 1 ensures pool[1..][u] == pool[u + 1] {}
      SlabLinksBound(pool[1..], p, if t > 0 then t - 1 else |pool|);
    }
  }

  /** A page with an owner is in that allocator's places only. */
  lemma OwnerPlaces(k: Heap, p: nat, t: nat)
    requires PoolOk(k)
    requires t == if p < |k.objs| && k.buddy.pages[p].objAlloc.Some? then k.buddy.pages[p].objAlloc.value else |k.pool|
    ensures SlabLinks(k.pool, p) <= 1 && (t == |k.pool| ==> SlabLinks(k.pool, p) == 0)
  {
    forall u | 0 <= u < |k.pool|
      ensures Places(k.pool[u], p) == if u == t then 1 else 0
    {
      assert AllocatorOk(k.buddy.pages, u, k.pool[u]);
    }
    SlabLinksBound(k.pool, p, t);
  }

  lemma ListedHasNoOwner(k: Heap, own: seq<nat>, i: nat, p: nat)
    requires PagesOk(k) && InvBy(k.buddy, own) && Listed(k.buddy, i, p)
    ensures p < |k.objs| && k.buddy.pages[p].order == i && k.buddy.pages[p].objAlloc == None
  {
    assert IsFreeBlock(k.buddy, own, p, i);
    assert PageOk(k, p);
  }

  /** The single list node of a page is linked into at most one list, free or slab, at any time. */
  lemma PageLinkedOnce(k: Heap, p: nat)
    requires KInv(k)
    ensures FreeLinks(k.buddy.areas, p) + SlabLinks(k.pool, p) <= 1
  {
    var own :| InvBy(k.buddy, own);
    var t := if p < |k.objs| && k.buddy.pages[p].objAlloc.Some? then k.buddy.pages[p].objAlloc.value else |k.pool|;
    OwnerPlaces(k, p, t);
    var j := if p < |k.objs| && 0 <= k.buddy.pages[p].order then k.buddy.pages[p].order else |k.buddy.areas|;
    forall i: nat | i < |k.buddy.areas|
      ensures p in k.buddy.areas[i].freelist ==> i == j && t == |k.pool|
    {
      if Listed(k.buddy, i, p) { ListedHasNoOwner(k, own, i, p); }
    }
    FreeLinksBound(k.buddy.areas, p, j);
  }

  // ---------------------------------------------------------------- what allocation does

  /** kmalloc's own allocators are in place. */
  ghost predicate Ready(k: Heap)
  {
    |k.pool| == MAX_OBJ_ALLOCATOR_NUM && forall t :: 0 <= t <= 8 ==> k.pool[t].objsize == Pow2(t + MIN_KMALLOC_ORDER)
  }

  /** What is handed out before and after lies where it lay and is as long as it was. */
  ghost predicate Kept(k: Heap, k': Heap)
  {
    forall z :: IsLive(k, z) && IsLive(k', z) ==> Lo(k', z) == Lo(k, z) && Bytes(k', z) == Bytes(k, z)
  }

  /** z has been handed out once more, and nothing else has changed hands or moved. */
  ghost predicate Gained(k: Heap, k': Heap, z: Piece)
  {
    Kept(k, k') && forall y :: Held(k', y) == Held(k, y) + if y == z then 1 else 0
  }

  /** z has been given back once, and nothing else has changed hands or moved. */
  ghost predicate Lost(k: Heap, k': Heap, z: Piece)
  {
    Kept(k, k') && Held(k, z) > 0 && forall y :: Held(k', y) == Held(k, y) - if y == z then 1 else 0
  }

  /** Nothing has changed hands or moved. */
  ghost predicate Unmoved(k: Heap, k': Heap)
  {
    Kept(k, k') && forall y :: Held(k', y) == Held(k, y)
  }

  /** Pages keep their owners while objects are live on them, blocks keep their orders. */
  lemma KeptIf(k: Heap, k': Heap)
    requires Sized(k) && Sized(k') && |k'.buddy.pages| == |k.buddy.pages|
    requires forall q :: 0 <= q < |k.objs| && k.objs[q] != multiset{} && k'.objs[q] != multiset{} ==>
               && k'.buddy.pages[q].objAlloc == k.buddy.pages[q].objAlloc
               && k.buddy.pages[q].objAlloc.Some? && k.buddy.pages[q].objAlloc.value < |k.pool|
               && k'.pool[k.buddy.pages[q].objAlloc.value].objsize == k.pool[k.buddy.pages[q].objAlloc.value].objsize
    requires forall h :: h in k.buddy.live && h in k'.buddy.live ==> k'.buddy.live[h] == k.buddy.live[h]
    ensures Kept(k, k')
  {
    forall z | IsLive(k, z) && IsLive(k', z)
      ensures Lo(k', z) == Lo(k, z) && Bytes(k', z) == Bytes(k, z)
    {
      match z {
        case Obj(p, x) => assert x in k.objs[p] && x in k'.objs[p];
        case Block(h) =>
      }
    }
  }

  lemma AdoptUnmoved(k: Heap, k': Heap, t: nat, p: nat)
    requires PagesOk(k) && Adopted(k, k', t, p)
    ensures Unmoved(k, k')
  {
    assert PageOk(k, p);
    forall y ensures Held(k', y) == Held(k, y) {
      match y {
        case Obj(q, x) =>
        case Block(h) => if h < |k.objs| && h != p { assert SamePage(k, k', h); }
      }
    }
    forall q | 0 <= q < |k.objs| && k.objs[q] != multiset{}
      ensures q != p && k'.buddy.pages[q].objAlloc == k.buddy.pages[q].objAlloc && k.buddy.pages[q].objAlloc.Some?
      ensures k.buddy.pages[q].objAlloc.value < |k.pool|
    {
      assert PageOk(k, q);
      assert SamePage(k, k', q);
    }
    KeptIf(k, k');
  }

  lemma ProvideGains(k: Heap, t: nat, writeBack: bool)
    requires Ok(k, writeBack) && t < |k.pool| && k.pool[t].objsize != 0 && ProvidePage(k, t).Some?
    ensures var k1 := ProvidePage(k, t).value;
            Ok(k1, writeBack) && SameSizes(k, k1) && Unmoved(k, k1) && k1.pool[t].currPage.Some?
  {
    ProvideKeeps(k, t, writeBack);
    var a, k1 := k.pool[t], ProvidePage(k, t).value;
    if a.currPage.None? && a.partial == [] && a.empty == [] {
      var p := FreshPage(k, t);
      AdoptUnmoved(k, k1, t, p);
    }
  }

  lemma TakeGains(k: Heap, k': Heap, t: nat, p: nat, x: int)
    requires PagesOk(k) && Took(k, k', t, p, x)
    ensures Gained(k, k', Obj(p, x))
  {
    forall y ensures Held(k', y) == Held(k, y) + if y == Obj(p, x) then 1 else 0 {
      match y {
        case Obj(q, w) =>
        case Block(h) => if h < |k.objs| && h != p { assert SamePage(k, k', h); }
      }
    }
    forall q | 0 <= q < |k.objs| && k.objs[q] != multiset{}
      ensures k'.buddy.pages[q].objAlloc == k.buddy.pages[q].objAlloc && k.buddy.pages[q].objAlloc.Some?
      ensures k.buddy.pages[q].objAlloc.value < |k.pool|
    {
      assert PageOk(k, q);
      if q != p { assert SamePage(k, k', q); }
    }
    KeptIf(k, k');
  }

  /** Nothing has moved between k and k1; then z was gained. */
  lemma GainedAfter(k: Heap, k1: Heap, k': Heap, z: Piece)
    requires Unmoved(k, k1) && Gained(k1, k', z)
    ensures Gained(k, k', z)
  {
    forall y | IsLive(k, y) && IsLive(k', y)
      ensures Lo(k', y) == Lo(k, y) && Bytes(k', y) == Bytes(k, y)
    {
      assert Held(k1, y) == Held(k, y);
    }
  }

  /** obj_allocate hands out an object of the allocator's size. */
  lemma ObjAllocateGains(k: Heap, t: nat, writeBack: bool) returns (z: Piece)
    requires Ok(k, writeBack) && t < |k.pool| && ObjAllocate(k, t, writeBack).1.Addr?
    ensures var (k', r) := ObjAllocate(k, t, writeBack);
            && Ok(k', writeBack) && SameSizes(k, k') && Gained(k, k', z)
            && z.Obj? && IsLive(k', z) && Lo(k', z) == r.addr && Bytes(k', z) == k.pool[t].objsize
            && (writeBack ==> !IsLive(k, z))
  {
    ProvideGains(k, t, writeBack);
    var k1 := ProvidePage(k, t).value;
    var p := k1.pool[t].currPage.value;
    CurrentPage(k1, t);
    TakeObjectKeeps(k1, t, p, writeBack);
    var (k', x) := TakeObject(k1, t, p, writeBack);
    TakeGains(k1, k', t, p, x);
    z := Obj(p, x);
    GainedAfter(k, k1, k', z);
    assert Held(k1, z) == Held(k, z);
    assert Held(k', z) == Held(k, z) + 1;
  }

  /** The buddy layer has changed only which blocks are live. */
  lemma BlocksKept(k: Heap, k': Heap)
    requires PagesOk(k) && Sized(k') && SamePagesBut(k, k', |k.objs|) && k'.pool == k.pool
    requires forall h :: h in k.buddy.live && h in k'.buddy.live ==> k'.buddy.live[h] == k.buddy.live[h]
    ensures Kept(k, k')
    ensures forall q: nat, x :: Held(k', Obj(q, x)) == Held(k, Obj(q, x))
    ensures forall h: nat :: IsLive(k', Block(h)) <==>
              h < |k.buddy.pages| && h in k'.buddy.live && k.buddy.pages[h].objAlloc == None
  {
    forall q | 0 <= q < |k.objs|
      ensures k'.buddy.pages[q].objAlloc == k.buddy.pages[q].objAlloc && k'.objs[q] == k.objs[q]
      ensures k.objs[q] != multiset{} ==> k.buddy.pages[q].objAlloc.Some? && k.buddy.pages[q].objAlloc.value < |k.pool|
    {
      assert PageOk(k, q);
      assert SamePage(k, k', q);
    }
    KeptIf(k, k');
  }

  lemma BlockAllocGains(k: Heap, order: nat, writeBack: bool) returns (z: Piece)
    requires Ok(k, writeBack) && Alloc(k.buddy, order).1.Some?
    ensures var (b, r) := Alloc(k.buddy, order);
            var k' := k.(buddy := b);
            && r.value < |b.pages| && z == Block(r.value)
            && Ok(k', writeBack) && Gained(k, k', z) && !IsLive(k, z)
            && IsLive(k', z) && Lo(k', z) == b.pages[r.value].phyAddr && Bytes(k', z) == BlockBytes(order)
            && SamePagesBut(k, k', |k.objs|)
  {
    var (b, r) := Alloc(k.buddy, order);
    var k' := k.(buddy := b);
    AllocKeeps(k.buddy, order);
    AllocObjFields(k.buddy, order);
    var p := r.value;
    assert p < |b.pages| by { LiveBlocksDisjoint(b, p, p); }
    assert PageOk(k, p);
    z := Block(p);
    assert SamePagesBut(k, k', |k.objs|) && SameSizes(k, k');
    BuddyStepKeeps(k, k', writeBack);
    BlocksKept(k, k');
    assert SamePage(k, k', p);
    forall y ensures Held(k', y) == Held(k, y) + if y == z then 1 else 0 {
      match y {
        case Obj(q, x) =>
        case Block(h) =>
      }
    }
  }

  /** The buddy layer has changed what is live in it but no slab page. */
  lemma BuddyStepKeeps(k: Heap, k': Heap, writeBack: bool)
    requires Ok(k, writeBack) && Sized(k') && Inv(k'.buddy) && SamePagesBut(k, k', |k.objs|) && k'.pool == k.pool
    requires k'.mem == k.mem
    requires forall h :: h in k.buddy.live && h < |k.objs| && k.buddy.pages[h].objAlloc.Some? ==>
               h in k'.buddy.live && k'.buddy.live[h] == k.buddy.live[h]
    ensures Ok(k', writeBack)
  {
    forall t | 0 <= t < |k'.pool| ensures AllocatorOk(k'.buddy.pages, t, k'.pool[t]) {
      forall q: nat | q < |k.objs|
        ensures OwnedBy(k'.buddy.pages, t, q) <==> OwnedBy(k.buddy.pages, t, q)
        ensures k'.buddy.pages[q].objUsed == k.buddy.pages[q].objUsed
      {
        assert SamePage(k, k', q);
      }
      AllocatorFrame(k.buddy.pages, k'.buddy.pages, t, k.pool[t]);
    }
    forall q | 0 <= q < |k'.objs| ensures PageOk(k', q) {
      assert PageOk(k, q) && SamePage(k, k', q);
    }
    if writeBack { SlotsFrame(k, k', |k.objs|); } else { SlottedFrame(k, k', |k.objs|); }
  }

  /** A successful kmalloc hands out one new piece of at least the requested size. */
  lemma KmallocGains(k: Heap, size: int, writeBack: bool) returns (z: Piece)
    requires Ok(k, writeBack) && Ready(k) && Kmalloc(k, size, writeBack).1.Addr?
    ensures var (k', r) := Kmalloc(k, size, writeBack);
            && Ok(k', writeBack) && Ready(k') && Gained(k, k', z)
            && IsLive(k', z) && Lo(k', z) == r.addr && Bytes(k', z) >= size
            && (writeBack ==> !IsLive(k, z))
  {
    var i := SizeClass(size, MIN_KMALLOC_ORDER);
    if i <= MAX_KMALLOC_ORDER {
      z := ObjAllocateGains(k, i - MIN_KMALLOC_ORDER, writeBack);
    } else {
      z := BlockAllocGains(k, PageOrder(size, 0), writeBack);
    }
  }

  /** Allocator t has no page at hand and the buddy allocator none to give. */
  ghost predicate Starved(k: Heap, t: nat)
    requires t < |k.pool|
  {
    && k.pool[t].currPage.None? && k.pool[t].partial == [] && k.pool[t].empty == []
    && forall p: nat :: !FreeRun(k.buddy, p, 0)
  }

  lemma ObjAllocateFaults(k: Heap, t: nat, writeBack: bool)
    requires Ok(k, writeBack) && t < |k.pool| && k.pool[t].objsize != 0
    ensures !ObjAllocate(k, t, writeBack).1.Null?
    ensures ObjAllocate(k, t, writeBack).1.Fault? <==> Starved(k, t)
  {
    AllocComplete(k.buddy, 0);
    AllocKeeps(k.buddy, 0);
    if Alloc(k.buddy, 0).1.Some? { AllocInRange(k.buddy, 0); }
    if ProvidePage(k, t).Some? {
      ProvideGains(k, t, writeBack);
      CurrentPage(ProvidePage(k, t).value, t);
    }
  }

  lemma SmallRequests(size: int)
    ensures SizeClass(size, MIN_KMALLOC_ORDER) <= MAX_KMALLOC_ORDER <==> size <= 2048
  {
    var i := SizeClass(size, MIN_KMALLOC_ORDER);
    assert Pow2(11) == 2048;
    if i <= MAX_KMALLOC_ORDER { Pow2Monotone(i, 11); } else { assert size > Pow2(11); }
  }

  lemma PageRequests(size: int)
    ensures PageOrder(size, 0) <= MAX_ORDER <==> size <= 0x20_0000
  {
    var j := PageOrder(size, 0);
    assert Pow2(11) == 2048 && Pow2(10) == 1024;
    Pow2Add(11, 10);
    assert BlockBytes(9) == 0x20_0000;
    if j <= MAX_ORDER {
      assert size <= BlockBytes(j);
      Pow2Monotone(j + PAGE_SHIFT, 21);
    } else {
      assert size > BlockBytes(9);
    }
  }

  lemma AllocInRange(s: Buddy.State, order: int)
    requires Inv(s) && Alloc(s, order).1.Some?
    ensures Alloc(s, order).1.value < |Alloc(s, order).0.pages|
  {
    AllocKeeps(s, order);
    var (t, r) := Alloc(s, order);
    LiveBlocksDisjoint(t, r.value, r.value);
  }

  /** kmalloc refuses exactly the requests above 2 MB, and uses a null page exactly when neither the
      allocator in charge nor the buddy allocator has room. */
  lemma KmallocFaults(k: Heap, size: int, writeBack: bool)
    requires Ok(k, writeBack) && Ready(k)
    ensures Kmalloc(k, size, writeBack).1.Null? <==> size > 0x20_0000
    ensures Kmalloc(k, size, writeBack).1.Fault? <==>
            if size <= 2048 then Starved(k, SizeClass(size, MIN_KMALLOC_ORDER) - MIN_KMALLOC_ORDER)
            else size <= 0x20_0000 && forall p: nat :: !FreeRun(k.buddy, p, PageOrder(size, 0))
  {
    SmallRequests(size);
    PageRequests(size);
    if size <= 2048 {
      ObjAllocateFaults(k, SizeClass(size, MIN_KMALLOC_ORDER) - MIN_KMALLOC_ORDER, writeBack);
    } else if size <= 0x20_0000 {
      var j := PageOrder(size, 0);
      AllocComplete(k.buddy, j);
      if Alloc(k.buddy, j).1.Some? { AllocInRange(k.buddy, j); }
    }
  }

  // ---------------------------------------------------------------- what freeing does

  /** kfree reaches the layer, and within it the page, that issued the address. */
  lemma KfreeDispatches(k: Heap, z: Piece)
    requires KInv(k) && IsLive(k, z)
    ensures match z
            case Obj(p, x) =>
              PhyAddrToPfn(x) == p && k.buddy.pages[p].objAlloc.Some? && Kfree(k, x) == ObjFree(k, x)
            case Block(h) =>
              var x := k.buddy.pages[h].phyAddr;
              PhyAddrToPfn(x) == h && Kfree(k, x) == k.(buddy := FreeBlock(k.buddy, h))
  {
    match z {
      case Obj(p, x) => ObjFreeUnfolds(k, p, x);
      case Block(h) => FrameToPfn(k.buddy, h, k.buddy.pages[h].phyAddr);
    }
  }

  lemma BlockFreed(k: Heap, h: nat, writeBack: bool)
    requires Ok(k, writeBack) && IsLive(k, Block(h)) && h < |k.buddy.pages|
    ensures var k' := k.(buddy := FreeBlock(k.buddy, h));
            && Ok(k', writeBack) && SameSizes(k, k') && Lost(k, k', Block(h))
            && SamePagesBut(k, k', |k.objs|)
  {
    var k' := k.(buddy := FreeBlock(k.buddy, h));
    FreeKeeps(k.buddy, h);
    FreeObjFields(k.buddy, h);
    assert SamePagesBut(k, k', |k.objs|);
    BuddyStepKeeps(k, k', writeBack);
    BlocksKept(k, k');
    forall y ensures Held(k', y) == Held(k, y) - if y == Block(h) then 1 else 0 {
      match y {
        case Obj(q, x) =>
        case Block(g) =>
      }
    }
  }

  /** Freeing a live piece by its address gives it back once and changes nothing else, with or without
      the pop. */
  lemma KfreeLoses(k: Heap, z: Piece, writeBack: bool)
    requires Ok(k, writeBack) && IsLive(k, z)
    ensures var k' := Kfree(k, Lo(k, z));
            Ok(k', writeBack) && SameSizes(k, k') && Lost(k, k', z)
  {
    KfreeDispatches(k, z);
    match z {
      case Obj(p, x) =>
        ObjFreeKeeps(k, p, x, writeBack);
        FreedLoses(k, ObjFree(k, x), p, x);
      case Block(h) => BlockFreed(k, h, writeBack);
    }
  }

  lemma FreedLoses(k: Heap, k': Heap, p: nat, x: int)
    requires PagesOk(k) && PagesOk(k') && Freed(k, k', p, x) && x in k.objs[p]
    ensures Lost(k, k', Obj(p, x))
  {
    assert PageOk(k, p) && PageOk(k', p);
    forall y ensures Held(k', y) == Held(k, y) - if y == Obj(p, x) then 1 else 0 {
      match y {
        case Obj(q, w) =>
        case Block(h) =>
      }
    }
    forall q | 0 <= q < |k.objs| && k.objs[q] != multiset{} && k'.objs[q] != multiset{}
      ensures k'.buddy.pages[q].objAlloc == k.buddy.pages[q].objAlloc && k.buddy.pages[q].objAlloc.Some?
      ensures k.buddy.pages[q].objAlloc.value < |k.pool|
    {
      assert PageOk(k, q) && PageOk(k', q);
    }
    KeptIf(k, k');
  }

  // ---------------------------------------------------------------- the other calls

  /** A client writes a word. */
  function Poke(k: Heap, x: int, w: int): Heap
  {
    k.(mem := k.mem[x := w])
  }

  /** A word inside a live piece is not the link of any free object. */
  lemma WordOffChains(k: Heap, z: Piece, y: int, q: nat, c: seq<int>)
    requires Ok(k, true) && IsLive(k, z) && Lo(k, z) <= y < Lo(k, z) + Bytes(k, z)
    requires q < |k.objs| && k.buddy.pages[q].objAlloc.Some? && k.buddy.pages[q].objAlloc.value < |k.pool|
    requires var a := k.pool[k.buddy.pages[q].objAlloc.value];
             SlotsBy(k.buddy.pages[q], a.objsize, a.objPerPage, k.mem, k.objs[q], c)
    ensures y !in c
  {
    if y in c {
      var t := k.buddy.pages[q].objAlloc.value;
      assert AllocatorOk(k.buddy.pages, t, k.pool[t]);
      ChainInFrame(k, q, t, c, y);
      OkIsSlotted(k, true);
      var h := PieceInBlock(k, z);
      assert PageOk(k, q);
      if h != q {
        BlocksApart(k.buddy, h, q);
      } else {
        OwnSlotOnly(k, q, t, z.addr, y, c);
      }
    }
  }

  lemma OwnSlotOnly(k: Heap, q: nat, t: nat, x: int, y: int, c: seq<int>)
    requires Ok(k, true) && AllSlotted(k) && q < |k.objs| && x in k.objs[q] && k.buddy.pages[q].objAlloc == Some(t) &&
             t < |k.pool|
    requires x <= y < x + k.pool[t].objsize
    requires SlotsBy(k.buddy.pages[q], k.pool[t].objsize, k.pool[t].objPerPage, k.mem, k.objs[q], c)
    requires IsSlot(k.buddy.pages[q].phyAddr, k.pool[t].objsize, k.pool[t].objPerPage, y)
    ensures y !in c
  {
    ObjInFrame(k, q, x);
    if x != y { SlotsDistinct(k.buddy.pages[q].phyAddr, k.pool[t].objsize, k.pool[t].objPerPage, x, y); }
    assert k.objs[q][x] + Occurs(c, x) <= 1;
  }

  lemma PokeSlots(k: Heap, z: Piece, y: int, w: int, q: nat)
    requires Ok(k, true) && IsLive(k, z) && Lo(k, z) <= y < Lo(k, z) + Bytes(k, z) && q < |k.objs|
    ensures SlotsOk(Poke(k, y, w), q)
  {
    assert SlotsOk(k, q);
    var g := k.buddy.pages[q];
    if g.objAlloc.Some? {
      var a := k.pool[g.objAlloc.value];
      var c :| SlotsBy(g, a.objsize, a.objPerPage, k.mem, k.objs[q], c);
      WordOffChains(k, z, y, q, c);
      ChainedWrite(k.mem, g.free, c, y, w);
      assert SlotsBy(g, a.objsize, a.objPerPage, Poke(k, y, w).mem, k.objs[q], c);
    }
  }

  /** A client may write anywhere in what it holds. */
  lemma PokeKeeps(k: Heap, z: Piece, y: int, w: int, writeBack: bool)
    requires Ok(k, writeBack) && IsLive(k, z) && Lo(k, z) <= y < Lo(k, z) + Bytes(k, z)
    ensures Ok(Poke(k, y, w), writeBack) && Unmoved(k, Poke(k, y, w))
  {
    var k' := Poke(k, y, w);
    PokePages(k, k');
    if writeBack {
      forall q | 0 <= q < |k'.objs| ensures SlotsOk(k', q) { PokeSlots(k, z, y, w, q); }
    } else {
      assert SamePagesBut(k, k', |k.objs|) && SameSizes(k, k');
      SlottedFrame(k, k', |k.objs|);
    }
  }

  lemma PokePages(k: Heap, k': Heap)
    requires KInv(k) && k' == k.(mem := k'.mem)
    ensures KInv(k')
  {
    forall q | 0 <= q < |k'.objs| ensures PageOk(k', q) { assert PageOk(k, q); }
  }

  lemma RegisterSlotPages(k: Heap, k': Heap, token: nat, objsize: int)
    requires KInv(k) && token < |k.pool| && k.pool[token].objsize == 0
    requires MIN_ALLOCATED_OBJ_SIZE <= objsize <= MAX_ALLOCATED_OBJ_SIZE
    requires k' == k.(pool := k.pool[token := InitObjAlloc(objsize)])
    ensures KInv(k')
    ensures forall q :: 0 <= q < |k.objs| && k.buddy.pages[q].objAlloc.Some? ==>
              k.buddy.pages[q].objAlloc.value < |k.pool| && k.buddy.pages[q].objAlloc.value != token
  {
    var a, b := k.pool[token], k'.pool[token];
    assert AllocatorOk(k.buddy.pages, token, a);
    assert forall p: nat :: Places(b, p) == Places(a, p);
    assert AllocatorOk(k'.buddy.pages, token, b);
    forall q | 0 <= q < |k'.objs|
      ensures PageOk(k', q)
      ensures k.buddy.pages[q].objAlloc.Some? ==>
                k.buddy.pages[q].objAlloc.value < |k.pool| && k.buddy.pages[q].objAlloc.value != token
    {
      assert PageOk(k, q);
    }
  }

  /** A page of another allocator does not notice. */
  lemma RegisterSlotSlots(k: Heap, k': Heap, token: nat, p: nat)
    requires Sized(k) && Sized(k') && token < |k.pool| && p < |k.objs| && SlotsOk(k, p)
    requires k' == k.(pool := k.pool[token := k'.pool[token]]) && k.buddy.pages[p].objAlloc != Some(token)
    ensures SlotsOk(k', p)
  {
    var g := k.buddy.pages[p];
    if g.objAlloc.Some? {
      var a := k.pool[g.objAlloc.value];
      assert k'.pool[g.objAlloc.value] == a;
      var c :| SlotsBy(g, a.objsize, a.objPerPage, k.mem, k.objs[p], c);
    }
  }

  lemma RegisterSlotSlotted(k: Heap, k': Heap, token: nat, p: nat)
    requires Sized(k) && Sized(k') && token < |k.pool| && p < |k.objs| && SlottedOk(k, p)
    requires k' == k.(pool := k.pool[token := k'.pool[token]]) && k.buddy.pages[p].objAlloc != Some(token)
    ensures SlottedOk(k', p)
  {
  }

  lemma RegisterSlotKeeps(k: Heap, token: nat, objsize: int, writeBack: bool)
    requires Ok(k, writeBack) && token < |k.pool| && k.pool[token].objsize == 0
    requires MIN_ALLOCATED_OBJ_SIZE <= objsize <= MAX_ALLOCATED_OBJ_SIZE
    ensures var k' := k.(pool := k.pool[token := InitObjAlloc(objsize)]);
            Ok(k', writeBack) && Unmoved(k, k')
  {
    var k' := k.(pool := k.pool[token := InitObjAlloc(objsize)]);
    RegisterSlotPages(k, k', token, objsize);
    forall p | 0 <= p < |k'.objs|
      ensures if writeBack then SlotsOk(k', p) else SlottedOk(k', p)
    {
      if writeBack { RegisterSlotSlots(k, k', token, p); } else { RegisterSlotSlotted(k, k', token, p); }
    }
    RegisterUnmoved(k, k', token);
  }

  lemma RegisterUnmoved(k: Heap, k': Heap, token: nat)
    requires PagesOk(k) && Sized(k') && token < |k.pool| && k.pool[token].objsize == 0
    requires k' == k.(pool := k.pool[token := k'.pool[token]])
    ensures Unmoved(k, k')
  {
    forall q | 0 <= q < |k.objs| && k.objs[q] != multiset{}
      ensures k.buddy.pages[q].objAlloc.Some? && k.buddy.pages[q].objAlloc.value < |k.pool|
      ensures k.buddy.pages[q].objAlloc.value != token
    {
      assert PageOk(k, q);
    }
    KeptIf(k, k');
  }

  /** RegisterFrom takes the first unregistered slot, if there is one. */
  lemma {:induction false} RegisterFromIs(pool: Pool, objsize: int, token: nat)
    requires objsize > 0
    ensures var (pool', r) := RegisterFrom(pool, objsize, token);
            if r == -1 then pool' == pool && forall t :: token <= t < |pool| ==> pool[t].objsize != 0
            else
              && token <= r < |pool| && pool[r].objsize == 0
              && (forall t :: token <= t < r ==> pool[t].objsize != 0)
              && pool' == pool[r := InitObjAlloc(objsize)]
    decreases MAX_OBJ_ALLOCATOR_NUM - token
  {
    if token < MAX_OBJ_ALLOCATOR_NUM && pool[token].objsize != 0 { RegisterFromIs(pool, objsize, token + 1); }
  }

  lemma RegisterKeeps(k: Heap, objsize: int, writeBack: bool)
    requires Ok(k, writeBack)
    ensures var k' := WithPool(k, Register(k.pool, objsize).0);
            Ok(k', writeBack) && Unmoved(k, k')
  {
    var size := Clamp(objsize);
    RegisterFromIs(k.pool, size, 0);
    var r := Register(k.pool, objsize).1;
    if r != -1 { RegisterSlotKeeps(k, r, size, writeBack); }
  }

  lemma RegisterKeepsReady(k: Heap, objsize: int)
    requires Ready(k)
    ensures Ready(WithPool(k, Register(k.pool, objsize).0))
  {
    RegisterFromIs(k.pool, Clamp(objsize), 0);
    forall t | 0 <= t <= 8 ensures k.pool[t].objsize != 0 { assert k.pool[t].objsize == Pow2(t + MIN_KMALLOC_ORDER); }
  }

  // ---------------------------------------------------------------- all runs from boot

  function Blank(m: nat): Heap
  {
    Heap(Boot(m), seq(MAX_OBJ_ALLOCATOR_NUM, _ => UNREGISTERED), map[], seq(MAX_ORDER_SIZE * m, _ => multiset{}))
  }

  /** The state after mm_init. */
  function Booted(m: nat): Heap
  {
    Blank(m).(pool := InitKmallocFrom(Blank(m).pool, MIN_KMALLOC_ORDER))
  }

  lemma BlankOk(m: nat, writeBack: bool)
    requires MAX_ORDER_SIZE * m < MAX_PFN
    ensures Ok(Blank(m), writeBack)
  {
    BootInv(m);
    var k := Blank(m);
    forall t | 0 <= t < |k.pool| ensures AllocatorOk(k.buddy.pages, t, k.pool[t]) {
      assert Curr(k.pool[t]) == [];
      assert forall p: nat :: Places(k.pool[t], p) == 0;
    }
  }

  /** Tokens below i - 3 serve 8, 16, .. bytes; the rest of the pool is unregistered. */
  ghost predicate Registered(pool: Pool, i: nat)
  {
    && MIN_KMALLOC_ORDER <= i <= MAX_KMALLOC_ORDER + 1
    && (forall t :: 0 <= t < i - MIN_KMALLOC_ORDER ==> pool[t].objsize == Pow2(t + MIN_KMALLOC_ORDER))
    && (forall t :: i - MIN_KMALLOC_ORDER <= t < |pool| ==> pool[t].objsize == 0)
  }

  lemma InitOneRegisters(pool: Pool, i: nat)
    requires Registered(pool, i) && i <= MAX_KMALLOC_ORDER
    ensures Registered(Register(pool, Pow2(i)).0, i + 1)
  {
    Pow2Monotone(3, i);
    Pow2Monotone(i, 11);
    assert Pow2(3) == 8 && Pow2(11) == 2048;
    assert Clamp(Pow2(i)) == Pow2(i);
    RegisterFromIs(pool, Pow2(i), 0);
    var r := Register(pool, Pow2(i)).1;
    forall t | 0 <= t < i - MIN_KMALLOC_ORDER ensures pool[t].objsize != 0 {
      assert pool[t].objsize == Pow2(t + MIN_KMALLOC_ORDER);
    }
    assert pool[i - MIN_KMALLOC_ORDER].objsize == 0;
    assert r == i - MIN_KMALLOC_ORDER;
  }

  lemma {:induction false} InitRegisters(pool: Pool, i: nat)
    requires Registered(pool, i)
    ensures Registered(InitKmallocFrom(pool, i), MAX_KMALLOC_ORDER + 1)
    decreases MAX_KMALLOC_ORDER + 1 - i
  {
    if i <= MAX_KMALLOC_ORDER {
      InitOneRegisters(pool, i);
      InitRegisters(Register(pool, Pow2(i)).0, i + 1);
    }
  }

  function WithPool(k: Heap, pool: Pool): Heap { k.(pool := pool) }

  lemma InitStep(k: Heap, pool: Pool, i: nat, writeBack: bool) returns (pool': Pool)
    requires Ok(WithPool(k, pool), writeBack) && MIN_KMALLOC_ORDER <= i <= MAX_KMALLOC_ORDER
    ensures Ok(WithPool(k, pool'), writeBack)
    ensures InitKmallocFrom(pool, i) == InitKmallocFrom(pool', i + 1)
  {
    pool' := Register(pool, Pow2(i)).0;
    RegisterKeeps(WithPool(k, pool), Pow2(i), writeBack);
    assert WithPool(WithPool(k, pool), pool') == WithPool(k, pool');
  }

  lemma {:induction false} InitKmallocOk(k: Heap, pool: Pool, i: nat, writeBack: bool, done: Pool)
    requires Ok(WithPool(k, pool), writeBack) && MIN_KMALLOC_ORDER <= i
    requires done == InitKmallocFrom(pool, i)
    ensures Ok(WithPool(k, done), writeBack)
    decreases MAX_KMALLOC_ORDER + 1 - i
  {
    if i <= MAX_KMALLOC_ORDER {
      var pool' := InitStep(k, pool, i, writeBack);
      InitKmallocOk(k, pool', i + 1, writeBack, done);
    }
  }

  lemma BootedOk(m: nat, writeBack: bool)
    requires MAX_ORDER_SIZE * m < MAX_PFN
    ensures Ok(Booted(m), writeBack) && Ready(Booted(m))
  {
    BlankOk(m, writeBack);
    InitKmallocOk(Blank(m), Blank(m).pool, MIN_KMALLOC_ORDER, writeBack, Booted(m).pool);
    InitRegisters(Blank(m).pool, MIN_KMALLOC_ORDER);
  }

  /** kmalloc keeps the invariant whatever it returns. */
  lemma KmallocKeeps(k: Heap, size: int, writeBack: bool)
    requires Ok(k, writeBack) && Ready(k)
    ensures var (k', r) := Kmalloc(k, size, writeBack);
            Ok(k', writeBack) && Ready(k') && (!r.Addr? ==> k' == k)
  {
    if Kmalloc(k, size, writeBack).1.Addr? { var z := KmallocGains(k, size, writeBack); }
  }

  lemma ObjAllocateKeeps(k: Heap, token: int, writeBack: bool)
    requires Ok(k, writeBack) && Ready(k)
    ensures var (k', r) := ObjAllocate(k, token, writeBack);
            Ok(k', writeBack) && Ready(k') && (!r.Addr? ==> k' == k)
  {
    if ObjAllocate(k, token, writeBack).1.Addr? { var z := ObjAllocateGains(k, token, writeBack); }
  }

  lemma KfreeKeeps(k: Heap, z: Piece, writeBack: bool)
    requires Ok(k, writeBack) && Ready(k) && IsLive(k, z)
    ensures Ok(Kfree(k, Lo(k, z)), writeBack) && Ready(Kfree(k, Lo(k, z)))
  {
    KfreeLoses(k, z, writeBack);
  }
}
