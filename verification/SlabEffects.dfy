/** What the calls of the object allocators and kmalloc do to every field, with the limits of include/mm.h
    written out. */
module SlabEffects {
  import opened Bits
  import opened Seqs
  import opened Buddy
  import opened BuddyRuns
  import opened Slab
  import opened SlabInvariant
  import opened SlabRuns
  import opened KmallocRuns

  /** register_obj_allocator takes the first free slot for objects of 8 to 2048 bytes. */
  lemma RegisterEffect(pool: Pool, objsize: int)
    ensures var (pool', r) := Register(pool, objsize);
            var size := if objsize < 8 then 8 else if objsize > 2048 then 2048 else objsize;
            if r == -1 then pool' == pool && forall t :: 0 <= t < 16 ==> pool[t].objsize != 0
            else
              && 0 <= r < 16 && pool[r].objsize == 0 && (forall t :: 0 <= t < r ==> pool[t].objsize != 0)
              && pool'[r] == ObjAllocator([], [], [], None, size, 4096 / size, 0, 0)
              && forall t :: 0 <= t < 16 && t != r ==> pool'[t] == pool[t]
  {
    RegisterFromIs(pool, Clamp(objsize), 0);
  }

  // ---------------------------------------------------------------- obj_allocate

  /** No page at hand: one is demanded from the buddy allocator. */
  predicate NeedsPage(a: ObjAllocator)
  {
    a.currPage.None? && a.partial == [] && a.empty == []
  }

  /** The page that obj_allocate takes from. */
  predicate TakesFrom(k: Heap, t: nat, p: nat)
    requires Sized(k) && t < |k.pool|
  {
    var a := k.pool[t];
    if a.currPage.Some? then p == a.currPage.value
    else if a.partial != [] then p == a.partial[0]
    else if a.empty != [] then p == a.empty[0]
    else Alloc(k.buddy, 0).1 == Some(p)
  }

  /** The allocator afterwards; `used` objects were live on page p before. */
  function Charged(a: ObjAllocator, p: nat, used: int): ObjAllocator
  {
    ObjAllocator(if used + 1 == a.objPerPage then a.full + [p] else a.full,
                 if a.currPage.None? && a.partial != [] then a.partial[1..] else a.partial,
                 if a.currPage.None? && a.partial == [] && a.empty != [] then a.empty[1..] else a.empty,
                 if used + 1 == a.objPerPage then None else Some(p),
                 a.objsize, a.objPerPage, a.objUsed + 1, if NeedsPage(a) then a.pageUsed + 1 else a.pageUsed)
  }

  lemma ProvideEffect(k: Heap, t: nat, writeBack: bool) returns (p: nat)
    requires Ok(k, writeBack) && t < |k.pool| && k.pool[t].objsize != 0 && ProvidePage(k, t).Some?
    ensures TakesFrom(k, t, p) && p < |k.objs|
    ensures var k1, a, b := ProvidePage(k, t).value, k.pool[t], ProvidePage(k, t).value.pool[t];
            && SamePagesBut(k, k1, p) && k1.mem == k.mem && k1.objs == k.objs
            && (forall u :: 0 <= u < |k.pool| && u != t ==> |k1.pool| == |k.pool| && k1.pool[u] == k.pool[u])
            && b.currPage == Some(p) && b.full == a.full && b.objUsed == a.objUsed
            && b.objsize == a.objsize && b.objPerPage == a.objPerPage
            && b.partial == (if a.currPage.None? && a.partial != [] then a.partial[1..] else a.partial)
            && b.empty == (if a.currPage.None? && a.partial == [] && a.empty != [] then a.empty[1..] else a.empty)
            && b.pageUsed == (if NeedsPage(a) then a.pageUsed + 1 else a.pageUsed)
            && k1.buddy.pages[p].objAlloc == Some(t)
            && k1.buddy.pages[p].objUsed == (if NeedsPage(a) then 0 else k.buddy.pages[p].objUsed)
            && k1.buddy.pages[p].free == (if NeedsPage(a) then 0 else k.buddy.pages[p].free)
            && k1.buddy.live == if NeedsPage(a) then k.buddy.live[p := 0] else k.buddy.live
  {
    ProvideGains(k, t, writeBack);
    var k1 := ProvidePage(k, t).value;
    CurrentPage(k1, t);
    p := k1.pool[t].currPage.value;
    if NeedsPage(k.pool[t]) { var q := FreshPage(k, t); }
  }

  /** obj_allocate, field by field. */
  lemma ObjAllocateEffect(k: Heap, t: nat, writeBack: bool) returns (p: nat)
    requires Ok(k, writeBack) && t < |k.pool| && ObjAllocate(k, t, writeBack).1.Addr?
    ensures TakesFrom(k, t, p) && p < |k.objs| && |k.objs| == |k.buddy.pages|
    ensures var (k', r) := ObjAllocate(k, t, writeBack);
            var a := k.pool[t];
            var used := if NeedsPage(a) then 0 else k.buddy.pages[p].objUsed;
            var head := if NeedsPage(a) then 0 else k.buddy.pages[p].free;
            && SamePagesBut(k, k', p)
            && r.addr == (if head != 0 then head else 0x20_0000 + 4096 * p + used * a.objsize)
            && k'.pool == k.pool[t := Charged(a, p, used)] && k'.mem == k.mem
            && k'.objs == k.objs[p := k.objs[p] + multiset{r.addr}]
            && k'.buddy.pages[p].objAlloc == Some(t) && k'.buddy.pages[p].objUsed == used + 1
            && k'.buddy.pages[p].free == (if writeBack && head != 0 then Read(k.mem, head) else head)
            && k'.buddy.live == if NeedsPage(a) then k.buddy.live[p := 0] else k.buddy.live
  {
    p := ProvideEffect(k, t, writeBack);
    var k1 := ProvidePage(k, t).value;
    TakeFields(k1, t, p, writeBack);
    var k' := TakeObject(k1, t, p, writeBack).0;
    forall q | 0 <= q < |k.objs| && q != p ensures SamePage(k, k', q) {
      assert SamePage(k, k1, q) && SamePage(k1, k', q);
    }
    assert k'.pool == k.pool[t := k'.pool[t]];
  }

  lemma TakeFields(k: Heap, t: nat, p: nat, writeBack: bool)
    requires Sized(k) && t < |k.pool| && p < |k.objs| && k.pool[t].currPage == Some(p)
    ensures var (k', x) := TakeObject(k, t, p, writeBack);
            var a, g := k.pool[t], k.buddy.pages[p];
            && SamePagesBut(k, k', p) && k'.mem == k.mem && k'.buddy.live == k.buddy.live
            && x == (if g.free != 0 then g.free else 0x20_0000 + 4096 * p + g.objUsed * a.objsize)
            && k'.objs == k.objs[p := k.objs[p] + multiset{x}]
            && k'.buddy.pages[p].objUsed == g.objUsed + 1 && k'.buddy.pages[p].objAlloc == g.objAlloc
            && k'.buddy.pages[p].free == (if writeBack && g.free != 0 then Read(k.mem, g.free) else g.free)
            && k'.pool == k.pool[t := k'.pool[t]]
            && k'.pool[t] == ObjAllocator(if g.objUsed + 1 == a.objPerPage then a.full + [p] else a.full,
                                          a.partial, a.empty,
                                          if g.objUsed + 1 == a.objPerPage then None else Some(p),
                                          a.objsize, a.objPerPage, a.objUsed + 1, a.pageUsed)
  {
  }

  // ---------------------------------------------------------------- obj_free

  /** The page has lost its last object, is not the one allocated from, and the allocator has ten pages or more. */
  predicate GoesBack(a: ObjAllocator, g: Page, p: nat)
  {
    g.objUsed == 1 && a.currPage != Some(p) && a.pageUsed >= 10
  }

  /** The allocator after the release of one object of page p. */
  function Credited(a: ObjAllocator, g: Page, p: nat): ObjAllocator
  {
    var emptied := g.objUsed == 1 && a.currPage != Some(p);
    ObjAllocator(if g.objUsed == a.objPerPage then Remove(a.full, p) else a.full,
                 if g.objUsed == a.objPerPage then a.partial + [p]
                 else if emptied then Remove(a.partial, p) else a.partial,
                 if emptied && a.pageUsed < 10 then a.empty + [p] else a.empty,
                 a.currPage, a.objsize, a.objPerPage, a.objUsed - 1,
                 if GoesBack(a, g, p) then a.pageUsed - 1 else a.pageUsed)
  }

  /** obj_free, field by field. */
  lemma ObjFreeEffect(k: Heap, p: nat, x: int, writeBack: bool)
    requires Ok(k, writeBack) && p < |k.objs| && x in k.objs[p]
    ensures k.buddy.pages[p].objAlloc.Some? && k.buddy.pages[p].objAlloc.value < |k.pool| && |k.buddy.pages| == |k.objs|
    ensures var t := k.buddy.pages[p].objAlloc.value;
            var k', a, g := ObjFree(k, x), k.pool[t], k.buddy.pages[p];
            && SamePagesBut(k, k', p)
            && k'.pool == k.pool[t := Credited(a, g, p)]
            && k'.mem == k.mem[x := g.free] && k'.objs == k.objs[p := k.objs[p] - multiset{x}]
            && k'.buddy.pages[p].objUsed == g.objUsed - 1
            && k'.buddy.pages[p].objAlloc == (if GoesBack(a, g, p) then None else Some(t))
            && k'.buddy.pages[p].free == (if GoesBack(a, g, p) then 0 else x)
            && k'.buddy.live == if GoesBack(a, g, p) then k.buddy.live - {p} else k.buddy.live
  {
    ObjFreeUnfolds(k, p, x);
    var t := k.buddy.pages[p].objAlloc.value;
    assert PageOk(k, p);
    var k' := ObjFree(k, x);
    if k.buddy.pages[p].objUsed > 1 || k.pool[t].currPage == Some(p) {
      StayEffect(k, t, p, x, writeBack);
    } else {
      LastObject(k, t, p, x);
      assert k.objs[p] - multiset{x} == multiset{};
      if k.pool[t].pageUsed < 10 { LastSmall(k, t, p, x, k'); } else { LastLarge(k, t, p, x, k'); }
    }
  }

  lemma StayEffect(k: Heap, t: nat, p: nat, x: int, writeBack: bool)
    requires Ok(k, writeBack) && p < |k.objs| && x in k.objs[p] && k.buddy.pages[p].objAlloc == Some(t) && t < |k.pool|
    requires k.buddy.pages[p].objUsed > 1 || k.pool[t].currPage == Some(p)
    ensures var k', a, g := Settle(GiveBack(k, t, p, x), t, p), k.pool[t], k.buddy.pages[p];
            Gave(k, k', t, p, x) && k'.pool == k.pool[t := Credited(a, g, p)]
  {
    FreeStaysKeeps(k, t, p, x, writeBack);
    var k1, a, g := GiveBack(k, t, p, x), k.pool[t], k.buddy.pages[p];
    assert Settle(k1, t, p) == k1;
    assert AllocatorOk(k.buddy.pages, t, a);
    InPlace(k.buddy.pages, t, a, p);
    UnlinkAbsent(a.(objUsed := a.objUsed - 1), p);
    if g.objUsed == a.objPerPage { FullOnly(k.buddy.pages, t, a, p); }
    assert k1.pool[t] == Credited(a, g, p);
  }

  lemma FullOnly(pages: seq<Page>, t: nat, a: ObjAllocator, p: nat)
    requires AllocatorOk(pages, t, a) && OwnedBy(pages, t, p) && a.objsize != 0 && pages[p].objUsed == a.objPerPage
    ensures p in a.full && p !in a.partial && p !in a.empty && a.currPage != Some(p) && a.objPerPage >= 2
  {
    PerPage(a.objsize);
    InPlace(pages, t, a, p);
    assert a.currPage == Some(p) ==> p in Curr(a);
  }

  lemma PartialOnly(pages: seq<Page>, t: nat, a: ObjAllocator, p: nat)
    requires AllocatorOk(pages, t, a) && OwnedBy(pages, t, p) && pages[p].objUsed == 1 && 1 < a.objPerPage
    requires a.currPage != Some(p)
    ensures var u := Unlink(a.(objUsed := a.objUsed - 1), p);
            u.full == a.full && u.empty == a.empty && u.partial == Remove(a.partial, p)
  {
    InPlace(pages, t, a, p);
    UnlinkAbsent(a.(objUsed := a.objUsed - 1), p);
  }

  /** The page has lost its last object and is not the one allocated from. */
  ghost predicate LostLast(k: Heap, k': Heap, t: nat, p: nat, x: int)
  {
    && p < |k.objs| && |k.buddy.pages| == |k.objs| && t < |k.pool|
    && var a, g := k.pool[t], k.buddy.pages[p];
    && k'.pool == k.pool[t := Credited(a, g, p)] && g.objUsed == 1
    && k'.mem == k.mem[x := g.free] && k'.objs == k.objs[p := multiset{}]
    && SamePagesBut(k, k', p) && k'.buddy.pages[p].objUsed == 0
    && k'.buddy.pages[p].objAlloc == (if a.pageUsed >= 10 then None else Some(t))
    && k'.buddy.pages[p].free == (if a.pageUsed >= 10 then 0 else x)
    && k'.buddy.live == if a.pageUsed >= 10 then k.buddy.live - {p} else k.buddy.live
  }

  lemma LastSmall(k: Heap, t: nat, p: nat, x: int, k': Heap)
    requires KInv(k) && p < |k.objs| && x in k.objs[p] && k.buddy.pages[p].objAlloc == Some(t) && t < |k.pool|
    requires k.buddy.pages[p].objUsed <= 1 && k.pool[t].currPage != Some(p) && k.pool[t].pageUsed < 10
    requires k' == Settle(GiveBack(k, t, p, x), t, p)
    ensures LostLast(k, k', t, p, x)
  {
    LastObject(k, t, p, x);
    SettleLast(k, t, p, x);
    PartialOnly(k.buddy.pages, t, k.pool[t], p);
    EmptyEffect(k, t, p, x, k');
  }

  lemma LastLarge(k: Heap, t: nat, p: nat, x: int, k': Heap)
    requires KInv(k) && p < |k.objs| && x in k.objs[p] && k.buddy.pages[p].objAlloc == Some(t) && t < |k.pool|
    requires k.buddy.pages[p].objUsed <= 1 && k.pool[t].currPage != Some(p) && k.pool[t].pageUsed >= 10
    requires k' == Settle(GiveBack(k, t, p, x), t, p)
    ensures LostLast(k, k', t, p, x)
  {
    LastObject(k, t, p, x);
    SettleLast(k, t, p, x);
    PartialOnly(k.buddy.pages, t, k.pool[t], p);
    HandBackNumbered(k, p);
    BackEffect(k, t, p, x, k');
    LargeFields(k, t, p, x, k');
  }

  lemma LargeFields(k: Heap, t: nat, p: nat, x: int, k': Heap)
    requires p < |k.objs| == |k.buddy.pages| && t < |k.pool| && SamePagesBut(k, k', p)
    requires k.buddy.pages[p].objUsed == 1 && k.pool[t].currPage != Some(p) && k.pool[t].pageUsed >= 10
    requires 1 < k.pool[t].objPerPage
    requires var a := k.pool[t].(objUsed := k.pool[t].objUsed - 1);
             && k'.mem == k.mem[x := k.buddy.pages[p].free] && k'.objs == k.objs[p := multiset{}]
             && k'.pool == k.pool[t := Unlink(a, p).(pageUsed := a.pageUsed - 1)]
             && Unlink(a, p).full == a.full && Unlink(a, p).empty == a.empty
             && Unlink(a, p).partial == Remove(k.pool[t].partial, p)
    requires k'.buddy.live == k.buddy.live - {p}
    requires k'.buddy.pages[p].objUsed == 0 && k'.buddy.pages[p].objAlloc == None && k'.buddy.pages[p].free == 0
    ensures LostLast(k, k', t, p, x)
  {
  }

  lemma HandBackNumbered(k: Heap, p: nat)
    requires KInv(k) && p < |k.objs| && p in k.buddy.live
    ensures var g := k.buddy.pages[p].(free := NULL, objAlloc := None, objUsed := 0);
            Numbered(k.buddy.(pages := k.buddy.pages[p := g]))
  {
  }

  /** The page stays, on the empty list. */
  lemma EmptyEffect(k: Heap, t: nat, p: nat, x: int, k': Heap)
    requires Sized(k) && p < |k.objs| && k.objs[p] == multiset{x} && k.buddy.pages[p].objAlloc == Some(t) &&
             t < |k.pool|
    requires k.buddy.pages[p].objUsed == 1
    requires var a := k.pool[t].(objUsed := k.pool[t].objUsed - 1);
             && k'.mem == k.mem[x := k.buddy.pages[p].free] && k'.objs == k.objs[p := multiset{}]
             && k'.pool == k.pool[t := Unlink(a, p).(empty := Unlink(a, p).empty + [p])]
    requires k'.buddy == k.buddy.(pages := k.buddy.pages[p := k.buddy.pages[p].(free := x, objUsed := 0)])
    ensures SamePagesBut(k, k', p) && k'.buddy.live == k.buddy.live
    ensures var g := k'.buddy.pages[p]; g.objUsed == 0 && g.objAlloc == Some(t) && g.free == x
  {
    EmptiedGave(k, k', t, p, x);
  }

  /** The page goes back to the buddy allocator. */
  lemma BackEffect(k: Heap, t: nat, p: nat, x: int, k': Heap)
    requires KInv(k) && p < |k.objs| && k.objs[p] == multiset{x} && k.buddy.pages[p].objAlloc == Some(t) && t < |k.pool|
    requires p in k.buddy.live
    requires var a := k.pool[t].(objUsed := k.pool[t].objUsed - 1);
             && k'.mem == k.mem[x := k.buddy.pages[p].free] && k'.objs == k.objs[p := multiset{}]
             && k'.pool == k.pool[t := Unlink(a, p).(pageUsed := a.pageUsed - 1)]
    requires var g := k.buddy.pages[p].(free := NULL, objAlloc := None, objUsed := 0);
             var b := k.buddy.(pages := k.buddy.pages[p := g]);
             Numbered(b) && k'.buddy == FreeBlock(b, p)
    ensures SamePagesBut(k, k', p) && k'.buddy.live == k.buddy.live - {p}
    ensures k'.buddy.pages[p].objUsed == 0 && k'.buddy.pages[p].objAlloc == None && k'.buddy.pages[p].free == 0
  {
    var g := k.buddy.pages[p].(free := NULL, objAlloc := None, objUsed := 0);
    HandBack(k.buddy, p, g);
    assert SameObjFields(k.buddy.(pages := k.buddy.pages[p := g]), k'.buddy);
  }

  /** A release on the page that is allocated from. */
  lemma FreedCurrent(k: Heap, t: nat, p: nat, x: int, writeBack: bool)
    requires Ok(k, writeBack) && p < |k.objs| && x in k.objs[p] && k.buddy.pages[p].objAlloc == Some(t) && t < |k.pool|
    requires k.pool[t].currPage == Some(p)
    ensures x > 0 && k.pool[t].objsize != 0
    ensures var k1, g := ObjFree(k, x), k.buddy.pages[p];
            && |k1.objs| == |k.objs| && k1.pool == k.pool[t := k.pool[t].(objUsed := k.pool[t].objUsed - 1)]
            && k1.mem == k.mem[x := g.free] && k1.objs == k.objs[p := k.objs[p] - multiset{x}]
            && k1.buddy.pages[p].objUsed == g.objUsed - 1 && k1.buddy.pages[p].free == x
            && g.objUsed < k.pool[t].objPerPage
  {
    ObjFreeUnfolds(k, p, x);
    StayEffect(k, t, p, x, writeBack);
    CurrentFields(k, t, p, x, ObjFree(k, x));
  }

  lemma CurrentFields(k: Heap, t: nat, p: nat, x: int, k1: Heap)
    requires KInv(k) && p < |k.objs| && x in k.objs[p] && t < |k.pool| && k.pool[t].currPage == Some(p)
    requires Gave(k, k1, t, p, x) && k1.pool == k.pool[t := Credited(k.pool[t], k.buddy.pages[p], p)]
    ensures x > 0 && k.pool[t].objsize != 0
    ensures |k1.objs| == |k.objs| && k1.pool == k.pool[t := k.pool[t].(objUsed := k.pool[t].objUsed - 1)]
    ensures k1.buddy.pages[p].objUsed == k.buddy.pages[p].objUsed - 1 && k1.buddy.pages[p].free == x
    ensures k.buddy.pages[p].objUsed < k.pool[t].objPerPage
  {
    CurrentPage(k, t);
    assert PageOk(k, p);
  }

  /** Released last, handed out first: on the page that is allocated from, obj_allocate right after obj_free
      returns the object just released and, with the pop, puts the page back as it was. */
  lemma LastOutFirstIn(k: Heap, t: nat, p: nat, x: int, writeBack: bool)
    requires Ok(k, writeBack) && p < |k.objs| && x in k.objs[p] && k.buddy.pages[p].objAlloc == Some(t) && t < |k.pool|
    requires k.pool[t].currPage == Some(p)
    ensures var (k', r) := ObjAllocate(ObjFree(k, x), t, writeBack);
            && r == Addr(x) && p < |k'.buddy.pages| && k'.objs == k.objs && k'.pool == k.pool
            && (writeBack ==> k'.buddy.pages[p].free == k.buddy.pages[p].free
                              && k'.buddy.pages[p].objUsed == k.buddy.pages[p].objUsed)
  {
    FreedCurrent(k, t, p, x, writeBack);
    RetakeCurrent(k, ObjFree(k, x), t, p, x, writeBack);
  }

  lemma RetakeCurrent(k: Heap, k1: Heap, t: nat, p: nat, x: int, writeBack: bool)
    requires Sized(k) && Sized(k1) && p < |k.objs| == |k1.objs| && x in k.objs[p] && x > 0 && t < |k.pool|
    requires k.pool[t].currPage == Some(p) && k.pool[t].objsize != 0
    requires k1.pool == k.pool[t := k.pool[t].(objUsed := k.pool[t].objUsed - 1)]
    requires k1.mem == k.mem[x := k.buddy.pages[p].free] && k1.objs == k.objs[p := k.objs[p] - multiset{x}]
    requires k1.buddy.pages[p].objUsed == k.buddy.pages[p].objUsed - 1 && k1.buddy.pages[p].free == x
    requires k.buddy.pages[p].objUsed < k.pool[t].objPerPage
    ensures var (k', r) := ObjAllocate(k1, t, writeBack);
            && r == Addr(x) && p < |k'.buddy.pages| && k'.objs == k.objs && k'.pool == k.pool
            && (writeBack ==> k'.buddy.pages[p].free == k.buddy.pages[p].free
                              && k'.buddy.pages[p].objUsed == k.buddy.pages[p].objUsed)
  {
    assert ProvidePage(k1, t) == Some(k1);
    TakeFields(k1, t, p, writeBack);
    assert k.objs[p] - multiset{x} + multiset{x} == k.objs[p];
    assert TakeObject(k1, t, p, writeBack).0.pool[t] == k.pool[t];
  }

  // ---------------------------------------------------------------- kmalloc

  /** The power of two that holds a request with the least waste. */
  lemma TightSize(size: int, j: nat)
    requires size <= Pow2(j) && j > 0 && size > Pow2(j - 1)
    ensures size <= Pow2(j) < 2 * size
  {
  }

  /** At least the size, a power of two, less than twice the size and not below 8. */
  predicate Fits(size: int, bytes: int)
  {
    if size <= 8 then bytes == 8 else size <= bytes < 2 * size
  }

  lemma ClassSize(size: int, i: nat)
    requires i == SizeClass(size, MIN_KMALLOC_ORDER) <= MAX_KMALLOC_ORDER
    ensures Fits(size, Pow2(i))
  {
    assert Pow2(3) == 8;
    if size <= 8 { assert i == 3; } else { TightSize(size, i); }
  }

  lemma PageSize(size: int, j: nat)
    requires size > 2048 && j == PageOrder(size, 0) <= MAX_ORDER
    ensures Fits(size, BlockBytes(j))
  {
    assert Pow2(11) == 2048;
    if j > 0 { assert size > BlockBytes(j - 1); }
    TightSize(size, j + PAGE_SHIFT);
  }

  lemma SmallPiece(k: Heap, size: int, i: nat, writeBack: bool) returns (z: Piece)
    requires Ok(k, writeBack) && Ready(k) && i == SizeClass(size, MIN_KMALLOC_ORDER) <= MAX_KMALLOC_ORDER
    requires ObjAllocate(k, i - MIN_KMALLOC_ORDER, writeBack).1.Addr?
    ensures var (k', r) := ObjAllocate(k, i - MIN_KMALLOC_ORDER, writeBack);
            && Gained(k, k', z) && IsLive(k', z) && Lo(k', z) == r.addr && z.Obj?
            && Bytes(k', z) == Pow2(i) && Fits(size, Bytes(k', z))
  {
    ClassSize(size, i);
    z := ObjAllocateGains(k, i - MIN_KMALLOC_ORDER, writeBack);
  }

  /** What a request gets: an object of 8 to 2048 bytes, or whole pages, of the least power of two that holds it. */
  lemma KmallocSize(k: Heap, size: int, writeBack: bool) returns (z: Piece, j: nat)
    requires Ok(k, writeBack) && Ready(k) && Kmalloc(k, size, writeBack).1.Addr?
    ensures var (k', r) := Kmalloc(k, size, writeBack);
            && Gained(k, k', z) && IsLive(k', z) && Lo(k', z) == r.addr
            && Bytes(k', z) == Pow2(j) && Fits(size, Bytes(k', z))
            && (z.Obj? <==> size <= 2048)
  {
    SmallRequests(size);
    j := SizeClass(size, MIN_KMALLOC_ORDER);
    if size <= 2048 {
      z := SmallPiece(k, size, j, writeBack);
    } else {
      var order := PageOrder(size, 0);
      PageSize(size, order);
      z := BlockAllocGains(k, order, writeBack);
      j := order + PAGE_SHIFT;
    }
  }
}
