/** The invariants of the object allocators and of kmalloc over whole calls and whole runs. */
module SlabRuns {
  import opened Bits
  import opened Seqs
  import opened Buddy
  import opened BuddyInvariant
  import opened BuddyRuns
  import opened Slab
  import opened SlabInvariant

  // ---------------------------------------------------------------- the free list inside a page

  function SlotAddr(base: int, size: int, i: int): int { base + i * size }

  lemma SlotsApart(base: int, size: int, i: int, j: int)
    requires size > 0 && i < j
    ensures SlotAddr(base, size, i) + size <= SlotAddr(base, size, j)
  {
    MulAtLeast(size, j - i);
    MulSplit(size, i, j - i);
  }

  lemma SlotInFrame(base: int, size: int, i: int)
    requires MIN_ALLOCATED_OBJ_SIZE <= size <= MAX_ALLOCATED_OBJ_SIZE && 0 <= i < PAGE_SIZE / size
    ensures base <= SlotAddr(base, size, i) && SlotAddr(base, size, i) + size <= base + PAGE_SIZE
  {
    PerPage(size);
    SlotsApart(base, size, i, PAGE_SIZE / size);
    assert i * size >= 0;
    assert (PAGE_SIZE / size) * size == size * (PAGE_SIZE / size);
  }

  ghost predicate IsSlot(base: int, size: int, n: int, x: int)
  {
    exists i :: 0 <= i < n && x == SlotAddr(base, size, i)
  }

  /** The chain of links in object memory from head on is c, ending in NULL. */
  ghost predicate Chained(mem: map<int, int>, head: int, c: seq<int>)
    decreases |c|
  {
    if c == [] then head == NULL
    else head == c[0] && head != NULL && head in mem && Chained(mem, mem[head], c[1..])
  }

  /** The objects of a page: those handed out and those on the free list c are, each once, the slots
      below the high-water mark, which is the number of both together. */
  ghost predicate SlotsBy(g: Page, size: int, perPage: int, mem: map<int, int>, objs: multiset<int>, c: seq<int>)
  {
    && Chained(mem, g.free, c)
    && |objs| + |c| <= perPage
    && forall x :: objs[x] + Occurs(c, x) == if IsSlot(g.phyAddr, size, |objs| + |c|, x) then 1 else 0
  }

  ghost predicate SlotsOk(k: Heap, p: nat)
    requires Sized(k) && p < |k.objs|
  {
    var g := k.buddy.pages[p];
    g.objAlloc.Some? ==>
      g.objAlloc.value < |k.pool| &&
      var a := k.pool[g.objAlloc.value];
      exists c :: SlotsBy(g, a.objsize, a.objPerPage, k.mem, k.objs[p], c)
  }

  ghost predicate AllSlotsOk(k: Heap)
  {
    Sized(k) && forall p :: 0 <= p < |k.objs| ==> SlotsOk(k, p)
  }

  lemma {:induction false} ChainedFrame(mem: map<int, int>, mem': map<int, int>, head: int, c: seq<int>)
    requires Chained(mem, head, c) && forall x :: x in c ==> x in mem' && x in mem && mem'[x] == mem[x]
    ensures Chained(mem', head, c)
    decreases |c|
  {
    if c != [] {
      assert c == [c[0]] + c[1..];
      ChainedFrame(mem, mem', mem[head], c[1..]);
    }
  }

  lemma {:induction false} ChainedInMem(mem: map<int, int>, head: int, c: seq<int>)
    requires Chained(mem, head, c)
    ensures forall x :: x in c ==> x in mem && x != NULL
    decreases |c|
  {
    if c != [] {
      assert c == [c[0]] + c[1..];
      ChainedInMem(mem, mem[head], c[1..]);
    }
  }

  /** Writing one word leaves a chain alone that does not go through it. */
  lemma ChainedWrite(mem: map<int, int>, head: int, c: seq<int>, x: int, w: int)
    requires Chained(mem, head, c) && x !in c
    ensures Chained(mem[x := w], head, c)
  {
    ChainedInMem(mem, head, c);
    ChainedFrame(mem, mem[x := w], head, c);
  }

  /** The address a page offers next, with the free list popped: it was not handed out, and afterwards
      the page is again well formed. */
  lemma TakeSlot(g: Page, size: int, perPage: int, mem: map<int, int>, objs: multiset<int>, c: seq<int>)
    returns (c': seq<int>)
    requires SlotsBy(g, size, perPage, mem, objs, c) && size > 0
    requires g.objUsed == |objs| < perPage
    ensures var x := NextAddr(g, size);
            var g' := g.(objUsed := g.objUsed + 1, free := NextFree(g, mem, true));
            && x !in objs
            && IsSlot(g.phyAddr, size, perPage, x)
            && SlotsBy(g', size, perPage, mem, objs + multiset{x}, c')
  {
    var x := NextAddr(g, size);
    var n := |objs| + |c|;
    if c != [] {
      c' := c[1..];
      forall y ensures (objs + multiset{x})[y] + Occurs(c', y) == if IsSlot(g.phyAddr, size, n, y) then 1 else 0 {
        TailOccurs(c, y);
        assert objs[y] + Occurs(c, y) == if IsSlot(g.phyAddr, size, n, y) then 1 else 0;
      }
      assert objs[x] + Occurs(c, x) <= 1;
      assert Occurs(c, x) >= 1;
      var i :| 0 <= i < n && x == SlotAddr(g.phyAddr, size, i);
      assert IsSlot(g.phyAddr, size, perPage, x);
    } else {
      c' := [];
      assert x == SlotAddr(g.phyAddr, size, n);
      forall y ensures IsSlot(g.phyAddr, size, n + 1, y) <==> IsSlot(g.phyAddr, size, n, y) || y == x {
        BumpSlot(g.phyAddr, size, n, y);
      }
      BumpFresh(g.phyAddr, size, n);
      assert objs[x] + Occurs(c, x) == 0;
      forall y ensures (objs + multiset{x})[y] + Occurs(c', y) == if IsSlot(g.phyAddr, size, n + 1, y) then 1 else 0 {
        assert objs[y] + Occurs(c, y) == if IsSlot(g.phyAddr, size, n, y) then 1 else 0;
      }
    }
  }

  lemma BumpSlot(base: int, size: int, n: nat, y: int)
    ensures IsSlot(base, size, n + 1, y) <==> IsSlot(base, size, n, y) || y == SlotAddr(base, size, n)
  {
    if IsSlot(base, size, n, y) {
      var i :| 0 <= i < n && y == SlotAddr(base, size, i);
      assert 0 <= i < n + 1;
    }
  }

  lemma BumpFresh(base: int, size: int, n: nat)
    requires size > 0
    ensures !IsSlot(base, size, n, SlotAddr(base, size, n))
  {
    forall i | 0 <= i < n ensures SlotAddr(base, size, i) != SlotAddr(base, size, n) {
      SlotsApart(base, size, i, n);
    }
  }

  /** Linking a handed-out object in front of the free list. */
  lemma PutSlot(g: Page, size: int, perPage: int, mem: map<int, int>, objs: multiset<int>, c: seq<int>, x: int)
    requires SlotsBy(g, size, perPage, mem, objs, c) && x in objs && x != NULL
    ensures SlotsBy(g.(free := x, objUsed := g.objUsed - 1), size, perPage, mem[x := g.free],
                    objs - multiset{x}, [x] + c)
  {
    var n := |objs| + |c|;
    assert objs[x] + Occurs(c, x) <= 1;
    ChainedWrite(mem, g.free, c, x, g.free);
    assert ([x] + c)[1..] == c;
    forall y ensures (objs - multiset{x})[y] + Occurs([x] + c, y) == if IsSlot(g.phyAddr, size, n, y) then 1 else 0 {
      TailOccurs([x] + c, y);
      assert objs[y] + Occurs(c, y) == if IsSlot(g.phyAddr, size, n, y) then 1 else 0;
    }
  }

  /** The address macro inverts every address inside a frame. */
  lemma FrameToPfn(s: Buddy.State, p: nat, x: int)
    requires Numbered(s) && p < |s.pages| < MAX_PFN && InFrame(s.pages, p, x)
    ensures PhyAddrToPfn(x) == p
  {
    var y := x - LOW_MEMORY;
    assert Pow2(12) == 4096;
    Pow2Add(24, 24);
    assert Pow2(24) == 0x100_0000;
    assert Pow2(48) == 0x1_0000_0000_0000;
    assert 0 <= y < Pow2(48);
    assert y % 0x1_0000_0000_0000_0000 == y;
    MaskRoundsDown(y, 12, 48);
    var a := And(y, Mask(12, 48));
    AlignedIsMultiple(a, 12);
    assert a % 4096 == 0;
  }

  // ---------------------------------------------------------------- whole calls

  /** Whatever becomes of the list: the objects handed out and the one offered next are slots of the page. */
  ghost predicate Slotted(g: Page, size: int, perPage: int, objs: multiset<int>)
  {
    && (g.free == NULL || IsSlot(g.phyAddr, size, perPage, g.free))
    && forall x :: x in objs ==> IsSlot(g.phyAddr, size, perPage, x)
  }

  ghost predicate SlottedOk(k: Heap, p: nat)
    requires Sized(k) && p < |k.objs|
  {
    var g := k.buddy.pages[p];
    g.objAlloc.Some? ==>
      g.objAlloc.value < |k.pool| &&
      var a := k.pool[g.objAlloc.value];
      Slotted(g, a.objsize, a.objPerPage, k.objs[p])
  }

  ghost predicate AllSlotted(k: Heap)
  {
    Sized(k) && forall p :: 0 <= p < |k.objs| ==> SlottedOk(k, p)
  }

  /** All that a call relies on: bookkeeping, and the shape of the free lists as far as it is kept. */
  ghost predicate Ok(k: Heap, writeBack: bool)
  {
    KInv(k) && if writeBack then AllSlotsOk(k) else AllSlotted(k)
  }

  lemma SlotsAreSlotted(g: Page, size: int, perPage: int, mem: map<int, int>, objs: multiset<int>, c: seq<int>)
    requires SlotsBy(g, size, perPage, mem, objs, c)
    ensures Slotted(g, size, perPage, objs)
  {
    HeadOfChain(g, size, perPage, mem, objs, c);
    forall x | x in objs
      ensures IsSlot(g.phyAddr, size, perPage, x)
    {
      assert objs[x] + Occurs(c, x) > 0;
      var i :| 0 <= i < |objs| + |c| && x == SlotAddr(g.phyAddr, size, i);
    }
  }

  /** The stronger shape includes the weaker one. */
  lemma OkIsSlotted(k: Heap, writeBack: bool)
    requires Ok(k, writeBack)
    ensures AllSlotted(k)
  {
    if writeBack {
      forall p | 0 <= p < |k.objs|
        ensures SlottedOk(k, p)
      {
        assert SlotsOk(k, p);
        var g := k.buddy.pages[p];
        if g.objAlloc.Some? {
          var a := k.pool[g.objAlloc.value];
          var c :| SlotsBy(g, a.objsize, a.objPerPage, k.mem, k.objs[p], c);
          SlotsAreSlotted(g, a.objsize, a.objPerPage, k.mem, k.objs[p], c);
        }
      }
    }
  }

  ghost predicate SameSizes(k: Heap, k': Heap)
  {
    && |k'.pool| == |k.pool|
    && forall u :: 0 <= u < |k.pool| ==>
         k'.pool[u].objsize == k.pool[u].objsize && k'.pool[u].objPerPage == k.pool[u].objPerPage
  }

  /** The slab view of page q is the same in k and k'. */
  predicate SamePage(k: Heap, k': Heap, q: nat)
    requires q < |k.buddy.pages| == |k'.buddy.pages| == |k.objs| == |k'.objs|
  {
    var g, g' := k.buddy.pages[q], k'.buddy.pages[q];
    && g'.objUsed == g.objUsed && g'.objAlloc == g.objAlloc && g'.free == g.free && g'.phyAddr == g.phyAddr
    && k'.objs[q] == k.objs[q]
  }

  ghost predicate SamePagesBut(k: Heap, k': Heap, p: nat)
  {
    && |k.buddy.pages| == |k'.buddy.pages| == |k.objs| == |k'.objs|
    && forall q :: 0 <= q < |k.objs| && q != p ==> SamePage(k, k', q)
  }

  /** Only allocator t and page p, which no other allocator owns before or after, have changed. */
  lemma PoolFrame(k: Heap, k': Heap, t: nat, p: nat)
    requires PoolOk(k) && Sized(k') && SamePagesBut(k, k', p) && t < |k.pool|
    requires forall u :: 0 <= u < |k.pool| && u != t ==> k'.pool[u] == k.pool[u]
    requires p < |k.objs|
    requires k.buddy.pages[p].objAlloc == None || k.buddy.pages[p].objAlloc == Some(t)
    requires k'.buddy.pages[p].objAlloc == None || k'.buddy.pages[p].objAlloc == Some(t)
    requires AllocatorOk(k'.buddy.pages, t, k'.pool[t])
    ensures PoolOk(k')
  {
    forall u | 0 <= u < |k.pool| && u != t
      ensures AllocatorOk(k'.buddy.pages, u, k'.pool[u])
    {
      forall q: nat | q < |k.objs|
        ensures OwnedBy(k'.buddy.pages, u, q) <==> OwnedBy(k.buddy.pages, u, q)
        ensures OwnedBy(k.buddy.pages, u, q) ==> k'.buddy.pages[q].objUsed == k.buddy.pages[q].objUsed
      {
        if q != p { assert SamePage(k, k', q); }
      }
      AllocatorFrame(k.buddy.pages, k'.buddy.pages, u, k.pool[u]);
    }
  }

  lemma PagesFrame(k: Heap, k': Heap, p: nat)
    requires PagesOk(k) && Sized(k') && SamePagesBut(k, k', p) && SameSizes(k, k')
    requires forall h :: h in k.buddy.live && h != p ==> h in k'.buddy.live && k'.buddy.live[h] == k.buddy.live[h]
    requires p < |k.objs| ==> PageOk(k', p)
    ensures PagesOk(k')
  {
    forall q | 0 <= q < |k'.objs| ensures PageOk(k', q) {
      if q != p { assert PageOk(k, q) && SamePage(k, k', q); }
    }
  }

  lemma SlotsFrame(k: Heap, k': Heap, p: nat)
    requires AllSlotsOk(k) && Sized(k') && SamePagesBut(k, k', p) && SameSizes(k, k') && k'.mem == k.mem
    requires p < |k.objs| ==> SlotsOk(k', p)
    ensures AllSlotsOk(k')
  {
    forall q | 0 <= q < |k'.objs| ensures SlotsOk(k', q) {
      if q != p {
        assert SlotsOk(k, q) && SamePage(k, k', q);
        SlotsSame(k, k', q);
      }
    }
  }

  lemma SlottedFrame(k: Heap, k': Heap, p: nat)
    requires AllSlotted(k) && Sized(k') && SamePagesBut(k, k', p) && SameSizes(k, k')
    requires p < |k.objs| ==> SlottedOk(k', p)
    ensures AllSlotted(k')
  {
    forall q | 0 <= q < |k'.objs| ensures SlottedOk(k', q) {
      if q != p { assert SlottedOk(k, q) && SamePage(k, k', q); }
    }
  }

  lemma SlotsSame(k: Heap, k': Heap, q: nat)
    requires Sized(k) && Sized(k') && q < |k.objs| == |k'.objs| && SlotsOk(k, q) && SamePage(k, k', q)
    requires SameSizes(k, k') && k'.mem == k.mem
    ensures SlotsOk(k', q)
  {
    var g := k.buddy.pages[q];
    if g.objAlloc.Some? {
      var a := k.pool[g.objAlloc.value];
      var c :| SlotsBy(g, a.objsize, a.objPerPage, k.mem, k.objs[q], c);
      assert SlotsBy(k'.buddy.pages[q], a.objsize, a.objPerPage, k'.mem, k'.objs[q], c);
    }
  }

  /** Lines 234-241 only move a page between places. */
  lemma ReuseKeeps(k: Heap, t: nat, b: ObjAllocator, writeBack: bool)
    requires Ok(k, writeBack) && t < |k.pool| && AllocatorOk(k.buddy.pages, t, b)
    requires b.objsize == k.pool[t].objsize && b.objPerPage == k.pool[t].objPerPage
    ensures Ok(k.(pool := k.pool[t := b]), writeBack)
  {
    var k' := k.(pool := k.pool[t := b]);
    assert Sized(k') && SamePagesBut(k, k', |k.objs|) && SameSizes(k, k');
    assert PoolOk(k');
    PagesFrame(k, k', |k.objs|);
    if writeBack { SlotsFrame(k, k', |k.objs|); } else { SlottedFrame(k, k', |k.objs|); }
  }

  lemma FreshPage(k: Heap, t: nat) returns (p: nat)
    requires KInv(k) && t < |k.pool| && k.pool[t].objsize != 0
    requires k.pool[t].currPage.None? && k.pool[t].partial == [] && k.pool[t].empty == []
    requires ProvidePage(k, t).Some?
    ensures Adopted(k, ProvidePage(k, t).value, t, p)
  {
    var k' := ProvidePage(k, t).value;
    var (b, r) := Alloc(k.buddy, 0);
    p := r.value;
    AllocKeeps(k.buddy, 0);
    AllocObjFields(k.buddy, 0);
    SetPageInv(b, p, k'.buddy.pages[p]);
  }

  /** What lines 244-250 change, on any state that shows that change. */
  ghost predicate Adopted(k: Heap, k': Heap, t: nat, p: nat)
  {
    && t < |k.pool| && p < |k.objs|
    && Inv(k'.buddy) && Sized(k') && SamePagesBut(k, k', p)
    && k'.buddy.live == k.buddy.live[p := 0] && p !in k.buddy.live
    && k'.buddy.pages[p].objAlloc == Some(t) && k'.buddy.pages[p].objUsed == 0 && k'.buddy.pages[p].free == NULL
    && k'.pool == k.pool[t := k.pool[t].(pageUsed := k.pool[t].pageUsed + 1, currPage := Some(p))]
    && k'.mem == k.mem && k'.objs == k.objs
  }

  lemma AdoptedPool(k: Heap, k': Heap, t: nat, p: nat)
    requires PoolOk(k) && Adopted(k, k', t, p) && k.pool[t].objsize != 0 && k.pool[t].currPage.None?
    requires k.buddy.pages[p].objAlloc == None
    ensures PoolOk(k')
  {
    assert AllocatorOk(k.buddy.pages, t, k.pool[t]);
    assert OnlyPage(k.buddy.pages, k'.buddy.pages, p) by {
      forall q | 0 <= q < |k.objs| && q != p
        ensures k'.buddy.pages[q].objUsed == k.buddy.pages[q].objUsed &&
                k'.buddy.pages[q].objAlloc == k.buddy.pages[q].objAlloc
      {
        assert SamePage(k, k', q);
      }
    }
    AdoptPage(k.buddy.pages, k'.buddy.pages, t, k.pool[t], p);
    PoolFrame(k, k', t, p);
  }

  lemma AdoptedPages(k: Heap, k': Heap, t: nat, p: nat)
    requires PagesOk(k) && Adopted(k, k', t, p) && k.pool[t].objsize != 0
    ensures PagesOk(k') && k.buddy.pages[p].objAlloc == None
  {
    assert PageOk(k, p);
    assert PageOk(k', p);
    PagesFrame(k, k', p);
  }

  lemma AdoptedSlots(k: Heap, k': Heap, t: nat, p: nat)
    requires AllSlotsOk(k) && Adopted(k, k', t, p) && k.pool[t].objPerPage >= 0 && k.objs[p] == multiset{}
    ensures AllSlotsOk(k')
  {
    FreshSlots(k'.buddy.pages[p], k.pool[t].objsize, k.pool[t].objPerPage, k.mem);
    SlotsFrame(k, k', p);
  }

  lemma FreshKeeps(k: Heap, t: nat, writeBack: bool)
    requires Ok(k, writeBack) && t < |k.pool| && k.pool[t].objsize != 0
    requires k.pool[t].currPage.None? && k.pool[t].partial == [] && k.pool[t].empty == []
    requires ProvidePage(k, t).Some?
    ensures Ok(ProvidePage(k, t).value, writeBack)
  {
    var p := FreshPage(k, t);
    var k' := ProvidePage(k, t).value;
    AdoptedPages(k, k', t, p);
    AdoptedPool(k, k', t, p);
    assert PageOk(k, p);
    if writeBack {
      assert AllocatorOk(k.buddy.pages, t, k.pool[t]);
      PerPage(k.pool[t].objsize);
      AdoptedSlots(k, k', t, p);
    } else {
      SlottedFrame(k, k', p);
    }
  }

  lemma FreshSlots(g: Page, size: int, perPage: int, mem: map<int, int>)
    requires g.free == NULL && perPage >= 0
    ensures SlotsBy(g, size, perPage, mem, multiset{}, [])
  {
  }

  lemma ProvideKeeps(k: Heap, t: nat, writeBack: bool)
    requires Ok(k, writeBack) && t < |k.pool| && k.pool[t].objsize != 0 && ProvidePage(k, t).Some?
    ensures Ok(ProvidePage(k, t).value, writeBack)
  {
    var a := k.pool[t];
    assert AllocatorOk(k.buddy.pages, t, a);
    if a.currPage.None? {
      if a.partial != [] {
        ReusePartial(k.buddy.pages, t, a);
        ReuseKeeps(k, t, a.(partial := a.partial[1..], currPage := Some(a.partial[0])), writeBack);
      } else if a.empty != [] {
        ReuseEmpty(k.buddy.pages, t, a);
        ReuseKeeps(k, t, a.(empty := a.empty[1..], currPage := Some(a.empty[0])), writeBack);
      } else {
        FreshKeeps(k, t, writeBack);
      }
    }
  }

  /** What lines 254-273 change: object x of page p is handed out. */
  ghost predicate Took(k: Heap, k': Heap, t: nat, p: nat, x: int)
  {
    && t < |k.pool| && p < |k.objs|
    && Sized(k') && SamePagesBut(k, k', p) && SameSizes(k, k')
    && k'.buddy.live == k.buddy.live
    && k'.buddy.pages[p].phyAddr == k.buddy.pages[p].phyAddr
    && k'.buddy.pages[p].objAlloc == k.buddy.pages[p].objAlloc == Some(t)
    && k'.buddy.pages[p].objUsed == k.buddy.pages[p].objUsed + 1
    && (forall u :: 0 <= u < |k.pool| && u != t ==> k'.pool[u] == k.pool[u])
    && k'.mem == k.mem && k'.objs == k.objs[p := k.objs[p] + multiset{x}]
  }

  lemma CurrentPage(k: Heap, t: nat)
    requires KInv(k) && t < |k.pool| && k.pool[t].currPage.Some?
    ensures var p := k.pool[t].currPage.value;
            && p < |k.objs| && k.buddy.pages[p].objAlloc == Some(t) && k.pool[t].objsize != 0
            && 0 <= k.buddy.pages[p].objUsed < k.pool[t].objPerPage
            && k.buddy.pages[p].objUsed == |k.objs[p]|
  {
    var a := k.pool[t];
    assert AllocatorOk(k.buddy.pages, t, a);
    var p := a.currPage.value;
    assert p in Curr(a);
    InPlace(k.buddy.pages, t, a, p);
    assert PageOk(k, p);
  }

  lemma TookPool(k: Heap, k': Heap, t: nat, p: nat, x: int)
    requires PoolOk(k) && Took(k, k', t, p, x) && k.pool[t].currPage == Some(p)
    requires var b := k.pool[t].(objUsed := k.pool[t].objUsed + 1);
             k'.pool[t] == if b.objPerPage != k.buddy.pages[p].objUsed + 1 then b
                           else b.(full := b.full + [p], currPage := None)
    ensures PoolOk(k')
  {
    assert AllocatorOk(k.buddy.pages, t, k.pool[t]);
    assert OnlyUsed(k.buddy.pages, k'.buddy.pages, p) by {
      forall q | 0 <= q < |k.objs| && q != p
        ensures k'.buddy.pages[q].objUsed == k.buddy.pages[q].objUsed &&
                k'.buddy.pages[q].objAlloc == k.buddy.pages[q].objAlloc
      {
        assert SamePage(k, k', q);
      }
    }
    if k.pool[t].objPerPage == k.buddy.pages[p].objUsed + 1 {
      TakeFills(k.buddy.pages, k'.buddy.pages, t, k.pool[t], p);
    } else {
      TakeStays(k.buddy.pages, k'.buddy.pages, t, k.pool[t], p);
    }
    PoolFrame(k, k', t, p);
  }

  lemma TookPages(k: Heap, k': Heap, t: nat, p: nat, x: int)
    requires PagesOk(k) && Took(k, k', t, p, x)
    requires InFrame(k.buddy.pages, p, x)
    requires k'.buddy.pages[p].free == NULL || InFrame(k.buddy.pages, p, k'.buddy.pages[p].free)
    ensures PagesOk(k')
  {
    assert PageOk(k, p);
    assert PageOk(k', p);
    PagesFrame(k, k', p);
  }

  lemma IsSlotInFrame(pages: seq<Page>, p: nat, size: int, x: int)
    requires p < |pages| && MIN_ALLOCATED_OBJ_SIZE <= size <= MAX_ALLOCATED_OBJ_SIZE
    requires IsSlot(pages[p].phyAddr, size, PAGE_SIZE / size, x)
    ensures InFrame(pages, p, x) && x + size <= pages[p].phyAddr + PAGE_SIZE
  {
    var i :| 0 <= i < PAGE_SIZE / size && x == SlotAddr(pages[p].phyAddr, size, i);
    SlotInFrame(pages[p].phyAddr, size, i);
  }

  lemma HeadOfChain(g: Page, size: int, perPage: int, mem: map<int, int>, objs: multiset<int>, c: seq<int>)
    requires SlotsBy(g, size, perPage, mem, objs, c)
    ensures g.free == NULL || IsSlot(g.phyAddr, size, perPage, g.free)
  {
    if c != [] {
      assert objs[g.free] + Occurs(c, g.free) > 0;
      var i :| 0 <= i < |objs| + |c| && g.free == SlotAddr(g.phyAddr, size, i);
    }
  }

  /** The address offered next is a slot. */
  lemma OffersSlot(k: Heap, t: nat, p: nat)
    requires KInv(k) && AllSlotted(k) && t < |k.pool| && k.pool[t].currPage == Some(p)
    ensures p < |k.objs|
    ensures var g, a := k.buddy.pages[p], k.pool[t];
            IsSlot(g.phyAddr, a.objsize, a.objPerPage, NextAddr(g, a.objsize))
  {
    CurrentPage(k, t);
    var g, a := k.buddy.pages[p], k.pool[t];
    assert SlottedOk(k, p);
    if g.free == NULL { assert NextAddr(g, a.objsize) == SlotAddr(g.phyAddr, a.objsize, g.objUsed); }
  }

  /** The address and the next free-list head are inside the page, whichever way line 258 is read. */
  lemma TakeAddresses(k: Heap, t: nat, p: nat, writeBack: bool)
    requires Ok(k, writeBack) && t < |k.pool| && k.pool[t].currPage == Some(p)
    ensures p < |k.objs|
    ensures var g := k.buddy.pages[p];
            && InFrame(k.buddy.pages, p, NextAddr(g, k.pool[t].objsize))
            && (NextFree(g, k.mem, writeBack) == NULL || InFrame(k.buddy.pages, p, NextFree(g, k.mem, writeBack)))
  {
    CurrentPage(k, t);
    var g, a := k.buddy.pages[p], k.pool[t];
    assert AllocatorOk(k.buddy.pages, t, a);
    assert PageOk(k, p);
    if g.free == NULL {
      SlotInFrame(g.phyAddr, a.objsize, g.objUsed);
    } else if writeBack {
      assert SlotsOk(k, p);
      var c :| SlotsBy(g, a.objsize, a.objPerPage, k.mem, k.objs[p], c);
      var c' := TakeSlot(g, a.objsize, a.objPerPage, k.mem, k.objs[p], c);
      var g' := g.(objUsed := g.objUsed + 1, free := NextFree(g, k.mem, true));
      HeadOfChain(g', a.objsize, a.objPerPage, k.mem, k.objs[p] + multiset{NextAddr(g, a.objsize)}, c');
      if g'.free != NULL { IsSlotInFrame(k.buddy.pages, p, a.objsize, g'.free); }
    }
  }

  lemma TookSlots(k: Heap, k': Heap, t: nat, p: nat, x: int)
    requires AllSlotsOk(k) && Took(k, k', t, p, x) && k.pool[t].objsize > 0
    requires k.buddy.pages[p].objUsed == |k.objs[p]| < k.pool[t].objPerPage
    requires x == NextAddr(k.buddy.pages[p], k.pool[t].objsize)
    requires k'.buddy.pages[p].free == NextFree(k.buddy.pages[p], k.mem, true)
    ensures AllSlotsOk(k')
    ensures x !in k.objs[p]
  {
    assert SlotsOk(k, p);
    var g, a := k.buddy.pages[p], k.pool[t];
    var c :| SlotsBy(g, a.objsize, a.objPerPage, k.mem, k.objs[p], c);
    var c' := TakeSlot(g, a.objsize, a.objPerPage, k.mem, k.objs[p], c);
    assert SlotsBy(k'.buddy.pages[p], a.objsize, a.objPerPage, k'.mem, k'.objs[p], c');
    SlotsFrame(k, k', p);
  }

  lemma TookSlotted(k: Heap, k': Heap, t: nat, p: nat, x: int)
    requires KInv(k) && AllSlotted(k) && Took(k, k', t, p, x) && k.pool[t].currPage == Some(p)
    requires x == NextAddr(k.buddy.pages[p], k.pool[t].objsize) && k'.buddy.pages[p].free == k.buddy.pages[p].free
    ensures AllSlotted(k')
  {
    OffersSlot(k, t, p);
    assert SlottedOk(k, p);
    SlottedFrame(k, k', p);
  }

  lemma TakeObjectKeeps(k: Heap, t: nat, p: nat, writeBack: bool)
    requires Ok(k, writeBack) && t < |k.pool| && k.pool[t].currPage == Some(p)
    ensures p < |k.objs|
    ensures var (k', x) := TakeObject(k, t, p, writeBack);
            && Ok(k', writeBack) && Took(k, k', t, p, x) && InFrame(k.buddy.pages, p, x)
            && (writeBack ==> x !in k.objs[p])
  {
    CurrentPage(k, t);
    TakeAddresses(k, t, p, writeBack);
    var (k', x) := TakeObject(k, t, p, writeBack);
    assert AllocatorOk(k.buddy.pages, t, k.pool[t]);
    assert Took(k, k', t, p, x);
    SetPageInv(k.buddy, p, k'.buddy.pages[p]);
    TookPool(k, k', t, p, x);
    TookPages(k, k', t, p, x);
    if writeBack { TookSlots(k, k', t, p, x); } else { TookSlotted(k, k', t, p, x); }
  }

  /** What lines 310-315 change, wherever the page ends up in its allocator: object x of page p is
      given back. */
  ghost predicate Gave(k: Heap, k': Heap, t: nat, p: nat, x: int)
  {
    && t < |k.pool| && p < |k.objs| && x in k.objs[p]
    && Sized(k') && SamePagesBut(k, k', p) && SameSizes(k, k')
    && k'.buddy.live == k.buddy.live
    && k'.buddy.pages[p] == k.buddy.pages[p].(free := x, objUsed := k.buddy.pages[p].objUsed - 1)
    && k.buddy.pages[p].objAlloc == Some(t)
    && (forall u :: 0 <= u < |k.pool| && u != t ==> k'.pool[u] == k.pool[u])
    && k'.mem == k.mem[x := k.buddy.pages[p].free] && k'.objs == k.objs[p := k.objs[p] - multiset{x}]
  }

  lemma GavePages(k: Heap, k': Heap, t: nat, p: nat, x: int)
    requires PagesOk(k) && Gave(k, k', t, p, x)
    ensures PagesOk(k')
  {
    assert PageOk(k, p);
    assert PageOk(k', p);
    PagesFrame(k, k', p);
  }

  lemma FramesDisjoint(s: Buddy.State, p: nat, q: nat, x: int)
    requires Numbered(s) && p < |s.pages| && q < |s.pages| && InFrame(s.pages, p, x) && InFrame(s.pages, q, x)
    ensures p == q
  {
  }

  /** A word written inside frame p does not disturb the free list of another page. */
  lemma SlotsWrite(k: Heap, k': Heap, p: nat, q: nat, x: int, w: int)
    requires PoolOk(k) && Sized(k') && p < |k.objs| && q < |k.objs| == |k'.objs| && p != q
    requires SlotsOk(k, q) && SamePage(k, k', q) && SameSizes(k, k')
    requires InFrame(k.buddy.pages, p, x) && k'.mem == k.mem[x := w]
    ensures SlotsOk(k', q)
  {
    var g := k.buddy.pages[q];
    if g.objAlloc.Some? {
      var t := g.objAlloc.value;
      var a := k.pool[t];
      assert AllocatorOk(k.buddy.pages, t, a);
      var c :| SlotsBy(g, a.objsize, a.objPerPage, k.mem, k.objs[q], c);
      assert x !in c by {
        if x in c {
          ChainInFrame(k, q, t, c, x);
          FramesDisjoint(k.buddy, p, q, x);
        }
      }
      ChainedWrite(k.mem, g.free, c, x, w);
      assert SlotsBy(k'.buddy.pages[q], a.objsize, a.objPerPage, k'.mem, k'.objs[q], c);
    }
  }

  lemma ChainInFrame(k: Heap, q: nat, t: nat, c: seq<int>, x: int)
    requires Sized(k) && q < |k.objs| && OwnedBy(k.buddy.pages, t, q) && t < |k.pool|
    requires AllocatorOk(k.buddy.pages, t, k.pool[t])
    requires SlotsBy(k.buddy.pages[q], k.pool[t].objsize, k.pool[t].objPerPage, k.mem, k.objs[q], c)
    requires x in c || x in k.objs[q]
    ensures InFrame(k.buddy.pages, q, x) && IsSlot(k.buddy.pages[q].phyAddr, k.pool[t].objsize, k.pool[t].objPerPage, x)
    ensures x + k.pool[t].objsize <= k.buddy.pages[q].phyAddr + PAGE_SIZE
  {
    var g, a := k.buddy.pages[q], k.pool[t];
    InPlace(k.buddy.pages, t, a, q);
    assert a.objsize != 0;
    assert k.objs[q][x] + Occurs(c, x) > 0;
    assert IsSlot(g.phyAddr, a.objsize, |k.objs[q]| + |c|, x);
    var i :| 0 <= i < |k.objs[q]| + |c| && x == SlotAddr(g.phyAddr, a.objsize, i);
    assert 0 <= i < a.objPerPage;
    assert IsSlot(g.phyAddr, a.objsize, a.objPerPage, x);
    IsSlotInFrame(k.buddy.pages, q, a.objsize, x);
  }

  lemma GaveSlots(k: Heap, k': Heap, t: nat, p: nat, x: int)
    requires PoolOk(k) && AllSlotsOk(k) && Gave(k, k', t, p, x) && InFrame(k.buddy.pages, p, x)
    ensures AllSlotsOk(k')
  {
    forall q | 0 <= q < |k'.objs| ensures SlotsOk(k', q) {
      assert SlotsOk(k, q);
      if q == p {
        var g, a := k.buddy.pages[p], k.pool[t];
        var c :| SlotsBy(g, a.objsize, a.objPerPage, k.mem, k.objs[p], c);
        PutSlot(g, a.objsize, a.objPerPage, k.mem, k.objs[p], c, x);
        assert SlotsBy(k'.buddy.pages[p], a.objsize, a.objPerPage, k'.mem, k'.objs[p], [x] + c);
      } else {
        assert SamePage(k, k', q);
        SlotsWrite(k, k', p, q, x, k.buddy.pages[p].free);
      }
    }
  }

  lemma GaveSlotted(k: Heap, k': Heap, t: nat, p: nat, x: int)
    requires AllSlotted(k) && Gave(k, k', t, p, x)
    ensures AllSlotted(k')
  {
    assert SlottedOk(k, p);
    SlottedFrame(k, k', p);
  }

  lemma GaveKeeps(k: Heap, k': Heap, t: nat, p: nat, x: int, writeBack: bool)
    requires Ok(k, writeBack) && Gave(k, k', t, p, x) && k'.buddy == k.buddy.(pages := k'.buddy.pages)
    requires k'.buddy.pages == k.buddy.pages[p := k'.buddy.pages[p]]
    requires AllocatorOk(k'.buddy.pages, t, k'.pool[t])
    ensures Ok(k', writeBack)
  {
    assert PageOk(k, p);
    SetPageInv(k.buddy, p, k'.buddy.pages[p]);
    PoolFrame(k, k', t, p);
    GavePages(k, k', t, p, x);
    if writeBack { GaveSlots(k, k', t, p, x); } else { GaveSlotted(k, k', t, p, x); }
  }

  /** What lines 325-339 change for a page handed back to the buddy allocator. */
  ghost predicate Returned(k: Heap, k': Heap, t: nat, p: nat, x: int)
  {
    && t < |k.pool| && p < |k.objs| && k.objs[p] == multiset{x}
    && Sized(k') && SamePagesBut(k, k', p) && SameSizes(k, k')
    && k'.buddy.live == k.buddy.live - {p}
    && k.buddy.pages[p].objAlloc == Some(t) && k'.buddy.pages[p].objAlloc == None
    && (forall u :: 0 <= u < |k.pool| && u != t ==> k'.pool[u] == k.pool[u])
    && k'.mem == k.mem[x := k.buddy.pages[p].free] && k'.objs == k.objs[p := multiset{}]
  }

  lemma ReturnedKeeps(k: Heap, k': Heap, t: nat, p: nat, x: int, writeBack: bool)
    requires Ok(k, writeBack) && Returned(k, k', t, p, x) && Inv(k'.buddy)
    requires AllocatorOk(k'.buddy.pages, t, k'.pool[t])
    ensures Ok(k', writeBack)
  {
    assert PageOk(k, p);
    assert InFrame(k.buddy.pages, p, x);
    PoolFrame(k, k', t, p);
    assert PageOk(k', p);
    PagesFrame(k, k', p);
    if writeBack {
      forall q | 0 <= q < |k'.objs| ensures SlotsOk(k', q) {
        assert SlotsOk(k, q);
        if q != p {
          assert SamePage(k, k', q);
          SlotsWrite(k, k', p, q, x, k.buddy.pages[p].free);
        }
      }
    } else {
      SlottedFrame(k, k', p);
    }
  }

  lemma GivePages(k: Heap, k': Heap, t: nat, p: nat, x: int)
    requires Gave(k, k', t, p, x)
    ensures OnlyUsed(k.buddy.pages, k'.buddy.pages, p)
  {
    forall q | 0 <= q < |k.objs| && q != p
      ensures k'.buddy.pages[q].objUsed == k.buddy.pages[q].objUsed &&
              k'.buddy.pages[q].objAlloc == k.buddy.pages[q].objAlloc
    {
      assert SamePage(k, k', q);
    }
  }

  lemma StayedAllocator(k: Heap, k': Heap, t: nat, p: nat, x: int)
    requires PoolOk(k) && PagesOk(k) && Gave(k, k', t, p, x)
    requires k.buddy.pages[p].objUsed > 1 || k.pool[t].currPage == Some(p)
    requires k'.pool[t] == Demote(k.pool[t], p, k.buddy.pages[p].objUsed - 1)
    ensures AllocatorOk(k'.buddy.pages, t, k'.pool[t])
    ensures k'.buddy.pages[p].objUsed > 0 || k'.pool[t].currPage == Some(p)
  {
    var a, g := k.pool[t], k.buddy.pages[p];
    assert PageOk(k, p);
    assert AllocatorOk(k.buddy.pages, t, a);
    InPlace(k.buddy.pages, t, a, p);
    PerPage(a.objsize);
    GivePages(k, k', t, p, x);
    if g.objUsed == a.objPerPage {
      FullToPartial(k.buddy.pages, k'.buddy.pages, t, a, p);
    } else {
      GiveStays(k.buddy.pages, k'.buddy.pages, t, a, p);
    }
  }

  lemma StayedKeeps(k: Heap, k': Heap, t: nat, p: nat, x: int, writeBack: bool)
    requires Ok(k, writeBack) && Gave(k, k', t, p, x)
    requires k'.buddy == k.buddy.(pages := k.buddy.pages[p := k'.buddy.pages[p]])
    requires k.buddy.pages[p].objUsed > 1 || k.pool[t].currPage == Some(p)
    requires k'.pool[t] == Demote(k.pool[t], p, k.buddy.pages[p].objUsed - 1)
    ensures Ok(k', writeBack)
    ensures k'.buddy.pages[p].objUsed > 0 || k'.pool[t].currPage == Some(p)
  {
    StayedAllocator(k, k', t, p, x);
    GaveKeeps(k, k', t, p, x, writeBack);
  }

  /** A page that keeps objects, or is current, stays with its allocator. */
  lemma FreeStaysKeeps(k: Heap, t: nat, p: nat, x: int, writeBack: bool)
    requires Ok(k, writeBack) && p < |k.objs| && x in k.objs[p] && k.buddy.pages[p].objAlloc == Some(t) && t < |k.pool|
    requires k.buddy.pages[p].objUsed > 1 || k.pool[t].currPage == Some(p)
    ensures var k' := Settle(GiveBack(k, t, p, x), t, p);
            Ok(k', writeBack) && Gave(k, k', t, p, x)
  {
    var k' := GiveBack(k, t, p, x);
    assert SamePagesBut(k, k', p);
    assert Gave(k, k', t, p, x);
    StayedKeeps(k, k', t, p, x, writeBack);
    assert Settle(k', t, p) == k';
  }

  /** The last object of a page that is not current. */
  lemma LastObject(k: Heap, t: nat, p: nat, x: int)
    requires KInv(k) && p < |k.objs| && x in k.objs[p] && k.buddy.pages[p].objAlloc == Some(t) && t < |k.pool|
    requires k.buddy.pages[p].objUsed <= 1
    ensures k.buddy.pages[p].objUsed == 1 && k.objs[p] == multiset{x}
    ensures 1 < k.pool[t].objPerPage && k.pool[t].objsize != 0
    ensures Demote(k.pool[t], p, 0) == k.pool[t].(objUsed := k.pool[t].objUsed - 1)
    ensures AllocatorOk(k.buddy.pages, t, k.pool[t]) && p in k.buddy.live
  {
    assert PageOk(k, p);
    assert AllocatorOk(k.buddy.pages, t, k.pool[t]);
    PerPage(k.pool[t].objsize);
    assert k.objs[p] == multiset{x} + (k.objs[p] - multiset{x});
    assert |k.objs[p] - multiset{x}| == 0;
  }

  /** GiveBack and Settle together, for the last object of a page that is not current. */
  lemma SettleLast(k: Heap, t: nat, p: nat, x: int)
    requires KInv(k) && p < |k.objs| && x in k.objs[p] && k.buddy.pages[p].objAlloc == Some(t) && t < |k.pool|
    requires k.buddy.pages[p].objUsed <= 1 && k.pool[t].currPage != Some(p)
    ensures var a := k.pool[t].(objUsed := k.pool[t].objUsed - 1);
            var g := k.buddy.pages[p];
            var k' := Settle(GiveBack(k, t, p, x), t, p);
            && k'.mem == k.mem[x := g.free] && k'.objs == k.objs[p := multiset{}]
            && (a.pageUsed < RETURN_THRESHOLD ==>
                  && k'.buddy == k.buddy.(pages := k.buddy.pages[p := g.(free := x, objUsed := 0)])
                  && k'.pool == k.pool[t := Unlink(a, p).(empty := Unlink(a, p).empty + [p])])
            && (a.pageUsed >= RETURN_THRESHOLD ==>
                  && var b := k.buddy.(pages := k.buddy.pages[p := g.(free := NULL, objAlloc := None, objUsed := 0)]);
                  k'.buddy == FreeBlock(b, p)
                  && k'.pool == k.pool[t := Unlink(a, p).(pageUsed := a.pageUsed - 1)])
  {
    LastObject(k, t, p, x);
    var a := k.pool[t].(objUsed := k.pool[t].objUsed - 1);
    var g := k.buddy.pages[p];
    var k1 := GiveBack(k, t, p, x);
    assert k1.pool[t] == a;
    assert k1.buddy.pages[p] == g.(free := x, objUsed := 0);
    assert k1.buddy.pages[p := g.(free := NULL, objAlloc := None, objUsed := 0)]
        == k.buddy.pages[p := g.(free := NULL, objAlloc := None, objUsed := 0)];
    assert k1.objs == k.objs[p := multiset{}];
  }

  /** What GiveBack and Settle change when an emptied page stays with its allocator. */
  lemma EmptiedGave(k: Heap, k': Heap, t: nat, p: nat, x: int)
    requires Sized(k) && p < |k.objs| && k.objs[p] == multiset{x} && k.buddy.pages[p].objAlloc == Some(t) &&
             t < |k.pool|
    requires k.buddy.pages[p].objUsed == 1
    requires k'.mem == k.mem[x := k.buddy.pages[p].free] && k'.objs == k.objs[p := multiset{}]
    requires k'.buddy == k.buddy.(pages := k.buddy.pages[p := k.buddy.pages[p].(free := x, objUsed := 0)])
    requires var a := k.pool[t].(objUsed := k.pool[t].objUsed - 1);
             k'.pool == k.pool[t := Unlink(a, p).(empty := Unlink(a, p).empty + [p])]
    ensures Gave(k, k', t, p, x)
  {
    assert k.objs[p] - multiset{x} == multiset{};
    assert SamePagesBut(k, k', p);
  }

  lemma EmptiedAllocator(k: Heap, k': Heap, t: nat, p: nat, x: int)
    requires Gave(k, k', t, p, x) && AllocatorOk(k.buddy.pages, t, k.pool[t])
    requires k.buddy.pages[p].objUsed == 1 && k.pool[t].currPage != Some(p) && k.pool[t].objsize != 0
    ensures var a := Unlink(k.pool[t].(objUsed := k.pool[t].objUsed - 1), p);
            AllocatorOk(k'.buddy.pages, t, a.(empty := a.empty + [p]))
  {
    GivePages(k, k', t, p, x);
    PartialToEmpty(k.buddy.pages, k'.buddy.pages, t, k.pool[t], p);
  }

  lemma EmptiedKeeps(k: Heap, k': Heap, t: nat, p: nat, x: int, writeBack: bool)
    requires Ok(k, writeBack) && Gave(k, k', t, p, x)
    requires k'.buddy == k.buddy.(pages := k.buddy.pages[p := k'.buddy.pages[p]])
    requires k.buddy.pages[p].objUsed == 1 && k.pool[t].currPage != Some(p) && k.pool[t].objsize != 0
    requires var a := Unlink(k.pool[t].(objUsed := k.pool[t].objUsed - 1), p);
             k'.pool[t] == a.(empty := a.empty + [p])
    ensures Ok(k', writeBack)
  {
    assert AllocatorOk(k.buddy.pages, t, k.pool[t]);
    EmptiedAllocator(k, k', t, p, x);
    GaveKeeps(k, k', t, p, x, writeBack);
  }

  /** Handing a page back to the buddy allocator. */
  lemma HandBack(s: Buddy.State, p: nat, g: Page)
    requires Inv(s) && p in s.live && p < |s.pages|
    requires g.order == s.pages[p].order && g.used == s.pages[p].used && g.pfn == s.pages[p].pfn &&
             g.phyAddr == s.pages[p].phyAddr
    ensures var b := s.(pages := s.pages[p := g]);
            && Numbered(b) && Inv(FreeBlock(b, p)) && FreeBlock(b, p).live == s.live - {p}
            && SameObjFields(b, FreeBlock(b, p))
  {
    SetPageInv(s, p, g);
    var b := s.(pages := s.pages[p := g]);
    FreeKeeps(b, p);
    FreeObjFields(b, p);
  }

  lemma HandedBackReturned(k: Heap, k': Heap, t: nat, p: nat, x: int)
    requires Sized(k) && p < |k.objs| && k.objs[p] == multiset{x} && k.buddy.pages[p].objAlloc == Some(t) &&
             t < |k.pool|
    requires k'.mem == k.mem[x := k.buddy.pages[p].free] && k'.objs == k.objs[p := multiset{}]
    requires Numbered(k'.buddy) && k'.buddy.live == k.buddy.live - {p}
    requires var g := k.buddy.pages[p].(free := NULL, objAlloc := None, objUsed := 0);
             SameObjFields(k.buddy.(pages := k.buddy.pages[p := g]), k'.buddy)
    requires var a := k.pool[t].(objUsed := k.pool[t].objUsed - 1);
             k'.pool == k.pool[t := Unlink(a, p).(pageUsed := a.pageUsed - 1)]
    ensures Returned(k, k', t, p, x)
  {
    assert SamePagesBut(k, k', p);
  }

  lemma ReturnedPages(k: Heap, k': Heap, t: nat, p: nat, x: int)
    requires Sized(k) && Returned(k, k', t, p, x)
    ensures OnlyPage(k.buddy.pages, k'.buddy.pages, p)
  {
    forall q | 0 <= q < |k.objs| && q != p
      ensures k'.buddy.pages[q].objUsed == k.buddy.pages[q].objUsed &&
              k'.buddy.pages[q].objAlloc == k.buddy.pages[q].objAlloc
    {
      assert SamePage(k, k', q);
    }
  }

  lemma ReturnedAllocator(k: Heap, k': Heap, t: nat, p: nat, x: int)
    requires Sized(k) && Returned(k, k', t, p, x) && AllocatorOk(k.buddy.pages, t, k.pool[t])
    requires k.buddy.pages[p].objUsed == 1 && k.pool[t].currPage != Some(p) && k.pool[t].objsize != 0
    ensures var a := Unlink(k.pool[t].(objUsed := k.pool[t].objUsed - 1), p);
            AllocatorOk(k'.buddy.pages, t, a.(pageUsed := k.pool[t].pageUsed - 1))
  {
    ReturnedPages(k, k', t, p, x);
    PartialToBuddy(k.buddy.pages, k'.buddy.pages, t, k.pool[t], p);
  }

  lemma HandedBackKeeps(k: Heap, k': Heap, t: nat, p: nat, x: int, writeBack: bool)
    requires Ok(k, writeBack) && Returned(k, k', t, p, x) && Inv(k'.buddy)
    requires k.buddy.pages[p].objUsed == 1 && k.pool[t].currPage != Some(p) && k.pool[t].objsize != 0
    requires k'.pool[t] == Unlink(k.pool[t].(objUsed := k.pool[t].objUsed - 1), p).(pageUsed := k.pool[t].pageUsed - 1)
    ensures Ok(k', writeBack)
  {
    assert AllocatorOk(k.buddy.pages, t, k.pool[t]);
    ReturnedAllocator(k, k', t, p, x);
    ReturnedKeeps(k, k', t, p, x, writeBack);
  }

  lemma FreeLastKeeps(k: Heap, t: nat, p: nat, x: int, writeBack: bool)
    requires Ok(k, writeBack) && p < |k.objs| && x in k.objs[p] && k.buddy.pages[p].objAlloc == Some(t) && t < |k.pool|
    requires k.buddy.pages[p].objUsed <= 1 && k.pool[t].currPage != Some(p)
    ensures var k' := Settle(GiveBack(k, t, p, x), t, p);
            Ok(k', writeBack) && (Gave(k, k', t, p, x) || Returned(k, k', t, p, x))
  {
    LastObject(k, t, p, x);
    SettleLast(k, t, p, x);
    var k' := Settle(GiveBack(k, t, p, x), t, p);
    if k.pool[t].pageUsed < RETURN_THRESHOLD {
      EmptiedGave(k, k', t, p, x);
      EmptiedKeeps(k, k', t, p, x, writeBack);
    } else {
      HandBack(k.buddy, p, k.buddy.pages[p].(free := NULL, objAlloc := None, objUsed := 0));
      HandedBackReturned(k, k', t, p, x);
      HandedBackKeeps(k, k', t, p, x, writeBack);
    }
  }

  /** Object x of page p has been given back, and its page to the buddy allocator at most. */
  ghost predicate Freed(k: Heap, k': Heap, p: nat, x: int)
  {
    && |k.objs| == |k.buddy.pages| == |k'.buddy.pages| && p < |k.objs| && SameSizes(k, k')
    && k'.objs == k.objs[p := k.objs[p] - multiset{x}]
    && (k'.buddy.live == k.buddy.live || k'.buddy.live == k.buddy.live - {p})
    && (k'.buddy.live == k.buddy.live ==> k'.buddy.pages[p].objAlloc == k.buddy.pages[p].objAlloc)
    && (forall q :: 0 <= q < |k.objs| && q != p ==> k'.buddy.pages[q].objAlloc == k.buddy.pages[q].objAlloc)
  }

  lemma GoneIsFreed(k: Heap, k': Heap, t: nat, p: nat, x: int)
    requires Sized(k) && (Gave(k, k', t, p, x) || (Returned(k, k', t, p, x) && p in k.buddy.live))
    ensures Freed(k, k', p, x)
  {
    forall q | 0 <= q < |k.objs| && q != p
      ensures k'.buddy.pages[q].objAlloc == k.buddy.pages[q].objAlloc
    {
      assert SamePage(k, k', q);
    }
    if Gave(k, k', t, p, x) {
      assert Freed(k, k', p, x);
    } else {
      assert k.objs[p] - multiset{x} == multiset{};
      assert p in k.buddy.live && p !in k'.buddy.live;
      assert Freed(k, k', p, x);
    }
  }

  lemma ObjFreeUnfolds(k: Heap, p: nat, x: int)
    requires KInv(k) && p < |k.objs| && x in k.objs[p]
    ensures k.buddy.pages[p].objAlloc.Some? && k.buddy.pages[p].objAlloc.value < |k.pool| && p in k.buddy.live
    ensures PhyAddrToPfn(x) == p
    ensures var t := k.buddy.pages[p].objAlloc.value;
            ObjFree(k, x) == Settle(GiveBack(k, t, p, x), t, p)
  {
    assert PageOk(k, p);
    FrameToPfn(k.buddy, p, x);
  }

  /** obj_free on a live object. */
  lemma ObjFreeKeeps(k: Heap, p: nat, x: int, writeBack: bool)
    requires Ok(k, writeBack) && p < |k.objs| && x in k.objs[p]
    ensures Ok(ObjFree(k, x), writeBack) && Freed(k, ObjFree(k, x), p, x)
    ensures k.buddy.pages[p].objAlloc.Some? && PhyAddrToPfn(x) == p
    ensures var t := k.buddy.pages[p].objAlloc.value;
            Gave(k, ObjFree(k, x), t, p, x) || Returned(k, ObjFree(k, x), t, p, x)
  {
    ObjFreeUnfolds(k, p, x);
    var t := k.buddy.pages[p].objAlloc.value;
    if k.buddy.pages[p].objUsed > 1 || k.pool[t].currPage == Some(p) {
      FreeStaysKeeps(k, t, p, x, writeBack);
    } else {
      FreeLastKeeps(k, t, p, x, writeBack);
    }
    GoneIsFreed(k, ObjFree(k, x), t, p, x);
  }
}
