/** Runs from mm_init with line 258 of src/mm.c as it stands: exactly when two grants clash. */
module LiteralRuns {
  import opened Seqs
  import opened Bits
  import opened Buddy
  import opened BuddyTheorems
  import opened Slab
  import opened SlabInvariant
  import opened SlabRuns
  import opened KmallocRuns
  import opened KmallocGrants
  import SlabLiteral

  type PageOp = SlabLiteral.PageOp

  // ---------------------------------------------------------------- a run as seen from one page

  function Owner(k: Heap, p: nat): Option<nat>
  {
    if p < |k.buddy.pages| then k.buddy.pages[p].objAlloc else None
  }

  /** The address that a call hands out or takes back, if any. */
  datatype Effect = Takes(addr: int) | Gives(addr: int) | Neither

  function Handed(r: Outcome): Effect { if r.Addr? then Takes(r.addr) else Neither }

  function EffectOf(w: World, c: Call): Effect
    requires Sized(w.heap)
  {
    match c
    case KmallocCall(size) => Handed(Kmalloc(w.heap, size, false).1)
    case ObjAllocateCall(token) => Handed(ObjAllocate(w.heap, token, false).1)
    case KfreeCall(i) => if i < |w.grants| then Gives(w.grants[i].addr) else Neither
    case _ => Neither
  }

  /** What has happened on page p after one more call, k' being the heap after it.  A page that goes
      back to the buddy allocator forgets. */
  function Extend(k: Heap, e: Effect, k': Heap, p: nat, ops: seq<PageOp>): seq<PageOp>
  {
    match e
    case Takes(x) => if PhyAddrToPfn(x) == p && Owner(k', p).Some? then ops + [SlabLiteral.TakeOp] else ops
    case Gives(x) =>
      if PhyAddrToPfn(x) == p && Owner(k, p).Some? then
        if Owner(k', p).Some? then ops + [SlabLiteral.PutOp(x)] else []
      else ops
    case Neither => ops
  }

  function ExtendAll(k: Heap, e: Effect, k': Heap, h: seq<seq<PageOp>>): (h': seq<seq<PageOp>>)
    ensures |h'| == |h| && forall p :: 0 <= p < |h| ==> h'[p] == Extend(k, e, k', p, h[p])
  {
    seq(|h|, p requires 0 <= p < |h| => Extend(k, e, k', p, h[p]))
  }

  /** For every page, the allocations from and releases to it since an object allocator last adopted it. */
  function Histories(m: nat, calls: seq<Call>): seq<seq<PageOp>>
    requires MAX_ORDER_SIZE * m < MAX_PFN
  {
    if calls == [] then seq(MAX_ORDER_SIZE * m, _ => [])
    else
      var w := After(m, Init(calls), false);
      ExtendAll(w.heap, EffectOf(w, Last(calls)), Serve(w, Last(calls), false).heap, Histories(m, Init(calls)))
  }

  // ---------------------------------------------------------------- the page machine is what the code does

  /** The page machine, run on ops, is in the state of page g with these live objects. */
  ghost predicate Mirrors(g: Page, size: int, objs: multiset<int>, ops: seq<PageOp>)
  {
    && SlabLiteral.LegalOps(g.phyAddr, size, ops)
    && var s := SlabLiteral.After(g.phyAddr, size, ops);
    && s.page.objUsed == g.objUsed && s.page.free == g.free && s.page.phyAddr == g.phyAddr && s.objs == objs
  }

  ghost predicate Agrees(k: Heap, p: nat, ops: seq<PageOp>)
    requires Sized(k) && p < |k.objs|
  {
    match k.buddy.pages[p].objAlloc
    case None => ops == []
    case Some(t) => t < |k.pool| && Mirrors(k.buddy.pages[p], k.pool[t].objsize, k.objs[p], ops)
  }

  lemma MirrorsTake(g: Page, g': Page, size: int, objs: multiset<int>, ops: seq<PageOp>)
    requires Mirrors(g, size, objs, ops)
    requires g'.phyAddr == g.phyAddr && g'.objUsed == g.objUsed + 1 && g'.free == g.free
    ensures Mirrors(g', size, objs + multiset{NextAddr(g, size)}, ops + [SlabLiteral.TakeOp])
  {
    SlabLiteral.AfterTake(g.phyAddr, size, ops);
    MirrorsOffers(g, size, objs, ops);
    MirrorsTaken(g, g', size, SlabLiteral.After(g.phyAddr, size, ops));
  }

  lemma MirrorsTaken(g: Page, g': Page, size: int, s: SlabLiteral.PageState)
    requires s.page.objUsed == g.objUsed && s.page.free == g.free && s.page.phyAddr == g.phyAddr
    requires g'.phyAddr == g.phyAddr && g'.objUsed == g.objUsed + 1 && g'.free == g.free
    requires NextAddr(s.page, size) == NextAddr(g, size)
    ensures var s' := SlabLiteral.Take(s, size);
            && s'.page.objUsed == g'.objUsed && s'.page.free == g'.free && s'.page.phyAddr == g'.phyAddr
            && s'.objs == s.objs + multiset{NextAddr(g, size)}
  {
  }

  lemma MirrorsPut(g: Page, size: int, objs: multiset<int>, ops: seq<PageOp>, x: int)
    requires Mirrors(g, size, objs, ops) && x in objs
    ensures Mirrors(g.(free := x, objUsed := g.objUsed - 1), size, objs - multiset{x}, ops + [SlabLiteral.PutOp(x)])
  {
    SlabLiteral.AfterPut(g.phyAddr, size, ops, x);
  }

  /** Object x of page p, which allocator t owned or has just adopted, is handed out. */
  ghost predicate TakesOn(k: Heap, k': Heap, t: nat, p: nat, x: int)
  {
    && Sized(k) && Sized(k') && t < |k.pool| && p < |k.objs| && SamePagesBut(k, k', p) && SameSizes(k, k')
    && PhyAddrToPfn(x) == p && k.pool[t].objsize > 0
    && k'.buddy.pages[p].objAlloc == Some(t)
    && (k.buddy.pages[p].objAlloc == Some(t) || (k.buddy.pages[p].objAlloc == None && k.objs[p] == multiset{}))
    && var g := Adoptee(k.buddy.pages[p]);
    && x == NextAddr(g, k.pool[t].objsize)
    && k'.buddy.pages[p].objUsed == g.objUsed + 1 && k'.buddy.pages[p].free == g.free
    && k'.objs[p] == k.objs[p] + multiset{x}
    && Gained(k, k', Obj(p, x))
  }

  /** The page as an allocation from it finds it. */
  function Adoptee(g: Page): Page
  {
    if g.objAlloc.None? then g.(objUsed := 0, free := NULL) else g
  }

  /** Object x of page p is taken back. */
  ghost predicate GivesOn(k: Heap, k': Heap, t: nat, p: nat, x: int)
  {
    && Sized(k) && PhyAddrToPfn(x) == p && (Gave(k, k', t, p, x) || Returned(k, k', t, p, x))
    && Lost(k, k', Obj(p, x))
  }

  /** No slab page takes part. */
  ghost predicate NoPage(k: Heap, k': Heap, e: Effect)
  {
    && Sized(k) && Sized(k') && SamePagesBut(k, k', |k.objs|)
    && (forall q: nat :: q < |k.objs| && Owner(k, q).Some? ==>
          Owner(k, q).value < |k.pool| && k'.pool[Owner(k, q).value].objsize == k.pool[Owner(k, q).value].objsize)
    && (e.Takes? ==> Owner(k', PhyAddrToPfn(e.addr)).None?)
    && (e.Gives? ==> Owner(k, PhyAddrToPfn(e.addr)).None?)
    && (forall z :: Held(k', z) <= Held(k, z) || Held(k', z) <= 1)
  }

  /** Every call is one of the three. */
  ghost predicate Classified(k: Heap, k': Heap, e: Effect)
  {
    || (e.Takes? && exists t: nat, p: nat :: TakesOn(k, k', t, p, e.addr))
    || (e.Gives? && exists t: nat, p: nat :: GivesOn(k, k', t, p, e.addr))
    || NoPage(k, k', e)
  }

  /** obj_allocate takes from the current page, which it may just have adopted. */
  lemma ObjAllocateTakes(k: Heap, t: nat)
    requires Ok(k, false) && t < |k.pool| && ObjAllocate(k, t, false).1.Addr?
    ensures var (k', r) := ObjAllocate(k, t, false); exists p: nat :: TakesOn(k, k', t, p, r.addr)
  {
    ProvideGains(k, t, false);
    var k1 := ProvidePage(k, t).value;
    var p := k1.pool[t].currPage.value;
    CurrentPage(k1, t);
    TakeObjectKeeps(k1, t, p, false);
    var (k', x) := TakeObject(k1, t, p, false);
    TakeGains(k1, k', t, p, x);
    GainedAfter(k, k1, k', Obj(p, x));
    FrameToPfn(k1.buddy, p, x);
    ProvidedPage(k, k1, t, p);
    TookAfter(k, k1, k', t, p, x);
  }

  /** Obtaining a page leaves every page alone, or adopts the one it obtains. */
  lemma ProvidedPage(k: Heap, k1: Heap, t: nat, p: nat)
    requires Ok(k, false) && t < |k.pool| && k.pool[t].objsize != 0 && ProvidePage(k, t) == Some(k1)
    requires k1.pool[t].currPage == Some(p) && p < |k.objs| && Owner(k1, p) == Some(t)
    ensures |k1.objs| == |k.objs| && SamePagesBut(k, k1, p) && SameSizes(k, k1)
    ensures k1.objs == k.objs && k1.buddy.pages[p].objUsed == Adoptee(k.buddy.pages[p]).objUsed
    ensures k1.buddy.pages[p].free == Adoptee(k.buddy.pages[p]).free &&
            k1.buddy.pages[p].phyAddr == k.buddy.pages[p].phyAddr
    ensures k.buddy.pages[p].objAlloc == Some(t) || (k.buddy.pages[p].objAlloc == None && k.objs[p] == multiset{})
  {
    var a := k.pool[t];
    if a.currPage.None? && a.partial == [] && a.empty == [] {
      var q := FreshPage(k, t);
      assert PageOk(k, q);
    }
  }

  lemma TookAfter(k: Heap, k1: Heap, k': Heap, t: nat, p: nat, x: int)
    requires Sized(k) && Sized(k1) && t < |k.pool| && p < |k.objs| && |k1.objs| == |k.objs|
    requires SamePagesBut(k, k1, p) && SameSizes(k, k1) && k1.objs == k.objs
    requires k1.buddy.pages[p].objUsed == Adoptee(k.buddy.pages[p]).objUsed
    requires k1.buddy.pages[p].free == Adoptee(k.buddy.pages[p]).free &&
             k1.buddy.pages[p].phyAddr == k.buddy.pages[p].phyAddr
    requires k.buddy.pages[p].objAlloc == Some(t) || (k.buddy.pages[p].objAlloc == None && k.objs[p] == multiset{})
    requires Took(k1, k', t, p, x) && x == NextAddr(k1.buddy.pages[p], k1.pool[t].objsize) && k.pool[t].objsize > 0
    requires k'.buddy.pages[p].free == k1.buddy.pages[p].free
    requires PhyAddrToPfn(x) == p && Gained(k, k', Obj(p, x))
    ensures TakesOn(k, k', t, p, x)
  {
    forall q | 0 <= q < |k.objs| && q != p
      ensures SamePage(k, k', q)
    {
      assert SamePage(k, k1, q) && SamePage(k1, k', q);
    }
  }

  lemma OwnersRegistered(k: Heap)
    requires PagesOk(k)
    ensures forall q: nat :: q < |k.objs| && Owner(k, q).Some? ==>
              Owner(k, q).value < |k.pool| && k.pool[Owner(k, q).value].objsize != 0
  {
    forall q: nat | q < |k.objs| && Owner(k, q).Some?
      ensures Owner(k, q).value < |k.pool| && k.pool[Owner(k, q).value].objsize != 0
    {
      assert PageOk(k, q);
    }
  }

  lemma NothingDone(k: Heap)
    requires Ok(k, false)
    ensures NoPage(k, k, Neither)
  {
    OwnersRegistered(k);
  }

  lemma SmallClassified(k: Heap, t: nat, k': Heap, r: Outcome)
    requires Ok(k, false) && t < |k.pool| && (k', r) == ObjAllocate(k, t, false) && r.Addr?
    ensures Classified(k, k', Handed(r))
  {
    ObjAllocateTakes(k, t);
  }

  lemma LargeClassified(k: Heap, order: nat, k': Heap, r: Outcome)
    requires Ok(k, false) && Alloc(k.buddy, order).1.Some?
    requires var (b, h) := Alloc(k.buddy, order);
             h.value < |b.pages| && k' == k.(buddy := b) && r == Addr(b.pages[h.value].phyAddr)
    ensures Classified(k, k', Handed(r))
  {
    BlockClassified(k, order);
  }

  lemma KmallocClassified(k: Heap, size: int, k': Heap, r: Outcome)
    requires Ok(k, false) && Ready(k) && (k', r) == Kmalloc(k, size, false) && !r.Fault?
    ensures Classified(k, k', Handed(r))
  {
    var i := SizeClass(size, MIN_KMALLOC_ORDER);
    if r.Null? {
      KmallocKeeps(k, size, false);
      NothingDone(k);
    } else if i <= MAX_KMALLOC_ORDER {
      SmallClassified(k, i - MIN_KMALLOC_ORDER, k', r);
    } else {
      LargeClassified(k, PageOrder(size, 0), k', r);
    }
  }

  lemma BlockClassified(k: Heap, order: nat)
    requires Ok(k, false) && Alloc(k.buddy, order).1.Some?
    ensures var (b, r) := Alloc(k.buddy, order);
            r.value < |b.pages| && NoPage(k, k.(buddy := b), Takes(b.pages[r.value].phyAddr))
  {
    var z := BlockAllocGains(k, order, false);
    var (b, r) := Alloc(k.buddy, order);
    var k' := k.(buddy := b);
    OwnersRegistered(k);
    FrameToPfn(b, r.value, b.pages[r.value].phyAddr);
    forall y ensures Held(k', y) <= Held(k, y) || Held(k', y) <= 1 {
      assert Held(k', y) == Held(k, y) + if y == z then 1 else 0;
    }
  }

  lemma KfreeClassified(k: Heap, z: Piece)
    requires Ok(k, false) && IsLive(k, z)
    ensures Classified(k, Kfree(k, Lo(k, z)), Gives(Lo(k, z)))
  {
    KfreeDispatches(k, z);
    KfreeLoses(k, z, false);
    match z {
      case Obj(p, x) =>
        ObjFreeKeeps(k, p, x, false);
        assert GivesOn(k, ObjFree(k, x), k.buddy.pages[p].objAlloc.value, p, x);
      case Block(h) =>
        BlockFreed(k, h, false);
        OwnersRegistered(k);
        var k' := Kfree(k, Lo(k, z));
        forall y ensures Held(k', y) <= Held(k, y) {
          assert Held(k', y) == Held(k, y) - if y == z then 1 else 0;
        }
        assert NoPage(k, k', Gives(Lo(k, z)));
    }
  }

  lemma RegisterClassified(k: Heap, objsize: int)
    requires Ok(k, false)
    ensures NoPage(k, WithPool(k, Register(k.pool, objsize).0), Neither)
  {
    OwnersRegistered(k);
    RegisterKeeps(k, objsize, false);
    RegisterFromIs(k.pool, Clamp(objsize), 0);
  }

  lemma ObjAllocateClassified(k: Heap, token: int)
    requires Ok(k, false) && Ready(k)
    ensures var (k', r) := ObjAllocate(k, token, false); !r.Fault? ==> Classified(k, k', Handed(r))
  {
    ObjAllocateKeeps(k, token, false);
    if ObjAllocate(k, token, false).1.Addr? { ObjAllocateTakes(k, token); } else { NothingDone(k); }
  }

  lemma PokeClassified(k: Heap, x: int, word: int)
    requires Ok(k, false)
    ensures NoPage(k, Poke(k, x, word), Neither)
  {
    NothingDone(k);
  }

  lemma KmallocCallClassified(w: World, size: int)
    requires Ok(w.heap, false) && Ready(w.heap) && Legal(w, KmallocCall(size), false)
    ensures Classified(w.heap, Serve(w, KmallocCall(size), false).heap, EffectOf(w, KmallocCall(size)))
  {
    var (k, r) := Kmalloc(w.heap, size, false);
    KmallocClassified(w.heap, size, k, r);
  }

  lemma ObjAllocateCallClassified(w: World, token: int)
    requires Ok(w.heap, false) && Ready(w.heap) && Legal(w, ObjAllocateCall(token), false)
    ensures Classified(w.heap, Serve(w, ObjAllocateCall(token), false).heap, EffectOf(w, ObjAllocateCall(token)))
  {
    ObjAllocateClassified(w.heap, token);
  }

  lemma KfreeCallClassified(w: World, zs: seq<Piece>, i: nat)
    requires WorldOk(w, zs, false) && i < |w.grants|
    ensures Classified(w.heap, Serve(w, KfreeCall(i), false).heap, EffectOf(w, KfreeCall(i)))
  {
    assert Backs(w.heap, zs[i], w.grants[i]);
    KfreeClassified(w.heap, zs[i]);
  }

  lemma Classify(w: World, zs: seq<Piece>, c: Call)
    requires WorldOk(w, zs, false) && Legal(w, c, false)
    ensures Classified(w.heap, Serve(w, c, false).heap, EffectOf(w, c))
  {
    match c {
      case KmallocCall(size) => KmallocCallClassified(w, size);
      case ObjAllocateCall(token) => ObjAllocateCallClassified(w, token);
      case KfreeCall(i) => KfreeCallClassified(w, zs, i);
      case RegisterCall(objsize) => RegisterClassified(w.heap, objsize);
      case PokeCall(i, offset, word) => PokeClassified(w.heap, w.grants[i].addr + offset, word);
    }
  }

  // ---------------------------------------------------------------- one step keeps the agreement

  lemma AgreesSame(k: Heap, k': Heap, q: nat, ops: seq<PageOp>)
    requires Sized(k) && Sized(k') && |k'.objs| == |k.objs| && q < |k.objs| && SamePage(k, k', q) && Agrees(k, q, ops)
    requires Owner(k, q).Some? ==>
               Owner(k, q).value < |k.pool| && k'.pool[Owner(k, q).value].objsize == k.pool[Owner(k, q).value].objsize
    ensures Agrees(k', q, ops)
  {
  }

  lemma AgreesTake(k: Heap, k': Heap, t: nat, p: nat, x: int, ops: seq<PageOp>)
    requires TakesOn(k, k', t, p, x) && Agrees(k, p, ops)
    ensures Mirrors(Adoptee(k.buddy.pages[p]), k.pool[t].objsize, k.objs[p], ops)
    ensures Agrees(k', p, ops + [SlabLiteral.TakeOp])
  {
    MirrorsTake(Adoptee(k.buddy.pages[p]), k'.buddy.pages[p], k.pool[t].objsize, k.objs[p], ops);
  }

  lemma AgreesGave(k: Heap, k': Heap, t: nat, p: nat, x: int, ops: seq<PageOp>)
    requires Sized(k) && Gave(k, k', t, p, x) && Agrees(k, p, ops)
    ensures Agrees(k', p, ops + [SlabLiteral.PutOp(x)])
  {
    MirrorsPut(k.buddy.pages[p], k.pool[t].objsize, k.objs[p], ops, x);
  }

  lemma AgreesGive(k: Heap, k': Heap, t: nat, p: nat, x: int, ops: seq<PageOp>)
    requires GivesOn(k, k', t, p, x) && Agrees(k, p, ops)
    ensures Agrees(k', p, if Owner(k', p).Some? then ops + [SlabLiteral.PutOp(x)] else [])
  {
    if Gave(k, k', t, p, x) { AgreesGave(k, k', t, p, x, ops); }
  }

  lemma TakeAgrees(k: Heap, k': Heap, t: nat, p: nat, x: int, q: nat, ops: seq<PageOp>)
    requires PagesOk(k) && TakesOn(k, k', t, p, x) && q < |k.objs| && Agrees(k, q, ops)
    ensures Agrees(k', q, Extend(k, Takes(x), k', q, ops))
  {
    if p == q {
      AgreesTake(k, k', t, p, x, ops);
    } else {
      assert PageOk(k, q) && SamePage(k, k', q);
      AgreesSame(k, k', q, ops);
    }
  }

  lemma GiveAgrees(k: Heap, k': Heap, t: nat, p: nat, x: int, q: nat, ops: seq<PageOp>)
    requires PagesOk(k) && GivesOn(k, k', t, p, x) && q < |k.objs| && Agrees(k, q, ops)
    ensures Agrees(k', q, Extend(k, Gives(x), k', q, ops))
  {
    if p == q {
      AgreesGive(k, k', t, p, x, ops);
    } else {
      assert PageOk(k, q) && SamePage(k, k', q);
      AgreesSame(k, k', q, ops);
    }
  }

  lemma OtherAgrees(k: Heap, k': Heap, e: Effect, q: nat, ops: seq<PageOp>)
    requires NoPage(k, k', e) && q < |k.objs| && Agrees(k, q, ops)
    ensures Extend(k, e, k', q, ops) == ops && Agrees(k', q, ops)
  {
    assert SamePage(k, k', q);
    AgreesSame(k, k', q, ops);
  }

  lemma StepAgrees(k: Heap, k': Heap, e: Effect, q: nat, ops: seq<PageOp>)
    requires PagesOk(k) && Sized(k') && |k'.objs| == |k.objs| && Classified(k, k', e) && q < |k.objs| &&
             Agrees(k, q, ops)
    ensures Agrees(k', q, Extend(k, e, k', q, ops))
  {
    if t: nat, p: nat :| e.Takes? && TakesOn(k, k', t, p, e.addr) {
      TakeAgrees(k, k', t, p, e.addr, q, ops);
    } else if t: nat, p: nat :| e.Gives? && GivesOn(k, k', t, p, e.addr) {
      GiveAgrees(k, k', t, p, e.addr, q, ops);
    } else {
      OtherAgrees(k, k', e, q, ops);
    }
  }

  /** Every page agrees with its history. */
  ghost predicate AllAgree(k: Heap, h: seq<seq<PageOp>>)
  {
    Sized(k) && |h| == |k.objs| && forall p :: 0 <= p < |h| ==> Agrees(k, p, h[p])
  }

  lemma StepAgreesAll(k: Heap, k': Heap, e: Effect, h: seq<seq<PageOp>>)
    requires PagesOk(k) && Sized(k') && |k'.objs| == |k.objs| && Classified(k, k', e) && AllAgree(k, h)
    ensures AllAgree(k', ExtendAll(k, e, k', h))
  {
    forall p | 0 <= p < |h|
      ensures Agrees(k', p, ExtendAll(k, e, k', h)[p])
    {
      StepAgrees(k, k', e, p, h[p]);
    }
  }

  lemma ClassifiedPages(k: Heap, k': Heap, e: Effect)
    requires Classified(k, k', e)
    ensures |k'.objs| == |k.objs|
  {
  }

  lemma BootedAgrees(m: nat)
    requires MAX_ORDER_SIZE * m < MAX_PFN
    ensures AllAgree(Booted(m), seq(MAX_ORDER_SIZE * m, _ => []))
  {
    BootedSized(m);
  }

  /** In every run each slab page is in the state of the page machine run on its history. */
  lemma {:induction false} RunAgrees(m: nat, calls: seq<Call>)
    requires MAX_ORDER_SIZE * m < MAX_PFN && LegalRun(m, calls, false)
    ensures AllAgree(After(m, calls, false).heap, Histories(m, calls))
    decreases |calls|
  {
    if calls == [] {
      BootedAgrees(m);
    } else {
      RunAgrees(m, Init(calls));
      var zs := RunKeeps(m, Init(calls), false);
      ServeAgrees(After(m, Init(calls), false), zs, Last(calls), Histories(m, Init(calls)));
    }
  }

  lemma ServeAgrees(w: World, zs: seq<Piece>, c: Call, h: seq<seq<PageOp>>)
    requires WorldOk(w, zs, false) && Legal(w, c, false) && AllAgree(w.heap, h)
    ensures AllAgree(Serve(w, c, false).heap, ExtendAll(w.heap, EffectOf(w, c), Serve(w, c, false).heap, h))
  {
    Classify(w, zs, c);
    ClassifiedPages(w.heap, Serve(w, c, false).heap, EffectOf(w, c));
    StepAgreesAll(w.heap, Serve(w, c, false).heap, EffectOf(w, c), h);
  }

  // ---------------------------------------------------------------- when grants clash

  /** Every allocation from page p since its adoption handed out an object that was not live. */
  ghost predicate PageFresh(k: Heap, p: nat, ops: seq<PageOp>)
    requires Sized(k) && p < |k.objs|
  {
    match k.buddy.pages[p].objAlloc
    case None => true
    case Some(t) => t < |k.pool| && SlabLiteral.AllFresh(k.buddy.pages[p].phyAddr, k.pool[t].objsize, ops)
  }

  ghost predicate NothingTwice(k: Heap)
  {
    forall z :: Held(k, z) <= 1
  }

  lemma FreshIffAlternates(k: Heap, p: nat, ops: seq<PageOp>)
    requires KInv(k) && p < |k.objs| && Agrees(k, p, ops)
    ensures PageFresh(k, p, ops) <==> SlabLiteral.Alternates(ops)
  {
    assert PageOk(k, p);
    match k.buddy.pages[p].objAlloc {
      case None =>
      case Some(t) =>
        assert AllocatorOk(k.buddy.pages, t, k.pool[t]);
        SlabLiteral.FreshIffAlternating(k.buddy.pages[p].phyAddr, k.pool[t].objsize, ops);
    }
  }

  lemma FreshSnoc(g: Page, size: int, objs: multiset<int>, ops: seq<PageOp>)
    requires Mirrors(g, size, objs, ops)
    ensures SlabLiteral.AllFresh(g.phyAddr, size, ops + [SlabLiteral.TakeOp]) <==>
            SlabLiteral.AllFresh(g.phyAddr, size, ops) && NextAddr(g, size) !in objs
  {
    MirrorsOffers(g, size, objs, ops);
    SlabLiteral.AllFreshTake(g.phyAddr, size, ops, NextAddr(g, size), objs);
  }

  lemma MirrorsOffers(g: Page, size: int, objs: multiset<int>, ops: seq<PageOp>)
    requires Mirrors(g, size, objs, ops)
    ensures var s := SlabLiteral.After(g.phyAddr, size, ops);
            NextAddr(s.page, size) == NextAddr(g, size) && s.objs == objs
  {
  }

  lemma TakeFreshHere(k: Heap, k': Heap, t: nat, p: nat, x: int, ops: seq<PageOp>)
    requires TakesOn(k, k', t, p, x) && Agrees(k, p, ops) && PageFresh(k, p, ops)
    ensures PageFresh(k', p, ops + [SlabLiteral.TakeOp]) <==> x !in k.objs[p]
  {
    AgreesTake(k, k', t, p, x, ops);
    FreshSnoc(Adoptee(k.buddy.pages[p]), k.pool[t].objsize, k.objs[p], ops);
  }

  lemma TakeFresh(k: Heap, k': Heap, t: nat, p: nat, x: int, q: nat, ops: seq<PageOp>)
    requires PagesOk(k) && TakesOn(k, k', t, p, x) && q < |k.objs| && Agrees(k, q, ops) && PageFresh(k, q, ops)
    ensures PageFresh(k', q, Extend(k, Takes(x), k', q, ops)) <==> (q == p ==> x !in k.objs[p])
  {
    if p == q {
      TakeFreshHere(k, k', t, p, x, ops);
    } else {
      assert PageOk(k, q) && SamePage(k, k', q);
      FreshSame(k, k', q, ops);
    }
  }

  lemma GiveFresh(k: Heap, k': Heap, t: nat, p: nat, x: int, q: nat, ops: seq<PageOp>)
    requires PagesOk(k) && GivesOn(k, k', t, p, x) && q < |k.objs| && PageFresh(k, q, ops)
    ensures PageFresh(k', q, Extend(k, Gives(x), k', q, ops))
  {
    var ops' := ops + [SlabLiteral.PutOp(x)];
    assert SlabLiteral.Init(ops') == ops && SlabLiteral.Last(ops') == SlabLiteral.PutOp(x);
    if p != q { assert PageOk(k, q) && SamePage(k, k', q); }
  }

  lemma FreshSame(k: Heap, k': Heap, q: nat, ops: seq<PageOp>)
    requires Sized(k) && Sized(k') && |k'.objs| == |k.objs| && q < |k.objs| && SamePage(k, k', q) &&
             PageFresh(k, q, ops)
    requires Owner(k, q).Some? ==>
               Owner(k, q).value < |k.pool| && k'.pool[Owner(k, q).value].objsize == k.pool[Owner(k, q).value].objsize
    ensures PageFresh(k', q, ops)
  {
  }

  lemma OtherFresh(k: Heap, k': Heap, e: Effect, q: nat, ops: seq<PageOp>)
    requires NoPage(k, k', e) && q < |k.objs| && PageFresh(k, q, ops)
    ensures PageFresh(k', q, Extend(k, e, k', q, ops))
  {
    assert SamePage(k, k', q);
    FreshSame(k, k', q, ops);
  }

  lemma TakeTwice(k: Heap, k': Heap, t: nat, p: nat, x: int)
    requires TakesOn(k, k', t, p, x) && NothingTwice(k)
    ensures NothingTwice(k') <==> x !in k.objs[p]
  {
    assert Held(k', Obj(p, x)) == Held(k, Obj(p, x)) + 1;
    forall z ensures Held(k', z) == Held(k, z) + if z == Obj(p, x) then 1 else 0 {}
  }

  ghost predicate AllFresh(k: Heap, h: seq<seq<PageOp>>)
    requires Sized(k) && |h| == |k.objs|
  {
    forall p :: 0 <= p < |h| ==> PageFresh(k, p, h[p])
  }

  ghost predicate AllAlternate(h: seq<seq<PageOp>>)
  {
    forall p :: 0 <= p < |h| ==> SlabLiteral.Alternates(h[p])
  }

  lemma AllFreshIffAlternate(k: Heap, h: seq<seq<PageOp>>)
    requires KInv(k) && AllAgree(k, h)
    ensures AllFresh(k, h) <==> AllAlternate(h)
  {
    forall p | 0 <= p < |h|
      ensures PageFresh(k, p, h[p]) <==> SlabLiteral.Alternates(h[p])
    {
      FreshIffAlternates(k, p, h[p]);
    }
  }

  lemma TakeFreshIff(k: Heap, k': Heap, t: nat, p: nat, x: int, h: seq<seq<PageOp>>)
    requires PagesOk(k) && TakesOn(k, k', t, p, x) && AllAgree(k, h) && AllFresh(k, h)
    ensures AllFresh(k', ExtendAll(k, Takes(x), k', h)) <==> x !in k.objs[p]
  {
    var h' := ExtendAll(k, Takes(x), k', h);
    forall q | 0 <= q < |h'|
      ensures PageFresh(k', q, h'[q]) <==> (q == p ==> x !in k.objs[p])
    {
      TakeFresh(k, k', t, p, x, q, h[q]);
    }
    assert AllFresh(k', h') ==> PageFresh(k', p, h'[p]);
  }

  lemma TakeTwiceIff(k: Heap, k': Heap, t: nat, p: nat, x: int, h: seq<seq<PageOp>>)
    requires PagesOk(k) && TakesOn(k, k', t, p, x) && AllAgree(k, h) && AllFresh(k, h) && NothingTwice(k)
    ensures NothingTwice(k') <==> AllFresh(k', ExtendAll(k, Takes(x), k', h))
  {
    TakeTwice(k, k', t, p, x);
    TakeFreshIff(k, k', t, p, x, h);
  }

  lemma GiveTwice(k: Heap, k': Heap, t: nat, p: nat, x: int, h: seq<seq<PageOp>>)
    requires PagesOk(k) && GivesOn(k, k', t, p, x) && |h| == |k.objs| && AllFresh(k, h) && NothingTwice(k)
    ensures NothingTwice(k') && AllFresh(k', ExtendAll(k, Gives(x), k', h))
  {
    forall z ensures Held(k', z) <= 1 { assert Held(k', z) <= Held(k, z); }
    forall q | 0 <= q < |h|
      ensures PageFresh(k', q, ExtendAll(k, Gives(x), k', h)[q])
    {
      GiveFresh(k, k', t, p, x, q, h[q]);
    }
  }

  lemma OtherTwice(k: Heap, k': Heap, e: Effect, h: seq<seq<PageOp>>)
    requires NoPage(k, k', e) && |h| == |k.objs| && AllFresh(k, h) && NothingTwice(k)
    ensures NothingTwice(k') && AllFresh(k', ExtendAll(k, e, k', h))
  {
    forall z ensures Held(k', z) <= 1 { assert Held(k, z) <= 1; }
    forall q | 0 <= q < |h|
      ensures PageFresh(k', q, ExtendAll(k, e, k', h)[q])
    {
      OtherFresh(k, k', e, q, h[q]);
    }
  }

  /** As long as nothing is handed out twice, a call hands something out twice if and only if it is an
      allocation that its page's history does not allow. */
  lemma StepTwice(k: Heap, k': Heap, e: Effect, h: seq<seq<PageOp>>)
    requires PagesOk(k) && Sized(k') && |k'.objs| == |k.objs| && Classified(k, k', e)
    requires AllAgree(k, h) && AllFresh(k, h) && NothingTwice(k)
    ensures NothingTwice(k') <==> AllFresh(k', ExtendAll(k, e, k', h))
  {
    if t: nat, p: nat :| e.Takes? && TakesOn(k, k', t, p, e.addr) {
      TakeTwiceIff(k, k', t, p, e.addr, h);
    } else if t: nat, p: nat :| e.Gives? && GivesOn(k, k', t, p, e.addr) {
      GiveTwice(k, k', t, p, e.addr, h);
    } else {
      OtherTwice(k, k', e, h);
    }
  }

  /** No two grants ever clashed during the run. */
  ghost predicate NeverClashed(m: nat, calls: seq<Call>)
    requires MAX_ORDER_SIZE * m < MAX_PFN
  {
    (calls != [] ==> NeverClashed(m, Init(calls))) && ClashFree(After(m, calls, false).grants)
  }

  /** On every page, at every moment of the run: once something has been given back to the page since
      its adoption, no two allocations from it have followed each other. */
  ghost predicate AlwaysAlternated(m: nat, calls: seq<Call>)
    requires MAX_ORDER_SIZE * m < MAX_PFN
  {
    (calls != [] ==> AlwaysAlternated(m, Init(calls))) && AllAlternate(Histories(m, calls))
  }

  lemma HereIff(w: World, zs: seq<Piece>, h: seq<seq<PageOp>>)
    requires WorldOk(w, zs, false) && AllAgree(w.heap, h)
    ensures ClashFree(w.grants) <==> NothingTwice(w.heap)
    ensures AllFresh(w.heap, h) <==> AllAlternate(h)
  {
    ClashFreeIffHeldOnce(w, zs, false);
    AllFreshIffAlternate(w.heap, h);
  }

  lemma ServeIff(w: World, zs: seq<Piece>, c: Call, h: seq<seq<PageOp>>)
    requires WorldOk(w, zs, false) && Legal(w, c, false) && AllAgree(w.heap, h)
    requires ClashFree(w.grants) && AllAlternate(h)
    ensures var w' := Serve(w, c, false);
            ClashFree(w'.grants) <==> AllAlternate(ExtendAll(w.heap, EffectOf(w, c), w'.heap, h))
  {
    var w', e := Serve(w, c, false), EffectOf(w, c);
    HereIff(w, zs, h);
    Classify(w, zs, c);
    ClassifiedPages(w.heap, Serve(w, c, false).heap, EffectOf(w, c));
    StepTwice(w.heap, w'.heap, e, h);
    var zs' := ServeKeeps(w, c, zs, false);
    ServeAgrees(w, zs, c, h);
    HereIff(w', zs', ExtendAll(w.heap, e, w'.heap, h));
  }

  /** With line 258 as it stands, outstanding grants stay disjoint throughout a run if and only if on
      every page, after the first release, no two allocations follow each other. */
  lemma {:induction false} NeverClashedIff(m: nat, calls: seq<Call>)
    requires MAX_ORDER_SIZE * m < MAX_PFN && LegalRun(m, calls, false)
    ensures NeverClashed(m, calls) <==> AlwaysAlternated(m, calls)
    decreases |calls|
  {
    if calls != [] {
      NeverClashedIff(m, Init(calls));
      if NeverClashed(m, Init(calls)) {
        var w, h := After(m, Init(calls), false), Histories(m, Init(calls));
        var zs := RunKeeps(m, Init(calls), false);
        RunAgrees(m, Init(calls));
        NowIff(m, Init(calls));
        ServeIff(w, zs, Last(calls), h);
      }
    }
  }

  lemma NowIff(m: nat, calls: seq<Call>)
    requires MAX_ORDER_SIZE * m < MAX_PFN
    ensures NeverClashed(m, calls) ==> ClashFree(After(m, calls, false).grants)
    ensures AlwaysAlternated(m, calls) ==> AllAlternate(Histories(m, calls))
  {
  }

  // ---------------------------------------------------------------- the shortest failing run

  /** Page p is current for allocator t and has u live objects and f at the head of its free list. */
  ghost predicate CurrentState(k: Heap, t: nat, p: nat, u: int, f: int)
  {
    && Sized(k) && t < |k.pool| && p < |k.objs| && k.pool[t].currPage == Some(p) && k.pool[t].objsize != 0
    && k.buddy.pages[p].objAlloc == Some(t) && k.buddy.pages[p].objUsed == u && k.buddy.pages[p].free == f
  }

  lemma IdleAllocator(pages: seq<Page>, t: nat, a: ObjAllocator)
    requires AllocatorOk(pages, t, a) && forall p :: 0 <= p < |pages| ==> pages[p].objAlloc != Some(t)
    ensures a.currPage.None? && a.partial == [] && a.empty == []
  {
    if a.currPage.Some? { InPlace(pages, t, a, a.currPage.value); }
    if a.partial != [] { InPlace(pages, t, a, a.partial[0]); }
    if a.empty != [] { InPlace(pages, t, a, a.empty[0]); }
  }

  /** The first allocation adopts a page. */
  lemma FirstTake(k: Heap, t: nat) returns (p: nat)
    requires Ok(k, false) && t < |k.pool| && k.pool[t].objPerPage >= 2 && ObjAllocate(k, t, false).1.Addr?
    requires k.pool[t].currPage.None? && k.pool[t].partial == [] && k.pool[t].empty == []
    ensures var (k', r) := ObjAllocate(k, t, false);
            && CurrentState(k', t, p, 1, NULL) && r.addr == k'.buddy.pages[p].phyAddr && SameSizes(k, k')
            && k'.objs[p] == multiset{r.addr}
  {
    p := FreshPage(k, t);
    assert PageOk(k, p);
    ProvideKeeps(k, t, false);
    assert k.objs[p] == multiset{};
  }

  lemma NextTake(k: Heap, t: nat, p: nat, u: int, f: int)
    requires CurrentState(k, t, p, u, f) && f != NULL
    ensures var (k', r) := ObjAllocate(k, t, false);
            && r == Addr(f) && SameSizes(k, k') && |k'.objs| == |k.objs| && k'.objs[p] == k.objs[p] + multiset{f}
            && (u + 1 != k.pool[t].objPerPage ==> CurrentState(k', t, p, u + 1, f))
  {
    assert ProvidePage(k, t) == Some(k);
  }

  lemma FreeCurrent(k: Heap, t: nat, p: nat, u: int, f: int, x: int)
    requires KInv(k) && CurrentState(k, t, p, u, f) && x in k.objs[p]
    ensures var k' := Kfree(k, x);
            CurrentState(k', t, p, u - 1, x) && SameSizes(k, k') && k'.objs[p] == k.objs[p] - multiset{x}
  {
    CurrentPage(k, t);
    ObjFreeUnfolds(k, p, x);
    KfreeDispatches(k, Obj(p, x));
    var k1 := GiveBack(k, t, p, x);
    assert k1.pool[t].currPage == Some(p);
    assert Settle(k1, t, p) == k1;
  }

  lemma RunStep(m: nat, calls: seq<Call>, c: Call)
    requires MAX_ORDER_SIZE * m < MAX_PFN && LegalRun(m, calls, false) && Legal(After(m, calls, false), c, false)
    ensures LegalRun(m, calls + [c], false) && After(m, calls + [c], false) == Serve(After(m, calls, false), c, false)
  {
    assert Init(calls + [c]) == calls && Last(calls + [c]) == c;
  }

  /** Nothing is owned and page 0 is free. */
  ghost predicate Idle(w: World)
  {
    && Ok(w.heap, false) && Ready(w.heap) && w.grants == [] && FreeRun(w.heap.buddy, 0, 0)
    && forall p :: 0 <= p < |w.heap.buddy.pages| ==> w.heap.buddy.pages[p].objAlloc == None
  }

  lemma BootedIdle(m: nat)
    requires 1 <= m && MAX_ORDER_SIZE * m < MAX_PFN
    ensures Idle(World(Booted(m), []))
  {
    BootedOk(m, false);
  }

  /** In an idle state every small request adopts a page. */
  lemma FirstKmalloc(w: World, size: int) returns (t: nat, p: nat, x: int)
    requires Idle(w) && size <= MAX_ALLOCATED_OBJ_SIZE
    ensures t == SizeClass(size, MIN_KMALLOC_ORDER) - MIN_KMALLOC_ORDER && Legal(w, KmallocCall(size), false)
    ensures var w' := Serve(w, KmallocCall(size), false);
            && w'.grants == [Grant(x, size)] && KInv(w'.heap) && CurrentState(w'.heap, t, p, 1, NULL)
            && w'.heap.objs[p] == multiset{x} && x > 0 && w'.heap.pool[t].objPerPage >= 2
  {
    var k := w.heap;
    SmallRequests(size);
    t := SizeClass(size, MIN_KMALLOC_ORDER) - MIN_KMALLOC_ORDER;
    KmallocFaults(k, size, false);
    assert AllocatorOk(k.buddy.pages, t, k.pool[t]);
    assert k.pool[t].objsize == Pow2(t + MIN_KMALLOC_ORDER);
    PerPage(k.pool[t].objsize);
    IdleAllocator(k.buddy.pages, t, k.pool[t]);
    p := FirstTake(k, t);
    x := Kmalloc(k, size, false).1.addr;
    KmallocKeeps(k, size, false);
  }

  lemma FreeFirst(w: World, t: nat, p: nat, x: int, size: int)
    requires w.grants == [Grant(x, size)] && KInv(w.heap) && CurrentState(w.heap, t, p, 1, NULL)
    requires w.heap.objs[p] == multiset{x}
    ensures Legal(w, KfreeCall(0), false)
    ensures var w' := Serve(w, KfreeCall(0), false);
            && w'.grants == [] && CurrentState(w'.heap, t, p, 0, x) && w'.heap.objs[p] == multiset{}
            && w'.heap.pool[t].objPerPage == w.heap.pool[t].objPerPage
  {
    FreeCurrent(w.heap, t, p, 1, NULL, x);
  }

  lemma CallsTwo(m: nat, size: int, two: seq<Call>) returns (t: nat, p: nat, x: int)
    requires 1 <= m && MAX_ORDER_SIZE * m < MAX_PFN && size <= MAX_ALLOCATED_OBJ_SIZE
    requires two == [] + [KmallocCall(size)] + [KfreeCall(0)]
    ensures LegalRun(m, two, false) && t == SizeClass(size, MIN_KMALLOC_ORDER) - MIN_KMALLOC_ORDER
    ensures var w := After(m, two, false);
            && w.grants == [] && CurrentState(w.heap, t, p, 0, x)
            && w.heap.objs[p] == multiset{} && x > 0 && w.heap.pool[t].objPerPage >= 2
  {
    BootedIdle(m);
    t, p, x := FirstKmalloc(After(m, [], false), size);
    var one := [] + [KmallocCall(size)];
    RunStep(m, [], KmallocCall(size));
    FreeFirst(After(m, one, false), t, p, x, size);
    RunStep(m, one, KfreeCall(0));
  }

  /** A small request is an obj_allocate. */
  lemma KmallocTakes(w: World, size: int, t: nat, p: nat, u: int, x: int)
    requires CurrentState(w.heap, t, p, u, x) && x > 0 && size <= MAX_ALLOCATED_OBJ_SIZE
    requires t == SizeClass(size, MIN_KMALLOC_ORDER) - MIN_KMALLOC_ORDER
    ensures Legal(w, KmallocCall(size), false)
    ensures var w' := Serve(w, KmallocCall(size), false);
            && w'.grants == w.grants + [Grant(x, size)] && |w'.heap.objs| == |w.heap.objs|
            && w'.heap.objs[p] == w.heap.objs[p] + multiset{x}
            && (u + 1 != w.heap.pool[t].objPerPage ==> CurrentState(w'.heap, t, p, u + 1, x))
  {
    SmallRequests(size);
    NextTake(w.heap, t, p, u, x);
  }

  lemma RunTake(m: nat, calls: seq<Call>, size: int, t: nat, p: nat, u: int, x: int)
    requires MAX_ORDER_SIZE * m < MAX_PFN && LegalRun(m, calls, false) && x > 0 && size <= MAX_ALLOCATED_OBJ_SIZE
    requires CurrentState(After(m, calls, false).heap, t, p, u, x)
    requires t == SizeClass(size, MIN_KMALLOC_ORDER) - MIN_KMALLOC_ORDER
    ensures LegalRun(m, calls + [KmallocCall(size)], false)
    ensures var w, w' := After(m, calls, false), After(m, calls + [KmallocCall(size)], false);
            && w'.grants == w.grants + [Grant(x, size)] && |w'.heap.objs| == |w.heap.objs|
            && w'.heap.objs[p] == w.heap.objs[p] + multiset{x}
            && (u + 1 != w.heap.pool[t].objPerPage ==> CurrentState(w'.heap, t, p, u + 1, x))
  {
    KmallocTakes(After(m, calls, false), size, t, p, u, x);
    RunStep(m, calls, KmallocCall(size));
  }

  /** Two clients hold the object at the start of page p. */
  ghost predicate HeldTwice(w: World, p: nat)
  {
    && |w.grants| == 2 && w.grants[0] == w.grants[1] && !ClashFree(w.grants)
    && p < |w.heap.objs| && w.heap.objs[p][w.grants[0].addr] == 2
  }

  /** Two allocations in a row from a page that offers a released object. */
  lemma TwoMore(m: nat, calls: seq<Call>, c: Call, calls': seq<Call>, t: nat, p: nat, x: int)
    requires MAX_ORDER_SIZE * m < MAX_PFN && LegalRun(m, calls, false) && x > 0
    requires c.KmallocCall? && c.size <= MAX_ALLOCATED_OBJ_SIZE && calls' == calls + [c] + [c]
    requires t == SizeClass(c.size, MIN_KMALLOC_ORDER) - MIN_KMALLOC_ORDER
    requires var w := After(m, calls, false);
             && CurrentState(w.heap, t, p, 0, x) && w.heap.pool[t].objPerPage >= 2
             && w.grants == [] && w.heap.objs[p] == multiset{}
    ensures LegalRun(m, calls', false) && HeldTwice(After(m, calls', false), p)
  {
    RunTake(m, calls, c.size, t, p, 0, x);
    RunTake(m, calls + [c], c.size, t, p, 1, x);
    var w := After(m, calls', false);
    assert w.grants == [Grant(x, c.size), Grant(x, c.size)];
    assert Clash(w.grants[0], w.grants[1]);
  }

  /** Allocate, release, allocate, allocate, with any size up to 2048: the last two calls return the
      same address, and the clients hold two clashing grants. */
  lemma SameAddressTwice(m: nat, size: int, calls: seq<Call>) returns (p: nat)
    requires 1 <= m && MAX_ORDER_SIZE * m < MAX_PFN && size <= MAX_ALLOCATED_OBJ_SIZE
    requires calls == [KmallocCall(size), KfreeCall(0), KmallocCall(size), KmallocCall(size)]
    ensures LegalRun(m, calls, false) && HeldTwice(After(m, calls, false), p)
  {
    var two := [] + [KmallocCall(size)] + [KfreeCall(0)];
    assert calls == two + [KmallocCall(size)] + [KmallocCall(size)];
    var t, q, x := CallsTwo(m, size, two);
    TwoMore(m, two, KmallocCall(size), calls, t, q, x);
    p := q;
  }
}
