/** The globals of src/mm.c and the functions that update them in place, proved against the functions
    of modules Buddy and Slab. */
module MemoryManager {
  import opened Bits
  import opened Seqs
  import opened Buddy
  import opened BuddyInvariant
  import opened BuddyRuns
  import opened BuddyTheorems
  import opened Slab
  import opened SlabInvariant
  import opened SlabRuns
  import opened KmallocRuns

  class Manager {
    var bookkeep: array<Page>
    var freeArea: array<FreeArea>
    var objAllocPool: array<ObjAllocator>
    var mem: map<int, int>
    const writeBack: bool

    ghost var live: map<nat, nat>
    ghost var objs: seq<multiset<int>>

    ghost predicate Shape()
      reads this
    {
      && bookkeep as object != freeArea && bookkeep as object != objAllocPool && freeArea as object != objAllocPool
      && freeArea.Length == MAX_ORDER + 1 && objAllocPool.Length == MAX_OBJ_ALLOCATOR_NUM
    }

    ghost function Pages(): Buddy.State
      reads this, bookkeep, freeArea
    {
      Buddy.State(bookkeep[..], freeArea[..], live)
    }

    ghost function View(): Heap
      reads this, bookkeep, freeArea, objAllocPool
    {
      Heap(Pages(), objAllocPool[..], mem, objs)
    }

    ghost predicate Valid()
      reads this, bookkeep, freeArea, objAllocPool
    {
      Shape() && Ok(View(), writeBack) && Ready(View())
    }

    // -------------------------------------------------------------- mm_init

    /** mm_init on zeroed memory of m blocks of maximal order. */
    constructor (m: nat, writeBack: bool)
      requires MAX_ORDER_SIZE * m < MAX_PFN
      ensures Valid() && View() == Booted(m) && this.writeBack == writeBack
      ensures fresh(bookkeep) && fresh(freeArea) && fresh(objAllocPool)
    {
      bookkeep := new Page[MAX_ORDER_SIZE * m](_ => Page(0, 0, Free, 0, 0, None, NULL));
      freeArea := new FreeArea[MAX_ORDER + 1](_ => FreeArea(0, []));
      objAllocPool := new ObjAllocator[MAX_OBJ_ALLOCATOR_NUM](_ => UNREGISTERED);
      mem := map[];
      live := map[];
      objs := seq(MAX_ORDER_SIZE * m, _ => multiset{});
      this.writeBack := writeBack;
      new;
      PageInit();
      FreeAreaInit(m);
      assert View() == Blank(m);
      BootedOk(m, writeBack);
      InitKmalloc();
    }

    method PageInit()
      requires Shape()
      requires forall i :: 0 <= i < bookkeep.Length ==> bookkeep[i] == Page(0, 0, Free, 0, 0, None, NULL)
      modifies bookkeep
      ensures forall i :: 0 <= i < bookkeep.Length ==>
                bookkeep[i] == Page(-1, i, Free, 0x20_0000 + i * 4096, 0, None, 0)
    {
      for i := 0 to bookkeep.Length
        invariant forall j :: 0 <= j < i ==> bookkeep[j] == Page(-1, j, Free, LOW_MEMORY + j * PAGE_SIZE, 0, None, NULL)
        invariant forall j :: i <= j < bookkeep.Length ==> bookkeep[j] == Page(0, 0, Free, 0, 0, None, NULL)
      {
        bookkeep[i] := bookkeep[i].(pfn := i);
        bookkeep[i] := bookkeep[i].(used := Free);
        bookkeep[i] := bookkeep[i].(phyAddr := LOW_MEMORY + i * PAGE_SIZE);
        bookkeep[i] := bookkeep[i].(order := -1);
      }
    }

    method FreeAreaInit(ghost m: nat)
      requires Shape() && bookkeep.Length == MAX_ORDER_SIZE * m && live == map[]
      requires forall i :: 0 <= i < bookkeep.Length ==>
                 bookkeep[i] == Page(-1, i, Free, LOW_MEMORY + i * PAGE_SIZE, 0, None, NULL)
      requires forall k :: 0 <= k <= MAX_ORDER ==> freeArea[k].nrFree == 0
      modifies bookkeep, freeArea
      ensures Pages() == Boot(m)
    {
      for k := 0 to MAX_ORDER + 1
        invariant forall j :: 0 <= j < k ==> freeArea[j] == FreeArea(0, [])
        invariant forall j :: k <= j <= MAX_ORDER ==> freeArea[j].nrFree == 0
        invariant bookkeep[..] == old(bookkeep[..])
      {
        freeArea[k] := freeArea[k].(freelist := []);
      }
      var i := 0;
      ghost var n: nat := 0;
      while i < bookkeep.Length
        invariant i == MAX_ORDER_SIZE * n && n <= m
        invariant forall x :: 0 <= x < i ==> bookkeep[x] == BootPage(x)
        invariant forall x :: i <= x < bookkeep.Length ==> bookkeep[x] == BootPage(x).(order := -1)
        invariant forall j :: 0 <= j < MAX_ORDER ==> freeArea[j] == FreeArea(0, [])
        invariant freeArea[MAX_ORDER].nrFree == n == |freeArea[MAX_ORDER].freelist|
        invariant forall j :: 0 <= j < n ==> freeArea[MAX_ORDER].freelist[j] == j * MAX_ORDER_SIZE
        invariant live == map[]
        decreases bookkeep.Length - i
      {
        PushBlock(i, MAX_ORDER);
        i := i + MAX_ORDER_SIZE;
        n := n + 1;
      }
      assert Pages().pages == Boot(m).pages;
      assert freeArea[MAX_ORDER].freelist == Boot(m).areas[MAX_ORDER].freelist;
      assert Pages().areas == Boot(m).areas;
    }

    method InitKmalloc()
      requires Shape()
      modifies objAllocPool
      ensures objAllocPool[..] == InitKmallocFrom(old(objAllocPool[..]), MIN_KMALLOC_ORDER)
    {
      var i := MIN_KMALLOC_ORDER;
      while i <= MAX_KMALLOC_ORDER
        invariant MIN_KMALLOC_ORDER <= i <= MAX_KMALLOC_ORDER + 1
        invariant InitKmallocFrom(objAllocPool[..], i) == InitKmallocFrom(old(objAllocPool[..]), MIN_KMALLOC_ORDER)
      {
        var token := RegisterObjAllocator(Pow2(i));
        i := i + 1;
      }
    }

    // -------------------------------------------------------------- buddy allocator

    method PushBlock(p: nat, k: nat)
      requires Shape() && p < bookkeep.Length && k <= MAX_ORDER
      modifies bookkeep, freeArea
      ensures Pages() == Push(old(Pages()), p, k)
    {
      freeArea[k] := freeArea[k].(freelist := freeArea[k].freelist + [p]);
      bookkeep[p] := bookkeep[p].(order := k);
      bookkeep[p] := bookkeep[p].(used := Free);
      freeArea[k] := freeArea[k].(nrFree := freeArea[k].nrFree + 1);
    }

    method PopBlock(p: nat, k: nat)
      requires Shape() && p < bookkeep.Length && k <= MAX_ORDER
      modifies bookkeep, freeArea
      ensures Pages() == Pop(old(Pages()), p, k)
    {
      freeArea[k] := freeArea[k].(freelist := Remove(freeArea[k].freelist, p));
      bookkeep[p] := bookkeep[p].(used := Taken);
      freeArea[k] := freeArea[k].(nrFree := freeArea[k].nrFree - 1);
    }

    /** One turn of the splitting loop. */
    method SplitHalf(target: nat, k: nat, ghost order: nat, ghost goal: Buddy.State)
      requires Shape() && Splitting(Pages(), target, k + 1, order, goal) && order <= k
      modifies bookkeep, freeArea
      ensures Splitting(Pages(), target, k, order, goal)
    {
      SplitTurn(Pages(), target, k, order, goal);
      var buddyPfn := FindBuddyPfn(bookkeep[target].pfn, k);
      PushBlock(buddyPfn, k);
    }

    /** Lines 71-82. */
    method SplitBlock(target: nat, i: nat, order: nat)
      requires Shape() && order <= i <= MAX_ORDER && Splittable(Pages(), target, i)
      modifies bookkeep, freeArea
      ensures Pages() == Split(old(Pages()), target, i, order)
    {
      ghost var goal := Split(Pages(), target, i, order);
      var current: nat := i;
      while current > order
        invariant Splitting(Pages(), target, current, order, goal)
      {
        SplitHalf(target, current - 1, order, goal);
        current := current - 1;
      }
    }

    method BuddyBlockAlloc(order: int) returns (r: Option<nat>)
      requires Shape() && Inv(Pages())
      modifies this`live, bookkeep, freeArea
      ensures Pages() == Alloc(old(Pages()), order).0 && r == Alloc(old(Pages()), order).1
      ensures Inv(Pages()) && (if r.Some? then r.value < bookkeep.Length else Pages() == old(Pages()))
    {
      AllocKeepsInv(Pages(), order);
      if order < 0 || order > MAX_ORDER {
        return None;
      }
      ghost var s := Pages();
      ghost var own :| InvBy(s, own);
      var i := order;
      while i <= MAX_ORDER
        invariant order <= i <= MAX_ORDER + 1
        invariant Pages() == s
        invariant Alloc(s, order) == AllocFrom(s, order, i)
        decreases MAX_ORDER + 1 - i
      {
        if freeArea[i].freelist != [] {
          var target := freeArea[i].freelist[0];
          assert Listed(s, i, target);
          assert IsFreeBlock(s, own, target, i);
          assert Owned(s, own, target);
          PopBlock(target, i);
          bookkeep[target] := bookkeep[target].(order := order);
          assert Pages() == SetOrder(Pop(s, target, i), target, order);
          SplitBlock(target, i, order);
          live := live[target := order];
          return Some(target);
        }
        i := i + 1;
      }
      return None;
    }

    /** Lines 120-127. */
    method MergeBuddy(block: nat, buddyPfn: nat) returns (q: nat)
      requires Shape() && Numbered(Pages()) && block < bookkeep.Length && Mergeable(Pages(), block)
      requires buddyPfn == FindBuddyPfn(block, bookkeep[block].order)
      modifies bookkeep, freeArea
      ensures Pages() == Merge(old(Pages()), block).0 && q == Merge(old(Pages()), block).1
    {
      ghost var s := Pages();
      assert Merge(s, block).1 < |s.pages|;
      PopBlock(buddyPfn, bookkeep[buddyPfn].order);
      q := FindLBuddyPfn(bookkeep[block].pfn, bookkeep[block].order);
      bookkeep[q] := bookkeep[q].(order := bookkeep[q].order + 1);
    }

    method BuddyBlockFree(p: nat)
      requires Shape() && Inv(Pages()) && p in live
      modifies this`live, bookkeep, freeArea
      ensures p < |old(Pages()).pages| && Pages() == FreeBlock(old(Pages()), p)
      ensures Inv(Pages())
    {
      ghost var s, v := Pages(), Pages();
      ghost var own :| InvBy(v, own);
      LiveHead(v, own, p);
      var block := p;
      var buddyPfn := FindBuddyPfn(bookkeep[block].pfn, bookkeep[block].order);
      while bookkeep[block].order < MAX_ORDER && bookkeep[block].order == bookkeep[buddyPfn].order &&
            bookkeep[buddyPfn].used == Free
        invariant Numbered(Pages()) && live == s.live
        invariant v.pages == bookkeep[..] && v.areas == freeArea[..] && InvBy(v, own) && block in v.live
        invariant block < bookkeep.Length && 0 <= bookkeep[block].order <= MAX_ORDER
        invariant buddyPfn == FindBuddyPfn(block, bookkeep[block].order)
        invariant bookkeep[block].order < MAX_ORDER ==> buddyPfn < bookkeep.Length
        invariant Coalesce(Pages(), block) == Coalesce(s, p)
        decreases MAX_ORDER - bookkeep[block].order
      {
        own, v := MergeVirtual(v, own, block, Pages());
        block := MergeBuddy(block, buddyPfn);
        LiveHead(v, own, block);
        buddyPfn := FindBuddyPfn(bookkeep[block].pfn, bookkeep[block].order);
      }
      PushBlock(block, bookkeep[block].order);
      live := live - {p};
      FreeKeeps(s, p);
    }

    // -------------------------------------------------------------- object allocator

    method RegisterObjAllocator(objsize: int) returns (token: int)
      requires Shape()
      modifies objAllocPool
      ensures (objAllocPool[..], token) == Register(old(objAllocPool[..]), objsize)
    {
      var size := objsize;
      if size < MIN_ALLOCATED_OBJ_SIZE { size := MIN_ALLOCATED_OBJ_SIZE; }
      if size > MAX_ALLOCATED_OBJ_SIZE { size := MAX_ALLOCATED_OBJ_SIZE; }
      token := 0;
      while token < MAX_OBJ_ALLOCATOR_NUM
        invariant 0 <= token <= MAX_OBJ_ALLOCATOR_NUM && objAllocPool[..] == old(objAllocPool[..])
        invariant Register(old(objAllocPool[..]), objsize) == RegisterFrom(objAllocPool[..], size, token)
      {
        if objAllocPool[token].objsize == 0 {
          objAllocPool[token] := ObjAllocator([], [], [], None, size, PAGE_SIZE / size, 0, 0);
          return;
        }
        token := token + 1;
      }
      token := -1;
    }

    /** Lines 232-251; ok is false when the buddy allocator has no page. */
    method ObtainPage(token: nat) returns (ok: bool)
      requires Shape() && Ok(View(), writeBack) && token < objAllocPool.Length && objAllocPool[token].objsize != 0
      modifies this`live, bookkeep, freeArea, objAllocPool
      ensures ok == ProvidePage(old(View()), token).Some?
      ensures View() == if ok then ProvidePage(old(View()), token).value else old(View())
    {
      ghost var k := View();
      var a := objAllocPool[token];
      ok := true;
      if a.currPage.None? {
        if a.partial != [] {
          var page := a.partial[0];
          objAllocPool[token] := a.(partial := a.partial[1..], currPage := Some(page));
        } else if a.empty != [] {
          var page := a.empty[0];
          objAllocPool[token] := a.(empty := a.empty[1..], currPage := Some(page));
        } else {
          AllocKeeps(k.buddy, 0);
          var r := BuddyBlockAlloc(0);
          if r.None? { return false; }
          var page := r.value;
          bookkeep[page] := bookkeep[page].(objUsed := 0, objAlloc := None, free := NULL);
          bookkeep[page] := bookkeep[page].(objAlloc := Some(token));
          objAllocPool[token] := a.(pageUsed := a.pageUsed + 1, currPage := Some(page));
          assert View().buddy.pages == ProvidePage(k, token).value.buddy.pages;
        }
      }
    }

    /** Lines 254-273. */
    method TakeFromPage(token: nat, page: nat) returns (addr: int)
      requires Shape() && Sized(View()) && token < objAllocPool.Length && page < bookkeep.Length
      modifies this`objs, bookkeep, objAllocPool
      ensures View() == TakeObject(old(View()), token, page, writeBack).0
      ensures addr == TakeObject(old(View()), token, page, writeBack).1
    {
      var freelist := bookkeep[page].free;
      if freelist != NULL {
        addr := freelist;
        freelist := Read(mem, freelist);
        if writeBack { bookkeep[page] := bookkeep[page].(free := freelist); }
      } else {
        addr := bookkeep[page].phyAddr + bookkeep[page].objUsed * objAllocPool[token].objsize;
      }
      objAllocPool[token] := objAllocPool[token].(objUsed := objAllocPool[token].objUsed + 1);
      bookkeep[page] := bookkeep[page].(objUsed := bookkeep[page].objUsed + 1);
      if objAllocPool[token].objPerPage == bookkeep[page].objUsed {
        objAllocPool[token] := objAllocPool[token].(full := objAllocPool[token].full + [page], currPage := None);
      }
      objs := objs[page := objs[page] + multiset{addr}];
    }

    method ObjAllocate(token: int) returns (r: Outcome)
      requires Valid()
      modifies this`live, this`objs, bookkeep, freeArea, objAllocPool
      ensures View() == Slab.ObjAllocate(old(View()), token, writeBack).0
      ensures r == Slab.ObjAllocate(old(View()), token, writeBack).1
      ensures Valid()
    {
      ghost var k := View();
      ObjAllocateKeeps(k, token, writeBack);
      if token < 0 || token >= MAX_OBJ_ALLOCATOR_NUM { return Null; }
      if objAllocPool[token].objsize == 0 { return Fault; }
      var ok := ObtainPage(token);
      if !ok { return Fault; }
      ObtainedPage(k, token, writeBack);
      var addr := TakeFromPage(token, objAllocPool[token].currPage.value);
      return Addr(addr);
    }

    /** Lines 310-321. */
    method LinkObject(t: nat, p: nat, addr: int)
      requires Shape() && Sized(View()) && t < objAllocPool.Length && p < bookkeep.Length
      modifies this`objs, this`mem, bookkeep, objAllocPool
      ensures View() == GiveBack(old(View()), t, p, addr)
    {
      var temp := bookkeep[p].free;
      bookkeep[p] := bookkeep[p].(free := addr);
      mem := mem[addr := temp];
      objAllocPool[t] := objAllocPool[t].(objUsed := objAllocPool[t].objUsed - 1);
      bookkeep[p] := bookkeep[p].(objUsed := bookkeep[p].objUsed - 1);
      if objAllocPool[t].objPerPage - 1 == bookkeep[p].objUsed {
        objAllocPool[t] := Unlink(objAllocPool[t], p);
        objAllocPool[t] := objAllocPool[t].(partial := objAllocPool[t].partial + [p]);
      }
      objs := objs[p := objs[p] - multiset{addr}];
    }

    /** Lines 335-339: the page goes back to the buddy allocator. */
    method HandBackPage(t: nat, p: nat)
      requires Shape() && Sized(View()) && t < objAllocPool.Length && p < bookkeep.Length
      requires Inv(Pages()) && p in live
      modifies this`live, bookkeep, freeArea, objAllocPool
      ensures View() == HandedBack(old(View()), t, p)
    {
      ghost var k := View();
      objAllocPool[t] := objAllocPool[t].(pageUsed := objAllocPool[t].pageUsed - 1);
      SetPageInv(Pages(), p, bookkeep[p].(free := NULL, objAlloc := None, objUsed := 0));
      bookkeep[p] := bookkeep[p].(free := NULL, objAlloc := None, objUsed := 0);
      assert Pages() == SetPage(k, p, bookkeep[p]).buddy;
      BuddyBlockFree(p);
    }

    /** Line 326, and 342 if the page is to stay. */
    method UnlinkPage(t: nat, p: nat, stay: bool)
      requires Shape() && t < objAllocPool.Length
      modifies objAllocPool
      ensures View() == Unlinked(old(View()), t, p, stay)
    {
      objAllocPool[t] := Unlink(objAllocPool[t], p);
      if stay { objAllocPool[t] := objAllocPool[t].(empty := objAllocPool[t].empty + [p]); }
    }

    /** Lines 325-344. */
    method SettlePage(t: nat, p: nat)
      requires Shape() && Sized(View()) && t < objAllocPool.Length && p < bookkeep.Length
      requires Inv(Pages()) && p in live
      modifies this`live, bookkeep, freeArea, objAllocPool
      ensures View() == Settle(old(View()), t, p)
    {
      SettleIs(View(), t, p);
      if bookkeep[p].objUsed == 0 && objAllocPool[t].currPage != Some(p) {
        if objAllocPool[t].pageUsed >= RETURN_THRESHOLD {
          UnlinkPage(t, p, false);
          HandBackPage(t, p);
        } else {
          UnlinkPage(t, p, true);
        }
      }
    }

    /** obj_free of a live object. */
    method ObjFree(addr: int, ghost page: nat)
      requires Valid() && page < |objs| && addr in objs[page]
      modifies this`live, this`objs, this`mem, bookkeep, freeArea, objAllocPool
      ensures View() == Slab.ObjFree(old(View()), addr)
      ensures Valid()
    {
      ghost var k := View();
      FreeObjValid(k, page, addr, writeBack);
      var p := PhyAddrToPfn(addr);
      var t := bookkeep[p].objAlloc.value;
      GiveBackInv(k, t, p, addr);
      LinkObject(t, p, addr);
      SettlePage(t, p);
    }

    // -------------------------------------------------------------- kmalloc and kfree

    method Kmalloc(size: int) returns (r: Outcome)
      requires Valid()
      modifies this`live, this`objs, bookkeep, freeArea, objAllocPool
      ensures View() == Slab.Kmalloc(old(View()), size, writeBack).0
      ensures r == Slab.Kmalloc(old(View()), size, writeBack).1
      ensures Valid()
    {
      ghost var k := View();
      KmallocKeeps(k, size, writeBack);
      var i := MIN_KMALLOC_ORDER;
      while i <= MAX_KMALLOC_ORDER
        invariant MIN_KMALLOC_ORDER <= i <= MAX_KMALLOC_ORDER + 1
        invariant SizeClass(size, MIN_KMALLOC_ORDER) == SizeClass(size, i)
      {
        if size <= Pow2(i) {
          r := ObjAllocate(i - MIN_KMALLOC_ORDER);
          return;
        }
        i := i + 1;
      }
      i := 0;
      while i <= MAX_ORDER
        invariant 0 <= i <= MAX_ORDER + 1
        invariant PageOrder(size, 0) == PageOrder(size, i)
      {
        if size <= BlockBytes(i) {
          var b := BuddyBlockAlloc(i);
          if b.None? { return Fault; }
          return Addr(bookkeep[b.value].phyAddr);
        }
        i := i + 1;
      }
      return Null;
    }

    /** kfree of a live piece. */
    method Kfree(addr: int, ghost piece: Piece)
      requires Valid() && IsLive(View(), piece) && addr == Lo(View(), piece)
      modifies this`live, this`objs, this`mem, bookkeep, freeArea, objAllocPool
      ensures View() == Slab.Kfree(old(View()), addr)
      ensures Valid()
    {
      ghost var k := View();
      KfreeDispatches(k, piece);
      KfreeKeeps(k, piece, writeBack);
      LiveInRange(k, piece);
      var p := PhyAddrToPfn(addr);
      if bookkeep[p].objAlloc.Some? {
        ObjFree(addr, p);
      } else {
        BuddyBlockFree(p);
      }
    }
  }

  lemma AllocKeepsInv(s: Buddy.State, order: int)
    requires Inv(s)
    ensures Inv(Alloc(s, order).0)
    ensures if Alloc(s, order).1.Some? then Alloc(s, order).1.value < |s.pages| else Alloc(s, order).0 == s
  {
    AllocKeeps(s, order);
    if Alloc(s, order).1.Some? { AllocInRange(s, order); }
  }

  lemma FreeObjValid(k: Heap, p: nat, x: int, writeBack: bool)
    requires Ok(k, writeBack) && Ready(k) && p < |k.objs| && x in k.objs[p]
    ensures PhyAddrToPfn(x) == p && k.buddy.pages[p].objAlloc.Some? && k.buddy.pages[p].objAlloc.value < |k.pool| &&
            p in k.buddy.live
    ensures Slab.ObjFree(k, x) ==
            Settle(GiveBack(k, k.buddy.pages[p].objAlloc.value, p, x), k.buddy.pages[p].objAlloc.value, p)
    ensures Ok(Slab.ObjFree(k, x), writeBack) && Ready(Slab.ObjFree(k, x))
  {
    ObjFreeUnfolds(k, p, x);
    ObjFreeKeeps(k, p, x, writeBack);
  }

  lemma GiveBackInv(k: Heap, t: nat, p: nat, x: int)
    requires Sized(k) && Inv(k.buddy) && t < |k.pool| && p < |k.buddy.pages|
    ensures Inv(GiveBack(k, t, p, x).buddy) && GiveBack(k, t, p, x).buddy.live == k.buddy.live
  {
    var g := k.buddy.pages[p];
    SetPageInv(k.buddy, p, g.(free := x, objUsed := g.objUsed - 1));
  }

  function HandedBack(k: Heap, t: nat, p: nat): Heap
    requires Sized(k) && t < |k.pool| && p < |k.buddy.pages|
  {
    var k' := SetPage(k, p, k.buddy.pages[p].(free := NULL, objAlloc := None, objUsed := 0));
    k'.(buddy := FreeBlock(k'.buddy, p), pool := k.pool[t := k.pool[t].(pageUsed := k.pool[t].pageUsed - 1)])
  }

  function Unlinked(k: Heap, t: nat, p: nat, stay: bool): Heap
    requires t < |k.pool|
  {
    var u := Unlink(k.pool[t], p);
    k.(pool := k.pool[t := if stay then u.(empty := u.empty + [p]) else u])
  }

  lemma SettleIs(k: Heap, t: nat, p: nat)
    requires Sized(k) && t < |k.pool| && p < |k.buddy.pages|
    ensures Settle(k, t, p) ==
            if k.buddy.pages[p].objUsed != 0 || k.pool[t].currPage == Some(p) then k
            else if k.pool[t].pageUsed >= RETURN_THRESHOLD then HandedBack(Unlinked(k, t, p, false), t, p)
            else Unlinked(k, t, p, true)
  {
    var u := Unlinked(k, t, p, false);
    assert u.pool[t := u.pool[t].(pageUsed := u.pool[t].pageUsed - 1)]
        == k.pool[t := Unlink(k.pool[t], p).(pageUsed := k.pool[t].pageUsed - 1)];
  }

  lemma LiveInRange(k: Heap, z: Piece)
    requires KInv(k) && IsLive(k, z)
    ensures PhyAddrToPfn(Lo(k, z)) < |k.buddy.pages|
    ensures k.buddy.pages[PhyAddrToPfn(Lo(k, z))].objAlloc.Some? <==> z.Obj?
    ensures z.Obj? ==> Lo(k, z) in k.objs[PhyAddrToPfn(Lo(k, z))]
    ensures z.Block? ==> PhyAddrToPfn(Lo(k, z)) in k.buddy.live
  {
    KfreeDispatches(k, z);
  }

  lemma ObtainedPage(k: Heap, t: nat, writeBack: bool)
    requires Ok(k, writeBack) && t < |k.pool| && k.pool[t].objsize != 0 && ProvidePage(k, t).Some?
    ensures var c := ProvidePage(k, t).value.pool[t].currPage; c.Some? && c.value < |k.buddy.pages|
  {
    ProvideGains(k, t, writeBack);
    CurrentPage(ProvidePage(k, t).value, t);
  }

  /** The block of order k at p can be cut down inside the page table. */
  ghost predicate Splittable(s: Buddy.State, p: nat, k: nat)
  {
    |s.areas| == MAX_ORDER + 1 && p < |s.pages| && s.pages[p].pfn == p && Aligned(p, k) && p + Pow2(k) <= |s.pages|
  }

  /** The splitting loop of the block at p, down to `current`, is on its way to goal. */
  ghost predicate Splitting(s: Buddy.State, p: nat, current: nat, order: nat, goal: Buddy.State)
  {
    Splittable(s, p, current) && order <= current <= MAX_ORDER && Split(s, p, current, order) == goal
  }

  lemma SplitTurn(s: Buddy.State, p: nat, k: nat, order: nat, goal: Buddy.State)
    requires Splitting(s, p, k + 1, order, goal) && order <= k
    ensures var b := FindBuddyPfn(p, k);
            b < |s.pages| && Splitting(Push(s, b, k), p, k, order, goal)
  {
    SplitUnfolds(s, p, k, order);
  }

  lemma LiveHead(v: Buddy.State, own: seq<nat>, p: nat)
    requires InvBy(v, own) && p in v.live
    ensures p < |v.pages| && 0 <= v.pages[p].order == v.live[p] <= MAX_ORDER
    ensures v.pages[p].order < MAX_ORDER ==> FindBuddyPfn(p, v.pages[p].order) < |v.pages|
  {
    MergeTestReadsHeads(v, own, p);
  }

  /** A merge does not depend on the record of live blocks. */
  lemma MergeSame(v: Buddy.State, s: Buddy.State, p: nat)
    requires Numbered(v) && Numbered(s) && s.pages == v.pages && s.areas == v.areas && p < |v.pages| && Mergeable(v, p)
    ensures Mergeable(s, p) && Merge(s, p).1 == Merge(v, p).1
    ensures Merge(s, p).0.pages == Merge(v, p).0.pages && Merge(s, p).0.areas == Merge(v, p).0.areas
  {
  }

  /** The state a merge leaves, with the joined block recorded as live. */
  lemma MergeVirtual(v: Buddy.State, own: seq<nat>, p: nat, s: Buddy.State) returns (own': seq<nat>, v': Buddy.State)
    requires InvBy(v, own) && p in v.live && p < |v.pages| && Mergeable(v, p)
    requires Numbered(s) && s.pages == v.pages && s.areas == v.areas
    ensures Mergeable(s, p) && InvBy(v', own') && Merge(s, p).1 in v'.live
    ensures v'.pages == Merge(s, p).0.pages && v'.areas == Merge(s, p).0.areas
  {
    MergeOnceKeeps(v, own, p);
    MergeSame(v, s, p);
    own', v' := Join(own, Merge(v, p).1, v.live[p]), MergeOnce(v, p);
  }
}
