/** The object allocator and kmalloc/kfree of src/mm.c (lines 166-344 and 399-465) as functions on
    values, over the same page table as the buddy allocator.

    One step of obj_allocate is a parameter.  Line 258 advances a local variable past the first free
    object and never stores it, so the page keeps offering that object; the comment at lines 303-309
    describes a real pop.  `writeBack` is false for the code as it stands and true for the pop. */
module Slab {
  import opened Bits
  import opened Seqs
  import opened Buddy

  const MAX_OBJ_ALLOCATOR_NUM: nat := 16
  const MIN_ALLOCATED_OBJ_SIZE: nat := 8
  const MAX_ALLOCATED_OBJ_SIZE: nat := 2048
  const MIN_KMALLOC_ORDER: nat := 3
  const MAX_KMALLOC_ORDER: nat := 11
  const RETURN_THRESHOLD: nat := 10
  const NULL: int := 0
  const MAX_PFN: nat := 0x8000_0000  // pfn is a C int

  /** obj_allocator_t; objsize is 0 for a slot of the pool that is not registered. */
  datatype ObjAllocator = ObjAllocator(full: seq<nat>, partial: seq<nat>, empty: seq<nat>, currPage: Option<nat>,
                                       objsize: int, objPerPage: int, objUsed: int, pageUsed: int)

  const UNREGISTERED := ObjAllocator([], [], [], None, 0, 0, 0, 0)

  /** mem holds the first word of objects (the link of a free object, client data in a live one);
      objs[p] records the objects of page p that have been handed out and not given back. */
  datatype Heap = Heap(buddy: Buddy.State, pool: seq<ObjAllocator>, mem: map<int, int>, objs: seq<multiset<int>>)

  /** What an allocation function returns; Fault is the use of the null page that buddy_block_alloc
      returns when it fails (lines 244-245 and 430), or of an allocator never registered. */
  datatype Outcome = Addr(addr: int) | Null | Fault

  // ---------------------------------------------------------------- the pool

  ghost predicate Sized(k: Heap)
  {
    && Numbered(k.buddy)
    && |k.pool| == MAX_OBJ_ALLOCATOR_NUM
    && |k.objs| == |k.buddy.pages| < MAX_PFN
  }

  function Clamp(objsize: int): (r: int)
    ensures MIN_ALLOCATED_OBJ_SIZE <= r <= MAX_ALLOCATED_OBJ_SIZE
  {
    if objsize < MIN_ALLOCATED_OBJ_SIZE then MIN_ALLOCATED_OBJ_SIZE
    else if objsize > MAX_ALLOCATED_OBJ_SIZE then MAX_ALLOCATED_OBJ_SIZE
    else objsize
  }

  function InitObjAlloc(objsize: int): ObjAllocator
    requires objsize > 0
  {
    ObjAllocator([], [], [], None, objsize, PAGE_SIZE / objsize, 0, 0)
  }

  type Pool = p: seq<ObjAllocator> | |p| == MAX_OBJ_ALLOCATOR_NUM witness seq(16, _ => UNREGISTERED)

  /** The search loop of register_obj_allocator from a token on. */
  function RegisterFrom(pool: Pool, objsize: int, token: nat): (Pool, int)
    requires objsize > 0
    decreases |pool| - token
  {
    if token >= |pool| then (pool, -1)
    else if pool[token].objsize != 0 then RegisterFrom(pool, objsize, token + 1)
    else (pool[token := InitObjAlloc(objsize)], token)
  }

  /** register_obj_allocator */
  function Register(pool: Pool, objsize: int): (Pool, int)
  {
    RegisterFrom(pool, Clamp(objsize), 0)
  }

  // ---------------------------------------------------------------- obj_allocate

  function SetPage(k: Heap, p: nat, g: Page): Heap
    requires p < |k.buddy.pages|
  {
    k.(buddy := k.buddy.(pages := k.buddy.pages[p := g]))
  }

  function Read(mem: map<int, int>, a: int): int
  {
    if a in mem then mem[a] else NULL
  }

  /** Lines 232-251: make sure there is a current page. */
  function ProvidePage(k: Heap, t: nat): (r: Option<Heap>)
    requires Sized(k) && t < |k.pool|
    ensures r.Some? ==> Sized(r.value) && |r.value.buddy.pages| == |k.buddy.pages|
  {
    var a := k.pool[t];
    if a.currPage.Some? then Some(k)
    else if a.partial != [] then
      Some(k.(pool := k.pool[t := a.(partial := a.partial[1..], currPage := Some(a.partial[0]))]))
    else if a.empty != [] then
      Some(k.(pool := k.pool[t := a.(empty := a.empty[1..], currPage := Some(a.empty[0]))]))
    else
      var (b, r) := Alloc(k.buddy, 0);
      if r.None? || r.value >= |b.pages| then None
      else
        var p := r.value;
        var k' := SetPage(k.(buddy := b), p, b.pages[p].(objUsed := 0, objAlloc := Some(t), free := NULL));
        Some(k'.(pool := k.pool[t := a.(pageUsed := a.pageUsed + 1, currPage := Some(p))]))
  }

  /** Lines 254-264: the address handed out from a page. */
  function NextAddr(g: Page, objsize: int): int
  {
    if g.free != NULL then g.free else g.phyAddr + g.objUsed * objsize
  }

  /** Line 258, stored or not. */
  function NextFree(g: Page, mem: map<int, int>, writeBack: bool): int
  {
    if writeBack && g.free != NULL then Read(mem, g.free) else g.free
  }

  /** Lines 254-273, on the current page p. */
  function TakeObject(k: Heap, t: nat, p: nat, writeBack: bool): (r: (Heap, int))
    requires Sized(k) && t < |k.pool| && p < |k.buddy.pages|
    ensures Sized(r.0)
  {
    var a := k.pool[t];
    var g := k.buddy.pages[p];
    var addr := NextAddr(g, a.objsize);
    var k' := SetPage(k, p, g.(objUsed := g.objUsed + 1, free := NextFree(g, k.mem, writeBack)));
    var b := a.(objUsed := a.objUsed + 1);
    var b' := if a.objPerPage == g.objUsed + 1 then b.(full := b.full + [p], currPage := None) else b;
    (k'.(pool := k.pool[t := b'], objs := k.objs[p := k.objs[p] + multiset{addr}]), addr)
  }

  /** obj_allocate */
  function ObjAllocate(k: Heap, token: int, writeBack: bool): (r: (Heap, Outcome))
    requires Sized(k)
    ensures Sized(r.0)
  {
    if token < 0 || token >= MAX_OBJ_ALLOCATOR_NUM then (k, Null)
    else if k.pool[token].objsize == 0 then (k, Fault)
    else
      match ProvidePage(k, token)
      case None => (k, Fault)
      case Some(k') =>
        var c := k'.pool[token].currPage;
        if c.Some? && c.value < |k'.buddy.pages| then
          var (k'', addr) := TakeObject(k', token, c.value, writeBack);
          (k'', Addr(addr))
        else (k, Fault)
  }

  // ---------------------------------------------------------------- obj_free

  /** PHY_ADDR_TO_PFN: a 64-bit subtraction, the mask 0x0000FFFFFFFFF000 and a shift by PAGE_SHIFT. */
  function PhyAddrToPfn(addr: int): nat
  {
    And((addr - LOW_MEMORY) % 0x1_0000_0000_0000_0000, Mask(PAGE_SHIFT, 48)) / PAGE_SIZE
  }

  /** list_del on the page's node, whichever list of its allocator links it. */
  function Unlink(a: ObjAllocator, p: nat): ObjAllocator
  {
    a.(full := Remove(a.full, p), partial := Remove(a.partial, p), empty := Remove(a.empty, p))
  }

  /** Lines 314-321 for the allocator of a page whose obj_used is now `used`. */
  function Demote(a: ObjAllocator, p: nat, used: int): ObjAllocator
  {
    var b := a.(objUsed := a.objUsed - 1);
    if a.objPerPage - 1 == used then
      var u := Unlink(b, p);
      u.(partial := u.partial + [p])
    else b
  }

  /** Lines 310-321: link the object in front of the page's free list; a full page becomes partial. */
  function GiveBack(k: Heap, t: nat, p: nat, addr: int): (r: Heap)
    requires Sized(k) && t < |k.pool| && p < |k.buddy.pages|
    ensures Sized(r)
  {
    var g := k.buddy.pages[p];
    var k' := SetPage(k, p, g.(free := addr, objUsed := g.objUsed - 1));
    k'.(pool := k.pool[t := Demote(k.pool[t], p, g.objUsed - 1)],
        mem := k.mem[addr := g.free],
        objs := k.objs[p := k.objs[p] - multiset{addr}])
  }

  /** Lines 325-344: an unused page that is not current goes to the empty list or back to the buddy
      allocator. */
  function Settle(k: Heap, t: nat, p: nat): (r: Heap)
    requires Sized(k) && t < |k.pool| && p < |k.buddy.pages|
    ensures Sized(r)
  {
    var a := k.pool[t];
    var g := k.buddy.pages[p];
    if g.objUsed == 0 && a.currPage != Some(p) then
      var u := Unlink(a, p);
      if a.pageUsed >= RETURN_THRESHOLD then
        var k' := SetPage(k, p, g.(free := NULL, objAlloc := None, objUsed := 0));
        k'.(buddy := FreeBlock(k'.buddy, p), pool := k.pool[t := u.(pageUsed := a.pageUsed - 1)])
      else
        k.(pool := k.pool[t := u.(empty := u.empty + [p])])
    else k
  }

  /** obj_free.  Outside the page table or on a page without an allocator the C code would follow a
      wild pointer; no legal call does. */
  function ObjFree(k: Heap, addr: int): (r: Heap)
    requires Sized(k)
    ensures Sized(r)
  {
    var p := PhyAddrToPfn(addr);
    if p < |k.buddy.pages| && k.buddy.pages[p].objAlloc.Some? && k.buddy.pages[p].objAlloc.value < |k.pool| then
      var t := k.buddy.pages[p].objAlloc.value;
      Settle(GiveBack(k, t, p, addr), t, p)
    else k
  }

  // ---------------------------------------------------------------- kmalloc and kfree

  /** The object allocators that __init_kmalloc registers, from the one for 2^i bytes on. */
  function InitKmallocFrom(pool: Pool, i: nat): Pool
    decreases MAX_KMALLOC_ORDER + 1 - i, |pool|
  {
    if i > MAX_KMALLOC_ORDER then pool else InitKmallocFrom(Register(pool, Pow2(i)).0, i + 1)
  }

  /** The search of the object-allocator loop (lines 415-427). */
  function SizeClass(size: int, i: nat): (r: nat)
    requires i <= MAX_KMALLOC_ORDER + 1
    ensures i <= r <= MAX_KMALLOC_ORDER + 1
    ensures r <= MAX_KMALLOC_ORDER ==> size <= Pow2(r)
    ensures forall j :: i <= j < r ==> size > Pow2(j)
    decreases MAX_KMALLOC_ORDER + 1 - i, size
  {
    if i > MAX_KMALLOC_ORDER || size <= Pow2(i) then i else SizeClass(size, i + 1)
  }

  function BlockBytes(order: nat): nat { Pow2(order + PAGE_SHIFT) }

  /** The search of the page loop (lines 429-439). */
  function PageOrder(size: int, i: nat): (r: nat)
    requires i <= MAX_ORDER + 1
    ensures i <= r <= MAX_ORDER + 1
    ensures r <= MAX_ORDER ==> size <= BlockBytes(r)
    ensures forall j :: i <= j < r ==> size > BlockBytes(j)
    decreases MAX_ORDER + 1 - i, size
  {
    if i > MAX_ORDER || size <= BlockBytes(i) then i else PageOrder(size, i + 1)
  }

  /** kmalloc */
  function Kmalloc(k: Heap, size: int, writeBack: bool): (r: (Heap, Outcome))
    requires Sized(k)
    ensures Sized(r.0)
  {
    var i := SizeClass(size, MIN_KMALLOC_ORDER);
    if i <= MAX_KMALLOC_ORDER then ObjAllocate(k, i - MIN_KMALLOC_ORDER, writeBack)
    else
      var j := PageOrder(size, 0);
      if j <= MAX_ORDER then
        var (b, r) := Alloc(k.buddy, j);
        if r.Some? && r.value < |b.pages| then (k.(buddy := b), Addr(b.pages[r.value].phyAddr)) else (k, Fault)
      else (k, Null)
  }

  /** kfree */
  function Kfree(k: Heap, addr: int): (r: Heap)
    requires Sized(k)
    ensures Sized(r)
  {
    var p := PhyAddrToPfn(addr);
    if p >= |k.buddy.pages| then k
    else if k.buddy.pages[p].objAlloc.Some? then ObjFree(k, addr)
    else k.(buddy := FreeBlock(k.buddy, p))
  }
}
