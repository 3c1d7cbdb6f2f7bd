/** The buddy page allocator of src/mm.c (lines 6-134) as functions on values.  A State holds the
    page table, the free areas and, beside them, the blocks handed out and not yet given back. */
module Buddy {
  import opened Bits
  import opened Seqs

  const MAX_ORDER: nat := 9
  const MAX_ORDER_SIZE: nat := 512
  const PAGE_SHIFT: nat := 12
  const PAGE_SIZE: nat := 4096
  const LOW_MEMORY: nat := 0x200000

  datatype Status = Free | Taken

  /** page_t; `list` lives in the sequences that hold the page, `objAlloc` is a token, and the
      object free-list pointer `free` is 0 for NULL. */
  datatype Page = Page(order: int, pfn: nat, used: Status, phyAddr: nat,
                       objUsed: int, objAlloc: Option<nat>, free: int)

  datatype FreeArea = FreeArea(nrFree: int, freelist: seq<nat>)

  datatype State = State(pages: seq<Page>, areas: seq<FreeArea>, live: map<nat, nat>)

  function FindBuddyPfn(pfn: nat, order: nat): nat { Xor(pfn, Pow2(order)) }

  function FindLBuddyPfn(pfn: nat, order: nat): nat { AndNot(pfn, Pow2(order)) }

  // ---------------------------------------------------------------- the operations

  /** What page_init and free_area_init leave in place, whatever page_init finds in the object fields. */
  ghost predicate Numbered(s: State)
  {
    && |s.areas| == MAX_ORDER + 1
    && forall i :: 0 <= i < |s.pages| ==> s.pages[i].pfn == i && s.pages[i].phyAddr == LOW_MEMORY + i * PAGE_SIZE
  }

  function Push(s: State, p: nat, k: nat): State
    requires p < |s.pages| && k < |s.areas|
  {
    s.(pages := s.pages[p := s.pages[p].(order := k, used := Free)],
       areas := s.areas[k := FreeArea(s.areas[k].nrFree + 1, s.areas[k].freelist + [p])])
  }

  function Pop(s: State, p: nat, k: nat): State
    requires p < |s.pages| && k < |s.areas|
  {
    s.(pages := s.pages[p := s.pages[p].(used := Taken)],
       areas := s.areas[k := FreeArea(s.areas[k].nrFree - 1, Remove(s.areas[k].freelist, p))])
  }

  function SetOrder(s: State, p: nat, k: int): State
    requires p < |s.pages|
  {
    s.(pages := s.pages[p := s.pages[p].(order := k)])
  }

  /** The splitting loop (lines 71-82).  A buddy outside the page table would be a wild write in C;
      no valid state has one. */
  function Split(s: State, p: nat, current: nat, order: nat): (t: State)
    requires |s.areas| == MAX_ORDER + 1 && p < |s.pages| && current <= MAX_ORDER
    ensures |t.areas| == |s.areas| && |t.pages| == |s.pages| && t.live == s.live
    decreases current
  {
    if current <= order then s
    else
      var b := FindBuddyPfn(s.pages[p].pfn, current - 1);
      if b < |s.pages| then Split(Push(s, b, current - 1), p, current - 1, order) else s
  }

  lemma {:induction false} SplitNumbered(s: State, p: nat, current: nat, order: nat)
    requires Numbered(s) && p < |s.pages| && current <= MAX_ORDER
    ensures Numbered(Split(s, p, current, order))
    decreases current
  {
    if current > order {
      var b := FindBuddyPfn(s.pages[p].pfn, current - 1);
      if b < |s.pages| { SplitNumbered(Push(s, b, current - 1), p, current - 1, order); }
    }
  }

  /** The search loop (lines 61-95) from order i on. */
  function AllocFrom(s: State, order: nat, i: nat): (r: (State, Option<nat>))
    requires Numbered(s) && order <= i
    ensures Numbered(r.0) && |r.0.pages| == |s.pages|
    decreases |s.areas| - i
  {
    if i > MAX_ORDER then (s, None)
    else if s.areas[i].freelist == [] then AllocFrom(s, order, i + 1)
    else
      var p := s.areas[i].freelist[0];
      if p < |s.pages| then
        SplitNumbered(SetOrder(Pop(s, p, i), p, order), p, i, order);
        var t := Split(SetOrder(Pop(s, p, i), p, order), p, i, order);
        (t.(live := t.live[p := order]), Some(p))
      else (s, None)
  }

  /** buddy_block_alloc */
  function Alloc(s: State, order: int): (r: (State, Option<nat>))
    requires Numbered(s)
    ensures Numbered(r.0) && |r.0.pages| == |s.pages|
  {
    if order < 0 || order > MAX_ORDER then (s, None) else AllocFrom(s, order, order)
  }

  /** The coalescing test (lines 114-115). */
  predicate Mergeable(s: State, p: nat)
    requires Numbered(s) && p < |s.pages|
  {
    && 0 <= s.pages[p].order < MAX_ORDER
    && var b := FindBuddyPfn(s.pages[p].pfn, s.pages[p].order);
    b < |s.pages| && s.pages[p].order == s.pages[b].order && s.pages[b].used == Free
  }

  /** One turn of the coalescing loop (lines 120-127), and the block it continues with. */
  function Merge(s: State, p: nat): (r: (State, nat))
    requires Numbered(s) && p < |s.pages| && Mergeable(s, p)
    ensures Numbered(r.0) && |r.0.pages| == |s.pages| && r.0.live == s.live && r.1 < |s.pages|
    ensures r.0.pages[r.1].order == s.pages[p].order + 1
  {
    var k := s.pages[p].order;
    var t := Pop(s, FindBuddyPfn(p, k), k);
    var q := FindLBuddyPfn(p, k);
    ClearIsSelfOrFlip(p, k);
    (SetOrder(t, q, t.pages[q].order + 1), q)
  }

  /** The coalescing loop and the final push (lines 112-134). */
  function Coalesce(s: State, p: nat): (t: State)
    requires Numbered(s) && p < |s.pages|
    ensures Numbered(t) && |t.pages| == |s.pages| && t.live == s.live
    decreases MAX_ORDER - s.pages[p].order
  {
    if Mergeable(s, p) then
      var (t, q) := Merge(s, p);
      Coalesce(t, q)
    else if 0 <= s.pages[p].order <= MAX_ORDER then Push(s, p, s.pages[p].order)
    else s
  }

  /** buddy_block_free */
  function FreeBlock(s: State, p: nat): (t: State)
    requires Numbered(s) && p < |s.pages|
    ensures Numbered(t) && |t.pages| == |s.pages|
  {
    var t := Coalesce(s, p);
    t.(live := t.live - {p})
  }
}
