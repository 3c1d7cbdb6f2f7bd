/** What the buddy allocator guarantees over all runs of buddy_block_alloc and buddy_block_free. */
module BuddyRuns {
  import opened Bits
  import opened Seqs
  import opened Buddy
  import opened BuddyInvariant

  // ---------------------------------------------------------------- the loops keep the invariant

  /** s as it would look had the splitting loop kept the page entry of p up to date. */
  function At(s: State, p: nat, current: nat): State
    requires p < |s.pages|
  {
    SetOrder(s, p, current).(live := s.live[p := current])
  }

  lemma SplitOnceIsPush(s: State, p: nat, k: nat)
    requires |s.areas| == MAX_ORDER + 1 && p < |s.pages| && k < MAX_ORDER && FindBuddyPfn(p, k) < |s.pages| &&
             FindBuddyPfn(p, k) != p
    ensures SplitOnce(At(s, p, k + 1), p, k) == At(Push(s, FindBuddyPfn(p, k), k), p, k)
  {
    var l, r := SplitOnce(At(s, p, k + 1), p, k), At(Push(s, FindBuddyPfn(p, k), k), p, k);
    assert l.pages == r.pages;
    assert l.live == r.live;
  }

  lemma SplitUnfolds(s: State, p: nat, k: nat, order: nat)
    requires |s.areas| == MAX_ORDER + 1 && p < |s.pages| && s.pages[p].pfn == p && k < MAX_ORDER && order <= k &&
             Aligned(p, k + 1) && p + Pow2(k + 1) <= |s.pages|
    ensures FindBuddyPfn(p, k) == p + Pow2(k) < p + Pow2(k + 1)
    ensures Split(s, p, k + 1, order) == Split(Push(s, p + Pow2(k), k), p, k, order)
    ensures Aligned(p, k)
  {
    LeftBuddy(p, k);
    assert Pow2(k + 1) == 2 * Pow2(k);
  }

  /** The splitting loop, seen as a sequence of single cuts of the block at p. */
  function Cuts(v: State, p: nat, current: nat, order: nat): (t: State)
    requires |v.areas| == MAX_ORDER + 1 && p < |v.pages| && current <= MAX_ORDER
    decreases current
  {
    if current <= order || FindBuddyPfn(p, current - 1) >= |v.pages| then v
    else Cuts(SplitOnce(v, p, current - 1), p, current - 1, order)
  }

  lemma CutsUnfolds(v: State, p: nat, k: nat, order: nat)
    requires |v.areas| == MAX_ORDER + 1 && p < |v.pages| && k < MAX_ORDER && order <= k &&
             FindBuddyPfn(p, k) < |v.pages|
    ensures Cuts(v, p, k + 1, order) == Cuts(SplitOnce(v, p, k), p, k, order)
  {
  }

  lemma CutsStep(s: State, p: nat, k: nat, order: nat)
    requires |s.areas| == MAX_ORDER + 1 && p < |s.pages| && k < MAX_ORDER && order <= k &&
             FindBuddyPfn(p, k) < |s.pages| && FindBuddyPfn(p, k) != p
    ensures Cuts(At(s, p, k + 1), p, k + 1, order) == Cuts(At(Push(s, FindBuddyPfn(p, k), k), p, k), p, k, order)
  {
    CutsUnfolds(At(s, p, k + 1), p, k, order);
    SplitOnceIsPush(s, p, k);
  }

  lemma {:induction false} SplitIsCuts(s: State, p: nat, current: nat, order: nat)
    requires |s.areas| == MAX_ORDER + 1 && p < |s.pages| && s.pages[p].pfn == p && order <= current <= MAX_ORDER &&
             Aligned(p, current)
    requires p + Pow2(current) <= |s.pages|
    ensures At(Split(s, p, current, order), p, order) == Cuts(At(s, p, current), p, current, order)
    decreases current
  {
    if order < current {
      var k := current - 1;
      SplitUnfolds(s, p, k, order);
      var t := Push(s, p + Pow2(k), k);
      CutsStep(s, p, k, order);
      SplitIsCuts(t, p, k, order);
    }
  }

  /** The block that is cut keeps its page entry. */
  lemma {:induction false} SplitKeepsEntry(s: State, p: nat, current: nat, order: nat)
    requires |s.areas| == MAX_ORDER + 1 && p < |s.pages| && s.pages[p].pfn == p && order <= current <= MAX_ORDER &&
             Aligned(p, current)
    requires p + Pow2(current) <= |s.pages|
    ensures Split(s, p, current, order).pages[p] == s.pages[p]
    decreases current
  {
    if order < current {
      var k := current - 1;
      SplitUnfolds(s, p, k, order);
      SplitKeepsEntry(Push(s, p + Pow2(k), k), p, k, order);
    }
  }

  lemma {:induction false} CutsKeep(v: State, own: seq<nat>, p: nat, current: nat, order: nat)
    requires InvBy(v, own) && p in v.live && v.live[p] == current <= MAX_ORDER && order <= current && p < |v.pages|
    ensures Inv(Cuts(v, p, current, order))
    decreases current
  {
    if order < current {
      var k := current - 1;
      SplitOnceKeeps(v, own, p, k);
      CutsKeep(SplitOnce(v, p, k), Cut(own, p, k), p, k, order);
    }
  }

  /** The smallest order from i on with a free block, or MAX_ORDER + 1. */
  function FirstFree(s: State, i: nat): (r: nat)
    requires |s.areas| == MAX_ORDER + 1 && i <= MAX_ORDER + 1
    ensures i <= r <= MAX_ORDER + 1
    ensures forall j :: i <= j < r ==> s.areas[j].freelist == []
    ensures r <= MAX_ORDER ==> s.areas[r].freelist != []
    decreases |s.areas| - i
  {
    if i > MAX_ORDER || s.areas[i].freelist != [] then i else FirstFree(s, i + 1)
  }

  lemma {:induction false} AllocFromFirst(s: State, order: nat, i: nat)
    requires Numbered(s) && order <= i <= MAX_ORDER + 1
    ensures AllocFrom(s, order, i) == AllocFrom(s, order, FirstFree(s, i))
    decreases MAX_ORDER + 1 - i
  {
    if i <= MAX_ORDER && s.areas[i].freelist == [] { AllocFromFirst(s, order, i + 1); }
  }

  lemma AllocKeeps(s: State, order: int)
    requires Inv(s)
    ensures Inv(Alloc(s, order).0)
    ensures var (t, r) := Alloc(s, order);
            && (r.None? ==> t == s)
            && (r.None? <==> order < 0 || order > MAX_ORDER || FirstFree(s, order) > MAX_ORDER)
            && (r.Some? ==>
                  && r.value == s.areas[FirstFree(s, order)].freelist[0]
                  && r.value !in s.live
                  && t.live == s.live[r.value := order])
  {
    var own :| InvBy(s, own);
    if 0 <= order <= MAX_ORDER {
      AllocFromFirst(s, order, order);
      var i := FirstFree(s, order);
      if i <= MAX_ORDER {
        var p := s.areas[i].freelist[0];
        assert Listed(s, i, p);
        assert IsFreeBlock(s, own, p, i);
        assert Owned(s, own, p);
        TakeKeeps(s, own, p, i);
        var u := SetOrder(Pop(s, p, i), p, order);
        assert At(u, p, i) == Take(s, p, i);
        SplitIsCuts(u, p, i, order);
        SplitKeepsEntry(u, p, i, order);
        CutsKeep(Take(s, p, i), own, p, i, order);
        assert At(Split(u, p, i, order), p, order) == Alloc(s, order).0;
      }
    }
  }

  /** The coalescing loop and final push, with the record of live blocks kept up to date throughout. */
  function Joins(v: State, p: nat): (t: State)
    requires Numbered(v) && p < |v.pages|
    decreases MAX_ORDER - v.pages[p].order
  {
    if Mergeable(v, p) then Joins(MergeOnce(v, p), Merge(v, p).1)
    else if 0 <= v.pages[p].order <= MAX_ORDER then Release(v, p, v.pages[p].order)
    else v
  }

  lemma {:induction false} CoalesceIsJoins(s: State, v: State, p: nat)
    requires Numbered(s) && p < |s.pages| && v.pages == s.pages && v.areas == s.areas
    ensures Coalesce(s, p).pages == Joins(v, p).pages && Coalesce(s, p).areas == Joins(v, p).areas
    decreases MAX_ORDER - s.pages[p].order
  {
    if Mergeable(s, p) {
      CoalesceIsJoins(Merge(s, p).0, MergeOnce(v, p), Merge(s, p).1);
    }
  }

  lemma {:induction false} JoinsKeep(v: State, own: seq<nat>, p: nat)
    requires InvBy(v, own) && p in v.live && p < |v.pages|
    ensures Inv(Joins(v, p))
    ensures Joins(v, p).live == v.live - {p}
    decreases MAX_ORDER - v.pages[p].order
  {
    MergeTestReadsHeads(v, own, p);
    if Mergeable(v, p) {
      var k := v.live[p];
      var q := MergeOnceEffect(v, own, p, k);
      MergeOnceKeeps(v, own, p);
      assert q == p || q !in v.live;
      JoinsKeep(MergeOnce(v, p), Join(own, q, k), q);
    } else {
      ReleaseKeeps(v, own, p);
    }
  }

  lemma FreeKeeps(s: State, p: nat)
    requires Inv(s) && p in s.live
    ensures p < |s.pages| && Inv(FreeBlock(s, p))
    ensures FreeBlock(s, p).live == s.live - {p}
  {
    var own :| InvBy(s, own);
    assert IsLiveBlock(s, own, p, s.live[p]);
    CoalesceIsJoins(s, s, p);
    JoinsKeep(s, own, p);
    assert FreeBlock(s, p) == Joins(s, p);
  }

  /** Freeing told by the lists alone: no page entry is consulted. */
  function FreeByLists(areas: seq<FreeArea>, p: nat, k: nat): seq<FreeArea>
    requires |areas| == MAX_ORDER + 1 && k <= MAX_ORDER
    decreases MAX_ORDER - k
  {
    var b := FindBuddyPfn(p, k);
    var a := areas[k];
    if k < MAX_ORDER && b in a.freelist then
      FreeByLists(areas[k := FreeArea(a.nrFree - 1, Remove(a.freelist, b))], if b < p then b else p, k + 1)
    else
      areas[k := FreeArea(a.nrFree + 1, a.freelist + [p])]
  }

  lemma {:induction false} JoinsByLists(v: State, own: seq<nat>, p: nat)
    requires InvBy(v, own) && p in v.live && p < |v.pages|
    ensures v.live[p] <= MAX_ORDER && Joins(v, p).areas == FreeByLists(v.areas, p, v.live[p])
    decreases MAX_ORDER - v.pages[p].order
  {
    MergeTestReadsHeads(v, own, p);
    if Mergeable(v, p) {
      var k := v.live[p];
      var q := MergeOnceEffect(v, own, p, k);
      MergeOnceKeeps(v, own, p);
      JoinsByLists(MergeOnce(v, p), Join(own, q, k), q);
    }
  }

  /** buddy_block_free never depends on stale page entries: it is the list-only algorithm. */
  lemma FreeIsByLists(s: State, p: nat)
    requires Inv(s) && p in s.live
    ensures p < |s.pages| && s.live[p] <= MAX_ORDER
    ensures FreeBlock(s, p).areas == FreeByLists(s.areas, p, s.live[p])
  {
    var own :| InvBy(s, own);
    assert IsLiveBlock(s, own, p, s.live[p]);
    CoalesceIsJoins(s, s, p);
    JoinsByLists(s, own, p);
  }

  // ---------------------------------------------------------------- all runs

  datatype Op = AllocOp(order: int) | FreeOp(pfn: nat)

  /** A caller frees only what it holds. */
  predicate Legal(s: State, op: Op)
  {
    op.FreeOp? ==> op.pfn in s.live
  }

  function Apply(s: State, op: Op): (t: State)
    requires Numbered(s)
  {
    match op
    case AllocOp(order) => Alloc(s, order).0
    case FreeOp(p) => if p < |s.pages| then FreeBlock(s, p) else s
  }

  /** t is reached from s by the operations ops, in this order, each legal when it is made. */
  ghost predicate Reaches(s: State, ops: seq<Op>, t: State)
    decreases |ops|
  {
    if ops == [] then s == t
    else Numbered(s) && Legal(s, ops[0]) && Reaches(Apply(s, ops[0]), ops[1..], t)
  }

  lemma {:induction false} RunsKeepInv(s: State, ops: seq<Op>, t: State)
    requires Inv(s) && Reaches(s, ops, t)
    ensures Inv(t) && |t.pages| == |s.pages|
    decreases |ops|
  {
    if ops != [] {
      match ops[0] {
        case AllocOp(order) => AllocKeeps(s, order);
        case FreeOp(p) => FreeKeeps(s, p);
      }
      RunsKeepInv(Apply(s, ops[0]), ops[1..], t);
    }
  }
}
