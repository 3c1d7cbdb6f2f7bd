/** The guarantees of the buddy allocator in terms of which pages are taken, over all runs from boot. */
module BuddyTheorems {
  import opened Bits
  import opened Seqs
  import opened Buddy
  import opened BuddyInvariant
  import opened BuddyRuns

  /** Page x belongs to a block that has been handed out and not given back. */
  ghost predicate PageTaken(s: State, x: nat)
  {
    exists h :: h in s.live && h <= x < h + Pow2(s.live[h])
  }

  /** An aligned run of 2^k page frames, none of them taken. */
  ghost predicate FreeRun(s: State, p: nat, k: nat)
  {
    && Aligned(p, k)
    && p + Pow2(k) <= |s.pages|
    && forall x: nat :: p <= x < p + Pow2(k) ==> !PageTaken(s, x)
  }

  lemma TakenByOwner(s: State, own: seq<nat>, x: nat)
    requires InvBy(s, own) && x < |own|
    ensures own[x] < |own|
    ensures PageTaken(s, x) <==> s.pages[own[x]].used == Taken
  {
    assert Owned(s, own, x);
    var h := own[x];
    if s.pages[h].used == Taken {
      assert IsLiveBlock(s, own, h, s.pages[h].order);
    }
    if PageTaken(s, x) {
      var g :| g in s.live && g <= x < g + Pow2(s.live[g]);
      assert IsLiveBlock(s, own, g, s.live[g]);
      assert Covers(s, g, x);
    }
  }

  /** Live blocks are aligned, inside memory and pairwise disjoint. */
  lemma LiveBlocksDisjoint(s: State, g: nat, h: nat)
    requires Inv(s) && g in s.live && h in s.live
    ensures s.live[g] <= MAX_ORDER && Aligned(g, s.live[g]) && g + Pow2(s.live[g]) <= |s.pages|
    ensures g != h ==> g + Pow2(s.live[g]) <= h || h + Pow2(s.live[h]) <= g
  {
    var own :| InvBy(s, own);
    assert IsLiveBlock(s, own, g, s.live[g]) && IsLiveBlock(s, own, h, s.live[h]);
    assert Owned(s, own, g) && Owned(s, own, h);
    CoveredOnce(s, own, g, h);
    CoveredOnce(s, own, h, g);
  }

  /** The run of 2^k pages at p lies inside the free block that page p belongs to. */
  ghost predicate InFreeBlock(s: State, own: seq<nat>, p: nat, k: nat)
  {
    && |own| == |s.pages| && p < |own| && own[p] < |own|
    && var h := own[p];
    && k <= s.pages[h].order <= MAX_ORDER
    && IsFreeBlock(s, own, h, s.pages[h].order)
    && h <= p && p + Pow2(k) <= h + Pow2(s.pages[h].order)
  }

  /** In canonical form an untaken aligned run never straddles two blocks. */
  lemma {:induction false} FreeRunInOneBlock(s: State, own: seq<nat>, p: nat, k: nat)
    requires InvBy(s, own) && k <= MAX_ORDER && FreeRun(s, p, k)
    ensures InFreeBlock(s, own, p, k)
    decreases k
  {
    if k > 0 {
      HalfRuns(s, p, k - 1);
      FreeRunInOneBlock(s, own, p, k - 1);
      FreeRunInOneBlock(s, own, p + Pow2(k - 1), k - 1);
      JoinedHalves(s, own, p, k - 1);
    } else {
      OnePage(s, own, p);
    }
  }

  lemma OnePage(s: State, own: seq<nat>, p: nat)
    requires InvBy(s, own) && FreeRun(s, p, 0)
    ensures InFreeBlock(s, own, p, 0)
  {
    assert !PageTaken(s, p);
    TakenByOwner(s, own, p);
    assert Owned(s, own, p);
  }

  lemma JoinedHalves(s: State, own: seq<nat>, p: nat, k: nat)
    requires InvBy(s, own) && k < MAX_ORDER && FreeRun(s, p, k + 1)
    requires InFreeBlock(s, own, p, k) && InFreeBlock(s, own, p + Pow2(k), k)
    ensures InFreeBlock(s, own, p, k + 1)
  {
    var h := own[p];
    assert Owned(s, own, p);
    if s.pages[h].order == k {
      HalvesAreOne(s, own, p, k);
    } else {
      AlignedNested(h, s.pages[h].order, p, k + 1, p);
    }
  }

  lemma HalfRuns(s: State, p: nat, k: nat)
    requires FreeRun(s, p, k + 1)
    ensures FreeRun(s, p, k) && FreeRun(s, p + Pow2(k), k)
  {
    LeftBuddy(p, k);
    assert Pow2(k + 1) == 2 * Pow2(k);
  }

  /** A free block of order k at p whose other half lies in a free block at least as large would
      have a free buddy; canonical form excludes it. */
  lemma HalvesAreOne(s: State, own: seq<nat>, p: nat, k: nat)
    requires InvBy(s, own) && k < MAX_ORDER && Aligned(p, k + 1) && p + Pow2(k + 1) <= |own|
    requires p + Pow2(k) < |own| && own[p + Pow2(k)] < |own|
    requires var g := own[p + Pow2(k)];
             k <= s.pages[g].order <= MAX_ORDER && IsFreeBlock(s, own, g, s.pages[g].order)
    ensures !IsFreeBlock(s, own, p, k)
  {
    var r := p + Pow2(k);
    var g := own[r];
    var i := s.pages[g].order;
    assert Owned(s, own, r);
    LeftBuddy(p, k);
    assert Pow2(k + 1) == 2 * Pow2(k);
    if i > k {
      AlignedNested(g, i, p, k + 1, r);
      CoveredOnce(s, own, g, p);
    } else {
      AlignedNested(r, k, g, i, r);
      assert Listed(s, k, r);
      assert FindBuddyPfn(p, k) == r;
      assert !Listed(s, k, p);
    }
  }

  /** All of a free block is untaken. */
  lemma FreeBlockUntaken(s: State, own: seq<nat>, h: nat, j: nat, q: nat, k: nat)
    requires InvBy(s, own) && IsFreeBlock(s, own, h, j)
    requires Aligned(q, k) && h <= q && q + Pow2(k) <= h + Pow2(j)
    ensures FreeRun(s, q, k)
  {
    assert Owned(s, own, h);
    forall x: nat | q <= x < q + Pow2(k)
      ensures !PageTaken(s, x)
    {
      assert Covers(s, h, x);
      TakenByOwner(s, own, x);
    }
  }

  /** The pair of p at order k lies in any larger aligned block that p lies in. */
  lemma PairInLarger(h: nat, j: nat, p: nat, k: nat)
    requires Aligned(h, j) && Aligned(p, k) && k < j && h <= p < h + Pow2(j)
    ensures var q := FindLBuddyPfn(p, k);
            Aligned(q, k + 1) && h <= q && q + Pow2(k + 1) <= h + Pow2(j)
  {
    if Aligned(p, k + 1) { LeftBuddy(p, k); } else { RightBuddy(p, k); }
    assert Pow2(k + 1) == 2 * Pow2(k);
    AlignedNested(h, j, FindLBuddyPfn(p, k), k + 1, p);
  }

  /** A run in a larger free block is not maximal. */
  lemma LargerBlock(s: State, own: seq<nat>, h: nat, j: nat, p: nat, k: nat)
    requires InvBy(s, own) && IsFreeBlock(s, own, h, j) && Aligned(p, k) && k < j && h <= p < h + Pow2(j)
    ensures FreeRun(s, FindLBuddyPfn(p, k), k + 1)
  {
    assert Owned(s, own, h);
    PairInLarger(h, j, p, k);
    FreeBlockUntaken(s, own, h, j, FindLBuddyPfn(p, k), k + 1);
  }

  /** The free lists are exactly the maximal untaken aligned runs. */
  lemma FreeListsAreMaximalRuns(s: State, k: nat, p: nat)
    requires Inv(s)
    ensures Listed(s, k, p) <==>
            k <= MAX_ORDER && FreeRun(s, p, k) && (k == MAX_ORDER || !FreeRun(s, FindLBuddyPfn(p, k), k + 1))
  {
    var own :| InvBy(s, own);
    if Listed(s, k, p) {
      ListedIsMaximal(s, own, k, p);
    } else if k <= MAX_ORDER && FreeRun(s, p, k) {
      FreeRunInOneBlock(s, own, p, k);
      var h := own[p];
      var j := s.pages[h].order;
      assert Listed(s, j, h);
      if k < j { LargerBlock(s, own, h, j, p, k); }
    }
  }

  lemma ListedIsMaximal(s: State, own: seq<nat>, k: nat, p: nat)
    requires InvBy(s, own) && Listed(s, k, p)
    ensures k <= MAX_ORDER && FreeRun(s, p, k)
    ensures k < MAX_ORDER ==> !FreeRun(s, FindLBuddyPfn(p, k), k + 1)
  {
    assert IsFreeBlock(s, own, p, k);
    assert Owned(s, own, p);
    FreeBlockUntaken(s, own, p, k, p, k);
    if k < MAX_ORDER {
      var q := BuddyFits(p, k, |own|);
      if FreeRun(s, q, k + 1) {
        FreeRunInOneBlock(s, own, q, k + 1);
        CoveredOnce(s, own, own[q], p);
      }
    }
  }

  /** The free lists depend on the taken pages only, not on the history that led there. */
  lemma HistoryIndependent(s: State, t: State, k: nat)
    requires Inv(s) && Inv(t) && |s.pages| == |t.pages| && k <= MAX_ORDER
    requires forall x: nat :: PageTaken(s, x) <==> PageTaken(t, x)
    ensures |s.areas| == |t.areas| == MAX_ORDER + 1
    ensures multiset(s.areas[k].freelist) == multiset(t.areas[k].freelist)
    ensures s.areas[k].nrFree == t.areas[k].nrFree
  {
    forall p: nat
      ensures p in s.areas[k].freelist <==> p in t.areas[k].freelist
    {
      FreeListsAreMaximalRuns(s, k, p);
      FreeListsAreMaximalRuns(t, k, p);
      SameRuns(s, t, p, k);
      SameRuns(s, t, FindLBuddyPfn(p, k), k + 1);
      assert Listed(s, k, p) <==> Listed(t, k, p);
    }
    SameMembersPermute(s.areas[k].freelist, t.areas[k].freelist);
  }

  lemma SameRuns(s: State, t: State, p: nat, k: nat)
    requires |s.pages| == |t.pages|
    requires forall x: nat :: PageTaken(s, x) <==> PageTaken(t, x)
    ensures FreeRun(s, p, k) <==> FreeRun(t, p, k)
  {
  }

  lemma RunMeansListed(s: State, own: seq<nat>, p: nat, k: nat)
    requires InvBy(s, own) && k <= MAX_ORDER && FreeRun(s, p, k)
    ensures FirstFree(s, k) <= MAX_ORDER
  {
    FreeRunInOneBlock(s, own, p, k);
    var h := own[p];
    assert Listed(s, s.pages[h].order, h);
  }

  /** buddy_block_alloc fails exactly when no aligned run of the wanted size is untaken. */
  lemma AllocComplete(s: State, order: int)
    requires Inv(s)
    ensures Alloc(s, order).1.None? <==>
            order < 0 || order > MAX_ORDER || forall p: nat :: !FreeRun(s, p, order)
  {
    AllocKeeps(s, order);
    var own :| InvBy(s, own);
    if 0 <= order <= MAX_ORDER {
      var i := FirstFree(s, order);
      if i <= MAX_ORDER {
        var h := s.areas[i].freelist[0];
        assert Listed(s, i, h);
        PrefixOfFree(s, own, h, i, order);
      }
      if p: nat :| FreeRun(s, p, order) {
        RunMeansListed(s, own, p, order);
      }
    }
  }

  lemma PrefixOfFree(s: State, own: seq<nat>, h: nat, i: nat, order: nat)
    requires InvBy(s, own) && Listed(s, i, h) && order <= i
    ensures FreeRun(s, h, order)
  {
    ListedIsMaximal(s, own, i, h);
    AlignedWeaken(h, i, order);
    Pow2Monotone(order, i);
  }

  /** What the splitting loop pushes onto the list of order j. */
  function UpperHalf(p: nat, current: nat, order: nat, j: nat): seq<nat>
  {
    if order <= j < current then [p + Pow2(j)] else []
  }

  lemma OneMoreHalf(l: seq<nat>, p: nat, k: nat, order: nat, j: nat)
    requires order <= k
    ensures (if j == k then l + [p + Pow2(k)] else l) + UpperHalf(p, k, order, j) == l + UpperHalf(p, k + 1, order, j)
  {
  }

  lemma PushedList(s: State, b: nat, k: nat, j: nat)
    requires b < |s.pages| && k < |s.areas| && j < |s.areas|
    ensures Push(s, b, k).areas[j].freelist == if j == k then s.areas[j].freelist + [b] else s.areas[j].freelist
  {
  }

  lemma {:induction false} SplitAreas(s: State, p: nat, current: nat, order: nat, j: nat)
    requires |s.areas| == MAX_ORDER + 1 && p < |s.pages| && s.pages[p].pfn == p && order <= current <= MAX_ORDER &&
             Aligned(p, current)
    requires p + Pow2(current) <= |s.pages| && j <= MAX_ORDER
    ensures Split(s, p, current, order).areas[j].freelist == s.areas[j].freelist + UpperHalf(p, current, order, j)
    decreases current
  {
    if order < current {
      var k := current - 1;
      SplitUnfolds(s, p, k, order);
      PushedList(s, p + Pow2(k), k, j);
      SplitAreas(Push(s, p + Pow2(k), k), p, k, order, j);
      OneMoreHalf(s.areas[j].freelist, p, k, order, j);
    }
  }

  lemma AllocIsSplit(s: State, own: seq<nat>, order: nat)
    requires InvBy(s, own) && order <= MAX_ORDER && FirstFree(s, order) <= MAX_ORDER
    ensures var i := FirstFree(s, order);
            var p := s.areas[i].freelist[0];
            && p < |s.pages| && Listed(s, i, p)
            && Alloc(s, order).0.areas == Split(SetOrder(Pop(s, p, i), p, order), p, i, order).areas
  {
    AllocFromFirst(s, order, order);
    var i := FirstFree(s, order);
    var p := s.areas[i].freelist[0];
    assert Listed(s, i, p);
    assert IsFreeBlock(s, own, p, i);
  }

  /** The list of order j after the first block of order i has been taken and cut down to `order`. */
  function CutList(s: State, order: nat, i: nat, j: nat): seq<nat>
    requires |s.areas| == MAX_ORDER + 1 && i <= MAX_ORDER && j <= MAX_ORDER && s.areas[i].freelist != []
  {
    if j == i then s.areas[i].freelist[1..]
    else if order <= j < i then [s.areas[i].freelist[0] + Pow2(j)]
    else s.areas[j].freelist
  }

  lemma PoppedList(s: State, order: nat, i: nat, j: nat)
    requires |s.areas| == MAX_ORDER + 1 && i <= MAX_ORDER && j <= MAX_ORDER && s.areas[i].freelist != []
    requires s.areas[i].freelist[0] < |s.pages|
    ensures var p := s.areas[i].freelist[0];
            SetOrder(Pop(s, p, i), p, order).areas[j].freelist == if j == i then s.areas[i].freelist[1..]
              else s.areas[j].freelist
  {
  }

  lemma CutListIs(s: State, order: nat, i: nat, j: nat)
    requires |s.areas| == MAX_ORDER + 1 && i <= MAX_ORDER && j <= MAX_ORDER && s.areas[i].freelist != []
    requires forall k :: order <= k < i ==> s.areas[k].freelist == []
    ensures (if j == i then s.areas[i].freelist[1..] else s.areas[j].freelist)
            + UpperHalf(s.areas[i].freelist[0], i, order, j)
         == CutList(s, order, i, j)
  {
  }

  lemma PopAndCut(s: State, order: nat, i: nat, j: nat)
    requires Numbered(s) && order <= i <= MAX_ORDER && j <= MAX_ORDER && s.areas[i].freelist != []
    requires forall k :: order <= k < i ==> s.areas[k].freelist == []
    requires var p := s.areas[i].freelist[0]; Aligned(p, i) && p + Pow2(i) <= |s.pages|
    ensures var p := s.areas[i].freelist[0];
            Split(SetOrder(Pop(s, p, i), p, order), p, i, order).areas[j].freelist == CutList(s, order, i, j)
  {
    var p := s.areas[i].freelist[0];
    PoppedList(s, order, i, j);
    SplitAreas(SetOrder(Pop(s, p, i), p, order), p, i, order, j);
    CutListIs(s, order, i, j);
  }

  /** A successful allocation takes the first block of the smallest sufficient order, cuts off its
      upper halves, one for each order in between, and touches no other list. */
  lemma AllocEffect(s: State, order: int, j: nat)
    requires Inv(s) && Alloc(s, order).1.Some? && j <= MAX_ORDER
    ensures 0 <= order <= MAX_ORDER && FirstFree(s, order) <= MAX_ORDER
    ensures var (t, r) := Alloc(s, order);
            && r.value == s.areas[FirstFree(s, order)].freelist[0]
            && FreeRun(s, r.value, order)
            && |t.areas| == MAX_ORDER + 1
            && t.areas[j].freelist == CutList(s, order, FirstFree(s, order), j)
            && t.live == s.live[r.value := order]
  {
    var own :| InvBy(s, own);
    AllocKeeps(s, order);
    AllocIsSplit(s, own, order);
    var i := FirstFree(s, order);
    ListedIsMaximal(s, own, i, s.areas[i].freelist[0]);
    PopAndCut(s, order, i, j);
    PrefixOfFree(s, own, s.areas[i].freelist[0], i, order);
  }

  lemma OneMoreBlock(s: State, t: State, p: nat, k: nat, x: nat)
    requires p !in s.live && t.live == s.live[p := k]
    ensures PageTaken(t, x) <==> PageTaken(s, x) || p <= x < p + Pow2(k)
  {
    if h :| h in s.live && h <= x < h + Pow2(s.live[h]) { assert t.live[h] == s.live[h]; }
    if g :| g in t.live && g <= x < g + Pow2(t.live[g]) { assert g == p || s.live[g] == t.live[g]; }
    if p <= x < p + Pow2(k) { assert t.live[p] == k; }
  }

  /** Allocation takes the pages of the block it returns and changes the status of no other page. */
  lemma AllocTakesItsBlock(s: State, order: int, x: nat)
    requires Inv(s) && Alloc(s, order).1.Some?
    ensures order >= 0
    ensures var (t, r) := Alloc(s, order);
            && PageTaken(t, x) == (PageTaken(s, x) || r.value <= x < r.value + Pow2(order))
            && (r.value <= x < r.value + Pow2(order) ==> !PageTaken(s, x))
  {
    AllocEffect(s, order, 0);
    AllocKeeps(s, order);
    var (t, r) := Alloc(s, order);
    OneMoreBlock(s, t, r.value, order, x);
  }

  /** Freeing gives back the pages of the freed block and changes the status of no other page. */
  lemma FreeReturnsItsBlock(s: State, p: nat, x: nat)
    requires Inv(s) && p in s.live
    ensures p < |s.pages|
    ensures PageTaken(FreeBlock(s, p), x) == (PageTaken(s, x) && !(p <= x < p + Pow2(s.live[p])))
  {
    FreeKeeps(s, p);
    var t := FreeBlock(s, p);
    if h :| h in s.live && h <= x < h + Pow2(s.live[h]) {
      LiveBlocksDisjoint(s, h, p);
      if h != p { assert t.live[h] == s.live[h]; }
    }
    if g :| g in t.live && g <= x < g + Pow2(t.live[g]) {
      assert s.live[g] == t.live[g];
      LiveBlocksDisjoint(s, g, p);
    }
  }

  /** Freeing what was just allocated restores every free list, whatever splits and merges it took. */
  lemma AllocFreeRoundTrip(s: State, order: int, k: nat)
    requires Inv(s) && Alloc(s, order).1.Some? && k <= MAX_ORDER
    ensures var (t, r) := Alloc(s, order);
            && r.value < |t.pages|
            && var u := FreeBlock(t, r.value);
            && u.live == s.live && |u.areas| == |s.areas| == MAX_ORDER + 1
            && multiset(u.areas[k].freelist) == multiset(s.areas[k].freelist) && u.areas[k].nrFree == s.areas[k].nrFree
  {
    AllocKeeps(s, order);
    var (t, r) := Alloc(s, order);
    FreeKeeps(t, r.value);
    var u := FreeBlock(t, r.value);
    assert u.live == s.live;
    HistoryIndependent(u, s, k);
  }

  // ---------------------------------------------------------------- from boot

  function BootPage(i: nat): Page
  {
    Page(if i % MAX_ORDER_SIZE == 0 then MAX_ORDER else -1, i, Free, LOW_MEMORY + i * PAGE_SIZE, 0, None, 0)
  }

  /** The state after page_init and free_area_init on zeroed memory, for m blocks of maximal order. */
  function Boot(m: nat): State
  {
    State(seq(MAX_ORDER_SIZE * m, i requires 0 <= i => BootPage(i)),
          seq(MAX_ORDER + 1, k requires 0 <= k =>
            if k == MAX_ORDER then FreeArea(m, seq(m, i requires 0 <= i => i * MAX_ORDER_SIZE)) else FreeArea(0, [])),
          map[])
  }

  /** Every page starts or lies in the maximal block that contains it, and in no other. */
  lemma BlockOf(x: nat, h: nat)
    requires h % MAX_ORDER_SIZE == 0 && h <= x < h + MAX_ORDER_SIZE
    ensures x - x % MAX_ORDER_SIZE == h
  {
    DivModUnique(x, MAX_ORDER_SIZE, h / MAX_ORDER_SIZE, x - h);
  }

  lemma BootBlock(m: nat, h: nat)
    requires h < MAX_ORDER_SIZE * m && h % MAX_ORDER_SIZE == 0
    ensures HeadOk(Boot(m), h) && Size(Boot(m), h) == MAX_ORDER_SIZE
  {
    assert Pow2(9) == MAX_ORDER_SIZE;
    AlignedIsMultiple(h, MAX_ORDER);
    AlignedIsMultiple(MAX_ORDER_SIZE * m, MAX_ORDER);
    AlignedFits(h, MAX_ORDER_SIZE * m, MAX_ORDER);
  }

  lemma BootOwned(m: nat, own: seq<nat>, x: nat)
    requires |own| == MAX_ORDER_SIZE * m && forall x :: 0 <= x < |own| ==> own[x] == x - x % MAX_ORDER_SIZE
    requires x < |own|
    ensures Owned(Boot(m), own, x)
  {
    var h := own[x];
    DivModUnique(h, MAX_ORDER_SIZE, x / MAX_ORDER_SIZE, 0);
    BootBlock(m, h);
  }

  lemma BootTiling(m: nat, own: seq<nat>)
    requires |own| == MAX_ORDER_SIZE * m && forall x :: 0 <= x < |own| ==> own[x] == x - x % MAX_ORDER_SIZE
    ensures Aligned(|own|, MAX_ORDER) && Tiling(Boot(m), own)
  {
    var s := Boot(m);
    assert Pow2(9) == MAX_ORDER_SIZE;
    AlignedIsMultiple(|own|, MAX_ORDER);
    forall x: nat | x < |own|
      ensures Owned(s, own, x)
    {
      BootOwned(m, own, x);
    }
    forall h: nat, x: nat | x < |own| && IsHead(own, h) && Covers(s, h, x) ensures own[x] == h {
      BootBlock(m, h);
      BlockOf(x, h);
    }
  }

  lemma BootInv(m: nat)
    ensures Inv(Boot(m))
  {
    var s := Boot(m);
    var own := seq(MAX_ORDER_SIZE * m, (x: nat) => (x - x % MAX_ORDER_SIZE) as nat);
    BootTiling(m, own);
    BootLists(m, own);
    assert LiveExact(s, own);
    assert InvBy(s, own);
  }

  lemma BootLists(m: nat, own: seq<nat>)
    requires |own| == MAX_ORDER_SIZE * m && forall x :: 0 <= x < |own| ==> own[x] == x - x % MAX_ORDER_SIZE
    ensures ListsExact(Boot(m), own) && Canonical(Boot(m))
  {
    var s := Boot(m);
    forall k: nat, p: nat | Listed(s, k, p)
      ensures IsFreeBlock(s, own, p, k)
    {
      var i :| 0 <= i < |s.areas[k].freelist| && s.areas[k].freelist[i] == p;
    }
    forall k: nat, p: nat | k <= MAX_ORDER && IsFreeBlock(s, own, p, k)
      ensures Listed(s, k, p)
    {
      assert s.areas[MAX_ORDER].freelist[p / MAX_ORDER_SIZE] == p;
    }
  }

  /** Every state reached from boot is tiled by aligned blocks, exactly listed and canonical. */
  lemma EveryRunTiles(m: nat, ops: seq<Op>, t: State)
    requires Reaches(Boot(m), ops, t)
    ensures Inv(t) && |t.pages| == MAX_ORDER_SIZE * m
  {
    BootInv(m);
    RunsKeepInv(Boot(m), ops, t);
  }

  /** Any two runs that leave the same pages taken leave the same free blocks. */
  lemma RunsAgree(m: nat, ops: seq<Op>, t: State, ops': seq<Op>, t': State, k: nat)
    requires Reaches(Boot(m), ops, t) && Reaches(Boot(m), ops', t') && k <= MAX_ORDER
    requires forall x: nat :: PageTaken(t, x) <==> PageTaken(t', x)
    ensures |t.areas| == |t'.areas| == MAX_ORDER + 1
    ensures multiset(t.areas[k].freelist) == multiset(t'.areas[k].freelist)
    ensures t.areas[k].nrFree == t'.areas[k].nrFree
  {
    EveryRunTiles(m, ops, t);
    EveryRunTiles(m, ops', t');
    HistoryIndependent(t, t', k);
  }

  /** When everything has been given back, the free areas are as after boot. */
  lemma AllFreedIsBoot(m: nat, ops: seq<Op>, t: State, k: nat)
    requires Reaches(Boot(m), ops, t) && t.live == map[] && k <= MAX_ORDER
    ensures |t.areas| == MAX_ORDER + 1
    ensures multiset(t.areas[k].freelist) == multiset(Boot(m).areas[k].freelist)
    ensures t.areas[k].nrFree == Boot(m).areas[k].nrFree
  {
    assert Reaches(Boot(m), [], Boot(m));
    RunsAgree(m, ops, t, [], Boot(m), k);
  }
}
