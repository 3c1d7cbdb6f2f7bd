/** The invariant of the buddy allocator, and that each single step of its loops keeps it. */
module BuddyInvariant {
  import opened Bits
  import opened Seqs
  import opened Buddy

  function Size(s: State, h: nat): nat
    requires h < |s.pages|
  {
    if s.pages[h].order < 0 then 0 else Pow2(s.pages[h].order)
  }

  predicate HeadOk(s: State, h: nat)
    requires h < |s.pages|
  {
    && 0 <= s.pages[h].order <= MAX_ORDER
    && Aligned(h, s.pages[h].order)
    && h + Size(s, h) <= |s.pages|
  }

  /** Page x lies in the block that starts at h. */
  predicate Covers(s: State, h: nat, x: nat)
  {
    h < |s.pages| && h <= x < h + Size(s, h)
  }

  predicate IsHead(own: seq<nat>, h: nat)
  {
    h < |own| && own[h] == h
  }

  ghost predicate Owned(s: State, own: seq<nat>, x: nat)
    requires x < |own| == |s.pages|
  {
    IsHead(own, own[x]) && HeadOk(s, own[x]) && Covers(s, own[x], x)
  }

  /** own[x] is the head of the one block that page x belongs to; the pages h with own[h] == h are
      the block heads.  Nothing is said about `order` and `used` of any other page. */
  ghost predicate Tiling(s: State, own: seq<nat>)
  {
    && |own| == |s.pages|
    && (forall x :: 0 <= x < |own| ==> Owned(s, own, x))
    && (forall h: nat, x: nat :: x < |own| && IsHead(own, h) && Covers(s, h, x) ==> own[x] == h)
  }

  predicate IsFreeBlock(s: State, own: seq<nat>, h: nat, k: nat)
    requires |own| == |s.pages|
  {
    IsHead(own, h) && s.pages[h].order == k && s.pages[h].used == Free
  }

  predicate IsLiveBlock(s: State, own: seq<nat>, h: nat, k: nat)
    requires |own| == |s.pages|
  {
    IsHead(own, h) && s.pages[h].order == k && s.pages[h].used == Taken
  }

  predicate Listed(s: State, k: nat, p: nat)
  {
    k < |s.areas| && p in s.areas[k].freelist
  }

  /** The free lists hold exactly the free blocks, each once, and are counted correctly. */
  ghost predicate ListsExact(s: State, own: seq<nat>)
    requires |own| == |s.pages|
  {
    && |s.areas| == MAX_ORDER + 1
    && (forall k: nat, p: nat :: Listed(s, k, p) ==> IsFreeBlock(s, own, p, k))
    && (forall k: nat, p: nat :: k <= MAX_ORDER && IsFreeBlock(s, own, p, k) ==> Listed(s, k, p))
    && (forall k :: 0 <= k <= MAX_ORDER ==>
          NoDup(s.areas[k].freelist) && s.areas[k].nrFree == |s.areas[k].freelist|)
  }

  ghost predicate LiveExact(s: State, own: seq<nat>)
    requires |own| == |s.pages|
  {
    && (forall h :: h in s.live ==> IsLiveBlock(s, own, h, s.live[h]))
    && (forall h: nat, k: nat :: IsLiveBlock(s, own, h, k) ==> h in s.live)
  }

  /** No block and its buddy of the same order are both free. */
  ghost predicate Canonical(s: State)
  {
    forall k: nat, p: nat :: k < MAX_ORDER && Listed(s, k, p) ==> !Listed(s, k, FindBuddyPfn(p, k))
  }

  ghost predicate InvBy(s: State, own: seq<nat>)
  {
    && Numbered(s)
    && Aligned(|s.pages|, MAX_ORDER)
    && Tiling(s, own)
    && ListsExact(s, own)
    && LiveExact(s, own)
    && Canonical(s)
  }

  ghost predicate Inv(s: State)
  {
    exists own :: InvBy(s, own)
  }

  // ---------------------------------------------------------------- single steps keep it

  /** The two halves of an enclosing block of order k + 1 lie in the page table together. */
  lemma BuddyFits(p: nat, k: nat, n: nat) returns (q: nat)
    requires k < MAX_ORDER && Aligned(n, MAX_ORDER) && Aligned(p, k) && p < n
    ensures var b := FindBuddyPfn(p, k);
            && b != p && FindBuddyPfn(b, k) == p && Aligned(b, k)
            && q == FindLBuddyPfn(p, k)
            && Aligned(q, k + 1) && q + Pow2(k + 1) <= n
            && ((p == q && b == p + Pow2(k)) || (b == q && p == b + Pow2(k)))
  {
    BuddyInvolution(p, k);
    if Aligned(p, k + 1) { LeftBuddy(p, k); } else { RightBuddy(p, k); }
    q := FindLBuddyPfn(p, k);
    AlignedWeaken(n, MAX_ORDER, k + 1);
    AlignedFits(q, n, k + 1);
  }

  lemma CoveredOnce(s: State, own: seq<nat>, h: nat, x: nat)
    requires Tiling(s, own) && x < |own|
    ensures IsHead(own, h) && Covers(s, h, x) ==> own[x] == h
  {
  }

  /** The buddy of any block below the maximal order is inside the page table and is the head of a
      block of at most the same order: the coalescing test never reads a stale entry. */
  lemma BuddyIsHead(s: State, own: seq<nat>, p: nat)
    requires Aligned(|s.pages|, MAX_ORDER) && Tiling(s, own)
    requires IsHead(own, p) && s.pages[p].order < MAX_ORDER
    ensures s.pages[p].order >= 0
    ensures var b := FindBuddyPfn(p, s.pages[p].order);
            IsHead(own, b) && 0 <= s.pages[b].order <= s.pages[p].order
  {
    assert Owned(s, own, p);
    var k := s.pages[p].order;
    var q := BuddyFits(p, k, |own|);
    var b := FindBuddyPfn(p, k);
    assert Pow2(k + 1) == 2 * Pow2(k);
    assert Owned(s, own, b);
    var h := own[b];
    var j := s.pages[h].order;
    if j > k {
      AlignedNested(h, j, q, k + 1, b);
      CoveredOnce(s, own, h, p);
    } else {
      AlignedNested(b, k, h, j, b);
    }
  }

  ghost predicate SameBut(s: State, t: State, a: nat, b: nat)
  {
    && |t.pages| == |s.pages|
    && forall x :: 0 <= x < |s.pages| && x != a && x != b ==> t.pages[x] == s.pages[x]
  }

  function RelabelAt(own: seq<nat>, lo: nat, hi: nat, h: nat, x: nat): nat
    requires x < |own|
  {
    if lo <= x < hi then h else own[x]
  }

  /** The block map once the pages lo .. hi - 1 belong to the block at h. */
  function Relabel(own: seq<nat>, lo: nat, hi: nat, h: nat): (r: seq<nat>)
    ensures |r| == |own| && forall x :: 0 <= x < |own| ==> r[x] == if lo <= x < hi then h else own[x]
  {
    seq(|own|, (x: nat) requires x < |own| => RelabelAt(own, lo, hi, h, x))
  }

  /** The block map after the block at p of order k + 1 has been cut in two. */
  function Cut(own: seq<nat>, p: nat, k: nat): seq<nat>
  {
    Relabel(own, p + Pow2(k), p + Pow2(k + 1), p + Pow2(k))
  }

  lemma CutTiling(s: State, t: State, own: seq<nat>, p: nat, k: nat)
    requires Tiling(s, own) && IsHead(own, p) && s.pages[p].order == k + 1 <= MAX_ORDER
    requires p + Pow2(k) < |s.pages| && SameBut(s, t, p, p + Pow2(k))
    requires t.pages[p].order == k && t.pages[p + Pow2(k)].order == k
    ensures Tiling(t, Cut(own, p, k))
  {
    var b, own' := p + Pow2(k), Cut(own, p, k);
    assert Owned(s, own, p);
    assert Pow2(k + 1) == 2 * Pow2(k);
    forall x: nat | x < |own'|
      ensures Owned(t, own', x)
    {
      CutOwned(s, t, own, p, k, x);
    }
    forall h: nat, x: nat | x < |own'| && IsHead(own', h) && Covers(t, h, x)
      ensures own'[x] == h
    {
      if h != b && h != p {
        assert Covers(s, h, x);
        assert IsHead(own, h);
        assert own[x] == h;
        assert !Covers(s, p, x);
      }
    }
  }

  lemma CutOwned(s: State, t: State, own: seq<nat>, p: nat, k: nat, x: nat)
    requires Tiling(s, own) && IsHead(own, p) && s.pages[p].order == k + 1 <= MAX_ORDER
    requires p + Pow2(k) < |s.pages| && SameBut(s, t, p, p + Pow2(k))
    requires t.pages[p].order == k && t.pages[p + Pow2(k)].order == k
    requires x < |own|
    ensures Owned(t, Cut(own, p, k), x)
  {
    var b, own' := p + Pow2(k), Cut(own, p, k);
    assert Owned(s, own, p) && Owned(s, own, x);
    LeftBuddy(p, k);
    var h := own[x];
    if h == p {
      assert own'[b] == b && own'[p] == p;
    } else {
      assert !Covers(s, p, h) && !Covers(s, p, x);
    }
  }

  /** Only the pages a and b have changed: what the lists and the live map say of every other head stands. */
  lemma SplitLists(s: State, t: State, own: seq<nat>, p: nat, k: nat)
    requires Tiling(s, own) && ListsExact(s, own) && IsLiveBlock(s, own, p, k + 1) && k + 1 <= MAX_ORDER
    requires p + Pow2(k) < p + Pow2(k + 1) <= |s.pages|
    requires SameBut(s, t, p, p + Pow2(k))
    requires t.pages[p].used == Taken
    requires t.pages[p + Pow2(k)].order == k && t.pages[p + Pow2(k)].used == Free
    requires |t.areas| == |s.areas| && forall j :: 0 <= j <= MAX_ORDER && j != k ==> t.areas[j] == s.areas[j]
    requires t.areas[k] == FreeArea(s.areas[k].nrFree + 1, s.areas[k].freelist + [p + Pow2(k)])
    ensures ListsExact(t, Cut(own, p, k))
  {
    var b, own' := p + Pow2(k), Cut(own, p, k);
    assert Covers(s, p, b);
    assert own[b] == p;
    assert !IsFreeBlock(s, own, b, k);
    NoDupSnoc(s.areas[k].freelist, b);
    forall j: nat, h: nat | Listed(t, j, h)
      ensures IsFreeBlock(t, own', h, j)
    {
      if !(j == k && h == b) {
        assert Listed(s, j, h);
        assert IsFreeBlock(s, own, h, j);
        assert !Covers(s, p, h);
      }
    }
    forall j: nat, h: nat | j <= MAX_ORDER && IsFreeBlock(t, own', h, j)
      ensures Listed(t, j, h)
    {
      if h != b {
        assert IsFreeBlock(s, own, h, j);
        assert Listed(s, j, h);
      }
    }
  }

  lemma SplitLive(s: State, t: State, own: seq<nat>, p: nat, k: nat)
    requires Tiling(s, own) && LiveExact(s, own) && IsLiveBlock(s, own, p, k + 1)
    requires p + Pow2(k) < p + Pow2(k + 1) <= |s.pages|
    requires SameBut(s, t, p, p + Pow2(k))
    requires t.pages[p].used == Taken && t.pages[p].order == k
    requires t.pages[p + Pow2(k)].used == Free
    requires t.live == s.live[p := k]
    ensures LiveExact(t, Cut(own, p, k))
  {
    var b, own' := p + Pow2(k), Cut(own, p, k);
    forall h | h in t.live
      ensures IsLiveBlock(t, own', h, t.live[h])
    {
      if h != p {
        assert IsLiveBlock(s, own, h, s.live[h]);
        assert !Covers(s, p, h);
      }
    }
    forall h: nat, j: nat | IsLiveBlock(t, own', h, j)
      ensures h in t.live
    {
      if h != p { assert IsLiveBlock(s, own, h, j); }
    }
  }

  lemma SplitCanonicalAt(s: State, own: seq<nat>, t: State, k: nat, p: nat, b: nat, j: nat, h: nat)
    requires |own| == |s.pages| && Tiling(s, own) && ListsExact(s, own) && Canonical(s)
    requires k < |t.areas| == |s.areas| && FindBuddyPfn(p, k) == b && FindBuddyPfn(b, k) == p && b != p &&
             !Listed(s, k, p)
    requires forall i: nat, x: nat :: Listed(t, i, x) <==> Listed(s, i, x) || (i == k && x == b)
    requires j < MAX_ORDER && Listed(t, j, h)
    ensures !Listed(t, j, FindBuddyPfn(h, j))
  {
    if !(j == k && h == b) {
      assert IsFreeBlock(s, own, h, j);
      assert Owned(s, own, h);
      BuddyInvolution(h, j);
    }
  }

  lemma SplitCanonical(s: State, t: State, own: seq<nat>, p: nat, k: nat)
    requires Tiling(s, own) && ListsExact(s, own) && Canonical(s) && IsLiveBlock(s, own, p, k + 1)
    requires FindBuddyPfn(p, k) == p + Pow2(k) && FindBuddyPfn(p + Pow2(k), k) == p
    requires |t.areas| == |s.areas| && forall j :: 0 <= j <= MAX_ORDER && j != k ==> t.areas[j] == s.areas[j]
    requires k <= MAX_ORDER && t.areas[k].freelist == s.areas[k].freelist + [p + Pow2(k)]
    ensures Canonical(t)
  {
    var b := p + Pow2(k);
    assert !IsFreeBlock(s, own, p, k);
    forall j: nat, h: nat | j < MAX_ORDER && Listed(t, j, h)
      ensures !Listed(t, j, FindBuddyPfn(h, j))
    {
      SplitCanonicalAt(s, own, t, k, p, b, j, h);
    }
  }

  /** One turn of the splitting loop, on a state whose page entry already carries the current order. */
  function SplitOnce(s: State, p: nat, k: nat): State
    requires p < |s.pages| && k < |s.areas| && FindBuddyPfn(p, k) < |s.pages|
  {
    var t := Push(SetOrder(s, p, k), FindBuddyPfn(p, k), k);
    t.(live := t.live[p := k])
  }

  lemma LiveBlockSplits(s: State, own: seq<nat>, p: nat, k: nat)
    requires InvBy(s, own) && p in s.live && s.live[p] == k + 1
    ensures k < MAX_ORDER && IsLiveBlock(s, own, p, k + 1)
    ensures FindBuddyPfn(p, k) == p + Pow2(k) < p + Pow2(k + 1) <= |s.pages|
    ensures FindBuddyPfn(p + Pow2(k), k) == p
  {
    assert IsLiveBlock(s, own, p, k + 1);
    assert Owned(s, own, p);
    LeftBuddy(p, k);
    assert Pow2(k + 1) == 2 * Pow2(k);
    RightBuddy(p + Pow2(k), k);
  }

  /** What one split writes. */
  lemma SplitOnceEffect(s: State, p: nat, k: nat)
    requires Numbered(s) && k < MAX_ORDER && FindBuddyPfn(p, k) == p + Pow2(k) < |s.pages|
    ensures var t, b := SplitOnce(s, p, k), p + Pow2(k);
            && SameBut(s, t, p, b) && Numbered(t)
            && t.pages[p].order == k && t.pages[p].used == s.pages[p].used
            && t.pages[b].order == k && t.pages[b].used == Free
            && t.areas == s.areas[k := FreeArea(s.areas[k].nrFree + 1, s.areas[k].freelist + [b])]
            && t.live == s.live[p := k]
  {
  }

  lemma SplitOnceKeeps(s: State, own: seq<nat>, p: nat, k: nat)
    requires InvBy(s, own) && p in s.live && s.live[p] == k + 1
    ensures k < MAX_ORDER && FindBuddyPfn(p, k) == p + Pow2(k) < p + Pow2(k + 1) <= |s.pages|
    ensures InvBy(SplitOnce(s, p, k), Cut(own, p, k))
  {
    LiveBlockSplits(s, own, p, k);
    SplitOnceEffect(s, p, k);
    var t := SplitOnce(s, p, k);
    CutTiling(s, t, own, p, k);
    SplitLists(s, t, own, p, k);
    SplitLive(s, t, own, p, k);
    SplitCanonical(s, t, own, p, k);
  }

  lemma SameOrdersTile(s: State, t: State, own: seq<nat>)
    requires Tiling(s, own) && |t.pages| == |s.pages|
    requires forall x :: 0 <= x < |s.pages| ==> t.pages[x].order == s.pages[x].order
    ensures Tiling(t, own)
  {
    forall x: nat | x < |own|
      ensures Owned(t, own, x)
    {
      assert Owned(s, own, x);
    }
    forall h: nat, x: nat | x < |own| && IsHead(own, h) && Covers(t, h, x)
      ensures own[x] == h
    {
      assert Covers(s, h, x);
    }
  }

  /** Line 66 with the handed-out block recorded. */
  function Take(s: State, p: nat, k: nat): State
    requires p < |s.pages| && k < |s.areas|
  {
    var t := Pop(s, p, k);
    t.(live := t.live[p := k])
  }

  lemma TakeKeeps(s: State, own: seq<nat>, p: nat, k: nat)
    requires InvBy(s, own) && Listed(s, k, p)
    ensures p < |s.pages|
    ensures InvBy(Take(s, p, k), own)
  {
    assert IsFreeBlock(s, own, p, k);
    var t := Take(s, p, k);
    SameOrdersTile(s, t, own);
    RemoveNoDup(s.areas[k].freelist, p);
    UnlistedLists(s, t, own, p, k);
    forall h | h in t.live
      ensures IsLiveBlock(t, own, h, t.live[h])
    {
      if h != p { assert IsLiveBlock(s, own, h, s.live[h]); }
    }
    forall h: nat, j: nat | IsLiveBlock(t, own, h, j)
      ensures h in t.live
    {
      if h != p { assert IsLiveBlock(s, own, h, j); }
    }
  }

  /** Unlinking a free block and marking it taken. */
  lemma UnlistedLists(s: State, t: State, own: seq<nat>, p: nat, k: nat)
    requires |own| == |s.pages| && ListsExact(s, own) && Canonical(s) && Listed(s, k, p)
    requires IsFreeBlock(s, own, p, k)
    requires t.pages == s.pages[p := s.pages[p].(used := Taken)]
    requires t.areas == s.areas[k := FreeArea(s.areas[k].nrFree - 1, Remove(s.areas[k].freelist, p))]
    ensures ListsExact(t, own) && Canonical(t)
  {
    RemoveNoDup(s.areas[k].freelist, p);
    forall j: nat, h: nat | Listed(t, j, h)
      ensures IsFreeBlock(t, own, h, j) && Listed(s, j, h)
    {
      assert Listed(s, j, h);
      assert IsFreeBlock(s, own, h, j);
    }
    forall j: nat, h: nat | j <= MAX_ORDER && IsFreeBlock(t, own, h, j)
      ensures Listed(t, j, h)
    {
      assert IsFreeBlock(s, own, h, j);
      assert Listed(s, j, h);
    }
  }

  /** The block map after the two blocks of order k at q and q + 2^k have been joined. */
  function Join(own: seq<nat>, q: nat, k: nat): seq<nat>
  {
    Relabel(own, q, q + Pow2(k + 1), q)
  }

  lemma JoinOwned(s: State, t: State, own: seq<nat>, q: nat, k: nat, x: nat)
    requires Tiling(s, own) && k < MAX_ORDER
    requires IsHead(own, q) && IsHead(own, q + Pow2(k)) && Aligned(q, k + 1)
    requires s.pages[q].order == k && s.pages[q + Pow2(k)].order == k
    requires SameBut(s, t, q, q + Pow2(k)) && t.pages[q].order == k + 1
    requires x < |own|
    ensures Owned(t, Join(own, q, k), x)
  {
    var r, own' := q + Pow2(k), Join(own, q, k);
    assert Owned(s, own, q) && Owned(s, own, r) && Owned(s, own, x);
    assert Pow2(k + 1) == 2 * Pow2(k);
    var h := own[x];
    if h == q || h == r {
      assert own'[x] == q && own'[q] == q;
    } else {
      assert !Covers(s, q, x) && !Covers(s, r, x) && !Covers(s, q, h) && !Covers(s, r, h);
    }
  }

  lemma JoinUnique(s: State, t: State, own: seq<nat>, q: nat, k: nat, h: nat, x: nat)
    requires Tiling(s, own) && k < MAX_ORDER
    requires IsHead(own, q) && IsHead(own, q + Pow2(k))
    requires s.pages[q].order == k && s.pages[q + Pow2(k)].order == k
    requires SameBut(s, t, q, q + Pow2(k)) && t.pages[q].order == k + 1
    requires x < |own| && IsHead(Join(own, q, k), h) && Covers(t, h, x)
    ensures Join(own, q, k)[x] == h
  {
    var r := q + Pow2(k);
    assert Pow2(k + 1) == 2 * Pow2(k);
    if h != q {
      JoinHead(s, own, q, k, h);
      assert Covers(s, h, x);
      CoveredOnce(s, own, q, x);
      CoveredOnce(s, own, r, x);
      assert own[x] == h;
    }
  }

  lemma JoinTiling(s: State, t: State, own: seq<nat>, q: nat, k: nat)
    requires Tiling(s, own) && k < MAX_ORDER
    requires IsHead(own, q) && IsHead(own, q + Pow2(k)) && Aligned(q, k + 1)
    requires s.pages[q].order == k && s.pages[q + Pow2(k)].order == k
    requires SameBut(s, t, q, q + Pow2(k)) && t.pages[q].order == k + 1
    ensures Tiling(t, Join(own, q, k))
  {
    var own' := Join(own, q, k);
    forall x: nat | x < |own'|
      ensures Owned(t, own', x)
    {
      JoinOwned(s, t, own, q, k, x);
    }
    forall h: nat, x: nat | x < |own'| && IsHead(own', h) && Covers(t, h, x)
      ensures own'[x] == h
    {
      JoinUnique(s, t, own, q, k, h, x);
    }
  }

  /** Joining makes one head disappear and no other. */
  lemma JoinHead(s: State, own: seq<nat>, q: nat, k: nat, h: nat)
    requires Tiling(s, own) && IsHead(own, q) && IsHead(own, q + Pow2(k))
    requires s.pages[q].order == k && s.pages[q + Pow2(k)].order == k
    ensures IsHead(Join(own, q, k), h) <==> IsHead(own, h) && h != q + Pow2(k)
  {
    var r := q + Pow2(k);
    assert Pow2(k + 1) == 2 * Pow2(k);
    if h < |own| {
      CoveredOnce(s, own, q, h);
      CoveredOnce(s, own, r, h);
      assert Covers(s, q, h) || Covers(s, r, h) <==> q <= h < q + Pow2(k + 1);
    }
  }

  /** q and q + 2^k were blocks of order k; one of them (b) was free and is now unlinked. */
  lemma JoinLists(s: State, t: State, own: seq<nat>, q: nat, k: nat, b: nat)
    requires Tiling(s, own) && ListsExact(s, own) && Canonical(s) && k < MAX_ORDER
    requires IsHead(own, q) && IsHead(own, q + Pow2(k))
    requires s.pages[q].order == k && s.pages[q + Pow2(k)].order == k
    requires b == q || b == q + Pow2(k)
    requires IsFreeBlock(s, own, b, k) && (b != q ==> s.pages[q].used == Taken) &&
             (b == q ==> s.pages[q + Pow2(k)].used == Taken)
    requires SameBut(s, t, q, q + Pow2(k)) && t.pages[q].used == Taken
    requires t.areas == s.areas[k := FreeArea(s.areas[k].nrFree - 1, Remove(s.areas[k].freelist, b))]
    ensures ListsExact(t, Join(own, q, k)) && Canonical(t)
  {
    var r, own' := q + Pow2(k), Join(own, q, k);
    assert Listed(s, k, b);
    RemoveNoDup(s.areas[k].freelist, b);
    forall j: nat, h: nat | Listed(t, j, h)
      ensures IsFreeBlock(t, own', h, j) && Listed(s, j, h)
    {
      assert Listed(s, j, h);
      assert IsFreeBlock(s, own, h, j);
      assert h != q && h != r;
      JoinHead(s, own, q, k, h);
    }
    forall j: nat, h: nat | j <= MAX_ORDER && IsFreeBlock(t, own', h, j)
      ensures Listed(t, j, h)
    {
      JoinHead(s, own, q, k, h);
      assert IsFreeBlock(s, own, h, j);
      assert Listed(s, j, h);
    }
  }

  lemma JoinLive(s: State, t: State, own: seq<nat>, q: nat, k: nat, p: nat)
    requires Tiling(s, own) && LiveExact(s, own)
    requires IsHead(own, q) && IsHead(own, q + Pow2(k))
    requires s.pages[q].order == k && s.pages[q + Pow2(k)].order == k
    requires p == q || p == q + Pow2(k)
    requires IsLiveBlock(s, own, p, k) && (p != q ==> s.pages[q].used == Free) &&
             (p == q ==> s.pages[q + Pow2(k)].used == Free)
    requires SameBut(s, t, q, q + Pow2(k)) && t.pages[q].order == k + 1 && t.pages[q].used == Taken
    requires t.live == (s.live - {p})[q := k + 1]
    ensures LiveExact(t, Join(own, q, k))
  {
    var r, own' := q + Pow2(k), Join(own, q, k);
    JoinHead(s, own, q, k, q);
    forall h | h in t.live
      ensures IsLiveBlock(t, own', h, t.live[h])
    {
      if h != q {
        assert IsLiveBlock(s, own, h, s.live[h]);
        JoinHead(s, own, q, k, h);
      }
    }
    forall h: nat, j: nat | IsLiveBlock(t, own', h, j)
      ensures h in t.live
    {
      if h != q {
        JoinHead(s, own, q, k, h);
        assert IsLiveBlock(s, own, h, j);
      }
    }
  }

  /** The coalescing test asks exactly whether the buddy is a free block of the same order. */
  lemma MergeTestReadsHeads(s: State, own: seq<nat>, p: nat)
    requires InvBy(s, own) && p in s.live
    ensures p < |s.pages| && s.pages[p].order == s.live[p] <= MAX_ORDER
    ensures Mergeable(s, p) <==>
            s.live[p] < MAX_ORDER && Listed(s, s.live[p], FindBuddyPfn(p, s.live[p]))
    ensures s.live[p] < MAX_ORDER ==> IsHead(own, FindBuddyPfn(p, s.live[p]))
  {
    var k := s.live[p];
    assert IsLiveBlock(s, own, p, k);
    assert Owned(s, own, p);
    if k < MAX_ORDER {
      BuddyIsHead(s, own, p);
      var b := FindBuddyPfn(p, k);
      assert IsFreeBlock(s, own, b, k) <==> Listed(s, k, b);
    }
  }

  /** Merge, with the joined block recorded in place of the one being freed. */
  function MergeOnce(s: State, p: nat): State
    requires Numbered(s) && p < |s.pages| && Mergeable(s, p)
  {
    var (t, q) := Merge(s, p);
    t.(live := (s.live - {p})[q := s.pages[p].order + 1])
  }

  /** What one merge writes, in terms of the two halves. */
  lemma MergeOnceEffect(s: State, own: seq<nat>, p: nat, k: nat) returns (q: nat)
    requires InvBy(s, own) && p in s.live && s.live[p] == k && p < |s.pages| && Mergeable(s, p)
    ensures k < MAX_ORDER && q == Merge(s, p).1 && q + Pow2(k) < |s.pages| && Aligned(q, k + 1)
    ensures var t, b := MergeOnce(s, p), FindBuddyPfn(p, k);
            && ((p == q && b == q + Pow2(k)) || (b == q && p == q + Pow2(k)))
            && IsLiveBlock(s, own, p, k) && IsFreeBlock(s, own, b, k)
            && SameBut(s, t, q, q + Pow2(k))
            && t.pages[q].order == k + 1 && t.pages[q].used == Taken
            && t.areas == s.areas[k := FreeArea(s.areas[k].nrFree - 1, Remove(s.areas[k].freelist, b))]
            && t.live == (s.live - {p})[q := k + 1]
            && Numbered(t)
  {
    MergeTestReadsHeads(s, own, p);
    assert IsLiveBlock(s, own, p, k);
    assert Owned(s, own, p);
    q := BuddyFits(p, k, |own|);
    assert Listed(s, k, FindBuddyPfn(p, k));
  }

  lemma MergeOnceKeeps(s: State, own: seq<nat>, p: nat)
    requires InvBy(s, own) && p in s.live && p < |s.pages| && Mergeable(s, p)
    ensures InvBy(MergeOnce(s, p), Join(own, Merge(s, p).1, s.live[p]))
  {
    var k := s.live[p];
    var q := MergeOnceEffect(s, own, p, k);
    var t := MergeOnce(s, p);
    JoinTiling(s, t, own, q, k);
    JoinLists(s, t, own, q, k, FindBuddyPfn(p, k));
    JoinLive(s, t, own, q, k, p);
  }

  /** Line 134 with the block struck off the record. */
  function Release(s: State, p: nat, k: nat): State
    requires p < |s.pages| && k < |s.areas|
  {
    var t := Push(s, p, k);
    t.(live := t.live - {p})
  }

  lemma ReleaseKeeps(s: State, own: seq<nat>, p: nat)
    requires InvBy(s, own) && p in s.live && p < |s.pages| && !Mergeable(s, p)
    ensures s.live[p] <= MAX_ORDER
    ensures InvBy(Release(s, p, s.live[p]), own)
  {
    MergeTestReadsHeads(s, own, p);
    var k := s.live[p];
    assert IsLiveBlock(s, own, p, k);
    var t := Release(s, p, k);
    SameOrdersTile(s, t, own);
    ReleaseLists(s, t, own, p, k);
    forall h | h in t.live
      ensures IsLiveBlock(t, own, h, t.live[h])
    {
      assert IsLiveBlock(s, own, h, s.live[h]);
    }
    forall h: nat, j: nat | IsLiveBlock(t, own, h, j)
      ensures h in t.live
    {
      assert IsLiveBlock(s, own, h, j);
    }
  }

  lemma ReleaseLists(s: State, t: State, own: seq<nat>, p: nat, k: nat)
    requires Tiling(s, own) && ListsExact(s, own) && Canonical(s) && IsLiveBlock(s, own, p, k) && k <= MAX_ORDER
    requires k < MAX_ORDER ==> !Listed(s, k, FindBuddyPfn(p, k))
    requires t.pages == s.pages[p := s.pages[p].(order := k, used := Free)]
    requires t.areas == s.areas[k := FreeArea(s.areas[k].nrFree + 1, s.areas[k].freelist + [p])]
    ensures ListsExact(t, own) && Canonical(t)
  {
    assert !Listed(s, k, p);
    NoDupSnoc(s.areas[k].freelist, p);
    assert Owned(s, own, p);
    BuddyInvolution(p, k);
    forall j: nat, h: nat | Listed(t, j, h)
      ensures IsFreeBlock(t, own, h, j)
      ensures j < MAX_ORDER ==> !Listed(t, j, FindBuddyPfn(h, j))
    {
      if !(j == k && h == p) {
        assert Listed(s, j, h);
        assert IsFreeBlock(s, own, h, j);
        assert Owned(s, own, h);
        BuddyInvolution(h, j);
      }
    }
    forall j: nat, h: nat | j <= MAX_ORDER && IsFreeBlock(t, own, h, j)
      ensures Listed(t, j, h)
    {
      if h != p {
        assert IsFreeBlock(s, own, h, j);
        assert Listed(s, j, h);
      }
    }
  }
}
