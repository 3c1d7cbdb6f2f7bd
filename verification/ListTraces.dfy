/** The list_add_tail and list_del calls that src/mm.c makes, in order, for each of its operations.  Every
    list_add_tail meets a page that is linked nowhere and every list_del a page that is linked in exactly
    one list, so the heap lists of include/list.h keep up with the sequences of the model. */
module ListTraces {
  import opened Seqs
  import opened Bits
  import opened Buddy
  import opened BuddyInvariant
  import opened BuddyRuns

  // ---------------------------------------------------------------- tables of lists

  datatype ListOp = Add(p: nat, l: nat) | Del(p: nat)

  predicate Unlinked(table: seq<seq<nat>>, p: nat)
  {
    forall l :: 0 <= l < |table| ==> p !in table[l]
  }

  predicate LinkedAt(table: seq<seq<nat>>, p: nat, l: nat)
  {
    l < |table| && Occurs(table[l], p) == 1 && forall j :: 0 <= j < |table| && j != l ==> p !in table[j]
  }

  /** The page is one of n, and is linked nowhere before it is added, in one list before it is deleted. */
  ghost predicate Possible(table: seq<seq<nat>>, op: ListOp, n: nat)
  {
    && op.p < n
    && match op
       case Add(p, l) => l < |table| && Unlinked(table, p)
       case Del(p) => exists l: nat :: LinkedAt(table, p, l)
  }

  function Apply(table: seq<seq<nat>>, op: ListOp): (r: seq<seq<nat>>)
    ensures |r| == |table|
  {
    match op
    case Add(p, l) => if l < |table| then table[l := table[l] + [p]] else table
    case Del(p) => seq(|table|, l requires 0 <= l < |table| => Remove(table[l], p))
  }

  ghost predicate Step(t: seq<seq<nat>>, op: ListOp, t': seq<seq<nat>>, n: nat)
  {
    Possible(t, op, n) && Apply(t, op) == t'
  }

  ghost predicate Path(ts: seq<seq<seq<nat>>>, ops: seq<ListOp>, n: nat)
  {
    |ts| == |ops| + 1 && forall i :: 0 <= i < |ops| ==> Step(ts[i], ops[i], ts[i + 1], n)
  }

  /** From table the operations are all possible and lead to table'. */
  ghost predicate Leads(table: seq<seq<nat>>, ops: seq<ListOp>, table': seq<seq<nat>>, n: nat)
  {
    exists ts :: Path(ts, ops, n) && ts[0] == table && ts[|ops|] == table'
  }

  lemma LeadsNowhere(table: seq<seq<nat>>, n: nat)
    ensures Leads(table, [], table, n)
  {
    assert Path([table], [], n);
  }

  lemma LeadsOne(table: seq<seq<nat>>, op: ListOp, table': seq<seq<nat>>, n: nat)
    requires Step(table, op, table', n)
    ensures Leads(table, [op], table', n)
  {
    assert Path([table, table'], [op], n);
  }

  lemma LeadsOn(t0: seq<seq<nat>>, a: seq<ListOp>, t1: seq<seq<nat>>, b: seq<ListOp>, t2: seq<seq<nat>>, n: nat)
    requires Leads(t0, a, t1, n) && Leads(t1, b, t2, n)
    ensures Leads(t0, a + b, t2, n)
  {
    var x :| Path(x, a, n) && x[0] == t0 && x[|a|] == t1;
    var y :| Path(y, b, n) && y[0] == t1 && y[|b|] == t2;
    PathOn(x, a, y, b, n);
  }

  lemma PathOn(x: seq<seq<seq<nat>>>, a: seq<ListOp>, y: seq<seq<seq<nat>>>, b: seq<ListOp>, n: nat)
    requires Path(x, a, n) && Path(y, b, n) && x[|a|] == y[0]
    ensures Path(x + y[1..], a + b, n) && (x + y[1..])[0] == x[0] && (x + y[1..])[|a + b|] == y[|b|]
  {
    var z, c := x + y[1..], a + b;
    forall i | 0 <= i < |c|
      ensures Step(z[i], c[i], z[i + 1], n)
    {
      if i < |a| {
        assert z[i] == x[i] && z[i + 1] == x[i + 1] && c[i] == a[i];
      } else {
        assert z[i] == y[i - |a|] && z[i + 1] == y[i - |a| + 1] && c[i] == b[i - |a|];
      }
    }
  }

  lemma LeadsCons(t0: seq<seq<nat>>, op: ListOp, t1: seq<seq<nat>>, rest: seq<ListOp>, t2: seq<seq<nat>>, n: nat)
    requires Step(t0, op, t1, n) && Leads(t1, rest, t2, n)
    ensures Leads(t0, [op] + rest, t2, n)
  {
    LeadsOne(t0, op, t1, n);
    LeadsOn(t0, [op], t1, rest, t2, n);
  }

  predicate Touches(ops: seq<ListOp>, x: nat)
  {
    exists i :: 0 <= i < |ops| && ops[i].p == x
  }

  lemma TouchesEither(a: seq<ListOp>, b: seq<ListOp>, x: nat)
    ensures Touches(a + b, x) <==> Touches(a, x) || Touches(b, x)
  {
    if Touches(a, x) {
      var i :| 0 <= i < |a| && a[i].p == x;
      assert (a + b)[i].p == x;
    }
    if Touches(b, x) {
      var i :| 0 <= i < |b| && b[i].p == x;
      assert (a + b)[|a| + i].p == x;
    }
  }

  lemma TouchesCons(op: ListOp, rest: seq<ListOp>, x: nat)
    ensures Touches([op] + rest, x) <==> op.p == x || Touches(rest, x)
  {
    TouchesEither([op], rest, x);
    assert [op][0].p == op.p;
  }

  // ---------------------------------------------------------------- more lists beside

  lemma StepBeside(t: seq<seq<nat>>, op: ListOp, t': seq<seq<nat>>, slab: seq<seq<nat>>, n: nat)
    requires Step(t, op, t', n) && Unlinked(slab, op.p)
    ensures Step(t + slab, op, t' + slab, n)
  {
    match op {
      case Add(p, l) => assert (t + slab)[l := t[l] + [p]] == t[l := t[l] + [p]] + slab;
      case Del(p) =>
        var l: nat :| LinkedAt(t, p, l);
        assert LinkedAt(t + slab, p, l);
        assert Apply(t + slab, op) == Apply(t, op) + slab;
    }
  }

  /** Lists that hold none of the pages concerned are not disturbed. */
  lemma LeadsBeside(t: seq<seq<nat>>, ops: seq<ListOp>, t': seq<seq<nat>>, slab: seq<seq<nat>>, n: nat)
    requires Leads(t, ops, t', n) && forall x: nat :: Touches(ops, x) ==> Unlinked(slab, x)
    ensures Leads(t + slab, ops, t' + slab, n)
  {
    var ts :| Path(ts, ops, n) && ts[0] == t && ts[|ops|] == t';
    var us := seq(|ts|, i requires 0 <= i < |ts| => ts[i] + slab);
    forall i | 0 <= i < |ops|
      ensures Step(us[i], ops[i], us[i + 1], n)
    {
      assert ops[i].p == ops[i].p && Touches(ops, ops[i].p);
      assert Step(ts[i], ops[i], ts[i + 1], n);
      StepBeside(ts[i], ops[i], ts[i + 1], slab, n);
    }
    assert Path(us, ops, n);
  }

  // ---------------------------------------------------------------- the buddy allocator

  function FreeTable(areas: seq<FreeArea>): (r: seq<seq<nat>>)
    ensures |r| == |areas| && forall k :: 0 <= k < |areas| ==> r[k] == areas[k].freelist
  {
    seq(|areas|, k requires 0 <= k < |areas| => areas[k].freelist)
  }

  /** Line 76, for each order in turn. */
  function SplitTrace(p: nat, current: nat, order: nat): seq<ListOp>
    decreases current
  {
    if current <= order then []
    else [Add(FindBuddyPfn(p, current - 1), current - 1)] + SplitTrace(p, current - 1, order)
  }

  /** buddy_block_alloc */
  function AllocTrace(s: State, order: int): seq<ListOp>
    requires |s.areas| == MAX_ORDER + 1
  {
    if order < 0 || order > MAX_ORDER || FirstFree(s, order) > MAX_ORDER then []
    else
      var i := FirstFree(s, order);
      [Del(s.areas[i].freelist[0])] + SplitTrace(s.areas[i].freelist[0], i, order)
  }

  /** buddy_block_free */
  function FreeTrace(s: State, p: nat): seq<ListOp>
    requires Numbered(s) && p < |s.pages|
    decreases MAX_ORDER - s.pages[p].order
  {
    if Mergeable(s, p) then
      [Del(FindBuddyPfn(p, s.pages[p].order))] + FreeTrace(Merge(s, p).0, Merge(s, p).1)
    else if 0 <= s.pages[p].order <= MAX_ORDER then [Add(p, s.pages[p].order)]
    else []
  }

  lemma CutLeads(v: State, own: seq<nat>, p: nat, k: nat)
    requires InvBy(v, own) && p in v.live && v.live[p] == k + 1
    ensures k < MAX_ORDER && FindBuddyPfn(p, k) == p + Pow2(k) < p + Pow2(k + 1) <= |v.pages|
    ensures var op := Add(p + Pow2(k), k);
            && Step(FreeTable(v.areas), op, FreeTable(SplitOnce(v, p, k).areas), |v.pages|)
            && op.p !in v.live
  {
    LiveBlockSplits(v, own, p, k);
    var b := p + Pow2(k);
    assert Owned(v, own, p);
    assert Covers(v, p, b);
    assert own[b] == p;
    forall j | 0 <= j < |v.areas|
      ensures b !in v.areas[j].freelist
    {
      assert Listed(v, j, b) ==> IsFreeBlock(v, own, b, j);
    }
    assert b in v.live ==> IsLiveBlock(v, own, b, v.live[b]);
    assert Apply(FreeTable(v.areas), Add(b, k)) == FreeTable(SplitOnce(v, p, k).areas);
  }

  lemma CutFirst(v: State, own: seq<nat>, p: nat, k: nat, rest: seq<ListOp>, t: seq<seq<nat>>)
    requires InvBy(v, own) && p in v.live && v.live[p] == k + 1
    requires k < MAX_ORDER && FindBuddyPfn(p, k) < |v.pages| && p < |v.pages|
    requires Leads(FreeTable(SplitOnce(v, p, k).areas), rest, t, |v.pages|)
    ensures Leads(FreeTable(v.areas), [Add(FindBuddyPfn(p, k), k)] + rest, t, |v.pages|)
  {
    CutLeads(v, own, p, k);
    LeadsCons(FreeTable(v.areas), Add(p + Pow2(k), k), FreeTable(SplitOnce(v, p, k).areas), rest, t, |v.pages|);
  }

  lemma SplitTraceUnfolds(p: nat, k: nat, order: nat)
    requires order <= k
    ensures SplitTrace(p, k + 1, order) == [Add(FindBuddyPfn(p, k), k)] + SplitTrace(p, k, order)
  {
  }

  lemma {:induction false} SplitLeads(v: State, own: seq<nat>, p: nat, current: nat, order: nat)
    requires InvBy(v, own) && p in v.live && v.live[p] == current <= MAX_ORDER && order <= current && p < |v.pages|
    ensures Leads(FreeTable(v.areas), SplitTrace(p, current, order), FreeTable(Cuts(v, p, current, order).areas),
            |v.pages|)
    decreases current
  {
    if order == current {
      LeadsNowhere(FreeTable(v.areas), |v.pages|);
    } else {
      var k := current - 1;
      SplitOnceKeeps(v, own, p, k);
      var v' := SplitOnce(v, p, k);
      SplitLeads(v', Cut(own, p, k), p, k, order);
      CutsUnfolds(v, p, k, order);
      SplitTraceUnfolds(p, k, order);
      CutFirst(v, own, p, k, SplitTrace(p, k, order), FreeTable(Cuts(v', p, k, order).areas));
    }
  }

  lemma {:induction false} SplitAvoids(v: State, own: seq<nat>, p: nat, current: nat, order: nat, x: nat)
    requires InvBy(v, own) && p in v.live && v.live[p] == current <= MAX_ORDER && order <= current && p < |v.pages|
    requires x in v.live
    ensures !Touches(SplitTrace(p, current, order), x)
    decreases current
  {
    if order < current {
      var k := current - 1;
      CutLeads(v, own, p, k);
      SplitOnceKeeps(v, own, p, k);
      SplitAvoids(SplitOnce(v, p, k), Cut(own, p, k), p, k, order, x);
      SplitTraceUnfolds(p, k, order);
      TouchesCons(Add(p + Pow2(k), k), SplitTrace(p, k, order), x);
    }
  }

  lemma PopLeads(s: State, own: seq<nat>, p: nat, k: nat)
    requires InvBy(s, own) && Listed(s, k, p)
    ensures p < |s.pages| && p !in s.live
    ensures var areas := s.areas[k := FreeArea(s.areas[k].nrFree - 1, Remove(s.areas[k].freelist, p))];
            Step(FreeTable(s.areas), Del(p), FreeTable(areas), |s.pages|)
  {
    assert IsFreeBlock(s, own, p, k);
    assert p in s.live ==> IsLiveBlock(s, own, p, s.live[p]);
    forall j | 0 <= j < |s.areas| && j != k
      ensures p !in s.areas[j].freelist
    {
      assert Listed(s, j, p) ==> IsFreeBlock(s, own, p, j);
    }
    NoDupCounts(s.areas[k].freelist, p);
    assert LinkedAt(FreeTable(s.areas), p, k);
    var areas := s.areas[k := FreeArea(s.areas[k].nrFree - 1, Remove(s.areas[k].freelist, p))];
    assert Apply(FreeTable(s.areas), Del(p)) == FreeTable(areas);
  }

  lemma TakeLeads(s: State, own: seq<nat>, i: nat, p: nat, order: nat)
    requires InvBy(s, own) && order <= i && Listed(s, i, p)
    ensures p < |s.pages| && i <= MAX_ORDER
    ensures Leads(FreeTable(s.areas), [Del(p)] + SplitTrace(p, i, order),
                  FreeTable(Cuts(Take(s, p, i), p, i, order).areas), |s.pages|)
    ensures forall x :: x in s.live ==> !Touches([Del(p)] + SplitTrace(p, i, order), x)
  {
    PopLeads(s, own, p, i);
    TakeKeeps(s, own, p, i);
    var v := Take(s, p, i);
    SplitLeads(v, own, p, i, order);
    LeadsCons(FreeTable(s.areas), Del(p), FreeTable(v.areas), SplitTrace(p, i, order),
              FreeTable(Cuts(v, p, i, order).areas), |s.pages|);
    forall x | x in s.live ensures !Touches([Del(p)] + SplitTrace(p, i, order), x) {
      SplitAvoids(v, own, p, i, order, x);
      TouchesCons(Del(p), SplitTrace(p, i, order), x);
    }
  }

  /** The list calls of an allocation are all possible, lead to the new lists and leave live pages alone. */
  lemma AllocLeads(s: State, order: int)
    requires Inv(s)
    ensures Leads(FreeTable(s.areas), AllocTrace(s, order), FreeTable(Alloc(s, order).0.areas), |s.pages|)
    ensures forall x :: x in s.live ==> !Touches(AllocTrace(s, order), x)
  {
    var own :| InvBy(s, own);
    AllocKeeps(s, order);
    if 0 <= order <= MAX_ORDER && FirstFree(s, order) <= MAX_ORDER {
      var i := FirstFree(s, order);
      assert Listed(s, i, s.areas[i].freelist[0]);
      TakeLeads(s, own, i, s.areas[i].freelist[0], order);
      AllocIsCuts(s, own, order);
    } else {
      LeadsNowhere(FreeTable(s.areas), |s.pages|);
    }
  }

  lemma AllocIsCuts(s: State, own: seq<nat>, order: nat)
    requires InvBy(s, own) && order <= MAX_ORDER && FirstFree(s, order) <= MAX_ORDER
    ensures var i := FirstFree(s, order);
            var p := s.areas[i].freelist[0];
            p < |s.pages| && Alloc(s, order).0.areas == Cuts(Take(s, p, i), p, i, order).areas
  {
    AllocFromFirst(s, order, order);
    var i := FirstFree(s, order);
    var p := s.areas[i].freelist[0];
    assert Listed(s, i, p);
    assert IsFreeBlock(s, own, p, i);
    assert Owned(s, own, p);
    var u := SetOrder(Pop(s, p, i), p, order);
    assert At(u, p, i) == Take(s, p, i);
    SplitIsCuts(u, p, i, order);
  }

  lemma {:induction false} FreeTraceSame(s: State, v: State, p: nat)
    requires Numbered(s) && Numbered(v) && p < |s.pages| && v.pages == s.pages && v.areas == s.areas
    ensures FreeTrace(s, p) == FreeTrace(v, p)
    decreases MAX_ORDER - s.pages[p].order
  {
    if Mergeable(s, p) { FreeTraceSame(Merge(s, p).0, Merge(v, p).0, Merge(s, p).1); }
  }

  lemma MergeLeads(v: State, own: seq<nat>, p: nat)
    requires InvBy(v, own) && p in v.live && p < |v.pages| && Mergeable(v, p)
    ensures var op := Del(FindBuddyPfn(p, v.pages[p].order));
            && Step(FreeTable(v.areas), op, FreeTable(MergeOnce(v, p).areas), |v.pages|)
            && op.p !in v.live && (Merge(v, p).1 == p || Merge(v, p).1 == op.p)
  {
    MergeTestReadsHeads(v, own, p);
    var k := v.live[p];
    PopLeads(v, own, FindBuddyPfn(p, k), k);
    var q := MergeOnceEffect(v, own, p, k);
  }

  lemma ReleaseLeads(v: State, own: seq<nat>, p: nat)
    requires InvBy(v, own) && p in v.live && p < |v.pages|
    ensures 0 <= v.pages[p].order <= MAX_ORDER
    ensures var op := Add(p, v.pages[p].order);
            Step(FreeTable(v.areas), op, FreeTable(Release(v, p, v.pages[p].order).areas), |v.pages|)
  {
    MergeTestReadsHeads(v, own, p);
    var k := v.pages[p].order;
    assert IsLiveBlock(v, own, p, k);
    forall j | 0 <= j < |v.areas|
      ensures p !in v.areas[j].freelist
    {
      assert Listed(v, j, p) ==> IsFreeBlock(v, own, p, j);
    }
    assert Apply(FreeTable(v.areas), Add(p, k)) == FreeTable(Release(v, p, k).areas);
  }

  lemma {:induction false} JoinsLead(v: State, own: seq<nat>, p: nat)
    requires InvBy(v, own) && p in v.live && p < |v.pages|
    ensures Leads(FreeTable(v.areas), FreeTrace(v, p), FreeTable(Joins(v, p).areas), |v.pages|)
    decreases MAX_ORDER - v.pages[p].order
  {
    if Mergeable(v, p) {
      MergeLeads(v, own, p);
      MergeOnceKeeps(v, own, p);
      var v', q, op := MergeOnce(v, p), Merge(v, p).1, Del(FindBuddyPfn(p, v.pages[p].order));
      JoinsLead(v', Join(own, q, v.live[p]), q);
      FreeTraceSame(v', Merge(v, p).0, q);
      LeadsCons(FreeTable(v.areas), op, FreeTable(v'.areas), FreeTrace(v', q), FreeTable(Joins(v', q).areas),
        |v.pages|);
    } else {
      ReleaseLeads(v, own, p);
      LeadsOne(FreeTable(v.areas), Add(p, v.pages[p].order), FreeTable(Joins(v, p).areas), |v.pages|);
    }
  }

  lemma {:induction false} JoinsAvoid(v: State, own: seq<nat>, p: nat, x: nat)
    requires InvBy(v, own) && p in v.live && p < |v.pages| && x in v.live && x != p
    ensures !Touches(FreeTrace(v, p), x)
    decreases MAX_ORDER - v.pages[p].order
  {
    if Mergeable(v, p) {
      MergeLeads(v, own, p);
      MergeOnceKeeps(v, own, p);
      var v', q, op := MergeOnce(v, p), Merge(v, p).1, Del(FindBuddyPfn(p, v.pages[p].order));
      JoinsAvoid(v', Join(own, q, v.live[p]), q, x);
      FreeTraceSame(v', Merge(v, p).0, q);
      TouchesCons(op, FreeTrace(v', q), x);
    }
  }

  /** The list calls of a release are all possible, lead to the new lists and leave other live pages alone. */
  lemma FreeLeads(s: State, p: nat)
    requires Inv(s) && p in s.live
    ensures p < |s.pages|
    ensures Leads(FreeTable(s.areas), FreeTrace(s, p), FreeTable(FreeBlock(s, p).areas), |s.pages|)
    ensures forall x :: x in s.live && x != p ==> !Touches(FreeTrace(s, p), x)
  {
    var own :| InvBy(s, own);
    assert IsLiveBlock(s, own, p, s.live[p]);
    JoinsLead(s, own, p);
    CoalesceIsJoins(s, s, p);
    forall x | x in s.live && x != p ensures !Touches(FreeTrace(s, p), x) { JoinsAvoid(s, own, p, x); }
  }
}
