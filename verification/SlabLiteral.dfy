/** Line 258 of src/mm.c as it stands, on one page: when does the page hand out an object that is still
    live?  Module LiteralRuns shows that every slab page of every run behaves like this. */
module SlabLiteral {
  import opened Seqs
  import opened Buddy
  import opened Slab
  import opened SlabRuns

  datatype PageOp = TakeOp | PutOp(addr: int)

  datatype PageState = PageState(page: Page, objs: multiset<int>)

  /** A page as __init_obj_page leaves it. */
  function FreshPageState(base: nat): PageState
  {
    PageState(Page(0, 0, Taken, base, 0, Some(0), NULL), multiset{})
  }

  /** The head of the free list stays where it is. */
  function Take(s: PageState, size: int): PageState
  {
    PageState(s.page.(objUsed := s.page.objUsed + 1), s.objs + multiset{NextAddr(s.page, size)})
  }

  function Put(s: PageState, x: int): PageState
  {
    PageState(s.page.(free := x, objUsed := s.page.objUsed - 1), s.objs - multiset{x})
  }

  function Last(ops: seq<PageOp>): PageOp
    requires ops != []
  {
    ops[|ops| - 1]
  }

  function Init(ops: seq<PageOp>): seq<PageOp>
    requires ops != []
  {
    ops[..|ops| - 1]
  }

  /** The page after ops, with line 258 as it stands. */
  function After(base: nat, size: int, ops: seq<PageOp>): PageState
  {
    if ops == [] then FreshPageState(base)
    else
      var s := After(base, size, Init(ops));
      match Last(ops)
      case TakeOp => Take(s, size)
      case PutOp(x) => Put(s, x)
  }

  /** Clients give back what they hold. */
  predicate LegalOps(base: nat, size: int, ops: seq<PageOp>)
  {
    ops == [] ||
    (LegalOps(base, size, Init(ops)) &&
     (Last(ops).PutOp? ==> Last(ops).addr in After(base, size, Init(ops)).objs))
  }

  /** Every allocation handed out an object that was not live. */
  predicate AllFresh(base: nat, size: int, ops: seq<PageOp>)
  {
    ops == [] ||
    (AllFresh(base, size, Init(ops)) &&
     (Last(ops).TakeOp? ==>
        var s := After(base, size, Init(ops));
        NextAddr(s.page, size) !in s.objs))
  }

  lemma AllFreshTake(base: nat, size: int, ops: seq<PageOp>, x: int, objs: multiset<int>)
    requires NextAddr(After(base, size, ops).page, size) == x && After(base, size, ops).objs == objs
    ensures AllFresh(base, size, ops + [TakeOp]) <==> AllFresh(base, size, ops) && x !in objs
  {
    assert Init(ops + [TakeOp]) == ops && Last(ops + [TakeOp]) == TakeOp;
  }

  predicate NoPut(ops: seq<PageOp>)
  {
    forall i :: 0 <= i < |ops| ==> ops[i].TakeOp?
  }

  predicate TwoTakes(ops: seq<PageOp>, i: int)
  {
    0 < i < |ops| && ops[i - 1].TakeOp? && ops[i].TakeOp?
  }

  /** Once something has been given back, no two allocations follow each other. */
  ghost predicate Alternates(ops: seq<PageOp>)
  {
    forall i :: TwoTakes(ops, i) ==> NoPut(ops[..i])
  }

  /** The bump phase: no release yet, the live objects are the first slots. */
  lemma {:induction false} BumpPhase(base: nat, size: int, ops: seq<PageOp>)
    requires size > 0 && NoPut(ops)
    ensures var s := After(base, size, ops);
            && s.page.free == NULL && s.page.objUsed == |ops| && s.page.phyAddr == base
            && forall x :: s.objs[x] == if IsSlot(base, size, |ops|, x) then 1 else 0
    decreases |ops|
  {
    if ops != [] {
      assert NoPut(Init(ops));
      assert Last(ops).TakeOp?;
      BumpPhase(base, size, Init(ops));
      var s := After(base, size, Init(ops));
      var n := |ops| - 1;
      BumpFresh(base, size, n);
      forall x ensures After(base, size, ops).objs[x] == if IsSlot(base, size, |ops|, x) then 1 else 0 {
        BumpSlot(base, size, n, x);
      }
    } else {
      forall x ensures !IsSlot(base, size, 0, x) {}
    }
  }

  /** Distinct live objects; once there has been a release, the page offers the object released last
      for good, so that it is live exactly when the last call was an allocation. */
  ghost predicate Stuck(s: PageState, base: nat, put: bool, lastTake: bool)
  {
    && s.page.objUsed >= 0 && s.page.phyAddr == base
    && (forall x :: s.objs[x] <= 1)
    && (forall x :: x in s.objs ==> x > 0)
    && (!put ==> s.page.free == NULL)
    && (put ==> s.page.free > 0 && (s.page.free in s.objs <==> lastTake))
  }

  lemma StuckTake(s: PageState, size: int, base: nat, put: bool, lastTake: bool)
    requires Stuck(s, base, put, lastTake) && size > 0 && base > 0 && NextAddr(s.page, size) !in s.objs
    ensures Stuck(Take(s, size), base, put, true)
  {
    assert s.page.objUsed * size >= 0;
  }

  lemma StuckPut(s: PageState, base: nat, put: bool, lastTake: bool, x: int)
    requires Stuck(s, base, put, lastTake) && x in s.objs && s.page.objUsed > 0
    ensures Stuck(Put(s, x), base, true, false)
  {
    assert s.objs[x] == 1;
  }

  lemma {:induction false} UsedIsCount(base: nat, size: int, ops: seq<PageOp>)
    requires LegalOps(base, size, ops)
    ensures After(base, size, ops).page.objUsed == |After(base, size, ops).objs|
    decreases |ops|
  {
    if ops != [] { UsedIsCount(base, size, Init(ops)); }
  }

  lemma {:induction false} StuckPhase(base: nat, size: int, ops: seq<PageOp>)
    requires size > 0 && base > 0 && LegalOps(base, size, ops) && AllFresh(base, size, ops)
    ensures Stuck(After(base, size, ops), base, !NoPut(ops), ops != [] && Last(ops).TakeOp?)
    decreases |ops|
  {
    if ops != [] {
      var pre := Init(ops);
      StuckPhase(base, size, pre);
      UsedIsCount(base, size, pre);
      assert NoPut(ops) <==> NoPut(pre) && Last(ops).TakeOp?;
      var s := After(base, size, pre);
      var lastTake := pre != [] && Last(pre).TakeOp?;
      match Last(ops) {
        case TakeOp => StuckTake(s, size, base, !NoPut(pre), lastTake);
        case PutOp(x) => StuckPut(s, base, !NoPut(pre), lastTake, x);
      }
    }
  }

  lemma AlternatesSnoc(ops: seq<PageOp>)
    requires ops != []
    ensures Alternates(ops) <==> Alternates(Init(ops)) && (TwoTakes(ops, |ops| - 1) ==> NoPut(Init(ops)))
  {
    var pre := Init(ops);
    forall i ensures TwoTakes(pre, i) ==> TwoTakes(ops, i) && ops[..i] == pre[..i] {}
    forall i ensures TwoTakes(ops, i) && i != |ops| - 1 ==> TwoTakes(pre, i) && ops[..i] == pre[..i] {}
  }

  /** As long as every allocation was fresh, the next one is if and only if it is not the second in a row
      after a release. */
  lemma NextFresh(base: nat, size: int, pre: seq<PageOp>)
    requires size > 0 && base > 0 && LegalOps(base, size, pre) && AllFresh(base, size, pre)
    ensures var s := After(base, size, pre);
            NextAddr(s.page, size) !in s.objs <==> (NoPut(pre) || pre == [] || !Last(pre).TakeOp?)
  {
    StuckPhase(base, size, pre);
    if NoPut(pre) {
      BumpPhase(base, size, pre);
      BumpFresh(base, size, |pre|);
      assert NextAddr(After(base, size, pre).page, size) == SlotAddr(base, size, |pre|);
    }
  }

  /** The code as it stands keeps live objects of a page distinct if and only if, after the first
      release, no two allocations from it follow each other. */
  lemma {:induction false} FreshIffAlternating(base: nat, size: int, ops: seq<PageOp>)
    requires size > 0 && base > 0 && LegalOps(base, size, ops)
    ensures AllFresh(base, size, ops) <==> Alternates(ops)
    decreases |ops|
  {
    if ops != [] {
      FreshIffAlternating(base, size, Init(ops));
      AlternatesSnoc(ops);
      if AllFresh(base, size, Init(ops)) { NextFresh(base, size, Init(ops)); }
    }
  }

  lemma AfterTake(base: nat, size: int, ops: seq<PageOp>)
    ensures After(base, size, ops + [TakeOp]) == Take(After(base, size, ops), size)
    ensures LegalOps(base, size, ops + [TakeOp]) <==> LegalOps(base, size, ops)
  {
    assert Init(ops + [TakeOp]) == ops && Last(ops + [TakeOp]) == TakeOp;
  }

  lemma AfterPut(base: nat, size: int, ops: seq<PageOp>, x: int)
    ensures After(base, size, ops + [PutOp(x)]) == Put(After(base, size, ops), x)
    ensures LegalOps(base, size, ops + [PutOp(x)]) <==> LegalOps(base, size, ops) && x in After(base, size, ops).objs
  {
    assert Init(ops + [PutOp(x)]) == ops && Last(ops + [PutOp(x)]) == PutOp(x);
  }
}
