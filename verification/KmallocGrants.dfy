/** All runs of kmalloc, kfree, register_obj_allocator and obj_allocate from mm_init, with what each
    client holds: the sequence of addresses handed out and not given back, with the sizes asked for. */
module KmallocGrants {
  import opened Seqs
  import opened Buddy
  import opened Slab
  import opened SlabRuns
  import opened KmallocRuns

  /** An address returned to a client, and the size it had asked for. */
  datatype Grant = Grant(addr: int, size: int)

  datatype World = World(heap: Heap, grants: seq<Grant>)

  /** A client call: an allocation, the release of a grant, a new object allocator, or a write of an
      eight-byte word into a grant. */
  datatype Call = KmallocCall(size: int) | KfreeCall(i: nat) | RegisterCall(objsize: int)
                | ObjAllocateCall(token: int) | PokeCall(i: nat, offset: int, word: int)

  function Strike<T>(s: seq<T>, i: nat): seq<T>
    requires i < |s|
  {
    s[..i] + s[i + 1..]
  }

  function Grow(grants: seq<Grant>, r: Outcome, size: int): seq<Grant>
  {
    if r.Addr? then grants + [Grant(r.addr, size)] else grants
  }

  /** The size of the objects that a token stands for. */
  function TokenSize(k: Heap, token: int): int
  {
    if 0 <= token < |k.pool| then k.pool[token].objsize else 0
  }

  /** Clients release and write what they hold; allocations find room. */
  predicate Legal(w: World, c: Call, writeBack: bool)
    requires Sized(w.heap)
  {
    match c
    case KmallocCall(size) => !Kmalloc(w.heap, size, writeBack).1.Fault?
    case KfreeCall(i) => i < |w.grants|
    case RegisterCall(_) => true
    case ObjAllocateCall(token) => !ObjAllocate(w.heap, token, writeBack).1.Fault?
    case PokeCall(i, offset, _) => i < |w.grants| && 0 <= offset && offset + 8 <= w.grants[i].size
  }

  function Serve(w: World, c: Call, writeBack: bool): (w': World)
    requires Sized(w.heap)
    ensures Sized(w'.heap)
  {
    match c
    case KmallocCall(size) =>
      var (k, r) := Kmalloc(w.heap, size, writeBack);
      World(k, Grow(w.grants, r, size))
    case KfreeCall(i) =>
      if i < |w.grants| then World(Kfree(w.heap, w.grants[i].addr), Strike(w.grants, i)) else w
    case RegisterCall(objsize) => World(WithPool(w.heap, Register(w.heap.pool, objsize).0), w.grants)
    case ObjAllocateCall(token) =>
      var (k, r) := ObjAllocate(w.heap, token, writeBack);
      World(k, Grow(w.grants, r, TokenSize(w.heap, token)))
    case PokeCall(i, offset, word) =>
      if i < |w.grants| then World(Poke(w.heap, w.grants[i].addr + offset, word), w.grants) else w
  }

  function Last(calls: seq<Call>): Call
    requires calls != []
  {
    calls[|calls| - 1]
  }

  function Init(calls: seq<Call>): seq<Call>
    requires calls != []
  {
    calls[..|calls| - 1]
  }

  lemma BootedSized(m: nat)
    requires MAX_ORDER_SIZE * m < MAX_PFN
    ensures Sized(Booted(m))
  {
    BootedOk(m, true);
  }

  /** The world after these calls, from mm_init on m blocks of maximal order. */
  function After(m: nat, calls: seq<Call>, writeBack: bool): (w: World)
    requires MAX_ORDER_SIZE * m < MAX_PFN
    ensures Sized(w.heap)
  {
    BootedSized(m);
    if calls == [] then World(Booted(m), []) else Serve(After(m, Init(calls), writeBack), Last(calls), writeBack)
  }

  predicate LegalRun(m: nat, calls: seq<Call>, writeBack: bool)
    requires MAX_ORDER_SIZE * m < MAX_PFN
  {
    calls == [] ||
    (LegalRun(m, Init(calls), writeBack) && Legal(After(m, Init(calls), writeBack), Last(calls), writeBack))
  }

  // ---------------------------------------------------------------- every grant is backed by memory of its own

  /** Grant i is the piece zs[i], which starts at its address and is long enough; the pieces are handed
      out as often as they appear here. */
  ghost predicate Matches(w: World, zs: seq<Piece>)
  {
    && |zs| == |w.grants|
    && (forall z :: Held(w.heap, z) == Occurs(zs, z))
    && (forall i :: 0 <= i < |zs| ==> Backs(w.heap, zs[i], w.grants[i]))
  }

  predicate Backs(k: Heap, z: Piece, g: Grant)
  {
    IsLive(k, z) && Lo(k, z) == g.addr && Bytes(k, z) >= g.size
  }

  lemma StrikeOccurs<T>(s: seq<T>, i: nat, y: T)
    requires i < |s|
    ensures Occurs(Strike(s, i), y) == Occurs(s, y) - if y == s[i] then 1 else 0
  {
    assert s == s[..i] + [s[i]] + s[i + 1..];
  }

  lemma MatchesGained(w: World, k: Heap, zs: seq<Piece>, z: Piece, g: Grant)
    requires Matches(w, zs) && Gained(w.heap, k, z) && Backs(k, z, g)
    ensures Matches(World(k, w.grants + [g]), zs + [z])
  {
    forall y ensures Held(k, y) == Occurs(zs + [z], y) { SnocOccurs(zs, z, y); }
    forall i | 0 <= i < |zs| ensures Backs(k, zs[i], w.grants[i]) {
      assert Backs(w.heap, zs[i], w.grants[i]);
      assert Held(k, zs[i]) >= Held(w.heap, zs[i]);
    }
  }

  lemma MatchesLost(w: World, k: Heap, zs: seq<Piece>, i: nat)
    requires Matches(w, zs) && i < |zs| && Lost(w.heap, k, zs[i])
    ensures Matches(World(k, Strike(w.grants, i)), Strike(zs, i))
  {
    var zs', gs' := Strike(zs, i), Strike(w.grants, i);
    forall y ensures Held(k, y) == Occurs(zs', y) { StrikeOccurs(zs, i, y); }
    forall j | 0 <= j < |zs'| ensures Backs(k, zs'[j], gs'[j]) {
      var j' := if j < i then j else j + 1;
      assert zs'[j] == zs[j'] && gs'[j] == w.grants[j'];
      assert Backs(w.heap, zs[j'], w.grants[j']);
      assert zs'[j] in zs';
      assert Held(k, zs'[j]) == Occurs(zs', zs'[j]);
    }
  }

  lemma MatchesUnmoved(w: World, k: Heap, zs: seq<Piece>)
    requires Matches(w, zs) && Unmoved(w.heap, k)
    ensures Matches(World(k, w.grants), zs)
  {
    forall i | 0 <= i < |zs| ensures Backs(k, zs[i], w.grants[i]) {
      assert Backs(w.heap, zs[i], w.grants[i]);
      assert Held(k, zs[i]) == Held(w.heap, zs[i]);
    }
  }

  ghost predicate WorldOk(w: World, zs: seq<Piece>, writeBack: bool)
  {
    Ok(w.heap, writeBack) && Ready(w.heap) && Matches(w, zs)
  }

  lemma KmallocServes(w: World, size: int, zs: seq<Piece>, writeBack: bool) returns (zs': seq<Piece>)
    requires WorldOk(w, zs, writeBack)
    ensures WorldOk(Serve(w, KmallocCall(size), writeBack), zs', writeBack)
  {
    var (k, r) := Kmalloc(w.heap, size, writeBack);
    KmallocKeeps(w.heap, size, writeBack);
    zs' := zs;
    if r.Addr? {
      var z := KmallocGains(w.heap, size, writeBack);
      zs' := zs + [z];
      MatchesGained(w, k, zs, z, Grant(r.addr, size));
    }
  }

  lemma ObjectServes(w: World, t: nat, zs: seq<Piece>, writeBack: bool) returns (zs': seq<Piece>)
    requires WorldOk(w, zs, writeBack) && t < |w.heap.pool| && ObjAllocate(w.heap, t, writeBack).1.Addr?
    ensures var (k, r) := ObjAllocate(w.heap, t, writeBack);
            Matches(World(k, w.grants + [Grant(r.addr, w.heap.pool[t].objsize)]), zs')
  {
    var (k, r) := ObjAllocate(w.heap, t, writeBack);
    var z := ObjAllocateGains(w.heap, t, writeBack);
    zs' := zs + [z];
    MatchesGained(w, k, zs, z, Grant(r.addr, w.heap.pool[t].objsize));
  }

  lemma ObjAllocateServes(w: World, token: int, zs: seq<Piece>, writeBack: bool) returns (zs': seq<Piece>)
    requires WorldOk(w, zs, writeBack)
    ensures WorldOk(Serve(w, ObjAllocateCall(token), writeBack), zs', writeBack)
  {
    ObjAllocateKeeps(w.heap, token, writeBack);
    zs' := zs;
    if ObjAllocate(w.heap, token, writeBack).1.Addr? { zs' := ObjectServes(w, token, zs, writeBack); }
  }

  /** Every legal call keeps the heap consistent and every grant backed. */
  lemma ServeKeeps(w: World, c: Call, zs: seq<Piece>, writeBack: bool) returns (zs': seq<Piece>)
    requires WorldOk(w, zs, writeBack) && Legal(w, c, writeBack)
    ensures WorldOk(Serve(w, c, writeBack), zs', writeBack)
  {
    zs' := zs;
    match c {
      case KmallocCall(size) => zs' := KmallocServes(w, size, zs, writeBack);
      case ObjAllocateCall(token) => zs' := ObjAllocateServes(w, token, zs, writeBack);
      case KfreeCall(i) =>
        assert Backs(w.heap, zs[i], w.grants[i]);
        KfreeKeeps(w.heap, zs[i], writeBack);
        KfreeLoses(w.heap, zs[i], writeBack);
        zs' := Strike(zs, i);
        MatchesLost(w, Kfree(w.heap, w.grants[i].addr), zs, i);
      case RegisterCall(objsize) =>
        RegisterKeeps(w.heap, objsize, writeBack);
        RegisterKeepsReady(w.heap, objsize);
        MatchesUnmoved(w, WithPool(w.heap, Register(w.heap.pool, objsize).0), zs);
      case PokeCall(i, offset, word) =>
        assert Backs(w.heap, zs[i], w.grants[i]);
        PokeKeeps(w.heap, zs[i], w.grants[i].addr + offset, word, writeBack);
        MatchesUnmoved(w, Poke(w.heap, w.grants[i].addr + offset, word), zs);
    }
  }

  lemma {:induction false} RunKeeps(m: nat, calls: seq<Call>, writeBack: bool) returns (zs: seq<Piece>)
    requires MAX_ORDER_SIZE * m < MAX_PFN && LegalRun(m, calls, writeBack)
    ensures WorldOk(After(m, calls, writeBack), zs, writeBack)
    decreases |calls|
  {
    if calls == [] {
      BootedOk(m, writeBack);
      zs := [];
      BootedHoldsNothing(m);
    } else {
      zs := RunKeeps(m, Init(calls), writeBack);
      zs := ServeKeeps(After(m, Init(calls), writeBack), Last(calls), zs, writeBack);
    }
  }

  lemma BootedHoldsNothing(m: nat)
    ensures Matches(World(Booted(m), []), [])
  {
    var k := Booted(m);
    forall z ensures Held(k, z) == Occurs([], z) {
      match z {
        case Obj(p, x) => if p < |k.objs| { assert k.objs[p] == multiset{}; }
        case Block(h) =>
      }
    }
  }

  // ---------------------------------------------------------------- what every run guarantees

  /** Over every run from mm_init the pages, allocators and counters are consistent, whichever way
      line 258 is read. */
  lemma EveryRunConsistent(m: nat, calls: seq<Call>, writeBack: bool)
    requires MAX_ORDER_SIZE * m < MAX_PFN && LegalRun(m, calls, writeBack)
    ensures Ok(After(m, calls, writeBack).heap, writeBack) && Ready(After(m, calls, writeBack).heap)
  {
    var zs := RunKeeps(m, calls, writeBack);
  }

  /** Two grants are at odds: same address, or ranges that overlap. */
  predicate Clash(g: Grant, h: Grant)
  {
    g.addr == h.addr || !(g.addr + g.size <= h.addr || h.addr + h.size <= g.addr)
  }

  predicate ClashFree(grants: seq<Grant>)
  {
    forall i, j :: 0 <= i < |grants| && 0 <= j < |grants| && i != j ==> !Clash(grants[i], grants[j])
  }

  /** Grants of different pieces do not clash, with or without the pop. */
  lemma DifferentPieces(w: World, zs: seq<Piece>, writeBack: bool, i: nat, j: nat)
    requires WorldOk(w, zs, writeBack) && i < |zs| && j < |zs|
    ensures Clash(w.grants[i], w.grants[j]) <==> zs[i] == zs[j]
  {
    var k := w.heap;
    assert Backs(k, zs[i], w.grants[i]) && Backs(k, zs[j], w.grants[j]);
    OkIsSlotted(k, writeBack);
    if zs[i] != zs[j] {
      LivePiecesApart(k, zs[i], zs[j]);
      var g := PieceInBlock(k, zs[i]);
      var h := PieceInBlock(k, zs[j]);
    }
  }

  /** No grant clashes with another if and only if nothing is handed out twice. */
  lemma ClashFreeIffHeldOnce(w: World, zs: seq<Piece>, writeBack: bool)
    requires WorldOk(w, zs, writeBack)
    ensures ClashFree(w.grants) <==> forall z :: Held(w.heap, z) <= 1
  {
    forall i: nat, j: nat | i < |zs| && j < |zs|
      ensures Clash(w.grants[i], w.grants[j]) <==> zs[i] == zs[j]
    {
      DifferentPieces(w, zs, writeBack, i, j);
    }
    if ClashFree(w.grants) {
      assert NoDup(zs);
      forall z ensures Held(w.heap, z) <= 1 { NoDupCounts(zs, z); }
    }
    if forall z :: Held(w.heap, z) <= 1 {
      forall i, j | 0 <= i < |zs| && 0 <= j < |zs| && i != j
        ensures !Clash(w.grants[i], w.grants[j])
      {
        assert Held(w.heap, zs[i]) == Occurs(zs, zs[i]);
        if zs[i] == zs[j] { OccursTwice(zs, i, j); }
      }
    }
  }

  lemma OccursTwice<T>(s: seq<T>, i: nat, j: nat)
    requires i < |s| && j < |s| && i != j && s[i] == s[j]
    ensures Occurs(s, s[i]) >= 2
  {
    StrikeOccurs(s, i, s[i]);
    var j' := if j < i then j else j - 1;
    assert Strike(s, i)[j'] == s[j];
  }

  /** With the free list popped, over every run from mm_init all outstanding grants, of any mix of
      sizes, have different addresses and disjoint ranges. */
  lemma EveryRunDisjoint(m: nat, calls: seq<Call>)
    requires MAX_ORDER_SIZE * m < MAX_PFN && LegalRun(m, calls, true)
    ensures ClashFree(After(m, calls, true).grants)
  {
    var zs := RunKeeps(m, calls, true);
    var w := After(m, calls, true);
    ClashFreeIffHeldOnce(w, zs, true);
    forall z ensures Held(w.heap, z) <= 1 { HeldOnce(w.heap, z); }
  }

  /** Over every run, however line 258 is read, each outstanding grant is a live piece of at least the
      size asked for, and two grants are the same piece or disjoint. */
  lemma EveryGrantBacked(m: nat, calls: seq<Call>, writeBack: bool, i: nat, j: nat) returns (y: Piece, z: Piece)
    requires MAX_ORDER_SIZE * m < MAX_PFN && LegalRun(m, calls, writeBack)
    requires i < |After(m, calls, writeBack).grants| && j < |After(m, calls, writeBack).grants|
    ensures var w := After(m, calls, writeBack);
            && Backs(w.heap, y, w.grants[i]) && Backs(w.heap, z, w.grants[j])
            && (Clash(w.grants[i], w.grants[j]) <==> y == z)
  {
    var zs := RunKeeps(m, calls, writeBack);
    y, z := zs[i], zs[j];
    var w := After(m, calls, writeBack);
    assert Backs(w.heap, zs[i], w.grants[i]) && Backs(w.heap, zs[j], w.grants[j]);
    DifferentPieces(w, zs, writeBack, i, j);
  }
}
