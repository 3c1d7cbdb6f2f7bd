/** User stacks across fork and exec: memcpy of src/mm.S, the stack part of sys_fork and the argv part
    of sys_exec (src/sys.c).  Memory is an array of 64-bit words; addresses are multiples of 8. */
module ProcessStack {
  import opened Bits
  import opened Buddy
  import opened BuddyTheorems
  import opened Slab
  import opened SlabRuns
  import opened KmallocRuns

  const PAGE_WORDS: nat := 512

  /** n words from address a on lie in memory. */
  predicate InMemory(words: array<int>, a: int, n: int)
  {
    a >= 0 && a % 8 == 0 && n >= 0 && a / 8 + n <= words.Length
  }

  ghost function WordsAt(words: array<int>, a: int, n: int): seq<int>
    requires InMemory(words, a, n)
    reads words
  {
    words[a / 8..a / 8 + n]
  }

  /** Ranges of n words at a and of m words at b have no word in common. */
  predicate Separate(a: int, n: int, b: int, m: int)
  {
    a + 8 * n <= b || b + 8 * m <= a
  }

  lemma SameWords(a: seq<int>, i: nat, b: seq<int>, j: nat, m: nat)
    requires i + m <= |a| && j + m <= |b| && forall x :: i <= x < i + m ==> a[x] == b[x - i + j]
    ensures a[i..i + m] == b[j..j + m]
  {
  }

  /** memcpy of 8 * m bytes between word positions. */
  method CopyUp(words: array<int>, dst: nat, src: nat, m: nat)
    requires m > 0 && dst + m <= words.Length && src + m <= words.Length && (dst <= src || src + m <= dst)
    modifies words
    ensures words[dst..dst + m] == old(words[src..src + m])
    ensures forall i :: 0 <= i < words.Length && !(dst <= i < dst + m) ==> words[i] == old(words[i])
  {
    ghost var before := words[..];
    var d, s, left := dst, src, 8 * m;
    ghost var k := 0;
    while true
      invariant 0 <= k < m && left == 8 * (m - k) && d == dst + k && s == src + k
      invariant forall i :: dst <= i < d ==> words[i] == before[i - dst + src]
      invariant forall i :: 0 <= i < words.Length && !(dst <= i < d) ==> words[i] == before[i]
      decreases left
    {
      words[d] := words[s];
      d, s, left := d + 1, s + 1, left - 8;
      k := k + 1;
      if left <= 0 { break; }
    }
    assert k == m && d == dst + m;
    SameWords(words[..], dst, before, src, m);
  }

  /** memcpy of n bytes, n a positive multiple of 8.  It copies upwards, so the destination may overlap the
      source from below. */
  method Memcpy(words: array<int>, dst: int, src: int, n: int)
    requires n > 0 && n % 8 == 0 && InMemory(words, dst, n / 8) && InMemory(words, src, n / 8)
    requires dst <= src || src + n <= dst
    modifies words
    ensures WordsAt(words, dst, n / 8) == old(WordsAt(words, src, n / 8))
    ensures forall i :: 0 <= i < words.Length && !(dst / 8 <= i < dst / 8 + n / 8) ==> words[i] == old(words[i])
  {
    CopyUp(words, dst / 8, src / 8, n / 8);
  }

  /** The stack part of sys_fork: the child's page is a copy of the parent's and its stack pointer stands
      at the same place in it. */
  method ForkStack(words: array<int>, parentStack: int, parentSp: int, childStack: int) returns (childSp: int)
    requires InMemory(words, parentStack, PAGE_WORDS) && InMemory(words, childStack, PAGE_WORDS)
    requires Separate(parentStack, PAGE_WORDS, childStack, PAGE_WORDS)
    requires parentStack <= parentSp <= parentStack + PAGE_SIZE
    modifies words
    ensures WordsAt(words, childStack, PAGE_WORDS) == old(WordsAt(words, parentStack, PAGE_WORDS))
    ensures WordsAt(words, parentStack, PAGE_WORDS) == old(WordsAt(words, parentStack, PAGE_WORDS))
    ensures childSp - childStack == parentSp - parentStack
  {
    Memcpy(words, childStack, parentStack, PAGE_SIZE);
    var offset := parentSp - parentStack;
    childSp := childStack + offset;
    assert forall i :: parentStack / 8 <= i < parentStack / 8 + PAGE_WORDS ==> words[i] == old(words[i]);
  }

  /** A NULL-terminated vector of argc pointers at address argv. */
  ghost predicate ArgvAt(words: array<int>, argv: int, argc: nat)
    reads words
  {
    && InMemory(words, argv, argc + 1)
    && words[argv / 8 + argc] == 0
    && forall i :: argv / 8 <= i < argv / 8 + argc ==> words[i] != 0
  }

  method CountArgv(words: array<int>, argv: int, ghost argc: nat) returns (n: nat)
    requires ArgvAt(words, argv, argc)
    ensures n == argc
  {
    n := 0;
    while words[argv / 8 + n] != 0
      invariant n <= argc
      decreases argc - n
    {
      n := n + 1;
    }
  }

  /** The loops of sys_exec that copy n pointers from word position src to dst. */
  method CopyPointers(words: array<int>, dst: nat, src: nat, n: nat)
    requires dst + n <= words.Length && src + n <= words.Length && (dst + n <= src || src + n <= dst)
    modifies words
    ensures words[dst..dst + n] == old(words[src..src + n])
    ensures forall i :: 0 <= i < words.Length && !(dst <= i < dst + n) ==> words[i] == old(words[i])
  {
    ghost var before := words[..];
    for i := 0 to n
      invariant forall j :: dst <= j < dst + i ==> words[j] == before[j - dst + src]
      invariant forall j :: 0 <= j < words.Length && !(dst <= j < dst + i) ==> words[j] == before[j]
    {
      words[dst + i] := words[src + i];
    }
    SameWords(words[..], dst, before, src, n);
  }

  method CopyWords(words: array<int>, dst: int, src: int, n: nat)
    requires InMemory(words, dst, n) && InMemory(words, src, n) && Separate(dst, n, src, n)
    modifies words
    ensures WordsAt(words, dst, n) == old(WordsAt(words, src, n))
    ensures forall i :: 0 <= i < words.Length && !(dst / 8 <= i < dst / 8 + n) ==> words[i] == old(words[i])
  {
    CopyPointers(words, dst / 8, src / 8, n);
  }

  /** The stack pointer that sys_exec computes. */
  function ExecSp(stack: int, argc: nat): int
  {
    stack + PAGE_SIZE - (argc + argc % 2) * 8
  }

  /** It is 16-byte aligned, leaves room for the pointers and at most one word more, and is inside the stack
      page exactly for at most 512 arguments. */
  lemma ExecSpAligned(stack: int, argc: nat)
    requires stack % PAGE_SIZE == 0
    ensures ExecSp(stack, argc) % 16 == 0
    ensures stack <= ExecSp(stack, argc) <==> argc <= PAGE_WORDS
    ensures stack + PAGE_SIZE - 8 <= ExecSp(stack, argc) + 8 * argc <= stack + PAGE_SIZE
  {
    var half := (argc + argc % 2) / 2;
    assert argc + argc % 2 == 2 * half;
    assert ExecSp(stack, argc) == stack + PAGE_SIZE - 16 * half;
    assert stack == PAGE_SIZE * (stack / PAGE_SIZE);
    DivModUnique(ExecSp(stack, argc), 16, 256 * (stack / PAGE_SIZE) + 256 - half, 0);
  }

  /** The pointers fit where sys_exec puts them. */
  lemma ExecRanges(words: array<int>, stack: int, argv: int, backup: int, argc: nat)
    requires argc <= PAGE_WORDS && stack % PAGE_SIZE == 0 && InMemory(words, stack, PAGE_WORDS)
    requires InMemory(words, backup, PAGE_WORDS) && InMemory(words, argv, argc + 1)
    requires Separate(backup, PAGE_WORDS, stack, PAGE_WORDS) && Separate(backup, PAGE_WORDS, argv, argc + 1)
    ensures var sp := ExecSp(stack, argc);
            && InMemory(words, sp, argc) && InMemory(words, backup, argc) && InMemory(words, argv, argc)
            && Separate(backup, argc, argv, argc) && Separate(sp, argc, backup, argc)
            && stack <= sp && sp + 8 * argc <= stack + PAGE_SIZE && sp % 16 == 0
  {
    ExecSpAligned(stack, argc);
  }

  /** The argv part of sys_exec.  The pointers arrive at the new stack pointer unchanged wherever they
      were, even inside the part of the stack page they are moved to, because they go through a page
      of their own. */
  method ExecArgv(words: array<int>, stack: int, argv: int, backup: int, ghost argc: nat) returns (n: nat, sp: int)
    requires ArgvAt(words, argv, argc) && argc <= PAGE_WORDS
    requires stack % PAGE_SIZE == 0 && InMemory(words, stack, PAGE_WORDS) && InMemory(words, backup, PAGE_WORDS)
    requires Separate(backup, PAGE_WORDS, stack, PAGE_WORDS) && Separate(backup, PAGE_WORDS, argv, argc + 1)
    modifies words
    ensures n == argc && sp == ExecSp(stack, argc) && InMemory(words, sp, argc)
    ensures stack <= sp && sp + 8 * argc <= stack + PAGE_SIZE && sp % 16 == 0
    ensures WordsAt(words, sp, argc) == old(WordsAt(words, argv, argc))
    ensures forall i :: 0 <= i < words.Length ==>
              backup / 8 <= i < backup / 8 + PAGE_WORDS || sp / 8 <= i < sp / 8 + argc || words[i] == old(words[i])
  {
    n := CountArgv(words, argv, argc);
    ExecRanges(words, stack, argv, backup, argc);
    CopyWords(words, backup, argv, n);
    sp := stack + PAGE_SIZE;
    sp := sp - (n + n % 2) * 8;
    CopyWords(words, sp, backup, n);
  }

  /** page is a whole page frame at addr that k does not have and k' does. */
  ghost predicate PageGained(k: Heap, k': Heap, page: Piece, addr: int)
  {
    && page.Block? && Gained(k, k', page) && !IsLive(k, page) && IsLive(k', page)
    && Lo(k', page) == addr && Bytes(k', page) == PAGE_SIZE && addr % PAGE_SIZE == 0 && addr % 8 == 0
    && |k'.buddy.pages| == |k.buddy.pages|
  }

  /** kmalloc(PAGE_SIZE), from which stacks and the backup page come, gives whole page frames: aligned, and
      apart from everything live. */
  lemma PageFromKmalloc(k: Heap, addr: int, writeBack: bool) returns (k': Heap, page: Piece)
    requires Ok(k, writeBack) && Ready(k) && Slab.Kmalloc(k, PAGE_SIZE, writeBack).1 == Addr(addr)
    ensures k' == Slab.Kmalloc(k, PAGE_SIZE, writeBack).0 && Ok(k', writeBack) && PageGained(k, k', page, addr)
  {
    SmallRequests(PAGE_SIZE);
    assert Pow2(12) == 4096;
    assert BlockBytes(0) == PAGE_SIZE;
    assert PageOrder(PAGE_SIZE, 0) == 0;
    page := BlockAllocGains(k, 0, writeBack);
    k' := Slab.Kmalloc(k, PAGE_SIZE, writeBack).0;
    assert addr == LOW_MEMORY + page.head * PAGE_SIZE;
    DivModUnique(addr, PAGE_SIZE, 512 + page.head, 0);
    DivModUnique(addr, 8, 512 * (512 + page.head), 0);
  }

  // ---------------------------------------------------------------- on the kernel's own heap

  /** Memory reaches to the end of the page frames. */
  predicate CoversFrames(words: array<int>, k: Heap)
  {
    LOW_MEMORY + |k.buddy.pages| * PAGE_SIZE <= 8 * words.Length
  }

  /** n words from a on lie inside the live piece z. */
  predicate WordsIn(k: Heap, z: Piece, a: int, n: int)
  {
    IsLive(k, z) && a % 8 == 0 && n >= 0 && Lo(k, z) <= a && a + 8 * n <= Lo(k, z) + Bytes(k, z)
  }

  /** A live piece is inside the frames. */
  lemma PieceInMemory(words: array<int>, k: Heap, z: Piece, a: int, n: int, writeBack: bool)
    requires Ok(k, writeBack) && CoversFrames(words, k) && WordsIn(k, z, a, n)
    ensures InMemory(words, a, n)
  {
    OkIsSlotted(k, writeBack);
    var h := PieceInBlock(k, z);
    LiveBlocksDisjoint(k.buddy, h, h);
    EndOfBlock(h, Pow2(k.buddy.live[h]), |k.buddy.pages|);
    assert a + 8 * n <= LOW_MEMORY + |k.buddy.pages| * PAGE_SIZE;
  }

  lemma EndOfBlock(h: nat, size: nat, n: nat)
    requires h + size <= n
    ensures LOW_MEMORY + h * PAGE_SIZE + size * PAGE_SIZE <= LOW_MEMORY + n * PAGE_SIZE
  {
  }

  /** A page fresh from kmalloc has no word in common with anything that was live before. */
  lemma NewPageSeparate(k: Heap, k': Heap, page: Piece, addr: int, z: Piece, a: int, n: int, writeBack: bool)
    requires Ok(k', writeBack) && PageGained(k, k', page, addr) && WordsIn(k, z, a, n)
    ensures WordsIn(k', page, addr, PAGE_WORDS) && WordsIn(k', z, a, n) && Separate(addr, PAGE_WORDS, a, n)
  {
    assert Held(k', z) >= Held(k, z) > 0;
    OkIsSlotted(k', writeBack);
    LivePiecesApart(k', page, z);
  }

  lemma ForkRanges(words: array<int>, parentStack: int, childStack: int, k: Heap, z: Piece, writeBack: bool)
    requires Ok(k, writeBack) && Ready(k) && CoversFrames(words, k) && WordsIn(k, z, parentStack, PAGE_WORDS)
    requires Slab.Kmalloc(k, PAGE_SIZE, writeBack).1 == Addr(childStack)
    ensures InMemory(words, childStack, PAGE_WORDS) && InMemory(words, parentStack, PAGE_WORDS)
    ensures Separate(childStack, PAGE_WORDS, parentStack, PAGE_WORDS)
  {
    var k', page := PageFromKmalloc(k, childStack, writeBack);
    NewPageSeparate(k, k', page, childStack, z, parentStack, PAGE_WORDS, writeBack);
    PieceInMemory(words, k', page, childStack, PAGE_WORDS, writeBack);
    PieceInMemory(words, k', z, parentStack, PAGE_WORDS, writeBack);
  }

  /** sys_fork with the child's stack from kmalloc and the parent's stack a live page: nothing about the
      two pages is assumed. */
  method ForkOnHeap(words: array<int>, parentStack: int, parentSp: int, childStack: int, ghost k: Heap, ghost z: Piece,
                    ghost writeBack: bool)
    returns (childSp: int)
    requires Ok(k, writeBack) && Ready(k) && CoversFrames(words, k)
    requires WordsIn(k, z, parentStack, PAGE_WORDS) && parentStack <= parentSp <= parentStack + PAGE_SIZE
    requires Slab.Kmalloc(k, PAGE_SIZE, writeBack).1 == Addr(childStack)
    modifies words
    ensures InMemory(words, childStack, PAGE_WORDS) && InMemory(words, parentStack, PAGE_WORDS)
    ensures WordsAt(words, childStack, PAGE_WORDS) == old(words[parentStack / 8..parentStack / 8 + PAGE_WORDS])
    ensures WordsAt(words, parentStack, PAGE_WORDS) == old(words[parentStack / 8..parentStack / 8 + PAGE_WORDS])
    ensures childSp - childStack == parentSp - parentStack
  {
    ForkRanges(words, parentStack, childStack, k, z, writeBack);
    childSp := ForkStack(words, parentStack, parentSp, childStack);
  }

  /** sys_exec with the backup page from kmalloc, and stack and argv in live pieces. */
  method ExecOnHeap(words: array<int>, stack: int, argv: int, backup: int, ghost argc: nat, ghost k: Heap,
                    ghost y: Piece, ghost z: Piece, ghost writeBack: bool)
    returns (n: nat, sp: int)
    requires Ok(k, writeBack) && Ready(k) && CoversFrames(words, k)
    requires stack % PAGE_SIZE == 0 && WordsIn(k, y, stack, PAGE_WORDS) && WordsIn(k, z, argv, argc + 1)
    requires ArgvAt(words, argv, argc) && argc <= PAGE_WORDS
    requires Slab.Kmalloc(k, PAGE_SIZE, writeBack).1 == Addr(backup)
    modifies words
    ensures n == argc && sp == ExecSp(stack, argc) && InMemory(words, sp, argc)
    ensures stack <= sp && sp + 8 * argc <= stack + PAGE_SIZE && sp % 16 == 0
    ensures WordsAt(words, sp, argc) == old(WordsAt(words, argv, argc))
  {
    ghost var k', page := PageFromKmalloc(k, backup, writeBack);
    NewPageSeparate(k, k', page, backup, y, stack, PAGE_WORDS, writeBack);
    NewPageSeparate(k, k', page, backup, z, argv, argc + 1, writeBack);
    PieceInMemory(words, k', page, backup, PAGE_WORDS, writeBack);
    PieceInMemory(words, k', y, stack, PAGE_WORDS, writeBack);
    n, sp := ExecArgv(words, stack, argv, backup, argc);
  }
}
