/**
  The steps that change the collector's heap: adding an arena, a whole
  collection, allocation, and what the running program may do.  Each keeps the
  invariant, so every run does.
 */
module HeapSteps {
  import opened Options
  import opened ObjectHeap

  // ---------------------------------------------------------------- a new arena

  function ArenaAddrs(n: nat, r: nat): set<Addr>
    requires n < K_ARENA_COUNT
  {
    set p, s | 0 <= p < PAGES && 0 <= s < SlotsPerPage(n) :: Addr(n, r, p, s)
  }

  /** The link that ObjectPage_init leaves in a slot. */
  function PageLink(a: Addr): Option<Addr>
    requires a.cls < K_ARENA_COUNT
  {
    if a.slot + 1 < SlotsPerPage(a.cls) then Some(a.(slot := a.slot + 1))
    else if a.page + 1 < PAGES then Some(Addr(a.cls, a.arena, a.page + 1, 0))
    else None
  }

  function FreshArena(n: nat, r: nat): Memory
    requires n < K_ARENA_COUNT
  {
    map a | a in ArenaAddrs(n, r) :: Slot(None, 0, PageLink(a), [])
  }

  /** The first k slots of an arena, in address order. */
  function Block(n: nat, r: nat, k: nat): (b: seq<Addr>)
    requires n < K_ARENA_COUNT
    ensures |b| == k
  {
    if k == 0 then [] else Block(n, r, k - 1) + [BlockAt(n, r, k - 1)]
  }

  function BlockAt(n: nat, r: nat, i: nat): Addr
    requires n < K_ARENA_COUNT
  {
    Addr(n, r, i / SlotsPerPage(n), i % SlotsPerPage(n))
  }

  /** The part of an arena that gc_extendObjectArena links to the free list. */
  function SplicedSlots(n: nat): nat
    requires n < K_ARENA_COUNT
  {
    PageSlots(n, PAGES - 1) + 1
  }

  /** What the allocator needs to know of an arena's block: its slots in link
      order, up to the first slot of the last page. */
  ghost predicate IsBlock(block: seq<Addr>, n: nat, r: nat)
    requires n < K_ARENA_COUNT
  {
    && |block| == SplicedSlots(n)
    && Distinct(block)
    && (forall a :: a in block <==> a in ArenaAddrs(n, r) && !(a.page == PAGES - 1 && a.slot > 0))
    && (forall i | 0 <= i < |block| - 1 :: PageLink(block[i]) == Next(block, i))
    && (forall i | 0 <= i < |block| - 1 :: block[i] != Tail(n, r))
    && block[|block|-1] == Tail(n, r)
  }

  /** ref4_tail of a new arena: the first slot of its last page. */
  function Tail(n: nat, r: nat): Addr {
    Addr(n, r, PAGES - 1, 0)
  }

  /** The effect of linking a new arena's block to the free list. */
  function Splice(h: Heap, n: nat, block: seq<Addr>): Heap
    requires n < K_ARENA_COUNT && Shape(h)
  {
    var r := h.arenas[n];
    Heap((h.mem + FreshArena(n, r))[Tail(n, r) := Slot(None, 0, Head(h.free[n]), [])],
         h.arenas[n := r + 1],
         h.free[n := block + h.free[n]],
         h.count[n := h.count[n] + PageSlots(n, PAGES)],
         h.roots)
  }

  lemma {:induction false} BlockIndex(n: nat, r: nat, k: nat, i: nat)
    requires n < K_ARENA_COUNT && i < k
    ensures Block(n, r, k)[i] == BlockAt(n, r, i)
  {
    if i < k - 1 {
      BlockIndex(n, r, k - 1, i);
    }
  }

  lemma BlockLinks(n: nat, r: nat, i: nat)
    requires n < K_ARENA_COUNT && i < PageSlots(n, PAGES)
    ensures BlockAt(n, r, i) in ArenaAddrs(n, r)
    ensures PageLink(BlockAt(n, r, i)) == if i + 1 < PageSlots(n, PAGES) then Some(BlockAt(n, r, i + 1)) else None
  {
    if n == 0 {
      assert i % 64 + 1 < 64 ==> (i + 1) / 64 == i / 64;
    } else if n == 1 {
      assert i % 32 + 1 < 32 ==> (i + 1) / 32 == i / 32;
    } else {
      assert i % 16 + 1 < 16 ==> (i + 1) / 16 == i / 16;
    }
  }

  lemma {:induction false} BlockDistinct(n: nat, r: nat, k: nat)
    requires n < K_ARENA_COUNT
    ensures Distinct(Block(n, r, k))
  {
    forall i, j | 0 <= i < j < k ensures Block(n, r, k)[i] != Block(n, r, k)[j] {
      BlockIndex(n, r, k, i);
      BlockIndex(n, r, k, j);
      var s := SlotsPerPage(n);
      assert i == s * (i / s) + i % s && j == s * (j / s) + j % s;
    }
  }

  lemma {:induction false} BlockHolds(n: nat, r: nat, k: nat, a: Addr)
    requires n < K_ARENA_COUNT
    ensures a in Block(n, r, k)
      <==> a.cls == n && a.arena == r && a.slot < SlotsPerPage(n) && PageSlots(n, a.page) + a.slot < k
  {
    var block, s, i := Block(n, r, k), SlotsPerPage(n), PageSlots(n, a.page) + a.slot;
    if a in block {
      var j :| 0 <= j < k && block[j] == a;
      BlockIndex(n, r, k, j);
    }
    if a.cls == n && a.arena == r && a.slot < s && i < k {
      BlockIndex(n, r, k, i);
    }
  }

  lemma {:induction false} BlockNext(n: nat, r: nat, i: nat)
    requires n < K_ARENA_COUNT && i + 1 < SplicedSlots(n)
    ensures var block := Block(n, r, SplicedSlots(n));
      && |block| == SplicedSlots(n) && block[i].cls == n
      && PageLink(block[i]) == Next(block, i) && block[i] != Tail(n, r)
  {
    var k := SplicedSlots(n);
    BlockDistinct(n, r, k);
    BlockIndex(n, r, k, i);
    BlockIndex(n, r, k, i + 1);
    BlockIndex(n, r, k, k - 1);
    BlockLinks(n, r, i);
    assert Block(n, r, k)[i] != Block(n, r, k)[k-1];
  }

  lemma {:induction false} BlockIsBlock(n: nat, r: nat)
    requires n < K_ARENA_COUNT
    ensures IsBlock(Block(n, r, SplicedSlots(n)), n, r)
  {
    var k := SplicedSlots(n);
    var block := Block(n, r, k);
    BlockDistinct(n, r, k);
    forall a ensures a in block <==> a in ArenaAddrs(n, r) && !(a.page == PAGES - 1 && a.slot > 0) {
      BlockHolds(n, r, k, a);
    }
    forall i | 0 <= i < |block| - 1 ensures PageLink(block[i]) == Next(block, i) && block[i] != Tail(n, r) {
      BlockNext(n, r, i);
    }
    BlockIndex(n, r, k, k - 1);
  }

  lemma ChainJoin(mem: Memory, n: nat, block: seq<Addr>, list: seq<Addr>)
    requires block != [] && Distinct(block) && FreeChain(mem, n, list)
    requires forall a | a in block :: a in mem && a.cls == n && mem[a].ct.None? && a !in list
    requires forall i | 0 <= i < |block| - 1 :: mem[block[i]].ref == Next(block, i)
    requires mem[block[|block|-1]].ref == Head(list)
    ensures FreeChain(mem, n, block + list)
  {
    var all := block + list;
    forall i | 0 <= i < |all|
      ensures all[i] in mem && all[i].cls == n && mem[all[i]].ct.None? && mem[all[i]].ref == Next(all, i)
    {
      if i < |block| {
        assert all[i] == block[i] && block[i] in block;
      } else {
        assert all[i] == list[i-|block|] && Next(all, i) == Next(list, i - |block|);
      }
    }
  }

  lemma SpliceChain(h: Heap, n: nat, block: seq<Addr>)
    requires n < K_ARENA_COUNT && Shape(h) && FreeChain(h.mem, n, h.free[n]) && IsBlock(block, n, h.arenas[n])
    ensures FreeChain(Splice(h, n, block).mem, n, block + h.free[n])
  {
    var r, list, mem' := h.arenas[n], h.free[n], Splice(h, n, block).mem;
    forall a | a in list ensures a in h.mem && a.arena < r && a in mem' && mem'[a] == h.mem[a] {
    }
    ChainFrame(h.mem, mem', n, list);
    forall a | a in block ensures a in mem' && a.cls == n && mem'[a].ct.None? && a !in list {
    }
    forall i | 0 <= i < |block| - 1 ensures mem'[block[i]].ref == Next(block, i) {
      SplicedLink(h, n, block, i);
    }
    ChainJoin(mem', n, block, list);
  }

  lemma SplicedLink(h: Heap, n: nat, block: seq<Addr>, i: nat)
    requires n < K_ARENA_COUNT && Shape(h) && IsBlock(block, n, h.arenas[n]) && i + 1 < |block|
    ensures block[i] in Splice(h, n, block).mem && Splice(h, n, block).mem[block[i]].ref == Next(block, i)
  {
    assert block[i] in block;
  }

  lemma SpliceShape(h: Heap, n: nat, block: seq<Addr>)
    requires n < K_ARENA_COUNT && Shape(h)
    ensures Shape(Splice(h, n, block))
    ensures forall a | a in h.mem :: a in Splice(h, n, block).mem && Splice(h, n, block).mem[a] == h.mem[a]
    ensures forall a | a in Splice(h, n, block).mem && a !in h.mem ::
              && a in ArenaAddrs(n, h.arenas[n])
              && Splice(h, n, block).mem[a].ct.None? && Splice(h, n, block).mem[a].refc == 0
  {
    var h', r := Splice(h, n, block), h.arenas[n];
    forall a ensures a in h'.mem <==> InArenas(h'.arenas, a) {
      assert a in h.mem <==> InArenas(h.arenas, a);
      assert a in ArenaAddrs(n, r) <==> a.cls == n && a.arena == r && a.page < PAGES && a.slot < SlotsPerPage(n);
    }
  }

  lemma SplicePartition(h: Heap, n: nat, block: seq<Addr>, a: Addr)
    requires n < K_ARENA_COUNT && Shape(h) && ListOk(h.mem, n, h.arenas[n], h.free[n], h.count[n])
    requires IsBlock(block, n, h.arenas[n])
    requires a in Splice(h, n, block).mem && a.cls == n
    ensures Splice(h, n, block).mem[a].ct.None? <==> (a in block + h.free[n] || Stranded(a))
    ensures a in block + h.free[n] ==> !Stranded(a)
  {
    SpliceShape(h, n, block);
    assert a in block + h.free[n] <==> a in block || a in h.free[n];
    if a in h.mem {
      assert a.arena < h.arenas[n];
    } else {
      assert a.arena == h.arenas[n] && a !in h.free[n];
    }
  }

  lemma SpliceList(h: Heap, n: nat, block: seq<Addr>)
    requires n < K_ARENA_COUNT && Shape(h) && Lists(h) && IsBlock(block, n, h.arenas[n])
    ensures ListOk(Splice(h, n, block).mem, n, h.arenas[n] + 1, block + h.free[n], h.count[n] + PageSlots(n, PAGES))
  {
    var h', list' := Splice(h, n, block), block + h.free[n];
    assert ListOk(h.mem, n, h.arenas[n], h.free[n], h.count[n]);
    SpliceChain(h, n, block);
    forall a | a in h'.mem && a.cls == n
      ensures h'.mem[a].ct.None? <==> (a in list' || Stranded(a))
      ensures a in list' ==> !Stranded(a)
    {
      SplicePartition(h, n, block, a);
    }
    StrandedMore(n, h.arenas[n]);
  }

  /** Every arena after the first strands all but one slot of a page. */
  lemma StrandedMore(n: nat, arenas: nat)
    requires n < K_ARENA_COUNT
    ensures StrandedSlots(n, arenas + 1) == StrandedSlots(n, arenas) + PageSlots(n, PAGES) - SplicedSlots(n)
  {
  }

  lemma SpliceListAt(h: Heap, n: nat, block: seq<Addr>, m: nat)
    requires n < K_ARENA_COUNT && Shape(h) && Lists(h) && IsBlock(block, n, h.arenas[n]) && m < K_ARENA_COUNT
    ensures var h' := Splice(h, n, block); ListOk(h'.mem, m, h'.arenas[m], h'.free[m], h'.count[m])
  {
    var h' := Splice(h, n, block);
    if m == n {
      SpliceList(h, n, block);
      assert h'.arenas[m] == h.arenas[n] + 1 && h'.free[m] == block + h.free[n];
      assert h'.count[m] == h.count[n] + PageSlots(n, PAGES);
    } else {
      SpliceShape(h, n, block);
      ListFrame(h.mem, h'.mem, m, h.arenas[m], h.free[m], h.count[m]);
      assert h'.arenas[m] == h.arenas[m] && h'.free[m] == h.free[m] && h'.count[m] == h.count[m];
    }
  }

  lemma SpliceLists(h: Heap, n: nat, block: seq<Addr>)
    requires n < K_ARENA_COUNT && Shape(h) && Lists(h) && IsBlock(block, n, h.arenas[n])
    ensures Shape(Splice(h, n, block)) && Lists(Splice(h, n, block))
  {
    SpliceShape(h, n, block);
    var h' := Splice(h, n, block);
    forall m | 0 <= m < K_ARENA_COUNT
      ensures ListOk(h'.mem, m, h'.arenas[m], h'.free[m], h'.count[m])
    {
      SpliceListAt(h, n, block, m);
    }
  }

  lemma SpliceLive(h: Heap, n: nat, block: seq<Addr>)
    requires n < K_ARENA_COUNT && Shape(h) && NoDangling(h)
    ensures forall a :: Live(h, a) <==> Live(Splice(h, n, block), a)
    ensures forall a | Live(h, a) :: Splice(h, n, block).mem[a] == h.mem[a]
    ensures NoDangling(Splice(h, n, block))
  {
    var h' := Splice(h, n, block);
    SpliceShape(h, n, block);
    forall a | Live(h, a) ensures Kids(h'.mem, a) == Kids(h.mem, a) {
    }
    SameGraphReach(h.mem, h'.mem, h.roots);
    forall a | Live(h', a) ensures a in h'.mem && h'.mem[a].ct.Some? {
      assert Live(h, a);
    }
  }

  /** Growing class n does not disturb a sweep that has got past it, nor the objects. */
  lemma SpliceKeeps(h: Heap, n: nat, k: nat, block: seq<Addr>)
    requires n < K_ARENA_COUNT && n < k && Sweeping(h, k) && IsBlock(block, n, h.arenas[n])
    ensures Sweeping(Splice(h, n, block), k)
    ensures forall a :: Live(h, a) <==> Live(Splice(h, n, block), a)
    ensures forall a | Live(h, a) :: Splice(h, n, block).mem[a] == h.mem[a]
  {
    var h' := Splice(h, n, block);
    SpliceShape(h, n, block);
    SpliceLists(h, n, block);
    SpliceLive(h, n, block);
    forall a | a in h'.mem
      ensures a.cls < k ==> h'.mem[a].refc == 0 && (h'.mem[a].ct.Some? ==> Live(h', a))
      ensures a.cls >= k ==> h'.mem[a].refc == if Live(h', a) then 1 else 0
    {
      assert Live(h, a) <==> Live(h', a);
    }
  }

  // ---------------------------------------------------------------- growing

  /** One iteration of gc_extendObjectArena: the new arena's list, cut after the
      first slot of its last page, in front of the old one. */
  function AddArena(h: Heap, n: nat): (h': Heap)
    requires n < K_ARENA_COUNT && Shape(h)
    ensures Shape(h')
  {
    SpliceShape(h, n, Block(n, h.arenas[n], SplicedSlots(n)));
    Splice(h, n, Block(n, h.arenas[n], SplicedSlots(n)))
  }

  /** k iterations of gc_extendObjectArena that lead from h to h', and the states between. */
  ghost predicate Growth(hs: seq<Heap>, h: Heap, h': Heap, n: nat, k: nat)
    requires n < K_ARENA_COUNT
  {
    && |hs| == k + 1 && hs[0] == h && hs[k] == h'
    && (forall i | 0 <= i < |hs| :: Shape(hs[i]))
    && (forall i | 0 < i < |hs| :: hs[i] == AddArena(hs[i-1], n))
  }

  /** CHECK_EXPAND: if less than a tenth of the slots counts as free, as many
      arenas again. */
  ghost predicate Expanded(h: Heap, h': Heap, n: nat)
    requires n < K_ARENA_COUNT && Shape(h)
  {
    if h.count[n] < TotalSlots(n, h.arenas[n]) / 10 then
      exists hs: seq<Heap> :: Growth(hs, h, h', n, h.arenas[n])
    else
      h' == h
  }

  /** h' has the live objects of h, unchanged but for marks, and no others are live. */
  ghost predicate SameLive(h: Heap, h': Heap) {
    && h'.roots == h.roots
    && (forall a :: Live(h, a) <==> Live(h', a))
    && (forall a | Live(h, a) ::
          a in h.mem && a in h'.mem && h'.mem[a] == h.mem[a].(refc := h'.mem[a].refc))
  }

  /** What sweeping or growing class n leaves alone: no slot disappears, what was
      free stays free, the slots and lists of the other classes are as before. */
  ghost predicate Advances(h: Heap, h': Heap, n: nat) {
    && SameLive(h, h')
    && h.mem.Keys <= h'.mem.Keys
    && (forall a {:trigger a in h.mem} | a in h.mem && a.cls != n :: h'.mem[a] == h.mem[a])
    && SetsOnly(h.free, h'.free, n)
    && forall a | a in h.free[n] :: a in h'.free[n]
  }

  lemma AdvancesTwice(h0: Heap, h1: Heap, h2: Heap, n: nat)
    requires Advances(h0, h1, n) && Advances(h1, h2, n)
    ensures Advances(h0, h2, n)
  {
  }

  lemma AddArenaKeeps(h: Heap, n: nat, k: nat)
    requires n < K_ARENA_COUNT && n < k && Sweeping(h, k)
    ensures Sweeping(AddArena(h, n), k)
    ensures Advances(h, AddArena(h, n), n)
    ensures AddArena(h, n).free[n] != []
  {
    var block := Block(n, h.arenas[n], SplicedSlots(n));
    BlockIsBlock(n, h.arenas[n]);
    SpliceShape(h, n, block);
    SpliceKeeps(h, n, k, block);
  }

  ghost predicate Grown(h: Heap, h': Heap, n: nat, k: nat) {
    Sweeping(h', k) && Advances(h, h', n)
  }

  lemma NotGrown(h: Heap, n: nat, k: nat)
    requires n < |h.free| && Sweeping(h, k)
    ensures Grown(h, h, n, k)
  {
  }

  lemma OneMoreArena(h: Heap, g: Heap, h': Heap, n: nat, k: nat)
    requires n < K_ARENA_COUNT && n < k && Grown(h, g, n, k) && h' == AddArena(g, n)
    ensures Grown(h, h', n, k) && h'.free[n] != []
  {
    AddArenaKeeps(g, n, k);
    AdvancesTwice(h, g, h', n);
  }

  lemma {:induction false} GrowthKeeps(hs: seq<Heap>, h: Heap, h': Heap, n: nat, k: nat, j: nat)
    requires n < K_ARENA_COUNT && n < k && Growth(hs, h, h', n, j) && Sweeping(h, k)
    ensures Grown(h, h', n, k)
    ensures j > 0 ==> h'.free[n] != []
    decreases j
  {
    if j == 0 {
      NotGrown(h, n, k);
    } else {
      GrowthKeeps(hs[..j], h, hs[j-1], n, k, j - 1);
      OneMoreArena(h, hs[j-1], h', n, k);
    }
  }

  // ---------------------------------------------------------------- a collection

  ghost predicate ClassOf(h: Heap, n: nat, done: set<Addr>) {
    forall a {:trigger a in done} {:trigger a in h.mem} :: a in done <==> a in h.mem && a.cls == n
  }

  /** gc_sweep##n: every slot of the class, then CHECK_EXPAND. */
  ghost predicate ClassSwept(h: Heap, h': Heap, n: nat)
    requires n < K_ARENA_COUNT && Shape(h)
  {
    exists hs: Heap, done: set<Addr>, freed: seq<Addr> ::
      && Shape(hs) && ClassOf(h, n, done) && SweptPart(h, hs, n, done, freed)
      && Expanded(hs, h', n)
  }

  /** The arithmetic of CHECK_EXPAND: a counter that counts only stranded slots is
      below a tenth of the slots, however many arenas there are. */
  lemma StrandedBelowTenth(n: nat, arenas: nat)
    requires n < K_ARENA_COUNT && arenas >= 1
    ensures StrandedSlots(n, arenas) < TotalSlots(n, arenas) / 10
  {
  }

  /** The dead objects of class m. */
  ghost predicate Dead(h: Heap, a: Addr, m: nat) {
    a in h.mem && a.cls == m && h.mem[a].ct.Some? && !Live(h, a)
  }

  ghost predicate AllDeadFree(h: Heap, h': Heap, m: nat) {
    m < |h'.free| && forall a | Dead(h, a, m) :: a in h'.free[m]
  }

  lemma SweptAdvances(h: Heap, hs: Heap, n: nat, done: set<Addr>, freed: seq<Addr>)
    requires n < K_ARENA_COUNT && Sweeping(h, n) && SweptPart(h, hs, n, done, freed) && ClassOf(h, n, done)
    ensures Sweeping(hs, n + 1)
    ensures Advances(h, hs, n)
    ensures AllDeadFree(h, hs, n)
  {
    SweepKeeps(h, hs, n, done, freed);
    SweepKeepsLive(h, hs, n, done, freed);
    forall a | Dead(h, a, n) ensures a in hs.free[n] {
      assert a in done && Garbage(h.mem[a]) && a in freed;
    }
  }

  lemma {:induction false} GrowthCounts(hs: seq<Heap>, h: Heap, h': Heap, n: nat, k: nat)
    requires n < K_ARENA_COUNT && Growth(hs, h, h', n, k)
    ensures h'.arenas[n] == h.arenas[n] + k
    decreases k
  {
    if k > 0 {
      GrowthCounts(hs[..k], h, hs[k-1], n, k - 1);
      assert h' == AddArena(hs[k-1], n);
    }
  }

  /** CHECK_EXPAND doubles the arenas exactly if the counter and one more are at most a tenth of
      the slots there are, and else changes nothing. */
  lemma ExpandedExactly(h: Heap, h': Heap, n: nat)
    requires n < K_ARENA_COUNT && Shape(h) && Expanded(h, h', n)
    ensures var slots := h.arenas[n] * PAGES * SlotsPerPage(n);
      if 10 * (h.count[n] + 1) <= slots then h'.arenas[n] == 2 * h.arenas[n] else h' == h
  {
    SizesFit(n, h.arenas[n]);
    if h.count[n] < TotalSlots(n, h.arenas[n]) / 10 {
      var hs: seq<Heap> :| Growth(hs, h, h', n, h.arenas[n]);
      GrowthCounts(hs, h, h', n, h.arenas[n]);
    }
  }

  lemma ExpandedKeeps(h: Heap, h': Heap, n: nat)
    requires n < K_ARENA_COUNT && Sweeping(h, n + 1) && Expanded(h, h', n)
    ensures Grown(h, h', n, n + 1)
    ensures h'.free[n] != []
  {
    if h.count[n] < TotalSlots(n, h.arenas[n]) / 10 {
      var hs: seq<Heap> :| Growth(hs, h, h', n, h.arenas[n]);
      GrowthKeeps(hs, h, h', n, n + 1, h.arenas[n]);
    } else {
      NotGrown(h, n, n + 1);
      StrandedBelowTenth(n, h.arenas[n]);
      assert ListOk(h.mem, n, h.arenas[n], h.free[n], h.count[n]);
    }
  }

  /** Sweeping class n: the live objects stay, every dead one of the class is on the
      free list, which is not empty. */
  lemma ClassSweptKeeps(h: Heap, h': Heap, n: nat)
    requires n < K_ARENA_COUNT && Sweeping(h, n) && ClassSwept(h, h', n)
    ensures Sweeping(h', n + 1)
    ensures Advances(h, h', n)
    ensures h'.free[n] != [] && AllDeadFree(h, h', n)
  {
    var hs: Heap, done: set<Addr>, freed: seq<Addr> :|
      Shape(hs) && ClassOf(h, n, done) && SweptPart(h, hs, n, done, freed) && Expanded(hs, h', n);
    SweptAdvances(h, hs, n, done, freed);
    ExpandedKeeps(hs, h', n);
    AdvancesTwice(h, hs, h', n);
  }

  ghost predicate LiveSet(h: Heap, live: set<Addr>) {
    forall a :: a in live <==> Live(h, a)
  }

  ghost predicate SweptAll(h: Heap, h': Heap)
    requires Shape(h)
  {
    exists h1: Heap, h2: Heap ::
      Shape(h1) && Shape(h2) && ClassSwept(h, h1, 0) && ClassSwept(h1, h2, 1) && ClassSwept(h2, h', 2)
  }

  /** MODGC_gc_invoke: mark the live objects, sweep the three classes. */
  ghost predicate CollectStep(h: Heap, h': Heap) {
    exists live: set<Addr> ::
      LiveSet(h, live) && Shape(h.(mem := WithMarks(h.mem, live))) && SweptAll(h.(mem := WithMarks(h.mem, live)), h')
  }

  /** What a collection achieves. */
  ghost predicate Collected(h: Heap, h': Heap) {
    && h'.roots == h.roots
    // the live objects are the same, every word of them
    && (forall a | Live(h, a) :: a in h.mem && a in h'.mem && h'.mem[a] == h.mem[a])
    && (forall a :: Live(h, a) <==> Live(h', a))
    // nothing else is allocated
    && (forall a | a in h'.mem :: h'.mem[a].ct.Some? <==> Live(h, a))
    // the dead objects' slots, and slots that were free, are free
    && (forall n | 0 <= n < K_ARENA_COUNT :: AllDeadFree(h, h', n))
    // and there is one for the next allocation
    && |h'.free| == K_ARENA_COUNT && (forall n | 0 <= n < K_ARENA_COUNT :: h'.free[n] != [])
  }

  lemma DeadFreeBefore(h: Heap, h1: Heap, h2: Heap, n: nat, m: nat)
    requires Advances(h, h1, n) && m != n && AllDeadFree(h1, h2, m)
    ensures AllDeadFree(h, h2, m)
  {
    forall a | Dead(h, a, m) ensures Dead(h1, a, m) {
    }
  }

  lemma DeadFreeAfter(h: Heap, h1: Heap, h2: Heap, n: nat, m: nat)
    requires AllDeadFree(h, h1, m) && Advances(h1, h2, n) && m != n
    ensures AllDeadFree(h, h2, m)
    ensures h2.free[m] == h1.free[m]
  {
  }

  lemma SameLiveTwice(h0: Heap, h1: Heap, h2: Heap)
    requires SameLive(h0, h1) && SameLive(h1, h2)
    ensures SameLive(h0, h2)
  {
  }

  lemma ThreeClasses(h: Heap, h1: Heap, h2: Heap, h': Heap)
    requires Advances(h, h1, 0) && Advances(h1, h2, 1) && Advances(h2, h', 2)
    requires AllDeadFree(h, h1, 0) && AllDeadFree(h1, h2, 1) && AllDeadFree(h2, h', 2)
    requires |h1.free| == |h2.free| == |h'.free| == K_ARENA_COUNT && h1.free[0] != [] && h2.free[1] != []
    requires h'.free[2] != []
    ensures SameLive(h, h')
    ensures forall n | 0 <= n < K_ARENA_COUNT :: AllDeadFree(h, h', n) && h'.free[n] != []
  {
    DeadFreeAfter(h, h1, h2, 1, 0);
    DeadFreeAfter(h, h2, h', 2, 0);
    DeadFreeBefore(h, h1, h2, 0, 1);
    DeadFreeAfter(h, h2, h', 2, 1);
    DeadFreeBefore(h1, h2, h', 1, 2);
    DeadFreeBefore(h, h1, h', 0, 2);
    SameLiveTwice(h, h1, h2);
    SameLiveTwice(h, h2, h');
  }

  lemma SweptAllKeeps(h: Heap, h': Heap)
    requires Sweeping(h, 0) && SweptAll(h, h')
    ensures Sweeping(h', K_ARENA_COUNT) && SameLive(h, h')
    ensures forall n | 0 <= n < K_ARENA_COUNT :: AllDeadFree(h, h', n) && h'.free[n] != []
  {
    var h1: Heap, h2: Heap :|
      Shape(h1) && Shape(h2) && ClassSwept(h, h1, 0) && ClassSwept(h1, h2, 1) && ClassSwept(h2, h', 2);
    ClassSweptKeeps(h, h1, 0);
    ClassSweptKeeps(h1, h2, 1);
    ClassSweptKeeps(h2, h', 2);
    ThreeClasses(h, h1, h2, h');
  }

  lemma MarkedSame(h: Heap, live: set<Addr>)
    requires Inv(h) && LiveSet(h, live)
    ensures SameLive(h, h.(mem := WithMarks(h.mem, live)))
    ensures forall a, m | Dead(h, a, m) :: Dead(h.(mem := WithMarks(h.mem, live)), a, m)
  {
    var hm := h.(mem := WithMarks(h.mem, live));
    MarkedSameLive(h, live);
  }

  lemma CollectedFrom(h: Heap, hm: Heap, h': Heap)
    requires Unmarked(h.mem) && SameLive(h, hm) && SameLive(hm, h') && Unmarked(h'.mem) && |h'.free| == K_ARENA_COUNT
    requires forall a | a in h'.mem :: h'.mem[a].ct.Some? <==> Live(h', a)
    requires forall a, m | Dead(h, a, m) :: Dead(hm, a, m)
    requires forall n | 0 <= n < K_ARENA_COUNT :: AllDeadFree(hm, h', n) && h'.free[n] != []
    ensures Collected(h, h')
  {
    SameLiveTwice(h, hm, h');
    forall a | Live(h, a) ensures h'.mem[a] == h.mem[a] {
      assert h.mem[a].refc == 0 == h'.mem[a].refc;
    }
    forall n | 0 <= n < K_ARENA_COUNT ensures AllDeadFree(h, h', n) {
      assert AllDeadFree(hm, h', n);
    }
  }

  lemma CollectKeeps(h: Heap, h': Heap)
    requires Inv(h) && CollectStep(h, h')
    ensures Inv(h') && Collected(h, h')
  {
    var live: set<Addr> :|
      LiveSet(h, live) && Shape(h.(mem := WithMarks(h.mem, live))) && SweptAll(h.(mem := WithMarks(h.mem, live)), h');
    MarkedIsSweeping(h, live);
    MarkedSame(h, live);
    SweptAllKeeps(h.(mem := WithMarks(h.mem, live)), h');
    SweptIsInv(h');
    CollectedFrom(h, h.(mem := WithMarks(h.mem, live)), h');
  }
}
