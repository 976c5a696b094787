/**
  Runs: the initial heap, what allocation and the running program do to it, and
  what therefore holds in every state of every run.
 */
module HeapRuns {
  import opened Options
  import opened ObjectHeap
  import opened HeapSteps

  // ---------------------------------------------------------------- the first arenas

  /** After MSGC_setup: one arena for each class.  A first arena is not spliced, its
      whole block is the free list. */
  ghost predicate Initial(h: Heap) {
    && |h.arenas| == |h.free| == |h.count| == K_ARENA_COUNT
    && (forall n | 0 <= n < K_ARENA_COUNT ::
          h.arenas[n] == 1 && h.free[n] == WholeArena(n) && h.count[n] == PageSlots(n, PAGES))
    && (forall a :: a in h.mem <==> InArenas(h.arenas, a))
    && (forall a | a in h.mem :: h.mem[a] == Slot(None, 0, PageLink(a), []))
    && h.roots == []
  }

  function WholeArena(n: nat): seq<Addr>
    requires n < K_ARENA_COUNT
  {
    Block(n, 0, PageSlots(n, PAGES))
  }

  lemma WholeArenaChain(mem: Memory, n: nat)
    requires n < K_ARENA_COUNT
    requires forall a | a in ArenaAddrs(n, 0) :: a in mem && mem[a] == Slot(None, 0, PageLink(a), [])
    ensures FreeChain(mem, n, WholeArena(n))
  {
    var list := WholeArena(n);
    BlockDistinct(n, 0, |list|);
    forall k | 0 <= k < |list|
      ensures list[k] in mem && list[k].cls == n && mem[list[k]].ct.None? && mem[list[k]].ref == Next(list, k)
    {
      BlockIndex(n, 0, |list|, k);
      BlockLinks(n, 0, k);
      if k + 1 < |list| {
        BlockIndex(n, 0, |list|, k + 1);
      }
    }
  }

  lemma WholeArenaListOk(mem: Memory, n: nat)
    requires n < K_ARENA_COUNT
    requires forall a | a in mem && a.cls == n :: a in ArenaAddrs(n, 0)
    requires forall a | a in ArenaAddrs(n, 0) :: a in mem && mem[a] == Slot(None, 0, PageLink(a), [])
    ensures ListOk(mem, n, 1, WholeArena(n), PageSlots(n, PAGES))
  {
    WholeArenaChain(mem, n);
    forall a | a in mem && a.cls == n ensures a in WholeArena(n) && !Stranded(a) {
      BlockHolds(n, 0, PageSlots(n, PAGES), a);
    }
    forall a | a in WholeArena(n) ensures !Stranded(a) {
      BlockHolds(n, 0, PageSlots(n, PAGES), a);
    }
  }

  lemma InitialInv(h: Heap)
    requires Initial(h)
    ensures Inv(h)
  {
    forall n | 0 <= n < K_ARENA_COUNT ensures ListOk(h.mem, n, h.arenas[n], h.free[n], h.count[n]) {
      WholeArenaListOk(h.mem, n);
    }
    forall a ensures !Live(h, a) {
      forall p: seq<Addr> ensures !IsPath(h.mem, [], p) {
        NoRootsNoPath(h.mem, p);
      }
    }
  }

  lemma {:induction false} NoRootsNoPath(mem: Memory, p: seq<Addr>)
    ensures !IsPath(mem, [], p)
  {
    if |p| > 1 {
      NoRootsNoPath(mem, p[..|p|-1]);
    }
  }

  // ---------------------------------------------------------------- allocation

  /** FREELIST_POP, the counter, and setting the class word, as one step; the
      caller holds the new object o. */
  ghost predicate AllocStep(h: Heap, h': Heap, n: nat, ct: Klass, o: Addr) {
    && n < K_ARENA_COUNT && ct.structSize == SlotSize(n)
    && SetsOnly(h.free, h'.free, n) && h.free[n] != []
    && o == h.free[n][0] && h'.free[n] == h.free[n][1..]
    && h'.mem == h.mem[o := Slot(Some(ct), 0, None, [])]
    && h'.arenas == h.arenas
    && SetsOnly(h.count, h'.count, n) && h'.count[n] == h.count[n] - 1
    && h'.roots == h.roots + [o]
  }

  // ---------------------------------------------------------------- the program

  /** The program stores references it holds in a live object; the object owns its
      whole body, so the word that was its link may become anything. */
  ghost predicate MutateStep(h: Heap, h': Heap, o: Addr, fields: seq<Addr>, word: Option<Addr>) {
    && o in h.mem && Live(h, o)
    && (forall f | f in fields :: Live(h, f))
    && h' == h.(mem := h.mem[o := h.mem[o].(fields := fields, ref := word)])
  }

  /** The program changes what it holds: stack slots, globals. */
  ghost predicate RootStep(h: Heap, h': Heap) {
    && (forall r | r in h'.roots :: Live(h, r))
    && h' == h.(roots := h'.roots)
  }

  /** In the new state only `allowed` objects are reachable when they include the
      roots and are closed under tracing. */
  lemma LiveWithin(h': Heap, allowed: iset<Addr>)
    requires forall r | r in h'.roots :: r in allowed
    requires forall a, b | a in allowed && b in Kids(h'.mem, a) :: b in allowed
    ensures forall a | Live(h', a) :: a in allowed
  {
    forall a | Live(h', a) ensures a in allowed {
      var p :| PathTo(h'.mem, h'.roots, p, a);
      PathWithin(h', allowed, p);
    }
  }

  lemma {:induction false} PathWithin(h': Heap, allowed: iset<Addr>, p: seq<Addr>)
    requires forall r | r in h'.roots :: r in allowed
    requires forall a, b | a in allowed && b in Kids(h'.mem, a) :: b in allowed
    requires IsPath(h'.mem, h'.roots, p)
    ensures p[|p|-1] in allowed
  {
    if |p| > 1 {
      PathWithin(h', allowed, p[..|p|-1]);
    }
  }

  lemma AllocLive(h: Heap, h': Heap, n: nat, ct: Klass, o: Addr)
    requires Inv(h) && AllocStep(h, h', n, ct, o)
    ensures forall a | Live(h', a) :: a == o || Live(h, a)
  {
    forall r | r in h'.roots ensures r == o || Live(h, r) {
      if r in h.roots { RootReachable(h.mem, h.roots, r); }
    }
    forall a, b | (a == o || Live(h, a)) && b in Kids(h'.mem, a) ensures Live(h, b) {
      assert a != o && Kids(h'.mem, a) == Kids(h.mem, a);
      KidReachable(h.mem, h.roots, a, b);
    }
    LiveWithin(h', iset a | a == o || Live(h, a));
  }

  /** FREELIST_POP, and an object put in the slot. */
  lemma PopKeepsChain(mem: Memory, n: nat, list: seq<Addr>, s: Slot)
    requires FreeChain(mem, n, list) && list != []
    ensures FreeChain(mem[list[0] := s], n, list[1..])
    ensures list[0] !in list[1..]
  {
    var rest := list[1..];
    forall k | 0 <= k < |rest|
      ensures rest[k] in mem && rest[k].cls == n && mem[rest[k]].ct.None? && mem[rest[k]].ref == Next(rest, k)
      ensures rest[k] != list[0]
    {
      assert rest[k] == list[k+1] && Next(rest, k) == Next(list, k + 1);
    }
  }

  lemma AllocListOk(h: Heap, h': Heap, n: nat, ct: Klass, o: Addr)
    requires Inv(h) && AllocStep(h, h', n, ct, o)
    ensures ListOk(h'.mem, n, h'.arenas[n], h'.free[n], h'.count[n])
  {
    var list := h.free[n];
    assert ListOk(h.mem, n, h.arenas[n], list, h.count[n]);
    PopKeepsChain(h.mem, n, list, Slot(Some(ct), 0, None, []));
    assert list == [o] + h'.free[n];
    assert forall a :: a in list <==> a == o || a in h'.free[n];
  }

  lemma AllocTarget(h: Heap, n: nat)
    requires Inv(h) && n < K_ARENA_COUNT && h.free[n] != []
    ensures h.free[n][0] in h.mem && h.free[n][0].cls == n
    ensures h.mem[h.free[n][0]].ct.None? && !Live(h, h.free[n][0])
  {
    assert ListOk(h.mem, n, h.arenas[n], h.free[n], h.count[n]);
  }

  lemma AllocLists(h: Heap, h': Heap, n: nat, ct: Klass, o: Addr)
    requires Inv(h) && AllocStep(h, h', n, ct, o)
    ensures Shape(h') && Lists(h')
  {
    AllocTarget(h, n);
    forall m | 0 <= m < K_ARENA_COUNT ensures ListOk(h'.mem, m, h'.arenas[m], h'.free[m], h'.count[m]) {
      if m == n {
        AllocListOk(h, h', n, ct, o);
      } else {
        assert ListOk(h.mem, m, h.arenas[m], h.free[m], h.count[m]);
        ListFrame(h.mem, h'.mem, m, h.arenas[m], h.free[m], h.count[m]);
      }
    }
  }

  lemma AllocKeeps(h: Heap, h': Heap, n: nat, ct: Klass, o: Addr)
    requires Inv(h) && AllocStep(h, h', n, ct, o)
    ensures Inv(h')
    ensures o in h.mem && !Live(h, o) && h.mem[o].ct.None?
    ensures Live(h', o) && o !in h'.free[n] && h'.mem[o].ct == Some(ct) && h'.mem[o].fields == []
    ensures forall a | a in h.mem && a != o :: h'.mem[a] == h.mem[a]
  {
    AllocLive(h, h', n, ct, o);
    AllocLists(h, h', n, ct, o);
    AllocTarget(h, n);
    RootReachable(h'.mem, h'.roots, o);
    LiveNotFree(h', o, n);
  }

  lemma MutateLive(h: Heap, h': Heap, o: Addr, fields: seq<Addr>, word: Option<Addr>)
    requires Inv(h) && MutateStep(h, h', o, fields, word)
    ensures forall a | Live(h', a) :: Live(h, a)
  {
    forall r | r in h'.roots ensures Live(h, r) { RootReachable(h.mem, h.roots, r); }
    forall a, b | Live(h, a) && b in Kids(h'.mem, a) ensures Live(h, b) {
      if a != o {
        assert Kids(h'.mem, a) == Kids(h.mem, a);
        KidReachable(h.mem, h.roots, a, b);
      }
    }
    LiveWithin(h', iset a | Live(h, a));
  }

  lemma MutateKeeps(h: Heap, h': Heap, o: Addr, fields: seq<Addr>, word: Option<Addr>)
    requires Inv(h) && MutateStep(h, h', o, fields, word)
    ensures Inv(h')
    ensures forall a | Live(h', a) :: Live(h, a)
  {
    MutateLive(h, h', o, fields, word);
    forall m | 0 <= m < K_ARENA_COUNT ensures ListOk(h'.mem, m, h'.arenas[m], h'.free[m], h'.count[m]) {
      MutateListOk(h, h', o, fields, word, m);
    }
  }

  lemma MutateListOk(h: Heap, h': Heap, o: Addr, fields: seq<Addr>, word: Option<Addr>, m: nat)
    requires Inv(h) && MutateStep(h, h', o, fields, word) && m < K_ARENA_COUNT
    ensures ListOk(h'.mem, m, h'.arenas[m], h'.free[m], h'.count[m])
  {
    assert ListOk(h.mem, m, h.arenas[m], h.free[m], h.count[m]);
    assert o !in h.free[m];
    ChainFrame(h.mem, h'.mem, m, h.free[m]);
  }

  lemma RootKeeps(h: Heap, h': Heap)
    requires Inv(h) && RootStep(h, h')
    ensures Inv(h')
    ensures forall a | Live(h', a) :: Live(h, a)
  {
    forall a, b | Live(h, a) && b in Kids(h'.mem, a) ensures Live(h, b) {
      KidReachable(h.mem, h.roots, a, b);
    }
    LiveWithin(h', iset a | Live(h, a));
  }

  // ---------------------------------------------------------------- runs

  ghost predicate Step(h: Heap, h': Heap) {
    || (exists n, ct, o :: AllocStep(h, h', n, ct, o))
    || (exists o, fields, word :: MutateStep(h, h', o, fields, word))
    || RootStep(h, h')
    || CollectStep(h, h')
  }

  lemma StepKeeps(h: Heap, h': Heap)
    requires Inv(h) && Step(h, h')
    ensures Inv(h')
  {
    if n, ct, o :| AllocStep(h, h', n, ct, o) {
      AllocKeeps(h, h', n, ct, o);
    } else if o, fields, word :| MutateStep(h, h', o, fields, word) {
      MutateKeeps(h, h', o, fields, word);
    } else if RootStep(h, h') {
      RootKeeps(h, h');
    } else {
      CollectKeeps(h, h');
    }
  }

  ghost predicate IsRun(run: seq<Heap>) {
    && run != [] && Initial(run[0])
    && forall i | 0 < i < |run| :: Step(run[i-1], run[i])
  }

  lemma LiveNotFree(h: Heap, a: Addr, n: nat)
    requires Inv(h) && Live(h, a) && n < K_ARENA_COUNT
    ensures a !in h.free[n]
  {
    assert ListOk(h.mem, n, h.arenas[n], h.free[n], h.count[n]);
  }

  /** No field of a live object refers to a free slot. */
  ghost predicate FieldsAllocated(h: Heap) {
    forall a, f {:trigger Live(h, a), f in h.mem[a].fields} | Live(h, a) && a in h.mem && f in h.mem[a].fields ::
      Live(h, f) && f in h.mem && h.mem[f].ct.Some? && forall n | 0 <= n < |h.free| :: f !in h.free[n]
  }

  lemma FieldsAreAllocated(h: Heap)
    requires Inv(h)
    ensures FieldsAllocated(h)
  {
    forall a, f | Live(h, a) && a in h.mem && f in h.mem[a].fields
      ensures Live(h, f) && f in h.mem && h.mem[f].ct.Some? && forall n | 0 <= n < |h.free| :: f !in h.free[n]
    {
      KidReachable(h.mem, h.roots, a, f);
      forall n | 0 <= n < |h.free| ensures f !in h.free[n] { LiveNotFree(h, f, n); }
    }
  }

  /** Safety over whole runs: every state satisfies the invariant, no live object is on a free
      list, and no field of a live object refers to a free slot. */
  lemma {:induction false} RunsAreSafe(run: seq<Heap>, i: nat)
    requires IsRun(run) && i < |run|
    ensures Inv(run[i])
    ensures forall a, n | Live(run[i], a) && 0 <= n < K_ARENA_COUNT :: a !in run[i].free[n]
    ensures FieldsAllocated(run[i])
  {
    if i == 0 {
      InitialInv(run[0]);
    } else {
      RunsAreSafe(run, i - 1);
      StepKeeps(run[i-1], run[i]);
    }
    forall a, n | Live(run[i], a) && 0 <= n < K_ARENA_COUNT ensures a !in run[i].free[n] {
      LiveNotFree(run[i], a, n);
    }
    FieldsAreAllocated(run[i]);
  }

  // ---------------------------------------------------------------- conservation of slots

  function ToSet(list: seq<Addr>): set<Addr> {
    set a | a in list
  }

  lemma {:induction false} DistinctCard(list: seq<Addr>)
    requires Distinct(list)
    ensures |ToSet(list)| == |list|
  {
    if list != [] {
      var rest := list[..|list|-1];
      DistinctCard(rest);
      assert ToSet(list) == ToSet(rest) + {list[|list|-1]};
    }
  }

  /** All slots of class n in that many arenas. */
  function ClassSlots(n: nat, arenas: nat): set<Addr>
    requires n < K_ARENA_COUNT
  {
    set r, p, s | 0 <= r < arenas && 0 <= p < PAGES && 0 <= s < SlotsPerPage(n) :: Addr(n, r, p, s)
  }

  lemma ArenaCard(n: nat, r: nat)
    requires n < K_ARENA_COUNT
    ensures |ArenaAddrs(n, r)| == PageSlots(n, PAGES)
  {
    var k := PageSlots(n, PAGES);
    BlockDistinct(n, r, k);
    DistinctCard(Block(n, r, k));
    forall a ensures a in ArenaAddrs(n, r) <==> a in Block(n, r, k) {
      BlockHolds(n, r, k, a);
    }
    assert ArenaAddrs(n, r) == ToSet(Block(n, r, k));
  }

  lemma {:induction false} ClassCard(n: nat, arenas: nat)
    requires n < K_ARENA_COUNT
    ensures |ClassSlots(n, arenas)| == TotalSlots(n, arenas)
  {
    if arenas == 0 {
      assert ClassSlots(n, 0) == {};
    } else {
      ClassCard(n, arenas - 1);
      ArenaCard(n, arenas - 1);
      assert ClassSlots(n, arenas) == ClassSlots(n, arenas - 1) + ArenaAddrs(n, arenas - 1);
      assert ClassSlots(n, arenas - 1) !! ArenaAddrs(n, arenas - 1);
    }
  }

  function StrandedSet(n: nat, arenas: nat): set<Addr>
    requires n < K_ARENA_COUNT
  {
    set a | a in ClassSlots(n, arenas) && Stranded(a)
  }

  /** The tail of the page that a splice cuts off. */
  function CutOff(n: nat, r: nat): seq<Addr>
    requires n < K_ARENA_COUNT
  {
    seq(SlotsPerPage(n) - 1, i requires 0 <= i => Addr(n, r, PAGES - 1, i + 1))
  }

  lemma CutOffCard(n: nat, r: nat)
    requires n < K_ARENA_COUNT
    ensures |ToSet(CutOff(n, r))| == SlotsPerPage(n) - 1
    ensures forall a :: a in ToSet(CutOff(n, r)) <==>
              a.cls == n && a.arena == r && a.page == PAGES - 1 && 0 < a.slot < SlotsPerPage(n)
  {
    var cut := CutOff(n, r);
    DistinctCard(cut);
    forall a: Addr | a.cls == n && a.arena == r && a.page == PAGES - 1 && 0 < a.slot < SlotsPerPage(n)
      ensures a in cut
    {
      assert cut[a.slot-1] == a;
    }
  }

  lemma StrandedStep(n: nat, r: nat)
    requires n < K_ARENA_COUNT && r >= 1
    ensures StrandedSet(n, r + 1) == StrandedSet(n, r) + ToSet(CutOff(n, r))
    ensures StrandedSet(n, r) !! ToSet(CutOff(n, r))
  {
    CutOffCard(n, r);
    forall a ensures a in StrandedSet(n, r + 1) <==> a in StrandedSet(n, r) || a in ToSet(CutOff(n, r)) {
      assert a in ClassSlots(n, r + 1) <==> a in ClassSlots(n, r) || a in ArenaAddrs(n, r);
    }
  }

  lemma UnionCard<T>(s: set<T>, t: set<T>)
    requires s !! t
    ensures |s + t| == |s| + |t|
  {
  }

  lemma NoneStranded(n: nat)
    requires n < K_ARENA_COUNT
    ensures StrandedSet(n, 1) == {} && StrandedSlots(n, 1) == 0
  {
  }

  lemma StrandedGrows(n: nat, r: nat)
    requires n < K_ARENA_COUNT && r >= 1
    ensures |StrandedSet(n, r + 1)| == |StrandedSet(n, r)| + (SlotsPerPage(n) - 1)
  {
    StrandedStep(n, r);
    CutOffCard(n, r);
    UnionCard(StrandedSet(n, r), ToSet(CutOff(n, r)));
  }

  lemma {:induction false} StrandedCard(n: nat, arenas: nat)
    requires n < K_ARENA_COUNT && arenas >= 1
    ensures |StrandedSet(n, arenas)| == StrandedSlots(n, arenas)
  {
    if arenas == 1 {
      NoneStranded(n);
    } else {
      StrandedCard(n, arenas - 1);
      StrandedGrows(n, arenas - 1);
      StrandedMore(n, arenas - 1);
    }
  }

  function Allocated(h: Heap, n: nat): set<Addr> {
    set a | a in h.mem && a.cls == n && h.mem[a].ct.Some?
  }

  /** Every slot of a class is allocated, on the free list or stranded, and only one of these. */
  lemma Partition(h: Heap, n: nat)
    requires Inv(h) && n < K_ARENA_COUNT
    ensures ClassSlots(n, h.arenas[n]) == Allocated(h, n) + ToSet(h.free[n]) + StrandedSet(n, h.arenas[n])
    ensures Allocated(h, n) !! ToSet(h.free[n]) !! StrandedSet(n, h.arenas[n])
  {
    assert ListOk(h.mem, n, h.arenas[n], h.free[n], h.count[n]);
    forall a ensures a in ClassSlots(n, h.arenas[n]) <==> a in h.mem && a.cls == n {
      assert a in h.mem <==> InArenas(h.arenas, a);
    }
  }

  /** Slots are conserved: freeObjectListSize is the number of slots that hold no object. */
  lemma Conservation(h: Heap, n: nat)
    requires Inv(h) && n < K_ARENA_COUNT
    ensures |Allocated(h, n)| + h.count[n] == TotalSlots(n, h.arenas[n])
    ensures |Allocated(h, n)| + |h.free[n]| + StrandedSlots(n, h.arenas[n]) == TotalSlots(n, h.arenas[n])
    ensures 0 <= |h.free[n]| <= h.count[n]
  {
    Partition(h, n);
    ClassCard(n, h.arenas[n]);
    StrandedCard(n, h.arenas[n]);
    assert ListOk(h.mem, n, h.arenas[n], h.free[n], h.count[n]);
    DistinctCard(h.free[n]);
  }
}
