/**
  The memory of the mark-sweep collector (module/msgc/msgc.c) as a value: slots
  grouped in arenas of pages, one group for each of the three object sizes, the
  free list threaded through the empty slots, and the references that the
  runtime traces.  The class in Msgc.dfy changes this state in place; here are
  its invariant and the facts about it.
 */
module ObjectHeap {

  import opened Options

  const K_PAGESIZE: nat := 4096
  const OBJECT_SIZE: nat := 64
  const K_ARENASIZE: nat := OBJECT_SIZE * K_PAGESIZE * 16
  const K_ARENA_COUNT: nat := 3
  const PAGES: nat := 1024

  /** The size in bytes of a slot of size class n. */
  function SlotSize(n: nat): nat
    requires n < K_ARENA_COUNT
  {
    if n == 0 then 64 else if n == 1 then 128 else 256
  }

  /** K_PAGEOBJECTSIZE(n) */
  function SlotsPerPage(n: nat): nat
    requires n < K_ARENA_COUNT
  {
    if n == 0 then 64 else if n == 1 then 32 else 16
  }

  /** The number of slots in the given number of pages of size class n. */
  function PageSlots(n: nat, pages: nat): nat
    requires n < K_ARENA_COUNT
  {
    if n == 0 then 64 * pages else if n == 1 then 32 * pages else 16 * pages
  }

  /** The number of slots in the given number of arenas of size class n. */
  function TotalSlots(n: nat, arenas: nat): nat
    requires n < K_ARENA_COUNT
  {
    if n == 0 then 65536 * arenas else if n == 1 then 32768 * arenas else 16384 * arenas
  }

  /** The number of stranded slots in that many arenas (see `Stranded`). */
  function StrandedSlots(n: nat, arenas: nat): int
    requires n < K_ARENA_COUNT
  {
    if n == 0 then 63 * (arenas - 1) else if n == 1 then 31 * (arenas - 1) else 15 * (arenas - 1)
  }

  /** The numbers are those of the source: pages and arenas are filled exactly. */
  lemma SizesFit(n: nat, arenas: nat)
    requires n < K_ARENA_COUNT
    ensures PageSlots(n, arenas) == arenas * SlotsPerPage(n)
    ensures TotalSlots(n, arenas) == arenas * PAGES * SlotsPerPage(n)
    ensures StrandedSlots(n, arenas) == (SlotsPerPage(n) - 1) * (arenas - 1)
    ensures SlotSize(n) == OBJECT_SIZE * (if n == 0 then 1 else if n == 1 then 2 else 4)
    ensures SlotsPerPage(n) == K_PAGESIZE / SlotSize(n) && SlotsPerPage(n) * SlotSize(n) == K_PAGESIZE
    ensures PAGES * K_PAGESIZE == K_ARENASIZE
  {
  }

  /** The address of a slot: size class, arena, page in the arena, slot in the page. */
  datatype Addr = Addr(cls: nat, arena: nat, page: nat, slot: nat)

  /** A class; `structSize` is its cstruct_size. */
  datatype Klass = Klass(id: nat, structSize: nat)

  /** One slot.  `ct` is the class word (NULL in an empty slot), `refc` the mark
      word, `ref` the first word of the body, which is the free-list link while
      the slot is empty and belongs to the object otherwise, and `fields` what
      tracing the object enumerates. */
  datatype Slot = Slot(ct: Option<Klass>, refc: nat, ref: Option<Addr>, fields: seq<Addr>)

  const ZeroSlot := Slot(None, 0, None, [])

  type Memory = map<Addr, Slot>

  /** The state shared by allocator, collector and mutator.  `free[n]` is the
      list that starts at freeObjectList[n], `count[n]` is freeObjectListSize[n],
      `arenas[n]` is sizeObjectArenaTBL[n]; `roots` is what tracing the
      runtime's roots enumerates. */
  datatype Heap = Heap(mem: Memory, arenas: seq<nat>, free: seq<seq<Addr>>, count: seq<int>, roots: seq<Addr>)

  predicate InArenas(arenas: seq<nat>, a: Addr)
    requires |arenas| == K_ARENA_COUNT
  {
    a.cls < K_ARENA_COUNT && a.arena < arenas[a.cls] && a.page < PAGES && a.slot < SlotsPerPage(a.cls)
  }

  /** s' is s with at most entry n changed. */
  predicate SetsOnly<T(==)>(s: seq<T>, s': seq<T>, n: nat) {
    n < |s| == |s'| && forall m | 0 <= m < |s| && m != n :: s'[m] == s[m]
  }

  // ---------------------------------------------------------------- reachability

  /** What tracing object a enumerates; empty slots are never traced. */
  function Kids(mem: Memory, a: Addr): seq<Addr> {
    if a in mem && mem[a].ct.Some? then mem[a].fields else []
  }

  ghost predicate IsPath(mem: Memory, roots: seq<Addr>, p: seq<Addr>) {
    if |p| == 0 then false
    else if |p| == 1 then p[0] in roots
    else IsPath(mem, roots, p[..|p|-1]) && p[|p|-1] in Kids(mem, p[|p|-2])
  }

  ghost predicate PathTo(mem: Memory, roots: seq<Addr>, p: seq<Addr>, a: Addr) {
    IsPath(mem, roots, p) && p[|p|-1] == a
  }

  ghost predicate Reachable(mem: Memory, roots: seq<Addr>, a: Addr) {
    exists p :: PathTo(mem, roots, p, a)
  }

  lemma RootReachable(mem: Memory, roots: seq<Addr>, a: Addr)
    requires a in roots
    ensures Reachable(mem, roots, a)
  {
    assert PathTo(mem, roots, [a], a);
  }

  lemma KidReachable(mem: Memory, roots: seq<Addr>, a: Addr, b: Addr)
    requires Reachable(mem, roots, a) && b in Kids(mem, a)
    ensures Reachable(mem, roots, b)
  {
    var p :| PathTo(mem, roots, p, a);
    assert (p + [b])[..|p|] == p;
    assert PathTo(mem, roots, p + [b], b);
  }

  /** A set that holds the roots and is closed under tracing holds every reachable object. */
  lemma {:induction false} PathInClosedSet(mem: Memory, roots: seq<Addr>, s: set<Addr>, p: seq<Addr>)
    requires forall r | r in roots :: r in s
    requires forall a, b | a in s && b in Kids(mem, a) :: b in s
    requires IsPath(mem, roots, p)
    ensures p[|p|-1] in s
  {
    if |p| > 1 {
      PathInClosedSet(mem, roots, s, p[..|p|-1]);
    }
  }

  lemma ClosedSetHoldsReachable(mem: Memory, roots: seq<Addr>, s: set<Addr>)
    requires forall r | r in roots :: r in s
    requires forall a, b | a in s && b in Kids(mem, a) :: b in s
    ensures forall a | Reachable(mem, roots, a) :: a in s
  {
    forall a | Reachable(mem, roots, a) ensures a in s {
      var p :| PathTo(mem, roots, p, a);
      PathInClosedSet(mem, roots, s, p);
    }
  }

  /** s holds the roots, and with an object everything that its fields refer to. */
  ghost predicate Closed(mem: Memory, roots: seq<Addr>, s: iset<Addr>) {
    && (forall r | r in roots :: r in s)
    && forall a, f | a in s && a in mem && mem[a].ct.Some? && f in mem[a].fields :: f in s
  }

  /** In words of roots and fields: the reachable objects are the least such set. */
  lemma ReachableIsLeast(mem: Memory, roots: seq<Addr>)
    ensures Closed(mem, roots, iset a | Reachable(mem, roots, a))
    ensures forall s | Closed(mem, roots, s) :: forall a | Reachable(mem, roots, a) :: a in s
  {
    forall r | r in roots ensures Reachable(mem, roots, r) { RootReachable(mem, roots, r); }
    forall a, f | Reachable(mem, roots, a) && a in mem && mem[a].ct.Some? && f in mem[a].fields
      ensures Reachable(mem, roots, f)
    {
      KidReachable(mem, roots, a, f);
    }
    forall s, a | Closed(mem, roots, s) && Reachable(mem, roots, a) ensures a in s {
      var p :| PathTo(mem, roots, p, a);
      PathInClosed(mem, roots, s, p);
    }
  }

  lemma {:induction false} PathInClosed(mem: Memory, roots: seq<Addr>, s: iset<Addr>, p: seq<Addr>)
    requires Closed(mem, roots, s) && IsPath(mem, roots, p)
    ensures p[|p|-1] in s
  {
    if |p| > 1 {
      PathInClosed(mem, roots, s, p[..|p|-1]);
    }
  }

  /** Two memories in which every object reachable in the first has the same
      references, from the same roots. */
  ghost predicate SameGraph(mem: Memory, mem': Memory, roots: seq<Addr>) {
    forall a | Reachable(mem, roots, a) :: Kids(mem', a) == Kids(mem, a)
  }

  lemma {:induction false} PathKept(mem: Memory, mem': Memory, roots: seq<Addr>, p: seq<Addr>)
    requires SameGraph(mem, mem', roots) && IsPath(mem, roots, p)
    ensures IsPath(mem', roots, p)
  {
    if |p| > 1 {
      var q := p[..|p|-1];
      PathKept(mem, mem', roots, q);
      assert PathTo(mem, roots, q, q[|q|-1]) && Reachable(mem, roots, q[|q|-1]);
    }
  }

  lemma {:induction false} NoNewPath(mem: Memory, mem': Memory, roots: seq<Addr>, p: seq<Addr>)
    requires SameGraph(mem, mem', roots) && IsPath(mem', roots, p)
    ensures IsPath(mem, roots, p)
  {
    if |p| > 1 {
      var q := p[..|p|-1];
      NoNewPath(mem, mem', roots, q);
      assert PathTo(mem, roots, q, q[|q|-1]) && Reachable(mem, roots, q[|q|-1]);
    }
  }

  lemma SameGraphReach(mem: Memory, mem': Memory, roots: seq<Addr>)
    requires SameGraph(mem, mem', roots)
    ensures forall a :: Reachable(mem, roots, a) <==> Reachable(mem', roots, a)
  {
    forall a | Reachable(mem, roots, a) ensures Reachable(mem', roots, a) {
      var p :| PathTo(mem, roots, p, a);
      PathKept(mem, mem', roots, p);
      assert PathTo(mem', roots, p, a);
    }
    forall a | Reachable(mem', roots, a) ensures Reachable(mem, roots, a) {
      var p :| PathTo(mem', roots, p, a);
      NoNewPath(mem, mem', roots, p);
      assert PathTo(mem, roots, p, a);
    }
  }

  // ---------------------------------------------------------------- free lists

  function Head(list: seq<Addr>): Option<Addr> {
    if list == [] then None else Some(list[0])
  }

  /** The slot after position k, NULL at the end of the list. */
  function Next(list: seq<Addr>, k: nat): Option<Addr> {
    if k + 1 < |list| then Some(list[k+1]) else None
  }

  ghost predicate Distinct(list: seq<Addr>) {
    forall i, j | 0 <= i < j < |list| :: list[i] != list[j]
  }

  /** The links from the first slot of `list` lead through exactly its slots, all
      empty and of size class n, and end in NULL. */
  ghost predicate FreeChain(mem: Memory, n: nat, list: seq<Addr>) {
    && Distinct(list)
    && forall k | 0 <= k < |list| ::
         && list[k] in mem && list[k].cls == n && mem[list[k]].ct.None?
         && mem[list[k]].ref == Next(list, k)
  }

  /** The slots that gc_extendObjectArena cuts off: in every arena but the first, the
      last page without its first slot. */
  predicate Stranded(a: Addr) {
    a.arena > 0 && a.page == PAGES - 1 && a.slot > 0
  }

  /** Size class n: the free list is a proper list, an empty slot is on it or
      stranded but not both, and the counter is off by the stranded slots. */
  ghost predicate ListOk(mem: Memory, n: nat, arenas: nat, list: seq<Addr>, count: int)
    requires n < K_ARENA_COUNT
  {
    && FreeChain(mem, n, list)
    && (forall a {:trigger a in mem} {:trigger a in list} | a in mem && a.cls == n ::
      mem[a].ct.None? <==> (a in list || Stranded(a)))
    && (forall a {:trigger a in list} | a in list :: !Stranded(a))
    && count == |list| + StrandedSlots(n, arenas)
  }

  ghost predicate Shape(h: Heap) {
    && |h.arenas| == |h.free| == |h.count| == K_ARENA_COUNT
    && (forall n | 0 <= n < K_ARENA_COUNT :: h.arenas[n] >= 1)
    && (forall a :: a in h.mem <==> InArenas(h.arenas, a))
  }

  ghost predicate Lists(h: Heap)
    requires Shape(h)
  {
    forall n {:trigger ListOk(h.mem, n, h.arenas[n], h.free[n], h.count[n])} | 0 <= n < K_ARENA_COUNT ::
      ListOk(h.mem, n, h.arenas[n], h.free[n], h.count[n])
  }

  /** Every object has the size of its slot. */
  ghost predicate Sized(mem: Memory) {
    forall a {:trigger a in mem} | a in mem && mem[a].ct.Some? ::
      a.cls < K_ARENA_COUNT && mem[a].ct.value.structSize == SlotSize(a.cls)
  }

  ghost predicate Live(h: Heap, a: Addr) {
    Reachable(h.mem, h.roots, a)
  }

  /** No reachable reference leads to an empty slot. */
  ghost predicate NoDangling(h: Heap) {
    forall a | Live(h, a) :: a in h.mem && h.mem[a].ct.Some?
  }

  ghost predicate Unmarked(mem: Memory) {
    forall a | a in mem :: mem[a].refc == 0
  }

  /** The invariant between any two operations. */
  ghost predicate Inv(h: Heap) {
    && Shape(h) && Lists(h) && Sized(h.mem) && Unmarked(h.mem) && NoDangling(h)
  }

  // ---------------------------------------------------------------- marking

  /** The memory with mark words set on exactly the slots satisfying `marked`. */
  function WithMarks(mem: Memory, marks: set<Addr>): Memory {
    map a | a in mem :: mem[a].(refc := if a in marks then 1 else 0)
  }

  /** The state in the middle of a collection: classes below k are swept, in the
      others exactly the live objects are marked. */
  ghost predicate Sweeping(h: Heap, k: nat) {
    && Shape(h) && Lists(h) && Sized(h.mem) && NoDangling(h)
    && (forall a {:trigger a in h.mem} | a in h.mem && a.cls < k ::
      h.mem[a].refc == 0 && (h.mem[a].ct.Some? ==> Live(h, a)))
    && (forall a {:trigger a in h.mem} | a in h.mem && a.cls >= k :: h.mem[a].refc == if Live(h, a) then 1 else 0)
  }

  /** ListOk depends only on the class and link words of the slots of its class. */
  lemma ListFrame(mem: Memory, mem': Memory, n: nat, arenas: nat, list: seq<Addr>, count: int)
    requires n < K_ARENA_COUNT && ListOk(mem, n, arenas, list, count)
    requires forall a | a in mem' && a.cls == n :: a in mem
    requires forall a | a in mem && a.cls == n :: a in mem' && mem'[a].ct == mem[a].ct && mem'[a].ref == mem[a].ref
    ensures ListOk(mem', n, arenas, list, count)
  {
  }

  lemma MarkedSameLive(h: Heap, marks: set<Addr>)
    requires NoDangling(h)
    ensures forall a :: Live(h, a) <==> Live(h.(mem := WithMarks(h.mem, marks)), a)
  {
    var mem' := WithMarks(h.mem, marks);
    forall a ensures Kids(mem', a) == Kids(h.mem, a) {
    }
    SameGraphReach(h.mem, mem', h.roots);
  }

  lemma MarkedLists(h: Heap, marks: set<Addr>)
    requires Shape(h) && Lists(h)
    ensures Lists(h.(mem := WithMarks(h.mem, marks)))
  {
    var mem' := WithMarks(h.mem, marks);
    forall n | 0 <= n < K_ARENA_COUNT
      ensures ListOk(mem', n, h.arenas[n], h.free[n], h.count[n])
    {
      ListFrame(h.mem, mem', n, h.arenas[n], h.free[n], h.count[n]);
    }
  }

  lemma MarkedIsSweeping(h: Heap, live: set<Addr>)
    requires Inv(h)
    requires forall a :: a in live <==> Live(h, a)
    ensures Sweeping(h.(mem := WithMarks(h.mem, live)), 0)
  {
    MarkedSameLive(h, live);
    MarkedLists(h, live);
  }

  lemma SweptIsInv(h: Heap)
    requires Sweeping(h, K_ARENA_COUNT)
    ensures Inv(h)
    ensures forall a | a in h.mem :: h.mem[a].ct.Some? <==> Live(h, a)
  {
  }

  // ---------------------------------------------------------------- sweeping

  predicate Garbage(s: Slot) {
    s.refc != 1 && s.ct.Some?
  }

  /** The effect of one iteration of sweep0 on the slot at a. */
  function SweepOne(h: Heap, a: Addr): Heap
    requires |h.free| == |h.count| == K_ARENA_COUNT && a.cls < K_ARENA_COUNT && a in h.mem
  {
    var n := a.cls;
    if Garbage(h.mem[a]) then
      h.(mem := h.mem[a := Slot(None, 0, Head(h.free[n]), [])],
         free := h.free[n := [a] + h.free[n]], count := h.count[n := h.count[n] + 1])
    else
      h.(mem := h.mem[a := h.mem[a].(refc := 0)])
  }

  /** What sweeping makes of a slot, up to the link of one that it frees. */
  predicate SweptSlot(s: Slot, s': Slot) {
    if Garbage(s) then s'.ct.None? && s'.refc == 0 else s' == s.(refc := 0)
  }

  ghost predicate SweptSlots(mem0: Memory, mem: Memory, done: set<Addr>) {
    && mem.Keys == mem0.Keys
    && forall a | a in mem0 :: if a in done then SweptSlot(mem0[a], mem[a]) else mem[a] == mem0[a]
  }

  /** `freed` lists exactly the garbage in `done`. */
  ghost predicate Frees(mem0: Memory, done: set<Addr>, freed: seq<Addr>) {
    forall a :: a in freed <==> a in done && a in mem0 && Garbage(mem0[a])
  }

  /** h's list of class n is h0's with `freed` in front, and the counter went along. */
  ghost predicate Pushed(h0: Heap, h: Heap, n: nat, freed: seq<Addr>) {
    && h.roots == h0.roots && h.arenas == h0.arenas
    && SetsOnly(h0.free, h.free, n) && h.free[n] == freed + h0.free[n]
    && SetsOnly(h0.count, h.count, n) && h.count[n] == h0.count[n] + |freed|
  }

  /** h is h0 after sweeping the slots in `done`, all of size class n, which put
      the slots `freed` in front of the free list. */
  ghost predicate SweptPart(h0: Heap, h: Heap, n: nat, done: set<Addr>, freed: seq<Addr>)
    requires Shape(h0) && n < K_ARENA_COUNT
  {
    && Pushed(h0, h, n, freed)
    && (forall a {:trigger a in done} | a in done :: a in h0.mem && a.cls == n)
    && SweptSlots(h0.mem, h.mem, done)
    && Frees(h0.mem, done, freed)
    && FreeChain(h.mem, n, h.free[n])
  }

  /** FREELIST_PUSH of an address that is not on the list. */
  lemma PushKeepsChain(mem: Memory, n: nat, list: seq<Addr>, a: Addr)
    requires FreeChain(mem, n, list) && a in mem && a.cls == n && a !in list
    ensures FreeChain(mem[a := Slot(None, 0, Head(list), [])], n, [a] + list)
  {
    var mem', list' := mem[a := Slot(None, 0, Head(list), [])], [a] + list;
    forall k | 0 <= k < |list'|
      ensures list'[k] in mem' && list'[k].cls == n && mem'[list'[k]].ct.None?
      ensures mem'[list'[k]].ref == Next(list', k)
    {
      if k > 0 {
        assert list'[k] == list[k-1] && list[k-1] in list && Next(list', k) == Next(list, k - 1);
      }
    }
  }

  lemma ChainFrame(mem: Memory, mem': Memory, n: nat, list: seq<Addr>)
    requires FreeChain(mem, n, list)
    requires forall a | a in list :: a in mem' && mem'[a].ct == mem[a].ct && mem'[a].ref == mem[a].ref
    ensures FreeChain(mem', n, list)
  {
  }

  lemma SweepOneKeepsSlots(mem0: Memory, mem: Memory, done: set<Addr>, freed: seq<Addr>, a: Addr, s: Slot)
    requires SweptSlots(mem0, mem, done) && Frees(mem0, done, freed)
    requires a in mem0 && a !in done && SweptSlot(mem0[a], s)
    ensures SweptSlots(mem0, mem[a := s], done + {a})
    ensures Frees(mem0, done + {a}, if Garbage(mem0[a]) then [a] + freed else freed)
  {
  }

  lemma SweepOneKeepsChain(h: Heap, a: Addr)
    requires |h.free| == |h.count| == K_ARENA_COUNT && a.cls < K_ARENA_COUNT && a in h.mem
    requires FreeChain(h.mem, a.cls, h.free[a.cls])
    ensures FreeChain(SweepOne(h, a).mem, a.cls, SweepOne(h, a).free[a.cls])
    ensures Pushed(h, SweepOne(h, a), a.cls, if Garbage(h.mem[a]) then [a] else [])
  {
    if Garbage(h.mem[a]) {
      PushKeepsChain(h.mem, a.cls, h.free[a.cls], a);
    } else {
      ChainFrame(h.mem, SweepOne(h, a).mem, a.cls, h.free[a.cls]);
    }
  }

  lemma PushedTwice(h0: Heap, h1: Heap, h2: Heap, n: nat, freed: seq<Addr>, more: seq<Addr>)
    requires Pushed(h0, h1, n, freed) && Pushed(h1, h2, n, more)
    ensures Pushed(h0, h2, n, more + freed)
  {
    assert more + (freed + h0.free[n]) == (more + freed) + h0.free[n];
  }

  lemma SweepOneKeeps(h0: Heap, h: Heap, n: nat, done: set<Addr>, freed: seq<Addr>, a: Addr)
    requires Shape(h0) && n < K_ARENA_COUNT && SweptPart(h0, h, n, done, freed)
    requires a in h0.mem && a.cls == n && a !in done
    ensures SweptPart(h0, SweepOne(h, a), n, done + {a}, if Garbage(h0.mem[a]) then [a] + freed else freed)
  {
    var more := if Garbage(h0.mem[a]) then [a] else [];
    assert more + freed == if Garbage(h0.mem[a]) then [a] + freed else freed;
    SweepOneKeepsSlots(h0.mem, h.mem, done, freed, a, SweepOne(h, a).mem[a]);
    SweepOneKeepsChain(h, a);
    PushedTwice(h0, h, SweepOne(h, a), n, freed, more);
  }

  /** Sweeping class n leaves the objects that were marked as they were. */
  lemma SweepKeepsLive(h0: Heap, h: Heap, n: nat, done: set<Addr>, freed: seq<Addr>)
    requires n < K_ARENA_COUNT && Sweeping(h0, n) && SweptPart(h0, h, n, done, freed)
    ensures forall a | Live(h0, a) :: h.mem[a] == h0.mem[a].(refc := h.mem[a].refc)
    ensures forall a :: Live(h0, a) <==> Live(h, a)
    ensures NoDangling(h)
  {
    forall a | Live(h0, a)
      ensures h.mem[a] == h0.mem[a].(refc := h.mem[a].refc) && Kids(h.mem, a) == Kids(h0.mem, a)
    {
      assert a in h0.mem && (a in done ==> !Garbage(h0.mem[a]));
    }
    SameGraphReach(h0.mem, h.mem, h0.roots);
    forall a | Live(h, a) ensures a in h.mem && h.mem[a].ct.Some? {
      assert Live(h0, a);
    }
  }

  lemma SweepKeepsLists(h0: Heap, h: Heap, n: nat, done: set<Addr>, freed: seq<Addr>)
    requires n < K_ARENA_COUNT && Shape(h0) && Lists(h0) && SweptPart(h0, h, n, done, freed)
    ensures Shape(h) && Lists(h)
  {
    forall m | 0 <= m < K_ARENA_COUNT
      ensures ListOk(h.mem, m, h.arenas[m], h.free[m], h.count[m])
    {
      var list0, list := h0.free[m], h.free[m];
      assert ListOk(h0.mem, m, h0.arenas[m], list0, h0.count[m]);
      if m != n {
        assert FreeChain(h.mem, m, list);
      } else {
        assert list == freed + list0;
        assert forall a :: a in list <==> a in freed || a in list0;
        forall a | a in freed ensures !Stranded(a) {
          assert Garbage(h0.mem[a]);
        }
      }
    }
  }

  lemma SweepKeeps(h0: Heap, h: Heap, n: nat, done: set<Addr>, freed: seq<Addr>)
    requires n < K_ARENA_COUNT && Sweeping(h0, n) && SweptPart(h0, h, n, done, freed)
    requires forall a | a in h0.mem && a.cls == n :: a in done
    ensures Sweeping(h, n + 1)
  {
    SweepKeepsLive(h0, h, n, done, freed);
    SweepKeepsLists(h0, h, n, done, freed);
    forall a | a in h.mem
      ensures a.cls < n + 1 ==> h.mem[a].refc == 0 && (h.mem[a].ct.Some? ==> Live(h, a))
      ensures a.cls >= n + 1 ==> h.mem[a].refc == if Live(h, a) then 1 else 0
    {
      assert a in h0.mem;
      assert a in done <==> a.cls == n;
      assert Live(h0, a) <==> Live(h, a);
    }
  }
}
