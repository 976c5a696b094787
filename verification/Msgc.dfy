/**
  The collector and allocator of module/msgc/msgc.c.  Each method changes the
  memory in place as the source does and is tied to the steps of HeapSteps and
  HeapRuns.  The source writes every routine three times, once for each size of
  slot; here n is that size class.
 */
module Msgc {
  import opened Options
  import opened ObjectHeap
  import opened HeapSteps
  import opened HeapRuns
  import opened MarkStacks
  import opened Powers

  const K_ARENATBL_INITSIZE: nat := 32

  /** size64: the least OBJECT_SIZE * 2^k that is at least s. */
  method Size64(s: nat) returns (base: nat, ghost k: nat)
    ensures base == OBJECT_SIZE * Pow2(k)
    ensures s <= base
    ensures k > 0 ==> OBJECT_SIZE * Pow2(k - 1) < s
  {
    base, k := OBJECT_SIZE, 0;
    while base < s
      invariant base == OBJECT_SIZE * Pow2(k)
      invariant k > 0 ==> OBJECT_SIZE * Pow2(k - 1) < s
      decreases s - base
    {
      base := base * 2;
      k := k + 1;
    }
  }

  /** The size class that MODGC_omalloc derives from a size (64 is OBJECT_SIZE). */
  function SizeClass(size: nat): nat {
    size / 64 / 2
  }

  /** A size made by size64 gets a slot of exactly that size as long as it is at most
      256 bytes; from 512 bytes on, the index is past the end of the tables. */
  lemma {:induction false} SizeClassFits(k: nat)
    ensures SizeClass(OBJECT_SIZE * Pow2(k)) < K_ARENA_COUNT <==> OBJECT_SIZE * Pow2(k) <= 256
    ensures OBJECT_SIZE * Pow2(k) <= 256 ==> SlotSize(SizeClass(OBJECT_SIZE * Pow2(k))) == OBJECT_SIZE * Pow2(k)
  {
    if k >= 3 {
      PowGrows(3, k);
      assert Pow2(3) == 8;
    } else {
      assert Pow2(0) == 1 && Pow2(1) == 2 && Pow2(2) == 4;
    }
  }

  /** The sizes that fit the slot of their class: 192, say, gets a slot of 128 bytes. */
  lemma FitsItsClass(size: nat)
    ensures SizeClass(size) < K_ARENA_COUNT && size <= SlotSize(SizeClass(size))
      <==> size <= 64 || size == 128 || size == 256
  {
  }

  /** The least set that holds the roots and all that the fields of its objects refer to. */
  ghost predicate IsLeastClosed(h: Heap, live: set<Addr>) {
    && (forall r | r in h.roots :: r in live)
    && (forall a, f | a in live && a in h.mem && f in h.mem[a].fields :: f in live)
    && (forall s: set<Addr> | Closed(h.mem, h.roots, iset a | a in s) :: live <= s)
  }

  lemma LiveIsLeastClosed(h: Heap, live: set<Addr>)
    requires LiveSet(h, live) && NoDangling(h)
    ensures IsLeastClosed(h, live)
  {
    ReachableIsLeast(h.mem, h.roots);
    var reached := iset a | Reachable(h.mem, h.roots, a);
    forall r | r in h.roots ensures r in live { assert r in reached; }
    forall a, f | a in live && a in h.mem && f in h.mem[a].fields ensures f in live {
      assert a in reached && f in reached;
    }
  }

  /** The buffer kept for the next mark stack, when there is one. */
  ghost predicate QueueFits(capacity: nat, log2: nat, length: nat) {
    capacity > 0 ==> capacity == Pow2(log2) - 1 && length == capacity + 1
  }

  /** The tables have an entry for each class, no arena table is over-full, and the
      heads are those of the lists. */
  ghost predicate TablesFit(size: seq<nat>, capacity: seq<nat>, heads: seq<Option<Addr>>, count: seq<int>,
      free: seq<seq<Addr>>) {
    && |size| == |capacity| == |heads| == |count| == |free| == K_ARENA_COUNT
    && (forall n | 0 <= n < K_ARENA_COUNT :: heads[n] == Head(free[n]))
    && (forall n | 0 <= n < K_ARENA_COUNT :: capacity[n] > 0 && size[n] <= capacity[n])
  }

  class Collector {
    var mem: Memory
    var roots: seq<Addr>

    // memshare: the arena tables
    var sizeObjectArenaTBL: seq<nat>
    var capacityObjectArenaTBL: seq<nat>

    // memlocal: the free lists and the buffer of the mark stack
    var freeObjectList: seq<Option<Addr>>
    var freeObjectListSize: seq<int>
    var queue: array<Addr>
    var queueCapacity: nat
    var queueLog2: nat

    var marked: nat

    /** The slots on each free list, first to last. */
    ghost var free: seq<seq<Addr>>

    ghost function Abs(): Heap
      reads this
    {
      Heap(mem, sizeObjectArenaTBL, free, freeObjectListSize, roots)
    }

    ghost predicate QueueOk()
      reads this
    {
      QueueFits(queueCapacity, queueLog2, queue.Length)
    }

    ghost predicate Tables()
      reads this
    {
      TablesFit(sizeObjectArenaTBL, capacityObjectArenaTBL, freeObjectList, freeObjectListSize, free)
    }

    ghost predicate Valid()
      reads this
    {
      Tables() && QueueOk() && Inv(Abs())
    }

    // ------------------------------------------------------------ arenas

    /** ObjectPage_init##n */
    method ObjectPageInit(n: nat, r: nat, page: nat)
      requires n < K_ARENA_COUNT
      requires forall s | 0 <= s < SlotsPerPage(n) :: Addr(n, r, page, s) in mem
      modifies `mem
      ensures PageInited(old(mem), mem, n, r, page, SlotsPerPage(n))
    {
      ghost var mem0 := mem;
      var t := SlotsPerPage(n) - 1;
      for i := 0 to t
        invariant PageInited(mem0, mem, n, r, page, i)
      {
        LinkSlot(n, r, page, i, Addr(n, r, page, i + 1), mem0);
      }
      LinkSlot(n, r, page, t, Addr(n, r, page + 1, 0), mem0);
    }

    /** Slot i of the page is marked as empty and linked to the next. */
    method LinkSlot(n: nat, r: nat, page: nat, i: nat, next: Addr, ghost mem0: Memory)
      requires n < K_ARENA_COUNT && i < SlotsPerPage(n) && PageInited(mem0, mem, n, r, page, i)
      requires Addr(n, r, page, i) in mem0 && next == PageSucc(Addr(n, r, page, i))
      modifies `mem
      ensures PageInited(mem0, mem, n, r, page, i + 1)
    {
      var o := Addr(n, r, page, i);
      PageInitStep(mem0, mem, n, r, page, i);
      mem := mem[o := mem[o].(ct := None, ref := Some(next))];
    }

    /** ObjectArenaTBL_init##n: a zeroed arena, its pages linked one after another. */
    method ObjectArenaTBLInit(n: nat, r: nat)
      requires n < K_ARENA_COUNT == |freeObjectListSize|
      requires mem.Keys !! ArenaAddrs(n, r)
      modifies `mem, `freeObjectListSize
      ensures mem == old(mem) + FreshArena(n, r)
      ensures SetsOnly(old(freeObjectListSize), freeObjectListSize, n)
      ensures freeObjectListSize[n] == old(freeObjectListSize)[n] + PageSlots(n, PAGES)
    {
      mem := mem + Zeroed(n, r);
      ArenaZeroed(old(mem), n, r);
      for page := 0 to PAGES
        invariant ArenaInited(old(mem), mem, n, r, page)
        invariant SetsOnly(old(freeObjectListSize), freeObjectListSize, n)
        invariant freeObjectListSize[n] == old(freeObjectListSize)[n] + PageSlots(n, page)
      {
        InitPage(n, r, page, old(mem));
        freeObjectListSize := freeObjectListSize[n := freeObjectListSize[n] + SlotsPerPage(n)];
      }
      ArenaInitEnd(old(mem), mem, n, r);
      var last := Addr(n, r, PAGES - 1, SlotsPerPage(n) - 1);
      mem := mem[last := mem[last].(ref := None)];
    }

    /** The pages up to this one are then linked. */
    method InitPage(n: nat, r: nat, page: nat, ghost mem0: Memory)
      requires n < K_ARENA_COUNT && page < PAGES && mem0.Keys !! ArenaAddrs(n, r) && ArenaInited(mem0, mem, n, r, page)
      modifies `mem
      ensures ArenaInited(mem0, mem, n, r, page + 1)
    {
      forall s | 0 <= s < SlotsPerPage(n) ensures Addr(n, r, page, s) in mem {
        assert Addr(n, r, page, s) in ArenaAddrs(n, r);
      }
      ghost var before := mem;
      ObjectPageInit(n, r, page);
      ArenaInitStep(mem0, before, mem, n, r, page);
    }

    /** new_ObjectArena##n: the new arena's first slot, and its ref4_tail. */
    method NewObjectArena(n: nat) returns (block: Addr, tail: Addr)
      requires n < K_ARENA_COUNT && Tables()
      requires mem.Keys !! ArenaAddrs(n, sizeObjectArenaTBL[n])
      modifies `mem, `freeObjectListSize, `sizeObjectArenaTBL, `capacityObjectArenaTBL
      ensures Tables()
      ensures mem == old(mem) + FreshArena(n, old(sizeObjectArenaTBL)[n])
      ensures SetsOnly(old(sizeObjectArenaTBL), sizeObjectArenaTBL, n)
      ensures sizeObjectArenaTBL[n] == old(sizeObjectArenaTBL)[n] + 1
      ensures SetsOnly(old(capacityObjectArenaTBL), capacityObjectArenaTBL, n)
      ensures var size, capacity := old(sizeObjectArenaTBL)[n], old(capacityObjectArenaTBL)[n];
        capacityObjectArenaTBL[n] == if size < capacity then capacity else 2 * capacity
      ensures SetsOnly(old(freeObjectListSize), freeObjectListSize, n)
      ensures freeObjectListSize[n] == old(freeObjectListSize)[n] + PageSlots(n, PAGES)
      ensures block == Addr(n, old(sizeObjectArenaTBL)[n], 0, 0) && tail == Tail(n, old(sizeObjectArenaTBL)[n])
    {
      var pageindex := sizeObjectArenaTBL[n];
      if !(pageindex < capacityObjectArenaTBL[n]) {
        capacityObjectArenaTBL := capacityObjectArenaTBL[n := capacityObjectArenaTBL[n] * 2];
      }
      sizeObjectArenaTBL := sizeObjectArenaTBL[n := sizeObjectArenaTBL[n] + 1];
      ObjectArenaTBLInit(n, pageindex);
      block := Addr(n, pageindex, 0, 0);
      tail := Addr(n, pageindex, PAGES - 1, 0);
      // the walk over the first page that the source checks with an assertion
      var i, tmp := 0, block;
      while tmp != Addr(n, pageindex, 1, 0)
        invariant 0 <= i <= SlotsPerPage(n)
        invariant tmp == if i < SlotsPerPage(n) then Addr(n, pageindex, 0, i) else Addr(n, pageindex, 1, 0)
        decreases SlotsPerPage(n) - i
      {
        assert tmp in ArenaAddrs(n, pageindex) && PageLink(tmp) == Some(PageSucc(tmp));
        tmp := mem[tmp].ref.value;
        i := i + 1;
      }
      assert i == SlotsPerPage(n);
    }

    /** The body of gc_extendObjectArena's loop. */
    method AddOneArena(n: nat, ghost h: Heap)
      requires n < K_ARENA_COUNT && Tables() && Abs() == h && Shape(h)
      modifies `mem, `freeObjectListSize, `sizeObjectArenaTBL, `capacityObjectArenaTBL, `freeObjectList, `free
      ensures Tables() && Abs() == AddArena(h, n)
    {
      FreshDisjoint(h, n);
      var block, tail := NewObjectArena(n);
      assert tail in ArenaAddrs(n, h.arenas[n]);
      mem := mem[tail := mem[tail].(ref := freeObjectList[n])];
      freeObjectList := freeObjectList[n := Some(block)];
      free := free[n := Block(n, h.arenas[n], SplicedSlots(n)) + free[n]];
      BlockIndex(n, h.arenas[n], SplicedSlots(n), 0);
      SpliceIs(h, Abs(), n, Block(n, h.arenas[n], SplicedSlots(n)));
    }

    /** gc_extendObjectArena(n) */
    method ExtendObjectArena(n: nat)
      requires n < K_ARENA_COUNT && Tables() && Shape(Abs())
      modifies `mem, `freeObjectListSize, `sizeObjectArenaTBL, `capacityObjectArenaTBL, `freeObjectList, `free
      ensures Tables() && Shape(Abs())
      ensures exists hs: seq<Heap> :: Growth(hs, old(Abs()), Abs(), n, old(sizeObjectArenaTBL)[n])
    {
      var size := sizeObjectArenaTBL[n];
      ghost var hs := [Abs()];
      for i := 0 to size
        invariant Tables() && Growth(hs, old(Abs()), Abs(), n, i)
      {
        AddOneArena(n, Abs());
        hs := hs + [Abs()];
      }
    }

    /** CHECK_EXPAND(listSize, n) */
    method CheckExpand(listSize: nat, n: nat)
      requires n < K_ARENA_COUNT && Tables() && Shape(Abs()) && listSize == TotalSlots(n, sizeObjectArenaTBL[n])
      modifies `mem, `freeObjectListSize, `sizeObjectArenaTBL, `capacityObjectArenaTBL, `freeObjectList, `free
      ensures Tables()
      ensures Expanded(old(Abs()), Abs(), n)
    {
      if freeObjectListSize[n] < listSize / 10 {
        ExtendObjectArena(n);
      }
    }

    // ------------------------------------------------------------ marking

    ghost predicate Marking(ostack: OStack, h0: Heap, marks: set<Addr>, cur: set<Addr>)
      reads this, ostack, ostack.stack
    {
      && ostack.Valid() && marked == |marks|
      && MarkInv(h0, mem, marks, ToSet(ostack.Contents()) + cur) && PushedOnce(ostack.pushed, marks)
    }

    /** mark_ostack */
    method MarkOStack(ref: Addr, ostack: OStack, ghost h0: Heap, ghost marks0: set<Addr>, ghost cur: set<Addr>)
      returns (ghost marks: set<Addr>)
      requires Marking(ostack, h0, marks0, cur)
      requires Live(h0, ref) && ref in h0.mem
      modifies `mem, `marked, ostack, ostack.stack
      ensures Marking(ostack, h0, marks, cur)
      ensures ostack.stack == old(ostack.stack) || fresh(ostack.stack)
      ensures marks == marks0 + {ref}
      ensures ostack.Contents() == old(ostack.Contents()) + if ref in marks0 then [] else [ref]
      ensures ostack.pushed == old(ostack.pushed) + if ref in marks0 then [] else [ref]
      ensures ostack.tail - marked == old(ostack.tail - marked) && marked >= old(marked)
    {
      marks := marks0 + {ref};
      MarkedIs(h0, mem, marks0, ToSet(ostack.Contents()) + cur, ref);
      if mem[ref].refc != 1 {
        MarkAndPush(ref, ostack, h0, marks0, cur);
      } else {
        assert marks == marks0;
      }
    }

    /** Its branch for an object that is not marked yet. */
    method MarkAndPush(ref: Addr, ostack: OStack, ghost h0: Heap, ghost marks0: set<Addr>, ghost cur: set<Addr>)
      requires Marking(ostack, h0, marks0, cur)
      requires Live(h0, ref) && ref in h0.mem && ref in mem && mem[ref].refc != 1
      modifies `mem, `marked, ostack, ostack.stack
      ensures Marking(ostack, h0, marks0 + {ref}, cur)
      ensures ostack.stack == old(ostack.stack) || fresh(ostack.stack)
      ensures ostack.Contents() == old(ostack.Contents()) + [ref] && ostack.pushed == old(ostack.pushed) + [ref]
      ensures ostack.tail - marked == old(ostack.tail - marked) && marked == old(marked) + 1
    {
      ghost var stack := ostack.Contents();
      MarkOne(h0, mem, marks0, ToSet(stack) + cur, ref);
      PushOnce(ostack.pushed, marks0, ref);
      mem := mem[ref := mem[ref].(refc := 1)];
      marked := marked + 1;
      ostack.Push(ref);
      PushSet(stack, cur, ref);
    }

    /** The loop at L_INLOOP: mark_ostack on every enumerated reference, last to first. */
    method MarkAll(refs: seq<Addr>, ostack: OStack, ghost h0: Heap, ghost marks0: set<Addr>, ghost cur: set<Addr>)
      returns (ghost marks: set<Addr>)
      requires Marking(ostack, h0, marks0, cur)
      requires forall r | r in refs :: Live(h0, r) && r in h0.mem
      modifies `mem, `marked, ostack, ostack.stack
      ensures Marking(ostack, h0, marks, cur)
      ensures ostack.stack == old(ostack.stack) || fresh(ostack.stack)
      ensures marks0 <= marks && forall r | r in refs :: r in marks
      ensures ostack.tail - marked == old(ostack.tail - marked) && marked >= old(marked)
    {
      marks := marks0;
      for i := |refs| downto 0
        invariant Marking(ostack, h0, marks, cur)
        invariant ostack.stack == old(ostack.stack) || fresh(ostack.stack)
        invariant marks0 <= marks && ToSet(refs[i..]) <= marks
        invariant ostack.tail - marked == old(ostack.tail - marked) && marked >= old(marked)
      {
        DropOne(refs, i);
        marks := MarkNth(refs, i, ostack, h0, marks, cur);
      }
      AllDropped(refs, marks);
    }

    /** Its body. */
    method MarkNth(refs: seq<Addr>, i: nat, ostack: OStack, ghost h0: Heap, ghost marks0: set<Addr>,
        ghost cur: set<Addr>)
      returns (ghost marks: set<Addr>)
      requires Marking(ostack, h0, marks0, cur)
      requires i < |refs| && forall r | r in refs :: Live(h0, r) && r in h0.mem
      modifies `mem, `marked, ostack, ostack.stack
      ensures Marking(ostack, h0, marks, cur)
      ensures ostack.stack == old(ostack.stack) || fresh(ostack.stack)
      ensures marks == marks0 + {refs[i]}
      ensures ostack.tail - marked == old(ostack.tail - marked) && marked >= old(marked)
    {
      assert refs[i] in refs;
      marks := MarkOStack(refs[i], ostack, h0, marks0, cur);
    }

    /** ostack_next, and what is then being scanned. */
    method NextRef(ostack: OStack, ghost h0: Heap, ghost marks: set<Addr>) returns (ref: Option<Addr>)
      requires Marking(ostack, h0, marks, {})
      modifies ostack`tail
      ensures Marking(ostack, h0, marks, Scanned(ref))
      ensures ref.Some? ==> ref.value in marks && ostack.tail == old(ostack.tail) - 1
      ensures ref.None? ==> ostack.Contents() == [] && ostack.tail == old(ostack.tail) == 0
    {
      ghost var stack := ostack.Contents();
      ref := ostack.Next();
      PopSet(stack, ostack.Contents(), ref);
    }

    /** One turn of the loop of gc_mark: trace an object, mark what it refers to. */
    method Scan(ref: Addr, ostack: OStack, ghost h0: Heap, ghost marks0: set<Addr>) returns (ghost marks: set<Addr>)
      requires NoDangling(h0) && Marking(ostack, h0, marks0, {ref}) && ref in marks0
      modifies `mem, `marked, ostack, ostack.stack
      ensures Marking(ostack, h0, marks, {})
      ensures ostack.stack == old(ostack.stack) || fresh(ostack.stack)
      ensures marks0 <= marks && marked <= |h0.mem.Keys|
      ensures ostack.tail - marked == old(ostack.tail - marked) && marked >= old(marked)
    {
      KidsLive(h0, mem, marks0, ToSet(ostack.Contents()) + {ref}, ref);
      marks := MarkAll(Kids(mem, ref), ostack, h0, marks0, {ref});
      ScanDone(h0, mem, marks, ToSet(ostack.Contents()), ref);
      MarksBounded(h0, mem, marks, ToSet(ostack.Contents()) + {});
    }

    /** The loop of gc_mark: scan until the stack is empty. */
    method Drain(ostack: OStack, ghost h0: Heap, ghost marks0: set<Addr>) returns (ghost marks: set<Addr>)
      requires NoDangling(h0) && Marking(ostack, h0, marks0, {}) && marked <= |h0.mem.Keys|
      modifies `mem, `marked, ostack, ostack.stack
      ensures Marking(ostack, h0, marks, {}) && ostack.Contents() == []
      ensures ostack.stack == old(ostack.stack) || fresh(ostack.stack)
      ensures marks0 <= marks
    {
      marks := marks0;
      var ref := NextRef(ostack, h0, marks);
      while ref.Some?
        invariant ostack.stack == old(ostack.stack) || fresh(ostack.stack)
        invariant Marking(ostack, h0, marks, Scanned(ref))
        invariant marks0 <= marks && marked <= |h0.mem.Keys|
        invariant ref.Some? ==> ref.value in marks
        invariant ref.None? ==> ostack.Contents() == []
        decreases 2 * (|h0.mem.Keys| - marked) + ostack.tail + (if ref.Some? then 1 else 0)
      {
        marks := Scan(ref.value, ostack, h0, marks);
        ref := NextRef(ostack, h0, marks);
      }
    }

    /** gc_mark once its stack is set up: from the roots until nothing is left to scan. */
    method MarkFromRoots(ostack: OStack, ghost h0: Heap) returns (ghost live: set<Addr>)
      requires Marking(ostack, h0, {}, {}) && NoDangling(h0) && roots == h0.roots
      modifies `mem, `marked, ostack, ostack.stack
      ensures LiveSet(h0, live) && mem == WithMarks(h0.mem, live) && marked == |live|
      ensures IsLeastClosed(h0, live)
      ensures Distinct(ostack.pushed) && forall a :: a in ostack.pushed <==> a in live
      ensures ostack.Valid() && (ostack.stack == old(ostack.stack) || fresh(ostack.stack))
    {
      RootsLive(h0);
      live := MarkAll(roots, ostack, h0, {}, {});
      MarksBounded(h0, mem, live, ToSet(ostack.Contents()) + {});
      live := Drain(ostack, h0, live);
      assert ToSet(ostack.Contents()) + {} == {};
      MarkEnd(h0, mem, live);
      PushedOnceIsDistinct(ostack.pushed, live);
      LiveIsLeastClosed(h0, live);
    }

    /** gc_mark */
    method GcMark() returns (ghost live: set<Addr>)
      requires QueueOk() && Unmarked(mem) && NoDangling(Abs())
      modifies `mem, `marked, `queue, `queueCapacity, `queueLog2, queue
      ensures QueueOk() && (queue == old(queue) || fresh(queue))
      ensures LiveSet(old(Abs()), live) && mem == WithMarks(old(mem), live) && marked == |live|
      ensures IsLeastClosed(old(Abs()), live)
    {
      var ostack := new OStack(queue, queueCapacity, queueLog2);
      marked := 0;
      MarkStart(Abs());
      assert ToSet(ostack.Contents()) + {} == {};
      live := MarkFromRoots(ostack, Abs());
      queueCapacity, queue, queueLog2 := ostack.capacity, ostack.stack, ostack.capacityLog2;
    }

    // ------------------------------------------------------------ sweeping

    /** The body of sweep0's loop; `released` says whether the slot counts as collected. */
    method SweepSlot(o: Addr) returns (released: bool)
      requires Tables() && o.cls < K_ARENA_COUNT && o in mem
      requires mem[o].ct.Some? ==> mem[o].ct.value.structSize == SlotSize(o.cls)
      modifies `mem, `freeObjectList, `freeObjectListSize, `free
      ensures Tables()
      ensures Abs() == SweepOne(old(Abs()), o)
      ensures released == Garbage(old(mem)[o])
    {
      var n := o.cls;
      released := false;
      if mem[o].refc != 1 {
        if mem[o].ct.Some? {
          // KONOHA_freeObjectField; then the size assertion of the source
          mem := mem[o := mem[o].(fields := [])];
          assert mem[o].ct.value.structSize == SlotSize(n);
          released := true;
          ObjectReuse(o, n);
          freeObjectListSize := freeObjectListSize[n := freeObjectListSize[n] + 1];
        }
      }
      mem := mem[o := mem[o].(refc := 0)];
    }

    /** OBJECT_REUSE, with its FREELIST_PUSH. */
    method ObjectReuse(o: Addr, n: nat)
      requires Tables() && n < K_ARENA_COUNT && o in mem
      modifies `mem, `freeObjectList, `free
      ensures Tables() && mem == old(mem)[o := old(mem)[o].(ct := None, refc := 0, ref := Head(old(free)[n]))]
      ensures free == old(free)[n := [o] + old(free)[n]]
    {
      mem := mem[o := mem[o].(ct := None, refc := 0)];
      mem := mem[o := mem[o].(ref := freeObjectList[n])];
      freeObjectList := freeObjectList[n := Some(o)];
      free := free[n := [o] + free[n]];
    }

    /** sweep0: one page, first slot to last. */
    method Sweep0(n: nat, r: nat, page: nat, ghost h0: Heap, ghost done0: set<Addr>, ghost freed0: seq<Addr>)
      returns (collected: nat, ghost done: set<Addr>, ghost freed: seq<Addr>)
      requires n < K_ARENA_COUNT && Shape(h0) && Sized(h0.mem) && r < h0.arenas[n] && page < PAGES
      requires Tables() && SweptPart(h0, Abs(), n, done0, freed0) && Before(h0, done0, n, r, page, 0)
      modifies `mem, `freeObjectList, `freeObjectListSize, `free
      ensures Tables() && SweptPart(h0, Abs(), n, done, freed) && Before(h0, done, n, r, page + 1, 0)
      ensures |freed| == |freed0| + collected
    {
      collected, done, freed := 0, done0, freed0;
      for i := 0 to SlotsPerPage(n)
        invariant Tables() && SweptPart(h0, Abs(), n, done, freed) && Before(h0, done, n, r, page, i)
        invariant |freed| == |freed0| + collected
      {
        var o := Addr(n, r, page, i);
        SweepNext(h0, Abs(), n, r, page, i, done, freed);
        var released := SweepSlot(o);
        done := done + {o};
        if released {
          freed := [o] + freed;
          collected := collected + 1;
        }
      }
      NextPage(h0, done, n, r, page);
    }

    /** The inner loop of gc_sweep##n: the pages of one arena; `slots` is what it adds to listSize. */
    method SweepArena(n: nat, atindex: nat, ghost h0: Heap, ghost done0: set<Addr>, ghost freed0: seq<Addr>)
      returns (collected: nat, slots: nat, ghost done: set<Addr>, ghost freed: seq<Addr>)
      requires n < K_ARENA_COUNT && Shape(h0) && Sized(h0.mem) && atindex < h0.arenas[n]
      requires Tables() && SweptPart(h0, Abs(), n, done0, freed0) && Before(h0, done0, n, atindex, 0, 0)
      modifies `mem, `freeObjectList, `freeObjectListSize, `free
      ensures Tables() && SweptPart(h0, Abs(), n, done, freed) && Before(h0, done, n, atindex + 1, 0, 0)
      ensures |freed| == |freed0| + collected && slots == PageSlots(n, PAGES)
    {
      collected, slots, done, freed := 0, 0, done0, freed0;
      for opage := 0 to PAGES
        invariant Tables() && SweptPart(h0, Abs(), n, done, freed) && Before(h0, done, n, atindex, opage, 0)
        invariant |freed| == |freed0| + collected && slots == PageSlots(n, opage)
      {
        var c: nat;
        c, done, freed := Sweep0(n, atindex, opage, h0, done, freed);
        collected := collected + c;
        slots := slots + SlotsPerPage(n);
      }
      NextArena(h0, done, n, atindex);
    }

    /** gc_sweep##n; `collected` is the number of objects of the class that died. */
    method GcSweepClass(n: nat) returns (collected: nat)
      requires n < K_ARENA_COUNT && Tables() && Shape(Abs()) && Lists(Abs()) && Sized(mem)
      modifies `mem, `freeObjectList, `freeObjectListSize, `free, `sizeObjectArenaTBL, `capacityObjectArenaTBL
      ensures Tables() && ClassSwept(old(Abs()), Abs(), n)
      ensures collected == |GarbageSet(old(mem), n)|
    {
      ghost var h0 := Abs();
      collected := 0;
      var listSize := 0;
      ghost var done: set<Addr>, freed: seq<Addr> := {}, [];
      SweepStart(h0, n);
      for atindex := 0 to sizeObjectArenaTBL[n]
        invariant Tables() && SweptPart(h0, Abs(), n, done, freed) && Before(h0, done, n, atindex, 0, 0)
        invariant collected == |freed| && listSize == TotalSlots(n, atindex)
      {
        var c, s: nat;
        c, s, done, freed := SweepArena(n, atindex, h0, done, freed);
        collected := collected + c;
        listSize := listSize + s;
      }
      SweepEnd(h0, Abs(), n, done, freed);
      ghost var hs := Abs();
      CheckExpand(listSize, n);
      SweptClass(h0, hs, Abs(), n, done, freed);
    }

    /** gc_sweep */
    method GcSweep(ghost h0: Heap)
      requires Tables() && Abs() == h0 && Sweeping(h0, 0)
      modifies `mem, `freeObjectList, `freeObjectListSize, `free, `sizeObjectArenaTBL, `capacityObjectArenaTBL
      ensures Tables() && SweptAll(h0, Abs())
    {
      var c0 := GcSweepClass(0);
      ghost var h1 := Abs();
      ClassSweptKeeps(h0, h1, 0);
      var c1 := GcSweepClass(1);
      ghost var h2 := Abs();
      ClassSweptKeeps(h1, h2, 1);
      var c2 := GcSweepClass(2);
      assert Shape(h1) && Shape(h2) && ClassSwept(h0, h1, 0) && ClassSwept(h1, h2, 1) && ClassSwept(h2, Abs(), 2);
    }

    /** gc_mark as the first half of a collection. */
    method MarkPhase(ghost h0: Heap) returns (ghost live: set<Addr>, ghost h1: Heap)
      requires Tables() && QueueOk() && Abs() == h0 && Inv(h0)
      modifies `mem, `marked, `queue, `queueCapacity, `queueLog2, queue
      ensures Tables() && QueueOk() && (queue == old(queue) || fresh(queue))
      ensures LiveSet(h0, live) && h1 == Abs() == h0.(mem := WithMarks(h0.mem, live)) && Sweeping(h1, 0)
    {
      live := GcMark();
      h1 := h0.(mem := WithMarks(h0.mem, live));
      MarkedIsSweeping(h0, live);
    }

    /** gc_sweep as the second. */
    method SweepPhase(ghost h0: Heap, ghost live: set<Addr>, ghost h1: Heap)
      requires Tables() && Abs() == h1 && Sweeping(h1, 0)
      requires Inv(h0) && LiveSet(h0, live) && h1 == h0.(mem := WithMarks(h0.mem, live))
      modifies `mem, `freeObjectList, `freeObjectListSize, `free, `sizeObjectArenaTBL, `capacityObjectArenaTBL
      ensures Tables() && CollectionDone(h0, Abs())
    {
      GcSweep(h1);
      InvokeDone(h0, live, h1, Abs());
    }

    /** MODGC_gc_invoke: afterwards exactly the live objects are allocated, each as it
        was, every class has a free slot, and no mark is left. */
    method GcInvoke(ghost h0: Heap)
      requires Tables() && QueueOk() && Abs() == h0 && Inv(h0)
      modifies this, queue
      ensures Tables() && QueueOk() && (queue == old(queue) || fresh(queue))
      ensures CollectionDone(h0, Abs())
    {
      ghost var live, h1 := MarkPhase(h0);
      SweepPhase(h0, live, h1);
    }

    // ------------------------------------------------------------ allocation

    /** FREELIST_POP when the list is not empty, the counter, and the new object. */
    method TakeSlot(n: nat, ct: Klass) returns (o: Addr)
      requires Tables() && n < K_ARENA_COUNT && free[n] != []
      requires free[n][0] in mem && mem[free[n][0]].ref == Head(free[n][1..])
      modifies `mem, `freeObjectList, `freeObjectListSize, `free, `roots
      ensures Tables()
      ensures o == old(free)[n][0]
      ensures mem == old(mem)[o := Slot(Some(ct), 0, None, [])] && roots == old(roots) + [o]
      ensures SetsOnly(old(free), free, n) && free[n] == old(free)[n][1..]
      ensures SetsOnly(old(freeObjectListSize), freeObjectListSize, n)
      ensures freeObjectListSize[n] == old(freeObjectListSize)[n] - 1
    {
      o := freeObjectList[n].value;
      freeObjectList := freeObjectList[n := mem[o].ref];
      free := free[n := free[n][1..]];
      mem := mem[o := mem[o].(ref := None)];
      freeObjectListSize := freeObjectListSize[n := freeObjectListSize[n] - 1];
      mem := mem[o := ZeroSlot];
      mem := mem[o := mem[o].(ct := Some(ct))];
      roots := roots + [o];
    }

    /** FREELIST_POP's first half: afterwards the list is not empty. */
    method Refill(n: nat, ghost h0: Heap) returns (ghost h: Heap)
      requires Tables() && QueueOk() && Abs() == h0 && Inv(h0) && n < K_ARENA_COUNT
      modifies this, queue
      ensures Tables() && QueueOk() && (queue == old(queue) || fresh(queue))
      ensures h == Abs() && Inv(h) && h.free[n] != []
      ensures if h0.free[n] == [] then CollectStep(h0, h) else h == h0
    {
      if freeObjectList[n] == None {
        GcInvoke(h0);
      }
      h := Abs();
    }

    /** The second half of MODGC_omalloc. */
    method Alloc(n: nat, ct: Klass, ghost h: Heap) returns (o: Addr)
      requires Tables() && QueueOk() && Abs() == h && Inv(h)
      requires n < K_ARENA_COUNT && h.free[n] != [] && ct.structSize == SlotSize(n)
      modifies `mem, `freeObjectList, `freeObjectListSize, `free, `roots
      ensures Tables() && QueueOk() && AllocStep(h, Abs(), n, ct, o) && Inv(Abs())
    {
      assert freeObjectList[n] != None;
      PopReady(h, n);
      o := TakeSlot(n, ct);
      AllocKeeps(h, Abs(), n, ct, o);
    }

    /** MODGC_omalloc, with the class word that new_Object then sets.  The size must fit the slot
        of its class, as exactly those of FitsItsClass do, and the class of the object have
        the size of the slot, which sweep0 asserts.  After a collection the list is never empty: the
        assertion of FREELIST_POP holds. */
    method Omalloc(size: nat, ct: Klass, ghost h0: Heap) returns (o: Addr)
      requires Tables() && QueueOk() && Abs() == h0 && Inv(h0)
      requires SizeClass(size) < K_ARENA_COUNT && size <= SlotSize(SizeClass(size)) == ct.structSize
      modifies this, queue
      ensures Tables() && QueueOk() && Inv(Abs())
      ensures Allocates(h0, Abs(), SizeClass(size), ct, o)
      ensures h0.free[SizeClass(size)] != [] ==> AllocStep(h0, Abs(), SizeClass(size), ct, o)
    {
      var pageSize := SizeClass(size);
      ghost var h := Refill(pageSize, h0);
      o := Alloc(pageSize, ct, h);
      AllocDone(h0, h, Abs(), pageSize, ct, o);
    }

    // ------------------------------------------------------------ set-up

    /** MSGC_SETUP(n) */
    method Setup(n: nat)
      requires n < K_ARENA_COUNT && Tables() && SetUp(Abs(), n)
      modifies `mem, `freeObjectListSize, `sizeObjectArenaTBL, `capacityObjectArenaTBL, `freeObjectList, `free
      ensures Tables() && SetUp(Abs(), n + 1)
    {
      ghost var before := Abs();
      assert before.arenas[n] == 0;
      var p, tail := NewObjectArena(n);
      freeObjectList := freeObjectList[n := Some(p)];
      free := free[n := WholeArena(n)];
      BlockIndex(n, 0, PageSlots(n, PAGES), 0);
      SetUpStep(before, Abs(), n);
    }

    /** MODGC_init, up to the set-up of the free lists. */
    constructor ()
      ensures Tables() && QueueOk() && SetUp(Abs(), 0) && fresh(queue)
    {
      mem, roots := map[], [];
      sizeObjectArenaTBL := [0, 0, 0];
      capacityObjectArenaTBL := [K_ARENATBL_INITSIZE, K_ARENATBL_INITSIZE, K_ARENATBL_INITSIZE];
      freeObjectList := [None, None, None];
      freeObjectListSize := [0, 0, 0];
      free := [[], [], []];
      queue := new Addr[0];
      queueCapacity, queueLog2, marked := 0, 0, 0;
    }

    /** MSGC_setup */
    method SetupAll()
      requires Tables() && QueueOk() && SetUp(Abs(), 0)
      modifies `mem, `freeObjectListSize, `sizeObjectArenaTBL, `capacityObjectArenaTBL, `freeObjectList, `free
      ensures Valid() && Initial(Abs())
    {
      Setup(0);
      Setup(1);
      Setup(2);
      SetUpEnd(Abs());
      InitialInv(Abs());
    }
  }

  /** From h0 a collection led to h, with all that it is for. */
  ghost predicate CollectionDone(h0: Heap, h: Heap) {
    CollectStep(h0, h) && Inv(h) && Collected(h0, h)
  }

  lemma InvokeDone(h0: Heap, live: set<Addr>, h1: Heap, h2: Heap)
    requires Inv(h0) && LiveSet(h0, live) && h1 == h0.(mem := WithMarks(h0.mem, live))
    requires Shape(h1) && SweptAll(h1, h2)
    ensures CollectionDone(h0, h2)
  {
    CollectKeeps(h0, h2);
  }

  lemma SweptClass(h0: Heap, hs: Heap, h: Heap, n: nat, done: set<Addr>, freed: seq<Addr>)
    requires n < K_ARENA_COUNT && Shape(h0) && Shape(hs)
    requires ClassOf(h0, n, done) && SweptPart(h0, hs, n, done, freed) && Expanded(hs, h, n)
    ensures ClassSwept(h0, h, n)
  {
  }

  /** An allocation: when the list was empty, first a collection. */
  ghost predicate Allocates(h0: Heap, h': Heap, n: nat, ct: Klass, o: Addr) {
    n < |h0.free| && exists h: Heap ::
      (if h0.free[n] == [] then CollectStep(h0, h) else h == h0) && AllocStep(h, h', n, ct, o)
  }

  lemma AllocDone(h0: Heap, h: Heap, h': Heap, n: nat, ct: Klass, o: Addr)
    requires n < |h0.free| && (if h0.free[n] == [] then CollectStep(h0, h) else h == h0)
    requires AllocStep(h, h', n, ct, o)
    ensures Allocates(h0, h', n, ct, o)
  {
  }

  lemma PopReady(h: Heap, n: nat)
    requires Inv(h) && n < K_ARENA_COUNT && h.free[n] != []
    ensures h.free[n][0] in h.mem && h.free[n][0].cls == n
    ensures h.mem[h.free[n][0]].ref == Head(h.free[n][1..])
  {
    assert ListOk(h.mem, n, h.arenas[n], h.free[n], h.count[n]);
  }

  /** MSGC_setup has run for the classes below k. */
  ghost predicate SetUp(h: Heap, k: nat) {
    && |h.arenas| == |h.free| == |h.count| == K_ARENA_COUNT
    && (forall n | 0 <= n < K_ARENA_COUNT ::
          if n < k then h.arenas[n] == 1 && h.free[n] == WholeArena(n) && h.count[n] == PageSlots(n, PAGES)
          else h.arenas[n] == 0 && h.free[n] == [] && h.count[n] == 0)
    && (forall a :: a in h.mem <==> a.cls < k && a.cls < K_ARENA_COUNT && a in ArenaAddrs(a.cls, 0))
    && (forall a | a in h.mem :: h.mem[a] == Slot(None, 0, PageLink(a), []))
    && h.roots == []
  }

  lemma SetUpStep(h: Heap, h': Heap, k: nat)
    requires SetUp(h, k) && k < K_ARENA_COUNT && h'.roots == []
    requires h'.mem == h.mem + FreshArena(k, 0)
    requires SetsOnly(h.arenas, h'.arenas, k) && h'.arenas[k] == 1
    requires SetsOnly(h.free, h'.free, k) && h'.free[k] == WholeArena(k)
    requires SetsOnly(h.count, h'.count, k) && h'.count[k] == PageSlots(k, PAGES)
    ensures SetUp(h', k + 1)
  {
    forall a ensures a in h'.mem <==> a.cls < k + 1 && a.cls < K_ARENA_COUNT && a in ArenaAddrs(a.cls, 0) {
      assert a in ArenaAddrs(k, 0) ==> a.cls == k;
    }
  }

  lemma SetUpEnd(h: Heap)
    requires SetUp(h, K_ARENA_COUNT)
    ensures Initial(h)
  {
    forall a ensures a in h.mem <==> InArenas(h.arenas, a) {
      if a.cls < K_ARENA_COUNT {
        assert a in ArenaAddrs(a.cls, 0) <==> a.arena == 0 && a.page < PAGES && a.slot < SlotsPerPage(a.cls);
      }
    }
  }

  lemma RootsLive(h: Heap)
    requires NoDangling(h)
    ensures forall r | r in h.roots :: Live(h, r) && r in h.mem
  {
    forall r | r in h.roots ensures Live(h, r) && r in h.mem {
      RootReachable(h.mem, h.roots, r);
    }
  }

  lemma MarksBounded(h0: Heap, mem: Memory, marks: set<Addr>, pending: set<Addr>)
    requires MarkInv(h0, mem, marks, pending)
    ensures |marks| <= |h0.mem.Keys|
  {
    SubsetCard(marks, h0.mem.Keys);
  }

  lemma {:induction false} SubsetCard(s: set<Addr>, t: set<Addr>)
    requires s <= t
    ensures |s| <= |t|
  {
    if a :| a in s {
      SubsetCard(s - {a}, t - {a});
    }
  }

  lemma SpliceIs(h: Heap, h': Heap, n: nat, block: seq<Addr>)
    requires n < K_ARENA_COUNT && Shape(h) && |h'.arenas| == |h'.free| == |h'.count| == K_ARENA_COUNT
    requires var r := h.arenas[n];
      h'.mem == (h.mem + FreshArena(n, r))[Tail(n, r) := Slot(None, 0, Head(h.free[n]), [])]
    requires SetsOnly(h.arenas, h'.arenas, n) && h'.arenas[n] == h.arenas[n] + 1
    requires SetsOnly(h.free, h'.free, n) && h'.free[n] == block + h.free[n]
    requires SetsOnly(h.count, h'.count, n) && h'.count[n] == h.count[n] + PageSlots(n, PAGES)
    requires h'.roots == h.roots
    ensures h' == Splice(h, n, block)
  {
    SetsOnlyIs(h.arenas, h'.arenas, n);
    SetsOnlyIs(h.free, h'.free, n);
    SetsOnlyIs(h.count, h'.count, n);
  }

  lemma SetsOnlyIs<T>(s: seq<T>, s': seq<T>, n: nat)
    requires SetsOnly(s, s', n)
    ensures s' == s[n := s'[n]]
  {
  }

  lemma FreshDisjoint(h: Heap, n: nat)
    requires n < K_ARENA_COUNT && Shape(h)
    ensures h.mem.Keys !! ArenaAddrs(n, h.arenas[n])
  {
  }

  // ---------------------------------------------------------------- what sweeping has done

  /** In sweeping order a comes before slot i of that page. */
  predicate Precedes(a: Addr, r: nat, page: nat, i: nat) {
    a.arena < r || (a.arena == r && (a.page < page || (a.page == page && a.slot < i)))
  }

  /** `done` is every slot of class n before slot i of that page. */
  ghost predicate Before(h: Heap, done: set<Addr>, n: nat, r: nat, page: nat, i: nat) {
    forall a {:trigger a in done} {:trigger a in h.mem} ::
      a in done <==> a in h.mem && a.cls == n && Precedes(a, r, page, i)
  }

  lemma SweepNext(h0: Heap, h: Heap, n: nat, r: nat, page: nat, i: nat, done: set<Addr>, freed: seq<Addr>)
    requires n < K_ARENA_COUNT && Shape(h0) && Sized(h0.mem) && r < h0.arenas[n] && page < PAGES && i < SlotsPerPage(n)
    requires SweptPart(h0, h, n, done, freed) && Before(h0, done, n, r, page, i)
    requires |h.free| == |h.count| == K_ARENA_COUNT
    ensures var o := Addr(n, r, page, i);
            && o in h.mem && h.mem[o] == h0.mem[o]
            && (h.mem[o].ct.Some? ==> h.mem[o].ct.value.structSize == SlotSize(n))
            && SweptPart(h0, SweepOne(h, o), n, done + {o}, if Garbage(h.mem[o]) then [o] + freed else freed)
            && Before(h0, done + {o}, n, r, page, i + 1)
  {
    var o := Addr(n, r, page, i);
    assert InArenas(h0.arenas, o) && o in h0.mem && o !in done;
    SweepOneKeeps(h0, h, n, done, freed, o);
  }

  function GarbageSet(mem: Memory, n: nat): set<Addr> {
    set a | a in mem && a.cls == n && Garbage(mem[a])
  }

  lemma SweepStart(h: Heap, n: nat)
    requires n < K_ARENA_COUNT && Shape(h) && Lists(h)
    ensures SweptPart(h, h, n, {}, []) && Before(h, {}, n, 0, 0, 0)
  {
    assert ListOk(h.mem, n, h.arenas[n], h.free[n], h.count[n]);
    assert [] + h.free[n] == h.free[n];
  }

  lemma NextPage(h: Heap, done: set<Addr>, n: nat, r: nat, page: nat)
    requires n < K_ARENA_COUNT && Shape(h) && Before(h, done, n, r, page, SlotsPerPage(n))
    ensures Before(h, done, n, r, page + 1, 0)
  {
    forall a | a in h.mem ensures InArenas(h.arenas, a) {
    }
  }

  lemma NextArena(h: Heap, done: set<Addr>, n: nat, r: nat)
    requires n < K_ARENA_COUNT && Shape(h) && Before(h, done, n, r, PAGES, 0)
    ensures Before(h, done, n, r + 1, 0, 0)
  {
    forall a | a in h.mem ensures InArenas(h.arenas, a) {
    }
  }

  lemma SweepEnd(h0: Heap, h: Heap, n: nat, done: set<Addr>, freed: seq<Addr>)
    requires n < K_ARENA_COUNT && Shape(h0) && Lists(h0)
    requires SweptPart(h0, h, n, done, freed) && Before(h0, done, n, h0.arenas[n], 0, 0)
    ensures Shape(h) && ClassOf(h0, n, done)
    ensures |freed| == |GarbageSet(h0.mem, n)|
  {
    forall a | a in h0.mem ensures InArenas(h0.arenas, a) {
    }
    SweepKeepsLists(h0, h, n, done, freed);
    FreedCount(h0, h, n, done, freed);
  }

  lemma DistinctPrefix(s: seq<Addr>, t: seq<Addr>)
    requires Distinct(s + t)
    ensures Distinct(s)
  {
    assert forall i | 0 <= i < |s| :: s[i] == (s + t)[i];
  }

  lemma FreedCount(h0: Heap, h: Heap, n: nat, done: set<Addr>, freed: seq<Addr>)
    requires n < K_ARENA_COUNT && Shape(h0) && n < |h0.free| && Lists(h0) && ClassOf(h0, n, done)
    requires SweptPart(h0, h, n, done, freed)
    ensures |freed| == |GarbageSet(h0.mem, n)|
  {
    assert Distinct(h.free[n]) && h.free[n] == freed + h0.free[n];
    DistinctPrefix(freed, h0.free[n]);
    DistinctCard(freed);
    assert ToSet(freed) == GarbageSet(h0.mem, n);
  }

  // ---------------------------------------------------------------- what marking has done

  /** Exactly the objects in `marks` are marked, all of them live; a marked object
      that is not pending, on the stack or being scanned, has all its references marked. */
  ghost predicate MarkInv(h0: Heap, mem: Memory, marks: set<Addr>, pending: set<Addr>) {
    && mem == WithMarks(h0.mem, marks)
    && (forall a | a in marks :: a in h0.mem && Live(h0, a))
    && pending <= marks
    && (forall a, b {:trigger b in Kids(h0.mem, a)} | a in marks && a !in pending && b in Kids(h0.mem, a) :: b in marks)
  }

  /** The objects in marks, and no others, were pushed, each of them once. */
  ghost predicate PushedOnce(pushed: seq<Addr>, marks: set<Addr>) {
    multiset(pushed) == multiset(marks)
  }

  lemma PushOnce(pushed: seq<Addr>, marks: set<Addr>, ref: Addr)
    requires PushedOnce(pushed, marks) && ref !in marks
    ensures PushedOnce(pushed + [ref], marks + {ref})
  {
  }

  lemma PushedOnceIsDistinct(pushed: seq<Addr>, marks: set<Addr>)
    requires PushedOnce(pushed, marks)
    ensures Distinct(pushed) && forall a :: a in pushed <==> a in marks
  {
    forall i, j | 0 <= i < j < |pushed| ensures pushed[i] != pushed[j] {
      assert multiset(pushed)[pushed[i]] == multiset(marks)[pushed[i]] <= 1;
      OnceIsApart(pushed, i, j);
    }
    forall a ensures a in pushed <==> a in marks {
      assert a in multiset(pushed) <==> a in multiset(marks);
    }
  }

  lemma OnceIsApart(s: seq<Addr>, i: nat, j: nat)
    requires i < j < |s| && multiset(s)[s[i]] <= 1
    ensures s[i] != s[j]
  {
    assert s == s[..j] + s[j..];
    assert multiset(s) == multiset(s[..j]) + multiset(s[j..]);
    assert s[i] in multiset(s[..j]) by { assert s[..j][i] == s[i]; }
    assert s[j] in multiset(s[j..]) by { assert s[j..][0] == s[j]; }
  }

  lemma MarkStart(h0: Heap)
    requires Unmarked(h0.mem)
    ensures MarkInv(h0, h0.mem, {}, {})
  {
    assert WithMarks(h0.mem, {}) == h0.mem;
  }

  lemma MarkedIs(h0: Heap, mem: Memory, marks: set<Addr>, pending: set<Addr>, a: Addr)
    requires MarkInv(h0, mem, marks, pending) && a in h0.mem
    ensures a in mem && (mem[a].refc == 1 <==> a in marks)
  {
  }

  lemma MarkOne(h0: Heap, mem: Memory, marks: set<Addr>, pending: set<Addr>, ref: Addr)
    requires MarkInv(h0, mem, marks, pending) && ref in h0.mem && Live(h0, ref) && mem[ref].refc != 1
    ensures ref !in marks
    ensures MarkInv(h0, mem[ref := mem[ref].(refc := 1)], marks + {ref}, pending + {ref})
  {
    assert mem[ref := mem[ref].(refc := 1)] == WithMarks(h0.mem, marks + {ref});
  }

  lemma PushSet(stack: seq<Addr>, cur: set<Addr>, ref: Addr)
    ensures ToSet(stack + [ref]) + cur == ToSet(stack) + cur + {ref}
  {
  }

  lemma DropOne(s: seq<Addr>, i: nat)
    requires i < |s|
    ensures ToSet(s[i..]) == {s[i]} + ToSet(s[i+1..])
  {
    assert s[i..] == [s[i]] + s[i+1..];
  }

  lemma AllDropped(s: seq<Addr>, t: set<Addr>)
    requires ToSet(s[0..]) <= t
    ensures forall a | a in s :: a in t
  {
    assert s[0..] == s;
  }

  /** What is popped goes on pending, as it is being scanned. */
  lemma PopSet(stack: seq<Addr>, rest: seq<Addr>, ref: Option<Addr>)
    requires if ref.Some? then stack == rest + [ref.value] else stack == rest
    ensures ToSet(rest) + Scanned(ref) == ToSet(stack) + {}
    ensures ref.Some? ==> ref.value in ToSet(stack)
  {
  }

  lemma KidsLive(h0: Heap, mem: Memory, marks: set<Addr>, pending: set<Addr>, a: Addr)
    requires NoDangling(h0) && MarkInv(h0, mem, marks, pending) && a in marks
    ensures Kids(mem, a) == Kids(h0.mem, a)
    ensures forall b | b in Kids(mem, a) :: Live(h0, b) && b in h0.mem
  {
    forall b | b in Kids(h0.mem, a) ensures Live(h0, b) {
      KidReachable(h0.mem, h0.roots, a, b);
    }
  }

  function Scanned(ref: Option<Addr>): set<Addr> {
    if ref.Some? then {ref.value} else {}
  }

  /** An object whose references are all marked need not be scanned again. */
  lemma ScanDone(h0: Heap, mem: Memory, marks: set<Addr>, stacked: set<Addr>, a: Addr)
    requires MarkInv(h0, mem, marks, stacked + {a}) && forall b | b in Kids(h0.mem, a) :: b in marks
    ensures MarkInv(h0, mem, marks, stacked + {})
  {
  }

  lemma MarkEnd(h0: Heap, mem: Memory, marks: set<Addr>)
    requires MarkInv(h0, mem, marks, {}) && forall r | r in h0.roots :: r in marks
    ensures LiveSet(h0, marks)
  {
    ClosedSetHoldsReachable(h0.mem, h0.roots, marks);
  }

  // ---------------------------------------------------------------- what the page loops have done

  /** The link that ObjectPage_init writes: the next slot, at the end of the page the next page. */
  function PageSucc(a: Addr): Addr
    requires a.cls < K_ARENA_COUNT
  {
    if a.slot + 1 < SlotsPerPage(a.cls) then a.(slot := a.slot + 1) else Addr(a.cls, a.arena, a.page + 1, 0)
  }

  /** The first i slots of the page are linked, all else is as before. */
  ghost predicate PageInited(mem0: Memory, mem: Memory, n: nat, r: nat, page: nat, i: nat)
    requires n < K_ARENA_COUNT
  {
    && mem.Keys == mem0.Keys
    && forall a | a in mem0 ::
         if a.cls == n && a.arena == r && a.page == page && a.slot < i
         then mem[a] == mem0[a].(ct := None, ref := Some(PageSucc(a)))
         else mem[a] == mem0[a]
  }

  lemma PageInitStep(mem0: Memory, mem: Memory, n: nat, r: nat, page: nat, i: nat)
    requires n < K_ARENA_COUNT && i < SlotsPerPage(n) && PageInited(mem0, mem, n, r, page, i)
    requires Addr(n, r, page, i) in mem0
    ensures var o := Addr(n, r, page, i);
            PageInited(mem0, mem[o := mem[o].(ct := None, ref := Some(PageSucc(o)))], n, r, page, i + 1)
  {
  }

  /** The first pages of the arena are linked, the others still zero. */
  ghost predicate ArenaInited(mem0: Memory, mem: Memory, n: nat, r: nat, pages: nat)
    requires n < K_ARENA_COUNT
  {
    && mem.Keys == mem0.Keys + ArenaAddrs(n, r)
    && (forall a | a in mem0 :: mem[a] == mem0[a])
    && (forall a | a in ArenaAddrs(n, r) ::
          mem[a] == if a.page < pages then Slot(None, 0, Some(PageSucc(a)), []) else ZeroSlot)
  }

  /** An arena as malloc gives it. */
  function Zeroed(n: nat, r: nat): Memory
    requires n < K_ARENA_COUNT
  {
    map a | a in ArenaAddrs(n, r) :: ZeroSlot
  }

  lemma ArenaZeroed(mem0: Memory, n: nat, r: nat)
    requires n < K_ARENA_COUNT && mem0.Keys !! ArenaAddrs(n, r)
    ensures ArenaInited(mem0, mem0 + Zeroed(n, r), n, r, 0)
  {
  }

  lemma ArenaInitStep(mem0: Memory, mem: Memory, mem': Memory, n: nat, r: nat, page: nat)
    requires n < K_ARENA_COUNT && mem0.Keys !! ArenaAddrs(n, r) && page < PAGES
    requires ArenaInited(mem0, mem, n, r, page) && PageInited(mem, mem', n, r, page, SlotsPerPage(n))
    ensures ArenaInited(mem0, mem', n, r, page + 1)
  {
    forall a | a in mem0 ensures mem'[a] == mem0[a] {
      assert a !in ArenaAddrs(n, r);
      assert a.slot < SlotsPerPage(n) && a.page == page ==> !(a.cls == n && a.arena == r);
    }
  }

  lemma SameMemory(mem: Memory, mem': Memory)
    requires mem.Keys == mem'.Keys && forall a | a in mem :: mem[a] == mem'[a]
    ensures mem == mem'
  {
  }

  lemma LastIn(n: nat, r: nat)
    requires n < K_ARENA_COUNT
    ensures Addr(n, r, PAGES - 1, SlotsPerPage(n) - 1) in ArenaAddrs(n, r)
  {
  }

  lemma ArenaInitEnd(mem0: Memory, mem: Memory, n: nat, r: nat)
    requires n < K_ARENA_COUNT && mem0.Keys !! ArenaAddrs(n, r) && ArenaInited(mem0, mem, n, r, PAGES)
    ensures var last := Addr(n, r, PAGES - 1, SlotsPerPage(n) - 1);
            last in mem && mem[last := mem[last].(ref := None)] == mem0 + FreshArena(n, r)
  {
    LastIn(n, r);
    var last := Addr(n, r, PAGES - 1, SlotsPerPage(n) - 1);
    var mem', goal := mem[last := mem[last].(ref := None)], mem0 + FreshArena(n, r);
    forall a | a in mem' ensures mem'[a] == goal[a] {
      ArenaInitAt(mem0, mem, n, r, a);
    }
    SameMemory(mem', goal);
  }

  lemma ArenaInitAt(mem0: Memory, mem: Memory, n: nat, r: nat, a: Addr)
    requires n < K_ARENA_COUNT && mem0.Keys !! ArenaAddrs(n, r) && ArenaInited(mem0, mem, n, r, PAGES)
    requires a in mem0 || a in ArenaAddrs(n, r)
    ensures var last := Addr(n, r, PAGES - 1, SlotsPerPage(n) - 1);
            last in mem && mem[last := mem[last].(ref := None)][a] == (mem0 + FreshArena(n, r))[a]
  {
    LastIn(n, r);
    if a in ArenaAddrs(n, r) { LastLink(n, r, a); }
  }

  lemma LastLink(n: nat, r: nat, a: Addr)
    requires n < K_ARENA_COUNT && a in ArenaAddrs(n, r)
    ensures PageLink(a) == if a == Addr(n, r, PAGES - 1, SlotsPerPage(n) - 1) then None else Some(PageSucc(a))
  {
  }
}
