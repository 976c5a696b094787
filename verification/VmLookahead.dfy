/**
  The two instructions past a block that the peephole pass looks at (module/classicvm/
  classicvm.h:111-133): which of them it takes into the block, read off the instructions
  before the pass, and when the block still does the same.
 */
module VmLookahead {

  import opened Options
  import opened VmCode
  import opened VmPeephole

  // ---------------------------------------------------------------- runs of sets

  predicate IsSet(op: Op) {
    op.NSET? || op.OSET?
  }

  /** o sets the register after the one that p sets, to the same kind of word. */
  predicate Continues(p: Op, o: Op) {
    ((p.NSET? && o.NSET?) || (p.OSET? && o.OSET?)) && p.a + K_NEXTIDX == o.a
  }

  /** The length of the run of consecutive sets that ends with instruction j. */
  function RunTo(ops: seq<Op>, j: nat): nat
    requires j < |ops|
  {
    if !IsSet(ops[j]) then 0
    else if j > 0 && Continues(ops[j-1], ops[j]) then RunTo(ops, j - 1) + 1
    else 1
  }

  /** How many instructions past a block of n the pass takes into it: sets that carry on the run
      at the end of the block, up to the next multiple of four, if the run is two or three past
      the last one. */
  function Swallowed(ops: seq<Op>, n: nat): nat
    requires |ops| == n + 2
  {
    if n == 0 then 0
    else
      var r := RunTo(ops, n - 1) % 4;
      if (r == 2 || r == 3) && Continues(ops[n-1], ops[n])
      then (if r == 2 && Continues(ops[n], ops[n+1]) then 2 else 1)
      else 0
  }

  /** The place of a set in its group of four, counted from 0. */
  function Place(ops: seq<Op>, j: nat): (k: nat)
    requires j < |ops|
    ensures k <= 3 && k <= j
  {
    if j > 0 && Continues(ops[j-1], ops[j]) && Place(ops, j - 1) < 3 then Place(ops, j - 1) + 1 else 0
  }

  lemma FourNext(k: nat)
    ensures (k + 1) % 4 == if k % 4 < 3 then k % 4 + 1 else 0
  {
  }

  lemma {:induction false} PlaceInRun(ops: seq<Op>, j: nat)
    requires j < |ops| && IsSet(ops[j])
    ensures RunTo(ops, j) > 0 && Place(ops, j) == (RunTo(ops, j) - 1) % 4
  {
    if j > 0 && Continues(ops[j-1], ops[j]) {
      PlaceInRun(ops, j - 1);
      FourNext(RunTo(ops, j - 1) - 1);
    }
  }

  // ---------------------------------------------------------------- what the pass has done before step i

  /** Before step i, instruction j is part of a group that was fused already. */
  predicate Consumed(ops: seq<Op>, j: nat, i: nat)
    requires j < |ops|
  {
    Place(ops, j) > 0 && j - Place(ops, j) + 2 <= i
  }

  /** Before step i all from i on is as it was, but for consumed instructions; and of the
      instructions before, i - 1 is a set only if it starts a group. */
  ghost predicate Before(ops: seq<Op>, now: seq<Op>, i: nat) {
    && |ops| == |now| && 1 <= i <= |ops|
    && (forall j | i <= j < |ops| :: now[j] == if Consumed(ops, j, i) then NOP else ops[j])
    && (if IsSet(ops[i-1]) && Place(ops, i - 1) == 0 then now[i-1] == ops[i-1] else !IsSet(now[i-1]))
  }

  lemma BeforeFirst(ops: seq<Op>)
    requires |ops| > 0
    ensures Before(ops, ops, 1)
  {
  }

  /** A group in which j has a place past the first holds all the instructions between. */
  lemma {:induction false} PlaceBack(ops: seq<Op>, i: nat, j: nat)
    requires i <= j < |ops| && j - Place(ops, j) <= i
    ensures Place(ops, i) == i - (j - Place(ops, j))
    decreases j
  {
    if i < j { PlaceBack(ops, i, j - 1); }
  }

  /** j is the third or fourth of the group that starts at i - 1. */
  predicate TakenAt(ops: seq<Op>, j: nat, i: nat)
    requires i < j < |ops|
  {
    Place(ops, i) == 1 && j - i == Place(ops, j) - 1
  }

  /** Step i consumes exactly the rest of a group that starts at i - 1. */
  lemma ConsumedNext(ops: seq<Op>, j: nat, i: nat)
    requires 1 <= i < j < |ops|
    ensures Consumed(ops, j, i + 1) == (Consumed(ops, j, i) || TakenAt(ops, j, i))
  {
    if j - Place(ops, j) + 1 == i { PlaceBack(ops, i, j); }
  }

  lemma PlaceOfNext(ops: seq<Op>, i: nat)
    requires 1 <= i < |ops|
    ensures Place(ops, i) == if Continues(ops[i-1], ops[i]) && Place(ops, i - 1) < 3 then Place(ops, i - 1) + 1 else 0
  {
  }

  lemma FusingOther(p: Op, o: Op, x: Op, y: Op)
    requires !IsSet(o)
    ensures var w := Rewrite(Fusing(p, o, x, y), p, o, x, y); !IsSet(w[1]) && w[2] == x && w[3] == y
  {
  }

  lemma FusingApart(p: Op, o: Op, x: Op, y: Op)
    requires IsSet(o) && !Continues(p, o)
    ensures Fusing(p, o, x, y) == Keep
  {
  }

  /** A set that starts a group is not fused with what comes before. */
  lemma FusingFirst(ops: seq<Op>, now: seq<Op>, i: nat)
    requires Before(ops, now, i) && i + 2 < |ops| && IsSet(ops[i]) && Place(ops, i) == 0
    ensures now[i] == ops[i] && Fusing(now[i-1], now[i], now[i+1], now[i+2]) == Keep
  {
    PlaceOfNext(ops, i);
    FusingApart(now[i-1], now[i], now[i+1], now[i+2]);
  }

  /** An instruction that is no set, or was consumed, or starts a group, is not fused with sets. */
  lemma {:induction false} StepAtOther(ops: seq<Op>, now: seq<Op>, i: nat)
    requires Before(ops, now, i) && i + 2 < |ops| && Place(ops, i) != 1
    ensures var next := PeepStep(now, i);
      && (forall j | i < j < |ops| :: next[j] == now[j])
      && (if IsSet(ops[i]) && Place(ops, i) == 0 then next[i] == ops[i] else !IsSet(next[i]))
  {
    var p, o, x, y := now[i-1], now[i], now[i+1], now[i+2];
    if IsSet(ops[i]) && Place(ops, i) == 0 {
      FusingFirst(ops, now, i);
    } else {
      PlaceOfNext(ops, i);
      FusingOther(p, o, x, y);
    }
    var w := Rewrite(Fusing(p, o, x, y), p, o, x, y);
    assert w[2] == x && w[3] == y;
    forall j | i <= j < |ops| ensures PeepStep(now, i)[j] == if j < i + 3 then w[j - (i - 1)] else now[j] {
      PeepStepAt(now, i, j);
    }
  }

  /** The second instruction of a group fuses it. */
  lemma StepAtSecond(ops: seq<Op>, now: seq<Op>, i: nat)
    requires Before(ops, now, i) && i + 2 < |ops| && Place(ops, i) == 1
    ensures var next := PeepStep(now, i);
      && next[i] == NOP
      && next[i+1] == (if Place(ops, i + 1) == 2 then NOP else ops[i+1])
      && next[i+2] == (if Place(ops, i + 2) == 3 then NOP else ops[i+2])
      && forall j | i + 2 < j < |ops| :: next[j] == now[j]
  {
    PlaceOfNext(ops, i);
    PlaceOfNext(ops, i + 1);
    PlaceOfNext(ops, i + 2);
    assert now[i] == ops[i] && now[i+1] == ops[i+1] && now[i+2] == ops[i+2];
    forall j | i <= j < |ops| ensures
      PeepStep(now, i)[j] == if j < i + 3
        then Rewrite(Fusing(now[i-1], now[i], now[i+1], now[i+2]), now[i-1], now[i], now[i+1], now[i+2])[j - (i - 1)]
        else now[j]
    {
      PeepStepAt(now, i, j);
    }
  }

  lemma BeforeNext(ops: seq<Op>, now: seq<Op>, i: nat)
    requires Before(ops, now, i) && i + 2 < |ops|
    ensures Before(ops, PeepStep(now, i), i + 1)
  {
    if Place(ops, i) == 1 { StepAtSecond(ops, now, i); } else { StepAtOther(ops, now, i); }
    var next := PeepStep(now, i);
    forall j | i + 1 <= j < |ops| ensures next[j] == if Consumed(ops, j, i + 1) then NOP else ops[j] {
      ConsumedNext(ops, j, i);
    }
  }

  lemma {:induction false} BeforeEnd(ops: seq<Op>, now: seq<Op>, i: nat, n: nat)
    requires |ops| == n + 2 && 1 <= i <= n && Before(ops, now, i)
    ensures Before(ops, Peep(now, i, n), n)
    decreases n - i
  {
    if i < n {
      BeforeNext(ops, now, i);
      BeforeEnd(ops, PeepStep(now, i), i + 1, n);
    }
  }

  // ---------------------------------------------------------------- what the pass takes in

  lemma PlaceAfterBlock(ops: seq<Op>, n: nat)
    requires |ops| == n + 2 && n > 0
    ensures Place(ops, n) >= 2 <==> Swallowed(ops, n) >= 1
    ensures Place(ops, n + 1) == 3 <==> Swallowed(ops, n) == 2
  {
    PlaceOfNext(ops, n);
    PlaceOfNext(ops, n + 1);
    if IsSet(ops[n-1]) { PlaceInRun(ops, n - 1); }
  }

  lemma TailShows(ops: seq<Op>, now: seq<Op>, n: nat, w: nat)
    requires TailIs(ops, now, n, w)
    ensures now[n] != ops[n] <==> w >= 1
    ensures now[n+1] != ops[n+1] <==> w == 2
  {
  }

  lemma PassPastBlock(ops: seq<Op>, n: nat)
    requires |ops| == n + 2 && n > 0
    ensures var now := Peep(ops, 1, n);
      && now[n] == (if Place(ops, n) >= 2 then NOP else ops[n])
      && now[n+1] == (if Place(ops, n + 1) == 3 then NOP else ops[n+1])
  {
    BeforeFirst(ops);
    BeforeEnd(ops, ops, 1, n);
  }

  lemma {:induction false} PlacedIsSet(ops: seq<Op>, j: nat)
    requires j < |ops| && Place(ops, j) > 0
    ensures IsSet(ops[j])
  {
  }

  /** Of the two instructions past the block, the pass overwrites just as many as Swallowed says,
      and those are sets. */
  lemma SwallowedExactly(ops: seq<Op>, n: nat)
    requires |ops| == n + 2
    ensures TailIs(ops, Peep(ops, 1, n), n, Swallowed(ops, n))
    ensures Peep(ops, 1, n)[n] != ops[n] <==> Swallowed(ops, n) >= 1
    ensures Peep(ops, 1, n)[n+1] != ops[n+1] <==> Swallowed(ops, n) == 2
  {
    if n > 0 {
      PassPastBlock(ops, n);
      PlaceAfterBlock(ops, n);
      if Place(ops, n) > 0 { PlacedIsSet(ops, n); }
      if Place(ops, n + 1) > 0 { PlacedIsSet(ops, n + 1); }
      TailWas(ops, Peep(ops, 1, n), n, Swallowed(ops, n));
    }
    TailShows(ops, Peep(ops, 1, n), n, Swallowed(ops, n));
  }

  /** For every block and state: the new block does what the old block and the instructions
      taken in after it do. */
  lemma {:induction false} PeepholeMeaning<S(!new)>(exec: Semantics<S>, ops: seq<Op>, n: nat, s: Option<S>)
    requires PassLaws(exec) && |ops| == n + 2
    ensures Run(exec, Peep(ops, 1, n)[..n], s) == Run(exec, ops[..n+Swallowed(ops, n)], s)
  {
    AsIfFirst(exec, ops, n, s);
    var w := PeepFrom(exec, ops, ops, 1, n, 0, s);
    SwallowedExactly(ops, n);
    AsIfCounts(exec, ops, Peep(ops, 1, n), n, w, Swallowed(ops, n), s);
  }

  lemma AsIfFirst<S>(exec: Semantics<S>, ops: seq<Op>, n: nat, s: Option<S>)
    requires |ops| == n + 2
    ensures AsIf(exec, ops, ops, n, 0, s)
  {
  }

  lemma {:induction false} AsIfCounts<S>(exec: Semantics<S>, ops: seq<Op>, now: seq<Op>, n: nat, w: nat, v: nat,
      s: Option<S>)
    requires AsIf(exec, ops, now, n, w, s) && TailIs(ops, now, n, v)
    ensures Run(exec, now[..n], s) == Run(exec, ops[..n+v], s)
  {
    TailCounts(ops, now, n, w, v);
  }

  lemma TailCounts(ops: seq<Op>, now: seq<Op>, n: nat, w: nat, v: nat)
    requires TailIs(ops, now, n, w) && TailIs(ops, now, n, v)
    ensures w == v
  {
    TailShows(ops, now, n, w);
    TailShows(ops, now, n, v);
  }

  // ---------------------------------------------------------------- when the block is kept

  /** What pass and compaction leave of the block. */
  function Left(ops: seq<Op>, n: nat): seq<Op>
    requires |ops| == n + 2
  {
    Compact(Peep(ops, 1, n)[..n])
  }

  lemma {:induction false} PassAndCompact<U(!new)>(m: Machine<U>, ops: seq<Op>, n: nat, v: nat, s: Option<State<U>>)
    requires |ops| == n + 2 && Swallowed(ops, n) == v
    ensures Run(Steps(m), Left(ops, n), s) == Run(Steps(m), ops[..n+v], s)
  {
    MachinePasses(m);
    CompactKeeps(Steps(m), Peep(ops, 1, n)[..n], s);
    PeepholeMeaning(Steps(m), ops, n, s);
  }

  /** Pass and compaction keep a block that nothing past it is taken into. */
  lemma {:induction false} BlockKept<U(!new)>(m: Machine<U>, ops: seq<Op>, n: nat, s: Option<State<U>>)
    requires |ops| == n + 2 && Swallowed(ops, n) == 0
    ensures Run(Steps(m), Left(ops, n), s) == Run(Steps(m), ops[..n], s)
  {
    PassAndCompact(m, ops, n, 0, s);
  }

  /** In the buffer of the block the slot after it is zero, or holds a negation that was taken off. */
  lemma {:induction false} BlockInBufferKept<U(!new)>(m: Machine<U>, ops: seq<Op>, n: nat, s: Option<State<U>>)
    requires |ops| == n + 2 && (ops[n] == NOP || ops[n].BNOT?)
    ensures Run(Steps(m), Left(ops, n), s) == Run(Steps(m), ops[..n], s)
  {
    BlockKept(m, ops, n, s);
  }

  /** The register that a set is for has its number already. */
  predicate HasIt(op: Op, r: Regs) {
    IsSet(op) ==> r[op.a] == op.n
  }

  lemma {:induction false} SetStep<U>(m: Machine<U>, op: Op, t: State<U>)
    requires IsSet(op)
    ensures Run(Steps(m), [op], Some(t)) == Some(State(Write(t.regs, op.a, op.n), t.world))
  {
    RunOne(Steps(m), op, Some(t));
  }

  lemma WriteIdle(r: Regs, a: Reg, n: Word)
    ensures Write(r, a, n) == r <==> r[a] == n
  {
    assert Write(r, a, n)[a] == n;
  }

  lemma WritesIdle(r: Regs, a: Reg, n: Word, b: Reg, n2: Word)
    requires a != b
    ensures Write(Write(r, a, n), b, n2) == r <==> r[a] == n && r[b] == n2
  {
    var r' := Write(Write(r, a, n), b, n2);
    assert r'[a] == n && r'[b] == n2;
  }

  predicate AllHaveIt(ops: seq<Op>, r: Regs) {
    forall j | 0 <= j < |ops| :: HasIt(ops[j], r)
  }

  /** The instructions taken in: at most two sets that continue each other. */
  predicate Taken(more: seq<Op>) {
    && |more| <= 2
    && (forall j | 0 <= j < |more| :: IsSet(more[j]))
    && (|more| == 2 ==> more[0].a != more[1].a)
  }

  lemma {:induction false} TwoSteps<U>(m: Machine<U>, p: Op, o: Op, t: State<U>)
    requires IsSet(p) && IsSet(o)
    ensures Run(Steps(m), [p, o], Some(t)) == Some(State(Write(Write(t.regs, p.a, p.n), o.a, o.n), t.world))
  {
    assert [p, o] == [p] + [o];
    RunAppend(Steps(m), [p], [o], Some(t));
    SetStep(m, p, t);
    SetStep(m, o, State(Write(t.regs, p.a, p.n), t.world));
  }

  lemma {:induction false} OneIdle<U>(m: Machine<U>, op: Op, t: State<U>)
    requires IsSet(op)
    ensures Run(Steps(m), [op], Some(t)) == Some(t) <==> HasIt(op, t.regs)
  {
    SetStep(m, op, t);
    WriteIdle(t.regs, op.a, op.n);
  }

  lemma {:induction false} TwoIdle<U>(m: Machine<U>, p: Op, o: Op, t: State<U>)
    requires IsSet(p) && IsSet(o) && p.a != o.a
    ensures Run(Steps(m), [p, o], Some(t)) == Some(t) <==> HasIt(p, t.regs) && HasIt(o, t.regs)
  {
    TwoSteps(m, p, o, t);
    WritesIdle(t.regs, p.a, p.n, o.a, o.n);
  }

  lemma {:induction false} TakenIdle<U>(m: Machine<U>, more: seq<Op>, t: State<U>)
    requires Taken(more)
    ensures Run(Steps(m), more, Some(t)) == Some(t) <==> AllHaveIt(more, t.regs)
  {
    if |more| == 1 {
      OneIdle(m, more[0], t);
      assert more == [more[0]];
    } else if |more| == 2 {
      TwoIdle(m, more[0], more[1], t);
      assert more == [more[0], more[1]];
    }
  }

  lemma SwallowedTaken(ops: seq<Op>, n: nat)
    requires |ops| == n + 2
    ensures Taken(ops[n..n+Swallowed(ops, n)])
  {
  }

  /** What code that does ops and more changes, compared with ops alone. */
  lemma {:induction false} IdleAfter<U>(m: Machine<U>, ops: seq<Op>, more: seq<Op>, both: seq<Op>, code: seq<Op>,
      s: Option<State<U>>)
    requires Taken(more) && both == ops + more && Run(Steps(m), code, s) == Run(Steps(m), both, s)
    ensures var t := Run(Steps(m), ops, s);
      Run(Steps(m), code, s) == t <==> t.None? || AllHaveIt(more, t.value.regs)
  {
    RunAppend(Steps(m), ops, more, s);
    var t := Run(Steps(m), ops, s);
    if t.None? { RunTrapped(Steps(m), more); } else { TakenIdle(m, more, t.value); }
  }

  /** From any state, pass and compaction keep the block exactly if the block traps, or each
      register set by an instruction taken in holds that number at the end of the block. */
  lemma {:induction false} BlockKeptExactly<U(!new)>(m: Machine<U>, ops: seq<Op>, n: nat, s: Option<State<U>>)
    requires |ops| == n + 2
    ensures var t, more := Run(Steps(m), ops[..n], s), ops[n..n+Swallowed(ops, n)];
      Run(Steps(m), Left(ops, n), s) == t <==> t.None? || AllHaveIt(more, t.value.regs)
  {
    SwallowedTaken(ops, n);
    var v := Swallowed(ops, n);
    PassAndCompact(m, ops, n, v, s);
    KeptIf(m, ops, n, v, Left(ops, n), s);
  }

  lemma {:induction false} KeptIf<U>(m: Machine<U>, ops: seq<Op>, n: nat, w: nat, code: seq<Op>, s: Option<State<U>>)
    requires n + w <= |ops| && Taken(ops[n..n+w]) && Run(Steps(m), code, s) == Run(Steps(m), ops[..n+w], s)
    ensures var t := Run(Steps(m), ops[..n], s);
      Run(Steps(m), code, s) == t <==> t.None? || AllHaveIt(ops[n..n+w], t.value.regs)
  {
    TakeMore(ops, n, n + w);
    IdleAfter(m, ops[..n], ops[n..n+w], ops[..n+w], code, s);
  }

  lemma ThirdSwallowed(ops: seq<Op>)
    requires ops == [NSET(1, 7), NSET(3, 8), NSET(5, 9), NOP]
    ensures Swallowed(ops, 2) == 1 && ops[..2] == [NSET(1, 7), NSET(3, 8)] && ops[2..3] == [NSET(5, 9)]
  {
    assert RunTo(ops, 1) == 2;
  }

  lemma {:induction false} OneTakenIn<U(!new)>(m: Machine<U>, ops: seq<Op>, n: nat, s: Option<State<U>>)
    requires |ops| == n + 2 && Swallowed(ops, n) == 1
    requires var t := Run(Steps(m), ops[..n], s); t.Some? && !HasIt(ops[n], t.value.regs)
    ensures Run(Steps(m), Left(ops, n), s) != Run(Steps(m), ops[..n], s)
  {
    BlockKeptExactly(m, ops, n, s);
    assert ops[n..n+1][0] == ops[n];
  }

  lemma {:induction false} TwoSetsLeave<U>(m: Machine<U>, s: State<U>)
    ensures var t := Run(Steps(m), [NSET(1, 7), NSET(3, 8)], Some(s));
      t.Some? && t.value.regs[5] == s.regs[5]
  {
    TwoSteps(m, NSET(1, 7), NSET(3, 8), s);
  }

  /** So a set in the slot after a block of two changes what the block does, wherever the
      register does not hold that number yet. */
  lemma {:induction false} SwallowingChangesTheBlock<U(!new)>(m: Machine<U>, ops: seq<Op>, s: State<U>)
    requires ops == [NSET(1, 7), NSET(3, 8), NSET(5, 9), NOP] && s.regs[5] != 9
    ensures Run(Steps(m), Left(ops, 2), Some(s)) != Run(Steps(m), ops[..2], Some(s))
  {
    ThirdSwallowed(ops);
    TwoSetsLeave(m, s);
    OneTakenIn(m, ops, 2, Some(s));
  }
}
