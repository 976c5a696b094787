/**
  The peephole pass over one basic block (module/classicvm/classicvm.h:88-208) and the
  removal of the NOPs it leaves (src/vm/asm.c:261-286). The pass looks up to two
  instructions ahead without a check against the end of the block, so the array has two
  slots more than the block: what it makes of them is part of the model.
 */
module VmPeephole {

  import opened Options
  import opened VmCode

  // ---------------------------------------------------------------- one step, as a rewrite

  /** What a step does with instruction o and the one before it, p. */
  datatype Fusion =
    | Keep
    | DropMove                   // o moves a register to itself
    | Forward(q: Op)             // p and o become q, in the place of o
    | Fuse(q: Op, k: nat)        // p and the k - 1 after it become q, in the place of p

  /** The step at o, of which x and y are the two instructions after it. */
  function Fusing(p: Op, o: Op, x: Op, y: Op): Fusion {
    if o.FCAST? && p.NMOV? && p.a == o.b && o.a == o.b then Forward(FCAST(o.a, p.b))
    else if o.ICAST? && p.NMOV? && p.a == o.b && o.a == o.b then Forward(ICAST(o.a, p.b))
    else if (o.NMOV? || o.OMOV?) && o.a == o.b then DropMove
    else if p.NSET? && o.NSET? then
      if p.a + K_NEXTIDX != o.a then Keep
      else if !x.NSET? || o.a + K_NEXTIDX != x.a then Fuse(NSET2(p.a, p.n, o.n), 2)
      else if y.NSET? && x.a + K_NEXTIDX == y.a then Fuse(NSET4(p.a, p.n, o.n, x.n, y.n), 4)
      else Fuse(NSET3(p.a, p.n, o.n, x.n), 3)
    else if p.OSET? && o.OSET? then
      if p.a + K_NEXTIDX != o.a then Keep
      else if !x.OSET? || o.a + K_NEXTIDX != x.a then Fuse(OSET2(p.a, p.n, o.n), 2)
      else if y.OSET? && x.a + K_NEXTIDX == y.a then Fuse(OSET4(p.a, p.n, o.n, x.n, y.n), 4)
      else Fuse(OSET3(p.a, p.n, o.n, x.n), 3)
    else if p.NMOV? && o.NMOV? then Fuse(NNMOV(p.a, p.b, o.a, o.b), 2)
    else if p.OMOV? && o.NMOV? then Fuse(ONMOV(p.a, p.b, o.a, o.b), 2)
    else if p.OMOV? && o.OMOV? then Fuse(OOMOV(p.a, p.b, o.a, o.b), 2)
    else Keep
  }

  /** The four instructions after the step. */
  function Rewrite(f: Fusion, p: Op, o: Op, x: Op, y: Op): (w: seq<Op>)
    ensures |w| == 4
  {
    match f
    case Keep => [p, o, x, y]
    case DropMove => [p, NOP, x, y]
    case Forward(q) => [NOP, q, x, y]
    case Fuse(q, k) => [q, NOP, if k >= 3 then NOP else x, if k >= 4 then NOP else y]
  }

  function Run4<S>(exec: Semantics<S>, p: Op, o: Op, x: Op, y: Op, s: Option<S>): Option<S> {
    Then(exec, y, Then(exec, x, Then(exec, o, Then(exec, p, s))))
  }

  /** The new instruction does what those it replaces do in order. */
  ghost predicate Sound<S>(exec: Semantics<S>, f: Fusion, p: Op, o: Op, x: Op, y: Op, s: S) {
    var two := Then(exec, o, exec(p, s));
    match f
    case Keep => true
    case DropMove => two == exec(p, s)
    case Forward(q) => exec(q, s) == two
    case Fuse(q, k) =>
      2 <= k <= 4 && exec(q, s) ==
        if k == 2 then two
        else if k == 3 then Then(exec, x, two)
        else Then(exec, y, Then(exec, x, two))
  }

  lemma RewriteKeeps<S(!new)>(exec: Semantics<S>, f: Fusion, p: Op, o: Op, x: Op, y: Op, s: Option<S>)
    requires (forall t :: exec(NOP, t) == Some(t)) && (s.Some? ==> Sound(exec, f, p, o, x, y, s.value))
    ensures var w := Rewrite(f, p, o, x, y); Run4(exec, w[0], w[1], w[2], w[3], s) == Run4(exec, p, o, x, y, s)
  {
  }

  // ---------------------------------------------------------------- what the pass relies on

  /** Two moves in one instruction run in order. */
  ghost predicate PairLaw<S>(exec: Semantics<S>, a: Reg, b: Reg, c: Reg, d: Reg, s: S) {
    && exec(NNMOV(a, b, c, d), s) == Then(exec, NMOV(c, d), exec(NMOV(a, b), s))
    && exec(ONMOV(a, b, c, d), s) == Then(exec, NMOV(c, d), exec(OMOV(a, b), s))
    && exec(OOMOV(a, b, c, d), s) == Then(exec, OMOV(c, d), exec(OMOV(a, b), s))
  }

  /** Setting k registers at once is setting the first k - 1, and then the next. */
  ghost predicate SetLaw<S>(exec: Semantics<S>, a: Reg, n: Word, n2: Word, n3: Word, n4: Word, s: S) {
    && exec(NSET2(a, n, n2), s) == Then(exec, NSET(a + K_NEXTIDX, n2), exec(NSET(a, n), s))
    && exec(NSET3(a, n, n2, n3), s) == Then(exec, NSET(a + K_NEXTIDX + K_NEXTIDX, n3), exec(NSET2(a, n, n2), s))
    && exec(NSET4(a, n, n2, n3, n4), s)
      == Then(exec, NSET(a + K_NEXTIDX + K_NEXTIDX + K_NEXTIDX, n4), exec(NSET3(a, n, n2, n3), s))
  }

  ghost predicate OSetLaw<S>(exec: Semantics<S>, a: Reg, n: Word, n2: Word, n3: Word, n4: Word, s: S) {
    && exec(OSET2(a, n, n2), s) == Then(exec, OSET(a + K_NEXTIDX, n2), exec(OSET(a, n), s))
    && exec(OSET3(a, n, n2, n3), s) == Then(exec, OSET(a + K_NEXTIDX + K_NEXTIDX, n3), exec(OSET2(a, n, n2), s))
    && exec(OSET4(a, n, n2, n3, n4), s)
      == Then(exec, OSET(a + K_NEXTIDX + K_NEXTIDX + K_NEXTIDX, n4), exec(OSET3(a, n, n2, n3), s))
  }

  /** A cast in place after a move is a cast of what was moved. */
  ghost predicate ForwardLaw<S>(exec: Semantics<S>, a: Reg, b: Reg, s: S) {
    && exec(FCAST(a, b), s) == Then(exec, FCAST(a, a), exec(NMOV(a, b), s))
    && exec(ICAST(a, b), s) == Then(exec, ICAST(a, a), exec(NMOV(a, b), s))
  }

  /** The number an instruction sets a register to. */
  function Number(op: Op): Word {
    if op.NSET? || op.OSET? then op.n else 0
  }

  lemma SetsFuse<S>(exec: Semantics<S>, p: Op, o: Op, x: Op, y: Op, s: S)
    requires p.NSET? && o.NSET? && SetLaw(exec, p.a, p.n, o.n, Number(x), Number(y), s)
    ensures Sound(exec, Fusing(p, o, x, y), p, o, x, y, s)
  {
  }

  lemma OSetsFuse<S>(exec: Semantics<S>, p: Op, o: Op, x: Op, y: Op, s: S)
    requires p.OSET? && o.OSET? && OSetLaw(exec, p.a, p.n, o.n, Number(x), Number(y), s)
    ensures Sound(exec, Fusing(p, o, x, y), p, o, x, y, s)
  {
  }

  lemma MovesFuse<S>(exec: Semantics<S>, p: Op, o: Op, x: Op, y: Op, s: S)
    requires o.NMOV? || o.OMOV?
    requires var t := exec(p, s); o.a == o.b && t.Some? ==> exec(o, t.value) == t
    requires p.NMOV? || p.OMOV? ==> PairLaw(exec, p.a, p.b, o.a, o.b, s)
    ensures Sound(exec, Fusing(p, o, x, y), p, o, x, y, s)
  {
  }

  lemma CastsFuse<S(!new)>(exec: Semantics<S>, p: Op, o: Op, x: Op, y: Op, s: S)
    requires (o.FCAST? || o.ICAST?) && (p.NMOV? ==> ForwardLaw(exec, p.a, p.b, s))
    ensures Sound(exec, Fusing(p, o, x, y), p, o, x, y, s)
  {
  }

  // ---------------------------------------------------------------- and the machine keeps to it

  lemma NumbersTwice(a: Reg, b: Reg, c: Reg, d: Reg, r: Regs)
    ensures Moved(NNMOV(a, b, c, d), r) == Moved(NMOV(c, d), Moved(NMOV(a, b), r))
  {
  }

  lemma ObjectAndNumber(a: Reg, b: Reg, c: Reg, d: Reg, r: Regs)
    ensures Moved(ONMOV(a, b, c, d), r) == Moved(NMOV(c, d), Moved(OMOV(a, b), r))
  {
  }

  lemma ObjectsTwice(a: Reg, b: Reg, c: Reg, d: Reg, r: Regs)
    ensures Moved(OOMOV(a, b, c, d), r) == Moved(OMOV(c, d), Moved(OMOV(a, b), r))
  {
  }

  lemma SetMore(a: Reg, n: Word, n2: Word, n3: Word, n4: Word, r: Regs)
    ensures Moved(NSET2(a, n, n2), r) == Moved(NSET(a + K_NEXTIDX, n2), Moved(NSET(a, n), r))
    ensures Moved(NSET3(a, n, n2, n3), r) == Moved(NSET(a + K_NEXTIDX + K_NEXTIDX, n3), Moved(NSET2(a, n, n2), r))
    ensures Moved(NSET4(a, n, n2, n3, n4), r)
      == Moved(NSET(a + K_NEXTIDX + K_NEXTIDX + K_NEXTIDX, n4), Moved(NSET3(a, n, n2, n3), r))
  {
  }

  lemma OSetMore(a: Reg, n: Word, n2: Word, n3: Word, n4: Word, r: Regs)
    ensures Moved(OSET2(a, n, n2), r) == Moved(OSET(a + K_NEXTIDX, n2), Moved(OSET(a, n), r))
    ensures Moved(OSET3(a, n, n2, n3), r) == Moved(OSET(a + K_NEXTIDX + K_NEXTIDX, n3), Moved(OSET2(a, n, n2), r))
    ensures Moved(OSET4(a, n, n2, n3, n4), r)
      == Moved(OSET(a + K_NEXTIDX + K_NEXTIDX + K_NEXTIDX, n4), Moved(OSET3(a, n, n2, n3), r))
  {
  }

  /** The register sets: which registers have which numbers afterwards, all others being as they
      were. */
  lemma SetsPlace(a: Reg, n: Word, n2: Word, n3: Word, n4: Word, r: Regs, i: Reg)
    ensures var w := if i == a then n else r[i]; Moved(NSET(a, n), r)[i] == Moved(OSET(a, n), r)[i] == w
    ensures var w := if i == a then n else if i == a + 2 then n2 else r[i];
      Moved(NSET2(a, n, n2), r)[i] == Moved(OSET2(a, n, n2), r)[i] == w
    ensures var w := if i == a then n else if i == a + 2 then n2 else if i == a + 4 then n3 else r[i];
      Moved(NSET3(a, n, n2, n3), r)[i] == Moved(OSET3(a, n, n2, n3), r)[i] == w
    ensures var w :=
        if i == a then n else if i == a + 2 then n2 else if i == a + 4 then n3 else if i == a + 6 then n4 else r[i];
      Moved(NSET4(a, n, n2, n3, n4), r)[i] == Moved(OSET4(a, n, n2, n3, n4), r)[i] == w
  {
  }

  /** And the moves: the second of two sees what the first has moved. */
  lemma MovesPlace(a: Reg, b: Reg, c: Reg, d: Reg, r: Regs, i: Reg)
    ensures var w := if i == a then r[b] else r[i]; Moved(NMOV(a, b), r)[i] == Moved(OMOV(a, b), r)[i] == w
    ensures var w := if i == c then (if d == a then r[b] else r[d]) else if i == a then r[b] else r[i];
      Moved(NNMOV(a, b, c, d), r)[i] == Moved(ONMOV(a, b, c, d), r)[i] == Moved(OOMOV(a, b, c, d), r)[i] == w
  {
  }

  lemma MoveToSelf(a: Reg, r: Regs)
    ensures Moved(NMOV(a, a), r) == r == Moved(OMOV(a, a), r)
  {
  }

  lemma MachineMoves<U(!new)>(m: Machine<U>)
    ensures forall op, s :: Moves(op) ==> Steps(m)(op, s) == Some(State(Moved(op, s.regs), s.world))
  {
  }

  lemma MachineDropsN<U>(m: Machine<U>, a: Reg, s: State<U>)
    ensures Steps(m)(NMOV(a, a), s) == Some(s)
  {
    MoveToSelf(a, s.regs);
  }

  lemma MachineDropsO<U>(m: Machine<U>, a: Reg, s: State<U>)
    ensures Steps(m)(OMOV(a, a), s) == Some(s)
  {
    MoveToSelf(a, s.regs);
  }

  lemma WriteTwice(r: Regs, a: Reg, x: Word, y: Word)
    ensures Write(Write(r, a, x), a, y) == Write(r, a, y)
  {
  }

  lemma MoveOne<U>(m: Machine<U>, a: Reg, b: Reg, s: State<U>)
    ensures Steps(m)(NMOV(a, b), s) == Some(State(Write(s.regs, a, s.regs[b]), s.world))
  {
  }

  lemma FloatCastOne<U>(m: Machine<U>, a: Reg, b: Reg, s: State<U>)
    ensures Steps(m)(FCAST(a, b), s) == Some(State(Write(s.regs, a, m.toFloat(s.regs[b])), s.world))
  {
  }

  lemma FloatForward<U>(exec: Semantics<State<U>>, f: Word -> Word, a: Reg, b: Reg, s: State<U>, t: State<U>)
    requires t == State(Write(s.regs, a, s.regs[b]), s.world) && exec(NMOV(a, b), s) == Some(t)
    requires exec(FCAST(a, b), s) == Some(State(Write(s.regs, a, f(s.regs[b])), s.world))
    requires exec(FCAST(a, a), t) == Some(State(Write(t.regs, a, f(t.regs[a])), t.world))
    ensures exec(FCAST(a, b), s) == Then(exec, FCAST(a, a), exec(NMOV(a, b), s))
  {
    assert t.regs[a] == s.regs[b];
    WriteTwice(s.regs, a, s.regs[b], f(s.regs[b]));
  }

  lemma MachineFloatCast<U>(m: Machine<U>, a: Reg, b: Reg, s: State<U>)
    ensures Steps(m)(FCAST(a, b), s) == Then(Steps(m), FCAST(a, a), Steps(m)(NMOV(a, b), s))
  {
    var t := State(Write(s.regs, a, s.regs[b]), s.world);
    MoveOne(m, a, b, s);
    FloatCastOne(m, a, b, s);
    FloatCastOne(m, a, a, t);
    FloatForward(Steps(m), m.toFloat, a, b, s, t);
  }

  lemma IntCastOne<U>(m: Machine<U>, a: Reg, b: Reg, s: State<U>)
    ensures Steps(m)(ICAST(a, b), s) == Some(State(Write(s.regs, a, m.toInt(s.regs[b])), s.world))
  {
  }

  lemma IntForward<U>(exec: Semantics<State<U>>, f: Word -> Word, a: Reg, b: Reg, s: State<U>, t: State<U>)
    requires t == State(Write(s.regs, a, s.regs[b]), s.world) && exec(NMOV(a, b), s) == Some(t)
    requires exec(ICAST(a, b), s) == Some(State(Write(s.regs, a, f(s.regs[b])), s.world))
    requires exec(ICAST(a, a), t) == Some(State(Write(t.regs, a, f(t.regs[a])), t.world))
    ensures exec(ICAST(a, b), s) == Then(exec, ICAST(a, a), exec(NMOV(a, b), s))
  {
    assert t.regs[a] == s.regs[b];
    WriteTwice(s.regs, a, s.regs[b], f(s.regs[b]));
  }

  lemma MachineIntCast<U>(m: Machine<U>, a: Reg, b: Reg, s: State<U>)
    ensures Steps(m)(ICAST(a, b), s) == Then(Steps(m), ICAST(a, a), Steps(m)(NMOV(a, b), s))
  {
    var t := State(Write(s.regs, a, s.regs[b]), s.world);
    MoveOne(m, a, b, s);
    IntCastOne(m, a, b, s);
    IntCastOne(m, a, a, t);
    IntForward(Steps(m), m.toInt, a, b, s, t);
  }

  lemma MachinePairs<U(!new)>(m: Machine<U>, a: Reg, b: Reg, c: Reg, d: Reg, s: State<U>)
    ensures PairLaw(Steps(m), a, b, c, d, s)
  {
    MachineMoves(m);
    NumbersTwice(a, b, c, d, s.regs);
    ObjectAndNumber(a, b, c, d, s.regs);
    ObjectsTwice(a, b, c, d, s.regs);
  }

  lemma MachineSets<U(!new)>(m: Machine<U>, a: Reg, n: Word, n2: Word, n3: Word, n4: Word, s: State<U>)
    ensures SetLaw(Steps(m), a, n, n2, n3, n4, s)
  {
    MachineMoves(m);
    SetMore(a, n, n2, n3, n4, s.regs);
  }

  lemma MachineOSets<U(!new)>(m: Machine<U>, a: Reg, n: Word, n2: Word, n3: Word, n4: Word, s: State<U>)
    ensures OSetLaw(Steps(m), a, n, n2, n3, n4, s)
  {
    MachineMoves(m);
    OSetMore(a, n, n2, n3, n4, s.regs);
  }

  lemma SetsSound<U(!new)>(m: Machine<U>, p: Op, o: Op, x: Op, y: Op, s: State<U>)
    requires (p.NSET? && o.NSET?) || (p.OSET? && o.OSET?)
    ensures Sound(Steps(m), Fusing(p, o, x, y), p, o, x, y, s)
  {
    if p.NSET? {
      MachineSets(m, p.a, p.n, o.n, Number(x), Number(y), s);
      SetsFuse(Steps(m), p, o, x, y, s);
    } else {
      MachineOSets(m, p.a, p.n, o.n, Number(x), Number(y), s);
      OSetsFuse(Steps(m), p, o, x, y, s);
    }
  }

  lemma MovesSound<U(!new)>(m: Machine<U>, p: Op, o: Op, x: Op, y: Op, s: State<U>)
    requires o.NMOV? || o.OMOV?
    ensures Sound(Steps(m), Fusing(p, o, x, y), p, o, x, y, s)
  {
    if p.NMOV? || p.OMOV? { MachinePairs(m, p.a, p.b, o.a, o.b, s); }
    var t := Steps(m)(p, s);
    if o.a == o.b && t.Some? {
      if o.NMOV? { MachineDropsN(m, o.a, t.value); } else { MachineDropsO(m, o.a, t.value); }
    }
    MovesFuse(Steps(m), p, o, x, y, s);
  }

  lemma CastsSound<U(!new)>(m: Machine<U>, p: Op, o: Op, x: Op, y: Op, s: State<U>)
    requires o.FCAST? || o.ICAST?
    ensures Sound(Steps(m), Fusing(p, o, x, y), p, o, x, y, s)
  {
    if p.NMOV? {
      MachineFloatCast(m, p.a, p.b, s);
      MachineIntCast(m, p.a, p.b, s);
    }
    CastsFuse(Steps(m), p, o, x, y, s);
  }

  lemma OthersKept(p: Op, o: Op, x: Op, y: Op)
    requires !((p.NSET? && o.NSET?) || (p.OSET? && o.OSET?)) && !o.NMOV? && !o.OMOV? && !o.FCAST? && !o.ICAST?
    ensures Fusing(p, o, x, y) == Keep
  {
  }

  /** Every step of the pass is sound on the machine. */
  lemma FusingSound<U(!new)>(m: Machine<U>, p: Op, o: Op, x: Op, y: Op, s: State<U>)
    ensures Sound(Steps(m), Fusing(p, o, x, y), p, o, x, y, s)
  {
    if (p.NSET? && o.NSET?) || (p.OSET? && o.OSET?) {
      SetsSound(m, p, o, x, y, s);
    } else if o.NMOV? || o.OMOV? {
      MovesSound(m, p, o, x, y, s);
    } else if o.FCAST? || o.ICAST? {
      CastsSound(m, p, o, x, y, s);
    } else {
      OthersKept(p, o, x, y);
    }
  }

  // ---------------------------------------------------------------- the pass over a block

  /** The step at position i. */
  function PeepStep(ops: seq<Op>, i: nat): (r: seq<Op>)
    requires 1 <= i && i + 2 < |ops|
    ensures |r| == |ops|
  {
    var p, o, x, y := ops[i-1], ops[i], ops[i+1], ops[i+2];
    ops[..i-1] + Rewrite(Fusing(p, o, x, y), p, o, x, y) + ops[i+3..]
  }

  /** The steps from position i on, over a block of n instructions with two slots after it. */
  function Peep(ops: seq<Op>, i: nat, n: nat): (r: seq<Op>)
    requires 1 <= i && |ops| == n + 2
    ensures |r| == |ops|
    decreases n - i
  {
    if i >= n then ops else Peep(PeepStep(ops, i), i + 1, n)
  }

  lemma {:induction false} RunFour<S>(exec: Semantics<S>, w: seq<Op>, s: Option<S>)
    requires |w| == 4
    ensures Run(exec, w, s) == Run4(exec, w[0], w[1], w[2], w[3], s)
  {
    var s1 := Then(exec, w[0], s);
    var s2 := Then(exec, w[1], s1);
    var s3 := Then(exec, w[2], s2);
    assert w == [w[0]] + ([w[1]] + ([w[2]] + [w[3]]));
    RunAppend(exec, [w[0]], [w[1]] + ([w[2]] + [w[3]]), s);
    RunOne(exec, w[0], s);
    RunAppend(exec, [w[1]], [w[2]] + [w[3]], s1);
    RunOne(exec, w[1], s1);
    RunAppend(exec, [w[2]], [w[3]], s2);
    RunOne(exec, w[2], s2);
    RunOne(exec, w[3], s3);
  }

  /** Replacing a stretch by one of the same effect. */
  lemma {:induction false} RunSplice<S>(exec: Semantics<S>, pre: seq<Op>, w: seq<Op>, v: seq<Op>, post: seq<Op>,
      s: Option<S>)
    requires var t := Run(exec, pre, s); Run(exec, w, t) == Run(exec, v, t)
    ensures Run(exec, pre + w + post, s) == Run(exec, pre + v + post, s)
  {
    RunAppend(exec, pre + w, post, s);
    RunAppend(exec, pre, w, s);
    RunAppend(exec, pre + v, post, s);
    RunAppend(exec, pre, v, s);
  }

  /** What the pass needs of the instructions. */
  ghost predicate PassLaws<S(!new)>(exec: Semantics<S>) {
    && (forall s :: exec(NOP, s) == Some(s))
    && (forall p, o, x, y, s :: Sound(exec, Fusing(p, o, x, y), p, o, x, y, s))
  }

  /** The machine provides it. */
  lemma MachinePasses<U(!new)>(m: Machine<U>)
    ensures PassLaws(Steps(m))
  {
    MachineMoves(m);
    forall p, o, x, y, s ensures Sound(Steps(m), Fusing(p, o, x, y), p, o, x, y, s) {
      FusingSound(m, p, o, x, y, s);
    }
  }

  lemma {:induction false} FourKeeps<S(!new)>(exec: Semantics<S>, w: seq<Op>, v: seq<Op>, s: Option<S>)
    requires PassLaws(exec)
    requires |w| == 4 && v == Rewrite(Fusing(w[0], w[1], w[2], w[3]), w[0], w[1], w[2], w[3])
    ensures Run(exec, v, s) == Run(exec, w, s)
  {
    assert s.Some? ==> Sound(exec, Fusing(w[0], w[1], w[2], w[3]), w[0], w[1], w[2], w[3], s.value);
    RewriteKeeps(exec, Fusing(w[0], w[1], w[2], w[3]), w[0], w[1], w[2], w[3], s);
    RunFour(exec, w, s);
    RunFour(exec, v, s);
  }

  lemma {:induction false} PeepStepKeeps<S(!new)>(exec: Semantics<S>, ops: seq<Op>, i: nat, s: Option<S>)
    requires PassLaws(exec)
    requires 1 <= i && i + 2 < |ops|
    ensures Run(exec, PeepStep(ops, i), s) == Run(exec, ops, s)
  {
    var w := ops[i-1..i+3];
    var v := Rewrite(Fusing(w[0], w[1], w[2], w[3]), w[0], w[1], w[2], w[3]);
    FourKeeps(exec, w, v, Run(exec, ops[..i-1], s));
    RunSplice(exec, ops[..i-1], w, v, ops[i+3..], s);
    assert ops == ops[..i-1] + w + ops[i+3..];
  }

  /** The block and the two slots after it do the same before and after the pass. */
  lemma {:induction false} PeepKeeps<S(!new)>(exec: Semantics<S>, ops: seq<Op>, i: nat, n: nat, s: Option<S>)
    requires PassLaws(exec)
    requires 1 <= i && |ops| == n + 2
    ensures Run(exec, Peep(ops, i, n), s) == Run(exec, ops, s)
    decreases n - i
  {
    if i < n {
      PeepStepKeeps(exec, ops, i, s);
      PeepKeeps(exec, PeepStep(ops, i), i + 1, n, s);
    }
  }

  // ---------------------------------------------------------------- nothing is left to do

  /** Two instructions that one can do the work of: sets of registers that follow each other,
      moves, one of them to itself, and a cast in place of what was moved there. */
  predicate CanFuse(p: Op, o: Op) {
    || (p.NSET? && o.NSET? && o.a == p.a + K_NEXTIDX) || (p.OSET? && o.OSET? && o.a == p.a + K_NEXTIDX)
    || (p.NMOV? && o.NMOV?) || (p.OMOV? && (o.NMOV? || o.OMOV?)) || ((o.NMOV? || o.OMOV?) && o.a == o.b)
    || ((o.FCAST? || o.ICAST?) && o.a == o.b && p.NMOV? && p.a == o.a)
  }

  predicate NoneFuse(ops: seq<Op>, n: nat)
    requires n <= |ops|
  {
    forall j | 1 <= j < n :: !CanFuse(ops[j-1], ops[j])
  }

  lemma FusingDone(p: Op, o: Op, x: Op, y: Op)
    ensures var w := Rewrite(Fusing(p, o, x, y), p, o, x, y);
      !CanFuse(w[0], w[1]) && (w[0] == p || forall q :: !CanFuse(q, w[0]))
  {
  }

  lemma {:induction false} PeepStepDone(ops: seq<Op>, i: nat)
    requires 1 <= i && i + 2 < |ops| && NoneFuse(ops, i)
    ensures NoneFuse(PeepStep(ops, i), i + 1)
  {
    FusingDone(ops[i-1], ops[i], ops[i+1], ops[i+2]);
    var r := PeepStep(ops, i);
    forall j | 1 <= j < i + 1 ensures !CanFuse(r[j-1], r[j]) {
      if j < i { assert r[j-1] == ops[j-1]; }
    }
  }

  /** After the pass no two neighbours in the block can be fused any more. */
  lemma {:induction false} NothingLeft(ops: seq<Op>, i: nat, n: nat)
    requires 1 <= i && |ops| == n + 2 && NoneFuse(ops, if i < n then i else n)
    ensures NoneFuse(Peep(ops, i, n), n)
    decreases n - i
  {
    if i < n {
      PeepStepDone(ops, i);
      NothingLeft(PeepStep(ops, i), i + 1, n);
    }
  }

  // ---------------------------------------------------------------- the slots after the block

  /** How many instructions a step looks at to good effect. */
  function Span(f: Fusion): nat {
    if f.Fuse? then f.k else 2
  }

  lemma SpanOfSets(p: Op, o: Op, x: Op, y: Op)
    ensures var k := Span(Fusing(p, o, x, y));
      2 <= k <= 4 && (k >= 3 ==> x.NSET? || x.OSET?) && (k >= 4 ==> y.NSET? || y.OSET?)
  {
  }

  /** What lies past those might as well be NOP. */
  lemma FusingThree(p: Op, o: Op, x: Op, y: Op)
    requires Span(Fusing(p, o, x, y)) <= 3
    ensures Fusing(p, o, x, NOP) == Fusing(p, o, x, y)
  {
  }

  lemma FusingTwo(p: Op, o: Op, x: Op, y: Op)
    requires Span(Fusing(p, o, x, y)) <= 2
    ensures Fusing(p, o, NOP, NOP) == Fusing(p, o, x, y)
  {
  }

  lemma {:induction false} RunNops<S(!new)>(exec: Semantics<S>, ops: seq<Op>, s: Option<S>)
    requires PassLaws(exec)
    requires forall j | 0 <= j < |ops| :: ops[j] == NOP
    ensures Run(exec, ops, s) == s
  {
    if ops != [] {
      assert Then(exec, NOP, s) == s;
      RunNops(exec, ops[1..], s);
    }
  }

  lemma {:induction false} RunThenNops<S(!new)>(exec: Semantics<S>, ops: seq<Op>, nops: seq<Op>, s: Option<S>)
    requires PassLaws(exec)
    requires forall j | 0 <= j < |nops| :: nops[j] == NOP
    ensures Run(exec, ops + nops, s) == Run(exec, ops, s)
  {
    RunAppend(exec, ops, nops, s);
    RunNops(exec, nops, Run(exec, ops, s));
  }

  lemma PeepStepAt(ops: seq<Op>, i: nat, j: nat)
    requires 1 <= i && i + 2 < |ops| && j < |ops|
    ensures PeepStep(ops, i)[j] == if i - 1 <= j < i + 3
      then Rewrite(Fusing(ops[i-1], ops[i], ops[i+1], ops[i+2]), ops[i-1], ops[i], ops[i+1], ops[i+2])[j - (i - 1)]
        else ops[j]
  {
  }

  /** A step on a prefix that holds all it works on, with NOPs after it. */
  lemma StepOnPrefix(ops: seq<Op>, i: nat, l: nat)
    requires 1 <= i && i + 2 < |ops|
    requires i - 1 + Span(Fusing(ops[i-1], ops[i], ops[i+1], ops[i+2])) <= l <= |ops|
    ensures |ops[..l] + [NOP, NOP]| == l + 2 && i + 2 < l + 2
    ensures PeepStep(ops[..l] + [NOP, NOP], i) == PeepStep(ops, i)[..l] + [NOP, NOP]
  {
    var p, o, x, y := ops[i-1], ops[i], ops[i+1], ops[i+2];
    var f := Fusing(p, o, x, y);
    SpanOfSets(p, o, x, y);
    var short := ops[..l] + [NOP, NOP];
    var x', y' := if i + 1 < l then x else NOP, if i + 2 < l then y else NOP;
    assert short[i-1] == p && short[i] == o && short[i+1] == x' && short[i+2] == y';
    if Span(f) <= 3 { FusingThree(p, o, x, y); }
    if Span(f) <= 2 { FusingTwo(p, o, x, y); }
    assert Fusing(p, o, x', y') == f;
    RewriteSpan(f, p, o, x, y);
    RewriteSpan(f, p, o, x', y');
    var next, shortNext := PeepStep(ops, i), PeepStep(short, i);
    forall j | 0 <= j < l + 2 ensures shortNext[j] == (next[..l] + [NOP, NOP])[j] {
      PeepStepAt(short, i, j);
      if j < l { PeepStepAt(ops, i, j); }
    }
  }

  /** The two instructions that a step looks ahead to, after it. */
  lemma RewriteSpan(f: Fusion, p: Op, o: Op, x: Op, y: Op)
    requires f.Fuse? ==> f.k >= 2
    ensures var w := Rewrite(f, p, o, x, y);
      && w[0] == Rewrite(f, p, o, NOP, NOP)[0] && w[1] == Rewrite(f, p, o, NOP, NOP)[1]
      && w[2] == (if Span(f) >= 3 then NOP else x) && w[3] == (if Span(f) >= 4 then NOP else y)
  {
  }

  /** A step keeps any prefix that holds all it works on. */
  lemma {:induction false} PeepStepPrefix<S(!new)>(exec: Semantics<S>, ops: seq<Op>, i: nat, l: nat, s: Option<S>)
    requires PassLaws(exec)
    requires 1 <= i && i + 2 < |ops|
    requires i - 1 + Span(Fusing(ops[i-1], ops[i], ops[i+1], ops[i+2])) <= l <= |ops|
    ensures Run(exec, PeepStep(ops, i)[..l], s) == Run(exec, ops[..l], s)
  {
    StepOnPrefix(ops, i, l);
    PeepStepKeeps(exec, ops[..l] + [NOP, NOP], i, s);
    RunThenNops(exec, ops[..l], [NOP, NOP], s);
    RunThenNops(exec, PeepStep(ops, i)[..l], [NOP, NOP], s);
  }

  /** Of the two slots after a block of n, the first w are overwritten by NOP and the rest is as it was. */
  ghost predicate TailIs(ops: seq<Op>, now: seq<Op>, n: nat, w: nat) {
    && |ops| == |now| == n + 2 && w <= 2
    && (forall j | n <= j < n + w :: now[j] == NOP && (ops[j].NSET? || ops[j].OSET?))
    && (forall j | n + w <= j < n + 2 :: now[j] == ops[j])
  }

  lemma TailWas(ops: seq<Op>, now: seq<Op>, n: nat, w: nat)
    requires |ops| == |now| == n + 2 && w <= 2
    requires if w >= 1 then now[n] == NOP && (ops[n].NSET? || ops[n].OSET?) else now[n] == ops[n]
    requires if w == 2 then now[n+1] == NOP && (ops[n+1].NSET? || ops[n+1].OSET?) else now[n+1] == ops[n+1]
    ensures TailIs(ops, now, n, w)
  {
  }

  /** How many of the two slots a step overwrites: they must hold sets that carry on a run. */
  lemma TailStep(ops: seq<Op>, now: seq<Op>, i: nat, n: nat, w: nat) returns (w': nat)
    requires TailIs(ops, now, n, w) && 1 <= i < n
    ensures TailIs(ops, PeepStep(now, i), n, w')
    ensures var l := i - 1 + Span(Fusing(now[i-1], now[i], now[i+1], now[i+2]));
      if l > n then w == 0 && w' == l - n else w' == w
  {
    var p, o, x, y := now[i-1], now[i], now[i+1], now[i+2];
    var f := Fusing(p, o, x, y);
    SpanOfSets(p, o, x, y);
    RewriteSpan(f, p, o, x, y);
    w' := if i - 1 + Span(f) > n then i - 1 + Span(f) - n else w;
    PeepStepAt(now, i, n);
    PeepStepAt(now, i, n + 1);
    TailWas(ops, PeepStep(now, i), n, w');
  }

  lemma TakeMore<T>(s: seq<T>, n: nat, l: nat)
    requires n <= l <= |s|
    ensures s[..l] == s[..n] + s[n..l]
  {
  }

  lemma {:induction false} NopsAfter<S(!new)>(exec: Semantics<S>, ops: seq<Op>, n: nat, l: nat, s: Option<S>)
    requires PassLaws(exec) && n <= l <= |ops| && forall j | n <= j < l :: ops[j] == NOP
    ensures Run(exec, ops[..l], s) == Run(exec, ops[..n], s)
  {
    TakeMore(ops, n, l);
    RunThenNops(exec, ops[..n], ops[n..l], s);
  }

  lemma {:induction false} SameAfter<S>(exec: Semantics<S>, p: seq<Op>, q: seq<Op>, n: nat, l: nat, s: Option<S>)
    requires n <= l <= |p| && l <= |q| && Run(exec, p[..n], s) == Run(exec, q[..n], s)
    requires forall j | n <= j < l :: p[j] == q[j]
    ensures Run(exec, p[..l], s) == Run(exec, q[..l], s)
  {
    TakeMore(p, n, l);
    TakeMore(q, n, l);
    assert p[n..l] == q[n..l];
    RunAppend(exec, p[..n], p[n..l], s);
    RunAppend(exec, q[..n], q[n..l], s);
  }

  lemma {:induction false} StepMeaning<S(!new)>(exec: Semantics<S>, ops: seq<Op>, now: seq<Op>, i: nat, n: nat, w: nat,
      w': nat, s: Option<S>)
    requires PassLaws(exec)
    requires TailIs(ops, now, n, w) && 1 <= i < n && Run(exec, now[..n], s) == Run(exec, ops[..n+w], s)
    requires TailIs(ops, PeepStep(now, i), n, w')
    requires var l := i - 1 + Span(Fusing(now[i-1], now[i], now[i+1], now[i+2]));
      if l > n then w == 0 && w' == l - n else w' == w
    ensures Run(exec, PeepStep(now, i)[..n], s) == Run(exec, ops[..n+w'], s)
  {
    var l := i - 1 + Span(Fusing(now[i-1], now[i], now[i+1], now[i+2]));
    var next := PeepStep(now, i);
    if l > n {
      PeepStepPrefix(exec, now, i, l, s);
      NopsAfter(exec, next, n, l, s);
      SameAfter(exec, now, ops, n, l, s);
    } else {
      PeepStepPrefix(exec, now, i, n, s);
    }
  }

  /** Run from s, the block is as if the first w instructions after it had been part of it. */
  ghost predicate AsIf<S>(exec: Semantics<S>, ops: seq<Op>, now: seq<Op>, n: nat, w: nat, s: Option<S>) {
    TailIs(ops, now, n, w) && Run(exec, now[..n], s) == Run(exec, ops[..n+w], s)
  }

  lemma AsIfNext<S(!new)>(exec: Semantics<S>, ops: seq<Op>, now: seq<Op>, i: nat, n: nat, w: nat, s: Option<S>)
    returns (w': nat)
    requires PassLaws(exec) && AsIf(exec, ops, now, n, w, s) && 1 <= i < n
    ensures AsIf(exec, ops, PeepStep(now, i), n, w', s)
  {
    w' := TailStep(ops, now, i, n, w);
    StepMeaning(exec, ops, now, i, n, w, w', s);
  }

  lemma {:induction false} PeepFrom<S(!new)>(exec: Semantics<S>, ops: seq<Op>, now: seq<Op>, i: nat, n: nat, w: nat,
      s: Option<S>)
    returns (w': nat)
    requires PassLaws(exec) && 1 <= i && |now| == n + 2 && AsIf(exec, ops, now, n, w, s)
    ensures AsIf(exec, ops, Peep(now, i, n), n, w', s)
    decreases n - i
  {
    if i >= n {
      w' := w;
    } else {
      var v := AsIfNext(exec, ops, now, i, n, w, s);
      w' := PeepFrom(exec, ops, PeepStep(now, i), i + 1, n, v, s);
    }
  }

  /** Instructions the pass has no business with: all but sets, moves, casts and NOPs. */
  predicate Untouched(op: Op) {
    !Moves(op) && !op.FCAST? && !op.ICAST?
  }

  /** They stay where they are, so the instruction that ends a block still does. */
  lemma {:induction false} OthersStay(ops: seq<Op>, i: nat, n: nat, j: nat)
    requires 1 <= i && |ops| == n + 2 && j < |ops| && Untouched(ops[j])
    ensures Peep(ops, i, n)[j] == ops[j]
    decreases n - i
  {
    if i < n { OthersStay(PeepStep(ops, i), i + 1, n, j); }
  }

  // ---------------------------------------------------------------- removing the NOPs

  function Compact(ops: seq<Op>): seq<Op> {
    if ops == [] then [] else (if ops[0] == NOP then [] else [ops[0]]) + Compact(ops[1..])
  }

  lemma {:induction false} CompactKeeps<S(!new)>(exec: Semantics<S>, ops: seq<Op>, s: Option<S>)
    requires PassLaws(exec)
    ensures Run(exec, Compact(ops), s) == Run(exec, ops, s)
  {
    if ops != [] {
      var t := Then(exec, ops[0], s);
      CompactKeeps(exec, ops[1..], t);
      if ops[0] == NOP {
        assert Compact(ops) == Compact(ops[1..]);
      } else {
        assert Compact(ops) == [ops[0]] + Compact(ops[1..]);
        RunAppend(exec, [ops[0]], Compact(ops[1..]), s);
        RunOne(exec, ops[0], s);
      }
    }
  }

  lemma {:induction false} CompactSnoc(ops: seq<Op>, op: Op)
    ensures Compact(ops + [op]) == Compact(ops) + if op == NOP then [] else [op]
  {
    if ops == [] {
      assert ops + [op] == [op];
      assert Compact([op][1..]) == [];
    } else {
      var h := if ops[0] == NOP then [] else [ops[0]];
      var more := if op == NOP then [] else [op];
      assert (ops + [op])[1..] == ops[1..] + [op];
      assert Compact(ops + [op]) == h + Compact(ops[1..] + [op]);
      CompactSnoc(ops[1..], op);
      assert h + (Compact(ops[1..]) + more) == (h + Compact(ops[1..])) + more;
    }
  }

  /** No NOP is left, and everything else is, as often as before. */
  lemma {:induction false} CompactIs(ops: seq<Op>)
    ensures multiset(Compact(ops)) == multiset(ops)[NOP := 0]
  {
    if ops != [] {
      CompactIs(ops[1..]);
      assert ops == [ops[0]] + ops[1..];
      assert Compact(ops) == (if ops[0] == NOP then [] else [ops[0]]) + Compact(ops[1..]);
    }
  }

  lemma {:induction false} CompactLength(ops: seq<Op>)
    ensures |Compact(ops)| <= |ops|
    ensures |Compact(ops)| == |ops| ==> Compact(ops) == ops
  {
    if ops != [] { CompactLength(ops[1..]); }
  }

  // ---------------------------------------------------------------- the pass in place

  /** An array in which just the four instructions have been rewritten. */
  lemma Placed(was: seq<Op>, now: seq<Op>, i: nat)
    requires 1 <= i && i + 2 < |was| == |now|
    requires forall j | 0 <= j < |was| && !(i - 1 <= j < i + 3) :: now[j] == was[j]
    requires [now[i-1], now[i], now[i+1], now[i+2]]
      == Rewrite(Fusing(was[i-1], was[i], was[i+1], was[i+2]), was[i-1], was[i], was[i+1], was[i+2])
    ensures now == PeepStep(was, i)
  {
    forall j | 0 <= j < |was| ensures now[j] == PeepStep(was, i)[j] {
      PeepStepAt(was, i, j);
      if i - 1 <= j < i + 3 { assert now[j] == [now[i-1], now[i], now[i+1], now[i+2]][j - (i - 1)]; }
    }
  }

  /** Its part for sets of numbers. */
  method PeepNSets(code: array<Op>, i: nat)
    requires 1 <= i && i + 2 < code.Length && code[i-1].NSET? && code[i].NSET?
    modifies code
    ensures code[..] == PeepStep(old(code[..]), i)
  {
    ghost var was := code[..];
    var p, o := code[i-1], code[i];
    if p.a + K_NEXTIDX != o.a {
      Placed(was, code[..], i);
      return;
    }
    var o3, o4 := code[i+1], code[i+2];
    if o3.NSET? && o.a + K_NEXTIDX == o3.a {
      if o4.NSET? && o3.a + K_NEXTIDX == o4.a {
        code[i-1] := NSET4(p.a, p.n, o.n, o3.n, o4.n);
        code[i], code[i+1], code[i+2] := NOP, NOP, NOP;
      } else {
        code[i-1] := NSET3(p.a, p.n, o.n, o3.n);
        code[i], code[i+1] := NOP, NOP;
      }
    } else {
      code[i-1] := NSET2(p.a, p.n, o.n);
      code[i] := NOP;
    }
    Placed(was, code[..], i);
  }

  /** Its part for sets of objects. */
  method PeepOSets(code: array<Op>, i: nat)
    requires 1 <= i && i + 2 < code.Length && code[i-1].OSET? && code[i].OSET?
    modifies code
    ensures code[..] == PeepStep(old(code[..]), i)
  {
    ghost var was := code[..];
    var p, o := code[i-1], code[i];
    if p.a + K_NEXTIDX != o.a {
      Placed(was, code[..], i);
      return;
    }
    var o3, o4 := code[i+1], code[i+2];
    if o3.OSET? && o.a + K_NEXTIDX == o3.a {
      if o4.OSET? && o3.a + K_NEXTIDX == o4.a {
        code[i-1] := OSET4(p.a, p.n, o.n, o3.n, o4.n);
        code[i], code[i+1], code[i+2] := NOP, NOP, NOP;
      } else {
        code[i-1] := OSET3(p.a, p.n, o.n, o3.n);
        code[i], code[i+1] := NOP, NOP;
      }
    } else {
      code[i-1] := OSET2(p.a, p.n, o.n);
      code[i] := NOP;
    }
    Placed(was, code[..], i);
  }

  /** Its part for moves. */
  method PeepMoves(code: array<Op>, i: nat)
    requires 1 <= i && i + 2 < code.Length && (code[i].NMOV? || code[i].OMOV?)
    modifies code
    ensures code[..] == PeepStep(old(code[..]), i)
  {
    ghost var was := code[..];
    var p, o := code[i-1], code[i];
    if o.a == o.b {
      code[i] := NOP;
    } else if o.NMOV? && p.NMOV? {
      code[i-1] := NNMOV(p.a, p.b, o.a, o.b);
      code[i] := NOP;
    } else if o.NMOV? && p.OMOV? {
      code[i-1] := ONMOV(p.a, p.b, o.a, o.b);
      code[i] := NOP;
    } else if o.OMOV? && p.OMOV? {
      code[i-1] := OOMOV(p.a, p.b, o.a, o.b);
      code[i] := NOP;
    }
    Placed(was, code[..], i);
  }

  /** The body of the loop of CLASSICVM_BasicBlock_peephole. */
  method PeepAt(code: array<Op>, i: nat)
    requires 1 <= i && i + 2 < code.Length
    modifies code
    ensures code[..] == PeepStep(old(code[..]), i)
  {
    ghost var was := code[..];
    var p, o := code[i-1], code[i];
    if (o.FCAST? || o.ICAST?) && p.NMOV? {
      if p.a == o.b && o.a == o.b {
        code[i] := if o.FCAST? then FCAST(o.a, p.b) else ICAST(o.a, p.b);
        code[i-1] := NOP;
      }
      Placed(was, code[..], i);
    } else if o.NMOV? || o.OMOV? {
      PeepMoves(code, i);
    } else if p.NSET? && o.NSET? {
      PeepNSets(code, i);
    } else if p.OSET? && o.OSET? {
      PeepOSets(code, i);
    } else {
      Placed(was, code[..], i);
    }
  }

  /** CLASSICVM_BasicBlock_peephole: code holds a block of n instructions, and the two slots after it. */
  method Peephole(code: array<Op>, n: nat)
    requires code.Length == n + 2
    modifies code
    ensures code[..] == Peep(old(code[..]), 1, n)
  {
    var i := 1;
    while i < n
      invariant 1 <= i && Peep(code[..], i, n) == Peep(old(code[..]), 1, n)
    {
      PeepAt(code, i);
      i := i + 1;
    }
  }

  /** BasicBlock_peephole: the pass, and then the NOPs are squeezed out of the block, whose new
      size is returned. */
  method PeepholeAndCompact(code: array<Op>, n: nat) returns (size: nat)
    requires code.Length == n + 2
    modifies code
    ensures size <= n && code[..size] == Compact(Peep(old(code[..]), 1, n)[..n])
  {
    Peephole(code, n);
    ghost var ops := code[..n];
    size := n;
    var i := 0;
    while i < n
      invariant 0 <= i <= n && code[..n] == ops
      invariant size == n - i + |Compact(ops[..i])|
    {
      assert ops[..i+1] == ops[..i] + [ops[i]];
      CompactSnoc(ops[..i], ops[i]);
      if code[i] == NOP { size := size - 1; }
      i := i + 1;
    }
    assert ops[..n] == ops;
    CompactLength(ops);
    if size < n {
      Squeeze(code, n, ops);
    }
  }

  /** Copy what is not NOP down over what is. */
  method Squeeze(code: array<Op>, n: nat, ghost ops: seq<Op>)
    requires n <= code.Length && code[..n] == ops
    modifies code
    ensures |Compact(ops)| <= n && code[..|Compact(ops)|] == Compact(ops)
  {
    var d := 0;
    var i := 0;
    while i < n
      invariant 0 <= d <= i <= n
      invariant code[..d] == Compact(ops[..i])
      invariant forall k | i <= k < n :: code[k] == ops[k]
    {
      assert ops[..i+1] == ops[..i] + [ops[i]];
      CompactSnoc(ops[..i], ops[i]);
      if code[i] != NOP {
        ghost var kept := code[..d];
        if d != i { code[d] := code[i]; }
        assert code[..d+1] == kept + [ops[i]];
        d := d + 1;
      }
      i := i + 1;
    }
    assert ops[..n] == ops;
  }
}
