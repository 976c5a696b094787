/**
  Fusion of a whole chain (CLASSICVM_BUILD_asmJMPF, module/classicvm/classicvm.h:29-80): the
  negations at the end of a block, with the comparison before them if there is one, against
  the registers that they write, which the fusion does not look at.
 */
module VmChain {

  import opened Options
  import opened VmCode
  import opened VmCompile
  import opened VmBranch

  // ---------------------------------------------------------------- negations

  predicate Negations(ops: seq<Op>) {
    forall i | 0 <= i < |ops| :: ops[i].BNOT?
  }

  predicate IsComparison(op: Op) {
    IsCompareOp(op) || IsCompareCOp(op)
  }

  /** The fusion stops at the end of such a block. */
  predicate Stops(pre: seq<Op>) {
    pre == [] || (!pre[|pre|-1].BNOT? && !IsComparison(pre[|pre|-1]))
  }

  /** Every block ends in negations, if in none, and before them the fusion stops or finds a
      comparison. */
  lemma {:induction false} EndsInNegations(ops: seq<Op>) returns (pre: seq<Op>, nots: seq<Op>)
    ensures ops == pre + nots && Negations(nots)
    ensures Stops(pre) || (pre != [] && IsComparison(pre[|pre|-1]))
    decreases |ops|
  {
    if ops != [] && ops[|ops|-1].BNOT? {
      var front, back := EndsInNegations(ops[..|ops|-1]);
      pre, nots := front, back + [ops[|ops|-1]];
    } else {
      pre, nots := ops, [];
    }
  }

  /** A register, whose truth value is taken as it is or, if odd, negated. */
  datatype Source = Source(reg: Reg, odd: bool)

  function Negate(src: Source): Source {
    Source(src.reg, !src.odd)
  }

  /** Where the truth value comes from that register a has after some negations. */
  function Traced(nots: seq<Op>, a: Reg): Source
    requires Negations(nots)
    decreases |nots|
  {
    if nots == [] then Source(a, false)
    else
      var pre, op := nots[..|nots|-1], nots[|nots|-1];
      if op.c == a then Negate(Traced(pre, op.a)) else Traced(pre, a)
  }

  /** Where the fusion takes it to come from: it goes from each negation to the register read,
      whatever register is written. */
  function Taken(nots: seq<Op>, a: Reg): Source
    requires Negations(nots)
    decreases |nots|
  {
    if nots == [] then Source(a, false) else Negate(Taken(nots[..|nots|-1], nots[|nots|-1].a))
  }

  function Written(nots: seq<Op>): set<Reg>
    requires Negations(nots)
    decreases |nots|
  {
    if nots == [] then {} else Written(nots[..|nots|-1]) + {nots[|nots|-1].c}
  }

  /** The truth value from a source. */
  predicate Holding<U>(m: Machine<U>, src: Source, r: Regs) {
    IsTrue(m, r[src.reg]) != src.odd
  }

  lemma {:induction false} LastOff(nots: seq<Op>) returns (pre: seq<Op>, c: Reg, x: Reg)
    requires Negations(nots) && nots != []
    ensures |pre| < |nots| && Negations(pre) && nots == pre + [BNOT(c, x)] && Written(nots) == Written(pre) + {c}
    ensures forall a :: Traced(nots, a) == if c == a then Negate(Traced(pre, x)) else Traced(pre, a)
    ensures forall a :: Taken(nots, a) == Negate(Taken(pre, x))
  {
    pre, c, x := nots[..|nots|-1], nots[|nots|-1].c, nots[|nots|-1].a;
  }

  /** Negations run to an end and write those registers alone. */
  lemma {:induction false} NotsRun<U>(m: Machine<U>, nots: seq<Op>, s: State<U>)
    requires Lawful(m) && Negations(nots)
    ensures Agree(Some(s), Run(Steps(m), nots, Some(s)), Written(nots))
    decreases |nots|
  {
    if nots != [] {
      var pre, c, x := LastOff(nots);
      NotsRun(m, pre, s);
      RunAppend(Steps(m), pre, [BNOT(c, x)], Some(s));
      NotRuns(m, c, x, Run(Steps(m), pre, Some(s)).value);
    }
  }

  lemma {:induction false} NotTruth<U>(m: Machine<U>, pre: seq<Op>, c: Reg, x: Reg, a: Reg, s: State<U>, t: State<U>)
    requires Lawful(m) && Run(Steps(m), pre, Some(s)) == Some(t)
    ensures var u := Run(Steps(m), pre + [BNOT(c, x)], Some(s));
      u.Some? && IsTrue(m, u.value.regs[a]) == if c == a then !IsTrue(m, t.regs[x]) else IsTrue(m, t.regs[a])
  {
    RunAppend(Steps(m), pre, [BNOT(c, x)], Some(s));
    NotRuns(m, c, x, t);
  }

  /** Each register then has the truth value of its source. */
  lemma {:induction false} NotsTruth<U>(m: Machine<U>, nots: seq<Op>, a: Reg, s: State<U>)
    requires Lawful(m) && Negations(nots)
    ensures var t := Run(Steps(m), nots, Some(s));
      t.Some? && IsTrue(m, t.value.regs[a]) == Holding(m, Traced(nots, a), s.regs)
    decreases |nots|
  {
    if nots != [] {
      var pre, c, x := LastOff(nots);
      var b := if c == a then x else a;
      NotsTruth(m, pre, b, s);
      NotTruth(m, pre, c, x, a, s, Run(Steps(m), pre, Some(s)).value);
    }
  }

  /** The fusion goes through all the negations, to what it takes for the source. */
  lemma {:induction false} FusesNots(pre: seq<Op>, nots: seq<Op>, a: Reg)
    requires Negations(nots)
    ensures var g := Taken(nots, a); var f := Fuse(pre, g.reg);
      Fuse(pre + nots, a) == Fused(f.ops, f.swap != g.odd)
    ensures Dead(pre + nots) == Dead(pre) + Written(nots)
    decreases |nots|
  {
    if nots == [] {
      assert pre + nots == pre;
    } else {
      var front, c, x := LastOff(nots);
      FusesNots(pre, front, x);
      FusesNot(pre + front, c, x, a);
      assert pre + nots == pre + front + [BNOT(c, x)];
    }
  }

  // ---------------------------------------------------------------- the whole chain

  lemma AgreeFurther<U>(t: State<U>, u: Option<State<U>>, t': State<U>, dead: set<Reg>, written: set<Reg>)
    requires Agree(Some(t), Some(t'), dead) && Agree(Some(t), u, written)
    ensures Agree(u, Some(t'), dead + written)
  {
  }

  lemma LeadsSwapped<U>(m: Machine<U>, f: Fused, odd: bool, r: Regs)
    requires f.ops != []
    ensures Leads(m, Fused(f.ops, f.swap != odd), r) == (Leads(m, f, r) != odd)
  {
  }

  /** Block and new block ended in t and t' before the negations: after them, the fused jump
      goes the right way exactly if the way it goes is that of the real source. */
  lemma {:induction false} NotsKeptIn<U>(m: Machine<U>, f: Fused, nots: seq<Op>, a: Reg, dead: set<Reg>, t: State<U>,
      t': State<U>)
    requires Lawful(m) && Negations(nots) && f.ops != [] && Agree(Some(t), Some(t'), dead)
    ensures var g := Taken(nots, a);
      KeptIn(m, Fused(f.ops, f.swap != g.odd), a, dead + Written(nots), Run(Steps(m), nots, Some(t)), Some(t'))
      <==> (Leads(m, f, t'.regs) != g.odd) == !Holding(m, Traced(nots, a), t.regs)
  {
    var u := Run(Steps(m), nots, Some(t));
    NotsRun(m, nots, t);
    NotsTruth(m, nots, a, t);
    AgreeFurther(t, u, t', dead, Written(nots));
    LeadsSwapped(m, f, Taken(nots, a).odd, t'.regs);
  }

  lemma {:induction false} KeptIs<U>(m: Machine<U>, ops: seq<Op>, a: Reg, s: Option<State<U>>, f: Fused, dead: set<Reg>,
      t: Option<State<U>>, t': Option<State<U>>)
    requires Fuse(ops, a) == f && Dead(ops) == dead && Run(Steps(m), ops, s) == t && Run(Steps(m), f.ops, s) == t'
    ensures Kept(m, ops, a, s) <==> KeptIn(m, f, a, dead, t, t')
  {
  }

  lemma {:induction false} StopsThere(pre: seq<Op>, a: Reg)
    requires Stops(pre)
    ensures Fuse(pre, a) == Fused(pre + [JMPF(a)], false) && Dead(pre) == {}
  {
    assert pre == [] ==> pre + [JMPF(a)] == [JMPF(a)];
  }

  lemma {:induction false} NotsFused(pre: seq<Op>, nots: seq<Op>, a: Reg)
    requires Negations(nots) && Stops(pre)
    ensures Fuse(pre + nots, a) == Fused(pre + [JMPF(Taken(nots, a).reg)], Taken(nots, a).odd)
    ensures Dead(pre + nots) == Written(nots)
  {
    FusesNots(pre, nots, a);
    StopsThere(pre, Taken(nots, a).reg);
    assert {} + Written(nots) == Written(nots);
  }

  /** Of negations run from r: the way the fusion goes is the right one. */
  predicate NotsRightFrom<U>(m: Machine<U>, nots: seq<Op>, a: Reg, r: Regs)
    requires Negations(nots)
  {
    Holding(m, Taken(nots, a), r) == Holding(m, Traced(nots, a), r)
  }

  lemma {:induction false} NotsRightIn<U>(m: Machine<U>, pre: seq<Op>, nots: seq<Op>, a: Reg, u: State<U>)
    requires Lawful(m) && Negations(nots)
    ensures var g := Taken(nots, a);
      KeptIn(m, Fused(pre + [JMPF(g.reg)], g.odd), a, Written(nots), Run(Steps(m), nots, Some(u)), Some(u))
      <==> NotsRightFrom(m, nots, a, u.regs)
  {
    var g := Taken(nots, a);
    JumpLeads(m, pre, JMPF(g.reg), u.regs);
    NotsKeptIn(m, Fused(pre + [JMPF(g.reg)], false), nots, a, {}, u, u);
    assert {} + Written(nots) == Written(nots);
  }

  /** Of negations alone. */
  lemma {:induction false} NotsKept<U>(m: Machine<U>, pre: seq<Op>, nots: seq<Op>, a: Reg, s: Option<State<U>>)
    requires Lawful(m) && Negations(nots) && Stops(pre)
    ensures var u := Run(Steps(m), pre, s);
      Kept(m, pre + nots, a, s)
      <==> (u.Some? ==> NotsRightFrom(m, nots, a, u.value.regs))
  {
    var u, g := Run(Steps(m), pre, s), Taken(nots, a);
    NotsFused(pre, nots, a);
    RunBranch(m, pre, JMPF(g.reg), s);
    RunAppend(Steps(m), pre, nots, s);
    var f := Fused(pre + [JMPF(g.reg)], g.odd);
    KeptIs(m, pre + nots, a, s, f, Written(nots), Run(Steps(m), nots, u), u);
    if u.None? { RunTrapped(Steps(m), nots); } else { NotsRightIn(m, pre, nots, a, u.value); }
  }

  /** The outcome of a comparison. */
  predicate Outcome<U>(m: Machine<U>, cmp: Op, r: Regs)
    requires IsComparison(cmp)
  {
    Compares(m, Some(CompareMethod(cmp)), r[cmp.a], RightOperand(cmp, r))
  }

  /** The truth value from a source once a comparison has run from r. */
  predicate HoldingAfter<U>(m: Machine<U>, cmp: Op, src: Source, r: Regs)
    requires IsComparison(cmp)
  {
    (if src.reg == cmp.c then Outcome(m, cmp, r) else IsTrue(m, r[src.reg])) != src.odd
  }

  /** Of a comparison run from r and negations: the way the fusion goes is the right one. */
  predicate CompareRightFrom<U>(m: Machine<U>, cmp: Op, nots: seq<Op>, a: Reg, r: Regs)
    requires IsComparison(cmp) && Negations(nots)
  {
    (Outcome(m, cmp, r) != Taken(nots, a).odd) == HoldingAfter(m, cmp, Traced(nots, a), r)
  }

  lemma {:induction false} CompareEnds<U>(m: Machine<U>, cmp: Op, src: Source, s: State<U>)
    requires Lawful(m) && Comparing(m) && IsComparison(cmp)
    ensures var t := Run(Steps(m), [cmp], Some(s));
      Agree(t, Some(s), {cmp.c}) && t.Some? && Holding(m, src, t.value.regs) == HoldingAfter(m, cmp, src, s.regs)
  {
    StepCompare(m, cmp, s);
    FusedJumps(m, cmp, s.regs);
  }

  /** Of a comparison and negations after it. */
  lemma {:induction false} CompareKeptIf<U>(m: Machine<U>, pre: seq<Op>, cmp: Op, nots: seq<Op>, a: Reg,
      s: Option<State<U>>)
    requires Lawful(m) && Comparing(m) && IsComparison(cmp) && Negations(nots)
    ensures var u := Run(Steps(m), pre, s);
      Kept(m, pre + [cmp] + nots, a, s)
      <==> (u.Some? ==> CompareRightFrom(m, cmp, nots, a, u.value.regs))
  {
    var u, g := Run(Steps(m), pre, s), Taken(nots, a);
    FusesNots(pre + [cmp], nots, a);
    FusesTo(pre, cmp, g.reg);
    RunBranch(m, pre, FusedJump(cmp), s);
    RunAppend(Steps(m), pre + [cmp], nots, s);
    RunAppend(Steps(m), pre, [cmp], s);
    if u.None? {
      RunTrapped(Steps(m), [cmp]);
      RunTrapped(Steps(m), nots);
    } else {
      CompareEnds(m, cmp, Traced(nots, a), u.value);
      FusedJumps(m, cmp, u.value.regs);
      JumpLeads(m, pre, FusedJump(cmp), u.value.regs);
      NotsKeptIn(m, Fused(pre + [FusedJump(cmp)], false), nots, a, {cmp.c}, Run(Steps(m), [cmp], u).value, u.value);
    }
  }

  // ---------------------------------------------------------------- exactly when

  /** Behind any block at which it stops, the fusion keeps the decision. */
  ghost predicate NotsKeep<U>(m: Machine<U>, pre: seq<Op>, nots: seq<Op>, a: Reg, s: Option<State<U>>) {
    Stops(pre) ==> Kept(m, pre + nots, a, s)
  }

  ghost predicate CompareKeeps<U>(m: Machine<U>, pre: seq<Op>, cmp: Op, nots: seq<Op>, a: Reg, s: Option<State<U>>) {
    Kept(m, pre + [cmp] + nots, a, s)
  }

  /** Two sources that are not the same differ in some state. */
  lemma {:induction false} SourcesDiffer<U>(m: Machine<U>, g: Source, t: Source, s0: State<U>) returns (s: State<U>)
    requires Lawful(m) && g != t
    ensures Holding(m, g, s.regs) != Holding(m, t, s.regs)
  {
    s := s0;
    if g.reg != t.reg {
      var w, w' := SetBool(m, 0, !g.odd), SetBool(m, 0, t.odd);
      assert IsTrue(m, w) == !g.odd && IsTrue(m, w') == t.odd;
      s := State(s0.regs[g.reg := w][t.reg := w'], s0.world);
    }
  }

  /** Negations are fused rightly, whatever block comes before them and from every state,
      exactly if the fusion ends with the register, and the parity, that the register of the
      jump really comes from. */
  lemma {:induction false} NegationsExactly<U(!new)>(m: Machine<U>, nots: seq<Op>, a: Reg, s0: State<U>)
    requires Lawful(m) && Negations(nots)
    ensures (forall pre, s: Option<State<U>> :: NotsKeep(m, pre, nots, a, s)) <==> Taken(nots, a) == Traced(nots, a)
  {
    if Taken(nots, a) == Traced(nots, a) {
      forall pre, s: Option<State<U>> ensures NotsKeep(m, pre, nots, a, s) {
        if Stops(pre) { NotsKept(m, pre, nots, a, s); }
      }
    } else {
      var s := SourcesDiffer(m, Taken(nots, a), Traced(nots, a), s0);
      NotsKept(m, [], nots, a, Some(s));
      assert !NotsKeep(m, [], nots, a, Some(s));
    }
  }

  /** A state in which the fusion goes the wrong way. */
  lemma {:induction false} CompareMisled<U>(m: Machine<U>, cmp: Op, nots: seq<Op>, a: Reg,
      s0: State<U>) returns (s: State<U>)
    requires Lawful(m) && Separates(m) && IsComparison(cmp) && Negations(nots)
    requires Traced(nots, a) != Source(cmp.c, Taken(nots, a).odd)
    ensures !CompareRightFrom(m, cmp, nots, a, s.regs)
  {
    var g, t := Taken(nots, a), Traced(nots, a);
    s := Chosen(m, cmp, t.reg, t.odd != g.odd, s0);
  }

  /** A comparison and negations after it are fused rightly, whatever comes before and from
      every state, exactly if the register of the jump really comes from the register that the
      comparison writes, negated as often, up to parity, as the fusion counts. */
  lemma {:induction false} ComparisonExactly<U(!new)>(m: Machine<U>, cmp: Op, nots: seq<Op>, a: Reg, s0: State<U>)
    requires Lawful(m) && Comparing(m) && Separates(m) && IsComparison(cmp) && Negations(nots)
    ensures (forall pre, s: Option<State<U>> :: CompareKeeps(m, pre, cmp, nots, a, s))
      <==> Traced(nots, a) == Source(cmp.c, Taken(nots, a).odd)
  {
    if Traced(nots, a) == Source(cmp.c, Taken(nots, a).odd) {
      forall pre, s: Option<State<U>> ensures CompareKeeps(m, pre, cmp, nots, a, s) {
        CompareKeptIf(m, pre, cmp, nots, a, s);
      }
    } else {
      var s := CompareMisled(m, cmp, nots, a, s0);
      CompareKeptIf(m, [], cmp, nots, a, Some(s));
      assert !CompareKeeps(m, [], cmp, nots, a, Some(s));
    }
  }

  /** Negations each of which writes the register read next are taken for what they are. */
  lemma {:induction false} ChainIsRight(nots: seq<Op>, a: Reg)
    requires Negations(nots) && Chain(nots, a)
    ensures Taken(nots, a) == Traced(nots, a)
    decreases |nots|
  {
    if nots != [] {
      var pre, c, x := LastOff(nots);
      ChainIsRight(pre, x);
    }
  }

  /** So are some others: of b = !a; c = !b and a jump on a, fusion takes up both, and is right,
      though c is not a. */
  lemma {:induction false} RightUnchained(nots: seq<Op>, a: Reg, b: Reg, c: Reg)
    requires nots == [BNOT(b, a), BNOT(c, b)] && b != a && c != a
    ensures !Chain(nots, a) && Negations(nots) && Taken(nots, a) == Traced(nots, a) == Source(a, false)
  {
    var front, c', b' := LastOff(nots);
    var none, b'', a' := LastOff(front);
    assert none == [] && Taken(front, b) == Negate(Source(a, false)) && Traced(front, a) == Source(a, false);
  }
}
