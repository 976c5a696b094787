/**
  Compare-and-branch fusion (CLASSICVM_BUILD_asmJMPF, module/classicvm/classicvm.h:29-80):
  a conditional jump takes up the negations and the comparison in front of it. What they
  wrote is then no longer written.
 */
module VmBranch {

  import opened Options
  import opened VmCode
  import opened VmCompile

  // ---------------------------------------------------------------- branches

  /** Whether the instruction at the end of a block jumps: if a register is false, or if a
      comparison fails. */
  function Jumps<U>(m: Machine<U>, op: Op, r: Regs): bool {
    match op
    case JMPF(a) => !IsTrue(m, r[a])
    case Jump(code, a, b) => !Compares(m, JumpMethod(code), r[a], r[b])
    case JumpC(code, a, n) => !Compares(m, JumpCMethod(code), r[a], n)
    case _ => false
  }

  predicate Compares<U>(m: Machine<U>, mn: Option<Method>, x: Word, y: Word) {
    mn.Some? && m.apply(mn.value, x, y) == Some(Bool(true))
  }

  /** Comparisons always have a truth value. */
  ghost predicate Comparing<U>(m: Machine<U>) {
    forall mn, x, y :: IsCompare(mn) ==> m.apply(mn, x, y) == Some(Bool(true)) || m.apply(mn, x, y) == Some(Bool(false))
  }

  // ---------------------------------------------------------------- fusion

  predicate IsCompareOp(op: Op) {
    op.Arith? && IsCompareCode(op.code)
  }

  predicate IsCompareCOp(op: Op) {
    op.ArithC? && IsCompareCCode(op.code)
  }

  /** The jump that a comparison becomes. */
  function FusedJump(op: Op): Op
    requires IsCompareOp(op) || IsCompareCOp(op)
  {
    if op.Arith? then Jump(JumpCode(op.code), op.a, op.b) else JumpC(JumpCCode(op.code), op.a, op.n)
  }

  /** A block with its jump at the end, and whether the two ways out change places. */
  datatype Fused = Fused(ops: seq<Op>, swap: bool)

  /** A block and a jump if register a is false. */
  function Fuse(ops: seq<Op>, a: Reg): Fused
    decreases |ops|
  {
    if ops == [] then Fused([JMPF(a)], false)
    else
      var pre, op := ops[..|ops|-1], ops[|ops|-1];
      if op.BNOT? then var f := Fuse(pre, op.a); Fused(f.ops, !f.swap)
      else if IsCompareOp(op) || IsCompareCOp(op) then Fused(pre + [FusedJump(op)], false)
      else Fused(ops + [JMPF(a)], false)
  }

  /** Each instruction taken up writes the register that is read next. */
  predicate Chain(ops: seq<Op>, a: Reg)
    decreases |ops|
  {
    if ops == [] then true
    else
      var pre, op := ops[..|ops|-1], ops[|ops|-1];
      if op.BNOT? then op.c == a && Chain(pre, op.a)
      else if IsCompareOp(op) || IsCompareCOp(op) then op.c == a
      else true
  }

  /** The registers that are no longer written. */
  function Dead(ops: seq<Op>): set<Reg>
    decreases |ops|
  {
    if ops == [] then {}
    else
      var pre, op := ops[..|ops|-1], ops[|ops|-1];
      if op.BNOT? then Dead(pre) + {op.c}
      else if IsCompareOp(op) || IsCompareCOp(op) then {op.c}
      else {}
  }

  /** t and t' are the states in which the old and the new block end: both or neither in a
      trap, with the same registers but for the dead ones. */
  ghost predicate Agree<U>(t: Option<State<U>>, t': Option<State<U>>, dead: set<Reg>) {
    && (t.None? <==> t'.None?)
    && (t.Some? ==>
      && t'.value.world == t.value.world
      && forall i: Reg :: i !in dead ==> t'.value.regs[i] == t.value.regs[i])
  }

  /** A way out is chosen: to the label of the jump, or not. */
  predicate Leads<U>(m: Machine<U>, f: Fused, r: Regs)
    requires f.ops != []
  {
    Jumps(m, f.ops[|f.ops|-1], r) != f.swap
  }

  lemma {:induction false} RunBranch<U>(m: Machine<U>, ops: seq<Op>, op: Op, s: Option<State<U>>)
    requires op.JMPF? || op.Jump? || op.JumpC?
    ensures Run(Steps(m), ops + [op], s) == Run(Steps(m), ops, s)
  {
    RunAppend(Steps(m), ops, [op], s);
    RunOne(Steps(m), op, Run(Steps(m), ops, s));
  }

  lemma ExecNot<U>(m: Machine<U>, c: Reg, a: Reg, s: State<U>)
    ensures Steps(m)(BNOT(c, a), s) == PutValue(m, s, c, Some(Bool(!IsTrue(m, s.regs[a]))))
  {
  }

  lemma {:induction false} StepNot<U>(m: Machine<U>, c: Reg, a: Reg, s: State<U>)
    ensures Run(Steps(m), [BNOT(c, a)], Some(s)) == PutValue(m, s, c, Some(Bool(!IsTrue(m, s.regs[a]))))
  {
    ExecNot(m, c, a, s);
    RunOne(Steps(m), BNOT(c, a), Some(s));
  }

  lemma PutCompare<U>(m: Machine<U>, s: State<U>, c: Reg, mn: Method, x: Word, y: Word)
    requires Lawful(m) && Comparing(m) && IsCompare(mn)
    ensures var t := PutValue(m, s, c, m.apply(mn, x, y));
      && t.Some? && t.value.world == s.world && (forall i: Reg :: i != c ==> t.value.regs[i] == s.regs[i])
      && IsTrue(m, t.value.regs[c]) == Compares(m, Some(mn), x, y)
  {
    assert IsTrue(m, SetBool(m, s.regs[c], true)) && !IsTrue(m, SetBool(m, s.regs[c], false));
  }

  /** What a comparison computes. */
  function CompareMethod(op: Op): (mn: Method)
    requires IsCompareOp(op) || IsCompareCOp(op)
    ensures IsCompare(mn) && (if op.Arith? then ArithMethod(op.code) else ArithCMethod(op.code)) == Some(mn)
  {
    CompareCodes(op.code);
    if op.Arith? then ArithMethod(op.code).value else ArithCMethod(op.code).value
  }

  /** What a comparison compares its register a with. */
  function RightOperand(op: Op, r: Regs): Word
    requires IsCompareOp(op) || IsCompareCOp(op)
  {
    if op.Arith? then r[op.b] else op.n
  }

  lemma FusedJumps<U>(m: Machine<U>, op: Op, r: Regs)
    requires IsCompareOp(op) || IsCompareCOp(op)
    ensures Jumps(m, FusedJump(op), r) == !Compares(m, Some(CompareMethod(op)), r[op.a], RightOperand(op, r))
  {
    CompareCodes(op.code);
  }

  lemma {:induction false} CompareRuns<U>(m: Machine<U>, op: Op, s: State<U>)
    requires IsCompareOp(op) || IsCompareCOp(op)
    ensures Run(Steps(m), [op], Some(s))
      == PutValue(m, s, op.c, m.apply(CompareMethod(op), s.regs[op.a], RightOperand(op, s.regs)))
  {
    RunOne(Steps(m), op, Some(s));
    if op.Arith? {
      ExecArith(m, op.code, op.c, op.a, op.b, s);
    } else {
      ExecArithC(m, op.code, op.c, op.a, op.n, s);
    }
  }

  /** What a comparison writes is what the fused jump asks. */
  lemma {:induction false} StepCompare<U>(m: Machine<U>, op: Op, s: State<U>)
    requires Lawful(m) && Comparing(m) && (IsCompareOp(op) || IsCompareCOp(op))
    ensures var t := Run(Steps(m), [op], Some(s));
      && t.Some? && t.value.world == s.world && (forall i: Reg :: i != op.c ==> t.value.regs[i] == s.regs[i])
      && Jumps(m, FusedJump(op), s.regs) == !IsTrue(m, t.value.regs[op.c])
  {
    CompareRuns(m, op, s);
    PutCompare(m, s, op.c, CompareMethod(op), s.regs[op.a], RightOperand(op, s.regs));
    FusedJumps(m, op, s.regs);
  }

  // ---------------------------------------------------------------- fusion keeps the decision

  /** From s, the old block with its jump on register a and the new block go the same way, and
      end with the same registers but for the dead ones. */
  ghost predicate Kept<U>(m: Machine<U>, ops: seq<Op>, a: Reg, s: Option<State<U>>) {
    KeptIn(m, Fuse(ops, a), a, Dead(ops), Run(Steps(m), ops, s), Run(Steps(m), Fuse(ops, a).ops, s))
  }

  ghost predicate KeptIn<U>(m: Machine<U>, f: Fused, a: Reg, dead: set<Reg>, t: Option<State<U>>,
      t': Option<State<U>>) {
    && f.ops != []
    && Agree(t, t', dead)
    && (t.Some? ==> Leads(m, f, t'.value.regs) == !IsTrue(m, t.value.regs[a]))
  }

  lemma {:induction false} NoFusion<U>(m: Machine<U>, ops: seq<Op>, a: Reg, s: Option<State<U>>)
    requires Fuse(ops, a) == Fused(ops + [JMPF(a)], false)
    ensures Kept(m, ops, a, s)
  {
    RunBranch(m, ops, JMPF(a), s);
  }

  lemma {:induction false} FusesTo(pre: seq<Op>, op: Op, a: Reg)
    requires IsCompareOp(op) || IsCompareCOp(op)
    ensures Fuse(pre + [op], a) == Fused(pre + [FusedJump(op)], false) && Dead(pre + [op]) == {op.c}
  {
    assert (pre + [op])[..|pre + [op]|-1] == pre;
  }

  lemma JumpLeads<U>(m: Machine<U>, pre: seq<Op>, op: Op, r: Regs)
    ensures Leads(m, Fused(pre + [op], false), r) == Jumps(m, op, r)
  {
  }

  lemma {:induction false} CompareKept<U>(m: Machine<U>, pre: seq<Op>, op: Op, t: Option<State<U>>)
    requires Lawful(m) && Comparing(m) && (IsCompareOp(op) || IsCompareCOp(op))
    ensures KeptIn(m, Fused(pre + [FusedJump(op)], false), op.c, {op.c}, Run(Steps(m), [op], t), t)
  {
    if t.Some? {
      JumpLeads(m, pre, FusedJump(op), t.value.regs);
      StepCompare(m, op, t.value);
    } else {
      RunTrapped(Steps(m), [op]);
    }
  }

  lemma FuseCompare<U>(m: Machine<U>, pre: seq<Op>, op: Op, s: Option<State<U>>)
    requires Lawful(m) && Comparing(m) && (IsCompareOp(op) || IsCompareCOp(op))
    ensures Kept(m, pre + [op], op.c, s)
  {
    FusesTo(pre, op, op.c);
    RunBranch(m, pre, FusedJump(op), s);
    RunAppend(Steps(m), pre, [op], s);
    CompareKept(m, pre, op, Run(Steps(m), pre, s));
  }

  lemma {:induction false} FusesNot(pre: seq<Op>, c: Reg, x: Reg, a: Reg)
    ensures var f := Fuse(pre, x); Fuse(pre + [BNOT(c, x)], a) == Fused(f.ops, !f.swap)
    ensures Dead(pre + [BNOT(c, x)]) == Dead(pre) + {c}
  {
    assert (pre + [BNOT(c, x)])[..|pre + [BNOT(c, x)]|-1] == pre;
  }

  lemma {:induction false} NotRuns<U>(m: Machine<U>, c: Reg, x: Reg, t: State<U>)
    requires Lawful(m)
    ensures var u := Run(Steps(m), [BNOT(c, x)], Some(t));
      && u.Some? && u.value.world == t.world && (forall i: Reg :: i != c ==> u.value.regs[i] == t.regs[i])
      && IsTrue(m, u.value.regs[c]) == !IsTrue(m, t.regs[x])
  {
    StepNot(m, c, x, t);
    assert IsTrue(m, SetBool(m, t.regs[c], !IsTrue(m, t.regs[x]))) == !IsTrue(m, t.regs[x]);
  }

  lemma {:induction false} NotKept<U>(m: Machine<U>, f: Fused, c: Reg, x: Reg, dead: set<Reg>, t: Option<State<U>>,
      t': Option<State<U>>)
    requires Lawful(m) && KeptIn(m, f, x, dead, t, t')
    ensures KeptIn(m, Fused(f.ops, !f.swap), c, dead + {c}, Run(Steps(m), [BNOT(c, x)], t), t')
  {
    if t.Some? { NotRuns(m, c, x, t.value); } else { RunTrapped(Steps(m), [BNOT(c, x)]); }
  }

  lemma FuseNot<U>(m: Machine<U>, pre: seq<Op>, c: Reg, x: Reg, s: Option<State<U>>)
    requires Lawful(m) && Kept(m, pre, x, s)
    ensures Kept(m, pre + [BNOT(c, x)], c, s)
  {
    FusesNot(pre, c, x, c);
    RunAppend(Steps(m), pre, [BNOT(c, x)], s);
    NotKept(m, Fuse(pre, x), c, x, Dead(pre), Run(Steps(m), pre, s), Run(Steps(m), Fuse(pre, x).ops, s));
  }

  /** For every chain of trailing negations, ending in a comparison or not, fusion keeps which
      way control goes, from every state. */
  lemma {:induction false} FusionKeeps<U>(m: Machine<U>, ops: seq<Op>, a: Reg, s: Option<State<U>>)
    requires Lawful(m) && Comparing(m) && Chain(ops, a)
    ensures Kept(m, ops, a, s)
    decreases |ops|
  {
    if ops == [] {
      NoFusion(m, ops, a, s);
    } else {
      var pre, op := ops[..|ops|-1], ops[|ops|-1];
      assert ops == pre + [op];
      if op.BNOT? {
        FusionKeeps(m, pre, op.a, s);
        FuseNot(m, pre, a, op.a, s);
      } else if IsCompareOp(op) || IsCompareCOp(op) {
        FuseCompare(m, pre, op, s);
      } else {
        NoFusion(m, ops, a, s);
      }
    }
  }

  /** Of any comparison, with itself or with a number, some word has the truth value of the
      outcome, and some word has not. */
  ghost predicate Separates<U>(m: Machine<U>) {
    forall mn, n, same :: IsCompare(mn) ==> Separated(m, mn, n, same) && SelfSeparated(m, mn, same)
  }

  ghost predicate Separated<U>(m: Machine<U>, mn: Method, n: Word, same: bool) {
    exists w :: (IsTrue(m, w) == Compares(m, Some(mn), w, n)) == same
  }

  ghost predicate SelfSeparated<U>(m: Machine<U>, mn: Method, same: bool) {
    exists w :: (IsTrue(m, w) == Compares(m, Some(mn), w, w)) == same
  }

  lemma NotSplits<U>(m: Machine<U>, c: Reg, x: Reg, a: Reg, s0: State<U>) returns (s: State<U>)
    requires Lawful(m) && c != a
    ensures !Kept(m, [BNOT(c, x)], a, Some(s))
  {
    var w := SetBool(m, 0, true);
    s := State(s0.regs[a := w][x := w], s0.world);
    NotDiffers(m, c, x, a, s);
  }

  lemma {:induction false} FusesNotOnly(c: Reg, x: Reg, a: Reg)
    ensures Fuse([BNOT(c, x)], a) == Fused([JMPF(x)], true)
  {
    var none: seq<Op> := [];
    FusesNot(none, c, x, a);
    assert none + [BNOT(c, x)] == [BNOT(c, x)];
  }

  lemma OtherWayOut<U>(m: Machine<U>, x: Reg, a: Reg, dead: set<Reg>, t: State<U>, s: State<U>)
    requires t.regs[a] == s.regs[a] && IsTrue(m, s.regs[a]) == IsTrue(m, s.regs[x])
    ensures !KeptIn(m, Fused([JMPF(x)], true), a, dead, Some(t), Some(s))
  {
  }

  lemma NotDiffers<U>(m: Machine<U>, c: Reg, x: Reg, a: Reg, s: State<U>)
    requires Lawful(m) && c != a && IsTrue(m, s.regs[a]) == IsTrue(m, s.regs[x])
    ensures !Kept(m, [BNOT(c, x)], a, Some(s))
  {
    NotRuns(m, c, x, s);
    FusesNotOnly(c, x, a);
    RunOne(Steps(m), JMPF(x), Some(s));
    OtherWayOut(m, x, a, Dead([BNOT(c, x)]), Run(Steps(m), [BNOT(c, x)], Some(s)).value, s);
  }

  /** A state in which register a has the truth value that op compares to, or has not. */
  lemma Chosen<U>(m: Machine<U>, op: Op, a: Reg, same: bool, s0: State<U>) returns (s: State<U>)
    requires Lawful(m) && Separates(m) && (IsCompareOp(op) || IsCompareCOp(op))
    ensures var outcome := Compares(m, Some(CompareMethod(op)), s.regs[op.a], RightOperand(op, s.regs));
      (IsTrue(m, s.regs[a]) == outcome) == same
  {
    var mn := CompareMethod(op);
    var r := s0.regs;
    assert Separated(m, mn, if op.ArithC? then op.n else 0, same) && SelfSeparated(m, mn, same);
    if op.Arith? {
      var w :| (IsTrue(m, w) == Compares(m, Some(mn), w, w)) == same;
      r := r[a := w][op.a := w][op.b := w];
    } else if op.a == a {
      var w :| (IsTrue(m, w) == Compares(m, Some(mn), w, op.n)) == same;
      r := r[a := w];
    } else {
      r := r[a := SetBool(m, 0, Compares(m, Some(mn), r[op.a], op.n) == same)];
    }
    s := State(r, s0.world);
  }

  lemma CompareSplits<U>(m: Machine<U>, op: Op, a: Reg, s0: State<U>) returns (s: State<U>)
    requires Lawful(m) && Comparing(m) && Separates(m) && (IsCompareOp(op) || IsCompareCOp(op)) && op.c != a
    ensures !Kept(m, [op], a, Some(s))
  {
    s := Chosen(m, op, a, false, s0);
    CompareDiffers(m, op, a, s);
  }

  lemma CompareDiffers<U>(m: Machine<U>, op: Op, a: Reg, s: State<U>)
    requires Lawful(m) && Comparing(m) && (IsCompareOp(op) || IsCompareCOp(op)) && op.c != a
    requires IsTrue(m, s.regs[a]) != Compares(m, Some(CompareMethod(op)), s.regs[op.a], RightOperand(op, s.regs))
    ensures !Kept(m, [op], a, Some(s))
  {
    StepCompare(m, op, s);
    FusedJumps(m, op, s.regs);
    FusesOnly(op, a);
    BranchRuns(m, FusedJump(op), s);
    DiffersIn(m, FusedJump(op), a, Dead([op]), Run(Steps(m), [op], Some(s)).value, s);
  }

  lemma {:induction false} FusesOnly(op: Op, a: Reg)
    requires IsCompareOp(op) || IsCompareCOp(op)
    ensures Fuse([op], a) == Fused([FusedJump(op)], false)
  {
    var none: seq<Op> := [];
    FusesTo(none, op, a);
    assert none + [op] == [op] && none + [FusedJump(op)] == [FusedJump(op)];
  }

  lemma {:induction false} BranchRuns<U>(m: Machine<U>, op: Op, s: State<U>)
    requires op.Jump? || op.JumpC?
    ensures Run(Steps(m), [op], Some(s)) == Some(s)
  {
    RunOne(Steps(m), op, Some(s));
  }

  lemma DiffersIn<U>(m: Machine<U>, op: Op, a: Reg, dead: set<Reg>, t: State<U>, s: State<U>)
    requires Jumps(m, op, s.regs) == IsTrue(m, t.regs[a])
    ensures !KeptIn(m, Fused([op], false), a, dead, Some(t), Some(s))
  {
  }

  /** Taking up op, at the end of a block, keeps the decision from s. Of a negation that is asked
      only if going on from the register it reads is right for the rest of the block. */
  ghost predicate TakesUp<U>(m: Machine<U>, pre: seq<Op>, op: Op, a: Reg, s: Option<State<U>>) {
    (op.BNOT? ==> Kept(m, pre, op.a, s)) ==> Kept(m, pre + [op], a, s)
  }

  lemma TakenUp<U>(m: Machine<U>, pre: seq<Op>, op: Op, s: Option<State<U>>)
    requires Lawful(m) && Comparing(m) && (op.BNOT? || IsCompareOp(op) || IsCompareCOp(op))
    ensures TakesUp(m, pre, op, op.c, s)
  {
    if op.BNOT? {
      if Kept(m, pre, op.a, s) { FuseNot(m, pre, op.c, op.a, s); }
    } else {
      FuseCompare(m, pre, op, s);
    }
  }

  lemma NotTakenUp<U>(m: Machine<U>, none: seq<Op>, op: Op, a: Reg, s: Option<State<U>>)
    requires none == [] && (op.BNOT? ==> Kept(m, none, op.a, s)) && !Kept(m, [op], a, s)
    ensures !TakesUp(m, none, op, a, s)
  {
    assert none + [op] == [op];
  }

  lemma NoneKept<U>(m: Machine<U>, none: seq<Op>, a: Reg, s: Option<State<U>>)
    requires none == []
    ensures Kept(m, none, a, s)
  {
    NoFusion(m, none, a, s);
  }

  /** Taking up an instruction keeps the decision, whatever the block before it and from every
      state, exactly if the instruction writes the register that the jump reads. */
  lemma FusedExactly<U(!new)>(m: Machine<U>, op: Op, a: Reg, s0: State<U>)
    requires Lawful(m) && Comparing(m) && Separates(m) && (op.BNOT? || IsCompareOp(op) || IsCompareCOp(op))
    ensures (forall pre, s: Option<State<U>> :: TakesUp(m, pre, op, a, s)) <==> op.c == a
  {
    if op.c == a {
      forall pre, s: Option<State<U>> ensures TakesUp(m, pre, op, a, s) { TakenUp(m, pre, op, s); }
    } else if op.BNOT? {
      var s := NotSplits(m, op.c, op.a, a, s0);
      NoneKept(m, [], op.a, Some(s));
      NotTakenUp(m, [], op, a, Some(s));
    } else {
      var s := CompareSplits(m, op, a, s0);
      NotTakenUp(m, [], op, a, Some(s));
    }
  }

  // ---------------------------------------------------------------- compiled conditions

  /** EXPR_asmJMPIF, up to the jump: a condition in slot a, negated if the jump is to be taken on true. */
  function Condition(e: Expr, a: int, onTrue: bool, shift: int, esp: int): seq<Op> {
    Compile(e, a, shift, esp) + if onTrue then [BNOT(NC(a), NC(a))] else []
  }

  /** The code of a comparison ends in an instruction that writes the slot of the result. */
  lemma {:induction false} ComparisonLast(e: Expr, a: int, shift: int, esp: int)
    requires e.Bin? && IsCompare(e.mn) && WellTyped(e)
    ensures var code := Compile(e, a, shift, esp);
      && code != []
      && var op := code[|code|-1];
        if a == esp then (IsCompareOp(op) || IsCompareCOp(op)) && op.c == NC(a) else op.NMOV?
  {
    OpcodeOffsets(e.mn);
    OpcodeOffsets(Flip(e.mn));
  }

  lemma {:induction false} ConditionChain(pre: seq<Op>, e: Expr, a: int, onTrue: bool, shift: int, esp: int)
    requires WellTyped(e) && !IsInt(e)
    ensures Chain(pre + Condition(e, a, onTrue, shift, esp), NC(a))
  {
    if e.Bin? { ComparisonLast(e, a, shift, esp); }
    var code := Compile(e, a, shift, esp);
    var ops := pre + code;
    assert Chain(ops, NC(a));
    if onTrue {
      var more := pre + Condition(e, a, onTrue, shift, esp);
      assert more == ops + [BNOT(NC(a), NC(a))];
      assert more[..|more|-1] == ops;
    } else {
      assert pre + Condition(e, a, onTrue, shift, esp) == ops;
    }
  }

  /** Execution ended in t, with truth value v in register a, or in a trap if there is none. */
  ghost predicate TruthIn<U>(m: Machine<U>, t: Option<State<U>>, a: Reg, v: Option<Value>) {
    && (t.None? <==> v.None?)
    && (t.Some? && v.Some? ==> v.value.Bool? && IsTrue(m, t.value.regs[a]) == v.value.b)
  }

  function Not(v: Option<Value>): Option<Value> {
    if v.Some? && v.value.Bool? then Some(Bool(!v.value.b)) else v
  }

  lemma {:induction false} TruthValue<U>(m: Machine<U>, e: Expr, shift: int, regs: Regs)
    requires Lawful(m) && WellTyped(e) && !IsInt(e)
    ensures var v := Eval(m, Patch(e), shift, regs); v.Some? ==> v.value.Bool?
  {
    if e.Bin? { PatchedBin(m, e.mn, e.l, e.r, shift, regs); }
  }

  lemma {:induction false} CompiledTruth<U>(m: Machine<U>, e: Expr, a: int, shift: int, esp: int, s: State<U>)
    requires Lawful(m) && WellTyped(e) && Below(e, shift, esp) && a <= esp && !IsInt(e)
    ensures TruthIn(m, Run(Steps(m), Compile(e, a, shift, esp), Some(s)), NC(a), Eval(m, Patch(e), shift, s.regs))
  {
    if a < esp { CompileInto(m, e, a, shift, esp, s); } else { CompileCorrect(m, e, shift, esp, s); }
    TruthValue(m, e, shift, s.regs);
  }

  lemma {:induction false} NegatedTruth<U>(m: Machine<U>, t: Option<State<U>>, a: Reg, v: Option<Value>)
    requires Lawful(m) && TruthIn(m, t, a, v)
    ensures TruthIn(m, Run(Steps(m), [BNOT(a, a)], t), a, Not(v))
  {
    if t.Some? { NotRuns(m, a, a, t.value); } else { RunTrapped(Steps(m), [BNOT(a, a)]); }
  }

  lemma {:induction false} ConditionRuns<U>(m: Machine<U>, e: Expr, a: int, onTrue: bool, shift: int, esp: int,
      s: State<U>)
    requires Lawful(m) && WellTyped(e) && Below(e, shift, esp) && a <= esp && !IsInt(e)
    ensures var v := Eval(m, Patch(e), shift, s.regs);
      TruthIn(m, Run(Steps(m), Condition(e, a, onTrue, shift, esp), Some(s)), NC(a), if onTrue then Not(v) else v)
  {
    var code := Compile(e, a, shift, esp);
    CompiledTruth(m, e, a, shift, esp, s);
    if onTrue {
      RunAppend(Steps(m), code, [BNOT(NC(a), NC(a))], Some(s));
      NegatedTruth(m, Run(Steps(m), code, Some(s)), NC(a), Eval(m, Patch(e), shift, s.regs));
    } else {
      assert Condition(e, a, onTrue, shift, esp) == code;
    }
  }

  /** Compiling a condition, a comparison or a slot with a truth value, and jumping on it:
      whatever code comes before, the fused block leads to the label exactly if the condition has
      the truth value that the jump is for. */
  lemma {:induction false} ConditionalJump<U>(m: Machine<U>, pre: seq<Op>, e: Expr, a: int, onTrue: bool, shift: int,
      esp: int, s: State<U>)
    requires Lawful(m) && Comparing(m) && WellTyped(e) && !IsInt(e) && Below(e, shift, esp) && a <= esp
    requires Run(Steps(m), pre, Some(s)).Some?
    ensures var f := Fuse(pre + Condition(e, a, onTrue, shift, esp), NC(a));
      var v := Eval(m, Patch(e), shift, Run(Steps(m), pre, Some(s)).value.regs);
      var t := Run(Steps(m), f.ops, Some(s));
      && f.ops != [] && (t.None? <==> v.None?)
      && (v.Some? ==> v.value.Bool? && Leads(m, f, t.value.regs) == (v.value.b == onTrue))
  {
    var code := Condition(e, a, onTrue, shift, esp);
    ConditionChain(pre, e, a, onTrue, shift, esp);
    FusionKeeps(m, pre + code, NC(a), Some(s));
    RunAppend(Steps(m), pre, code, Some(s));
    var u := Run(Steps(m), pre, Some(s)).value;
    ConditionRuns(m, e, a, onTrue, shift, esp, u);
    TruthValue(m, e, shift, u.regs);
  }

  // ---------------------------------------------------------------- in place

  /** CLASSICVM_BUILD_asmJMPF: take up the end of the block into a jump on register a. If there
      is no comparison to fuse with, the caller has to add the jump, on register a'. */
  method ClassicAsmJMPF(bb: BasicBlock, a: Reg) returns (fused: bool, a': Reg, swap: bool)
    modifies bb
    ensures var f := Fuse(old(bb.ops), a);
      f.swap == swap && f.ops == if fused then bb.ops else bb.ops + [JMPF(a')]
  {
    a', swap := a, false;
    while |bb.ops| > 0
      invariant var f, g := Fuse(old(bb.ops), a), Fuse(bb.ops, a'); f.ops == g.ops && f.swap == (g.swap != swap)
      decreases |bb.ops|
    {
      var last := |bb.ops| - 1;
      var opP := bb.ops[last];
      if opP.BNOT? {
        a' := opP.a;
        swap := !swap;
        bb.ops := bb.ops[..last];
        continue;
      }
      if opP.Arith? && OPCODE_IEQ <= opP.code <= OPCODE_IGTE {
        bb.ops := bb.ops[last := Jump(OPCODE_IJEQ + (opP.code - OPCODE_IEQ), opP.a, opP.b)];
        fused := true;
        return;
      }
      if opP.ArithC? && OPCODE_IEQC <= opP.code <= OPCODE_IGTEC {
        bb.ops := bb.ops[last := JumpC(OPCODE_IJEQC + (opP.code - OPCODE_IEQC), opP.a, opP.n)];
        fused := true;
        return;
      }
      if opP.Arith? && OPCODE_FEQ <= opP.code <= OPCODE_FGTE {
        bb.ops := bb.ops[last := Jump(OPCODE_FJEQ + (opP.code - OPCODE_FEQ), opP.a, opP.b)];
        fused := true;
        return;
      }
      if opP.ArithC? && OPCODE_FEQC <= opP.code <= OPCODE_FGTEC {
        bb.ops := bb.ops[last := JumpC(OPCODE_FJEQC + (opP.code - OPCODE_FEQC), opP.a, opP.n)];
        fused := true;
        return;
      }
      break;
    }
    fused := false;
  }

  /** BUILD_asmJMPF */
  method BuildAsmJMPF(bb: BasicBlock, a: Reg) returns (swap: bool)
    modifies bb
    ensures Fuse(old(bb.ops), a) == Fused(bb.ops, swap)
  {
    var fused, a', s := ClassicAsmJMPF(bb, a);
    if !fused { bb.Add(JMPF(a')); }
    swap := s;
  }

  /** EXPR_asmJMPIF: the code of a condition and the jump on it. The label is reached over the
      jump, or past it if swap is returned. */
  method ExprAsmJMPIF(bb: BasicBlock, a: int, e: KExpr, onTrue: bool, shift: int, esp: int) returns (swap: bool)
    requires e.Valid()
    modifies bb, e.repr
    ensures Fuse(old(bb.ops) + Condition(old(e.Tree()), a, onTrue, shift, esp), NC(a)) == Fused(bb.ops, swap)
  {
    ghost var pre := bb.ops;
    ghost var tree := e.Tree();
    ExprAsm(bb, a, e, shift, esp);
    if onTrue { bb.Add(BNOT(NC(a), NC(a))); }
    assert bb.ops == pre + Condition(tree, a, onTrue, shift, esp);
    swap := BuildAsmJMPF(bb, NC(a));
  }
}
