/**
  The integer part of the expression compiler (module/classicvm/classicvm.h:243-306 and
  :439-466, with the leaf cases of src/vm/asm.c:560-646): code emitted at a stack index
  leaves the value of the expression there and touches nothing below.
 */
module VmCompile {

  import opened Options
  import opened VmCode

  // ---------------------------------------------------------------- expressions

  /** Integer expressions: NConst is a literal (TEXPR_NCONST), Const a constant of the pool
      (TEXPR_CONST), StackTop a slot counted from the block's own shift. BoolLocal is a slot
      that holds a truth value. */
  datatype Expr =
    | NConst(n: Word)
    | Const(n: Word)
    | Local(index: int)
    | StackTop(index: int)
    | BoolLocal(index: int)
    | Neg(e: Expr)
    | Bin(mn: Method, l: Expr, r: Expr)

  /** Registers of a stack slot: the number of slot i. */
  function NC(i: int): Reg { 2 * i + 1 }

  predicate IsInt(e: Expr) {
    !e.BoolLocal? && (e.Bin? ==> !IsCompare(e.mn))
  }

  /** Methods are those of integers, and operands are integers. */
  predicate WellTyped(e: Expr) {
    match e
    case Neg(e1) => IsInt(e1) && WellTyped(e1)
    case Bin(mn, l, r) => !IsFloat(mn) && IsInt(l) && WellTyped(l) && IsInt(r) && WellTyped(r)
    case _ => true
  }

  /** The slots an expression reads are below slot esp. */
  predicate Below(e: Expr, shift: int, esp: int) {
    match e
    case Local(i) => i < esp
    case StackTop(i) => i + shift < esp
    case BoolLocal(i) => i < esp
    case Neg(e1) => Below(e1, shift, esp)
    case Bin(_, l, r) => Below(l, shift, esp) && Below(r, shift, esp)
    case _ => true
  }

  /** What an expression means: left to right, with no value if an operation has none. */
  function Eval<U>(m: Machine<U>, e: Expr, shift: int, regs: Regs): Option<Value> {
    match e
    case NConst(n) => Some(Num(n))
    case Const(n) => Some(Num(n))
    case Local(i) => Some(Num(regs[NC(i)]))
    case StackTop(i) => Some(Num(regs[NC(i + shift)]))
    case BoolLocal(i) => Some(Bool(IsTrue(m, regs[NC(i)])))
    case Neg(e1) => Negated(m, Eval(m, e1, shift, regs))
    case Bin(mn, l, r) => Applied(m, mn, Eval(m, l, shift, regs), Eval(m, r, shift, regs))
  }

  function Negated<U>(m: Machine<U>, x: Option<Value>): Option<Value> {
    if x.Some? && x.value.Num? then Some(Num(m.neg(x.value.w))) else None
  }

  function Applied<U>(m: Machine<U>, mn: Method, x: Option<Value>, y: Option<Value>): Option<Value> {
    if x.Some? && x.value.Num? && y.Some? && y.value.Num? then m.apply(mn, x.value.w, y.value.w) else None
  }

  // ---------------------------------------------------------------- the compiler

  /** The methods whose operands may change places. */
  predicate Swaps(mn: Method) {
    mn !in {SUB, DIV, MOD, LSFT, RSFT} && !IsFloat(mn)
  }

  /** The method that means the same with its operands in the other order. */
  function Flip(mn: Method): Method {
    match mn
    case LT => GT
    case LTE => GTE
    case GT => LT
    case GTE => LTE
    case _ => mn
  }

  /** OPR_hasCONST: a literal is brought to the right if the method allows it. */
  datatype Operands = Operands(mn: Method, l: Expr, r: Expr, isConst: bool)

  function Ordered(mn: Method, l: Expr, r: Expr): Operands {
    if Swaps(mn) && l.NConst? then Operands(Flip(mn), r, l, true) else Operands(mn, l, r, r.NConst?)
  }

  /** A literal divisor of zero is taken for one. */
  function Divisor(mn: Method, n: Word): Word {
    if n == 0 && (mn == DIV || mn == MOD) then 1 else n
  }

  /** EXPR_asm: the code that leaves e in slot a, using slots from esp on. */
  function Compile(e: Expr, a: int, shift: int, esp: int): seq<Op>
    decreases e, 1
  {
    match e
    case NConst(n) => [NSET(NC(a), n)]
    case Const(n) => [NSET(NC(a), n)]
    case Local(i) => [NMOV(NC(a), NC(i))]
    case StackTop(i) => [NMOV(NC(a), NC(i + shift))]
    case BoolLocal(i) => [NMOV(NC(a), NC(i))]
    case _ => Call(e, shift, esp) + if a != esp then [NMOV(NC(a), NC(esp))] else []
  }

  /** CALL_asm: the code that leaves the result of a method in slot esp. */
  function Call(e: Expr, shift: int, esp: int): seq<Op>
    requires e.Neg? || e.Bin?
    decreases e, 0
  {
    match e
    case Neg(e1) => Compile(e1, esp + 1, shift, esp + 1) + [INEG(NC(esp), NC(esp + 1))]
    case Bin(mn, l, r) =>
      var o := Ordered(mn, l, r);
      if o.isConst then
        Compile(o.l, esp + 1, shift, esp + 1)
          + [ArithC(OPimn(o.mn, OPCODE_IADDC - OPCODE_IADD), NC(esp), NC(esp + 1), Divisor(o.mn, o.r.n))]
      else
        Compile(l, esp + 1, shift, esp + 1) + Compile(r, esp + 2, shift, esp + 2)
          + [Arith(OPimn(mn, 0), NC(esp), NC(esp + 1), NC(esp + 2))]
  }

  /** The expression that the code computes: literal divisors of zero are ones. */
  function Patch(e: Expr): Expr {
    match e
    case Neg(e1) => Neg(Patch(e1))
    case Bin(mn, l, r) => Bin(mn, Patch(l), if r.NConst? then NConst(Divisor(mn, r.n)) else Patch(r))
    case _ => e
  }

  predicate NoZeroDivisor(e: Expr) {
    match e
    case Neg(e1) => NoZeroDivisor(e1)
    case Bin(mn, l, r) => NoZeroDivisor(l) && NoZeroDivisor(r) && !((mn == DIV || mn == MOD) && r == NConst(0))
    case _ => true
  }

  // ---------------------------------------------------------------- what is asked of the machine

  ghost predicate Lawful<U>(m: Machine<U>) {
    && (forall mn, x, y :: m.apply(mn, x, y).Some? ==> (m.apply(mn, x, y).value.Bool? <==> IsCompare(mn)))
    && (forall mn, x, y :: Swaps(mn) ==> m.apply(mn, x, y) == m.apply(Flip(mn), y, x))
    && (forall w, b :: IsTrue(m, SetBool(m, w, b)) == b)
    && (forall x :: m.apply(DIV, x, 0) == None && m.apply(MOD, x, 0) == None)
  }

  // ---------------------------------------------------------------- correctness

  /** A register holds a value: a truth value takes up only part of the word. */
  predicate Holds<U>(m: Machine<U>, w: Word, v: Value) {
    match v
    case Num(x) => w == x
    case Bool(b) => IsTrue(m, w) == b
  }

  ghost predicate SameBelow(r: Regs, r': Regs, c: Reg) {
    forall i: Reg | i < c :: r'[i] == r[i]
  }

  /** From s, execution ended in t: with v in register c, all below and besides as it was, or
      in a trap if there is no v. */
  ghost predicate Leaves<U>(m: Machine<U>, s: State<U>, t: Option<State<U>>, c: Reg, v: Option<Value>) {
    && (t.None? <==> v.None?)
    && (t.Some? && v.Some? ==>
      && Holds(m, t.value.regs[c], v.value)
      && SameBelow(s.regs, t.value.regs, c) && t.value.world == s.world)
  }

  lemma {:induction false} EvalFrame<U>(m: Machine<U>, e: Expr, shift: int, esp: int, r: Regs, r': Regs)
    requires Below(e, shift, esp) && SameBelow(r, r', NC(esp))
    ensures Eval(m, e, shift, r') == Eval(m, e, shift, r)
  {
    match e
    case Neg(e1) => EvalFrame(m, e1, shift, esp, r, r');
    case Bin(mn, l, r0) =>
      EvalFrame(m, l, shift, esp, r, r');
      EvalFrame(m, r0, shift, esp, r, r');
    case _ =>
  }

  lemma {:induction false} PatchBelow(e: Expr, shift: int, esp: int)
    requires Below(e, shift, esp)
    ensures Below(Patch(e), shift, esp)
  {
    match e
    case Neg(e1) => PatchBelow(e1, shift, esp);
    case Bin(mn, l, r) => PatchBelow(l, shift, esp); PatchBelow(r, shift, esp);
    case _ =>
  }

  lemma {:induction false} PatchTyped(e: Expr)
    requires WellTyped(e)
    ensures WellTyped(Patch(e)) && IsInt(Patch(e)) == IsInt(e)
  {
    match e
    case Neg(e1) => PatchTyped(e1);
    case Bin(mn, l, r) => PatchTyped(l); PatchTyped(r);
    case _ =>
  }

  lemma {:induction false} BelowMore(e: Expr, shift: int, esp: int, esp': int)
    requires Below(e, shift, esp) && esp <= esp'
    ensures Below(e, shift, esp')
  {
    match e
    case Neg(e1) => BelowMore(e1, shift, esp, esp');
    case Bin(mn, l, r) => BelowMore(l, shift, esp, esp'); BelowMore(r, shift, esp, esp');
    case _ =>
  }

  /** The value of an integer expression is a number. */
  lemma {:induction false} IntValue<U>(m: Machine<U>, e: Expr, shift: int, regs: Regs)
    requires Lawful(m) && WellTyped(e) && IsInt(e)
    ensures var v := Eval(m, e, shift, regs); v.Some? ==> v.value.Num?
  {
  }

  lemma StepSet<U>(m: Machine<U>, c: Reg, n: Word, s: State<U>)
    ensures Run(Steps(m), [NSET(c, n)], Some(s)) == Some(State(s.regs[c := n], s.world))
  {
    RunOne(Steps(m), NSET(c, n), Some(s));
  }

  lemma StepMove<U>(m: Machine<U>, c: Reg, b: Reg, s: State<U>)
    ensures Run(Steps(m), [NMOV(c, b)], Some(s)) == Some(State(s.regs[c := s.regs[b]], s.world))
  {
    RunOne(Steps(m), NMOV(c, b), Some(s));
  }

  lemma {:induction false} StepNeg<U>(m: Machine<U>, c: Reg, a: Reg, s: State<U>)
    ensures Run(Steps(m), [INEG(c, a)], Some(s)) == PutValue(m, s, c, Some(Num(m.neg(s.regs[a]))))
  {
    RunOne(Steps(m), INEG(c, a), Some(s));
  }

  lemma ExecArith<U>(m: Machine<U>, code: nat, c: Reg, a: Reg, b: Reg, s: State<U>)
    ensures Steps(m)(Arith(code, c, a, b), s) == PutApply(m, s, ArithMethod(code), c, s.regs[a], s.regs[b])
  {
  }

  lemma ExecArithC<U>(m: Machine<U>, code: nat, c: Reg, a: Reg, n: Word, s: State<U>)
    ensures Steps(m)(ArithC(code, c, a, n), s) == PutApply(m, s, ArithCMethod(code), c, s.regs[a], n)
  {
  }

  lemma {:induction false} StepArith<U>(m: Machine<U>, mn: Method, c: Reg, a: Reg, b: Reg, s: State<U>)
    ensures Run(Steps(m), [Arith(OPimn(mn, 0), c, a, b)], Some(s))
      == PutValue(m, s, c, m.apply(mn, s.regs[a], s.regs[b]))
  {
    var code := OPimn(mn, 0);
    assert ArithMethod(code) == Some(mn) by { OpcodeOffsets(mn); }
    RunOne(Steps(m), Arith(code, c, a, b), Some(s));
    ExecArith(m, code, c, a, b, s);
  }

  lemma {:induction false} StepArithC<U>(m: Machine<U>, mn: Method, c: Reg, a: Reg, n: Word, s: State<U>)
    ensures Run(Steps(m), [ArithC(OPimn(mn, ConstDiff(mn)), c, a, n)], Some(s))
      == PutValue(m, s, c, m.apply(mn, s.regs[a], n))
  {
    var code := OPimn(mn, ConstDiff(mn));
    assert ArithCMethod(code) == Some(mn) by { OpcodeOffsets(mn); }
    RunOne(Steps(m), ArithC(code, c, a, n), Some(s));
    ExecArithC(m, code, c, a, n, s);
  }

  lemma PutLeaves<U>(m: Machine<U>, s: State<U>, t: State<U>, c: Reg, v: Option<Value>)
    requires Lawful(m) && SameBelow(s.regs, t.regs, c) && t.world == s.world
    ensures Leaves(m, s, PutValue(m, t, c, v), c, v)
  {
    if v.Some? && v.value.Bool? {
      assert IsTrue(m, SetBool(m, t.regs[c], v.value.b)) == v.value.b;
    }
  }

  lemma AfterNeg<U>(m: Machine<U>, s: State<U>, t: Option<State<U>>, esp: int, x: Option<Value>)
    requires Lawful(m) && Leaves(m, s, t, NC(esp + 1), x) && (x.Some? ==> x.value.Num?)
    ensures Leaves(m, s, Run(Steps(m), [INEG(NC(esp), NC(esp + 1))], t), NC(esp), Negated(m, x))
  {
    if t.Some? {
      StepNeg(m, NC(esp), NC(esp + 1), t.value);
      PutLeaves(m, s, t.value, NC(esp), Negated(m, x));
    } else {
      RunTrapped(Steps(m), [INEG(NC(esp), NC(esp + 1))]);
    }
  }

  /** The instruction for a method with a literal on the right. */
  function ConstOp(o: Operands, esp: int): Op
    requires o.isConst ==> o.r.NConst?
  {
    ArithC(OPimn(o.mn, OPCODE_IADDC - OPCODE_IADD), NC(esp), NC(esp + 1),
      if o.r.NConst? then Divisor(o.mn, o.r.n) else 0)
  }

  lemma {:induction false} AfterArithC<U>(m: Machine<U>, s: State<U>, t: Option<State<U>>, o: Operands, esp: int,
      x: Option<Value>)
    requires Lawful(m) && !IsFloat(o.mn) && o.r.NConst? && Leaves(m, s, t, NC(esp + 1), x) && (x.Some? ==> x.value.Num?)
    ensures Leaves(m, s, Run(Steps(m), [ConstOp(o, esp)], t), NC(esp),
      Applied(m, o.mn, x, Some(Num(Divisor(o.mn, o.r.n)))))
  {
    if t.Some? {
      StepArithC(m, o.mn, NC(esp), NC(esp + 1), Divisor(o.mn, o.r.n), t.value);
      PutLeaves(m, s, t.value, NC(esp), Applied(m, o.mn, x, Some(Num(Divisor(o.mn, o.r.n)))));
    } else {
      RunTrapped(Steps(m), [ConstOp(o, esp)]);
    }
  }

  lemma {:induction false} AfterArith<U>(m: Machine<U>, s: State<U>, t: Option<State<U>>, t2: Option<State<U>>,
      mn: Method, esp: int,
      x: Option<Value>, y: Option<Value>)
    requires Lawful(m) && Leaves(m, s, t, NC(esp + 1), x) && (x.Some? ==> x.value.Num?)
    requires if t.Some? then Leaves(m, t.value, t2, NC(esp + 2), y) && (y.Some? ==> y.value.Num?) else t2.None?
    ensures Leaves(m, s, Run(Steps(m), [Arith(OPimn(mn, 0), NC(esp), NC(esp + 1), NC(esp + 2))], t2), NC(esp),
      Applied(m, mn, x, y))
  {
    if t2.Some? {
      StepArith(m, mn, NC(esp), NC(esp + 1), NC(esp + 2), t2.value);
      PutLeaves(m, s, t2.value, NC(esp), Applied(m, mn, x, y));
    } else {
      RunTrapped(Steps(m), [Arith(OPimn(mn, 0), NC(esp), NC(esp + 1), NC(esp + 2))]);
    }
  }

  /** The right operand, as patched: a literal stays a literal. */
  function PatchRight(mn: Method, r: Expr): Expr {
    if r.NConst? then NConst(Divisor(mn, r.n)) else Patch(r)
  }

  lemma {:induction false} PatchedBin<U>(m: Machine<U>, mn: Method, l: Expr, r: Expr, shift: int, regs: Regs)
    ensures Eval(m, Patch(Bin(mn, l, r)), shift, regs)
      == Applied(m, mn, Eval(m, Patch(l), shift, regs), Eval(m, PatchRight(mn, r), shift, regs))
  {
  }

  /** Bringing a literal to the right does not change the value. */
  lemma {:induction false} SwappedMeaning<U>(m: Machine<U>, mn: Method, n: Word, r: Expr, shift: int, regs: Regs)
    requires Lawful(m) && Swaps(mn)
    ensures Applied(m, Flip(mn), Eval(m, Patch(r), shift, regs), Some(Num(n)))
      == Eval(m, Patch(Bin(mn, NConst(n), r)), shift, regs)
  {
    PatchedBin(m, mn, NConst(n), r, shift, regs);
    assert Eval(m, PatchRight(mn, r), shift, regs) == Eval(m, Patch(r), shift, regs);
    var y := Eval(m, Patch(r), shift, regs);
    if y.Some? && y.value.Num? {
      assert m.apply(mn, n, y.value.w) == m.apply(Flip(mn), y.value.w, n);
    }
  }

  /** The word that the code of an expression without operands puts into a register. */
  function LeafWord(e: Expr, shift: int, regs: Regs): Word {
    match e
    case NConst(n) => n
    case Const(n) => n
    case Local(i) => regs[NC(i)]
    case StackTop(i) => regs[NC(i + shift)]
    case BoolLocal(i) => regs[NC(i)]
    case _ => 0
  }

  lemma {:induction false} LeafValue<U>(m: Machine<U>, e: Expr, shift: int, regs: Regs)
    requires !e.Neg? && !e.Bin?
    ensures var v := Eval(m, Patch(e), shift, regs); v.Some? && Holds(m, LeafWord(e, shift, regs), v.value)
  {
  }

  lemma LeafRuns<U>(m: Machine<U>, e: Expr, a: int, shift: int, esp: int, s: State<U>)
    requires !e.Neg? && !e.Bin?
    ensures Run(Steps(m), Compile(e, a, shift, esp), Some(s))
      == Some(State(s.regs[NC(a) := LeafWord(e, shift, s.regs)], s.world))
  {
    match e
    case NConst(n) => StepSet(m, NC(a), n, s);
    case Const(n) => StepSet(m, NC(a), n, s);
    case Local(i) => StepMove(m, NC(a), NC(i), s);
    case StackTop(i) => StepMove(m, NC(a), NC(i + shift), s);
    case BoolLocal(i) => StepMove(m, NC(a), NC(i), s);
  }

  lemma LeafCorrect<U>(m: Machine<U>, e: Expr, shift: int, esp: int, s: State<U>)
    requires !e.Neg? && !e.Bin?
    ensures Correct(m, e, shift, esp, s)
  {
    LeafRuns(m, e, esp, shift, esp, s);
    LeafValue(m, e, shift, s.regs);
  }

  /** What is to be shown of the code for e at any slot from esp on. */
  ghost predicate Correct<U>(m: Machine<U>, e: Expr, shift: int, esp: int, s: State<U>) {
    Leaves(m, s, Run(Steps(m), Compile(e, esp, shift, esp), Some(s)), NC(esp), Eval(m, Patch(e), shift, s.regs))
  }

  lemma {:induction false} Appended<U>(m: Machine<U>, e: Expr, code: seq<Op>, op: Op, shift: int, esp: int, s: State<U>)
    requires Compile(e, esp, shift, esp) == code + [op]
    requires Leaves(m, s, Run(Steps(m), [op], Run(Steps(m), code, Some(s))), NC(esp), Eval(m, Patch(e), shift, s.regs))
    ensures Correct(m, e, shift, esp, s)
  {
    RunAppend(Steps(m), code, [op], Some(s));
  }

  lemma {:induction false} NegCode(e: Expr, shift: int, esp: int)
    ensures Compile(Neg(e), esp, shift, esp) == Compile(e, esp + 1, shift, esp + 1) + [INEG(NC(esp), NC(esp + 1))]
  {
  }

  lemma {:induction false} NegCorrect<U>(m: Machine<U>, e: Expr, shift: int, esp: int, s: State<U>)
    requires Lawful(m) && WellTyped(e) && IsInt(e) && Correct(m, e, shift, esp + 1, s)
    ensures Correct(m, Neg(e), shift, esp, s)
  {
    var x := Eval(m, Patch(e), shift, s.regs);
    PatchedInt(m, e, shift, s.regs);
    var code := Compile(e, esp + 1, shift, esp + 1);
    AfterNeg(m, s, Run(Steps(m), code, Some(s)), esp, x);
    NegCode(e, shift, esp);
    PatchedNeg(m, e, shift, s.regs);
    Appended(m, Neg(e), code, INEG(NC(esp), NC(esp + 1)), shift, esp, s);
  }

  lemma {:induction false} PatchedNeg<U>(m: Machine<U>, e: Expr, shift: int, regs: Regs)
    ensures Eval(m, Patch(Neg(e)), shift, regs) == Negated(m, Eval(m, Patch(e), shift, regs))
  {
  }

  lemma {:induction false} PatchedInt<U>(m: Machine<U>, e: Expr, shift: int, regs: Regs)
    requires Lawful(m) && WellTyped(e) && IsInt(e)
    ensures var x := Eval(m, Patch(e), shift, regs); x.Some? ==> x.value.Num?
  {
    PatchTyped(e);
    IntValue(m, Patch(e), shift, regs);
  }

  lemma {:induction false} BinConstCode(mn: Method, l: Expr, r: Expr, shift: int, esp: int)
    requires Ordered(mn, l, r).isConst
    ensures var o := Ordered(mn, l, r);
      Compile(Bin(mn, l, r), esp, shift, esp) == Compile(o.l, esp + 1, shift, esp + 1) + [ConstOp(o, esp)]
  {
  }

  lemma {:induction false} BinConstValue<U>(m: Machine<U>, mn: Method, l: Expr, r: Expr, shift: int, regs: Regs)
    requires Lawful(m) && Ordered(mn, l, r).isConst
    ensures var o := Ordered(mn, l, r);
      Applied(m, o.mn, Eval(m, Patch(o.l), shift, regs), Some(Num(Divisor(o.mn, o.r.n))))
        == Eval(m, Patch(Bin(mn, l, r)), shift, regs)
  {
    if Swaps(mn) && l.NConst? {
      SwappedMeaning(m, mn, l.n, r, shift, regs);
    } else {
      PatchedBin(m, mn, l, r, shift, regs);
    }
  }

  lemma {:induction false} ConstAppended<U>(m: Machine<U>, e: Expr, code: seq<Op>, o: Operands, shift: int, esp: int,
      s: State<U>, x: Option<Value>)
    requires Lawful(m) && !IsFloat(o.mn) && o.r.NConst? && Compile(e, esp, shift, esp) == code + [ConstOp(o, esp)]
    requires Leaves(m, s, Run(Steps(m), code, Some(s)), NC(esp + 1), x) && (x.Some? ==> x.value.Num?)
    requires Eval(m, Patch(e), shift, s.regs) == Applied(m, o.mn, x, Some(Num(Divisor(o.mn, o.r.n))))
    ensures Correct(m, e, shift, esp, s)
  {
    AfterArithC(m, s, Run(Steps(m), code, Some(s)), o, esp, x);
    Appended(m, e, code, ConstOp(o, esp), shift, esp, s);
  }

  lemma {:induction false} OrderedTyped(mn: Method, l: Expr, r: Expr)
    requires WellTyped(Bin(mn, l, r))
    ensures var o := Ordered(mn, l, r); !IsFloat(o.mn) && WellTyped(o.l) && IsInt(o.l) && (o.isConst ==> o.r.NConst?)
  {
  }

  lemma ConstCorrect<U>(m: Machine<U>, e: Expr, o: Operands, shift: int, esp: int, s: State<U>)
    requires Lawful(m) && !IsFloat(o.mn) && WellTyped(o.l) && IsInt(o.l) && o.r.NConst?
    requires Compile(e, esp, shift, esp) == Compile(o.l, esp + 1, shift, esp + 1) + [ConstOp(o, esp)]
    requires Eval(m, Patch(e), shift, s.regs)
      == Applied(m, o.mn, Eval(m, Patch(o.l), shift, s.regs), Some(Num(Divisor(o.mn, o.r.n))))
    requires Correct(m, o.l, shift, esp + 1, s)
    ensures Correct(m, e, shift, esp, s)
  {
    PatchedInt(m, o.l, shift, s.regs);
    ConstAppended(m, e, Compile(o.l, esp + 1, shift, esp + 1), o, shift, esp, s, Eval(m, Patch(o.l), shift, s.regs));
  }

  lemma {:induction false} BinConstCorrect<U>(m: Machine<U>, mn: Method, l: Expr, r: Expr, shift: int, esp: int,
      s: State<U>)
    requires Lawful(m) && WellTyped(Bin(mn, l, r))
    requires var o := Ordered(mn, l, r); o.isConst && Correct(m, o.l, shift, esp + 1, s)
    ensures Correct(m, Bin(mn, l, r), shift, esp, s)
  {
    OrderedTyped(mn, l, r);
    BinConstCode(mn, l, r, shift, esp);
    BinConstValue(m, mn, l, r, shift, s.regs);
    ConstCorrect(m, Bin(mn, l, r), Ordered(mn, l, r), shift, esp, s);
  }

  lemma {:induction false} BinCode(mn: Method, l: Expr, r: Expr, shift: int, esp: int)
    requires !Ordered(mn, l, r).isConst && !r.NConst?
    ensures Compile(Bin(mn, l, r), esp, shift, esp)
      == Compile(l, esp + 1, shift, esp + 1) + Compile(r, esp + 2, shift, esp + 2)
      + [Arith(OPimn(mn, 0), NC(esp), NC(esp + 1), NC(esp + 2))]
  {
  }

  lemma ArithAppended<U>(m: Machine<U>, e: Expr, code: seq<Op>, mn: Method, shift: int, esp: int, s: State<U>,
      t: Option<State<U>>, x: Option<Value>, y: Option<Value>)
    requires Lawful(m) && Compile(e, esp, shift, esp) == code + [Arith(OPimn(mn, 0), NC(esp), NC(esp + 1), NC(esp + 2))]
    requires Leaves(m, s, t, NC(esp + 1), x) && (x.Some? ==> x.value.Num?)
    requires var t2 := Run(Steps(m), code, Some(s));
      if t.Some? then Leaves(m, t.value, t2, NC(esp + 2), y) && (y.Some? ==> y.value.Num?) else t2.None?
    requires Eval(m, Patch(e), shift, s.regs) == Applied(m, mn, x, y)
    ensures Correct(m, e, shift, esp, s)
  {
    AfterArith(m, s, t, Run(Steps(m), code, Some(s)), mn, esp, x, y);
    Appended(m, e, code, Arith(OPimn(mn, 0), NC(esp), NC(esp + 1), NC(esp + 2)), shift, esp, s);
  }

  lemma {:induction false} BinCorrect<U>(m: Machine<U>, mn: Method, l: Expr, r: Expr, shift: int, esp: int,
      s: State<U>, t: Option<State<U>>)
    requires Lawful(m) && WellTyped(Bin(mn, l, r)) && Below(Bin(mn, l, r), shift, esp) && !Ordered(mn, l, r).isConst
    requires Correct(m, l, shift, esp + 1, s) && t == Run(Steps(m), Compile(l, esp + 1, shift, esp + 1), Some(s))
    requires t.Some? ==> Correct(m, r, shift, esp + 2, t.value)
    ensures Correct(m, Bin(mn, l, r), shift, esp, s)
  {
    PatchedInt(m, l, shift, s.regs);
    PatchedInt(m, r, shift, s.regs);
    var left, right := Compile(l, esp + 1, shift, esp + 1), Compile(r, esp + 2, shift, esp + 2);
    var t2 := Run(Steps(m), right, t);
    if t.Some? {
      PatchBelow(r, shift, esp);
      EvalFrame(m, Patch(r), shift, esp, s.regs, t.value.regs);
    } else {
      RunTrapped(Steps(m), right);
    }
    RunAppend(Steps(m), left, right, Some(s));
    PatchedBin(m, mn, l, r, shift, s.regs);
    BinCode(mn, l, r, shift, esp);
    ArithAppended(m, Bin(mn, l, r), left + right, mn, shift, esp, s, t, Eval(m, Patch(l), shift, s.regs),
      Eval(m, Patch(r), shift, s.regs));
  }

  /** The code emitted for e at a stack index leaves the value of e there, and nothing below
      that index changes; it traps exactly if e, literal divisors of zero aside, has no value. */
  lemma {:induction false} CompileCorrect<U>(m: Machine<U>, e: Expr, shift: int, esp: int, s: State<U>)
    requires Lawful(m) && WellTyped(e) && Below(e, shift, esp)
    ensures Correct(m, e, shift, esp, s)
    decreases e
  {
    match e
    case Neg(e1) =>
      BelowMore(e1, shift, esp, esp + 1);
      CompileCorrect(m, e1, shift, esp + 1, s);
      NegCorrect(m, e1, shift, esp, s);
    case Bin(mn, l, r) =>
      var o := Ordered(mn, l, r);
      BelowMore(o.l, shift, esp, esp + 1);
      BelowMore(r, shift, esp, esp + 2);
      CompileCorrect(m, o.l, shift, esp + 1, s);
      if o.isConst {
        BinConstCorrect(m, mn, l, r, shift, esp, s);
      } else {
        var t := Run(Steps(m), Compile(l, esp + 1, shift, esp + 1), Some(s));
        if t.Some? { CompileCorrect(m, r, shift, esp + 2, t.value); }
        BinCorrect(m, mn, l, r, shift, esp, s, t);
      }
    case _ => LeafCorrect(m, e, shift, esp, s);
  }

  /** From s, execution ended in t: with v in register a, those below c besides a as they were,
      or in a trap if there is no v. */
  ghost predicate LeavesIn<U>(m: Machine<U>, s: State<U>, t: Option<State<U>>, a: Reg, c: Reg, v: Option<Value>) {
    && (t.None? <==> v.None?)
    && (t.Some? && v.Some? ==>
      && Holds(m, t.value.regs[a], v.value) && t.value.world == s.world
      && forall i: Reg | i < c && i != a :: t.value.regs[i] == s.regs[i])
  }

  lemma {:induction false} MoveLeaves<U>(m: Machine<U>, s: State<U>, t: Option<State<U>>, a: Reg, c: Reg,
      v: Option<Value>)
    requires Leaves(m, s, t, c, v)
    ensures LeavesIn(m, s, Run(Steps(m), [NMOV(a, c)], t), a, c, v)
  {
    if t.Some? { StepMove(m, a, c, t.value); } else { RunTrapped(Steps(m), [NMOV(a, c)]); }
  }

  /** The same for a slot a below the stack index, where the result is moved to. */
  lemma {:induction false} CompileInto<U>(m: Machine<U>, e: Expr, a: int, shift: int, esp: int, s: State<U>)
    requires Lawful(m) && WellTyped(e) && Below(e, shift, esp) && a < esp
    ensures LeavesIn(m, s, Run(Steps(m), Compile(e, a, shift, esp), Some(s)), NC(a), NC(esp),
      Eval(m, Patch(e), shift, s.regs))
  {
    if !e.Neg? && !e.Bin? {
      LeafRuns(m, e, a, shift, esp, s);
      LeafValue(m, e, shift, s.regs);
    } else {
      CompileCorrect(m, e, shift, esp, s);
      var code := Call(e, shift, esp);
      assert Compile(e, esp, shift, esp) == code;
      MoveLeaves(m, s, Run(Steps(m), code, Some(s)), NC(a), NC(esp), Eval(m, Patch(e), shift, s.regs));
      RunAppend(Steps(m), code, [NMOV(NC(a), NC(esp))], Some(s));
    }
  }

  // ---------------------------------------------------------------- literal divisors of zero

  lemma {:induction false} PatchExact(e: Expr)
    ensures Patch(e) == e <==> NoZeroDivisor(e)
  {
    match e
    case Neg(e1) => PatchExact(e1);
    case Bin(mn, l, r) => PatchExact(l); PatchExact(r);
    case _ =>
  }

  lemma {:induction false} ZeroDivisorHasNoValue<U>(m: Machine<U>, e: Expr, shift: int, regs: Regs)
    requires Lawful(m) && !NoZeroDivisor(e)
    ensures Eval(m, e, shift, regs) == None
  {
    match e
    case Neg(e1) => ZeroDivisorHasNoValue(m, e1, shift, regs);
    case Bin(mn, l, r) =>
      if !NoZeroDivisor(l) {
        ZeroDivisorHasNoValue(m, l, shift, regs);
      } else if !NoZeroDivisor(r) {
        ZeroDivisorHasNoValue(m, r, shift, regs);
      } else {
        var x := Eval(m, l, shift, regs);
        if x.Some? && x.value.Num? { assert m.apply(mn, x.value.w, 0) == None; }
      }
  }

  /** The code computes the source expression exactly if no literal divisor in it is zero, or
      if it traps all the same. */
  lemma {:induction false} MeansSource<U>(m: Machine<U>, e: Expr, shift: int, regs: Regs)
    requires Lawful(m)
    ensures Eval(m, Patch(e), shift, regs) == Eval(m, e, shift, regs)
      <==> NoZeroDivisor(e) || Eval(m, Patch(e), shift, regs) == None
  {
    PatchExact(e);
    if !NoZeroDivisor(e) { ZeroDivisorHasNoValue(m, e, shift, regs); }
  }

  /** For every tree without a literal divisor of zero, the code emitted at a stack index leaves
      the value of the source tree there, and changes nothing below. */
  lemma {:induction false} CompileSource<U>(m: Machine<U>, e: Expr, shift: int, esp: int, s: State<U>)
    requires Lawful(m) && WellTyped(e) && Below(e, shift, esp) && NoZeroDivisor(e)
    ensures Leaves(m, s, Run(Steps(m), Compile(e, esp, shift, esp), Some(s)), NC(esp), Eval(m, e, shift, s.regs))
  {
    CompileCorrect(m, e, shift, esp, s);
    PatchExact(e);
  }

  // ---------------------------------------------------------------- the tree after compilation

  /** The compiler swaps operands in the tree itself, but does not change the method. */
  function SwapTree(e: Expr): Expr {
    match e
    case Neg(e1) => Neg(SwapTree(e1))
    case Bin(mn, l, r) =>
      if Swaps(mn) && l.NConst? then Bin(mn, SwapTree(r), l) else Bin(mn, SwapTree(l), SwapTree(r))
    case _ => e
  }

  /** The trees for which that is harmless. */
  predicate NoLiteralFirst(e: Expr) {
    match e
    case Neg(e1) => NoLiteralFirst(e1)
    case Bin(mn, l, r) => NoLiteralFirst(l) && NoLiteralFirst(r) && (l.NConst? ==> Flip(mn) == mn)
    case _ => true
  }

  lemma {:induction false} SwapTreeMeaning<U>(m: Machine<U>, e: Expr, shift: int, regs: Regs)
    requires Lawful(m) && NoLiteralFirst(e)
    ensures Eval(m, SwapTree(e), shift, regs) == Eval(m, e, shift, regs)
  {
    match e
    case Neg(e1) => SwapTreeMeaning(m, e1, shift, regs);
    case Bin(mn, l, r) =>
      SwapTreeMeaning(m, l, shift, regs);
      SwapTreeMeaning(m, r, shift, regs);
      if Swaps(mn) && l.NConst? {
        var y := Eval(m, r, shift, regs);
        if y.Some? && y.value.Num? { assert m.apply(mn, l.n, y.value.w) == m.apply(Flip(mn), y.value.w, l.n); }
      }
    case _ =>
  }

  /** Integer expressions hold no order comparison. */
  lemma {:induction false} IntIsHarmless(e: Expr)
    requires WellTyped(e) && IsInt(e)
    ensures NoLiteralFirst(e)
  {
    match e
    case Neg(e1) => IntIsHarmless(e1);
    case Bin(_, l, r) => IntIsHarmless(l); IntIsHarmless(r);
    case _ =>
  }

  /** An order comparison of literal n: its right operand has no number for a value, or one that
      compares with n like n with it. */
  predicate Symmetric<U>(m: Machine<U>, mn: Method, n: Word, y: Option<Value>) {
    y.Some? && y.value.Num? ==> m.apply(mn, n, y.value.w) == m.apply(mn, y.value.w, n)
  }

  lemma {:induction false} SwappedOnce<U>(m: Machine<U>, mn: Method, n: Word, r: Expr, shift: int, regs: Regs)
    requires Lawful(m) && WellTyped(r) && IsInt(r) && Swaps(mn)
    ensures var e := Bin(mn, NConst(n), r);
      Eval(m, SwapTree(e), shift, regs) == Eval(m, e, shift, regs) <==> Symmetric(m, mn, n, Eval(m, r, shift, regs))
  {
    IntIsHarmless(r);
    SwapTreeMeaning(m, r, shift, regs);
    var e, y := Bin(mn, NConst(n), r), Eval(m, r, shift, regs);
    assert Eval(m, e, shift, regs) == Applied(m, mn, Some(Num(n)), y);
    assert Eval(m, SwapTree(e), shift, regs) == Applied(m, mn, y, Some(Num(n)));
  }

  /** For every tree: the tree left behind has the value of the source tree exactly if that is no
      order comparison of a literal, or the comparison has the same outcome either way round. */
  lemma {:induction false} SwapTreeExactly<U>(m: Machine<U>, e: Expr, shift: int, regs: Regs)
    requires Lawful(m) && WellTyped(e)
    ensures Eval(m, SwapTree(e), shift, regs) == Eval(m, e, shift, regs)
      <==> (e.Bin? && e.l.NConst? && Flip(e.mn) != e.mn ==> Symmetric(m, e.mn, e.l.n, Eval(m, e.r, shift, regs)))
  {
    if e.Bin? && e.l.NConst? && Flip(e.mn) != e.mn {
      SwappedOnce(m, e.mn, e.l.n, e.r, shift, regs);
    } else {
      if e.Bin? { IntIsHarmless(e.l); IntIsHarmless(e.r); }
      if e.Neg? { IntIsHarmless(e.e); }
      SwapTreeMeaning(m, e, shift, regs);
    }
  }

  lemma {:induction false} SwapTreeTyped(e: Expr, shift: int, esp: int)
    requires WellTyped(e)
    ensures WellTyped(SwapTree(e)) && IsInt(SwapTree(e)) == IsInt(e)
    ensures Below(SwapTree(e), shift, esp) == Below(e, shift, esp) && NoZeroDivisor(SwapTree(e)) == NoZeroDivisor(e)
  {
    match e
    case Neg(e1) => SwapTreeTyped(e1, shift, esp);
    case Bin(_, l, r) => SwapTreeTyped(l, shift, esp); SwapTreeTyped(r, shift, esp);
    case _ =>
  }

  /** Compiled a second time, an expression leaves the value of the tree left behind. */
  lemma {:induction false} CompiledTwice<U>(m: Machine<U>, e: Expr, shift: int, esp: int, s: State<U>)
    requires Lawful(m) && WellTyped(e) && Below(e, shift, esp) && NoZeroDivisor(e)
    ensures Leaves(m, s, Run(Steps(m), Compile(SwapTree(e), esp, shift, esp), Some(s)), NC(esp),
      Eval(m, SwapTree(e), shift, s.regs))
  {
    SwapTreeTyped(e, shift, esp);
    CompileSource(m, SwapTree(e), shift, esp, s);
  }

  // ---------------------------------------------------------------- the compiler on the tree

  datatype Build = TNConst | TConst | TLocal | TStackTop | TCall

  datatype Ty = TyInt | TyBoolean

  /** A typed expression. A call has a method of Int and one or two operands, which OPR_hasCONST may
      swap; the method NONE is negation. */
  class KExpr {
    const build: Build
    const ty: Ty
    const ndata: Word
    const index: int
    const mtd: Option<Method>
    var e1: KExpr?
    var e2: KExpr?
    ghost const repr: set<KExpr>

    ghost predicate Valid()
      reads this, repr
      decreases repr
    {
      && this in repr
      && (build.TCall? ==>
        && e1 != null && e1 in repr && e1.repr < repr && this !in e1.repr && e1.Valid()
        && (mtd.Some? ==>
          && !IsFloat(mtd.value) && e2 != null && e2 in repr && e2.repr < repr && this !in e2.repr && e2.Valid()
          && e1.repr !! e2.repr))
    }

    ghost function Tree(): Expr
      requires Valid()
      reads this, repr
      decreases repr
    {
      match build
      case TNConst => NConst(ndata)
      case TConst => Const(ndata)
      case TLocal => if ty.TyBoolean? then BoolLocal(index) else Local(index)
      case TStackTop => StackTop(index)
      case TCall => if mtd.Some? then Bin(mtd.value, e1.Tree(), e2.Tree()) else Neg(e1.Tree())
    }

    /** An expression without operands. */
    constructor Leaf(b: Build, t: Ty, n: Word, i: int)
      requires !b.TCall?
      ensures Valid() && fresh(repr)
      ensures Tree() == match b case TNConst => NConst(n) case TConst => Const(n)
        case TLocal => (if t.TyBoolean? then BoolLocal(i) else Local(i)) case _ => StackTop(i)
    {
      build, ty, ndata, index, mtd, e1, e2 := b, t, n, i, None, null, null;
      repr := {this};
    }

    /** A call of a method on two operands, which it takes over. */
    constructor Call(mn: Method, l: KExpr, r: KExpr)
      requires !IsFloat(mn) && l.Valid() && r.Valid() && l.repr !! r.repr
      ensures Valid() && repr == {this} + l.repr + r.repr && Tree() == Bin(mn, l.Tree(), r.Tree())
    {
      build, ty, ndata, index, mtd, e1, e2 := TCall, if IsCompare(mn) then TyBoolean else TyInt, 0, 0, Some(mn), l, r;
      repr := {this} + l.repr + r.repr;
    }

    /** A negation of an operand, which it takes over. */
    constructor Negation(e: KExpr)
      requires e.Valid()
      ensures Valid() && repr == {this} + e.repr && Tree() == Neg(e.Tree())
    {
      build, ty, ndata, index, mtd, e1, e2 := TCall, TyInt, 0, 0, None, e, null;
      repr := {this} + e.repr;
    }

    /** kExpr_swap */
    method Swap()
      requires Valid() && build.TCall? && mtd.Some?
      modifies this
      ensures Valid() && e1 == old(e2) && e2 == old(e1)
      ensures e1.Tree() == old(e2.Tree()) && e2.Tree() == old(e1.Tree())
    {
      e1, e2 := e2, e1;
    }

    /** OPR_hasCONST */
    method HasConst(mn: Method, swap: bool) returns (isConst: bool, newMn: Method)
      requires Valid() && build.TCall? && mtd.Some?
      modifies this
      ensures Valid()
      ensures var l, r := old(e1.Tree()), old(e2.Tree());
        if swap && l.NConst? then isConst && newMn == Flip(mn) && e1.Tree() == r && e2.Tree() == l
        else isConst == r.NConst? && newMn == mn && e1.Tree() == l && e2.Tree() == r
    {
      isConst, newMn := e2.build == TNConst, mn;
      if swap && e1.build == TNConst {
        Swap();
        newMn := Turned(mn);
        isConst := true;
      }
    }
  }

  /** The method for operands that have changed places, as OPR_hasCONST finds it. */
  method Turned(mn: Method) returns (newMn: Method)
    ensures newMn == Flip(mn)
  {
    newMn := mn;
    if mn == LT { newMn := GT; }
    else if mn == LTE { newMn := GTE; }
    else if mn == GT { newMn := LT; }
    else if mn == GTE { newMn := LTE; }
  }

  function Size(e: Expr): nat {
    match e
    case Neg(e1) => Size(e1) + 1
    case Bin(_, l, r) => Size(l) + Size(r) + 1
    case _ => 0
  }

  /** EXPR_asm */
  method ExprAsm(bb: BasicBlock, a: int, e: KExpr, shift: int, esp: int)
    requires e.Valid()
    modifies bb, e.repr
    ensures e.Valid() && e.Tree() == SwapTree(old(e.Tree()))
    ensures bb.ops == old(bb.ops) + Compile(old(e.Tree()), a, shift, esp)
    decreases Size(e.Tree()), 1
  {
    match e.build
    case TNConst => bb.Add(NSET(NC(a), e.ndata));
    case TConst => bb.Add(NSET(NC(a), e.ndata));
    case TLocal => bb.Add(NMOV(NC(a), NC(e.index)));
    case TStackTop => bb.Add(NMOV(NC(a), NC(e.index + shift)));
    case TCall =>
      CallAsm(bb, e, shift, esp);
      if a != esp { bb.Add(NMOV(NC(a), NC(esp))); }
  }

  lemma {:induction false} CallParts(mn: Method, l: Expr, r: Expr, shift: int, esp: int)
    ensures var o := Ordered(mn, l, r);
      if o.isConst then
        && SwapTree(Bin(mn, l, r)) == Bin(mn, SwapTree(o.l), o.r)
        && Call(Bin(mn, l, r), shift, esp) == Compile(o.l, esp + 1, shift, esp + 1)
          + [ArithC(OPimn(o.mn, OPCODE_IADDC - OPCODE_IADD), NC(esp), NC(esp + 1), Divisor(o.mn, o.r.n))]
      else
        && SwapTree(Bin(mn, l, r)) == Bin(mn, SwapTree(l), SwapTree(r))
        && Call(Bin(mn, l, r), shift, esp) == Compile(l, esp + 1, shift, esp + 1) + Compile(r, esp + 2, shift, esp + 2)
          + [Arith(OPimn(mn, 0), NC(esp), NC(esp + 1), NC(esp + 2))]
  {
  }

  /** The integer part of CLASSICVM_CALL_asm. */
  method CallAsm(bb: BasicBlock, e: KExpr, shift: int, esp: int)
    requires e.Valid() && e.build.TCall?
    modifies bb, e.repr
    ensures e.Valid() && e.Tree() == SwapTree(old(e.Tree()))
    ensures bb.ops == old(bb.ops) + Call(old(e.Tree()), shift, esp)
    decreases Size(e.Tree()), 0, 1
  {
    if e.mtd.None? {
      NegAsm(bb, e, shift, esp);
      return;
    }
    var mn := e.mtd.value;
    CallParts(mn, e.e1.Tree(), e.e2.Tree(), shift, esp);
    var swap := !(mn == SUB || mn == DIV || mn == MOD || mn == LSFT || mn == RSFT);
    var opcode := OPimn(mn, 0);
    var isConst, newMn := e.HasConst(mn, swap);
    if isConst {
      ConstAsm(bb, e, newMn, shift, esp);
    } else {
      PlainAsm(bb, e, opcode, shift, esp);
    }
  }

  /** Its code for a negation. */
  method NegAsm(bb: BasicBlock, e: KExpr, shift: int, esp: int)
    requires e.Valid() && e.build.TCall? && e.mtd.None?
    modifies bb, e.repr
    ensures e.Valid() && e.Tree() == SwapTree(old(e.Tree()))
    ensures bb.ops == old(bb.ops) + Call(old(e.Tree()), shift, esp)
    decreases Size(e.Tree()), 0, 0
  {
    var a := esp + 1;
    ExprAsm(bb, a, e.e1, shift, a);
    bb.Add(INEG(NC(esp), NC(a)));
  }

  /** Its code for a call with a literal on the right. */
  method ConstAsm(bb: BasicBlock, e: KExpr, mn: Method, shift: int, esp: int)
    requires e.Valid() && e.build.TCall? && e.mtd.Some? && e.e2.build == TNConst
    modifies bb, e.repr
    ensures e.Valid() && e.Tree() == Bin(e.mtd.value, SwapTree(old(e.e1.Tree())), old(e.e2.Tree()))
    ensures bb.ops == old(bb.ops) + (Compile(old(e.e1.Tree()), esp + 1, shift, esp + 1)
      + [ArithC(OPimn(mn, OPCODE_IADDC - OPCODE_IADD), NC(esp), NC(esp + 1), Divisor(mn, old(e.e2.Tree()).n))])
    decreases Size(e.Tree()), 0, 0
  {
    var a := esp + 1;
    ExprAsm(bb, a, e.e1, shift, a);
    var b := e.e2.ndata;
    if b == 0 && (mn == DIV || mn == MOD) { b := 1; }
    var opcode := OPimn(mn, OPCODE_IADDC - OPCODE_IADD);
    bb.Add(ArithC(opcode, NC(esp), NC(esp + 1), b));
  }

  /** Its code for a call without. */
  method PlainAsm(bb: BasicBlock, e: KExpr, opcode: nat, shift: int, esp: int)
    requires e.Valid() && e.build.TCall? && e.mtd.Some?
    modifies bb, e.repr
    ensures e.Valid() && e.Tree() == Bin(e.mtd.value, SwapTree(old(e.e1.Tree())), SwapTree(old(e.e2.Tree())))
    ensures bb.ops == old(bb.ops) + (Compile(old(e.e1.Tree()), esp + 1, shift, esp + 1)
      + Compile(old(e.e2.Tree()), esp + 2, shift, esp + 2) + [Arith(opcode, NC(esp), NC(esp + 1), NC(esp + 2))])
    decreases Size(e.Tree()), 0, 0
  {
    var a := esp + 1;
    var b := esp + 2;
    ExprAsm(bb, a, e.e1, shift, a);
    ExprAsm(bb, b, e.e2, shift, b);
    bb.Add(Arith(opcode, NC(esp), NC(a), NC(b)));
  }
}
